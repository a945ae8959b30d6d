/**
 * `FeatureEngineer` of ml_workflows/src/feature_engineering.py: the column-level decisions of
 * categorical encoding, domain feature engineering, scaling and feature selection, and the
 * `transformers` dictionary those steps fill in. Fitted transformers are represented by what
 * determines them (the categories, the input columns, the chosen features); numeric results
 * are not computed.
 */
module FeatureEngineering {
  import opened Wrappers
  import opened Frames
  import Decimal
  import Ranking
  import Pipeline

  datatype ScalerKind = Standard | MinMax | Robust

  /** An entry of the `transformers` dictionary. */
  datatype Transformer =
    | LabelEncoder(classes: seq<string>)
    | OneHotEncoder(categories: seq<string>)
    | PolynomialFeatures(inputs: seq<string>)
    | Scaler(kind: ScalerKind, columns: seq<string>)
    | FeatureSelector(k: nat, selected: seq<string>)

  type Registry = map<string, Transformer>

  // ---------------------------------------------------------------- categorical encoding

  /** Distinct-value counts up to which a categorical column is label-encoded as binary. */
  const BinaryLevels: nat := 2
  /** Distinct-value counts up to which (above binary) a column is one-hot encoded. */
  const OneHotLevels: nat := 10

  datatype Encoding = Label | OneHot

  /** The strategy for a categorical column with `distinct` values. */
  function EncodingFor(distinct: nat): (e: Encoding)
    ensures e == OneHot <==> BinaryLevels < distinct <= OneHotLevels
  {
    if distinct <= BinaryLevels then Label
    else if distinct <= OneHotLevels then OneHot
    else Label
  }

  /** `LabelEncoder` output: the codes 0 .. n-1, one per class. */
  function LabelCodes(n: nat): (codes: seq<string>)
    ensures |codes| == n
  {
    seq(n, i requires 0 <= i < n => Decimal.IntString(i))
  }

  /** The values of a one-hot indicator column. */
  const IndicatorLevels: seq<string> := ["0.0", "1.0"]

  function LabelKey(col: string): string { col + "_label_encoder" }
  function OneHotKey(col: string): string { col + "_onehot_encoder" }

  /** `{col}_{category}` for every category but the first (`drop='first'`). */
  function DummyNames(col: string, categories: seq<string>): (ns: seq<string>)
    ensures |ns| == if |categories| == 0 then 0 else |categories| - 1
  {
    if |categories| == 0 then []
    else seq(|categories| - 1, j requires 0 <= j < |categories| - 1 => col + "_" + categories[j + 1])
  }

  function DummyColumns(col: string, categories: seq<string>): (cs: Frame)
    ensures Names(cs) == DummyNames(col, categories)
  {
    var ns := DummyNames(col, categories);
    seq(|ns|, j requires 0 <= j < |ns| => Column(ns[j], Numeric, IndicatorLevels))
  }

  /**
   * One pass of the encoding loop: the strategy is chosen by the distinct count of the column
   * in the frame the loop started from, and applied to the column in the frame built so far.
   */
  function EncodeColumn(orig: Frame, cur: Frame, reg: Registry, col: string): (Frame, Registry) {
    match (Lookup(orig, col), Lookup(cur, col))
    case (Some(o), Some(c)) =>
      if EncodingFor(|o.levels|) == Label then
        (Set(cur, Column(col, Numeric, LabelCodes(|c.levels|))), reg[LabelKey(col) := LabelEncoder(c.levels)])
      else
        (Drop(AddColumns(cur, DummyColumns(col, c.levels)), col), reg[OneHotKey(col) := OneHotEncoder(c.levels)])
    case _ => (cur, reg)
  }

  /** The rest of the encoding loop, over the categorical columns `cols` still to do. */
  function EncodeFrom(orig: Frame, cur: Frame, reg: Registry, cols: seq<string>): (Frame, Registry)
    decreases |cols|
  {
    if |cols| == 0 then (cur, reg)
    else
      var (next, reg') := EncodeColumn(orig, cur, reg, cols[0]);
      EncodeFrom(orig, next, reg', cols[1..])
  }

  /** `encode_categorical_features`: a frame without object columns comes back as it is. */
  function Encode(df: Frame, reg: Registry): (r: (Frame, Registry))
    ensures ObjectNames(df) == [] ==> r == (df, reg)
  {
    EncodeFrom(df, df, reg, ObjectNames(df))
  }

  /** A column encoded with labels stays where it is, numeric, with one code per former value. */
  lemma LabelEncodedColumn(orig: Frame, cur: Frame, reg: Registry, col: string)
    requires Lookup(orig, col).Some? && Lookup(cur, col).Some?
    requires var n := |Lookup(orig, col).value.levels|; n <= BinaryLevels || OneHotLevels < n
    ensures var c := Lookup(cur, col).value;
      var (r, reg') := EncodeColumn(orig, cur, reg, col);
      && Names(r) == Names(cur)
      && Lookup(r, col) == Some(Column(col, Numeric, LabelCodes(|c.levels|)))
      && |Lookup(r, col).value.levels| == |c.levels|
      && reg' == reg[LabelKey(col) := LabelEncoder(c.levels)]
  {
    var c := Lookup(cur, col).value;
    SetLookup(cur, Column(col, Numeric, LabelCodes(|c.levels|)));
  }

  /**
   * A column with 3 to 10 distinct values is replaced by one indicator column per category but
   * the first, appended after the remaining columns (when those names are new).
   */
  lemma OneHotEncodedColumn(orig: Frame, cur: Frame, reg: Registry, col: string)
    requires Lookup(orig, col).Some? && Lookup(cur, col).Some?
    requires BinaryLevels < |Lookup(orig, col).value.levels| <= OneHotLevels
    requires var cats := Lookup(cur, col).value.levels;
      DistinctNames(cats) && forall n :: n in DummyNames(col, cats) ==> n !in Names(cur)
    ensures var cats := Lookup(cur, col).value.levels;
      var r := EncodeColumn(orig, cur, reg, col);
      && Names(r.0) == Without(Names(cur), [col]) + DummyNames(col, cats)
      && col !in Names(r.0)
      && r.1 == reg[OneHotKey(col) := OneHotEncoder(cats)]
  {
    var cats := Lookup(cur, col).value.levels;
    var dummies := DummyColumns(col, cats);
    var added := AddColumns(cur, dummies);
    assert EncodeColumn(orig, cur, reg, col).0 == Drop(added, col);
    OneHotNames(cur, col, cats);
  }

  lemma OneHotNames(cur: Frame, col: string, cats: seq<string>)
    requires DistinctNames(cats) && forall n :: n in DummyNames(col, cats) ==> n !in Names(cur)
    ensures Names(Drop(AddColumns(cur, DummyColumns(col, cats)), col)) == Without(Names(cur), [col]) + DummyNames(col, cats)
  {
    var dummies := DummyColumns(col, cats);
    var ns := DummyNames(col, cats);
    DummyNamesDistinct(col, cats);
    forall i | 0 <= i < |dummies| ensures dummies[i].name !in Names(cur) {
      assert dummies[i].name == ns[i];
    }
    AddFreshColumns(cur, dummies);
    var added := AddColumns(cur, dummies);
    NamesDrop(added, col);
    WithoutAppend(Names(cur), ns, [col]);
    WithoutNothing(ns, [col]);
  }

  /** Distinct categories give distinct indicator names, none of them the column's own. */
  lemma DummyNamesDistinct(col: string, cats: seq<string>)
    requires DistinctNames(cats)
    ensures DistinctNames(DummyNames(col, cats))
    ensures forall i :: 0 <= i < |DummyNames(col, cats)| ==> DummyNames(col, cats)[i] !in [col]
  {
    var ns := DummyNames(col, cats);
    var p := col + "_";
    forall i, j | 0 <= i < j < |ns| ensures ns[i] != ns[j] {
      assert ns[i] == p + cats[i + 1] && ns[j] == p + cats[j + 1];
      assert (p + cats[i + 1])[|p|..] == cats[i + 1];
      assert (p + cats[j + 1])[|p|..] == cats[j + 1];
    }
    forall i | 0 <= i < |ns| ensures ns[i] !in [col] {
      assert |ns[i]| > |col|;
    }
  }

  lemma {:induction false} WithoutAppend(a: seq<string>, b: seq<string>, excluded: seq<string>)
    ensures Without(a + b, excluded) == Without(a, excluded) + Without(b, excluded)
  {
    if |a| == 0 {
      assert a + b == b;
    } else {
      assert (a + b)[0] == a[0] && (a + b)[1..] == a[1..] + b;
      WithoutAppend(a[1..], b, excluded);
    }
  }

  lemma {:induction false} WithoutNothing(ns: seq<string>, excluded: seq<string>)
    requires forall i :: 0 <= i < |ns| ==> ns[i] !in excluded
    ensures Without(ns, excluded) == ns
  {
    if |ns| > 0 {
      WithoutNothing(ns[1..], excluded);
    }
  }

  /** Object columns whose names are not among `cols` are never there. */
  predicate ObjectsPending(cur: Frame, cols: seq<string>) {
    forall c :: c in cur && c.kind == Object ==> c.name in cols
  }

  lemma EncodeColumnProgress(orig: Frame, cur: Frame, reg: Registry, cols: seq<string>)
    requires |cols| > 0 && ObjectsPending(cur, cols) && Lookup(orig, cols[0]).Some?
    ensures ObjectsPending(EncodeColumn(orig, cur, reg, cols[0]).0, cols[1..])
  {
    var col := cols[0];
    var o := Lookup(orig, col).value;
    var found := Lookup(cur, col);
    if found.Some? {
      var k := found.value;
      if EncodingFor(|o.levels|) == Label {
        LabelStepPending(cur, cols, Column(col, Numeric, LabelCodes(|k.levels|)));
      } else {
        OneHotStepPending(cur, cols, k.levels);
      }
    } else {
      AbsentStepPending(cur, cols);
    }
  }

  lemma LabelStepPending(cur: Frame, cols: seq<string>, encoded: Column)
    requires |cols| > 0 && ObjectsPending(cur, cols) && encoded.name == cols[0] && encoded.kind == Numeric
    ensures ObjectsPending(Set(cur, encoded), cols[1..])
  {
    SetFrom(cur, encoded);
    assert cols == [cols[0]] + cols[1..];
  }

  lemma OneHotStepPending(cur: Frame, cols: seq<string>, levels: seq<string>)
    requires |cols| > 0 && ObjectsPending(cur, cols)
    ensures ObjectsPending(Drop(AddColumns(cur, DummyColumns(cols[0], levels)), cols[0]), cols[1..])
  {
    AddColumnsFrom(cur, DummyColumns(cols[0], levels));
    assert cols == [cols[0]] + cols[1..];
  }

  lemma AbsentStepPending(cur: Frame, cols: seq<string>)
    requires |cols| > 0 && ObjectsPending(cur, cols) && cols[0] !in Names(cur)
    ensures ObjectsPending(cur, cols[1..])
  {
    forall c | c in cur ensures c.name != cols[0] {
      var i :| 0 <= i < |cur| && cur[i] == c;
      assert Names(cur)[i] == c.name;
    }
    assert cols == [cols[0]] + cols[1..];
  }

  lemma {:induction false} EncodeFromNumeric(orig: Frame, cur: Frame, reg: Registry, cols: seq<string>)
    requires ObjectsPending(cur, cols)
    requires forall n :: n in cols ==> Lookup(orig, n).Some?
    ensures forall c :: c in EncodeFrom(orig, cur, reg, cols).0 ==> c.kind == Numeric
    decreases |cols|
  {
    if |cols| > 0 {
      EncodeColumnProgress(orig, cur, reg, cols);
      var (next, reg') := EncodeColumn(orig, cur, reg, cols[0]);
      EncodeFromNumeric(orig, next, reg', cols[1..]);
    }
  }

  /** After encoding, no object-typed column is left. */
  lemma EncodeLeavesOnlyNumeric(df: Frame, reg: Registry)
    ensures forall c :: c in Encode(df, reg).0 ==> c.kind == Numeric
  {
    forall n | n in ObjectNames(df) ensures Lookup(df, n).Some? {
      var c :| c in df && c.kind == Object && c.name == n;
      var i :| 0 <= i < |df| && df[i] == c;
      assert Names(df)[i] == n;
    }
    EncodeFromNumeric(df, df, reg, ObjectNames(df));
  }

  // ---------------------------------------------------------------- engineered features

  const HousingDataset: string := "california_housing"
  /** The datasets that get pairwise interaction features. */
  const InteractionDatasets: seq<string> := ["iris", "wine"]
  /** Names kept out of the numeric inputs of interaction features and of scaling. */
  const ExcludedTargets: seq<string> := ["target", "label", "class"]
  const AggregateNames: seq<string> := ["feature_sum", "feature_mean", "feature_std"]
  const PolynomialKey: string := "polynomial_features"

  /**
   * Computed numeric columns. Their values are not computed; `observe` stands for the distinct
   * values each one turns out to have.
   */
  function Derived(names: seq<string>, observe: string -> seq<string>): (cs: Frame)
    ensures Names(cs) == names
    ensures forall c :: c in cs ==> c.kind == Numeric
  {
    seq(|names|, i requires 0 <= i < |names| => Column(names[i], Numeric, observe(names[i])))
  }

  /** A ratio or distance column, added when both of its inputs were columns of the input frame. */
  function AddIfPresent(df: Frame, present: seq<string>, name: string, a: string, b: string,
                        observe: string -> seq<string>): (r: Frame)
    ensures name in Names(r) <==> name in Names(df) || (a in present && b in present)
    ensures forall n :: n != name ==> (n in Names(r) <==> n in Names(df))
    ensures Names(df) <= Names(r)
  {
    if a in present && b in present then Set(df, Column(name, Numeric, observe(name))) else df
  }

  /** The California housing features: each one exactly when both its inputs are present. */
  function HousingFeatures(df: Frame, observe: string -> seq<string>): (r: Frame)
    ensures Names(df) <= Names(r)
    ensures "RoomsToBedrooms" in Names(r) <==>
      "RoomsToBedrooms" in Names(df) || ("AveRooms" in Names(df) && "AveBedrms" in Names(df))
    ensures "PopulationDensity" in Names(r) <==>
      "PopulationDensity" in Names(df) || ("Population" in Names(df) && "AveOccup" in Names(df))
    ensures "DistanceFromCenter" in Names(r) <==>
      "DistanceFromCenter" in Names(df) || ("Latitude" in Names(df) && "Longitude" in Names(df))
  {
    var present := Names(df);
    var f1 := AddIfPresent(df, present, "RoomsToBedrooms", "AveRooms", "AveBedrms", observe);
    var f2 := AddIfPresent(f1, present, "PopulationDensity", "Population", "AveOccup", observe);
    AddIfPresent(f2, present, "DistanceFromCenter", "Latitude", "Longitude", observe)
  }

  /**
   * The degree-2 terms `PolynomialFeatures(interaction_only=True)` names: `"a b"` for every pair
   * of inputs, first input before second, in the order of `itertools.combinations`.
   */
  function PairNames(cols: seq<string>): (ps: seq<string>)
  {
    if |cols| == 0 then []
    else seq(|cols| - 1, j requires 0 <= j < |cols| - 1 => Pair(cols[0], cols[j + 1])) + PairNames(cols[1..])
  }

  /** The generated name of the product of two inputs. */
  function Pair(a: string, b: string): string {
    a + " " + b
  }

  /** `get_feature_names_out`: the inputs themselves, then the pair terms. */
  function PolyNames(cols: seq<string>): seq<string> {
    cols + PairNames(cols)
  }

  /** Every pair `i < j` of inputs has its name among the pair names. */
  lemma {:induction false} PairNamesCover(cols: seq<string>)
    ensures forall i, j :: 0 <= i < j < |cols| ==> Pair(cols[i], cols[j]) in PairNames(cols)
  {
    if |cols| > 0 {
      var head := seq(|cols| - 1, j requires 0 <= j < |cols| - 1 => Pair(cols[0], cols[j + 1]));
      var tail := cols[1..];
      PairNamesCover(tail);
      assert PairNames(cols) == head + PairNames(tail);
      forall i, j | 0 <= i < j < |cols| ensures Pair(cols[i], cols[j]) in PairNames(cols) {
        if i == 0 {
          assert head[j - 1] == Pair(cols[i], cols[j]);
        } else {
          assert tail[i - 1] == cols[i] && tail[j - 1] == cols[j];
          assert Pair(tail[i - 1], tail[j - 1]) in PairNames(tail);
        }
      }
    }
  }

  /** Every pair name is the name of a pair `i < j` of inputs. */
  lemma {:induction false} PairNamesArePairs(cols: seq<string>)
    ensures forall k :: 0 <= k < |PairNames(cols)| ==>
      exists i, j :: 0 <= i < j < |cols| && PairNames(cols)[k] == Pair(cols[i], cols[j])
  {
    if |cols| > 0 {
      var head := seq(|cols| - 1, j requires 0 <= j < |cols| - 1 => Pair(cols[0], cols[j + 1]));
      var tail := cols[1..];
      PairNamesArePairs(tail);
      var ps := PairNames(cols);
      assert ps == head + PairNames(tail);
      forall k | 0 <= k < |ps| ensures exists i, j :: 0 <= i < j < |cols| && ps[k] == Pair(cols[i], cols[j]) {
        if k < |head| {
          assert ps[k] == Pair(cols[0], cols[k + 1]);
          assert 0 <= 0 < k + 1 < |cols|;
        } else {
          var i, j :| 0 <= i < j < |tail| && PairNames(tail)[k - |head|] == Pair(tail[i], tail[j]);
          assert ps[k] == PairNames(tail)[k - |head|];
          assert tail[i] == cols[i + 1] && tail[j] == cols[j + 1];
          assert ps[k] == Pair(cols[i + 1], cols[j + 1]);
        }
      }
      assert forall k :: 0 <= k < |PairNames(cols)| ==>
        exists i, j :: 0 <= i < j < |cols| && PairNames(cols)[k] == Pair(cols[i], cols[j]);
    } else {
      assert PairNames(cols) == [];
    }
  }

  function CountSpaces(s: string): (n: nat)
    ensures n <= |s|
  {
    if |s| == 0 then 0 else (if s[0] == ' ' then 1 else 0) + CountSpaces(s[1..])
  }

  lemma {:induction false} CountSpacesAppend(a: string, b: string)
    ensures CountSpaces(a + b) == CountSpaces(a) + CountSpaces(b)
  {
    if |a| == 0 {
      assert a + b == b;
    } else {
      assert (a + b)[0] == a[0] && (a + b)[1..] == a[1..] + b;
      CountSpacesAppend(a[1..], b);
    }
  }

  /** `name.replace(' ', '_')`. */
  function ReplaceSpaces(s: string): (r: string)
    ensures |r| == |s|
    ensures forall i :: 0 <= i < |s| ==> r[i] == (if s[i] == ' ' then '_' else s[i])
    ensures CountSpaces(r) == 0
  {
    if |s| == 0 then ""
    else [if s[0] == ' ' then '_' else s[0]] + ReplaceSpaces(s[1..])
  }

  function InteractionName(term: string): string {
    "interaction_" + ReplaceSpaces(term)
  }

  function InteractionNamesOf(terms: seq<string>): (ns: seq<string>)
    ensures |ns| == |terms|
  {
    seq(|terms|, i requires 0 <= i < |terms| => InteractionName(terms[i]))
  }

  /** The generated names that contain exactly one space, in order. */
  function OneSpaceNames(ns: seq<string>): (r: seq<string>)
    ensures forall n :: n in r <==> n in ns && CountSpaces(n) == 1
  {
    if |ns| == 0 then []
    else
      assert forall n :: n in ns <==> n == ns[0] || n in ns[1..];
      (if CountSpaces(ns[0]) == 1 then [ns[0]] else []) + OneSpaceNames(ns[1..])
  }

  lemma {:induction false} OneSpaceNamesAppend(a: seq<string>, b: seq<string>)
    ensures OneSpaceNames(a + b) == OneSpaceNames(a) + OneSpaceNames(b)
  {
    if |a| == 0 {
      assert a + b == b;
    } else {
      assert (a + b)[0] == a[0] && (a + b)[1..] == a[1..] + b;
      OneSpaceNamesAppend(a[1..], b);
    }
  }

  lemma {:induction false} OneSpaceNamesAll(ns: seq<string>)
    requires forall i :: 0 <= i < |ns| ==> CountSpaces(ns[i]) == 1
    ensures OneSpaceNames(ns) == ns
  {
    if |ns| > 0 {
      OneSpaceNamesAll(ns[1..]);
    }
  }

  lemma {:induction false} OneSpaceNamesNone(ns: seq<string>)
    requires forall i :: 0 <= i < |ns| ==> CountSpaces(ns[i]) != 1
    ensures OneSpaceNames(ns) == []
  {
    if |ns| > 0 {
      OneSpaceNamesNone(ns[1..]);
    }
  }

  /** The interaction columns as the filter is written: generated names with exactly one space. */
  function InteractionNamesAsWritten(cols: seq<string>): seq<string> {
    InteractionNamesOf(OneSpaceNames(PolyNames(cols)))
  }

  /** The interaction columns meant: one per pair of inputs. */
  function InteractionNames(cols: seq<string>): (ns: seq<string>)
    ensures |ns| == |PairNames(cols)|
  {
    InteractionNamesOf(PairNames(cols))
  }

  lemma PairSpaces(a: string, b: string)
    ensures CountSpaces(Pair(a, b)) == CountSpaces(a) + 1 + CountSpaces(b)
  {
    CountSpacesAppend(a, " ");
    CountSpacesAppend(a + " ", b);
    assert CountSpaces(" ") == 1 by { assert " "[1..] == ""; }
  }

  /** When every input has `n` spaces, every pair name has `2n + 1`: both inputs' and the separator. */
  lemma PairNameSpaces(cols: seq<string>, n: nat)
    requires forall i :: 0 <= i < |cols| ==> CountSpaces(cols[i]) == n
    ensures forall k :: 0 <= k < |PairNames(cols)| ==> CountSpaces(PairNames(cols)[k]) == 2 * n + 1
  {
    PairNamesArePairs(cols);
    var ps := PairNames(cols);
    forall k | 0 <= k < |ps| ensures CountSpaces(ps[k]) == 2 * n + 1 {
      var i, j :| 0 <= i < j < |cols| && ps[k] == Pair(cols[i], cols[j]);
      PairSpaces(cols[i], cols[j]);
    }
  }

  /** When no input name contains a space, the filter as written keeps exactly the pair terms. */
  lemma InteractionFilterWithoutSpaces(cols: seq<string>)
    requires forall i :: 0 <= i < |cols| ==> CountSpaces(cols[i]) == 0
    ensures InteractionNamesAsWritten(cols) == InteractionNames(cols)
  {
    var ps := PairNames(cols);
    PairNameSpaces(cols, 0);
    OneSpaceNamesAppend(cols, ps);
    OneSpaceNamesNone(cols);
    OneSpaceNamesAll(ps);
    assert OneSpaceNames(PolyNames(cols)) == ps;
  }

  /**
   * Input names with two spaces each (as in `"sepal length (cm)"`) give no interaction column at
   * all under the filter as written: every input has two spaces and every pair five.
   */
  lemma InteractionFilterTwoSpaceNames(cols: seq<string>)
    requires forall i :: 0 <= i < |cols| ==> CountSpaces(cols[i]) == 2
    ensures InteractionNamesAsWritten(cols) == []
    ensures |cols| >= 2 ==> InteractionNames(cols) != []
  {
    var ps := PairNames(cols);
    PairNameSpaces(cols, 2);
    OneSpaceNamesAppend(cols, ps);
    OneSpaceNamesNone(cols);
    OneSpaceNamesNone(ps);
    if |cols| >= 2 {
      PairNamesCover(cols);
      assert Pair(cols[0], cols[1]) in ps;
    }
  }

  lemma PairNamesOfTwo(a: string, b: string)
    ensures PairNames([a, b]) == [Pair(a, b)]
  {
    assert [a, b][1..] == [b];
    assert PairNames([b]) == [] by { assert [b][1..] == []; }
  }

  /**
   * Inputs `"a b"` and `"c d"`: the filter as written turns the two single inputs into
   * `interaction_` columns and leaves out their product.
   */
  lemma InteractionFilterCounterexample(ab: string, cd: string)
    requires ab == "a b" && cd == "c d"
    ensures InteractionNamesAsWritten([ab, cd]) == ["interaction_a_b", "interaction_c_d"]
    ensures InteractionNames([ab, cd]) == ["interaction_a_b_c_d"]
  {
    CounterexampleKept(ab, cd);
    CounterexamplePairs(ab, cd);
    CounterexampleNames();
  }

  lemma CounterexampleKept(ab: string, cd: string)
    requires ab == "a b" && cd == "c d"
    ensures InteractionNamesAsWritten([ab, cd]) == [InteractionName(ab), InteractionName(cd)]
  {
    CounterexampleFilter(ab, cd);
    assert InteractionNamesOf([ab, cd]) == [InteractionName(ab), InteractionName(cd)];
  }

  lemma CounterexamplePairs(ab: string, cd: string)
    requires ab == "a b" && cd == "c d"
    ensures InteractionNames([ab, cd]) == [InteractionName("a b c d")]
  {
    PairNamesOfTwo(ab, cd);
    assert InteractionNamesOf([Pair(ab, cd)]) == [InteractionName(Pair(ab, cd))];
    assert Pair(ab, cd) == "a b c d";
  }

  lemma CounterexampleNames()
    ensures InteractionName("a b") == "interaction_a_b"
    ensures InteractionName("c d") == "interaction_c_d"
    ensures InteractionName("a b c d") == "interaction_a_b_c_d"
  {
    NameOfAB();
    NameOfCD();
    NameOfABCD();
  }

  lemma NameOfAB()
    ensures InteractionName("a b") == "interaction_a_b"
  {
    ReplaceSpacesOf("a b", "a_b");
  }

  lemma NameOfCD()
    ensures InteractionName("c d") == "interaction_c_d"
  {
    ReplaceSpacesOf("c d", "c_d");
  }

  lemma NameOfABCD()
    ensures InteractionName("a b c d") == "interaction_a_b_c_d"
  {
    ReplaceSpacesOf("a b c d", "a_b_c_d");
  }

  lemma CounterexampleFilter(ab: string, cd: string)
    requires ab == "a b" && cd == "c d"
    ensures OneSpaceNames(PolyNames([ab, cd])) == [ab, cd]
  {
    OneSpaceOf("a", "b");
    OneSpaceOf("c", "d");
    PairNamesOfTwo(ab, cd);
    PairSpaces(ab, cd);
    assert PolyNames([ab, cd]) == [ab, cd, Pair(ab, cd)];
    OneSpaceNamesOfThree(ab, cd, Pair(ab, cd));
  }

  /** Two space-free one-letter names joined by a space have one space. */
  lemma OneSpaceOf(a: string, b: string)
    requires |a| == 1 && |b| == 1 && a[0] != ' ' && b[0] != ' '
    ensures CountSpaces(a + " " + b) == 1
  {
    CountSpacesAppend(a, " ");
    CountSpacesAppend(a + " ", b);
    assert CountSpaces(" ") == 1 by { assert " "[1..] == ""; }
    assert CountSpaces(a) == 0 by { assert a[1..] == ""; }
    assert CountSpaces(b) == 0 by { assert b[1..] == ""; }
  }

  lemma OneSpaceNamesOfThree(x: string, y: string, z: string)
    requires CountSpaces(x) == 1 && CountSpaces(y) == 1 && CountSpaces(z) != 1
    ensures OneSpaceNames([x, y, z]) == [x, y]
  {
    assert [x, y, z][1..] == [y, z];
    assert [y, z][1..] == [z];
    assert OneSpaceNames([z]) == [] by { assert [z][1..] == []; }
  }

  /** `ReplaceSpaces` is fixed by its elements. */
  lemma ReplaceSpacesOf(s: string, r: string)
    requires |r| == |s| && forall i :: 0 <= i < |s| ==> r[i] == (if s[i] == ' ' then '_' else s[i])
    ensures ReplaceSpaces(s) == r
  {
  }

  /** The interaction step of `engineer_features` for iris and wine. */
  function Interactions(df: Frame, observe: string -> seq<string>, reg: Registry): (r: (Frame, Registry))
  {
    var inputs := Without(NumericNames(df), ExcludedTargets);
    if |inputs| >= 2 then
      var names := InteractionNames(inputs);
      if |names| > 0 then
        (AddColumns(df, Derived(names, observe)), reg[PolynomialKey := PolynomialFeatures(inputs)])
      else (df, reg)
    else (df, reg)
  }

  /** Interaction features never take a target column as input, and need two numeric inputs. */
  lemma InteractionInputs(df: Frame, observe: string -> seq<string>, reg: Registry)
    ensures var r := Interactions(df, observe, reg);
      r.1 != reg ==>
        PolynomialKey in r.1 && r.1[PolynomialKey].PolynomialFeatures? &&
        forall n :: n in r.1[PolynomialKey].inputs <==> n in NumericNames(df) && n !in ExcludedTargets
    ensures |Without(NumericNames(df), ExcludedTargets)| < 2 ==> Interactions(df, observe, reg) == (df, reg)
  {
  }

  /** The aggregate step: the three row statistics when more than two numeric columns exist. */
  function Aggregates(df: Frame, observe: string -> seq<string>): Frame {
    if |NumericNames(df)| > 2 then AddColumns(df, Derived(AggregateNames, observe)) else df
  }

  /** Exactly `feature_sum`, `feature_mean`, `feature_std` are appended, and only above two numeric columns. */
  lemma AggregatesAppended(df: Frame, observe: string -> seq<string>)
    requires forall n :: n in AggregateNames ==> n !in Names(df)
    ensures |NumericNames(df)| > 2 ==> Names(Aggregates(df, observe)) == Names(df) + AggregateNames
    ensures |NumericNames(df)| <= 2 ==> Aggregates(df, observe) == df
  {
    var cols := Derived(AggregateNames, observe);
    assert DistinctNames(Names(cols));
    forall i | 0 <= i < |cols| ensures cols[i].name !in Names(df) {
      assert cols[i].name == AggregateNames[i];
    }
    AddFreshColumns(df, cols);
  }

  /** `engineer_features`. */
  function Engineered(df: Frame, datasetName: string, observe: string -> seq<string>, reg: Registry): (Frame, Registry) {
    var (f, reg') :=
      if datasetName == HousingDataset then (HousingFeatures(df, observe), reg)
      else if datasetName in InteractionDatasets then Interactions(df, observe, reg)
      else (df, reg);
    (Aggregates(f, observe), reg')
  }

  // ---------------------------------------------------------------- scaling

  /** The scaler a method name selects; any name but the three known ones gets the standard scaler. */
  function ScalerFor(scaling: string): (kind: ScalerKind)
    ensures kind == MinMax <==> scaling == "minmax"
    ensures kind == Robust <==> scaling == "robust"
    ensures kind == Standard <==> scaling != "minmax" && scaling != "robust"
  {
    if scaling == "standard" then Standard
    else if scaling == "minmax" then MinMax
    else if scaling == "robust" then Robust
    else Standard
  }

  /** The columns `scale_features` scales: the numeric ones other than target, label and class. */
  function ScaleColumns(df: Frame): (cols: seq<string>)
    ensures forall n :: n in cols <==> n in NumericNames(df) && n !in ExcludedTargets
    ensures forall n :: n in cols ==> n != "target" && n != "label" && n != "class"
  {
    Without(NumericNames(df), ExcludedTargets)
  }

  /** The key `scale_features` records: the requested method name, whatever scaler it chose. */
  function ScalerKey(scaling: string): string { scaling + "_scaler" }

  /**
   * `scale_features`. Scaling keeps every column's name, kind and distinct-value count, so the
   * frame is the same in this model; only the recorded transformer changes.
   */
  function Scale(df: Frame, scaling: string, reg: Registry): (r: (Frame, Registry))
    ensures r.0 == df
    ensures ScaleColumns(df) == [] ==> r.1 == reg
    ensures ScaleColumns(df) != [] ==>
      r.1.Keys == reg.Keys + {ScalerKey(scaling)} && r.1[ScalerKey(scaling)] == Scaler(ScalerFor(scaling), ScaleColumns(df))
  {
    var cols := ScaleColumns(df);
    if |cols| == 0 then (df, reg)
    else (df, reg[ScalerKey(scaling) := Scaler(ScalerFor(scaling), cols)])
  }

  // ---------------------------------------------------------------- feature selection

  const SelectorKey: string := "feature_selector"

  /** The univariate score of each feature (`f_classif` or `f_regression`, given as `score`). */
  function Scores(x: Frame, classification: bool, score: (bool, string) -> real): (s: seq<real>)
    ensures |s| == |x|
  {
    seq(|x|, i requires 0 <= i < |x| => score(classification, x[i].name))
  }

  /** The features `SelectKBest` keeps, in frame order (`X.columns[selector.get_support()]`). */
  function Chosen(x: Frame, classification: bool, score: (bool, string) -> real, k: nat): (cs: Frame)
    ensures |cs| == Ranking.Min(k, |x|)
    ensures forall c :: c in cs ==> c.kind == Numeric && c.name in Names(x)
  {
    var mask := Ranking.Mask(|x|, Ranking.TopIndices(Scores(x, classification, score), k));
    Ranking.SelectedByMask(Scores(x, classification, score), k);
    var cs := seq(|mask|, j requires 0 <= j < |mask| => Column(x[mask[j]].name, Numeric, x[mask[j]].levels));
    assert forall c :: c in cs ==> c.name in Names(x) by {
      forall j | 0 <= j < |cs| ensures cs[j].name in Names(x) {
        assert Names(x)[mask[j]] == cs[j].name;
      }
    }
    cs
  }

  /** A feature left out never scores higher than one kept. */
  lemma ChosenScoreHighest(x: Frame, classification: bool, score: (bool, string) -> real, k: nat)
    ensures var cs := Chosen(x, classification, score, k);
      forall i, a :: 0 <= i < |x| && x[i].name !in Names(cs) && 0 <= a < |cs| ==>
        score(classification, x[i].name) <= score(classification, cs[a].name)
  {
    var scores := Scores(x, classification, score);
    var mask := Ranking.Mask(|x|, Ranking.TopIndices(scores, k));
    var cs := Chosen(x, classification, score, k);
    Ranking.SelectedByMask(scores, k);
    forall i, a | 0 <= i < |x| && x[i].name !in Names(cs) && 0 <= a < |cs|
      ensures score(classification, x[i].name) <= score(classification, cs[a].name)
    {
      forall j | 0 <= j < |mask| ensures mask[j] != i {
        assert Names(cs)[j] == x[mask[j]].name;
      }
      assert i !in mask;
      assert scores[i] == score(classification, x[i].name);
      assert scores[mask[a]] == score(classification, cs[a].name);
    }
  }

  /** Selection once the target `t` is known. */
  function SelectFor(df: Frame, t: string, k: nat, score: (bool, string) -> real, reg: Registry): (r: Result<(Frame, Registry), string>)
    ensures t !in Names(df) ==> r.Failure?
  {
    match Lookup(df, t)
    case None => Failure("KeyError: " + t)
    case Some(y) =>
      var x := Drop(df, t);
      if |x| == 0 then Failure("ValueError: no feature left to select from")
      else
        var k' := Ranking.Min(k, |x|);
        var chosen := Chosen(x, IsClassificationTarget(y), score, k');
        Success((chosen + [y], reg[SelectorKey := FeatureSelector(k', Names(chosen))]))
  }

  /** The target `select_features` uses: the given one, else the first candidate present. */
  function SelectionTarget(df: Frame, targetColumn: Option<string>): Option<string> {
    if targetColumn.Some? then targetColumn else FirstPresent(TargetCandidates, Names(df))
  }

  /**
   * `select_features`: with no target given and no candidate present the frame comes back
   * untouched; a given target that is not a column is an error.
   */
  function Select(df: Frame, targetColumn: Option<string>, k: nat, score: (bool, string) -> real,
                  reg: Registry): (r: Result<(Frame, Registry), string>)
    ensures SelectionTarget(df, targetColumn).None? ==> r == Success((df, reg))
    ensures targetColumn.Some? && targetColumn.value !in Names(df) ==> r.Failure?
  {
    match SelectionTarget(df, targetColumn)
    case None => Success((df, reg))
    case Some(t) => SelectFor(df, t, k, score, reg)
  }

  /**
   * A successful selection with target `t`: `min(k, #features)` features of the frame (never
   * the target), each scoring at least as high as any feature left out, followed by the target.
   */
  lemma SelectForSpec(df: Frame, t: string, k: nat, score: (bool, string) -> real, reg: Registry)
    ensures var r := SelectFor(df, t, k, score, reg);
      r.Success? ==>
        var x := Drop(df, t);
        var y := Lookup(df, t).value;
        var out := r.value.0;
        var features := out[..|out| - 1];
        && |x| > 0
        && |out| == Ranking.Min(k, |x|) + 1
        && out[|out| - 1] == y
        && t !in Names(features)
        && (forall c :: c in features ==> c.name in Names(x))
        && (forall i, a :: 0 <= i < |x| && x[i].name !in Names(features) && 0 <= a < |features| ==>
              score(IsClassificationTarget(y), x[i].name) <= score(IsClassificationTarget(y), features[a].name))
  {
    if SelectFor(df, t, k, score, reg).Success? {
      SelectForShape(df, t, k, score, reg);
      SelectForHighest(df, t, k, score, reg);
    }
  }

  lemma SelectForShape(df: Frame, t: string, k: nat, score: (bool, string) -> real, reg: Registry)
    requires SelectFor(df, t, k, score, reg).Success?
    ensures var x := Drop(df, t);
      var out := SelectFor(df, t, k, score, reg).value.0;
      var features := out[..|out| - 1];
      && |x| > 0
      && |out| == Ranking.Min(k, |x|) + 1
      && out[|out| - 1] == Lookup(df, t).value
      && t !in Names(features)
      && (forall c :: c in features ==> c.name in Names(x))
  {
    var x := Drop(df, t);
    var cls := IsClassificationTarget(Lookup(df, t).value);
    var features := Chosen(x, cls, score, Ranking.Min(k, |x|));
    SelectForOutput(df, t, k, score, reg);
    ChosenWithoutTarget(df, t, features);
  }

  lemma SelectForHighest(df: Frame, t: string, k: nat, score: (bool, string) -> real, reg: Registry)
    requires SelectFor(df, t, k, score, reg).Success?
    ensures var x := Drop(df, t);
      var cls := IsClassificationTarget(Lookup(df, t).value);
      var out := SelectFor(df, t, k, score, reg).value.0;
      var features := out[..|out| - 1];
      forall i, a :: 0 <= i < |x| && x[i].name !in Names(features) && 0 <= a < |features| ==>
        score(cls, x[i].name) <= score(cls, features[a].name)
  {
    var x := Drop(df, t);
    var cls := IsClassificationTarget(Lookup(df, t).value);
    var out := SelectFor(df, t, k, score, reg).value.0;
    var cs := Chosen(x, cls, score, Ranking.Min(k, |x|));
    SelectForOutput(df, t, k, score, reg);
    assert out[..|out| - 1] == cs;
    ChosenScoreHighest(x, cls, score, Ranking.Min(k, |x|));
    forall i, a | 0 <= i < |x| && x[i].name !in Names(cs) && 0 <= a < |cs|
      ensures score(cls, x[i].name) <= score(cls, cs[a].name)
    {
    }
  }

  lemma SelectForOutput(df: Frame, t: string, k: nat, score: (bool, string) -> real, reg: Registry)
    requires SelectFor(df, t, k, score, reg).Success?
    ensures var x := Drop(df, t);
      var y := Lookup(df, t).value;
      var out := SelectFor(df, t, k, score, reg).value.0;
      && |x| > 0
      && out[..|out| - 1] == Chosen(x, IsClassificationTarget(y), score, Ranking.Min(k, |x|))
      && out[|out| - 1] == y
  {
    var x := Drop(df, t);
    var y := Lookup(df, t).value;
    var features := Chosen(x, IsClassificationTarget(y), score, Ranking.Min(k, |x|));
    assert (features + [y])[..|features|] == features;
  }

  lemma ChosenWithoutTarget(df: Frame, t: string, features: Frame)
    requires forall c :: c in features ==> c.name in Names(Drop(df, t))
    ensures t !in Names(features)
  {
    forall j | 0 <= j < |features| ensures Names(features)[j] != t {
      assert features[j] in features;
    }
  }

  // ---------------------------------------------------------------- the whole pipeline

  /** Feature selection runs only on frames with more than this many columns, keeping this many. */
  const SelectionThreshold: nat := 15

  /** `process_dataset` after loading: encode, engineer, scale, then select if the frame is wide. */
  function Processed(df: Frame, datasetName: string, observe: string -> seq<string>,
                     score: (bool, string) -> real): Result<(Frame, Registry), string>
  {
    var (encoded, reg1) := Encode(df, map[]);
    var (engineered, reg2) := Engineered(encoded, datasetName, observe, reg1);
    var (scaled, reg3) := Scale(engineered, "standard", reg2);
    if |scaled| > SelectionThreshold then Select(scaled, None, SelectionThreshold, score, reg3)
    else Success((scaled, reg3))
  }

  /**
   * The width gate: a frame of at most 15 columns after scaling is kept as it is; a wider one
   * always goes through `select_features(df, k=15)`, which, with a target candidate and distinct
   * column names, succeeds with exactly 15 features plus its target.
   */
  lemma ProcessedWidth(df: Frame, datasetName: string, observe: string -> seq<string>, score: (bool, string) -> real)
    ensures var (encoded, reg1) := Encode(df, map[]);
      var (engineered, reg2) := Engineered(encoded, datasetName, observe, reg1);
      var reg3 := Scale(engineered, "standard", reg2).1;
      var r := Processed(df, datasetName, observe, score);
      && (|engineered| <= SelectionThreshold ==> r == Success((engineered, reg3)))
      && (|engineered| > SelectionThreshold ==> r == Select(engineered, None, SelectionThreshold, score, reg3))
      && (|engineered| > SelectionThreshold && FirstPresent(TargetCandidates, Names(engineered)).Some?
          && DistinctNames(Names(engineered)) ==>
            r.Success? && |r.value.0| == SelectionThreshold + 1)
  {
    var (encoded, reg1) := Encode(df, map[]);
    var (engineered, reg2) := Engineered(encoded, datasetName, observe, reg1);
    var reg3 := Scale(engineered, "standard", reg2).1;
    var t := FirstPresent(TargetCandidates, Names(engineered));
    if |engineered| > SelectionThreshold && t.Some? && DistinctNames(Names(engineered)) {
      WideSelection(engineered, t.value, score, reg3);
    }
  }

  /** Selecting 15 of the features of a frame wider than 15 columns with distinct names gives exactly 15. */
  lemma WideSelection(df: Frame, t: string, score: (bool, string) -> real, reg: Registry)
    requires |df| > SelectionThreshold && t in Names(df) && DistinctNames(Names(df))
    ensures SelectFor(df, t, SelectionThreshold, score, reg).Success?
    ensures |SelectFor(df, t, SelectionThreshold, score, reg).value.0| == SelectionThreshold + 1
  {
    DropPresentOnce(df, t);
    SelectForSpec(df, t, SelectionThreshold, score, reg);
  }

  /** Dropping a name that occurs exactly once removes exactly one column. */
  lemma {:induction false} DropPresentOnce(df: Frame, name: string)
    requires name in Names(df) && DistinctNames(Names(df))
    ensures |Drop(df, name)| == |df| - 1
  {
    NamesSplit(df);
    var rest := df[1..];
    assert DistinctNames(Names(rest)) by {
      forall i, j | 0 <= i < j < |rest| ensures Names(rest)[i] != Names(rest)[j] {
        assert Names(df)[i + 1] != Names(df)[j + 1];
      }
    }
    if df[0].name == name {
      forall i | 0 <= i < |rest| ensures Names(rest)[i] != name {
        assert Names(df)[i + 1] != Names(df)[0];
      }
    } else {
      DropPresentOnce(rest, name);
    }
  }

  // ---------------------------------------------------------------- the stateful object

  /** The engineer object: its `transformers` dictionary grows as the steps run. */
  class FeatureEngineer {
    var transformers: Registry

    constructor()
      ensures transformers == map[]
    {
      transformers := map[];
    }

    method EncodeCategoricalFeatures(df: Frame) returns (encoded: Frame)
      modifies this
      ensures (encoded, transformers) == Encode(df, old(transformers))
    {
      var categoricalCols := ObjectNames(df);
      if |categoricalCols| == 0 {
        return df;
      }
      encoded := df;
      for i := 0 to |categoricalCols|
        invariant EncodeFrom(df, encoded, transformers, categoricalCols[i..]) == Encode(df, old(transformers))
      {
        var col := categoricalCols[i];
        assert categoricalCols[i..][1..] == categoricalCols[i + 1..];
        var original := Lookup(df, col);
        var current := Lookup(encoded, col);
        if original.Some? && current.Some? {
          var uniqueValues := |original.value.levels|;
          var levels := current.value.levels;
          if uniqueValues <= BinaryLevels {
            encoded := Set(encoded, Column(col, Numeric, LabelCodes(|levels|)));
            transformers := transformers[LabelKey(col) := LabelEncoder(levels)];
          } else if uniqueValues <= OneHotLevels {
            var features := DummyColumns(col, levels);
            ghost var start := encoded;
            for j := 0 to |features|
              invariant AddColumns(encoded, features[j..]) == AddColumns(start, features)
            {
              assert features[j..][1..] == features[j + 1..];
              encoded := Set(encoded, features[j]);
            }
            encoded := Drop(encoded, col);
            transformers := transformers[OneHotKey(col) := OneHotEncoder(levels)];
          } else {
            encoded := Set(encoded, Column(col, Numeric, LabelCodes(|levels|)));
            transformers := transformers[LabelKey(col) := LabelEncoder(levels)];
          }
        }
      }
    }

    method EngineerFeatures(df: Frame, datasetName: string, observe: string -> seq<string>) returns (engineered: Frame)
      modifies this
      ensures (engineered, transformers) == Engineered(df, datasetName, observe, old(transformers))
    {
      engineered := df;
      if datasetName == HousingDataset {
        engineered := HousingFeatures(df, observe);
      } else if datasetName in InteractionDatasets {
        var numericCols := Without(NumericNames(engineered), ExcludedTargets);
        if |numericCols| >= 2 {
          var interactionNames := InteractionNames(numericCols);
          if |interactionNames| > 0 {
            var features := Derived(interactionNames, observe);
            for i := 0 to |features|
              invariant AddColumns(engineered, features[i..]) == AddColumns(df, features)
            {
              assert features[i..][1..] == features[i + 1..];
              engineered := Set(engineered, features[i]);
            }
            transformers := transformers[PolynomialKey := PolynomialFeatures(numericCols)];
          }
        }
      }
      if |NumericNames(engineered)| > 2 {
        engineered := AddColumns(engineered, Derived(AggregateNames, observe));
      }
    }

    method ScaleFeatures(df: Frame, scaling: string) returns (scaled: Frame)
      modifies this
      ensures (scaled, transformers) == Scale(df, scaling, old(transformers))
    {
      var numericCols := ScaleColumns(df);
      if |numericCols| == 0 {
        return df;
      }
      scaled := df;
      transformers := transformers[ScalerKey(scaling) := Scaler(ScalerFor(scaling), numericCols)];
    }

    method SelectFeatures(df: Frame, targetColumn: Option<string>, k: nat, score: (bool, string) -> real)
      returns (selected: Result<Frame, string>)
      modifies this
      ensures var spec := Select(df, targetColumn, k, score, old(transformers));
        && (spec.Success? ==> selected == Success(spec.value.0) && transformers == spec.value.1)
        && (spec.Failure? ==> selected.Failure? && transformers == old(transformers))
    {
      var target := targetColumn;
      if target.None? {
        target := FirstPresent(TargetCandidates, Names(df));
        if target.None? {
          return Success(df);
        }
      }
      var t := target.value;
      var y := Lookup(df, t);
      if y.None? {
        return Failure("KeyError: " + t);
      }
      var x := Drop(df, t);
      if |x| == 0 {
        return Failure("ValueError: no feature left to select from");
      }
      var k' := Ranking.Min(k, |x|);
      var chosen := Chosen(x, IsClassificationTarget(y.value), score, k');
      transformers := transformers[SelectorKey := FeatureSelector(k', Names(chosen))];
      return Success(chosen + [y.value]);
    }
  }

  /**
   * `process_dataset` from the loaded raw frame (`None` when loading failed): it succeeds
   * exactly when every step does, and then yields the processed frame.
   */
  method ProcessDataset(raw: Option<Frame>, datasetName: string, observe: string -> seq<string>,
                        score: (bool, string) -> real) returns (ok: bool, processed: Frame)
    ensures ok <==> raw.Some? && Processed(raw.value, datasetName, observe, score).Success?
    ensures ok ==> processed == Processed(raw.value, datasetName, observe, score).value.0
  {
    var engineer := new FeatureEngineer();
    if raw.None? {
      return false, [];
    }
    var df := raw.value;
    df := engineer.EncodeCategoricalFeatures(df);
    df := engineer.EngineerFeatures(df, datasetName, observe);
    df := engineer.ScaleFeatures(df, "standard");
    if |df| > SelectionThreshold {
      var selected := engineer.SelectFeatures(df, None, SelectionThreshold, score);
      if selected.Failure? {
        return false, [];
      }
      df := selected.value;
    }
    return true, df;
  }

  /** Whether `process_dataset` succeeds on a dataset. */
  predicate ProcessedOk(raw: Option<Frame>, datasetName: string, observe: string -> seq<string>,
                        score: (bool, string) -> real) {
    raw.Some? && Processed(raw.value, datasetName, observe, score).Success?
  }

  /**
   * Whether each of `datasets` is processed. The data, the derived columns' values and the
   * selection scores all depend on the dataset, so each is indexed by its name.
   */
  function ProcessedOks(raw: string -> Option<Frame>, observe: string -> (string -> seq<string>),
                        score: string -> ((bool, string) -> real), datasets: seq<string>): (oks: seq<bool>)
    ensures |oks| == |datasets|
  {
    seq(|datasets|, i requires 0 <= i < |datasets| =>
      ProcessedOk(raw(datasets[i]), datasets[i], observe(datasets[i]), score(datasets[i])))
  }

  /** The feature engineering `main`: every dataset in turn, exit status 0 iff one succeeded. */
  method FeatureMain(raw: string -> Option<Frame>, observe: string -> (string -> seq<string>),
                     score: string -> ((bool, string) -> real))
    returns (code: int)
    ensures code == Pipeline.ExitCode(Pipeline.Successes(ProcessedOks(raw, observe, score, Pipeline.Datasets)))
    ensures code == 0 <==> true in ProcessedOks(raw, observe, score, Pipeline.Datasets)
  {
    ghost var oks := ProcessedOks(raw, observe, score, Pipeline.Datasets);
    var successfulProcessing := 0;
    for i := 0 to |Pipeline.Datasets|
      invariant successfulProcessing == Pipeline.Successes(oks[..i])
    {
      var d := Pipeline.Datasets[i];
      var ok, _ := ProcessDataset(raw(d), d, observe(d), score(d));
      assert ok == oks[i];
      Pipeline.SuccessesStep(oks, i);
      if ok {
        successfulProcessing := successfulProcessing + 1;
      }
    }
    assert oks[..|Pipeline.Datasets|] == oks;
    Pipeline.ExitCodeOfOutcomes(oks);
    code := Pipeline.ExitCode(successfulProcessing);
  }
}
