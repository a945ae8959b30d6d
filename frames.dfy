/**
 * The data frames the ML workflow scripts pass around, reduced to what their decision rules
 * look at: an ordered list of named columns, each numeric or object-typed, with the column's
 * distinct values (`levels`, in the sorted order scikit-learn's encoders list categories).
 * Cell values themselves are not tracked.
 */
module Frames {
  import opened Wrappers

  datatype Kind = Numeric | Object

  datatype Column = Column(name: string, kind: Kind, levels: seq<string>)

  type Frame = seq<Column>

  /** The column names in frame order (`list(df.columns)`). */
  function Names(df: Frame): (ns: seq<string>)
    ensures |ns| == |df|
    ensures forall i :: 0 <= i < |df| ==> ns[i] == df[i].name
  {
    seq(|df|, i requires 0 <= i < |df| => df[i].name)
  }

  /** The first column called `name` (`df[name]` for a frame without repeated names). */
  function Lookup(df: Frame, name: string): (c: Option<Column>)
    ensures c.Some? <==> name in Names(df)
    ensures c.Some? ==> c.value in df && c.value.name == name
  {
    if |df| == 0 then None
    else if df[0].name == name then Some(df[0])
    else
      assert Names(df) == [df[0].name] + Names(df[1..]);
      Lookup(df[1..], name)
  }

  /**
   * `df.drop(columns=[name])`: every column called `name` goes, the others keep their order.
   * pandas raises KeyError for a name that is not a column; every caller here looks the name up
   * first, so that case is never reached, and the model leaves such a frame as it is.
   */
  function Drop(df: Frame, name: string): (r: Frame)
    ensures name !in Names(r)
    ensures forall c :: c in r <==> c in df && c.name != name
    ensures name !in Names(df) ==> r == df
  {
    if |df| == 0 then []
    else if df[0].name == name then
      MembersSplit(df);
      Drop(df[1..], name)
    else
      NamesSplit(df);
      MembersSplit(df);
      [df[0]] + Drop(df[1..], name)
  }

  /** Dropping distributes over the two halves of a frame. */
  lemma {:induction false} DropAppend(a: Frame, b: Frame, name: string)
    ensures Drop(a + b, name) == Drop(a, name) + Drop(b, name)
  {
    if |a| > 0 {
      assert (a + b)[0] == a[0] && (a + b)[1..] == a[1..] + b;
      DropAppend(a[1..], b, name);
    } else {
      assert a + b == b;
    }
  }

  /**
   * `df[col.name] = values`: an existing column of that name is overwritten where it stands,
   * otherwise the column is appended at the end.
   */
  function Set(df: Frame, col: Column): (r: Frame)
    ensures Names(r) == if col.name in Names(df) then Names(df) else Names(df) + [col.name]
  {
    if col.name in Names(df) then
      var r := seq(|df|, i requires 0 <= i < |df| => if df[i].name == col.name then col else df[i]);
      assert Names(r) == Names(df);
      r
    else
      df + [col]
  }

  /** After `Set`, the only column of that name is the new one; the others were there before. */
  lemma SetFrom(df: Frame, col: Column)
    ensures forall c :: c in Set(df, col) ==> c == col || (c in df && c.name != col.name)
  {
    if col.name !in Names(df) {
      forall c | c in df ensures c.name != col.name {
        var i :| 0 <= i < |df| && df[i] == c;
        assert Names(df)[i] == c.name;
      }
    }
  }

  /** After `Set`, the name finds the new column and every other name finds what it found before. */
  lemma SetLookup(df: Frame, col: Column)
    ensures Lookup(Set(df, col), col.name) == Some(col)
    ensures forall n :: n != col.name ==> Lookup(Set(df, col), n) == Lookup(df, n)
  {
    if col.name in Names(df) {
      LookupReplaced(df, Set(df, col), col);
    } else {
      LookupAppended(df, col);
    }
  }

  lemma {:induction false} LookupReplaced(df: Frame, r: Frame, col: Column)
    requires |r| == |df|
    requires forall i :: 0 <= i < |df| ==> r[i] == if df[i].name == col.name then col else df[i]
    ensures col.name in Names(df) ==> Lookup(r, col.name) == Some(col)
    ensures forall n :: n != col.name ==> Lookup(r, n) == Lookup(df, n)
  {
    if |df| > 0 {
      LookupReplaced(df[1..], r[1..], col);
      assert Names(df) == [df[0].name] + Names(df[1..]);
    }
  }

  lemma {:induction false} LookupAppended(df: Frame, col: Column)
    requires col.name !in Names(df)
    ensures Lookup(df + [col], col.name) == Some(col)
    ensures forall n :: n != col.name ==> Lookup(df + [col], n) == Lookup(df, n)
  {
    if |df| == 0 {
      assert df + [col] == [col];
    } else {
      assert (df + [col])[1..] == df[1..] + [col];
      assert Names(df) == [df[0].name] + Names(df[1..]);
      LookupAppended(df[1..], col);
    }
  }

  lemma NamesSplit(df: Frame)
    requires |df| > 0
    ensures Names(df) == [df[0].name] + Names(df[1..])
  {
  }

  lemma MembersSplit(df: Frame)
    requires |df| > 0
    ensures forall c :: c in df <==> c == df[0] || c in df[1..]
  {
    assert df == [df[0]] + df[1..];
  }

  lemma NamesCons(c: Column, df: Frame)
    ensures Names([c] + df) == [c.name] + Names(df)
  {
  }

  lemma NamesAppend(a: Frame, b: Frame)
    ensures Names(a + b) == Names(a) + Names(b)
  {
  }

  /** The names left after `Drop` are the other names, in order. */
  lemma {:induction false} NamesDrop(df: Frame, name: string)
    ensures Names(Drop(df, name)) == Without(Names(df), [name])
  {
    if |df| > 0 {
      NamesDrop(df[1..], name);
      assert Names(df) == [df[0].name] + Names(df[1..]);
      if df[0].name != name {
        NamesCons(df[0], Drop(df[1..], name));
      }
    }
  }

  /** Sets the columns one after the other (`for name in ...: df[name] = ...`). */
  function AddColumns(df: Frame, cols: Frame): (r: Frame)
    ensures |cols| == 0 ==> r == df
    decreases |cols|
  {
    if |cols| == 0 then df else AddColumns(Set(df, cols[0]), cols[1..])
  }

  /** Every column after `AddColumns` was already there or is one of the added ones. */
  lemma {:induction false} AddColumnsFrom(df: Frame, cols: Frame)
    ensures forall c :: c in AddColumns(df, cols) ==> c in df || c in cols
    decreases |cols|
  {
    if |cols| > 0 {
      SetFrom(df, cols[0]);
      AddColumnsFrom(Set(df, cols[0]), cols[1..]);
    }
  }

  /** No name repeats. */
  predicate DistinctNames(ns: seq<string>) {
    forall i, j :: 0 <= i < j < |ns| ==> ns[i] != ns[j]
  }

  /** Adding columns whose names are new and distinct appends exactly those columns. */
  lemma {:induction false} AddFreshColumns(df: Frame, cols: Frame)
    requires DistinctNames(Names(cols))
    requires forall i :: 0 <= i < |cols| ==> cols[i].name !in Names(df)
    ensures AddColumns(df, cols) == df + cols
    ensures Names(AddColumns(df, cols)) == Names(df) + Names(cols)
    decreases |cols|
  {
    if |cols| > 0 {
      var df' := Set(df, cols[0]);
      SetFresh(df, cols[0]);
      FreshAfterFirst(df, cols);
      AddFreshColumns(df', cols[1..]);
      AddColumnsStep(df, cols);
      AppendFirst(df, cols);
    }
    NamesAppend(df, cols);
  }

  lemma AppendFirst(df: Frame, cols: Frame)
    requires |cols| > 0
    ensures df + [cols[0]] + cols[1..] == df + cols
  {
    assert [cols[0]] + cols[1..] == cols;
  }

  lemma AddColumnsStep(df: Frame, cols: Frame)
    requires |cols| > 0
    ensures AddColumns(df, cols) == AddColumns(Set(df, cols[0]), cols[1..])
  {
  }

  /** Setting a column under a new name appends it. */
  lemma SetFresh(df: Frame, col: Column)
    requires col.name !in Names(df)
    ensures Set(df, col) == df + [col]
  {
  }

  /** Once the first fresh column is added, the remaining ones are still fresh and distinct. */
  lemma FreshAfterFirst(df: Frame, cols: Frame)
    requires |cols| > 0
    requires DistinctNames(Names(cols))
    requires forall i :: 0 <= i < |cols| ==> cols[i].name !in Names(df)
    ensures DistinctNames(Names(cols[1..]))
    ensures forall i :: 0 <= i < |cols| - 1 ==> cols[1..][i].name !in Names(Set(df, cols[0]))
  {
    var tail := cols[1..];
    NamesAppend(df, [cols[0]]);
    SetFresh(df, cols[0]);
    forall i | 0 <= i < |tail| ensures tail[i].name !in Names(df + [cols[0]]) {
      assert Names(cols)[i + 1] != Names(cols)[0];
    }
    assert forall i :: 0 <= i < |tail| ==> Names(tail)[i] == Names(cols)[i + 1];
  }

  /** The columns of one kind, by name, in frame order (`select_dtypes`). */
  function NamesOfKind(df: Frame, kind: Kind): (ns: seq<string>)
    ensures forall n :: n in ns <==> exists c :: c in df && c.kind == kind && c.name == n
  {
    if |df| == 0 then []
    else
      var rest := NamesOfKind(df[1..], kind);
      assert forall c :: c in df <==> c == df[0] || c in df[1..];
      if df[0].kind == kind then [df[0].name] + rest else rest
  }

  function NumericNames(df: Frame): seq<string> {
    NamesOfKind(df, Numeric)
  }

  function ObjectNames(df: Frame): seq<string> {
    NamesOfKind(df, Object)
  }

  /** The names of `ns` that are not in `excluded`, in order (`list.remove` over distinct names). */
  function Without(ns: seq<string>, excluded: seq<string>): (r: seq<string>)
    ensures forall n :: n in r <==> n in ns && n !in excluded
  {
    if |ns| == 0 then []
    else
      assert forall n :: n in ns <==> n == ns[0] || n in ns[1..];
      if ns[0] in excluded then Without(ns[1..], excluded) else [ns[0]] + Without(ns[1..], excluded)
  }

  /** The names the training and evaluation scripts try, in order, before the last-column fallback. */
  const TargetCandidates: seq<string> := ["target", "label", "class", "y", "price", "MedHouseVal"]

  /** The first of `candidates` that is a column name. */
  function FirstPresent(candidates: seq<string>, names: seq<string>): (t: Option<string>)
    ensures t.Some? <==> exists i :: 0 <= i < |candidates| && candidates[i] in names
    ensures t.Some? ==> t.value in names
    ensures t.Some? ==>
      exists i :: 0 <= i < |candidates| && candidates[i] == t.value && (forall j :: 0 <= j < i ==> candidates[j] !in names)
  {
    if |candidates| == 0 then None
    else if candidates[0] in names then Some(candidates[0])
    else
      var t := FirstPresent(candidates[1..], names);
      assert forall i :: 1 <= i < |candidates| ==> candidates[i] == candidates[1..][i - 1];
      t
  }

  /**
   * Target detection of `prepare_data` and `evaluate_dataset_models`: the first candidate
   * present, else the last column; a frame without columns has none.
   */
  function DetectTarget(df: Frame): (t: Option<string>)
    ensures t.Some? <==> |df| > 0
    ensures t.Some? ==> t.value in Names(df)
    ensures FirstPresent(TargetCandidates, Names(df)).Some? ==> t == FirstPresent(TargetCandidates, Names(df))
    ensures (forall c :: c in TargetCandidates ==> c !in Names(df)) && |df| > 0 ==> t == Some(df[|df| - 1].name)
  {
    match FirstPresent(TargetCandidates, Names(df))
    case Some(t) => Some(t)
    case None => if |df| == 0 then None else Some(df[|df| - 1].name)
  }

  /** Distinct-value count below which a numeric target counts as a class label. */
  const ClassLevelLimit: nat := 20

  /** The problem-type rule: object-typed or fewer than 20 distinct values means classification. */
  predicate IsClassificationTarget(y: Column) {
    y.kind == Object || |y.levels| < ClassLevelLimit
  }
}
