/** Go's 64-bit signed integers and the two ways the modelled Go code leaves their range. */
module GoInts {

  const Int64Min: int := -0x8000_0000_0000_0000
  const Int64Max: int := 0x7FFF_FFFF_FFFF_FFFF

  /** Go's `int64` (also the representation of `time.Duration`, in nanoseconds). */
  newtype int64 = x: int | -0x8000_0000_0000_0000 <= x < 0x8000_0000_0000_0000

  /** Two's-complement wrap-around of Go's `+` on `int64` operands. */
  function Wrap64(x: int): (r: int)
    ensures Int64Min <= r <= Int64Max
    ensures (r - x) % 0x1_0000_0000_0000_0000 == 0
    ensures Int64Min <= x <= Int64Max ==> r == x
  {
    (x + 0x8000_0000_0000_0000) % 0x1_0000_0000_0000_0000 - 0x8000_0000_0000_0000
  }

  /** Saturation of `time.Time.Sub`: a difference outside the `Duration` range becomes its nearest bound. */
  function Saturate64(x: int): (r: int)
    ensures Int64Min <= r <= Int64Max
    ensures Int64Min <= x <= Int64Max ==> r == x
    ensures x > Int64Max ==> r == Int64Max
    ensures x < Int64Min ==> r == Int64Min
  {
    if x > Int64Max then Int64Max else if x < Int64Min then Int64Min else x
  }
}
