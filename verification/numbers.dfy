/** Integer helpers shared by the paging and rendering arithmetic. */
module Numbers {

  function Max(a: int, b: int): (r: int)
    ensures a <= r && b <= r && (r == a || r == b)
  {
    if a < b then b else a
  }

  function Min(a: int, b: int): (r: int)
    ensures r <= a && r <= b && (r == a || r == b)
  {
    if a < b then a else b
  }

  /** `Math.Clamp(x, lo, hi)` with `lo <= hi` (otherwise .NET throws). */
  function Clamp(x: int, lo: int, hi: int): (r: int)
    requires lo <= hi
    ensures lo <= r <= hi
    ensures lo <= x <= hi ==> r == x
    ensures x < lo ==> r == lo
    ensures hi < x ==> r == hi
  {
    if x < lo then lo else if x > hi then hi else x
  }

  const TwoTo31: int := 0x8000_0000
  const TwoTo32: int := 0x1_0000_0000

  /** C#'s unchecked `int` arithmetic: the value reduced into `[-2^31, 2^31)`. */
  function Int32(x: int): (r: int)
    ensures -TwoTo31 <= r < TwoTo31
    ensures (x - r) % TwoTo32 == 0
    ensures -TwoTo31 <= x < TwoTo31 ==> r == x
  {
    var m := (x + TwoTo31) % TwoTo32;
    assert (x + TwoTo31) - m == TwoTo32 * ((x + TwoTo31) / TwoTo32);
    m - TwoTo31
  }
}
