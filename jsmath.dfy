/** The number operations of JavaScript that the extension relies on,
    over reals: `Math.trunc`, the remainder operator `%` (which, unlike
    Dafny's, takes the sign of the dividend) and `Math.round`. */
module JsMath {

  /** `Math.trunc`. */
  function Trunc(x: real): (r: int)
    ensures x >= 0.0 ==> r == x.Floor
    ensures (r as real) - 1.0 < x < (r as real) + 1.0
  {
    if x >= 0.0 then x.Floor else -((-x).Floor)
  }

  /** `a % b`: for a positive divisor, the remainder lies strictly between
      `-b` and `b` and takes the sign of the dividend. */
  function JsRem(a: real, b: real): (r: real)
    requires b != 0.0
    ensures b > 0.0 && a >= 0.0 ==> 0.0 <= r < b
    ensures b > 0.0 && a < 0.0 ==> -b < r <= 0.0
  {
    RemBounds(a, b, Trunc(a / b));
    a - b * (Trunc(a / b) as real)
  }

  lemma RemBounds(a: real, b: real, t: int)
    requires b != 0.0 && t == Trunc(a / b)
    ensures b > 0.0 && a >= 0.0 ==> 0.0 <= a - b * (t as real) < b
    ensures b > 0.0 && a < 0.0 ==> -b < a - b * (t as real) <= 0.0
  {
    var q := a / b;
    var k := t as real;
    if b > 0.0 {
      assert a == b * q;
      if a >= 0.0 {
        assert k <= q < k + 1.0;
        ScaleBetween(b, k, q, k + 1.0, a);
      } else {
        assert k - 1.0 < q <= k;
        ScaleBetween(b, k - 1.0, q, k, a);
      }
    }
  }

  /** Scaling by a positive factor keeps `lo <= x < hi` in order. */
  lemma ScaleBetween(b: real, lo: real, x: real, hi: real, a: real)
    requires b > 0.0 && lo <= x <= hi && a == b * x
    ensures b * lo <= a <= b * hi
    ensures lo < x ==> b * lo < a
    ensures x < hi ==> a < b * hi
  {
  }

  lemma FloorUnique(x: real, k: int)
    requires k as real <= x < (k + 1) as real
    ensures x.Floor == k
  {
  }

  /** `Math.round`: the nearest integer, halves going up. */
  function Round(x: real): (r: int)
    ensures x - 0.5 < r as real <= x + 0.5
  {
    (x + 0.5).Floor
  }

  /** Rounding is monotone and leaves integers alone, so a value between
      two integers rounds to a value between them. */
  lemma RoundBetween(x: real, lo: int, hi: int)
    requires lo as real <= x <= hi as real
    ensures lo <= Round(x) <= hi
  {
  }

  /** Whole hours and the minutes of the hour for a non-negative number
      of seconds, as `Math.floor(t / 3600)` and `Math.floor((t % 3600) / 60)`. */
  function HoursMinutes(t: real): (hm: (int, int))
    ensures t >= 0.0 ==> hm.0 >= 0 && 0 <= hm.1 < 60
    ensures t >= 0.0 ==> (3600 * hm.0 + 60 * hm.1) as real <= t < (3600 * hm.0 + 60 * hm.1 + 60) as real
  {
    var hours := (t / 3600.0).Floor;
    var minutes := (JsRem(t, 3600.0) / 60.0).Floor;
    if t >= 0.0 then
      assert Trunc(t / 3600.0) == hours;
      var rest := JsRem(t, 3600.0);
      assert rest == t - 3600.0 * (hours as real);
      assert 0.0 <= rest < 3600.0;
      (hours, minutes)
    else (hours, minutes)
  }
}
