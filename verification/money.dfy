/** Currency arithmetic: `Decimal` values are exact reals here, and `ROUND_2`
    quantizes to hundredths with `ROUND_HALF_UP`. */
module Money {

  /** `x` is a whole number of hundredths (a value `ROUND_2` can return). */
  predicate IsCents(x: real) {
    (x * 100.0).Floor as real == x * 100.0
  }

  /** The smaller of two amounts. */
  function Min(a: real, b: real): (m: real)
    ensures m <= a && m <= b
    ensures m == a || m == b
  {
    if b < a then b else a
  }

  /** `ROUND_2`, quantizing to hundredths with half-up rounding: the nearest
      hundredth, a tie going away from zero. */
  function Round2(x: real): (r: real)
    ensures IsCents(r)
    ensures x >= 0.0 ==> x - 0.005 < r <= x + 0.005 && r >= 0.0
    ensures x < 0.0 ==> x - 0.005 <= r < x + 0.005 && r <= 0.0
  {
    if x >= 0.0 then
      var k := (x * 100.0 + 0.5).Floor;
      HundredthsAreCents(k);
      k as real / 100.0
    else
      var k := (-x * 100.0 + 0.5).Floor;
      HundredthsAreCents(-k);
      (-k) as real / 100.0
  }

  /** `k` hundredths is a whole number of hundredths. */
  lemma HundredthsAreCents(k: int)
    ensures IsCents(k as real / 100.0)
  {
    assert k as real / 100.0 * 100.0 == k as real;
  }

  /** Two whole numbers of hundredths less than a hundredth apart are equal. */
  lemma CentsCloseAreEqual(a: real, b: real)
    requires IsCents(a) && IsCents(b)
    requires a - 0.01 < b < a + 0.01
    ensures a == b
  {
    var ka, kb := (a * 100.0).Floor, (b * 100.0).Floor;
    assert ka as real == a * 100.0 && kb as real == b * 100.0;
    assert ka - 1 < kb < ka + 1;
  }

  /** The half-up bounds of `Round2` determine its result: no other whole
      number of hundredths satisfies them. */
  lemma Round2Unique(x: real, c: real)
    requires IsCents(c)
    requires x >= 0.0 ==> x - 0.005 < c <= x + 0.005
    requires x < 0.0 ==> x - 0.005 <= c < x + 0.005
    ensures c == Round2(x)
  {
    CentsCloseAreEqual(c, Round2(x));
  }

  /** Rounding a value that already is whole hundredths leaves it unchanged. */
  lemma Round2OfCents(x: real)
    requires IsCents(x)
    ensures Round2(x) == x
  {
    Round2Unique(x, x);
  }

  /** `Round2` is monotone. */
  lemma Round2Monotone(x: real, y: real)
    requires x <= y
    ensures Round2(x) <= Round2(y)
  {
    if 0.0 <= x {
      FloorMonotone(x * 100.0 + 0.5, y * 100.0 + 0.5);
    } else if y < 0.0 {
      FloorMonotone(-y * 100.0 + 0.5, -x * 100.0 + 0.5);
    }
  }

  lemma FloorMonotone(a: real, b: real)
    requires a <= b
    ensures a.Floor <= b.Floor
  {
    assert a.Floor as real <= a && b < b.Floor as real + 1.0;
  }
}
