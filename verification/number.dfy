/** The helpers the plugin adds to `Number.prototype`: `abs`, a `round` to
    four decimals that is symmetric about zero, and `subtractMagnitude`,
    which moves a value towards zero by a given amount. */
module NumberExt {
  import opened JsMath

  /** `Number.prototype.abs`. */
  function Abs(x: real): (r: real)
    ensures r >= 0.0
    ensures r == x || r == -x
  {
    JsMath.Abs(x)
  }

  lemma AbsEven(x: real)
    ensures Abs(-x) == Abs(x)
  {
  }

  /** `Number.prototype.round`: the magnitude is rounded to the nearest
      multiple of 1/10000 (halves away from zero) and the sign is put back. */
  function Round(x: real): (r: real)
    ensures r == 0.0 || Sign(r) == Sign(x)
    ensures MultipleOf(r, 10000)
    ensures -1.0 / 20000.0 <= r - x <= 1.0 / 20000.0
    // An exact tie goes away from zero.
    ensures x >= 0.0 ==> -1.0 / 20000.0 < r - x
    ensures x <= 0.0 ==> r - x < 1.0 / 20000.0
  {
    var n := JsMath.Round(JsMath.Abs(x) * 10000.0);
    RoundFourFacts(x, n);
    Sign(x) * n as real / 10000.0
  }

  lemma RoundFourFacts(x: real, n: int)
    requires n == JsMath.Round(JsMath.Abs(x) * 10000.0)
    ensures var r := Sign(x) * n as real / 10000.0;
      && (r == 0.0 || Sign(r) == Sign(x))
      && MultipleOf(r, 10000)
      && -1.0 / 20000.0 <= r - x <= 1.0 / 20000.0
      && (x >= 0.0 ==> -1.0 / 20000.0 < r - x)
      && (x <= 0.0 ==> r - x < 1.0 / 20000.0)
  {
    assert 0 <= n;
    var r := Sign(x) * n as real / 10000.0;
    if x > 0.0 {
      assert Sign(x) == 1.0;
      assert r == n as real / 10000.0;
      IntegerFloor(n);
      assert r * 10000.0 == n as real;
    } else if x < 0.0 {
      assert Sign(x) == -1.0;
      assert r == -(n as real) / 10000.0;
      IntegerFloor(-n);
      assert r * 10000.0 == (-n) as real;
    } else {
      assert Sign(x) == 0.0;
      assert r == 0.0;
      IntegerFloor(0);
    }
  }

  lemma IntegerFloor(k: int)
    ensures (k as real).Floor == k
  {
  }

  /** Rounding is odd: it treats a value and its negation alike. */
  lemma RoundOdd(x: real)
    ensures Round(-x) == -Round(x)
  {
    assert JsMath.Abs(-x) == JsMath.Abs(x);
    assert Sign(-x) == -Sign(x);
  }

  /** `Number.prototype.subtractMagnitude`: shrink the magnitude of `self` by
      `sub`, keeping its sign; zero stays zero. */
  function SubtractMagnitude(self: real, sub: real): (r: real)
    ensures self == 0.0 ==> r == 0.0
    ensures self != 0.0 ==> r == Sign(self) * (JsMath.Abs(self) - sub)
    ensures 0.0 <= sub <= JsMath.Abs(self) ==> r == 0.0 || Sign(r) == Sign(self)
  {
    if Sign(self) == 1.0 then self - sub
    else if Sign(self) == -1.0 then self + sub
    else 0.0
  }

  /** Subtracting a magnitude commutes with negation. */
  lemma SubtractMagnitudeOdd(self: real, sub: real)
    ensures SubtractMagnitude(-self, sub) == -SubtractMagnitude(self, sub)
  {
  }
}
