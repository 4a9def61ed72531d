/** Rounding to single precision. A non-negative float is `c * 2^e` with `c` below 2^24; whole numbers are rounded
    here, and a product with a fraction of 24 binary digits is rounded as a whole number of 2^-24ths.
 */
module Float32 {
  import opened Common

  const ONE: nat := 0x100_0000   // 2^24

  function Pow2(e: nat): (p: nat)
    ensures p >= 1
  {
    if e == 0 then 1 else 2 * Pow2(e - 1)
  }

  /** The floats around `x` are `2^Exponent(x)` apart. */
  function Exponent(x: nat): (e: nat)
    ensures x < ONE * Pow2(e)
    ensures e > 0 ==> ONE * Pow2(e) <= 2 * x
  {
    if x < ONE then 0 else Exponent(x / 2) + 1
  }

  /** The float nearest to `x`, of two equally near ones the even. */
  function RoundF32(x: nat): (r: nat)
    ensures x < ONE ==> r == x
    ensures -(x as int) <= ONE * (r - x) <= x
  {
    var u := Pow2(Exponent(x));
    QuotientSplits(x, u);
    var q, rest := x / u, x % u;
    assert (q + 1) * u == q * u + u;
    if 2 * rest < u || (2 * rest == u && q % 2 == 0) then q * u else (q + 1) * u
  }

  lemma QuotientSplits(x: nat, u: nat)
    requires u > 0
    ensures x == (x / u) * u + x % u && 0 <= x % u < u && x / u >= 0
  {
    var q := x / u;
    assert x == q * u + x % u;
    MultipleAtLeast(-q, u);
    assert (-q) * u == -(q * u);
  }

  /** A float at less than half the distance above `x`, or `x` itself, is what `x` rounds to. */
  lemma RoundsTo(x: nat, h: nat, c: nat)
    requires var u := Pow2(Exponent(x)); h == c * u && x <= h && 2 * (h - x) < u
    ensures RoundF32(x) == h
  {
    hide Exponent, Pow2;
    var u := Pow2(Exponent(x));
    QuotientSplits(x, u);
    ThisOrNext(x / u, c, x % u, u);
  }

  /** A multiple `c * u` less than half of `u` above `q * u + rest` is that number or the next multiple. */
  lemma ThisOrNext(q: nat, c: nat, rest: nat, u: nat)
    requires rest < u && q * u + rest <= c * u && 2 * (c * u - q * u - rest) < u
    ensures if c == q then rest == 0 else c == q + 1 && c * u == (q + 1) * u && 2 * rest > u
  {
    var over := c - q;
    assert c * u == q * u + over * u;
    MultipleAtLeast(over - 1, u);
    assert (over - 1) * u == over * u - u;
    if over > 1 {
      MultipleAtLeast(over - 1, u);
      assert false;
    }
    MultipleAtLeast(-over, u);
    assert (-over) * u == -(over * u);
  }

  lemma {:induction false} Pow2Divides(e: nat, f: nat) returns (c: nat)
    requires e <= f
    ensures Pow2(f) == c * Pow2(e)
  {
    if e == f {
      c := 1;
    } else {
      var d := Pow2Divides(e, f - 1);
      c := 2 * d;
      assert 2 * (d * Pow2(e)) == c * Pow2(e);
    }
  }

  const HALF: nat := 0x80_0000   // 2^23

  /** A multiple of 2^23 at or just above a number below 2^46 is what that number rounds to. */
  lemma RoundsToHalves(x: nat, j: nat)
    requires x <= j * HALF && 2 * (j * HALF - x) < Pow2(Exponent(x))
    requires x < 0x4000_0000_0000
    ensures RoundF32(x) == j * HALF
  {
    hide RoundF32, Exponent, Pow2;
    var e := Exponent(x);
    PowersHere();
    if e > 23 {
      var c := Pow2Divides(24, e);
      MultipleAtLeast(c, ONE);
      assert false;
    }
    var d := Pow2Divides(e, 23);
    assert j * (d * Pow2(e)) == (j * d) * Pow2(e);
    RoundsTo(x, j * HALF, j * d);
  }

  lemma PowersHere()
    ensures Pow2(23) == HALF && Pow2(24) == ONE
  {
    assert Pow2(2) == 4;
    assert Pow2(4) == 16;
    assert Pow2(6) == 64;
    assert Pow2(8) == 256;
    assert Pow2(10) == 1024;
    assert Pow2(12) == 4096;
    assert Pow2(14) == 16_384;
    assert Pow2(16) == 65_536;
    assert Pow2(18) == 262_144;
    assert Pow2(20) == 1_048_576;
    assert Pow2(22) == 4_194_304;
  }
}
