/** `grisu2`: the decimal it returns lies strictly inside the rounding interval of the double, so
    reading it back gives the same double. */
module Grisu {
  import opened Leb128
  import opened GrisuFp
  import opened GrisuDigits
  import opened GrisuTable
  import opened GrisuBounds
  import opened GrisuAccuracy

  /** The cached power that the search finds is normalized, accurate, and brings the exponent into range. */
  method CachedPower(exp: int, guess: nat) returns (cp: Fp, k: int)
    requires -1137 <= exp <= 960 && guess < NPOWERS
    ensures -60 <= exp + cp.exp + 64 <= -32 && TWO63 <= cp.frac && Approximates(cp, k) && -348 <= k <= 340
  {
    cp, k := FindCachedPow10(exp, guess);
    ghost var idx: nat :| idx < NPOWERS && cp == Power(idx) && k == FIRST + STEP * idx;
    PowerNormalized(idx);
    PowersAccurate(idx);
  }

  /** For every positive finite double: at most 17 digits without a leading zero, and the decimal is
      strictly inside the rounding interval. */
  method Grisu2(w: Fp, guess: nat) returns (ds: seq<nat>, k: int)
    requires IsDouble(w) && guess < NPOWERS
    ensures Generated(ds) && InInterval(w, Value(ds), k) && -359 <= k <= 357
  {
    var v, lower, upper, t := NormalizedBoundaries(w);
    ExponentRange(w.frac, w.exp, t);
    var cp, tens := CachedPower(upper.exp, guess);
    var scaled, l, u := Scale(v, lower, upper, cp, w.frac, w.exp, t);
    var s := -(upper.exp + cp.exp + 64);
    var kappa;
    ds, kappa := GenerateDigits(scaled, u, l, s);
    k := kappa - tens;
    ScaledInInterval(w, lower, upper, v, t, cp, tens, l, u, ds, kappa, s);
  }

  /** The last digit of a double can become zero: 4503602550366373 * 2^-970, which is 4.51298886875e-277. Its
      boundaries, scaled by cached power 79, make `round_digit` take the sixteenth digit from 1 to 0. */
  lemma DigitTakenToZero(f: nat, w: Fp, lower: Fp, upper: Fp, cp: Fp, v: nat, l: nat, u: nat, one: nat)
    requires f == 4503602550366373 && w == Fp(9223378023150331904, -981) && upper == Fp(9223378023150332928, -981)
    requires lower == Fp(9223378023150330880, -981) && cp == Power(79) && one == Pow2(37)
    requires v == Rounded(w.frac, cp.frac) && u == Rounded(upper.frac, cp.frac) - 1
             && l == Rounded(lower.frac, cp.frac) + 1
    ensures IsDouble(Fp(f, -970)) && Scaled(f, -970, w, lower, upper, 9) && upper.exp + cp.exp + 64 == -37
    ensures one > 0 && EndsInZero(v, u, l, one)
  {
    ScaledThere(f, w, lower, upper);
    RoundedThere(w.frac, lower.frac, upper.frac, cp.frac);
    ZeroThere(one);
  }

  lemma ScaledThere(f: nat, w: Fp, lower: Fp, upper: Fp)
    requires f == 4503602550366373 && w == Fp(9223378023150331904, -981) && upper == Fp(9223378023150332928, -981)
    requires lower == Fp(9223378023150330880, -981)
    ensures Scaled(f, -970, w, lower, upper, 9)
  {
    Pow2At();
  }

  lemma ZeroThere(one: nat)
    requires one == Pow2(37)
    ensures one > 0 && EndsInZero(6202604671517852335, 6202604671517853023, 6202604671517851648, one)
  {
    var n := 7;
    ReachedThere(n, one);
  }

  lemma RoundedThere(w: nat, lower: nat, upper: nat, c: nat)
    requires w == 9223378023150331904 && lower == w - 1024 && upper == w + 1024 && c == 12405201291620119593
    ensures Rounded(w, c) == 6202604671517852335 && Rounded(upper, c) == 6202604671517853024
    ensures Rounded(lower, c) == 6202604671517851647
  {}

  lemma {:induction false} ReachedThere(n: nat, one: nat)
    requires n == 7 && one == Pow2(37)
    ensures one > 0 && ReachesLower(6202604671517852335, 6202604671517853023, 6202604671517851648, one, n)
  {
    PowersUsed();
    Pow2Add(32, 5);
    assert Pow10(n) == 1000_0000 && Pow10(n + 1) == 10 * Pow10(n);
  }
}
