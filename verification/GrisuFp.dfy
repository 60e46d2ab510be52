/** Floating-point building blocks of `fpconv.c`: decomposition of doubles, normalised rounding
    boundaries and the 64-bit fixed-point product. */
module GrisuFp {
  import opened Leb128

  const TWO32 := 0x1_0000_0000
  const TWO63 := 0x8000_0000_0000_0000
  const TWO64 := 0x1_0000_0000_0000_0000
  const HIDDEN := 0x0010_0000_0000_0000   // 2^52
  const MIN_EXP := -1074

  /** Machine words: assigning to one checks that nothing overflows. */
  type u64 = x: int | 0 <= x < TWO64

  datatype Fp = Fp(frac: u64, exp: int)

  /** `frac * 2^exp` of a finite double, from its bits (`build_fp`). */
  function BuildFp(bits: u64): Fp {
    var frac, e := bits % HIDDEN, bits / HIDDEN % 2048;
    if e != 0 then Fp(frac + HIDDEN, e - 1075) else Fp(frac, MIN_EXP)
  }

  /** The doubles other than zero, infinities and not-a-numbers; the sign is ignored. */
  predicate FiniteNonzero(bits: u64) {
    bits / HIDDEN % 2048 != 2047 && bits % TWO63 != 0
  }

  /** Significand and exponent of a positive finite double. */
  predicate IsDouble(w: Fp) {
    && 0 < w.frac < 2 * HIDDEN && MIN_EXP <= w.exp <= 971
    && (w.frac >= HIDDEN || w.exp == MIN_EXP)
  }

  lemma BuildFpIsDouble(bits: u64)
    requires FiniteNonzero(bits)
    ensures IsDouble(BuildFp(bits))
  {
    assert bits % TWO63 == bits % HIDDEN + HIDDEN * (bits / HIDDEN % 2048);
  }

  // ----- powers of two

  lemma {:induction false} Pow2At()
    ensures Pow2(9) == 512 && Pow2(10) == 1024 && Pow2(52) == HIDDEN && Pow2(63) == TWO63
  {
    assert Pow2(9) == 512;
    assert Pow2(13) == 8192;
    Pow2Add(13, 13);
    Pow2Add(26, 26);
    Pow2Add(10, 53);
  }

  // ----- boundaries

  /** The bit of weight `top` of a word below `2 * top`. */
  predicate BitClear(x: nat, top: nat)
    requires top > 0
    ensures x < 2 * top ==> (BitClear(x, top) <==> x < top)
  {
    assert x == top * (x / top) + x % top;
    assert x < 2 * top ==> x / top < 2 by { if x < 2 * top && x / top >= 2 { MulMono(top, 2, x / top); } }
    x / top % 2 == 0
  }

  /** Doubles `f` until its top bit is bit 52 + `extra`; the loops of `normalize` (extra 0) and of
      `get_normalized_boundaries` (extra 1). */
  method ShiftUp(f: u64, exp: int, extra: nat) returns (r: Fp, ghost m: nat)
    requires extra <= 1 && 0 < f < 2 * HIDDEN * (1 + extra)
    ensures r.frac == f * Pow2(m) && r.exp == exp - m && m <= 53
    ensures HIDDEN * (1 + extra) <= r.frac < 2 * HIDDEN * (1 + extra)
    ensures m > 0 ==> f * Pow2(m - 1) < HIDDEN * (1 + extra)
  {
    var top := HIDDEN * (1 + extra);
    r, m := Fp(f, exp), 0;
    while BitClear(r.frac, top)
      invariant r.exp == exp - m && Pow2(m) <= r.frac < 2 * top
      invariant r.frac == f * Pow2(m)
      invariant m > 0 ==> f * Pow2(m - 1) < top
      invariant m <= 53
      decreases 2 * top - r.frac
    {
      assert r.frac < top;
      DoubleStep(f, m);
      ShiftLimit(m, r.frac, top);
      assert Pow2(m + 1) == 2 * Pow2(m);
      r, m := Fp(2 * r.frac, r.exp - 1), m + 1;
    }
  }

  lemma DoubleStep(f: nat, m: nat)
    ensures f * Pow2(m + 1) == 2 * (f * Pow2(m))
  {
    assert f * (2 * Pow2(m)) == 2 * (f * Pow2(m));
  }

  lemma {:induction false} ShiftLimit(m: nat, g: nat, top: nat)
    requires Pow2(m) <= g < top <= 2 * HIDDEN
    ensures m < 53
  {
    Pow2At();
    if m >= 53 { Pow2Add(53, m - 53); assert Pow2(53) == 2 * HIDDEN; MulMono(2 * HIDDEN, 1, Pow2(m - 53)); }
  }

  lemma MulMono(a: nat, b: nat, c: nat)
    requires b <= c
    ensures a * b <= a * c
  {}

  /** The lower boundary is closer below a power of two. */
  function LowerNumerator(f: nat): int { if f == HIDDEN then 4 * f - 1 else 2 * (2 * f - 1) }

  /** The three significands at one exponent. With `p` a power of two, the value is `4f * p`, the
      boundaries are `(4f + 2) * p` and `LowerNumerator(f) * p`, all in units of `2^exp`. */
  ghost predicate Scaled(f: nat, e: int, w: Fp, lower: Fp, upper: Fp, t: nat) {
    && t >= 9 && w.exp == lower.exp == upper.exp == e - 2 - t
    && w.frac == 4 * f * Pow2(t) && upper.frac == (4 * f + 2) * Pow2(t)
    && lower.frac == LowerNumerator(f) * Pow2(t)
    && TWO63 <= upper.frac && TWO63 <= w.frac
  }

  /** `get_normalized_boundaries` followed by `normalize`. */
  method NormalizedBoundaries(fp: Fp) returns (w: Fp, lower: Fp, upper: Fp, ghost t: nat)
    requires 0 < fp.frac < 2 * HIDDEN
    ensures Scaled(fp.frac, fp.exp, w, lower, upper, t)
  {
    var f := fp.frac;
    var u, m := ShiftUp(2 * f + 1, fp.exp - 1, 1);
    upper := Fp(u.frac * 1024, u.exp - 10);
    lower := LowerBoundary(fp, upper.exp, m);
    var v, k := ShiftUp(f, fp.exp, 0);
    SameShift(f, m, k);
    w := Fp(v.frac * 2048, v.exp - 11);
    t := m + 9;
    ScaledFracs(f, m, Pow2(m));
  }

  method LowerBoundary(fp: Fp, exp: int, ghost m: nat) returns (lower: Fp)
    requires 0 < fp.frac < 2 * HIDDEN && exp == fp.exp - 11 - m
    requires (2 * fp.frac + 1) * Pow2(m) < 4 * HIDDEN
    ensures lower.exp == exp && lower.frac == LowerNumerator(fp.frac) * Pow2(m + 9)
  {
    var shift := if fp.frac == HIDDEN then 2 else 1;
    LowerShift(fp.frac, m, shift);
    var numerator: u64 := fp.frac * Pow2(shift) - 1;
    lower := Fp(numerator * Pow2(fp.exp - shift - exp), exp);
  }

  lemma {:induction false} ScaledFracs(f: nat, m: nat, p: nat)
    requires p == Pow2(m)
    ensures Pow2(m + 9) == 512 * p
    ensures (2 * f + 1) * p * 1024 == (4 * f + 2) * (512 * p)
    ensures f * p * 2048 == 4 * f * (512 * p)
  {
    assert Pow2(9) == 512;
    Pow2Add(9, m);
  }

  /** The shift of the lower boundary brings it to the exponent of the upper one. */
  lemma {:induction false} LowerShift(f: nat, m: nat, shift: nat)
    requires 0 < f < 2 * HIDDEN && shift == (if f == HIDDEN then 2 else 1)
    requires (2 * f + 1) * Pow2(m) < 4 * HIDDEN
    ensures m + 11 - shift >= 0 && f * Pow2(shift) - 1 >= 0
    ensures (f * Pow2(shift) - 1) * Pow2(m + 11 - shift) == LowerNumerator(f) * Pow2(m + 9)
    ensures (f * Pow2(shift) - 1) < TWO64 && 0 <= LowerNumerator(f) * Pow2(m + 9) < TWO64
  {
    Pow2At();
    Pow2Add(9, m);
    Pow2Add(1, m + 9);
    var p := Pow2(m);
    if f == HIDDEN {
      assert Pow2(shift) == 4;
    } else {
      assert Pow2(shift) == 2;
      assert (2 * f - 1) * (2 * Pow2(m + 9)) == 2 * (2 * f - 1) * Pow2(m + 9);
    }
    LowerBelow(f, p);
  }

  lemma LowerBelow(f: nat, p: nat)
    requires f > 0 && (2 * f + 1) * p < 4 * HIDDEN
    ensures 0 <= LowerNumerator(f) * (512 * p) < TWO64
  {
    assert 0 <= LowerNumerator(f) <= 2 * (2 * f + 1);
    MulMono(512 * p, LowerNumerator(f), 2 * (2 * f + 1));
    assert 2 * (2 * f + 1) * (512 * p) == 1024 * ((2 * f + 1) * p);
  }

  /** Value and upper boundary need the same number of doublings. */
  lemma {:induction false} SameShift(f: nat, m: nat, k: nat)
    requires f > 0 && 2 * HIDDEN <= (2 * f + 1) * Pow2(m) && HIDDEN <= f * Pow2(k)
    requires m > 0 ==> (2 * f + 1) * Pow2(m - 1) < 2 * HIDDEN
    requires k > 0 ==> f * Pow2(k - 1) < HIDDEN
    ensures m == k
  {
    UpperNeedsNoMore(f, m, k);
    ValueNeedsNoMore(f, m, k);
  }

  lemma OddProduct(f: nat, p: nat)
    ensures (2 * f + 1) * p == 2 * (f * p) + p
  {}

  lemma {:induction false} UpperNeedsNoMore(f: nat, m: nat, k: nat)
    requires HIDDEN <= f * Pow2(k) && (m > 0 ==> (2 * f + 1) * Pow2(m - 1) < 2 * HIDDEN)
    ensures m <= k
  {
    if k < m {
      Pow2Mono(k, m - 1);
      MulMono(2 * f + 1, Pow2(k), Pow2(m - 1));
      OddProduct(f, Pow2(k));
    }
  }

  lemma {:induction false} ValueNeedsNoMore(f: nat, m: nat, k: nat)
    requires f > 0 && 2 * HIDDEN <= (2 * f + 1) * Pow2(m) && (k > 0 ==> f * Pow2(k - 1) < HIDDEN)
    ensures k <= m
  {
    if m < k {
      Pow2At();
      Pow2Mono(m, k - 1);
      MulMono(f, Pow2(m), Pow2(k - 1));
      BelowPower(f, m, 52);
      OddProduct(f, Pow2(m));
    }
  }

  lemma {:induction false} Pow2Mono(a: nat, b: nat)
    requires a <= b
    ensures Pow2(a) <= Pow2(b)
  {
    if a < b { Pow2Mono(a, b - 1); }
  }

  /** A multiple of 2^m below 2^n is at least 2^m below it. */
  lemma {:induction false} BelowPower(f: nat, m: nat, n: nat)
    requires f > 0 && f * Pow2(m) < Pow2(n)
    ensures m < n && f * Pow2(m) + Pow2(m) <= Pow2(n)
  {
    MulMono(Pow2(m), 1, f);
    if m >= n {
      Pow2Mono(n, m);
    } else {
      Pow2Add(m, n - m);
      MultipleBelow(Pow2(m), f, Pow2(n - m));
    }
  }

  lemma MultipleBelow(p: nat, f: nat, r: nat)
    requires f * p < p * r
    ensures f * p + p <= p * r
  {
    if f >= r { MulMono(p, r, f); } else { MulMono(p, f + 1, r); assert p * (f + 1) == f * p + p; }
  }

  // ----- the product

  /** The four partial products of `multiply`, and the carry out of the low half. */
  function Multiply(a: u64, b: u64): (r: int) {
    var ah, al, bh, bl := a / TWO32, a % TWO32, b / TWO32, b % TWO32;
    var tmp := ah * bl % TWO32 + al * bh % TWO32 + al * bl / TWO32 + 0x8000_0000;
    ah * bh + ah * bl / TWO32 + al * bh / TWO32 + tmp / TWO32
  }

  /** a * b / 2^64, rounded to the nearest integer, halves up. */
  function Rounded(a: nat, b: nat): int { (a * b + TWO63) / TWO64 }

  lemma MultiplyParts(x: nat, y: nat, z: nat, hh: nat)
    ensures hh + x / TWO32 + y / TWO32 + (x % TWO32 + y % TWO32 + z / TWO32 + 0x8000_0000) / TWO32
         == (hh * TWO64 + (x + y) * TWO32 + z + TWO63) / TWO64
  {
    var lo := x % TWO32 + y % TWO32;
    assert (x + y) * TWO32 == (x / TWO32 + y / TWO32) * TWO64 + lo * TWO32;
    assert (lo * TWO32 + z + TWO63) / TWO64 == (lo + z / TWO32 + 0x8000_0000) / TWO32;
  }

  /** `multiply` computes exactly the rounded high half of the product. */
  lemma MultiplyIsRounded(a: u64, b: u64)
    ensures Multiply(a, b) == Rounded(a, b)
  {
    var ah, al, bh, bl := a / TWO32, a % TWO32, b / TWO32, b % TWO32;
    assert a == ah * TWO32 + al && b == bh * TWO32 + bl;
    ProductParts(ah, al, bh, bl);
    MultiplyParts(ah * bl, al * bh, al * bl, ah * bh);
  }

  lemma ProductParts(ah: nat, al: nat, bh: nat, bl: nat)
    ensures (ah * TWO32 + al) * (bh * TWO32 + bl)
         == ah * bh * TWO64 + (ah * bl + al * bh) * TWO32 + al * bl
  {
    assert (ah * TWO32) * (bh * TWO32 + bl) == ah * bh * TWO64 + ah * bl * TWO32;
    assert al * (bh * TWO32 + bl) == al * bh * TWO32 + al * bl;
  }

  /** No partial result of `multiply` overflows. */
  lemma MultiplyFits(a: u64, b: u64)
    ensures var ah, al, bh, bl := a / TWO32, a % TWO32, b / TWO32, b % TWO32;
            && 0 <= ah * bl < TWO64 && 0 <= al * bh < TWO64 && 0 <= al * bl < TWO64 && 0 <= ah * bh < TWO64
            && ah * bl % TWO32 + al * bh % TWO32 + al * bl / TWO32 + 0x8000_0000 < TWO64
            && 0 <= Multiply(a, b) < TWO64
  {
    var ah, al, bh, bl := a / TWO32, a % TWO32, b / TWO32, b % TWO32;
    SmallProduct(ah, bl);
    SmallProduct(al, bh);
    SmallProduct(al, bl);
    SmallProduct(ah, bh);
    MultiplyIsRounded(a, b);
    WideProduct(a, b);
  }

  lemma {:induction false} SmallProduct(x: nat, y: nat)
    requires x <= 0xffff_ffff && y <= 0xffff_ffff
    ensures 0 <= x * y <= 0xffff_fffe_0000_0001
  {
    MulMono(x, y, 0xffff_ffff);
  }

  lemma {:induction false} WideProduct(x: nat, y: nat)
    requires x <= 0xffff_ffff_ffff_ffff && y <= 0xffff_ffff_ffff_ffff
    ensures 0 <= x * y <= 0xffff_ffff_ffff_fffe_0000_0000_0000_0001
  {
    MulMono(x, y, 0xffff_ffff_ffff_ffff);
  }
}
