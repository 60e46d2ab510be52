/** A decimal against the rounding interval of a double: products by a cached power that is accurate to
    half a unit keep the order, and the intervals of two doubles have no decimal in common. */
module GrisuBounds {
  import opened Leb128
  import opened GrisuFp
  import opened GrisuDigits
  import opened GrisuTable

  // ----- comparing d * 10^k with m * 2^p, by cross-multiplication

  function Up(z: int): nat { if z > 0 then z else 0 }
  function Down(z: int): nat { if z < 0 then -z else 0 }

  /** d * 10^k < m * 2^p */
  ghost predicate DecimalBelow(d: nat, k: int, m: int, p: int) {
    d * Pow10(Up(k)) * Pow2(Down(p)) < m * Pow2(Up(p)) * Pow10(Down(k))
  }

  /** m * 2^p < d * 10^k */
  ghost predicate DecimalAbove(d: nat, k: int, m: int, p: int) {
    m * Pow2(Up(p)) * Pow10(Down(k)) < d * Pow10(Up(k)) * Pow2(Down(p))
  }

  /** A cached power is within half a unit of the power of ten that it stands for:
      (2c - 1) * 2^exp <= 2 * 10^k <= (2c + 1) * 2^exp. */
  ghost predicate Approximates(c: Fp, k: int) {
    var ten, unit := 2 * Pow10(Up(k)) * Pow2(Down(c.exp)), Pow2(Up(c.exp)) * Pow10(Down(k));
    (2 * c.frac - 1) * unit <= ten <= (2 * c.frac + 1) * unit
  }

  /** `Inside` without a case distinction. */
  lemma {:induction false} InsideCross(ds: seq<nat>, kappa: int, one: nat, l: nat, u: nat)
    requires Inside(ds, kappa, one, l, u)
    ensures var x := Value(ds) * Pow10(Up(kappa)) * one;
            l * Pow10(Down(kappa)) <= x <= u * Pow10(Down(kappa))
  {
    assert Pow10(0) == 1;
  }

  /** d*a*one <= u*b, 2^65 u < u0 (2c-1) and (2c-1) unit <= ten give d*(a*unit)*(one*2^64) < u0*(b*ten)/2. */
  lemma {:induction false} UpperChain(d: nat, a: nat, one: nat, u: nat, b: nat, u0: nat, c2: nat, unit: nat, ten: nat)
    requires d * a * one <= u * b && 2 * TWO64 * u < u0 * c2 && c2 * unit <= ten && b > 0 && unit > 0
    ensures 2 * TWO64 * (d * a * one) * unit < u0 * b * ten
  {
    var x := d * a * one;
    assert 2 * TWO64 * x <= 2 * TWO64 * (u * b);
    StrictScale(2 * TWO64 * u, u0 * c2, b);
    assert 2 * TWO64 * (u * b) == 2 * TWO64 * u * b;
    assert 2 * TWO64 * x < u0 * c2 * b;
    StrictScale(2 * TWO64 * x, u0 * c2 * b, unit);
    MulMono(u0 * b, c2 * unit, ten);
    Shuffle(u0, c2, b, unit);
  }

  lemma {:induction false} LowerChain(d: nat, a: nat, one: nat, l: nat, b: nat, l0: nat, c2: nat, unit: nat, ten: nat)
    requires l * b <= d * a * one && l0 * c2 < 2 * TWO64 * l && ten <= c2 * unit && b > 0 && unit > 0
    ensures l0 * b * ten < 2 * TWO64 * (d * a * one) * unit
  {
    var x := d * a * one;
    assert 2 * TWO64 * (l * b) <= 2 * TWO64 * x;
    StrictScale(l0 * c2, 2 * TWO64 * l, b);
    assert 2 * TWO64 * (l * b) == 2 * TWO64 * l * b;
    assert l0 * c2 * b < 2 * TWO64 * x;
    StrictScale(l0 * c2 * b, 2 * TWO64 * x, unit);
    MulMono(l0 * b, ten, c2 * unit);
    Shuffle(l0, c2, b, unit);
  }

  lemma {:induction false} StrictScale(x: int, y: int, k: nat)
    requires x < y && k > 0
    ensures x * k < y * k
  {}

  lemma {:induction false} Shuffle(a: nat, b: nat, c: nat, d: nat)
    ensures a * b * c * d == a * c * (b * d)
  {}

  /** Both sides as powers, from the products of the chain. */
  lemma {:induction false} CollectLeft(d: nat, up: nat, s: nat, ue: nat, dk: nat)
    ensures 2 * TWO64 * (d * Pow10(up) * Pow2(s)) * (Pow2(ue) * Pow10(dk))
         == 2 * (d * Pow10(up + dk) * Pow2(s + 64 + ue))
  {
    Pow10Add(up, dk);
    Pow2Add(s, 64);
    Pow2Add(s + 64, ue);
    Pow2At64();
    var a, b, c, e := Pow10(up), Pow10(dk), Pow2(s), Pow2(ue);
    Collect6(d, a, b, c, e, TWO64);
  }

  lemma {:induction false} Collect6(d: nat, a: nat, b: nat, c: nat, e: nat, m: nat)
    ensures 2 * m * (d * a * c) * (e * b) == 2 * (d * (a * b) * (c * m * e))
  {
    assert 2 * m * (d * a * c) * (e * b) == 2 * (m * (d * a * c) * (e * b));
    Shuffle(m, d * a * c, e, b);
    assert m * (d * a * c) * (e * b) == (d * a) * b * ((c * m) * e) by { Regroup(m, d * a, c, e, b); }
  }

  lemma {:induction false} Regroup(m: nat, x: nat, c: nat, e: nat, b: nat)
    ensures m * (x * c) * (e * b) == x * b * (c * m * e)
  {
    assert m * (x * c) == x * (c * m);
    assert x * (c * m) * (e * b) == x * b * (c * m * e);
  }

  lemma {:induction false} CollectRight(u0: nat, dn: nat, uk: nat, de: nat)
    ensures u0 * Pow10(dn) * (2 * Pow10(uk) * Pow2(de)) == 2 * (u0 * Pow10(dn + uk) * Pow2(de))
  {
    Pow10Add(dn, uk);
    Collect4(u0, Pow10(dn), Pow10(uk), Pow2(de));
  }

  lemma {:induction false} Collect4(x: nat, a: nat, b: nat, c: nat)
    ensures x * a * (2 * b * c) == 2 * (x * (a * b) * c)
  {
    assert x * a * (b * c) == x * (a * b) * c;
  }

  lemma {:induction false} Pow2At64()
    ensures Pow2(64) == TWO64
  {
    Pow2At();
    assert Pow2(64) == 2 * Pow2(63);
  }

  /** x 10^i 2^j < y 10^k 2^l does not change when the exponents are reduced together. */
  lemma {:induction false} CancelPowers(x: nat, i: nat, j: nat, y: nat, k: nat, l: nat, a: nat, b: nat)
    ensures x * Pow10(i + a) * Pow2(j + b) < y * Pow10(k + a) * Pow2(l + b)
            <==> x * Pow10(i) * Pow2(j) < y * Pow10(k) * Pow2(l)
  {
    Pow10Add(i, a);
    Pow10Add(k, a);
    Pow2Add(j, b);
    Pow2Add(l, b);
    Pull(x, Pow10(i), Pow2(j), Pow10(a), Pow2(b));
    Pull(y, Pow10(k), Pow2(l), Pow10(a), Pow2(b));
    Positive(Pow10(a), Pow2(b));
    CancelFactor(x * Pow10(i) * Pow2(j), y * Pow10(k) * Pow2(l), Pow10(a) * Pow2(b));
  }

  lemma {:induction false} Pull(x: nat, p: nat, q: nat, a: nat, b: nat)
    ensures x * (p * a) * (q * b) == x * p * q * (a * b)
  {
    assert x * (p * a) == x * p * a;
    Shuffle(x * p, a, q, b);
    assert x * p * a * q * b == x * p * a * (q * b);
  }

  lemma {:induction false} Positive(a: nat, b: nat)
    requires a > 0 && b > 0
    ensures a * b > 0
  {}

  lemma {:induction false} CancelFactor(x: int, y: int, k: nat)
    requires k > 0
    ensures x * k < y * k <==> x < y
  {
    if x < y { StrictScale(x, y, k); } else { MulMonoInt(k, y, x); }
  }

  lemma {:induction false} MulMonoInt(a: int, b: int, c: int)
    requires a >= 0 && b <= c
    ensures b * a <= c * a
  {}

  // ----- the exponents of the two sides

  lemma {:induction false} Exponents(kappa: int, k: int, s: nat, e: int, ec: int)
    requires e + ec + 64 == 0 - s
    ensures Up(kappa) + Down(k) >= Up(kappa - k)
    ensures Down(kappa) + Up(k) - Down(kappa - k) == Up(kappa) + Down(k) - Up(kappa - k)
    ensures Down(ec) >= Up(e) && s + 64 + Up(ec) - Down(e) == Down(ec) - Up(e)
  {}

  lemma {:induction false} Swap(m: int, a: int, b: int)
    ensures m * a * b == m * b * a
  {}

  /** The scaled upper boundary, with the error of the cached power, is below the exact one. */
  lemma {:induction false} BelowUpper(d: nat, kappa: int, k: int, s: nat, e: int, cp: Fp, u: nat, u0: nat)
    requires cp.frac > 0 && Approximates(cp, k) && e + cp.exp + 64 == 0 - s
    requires d * Pow10(Up(kappa)) * Pow2(s) <= u * Pow10(Down(kappa))
    requires 2 * TWO64 * u < u0 * (2 * cp.frac - 1)
    ensures DecimalBelow(d, kappa - k, u0, e)
  {
    var unit, ten := Pow2(Up(cp.exp)) * Pow10(Down(k)), 2 * Pow10(Up(k)) * Pow2(Down(cp.exp));
    Positive(Pow2(Up(cp.exp)), Pow10(Down(k)));
    UpperChain(d, Pow10(Up(kappa)), Pow2(s), u, Pow10(Down(kappa)), u0, 2 * cp.frac - 1, unit, ten);
    CollectLeft(d, Up(kappa), s, Up(cp.exp), Down(k));
    CollectRight(u0, Down(kappa), Up(k), Down(cp.exp));
    Exponents(kappa, k, s, e, cp.exp);
    var a, b := Up(kappa) + Down(k) - Up(kappa - k), Down(cp.exp) - Up(e);
    CancelPowers(d, Up(kappa - k), Down(e), u0, Down(kappa - k), Up(e), a, b);
    Swap(u0, Pow10(Down(kappa - k)), Pow2(Up(e)));
  }

  lemma {:induction false} AboveLower(d: nat, kappa: int, k: int, s: nat, e: int, cp: Fp, l: nat, l0: nat)
    requires cp.frac > 0 && Approximates(cp, k) && e + cp.exp + 64 == 0 - s
    requires l * Pow10(Down(kappa)) <= d * Pow10(Up(kappa)) * Pow2(s)
    requires l0 * (2 * cp.frac + 1) < 2 * TWO64 * l
    ensures DecimalAbove(d, kappa - k, l0, e)
  {
    var unit, ten := Pow2(Up(cp.exp)) * Pow10(Down(k)), 2 * Pow10(Up(k)) * Pow2(Down(cp.exp));
    Positive(Pow2(Up(cp.exp)), Pow10(Down(k)));
    LowerChain(d, Pow10(Up(kappa)), Pow2(s), l, Pow10(Down(kappa)), l0, 2 * cp.frac + 1, unit, ten);
    CollectLeft(d, Up(kappa), s, Up(cp.exp), Down(k));
    CollectRight(l0, Down(kappa), Up(k), Down(cp.exp));
    Exponents(kappa, k, s, e, cp.exp);
    var a, b := Up(kappa) + Down(k) - Up(kappa - k), Down(cp.exp) - Up(e);
    CancelPowers(l0, Down(kappa - k), Up(e), d, Up(kappa - k), Down(e), a, b);
    Swap(l0, Pow10(Down(kappa - k)), Pow2(Up(e)));
  }

  // ----- the rounding interval

  /** The decimal is strictly inside the rounding interval of the double, in quarters of its last place.
      Below a power of two the code takes a quarter even where the spacing does not change, which only
      narrows the interval. */
  ghost predicate InInterval(w: Fp, d: nat, k: int) {
    DecimalAbove(d, k, LowerNumerator(w.frac), w.exp - 2) && DecimalBelow(d, k, 4 * w.frac + 2, w.exp - 2)
  }

  /** Factors of two move between significand and exponent. */
  lemma {:induction false} Rescale(m: nat, t: nat, p: int)
    ensures m * Pow2(t) * Pow2(Up(p - t)) * Pow2(Down(p)) == m * Pow2(Up(p)) * Pow2(Down(p - t))
  {
    Pow2Add(t, Up(p - t));
    Pow2Add(t + Up(p - t), Down(p));
    Pow2Add(Up(p), Down(p - t));
    assert t + Up(p - t) + Down(p) == Up(p) + Down(p - t);
    SameProduct(m, Pow2(t), Pow2(Up(p - t)), Pow2(Down(p)), Pow2(Up(p)), Pow2(Down(p - t)), Pow2(t + Up(p - t)));
  }

  lemma {:induction false} SameProduct(m: nat, a: nat, b: nat, c: nat, x: nat, y: nat, ab: nat)
    requires ab == a * b && ab * c == x * y
    ensures m * a * b * c == m * x * y
  {
    assert m * a * b == m * ab;
    assert m * ab * c == m * (ab * c);
  }

  lemma {:induction false} RescaleBelow(d: nat, k: int, m: nat, t: nat, p: int)
    ensures DecimalBelow(d, k, m * Pow2(t), p - t) <==> DecimalBelow(d, k, m, p)
    ensures DecimalAbove(d, k, m * Pow2(t), p - t) <==> DecimalAbove(d, k, m, p)
  {
    Rescale(m, t, p);
    CrossScale(d * Pow10(Up(k)), Pow10(Down(k)), m * Pow2(Up(p)), m * Pow2(t) * Pow2(Up(p - t)),
               Pow2(Down(p)), Pow2(Down(p - t)));
  }

  lemma {:induction false} CrossScale(x: nat, y: nat, n: nat, n': nat, b: nat, b': nat)
    requires n' * b == n * b' && b > 0 && b' > 0
    ensures x * b' < n' * y <==> x * b < n * y
    ensures n' * y < x * b' <==> n * y < x * b
  {
    CancelFactor(x * b', n' * y, b);
    CancelFactor(n' * y, x * b', b);
    CancelFactor(x * b, n * y, b');
    CancelFactor(n * y, x * b, b');
    assert x * b' * b == x * b * b';
    assert n' * y * b == n * y * b' by { assert n' * y * b == (n' * b) * y; assert n * y * b' == (n * b') * y; }
  }

  lemma {:induction false} ExponentRange(f: nat, e: int, t: nat)
    requires 0 < f && MIN_EXP <= e <= 971 && (f >= HIDDEN || e == MIN_EXP)
    requires t >= 9 && 4 * f * Pow2(t) < TWO64
    ensures -1137 <= e - 2 - t <= 960
  {
    Pow2At();
    assert 2 * Pow2(62) == Pow2(63);
    MulMono(Pow2(t), 4, 4 * f);
    if t > 61 { Pow2Mono(62, t); }
    if f >= HIDDEN {
      MulMono(Pow2(t), 4 * 0x0010_0000_0000_0000, 4 * f);
      assert Pow2(10) == 1024;
      if t > 9 { Pow2Mono(10, t); }
    }
  }

  /** The products by the cached power, without overflow. */
  method Scale(w: Fp, lower: Fp, upper: Fp, cp: Fp, ghost f: nat, ghost e: int, ghost t: nat)
    returns (v: u64, l: u64, u: u64)
    requires 0 < f < 2 * HIDDEN && Scaled(f, e, w, lower, upper, t) && TWO63 <= cp.frac
    ensures 0 < l <= v <= u < 1_0000_0000_0000_0000 * (u - l)
    ensures l == Rounded(lower.frac, cp.frac) + 1 && u == Rounded(upper.frac, cp.frac) - 1
  {
    MultiplyIsRounded(w.frac, cp.frac);
    MultiplyIsRounded(lower.frac, cp.frac);
    MultiplyIsRounded(upper.frac, cp.frac);
    ScaledBounds(f, e, w, lower, upper, t, cp.frac);
    v := Multiply(w.frac, cp.frac);
    u := Multiply(upper.frac, cp.frac) - 1;
    l := Multiply(lower.frac, cp.frac) + 1;
  }

  lemma {:induction false} ScaledInInterval(w: Fp, lower: Fp, upper: Fp, v: Fp, t: nat, cp: Fp, tens: int,
                                            l: nat, u: nat, ds: seq<nat>, kappa: int, s: nat)
    requires IsDouble(w) && Scaled(w.frac, w.exp, v, lower, upper, t) && Approximates(cp, tens)
    requires upper.exp + cp.exp + 64 == 0 - s && cp.frac > 0
    requires u == Rounded(upper.frac, cp.frac) - 1 && l == Rounded(lower.frac, cp.frac) + 1
    requires Inside(ds, kappa, Pow2(s), l, u)
    ensures InInterval(w, Value(ds), kappa - tens)
  {
    InsideCross(ds, kappa, Pow2(s), l, u);
    Absorbed(upper.frac, lower.frac, cp.frac);
    BelowUpper(Value(ds), kappa, tens, s, upper.exp, cp, u, upper.frac);
    AboveLower(Value(ds), kappa, tens, s, upper.exp, cp, l, lower.frac);
    RescaleBelow(Value(ds), kappa - tens, 4 * w.frac + 2, t, w.exp - 2);
    RescaleBelow(Value(ds), kappa - tens, LowerNumerator(w.frac), t, w.exp - 2);
  }

  // ----- no two doubles share a decimal

  /** Doubles in increasing order. */
  predicate Precedes(w: Fp, w': Fp) { w.exp < w'.exp || (w.exp == w'.exp && w.frac < w'.frac) }

  /** m * 2^p <= n * 2^q for q >= p */
  lemma {:induction false} EdgesOrdered(w: Fp, w': Fp)
    requires IsDouble(w) && IsDouble(w') && Precedes(w, w')
    ensures 4 * w.frac + 2 <= LowerNumerator(w'.frac) * Pow2(w'.exp - w.exp)
  {
    if w.exp < w'.exp {
      Pow2Mono(1, w'.exp - w.exp);
      MulMono(LowerNumerator(w'.frac), 2, Pow2(w'.exp - w.exp));
    }
  }

  /** The interval of a double ends before the next one begins: a decimal identifies its double. */
  lemma {:induction false} IntervalsDisjoint(w: Fp, w': Fp, d: nat, k: int)
    requires IsDouble(w) && IsDouble(w') && InInterval(w, d, k) && InInterval(w', d, k)
    ensures w == w'
  {
    if w != w' {
      if Precedes(w, w') { NotBoth(w, w', d, k); } else { NotBoth(w', w, d, k); }
    }
  }

  lemma {:induction false} NotBoth(w: Fp, w': Fp, d: nat, k: int)
    requires IsDouble(w) && IsDouble(w') && Precedes(w, w')
    ensures !(DecimalBelow(d, k, 4 * w.frac + 2, w.exp - 2) && DecimalAbove(d, k, LowerNumerator(w'.frac), w'.exp - 2))
  {
    var t := w'.exp - w.exp;
    EdgesOrdered(w, w');
    RescaleBelow(d, k, LowerNumerator(w'.frac), t, w'.exp - 2);
    assert w'.exp - 2 - t == w.exp - 2;
    OrderedEdges(d, k, 4 * w.frac + 2, LowerNumerator(w'.frac) * Pow2(t), w.exp - 2);
  }

  lemma {:induction false} OrderedEdges(d: nat, k: int, m: nat, n: nat, p: int)
    requires m <= n
    ensures !(DecimalBelow(d, k, m, p) && DecimalAbove(d, k, n, p))
  {
    MulMono(Pow2(Up(p)) * Pow10(Down(k)), m, n);
    assert m * Pow2(Up(p)) * Pow10(Down(k)) == m * (Pow2(Up(p)) * Pow10(Down(k)));
    assert n * Pow2(Up(p)) * Pow10(Down(k)) == n * (Pow2(Up(p)) * Pow10(Down(k)));
  }
}
