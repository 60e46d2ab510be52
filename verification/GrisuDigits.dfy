/** Scaled boundaries and digit generation of `grisu2`. */
module GrisuDigits {
  import opened Leb128
  import opened GrisuFp

  function Pow10(n: nat): (r: nat)
    ensures r >= 1
  {
    if n == 0 then 1 else 10 * Pow10(n - 1)
  }

  // ----- the boundaries after multiplication by a cached power

  lemma {:induction false} RoundedGap(x: nat, y: nat, c: nat, k: int)
    requires (x - y) * c >= k * TWO64
    ensures Rounded(x, c) >= Rounded(y, c) + k
  {
    assert x * c - y * c == (x - y) * c;
  }

  /** `lower.frac++` and `upper.frac--` absorb the error of the product and of the cached power
      (at most half a unit each): the scaled interval lies strictly inside the exact one. */
  lemma {:induction false} Absorbed(u: nat, l: nat, c: nat)
    requires 0 < u < TWO64 && l < TWO64 && c > 0
    ensures 2 * TWO64 * (Rounded(u, c) - 1) < u * (2 * c - 1)
    ensures 2 * TWO64 * (Rounded(l, c) + 1) > l * (2 * c + 1)
  {
    assert u * (2 * c - 1) == 2 * (u * c) - u;
    assert l * (2 * c + 1) == 2 * (l * c) + l;
  }

  lemma WideEnough(u: nat, l: nat, c: nat, x: nat)
    requires l < u && c >= TWO63 && x == (u - l) * c && u - l >= 1536 && u * c <= 0x20_0000_0000_0000 * x
    ensures Rounded(u, c) - 1 < 1_0000_0000_0000_0000 * (Rounded(u, c) - 1 - (Rounded(l, c) + 1))
  {
    MulMono(c, 1536, u - l);
    assert u * c - l * c == x;
  }

  lemma {:induction false} ScaledGaps(f: nat, p: nat, l: nat, w: nat, u: nat)
    requires 0 < f < 2 * HIDDEN && p >= 512
    requires w == 4 * f * p && u == (4 * f + 2) * p && l == LowerNumerator(f) * p
    ensures u - w >= 1024 && w - l >= 512 && u - l >= 1536 && u <= 0x20_0000_0000_0000 * (u - l)
  {
    var k := if f == HIDDEN then 3 else 4;
    assert u - w == 2 * p && u - l == k * p && w - l == (k - 2) * p;
    MulMono(p, 4 * f + 2, 0x20_0000_0000_0000 * k);
  }

  lemma {:induction false} RoundedOrder(l: nat, w: nat, u: nat, c: nat)
    requires u - w >= 1024 && w - l >= 512 && c >= TWO63
    ensures Rounded(l, c) + 1 <= Rounded(w, c) <= Rounded(u, c) - 1
  {
    MulMono(c, 1024, u - w);
    MulMono(c, 512, w - l);
    RoundedGap(u, w, c, 1);
    RoundedGap(w, l, c, 1);
  }

  /** The scaled fractions are ordered, and the interval is wide enough for 17 digits. */
  lemma {:induction false} ScaledBounds(f: nat, e: int, w: Fp, lower: Fp, upper: Fp, t: nat, c: nat)
    requires 0 < f < 2 * HIDDEN && Scaled(f, e, w, lower, upper, t) && TWO63 <= c < TWO64
    ensures var l, v, u := Rounded(lower.frac, c) + 1, Rounded(w.frac, c), Rounded(upper.frac, c) - 1;
            0 < l <= v <= u < TWO64 && u < 1_0000_0000_0000_0000 * (u - l)
  {
    Pow2At();
    Pow2Mono(9, t);
    ScaledGaps(f, Pow2(t), lower.frac, w.frac, upper.frac);
    RoundedOrder(lower.frac, w.frac, upper.frac, c);
    Widened(lower.frac, upper.frac, c);
    RoundedSmall(upper.frac, c);
    RoundedSmall(lower.frac, c);
  }

  lemma {:induction false} Widened(l: nat, u: nat, c: nat)
    requires c >= TWO63 && u - l >= 1536 && u <= 0x20_0000_0000_0000 * (u - l)
    ensures Rounded(u, c) - 1 < 1_0000_0000_0000_0000 * (Rounded(u, c) - 1 - (Rounded(l, c) + 1))
  {
    var gap := u - l;
    MulMono(c, u, 0x20_0000_0000_0000 * gap);
    assert c * (0x20_0000_0000_0000 * gap) == 0x20_0000_0000_0000 * (gap * c);
    WideEnough(u, l, c, gap * c);
  }

  lemma RoundedSmall(x: nat, c: nat)
    requires x < TWO64 && c < TWO64
    ensures 0 <= Rounded(x, c) <= TWO64
  {
    WideProduct(x, c);
  }

  // ----- decimal digits

  predicate IsDigits(ds: seq<nat>) { forall i :: 0 <= i < |ds| ==> ds[i] < 10 }

  function Value(ds: seq<nat>): nat {
    if ds == [] then 0 else 10 * Value(ds[..|ds| - 1]) + ds[|ds| - 1]
  }

  lemma ValueSnoc(ds: seq<nat>, d: nat)
    ensures Value(ds + [d]) == 10 * Value(ds) + d
  {
    assert (ds + [d])[..|ds|] == ds;
  }

  /** A nonempty digit sequence without a leading zero has the size that its length says. */
  lemma {:induction false} ValueBounds(ds: seq<nat>)
    requires IsDigits(ds) && |ds| > 0 && ds[0] >= 1
    ensures Pow10(|ds| - 1) <= Value(ds) < Pow10(|ds|)
  {
    var init := ds[..|ds| - 1];
    if |ds| > 1 { ValueBounds(init); } else { assert init == []; }
  }

  /** Moves the last digit down while that brings the number closer to the exact value and keeps it
      inside the interval; all quantities are distances from the upper boundary. A digit that is not zero
      becomes zero only where the whole of it reaches the lower boundary, and that is closer still. */
  method RoundDigit(d: nat, delta: u64, rem: u64, unit: u64, frac: u64) returns (d': nat, rem': u64)
    requires unit > 0 && rem <= delta <= rem + d * unit && frac <= delta && d > 0
    ensures d' <= d && rem' == rem + (d - d') * unit <= delta
    ensures d' == 0 <==> delta == rem + d * unit && 2 * (delta - frac) < unit
    ensures !(rem' < frac && delta - rem' >= unit && (rem' + unit < frac || frac - rem' > rem' + unit - frac))
  {
    d', rem' := d, rem;
    while rem' < frac && delta - rem' >= unit && (rem' + unit < frac || frac - rem' > rem' + unit - frac)
      invariant d' <= d && rem' == rem + (d - d') * unit <= delta
      invariant d' == 0 ==> delta == rem + d * unit && 2 * (delta - frac) < unit
      decreases d'
    {
      StillPositive(d, d', unit, rem, delta);
      d', rem' := d' - 1, rem' + unit;
      assert d' == 0 ==> rem' == rem + d * unit;
    }
    if d' >= 1 && delta == rem + d * unit && 2 * (delta - frac) < unit {
      CloserStill(d, d', unit, rem, delta, rem', frac);
    }
  }

  lemma CloserStill(d: nat, d': nat, unit: nat, rem: nat, delta: nat, rem': nat, frac: nat)
    requires 1 <= d' <= d && delta == rem + d * unit && rem' == rem + (d - d') * unit && frac <= delta
    requires 2 * (delta - frac) < unit
    ensures rem' < frac && delta - rem' >= unit && (rem' + unit < frac || frac - rem' > rem' + unit - frac)
  {
    assert delta - rem' == d' * unit;
    if d' == 1 { assert rem' + unit == delta; } else { MulMono(unit, 2, d'); }
  }

  lemma StillPositive(d: nat, d': nat, unit: nat, rem: nat, delta: nat)
    requires d' <= d && delta <= rem + d * unit && unit > 0
    ensures delta >= rem + (d - d') * unit + unit ==> d' >= 1
    ensures d' >= 1 ==> (d - (d' - 1)) * unit == (d - d') * unit + unit
  {}

  /** At most 17 digits: the last place is worth more than a tenth of the interval. */
  lemma {:induction false} CountBound(ds: seq<nat>, unit: nat, total: nat, delta: nat)
    requires IsDigits(ds) && |ds| > 0 && ds[0] >= 1 && unit > 0
    requires Value(ds) * unit <= total < 1_0000_0000_0000_0000 * delta && delta < 10 * unit
    ensures |ds| <= 17
  {
    ValueBounds(ds);
    CountArith(Value(ds), unit, total, delta);
    if |ds| > 17 {
      Pow10Mono(17, |ds| - 1);
      Pow10At17();
    }
  }

  lemma {:induction false} CountArith(v: nat, unit: nat, total: nat, delta: nat)
    requires v * unit <= total < 1_0000_0000_0000_0000 * delta && delta < 10 * unit
    ensures v < 10_0000_0000_0000_0000
  {
    if v >= 10_0000_0000_0000_0000 { MulMono(unit, 10_0000_0000_0000_0000, v); }
  }

  lemma {:induction false} Pow10At17()
    ensures Pow10(10) == 100_0000_0000 && Pow10(17) == 10_0000_0000_0000_0000
  {
    assert Pow10(10) == 100_0000_0000;
    assert Pow10(17) == 1000_0000 * Pow10(10);
  }

  lemma {:induction false} Pow10Mono(a: nat, b: nat)
    requires a <= b
    ensures Pow10(a) <= Pow10(b)
  {
    if a < b { Pow10Mono(a, b - 1); }
  }

  /** The number that the digits denote at place `kappa` lies in the interval; `one` is 1. */
  ghost predicate Inside(ds: seq<nat>, kappa: int, one: nat, l: nat, u: nat) {
    if kappa >= 0 then l <= Value(ds) * Pow10(kappa) * one <= u
    else l * Pow10(-kappa) <= Value(ds) * one <= u * Pow10(-kappa)
  }

  predicate Generated(ds: seq<nat>) { 0 < |ds| <= 17 && IsDigits(ds) && ds[0] >= 1 }

  /** The digits are a prefix of the upper boundary: `rest` is what is left of it. */
  ghost predicate Prefix(ds: seq<nat>, unit: nat, rest: nat, total: nat) {
    && IsDigits(ds) && (ds != [] ==> ds[0] >= 1) && total == Value(ds) * unit + rest
  }

  method AppendDigit(ds: seq<nat>, digit: nat) returns (ds': seq<nat>)
    requires IsDigits(ds) && digit < 10 && (ds != [] ==> ds[0] >= 1)
    ensures IsDigits(ds') && (ds' != [] ==> ds'[0] >= 1)
    ensures Value(ds') == 10 * Value(ds) + digit
    ensures |ds| <= |ds'| <= |ds| + 1 && (ds' == [] <==> ds == [] && digit == 0)
    ensures ds' != [] ==> ds'[|ds'| - 1] == digit
    ensures ds' == [] || (ds' == ds + [digit])
  {
    if digit != 0 || ds != [] {
      ValueSnoc(ds, digit);
      ds' := ds + [digit];
    } else {
      ds' := ds;
    }
  }

  /** Stops with the digits `ds`: the last one is rounded, and the number stays in the interval. All
      of `delta`, `rem` and `frac` are scaled like `unit`. `prev` is the remainder one place earlier,
      when the interval was not reached yet. */
  method Stop(ds: seq<nat>, delta: u64, rem: u64, unit: u64, frac: u64, ghost total: nat, ghost prev: nat)
    returns (ds': seq<nat>)
    requires Prefix(ds, unit, rem, total) && unit > 0 && ds != []
    requires rem <= delta <= prev && prev == rem + ds[|ds| - 1] * unit && rem < prev < 10 * unit
    requires delta < total < 1_0000_0000_0000_0000 * delta && frac <= delta
    ensures Generated(ds') && total - delta <= Value(ds') * unit <= total
    ensures ds'[|ds'| - 1] == 0 <==> delta == prev && 2 * (delta - frac) < unit
  {
    var n := |ds|;
    var last, rem' := RoundDigit(ds[n - 1], delta, rem, unit, frac);
    ds' := ds[..n - 1] + [last];
    ValueSnoc(ds[..n - 1], ds[n - 1]);
    ValueSnoc(ds[..n - 1], last);
    assert ds == ds[..n - 1] + [ds[n - 1]];
    Lowered(Value(ds), Value(ds'), unit, rem, rem', total, ds[n - 1], last);
    CountBound(ds, unit, total, delta);
    if n == 1 { assert ds[..0] == []; assert Value(ds') == last; NonzeroDigit(last, unit, total, delta); }
  }

  lemma Lowered(v: nat, v': nat, unit: nat, rem: nat, rem': nat, total: nat, d: nat, d': nat)
    requires v - v' == d - d' && total == v * unit + rem && rem' == rem + (d - d') * unit
    ensures total == v' * unit + rem'
  {
    assert v * unit - v' * unit == (v - v') * unit;
  }

  lemma NonzeroDigit(d: nat, unit: nat, total: nat, delta: nat)
    requires d * unit >= total - delta > 0
    ensures d >= 1
  {}

  /** The digits before the decimal point; `stopped` tells whether the interval was reached. The place
      values are read from a table of powers of ten. */
  method IntegerDigits(u: u64, delta: u64, frac: u64, one: nat, part: u64, part2: nat)
    returns (stopped: bool, ds: seq<nat>, kappa: nat)
    requires frac <= delta < u < 1_0000_0000_0000_0000 * delta
    requires part < Pow10(10) && part2 < one && u == part * one + part2
    ensures stopped ==> Generated(ds) && Inside(ds, kappa, one, u - delta, u) && ds[|ds| - 1] >= 1 && kappa < 10
    ensures stopped ==> !EndsInZero(u - frac, u, u - delta, one)
    ensures !stopped ==> Prefix(ds, one, part2, u) && delta < part2
  {
    var part1: u64, rest: u64 := part, u;
    ds, kappa := [], 10;
    while kappa > 0
      invariant kappa <= 10 && AtPlace(ds, kappa, part1, rest, one, part2, u) && delta < rest
    {
      ghost var prev := rest;
      ds, part1, rest := PlaceDigit(ds, kappa, part1, one, part2, rest, u);
      kappa := kappa - 1;
      if rest <= delta {
        WholeUnits(ds, kappa, part1, rest, one, part2, u, delta, frac);
        ds := StopInteger(ds, kappa, delta, part1, rest, one, part2, frac, u, prev);
        return true, ds, kappa;
      }
    }
    stopped := false;
    LastPlace(ds, part1, rest, one, part2, u);
  }

  /** The digits above place `kappa` are written, `rest` is what the boundary exceeds them by. */
  ghost predicate AtPlace(ds: seq<nat>, kappa: nat, part1: nat, rest: nat, one: nat, part2: nat, u: nat) {
    && part1 < Pow10(kappa) && part2 < one && rest == part1 * one + part2
    && Prefix(ds, Pow10(kappa) * one, rest, u)
  }

  /** What is left of the boundary starts at a whole unit. */
  lemma WholeUnits(ds: seq<nat>, kappa: nat, part1: nat, rest: nat, one: nat, part2: nat, u: nat, delta: nat, frac: nat)
    requires AtPlace(ds, kappa, part1, rest, one, part2, u) && rest <= delta && frac <= delta <= u
    ensures !EndsInZero(u - frac, u, u - delta, one)
  {
    Associate(Value(ds), Pow10(kappa), one);
    StopsBefore(u - frac, u, delta, one, Value(ds) * Pow10(kappa), rest);
  }

  lemma LastPlace(ds: seq<nat>, part1: nat, rest: nat, one: nat, part2: nat, u: nat)
    requires AtPlace(ds, 0, part1, rest, one, part2, u)
    ensures rest == part2 && Prefix(ds, one, part2, u)
  {
    assert Pow10(0) == 1 && part1 == 0;
  }

  /** The last digit written and what was left before it. */
  ghost predicate Wrote(ds: seq<nat>, kappa: nat, rest: nat, one: nat, prev: nat, u: nat) {
    if ds == [] then rest == u
    else prev == rest + ds[|ds| - 1] * (Pow10(kappa) * one) && prev < 10 * (Pow10(kappa) * one)
  }

  method StopInteger(ds: seq<nat>, kappa: nat, delta: u64, part1: nat, rem: u64, one: nat, part2: nat, frac: u64,
                     ghost u: u64, ghost prev: nat)
    returns (ds': seq<nat>)
    requires AtPlace(ds, kappa, part1, rem, one, part2, u) && Wrote(ds, kappa, rem, one, prev, u)
    requires rem <= delta < prev && frac <= delta < u < 1_0000_0000_0000_0000 * delta
    ensures Generated(ds') && Inside(ds', kappa, one, u - delta, u) && ds'[|ds'| - 1] >= 1
  {
    var div := Pow10(kappa);
    ValuePositive(ds);
    UnitFits(Value(ds), div * one, rem, u);
    UnitPositive(div, one);
    ds' := Stop(ds, delta, rem, div * one, frac, u, prev);
    Associate(Value(ds'), div, one);
  }

  lemma UnitPositive(div: nat, one: nat)
    requires div > 0 && one > 0
    ensures div * one > 0
  {}

  /** One pass of the loop: the digit at this place, and the remainder below it. */
  method PlaceDigit(ds: seq<nat>, kappa: nat, part1: u64, one: nat, part2: nat, rest: u64, ghost u: u64)
    returns (ds': seq<nat>, part1': u64, rest': u64)
    requires kappa > 0 && AtPlace(ds, kappa, part1, rest, one, part2, u)
    ensures AtPlace(ds', kappa - 1, part1', rest', one, part2, u)
    ensures Wrote(ds', kappa - 1, rest', one, rest, u)
  {
    var div := Pow10(kappa - 1);
    var digit;
    digit, part1', rest' := SplitPlace(Value(ds), part1, div, one, part2, rest, u);
    ds' := AppendDigit(ds, digit);
  }

  method SplitPlace(ghost v: nat, part1: u64, div: nat, one: nat, part2: nat, rest: u64, ghost u: u64)
    returns (digit: nat, part1': u64, rest': u64)
    requires div > 0 && part1 < 10 * div && part2 < one && rest == part1 * one + part2
    requires u == v * (10 * div * one) + rest
    ensures digit < 10 && part1' < div && rest < 10 * (div * one) && rest' == part1' * one + part2
    ensures u == (10 * v + digit) * (div * one) + rest' && rest == rest' + digit * (div * one)
  {
    PlaceAll(v, part1, div, one, part2, rest, u);
    digit := part1 / div;
    part1' := part1 - digit * div;
    rest' := part1' * one + part2;
  }

  lemma PlaceAll(v: nat, part1: nat, div: nat, one: nat, part2: nat, rest: nat, u: nat)
    requires div > 0 && part1 < 10 * div && part2 < one && rest == part1 * one + part2
    requires u == v * (10 * div * one) + rest
    ensures var d, p := part1 / div, part1 - part1 / div * div;
            && 0 <= d < 10 && 0 <= p < div && rest < 10 * (div * one) && 0 <= p * one + part2 <= u
            && u == (10 * v + d) * (div * one) + (p * one + part2)
            && rest == (p * one + part2) + d * (div * one)
  {
    PlaceStep(v, part1, div, one, part2, u);
    RestBelow(part1, part2, one, div);
    RestFits(10 * v + part1 / div, div * one, (part1 - part1 / div * div) * one + part2, u);
  }

  lemma RestBelow(part1: nat, part2: nat, one: nat, div: nat)
    requires part1 < 10 * div && part2 < one
    ensures part1 * one + part2 < 10 * (div * one)
  {
    MulMono(one, part1 + 1, 10 * div);
    assert one * (10 * div) == 10 * (div * one) && one * (part1 + 1) == part1 * one + one;
  }

  lemma RestFits(v: nat, unit: nat, rest: nat, u: nat)
    requires u == v * unit + rest
    ensures rest <= u
  {}

  lemma ValuePositive(ds: seq<nat>)
    requires IsDigits(ds) && ds != [] && ds[0] >= 1
    ensures Value(ds) >= 1
  {
    ValueBounds(ds);
  }

  lemma {:induction false} PartsOf(u: u64, s: nat)
    requires 32 <= s <= 60
    ensures TWO32 <= Pow2(s) <= 0x1000_0000_0000_0000
    ensures 0 <= u / Pow2(s) < Pow10(10) && 0 <= u % Pow2(s) < Pow2(s)
    ensures u == u / Pow2(s) * Pow2(s) + u % Pow2(s)
  {
    Pow2Mono(32, s);
    Pow2Mono(s, 60);
    PowersUsed();
    MulMono(TWO32, TWO32, Pow2(s));
    DivBelow(u, Pow2(s), TWO32);
  }

  lemma {:induction false} DivBelow(x: nat, d: nat, k: nat)
    requires d > 0 && x < k * d
    ensures 0 <= x / d < k && x == x / d * d + x % d && 0 <= x % d < d
  {
    var q: nat := x / d;
    assert x == d * q + x % d;
    if q >= k { MulMono(d, k, q); }
  }

  lemma {:induction false} PowersUsed()
    ensures Pow2(32) == TWO32 && Pow2(60) == 0x1000_0000_0000_0000 && Pow10(9) == 10_0000_0000
    ensures Pow10(10) == 100_0000_0000
  {
    assert Pow2(10) == 1024;
    Pow2Add(10, 10);
    Pow2Add(20, 10);
    Pow2Add(30, 2);
    Pow2Add(30, 30);
    assert Pow10(9) == 10_0000_0000;
  }

  /** One place further: the remainder splits into a digit and a smaller remainder. */
  lemma PlaceStep(v: nat, part1: nat, div: nat, one: nat, part2: nat, u: nat)
    requires div > 0 && u == v * (10 * div * one) + (part1 * one + part2) && part1 < 10 * div
    ensures 0 <= part1 / div < 10 && part1 - part1 / div * div == part1 % div < div
    ensures u == (10 * v + part1 / div) * (div * one) + ((part1 - part1 / div * div) * one + part2)
    ensures part1 * one + part2 == ((part1 - part1 / div * div) * one + part2) + part1 / div * (div * one)
  {
    DivBelow(part1, div, 10);
    var q, r := part1 / div, part1 % div;
    assert part1 * one == q * (div * one) + r * one;
    assert v * (10 * div * one) == 10 * v * (div * one);
  }

  lemma UnitFits(v: nat, unit: nat, rem: nat, u: nat)
    requires v >= 1 && u == v * unit + rem
    ensures unit <= u
  {
    MulMono(unit, 1, v);
  }

  lemma Associate(v: nat, div: nat, one: nat)
    ensures v * (div * one) == v * div * one
  {}

  // ----- when the last digit becomes zero

  /** The digits reach the lower boundary exactly, `n` places after the point and not before it, the next digit
      is the first to tell more, and the exact value is less than half a unit of that place away. */
  predicate ReachesLower(w: nat, upper: nat, lower: nat, one: nat, n: nat)
    requires one > 0
  {
    && 1 <= n <= 18 && lower % one != 0 && lower * Pow10(n) % one == 0
    && (upper - lower) * Pow10(n) < one <= (upper - lower) * Pow10(n + 1) && 2 * (w - lower) * Pow10(n + 1) < one
  }

  /** The scaled value and its boundaries are such that rounding takes the last digit down to zero. */
  predicate EndsInZero(w: nat, upper: nat, lower: nat, one: nat)
    requires one > 0
  {
    exists n: nat :: n <= 18 && ReachesLower(w, upper, lower, one, n)
  }

  lemma {:induction false} ModIs(x: int, one: nat, q: int, r: nat)
    requires one > 0 && x == q * one + r && r < one
    ensures x % one == r
  {
    var q' := x / one;
    assert x == q' * one + x % one;
    assert (q' - q) * one == r - x % one;
    if q' > q { MulMono(one, 1, q' - q); } else if q' < q { MulMono(one, 1, q - q'); }
  }

  /** What falls short of a multiple by less than one unit is no multiple, and does not become one. */
  lemma {:induction false} NoMultiple(x: nat, one: nat, q: int, gap: nat, k: nat)
    requires one > 0 && x == q * one - gap && gap > 0 && k > 0 && gap * k < one
    ensures x * k % one != 0
  {
    MulMono(gap, 1, k);
    assert x * k == q * one * k - gap * k;
    assert q * one * k == q * k * one;
    assert x * k == (q * k - 1) * one + (one - gap * k);
    ModIs(x * k, one, q * k - 1, one - gap * k);
  }

  lemma {:induction false} Pow10Add(a: nat, b: nat)
    ensures Pow10(a + b) == Pow10(a) * Pow10(b)
  {
    if a > 0 {
      Pow10Add(a - 1, b);
      assert 10 * (Pow10(a - 1) * Pow10(b)) == 10 * Pow10(a - 1) * Pow10(b);
    }
  }

  /** The lower boundary after `n` places, from the digits of the upper one. */
  lemma {:induction false} LowerAt(u: nat, delta: nat, one: nat, p: nat, v: nat, part: nat)
    requires delta <= u && u * p == v * one + part && part < one && one > 0
    ensures (u - delta) * p == v * one + part - delta * p
    ensures delta * p <= part ==> (u - delta) * p % one == part - delta * p
  {
    assert (u - delta) * p == u * p - delta * p;
    if delta * p <= part { ModIs((u - delta) * p, one, v, part - delta * p); }
  }

  /** A boundary that was passed is never reached exactly later on. */
  lemma {:induction false} PassedBy(u: nat, delta: nat, one: nat, i: nat, v: nat, part: nat, n: nat)
    requires delta <= u && u * Pow10(i) == v * one + part && part < one && one > 0 && part < delta * Pow10(i)
    requires i <= n && delta * Pow10(n) < one
    ensures (u - delta) * Pow10(n) % one != 0
  {
    Pow10Add(i, n - i);
    PassedAt(u, delta, one, Pow10(i), Pow10(n - i), v, part);
  }

  lemma {:induction false} PassedAt(u: nat, delta: nat, one: nat, p: nat, k: nat, v: nat, part: nat)
    requires delta <= u && u * p == v * one + part && part < one && one > 0 && part < delta * p
    requires k > 0 && delta * (p * k) < one
    ensures (u - delta) * (p * k) % one != 0
  {
    LowerAt(u, delta, one, p, v, part);
    assert delta * (p * k) == delta * p * k;
    MulMono(k, delta * p - part, delta * p);
    NoMultiple((u - delta) * p, one, v, delta * p - part, k);
    assert (u - delta) * (p * k) == (u - delta) * p * k;
  }

  lemma {:induction false} GrowsWith(delta: nat, i: nat, n: nat)
    requires i <= n
    ensures delta * Pow10(i) <= delta * Pow10(n)
  {
    Pow10Mono(i, n);
    MulMono(delta, Pow10(i), Pow10(n));
  }

  /** Digits that stop before the point do not end in zero: the boundary is reached there or passed. */
  lemma {:induction false} StopsBefore(w: nat, u: nat, delta: nat, one: nat, q: nat, rest: nat)
    requires delta <= u && one > 0 && u == q * one + rest && rest <= delta
    ensures !EndsInZero(w, u, u - delta, one)
  {
    if EndsInZero(w, u, u - delta, one) {
      var n: nat :| n <= 18 && ReachesLower(w, u, u - delta, one, n);
      GrowsWith(delta, 0, n);
      if rest == delta { ModIs(u - delta, one, q, 0); } else { PassedBy(u, delta, one, 0, q, rest, n); }
    }
  }

  /** Digits that stop one place after `n`: they end in zero exactly when the boundary was reached at `n`. */
  lemma {:induction false} ZeroExactly(u: nat, delta: nat, frac: nat, one: nat, n: nat, v0: nat, part0: nat, v: nat,
                                       part: nat, v': nat, part': nat)
    requires frac <= delta <= u && one > 0 && n <= 18 && u == v0 * one + part0 && delta < part0 < one
    requires u * Pow10(n) == v * one + part && delta * Pow10(n) <= part < one && (n == 0 ==> part == part0)
    requires u * Pow10(n + 1) == v' * one + part' && part' < one && part' < delta * Pow10(n + 1) && one <= 10 * part
    ensures EndsInZero(u - frac, u, u - delta, one) <==>
            part == delta * Pow10(n) && 2 * (delta * Pow10(n + 1) - frac * Pow10(n + 1)) < one
  {
    LowerAt(u, delta, one, Pow10(n), v, part);
    LowerAt(u, delta, one, 1, v0, part0);
    Twice(u, delta, frac, Pow10(n));
    if part == delta * Pow10(n) && 2 * (delta * Pow10(n + 1) - frac * Pow10(n + 1)) < one {
      assert ReachesLower(u - frac, u, u - delta, one, n);
    }
    if EndsInZero(u - frac, u, u - delta, one) {
      var m: nat :| m <= 18 && ReachesLower(u - frac, u, u - delta, one, m);
      SamePlace(u, delta, frac, one, n, m, v', part');
    }
  }

  lemma Twice(u: nat, delta: nat, frac: nat, p: nat)
    requires frac <= delta <= u
    ensures delta * (10 * p) == 10 * (delta * p)
    ensures 2 * (u - frac - (u - delta)) * (10 * p) == 2 * (delta * (10 * p) - frac * (10 * p))
  {}

  lemma {:induction false} SamePlace(u: nat, delta: nat, frac: nat, one: nat, n: nat, m: nat, v': nat, part': nat)
    requires frac <= delta <= u && one > 0 && delta * Pow10(n) < one && ReachesLower(u - frac, u, u - delta, one, m)
    requires u * Pow10(n + 1) == v' * one + part' && part' < one && part' < delta * Pow10(n + 1)
    ensures m == n
  {
    if m < n { GrowsWith(delta, m + 1, n); }
    if m > n { PassedBy(u, delta, one, n + 1, v', part', m); }
  }

  /** The digits after the decimal point. */
  method FractionDigits(ds0: seq<nat>, u: u64, delta0: u64, frac: u64, rem: u64, s: nat)
    returns (ds: seq<nat>, kappa: int)
    requires 32 <= s <= 60 && frac <= delta0 < u < 1_0000_0000_0000_0000 * delta0
    requires Prefix(ds0, Pow2(s), rem, u) && delta0 < rem < Pow2(s)
    ensures -19 <= kappa < 0 && Generated(ds) && Inside(ds, kappa, Pow2(s), u - delta0, u)
    ensures Pow2(s) > 0 && (ds[|ds| - 1] == 0 <==> EndsInZero(u - frac, u, u - delta0, Pow2(s)))
  {
    var one := Pow2(s);
    PartsOf(u, s);
    var part2: u64, delta: u64, places := rem, delta0, 0;
    ds := ds0;
    while true
      invariant AtFraction(ds, places, part2, delta, one, u, delta0) && 0 < delta <= part2
      invariant places == 0 ==> part2 == rem
      decreases one - delta
    {
      ghost var prev, v, part := 10 * part2, Value(ds), part2;
      ds, part2, delta := FractionDigit(ds, places, part2, delta, one, u, delta0);
      places := places + 1;
      if part2 < delta {
        ghost var v', part' := Value(ds), part2;
        StopPlaces(places, delta, delta0);
        ds := StopFraction(ds, places, part2, delta, one, frac, u, delta0, prev);
        ZeroExactly(u, delta0, frac, one, places - 1, Value(ds0), rem, v, part, v', part');
        return ds, 0 - places;
      }
    }
  }

  /** `places` digits after the point are written. */
  ghost predicate AtFraction(ds: seq<nat>, places: nat, part2: nat, delta: nat, one: nat, u: nat, delta0: nat) {
    && part2 < one && delta == delta0 * Pow10(places) && Prefix(ds, one, part2, u * Pow10(places))
  }

  lemma EmptyMeansAll(ds: seq<nat>, one: nat, rest: nat, total: nat)
    requires Prefix(ds, one, rest, total) && rest < total
    ensures ds != []
  {}

  lemma FractionTotals(u: nat, delta0: nat, p: nat)
    ensures u * (10 * p) == 10 * (u * p) && delta0 * (10 * p) == 10 * (delta0 * p)
  {}

  /** One pass of the loop: the next digit of the fraction. */
  method FractionDigit(ds: seq<nat>, ghost places: nat, part2: u64, delta: u64, one: u64, ghost u: nat,
                       ghost delta0: nat)
    returns (ds': seq<nat>, part2': u64, delta': u64)
    requires one <= 0x1000_0000_0000_0000 && delta <= part2 && AtFraction(ds, places, part2, delta, one, u, delta0)
    ensures AtFraction(ds', places + 1, part2', delta', one, u, delta0) && delta' == 10 * delta
    ensures ds' != [] ==> 10 * part2 == part2' + ds'[|ds'| - 1] * one
  {
    FractionTotals(u, delta0, Pow10(places));
    FractionStep(Value(ds), one, part2, u * Pow10(places));
    var scaled: u64 := part2 * 10;
    delta' := delta * 10;
    ds' := AppendDigit(ds, scaled / one);
    part2' := scaled % one;
  }

  /** The distance to the exact value is scaled with a power of ten from the table, which ends at 10^19. */
  method StopFraction(ds: seq<nat>, places: nat, part2: u64, delta: u64, one: u64, frac: u64,
                      ghost u: nat, ghost delta0: nat, ghost prev: nat)
    returns (ds': seq<nat>)
    requires AtFraction(ds, places, part2, delta, one, u, delta0) && places > 0
    requires frac <= delta0 < u < 1_0000_0000_0000_0000 * delta0
    requires part2 < delta <= prev < 10 * one && (ds != [] ==> prev == part2 + ds[|ds| - 1] * one)
    requires one <= 0x1000_0000_0000_0000
    ensures Generated(ds') && Inside(ds', 0 - places, one, u - delta0, u) && places <= 19 && one <= prev
    ensures ds'[|ds'| - 1] == 0 <==> delta == prev && 2 * (delta - frac * Pow10(places)) < one
  {
    StopFacts(places, delta, frac, u, delta0);
    EmptyMeansAll(ds, one, part2, u * Pow10(places));
    var scaled: u64 := frac * Pow10(places);
    ghost var total: nat := u * Pow10(places);
    AtLeastOne(ds[|ds| - 1], one, part2, prev);
    ds' := Stop(ds, delta, part2, one, scaled, total, prev);
  }

  lemma AtLeastOne(d: nat, one: nat, part: nat, prev: nat)
    requires part < prev == part + d * one
    ensures one <= prev
  {
    if d > 0 { MulMono(one, 1, d); }
  }

  lemma StopPlaces(places: nat, delta: u64, delta0: nat)
    requires delta == delta0 * Pow10(places) && delta0 > 0
    ensures places <= 19
  {
    MulMono(Pow10(places), 1, delta0);
    TableIndex(places);
  }

  lemma StopFacts(places: nat, delta: u64, frac: nat, u: nat, delta0: nat)
    requires delta == delta0 * Pow10(places) && frac <= delta0 < u < 1_0000_0000_0000_0000 * delta0
    ensures places <= 19
    ensures var total := u * Pow10(places);
            && 0 <= frac * Pow10(places) <= delta < total < 1_0000_0000_0000_0000 * delta
            && (u - delta0) * Pow10(places) == total - delta
  {
    var unit := Pow10(places);
    MulMono(unit, 1, delta0);
    TableIndex(places);
    FractionFits(frac, delta0, unit, u);
  }

  lemma {:induction false} TableIndex(places: nat)
    requires Pow10(places) < TWO64
    ensures places <= 19
  {
    Pow10At20();
    if places > 19 { Pow10Mono(20, places); }
  }

  lemma {:induction false} Pow10At20()
    ensures Pow10(20) > TWO64
  {
    Pow10At17();
    assert Pow10(20) == 1000 * Pow10(17);
  }

  lemma FractionStep(v: nat, one: nat, part2: nat, total: nat)
    requires one > 0 && total == v * one + part2 && part2 < one
    ensures 10 * total == (10 * v + 10 * part2 / one) * one + 10 * part2 % one
    ensures 10 * part2 == 10 * part2 / one * one + 10 * part2 % one
    ensures 0 <= 10 * part2 / one < 10 && 0 <= 10 * part2 % one < one
  {
    DivBelow(10 * part2, one, 10);
    var q := 10 * part2 / one;
    assert (10 * v + q) * one == 10 * (v * one) + q * one;
  }

  lemma FractionFits(frac: nat, delta0: nat, unit: nat, u: nat)
    requires frac <= delta0 < u < 1_0000_0000_0000_0000 * delta0 && unit > 0
    ensures frac * unit <= delta0 * unit < u * unit < 1_0000_0000_0000_0000 * (delta0 * unit)
    ensures (u - delta0) * unit == u * unit - delta0 * unit
  {
    MulMono(unit, frac, delta0);
    assert 1_0000_0000_0000_0000 * delta0 * unit == 1_0000_0000_0000_0000 * (delta0 * unit);
    MulMono(unit, delta0 + 1, u);
    MulMono(unit, u + 1, 1_0000_0000_0000_0000 * delta0);
  }

  /** `generate_digits`: at most 17 digits, no leading zero, and the number they denote lies between the
      scaled boundaries. The last digit is at least 1, except exactly where `EndsInZero` holds. */
  method GenerateDigits(w: u64, upper: u64, lower: u64, s: nat) returns (ds: seq<nat>, kappa: int)
    requires 32 <= s <= 60 && 0 < lower <= w <= upper < 1_0000_0000_0000_0000 * (upper - lower)
    ensures Generated(ds) && Inside(ds, kappa, Pow2(s), lower, upper) && -19 <= kappa < 10
    ensures Pow2(s) > 0 && (ds[|ds| - 1] == 0 <==> EndsInZero(w, upper, lower, Pow2(s)))
  {
    var frac: u64, delta: u64 := upper - w, upper - lower;
    var one := Pow2(s);
    PartsOf(upper, s);
    var stopped, ds1, k := IntegerDigits(upper, delta, frac, one, upper / one, upper % one);
    if stopped {
      return ds1, k;
    }
    ds, kappa := FractionDigits(ds1, upper, delta, frac, upper % one, s);
  }
}
