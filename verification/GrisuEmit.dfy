/** Text form of a decimal (`emit_digits`, `fpconv_dtoa`), its size, and what it denotes. */
module GrisuEmit {
  import opened Leb128
  import opened GrisuFp
  import opened GrisuDigits
  import opened GrisuTable
  import opened GrisuBounds
  import opened Grisu

  function DigitChar(d: nat): char
    requires d < 10
  {
    ('0' as int + d) as char
  }

  function Chars(ds: seq<nat>): (s: string)
    requires IsDigits(ds)
    ensures |s| == |ds|
  {
    seq(|ds|, i requires 0 <= i < |ds| => DigitChar(ds[i]))
  }

  function Zeros(n: nat): (ds: seq<nat>)
    ensures |ds| == n && IsDigits(ds)
  {
    seq(n, _ => 0)
  }

  function Abs(x: int): nat { if x < 0 then -x else x }

  /** The decimal exponent: up to three digits, without leading zeros. */
  function ExponentDigits(e: nat): seq<nat>
    requires e < 1000
  {
    var cent := if e > 99 then e / 100 else 0;
    var rest := e - cent * 100;
    (if cent != 0 then [cent] else []) +
    (if rest > 9 then [rest / 10] else if cent != 0 then [0] else []) + [rest % 10]
  }

  predicate Plain(n: nat, k: int, neg: bool) {
    k >= 0 && Abs(k + n - 1) < n + (if neg then 6 else 7)
  }

  predicate Fixed(n: nat, k: int) { k < 0 && (k > -7 || Abs(k + n - 1) < 4) }

  predicate Emittable(ds: seq<nat>, k: int) { Generated(ds) && -359 <= k <= 357 }

  function PlainText(ds: seq<nat>, k: nat): string
    requires IsDigits(ds)
  {
    Chars(ds) + Chars(Zeros(k))
  }

  /** A decimal below one, with `n` zeros after the point. */
  function BelowOneText(ds: seq<nat>, n: nat): string
    requires IsDigits(ds)
  {
    Chars(Zeros(1)) + "." + Chars(Zeros(n) + ds)
  }

  function SplitText(ds: seq<nat>, point: nat): string
    requires IsDigits(ds) && point <= |ds|
  {
    Chars(ds[..point]) + "." + Chars(ds[point..])
  }

  function FixedText(ds: seq<nat>, k: int): string
    requires IsDigits(ds) && k < 0
  {
    var point := |ds| + k;
    if point <= 0 then BelowOneText(ds, -point) else SplitText(ds, point)
  }

  function ScientificText(ds: seq<nat>, e: int): string
    requires IsDigits(ds) && ds != [] && Abs(e) < 1000
  {
    Chars(ds[..1]) + (if |ds| > 1 then "." + Chars(ds[1..]) else "") + "e" + [if e < 0 then '-' else '+'] +
    Chars(ExponentDigits(Abs(e)))
  }

  /** What is written for the digits `ds` at place `k`, after the sign. */
  function Text(ds: seq<nat>, k: int, neg: bool): string
    requires Emittable(ds, k)
  {
    if Plain(|ds|, k, neg) then PlainText(ds, k)
    else if Fixed(|ds|, k) then FixedText(ds, k)
    else ScientificText(ds, k + |ds| - 1)
  }

  /** With the sign, at most 24 characters. */
  lemma TextFits(ds: seq<nat>, k: int, neg: bool)
    requires Emittable(ds, k)
    ensures |Text(ds, k, neg)| + (if neg then 1 else 0) <= 24
  {}

  // ----- writing into the caller's buffer

  /** Copies digits after what is already written from `start`. */
  method Append(dest: array<char>, start: nat, pos: nat, ds: seq<nat>) returns (pos': nat)
    requires IsDigits(ds) && start <= pos && pos + |ds| <= dest.Length
    modifies dest
    ensures pos' == pos + |ds|
    ensures dest[..start] == old(dest[..start]) && dest[start..pos'] == old(dest[start..pos]) + Chars(ds)
  {
    ghost var before := dest[start..pos];
    for i := 0 to |ds|
      invariant dest[..start] == old(dest[..start]) && dest[start..pos + i] == before + Chars(ds)[..i]
    {
      dest[pos + i] := DigitChar(ds[i]);
      assert dest[start..pos + i + 1] == dest[start..pos + i] + [dest[pos + i]];
    }
    assert Chars(ds)[..|ds|] == Chars(ds);
    pos' := pos + |ds|;
  }

  lemma CharsAppend(a: seq<nat>, b: seq<nat>)
    requires IsDigits(a) && IsDigits(b)
    ensures Chars(a + b) == Chars(a) + Chars(b)
  {}

  method AppendChar(dest: array<char>, start: nat, pos: nat, c: char) returns (pos': nat)
    requires start <= pos < dest.Length
    modifies dest
    ensures pos' == pos + 1
    ensures dest[..start] == old(dest[..start]) && dest[start..pos'] == old(dest[start..pos]) + [c]
  {
    dest[pos] := c;
    assert dest[start..pos + 1] == dest[start..pos] + [c];
    pos' := pos + 1;
  }

  method EmitPlain(ds: seq<nat>, k: nat, dest: array<char>, start: nat) returns (pos: nat)
    requires IsDigits(ds) && start + |PlainText(ds, k)| <= dest.Length
    modifies dest
    ensures pos == start + |PlainText(ds, k)| && dest[..start] == old(dest[..start])
    ensures dest[start..pos] == PlainText(ds, k)
  {
    pos := Append(dest, start, start, ds);
    pos := Append(dest, start, pos, Zeros(k));
    assert dest[start..pos] == [] + Chars(ds) + Chars(Zeros(k));
  }

  method EmitBelowOne(ds: seq<nat>, n: nat, dest: array<char>, start: nat) returns (pos: nat)
    requires IsDigits(ds) && start + |BelowOneText(ds, n)| <= dest.Length
    modifies dest
    ensures pos == start + |BelowOneText(ds, n)| && dest[..start] == old(dest[..start])
    ensures dest[start..pos] == BelowOneText(ds, n)
  {
    pos := Append(dest, start, start, Zeros(1));
    pos := AppendChar(dest, start, pos, '.');
    ghost var head := Chars(Zeros(1)) + ".";
    assert dest[start..pos] == head;
    pos := Append(dest, start, pos, Zeros(n));
    pos := Append(dest, start, pos, ds);
    assert dest[start..pos] == head + Chars(Zeros(n)) + Chars(ds);
    CharsAppend(Zeros(n), ds);
    assert head + Chars(Zeros(n)) + Chars(ds) == head + (Chars(Zeros(n)) + Chars(ds));
  }

  method EmitSplit(ds: seq<nat>, point: nat, dest: array<char>, start: nat) returns (pos: nat)
    requires IsDigits(ds) && point <= |ds| && start + |SplitText(ds, point)| <= dest.Length
    modifies dest
    ensures pos == start + |SplitText(ds, point)| && dest[..start] == old(dest[..start])
    ensures dest[start..pos] == SplitText(ds, point)
  {
    pos := Append(dest, start, start, ds[..point]);
    assert dest[start..pos] == Chars(ds[..point]);
    pos := AppendChar(dest, start, pos, '.');
    pos := Append(dest, start, pos, ds[point..]);
  }

  method EmitFixed(ds: seq<nat>, k: int, dest: array<char>, start: nat) returns (pos: nat)
    requires IsDigits(ds) && k < 0 && start + |FixedText(ds, k)| <= dest.Length
    modifies dest
    ensures pos == start + |FixedText(ds, k)| && dest[..start] == old(dest[..start])
    ensures dest[start..pos] == FixedText(ds, k)
  {
    var point := |ds| + k;
    if point <= 0 {
      pos := EmitBelowOne(ds, -point, dest, start);
    } else {
      pos := EmitSplit(ds, point, dest, start);
    }
  }

  method EmitScientific(ds: seq<nat>, e: int, dest: array<char>, start: nat) returns (pos: nat)
    requires IsDigits(ds) && ds != [] && Abs(e) < 1000 && start + |ScientificText(ds, e)| <= dest.Length
    modifies dest
    ensures pos == start + |ScientificText(ds, e)| && dest[..start] == old(dest[..start])
    ensures dest[start..pos] == ScientificText(ds, e)
  {
    pos := Append(dest, start, start, ds[..1]);
    assert dest[start..pos] == Chars(ds[..1]) + "";
    if |ds| > 1 {
      pos := AppendChar(dest, start, pos, '.');
      pos := Append(dest, start, pos, ds[1..]);
      assert dest[start..pos] == Chars(ds[..1]) + ("." + Chars(ds[1..]));
    }
    ghost var head := dest[start..pos];
    pos := AppendChar(dest, start, pos, 'e');
    pos := AppendChar(dest, start, pos, if e < 0 then '-' else '+');
    pos := Append(dest, start, pos, ExponentDigits(Abs(e)));
    assert dest[start..pos] == head + "e" + [if e < 0 then '-' else '+'] + Chars(ExponentDigits(Abs(e)));
  }

  /** Writes the text from `start` on; the text fits, and nothing before it changes. */
  method EmitDigits(ds: seq<nat>, k: int, neg: bool, dest: array<char>, start: nat) returns (len: nat)
    requires Emittable(ds, k) && dest.Length == 24 && start == if neg then 1 else 0
    modifies dest
    ensures start + len <= 24 && dest[..start] == old(dest[..start])
    ensures dest[start..start + len] == Text(ds, k, neg)
  {
    TextFits(ds, k, neg);
    var pos;
    if Plain(|ds|, k, neg) {
      pos := EmitPlain(ds, k, dest, start);
    } else if Fixed(|ds|, k) {
      pos := EmitFixed(ds, k, dest, start);
    } else {
      pos := EmitScientific(ds, k + |ds| - 1, dest, start);
    }
    len := pos - start;
  }

  // ----- reading the text back

  predicate IsDigitChar(c: char) { '0' <= c <= '9' }

  function DigitOf(c: char): nat
    requires IsDigitChar(c)
  {
    c as int - '0' as int
  }

  /** The leading digits of a text, and the rest of it. */
  function TakeDigits(s: string): (r: (seq<nat>, string))
    ensures IsDigits(r.0)
  {
    if s == [] || !IsDigitChar(s[0]) then ([], s)
    else var (ds, t) := TakeDigits(s[1..]); ([DigitOf(s[0])] + ds, t)
  }

  datatype Reading = Reading(mantissa: nat, exponent: int)

  /** The decimal with the fraction digits `b`, and the exponent that the rest of the text states. */
  function ReadExponent(digits: seq<nat>, places: nat, t: string): Option<Reading> {
    if t == [] then Some(Reading(Value(digits), 0 - places))
    else if |t| > 1 && t[0] == 'e' && (t[1] == '+' || t[1] == '-') then
      var (e, rest) := TakeDigits(t[2..]);
      if rest != [] then None
      else Some(Reading(Value(digits), (if t[1] == '-' then 0 - Value(e) else Value(e)) - places))
    else None
  }

  /** digits [ '.' digits ] [ 'e' sign digits ] */
  function Read(s: string): Option<Reading> {
    var (a, t) := TakeDigits(s);
    if t != [] && t[0] == '.' then
      var (b, t') := TakeDigits(t[1..]);
      ReadExponent(a + b, |b|, t')
    else ReadExponent(a, 0, t)
  }

  lemma {:induction false} DigitCharRoundTrip(d: nat)
    requires d < 10
    ensures IsDigitChar(DigitChar(d)) && DigitOf(DigitChar(d)) == d
  {}

  lemma {:induction false} TakeChars(ds: seq<nat>, t: string)
    requires IsDigits(ds) && (t == [] || !IsDigitChar(t[0]))
    ensures TakeDigits(Chars(ds) + t) == (ds, t)
  {
    var s := Chars(ds) + t;
    if ds == [] {
      assert s == t;
    } else {
      TakeChars(ds[1..], t);
      DigitCharRoundTrip(ds[0]);
      assert s[0] == DigitChar(ds[0]) && s[1..] == Chars(ds[1..]) + t;
      assert ds == [ds[0]] + ds[1..];
    }
  }

  /** m * 10^x denotes d * 10^k. */
  predicate Denotes(r: Reading, d: nat, k: int) {
    r.exponent <= k && r.mantissa == d * Pow10(k - r.exponent)
  }

  lemma {:induction false} ValueAppend(a: seq<nat>, b: seq<nat>)
    ensures Value(a + b) == Value(a) * Pow10(|b|) + Value(b)
  {
    if b == [] {
      assert a + b == a;
    } else {
      var init, last := b[..|b| - 1], b[|b| - 1];
      ValueAppend(a, init);
      assert a + b == (a + init) + [last];
      ValueSnoc(a + init, last);
      PushPlace(Value(a), Pow10(|init|), Value(init), last);
    }
  }

  lemma PushPlace(v: nat, p: nat, w: nat, d: nat)
    ensures 10 * (v * p + w) + d == v * (10 * p) + (10 * w + d)
  {}

  lemma {:induction false} ValueZeros(n: nat)
    ensures Value(Zeros(n)) == 0
  {
    if n > 0 {
      ValueZeros(n - 1);
      assert Zeros(n)[..n - 1] == Zeros(n - 1);
    }
  }

  lemma {:induction false} ReadPlain(s: string, ds: seq<nat>, k: nat)
    requires IsDigits(ds) && s == PlainText(ds, k)
    ensures Read(s) == Some(Reading(Value(ds) * Pow10(k), 0))
  {
    CharsAppend(ds, Zeros(k));
    TakeChars(ds + Zeros(k), "");
    assert Chars(ds + Zeros(k)) + "" == s;
    ValueAppend(ds, Zeros(k));
    ValueZeros(k);
  }

  /** Digits, a point and more digits. */
  lemma {:induction false} ReadPoint(s: string, a: seq<nat>, b: seq<nat>)
    requires IsDigits(a) && IsDigits(b) && s == Chars(a) + "." + Chars(b)
    ensures Read(s) == Some(Reading(Value(a + b), -|b|))
  {
    var t := "." + Chars(b);
    assert s == Chars(a) + t;
    TakeChars(a, t);
    assert t[1..] == Chars(b) + "";
    TakeChars(b, "");
  }

  lemma {:induction false} LeadingZeros(n: nat, ds: seq<nat>)
    ensures Value(Zeros(n) + ds) == Value(ds)
  {
    ValueAppend(Zeros(n), ds);
    ValueZeros(n);
  }

  lemma {:induction false} ReadBelowOne(s: string, ds: seq<nat>, n: nat)
    requires IsDigits(ds) && s == BelowOneText(ds, n)
    ensures Read(s) == Some(Reading(Value(ds), 0 - n - |ds|))
  {
    ReadPoint(s, Zeros(1), Zeros(n) + ds);
    LeadingZeros(1, Zeros(n) + ds);
    LeadingZeros(n, ds);
  }

  lemma {:induction false} ReadSplit(s: string, ds: seq<nat>, point: nat)
    requires IsDigits(ds) && point <= |ds| && s == SplitText(ds, point)
    ensures Read(s) == Some(Reading(Value(ds), point - |ds|))
  {
    ReadPoint(s, ds[..point], ds[point..]);
    assert ds[..point] + ds[point..] == ds;
  }

  lemma {:induction false} ReadFixed(s: string, ds: seq<nat>, k: int)
    requires IsDigits(ds) && k < 0 && s == FixedText(ds, k)
    ensures Read(s) == Some(Reading(Value(ds), k))
  {
    var point := |ds| + k;
    if point <= 0 { ReadBelowOne(s, ds, 0 - point); } else { ReadSplit(s, ds, point); }
  }

  lemma ValueShort(a: nat, b: nat, c: nat)
    ensures Value([c]) == c && Value([b, c]) == 10 * b + c && Value([a, b, c]) == 100 * a + 10 * b + c
  {
    ValueSnoc([], c);
    ValueSnoc([b], c);
    ValueSnoc([], b);
    ValueSnoc([a, b], c);
    ValueSnoc([a], b);
    ValueSnoc([], a);
    assert [] + [c] == [c] && [b] + [c] == [b, c] && [] + [b] == [b];
    assert [a, b] + [c] == [a, b, c] && [a] + [b] == [a, b] && [] + [a] == [a];
  }

  lemma ExponentValue(e: nat)
    requires e < 1000
    ensures Value(ExponentDigits(e)) == e
  {
    var cent := if e > 99 then e / 100 else 0;
    var rest := e - cent * 100;
    ValueShort(cent, rest / 10, rest % 10);
    ValueShort(cent, 0, rest % 10);
    var ds := ExponentDigits(e);
    if cent != 0 {
      assert ds == if rest > 9 then [cent, rest / 10, rest % 10] else [cent, 0, rest % 10];
    } else {
      assert ds == if rest > 9 then [rest / 10, rest % 10] else [rest % 10];
    }
  }

  /** The exponent part of a text. */
  function ExponentText(e: int): (t: string)
    requires Abs(e) < 1000
    ensures |t| > 1 && t[0] == 'e'
  {
    "e" + [if e < 0 then '-' else '+'] + Chars(ExponentDigits(Abs(e)))
  }

  lemma {:induction false} ReadExponentText(digits: seq<nat>, places: nat, e: int)
    requires Abs(e) < 1000
    ensures ReadExponent(digits, places, ExponentText(e)) == Some(Reading(Value(digits), e - places))
  {
    var t := ExponentText(e);
    assert t[2..] == Chars(ExponentDigits(Abs(e))) + "";
    TakeChars(ExponentDigits(Abs(e)), "");
    ExponentValue(Abs(e));
  }

  lemma {:induction false} ReadWhole(s: string, ds: seq<nat>, e: int)
    requires IsDigits(ds) && Abs(e) < 1000 && s == Chars(ds) + ExponentText(e)
    ensures Read(s) == Some(Reading(Value(ds), e))
  {
    TakeChars(ds, ExponentText(e));
    ReadExponentText(ds, 0, e);
  }

  lemma {:induction false} ReadPointExponent(s: string, a: seq<nat>, b: seq<nat>, e: int)
    requires IsDigits(a) && IsDigits(b) && Abs(e) < 1000
    requires s == Chars(a) + ("." + Chars(b) + ExponentText(e))
    ensures Read(s) == Some(Reading(Value(a + b), e - |b|))
  {
    var t := "." + Chars(b) + ExponentText(e);
    TakeChars(a, t);
    assert t[1..] == Chars(b) + ExponentText(e);
    TakeChars(b, ExponentText(e));
    ReadExponentText(a + b, |b|, e);
  }

  lemma {:induction false} ScientificParts(ds: seq<nat>, e: int)
    requires IsDigits(ds) && ds != [] && Abs(e) < 1000
    ensures |ds| == 1 ==> ScientificText(ds, e) == Chars(ds) + ExponentText(e)
    ensures |ds| > 1 ==> ScientificText(ds, e) == Chars(ds[..1]) + ("." + Chars(ds[1..]) + ExponentText(e))
  {
    if |ds| == 1 { assert ds[..1] == ds; }
  }

  lemma {:induction false} ReadScientific(s: string, ds: seq<nat>, e: int)
    requires IsDigits(ds) && ds != [] && Abs(e) < 1000 && s == ScientificText(ds, e)
    ensures Read(s) == Some(Reading(Value(ds), e - (|ds| - 1)))
  {
    ScientificParts(ds, e);
    if |ds| == 1 {
      ReadWhole(s, ds, e);
    } else {
      ReadPointExponent(s, ds[..1], ds[1..], e);
      assert ds[..1] + ds[1..] == ds;
    }
  }

  /** The text denotes exactly the digits at their place. */
  lemma TextDenotes(ds: seq<nat>, k: int, neg: bool)
    requires Emittable(ds, k)
    ensures var r := Read(Text(ds, k, neg)); r.Some? && Denotes(r.value, Value(ds), k)
  {
    assert Pow10(0) == 1;
    var s := Text(ds, k, neg);
    if Plain(|ds|, k, neg) {
      ReadPlain(s, ds, k);
    } else if Fixed(|ds|, k) {
      ReadFixed(s, ds, k);
    } else {
      ReadScientific(s, ds, k + |ds| - 1);
    }
  }

  /** A different notation for the same decimal lies in the same interval. */
  lemma {:induction false} SameInterval(w: Fp, r: Reading, d: nat, k: int)
    requires Denotes(r, d, k) && 0 < w.frac
    ensures InInterval(w, r.mantissa, r.exponent) <==> InInterval(w, d, k)
  {
    SameOrder(r, d, k, 4 * w.frac + 2, w.exp - 2);
    SameOrder(r, d, k, LowerNumerator(w.frac), w.exp - 2);
  }

  lemma {:induction false} SameOrder(r: Reading, d: nat, k: int, m: nat, p: int)
    requires Denotes(r, d, k)
    ensures DecimalBelow(r.mantissa, r.exponent, m, p) <==> DecimalBelow(d, k, m, p)
    ensures DecimalAbove(r.mantissa, r.exponent, m, p) <==> DecimalAbove(d, k, m, p)
  {
    var x, t := r.exponent, k - r.exponent;
    Pow10Add(t, Up(x));
    Pow10Add(t + Up(x), Down(k));
    Pow10Add(Up(k), Down(x));
    assert t + Up(x) + Down(k) == Up(k) + Down(x);
    SameProduct(d, Pow10(t), Pow10(Up(x)), Pow10(Down(k)), Pow10(Up(k)), Pow10(Down(x)), Pow10(t + Up(x)));
    CrossTen(d * Pow10(t) * Pow10(Up(x)), d * Pow10(Up(k)), Pow10(Down(x)), Pow10(Down(k)),
             Pow2(Down(p)), m * Pow2(Up(p)));
  }

  /** n' b == n b' decides n' q < m b' and n q < m b alike. */
  lemma {:induction false} CrossTen(n': nat, n: nat, b': nat, b: nat, q: nat, m: nat)
    requires n' * b == n * b' && b > 0 && b' > 0
    ensures n' * q < m * b' <==> n * q < m * b
    ensures m * b' < n' * q <==> m * b < n * q
  {
    CrossScale(m, q, n, n', b, b');
  }

  // ----- the whole conversion

  predicate Negative(bits: u64) { bits >= TWO63 }

  /** Zero, infinity and not-a-number. */
  function Special(bits: u64): string
    requires !FiniteNonzero(bits)
  {
    if bits % TWO63 == 0 then "0" else if bits % HIDDEN != 0 then "nan" else "inf"
  }

  method FilterSpecial(bits: u64, dest: array<char>, start: nat) returns (len: nat)
    requires start + 3 <= dest.Length
    modifies dest
    ensures dest[..start] == old(dest[..start]) && start + len <= dest.Length
    ensures len == 0 <==> FiniteNonzero(bits)
    ensures !FiniteNonzero(bits) ==> dest[start..start + len] == Special(bits)
  {
    if bits % TWO63 == 0 {
      dest[start] := '0';
      len := 1;
    } else if bits / HIDDEN % 2048 != 2047 {
      len := 0;
    } else if bits % HIDDEN != 0 {
      dest[start], dest[start + 1], dest[start + 2] := 'n', 'a', 'n';
      len := 3;
    } else {
      dest[start], dest[start + 1], dest[start + 2] := 'i', 'n', 'f';
      len := 3;
    }
  }

  /** What a text must say of a finite double that is not zero: it reads as a decimal that no other
      double is nearest to. */
  ghost predicate Identifies(s: string, bits: u64) {
    Read(s).Some? && InInterval(BuildFp(bits), Read(s).value.mantissa, Read(s).value.exponent)
  }

  /** The text of a double: a sign exactly when the sign bit is set, then the special name or a
      decimal that identifies the double. It always fits the caller's 24 bytes. */
  method Dtoa(bits: u64, dest: array<char>, guess: nat) returns (len: nat)
    requires dest.Length == 24 && guess < NPOWERS
    modifies dest
    ensures 0 < len <= 24
    ensures var start := if Negative(bits) then 1 else 0;
            && start <= len && dest[..start] == (if Negative(bits) then "-" else "")
            && (FiniteNonzero(bits) ==> Identifies(dest[start..len], bits))
            && (!FiniteNonzero(bits) ==> dest[start..len] == Special(bits))
  {
    var start: nat := 0;
    if Negative(bits) {
      dest[0] := '-';
      start := 1;
    }
    assert dest[..start] == if Negative(bits) then "-" else "";
    var special := FilterSpecial(bits, dest, start);
    if special != 0 { return start + special; }
    var w := BuildFp(bits);
    BuildFpIsDouble(bits);
    var ds, k := Grisu2(w, guess);
    var written := EmitDigits(ds, k, Negative(bits), dest, start);
    TextIdentifies(bits, ds, k);
    len := start + written;
  }

  lemma TextIdentifies(bits: u64, ds: seq<nat>, k: int)
    requires FiniteNonzero(bits) && Emittable(ds, k) && InInterval(BuildFp(bits), Value(ds), k)
    ensures Identifies(Text(ds, k, Negative(bits)), bits)
    ensures |Text(ds, k, Negative(bits))| > 0
  {
    BuildFpIsDouble(bits);
    TextDenotes(ds, k, Negative(bits));
    SameInterval(BuildFp(bits), Read(Text(ds, k, Negative(bits))).value, Value(ds), k);
  }

  /** The conversion is injective on finite doubles up to the sign: one text identifies one double. */
  lemma IdentifiesOne(s: string, bits: u64, bits': u64)
    requires FiniteNonzero(bits) && FiniteNonzero(bits') && Identifies(s, bits) && Identifies(s, bits')
    ensures bits % TWO63 == bits' % TWO63
  {
    BuildFpIsDouble(bits);
    BuildFpIsDouble(bits');
    var r := Read(s).value;
    IntervalsDisjoint(BuildFp(bits), BuildFp(bits'), r.mantissa, r.exponent);
    BuildFpInjective(bits, bits');
  }

  lemma BuildFpInjective(bits: u64, bits': u64)
    requires FiniteNonzero(bits) && FiniteNonzero(bits') && BuildFp(bits) == BuildFp(bits')
    ensures bits % TWO63 == bits' % TWO63
  {
    assert bits % TWO63 == bits % HIDDEN + HIDDEN * (bits / HIDDEN % 2048);
    assert bits' % TWO63 == bits' % HIDDEN + HIDDEN * (bits' / HIDDEN % 2048);
  }
}
