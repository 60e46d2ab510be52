/** A time point in a fixed-size integer, as bytes and as text. */
module TimeCodec {
  import opened Leb128
  import opened TimePoint

  /** An integer type of up to 64 bits, and the decimals of its time points: seconds or microseconds. */
  datatype Format = Format(bits: nat, signed: bool, digits: nat)

  predicate Supported(f: Format) { 1 <= f.bits <= 64 && (f.digits == 0 || f.digits == 6) }

  function Size(f: Format): nat { (f.bits + 7) / 8 }

  predicate SignBit(f: Format, raw: nat)
    requires Supported(f)
  {
    f.signed && raw / Pow2(f.bits - 1) % 2 == 1
  }

  /** The integer behind the bytes: sign-extended from bit `bits - 1`, otherwise taken as it is. */
  function ValueOf(f: Format, raw: nat): Option<int>
    requires Supported(f)
  {
    if SignBit(f, raw) then Some(raw % Pow2(f.bits) - Pow2(f.bits))
    else if raw >= 0x8000_0000_0000_0000 then None
    else Some(raw)
  }

  /** Division that truncates, as in the source, and the correction for negative times. */
  function SplitTime(value: int, divisor: nat): (r: (int, nat))
    requires divisor > 0
    ensures r.0 * divisor + r.1 == value && r.1 < divisor
  {
    var sec := if value < 0 then -((-value) / divisor) else value / divisor;
    var subsec := value - sec * divisor;
    Truncated(if value < 0 then -value else value, divisor);
    if subsec < 0 then
      assert (sec - 1) * divisor == sec * divisor - divisor;
      (sec - 1, subsec + divisor)
    else (sec, subsec)
  }

  lemma Truncated(v: nat, d: nat)
    requires d > 0
    ensures 0 <= v - v / d * d < d && (-(v / d)) * d == -(v / d * d)
  {
    assert v == d * (v / d) + v % d;
  }

  /** `frac2json` */
  function ToText(f: Format, bytes: seq<byte>): Option<string>
    requires Supported(f) && |bytes| == Size(f)
  {
    var value := ValueOf(f, DecodeFixed(bytes, Size(f)));
    if value.None? then None
    else var (sec, subsec) := SplitTime(value.value, Ten(f.digits)); Some(TimePoint.Format(sec, subsec, f.digits))
  }

  /** `json2frac`: the range check keeps what a shift by `bits` leaves as all zeros or all ones. */
  function FromText(f: Format, s: string): (r: Option<seq<byte>>)
    requires Supported(f)
  {
    var p := Parse(s);
    if p.None? then None else Pack(f, Join(f, p.value.0, p.value.1))
  }

  function Join(f: Format, sec: int, nsec: nat): int
    requires Supported(f)
  {
    sec * Ten(f.digits) + nsec / Ten(9 - f.digits)
  }

  function Pack(f: Format, value: int): (r: Option<seq<byte>>)
    requires Supported(f)
  {
    if !f.signed && value < 0 then None
    else if f.bits < 64 && value / Pow2(f.bits) != 0 && value / Pow2(f.bits) != -1 then None
    else Some(EncodeFixed(value % 0x1_0000_0000_0000_0000, Size(f)))
  }

  /** The bits above the integer repeat its sign. */
  predicate Canonical(f: Format, raw: nat)
    requires Supported(f)
  {
    if SignBit(f, raw) then raw / Pow2(f.bits) == Pow2(8 * Size(f) - f.bits) - 1 else raw < Pow2(f.bits)
  }

  /** The loop that reads the bytes. */
  method ReadRaw(bytes: seq<byte>) returns (raw: nat)
    ensures raw == DecodeFixed(bytes, |bytes|)
  {
    raw := 0;
    for i := 0 to |bytes|
      invariant DecodeFixed(bytes, |bytes|) == raw + Pow2(8 * i) * DecodeFixed(bytes[i..], |bytes| - i)
    {
      assert bytes[i..][1..] == bytes[i + 1..];
      Pow2Add(8 * i, 8);
      assert Pow2(8) == 256;
      NextByte(Pow2(8 * i), bytes[i], DecodeFixed(bytes[i + 1..], |bytes| - i - 1));
      raw := raw + bytes[i] * Pow2(8 * i);
    }
  }

  lemma NextByte(p: nat, b: nat, rest: nat)
    ensures p * (b + 256 * rest) == b * p + (p * 256) * rest
  {}

  // ----- packing the value of some bytes

  lemma Sizes(f: Format)
    requires Supported(f)
    ensures f.bits <= 8 * Size(f) <= 64 && Pow2(8 * Size(f)) == Pow2(f.bits) * Pow2(8 * Size(f) - f.bits)
  {
    Pow2Add(f.bits, 8 * Size(f) - f.bits);
  }

  /** Encoding is by the low bytes only. */
  lemma {:induction false} EncodeLow(v: nat, k: nat, n: nat)
    ensures EncodeFixed(v + Pow2(8 * n) * k, n) == EncodeFixed(v, n)
  {
    if n != 0 {
      Pow2Add(8, 8 * (n - 1));
      assert Pow2(8) == 256;
      var p := Pow2(8 * (n - 1)) * k;
      assert Pow2(8 * n) * k == 256 * p;
      EncodeLow(v / 256, k, n - 1);
    }
  }

  lemma {:induction false} EncodeInjective(v: nat, w: nat, n: nat)
    requires v < Pow2(8 * n) && w < Pow2(8 * n)
    ensures EncodeFixed(v, n) == EncodeFixed(w, n) <==> v == w
  {
    FixedRoundTrip(v, n, []);
    FixedRoundTrip(w, n, []);
    assert EncodeFixed(v, n) + [] == EncodeFixed(v, n) && EncodeFixed(w, n) + [] == EncodeFixed(w, n);
  }

  lemma QuotientIs(v: int, p: nat, q: int, r: nat)
    requires v == p * q + r && r < p
    ensures v / p == q && v % p == r
  {
    var q', r' := v / p, v % p;
    assert v == p * q' + r';
    if q < q' { StepUp(p, q, q'); }
    if q' < q { StepUp(p, q', q); }
  }

  lemma StepUp(p: nat, q: int, q': int)
    requires q < q'
    ensures p * q + p <= p * q'
  {
    assert p * q' == p * q + p * (q' - q);
    AtLeast(p, q' - q);
  }

  lemma AtLeast(p: nat, k: nat)
    requires k >= 1
    ensures p * k >= p
  {}

  /** raw mod p - p, modulo m, where p q = n and n k = m. */
  lemma NegativeWord(raw: nat, p: nat, q: nat, n: nat, k: nat, m: nat) returns (w: nat)
    requires p > 0 && q > 0 && k > 0 && p * q == n && n * k == m
    ensures (raw % p - p) / p == -1 && (raw % p - p) % m == w + n * (k - 1) && w < n && (w == raw <==> raw / p == q - 1)
  {
    var r := raw % p;
    QuotientIs(r - p, p, -1, r);
    Distribute(p, q);
    Distribute(n, k);
    AtLeast(p, q);
    AtLeast(n, k);
    QuotientIs(r - p, m, -1, r - p + m);
    HighBits(raw, p, q);
    w := r + p * (q - 1);
  }

  lemma EncodesTo(bytes: seq<byte>, w: nat, k: nat)
    requires w < Pow2(8 * |bytes|)
    ensures EncodeFixed(w + Pow2(8 * |bytes|) * k, |bytes|) == bytes <==> w == DecodeFixed(bytes, |bytes|)
  {
    var n := |bytes|;
    EncodeLow(w, k, n);
    DecodeFixedBound(bytes, n);
    FixedEncodesBack(bytes, n);
    EncodeInjective(w, DecodeFixed(bytes, n), n);
  }

  /** A negative integer: packing fills the bits above it with ones. */
  lemma PackNegative(f: Format, bytes: seq<byte>, raw: nat, p: nat, q: nat)
    requires Supported(f) && f.signed && |bytes| == Size(f) && p == Pow2(f.bits) && q == Pow2(8 * Size(f) - f.bits)
    requires raw == DecodeFixed(bytes, Size(f))
    ensures Pack(f, raw % p - p) == Some(bytes) <==> raw / p == q - 1
  {
    var n, k := Size(f), Pow2(64 - 8 * Size(f));
    Sizes(f);
    PowersTo64(8 * n, 64 - 8 * n);
    var w := NegativeWord(raw, p, q, Pow2(8 * n), k, 0x1_0000_0000_0000_0000);
    EncodesTo(bytes, w, k - 1);
  }

  lemma PowersTo64(a: nat, b: nat)
    requires a + b == 64
    ensures Pow2(a) * Pow2(b) == 0x1_0000_0000_0000_0000 && Pow2(a) <= 0x1_0000_0000_0000_0000
  {
    Pow2Add(a, b);
    Pow64(a + b);
    AtLeast(Pow2(a), Pow2(b));
  }

  lemma Distribute(a: nat, b: nat)
    ensures a * (b - 1) == a * b - a
  {}

  lemma Pow64(n: nat)
    requires n == 64
    ensures Pow2(n) == 0x1_0000_0000_0000_0000
  {
    assert Pow2(n / 8) == 256;
    SquarePow(n / 8, 256);
    SquarePow(n / 4, 65536);
    SquarePow(n / 2, 0x1_0000_0000);
  }

  lemma SquarePow(a: nat, x: nat)
    requires Pow2(a) == x
    ensures Pow2(2 * a) == x * x
  {
    Pow2Add(a, a);
  }

  lemma HighBits(raw: nat, p: nat, q: nat)
    requires p > 0 && q > 0
    ensures raw % p + p * (q - 1) == raw <==> raw / p == q - 1
  {
    if raw % p + p * (q - 1) == raw { QuotientIs(raw, p, q - 1, raw % p); }
  }

  /** Any other integer: packing succeeds only if it fits, and then gives the bytes back. */
  lemma PackPositive(f: Format, bytes: seq<byte>, raw: nat, p: nat)
    requires Supported(f) && |bytes| == Size(f) && p == Pow2(f.bits)
    requires raw == DecodeFixed(bytes, Size(f)) && raw < 0x8000_0000_0000_0000
    ensures Pack(f, raw) == Some(bytes) <==> raw < p
  {
    FixedEncodesBack(bytes, Size(f));
    assert raw % 0x1_0000_0000_0000_0000 == raw;
    if f.bits == 64 {
      Pow64(f.bits);
    } else if raw < p {
      QuotientIs(raw, p, 0, raw);
    } else {
      QuotientAtLeastOne(raw, p);
    }
  }

  lemma QuotientAtLeastOne(raw: nat, p: nat)
    requires 0 < p <= raw
    ensures raw / p >= 1
  {
    assert raw == p * (raw / p) + raw % p;
  }

  /** Packing the value behind some bytes restores them exactly when they are canonical. */
  lemma PackExactly(f: Format, bytes: seq<byte>)
    requires Supported(f) && |bytes| == Size(f) && ValueOf(f, DecodeFixed(bytes, Size(f))).Some?
    ensures var raw := DecodeFixed(bytes, Size(f)); Pack(f, ValueOf(f, raw).value) == Some(bytes) <==> Canonical(f, raw)
  {
    var raw := DecodeFixed(bytes, Size(f));
    if SignBit(f, raw) {
      PackNegative(f, bytes, raw, Pow2(f.bits), Pow2(8 * Size(f) - f.bits));
    } else {
      PackPositive(f, bytes, raw, Pow2(f.bits));
    }
  }

  lemma PackParsed(f: Format, s: string, value: int, sec: int, subsec: nat)
    requires Supported(f) && value == sec * Ten(f.digits) + subsec
             && Parse(s) == Some((sec, subsec * Ten(9 - f.digits)))
    ensures FromText(f, s) == Pack(f, value)
  {
    JoinSplit(f, sec, subsec);
  }

  lemma JoinSplit(f: Format, sec: int, subsec: nat)
    requires Supported(f)
    ensures Join(f, sec, subsec * Ten(9 - f.digits)) == sec * Ten(f.digits) + subsec
  {
    Scaled(subsec, Ten(9 - f.digits));
  }

  /** For every integer type of at most 64 bits, signed or not, and every time in years 0000 to 9999:
      converting to text and back restores the bytes exactly when they are canonical. */
  lemma BytesRoundTrip(f: Format, bytes: seq<byte>, s: string)
    requires Supported(f) && |bytes| == Size(f) && ToText(f, bytes) == Some(s)
    requires 0 <= YearOfTime(SplitTime(ValueOf(f, DecodeFixed(bytes, Size(f))).value, Ten(f.digits)).0) <= 9999
    ensures FromText(f, s) == Some(bytes) <==> Canonical(f, DecodeFixed(bytes, Size(f)))
  {
    var value := ValueOf(f, DecodeFixed(bytes, Size(f))).value;
    var (sec, subsec) := SplitTime(value, Ten(f.digits));
    TextRoundTrip(s, sec, subsec, f.digits);
    PackParsed(f, s, value, sec, subsec);
    PackExactly(f, bytes);
  }

  lemma Scaled(n: nat, k: nat)
    requires k > 0
    ensures n * k / k == n
  {
    QuotientIs(n * k, k, n, 0);
  }
}
