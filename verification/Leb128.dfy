/** Option type and little-endian base-128 integers (section 7.6 of DWARF Version 4),
    as written by `varuint32_to_bin` / `sleb64_to_bin` and read by their `from_bin`
    counterparts. */
module Leb128 {

  datatype Option<+T> = None | Some(value: T)

  type byte = x: int | 0 <= x < 256

  function Pow2(n: nat): (r: nat)
    ensures r >= 1
  {
    if n == 0 then 1 else 2 * Pow2(n - 1)
  }

  lemma {:induction false} Pow2Add(a: nat, b: nat)
    ensures Pow2(a + b) == Pow2(a) * Pow2(b)
  {
    if a != 0 { Pow2Add(a - 1, b); assert Pow2(a + b) == 2 * Pow2(a - 1 + b); }
  }

  /** 128^n */
  function Pow128(n: nat): (r: nat)
    ensures r >= 1
  {
    if n == 0 then 1 else 128 * Pow128(n - 1)
  }

  function EncodeUnsigned(v: nat): (s: seq<byte>)
    ensures |s| > 0
  {
    if v < 128 then [v] else [v % 128 + 128] + EncodeUnsigned(v / 128)
  }

  /** Reads at most `limit` bytes; a longer encoding is an error. */
  function DecodeUnsigned(s: seq<byte>, limit: nat): (r: Option<(nat, seq<byte>)>)
    ensures r.Some? ==> |r.value.1| < |s|
  {
    if limit == 0 || s == [] then None
    else if s[0] < 128 then Some((s[0] as nat, s[1..]))
    else match DecodeUnsigned(s[1..], limit - 1)
      case None => None
      case Some(p) => Some((s[0] - 128 + 128 * p.0, p.1))
  }

  lemma {:induction false} UnsignedRoundTrip(v: nat, t: seq<byte>, limit: nat)
    requires limit > 0 && v < Pow128(limit)
    ensures DecodeUnsigned(EncodeUnsigned(v) + t, limit) == Some((v, t))
  {
    var e := EncodeUnsigned(v);
    if v < 128 {
      assert (e + t)[1..] == t;
    } else {
      UnsignedRoundTrip(v / 128, t, limit - 1);
      assert (e + t)[1..] == EncodeUnsigned(v / 128) + t;
    }
  }

  function EncodeSigned(v: int): (s: seq<byte>)
    ensures |s| > 0
    decreases if v < 0 then -v else v
  {
    if -64 <= v < 64 then [v % 128] else [v % 128 + 128] + EncodeSigned(v / 128)
  }

  /** The last byte carries the sign in bit 6. */
  function DecodeSigned(s: seq<byte>, limit: nat): (r: Option<(int, seq<byte>)>)
    ensures r.Some? ==> |r.value.1| < |s|
  {
    if limit == 0 || s == [] then None
    else if s[0] < 128 then
      var b: int := s[0];
      Some((if b < 64 then b else b - 128, s[1..]))
    else match DecodeSigned(s[1..], limit - 1)
      case None => None
      case Some(p) => Some((s[0] - 128 + 128 * p.0, p.1))
  }

  lemma {:induction false} SignedRoundTrip(v: int, t: seq<byte>, limit: nat)
    requires limit > 0 && -64 * Pow128(limit - 1) <= v < 64 * Pow128(limit - 1)
    ensures DecodeSigned(EncodeSigned(v) + t, limit) == Some((v, t))
    decreases limit
  {
    var e := EncodeSigned(v);
    if -64 <= v < 64 {
      assert (e + t)[1..] == t;
    } else {
      var p := Pow128(limit - 2);
      assert Pow128(limit - 1) == 128 * p;
      assert -64 * p <= v / 128 < 64 * p;
      SignedRoundTrip(v / 128, t, limit - 1);
      assert (e + t)[1..] == EncodeSigned(v / 128) + t;
    }
  }

  /** `n` bytes, least significant first (`psio::to_bin` of a fixed-width integer). */
  function EncodeFixed(v: nat, n: nat): (s: seq<byte>)
    ensures |s| == n
  {
    if n == 0 then [] else [v % 256] + EncodeFixed(v / 256, n - 1)
  }

  function DecodeFixed(s: seq<byte>, n: nat): (v: nat)
    requires |s| >= n
  {
    if n == 0 then 0 else s[0] + 256 * DecodeFixed(s[1..], n - 1)
  }

  lemma {:induction false} FixedRoundTrip(v: nat, n: nat, t: seq<byte>)
    requires v < Pow2(8 * n)
    ensures DecodeFixed(EncodeFixed(v, n) + t, n) == v
  {
    if n != 0 {
      Pow2Add(8, 8 * (n - 1));
      assert Pow2(8) == 256;
      FixedRoundTrip(v / 256, n - 1, t);
      assert (EncodeFixed(v, n) + t)[1..] == EncodeFixed(v / 256, n - 1) + t;
    }
  }

  lemma {:induction false} DecodeFixedBound(s: seq<byte>, n: nat)
    requires |s| >= n
    ensures DecodeFixed(s, n) < Pow2(8 * n)
  {
    if n != 0 {
      Pow2Add(8, 8 * (n - 1));
      assert Pow2(8) == 256;
      DecodeFixedBound(s[1..], n - 1);
    }
  }

  lemma {:induction false} FixedEncodesBack(s: seq<byte>, n: nat)
    requires |s| == n
    ensures EncodeFixed(DecodeFixed(s, n), n) == s
  {
    if n != 0 {
      FixedEncodesBack(s[1..], n - 1);
      assert s == [s[0]] + s[1..];
    }
  }
}
