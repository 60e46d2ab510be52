/** Byte counts per region: sums over chunks of memory, and how they change. */
module RegionChunks {
  /** A piece of memory. The tag tells outstanding deallocations apart. */
  datatype Chunk = Chunk(off: nat, size: nat, tag: nat)

  function Region(off: nat, r: nat): nat
    requires r > 0
  {
    off / r
  }

  function Weight(c: Chunk, r: nat, i: nat): nat
    requires r > 0
  {
    if Region(c.off, r) == i then c.size else 0
  }

  /** The bytes of the chunks that begin in region `i`, for regions of `r` bytes. */
  function Bytes(cs: seq<Chunk>, r: nat, i: nat): nat
    requires r > 0
  {
    if cs == [] then 0 else Bytes(cs[..|cs| - 1], r, i) + Weight(cs[|cs| - 1], r, i)
  }

  /** The bytes of the chunks that begin in [lo, hi). */
  function RangeBytes(cs: seq<Chunk>, lo: nat, hi: nat): nat {
    if cs == [] then 0
    else RangeBytes(cs[..|cs| - 1], lo, hi) + (if lo <= cs[|cs| - 1].off < hi then cs[|cs| - 1].size else 0)
  }

  function Without<T>(s: seq<T>, k: nat): seq<T>
    requires k < |s|
  {
    s[..k] + s[k + 1..]
  }

  lemma BytesSnoc(cs: seq<Chunk>, c: Chunk, r: nat, i: nat)
    requires r > 0
    ensures Bytes(cs + [c], r, i) == Bytes(cs, r, i) + Weight(c, r, i)
  {
    assert (cs + [c])[..|cs|] == cs;
  }

  lemma {:induction false} BytesUpdate(cs: seq<Chunk>, k: nat, c: Chunk, r: nat, i: nat)
    requires r > 0 && k < |cs|
    ensures Bytes(cs[k := c], r, i) + Weight(cs[k], r, i) == Bytes(cs, r, i) + Weight(c, r, i)
    decreases |cs|
  {
    var n := |cs| - 1;
    if k < n {
      assert cs[k := c][..n] == cs[..n][k := c];
      BytesUpdate(cs[..n], k, c, r, i);
    } else {
      assert cs[k := c][..n] == cs[..n];
    }
  }

  lemma {:induction false} BytesWithout(cs: seq<Chunk>, k: nat, r: nat, i: nat)
    requires r > 0 && k < |cs|
    ensures Bytes(Without(cs, k), r, i) + Weight(cs[k], r, i) == Bytes(cs, r, i)
    decreases |cs|
  {
    var n := |cs| - 1;
    if k < n {
      assert Without(cs, k)[..n - 1] == Without(cs[..n], k);
      BytesWithout(cs[..n], k, r, i);
    } else {
      assert Without(cs, k) == cs[..n];
    }
  }

  lemma {:induction false} BytesNone(cs: seq<Chunk>, r: nat, i: nat)
    requires r > 0 && forall k :: 0 <= k < |cs| ==> Region(cs[k].off, r) != i
    ensures Bytes(cs, r, i) == 0
  {
    if cs != [] { BytesNone(cs[..|cs| - 1], r, i); }
  }

  lemma {:induction false} BytesMember(cs: seq<Chunk>, k: nat, r: nat, i: nat)
    requires r > 0 && k < |cs|
    ensures Weight(cs[k], r, i) <= Bytes(cs, r, i)
    decreases |cs|
  {
    if k < |cs| - 1 { BytesMember(cs[..|cs| - 1], k, r, i); }
  }

  lemma {:induction false} RangeSnoc(cs: seq<Chunk>, c: Chunk, lo: nat, hi: nat)
    ensures RangeBytes(cs + [c], lo, hi) == RangeBytes(cs, lo, hi) + (if lo <= c.off < hi then c.size else 0)
  {
    assert (cs + [c])[..|cs|] == cs;
  }

  lemma {:induction false} RangeUpdate(cs: seq<Chunk>, k: nat, c: Chunk, lo: nat, hi: nat)
    requires k < |cs|
    ensures RangeBytes(cs[k := c], lo, hi) + (if lo <= cs[k].off < hi then cs[k].size else 0) ==
            RangeBytes(cs, lo, hi) + (if lo <= c.off < hi then c.size else 0)
    decreases |cs|
  {
    var n := |cs| - 1;
    if k < n {
      assert cs[k := c][..n] == cs[..n][k := c];
      RangeUpdate(cs[..n], k, c, lo, hi);
    } else {
      assert cs[k := c][..n] == cs[..n];
    }
  }

  lemma {:induction false} RangeWithout(cs: seq<Chunk>, k: nat, lo: nat, hi: nat)
    requires k < |cs|
    ensures RangeBytes(Without(cs, k), lo, hi) <= RangeBytes(cs, lo, hi)
    decreases |cs|
  {
    var n := |cs| - 1;
    if k < n {
      assert Without(cs, k)[..n - 1] == Without(cs[..n], k);
      RangeWithout(cs[..n], k, lo, hi);
    } else {
      assert Without(cs, k) == cs[..n];
    }
  }

  lemma {:induction false} RangeMember(cs: seq<Chunk>, k: nat, lo: nat, hi: nat)
    requires k < |cs| && lo <= cs[k].off < hi
    ensures cs[k].size <= RangeBytes(cs, lo, hi)
    decreases |cs|
  {
    if k < |cs| - 1 { RangeMember(cs[..|cs| - 1], k, lo, hi); }
  }

  // ----- region arithmetic

  /** A position belongs to the region whose bounds hold it. */
  lemma RegionIs(off: nat, r: nat, i: nat)
    requires r > 0 && i * r <= off < i * r + r
    ensures Region(off, r) == i
  {
    var q, m := off / r, off % r;
    assert off == r * q + m;
    if q < i { Gap(r, q, i); }
    if i < q { Gap(r, i, q); }
  }

  lemma Spread(r: nat, a: nat, k: nat)
    ensures r * (a + 1 + k) == r * a + r + r * k && r * k >= 0
  {}

  lemma Gap(r: nat, a: nat, b: nat)
    requires a < b
    ensures r * a + r <= r * b && a * r + r <= b * r
  {
    var k: nat := b - a - 1;
    Spread(r, a, k);
    assert a + 1 + k == b;
  }

  lemma RegionBounds(off: nat, r: nat)
    requires r > 0
    ensures Region(off, r) * r <= off < Region(off, r) * r + r
  {
    assert off == r * (off / r) + off % r;
  }

  /** Doubling the size of regions joins neighbours. */
  lemma RegionDouble(off: nat, r: nat)
    requires r > 0
    ensures Region(off, 2 * r) == Region(off, r) / 2
  {
    RegionBounds(off, r);
    var i := Region(off, r);
    var j := i / 2;
    assert i == 2 * j || i == 2 * j + 1;
    assert j * (2 * r) == 2 * j * r;
    if i == 2 * j + 1 { assert i * r == 2 * j * r + r; }
    RegionIs(off, 2 * r, j);
  }

  lemma {:induction false} BytesDouble(cs: seq<Chunk>, r: nat, j: nat)
    requires r > 0
    ensures Bytes(cs, 2 * r, j) == Bytes(cs, r, 2 * j) + Bytes(cs, r, 2 * j + 1)
  {
    if cs != [] {
      BytesDouble(cs[..|cs| - 1], r, j);
      RegionDouble(cs[|cs| - 1].off, r);
    }
  }

  /** A whole region as a range. */
  lemma {:induction false} RangeOfRegion(cs: seq<Chunk>, r: nat, i: nat)
    requires r > 0
    ensures RangeBytes(cs, i * r, i * r + r) == Bytes(cs, r, i)
  {
    if cs != [] {
      var c := cs[|cs| - 1];
      RangeOfRegion(cs[..|cs| - 1], r, i);
      RegionBounds(c.off, r);
      if i * r <= c.off < i * r + r { RegionIs(c.off, r, i); }
    }
  }
}
