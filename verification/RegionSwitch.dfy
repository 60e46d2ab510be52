/** Switching to another region: the current one is closed, a free one is reused, the file is extended, or
    the size of all regions is doubled. Small regions are then queued for evacuation. */
module RegionSwitch {
  import opened RegionChunks
  import opened RegionState

  // ----- closing the current region

  /** The rest of the region is given back, and the region no longer counts as being written. */
  function Close(s: State): State
    requires s.cur < |s.used|
  {
    var c := s.used[s.cur];
    var rest := Sub(s.cur * s.size + s.size, s.pos);
    Store(s.(open := false), s.cur, Counter(Sub(c.bytes, rest), Sub(c.writes, 1), c.clears))
  }

  lemma CloseFits(s: State)
    requires Shape(s) && Counted(s) && Bounded(s) && s.open
    ensures var c := s.used[s.cur]; s.cur * s.size + s.size - s.pos <= c.bytes && 1 <= c.writes
  {
    assert BoundedAt(s, s.cur);
  }

  lemma CloseBounded(s: State)
    requires Shape(s) && Counted(s) && Bounded(s) && s.open
    ensures Bounded(Close(s)) && Counted(Close(s))
  {
    CloseFits(s);
    var s' := Close(s);
    forall i | 0 <= i < |s'.used| ensures BoundedAt(s', i) { assert BoundedAt(s, i); }
  }

  lemma CloseItems(s: State)
    requires Shape(s) && ItemsOk(s) && s.open
    ensures Shape(Close(s)) && ItemsOk(Close(s))
  {
    forall k | 0 <= k < |s.items| ensures ItemOk(Close(s), s.items[k]) { assert ItemOk(s, s.items[k]); }
  }

  lemma CloseAvailable(s: State)
    requires Shape(s) && Available(s) && s.open && !Empty(s.used[s.cur])
    ensures Available(Close(s))
  {
    SameAvailable(s, s.(open := false));
    StoreAvailable(s.(open := false), s.cur, Close(s).used[s.cur]);
  }

  lemma CloseInv(s: State)
    requires Inv(s) && s.open
    ensures Inv(Close(s)) && !Close(s).open
  {
    CloseFits(s);
    CloseItems(s);
    CloseBounded(s);
    CloseAvailable(s);
  }

  // ----- a free region becomes the current one

  function Reuse(s: State, r: nat): State
    requires r < |s.used|
  {
    s.(used := s.used[r := Counter(s.size, 1, 0)], cur := r, pos := r * s.size, open := true, free := s.free - {r})
  }

  /** The region that is reused holds no live object, and no deallocation in it is outstanding. */
  lemma ReuseIsSafe(s: State, r: nat)
    requires Inv(s) && r in s.free
    ensures r < |s.used| && Bytes(s.live, s.size, r) == 0 && Bytes(s.dead, s.size, r) == 0
    ensures forall k :: 0 <= k < |s.live| ==> Region(s.live[k].off, s.size) != r
    ensures forall k :: 0 <= k < |s.dead| ==> Region(s.dead[k].off, s.size) != r
    ensures forall k :: 0 <= k < |s.items| ==>
            Region(s.items[k].src, s.size) != r && Region(s.items[k].dest, s.size) != r
  {
    assert EmptyRegion(s, r) && BoundedAt(s, r);
    forall k | 0 <= k < |s.live| ensures Region(s.live[k].off, s.size) != r { BytesMember(s.live, k, s.size, r); }
    BytesNone(s.dead, s.size, r);
    forall k | 0 <= k < |s.items| ensures Region(s.items[k].src, s.size) != r && Region(s.items[k].dest, s.size) != r {
      SourceNotEmpty(s, k);
      TargetNotEmpty(s, k);
    }
  }

  /** A region in which nothing begins has only its unallocated bytes to account for. */
  lemma FreshLoad(s: State, r: nat)
    requires s.size > 0
    requires forall k :: 0 <= k < |s.live| ==> Region(s.live[k].off, s.size) != r
    requires forall k :: 0 <= k < |s.dead| ==> Region(s.dead[k].off, s.size) != r
    requires forall k :: 0 <= k < |s.items| ==>
             Region(s.items[k].src, s.size) != r && Region(s.items[k].dest, s.size) != r
    ensures Load(s, r) == Rest(s, r) && Bytes(Targets(s.items), s.size, r) == 0
            && Bytes(Sources(s.items), s.size, r) == 0
  {
    BytesNone(s.live, s.size, r);
    BytesNone(s.dead, s.size, r);
    BytesNone(Reserved(s.items), s.size, r);
    BytesNone(Copied(s.items), s.size, r);
    BytesNone(Targets(s.items), s.size, r);
    BytesNone(Sources(s.items), s.size, r);
  }

  lemma ReuseBounded(s: State, r: nat)
    requires Inv(s) && !s.open && r in s.free
    ensures r < |s.used| && Bounded(Reuse(s, r)) && Counted(Reuse(s, r))
  {
    ReuseIsSafe(s, r);
    var s' := Reuse(s, r);
    FreshLoad(s', r);
    forall i | 0 <= i < |s'.used| ensures BoundedAt(s', i) { if i != r { assert BoundedAt(s, i); } }
  }

  lemma ReuseAvailable(s: State, r: nat)
    requires Available(s) && r in s.free && r < |s.used| && s.size > 0
    ensures Available(Reuse(s, r))
  {
    var s' := Reuse(s, r);
    assert !Promised(s, r);
    assert forall j: nat :: EmptyRegion(s', j) <==> EmptyRegion(s, j) && j != r;
    assert forall j: nat :: Promised(s', j) <==> Promised(s, j);
  }

  lemma ReuseInv(s: State, r: nat)
    requires Inv(s) && !s.open && r in s.free
    ensures r < |s.used| && Inv(Reuse(s, r))
  {
    ReuseIsSafe(s, r);
    ReuseBounded(s, r);
    ReuseAvailable(s, r);
    var s' := Reuse(s, r);
    forall k | 0 <= k < |s.items| ensures ItemOk(s', s.items[k]) { assert ItemOk(s, s.items[k]); }
  }

  // ----- the file is extended by a region

  function Extend(s: State): State {
    var n := |s.used|;
    s.(used := s.used + [Counter(s.size, 1, 0)], cur := n, pos := n * s.size, open := true)
  }

  lemma ExtendInv(s: State)
    requires Inv(s) && !s.open && |s.used| < MAX_REGIONS
    ensures Inv(Extend(s))
  {
    var n, s' := |s.used|, Extend(s);
    forall k | 0 <= k < |s.items| ensures ItemOk(s', s.items[k]) { assert ItemOk(s, s.items[k]); }
    ExtendBounded(s);
    ExtendAvailable(s);
  }

  lemma ExtendBounded(s: State)
    requires Shape(s) && ItemsOk(s) && Counted(s) && Bounded(s) && !s.open
    ensures Bounded(Extend(s)) && Counted(Extend(s))
  {
    var n, s' := |s.used|, Extend(s);
    forall k | 0 <= k < |s.items| ensures Region(s.items[k].src, s.size) != n && Region(s.items[k].dest, s.size) != n {
      assert ItemOk(s, s.items[k]);
    }
    FreshLoad(s', n);
    forall i | 0 <= i < |s'.used| ensures BoundedAt(s', i) { if i != n { assert BoundedAt(s, i); } }
  }

  lemma ExtendAvailable(s: State)
    requires Available(s) && s.size > 0
    ensures Available(Extend(s))
  {
    var s' := Extend(s);
    assert forall j: nat :: EmptyRegion(s', j) <==> EmptyRegion(s, j);
    assert forall j: nat :: Promised(s', j) <==> Promised(s, j);
  }

  // ----- a small region is queued for evacuation

  /** A range can be reserved for the region. */
  predicate Reservable(s: State, r: nat) {
    && s.open && r < |s.used| && s.used[r].bytes > 0 && s.used[r].writes == 0 && s.used[r].clears == 0
    && s.pos + s.used[r].bytes <= s.cur * s.size + s.size
  }

  predicate CanQueue(s: State, r: nat) { Reservable(s, r) && |s.items| < MAX_QUEUE }

  function Queue(s: State, r: nat): State
    requires r < |s.used| && s.cur < |s.used|
  {
    var n := s.used[r].bytes;
    var used := s.used[r := s.used[r].(clears := s.used[r].clears + 1)];
    s.(items := s.items + [Item(r * s.size, s.size, s.pos, s.pos, s.pos + n)], pos := s.pos + n,
       used := used[s.cur := used[s.cur].(writes := used[s.cur].writes + 1)])
  }

  lemma SnocBytes(items: seq<Item>, t: Item, r: nat, i: nat, from: nat, to: nat)
    requires r > 0 && from == Region(t.src, r) && to == Region(t.dest, r)
    ensures Bytes(Reserved(items + [t]), r, i) == Bytes(Reserved(items), r, i) + If(to == i, Sub(t.end, t.cursor))
    ensures Bytes(Copied(items + [t]), r, i) == Bytes(Copied(items), r, i) + If(from == i, Sub(t.cursor, t.dest))
    ensures Bytes(Targets(items + [t]), r, i) == Bytes(Targets(items), r, i) + If(to == i, 1)
    ensures Bytes(Sources(items + [t]), r, i) == Bytes(Sources(items), r, i) + If(from == i, 1)
  {
    assert Reserved(items + [t]) == Reserved(items) + [Chunk(t.dest, Sub(t.end, t.cursor), 0)];
    assert Copied(items + [t]) == Copied(items) + [Chunk(t.src, Sub(t.cursor, t.dest), 0)];
    assert Targets(items + [t]) == Targets(items) + [Chunk(t.dest, 1, 0)];
    assert Sources(items + [t]) == Sources(items) + [Chunk(t.src, 1, 0)];
    BytesSnoc(Reserved(items), Chunk(t.dest, Sub(t.end, t.cursor), 0), r, i);
    BytesSnoc(Copied(items), Chunk(t.src, Sub(t.cursor, t.dest), 0), r, i);
    BytesSnoc(Targets(items), Chunk(t.dest, 1, 0), r, i);
    BytesSnoc(Sources(items), Chunk(t.src, 1, 0), r, i);
  }

  /** Where the new item reads and writes. */
  lemma QueueRegions(s: State, r: nat)
    requires Shape(s) && Counted(s) && CanQueue(s, r)
    ensures r != s.cur && Region(r * s.size, s.size) == r && InOneRegion(r * s.size, r * s.size + s.size, s.size)
    ensures Region(s.pos, s.size) == s.cur && InOneRegion(s.pos, s.pos + s.used[r].bytes, s.size)
  {
    RegionIs(r * s.size, s.size, r);
    RegionIs(r * s.size + s.size - 1, s.size, r);
    RegionIs(s.pos, s.size, s.cur);
    RegionIs(s.pos + s.used[r].bytes - 1, s.size, s.cur);
  }

  lemma QueueCounted(s: State, r: nat)
    requires Shape(s) && Counted(s) && CanQueue(s, r)
    ensures Counted(Queue(s, r))
  {
    QueueRegions(s, r);
    var s', t := Queue(s, r), Item(r * s.size, s.size, s.pos, s.pos, s.pos + s.used[r].bytes);
    forall i | 0 <= i < |s'.used|
      ensures s'.used[i].writes == Bytes(Targets(s'.items), s'.size, i) + (if s'.open && i == s'.cur then 1 else 0)
      ensures s'.used[i].clears >= Bytes(Sources(s'.items), s'.size, i)
    {
      SnocBytes(s.items, t, s.size, i, r, s.cur);
    }
  }

  /** What is reserved comes out of the unallocated rest of the current region. */
  lemma QueueLoad(s: State, r: nat, i: nat)
    requires s.size > 0 && CanQueue(s, r) && Region(r * s.size, s.size) == r && Region(s.pos, s.size) == s.cur
             && s.cur < |s.used|
    ensures Load(Queue(s, r), i) == Load(s, i)
  {
    SnocBytes(s.items, Item(r * s.size, s.size, s.pos, s.pos, s.pos + s.used[r].bytes), s.size, i, r, s.cur);
  }

  lemma QueueBounded(s: State, r: nat)
    requires Shape(s) && Counted(s) && Bounded(s) && CanQueue(s, r)
    ensures Bounded(Queue(s, r))
  {
    QueueRegions(s, r);
    var s' := Queue(s, r);
    forall i | 0 <= i < |s'.used| ensures BoundedAt(s', i) {
      assert BoundedAt(s, i);
      QueueLoad(s, r, i);
    }
  }

  /** The new source holds no more than is reserved for it. */
  lemma QueueNewItem(s: State, r: nat)
    requires Shape(s) && Counted(s) && Bounded(s) && CanQueue(s, r)
    ensures ItemOk(Queue(s, r), Item(r * s.size, s.size, s.pos, s.pos, s.pos + s.used[r].bytes))
  {
    QueueRegions(s, r);
    assert BoundedAt(s, r);
    RangeOfRegion(s.live, s.size, r);
  }

  /** Ranges in different regions are apart. */
  lemma RegionsApart(lo: nat, hi: nat, lo': nat, hi': nat, r: nat)
    requires r > 0 && InOneRegion(lo, hi, r) && InOneRegion(lo', hi', r) && Region(lo, r) != Region(lo', r)
    ensures Apart(lo, hi, lo', hi')
  {
    if lo <= lo' < hi { Within(lo', lo, hi, r); }
    if lo' <= lo < hi' { Within(lo, lo', hi', r); }
  }

  lemma QueueItems(s: State, r: nat)
    requires Shape(s) && ItemsOk(s) && Counted(s) && Bounded(s) && CanQueue(s, r)
    ensures ItemsOk(Queue(s, r))
  {
    var s', t, n := Queue(s, r), Item(r * s.size, s.size, s.pos, s.pos, s.pos + s.used[r].bytes), |s.items|;
    forall k | 0 <= k <= n ensures ItemOk(s', s'.items[k]) {
      if k < n { assert ItemOk(s, s.items[k]); } else { QueueNewItem(s, r); }
    }
    forall k, l | 0 <= k < l <= n ensures SourcesApart(s'.items[k], s'.items[l]) {
      if l < n { assert SourcesApart(s.items[k], s.items[l]); } else { QueueApart(s, r, k); }
    }
    forall k, l | 0 <= k <= n && 0 <= l <= n ensures SourceTargetApart(s'.items[k], s'.items[l]) {
      if k < n && l < n { assert SourceTargetApart(s.items[k], s.items[l]); }
      else if k < n { QueueApart(s, r, k); }
      else if l < n { QueueApart(s, r, l); }
      else { QueueRegions(s, r); RegionsApart(t.src, t.src + t.len, t.dest, t.end, s.size); }
    }
  }

  lemma QueueApart(s: State, r: nat, k: nat)
    requires Shape(s) && ItemsOk(s) && Counted(s) && CanQueue(s, r) && k < |s.items|
    ensures var t := Item(r * s.size, s.size, s.pos, s.pos, s.pos + s.used[r].bytes);
            SourcesApart(s.items[k], t) && SourceTargetApart(s.items[k], t) && SourceTargetApart(t, s.items[k])
  {
    QueueRegions(s, r);
    var u, t := s.items[k], Item(r * s.size, s.size, s.pos, s.pos, s.pos + s.used[r].bytes);
    assert ItemOk(s, u);
    SourceNotEmpty(s, k);
    TargetNotEmpty(s, k);
    RegionsApart(u.src, u.src + u.len, t.src, t.src + t.len, s.size);
    RegionsApart(u.src, u.src + u.len, t.dest, t.end, s.size);
    RegionsApart(t.src, t.src + t.len, u.dest, u.end, s.size);
  }

  lemma QueueInv(s: State, r: nat)
    requires Inv(s) && CanQueue(s, r)
    ensures Inv(Queue(s, r))
  {
    QueueItems(s, r);
    QueueCounted(s, r);
    QueueBounded(s, r);
    QueueAvailable(s, r);
  }

  lemma QueueAvailable(s: State, r: nat)
    requires Shape(s) && Counted(s) && Available(s) && CanQueue(s, r)
    ensures Available(Queue(s, r))
  {
    var s' := Queue(s, r);
    assert forall j: nat :: EmptyRegion(s', j) <==> EmptyRegion(s, j);
    assert forall j: nat :: Promised(s', j) <==> Promised(s, j);
  }

  // ----- doubling the size of all regions

  function Join(a: Counter, b: Counter): Counter {
    Counter(a.bytes + b.bytes, a.writes + b.writes, a.clears + b.clears)
  }

  function Joined(used: seq<Counter>): (r: seq<Counter>)
    ensures |r| == |used| / 2
  {
    seq(|used| / 2, i requires 0 <= i < |used| / 2 => Join(used[2 * i], used[2 * i + 1]))
  }

  /** Neighbours are joined. What was marked or queued for freeing is forgotten, and recomputed from the
      joined counters. No region is free at this point. */
  function Double(s: State): State {
    var used := Joined(s.used);
    s.(size := 2 * s.size, used := used, pending := set i: nat | i < |used| && Empty(used[i]))
  }

  predicate CanDouble(s: State) { !s.open && |s.used| == MAX_REGIONS && s.free == {} }

  /** The deallocations that are outstanding in an empty region fit what the counter of its neighbour, if that
      is in use, has to spare. */
  predicate PairSafe(s: State, a: nat, b: nat)
    requires s.size > 0 && a < |s.used| && b < |s.used|
  {
    Empty(s.used[a]) && !Empty(s.used[b]) ==> Bytes(s.dead, s.size, a) + Load(s, b) <= s.used[b].bytes
  }

  predicate DoublingSafe(s: State)
    requires s.size > 0
  {
    forall j :: 0 <= j < |s.used| / 2 ==> PairSafe(s, 2 * j, 2 * j + 1) && PairSafe(s, 2 * j + 1, 2 * j)
  }

  /** An empty region has nothing to account for but outstanding deallocations. */
  lemma EmptyLoad(s: State, i: nat)
    requires Shape(s) && Counted(s) && Bounded(s) && i < |s.used| && Empty(s.used[i])
    ensures Load(s, i) == Bytes(s.dead, s.size, i)
  {
    assert BoundedAt(s, i);
    forall k | 0 <= k < |s.items| ensures Region(s.items[k].src, s.size) != i && Region(s.items[k].dest, s.size) != i {
      BytesMember(Targets(s.items), k, s.size, i);
      BytesMember(Sources(s.items), k, s.size, i);
    }
    BytesNone(Reserved(s.items), s.size, i);
    BytesNone(Copied(s.items), s.size, i);
  }

  lemma LoadDouble(s: State, j: nat)
    requires s.size > 0 && !s.open
    ensures Load(Double(s), j) == Load(s, 2 * j) + Load(s, 2 * j + 1)
  {
    BytesDouble(s.live, s.size, j);
    BytesDouble(s.dead, s.size, j);
    BytesDouble(Reserved(s.items), s.size, j);
    BytesDouble(Copied(s.items), s.size, j);
  }

  /** What holds of a joined pair of regions, in terms of their loads. */
  lemma PairBounded(s: State, j: nat, a: nat, b: nat)
    requires Shape(s) && Counted(s) && Bounded(s) && CanDouble(s) && 2 * j + 1 < |s.used| && a == 2 * j
             && b == 2 * j + 1
    ensures (if Empty(s.used[a]) then Load(s, a) == Bytes(s.dead, s.size, a) else s.used[a].bytes >= Load(s, a))
    ensures (if Empty(s.used[b]) then Load(s, b) == Bytes(s.dead, s.size, b) else s.used[b].bytes >= Load(s, b))
    ensures Double(s).used[j] == Join(s.used[a], s.used[b]) && Load(Double(s), j) == Load(s, a) + Load(s, b)
    ensures Empty(s.used[a]) && Empty(s.used[b]) ==> Bytes(s.live, 2 * s.size, j) == 0
  {
    LoadDouble(s, j);
    BytesDouble(s.live, s.size, j);
    assert BoundedAt(s, a) && BoundedAt(s, b);
    if Empty(s.used[a]) { EmptyLoad(s, a); }
    if Empty(s.used[b]) { EmptyLoad(s, b); }
  }

  lemma DoubleBounded(s: State)
    requires Shape(s) && Counted(s) && Bounded(s) && CanDouble(s) && DoublingSafe(s)
    ensures Bounded(Double(s))
  {
    var s' := Double(s);
    forall j | 0 <= j < |s'.used| ensures BoundedAt(s', j) {
      PairBounded(s, j, 2 * j, 2 * j + 1);
      assert PairSafe(s, 2 * j, 2 * j + 1) && PairSafe(s, 2 * j + 1, 2 * j);
    }
  }

  lemma PairUnsafe(s: State, j: nat, a: nat, b: nat)
    requires Shape(s) && Counted(s) && Bounded(s) && CanDouble(s) && 2 * j + 1 < |s.used| && a == 2 * j
             && b == 2 * j + 1
    requires !(PairSafe(s, a, b) && PairSafe(s, b, a))
    ensures !BoundedAt(Double(s), j)
  {
    PairBounded(s, j, a, b);
  }

  /** Doubling keeps the bound if and only if it is safe. */
  lemma DoublingExactly(s: State)
    requires Shape(s) && Counted(s) && Bounded(s) && CanDouble(s)
    ensures Bounded(Double(s)) <==> DoublingSafe(s)
  {
    if DoublingSafe(s) {
      DoubleBounded(s);
    } else {
      var j :| 0 <= j < |s.used| / 2 && !(PairSafe(s, 2 * j, 2 * j + 1) && PairSafe(s, 2 * j + 1, 2 * j));
      PairUnsafe(s, j, 2 * j, 2 * j + 1);
    }
  }

  lemma DoubleCounted(s: State)
    requires Shape(s) && Counted(s) && CanDouble(s)
    ensures Counted(Double(s))
  {
    var s' := Double(s);
    forall j | 0 <= j < |s'.used|
      ensures s'.used[j].writes == Bytes(Targets(s'.items), s'.size, j) + (if s'.open && j == s'.cur then 1 else 0)
      ensures s'.used[j].clears >= Bytes(Sources(s'.items), s'.size, j)
    {
      BytesDouble(Targets(s.items), s.size, j);
      BytesDouble(Sources(s.items), s.size, j);
    }
  }

  lemma DoubleItems(s: State)
    requires Shape(s) && ItemsOk(s) && CanDouble(s)
    ensures Shape(Double(s)) && ItemsOk(Double(s))
  {
    var s' := Double(s);
    forall k | 0 <= k < |s.live| ensures Region(s.live[k].off, s'.size) < |s'.used| {
      RegionDouble(s.live[k].off, s.size);
    }
    forall k | 0 <= k < |s.dead| ensures Region(s.dead[k].off, s'.size) < |s'.used| {
      RegionDouble(s.dead[k].off, s.size);
    }
    forall k | 0 <= k < |s.items| ensures ItemOk(s', s.items[k]) { DoubleItem(s, s.items[k]); }
  }

  lemma DoubleItem(s: State, t: Item)
    requires Shape(s) && CanDouble(s) && ItemOk(s, t)
    ensures ItemOk(Double(s), t)
  {
    RegionDouble(t.src, s.size);
    RegionDouble(t.src + t.len - 1, s.size);
    RegionDouble(t.dest, s.size);
    RegionDouble(t.end - 1, s.size);
  }

  lemma DoubleAvailable(s: State)
    requires Shape(s) && Available(s) && Quiet(s) && CanDouble(s)
    ensures Available(Double(s)) && Quiet(Double(s))
  {
    var s' := Double(s);
    assert forall k :: 0 <= k < |s.tokens| ==> !Current(s', s'.tokens[k]);
    assert forall i: nat :: !Promised(s', i);
  }

  lemma DoubleInv(s: State)
    requires Inv(s) && CanDouble(s) && DoublingSafe(s)
    ensures Inv(Double(s))
  {
    DoubleItems(s);
    DoubleCounted(s);
    DoubleBounded(s);
    DoubleAvailable(s);
  }

  /** After a doubling the invariant holds if and only if the doubling was safe. */
  lemma DoubleInvExactly(s: State)
    requires Inv(s) && CanDouble(s)
    ensures Inv(Double(s)) <==> DoublingSafe(s)
  {
    DoublingExactly(s);
    if DoublingSafe(s) { DoubleInv(s); }
  }
}
