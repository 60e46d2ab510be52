/** The region allocator as a state machine: allocation from the current region, deallocation, evacuation,
    delayed frees and doubling of the region size. The steps are the critical sections of its mutex and the
    single moves of an evacuation. */
module RegionState {
  import opened RegionChunks

  const MAX_REGIONS := 64
  const MAX_QUEUE := 32

  /** The parts of a `region_used` word: bytes, pending writes and pending clears. */
  datatype Counter = Counter(bytes: nat, writes: nat, clears: nat)

  predicate Empty(c: Counter) { c == Counter(0, 0, 0) }

  /** An evacuation: the source range, and the range reserved for it with what is written so far. */
  datatype Item = Item(src: nat, len: nat, dest: nat, cursor: nat, end: nat)

  /** A delayed free: it runs once the deallocations that were outstanding are over. */
  datatype Token = Token(mask: set<nat>, size: nat, waits: set<nat>)

  /** `open` is false only while an allocation is switching to another region. Objects are `live`, or
      `dead`: released, with the call to deallocate still to come. */
  datatype State = State(size: nat, used: seq<Counter>, cur: nat, pos: nat, open: bool,
                         free: set<nat>, pending: set<nat>, queued: set<nat>, items: seq<Item>,
                         live: seq<Chunk>, dead: seq<Chunk>, tokens: seq<Token>)

  // ----- what the bytes of a region are needed for

  function Sub(a: nat, b: nat): nat { if a < b then 0 else a - b }

  function Reserved(items: seq<Item>): (cs: seq<Chunk>)
    ensures |cs| == |items|
  {
    seq(|items|, k requires 0 <= k < |items| => Chunk(items[k].dest, Sub(items[k].end, items[k].cursor), 0))
  }

  function Copied(items: seq<Item>): (cs: seq<Chunk>)
    ensures |cs| == |items|
  {
    seq(|items|, k requires 0 <= k < |items| => Chunk(items[k].src, Sub(items[k].cursor, items[k].dest), 0))
  }

  function Targets(items: seq<Item>): (cs: seq<Chunk>)
    ensures |cs| == |items|
  {
    seq(|items|, k requires 0 <= k < |items| => Chunk(items[k].dest, 1, 0))
  }

  function Sources(items: seq<Item>): (cs: seq<Chunk>)
    ensures |cs| == |items|
  {
    seq(|items|, k requires 0 <= k < |items| => Chunk(items[k].src, 1, 0))
  }

  /** The unallocated rest of the current region. */
  function Rest(s: State, i: nat): nat { if s.open && i == s.cur then Sub(s.cur * s.size + s.size, s.pos) else 0 }

  /** Live and outstanding objects, reserved and moved bytes, and the unallocated rest. */
  function Load(s: State, i: nat): nat
    requires s.size > 0
  {
    Bytes(s.live, s.size, i) + Bytes(s.dead, s.size, i) + Bytes(Reserved(s.items), s.size, i)
    + Bytes(Copied(s.items), s.size, i) + Rest(s, i)
  }

  // ----- the invariant

  predicate Shape(s: State) {
    && s.size > 0 && 0 < |s.used| <= MAX_REGIONS
    && (s.open ==> s.cur < |s.used| && s.cur * s.size <= s.pos <= s.cur * s.size + s.size)
    && (forall k :: 0 <= k < |s.live| ==> Region(s.live[k].off, s.size) < |s.used| && s.live[k].size > 0)
    && (forall k :: 0 <= k < |s.dead| ==> Region(s.dead[k].off, s.size) < |s.used|)
  }

  /** A range within one region. */
  predicate InOneRegion(lo: nat, hi: nat, r: nat)
    requires r > 0
  {
    lo < hi && Region(lo, r) == Region(hi - 1, r)
  }

  predicate ItemOk(s: State, t: Item)
    requires s.size > 0
  {
    && 0 < t.len <= s.size && t.dest <= t.cursor <= t.end
    && InOneRegion(t.src, t.src + t.len, s.size) && InOneRegion(t.dest, t.end, s.size)
    && Region(t.src, s.size) < |s.used| && Region(t.dest, s.size) < |s.used|
    && (s.open ==> Region(t.src, s.size) != s.cur)
    && RangeBytes(s.live, t.src, t.src + t.len) <= t.end - t.cursor
  }

  predicate Apart(lo: nat, hi: nat, lo': nat, hi': nat) { hi <= lo' || hi' <= lo }

  predicate ItemsOk(s: State)
    requires s.size > 0
  {
    && (forall k :: 0 <= k < |s.items| ==> ItemOk(s, s.items[k]))
    && (forall k, l :: 0 <= k < l < |s.items| ==> SourcesApart(s.items[k], s.items[l]))
    && (forall k, l :: 0 <= k < |s.items| && 0 <= l < |s.items| ==> SourceTargetApart(s.items[k], s.items[l]))
  }

  predicate SourcesApart(t: Item, u: Item) { Apart(t.src, t.src + t.len, u.src, u.src + u.len) }

  predicate SourceTargetApart(t: Item, u: Item) { Apart(t.src, t.src + t.len, u.dest, u.end) }

  /** Pending writes are the evacuations into a region and the current region itself; pending clears are at
      least the evacuations out of it. */
  predicate Counted(s: State)
    requires s.size > 0
  {
    forall i :: 0 <= i < |s.used| ==>
      && s.used[i].writes == Bytes(Targets(s.items), s.size, i) + (if s.open && i == s.cur then 1 else 0)
      && s.used[i].clears >= Bytes(Sources(s.items), s.size, i)
  }

  /** The used bytes of a region bound what it is needed for; an empty region holds no live object. */
  predicate BoundedAt(s: State, i: nat)
    requires s.size > 0 && i < |s.used|
  {
    if Empty(s.used[i]) then Bytes(s.live, s.size, i) == 0 else s.used[i].bytes >= Load(s, i)
  }

  predicate Bounded(s: State)
    requires s.size > 0
  {
    forall i :: 0 <= i < |s.used| ==> BoundedAt(s, i)
  }

  /** A delayed free that is not outdated by doubling. */
  predicate Current(s: State, t: Token) { t.size == s.size }

  predicate EmptyRegion(s: State, i: nat) { i < |s.used| && Empty(s.used[i]) }

  ghost predicate Promised(s: State, i: nat) {
    exists k :: 0 <= k < |s.tokens| && Current(s, s.tokens[k]) && i in s.tokens[k].mask
  }

  /** Every empty region is free, or about to be freed, in exactly one way. */
  ghost predicate Available(s: State) {
    && (forall i :: i in s.free || i in s.pending ==> EmptyRegion(s, i))
    && (forall i: nat :: Promised(s, i) ==> EmptyRegion(s, i) && i in s.queued && i !in s.free && i !in s.pending)
    && s.free !! s.pending
    && (forall k, l :: 0 <= k < l < |s.tokens| && Current(s, s.tokens[k]) && Current(s, s.tokens[l]) ==>
          s.tokens[k].mask !! s.tokens[l].mask)
    && (forall i: nat :: EmptyRegion(s, i) ==> i in s.free || i in s.pending || Promised(s, i))
    && (forall k :: 0 <= k < |s.tokens| ==> s.tokens[k].size <= s.size)
  }

  /** No deallocation is outstanding in a free region; a delayed free waits for those in its regions. */
  predicate Quiet(s: State)
    requires s.size > 0
  {
    forall d :: 0 <= d < |s.dead| ==>
      && Region(s.dead[d].off, s.size) !in s.free
      && forall k :: 0 <= k < |s.tokens| && Current(s, s.tokens[k])
                     && Region(s.dead[d].off, s.size) in s.tokens[k].mask ==>
           s.dead[d].tag in s.tokens[k].waits
  }

  ghost predicate Inv(s: State) {
    Shape(s) && ItemsOk(s) && Counted(s) && Bounded(s) && Available(s) && Quiet(s)
  }

  /** A fresh file. */
  function Init(size: nat): State { State(size, [Counter(size, 1, 0)], 0, 0, true, {}, {}, {}, [], [], [], []) }

  lemma InitInv(size: nat)
    requires size > 0
    ensures Inv(Init(size))
  {}

  // ----- positions and regions

  lemma Within(x: nat, lo: nat, hi: nat, r: nat)
    requires r > 0 && InOneRegion(lo, hi, r) && lo <= x < hi
    ensures Region(x, r) == Region(lo, r)
  {
    RegionBounds(lo, r);
    RegionBounds(hi - 1, r);
    RegionIs(x, r, Region(lo, r));
  }

  /** Nothing that is being evacuated lies in the current region. */
  lemma NotInSource(s: State, t: Item, x: nat)
    requires s.size > 0 && ItemOk(s, t) && s.open && Region(x, s.size) == s.cur
    ensures !(t.src <= x < t.src + t.len)
  {
    if t.src <= x < t.src + t.len { Within(x, t.src, t.src + t.len, s.size); }
  }

  // ----- allocation within the current region

  function Allocate(s: State, n: nat): State { s.(live := s.live + [Chunk(s.pos, n, 0)], pos := s.pos + n) }

  predicate CanAllocate(s: State, n: nat) { s.open && 0 < n && s.pos + n <= s.cur * s.size + s.size }

  lemma AllocateItems(s: State, n: nat)
    requires Shape(s) && ItemsOk(s) && CanAllocate(s, n)
    ensures Shape(Allocate(s, n)) && ItemsOk(Allocate(s, n))
  {
    RegionIs(s.pos, s.size, s.cur);
    var s' := Allocate(s, n);
    forall k | 0 <= k < |s.items| ensures ItemOk(s', s.items[k]) {
      var t := s.items[k];
      assert ItemOk(s, t);
      NotInSource(s, t, s.pos);
      RangeSnoc(s.live, Chunk(s.pos, n, 0), t.src, t.src + t.len);
    }
  }

  lemma AllocateBounded(s: State, n: nat)
    requires Shape(s) && Counted(s) && Bounded(s) && CanAllocate(s, n)
    ensures Bounded(Allocate(s, n))
  {
    RegionIs(s.pos, s.size, s.cur);
    var s' := Allocate(s, n);
    forall i | 0 <= i < |s.used| ensures BoundedAt(s', i) {
      assert BoundedAt(s, i);
      BytesSnoc(s.live, Chunk(s.pos, n, 0), s.size, i);
    }
  }

  lemma AllocateInv(s: State, n: nat)
    requires Inv(s) && CanAllocate(s, n)
    ensures Inv(Allocate(s, n))
  {
    AllocateItems(s, n);
    AllocateBounded(s, n);
    SameAvailable(s, Allocate(s, n));
  }

  /** Availability depends on the counters and the sets only. */
  lemma SameAvailable(s: State, s': State)
    requires Available(s) && s'.size == s.size && s'.used == s.used && s'.free == s.free && s'.pending == s.pending
    requires s'.queued == s.queued && s'.tokens == s.tokens
    ensures Available(s')
  {
    assert forall i: nat :: EmptyRegion(s', i) <==> EmptyRegion(s, i);
    assert forall i: nat :: Promised(s', i) <==> Promised(s, i);
  }

  // ----- release: an object dies, its deallocation is still to come

  function Release(s: State, k: nat, tag: nat): State
    requires k < |s.live|
  {
    s.(live := Without(s.live, k), dead := s.dead + [Chunk(s.live[k].off, s.live[k].size, tag)])
  }

  lemma ReleaseBounded(s: State, k: nat, tag: nat)
    requires Shape(s) && Bounded(s) && k < |s.live|
    ensures Bounded(Release(s, k, tag))
    ensures !EmptyRegion(s, Region(s.live[k].off, s.size))
  {
    var s', c := Release(s, k, tag), Chunk(s.live[k].off, s.live[k].size, tag);
    forall i | 0 <= i < |s.used| ensures BoundedAt(s', i) {
      assert BoundedAt(s, i);
      BytesWithout(s.live, k, s.size, i);
      BytesSnoc(s.dead, c, s.size, i);
    }
    var i := Region(s.live[k].off, s.size);
    assert BoundedAt(s, i);
    BytesMember(s.live, k, s.size, i);
  }

  lemma ReleaseItems(s: State, k: nat, tag: nat)
    requires Shape(s) && ItemsOk(s) && k < |s.live|
    ensures Shape(Release(s, k, tag)) && ItemsOk(Release(s, k, tag))
  {
    var s' := Release(s, k, tag);
    forall j | 0 <= j < |s.items| ensures ItemOk(s', s.items[j]) {
      var t := s.items[j];
      assert ItemOk(s, t);
      RangeWithout(s.live, k, t.src, t.src + t.len);
    }
    assert forall j :: 0 <= j < |s'.live| ==> s'.live[j] in s.live;
  }

  lemma ReleaseInv(s: State, k: nat, tag: nat)
    requires Inv(s) && k < |s.live|
    ensures Inv(Release(s, k, tag))
  {
    var s' := Release(s, k, tag);
    ReleaseItems(s, k, tag);
    ReleaseBounded(s, k, tag);
    SameAvailable(s, s');
    ReleaseQuiet(s, k, tag);
  }

  lemma ReleaseQuiet(s: State, k: nat, tag: nat)
    requires Shape(s) && Available(s) && Quiet(s) && k < |s.live| && !EmptyRegion(s, Region(s.live[k].off, s.size))
    ensures Quiet(Release(s, k, tag))
  {
    var s', i := Release(s, k, tag), Region(s.live[k].off, s.size);
    assert !Promised(s, i);
  }

  // ----- deallocation

  /** Stores a counter; a region that becomes empty is marked for freeing. */
  function Store(s: State, i: nat, c: Counter): State
    requires i < |s.used|
  {
    s.(used := s.used[i := c], pending := if Empty(c) then s.pending + {i} else s.pending)
  }

  /** The region was not marked before. */
  lemma StoreAvailable(s: State, i: nat, c: Counter)
    requires Available(s) && i < |s.used| && !Empty(s.used[i])
    ensures i !in s.pending && i !in s.free && !Promised(s, i) && Available(Store(s, i, c))
  {
    var s' := Store(s, i, c);
    assert !EmptyRegion(s, i);
    assert forall j: nat :: j != i ==> (EmptyRegion(s', j) <==> EmptyRegion(s, j));
    assert forall j: nat :: Promised(s', j) <==> Promised(s, j);
  }

  /** The word is left alone when it is zero: the region has been evacuated completely. */
  function Deallocate(s: State, k: nat): State
    requires s.size > 0 && k < |s.dead| && Region(s.dead[k].off, s.size) < |s.used|
  {
    var d, i, s1 := s.dead[k], Region(s.dead[k].off, s.size), s.(dead := Without(s.dead, k));
    if Empty(s.used[i]) then s1 else Store(s1, i, s.used[i].(bytes := Sub(s.used[i].bytes, d.size)))
  }

  /** The subtraction never borrows. */
  lemma DeallocateFits(s: State, k: nat)
    requires Shape(s) && Bounded(s) && k < |s.dead|
    ensures var i := Region(s.dead[k].off, s.size); Empty(s.used[i]) || s.dead[k].size <= s.used[i].bytes
  {
    var i := Region(s.dead[k].off, s.size);
    assert BoundedAt(s, i);
    BytesMember(s.dead, k, s.size, i);
  }

  lemma DeallocateBounded(s: State, k: nat)
    requires Shape(s) && Bounded(s) && k < |s.dead|
    ensures Bounded(Deallocate(s, k))
  {
    DeallocateFits(s, k);
    var s', r := Deallocate(s, k), Region(s.dead[k].off, s.size);
    forall i | 0 <= i < |s.used| ensures BoundedAt(s', i) {
      assert BoundedAt(s, i);
      BytesWithout(s.dead, k, s.size, i);
    }
  }

  lemma DeallocateItems(s: State, k: nat)
    requires Shape(s) && ItemsOk(s) && Counted(s) && k < |s.dead|
    ensures Shape(Deallocate(s, k)) && ItemsOk(Deallocate(s, k)) && Counted(Deallocate(s, k))
  {
    var s' := Deallocate(s, k);
    forall j | 0 <= j < |s.items| ensures ItemOk(s', s.items[j]) { assert ItemOk(s, s.items[j]); }
    assert forall j :: 0 <= j < |s'.dead| ==> s'.dead[j] in s.dead;
  }

  lemma DeallocateInv(s: State, k: nat)
    requires Inv(s) && k < |s.dead|
    ensures Inv(Deallocate(s, k))
  {
    DeallocateItems(s, k);
    DeallocateBounded(s, k);
    DeallocateAvailable(s, k);
    DeallocateQuiet(s, k);
  }

  lemma DeallocateAvailable(s: State, k: nat)
    requires Shape(s) && Available(s) && k < |s.dead|
    ensures Available(Deallocate(s, k))
  {
    var i, s1 := Region(s.dead[k].off, s.size), s.(dead := Without(s.dead, k));
    SameAvailable(s, s1);
    if !Empty(s.used[i]) { StoreAvailable(s1, i, s.used[i].(bytes := Sub(s.used[i].bytes, s.dead[k].size))); }
  }

  lemma DeallocateQuiet(s: State, k: nat)
    requires Shape(s) && Quiet(s) && k < |s.dead|
    ensures Quiet(Deallocate(s, k))
  {
    var s' := Deallocate(s, k);
    forall d | 0 <= d < |s'.dead| ensures s'.dead[d] == s.dead[if d < k then d else d + 1] {}
  }

  // ----- evacuation

  /** The front item moves one live object of its source to its cursor. */
  function Move(s: State, k: nat): State
    requires s.items != [] && k < |s.live|
  {
    var t := s.items[0];
    s.(live := s.live[k := Chunk(t.cursor, s.live[k].size, 0)],
       items := s.items[0 := t.(cursor := t.cursor + s.live[k].size)])
  }

  predicate CanMove(s: State, k: nat) {
    s.items != [] && k < |s.live| && s.items[0].src <= s.live[k].off < s.items[0].src + s.items[0].len
  }

  /** Every object of the source fits what is left of the reserved range: evacuation never stops early. */
  lemma EvacuationFits(s: State, k: nat)
    requires Shape(s) && ItemsOk(s) && CanMove(s, k)
    ensures s.live[k].size <= s.items[0].end - s.items[0].cursor
  {
    var t := s.items[0];
    assert ItemOk(s, t);
    RangeMember(s.live, k, t.src, t.src + t.len);
  }

  lemma MoveRegions(s: State, k: nat)
    requires Shape(s) && ItemsOk(s) && CanMove(s, k)
    ensures var t := s.items[0];
            && s.live[k].size <= t.end - t.cursor
            && Region(s.live[k].off, s.size) == Region(t.src, s.size)
               && Region(t.cursor, s.size) == Region(t.dest, s.size)
            && forall l :: 0 <= l < |s.items| ==> !(s.items[l].src <= t.cursor < s.items[l].src + s.items[l].len)
  {
    EvacuationFits(s, k);
    var t := s.items[0];
    assert ItemOk(s, t);
    Within(s.live[k].off, t.src, t.src + t.len, s.size);
    Within(t.cursor, t.dest, t.end, s.size);
    forall l | 0 <= l < |s.items| ensures !(s.items[l].src <= t.cursor < s.items[l].src + s.items[l].len) {
      assert SourceTargetApart(s.items[l], t);
    }
  }

  lemma MoveItemOk(s: State, k: nat, l: nat)
    requires Shape(s) && ItemsOk(s) && CanMove(s, k) && l < |s.items|
    ensures ItemOk(Move(s, k), Move(s, k).items[l])
  {
    MoveRegions(s, k);
    var t, u, c := s.items[0], s.items[l], Chunk(s.items[0].cursor, s.live[k].size, 0);
    assert ItemOk(s, u);
    RangeUpdate(s.live, k, c, u.src, u.src + u.len);
    if l > 0 { assert SourcesApart(t, u); }
  }

  lemma MoveShape(s: State, k: nat)
    requires Shape(s) && ItemsOk(s) && Counted(s) && CanMove(s, k)
    ensures Shape(Move(s, k)) && Counted(Move(s, k))
  {
    MoveRegions(s, k);
    assert ItemOk(s, s.items[0]);
    assert Targets(Move(s, k).items) == Targets(s.items) && Sources(Move(s, k).items) == Sources(s.items);
  }

  lemma MoveItems(s: State, k: nat)
    requires Shape(s) && ItemsOk(s) && CanMove(s, k)
    ensures ItemsOk(Move(s, k))
  {
    var s' := Move(s, k);
    forall l | 0 <= l < |s'.items| ensures ItemOk(s', s'.items[l]) { MoveItemOk(s, k, l); }
    forall a, b | 0 <= a < b < |s'.items| ensures SourcesApart(s'.items[a], s'.items[b]) {
      assert SourcesApart(s.items[a], s.items[b]);
    }
    forall a, b | 0 <= a < |s'.items| && 0 <= b < |s'.items| ensures SourceTargetApart(s'.items[a], s'.items[b]) {
      assert SourceTargetApart(s.items[a], s.items[b]);
    }
  }

  lemma ItemUpdate(items: seq<Item>, t: Item)
    requires items != []
    ensures Reserved(items[0 := t]) == Reserved(items)[0 := Chunk(t.dest, Sub(t.end, t.cursor), 0)]
    ensures Copied(items[0 := t]) == Copied(items)[0 := Chunk(t.src, Sub(t.cursor, t.dest), 0)]
  {}

  /** Bytes that move from `a` to `b` within the sums of an item. */
  lemma MoveItemBytes(items: seq<Item>, t: Item, n: nat, r: nat, i: nat, from: nat, to: nat)
    requires r > 0 && items != [] && t == items[0] && t.dest <= t.cursor && t.cursor + n <= t.end
    requires from == Region(t.src, r) && to == Region(t.dest, r)
    ensures var items' := items[0 := t.(cursor := t.cursor + n)];
            && Bytes(Reserved(items'), r, i) + If(to == i, n) == Bytes(Reserved(items), r, i)
            && Bytes(Copied(items'), r, i) == Bytes(Copied(items), r, i) + If(from == i, n)
  {
    var t' := t.(cursor := t.cursor + n);
    ItemUpdate(items, t');
    BytesUpdate(Reserved(items), 0, Chunk(t'.dest, Sub(t'.end, t'.cursor), 0), r, i);
    BytesUpdate(Copied(items), 0, Chunk(t'.src, Sub(t'.cursor, t'.dest), 0), r, i);
  }

  function If(b: bool, n: nat): nat { if b then n else 0 }

  /** What a move needs to know of the regions of source and target. */
  predicate Moving(s: State, k: nat, from: nat, to: nat)
    requires s.size > 0
  {
    && s.items != [] && k < |s.live|
    && s.items[0].dest <= s.items[0].cursor && s.items[0].cursor + s.live[k].size <= s.items[0].end
    && Region(s.items[0].src, s.size) == from && Region(s.live[k].off, s.size) == from
    && Region(s.items[0].dest, s.size) == to && Region(s.items[0].cursor, s.size) == to
  }

  lemma MoveLiveBytes(s: State, k: nat, i: nat, from: nat, to: nat)
    requires s.size > 0 && Moving(s, k, from, to)
    ensures Bytes(Move(s, k).live, s.size, i) + If(from == i, s.live[k].size)
            == Bytes(s.live, s.size, i) + If(to == i, s.live[k].size)
  {
    BytesUpdate(s.live, k, Chunk(s.items[0].cursor, s.live[k].size, 0), s.size, i);
  }

  /** A move keeps the load of every region: what the object leaves is counted as moved, and what it enters
      was reserved. */
  lemma MoveLoad(s: State, k: nat, i: nat, from: nat, to: nat)
    requires s.size > 0 && Moving(s, k, from, to)
    ensures Load(Move(s, k), i) == Load(s, i)
    ensures i != to ==> Bytes(Move(s, k).live, s.size, i) <= Bytes(s.live, s.size, i)
  {
    MoveItemBytes(s.items, s.items[0], s.live[k].size, s.size, i, from, to);
    MoveLiveBytes(s, k, i, from, to);
  }

  lemma TargetNotEmpty(s: State, k: nat)
    requires s.size > 0 && ItemsOk(s) && Counted(s) && k < |s.items|
    ensures s.used[Region(s.items[k].dest, s.size)].writes >= 1
  {
    assert ItemOk(s, s.items[k]);
    BytesMember(Targets(s.items), k, s.size, Region(s.items[k].dest, s.size));
  }

  lemma SourceNotEmpty(s: State, k: nat)
    requires s.size > 0 && ItemsOk(s) && Counted(s) && k < |s.items|
    ensures s.used[Region(s.items[k].src, s.size)].clears >= 1
  {
    assert ItemOk(s, s.items[k]);
    BytesMember(Sources(s.items), k, s.size, Region(s.items[k].src, s.size));
  }

  lemma MoveBounded(s: State, k: nat)
    requires Shape(s) && ItemsOk(s) && Counted(s) && Bounded(s) && CanMove(s, k)
    ensures Bounded(Move(s, k))
  {
    var s', from, to := Move(s, k), Region(s.items[0].src, s.size), Region(s.items[0].dest, s.size);
    TargetNotEmpty(s, 0);
    MoveRegions(s, k);
    assert ItemOk(s, s.items[0]) && Moving(s, k, from, to);
    forall i | 0 <= i < |s.used| ensures BoundedAt(s', i) {
      assert BoundedAt(s, i);
      MoveLoad(s, k, i, from, to);
    }
  }

  lemma MoveInv(s: State, k: nat)
    requires Inv(s) && CanMove(s, k)
    ensures Inv(Move(s, k))
  {
    MoveShape(s, k);
    MoveItems(s, k);
    MoveBounded(s, k);
    SameAvailable(s, Move(s, k));
  }

  /** The evacuation is over: the excess of the reserved range is given back, and the source is reduced by
      what was moved; a source that was a whole region is reset. When doubling has joined source and
      target, the update of the source is overwritten, so its bytes stay counted. */
  function Finish(s: State): State
    requires s.size > 0 && s.items != []
    requires Region(s.items[0].src, s.size) < |s.used| && Region(s.items[0].dest, s.size) < |s.used|
  {
    var t := s.items[0];
    var from, to := Region(t.src, s.size), Region(t.dest, s.size);
    var extra, copied := Sub(t.end, t.cursor), Sub(t.cursor, t.dest);
    var target := Counter(Sub(s.used[to].bytes, extra), Sub(s.used[to].writes, 1), s.used[to].clears);
    var source := if t.len == s.size then Counter(0, 0, 0)
                  else Counter(Sub(s.used[from].bytes, copied), s.used[from].writes, Sub(s.used[from].clears, 1));
    var s1 := s.(items := s.items[1..]);
    if from == to then Store(s1, to, target) else Store(Store(s1, from, source), to, target)
  }

  /** All of the source has been visited. */
  predicate CanFinish(s: State) {
    && s.items != []
    && forall k :: 0 <= k < |s.live| ==> !(s.items[0].src <= s.live[k].off < s.items[0].src + s.items[0].len)
  }

  lemma TailBytes(items: seq<Item>, t: Item, r: nat, i: nat, from: nat, to: nat)
    requires r > 0 && items != [] && t == items[0] && from == Region(t.src, r) && to == Region(t.dest, r)
    ensures Bytes(Reserved(items[1..]), r, i) + If(to == i, Sub(t.end, t.cursor)) == Bytes(Reserved(items), r, i)
    ensures Bytes(Copied(items[1..]), r, i) + If(from == i, Sub(t.cursor, t.dest)) == Bytes(Copied(items), r, i)
    ensures Bytes(Targets(items[1..]), r, i) + If(to == i, 1) == Bytes(Targets(items), r, i)
    ensures Bytes(Sources(items[1..]), r, i) + If(from == i, 1) == Bytes(Sources(items), r, i)
  {
    assert Without(Reserved(items), 0) == Reserved(items[1..]);
    assert Without(Copied(items), 0) == Copied(items[1..]);
    assert Without(Targets(items), 0) == Targets(items[1..]);
    assert Without(Sources(items), 0) == Sources(items[1..]);
    BytesWithout(Reserved(items), 0, r, i);
    BytesWithout(Copied(items), 0, r, i);
    BytesWithout(Targets(items), 0, r, i);
    BytesWithout(Sources(items), 0, r, i);
  }

  /** A source that is a whole region: nothing else begins there. */
  lemma WholeRegion(s: State)
    requires Shape(s) && ItemsOk(s) && CanFinish(s) && s.items[0].len == s.size
    ensures var f := Region(s.items[0].src, s.size);
            && Bytes(s.live, s.size, f) == 0 && Bytes(Targets(s.items), s.size, f) == 0
            && Bytes(Sources(s.items[1..]), s.size, f) == 0
  {
    var t, r := s.items[0], s.size;
    var f := Region(t.src, r);
    assert ItemOk(s, t);
    RegionBounds(t.src, r);
    RegionBounds(t.src + t.len - 1, r);
    assert t.src == f * r;
    forall k | 0 <= k < |s.live| ensures Region(s.live[k].off, r) != f { RegionBounds(s.live[k].off, r); }
    BytesNone(s.live, r, f);
    forall k | 0 <= k < |s.items| ensures Region(s.items[k].dest, r) != f {
      assert ItemOk(s, s.items[k]) && SourceTargetApart(t, s.items[k]);
      RegionBounds(s.items[k].dest, r);
    }
    BytesNone(Targets(s.items), r, f);
    forall k | 0 <= k < |s.items[1..]| ensures Region(s.items[1..][k].src, r) != f {
      assert ItemOk(s, s.items[k + 1]) && SourcesApart(t, s.items[k + 1]);
      RegionBounds(s.items[k + 1].src, r);
    }
    BytesNone(Sources(s.items[1..]), r, f);
  }

  /** The subtractions of the final accounting never borrow, and a source that is reset has no pending write. */
  lemma FinishFits(s: State)
    requires Shape(s) && ItemsOk(s) && Counted(s) && Bounded(s) && CanFinish(s)
    ensures var t := s.items[0]; var from, to := Region(t.src, s.size), Region(t.dest, s.size);
            && from < |s.used| && to < |s.used|
            && t.end - t.cursor <= s.used[to].bytes && 1 <= s.used[to].writes
            && t.cursor - t.dest <= s.used[from].bytes && 1 <= s.used[from].clears
            && (t.len == s.size ==> s.used[from].writes == 0 && from != to)
  {
    var t := s.items[0];
    var from, to := Region(t.src, s.size), Region(t.dest, s.size);
    assert ItemOk(s, t);
    TargetNotEmpty(s, 0);
    SourceNotEmpty(s, 0);
    assert BoundedAt(s, from) && BoundedAt(s, to);
    BytesMember(Reserved(s.items), 0, s.size, to);
    BytesMember(Copied(s.items), 0, s.size, from);
    if t.len == s.size { WholeRegion(s); }
  }

  lemma FinishCounted(s: State)
    requires Shape(s) && ItemsOk(s) && Counted(s) && Bounded(s) && CanFinish(s)
    ensures Region(s.items[0].src, s.size) < |s.used| && Region(s.items[0].dest, s.size) < |s.used|
    ensures Counted(Finish(s))
  {
    FinishFits(s);
    var t := s.items[0];
    var from, to, s' := Region(t.src, s.size), Region(t.dest, s.size), Finish(s);
    if t.len == s.size { WholeRegion(s); assert ItemOk(s, t); }
    forall i | 0 <= i < |s'.used|
      ensures s'.used[i].writes == Bytes(Targets(s'.items), s'.size, i) + (if s'.open && i == s'.cur then 1 else 0)
      ensures s'.used[i].clears >= Bytes(Sources(s'.items), s'.size, i)
    {
      TailBytes(s.items, t, s.size, i, from, to);
    }
  }

  lemma FinishShape(s: State)
    requires Shape(s) && ItemsOk(s) && s.items != []
    ensures Region(s.items[0].src, s.size) < |s.used| && Region(s.items[0].dest, s.size) < |s.used|
    ensures Shape(Finish(s)) && |Finish(s).used| == |s.used|
  {
    assert ItemOk(s, s.items[0]);
  }

  lemma FinishItems(s: State)
    requires Shape(s) && ItemsOk(s) && s.items != []
    ensures Region(s.items[0].src, s.size) < |s.used| && Region(s.items[0].dest, s.size) < |s.used|
    ensures Shape(Finish(s)) && ItemsOk(Finish(s))
  {
    FinishShape(s);
    var s' := Finish(s);
    forall k | 0 <= k < |s'.items| ensures ItemOk(s', s'.items[k]) { assert ItemOk(s, s.items[k + 1]); }
    forall k, l | 0 <= k < l < |s'.items| ensures SourcesApart(s'.items[k], s'.items[l]) {
      assert SourcesApart(s.items[k + 1], s.items[l + 1]);
    }
    forall k, l | 0 <= k < |s'.items| && 0 <= l < |s'.items| ensures SourceTargetApart(s'.items[k], s'.items[l]) {
      assert SourceTargetApart(s.items[k + 1], s.items[l + 1]);
    }
  }

  /** The load of a region falls by what the finished item accounted for there. */
  lemma FinishLoad(s: State, i: nat)
    requires Shape(s) && ItemsOk(s) && s.items != [] && i < |s.used|
    ensures var t := s.items[0]; var from, to := Region(t.src, s.size), Region(t.dest, s.size);
            && from < |s.used| && to < |s.used|
            && Load(Finish(s), i) + If(to == i, t.end - t.cursor) + If(from == i, t.cursor - t.dest) == Load(s, i)
  {
    var t := s.items[0];
    assert ItemOk(s, t);
    TailBytes(s.items, t, s.size, i, Region(t.src, s.size), Region(t.dest, s.size));
  }

  lemma FinishBounded(s: State)
    requires Shape(s) && ItemsOk(s) && Counted(s) && Bounded(s) && CanFinish(s)
    ensures Region(s.items[0].src, s.size) < |s.used| && Region(s.items[0].dest, s.size) < |s.used|
    ensures Bounded(Finish(s))
  {
    FinishFits(s);
    if s.items[0].len == s.size { WholeRegion(s); }
    var s' := Finish(s);
    forall i | 0 <= i < |s'.used| ensures BoundedAt(s', i) {
      assert BoundedAt(s, i);
      FinishLoad(s, i);
    }
  }

  lemma StoreBoth(s: State, i: nat, c: Counter, j: nat, d: Counter)
    requires Available(s) && i < |s.used| && j < |s.used| && i != j && !Empty(s.used[i]) && !Empty(s.used[j])
    ensures Available(Store(Store(s, i, c), j, d))
  {
    StoreAvailable(s, i, c);
    StoreAvailable(Store(s, i, c), j, d);
  }

  lemma FinishAvailable(s: State)
    requires Shape(s) && ItemsOk(s) && Counted(s) && Bounded(s) && CanFinish(s) && Available(s)
    ensures Region(s.items[0].src, s.size) < |s.used| && Region(s.items[0].dest, s.size) < |s.used|
    ensures Available(Finish(s))
  {
    FinishFits(s);
    var s1 := s.(items := s.items[1..]);
    SameAvailable(s, s1);
    var from, to, s' := Region(s.items[0].src, s.size), Region(s.items[0].dest, s.size), Finish(s);
    if from == to {
      StoreAvailable(s1, to, s'.used[to]);
    } else {
      StoreBoth(s1, from, s'.used[from], to, s'.used[to]);
    }
  }

  lemma FinishInv(s: State)
    requires Inv(s) && CanFinish(s)
    ensures Region(s.items[0].src, s.size) < |s.used| && Region(s.items[0].dest, s.size) < |s.used|
    ensures Inv(Finish(s))
  {
    FinishItems(s);
    FinishCounted(s);
    FinishBounded(s);
    FinishAvailable(s);
  }

  // ----- delayed frees

  function Tags(dead: seq<Chunk>): set<nat> { set d | d in dead :: d.tag }

  /** The marked regions are handed to the collector, to be freed after a grace period. */
  function Publish(s: State): State {
    s.(tokens := s.tokens + [Token(s.pending, s.size, Tags(s.dead))], queued := s.queued + s.pending, pending := {})
  }

  lemma PublishPromised(s: State, i: nat)
    ensures Promised(Publish(s), i) <==> Promised(s, i) || i in s.pending
  {
    var s' := Publish(s);
    if Promised(s, i) {
      var k :| 0 <= k < |s.tokens| && Current(s, s.tokens[k]) && i in s.tokens[k].mask;
      assert s'.tokens[k] == s.tokens[k];
    }
    if i in s.pending { assert i in s'.tokens[|s.tokens|].mask && Current(s', s'.tokens[|s.tokens|]); }
  }

  lemma PublishAvailable(s: State)
    requires Available(s)
    ensures Available(Publish(s))
  {
    var s' := Publish(s);
    forall i: nat ensures Promised(s', i) <==> Promised(s, i) || i in s.pending { PublishPromised(s, i); }
    assert forall i: nat :: EmptyRegion(s', i) <==> EmptyRegion(s, i);
    forall k, l | 0 <= k < l < |s'.tokens| && Current(s', s'.tokens[k]) && Current(s', s'.tokens[l])
      ensures s'.tokens[k].mask !! s'.tokens[l].mask
    {
      if l == |s.tokens| {
        forall i: nat | i in s.tokens[k].mask ensures i !in s.pending { assert Promised(s, i); }
      }
    }
  }

  lemma PublishInv(s: State)
    requires Inv(s)
    ensures Inv(Publish(s))
  {
    var s' := Publish(s);
    PublishAvailable(s);
    forall k | 0 <= k < |s.items| ensures ItemOk(s', s.items[k]) { assert ItemOk(s, s.items[k]); }
    forall i | 0 <= i < |s.used| ensures BoundedAt(s', i) { assert BoundedAt(s, i); }
    assert forall d :: 0 <= d < |s.dead| ==> s.dead[d] in s.dead;
  }

  /** A delayed free runs; it is ignored if the region size has changed since. */
  function Fire(s: State, k: nat): State
    requires k < |s.tokens|
  {
    var t, s1 := s.tokens[k], s.(tokens := Without(s.tokens, k));
    if t.size != s.size then s1 else s1.(queued := s.queued - t.mask, free := s.free + t.mask)
  }

  /** The grace period: the deallocations that were outstanding when it was queued are over. */
  predicate CanFire(s: State, k: nat) { k < |s.tokens| && s.tokens[k].waits !! Tags(s.dead) }

  /** No region is freed twice: those of a delayed free are empty and marked, and none is free already. */
  lemma NoDoubleFree(s: State, k: nat)
    requires Inv(s) && k < |s.tokens| && Current(s, s.tokens[k])
    ensures s.tokens[k].mask !! s.free && s.tokens[k].mask <= s.queued
    ensures forall i :: i in s.tokens[k].mask ==> EmptyRegion(s, i)
  {
    forall i: nat | i in s.tokens[k].mask ensures i !in s.free && i in s.queued && EmptyRegion(s, i) {
      assert Promised(s, i);
    }
  }

  lemma FireKeeps(s: State, k: nat, i: nat)
    requires k < |s.tokens| && Promised(s, i) && !(Current(s, s.tokens[k]) && i in s.tokens[k].mask)
    ensures Promised(Fire(s, k), i)
  {
    var l :| 0 <= l < |s.tokens| && Current(s, s.tokens[l]) && i in s.tokens[l].mask;
    assert s.tokens[l] == Fire(s, k).tokens[if l < k then l else l - 1];
  }

  lemma FirePromised(s: State, k: nat, i: nat)
    requires Available(s) && k < |s.tokens| && Promised(Fire(s, k), i)
    ensures Promised(s, i) && !(Current(s, s.tokens[k]) && i in s.tokens[k].mask)
  {
    var s' := Fire(s, k);
    var l :| 0 <= l < |s'.tokens| && Current(s', s'.tokens[l]) && i in s'.tokens[l].mask;
    var l' := if l < k then l else l + 1;
    assert s'.tokens[l] == s.tokens[l'];
    if Current(s, s.tokens[k]) {
      assert if l' < k then s.tokens[l'].mask !! s.tokens[k].mask else s.tokens[k].mask !! s.tokens[l'].mask;
    }
  }

  lemma FireAvailable(s: State, k: nat)
    requires Inv(s) && k < |s.tokens|
    ensures Available(Fire(s, k))
  {
    var s' := Fire(s, k);
    forall i: nat ensures Promised(s', i) <==> Promised(s, i) && !(Current(s, s.tokens[k]) && i in s.tokens[k].mask) {
      if Promised(s', i) { FirePromised(s, k, i); }
      if Promised(s, i) && !(Current(s, s.tokens[k]) && i in s.tokens[k].mask) { FireKeeps(s, k, i); }
    }
    if Current(s, s.tokens[k]) { NoDoubleFree(s, k); }
    assert forall i: nat :: EmptyRegion(s', i) <==> EmptyRegion(s, i);
    assert forall i: nat :: Current(s, s.tokens[k]) && i in s.tokens[k].mask ==> Promised(s, i);
    forall a, b | 0 <= a < b < |s'.tokens| && Current(s', s'.tokens[a]) && Current(s', s'.tokens[b])
      ensures s'.tokens[a].mask !! s'.tokens[b].mask
    {
      assert s'.tokens[a] == s.tokens[if a < k then a else a + 1]
        && s'.tokens[b] == s.tokens[if b < k then b else b + 1];
    }
  }

  lemma FireInv(s: State, k: nat)
    requires Inv(s) && CanFire(s, k)
    ensures Inv(Fire(s, k))
  {
    var s' := Fire(s, k);
    FireAvailable(s, k);
    forall j | 0 <= j < |s.items| ensures ItemOk(s', s.items[j]) { assert ItemOk(s, s.items[j]); }
    forall i | 0 <= i < |s.used| ensures BoundedAt(s', i) { assert BoundedAt(s, i); }
    FireQuiet(s, k);
  }

  lemma FireQuiet(s: State, k: nat)
    requires Shape(s) && Quiet(s) && CanFire(s, k)
    ensures Quiet(Fire(s, k))
  {
    var s' := Fire(s, k);
    forall d | 0 <= d < |s.dead|
      ensures Region(s.dead[d].off, s.size) !in s'.free
      ensures forall l ::
              0 <= l < |s'.tokens| && Current(s', s'.tokens[l])
                && Region(s.dead[d].off, s.size) in s'.tokens[l].mask ==>
                s.dead[d].tag in s'.tokens[l].waits
    {
      assert s.dead[d] in s.dead && s.dead[d].tag in Tags(s.dead);
      forall l | 0 <= l < |s'.tokens| && Current(s', s'.tokens[l]) && Region(s.dead[d].off, s.size) in s'.tokens[l].mask
        ensures s.dead[d].tag in s'.tokens[l].waits
      {
        assert s'.tokens[l] == s.tokens[if l < k then l else l + 1];
      }
    }
  }
}
