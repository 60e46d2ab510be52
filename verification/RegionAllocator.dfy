/** The operations of the region allocator, updating its fields in place, and the loops of selection,
    evacuation and filling. */
module RegionAllocator {
  import opened Leb128
  import opened RegionChunks
  import opened RegionState
  import opened RegionSwitch
  import opened RegionSlots
  import opened RegionTiles
  import opened RegionWalk

  // ----- choosing regions to evacuate

  predicate Candidate(s: State, i: nat)
    requires i < |s.used|
  {
    Word(s.used[i]) != 0 && i !in s.pending && i !in s.queued && Word(s.used[i]) <= s.size / 2
  }

  /** The scan in index order that takes a region whenever it still fits into half a region. */
  function Greedy(s: State, n: nat): (r: (set<nat>, nat))
    requires n <= |s.used|
    ensures forall i :: i in r.0 ==> i < n
  {
    if n == 0 then ({}, 0)
    else
      var (chosen, total) := Greedy(s, n - 1);
      var w := Word(s.used[n - 1]);
      if Candidate(s, n - 1) && total + w <= s.size / 2 then (chosen + {n - 1}, total + w) else (chosen, total)
  }

  function Total(s: State, n: nat, chosen: set<nat>): nat
    requires n <= |s.used|
  {
    if n == 0 then 0 else Total(s, n - 1, chosen) + (if n - 1 in chosen then Word(s.used[n - 1]) else 0)
  }

  lemma {:induction false} TotalOutside(s: State, n: nat, chosen: set<nat>, i: nat)
    requires n <= i && n <= |s.used|
    ensures Total(s, n, chosen + {i}) == Total(s, n, chosen) && Total(s, n, chosen - {i}) == Total(s, n, chosen)
  {
    if n > 0 { TotalOutside(s, n - 1, chosen, i); }
  }

  /** What is chosen are candidates, and together they fill at most half a region. */
  lemma {:induction false} GreedyFits(s: State, n: nat)
    requires n <= |s.used|
    ensures var (chosen, total) := Greedy(s, n);
            total == Total(s, n, chosen) && total <= s.size / 2 && forall i :: i in chosen ==> Candidate(s, i)
  {
    if n > 0 {
      GreedyFits(s, n - 1);
      var (chosen, _) := Greedy(s, n - 1);
      TotalOutside(s, n - 1, chosen, n - 1);
    }
  }

  /** A region that is left out would not have fitted. */
  lemma {:induction false} GreedyMaximal(s: State, n: nat, i: nat)
    requires i < n <= |s.used| && Candidate(s, i) && i !in Greedy(s, n).0
    ensures Greedy(s, i).1 + Word(s.used[i]) > s.size / 2
  {
    if i < n - 1 { GreedyMaximal(s, n - 1, i); }
  }

  /** A candidate has no pending writes or clears, unless regions are as large as the word allows. */
  lemma CandidateIsIdle(s: State, i: nat)
    requires i < |s.used| && Candidate(s, i) && s.size < 2 * WRITE
    ensures s.used[i].writes == 0 && s.used[i].clears == 0 && s.used[i].bytes == Word(s.used[i]) > 0
  {}

  /** The heap is ordered by region index, so what it gives up is the region just added. */
  method PopLargest(heap: set<nat>) returns (m: nat)
    requires heap != {}
    ensures m in heap && forall i :: i in heap ==> i <= m
  {
    m :| m in heap;
    var rest := heap - {m};
    while rest != {}
      invariant m in heap && rest <= heap
      invariant forall i :: i in heap && i !in rest ==> i <= m
    {
      var i :| i in rest;
      if i > m { m := i; }
      rest := rest - {i};
    }
  }

  /** The first half of `queue_small_regions`: exactly the greedy scan in index order. */
  method SelectSmallRegions(s: State) returns (heap: set<nat>, total: nat)
    ensures (heap, total) == Greedy(s, |s.used|)
  {
    var threshold := s.size / 2;
    heap, total := {}, 0;
    for i := 0 to |s.used|
      invariant (heap, total) == Greedy(s, i) && total <= threshold
    {
      var w := Word(s.used[i]);
      if w != 0 && i !in s.pending && i !in s.queued && w <= threshold {
        ghost var before := heap;
        total, heap := total + w, heap + {i};
        if total > threshold {
          var m := PopLargest(heap);
          assert m == i;
          heap, total := heap - {m}, total - Word(s.used[m]);
          assert heap == before;
        }
      }
    }
  }

  lemma {:induction false} TotalRemove(s: State, n: nat, chosen: set<nat>, r: nat)
    requires r < n <= |s.used| && r in chosen
    ensures Total(s, n, chosen) == Total(s, n, chosen - {r}) + Word(s.used[r])
  {
    if r < n - 1 { TotalRemove(s, n - 1, chosen, r); } else { TotalOutside(s, n - 1, chosen, r); }
  }

  lemma {:induction false} TotalSame(s: State, s': State, n: nat, chosen: set<nat>)
    requires n <= |s.used| && |s'.used| == |s.used| && forall i :: i in chosen && i < n ==> s'.used[i] == s.used[i]
    ensures Total(s', n, chosen) == Total(s, n, chosen)
  {
    if n > 0 { TotalSame(s, s', n - 1, chosen); }
  }

  /** Regions that are still to be queued fit, idle and in use, into the first half of the current one. */
  predicate ToQueue(s: State, chosen: set<nat>) {
    && s.open && s.cur < |s.used| && s.pos + Total(s, |s.used|, chosen) <= s.cur * s.size + s.size / 2
    && forall i :: i in chosen ==>
       i < |s.used| && i != s.cur && s.used[i].writes == 0 && s.used[i].clears == 0 && s.used[i].bytes > 0
  }

  lemma QueueOne(s: State, chosen: set<nat>, r: nat)
    requires ToQueue(s, chosen) && r in chosen
    ensures Reservable(s, r) && ToQueue(Queue(s, r), chosen - {r}) && ToQueue(QueueOver(s, r), chosen - {r})
  {
    var s' := Queue(s, r);
    TotalRemove(s, |s.used|, chosen, r);
    TotalSame(s, s', |s.used|, chosen - {r});
    TotalSame(s, QueueOver(s, r), |s.used|, chosen - {r});
  }

  /** The second half of `queue_small_regions`: the ranges reserved for the chosen regions, in whatever order
      they are taken, together with an object of at most half a region stay within the current region. With as
      many items as slots a region is passed by, unless the slot of the front is `idle`: then the slot is taken. */
  method QueueChosen(s0: State, chosen: set<nat>, idle: bool) returns (s: State, clash: bool)
    requires Inv(s0) && ToQueue(s0, chosen)
    ensures s.open && s.cur == s0.cur && s.size == s0.size && s.live == s0.live
    ensures forall n :: 0 < n <= s.size / 2 ==> CanAllocate(s, n)
    ensures if clash then idle && |s.items| >= MAX_QUEUE else Inv(s)
  {
    s, clash := s0, false;
    var todo := chosen;
    while todo != {}
      invariant ToQueue(s, todo) && s.cur == s0.cur && s.size == s0.size && s.live == s0.live
      invariant if clash then idle && |s.items| >= MAX_QUEUE else Inv(s)
    {
      var r :| r in todo;
      QueueOne(s, todo, r);
      if |s.items| < MAX_QUEUE {
        QueueInv(s, r);
        s := Queue(s, r);
      } else if idle && !clash {
        s, clash := QueueOver(s, r), true;
      } else {
        TotalRemove(s, |s.used|, todo, r);
      }
      todo := todo - {r};
    }
  }

  /** After a switch, the greedy choice can be queued. */
  lemma GreedyToQueue(s: State)
    requires Inv(s) && s.open && s.pos == s.cur * s.size && s.size < 2 * WRITE
    ensures ToQueue(s, Greedy(s, |s.used|).0)
  {
    GreedyFits(s, |s.used|);
    var chosen := Greedy(s, |s.used|).0;
    forall i | i in chosen ensures i != s.cur && s.used[i].writes == 0 && s.used[i].clears == 0 && s.used[i].bytes > 0 {
      CandidateIsIdle(s, i);
    }
  }

  // ----- walking and filling memory

  /** What is left of a reserved range is filled. The guard of the loop over full-size fillers compares the
      wrong way round and never holds, so one header is written for all of it. */
  method FillExcess(end: nat, destEnd: nat) returns (at: nat, next: nat)
    requires end < destEnd && (destEnd - end) % 8 == 0
    ensures at == end && next == end + 8 + Capacity(destEnd - end - 8)
    ensures next == destEnd <==> destEnd - end <= FIELD
  {
    assert !(end > FIELD + destEnd);
    at, next := end, end + 8 + Capacity(destEnd - end - 8);
    FieldExactly(destEnd - end);
  }

  /** What became of an object during evacuation: it was no longer there, it was moved, or it was released
      between the copy and the move. */
  datatype Fate = Gone | Moved | Lost

  /** The bytes needed at once for what is copied, and those of what stays. */
  function Needed(p: TileMap, fates: nat -> Fate, xs: seq<nat>): nat {
    if xs == [] then 0
    else
      var x := xs[|xs| - 1];
      Needed(p, fates, xs[..|xs| - 1]) + (if x in p && !fates(x).Gone? then p[x] else 0)
  }

  function Copies(p: TileMap, fates: nat -> Fate, xs: seq<nat>): nat {
    if xs == [] then 0
    else
      var x := xs[|xs| - 1];
      Copies(p, fates, xs[..|xs| - 1]) + (if x in p && fates(x).Moved? then p[x] else 0)
  }

  lemma {:induction false} NeededGrows(p: TileMap, fates: nat -> Fate, xs: seq<nat>, i: nat)
    requires i <= |xs|
    ensures Needed(p, fates, xs[..i]) <= Needed(p, fates, xs) && Copies(p, fates, xs[..i]) <= Needed(p, fates, xs[..i])
    decreases |xs|
  {
    if i < |xs| {
      NeededGrows(p, fates, xs[..|xs| - 1], i);
      assert xs[..|xs| - 1][..i] == xs[..i];
    } else {
      assert xs[..i] == xs;
      if xs != [] {
        NeededGrows(p, fates, xs[..|xs| - 1], |xs| - 1);
        assert xs[..|xs| - 1][..|xs| - 1] == xs[..|xs| - 1];
      }
    }
  }

  /** `evacuate_region`: the walk from header to header, which packs copies from `dest` on. `begin` is where
      the walk stops: at the end, before an object for which there is no room, or, led by what is not a
      header, beyond the end. */
  method EvacuateRegion(p: TileMap, junk: nat -> nat, fates: nat -> Fate, lo: nat, hi: nat, dest0: nat, destEnd: nat)
    returns (dest: nat, begin: nat, visited: seq<nat>)
    requires lo <= hi && dest0 <= destEnd
    ensures Path(p, junk, visited + [begin]) && (visited + [begin])[0] == lo
            && forall x :: x in visited ==> lo <= x < hi
    ensures dest == dest0 + Copies(p, fates, visited) && dest <= destEnd
    ensures begin < hi ==> begin in p && !fates(begin).Gone? && p[begin] > destEnd - dest
    ensures begin < hi ==> Needed(p, fates, visited + [begin]) > destEnd - dest0
  {
    dest, begin, visited := dest0, lo, [];
    while begin < hi
      invariant Path(p, junk, visited + [begin]) && (visited + [begin])[0] == lo && lo <= begin
      invariant forall x :: x in visited ==> lo <= x < hi
      invariant dest == dest0 + Copies(p, fates, visited) && dest <= destEnd
      decreases hi - begin
    {
      var xs := visited + [begin];
      assert xs[..|visited|] == visited;
      NeededGrows(p, fates, visited, |visited|);
      assert visited[..|visited|] == visited;
      if begin in p && !fates(begin).Gone? {
        if p[begin] > destEnd - dest { return; }
        if fates(begin).Moved? { dest := dest + p[begin]; }
      }
      var next := begin + Jump(p, junk, begin);
      assert Path(p, junk, xs + [next]) by {
        forall i | 0 <= i < |xs| ensures (xs + [next])[i + 1] == (xs + [next])[i] + Jump(p, junk, (xs + [next])[i]) {
          if i < |xs| - 1 { assert xs[i + 1] == xs[i] + Jump(p, junk, xs[i]); }
        }
      }
      visited, begin := xs, next;
    }
  }

  /** If the pieces are no larger than a header can tell, and there is room for what is copied, the walk stops
      at the end, having come by everything in order. */
  lemma EvacuationComplete(p: TileMap, top: nat, junk: nat -> nat, fates: nat -> Fate, lo: nat, hi: nat, room: nat,
                           begin: nat, visited: seq<nat>)
    requires Tiles(p, top) && Even(p) && lo <= hi <= top && Bound(p, top, lo) && Bound(p, top, hi) && Small(p, lo, hi)
    requires Path(p, junk, visited + [begin]) && (visited + [begin])[0] == lo
             && forall x :: x in visited ==> lo <= x < hi
    requires begin < hi ==> Needed(p, fates, visited + [begin]) > room
    requires Needed(p, fates, Offsets(p, top, lo, hi)) <= room
    ensures begin == hi && visited + [begin] == Offsets(p, top, lo, hi)
  {
    var xs := visited + [begin];
    if begin < hi {
      forall i | 0 <= i < |xs| ensures xs[i] < hi { if i < |visited| { assert xs[i] in visited; } }
      PathPrefix(p, top, junk, lo, hi, xs);
      NeededGrows(p, fates, Offsets(p, top, lo, hi), |xs|);
    } else {
      forall i | 0 <= i < |xs| - 1 ensures xs[i] < hi { assert xs[i] in visited; }
      SmallWalk(p, top, junk, lo, hi, xs);
    }
  }

  /** A walk that has not come to the end is the beginning of one that does. */
  lemma {:induction false} PathPrefix(p: TileMap, top: nat, junk: nat -> nat, lo: nat, hi: nat, xs: seq<nat>)
    requires Tiles(p, top) && Even(p) && lo <= hi <= top && Bound(p, top, lo) && Bound(p, top, hi) && Small(p, lo, hi)
    requires |xs| > 0 && xs[0] == lo && Path(p, junk, xs) && forall i :: 0 <= i < |xs| ==> xs[i] < hi
    ensures |xs| <= |Offsets(p, top, lo, hi)| && xs == Offsets(p, top, lo, hi)[..|xs|]
    decreases hi - lo
  {
    assert xs[0] < hi;
    assert TileOk(p, top, lo);
    PieceEnds(p, top, lo, hi);
    FieldExactly(p[lo]);
    if |xs| > 1 {
      assert xs[0 + 1] == xs[0] + Jump(p, junk, xs[0]);
      var rest := xs[1..];
      forall i | 0 <= i < |rest| - 1 ensures rest[i + 1] == rest[i] + Jump(p, junk, rest[i]) {
        assert xs[i + 1 + 1] == xs[i + 1] + Jump(p, junk, xs[i + 1]);
      }
      PathPrefix(p, top, junk, lo + p[lo], hi, rest);
    }
  }

  // ----- the allocator

  class Allocator {
    var size: nat
    var used: seq<Counter>
    var cur: nat
    var pos: nat
    var free: set<nat>
    var pending: set<nat>
    var queued: set<nat>
    var slots: seq<Slot>
    var queuePos: nat
    var queueFront: nat
    /** The queue as its slots hold it, from `base` on. The front is `running` once it has been taken; its walk has
        come to `at`, and `over` is the item that has taken its slot, if one has. */
    ghost var items: seq<Item>
    ghost var base: nat
    ghost var running: bool
    ghost var at: nat
    ghost var over: Option<Item>
    ghost var open: bool
    ghost var live: seq<Chunk>
    ghost var dead: seq<Chunk>
    ghost var tokens: seq<Token>

    ghost function View(): State
      reads this
    {
      State(size, used, cur, pos, open, free, pending, queued, items, live, dead, tokens)
    }

    /** The queue with its slots. */
    ghost function Slots(): Ring
      reads this
    {
      Ring(slots, queuePos, queueFront, items, base, running, at, over)
    }

    constructor (initialSize: nat)
      ensures View() == Init(initialSize) && RingOk(Slots())
    {
      size, used, cur, pos := initialSize, [Counter(initialSize, 1, 0)], 0, 0;
      free, pending, queued := {}, {}, {};
      slots, queuePos, queueFront := seq(MAX_QUEUE, _ => Slot(0, 0, 0, 0)), 0, 0;
      items, base, running, at, over := [], 0, false, 0, None;
      open, live, dead, tokens := true, [], [], [];
    }

    /** `deallocate` for a region and a number of bytes. */
    method Subtract(region: nat, bytes: nat, writes: nat)
      requires region < |used|
               && (Empty(used[region]) || (bytes <= used[region].bytes && writes <= used[region].writes))
      modifies `used, `pending
      ensures View() == (if Empty(old(used[region])) then old(View())
                         else var c := old(used[region]);
                              Store(old(View()), region, Counter(c.bytes - bytes, c.writes - writes, c.clears)))
    {
      var c := used[region];
      if Word(c) != 0 {
        used := used[region := Counter(c.bytes - bytes, c.writes - writes, c.clears)];
        if Empty(used[region]) { pending := pending + {region}; }
      }
    }

    /** An object that was released before is deallocated. */
    method Free(ghost k: nat, offset: nat, bytes: nat)
      requires size > 0 && k < |dead| && dead[k].off == offset && dead[k].size == bytes && Region(offset, size) < |used|
      requires Empty(used[Region(offset, size)]) || bytes <= used[Region(offset, size)].bytes
      modifies `used, `pending, `dead
      ensures View() == Deallocate(old(View()), k)
    {
      Subtract(offset / size, bytes, 0);
      dead := Without(dead, k);
    }

    method GetFreeRegion() returns (r: Option<nat>)
      ensures r.Some? ==> r.value < |used| && r.value in free && forall i :: 0 <= i < r.value ==> i !in free
      ensures r.None? ==> forall i :: 0 <= i < |used| ==> i !in free
    {
      for i := 0 to |used|
        invariant forall j :: 0 <= j < i ==> j !in free
      {
        if i in free { return Some(i); }
      }
      r := None;
    }

    method DoubleRegionSize()
      modifies `size, `used
      ensures View() == old(View()).(size := 2 * old(size), used := Joined(old(used)))
    {
      var joined: seq<Counter> := [];
      for i := 0 to |used| / 2
        invariant |joined| == i && joined == Joined(used)[..i]
      {
        joined := joined + [Join(used[2 * i], used[2 * i + 1])];
      }
      size, used := 2 * size, joined;
    }

    /** After doubling, delayed frees are recomputed from the counters. */
    method ReevaluateFree()
      modifies `pending
      ensures View() == old(View()).(pending := set i: nat | i < |used| && Empty(used[i]) && i !in free)
    {
      pending := {};
      for i := 0 to |used|
        invariant pending == set j: nat | j < i && Empty(used[j]) && j !in free
        invariant View() == old(View()).(pending := pending)
      {
        if Word(used[i]) == 0 && i !in free { pending := pending + {i}; }
      }
    }

    /** The rest of the current region is given back. */
    method CloseRegion()
      requires cur < |used| && pos <= cur * size + size
      requires cur * size + size - pos <= used[cur].bytes && 1 <= used[cur].writes
      modifies `used, `pending, `open
      ensures View() == Close(old(View()))
    {
      var c := used[cur];
      Subtract(cur, cur * size + size - pos, 1);
      open := false;
    }

    method DoubleAndReevaluate()
      requires free == {}
      modifies `size, `used, `pending
      ensures View() == Double(old(View()))
    {
      DoubleRegionSize();
      ReevaluateFree();
      assert pending == set i: nat | i < |used| && Empty(used[i]);
    }

    /** `start_new_region`: the first free region, or else a new one at the end, after doubling if there are
        as many regions as there can be. */
    method StartNewRegion() returns (reused: Option<nat>)
      requires 0 < |used| <= MAX_REGIONS && forall i :: i in free ==> i < |used|
      modifies `size, `used, `cur, `pos, `free, `pending, `open
      ensures reused.Some? <==> old(free) != {}
      ensures reused.Some? ==>
              reused.value < |old(used)| && reused.value in old(free) && View() == Reuse(old(View()), reused.value)
      ensures reused.None? && |old(used)| < MAX_REGIONS ==> View() == Extend(old(View()))
      ensures reused.None? && |old(used)| == MAX_REGIONS ==> View() == Extend(Double(old(View())))
    {
      reused := GetFreeRegion();
      if reused.Some? {
        cur := reused.value;
        used, free := used[cur := Counter(size, 1, 0)], free - {cur};
      } else {
        assert free == {};
        if |used| == MAX_REGIONS { DoubleAndReevaluate(); }
        cur := |used|;
        used := used + [Counter(size, 1, 0)];
      }
      pos, open := cur * size, true;
    }

    /** The slot in which the new item is written is that of the front when there are as many items as slots. It is
        refused if and only if that slot is in use; otherwise the slot is filled, and the range reserved. */
    method PushQueue(r: nat) returns (ok: bool)
      requires r < |used| && cur < |used| && RingOk(Slots()) && over.None? && size > 0
      modifies `used, `items, `pos, `slots, `queuePos, `at, `over
      ensures ok <==> |old(items)| < MAX_QUEUE || (old(running) && Over(old(items), old(at)))
      ensures RingOk(Slots()) && Slots() == if ok then Fill(old(Slots()), NewItem(old(View()), r)) else old(Slots())
      ensures View() == if ok then Queue(old(View()), r).(items := items) else old(View())
    {
      RingFree(Slots());
      if InUse(slots[queuePos]) { return false; }
      FillOk(Slots(), NewItem(View(), r));
      PushItem(r);
      ok := true;
    }

    method PushItem(r: nat)
      requires r < |used| && cur < |used| && queuePos < |slots|
      modifies `used, `items, `pos, `slots, `queuePos, `at, `over
      ensures Slots() == Fill(old(Slots()), NewItem(old(View()), r))
      ensures View() == Queue(old(View()), r).(items := items)
    {
      var n := used[r].bytes;
      FillSlot(r * size, pos, n);
      pos := pos + n;
      used := used[r := used[r].(clears := used[r].clears + 1)];
      used := used[cur := used[cur].(writes := used[cur].writes + 1)];
    }

    method FillSlot(src: nat, dest: nat, n: nat)
      requires queuePos < |slots|
      modifies `items, `slots, `queuePos, `at, `over
      ensures Slots() == Fill(old(Slots()), Item(src, size, dest, dest, dest + n))
    {
      ghost var t := Item(src, size, dest, dest, dest + n);
      slots := slots[queuePos := Slot(src, src + size, dest, dest + n)];
      queuePos := (queuePos + 1) % MAX_QUEUE;
      if |items| < MAX_QUEUE {
        at := if items == [] then src else at;
        items := items + [t];
      } else {
        over := Some(t);
      }
    }

    /** The front of the queue is taken, and evacuated without the lock. */
    method TakeItem() returns (i: nat, found: bool)
      requires RingOk(Slots()) && !running && over.None?
      modifies `queueFront, `running
      ensures RingOk(Slots()) && View() == old(View()) && (found <==> items != []) && running == found
      ensures found ==> i == base
    {
      RingTake(Slots());
      i := queueFront;
      found := InUse(slots[i]);
      if queueFront != queuePos || found { queueFront := (queueFront + 1) % MAX_QUEUE; }
      running := found;
    }

    /** An object has been copied, or passed by. */
    method Advance(i: nat, begin: nat, dest: nat)
      requires RingOk(Slots()) && running && over.None? && i == base
      modifies `slots, `items, `at
      ensures RingOk(Slots())
      ensures at == begin && items == old(items)[0 := old(items)[0].(cursor := dest)]
    {
      AdvanceHolds(slots, base, items, at, begin, dest);
      slots := slots[i := slots[i].(src := begin, dest := dest)];
      items, at := items[0 := items[0].(cursor := dest)], begin;
    }

    /** The counters, in the order of the source: that of the target is read before that of the source is
        written. */
    method SettleCounters(slot: Slot, origSrc: nat, origDest: nat, end: nat)
      requires size > 0 && Region(origSrc, size) < |used| && Region(origDest, size) < |used|
      modifies `used, `pending
      ensures View() == Settle(old(View()), slot, origSrc, origDest, end)
    {
      var from, to := origSrc / size, origDest / size;
      var target := used[to];
      var extra, copied := (slot.destEnd - end) % WORD, end - origDest;
      var source := Minus(used[from], CLEAR + copied);
      if slot.src - origSrc == size { source := Counter(0, 0, 0); }
      used := used[from := source];
      if Empty(source) { pending := pending + {from}; }
      target := Minus(target, WRITE + extra);
      used := used[to := target];
      if Empty(target) { pending := pending + {to}; }
    }

    /** The accounting after an evacuation, from what the slot then holds. `end` is how far the range is written. If
        an item in the slot ends far before that, the loop over full-size fillers does not end. */
    method FinishEvacuation(i: nat, origSrc: nat, origDest: nat, end: nat)
      requires size > 0 && RingOk(Slots()) && running && i == base
      requires origSrc == items[0].src && origDest == items[0].dest && end == items[0].cursor
      requires at == items[0].src + items[0].len
      requires Region(origSrc, size) < |used| && Region(origDest, size) < |used|
      requires over.None? ==> Settles(View())
      requires over.Some? ==> end <= FIELD + over.value.end
      modifies `used, `pending, `items, `slots, `base, `running, `at, `over
      ensures over.None? && !running
      ensures old(over).None? ==> View() == Finish(old(View())) && RingOk(Slots())
      ensures old(over).Some? ==> View() == FinishOver(old(View()), old(over).value)
    {
      ghost var s, q := View(), Slots();
      FrontEnds(s, q);
      SettleCounters(slots[i], origSrc, origDest, end);
      ghost var s1 := View();
      FreeSlot(i, origSrc, end, Left(s, q.over));
      assert View() == s1.(items := s.items[1..] + Left(s, q.over));
    }

    /** The slot is given up, with what the accounting leaves of it. */
    method FreeSlot(i: nat, origSrc: nat, end: nat, ghost left: seq<Item>)
      requires items != [] && i == base && base < |slots|
      modifies `items, `slots, `base, `running, `at, `over
      ensures Slots() == Drop(old(Slots()), SettleSlot(old(slots)[i], size, origSrc, end), left)
    {
      var slot := slots[i];
      if (slot.destEnd - end) % WORD != 0 { slot := slot.(dest := slot.destEnd); }
      if slot.src - origSrc != size { slot := slot.(src := slot.srcEnd); }
      assert slot == SettleSlot(slots[i], size, origSrc, end);
      slots := slots[i := slot];
      at := if |items| > 1 then items[1].src else 0;
      items, base, running, over := items[1..] + left, Place(base, 1), false, None;
    }

    method QueueAvailable()
      modifies `pending, `queued, `tokens
      ensures View() == Publish(old(View()))
    {
      tokens := tokens + [Token(pending, size, Tags(dead))];
      queued, pending := queued + pending, {};
    }

    /** A delayed free runs: outdated ones are discarded. */
    method RunFree(ghost k: nat, mask: set<nat>, regionSize: nat)
      requires k < |tokens| && tokens[k].mask == mask && tokens[k].size == regionSize
      modifies `queued, `free, `tokens
      ensures View() == Fire(old(View()), k)
    {
      if size == regionSize {
        queued, free := queued - mask, free + mask;
      }
      tokens := Without(tokens, k);
    }
  }
}
