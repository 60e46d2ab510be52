/** The slots of the evacuation queue. A slot counts as free once its source has been walked and its reserved range
    is full, which is before the evacuation in it has been accounted for. */
module RegionSlots {
  import opened Leb128
  import opened RegionChunks
  import opened RegionState
  import opened RegionSwitch

  // ----- counters as words

  const WRITE := 0x1_0000_0000_0000
  const CLEAR := 0x100_0000_0000_0000
  const WORD := 0x1_0000_0000_0000_0000

  /** The word that the parts of a counter are packed into, and the other way round. */
  function Word(c: Counter): nat { c.bytes + c.writes * WRITE + c.clears * CLEAR }

  function Parts(w: nat): Counter { Counter(w % WRITE, w / WRITE % 256, w / CLEAR % 256) }

  /** A subtraction on the word: what does not fit is borrowed from the parts above. */
  function Minus(c: Counter, x: int): Counter { Parts((Word(c) - x) % WORD) }

  predicate InWord(c: Counter) { c.bytes < WRITE && c.writes < 256 && c.clears < 256 }

  lemma PartsOfWord(c: Counter)
    requires InWord(c)
    ensures Parts(Word(c)) == c && Word(c) < WORD
  {
    var w := Word(c);
    assert w / WRITE == c.writes + 256 * c.clears;
    assert w / CLEAR == c.clears;
  }

  /** What fits is subtracted from its part. */
  lemma MinusFits(c: Counter, bytes: nat, writes: nat, clears: nat)
    requires InWord(c) && bytes <= c.bytes && writes <= c.writes && clears <= c.clears
    ensures Minus(c, bytes + writes * WRITE + clears * CLEAR)
            == Counter(c.bytes - bytes, c.writes - writes, c.clears - clears)
  {
    var d := Counter(c.bytes - bytes, c.writes - writes, c.clears - clears);
    PartsOfWord(d);
    assert Word(c) - (bytes + writes * WRITE + clears * CLEAR) == Word(d);
  }

  // ----- slots

  datatype Slot = Slot(src: nat, srcEnd: nat, dest: nat, destEnd: nat)

  predicate InUse(slot: Slot) { slot.srcEnd > slot.src || slot.destEnd > slot.dest }

  /** The slot of an evacuation whose walk has come to `at`. */
  function SlotOf(t: Item, at: nat): Slot { Slot(at, t.src + t.len, t.cursor, t.end) }

  function Place(base: nat, k: nat): (i: nat)
    ensures i < MAX_QUEUE
  {
    (base + k) % MAX_QUEUE
  }

  lemma PlacesApart(base: nat, k: nat, l: nat)
    requires base < MAX_QUEUE && k < MAX_QUEUE && l < MAX_QUEUE && k != l
    ensures Place(base, k) != Place(base, l)
  {}

  /** The slots from `base` on hold the queue; the walk of its front has come to `at`. */
  predicate Holds(slots: seq<Slot>, base: nat, items: seq<Item>, at: nat) {
    && |slots| == MAX_QUEUE && base < MAX_QUEUE && |items| <= MAX_QUEUE
    && (forall k :: 0 <= k < |items| ==> slots[Place(base, k)] == SlotOf(items[k], WalkOf(items, k, at)))
    && (forall k :: |items| <= k < MAX_QUEUE ==> !InUse(slots[Place(base, k)]))
  }

  function WalkOf(items: seq<Item>, k: nat, at: nat): nat
    requires k < |items|
  {
    if k == 0 then at else items[k].src
  }

  /** The front has been walked, and its range is full. */
  predicate Over(items: seq<Item>, at: nat) {
    items != [] && at >= items[0].src + items[0].len && items[0].cursor >= items[0].end
  }

  /** The slot for the next item is free if and only if there are fewer items than slots, or the front is walked and
      full. */
  lemma FreeExactly(slots: seq<Slot>, base: nat, items: seq<Item>, at: nat)
    requires Holds(slots, base, items, at)
    ensures !InUse(slots[Place(base, |items|)]) <==> |items| < MAX_QUEUE || Over(items, at)
  {
    if |items| == MAX_QUEUE { assert slots[Place(base, 0)] == SlotOf(items[0], at); }
  }

  lemma PushHolds(slots: seq<Slot>, base: nat, items: seq<Item>, at: nat, t: Item)
    requires Holds(slots, base, items, at) && |items| < MAX_QUEUE
    ensures var at' := if items == [] then t.src else at;
            Holds(slots[Place(base, |items|) := SlotOf(t, t.src)], base, items + [t], at')
  {
    var n := |items|;
    var i := Place(base, n);
    forall k | 0 <= k < MAX_QUEUE && k != n ensures Place(base, k) != i { PlacesApart(base, k, n); }
  }

  lemma PopHolds(slots: seq<Slot>, base: nat, items: seq<Item>, at: nat, slot: Slot, next: nat)
    requires Holds(slots, base, items, at) && items != [] && !InUse(slot) && (|items| > 1 ==> next == items[1].src)
    ensures Holds(slots[base := slot], Place(base, 1), items[1..], next)
  {
    var slots', base', rest := slots[base := slot], Place(base, 1), items[1..];
    forall k | 0 <= k < MAX_QUEUE
      ensures Place(base', k) == Place(base, k + 1) && (Place(base', k) == base <==> k == MAX_QUEUE - 1) {}
    forall k | 0 <= k < |rest| ensures slots'[Place(base', k)] == SlotOf(rest[k], WalkOf(rest, k, next)) {
      assert slots[Place(base, k + 1)] == SlotOf(items[k + 1], WalkOf(items, k + 1, at));
    }
    forall k | |rest| <= k < MAX_QUEUE ensures !InUse(slots'[Place(base', k)]) {
      if k < MAX_QUEUE - 1 { assert !InUse(slots[Place(base, k + 1)]); }
    }
  }

  /** The front goes on. */
  lemma AdvanceHolds(slots: seq<Slot>, base: nat, items: seq<Item>, at: nat, at': nat, cursor: nat)
    requires Holds(slots, base, items, at) && items != []
    ensures Holds(slots[base := slots[base].(src := at', dest := cursor)], base,
                  items[0 := items[0].(cursor := cursor)], at')
  {
    assert Place(base, 0) == base && slots[Place(base, 0)] == SlotOf(items[0], at);
    forall k | 1 <= k < MAX_QUEUE ensures Place(base, k) != base { PlacesApart(base, k, 0); }
  }

  /** The slots, the position of the next item and that of the next evacuation, with the queue that they stand for.
      The front is `running` once it has been taken, and `over` is the item that has taken its slot, if one has. */
  datatype Ring = Ring(slots: seq<Slot>, pos: nat, front: nat, items: seq<Item>, base: nat, running: bool, at: nat,
                       over: Option<Item>)

  predicate RingOk(q: Ring) {
    && (q.items == [] ==> !q.running) && (q.items != [] && !q.running ==> q.at == q.items[0].src)
    && (forall k :: 0 <= k < |q.items| ==> q.items[k].len > 0)
    && q.front == (if q.running then Place(q.base, 1) else q.base) && q.base < MAX_QUEUE && |q.slots| == MAX_QUEUE
    && match q.over
       case None => Holds(q.slots, q.base, q.items, q.at) && q.pos == Place(q.base, |q.items|)
       case Some(u) => q.running && |q.items| == MAX_QUEUE && q.slots[q.base] == SlotOf(u, u.src)
                       && q.pos == Place(q.base, 1)
  }

  /** The item is written in the slot for the next one, whatever was there. */
  function Fill(q: Ring, t: Item): Ring
    requires q.pos < |q.slots|
  {
    var q' := q.(slots := q.slots[q.pos := Slot(t.src, t.src + t.len, t.dest, t.end)],
                 pos := (q.pos + 1) % MAX_QUEUE);
    if |q.items| < MAX_QUEUE then q'.(items := q.items + [t], at := if q.items == [] then t.src else q.at)
    else q'.(over := Some(t))
  }

  /** The slot is free if and only if there are fewer items than slots, or the front is walked and full. */
  lemma RingFree(q: Ring)
    requires RingOk(q) && q.over.None?
    ensures q.pos < |q.slots|
    ensures !InUse(q.slots[q.pos]) <==> |q.items| < MAX_QUEUE || (q.running && Over(q.items, q.at))
  {
    FreeExactly(q.slots, q.base, q.items, q.at);
  }

  lemma FillOk(q: Ring, t: Item)
    requires RingOk(q) && q.over.None? && q.pos < |q.slots| && !InUse(q.slots[q.pos])
    requires t.cursor == t.dest && t.len > 0
    ensures RingOk(Fill(q, t))
  {
    if |q.items| < MAX_QUEUE { FillMore(q, t); } else { FillLast(q, t); }
  }

  lemma FillMore(q: Ring, t: Item)
    requires RingOk(q) && q.over.None? && q.pos < |q.slots| && |q.items| < MAX_QUEUE && t.cursor == t.dest && t.len > 0
    ensures RingOk(Fill(q, t))
  {
    PushHolds(q.slots, q.base, q.items, q.at, t);
    NextPlace(q.base, |q.items|);
  }

  lemma FillLast(q: Ring, t: Item)
    requires RingOk(q) && q.over.None? && q.pos < |q.slots| && |q.items| == MAX_QUEUE && !InUse(q.slots[q.pos])
             && t.cursor == t.dest
    ensures RingOk(Fill(q, t))
  {
    RingFree(q);
    NextPlace(q.base, |q.items|);
  }

  lemma NextPlace(base: nat, k: nat)
    requires base < MAX_QUEUE && k <= MAX_QUEUE
    ensures (Place(base, k) + 1) % MAX_QUEUE == Place(base, k + 1)
    ensures k == MAX_QUEUE ==> Place(base, k) == base && Place(base, k + 1) == Place(base, 1)
  {}

  /** The slot at the front is in use if and only if the queue is not empty; the position moves on if it is. */
  lemma RingTake(q: Ring)
    requires RingOk(q) && q.over.None? && !q.running
    ensures q.front == q.base < |q.slots| && (InUse(q.slots[q.front]) <==> q.items != [])
    ensures q.items == [] ==> q.front == q.pos
    ensures q.items != [] ==> RingOk(q.(front := (q.front + 1) % MAX_QUEUE, running := true))
  {
    if q.items != [] {
      assert q.slots[Place(q.base, 0)] == SlotOf(q.items[0], WalkOf(q.items, 0, q.at));
    } else {
      assert !InUse(q.slots[Place(q.base, 0)]);
    }
    NextPlace(q.base, 0);
  }

  /** The front is given up, and its slot is left as `slot`. */
  function Drop(q: Ring, slot: Slot, left: seq<Item>): Ring
    requires q.items != [] && q.base < |q.slots|
  {
    q.(slots := q.slots[q.base := slot], items := q.items[1..] + left, at := if |q.items| > 1 then q.items[1].src
                                                                             else 0,
       base := Place(q.base, 1), running := false, over := None)
  }

  /** What is in the slot of the front. */
  lemma FrontSlot(q: Ring)
    requires RingOk(q) && q.running
    ensures q.items != [] && q.base < |q.slots|
    ensures q.slots[q.base] == if q.over.None? then SlotOf(q.items[0], q.at) else SlotOf(q.over.value, q.over.value.src)
  {
    if q.over.None? { assert q.slots[Place(q.base, 0)] == SlotOf(q.items[0], WalkOf(q.items, 0, q.at)); }
  }

  lemma DropOk(q: Ring, slot: Slot)
    requires RingOk(q) && q.running && q.over.None? && !InUse(slot)
    ensures RingOk(Drop(q, slot, []))
  {
    var q' := Drop(q, slot, []);
    PopHolds(q.slots, q.base, q.items, q.at, slot, q'.at);
    assert q'.items == q.items[1..];
    forall k | 0 <= k < |q'.items| ensures q'.items[k].len > 0 { assert q'.items[k] == q.items[k + 1]; }
    assert q.pos == Place(Place(q.base, 1), |q.items| - 1);
  }

  // ----- an item that takes the slot of the front

  function NewItem(s: State, r: nat): Item
    requires r < |s.used|
  {
    Item(r * s.size, s.size, s.pos, s.pos, s.pos + s.used[r].bytes)
  }

  /** The range is reserved as ever, but the queue stays as it is. */
  function QueueOver(s: State, r: nat): State
    requires r < |s.used| && s.cur < |s.used|
  {
    Queue(s, r).(items := s.items)
  }

  /** What is left of the range that is written up to `end`, as the slot says. */
  function Excess(slot: Slot, end: nat): nat { (slot.destEnd - end) % WORD }

  function SourceAfter(c: Counter, slot: Slot, size: nat, src: nat, moved: int): Counter {
    if slot.src - src == size then Counter(0, 0, 0) else Minus(c, CLEAR + moved)
  }

  function TargetAfter(c: Counter, slot: Slot, end: nat): Counter { Minus(c, WRITE + Excess(slot, end)) }

  /** The counters of source and target are written, in this order. */
  function StoreBoth(s: State, from: nat, source: Counter, to: nat, target: Counter): State
    requires from < |s.used| && to < |s.used|
  {
    Store(Store(s, from, source), to, target)
  }

  /** The accounting of an evacuation from `src` to `dest`, of which `end` is written, from what the slot says. */
  function Settle(s: State, slot: Slot, src: nat, dest: nat, end: nat): State
    requires s.size > 0 && Region(src, s.size) < |s.used| && Region(dest, s.size) < |s.used|
  {
    var from, to := Region(src, s.size), Region(dest, s.size);
    StoreBoth(s, from, SourceAfter(s.used[from], slot, s.size, src, end - dest), to,
              TargetAfter(s.used[to], slot, end))
  }

  /** What becomes of the slot. */
  function SettleSlot(slot: Slot, size: nat, src: nat, end: nat): Slot {
    Slot(if slot.src - src == size then slot.src else slot.srcEnd, slot.srcEnd,
         if Excess(slot, end) == 0 then slot.dest else slot.destEnd, slot.destEnd)
  }

  /** The counters of source and target have what is subtracted. */
  predicate Settles(s: State)
    requires s.size > 0 && s.items != []
    requires Region(s.items[0].src, s.size) < |s.used| && Region(s.items[0].dest, s.size) < |s.used|
  {
    var t := s.items[0];
    var from, to := Region(t.src, s.size), Region(t.dest, s.size);
    && t.dest <= t.cursor <= t.end && InWord(s.used[from]) && InWord(s.used[to])
    && t.end - t.cursor <= s.used[to].bytes && 1 <= s.used[to].writes
    && t.cursor - t.dest <= s.used[from].bytes && 1 <= s.used[from].clears
    && t.len <= s.size && (t.len == s.size ==> from != to)
  }

  lemma SourceFits(c: Counter, t: Item, size: nat)
    requires InWord(c) && t.dest <= t.cursor && t.cursor - t.dest <= c.bytes && 1 <= c.clears
    ensures SourceAfter(c, SlotOf(t, t.src + t.len), size, t.src, t.cursor - t.dest)
            == if t.len == size then Counter(0, 0, 0)
               else Counter(c.bytes - (t.cursor - t.dest), c.writes, c.clears - 1)
  {
    MinusFits(c, t.cursor - t.dest, 0, 1);
  }

  lemma TargetFits(c: Counter, t: Item)
    requires InWord(c) && t.cursor <= t.end && t.end - t.cursor <= c.bytes && 1 <= c.writes
    ensures TargetAfter(c, SlotOf(t, t.src + t.len), t.cursor)
            == Counter(c.bytes - (t.end - t.cursor), c.writes - 1, c.clears)
  {
    assert Excess(SlotOf(t, t.src + t.len), t.cursor) == t.end - t.cursor;
    MinusFits(c, t.end - t.cursor, 1, 0);
  }

  /** When source and target are one region, the counter of the source is written first, and does not become
      empty. */
  lemma BothFinish(s: State, source: Counter, target: Counter)
    requires s.size > 0 && s.items != []
    requires Region(s.items[0].src, s.size) < |s.used| && Region(s.items[0].dest, s.size) < |s.used| && Settles(s)
    requires var t, c := s.items[0], s.used[Region(s.items[0].src, s.size)];
             source == if t.len == s.size then Counter(0, 0, 0)
                       else Counter(c.bytes - (t.cursor - t.dest), c.writes, c.clears - 1)
    requires var t, c := s.items[0], s.used[Region(s.items[0].dest, s.size)];
             target == Counter(c.bytes - (t.end - t.cursor), c.writes - 1, c.clears)
    ensures var t := s.items[0];
            StoreBoth(s.(items := s.items[1..]), Region(t.src, s.size), source, Region(t.dest, s.size), target)
            == Finish(s)
  {
    var t := s.items[0];
    var from, to := Region(t.src, s.size), Region(t.dest, s.size);
    if from == to { assert source.writes >= 1 && s.used[from := source][to := target] == s.used[to := target]; }
  }

  /** With the slot of the front this is the end of its evacuation. */
  lemma SettleFinishes(s: State)
    requires s.size > 0 && s.items != []
    requires Region(s.items[0].src, s.size) < |s.used| && Region(s.items[0].dest, s.size) < |s.used|
    requires Settles(s)
    ensures var t := s.items[0];
            Settle(s.(items := s.items[1..]), SlotOf(t, t.src + t.len), t.src, t.dest, t.cursor) == Finish(s)
  {
    var t := s.items[0];
    var c, d := s.used[Region(t.src, s.size)], s.used[Region(t.dest, s.size)];
    SourceFits(c, t, s.size);
    TargetFits(d, t);
    BothFinish(s, SourceAfter(c, SlotOf(t, t.src + t.len), s.size, t.src, t.cursor - t.dest),
               TargetAfter(d, SlotOf(t, t.src + t.len), t.cursor));
  }

  lemma SettledSlot(t: Item, size: nat)
    requires t.cursor <= t.end && t.end - t.cursor < WORD
    ensures !InUse(SettleSlot(SlotOf(t, t.src + t.len), size, t.src, t.cursor))
  {}

  /** What is left of the item in the slot, which is taken for the one that was evacuated. */
  function Remains(s: State, t: Item, u: Item): seq<Item> {
    var slot := SettleSlot(SlotOf(u, u.src), s.size, t.src, t.cursor);
    if InUse(slot) then [Item(slot.src, slot.srcEnd - slot.src, slot.dest, slot.dest, slot.destEnd)] else []
  }

  /** The accounting goes on with the end and the source of the item that is now in the slot. */
  function FinishOver(s: State, u: Item): State
    requires s.size > 0 && s.items != []
    requires Region(s.items[0].src, s.size) < |s.used| && Region(s.items[0].dest, s.size) < |s.used|
  {
    var t := s.items[0];
    Settle(s.(items := s.items[1..] + Remains(s, t, u)), SlotOf(u, u.src), t.src, t.dest, t.cursor)
  }

  /** The items that are left when the evacuation of the front is over. */
  function Left(s: State, over: Option<Item>): seq<Item>
    requires s.items != []
  {
    if over.None? then [] else Remains(s, s.items[0], over.value)
  }

  lemma SettleEnds(s: State, slot: Slot, over: Option<Item>)
    requires s.size > 0 && s.items != []
    requires Region(s.items[0].src, s.size) < |s.used| && Region(s.items[0].dest, s.size) < |s.used|
    requires var t := s.items[0];
             slot == if over.None? then SlotOf(t, t.src + t.len) else SlotOf(over.value, over.value.src)
    requires over.None? ==> Settles(s)
    ensures var t := s.items[0];
            Settle(s, slot, t.src, t.dest, t.cursor).(items := s.items[1..] + Left(s, over))
            == if over.None? then Finish(s) else FinishOver(s, over.value)
  {
    var t, rest := s.items[0], s.items[1..] + Left(s, over);
    assert Settle(s.(items := rest), slot, t.src, t.dest, t.cursor)
           == Settle(s, slot, t.src, t.dest, t.cursor).(items := rest);
    if over.None? {
      assert rest == s.items[1..];
      SettleFinishes(s);
    }
  }

  /** The accounting of the front from what its slot holds, and the slots afterwards. */
  lemma FrontEnds(s: State, q: Ring)
    requires RingOk(q) && q.running && q.items == s.items && s.size > 0
    requires q.at == q.items[0].src + q.items[0].len
    requires Region(s.items[0].src, s.size) < |s.used| && Region(s.items[0].dest, s.size) < |s.used|
    requires q.over.None? ==> Settles(s)
    ensures q.base < |q.slots|
    ensures var t := s.items[0];
            Settle(s, q.slots[q.base], t.src, t.dest, t.cursor).(items := s.items[1..] + Left(s, q.over))
            == if q.over.None? then Finish(s) else FinishOver(s, q.over.value)
    ensures q.over.None? ==>
              RingOk(Drop(q, SettleSlot(q.slots[q.base], s.size, s.items[0].src, s.items[0].cursor), Left(s, q.over)))
  {
    FrontSlot(q);
    SettleEnds(s, q.slots[q.base], q.over);
    if q.over.None? {
      SettledSlot(q.items[0], s.size);
      DropOk(q, SettleSlot(q.slots[q.base], s.size, s.items[0].src, s.items[0].cursor));
    }
  }

  /** After a push the queue accounts for the pending writes if and only if there were fewer items than slots. */
  lemma PushExactly(s: State, r: nat)
    requires Inv(s) && Reservable(s, r) && |s.items| <= MAX_QUEUE
    ensures |s.items| < MAX_QUEUE ==> Inv(Queue(s, r))
    ensures !Counted(QueueOver(s, r))
  {
    if |s.items| < MAX_QUEUE { QueueInv(s, r); }
    var s' := QueueOver(s, r);
    assert s'.used[s.cur].writes == s.used[s.cur].writes + 1;
  }
}
