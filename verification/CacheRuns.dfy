/** The steps of the cache: what each does to the map from ids to bytes, and to what sessions read. */
module CacheRuns {
  import opened Leb128
  import opened RingPointer
  import opened Cache

  datatype Step =
    | Create(id: nat, loc: Loc, data: Bytes)      // allocation of a new object
    | Move(id: nat, loc: Loc)                     // by swap, by evacuation, or back to a hotter level
    | Release(id: nat)
    | Pad(level: nat, n: nat)                     // a dummy object at the end of a ring
    | Pass(level: nat)                            // `ring_allocator::swap` passes an object
    | SwapOut(level: nat)                         // the end of `ring_allocator::swap`
    | MakeFree(level: nat, k: nat)                // a delayed update of the end of free memory
    | Open(session: nat)
    | Acquire(session: nat, id: nat)              // a session reads the location of an object
    | Close(session: nat)
    | Grow(bytes: nat)                            // the cold file is extended

  predicate Enabled(s: State, step: Step) {
    match step
    case Create(id, loc, data) => id !in s.ids && Fresh(s, loc) && |data| == loc.size
    case Move(id, loc) => id in s.ids && LocIn(s, s.ids[id]) && Fresh(s, loc) && loc.size == s.ids[id].size
    case Release(id) => id in s.ids
    case Pad(level, n) =>
      level < |s.rings| && s.rings[level].alloc.off < |s.rings[level].mem| && CanPad(s.rings[level], n)
    case Pass(level) => CanPass(s, level)
    case SwapOut(level) => level < |s.rings| && s.rings[level].swap < s.rings[level].walk
    case MakeFree(level, k) =>
      level < |s.rings| && k < |s.rings[level].freed| && s.rings[level].freed[k].waits !! s.sessions
    case Open(session) => true
    case Acquire(session, id) => session in s.sessions && id in s.ids
    case Close(session) => true
    case Grow(_) => true
  }

  /** The object at the walk has been moved, or is dead: its id is not there. */
  predicate CanPass(s: State, level: nat) {
    && level < |s.rings| && s.rings[level].walk < At(s.rings[level].alloc, |s.rings[level].mem|)
    && s.rings[level].walk in s.rings[level].pieces && !LivesAt(s, level)
  }

  /** All objects of the range have been moved or are dead. */
  predicate CanSwapOut(s: State, level: nat, bytes: nat) {
    && level < |s.rings| && s.rings[level].swap + bytes <= At(s.rings[level].alloc, |s.rings[level].mem|)
    && forall id :: id in s.ids && s.ids[id].InRing? && s.ids[id].level == level ==>
         s.rings[level].swap + bytes <= At(s.ids[id].pos, |s.rings[level].mem|)
  }

  /** The walk has come by all that is alive between the last swap and where it is now. */
  lemma WalkFrees(s: State, level: nat)
    requires Inv(s) && level < |s.rings|
    ensures s.rings[level].swap <= s.rings[level].walk
            && CanSwapOut(s, level, s.rings[level].walk - s.rings[level].swap)
  {
    assert RingOk(s.rings[level]);
    forall id | id in s.ids && s.ids[id].InRing? && s.ids[id].level == level
      ensures s.rings[level].walk <= At(s.ids[id].pos, |s.rings[level].mem|) { assert Headed(s, id); }
  }

  function Without<T>(q: seq<T>, k: nat): seq<T>
    requires k < |q|
  {
    q[..k] + q[k + 1..]
  }

  function Others(held: seq<Held>, session: nat): (r: seq<Held>)
    ensures forall h :: h in r <==> h in held && h.session != session
  {
    if held == [] then []
    else Others(held[..|held| - 1], session) + (if held[|held| - 1].session != session then [held[|held| - 1]] else [])
  }

  function Next(s: State, step: Step): State
    requires Enabled(s, step)
  {
    match step
    case Create(id, loc, data) => var t := Store(s, loc, data, id); t.(ids := t.ids[id := loc])
    case Move(id, loc) => var t := Store(s, loc, Read(s, s.ids[id]), id); t.(ids := t.ids[id := loc])
    case Release(id) => s.(ids := s.ids - {id})
    case Pad(level, _) => s.(rings := s.rings[level := Cache.Pad(s.rings[level])])
    case Pass(level) => s.(rings := s.rings[level := Cache.Pass(s.rings[level])])
    case SwapOut(level) => s.(rings := s.rings[level := SwapRing(s.rings[level], s.sessions)])
    case MakeFree(level, k) =>
      var r := s.rings[level];
      s.(rings := s.rings[level := r.(end := r.end + r.freed[k].bytes, freed := Without(r.freed, k))])
    case Open(session) => s.(sessions := s.sessions + {session})
    case Acquire(session, id) => s.(held := s.held + [Held(session, s.ids[id])])
    case Close(session) => s.(sessions := s.sessions - {session}, held := Others(s.held, session))
    case Grow(bytes) => s.(cold := s.cold + seq(bytes, _ => 0))
  }

  predicate StepTo(s: State, step: Step, s': State) { Enabled(s, step) && s' == Next(s, step) }

  // ----- sums of freed bytes

  lemma SumsSnoc(freed: seq<Freed>, f: Freed, session: nat)
    ensures Outstanding(freed + [f]) == Outstanding(freed) + f.bytes
    ensures WaitingFor(freed + [f], session) == WaitingFor(freed, session) + (if session in f.waits then f.bytes else 0)
  {
    assert (freed + [f])[..|freed|] == freed;
  }

  lemma {:induction false} SumsWithout(freed: seq<Freed>, k: nat, session: nat)
    requires k < |freed|
    ensures Outstanding(Without(freed, k)) + freed[k].bytes == Outstanding(freed)
    ensures session !in freed[k].waits ==> WaitingFor(Without(freed, k), session) == WaitingFor(freed, session)
    decreases |freed|
  {
    var n := |freed| - 1;
    if k < n {
      assert Without(freed, k)[..n - 1] == Without(freed[..n], k);
      SumsWithout(freed[..n], k, session);
    } else {
      assert Without(freed, k) == freed[..n];
    }
  }

  // ----- the invariant is kept

  lemma SwapRingOk(r: Ring, sessions: set<nat>, session: nat)
    requires RingOk(r)
    ensures RingOk(SwapRing(r, sessions))
    ensures session in sessions ==>
              WaitingFor(SwapRing(r, sessions).freed, session) == WaitingFor(r.freed, session) + (r.walk - r.swap)
  {
    SumsSnoc(r.freed, Freed(r.walk - r.swap, sessions), session);
  }

  lemma SwapOutInv(s: State, level: nat)
    requires Inv(s) && Enabled(s, SwapOut(level))
    ensures Inv(Next(s, SwapOut(level)))
  {
    var s', r := Next(s, SwapOut(level)), s.rings[level];
    WalkFrees(s, level);
    assert RingOk(r);
    SwapRingOk(r, s.sessions, 0);
    forall k | 0 <= k < |s'.rings| ensures RingOk(s'.rings[k]) { assert RingOk(s.rings[k]); }
    forall id | id in s'.ids ensures LiveOk(s', s'.ids[id]) && Headed(s', id) {
      assert LiveOk(s, s.ids[id]) && Headed(s, id);
    }
    forall k | 0 <= k < |s'.held| ensures HeldOk(s', s'.held[k]) {
      assert HeldOk(s, s.held[k]);
      SwapRingOk(r, s.sessions, s.held[k].session);
    }
  }

  /** A ring is changed in such a way that what is live or read stays where it is. */
  lemma RingInv(s: State, level: nat, r': Ring)
    requires Inv(s) && level < |s.rings| && RingOk(r') && r'.mem == s.rings[level].mem && r'.swap == s.rings[level].swap
             && r'.freed == s.rings[level].freed
    requires At(s.rings[level].alloc, |r'.mem|) <= At(r'.alloc, |r'.mem|)
    requires forall id :: id in s.ids && s.ids[id].InRing? && s.ids[id].level == level ==> HeadIn(r', s.ids[id], id)
    ensures Inv(s.(rings := s.rings[level := r']))
  {
    var s' := s.(rings := s.rings[level := r']);
    forall k | 0 <= k < |s'.rings| ensures RingOk(s'.rings[k]) { assert RingOk(s.rings[k]); }
    forall id | id in s'.ids ensures LiveOk(s', s'.ids[id]) && Headed(s', id) {
      assert LiveOk(s, s.ids[id]) && Headed(s, id);
    }
    forall k | 0 <= k < |s'.held| ensures HeldOk(s', s'.held[k]) { assert HeldOk(s, s.held[k]); }
  }

  lemma PadInv(s: State, level: nat, n: nat)
    requires Inv(s) && Enabled(s, Pad(level, n))
    ensures Inv(Next(s, Pad(level, n)))
  {
    var r := s.rings[level];
    assert RingOk(r);
    PadOk(r, n);
    forall id | id in s.ids && s.ids[id].InRing? && s.ids[id].level == level
      ensures HeadIn(Cache.Pad(r), s.ids[id], id)
    {
      assert Headed(s, id);
      PadHead(r, s.ids[id], id);
    }
    RingInv(s, level, Cache.Pad(r));
  }

  lemma PassInv(s: State, level: nat)
    requires Inv(s) && Enabled(s, Pass(level))
    ensures Inv(Next(s, Pass(level)))
  {
    var r := s.rings[level];
    assert RingOk(r);
    PassOk(r);
    forall id | id in s.ids && s.ids[id].InRing? && s.ids[id].level == level
      ensures HeadIn(Cache.Pass(r), s.ids[id], id)
    {
      assert Headed(s, id);
      PassHead(r, s.ids[id], id);
    }
    RingInv(s, level, Cache.Pass(r));
  }

  lemma MakeFreeInv(s: State, level: nat, k: nat)
    requires Inv(s) && Enabled(s, MakeFree(level, k))
    ensures Inv(Next(s, MakeFree(level, k)))
  {
    var s', r := Next(s, MakeFree(level, k)), s.rings[level];
    forall j | 0 <= j < |s'.rings| ensures RingOk(s'.rings[j]) {
      assert RingOk(s.rings[j]);
      SumsWithout(r.freed, k, 0);
    }
    forall id | id in s'.ids ensures LiveOk(s', s'.ids[id]) && Headed(s', id) {
      assert LiveOk(s, s.ids[id]) && Headed(s, id);
    }
    forall j | 0 <= j < |s'.held| ensures HeldOk(s', s'.held[j]) {
      assert HeldOk(s, s.held[j]);
      SumsWithout(r.freed, k, s.held[j].session);
    }
  }

  lemma SameRingsInv(s: State, s': State)
    requires Inv(s) && s'.rings == s.rings && s'.cold == s.cold
    requires forall id :: id in s'.ids ==> id in s.ids && s'.ids[id] == s.ids[id]
    requires forall k :: 0 <= k < |s'.held| ==> s'.held[k].session in s'.sessions
    requires forall k :: 0 <= k < |s'.held| ==> s'.held[k] in s.held || s'.held[k].loc in s.ids.Values
    ensures Inv(s')
  {
    forall id | id in s'.ids ensures LiveOk(s', s'.ids[id]) && Headed(s', id) {
      assert LiveOk(s, s.ids[id]) && Headed(s, id);
    }
    forall k | 0 <= k < |s'.held| ensures HeldOk(s', s'.held[k]) {
      if s'.held[k] in s.held {
        var j :| 0 <= j < |s.held| && s.held[j] == s'.held[k];
        assert HeldOk(s, s.held[j]);
      } else {
        var id :| id in s.ids && s.ids[id] == s'.held[k].loc;
        assert LiveOk(s, s.ids[id]);
      }
    }
  }

  /** The new object has its header. */
  lemma StoreHeads(s: State, loc: Loc, data: Bytes, id: nat)
    requires Inv(s) && Fresh(s, loc) && |data| == loc.size
    ensures var t := Store(s, loc, data, id); Headed(t.(ids := t.ids[id := loc]), id)
  {
    if loc.InRing? { assert RingOk(s.rings[loc.level]); }
  }

  lemma PlaceInv(s: State, id: nat, loc: Loc, data: Bytes)
    requires Inv(s) && Fresh(s, loc) && |data| == loc.size
    ensures var t := Store(s, loc, data, id); Inv(t.(ids := t.ids[id := loc]))
  {
    var t := Store(s, loc, data, id);
    StoreInv(s, loc, data, id);
    var s' := t.(ids := t.ids[id := loc]);
    forall i | i in s'.ids ensures LiveOk(s', s'.ids[i]) && Headed(s', i) {
      if i != id { assert LiveOk(t, t.ids[i]) && Headed(t, i); } else { StoreHeads(s, loc, data, id); }
    }
    forall k | 0 <= k < |s'.held| ensures HeldOk(s', s'.held[k]) { assert HeldOk(t, t.held[k]); }
  }

  lemma NextInv(s: State, step: Step)
    requires Inv(s) && Enabled(s, step)
    ensures Inv(Next(s, step))
  {
    match step
    case Create(id, loc, data) => PlaceInv(s, id, loc, data);
    case Move(id, loc) => PlaceInv(s, id, loc, Read(s, s.ids[id]));
    case Pad(level, n) => PadInv(s, level, n);
    case Pass(level) => PassInv(s, level);
    case SwapOut(level) => SwapOutInv(s, level);
    case MakeFree(level, k) => MakeFreeInv(s, level, k);
    case Release(id) =>
      forall k | 0 <= k < |s.held| ensures s.held[k].session in s.sessions { assert HeldOk(s, s.held[k]); }
      SameRingsInv(s, Next(s, step));
    case Open(session) =>
      forall k | 0 <= k < |s.held| ensures s.held[k].session in s.sessions { assert HeldOk(s, s.held[k]); }
      SameRingsInv(s, Next(s, step));
    case Acquire(session, id) =>
      forall k | 0 <= k < |s.held| ensures s.held[k].session in s.sessions { assert HeldOk(s, s.held[k]); }
      assert s.ids[id] in s.ids.Values;
      SameRingsInv(s, Next(s, step));
    case Close(session) => CloseInv(s, session);
    case Grow(bytes) => GrowInv(s, bytes);
  }

  lemma GrowInv(s: State, bytes: nat)
    requires Inv(s)
    ensures Inv(Next(s, Grow(bytes)))
  {
    var s' := Next(s, Grow(bytes));
    forall id | id in s'.ids ensures LiveOk(s', s'.ids[id]) && Headed(s', id) {
      assert LiveOk(s, s.ids[id]) && Headed(s, id);
    }
    forall k | 0 <= k < |s'.held| ensures HeldOk(s', s'.held[k]) { assert HeldOk(s, s.held[k]); }
  }

  /** What is read in the file stays as it is. */
  lemma GrowReads(s: State, bytes: nat, l: Loc)
    requires LocIn(s, l)
    ensures LocIn(Next(s, Grow(bytes)), l) && Read(Next(s, Grow(bytes)), l) == Read(s, l)
  {}

  lemma GrowRefines(s: State, bytes: nat)
    requires forall id :: id in s.ids ==> LocIn(s, s.ids[id])
    ensures var s' := Next(s, Grow(bytes));
            (forall id :: id in s'.ids ==> LocIn(s', s'.ids[id])) && Contents(s') == Contents(s)
  {
    var s' := Next(s, Grow(bytes));
    forall id | id in s.ids ensures LocIn(s', s.ids[id]) && Read(s', s.ids[id]) == Read(s, s.ids[id]) {
      GrowReads(s, bytes, s.ids[id]);
    }
  }

  lemma CloseInv(s: State, session: nat)
    requires Inv(s)
    ensures Inv(Next(s, Close(session)))
  {
    var s' := Next(s, Close(session));
    forall k | 0 <= k < |s'.held| ensures s'.held[k].session in s'.sessions && s'.held[k] in s.held {
      assert s'.held[k] in s'.held;
      var j :| 0 <= j < |s.held| && s.held[j] == s'.held[k];
      assert HeldOk(s, s.held[j]);
    }
    SameRingsInv(s, s');
  }

  // ----- what is read

  lemma LocsGood(s: State)
    requires Inv(s)
    ensures forall id :: id in s.ids ==> LocIn(s, s.ids[id])
    ensures forall k :: 0 <= k < |s.held| ==> LocIn(s, s.held[k].loc)
  {
    forall id | id in s.ids ensures LocIn(s, s.ids[id]) { assert LiveOk(s, s.ids[id]); }
    forall k | 0 <= k < |s.held| ensures LocIn(s, s.held[k].loc) { assert HeldOk(s, s.held[k]); }
  }

  /** The step of the abstract map. */
  function Effect(m: map<nat, Bytes>, step: Step): map<nat, Bytes> {
    match step
    case Create(id, _, data) => m[id := data]
    case Release(id) => m - {id}
    case _ => m
  }

  lemma SameContents(s: State, s': State)
    requires (forall id :: id in s.ids ==> LocIn(s, s.ids[id])) && s'.ids == s.ids && s'.cold == s.cold
    requires |s'.rings| == |s.rings| && forall k :: 0 <= k < |s.rings| ==> s'.rings[k].mem == s.rings[k].mem
    ensures (forall id :: id in s'.ids ==> LocIn(s', s'.ids[id])) && Contents(s') == Contents(s)
  {
    forall id | id in s.ids ensures LocIn(s', s.ids[id]) && Read(s', s.ids[id]) == Read(s, s.ids[id]) {}
  }

  lemma ReleaseRefines(s: State, id: nat)
    requires (forall i :: i in s.ids ==> LocIn(s, s.ids[i])) && id in s.ids
    ensures var s' := Next(s, Release(id));
            (forall i :: i in s'.ids ==> LocIn(s', s'.ids[i])) && Contents(s') == Contents(s) - {id}
  {
    var s' := Next(s, Release(id));
    forall i | i in s'.ids ensures LocIn(s', s'.ids[i]) && Read(s', s'.ids[i]) == Read(s, s.ids[i]) {}
  }

  /** Refinement: creating and releasing objects changes the map; moving, swapping and freeing do not. */
  lemma StepRefines(s: State, step: Step, s': State)
    requires Inv(s) && StepTo(s, step, s')
    ensures (forall id :: id in s.ids ==> LocIn(s, s.ids[id])) && (forall id :: id in s'.ids ==> LocIn(s', s'.ids[id]))
    ensures Contents(s') == Effect(Contents(s), step)
  {
    LocsGood(s);
    match step
    case Create(id, loc, data) => PlaceRefines(s, id, loc, data, s');
    case Move(id, loc) => MoveRefines(s, id, loc, s');
    case Release(id) => ReleaseRefines(s, id);
    case Grow(bytes) => GrowRefines(s, bytes);
    case _ => SameContents(s, s');
  }

  lemma MoveRefines(s: State, id: nat, loc: Loc, s': State)
    requires Inv(s) && StepTo(s, Move(id, loc), s') && forall i :: i in s.ids ==> LocIn(s, s.ids[i])
    ensures (forall i :: i in s'.ids ==> LocIn(s', s'.ids[i])) && Contents(s') == Contents(s)
  {
    PlaceRefines(s, id, loc, Read(s, s.ids[id]), s');
    assert Contents(s)[id := Read(s, s.ids[id])] == Contents(s);
  }

  lemma PlaceReads(s: State, id: nat, loc: Loc, data: Bytes, s': State, i: nat)
    requires Inv(s) && Fresh(s, loc) && |data| == loc.size
    requires s' == Store(s, loc, data, id).(ids := s.ids[id := loc]) && i in s'.ids
             && (i in s.ids ==> LocIn(s, s.ids[i]))
    ensures LocIn(s', s'.ids[i]) && Read(s', s'.ids[i]) == if i == id then data else Read(s, s.ids[i])
  {
    StoreInv(s, loc, data, id);
    StoreKeepsAll(s, loc, data, id);
    if i != id { assert Kept(s, Store(s, loc, data, id), s.ids[i]); }
  }

  predicate ReadsAs(s: State, s': State, id: nat, data: Bytes, i: nat)
    requires i in s'.ids && (i != id ==> i in s.ids && LocIn(s, s.ids[i]))
  {
    LocIn(s', s'.ids[i]) && Read(s', s'.ids[i]) == if i == id then data else Read(s, s.ids[i])
  }

  lemma ContentsUpdate(s: State, s': State, id: nat, data: Bytes)
    requires (forall i :: i in s.ids ==> LocIn(s, s.ids[i])) && s'.ids.Keys == s.ids.Keys + {id}
    requires forall i :: i in s'.ids ==> ReadsAs(s, s', id, data, i)
    ensures (forall i :: i in s'.ids ==> LocIn(s', s'.ids[i])) && Contents(s') == Contents(s)[id := data]
  {
    forall i | i in s'.ids ensures LocIn(s', s'.ids[i]) { assert ReadsAs(s, s', id, data, i); }
    var m, m' := Contents(s)[id := data], Contents(s');
    assert m'.Keys == m.Keys;
    forall i | i in m' ensures m'[i] == m[i] { assert ReadsAs(s, s', id, data, i); }
  }

  lemma PlaceRefines(s: State, id: nat, loc: Loc, data: Bytes, s': State)
    requires Inv(s) && Fresh(s, loc) && |data| == loc.size && forall i :: i in s.ids ==> LocIn(s, s.ids[i])
    requires s' == Store(s, loc, data, id).(ids := s.ids[id := loc])
    ensures (forall i :: i in s'.ids ==> LocIn(s', s'.ids[i])) && Contents(s') == Contents(s)[id := data]
  {
    forall i | i in s'.ids ensures ReadsAs(s, s', id, data, i) { PlaceReads(s, id, loc, data, s', i); }
    ContentsUpdate(s, s', id, data);
  }

  /** A location that a session has read keeps its bytes through every step, until the session closes. */
  lemma HeldStable(s: State, step: Step, h: Held, s': State)
    requires Inv(s) && StepTo(s, step, s') && h in s.held && h.session in s'.sessions
    ensures LocIn(s, h.loc) && LocIn(s', h.loc) && h in s'.held && Read(s', h.loc) == Read(s, h.loc)
  {
    LocsGood(s);
    var k :| 0 <= k < |s.held| && s.held[k] == h;
    match step
    case Create(id, loc, data) => StoreKeepsAll(s, loc, data, id);
      assert Kept(s, Store(s, loc, data, id), s.held[k].loc);
    case Move(id, loc) =>
      StoreKeepsAll(s, loc, Read(s, s.ids[id]), id);
      assert Kept(s, Store(s, loc, Read(s, s.ids[id]), id), s.held[k].loc);
    case Grow(bytes) => GrowReads(s, bytes, h.loc);
    case _ =>
  }
}
