/** The four-level cache as a state machine: objects move between ring buffers and the cold file while
    sessions read them. The cache refines a map from object ids to bytes. */
module Cache {
  import opened Leb128
  import opened RegionWalk
  import opened RingPointer

  type Bytes = seq<byte>

  /** Freed bytes of a ring that are not available yet: they wait for the sessions that were open. */
  datatype Freed = Freed(bytes: nat, waits: set<nat>)

  /** What a header says: the length of its object, and the id that it was written for. */
  datatype Piece = Piece(size: nat, id: nat)

  /** A ring buffer: memory, and the positions of `swap_p`, `alloc_p` and `_end_free_p` on the line. `pieces` are the
      headers, by their positions on the line, and `walk` is how far the swap thread has come. */
  datatype Ring = Ring(mem: Bytes, swap: nat, alloc: Pos, end: nat, freed: seq<Freed>, walk: nat,
                       pieces: map<nat, Piece>)

  /** Where an object is: a position of a ring, or an offset of the cold file. */
  datatype Loc = InRing(level: nat, pos: Pos, size: nat) | Cold(off: nat, size: nat)

  datatype Held = Held(session: nat, loc: Loc)

  datatype State = State(rings: seq<Ring>, cold: Bytes, ids: map<nat, Loc>, sessions: set<nat>, held: seq<Held>)

  // ----- memory

  function Write(mem: Bytes, off: nat, data: Bytes): (r: Bytes)
    requires off + |data| <= |mem|
    ensures |r| == |mem|
  {
    mem[..off] + data + mem[off + |data|..]
  }

  lemma WriteRead(mem: Bytes, off: nat, data: Bytes)
    requires off + |data| <= |mem|
    ensures Write(mem, off, data)[off..off + |data|] == data
  {}

  lemma WriteApart(mem: Bytes, off: nat, data: Bytes, lo: nat, hi: nat)
    requires off + |data| <= |mem| && lo <= hi <= |mem| && (hi <= off || off + |data| <= lo)
    ensures Write(mem, off, data)[lo..hi] == mem[lo..hi]
  {}

  predicate LocIn(s: State, l: Loc) {
    match l
    case InRing(level, pos, size) => level < |s.rings| && 0 < size && pos.off + size <= |s.rings[level].mem|
    case Cold(off, size) => 0 < size && off + size <= |s.cold|
  }

  function Read(s: State, l: Loc): Bytes
    requires LocIn(s, l)
  {
    match l
    case InRing(level, pos, size) => s.rings[level].mem[pos.off..pos.off + size]
    case Cold(off, size) => s.cold[off..off + size]
  }

  /** The map that the cache stands for. */
  function Contents(s: State): map<nat, Bytes>
    requires forall id :: id in s.ids ==> LocIn(s, s.ids[id])
  {
    map id | id in s.ids :: Read(s, s.ids[id])
  }

  // ----- the invariant

  function Outstanding(freed: seq<Freed>): nat {
    if freed == [] then 0 else Outstanding(freed[..|freed| - 1]) + freed[|freed| - 1].bytes
  }

  /** The bytes that wait for a session. */
  function WaitingFor(freed: seq<Freed>, session: nat): nat {
    if freed == [] then 0
    else
      WaitingFor(freed[..|freed| - 1], session)
      + (if session in freed[|freed| - 1].waits then freed[|freed| - 1].bytes else 0)
  }

  /** A header leads to the next one, with none in between. */
  predicate PieceOk(p: map<nat, Piece>, hi: nat, x: nat)
    requires x in p
  {
    && 0 < p[x].size && x + p[x].size <= hi && (x + p[x].size < hi ==> x + p[x].size in p)
    && forall y :: y in p && x < y < hi ==> x + p[x].size <= y
  }

  /** From `lo` to `hi` there are objects, from header to header. */
  predicate Row(p: map<nat, Piece>, lo: nat, hi: nat) {
    && lo <= hi && (lo < hi ==> lo in p) && (forall x :: x in p ==> x < hi)
    && forall x :: x in p && lo <= x ==> PieceOk(p, hi, x)
  }

  /** Allocated memory is [swap, alloc), free memory [alloc, end); what was swapped out and is not yet
      available lies before swap. The rest of the allocated memory, from the walk of the swap thread on, is a row of
      objects. */
  predicate RingOk(r: Ring) {
    var size := |r.mem|;
    && size > 0 && size % 8 == 0 && r.alloc.off < size && r.alloc.off % 8 == 0
    && At(r.alloc, size) <= r.end && r.end + Outstanding(r.freed) == r.swap + size
    && r.swap <= r.walk <= At(r.alloc, size) && Row(r.pieces, r.walk, At(r.alloc, size))
  }

  /** The object is allocated in its ring. */
  predicate Allocated(s: State, l: Loc) {
    && LocIn(s, l)
    && (l.InRing? ==> At(l.pos, |s.rings[l.level].mem|) + l.size <= At(s.rings[l.level].alloc, |s.rings[l.level].mem|))
  }

  predicate LiveOk(s: State, l: Loc) {
    Allocated(s, l) && (l.InRing? ==> s.rings[l.level].swap <= At(l.pos, |s.rings[l.level].mem|))
  }

  /** An object in a ring has its header, and the swap thread has not come by it. */
  predicate Headed(s: State, id: nat)
    requires id in s.ids
  {
    s.ids[id].InRing? ==> s.ids[id].level < |s.rings| && HeadIn(s.rings[s.ids[id].level], s.ids[id], id)
  }

  predicate HeadIn(r: Ring, l: Loc, id: nat)
    requires l.InRing?
  {
    var x := At(l.pos, |r.mem|);
    x in r.pieces && r.pieces[x] == Piece(l.size, id) && r.walk <= x
  }

  /** Memory that a session reads has been swapped out at most by as much as waits for the session. */
  predicate HeldOk(s: State, h: Held) {
    && Allocated(s, h.loc) && h.session in s.sessions
    && (h.loc.InRing? ==>
          var r := s.rings[h.loc.level]; r.swap <= At(h.loc.pos, |r.mem|) + WaitingFor(r.freed, h.session))
  }

  predicate Inv(s: State) {
    && (forall k :: 0 <= k < |s.rings| ==> RingOk(s.rings[k]))
    && (forall id :: id in s.ids ==> LiveOk(s, s.ids[id]))
    && (forall id {:trigger Headed(s, id)} :: id in s.ids ==> Headed(s, id))
    && (forall k :: 0 <= k < |s.held| ==> HeldOk(s, s.held[k]))
  }

  lemma {:induction false} WaitingBound(freed: seq<Freed>, session: nat)
    ensures WaitingFor(freed, session) <= Outstanding(freed)
  {
    if freed != [] { WaitingBound(freed[..|freed| - 1], session); }
  }

  /** What is live or read in a ring is less than a lap behind the end of free memory. */
  predicate Protected(r: Ring, pos: Pos, size: nat) {
    && 0 < size && pos.off + size <= |r.mem|
    && r.end <= At(pos, |r.mem|) + |r.mem| && At(pos, |r.mem|) + size <= At(r.alloc, |r.mem|)
  }

  lemma LiveProtected(s: State, id: nat)
    requires Inv(s) && id in s.ids && s.ids[id].InRing?
    ensures s.ids[id].level < |s.rings| && Protected(s.rings[s.ids[id].level], s.ids[id].pos, s.ids[id].size)
  {
    assert LiveOk(s, s.ids[id]) && RingOk(s.rings[s.ids[id].level]);
  }

  lemma HeldProtected(s: State, k: nat)
    requires Inv(s) && k < |s.held| && s.held[k].loc.InRing?
    ensures s.held[k].loc.level < |s.rings|
            && Protected(s.rings[s.held[k].loc.level], s.held[k].loc.pos, s.held[k].loc.size)
  {
    assert HeldOk(s, s.held[k]);
    var r := s.rings[s.held[k].loc.level];
    assert RingOk(r);
    WaitingBound(r.freed, s.held[k].session);
  }

  // ----- placing an object

  /** The position of a new object in a ring, as found by `check_contiguous_free_space`, after a dummy object at the
      end of the buffer if need be. */
  predicate Place(r: Ring, at: Pos, n: nat) {
    ObjectSize(n) && at == r.alloc && at.off + n <= |r.mem| && At(at, |r.mem|) + n <= r.end
  }

  function Put(r: Ring, at: Pos, data: Bytes, id: nat): Ring
    requires at.off + |data| <= |r.mem|
  {
    r.(mem := Write(r.mem, at.off, data), alloc := AdvancePos(at, |data|, |r.mem|),
       pieces := r.pieces[At(at, |r.mem|) := Piece(|data|, id)])
  }

  /** One more object at the end of the row. */
  lemma RowSnoc(p: map<nat, Piece>, lo: nat, hi: nat, n: nat, id: nat)
    requires Row(p, lo, hi) && n > 0
    ensures Row(p[hi := Piece(n, id)], lo, hi + n)
  {
    var q := p[hi := Piece(n, id)];
    forall x | x in q && lo <= x ensures PieceOk(q, hi + n, x) { if x != hi { assert PieceOk(p, hi, x); } }
  }

  lemma StaysEven(p: Pos, n: nat, size: nat)
    requires p.off % 8 == 0 && n % 8 == 0 && p.off + n <= size
    ensures AdvancePos(p, n, size).off % 8 == 0
  {}

  lemma PutOk(r: Ring, at: Pos, data: Bytes, id: nat)
    requires RingOk(r) && Place(r, at, |data|)
    ensures RingOk(Put(r, at, data, id)) && At(Put(r, at, data, id).alloc, |r.mem|) == At(at, |r.mem|) + |data|
  {
    AdvanceAdds(at, |data|, |r.mem|);
    StaysEven(at, |data|, |r.mem|);
    RowSnoc(r.pieces, r.walk, At(at, |r.mem|), |data|, id);
  }

  /** Writing into free memory leaves what is protected as it is. */
  lemma PutKeeps(r: Ring, at: Pos, data: Bytes, id: nat, pos: Pos, size: nat)
    requires RingOk(r) && Place(r, at, |data|) && Protected(r, pos, size)
    ensures Put(r, at, data, id).mem[pos.off..pos.off + size] == r.mem[pos.off..pos.off + size]
    ensures At(pos, |r.mem|) + size <= At(Put(r, at, data, id).alloc, |r.mem|)
  {
    PutOk(r, at, data, id);
    ApartInBuffer(pos, size, at, |data|, |r.mem|);
    WriteApart(r.mem, at.off, data, pos.off, pos.off + size);
  }

  // ----- the dummy object

  /** An object of `n` bytes does not fit before the end of the buffer, and free memory goes on at its beginning. */
  predicate CanPad(r: Ring, n: nat) {
    ObjectSize(n) && r.alloc.off + n > |r.mem| && r.alloc.lap * |r.mem| + |r.mem| <= r.end
  }

  function Pad(r: Ring): Ring
    requires r.alloc.off < |r.mem|
  {
    var n := DummyLength(|r.mem| - r.alloc.off);
    r.(alloc := AdvancePos(r.alloc, n, |r.mem|), pieces := r.pieces[At(r.alloc, |r.mem|) := Piece(n, 0)])
  }

  lemma PadOk(r: Ring, n: nat)
    requires RingOk(r) && CanPad(r, n)
    ensures RingOk(Pad(r)) && At(r.alloc, |r.mem|) <= At(Pad(r).alloc, |r.mem|)
  {
    var d := |r.mem| - r.alloc.off;
    DummyExactly(r.alloc.off, |r.mem|);
    assert Pad(r) == r.(alloc := Pos(r.alloc.lap + 1, 0), pieces := r.pieces[At(r.alloc, |r.mem|) := Piece(d, 0)]);
    AdvanceAdds(r.alloc, d, |r.mem|);
    RowSnoc(r.pieces, r.walk, At(r.alloc, |r.mem|), d, 0);
  }

  lemma PadHead(r: Ring, l: Loc, id: nat)
    requires RingOk(r) && l.InRing? && HeadIn(r, l, id)
    ensures HeadIn(Pad(r), l, id)
  {}

  // ----- the walk of the swap thread

  /** The header at the walk is for an object that is there. */
  predicate LivesAt(s: State, level: nat)
    requires level < |s.rings| && s.rings[level].walk in s.rings[level].pieces
  {
    var r := s.rings[level];
    var id := r.pieces[r.walk].id;
    id in s.ids && s.ids[id].InRing? && s.ids[id].level == level && At(s.ids[id].pos, |r.mem|) == r.walk
  }

  function Pass(r: Ring): Ring
    requires r.walk in r.pieces
  {
    r.(walk := r.walk + r.pieces[r.walk].size)
  }

  lemma PassOk(r: Ring)
    requires RingOk(r) && r.walk < At(r.alloc, |r.mem|)
    ensures r.walk in r.pieces && RingOk(Pass(r))
    ensures forall x :: x in r.pieces && r.walk < x ==> Pass(r).walk <= x
  {
    assert PieceOk(r.pieces, At(r.alloc, |r.mem|), r.walk);
  }

  lemma PassHead(r: Ring, l: Loc, id: nat)
    requires RingOk(r) && r.walk < At(r.alloc, |r.mem|) && l.InRing? && HeadIn(r, l, id) && At(l.pos, |r.mem|) != r.walk
    ensures r.walk in r.pieces && HeadIn(Pass(r), l, id)
  {
    PassOk(r);
  }

  /** The swap ends: what was passed is handed out to be freed once the sessions are closed. */
  function SwapRing(r: Ring, sessions: set<nat>): Ring
    requires r.swap <= r.walk
  {
    r.(swap := r.walk, freed := r.freed + [Freed(r.walk - r.swap, sessions)])
  }

  /** A new location in a ring or in the cold file; in the cold file it is apart from all that is live or
      read, which is what the region allocator provides. */
  predicate Fresh(s: State, l: Loc) {
    && LocIn(s, l)
    && (l.InRing? ==> Place(s.rings[l.level], l.pos, l.size))
    && (l.Cold? ==>
          && (forall id :: id in s.ids && s.ids[id].Cold? ==> ColdApart(s.ids[id], l))
          && (forall k :: 0 <= k < |s.held| && s.held[k].loc.Cold? ==> ColdApart(s.held[k].loc, l)))
  }

  predicate ColdApart(l: Loc, m: Loc)
    requires l.Cold? && m.Cold?
  {
    l.off + l.size <= m.off || m.off + m.size <= l.off
  }

  function Store(s: State, l: Loc, data: Bytes, id: nat): State
    requires LocIn(s, l) && |data| == l.size
  {
    match l
    case InRing(level, pos, _) => s.(rings := s.rings[level := Put(s.rings[level], pos, data, id)])
    case Cold(off, _) => s.(cold := Write(s.cold, off, data))
  }

  /** What was there before stays: the location is still good and reads the same. */
  predicate Kept(s: State, s': State, l: Loc) { LocIn(s, l) && LocIn(s', l) && Read(s', l) == Read(s, l) }

  lemma StoreKeeps(s: State, l: Loc, data: Bytes, id: nat, m: Loc)
    requires Inv(s) && Fresh(s, l) && |data| == l.size && LocIn(s, m)
    requires m.InRing? ==> Protected(s.rings[m.level], m.pos, m.size)
    requires m.Cold? && l.Cold? ==> ColdApart(m, l)
    ensures Kept(s, Store(s, l, data, id), m)
  {
    if m.InRing? && l.InRing? && m.level == l.level {
      assert RingOk(s.rings[l.level]);
      PutKeeps(s.rings[l.level], l.pos, data, id, m.pos, m.size);
    } else if m.Cold? && l.Cold? {
      WriteApart(s.cold, l.off, data, m.off, m.off + m.size);
    }
  }

  lemma StoreAllocated(s: State, l: Loc, data: Bytes, id: nat, m: Loc)
    requires Inv(s) && Fresh(s, l) && |data| == l.size && Allocated(s, m)
    ensures Allocated(Store(s, l, data, id), m)
  {
    if l.InRing? {
      assert RingOk(s.rings[l.level]);
      PutOk(s.rings[l.level], l.pos, data, id);
    }
  }

  lemma StoreInv(s: State, l: Loc, data: Bytes, id: nat)
    requires Inv(s) && Fresh(s, l) && |data| == l.size
    ensures Inv(Store(s, l, data, id)) && LiveOk(Store(s, l, data, id), l) && Read(Store(s, l, data, id), l) == data
  {
    var s' := Store(s, l, data, id);
    if l.InRing? {
      assert RingOk(s.rings[l.level]);
      PutOk(s.rings[l.level], l.pos, data, id);
      WriteRead(s.rings[l.level].mem, l.pos.off, data);
    } else {
      WriteRead(s.cold, l.off, data);
    }
    forall k | 0 <= k < |s'.rings| ensures RingOk(s'.rings[k]) { assert RingOk(s.rings[k]); }
    forall i | i in s'.ids ensures LiveOk(s', s'.ids[i]) && Headed(s', i) {
      assert LiveOk(s, s.ids[i]) && Headed(s, i);
      StoreAllocated(s, l, data, id, s.ids[i]);
    }
    forall k | 0 <= k < |s'.held| ensures HeldOk(s', s'.held[k]) {
      assert HeldOk(s, s.held[k]);
      StoreAllocated(s, l, data, id, s.held[k].loc);
    }
  }

  /** Storing an object changes nothing that any id or session reads. */
  lemma StoreKeepsAll(s: State, l: Loc, data: Bytes, id: nat)
    requires Inv(s) && Fresh(s, l) && |data| == l.size
    ensures forall i :: i in s.ids ==> Kept(s, Store(s, l, data, id), s.ids[i])
    ensures forall k :: 0 <= k < |s.held| ==> Kept(s, Store(s, l, data, id), s.held[k].loc)
  {
    forall i | i in s.ids ensures Kept(s, Store(s, l, data, id), s.ids[i]) {
      assert LiveOk(s, s.ids[i]);
      if s.ids[i].InRing? { LiveProtected(s, i); }
      StoreKeeps(s, l, data, id, s.ids[i]);
    }
    forall k | 0 <= k < |s.held| ensures Kept(s, Store(s, l, data, id), s.held[k].loc) {
      assert HeldOk(s, s.held[k]);
      if s.held[k].loc.InRing? { HeldProtected(s, k); }
      StoreKeeps(s, l, data, id, s.held[k].loc);
    }
  }
}
