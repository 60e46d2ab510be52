/** Every step keeps the layout of the cold file. */
module RegionUpkeep {
  import opened RegionChunks
  import opened RegionState
  import opened RegionSwitch
  import opened RegionTiles
  import opened RegionWalk
  import opened RegionMemory
  import R = RegionRuns

  // ----- steps that write nothing

  /** Pieces, and where nothing is written, are the same. */
  predicate SamePlaces(m: Memory, m': Memory) {
    && m'.tiles == m.tiles && m'.s.size == m.s.size && |m'.s.used| == |m.s.used|
    && m'.s.open == m.s.open && m'.s.cur == m.s.cur && m'.s.pos == m.s.pos && m'.s.items == m.s.items
  }

  lemma SameCovered(m: Memory, m': Memory)
    requires Covered(m) && SamePlaces(m, m') && EvenUsed(m'.s)
    ensures Covered(m')
  {
    forall i: nat | i < |m'.s.used| ensures StartsAt(m', i) { assert StartsAt(m, i); }
  }

  lemma SameRanges(m: Memory, m': Memory)
    requires Ranges(m) && Edges(m) && SamePlaces(m, m')
    ensures Ranges(m') && Edges(m')
  {
    forall k | 0 <= k < |m'.s.items| ensures ItemBlank(m', m'.s.items[k]) { assert ItemBlank(m, m.s.items[k]); }
    forall k, l | 0 <= k < l < |m'.s.items| ensures CursorsApart(m'.s.items[k], m'.s.items[l]) {
      assert CursorsApart(m.s.items[k], m.s.items[l]);
    }
  }

  lemma SameWritten(m: Memory, m': Memory, off: nat, size: nat)
    requires Written(m, off, size) && SamePlaces(m, m')
    ensures Written(m', off, size)
  {}

  /** No object appears; some may be gone, and live ones may be outstanding now. */
  lemma SameObjects(m: Memory, m': Memory)
    requires Objects(m) && SamePlaces(m, m') && m'.s.live == m.s.live && m'.s.dead == m.s.dead
    requires forall k :: 0 <= k < |m'.held| ==> m'.held[k] in m.held
    ensures Objects(m')
  {
    forall k | 0 <= k < |m'.s.live| ensures Written(m', m'.s.live[k].off, m'.s.live[k].size) {
      SameWritten(m, m', m.s.live[k].off, m.s.live[k].size);
    }
    forall k | 0 <= k < |m'.s.dead| ensures Written(m', m'.s.dead[k].off, m'.s.dead[k].size) {
      SameWritten(m, m', m.s.dead[k].off, m.s.dead[k].size);
    }
    forall k | 0 <= k < |m'.held| ensures Written(m', m'.held[k].off, m'.held[k].size) {
      var j :| 0 <= j < |m.held| && m.held[j] == m'.held[k];
      SameWritten(m, m', m.held[j].off, m.held[j].size);
    }
  }

  /** The walk goes on over the same pieces. */
  lemma SameWalked(m: Memory, m': Memory)
    requires Walked(m) && SamePlaces(m, m') && m'.at == m.at
    requires forall k :: 0 <= k < |m'.s.live| ==> m'.s.live[k] in m.s.live
    ensures Walked(m')
  {
    if m'.s.items != [] && SmallSource(m') {
      assert SmallSource(m) && Arrived(m);
      forall k | 0 <= k < |m'.s.live| ensures !(m'.s.items[0].src <= m'.s.live[k].off < m'.at) {
        assert m'.s.live[k] in m.s.live;
      }
    }
  }

  lemma SameReading(m: Memory, m': Memory)
    requires m.s.size > 0 && |m.grace| == |m.s.tokens| && Reading(m)
    requires m'.s.size == m.s.size && |m'.s.used| == |m.s.used| && m'.s.free <= m.s.free && m'.s.tokens == m.s.tokens
    requires m'.grace == m.grace && m.sessions <= m'.sessions && forall k :: 0 <= k < |m'.held| ==> m'.held[k] in m.held
    ensures Reading(m')
  {
    forall k | 0 <= k < |m'.held| ensures HeldQuiet(m', m'.held[k]) {
      var j :| 0 <= j < |m.held| && m.held[j] == m'.held[k];
      assert HeldQuiet(m, m.held[j]);
    }
  }

  lemma SameSessions(m: Memory, m': Memory)
    requires m.s.size > 0 && Waiting(m) && Reading(m)
    requires m'.s.size == m.s.size && |m'.s.used| == |m.s.used| && m'.s.free <= m.s.free && m'.s.tokens == m.s.tokens
    requires m'.grace == m.grace && m'.sessions == m.sessions && m'.clock == m.clock && m'.s.dead == m.s.dead
             && m'.held == m.held
    ensures Waiting(m') && Reading(m')
  {
    SameReading(m, m');
  }

  lemma SameLayout(m: Memory, m': Memory)
    requires Layout(m) && SamePlaces(m, m') && EvenUsed(m'.s) && m'.at == m.at
    requires m'.s.live == m.s.live && m'.s.dead == m.s.dead && forall k :: 0 <= k < |m'.held| ==> m'.held[k] in m.held
    ensures Layout(m')
  {
    SameCovered(m, m');
    SameRanges(m, m');
    SameObjects(m, m');
    SameWalked(m, m');
  }

  lemma DropInv(m: Memory, k: nat, session: nat)
    requires MemInv(m) && Enabled(m, Drop(k, session))
    ensures MemInv(Next(m, Drop(k, session)))
  {
    var m' := Next(m, Drop(k, session));
    R.NextInv(m.s, R.ReleaseStep(k, session));
    SameReading(m, m');
    DropLayout(m, k, session);
  }

  lemma DropLayout(m: Memory, k: nat, session: nat)
    requires Layout(m) && k < |m.s.live|
    ensures Layout(m.(s := Release(m.s, k, session)))
  {
    var m' := m.(s := Release(m.s, k, session));
    SameCovered(m, m');
    SameRanges(m, m');
    DropObjects(m, k, session);
    forall j | 0 <= j < |m'.s.live| ensures m'.s.live[j] in m.s.live {
      assert m'.s.live[j] == m.s.live[if j < k then j else j + 1];
    }
    SameWalked(m, m');
  }

  lemma DropObjects(m: Memory, k: nat, session: nat)
    requires Objects(m) && k < |m.s.live|
    ensures Objects(m.(s := Release(m.s, k, session)))
  {
    var m', n := m.(s := Release(m.s, k, session)), |m.s.dead|;
    assert SamePlaces(m, m');
    forall j | 0 <= j < |m'.s.live|
      ensures Written(m', m'.s.live[j].off, m'.s.live[j].size) && m'.s.live[j] == m.s.live[if j < k then j else j + 1]
    {
      var i := if j < k then j else j + 1;
      SameWritten(m, m', m.s.live[i].off, m.s.live[i].size);
    }
    forall j | 0 <= j < |m'.s.dead| ensures Written(m', m'.s.dead[j].off, m'.s.dead[j].size) {
      if j < n { SameWritten(m, m', m.s.dead[j].off, m.s.dead[j].size); }
      else { SameWritten(m, m', m.s.live[k].off, m.s.live[k].size); }
    }
    forall j | 0 <= j < |m'.held| ensures Written(m', m'.held[j].off, m'.held[j].size) {
      SameWritten(m, m', m.held[j].off, m.held[j].size);
    }
  }

  lemma DeallocEven(s: State, k: nat)
    requires s.size > 0 && k < |s.dead| && Region(s.dead[k].off, s.size) < |s.used| && EvenUsed(s)
             && s.dead[k].size % 8 == 0
    ensures EvenUsed(Deallocate(s, k))
  {}

  lemma DeallocInv(m: Memory, k: nat)
    requires MemInv(m) && Enabled(m, Dealloc(k))
    ensures MemInv(Next(m, Dealloc(k)))
  {
    var m' := Next(m, Dealloc(k));
    R.NextInv(m.s, R.DeallocateStep(k));
    assert Written(m, m.s.dead[k].off, m.s.dead[k].size);
    DeallocEven(m.s, k);
    DeallocPlaces(m, m', k);
    DeallocWaiting(m, m', k);
  }

  lemma DeallocPlaces(m: Memory, m': Memory, k: nat)
    requires Layout(m) && EvenUsed(m'.s)
    requires k < |m.s.dead| && SamePlaces(m, m') && m'.s.live == m.s.live && m'.s.dead == Without(m.s.dead, k)
    requires m'.held == m.held && m'.at == m.at
    ensures Layout(m')
  {
    SameCovered(m, m');
    SameRanges(m, m');
    SameWalked(m, m');
    DeallocObjects(m, m', k);
  }

  lemma DeallocWaiting(m: Memory, m': Memory, k: nat)
    requires m.s.size > 0 && Waiting(m) && Reading(m) && Enabled(m, Dealloc(k)) && m' == Next(m, Dealloc(k))
    ensures Waiting(m') && Reading(m')
  {
    SameReading(m, m');
    forall d | 0 <= d < |m'.s.dead| ensures m'.s.dead[d].tag in m'.sessions {
      assert m'.s.dead[d] == m.s.dead[if d < k then d else d + 1];
    }
  }

  lemma DeallocObjects(m: Memory, m': Memory, k: nat)
    requires Objects(m) && k < |m.s.dead| && SamePlaces(m, m') && m'.s.live == m.s.live
             && m'.s.dead == Without(m.s.dead, k) && m'.held == m.held
    ensures Objects(m')
  {
    forall j | 0 <= j < |m'.s.live| ensures Written(m', m'.s.live[j].off, m'.s.live[j].size) {
      SameWritten(m, m', m.s.live[j].off, m.s.live[j].size);
    }
    forall j | 0 <= j < |m'.s.dead|
      ensures Written(m', m'.s.dead[j].off, m'.s.dead[j].size) && m'.s.dead[j] == m.s.dead[if j < k then j else j + 1]
    {
      var i := if j < k then j else j + 1;
      SameWritten(m, m', m.s.dead[i].off, m.s.dead[i].size);
    }
    forall j | 0 <= j < |m'.held| ensures Written(m', m'.held[j].off, m'.held[j].size) {
      SameWritten(m, m', m.held[j].off, m.held[j].size);
    }
  }

  lemma HandInv(m: Memory)
    requires MemInv(m)
    ensures m.s.size > 0 && MemInv(Next(m, Hand))
  {
    var m' := Next(m, Hand);
    R.NextInv(m.s, R.PublishStep);
    SameLayout(m, m');
    forall k | 0 <= k < |m'.held| ensures HeldQuiet(m', m'.held[k]) { assert HeldQuiet(m, m.held[k]); }
  }

  /** The sessions that a delayed free waits for include those with outstanding deallocations. */
  lemma GraceFires(m: Memory, k: nat)
    requires Waiting(m) && k < |m.s.tokens| && m.grace[k] !! m.sessions
    ensures CanFire(m.s, k)
  {
    forall d | d in m.s.dead ensures d.tag in m.sessions {}
  }

  lemma FreeInv(m: Memory, k: nat)
    requires MemInv(m) && Enabled(m, Free(k))
    ensures MemInv(Next(m, Free(k)))
  {
    var m' := Next(m, Free(k));
    GraceFires(m, k);
    R.NextInv(m.s, R.FireStep(k));
    SameLayout(m, m');
    FreeWaiting(m, k);
  }

  lemma WithoutAt<T>(q: seq<T>, k: nat, l: nat)
    requires k < |q| && l < |q| - 1
    ensures Without(q, k)[l] == q[if l < k then l else l + 1]
  {}

  lemma FreeTokens(m: Memory, k: nat, l: nat)
    requires Waiting(m) && Enabled(m, Free(k)) && l < |m.grace| - 1
    ensures var m', j := Next(m, Free(k)), if l < k then l else l + 1;
            |m'.grace| == |m'.s.tokens| == |m.grace| - 1 && m'.grace[l] == m.grace[j] && m'.s.tokens[l] == m.s.tokens[j]
  {
    WithoutAt(m.grace, k, l);
    WithoutAt(m.s.tokens, k, l);
  }

  lemma FreeWaiting(m: Memory, k: nat)
    requires m.s.size > 0 && Waiting(m) && Reading(m) && Enabled(m, Free(k))
    ensures Waiting(Next(m, Free(k))) && Reading(Next(m, Free(k)))
  {
    var m' := Next(m, Free(k));
    forall l | 0 <= l < |m'.grace|
      ensures m'.s.tokens[l].waits <= m'.grace[l] && forall x :: x in m'.grace[l] ==> x < m'.clock
    {
      FreeTokens(m, k, l);
    }
    forall j | 0 <= j < |m'.held| ensures HeldQuiet(m', m'.held[j]) { FreeHeld(m, k, m.held[j]); }
  }

  lemma FreeHeld(m: Memory, k: nat, h: Held)
    requires m.s.size > 0 && Waiting(m) && HeldQuiet(m, h) && Enabled(m, Free(k))
    ensures |Next(m, Free(k)).grace| == |Next(m, Free(k)).s.tokens| && HeldQuiet(Next(m, Free(k)), h)
  {
    var m' := Next(m, Free(k));
    forall l | 0 <= l < |m'.s.tokens| && Current(m'.s, m'.s.tokens[l]) && Region(h.off, m.s.size) in m'.s.tokens[l].mask
      ensures h.session in m'.grace[l]
    {
      FreeTokens(m, k, l);
    }
  }

  lemma OpenInv(m: Memory)
    requires MemInv(m)
    ensures m.s.size > 0 && MemInv(Next(m, OpenSession))
  {
    var m' := Next(m, OpenSession);
    SameLayout(m, m');
    SameReading(m, m');
  }

  lemma CloseSessionInv(m: Memory, session: nat)
    requires MemInv(m) && Enabled(m, CloseSession(session))
    ensures MemInv(Next(m, CloseSession(session)))
  {
    var m' := Next(m, CloseSession(session));
    forall k | 0 <= k < |m'.held| ensures m'.held[k] in m.held { assert m'.held[k] in m'.held; }
    SameLayout(m, m');
    forall k | 0 <= k < |m'.held| ensures HeldQuiet(m', m'.held[k]) {
      assert m'.held[k] in m'.held;
      var j :| 0 <= j < |m.held| && m.held[j] == m'.held[k];
      assert HeldQuiet(m, m.held[j]);
    }
  }

  lemma HoldInv(m: Memory, session: nat, k: nat)
    requires MemInv(m) && Enabled(m, Hold(session, k))
    ensures MemInv(Next(m, Hold(session, k)))
  {
    var m' := Next(m, Hold(session, k));
    SameCovered(m, m');
    SameRanges(m, m');
    SameWalked(m, m');
    HoldObjects(m, session, k);
    HoldReading(m, session, k);
  }

  lemma HoldObjects(m: Memory, session: nat, k: nat)
    requires Objects(m) && Enabled(m, Hold(session, k))
    ensures Objects(Next(m, Hold(session, k)))
  {
    var m' := Next(m, Hold(session, k));
    SameObjects(m, m'.(held := m.held));
    forall j | 0 <= j < |m'.held| ensures Written(m', m'.held[j].off, m'.held[j].size) {
      if j < |m.held| { SameWritten(m, m', m.held[j].off, m.held[j].size); }
      else { SameWritten(m, m', m.s.live[k].off, m.s.live[k].size); }
    }
    forall j | 0 <= j < |m'.s.live| ensures Written(m', m'.s.live[j].off, m'.s.live[j].size) {
      SameWritten(m, m', m.s.live[j].off, m.s.live[j].size);
    }
    forall j | 0 <= j < |m'.s.dead| ensures Written(m', m'.s.dead[j].off, m'.s.dead[j].size) {
      SameWritten(m, m', m.s.dead[j].off, m.s.dead[j].size);
    }
  }

  lemma HoldReading(m: Memory, session: nat, k: nat)
    requires Inv(m.s) && Waiting(m) && Reading(m) && Enabled(m, Hold(session, k))
    ensures Reading(Next(m, Hold(session, k)))
  {
    var m', r := Next(m, Hold(session, k)), Region(m.s.live[k].off, m.s.size);
    ReleaseBounded(m.s, k, session);
    assert !Promised(m.s, r);
    forall j | 0 <= j < |m'.held| ensures HeldQuiet(m', m'.held[j]) {
      if j < |m.held| { assert HeldQuiet(m, m.held[j]); }
    }
  }

  lemma CopyInv(m: Memory)
    requires MemInv(m) && Enabled(m, CopyObject)
    ensures MemInv(Next(m, CopyObject))
  {
    var m' := Next(m, CopyObject);
    SameLayout(m, m');
    SameReading(m, m');
  }

  // ----- steps that take a part of a blank piece

  /** A piece that is blank is cut: what is written stays. */
  lemma CutWritten(m: Memory, m': Memory, x: nat, n: nat, off: nat, size: nat)
    requires Tiles(m.tiles, Top(m.s)) && x in m.tiles && 0 < n <= m.tiles[x] && m'.tiles == Cut(m.tiles, x, n)
             && Blank(m.s, x)
    requires Written(m, off, size) && (Blank(m'.s, off) ==> Blank(m.s, off) || (off == x + n && n < m.tiles[x]))
    ensures Written(m', off, size)
  {
    CutKeeps(m.tiles, Top(m.s), x, n, off);
    if x < off { PieceEnds(m.tiles, Top(m.s), x, off); }
  }

  lemma CutBase(m: Memory, m': Memory, x: nat, n: nat)
    requires Covered(m) && x in m.tiles && 0 < n <= m.tiles[x] && n % 8 == 0 && m'.tiles == Cut(m.tiles, x, n)
    requires m'.s.size == m.s.size && |m'.s.used| == |m.s.used| && EvenUsed(m'.s)
    requires HasRoom(m'.s) ==> m'.s.pos in m'.tiles && m'.tiles[m'.s.pos] == RegionEnd(m'.s) - m'.s.pos
    ensures Covered(m')
  {
    CutTiles(m.tiles, Top(m.s), x, n);
    CutEven(m.tiles, x, n);
    forall i: nat | i < |m'.s.used| ensures StartsAt(m', i) { assert StartsAt(m, i); }
  }

  lemma CutEdges(m: Memory, m': Memory, x: nat, n: nat)
    requires x in m.tiles && m'.tiles == Cut(m.tiles, x, n) && Top(m'.s) == Top(m.s) && Edges(m)
    requires |m'.s.items| == |m.s.items|
    requires forall k :: 0 <= k < |m.s.items| ==>
             m'.s.items[k].src == m.s.items[k].src && m'.s.items[k].len == m.s.items[k].len
    ensures Edges(m')
  {
    forall k | 0 <= k < |m'.s.items|
      ensures m'.s.items[k].src in m'.tiles && Bound(m'.tiles, Top(m'.s), m'.s.items[k].src + m'.s.items[k].len)
    {
      assert m.s.items[k].src in m.tiles;
    }
  }

  /** The source of an evacuation is not cut. */
  lemma CutSmall(m: Memory, m': Memory, x: nat, n: nat)
    requires m.s.items != [] && m'.s.items != [] && m'.s.items[0].src == m.s.items[0].src
             && m'.s.items[0].len == m.s.items[0].len
    requires Tiles(m.tiles, Top(m.s)) && x in m.tiles && n <= m.tiles[x] && m'.tiles == Cut(m.tiles, x, n)
    requires !(m.s.items[0].src <= x < SourceEnd(m)) && SmallSource(m')
    ensures SmallSource(m)
  {
    forall y | y in m.tiles && m.s.items[0].src <= y < SourceEnd(m) ensures m.tiles[y] <= FIELD {
      CutKeeps(m.tiles, Top(m.s), x, n, y);
    }
  }

  // ----- allocation

  lemma AllocFacts(m: Memory, n: nat)
    requires Shape(m.s) && Covered(m) && CanAllocate(m.s, n)
    ensures HasRoom(m.s) && Blank(m.s, m.s.pos) && m.s.pos in m.tiles
            && n <= m.tiles[m.s.pos] == RegionEnd(m.s) - m.s.pos
    ensures Region(m.s.pos, m.s.size) == m.s.cur
  {
    RegionIs(m.s.pos, m.s.size, m.s.cur);
  }

  lemma AllocRanges(m: Memory, m': Memory, n: nat)
    requires Shape(m.s) && Covered(m) && Ranges(m) && CanAllocate(m.s, n) && n % 8 == 0
    requires m'.s == Allocate(m.s, n) && m'.tiles == Cut(m.tiles, m.s.pos, n)
    ensures Ranges(m')
  {
    AllocFacts(m, n);
    forall k | 0 <= k < |m'.s.items| ensures ItemBlank(m', m'.s.items[k]) {
      var t := m.s.items[k];
      assert ItemBlank(m, t);
      if t.cursor < t.end {
        CutKeeps(m.tiles, Top(m.s), m.s.pos, n, t.cursor);
        if m.s.pos < t.cursor { PieceEnds(m.tiles, Top(m.s), m.s.pos, t.cursor); }
      }
    }
    forall k, l | 0 <= k < l < |m'.s.items| ensures CursorsApart(m'.s.items[k], m'.s.items[l]) {
      assert CursorsApart(m.s.items[k], m.s.items[l]);
    }
  }

  /** After an allocation the object is written, and nothing else is blank that was not. */
  lemma AllocBlank(m: Memory, n: nat, y: nat)
    requires Shape(m.s) && Covered(m) && Ranges(m) && CanAllocate(m.s, n)
    ensures Blank(Allocate(m.s, n), y) ==> (Blank(m.s, y) && y != m.s.pos) || (y == m.s.pos + n && n < m.tiles[m.s.pos])
  {
    AllocFacts(m, n);
    var s' := Allocate(m.s, n);
    if Blank(s', y) && !(HasRoom(s') && y == s'.pos) {
      var k :| 0 <= k < |s'.items| && s'.items[k].cursor == y && s'.items[k].cursor < s'.items[k].end;
      assert ItemBlank(m, m.s.items[k]);
    }
  }

  lemma AllocWritten(m: Memory, m': Memory, n: nat, off: nat, size: nat)
    requires Shape(m.s) && Covered(m) && Ranges(m) && CanAllocate(m.s, n) && n % 8 == 0 && Written(m, off, size)
    requires m'.s == Allocate(m.s, n) && m'.tiles == Cut(m.tiles, m.s.pos, n)
    ensures Written(m', off, size) && off != m.s.pos
  {
    AllocFacts(m, n);
    AllocBlank(m, n, off);
    CutWritten(m, m', m.s.pos, n, off, size);
  }

  lemma AllocObjects(m: Memory, m': Memory, n: nat)
    requires Shape(m.s) && Covered(m) && Ranges(m) && Objects(m) && CanAllocate(m.s, n) && n % 8 == 0
    requires m'.s == Allocate(m.s, n) && m'.tiles == Cut(m.tiles, m.s.pos, n) && m'.held == m.held
    ensures Objects(m')
  {
    AllocFacts(m, n);
    AllocBlank(m, n, m.s.pos);
    CutWhole(m.tiles, m.s.pos, n);
    forall k | 0 <= k < |m'.s.live|
      ensures Written(m', m'.s.live[k].off, m'.s.live[k].size) && (k < |m.s.live| ==> m'.s.live[k].off != m.s.pos)
    {
      if k < |m.s.live| { AllocWritten(m, m', n, m.s.live[k].off, m.s.live[k].size); }
    }
    forall k | 0 <= k < |m'.s.dead|
      ensures Written(m', m'.s.dead[k].off, m'.s.dead[k].size) && m'.s.dead[k].off != m.s.pos
    {
      AllocWritten(m, m', n, m.s.dead[k].off, m.s.dead[k].size);
    }
    forall k | 0 <= k < |m'.held| ensures Written(m', m'.held[k].off, m'.held[k].size) {
      AllocWritten(m, m', n, m.held[k].off, m.held[k].size);
    }
  }

  lemma AllocWalked(m: Memory, m': Memory, n: nat)
    requires Shape(m.s) && ItemsOk(m.s) && Covered(m) && Walked(m) && CanAllocate(m.s, n)
    requires m'.s == Allocate(m.s, n) && m'.tiles == Cut(m.tiles, m.s.pos, n) && m'.at == m.at
    ensures Walked(m')
  {
    if m.s.items != [] {
      AllocFacts(m, n);
      assert ItemOk(m.s, m.s.items[0]);
      NotInSource(m.s, m.s.items[0], m.s.pos);
      if SmallSource(m') { CutSmall(m, m', m.s.pos, n); }
    }
  }

  lemma AllocLayout(m: Memory, n: nat)
    requires Shape(m.s) && ItemsOk(m.s) && Layout(m) && Enabled(m, Alloc(n))
    ensures Layout(Next(m, Alloc(n)))
  {
    var m' := Next(m, Alloc(n));
    AllocFacts(m, n);
    CutWhole(m.tiles, m.s.pos, n);
    CutBase(m, m', m.s.pos, n);
    CutEdges(m, m', m.s.pos, n);
    AllocRanges(m, m', n);
    AllocObjects(m, m', n);
    AllocWalked(m, m', n);
  }

  lemma AllocInv(m: Memory, n: nat)
    requires MemInv(m) && Enabled(m, Alloc(n))
    ensures MemInv(Next(m, Alloc(n)))
  {
    R.NextInv(m.s, R.AllocateStep(n));
    AllocLayout(m, n);
    SameSessions(m, Next(m, Alloc(n)));
  }
}
