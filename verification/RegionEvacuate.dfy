/** The steps of an evacuation, and those of a switch to another region, keep the layout of the cold file. */
module RegionEvacuate {
  import opened RegionChunks
  import opened RegionState
  import opened RegionSwitch
  import opened RegionSlots
  import opened RegionTiles
  import opened RegionWalk
  import opened RegionMemory
  import opened RegionUpkeep
  import R = RegionRuns

  // ----- queueing a region

  /** A range that was reserved before stays blank. */
  lemma QueueOtherBlank(m: Memory, m': Memory, t: Item, n: nat)
    requires Covered(m) && ItemBlank(m, t) && HasRoom(m.s) && 0 < n <= m.tiles[m.s.pos]
             && m'.tiles == Cut(m.tiles, m.s.pos, n)
    requires m'.s.pos == m.s.pos + n && (HasRoom(m'.s) ==> n < m.tiles[m.s.pos])
    ensures ItemBlank(m', t)
  {
    if t.cursor < t.end {
      CutKeeps(m.tiles, Top(m.s), m.s.pos, n, t.cursor);
      if m.s.pos < t.cursor { PieceEnds(m.tiles, Top(m.s), m.s.pos, t.cursor); }
    }
  }

  lemma QueueNewBlank(m: Memory, m': Memory, r: nat, n: nat)
    requires Covered(m) && HasRoom(m.s) && 0 < n <= m.tiles[m.s.pos] && m'.tiles == Cut(m.tiles, m.s.pos, n)
    requires m'.s.pos == m.s.pos + n && n % 8 == 0 && r < |m.s.used| && n == m.s.used[r].bytes
    ensures ItemBlank(m', NewItem(m.s, r))
  {
    CutWhole(m.tiles, m.s.pos, n);
  }

  lemma QueueRanges(m: Memory, m': Memory, r: nat, n: nat)
    requires Shape(m.s) && Covered(m) && Ranges(m) && CanQueue(m.s, r) && m.s.cur < |m.s.used| && n == m.s.used[r].bytes
    requires m'.s == Queue(m.s, r) && m'.tiles == Cut(m.tiles, m.s.pos, n)
    ensures Ranges(m')
  {
    AllocFacts(m, n);
    var last := |m.s.items|;
    forall k | 0 <= k < |m'.s.items| ensures ItemBlank(m', m'.s.items[k]) {
      if k < last { assert ItemBlank(m, m.s.items[k]); QueueOtherBlank(m, m', m.s.items[k], n); }
      else { QueueNewBlank(m, m', r, n); }
    }
    forall k, l | 0 <= k < l < |m'.s.items| ensures CursorsApart(m'.s.items[k], m'.s.items[l]) {
      assert ItemBlank(m, m.s.items[k]);
      if l < last { assert CursorsApart(m.s.items[k], m.s.items[l]); }
    }
  }

  lemma QueueBlank(m: Memory, r: nat, n: nat, y: nat)
    requires Shape(m.s) && Covered(m) && CanQueue(m.s, r) && m.s.cur < |m.s.used| && n == m.s.used[r].bytes
    ensures m.s.pos in m.tiles
    ensures Blank(Queue(m.s, r), y) ==> Blank(m.s, y) || (y == m.s.pos + n && n < m.tiles[m.s.pos])
  {
    AllocFacts(m, n);
    var s' := Queue(m.s, r);
    if Blank(s', y) && !(HasRoom(s') && y == s'.pos) {
      var k :| 0 <= k < |s'.items| && s'.items[k].cursor == y && s'.items[k].cursor < s'.items[k].end;
      assert k < |m.s.items| ==> m.s.items[k] == s'.items[k];
    }
  }

  lemma QueueObjects(m: Memory, m': Memory, r: nat, n: nat)
    requires Shape(m.s) && Covered(m) && Objects(m) && CanQueue(m.s, r) && m.s.cur < |m.s.used|
             && n == m.s.used[r].bytes
    requires m'.s == Queue(m.s, r) && m'.tiles == Cut(m.tiles, m.s.pos, n) && m'.held == m.held
    ensures Objects(m')
  {
    AllocFacts(m, n);
    forall k | 0 <= k < |m'.s.live| ensures Written(m', m'.s.live[k].off, m'.s.live[k].size) {
      QueueBlank(m, r, n, m.s.live[k].off);
      CutWritten(m, m', m.s.pos, n, m.s.live[k].off, m.s.live[k].size);
    }
    forall k | 0 <= k < |m'.s.dead| ensures Written(m', m'.s.dead[k].off, m'.s.dead[k].size) {
      QueueBlank(m, r, n, m.s.dead[k].off);
      CutWritten(m, m', m.s.pos, n, m.s.dead[k].off, m.s.dead[k].size);
    }
    forall k | 0 <= k < |m'.held| ensures Written(m', m'.held[k].off, m'.held[k].size) {
      QueueBlank(m, r, n, m.held[k].off);
      CutWritten(m, m', m.s.pos, n, m.held[k].off, m.held[k].size);
    }
  }

  lemma QueueEdges(m: Memory, m': Memory, r: nat, n: nat)
    requires Covered(m) && Edges(m) && CanQueue(m.s, r) && m.s.cur < |m.s.used| && n == m.s.used[r].bytes
             && m.s.pos in m.tiles
    requires m'.s == Queue(m.s, r) && m'.tiles == Cut(m.tiles, m.s.pos, n)
    ensures Edges(m')
  {
    RegionBoundsTiled(m, r);
    forall k | 0 <= k < |m'.s.items|
      ensures m'.s.items[k].src in m'.tiles && Bound(m'.tiles, Top(m'.s), m'.s.items[k].src + m'.s.items[k].len)
    {
      if k < |m.s.items| { assert m.s.items[k].src in m.tiles; }
    }
  }

  /** A region begins and ends with a piece. */
  lemma RegionBoundsTiled(m: Memory, r: nat)
    requires Covered(m) && r < |m.s.used|
    ensures r * m.s.size in m.tiles && Bound(m.tiles, Top(m.s), r * m.s.size + m.s.size)
  {
    assert StartsAt(m, r);
    NextStart(r, m.s.size);
    if r + 1 < |m.s.used| { assert StartsAt(m, r + 1); }
  }

  lemma NextStart(r: nat, size: nat)
    ensures (r + 1) * size == r * size + size
  {}

  lemma QueueWalked(m: Memory, m': Memory, r: nat, n: nat)
    requires Shape(m.s) && ItemsOk(m.s) && Covered(m) && Walked(m) && CanQueue(m.s, r) && m.s.cur < |m.s.used|
             && n == m.s.used[r].bytes
    requires m'.s == Queue(m.s, r) && m'.tiles == Cut(m.tiles, m.s.pos, n)
    requires m'.at == if m.s.items == [] then r * m.s.size else m.at
    ensures Walked(m')
  {
    AllocFacts(m, n);
    if m.s.items != [] {
      assert ItemOk(m.s, m.s.items[0]);
      NotInSource(m.s, m.s.items[0], m.s.pos);
      if SmallSource(m') { CutSmall(m, m', m.s.pos, n); }
    } else {
      RegionBoundsTiled(m, r);
    }
  }

  lemma QueueLayout(m: Memory, r: nat)
    requires Shape(m.s) && ItemsOk(m.s) && Layout(m) && Enabled(m, QueueRegion(r)) && |m.s.items| < MAX_QUEUE
    ensures Layout(Next(m, QueueRegion(r)))
  {
    var m', n := Next(m, QueueRegion(r)), m.s.used[r].bytes;
    AllocFacts(m, n);
    CutWhole(m.tiles, m.s.pos, n);
    CutBase(m, m', m.s.pos, n);
    QueueEdges(m, m', r, n);
    QueueRanges(m, m', r, n);
    QueueObjects(m, m', r, n);
    QueueWalked(m, m', r, n);
  }

  lemma QueueRegionInv(m: Memory, r: nat)
    requires MemInv(m) && Enabled(m, QueueRegion(r)) && |m.s.items| < MAX_QUEUE
    ensures MemInv(Next(m, QueueRegion(r)))
  {
    R.NextInv(m.s, R.QueueStep(r));
    QueueLayout(m, r);
    SameSessions(m, Next(m, QueueRegion(r)));
  }

  // ----- visiting an object

  /** The object at the walk, with what is known of the range that it is moved to. */
  ghost predicate Moves(m: Memory, k: nat) {
    && m.s.items != [] && k < |m.s.live| && m.s.live[k].off == m.at && m.s.items[0].src <= m.at < SourceEnd(m)
    && Shape(m.s) && ItemsOk(m.s) && Layout(m)
  }

  lemma MoveFacts(m: Memory, k: nat)
    requires Moves(m, k)
    ensures CanMove(m.s, k)
    ensures var t, n := m.s.items[0], m.s.live[k].size;
            && t.cursor < t.end && t.cursor in m.tiles && 0 < n <= m.tiles[t.cursor] == t.end - t.cursor
            && n % 8 == 0 && Blank(m.s, t.cursor) && !(HasRoom(m.s) && t.cursor == m.s.pos)
               && !(t.src <= t.cursor < SourceEnd(m))
  {
    EvacuationFits(m.s, k);
    var t := m.s.items[0];
    assert ItemBlank(m, t) && ItemOk(m.s, t) && SourceTargetApart(t, t);
    assert Written(m, m.s.live[k].off, m.s.live[k].size);
  }

  lemma MoveBlank(m: Memory, k: nat, y: nat)
    requires Moves(m, k)
    ensures m.s.items[0].cursor in m.tiles
    ensures var x, n := m.s.items[0].cursor, m.s.live[k].size;
            Blank(Move(m.s, k), y) ==> (Blank(m.s, y) && y != x) || (y == x + n && n < m.tiles[x])
  {
    MoveFacts(m, k);
    var s' := Move(m.s, k);
    if Blank(s', y) && !(HasRoom(s') && y == s'.pos) {
      var l :| 0 <= l < |s'.items| && s'.items[l].cursor == y && s'.items[l].cursor < s'.items[l].end;
      if l > 0 { assert m.s.items[l] == s'.items[l] && CursorsApart(m.s.items[0], m.s.items[l]); }
    }
  }

  lemma MoveWritten(m: Memory, m': Memory, k: nat, off: nat, size: nat)
    requires Moves(m, k) && Written(m, off, size)
    requires m'.s == Move(m.s, k) && m.s.items[0].cursor in m.tiles
             && m'.tiles == Cut(m.tiles, m.s.items[0].cursor, m.s.live[k].size)
    ensures Written(m', off, size) && off != m.s.items[0].cursor
  {
    MoveFacts(m, k);
    MoveBlank(m, k, off);
    CutWritten(m, m', m.s.items[0].cursor, m.s.live[k].size, off, size);
  }

  lemma MoveObjects(m: Memory, m': Memory, k: nat)
    requires Moves(m, k) && m'.held == m.held
    requires m'.s == Move(m.s, k) && m.s.items[0].cursor in m.tiles
             && m'.tiles == Cut(m.tiles, m.s.items[0].cursor, m.s.live[k].size)
    ensures Objects(m')
  {
    var x, n := m.s.items[0].cursor, m.s.live[k].size;
    MoveFacts(m, k);
    MoveBlank(m, k, x);
    CutWhole(m.tiles, x, n);
    forall j | 0 <= j < |m'.s.live|
      ensures Written(m', m'.s.live[j].off, m'.s.live[j].size) && (j != k ==> m'.s.live[j].off != x)
    {
      if j != k { MoveWritten(m, m', k, m.s.live[j].off, m.s.live[j].size); }
    }
    forall j | 0 <= j < |m'.s.dead| ensures Written(m', m'.s.dead[j].off, m'.s.dead[j].size) && m'.s.dead[j].off != x {
      MoveWritten(m, m', k, m.s.dead[j].off, m.s.dead[j].size);
    }
    forall j | 0 <= j < |m'.held| ensures Written(m', m'.held[j].off, m'.held[j].size) {
      MoveWritten(m, m', k, m.held[j].off, m.held[j].size);
    }
  }

  lemma MoveRanges(m: Memory, m': Memory, k: nat)
    requires Moves(m, k)
    requires m'.s == Move(m.s, k) && m.s.items[0].cursor in m.tiles
             && m'.tiles == Cut(m.tiles, m.s.items[0].cursor, m.s.live[k].size)
    ensures Ranges(m')
  {
    var x, n := m.s.items[0].cursor, m.s.live[k].size;
    MoveFacts(m, k);
    CutWhole(m.tiles, x, n);
    forall l | 0 <= l < |m'.s.items| ensures ItemBlank(m', m'.s.items[l]) {
      MoveItemBlank(m, m', k, l);
    }
    forall i, l | 0 <= i < l < |m'.s.items| ensures CursorsApart(m'.s.items[i], m'.s.items[l]) {
      assert CursorsApart(m.s.items[i], m.s.items[l]) && ItemBlank(m, m.s.items[l]);
      if i == 0 && m.s.items[l].cursor < m.s.items[l].end && x < m.s.items[l].cursor {
        PieceEnds(m.tiles, Top(m.s), x, m.s.items[l].cursor);
      }
    }
  }

  lemma MoveFrontBlank(m: Memory, m': Memory, t: Item, n: nat)
    requires Covered(m) && ItemBlank(m, t) && t.cursor < t.end && 0 < n <= t.end - t.cursor && n % 8 == 0
    requires m'.tiles == Cut(m.tiles, t.cursor, n) && HasRoom(m'.s) == HasRoom(m.s) && m'.s.pos == m.s.pos
    ensures ItemBlank(m', t.(cursor := t.cursor + n))
  {
    CutWhole(m.tiles, t.cursor, n);
    if HasRoom(m.s) && t.cursor < m.s.pos { PieceEnds(m.tiles, Top(m.s), t.cursor, m.s.pos); }
  }

  lemma MoveOtherBlank(m: Memory, m': Memory, t: Item, x: nat, n: nat)
    requires Covered(m) && ItemBlank(m, t) && x in m.tiles && n <= m.tiles[x] && (t.cursor < t.end ==> t.cursor != x)
    requires m'.tiles == Cut(m.tiles, x, n) && HasRoom(m'.s) == HasRoom(m.s) && m'.s.pos == m.s.pos
    ensures ItemBlank(m', t)
  {
    if t.cursor < t.end { CutKeeps(m.tiles, Top(m.s), x, n, t.cursor); }
  }

  lemma MoveItemBlank(m: Memory, m': Memory, k: nat, l: nat)
    requires Moves(m, k) && l < |m.s.items|
    requires m'.s == Move(m.s, k) && m.s.items[0].cursor in m.tiles
             && m'.tiles == Cut(m.tiles, m.s.items[0].cursor, m.s.live[k].size)
    ensures ItemBlank(m', m'.s.items[l])
  {
    MoveFacts(m, k);
    assert ItemBlank(m, m.s.items[l]);
    if l == 0 {
      MoveFrontBlank(m, m', m.s.items[0], m.s.live[k].size);
    } else {
      assert CursorsApart(m.s.items[0], m.s.items[l]);
      MoveOtherBlank(m, m', m.s.items[l], m.s.items[0].cursor, m.s.live[k].size);
    }
  }

  lemma MoveLayout(m: Memory, m': Memory, k: nat)
    requires Moves(m, k) && m'.held == m.held
    requires m'.s == Move(m.s, k) && m.s.items[0].cursor in m.tiles
             && m'.tiles == Cut(m.tiles, m.s.items[0].cursor, m.s.live[k].size)
    ensures Covered(m') && Ranges(m') && Objects(m') && Edges(m')
  {
    var x, n := m.s.items[0].cursor, m.s.live[k].size;
    MoveFacts(m, k);
    if HasRoom(m.s) { CutKeeps(m.tiles, Top(m.s), x, n, m.s.pos); }
    CutBase(m, m', x, n);
    CutEdges(m, m', x, n);
    MoveRanges(m, m', k);
    MoveObjects(m, m', k);
  }

  /** Where the walk goes from a piece that is not too large. */
  lemma JumpIs(m: Memory, junk: nat)
    requires Covered(m) && Edges(m) && m.s.items != [] && SmallSource(m) && Arrived(m)
             && m.s.items[0].src <= m.at < SourceEnd(m)
    requires Bound(m.tiles, Top(m.s), SourceEnd(m))
    ensures m.at in m.tiles && Jump(m.tiles, _ => junk, m.at) == m.tiles[m.at]
    ensures m.at + m.tiles[m.at] <= SourceEnd(m) && Bound(m.tiles, Top(m.s), m.at + m.tiles[m.at])
  {
    assert m.at in m.tiles by {
      if SourceEnd(m) in m.tiles { assert TileOk(m.tiles, Top(m.s), SourceEnd(m)); }
    }
    assert TileOk(m.tiles, Top(m.s), m.at);
    FieldExactly(m.tiles[m.at]);
    PieceEnds(m.tiles, Top(m.s), m.at, SourceEnd(m));
  }

  /** Objects behind the walk begin with a piece, so none lies between two of its positions. */
  lemma NoneBetween(m: Memory, j: nat)
    requires Covered(m) && Objects(m) && m.at in m.tiles && j < |m.s.live| && m.at < m.s.live[j].off
    ensures m.at + m.tiles[m.at] <= m.s.live[j].off
  {
    assert Written(m, m.s.live[j].off, m.s.live[j].size);
    PieceEnds(m.tiles, Top(m.s), m.at, m.s.live[j].off);
  }

  lemma VisitWalked(m: Memory, junk: nat)
    requires Shape(m.s) && ItemsOk(m.s) && Layout(m) && Enabled(m, Visit(junk))
    ensures Walked(Next(m, Visit(junk)))
  {
    var m' := Next(m, Visit(junk));
    assert m'.s.items[0].src == m.s.items[0].src && m'.s.items[0].len == m.s.items[0].len;
    if SmallSource(m') {
      var k := if LiveAt(m.s, m.at) then LiveIndex(m.s.live, m.at) else 0;
      if LiveAt(m.s, m.at) {
        MoveFacts(m, k);
        CutSmall(m, m', m.s.items[0].cursor, m.s.live[k].size);
      }
      assert m.s.items[0].src in m.tiles;
      JumpIs(m, junk);
      forall j | 0 <= j < |m'.s.live| ensures !(m'.s.items[0].src <= m'.s.live[j].off < m'.at) {
        if !(LiveAt(m.s, m.at) && j == k) {
          assert m'.s.live[j] == m.s.live[j];
          if m.at < m.s.live[j].off { NoneBetween(m, j); }
          assert LiveAt(m.s, m.at) ==> m.s.live[j].off != m.s.live[k].off;
        }
      }
    }
  }

  lemma VisitLayout(m: Memory, junk: nat)
    requires Shape(m.s) && ItemsOk(m.s) && Layout(m) && Enabled(m, Visit(junk))
    ensures Layout(Next(m, Visit(junk)))
  {
    var m' := Next(m, Visit(junk));
    VisitWalked(m, junk);
    if LiveAt(m.s, m.at) {
      MoveLayout(m, m', LiveIndex(m.s.live, m.at));
    } else {
      SameCovered(m, m');
      SameRanges(m, m');
      SameObjects(m, m');
    }
  }

  lemma VisitInv(m: Memory, junk: nat)
    requires MemInv(m) && Enabled(m, Visit(junk))
    ensures MemInv(Next(m, Visit(junk)))
  {
    VisitLayout(m, junk);
    if LiveAt(m.s, m.at) {
      var k := LiveIndex(m.s.live, m.at);
      MoveFacts(m, k);
      R.NextInv(m.s, R.MoveStep(k));
    }
    SameSessions(m, Next(m, Visit(junk)));
  }

  // ----- the end of an evacuation

  /** With a small source, the walk has come by everything: nothing is left alive. */
  lemma WalkFinished(m: Memory)
    requires m.s.items != [] && Walked(m) && SmallSource(m) && m.at == SourceEnd(m)
    ensures CanFinish(m.s)
  {}

  lemma SubEven(a: nat, b: nat)
    requires a % 8 == 0 && b % 8 == 0
    ensures Sub(a, b) % 8 == 0
  {}

  lemma FinishEven(m: Memory)
    requires m.s.size > 0 && m.s.items != [] && EvenUsed(m.s) && ItemBlank(m, m.s.items[0])
    requires Region(m.s.items[0].src, m.s.size) < |m.s.used| && Region(m.s.items[0].dest, m.s.size) < |m.s.used|
    ensures EvenUsed(Finish(m.s))
  {
    var t := m.s.items[0];
    var from, to := Region(t.src, m.s.size), Region(t.dest, m.s.size);
    SubEven(t.end, t.cursor);
    SubEven(t.cursor, t.dest);
    SubEven(m.s.used[to].bytes, Sub(t.end, t.cursor));
    SubEven(m.s.used[from].bytes, Sub(t.cursor, t.dest));
  }

  /** Fewer ranges are blank: the rest of the range is filled. */
  predicate FewerBlank(m: Memory, m': Memory) {
    && m'.tiles == m.tiles && m'.s.size == m.s.size && |m'.s.used| == |m.s.used| && m'.s.cur == m.s.cur
       && m'.s.pos == m.s.pos
    && (m'.s.open ==> m.s.open)
    && (m'.s.items == m.s.items || (m.s.items != [] && m'.s.items == m.s.items[1..]))
    && m'.s.live == m.s.live && m'.s.dead == m.s.dead && m'.held == m.held
  }

  lemma FewerWritten(m: Memory, m': Memory, off: nat, size: nat)
    requires FewerBlank(m, m') && Written(m, off, size)
    ensures Written(m', off, size)
  {
    var d := if m'.s.items == m.s.items then 0 else 1;
    forall k | 0 <= k < |m'.s.items| ensures m'.s.items[k] == m.s.items[k + d] {}
  }

  lemma FewerObjects(m: Memory, m': Memory)
    requires FewerBlank(m, m') && Objects(m)
    ensures Objects(m')
  {
    forall k | 0 <= k < |m'.s.live| ensures Written(m', m'.s.live[k].off, m'.s.live[k].size) {
      FewerWritten(m, m', m.s.live[k].off, m.s.live[k].size);
    }
    forall k | 0 <= k < |m'.s.dead| ensures Written(m', m'.s.dead[k].off, m'.s.dead[k].size) {
      FewerWritten(m, m', m.s.dead[k].off, m.s.dead[k].size);
    }
    forall k | 0 <= k < |m'.held| ensures Written(m', m'.held[k].off, m'.held[k].size) {
      FewerWritten(m, m', m.held[k].off, m.held[k].size);
    }
  }

  lemma FewerRanges(m: Memory, m': Memory)
    requires FewerBlank(m, m') && Covered(m) && Ranges(m) && Edges(m) && EvenUsed(m'.s)
    ensures Covered(m') && Ranges(m') && Edges(m')
  {
    var d := if m'.s.items == m.s.items then 0 else 1;
    forall i: nat | i < |m'.s.used| ensures StartsAt(m', i) { assert StartsAt(m, i); }
    forall k | 0 <= k < |m'.s.items| ensures ItemBlank(m', m'.s.items[k]) && m'.s.items[k] == m.s.items[k + d] {
      assert ItemBlank(m, m.s.items[k + d]);
    }
    forall k, l | 0 <= k < l < |m'.s.items| ensures CursorsApart(m'.s.items[k], m'.s.items[l]) {
      assert CursorsApart(m.s.items[k + d], m.s.items[l + d]);
    }
  }

  lemma FinishLayout(m: Memory)
    requires Shape(m.s) && ItemsOk(m.s) && Layout(m) && Enabled(m, EndEvacuation) && m.over.None?
    ensures Layout(Next(m, EndEvacuation))
  {
    var m' := Next(m, EndEvacuation);
    assert ItemBlank(m, m.s.items[0]);
    FinishEven(m);
    FewerRanges(m, m');
    FewerObjects(m, m');
    if |m.s.items| > 1 { assert m.s.items[1].src in m.tiles && ItemOk(m.s, m.s.items[1]); }
  }

  lemma EndState(m: Memory)
    requires Inv(m.s) && m.s.items != [] && Walked(m) && SmallSource(m) && m.at == SourceEnd(m)
    ensures Region(m.s.items[0].src, m.s.size) < |m.s.used| && Region(m.s.items[0].dest, m.s.size) < |m.s.used|
    ensures Inv(Finish(m.s))
  {
    WalkFinished(m);
    FinishInv(m.s);
  }

  /** The accounting leaves objects, delayed frees and free regions alone. */
  lemma FinishKeeps(s: State)
    requires s.size > 0 && s.items != []
    requires Region(s.items[0].src, s.size) < |s.used| && Region(s.items[0].dest, s.size) < |s.used|
    ensures var s' := Finish(s);
            && s'.size == s.size && |s'.used| == |s.used| && s'.free == s.free && s'.tokens == s.tokens
               && s'.dead == s.dead
            && s'.live == s.live && s'.items == s.items[1..] && s'.open == s.open && s'.cur == s.cur && s'.pos == s.pos
  {}

  lemma EndSessions(m: Memory)
    requires m.s.size > 0 && Waiting(m) && Reading(m) && Enabled(m, EndEvacuation) && m.over.None?
    ensures Waiting(Next(m, EndEvacuation)) && Reading(Next(m, EndEvacuation))
  {
    FinishKeeps(m.s);
    SameSessions(m, Next(m, EndEvacuation));
  }

  lemma EndInv(m: Memory)
    requires MemInv(m) && Enabled(m, EndEvacuation) && SmallSource(m)
    ensures MemInv(Next(m, EndEvacuation))
  {
    EndState(m);
    EndSessions(m);
    FinishLayout(m);
  }

  // ----- closing the current region

  lemma CloseEven(m: Memory)
    requires Shape(m.s) && Covered(m) && m.s.open
    ensures EvenUsed(Close(m.s))
  {
    SubEven(m.s.used[m.s.cur].bytes, Sub(RegionEnd(m.s), m.s.pos));
  }

  lemma CloseLayout(m: Memory, n: nat)
    requires Shape(m.s) && Layout(m) && Enabled(m, CloseRegion(n))
    ensures Layout(Next(m, CloseRegion(n)))
  {
    var m' := Next(m, CloseRegion(n));
    CloseEven(m);
    FewerRanges(m, m');
    FewerObjects(m, m');
  }

  lemma CloseRegionInv(m: Memory, n: nat)
    requires MemInv(m) && Enabled(m, CloseRegion(n))
    ensures MemInv(Next(m, CloseRegion(n)))
  {
    CloseInv(m.s);
    CloseLayout(m, n);
    SameSessions(m, Next(m, CloseRegion(n)));
  }
}
