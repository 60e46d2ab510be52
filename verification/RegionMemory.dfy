/** The cold file with what is written in it: the pieces from header to header, the walk of the evacuation
    over them, and the sessions that read. The steps are those of the allocator, and those of its users. */
module RegionMemory {
  import opened Leb128
  import opened RegionChunks
  import opened RegionState
  import opened RegionSwitch
  import opened RegionSlots
  import opened RegionTiles
  import opened RegionWalk
  import R = RegionRuns

  /** A session has read where an object is. */
  datatype Held = Held(session: nat, off: nat, size: nat)

  /** `tiles` are the pieces of the file. The front evacuation has come to `at`, and `copying` tells whether
      it has copied the object there; `over` is the item that has taken its slot, if one has. A delayed free waits
      for the sessions in `grace`. */
  datatype Memory = Memory(s: State, tiles: TileMap, at: nat, copying: bool, over: Option<Item>,
                           sessions: set<nat>, clock: nat, grace: seq<set<nat>>, held: seq<Held>)

  datatype Step =
    | Alloc(n: nat) | Drop(k: nat, session: nat) | Dealloc(k: nat)
    | CopyObject | Visit(junk: nat) | EndEvacuation | Hand | Free(k: nat)
    | CloseRegion(n: nat) | ReuseRegion(r: nat) | ExtendFile | DoubleRegions | QueueRegion(r: nat)
    | OpenSession | Hold(session: nat, k: nat) | CloseSession(session: nat)

  // ----- positions

  function Top(s: State): nat { |s.used| * s.size }

  function RegionEnd(s: State): nat { s.cur * s.size + s.size }

  predicate HasRoom(s: State) { s.open && s.pos < RegionEnd(s) }

  /** Where nothing is written yet: the rest of the current region, and of the reserved ranges. */
  ghost predicate Blank(s: State, x: nat) {
    (HasRoom(s) && x == s.pos)
      || exists k :: 0 <= k < |s.items| && s.items[k].cursor == x && s.items[k].cursor < s.items[k].end
  }

  predicate LiveAt(s: State, x: nat) { exists k :: 0 <= k < |s.live| && s.live[k].off == x }

  function SourceEnd(m: Memory): nat
    requires m.s.items != []
  {
    m.s.items[0].src + m.s.items[0].len
  }

  // ----- steps

  /** The slot of the next item is free. With as many items as slots it is that of the front. */
  predicate SlotFree(m: Memory) {
    |m.s.items| < MAX_QUEUE || (|m.s.items| == MAX_QUEUE && m.over.None? && Over(m.s.items, m.at))
  }

  /** The loop over full-size fillers ends: its guard does not hold, or else it holds for ever. */
  predicate Ends(t: Item, u: Item) { t.cursor <= FIELD + u.end }

  predicate Enabled(m: Memory, step: Step) {
    var s := m.s;
    && s.size > 0
    && match step
       case Alloc(n) => CanAllocate(s, n) && ObjectSize(n) && s.pos in m.tiles
       case Drop(k, session) => k < |s.live| && session in m.sessions
       case Dealloc(k) => k < |s.dead| && Region(s.dead[k].off, s.size) < |s.used|
       case CopyObject => s.items != [] && m.at < SourceEnd(m) && LiveAt(s, m.at)
       case Visit(_) => s.items != [] && m.at < SourceEnd(m)
         && (LiveAt(s, m.at) ==> m.copying && s.items[0].cursor in m.tiles)
       case EndEvacuation =>
         && s.items != [] && m.at == SourceEnd(m) && (m.over.Some? ==> Ends(s.items[0], m.over.value))
         && Region(s.items[0].src, s.size) < |s.used| && Region(s.items[0].dest, s.size) < |s.used|
       case Hand => true
       case Free(k) => k < |s.tokens| && k < |m.grace| && m.grace[k] !! m.sessions
       case CloseRegion(n) => s.open && s.cur < |s.used| && ObjectSize(n) && s.pos + n > RegionEnd(s)
       case ReuseRegion(r) => !s.open && r in s.free && r < |s.used|
       case ExtendFile => !s.open && |s.used| < MAX_REGIONS
       case DoubleRegions => CanDouble(s)
       case QueueRegion(r) => Reservable(s, r) && s.cur < |s.used| && s.pos in m.tiles && SlotFree(m)
       case OpenSession => true
       case Hold(session, k) => session in m.sessions && k < |s.live|
       case CloseSession(session) => session in m.sessions && forall d :: 0 <= d < |s.dead| ==> s.dead[d].tag != session
  }

  /** The object at the walk is moved, if it is still alive. */
  function VisitObject(m: Memory): Memory
    requires m.s.items != [] && (LiveAt(m.s, m.at) ==> m.s.items[0].cursor in m.tiles)
  {
    if LiveAt(m.s, m.at) then
      var k := LiveIndex(m.s.live, m.at);
      m.(s := Move(m.s, k), tiles := Cut(m.tiles, m.s.items[0].cursor, m.s.live[k].size))
    else m
  }

  function LiveIndex(live: seq<Chunk>, x: nat): (k: nat)
    requires exists k :: 0 <= k < |live| && live[k].off == x
    ensures k < |live| && live[k].off == x
  {
    if live[0].off == x then 0
    else
      assert exists k :: 0 <= k < |live[1..]| && live[1..][k].off == x by {
        var k :| 0 <= k < |live| && live[k].off == x;
        assert live[1..][k - 1].off == x;
      }
      LiveIndex(live[1..], x) + 1
  }

  function Others(held: seq<Held>, session: nat): (r: seq<Held>)
    ensures forall h :: h in r <==> h in held && h.session != session
  {
    if held == [] then []
    else Others(held[..|held| - 1], session) + (if held[|held| - 1].session != session then [held[|held| - 1]] else [])
  }

  /** A filler is written behind the range of the front, as far as the end of the item in the slot. */
  function EndOver(m: Memory, u: Item): Memory
    requires Enabled(m, EndEvacuation)
  {
    var t, s' := m.s.items[0], FinishOver(m.s, u);
    var n := Excess(SlotOf(u, u.src), t.cursor);
    m.(s := s', tiles := if n == 0 then m.tiles else m.tiles[t.cursor := n], over := None,
       at := if s'.items == [] then 0 else s'.items[0].src, copying := false)
  }

  function Next(m: Memory, step: Step): Memory
    requires Enabled(m, step)
  {
    var s := m.s;
    match step
    case Alloc(n) => m.(s := Allocate(s, n), tiles := Cut(m.tiles, s.pos, n))
    case Drop(k, session) => m.(s := Release(s, k, session))
    case Dealloc(k) => m.(s := Deallocate(s, k))
    case CopyObject => m.(copying := true)
    case Visit(junk) => VisitObject(m).(at := m.at + Jump(m.tiles, _ => junk, m.at), copying := false)
    case EndEvacuation =>
      if m.over.None? then m.(s := Finish(s), at := if |s.items| > 1 then s.items[1].src else 0, copying := false)
      else EndOver(m, m.over.value)
    case Hand => m.(s := Publish(s), grace := m.grace + [m.sessions])
    case Free(k) => m.(s := Fire(s, k), grace := Without(m.grace, k))
    case CloseRegion(_) => m.(s := Close(s))
    case ReuseRegion(r) => m.(s := Reuse(s, r), tiles := Clear(m.tiles, r * s.size, s.size))
    case ExtendFile => m.(s := Extend(s), tiles := Grow(m.tiles, Top(s), s.size))
    case DoubleRegions => m.(s := Double(s))
    case QueueRegion(r) =>
      var tiles := Cut(m.tiles, s.pos, s.used[r].bytes);
      if |s.items| < MAX_QUEUE then
        m.(s := Queue(s, r), tiles := tiles, at := if s.items == [] then r * s.size else m.at,
           copying := s.items != [] && m.copying)
      else m.(s := QueueOver(s, r), tiles := tiles, over := Some(NewItem(s, r)))
    case OpenSession => m.(sessions := m.sessions + {m.clock}, clock := m.clock + 1)
    case Hold(session, k) => m.(held := m.held + [Held(session, s.live[k].off, s.live[k].size)])
    case CloseSession(session) => m.(sessions := m.sessions - {session}, held := Others(m.held, session))
  }

  // ----- the invariant

  /** Something is written at `off`, and reaches over `size` bytes. */
  ghost predicate Written(m: Memory, off: nat, size: nat) { off in m.tiles && m.tiles[off] == size && !Blank(m.s, off) }

  ghost predicate ItemBlank(m: Memory, t: Item) {
    && t.cursor % 8 == 0 && t.end % 8 == 0 && t.dest % 8 == 0
    && (t.cursor < t.end ==>
        t.cursor in m.tiles && m.tiles[t.cursor] == t.end - t.cursor && !(HasRoom(m.s) && t.cursor == m.s.pos))
  }

  /** The file is covered by its pieces, and regions begin with one. */
  ghost predicate Covered(m: Memory) {
    && m.s.size % 8 == 0 && Tiles(m.tiles, Top(m.s)) && Even(m.tiles)
    && (forall i: nat {:trigger StartsAt(m, i)} :: i < |m.s.used| ==> StartsAt(m, i))
    && (HasRoom(m.s) ==> m.s.pos in m.tiles && m.tiles[m.s.pos] == RegionEnd(m.s) - m.s.pos)
    && EvenUsed(m.s)
  }

  predicate EvenUsed(s: State) { forall i :: 0 <= i < |s.used| ==> s.used[i].bytes % 8 == 0 }

  ghost predicate StartsAt(m: Memory, i: nat) { i * m.s.size in m.tiles }

  ghost predicate Ranges(m: Memory) {
    && (forall k {:trigger m.s.items[k]} :: 0 <= k < |m.s.items| ==> ItemBlank(m, m.s.items[k]))
    && (forall k, l :: 0 <= k < l < |m.s.items| ==> CursorsApart(m.s.items[k], m.s.items[l]))
  }

  predicate CursorsApart(t: Item, u: Item) { t.cursor < t.end && u.cursor < u.end ==> t.cursor != u.cursor }

  /** What is live, outstanding or read by a session is written, and no two objects are at one place. */
  ghost predicate Objects(m: Memory) {
    && (forall k :: 0 <= k < |m.s.live| ==> Written(m, m.s.live[k].off, m.s.live[k].size))
    && (forall k :: 0 <= k < |m.s.dead| ==> Written(m, m.s.dead[k].off, m.s.dead[k].size))
    && (forall k :: 0 <= k < |m.held| ==> Written(m, m.held[k].off, m.held[k].size))
    && (forall k, l :: 0 <= k < l < |m.s.live| ==> m.s.live[k].off != m.s.live[l].off)
    && (forall k, l :: 0 <= k < l < |m.s.dead| ==> m.s.dead[k].off != m.s.dead[l].off)
    && (forall k, l :: 0 <= k < |m.s.live| && 0 <= l < |m.s.dead| ==> m.s.live[k].off != m.s.dead[l].off)
  }

  /** Deallocations are outstanding in open sessions, and delayed frees wait for these. */
  predicate Waiting(m: Memory) {
    && |m.grace| == |m.s.tokens|
    && (forall k :: 0 <= k < |m.grace| ==> m.s.tokens[k].waits <= m.grace[k])
    && (forall k, x :: 0 <= k < |m.grace| && x in m.grace[k] ==> x < m.clock)
    && (forall x :: x in m.sessions ==> x < m.clock)
    && (forall d :: 0 <= d < |m.s.dead| ==> m.s.dead[d].tag in m.sessions)
  }

  /** A region that is free, or will be while the session is open, holds nothing that it reads. */
  predicate HeldQuiet(m: Memory, h: Held)
    requires m.s.size > 0 && |m.grace| == |m.s.tokens|
  {
    && h.session in m.sessions && Region(h.off, m.s.size) < |m.s.used| && Region(h.off, m.s.size) !in m.s.free
    && forall k :: 0 <= k < |m.s.tokens| && Current(m.s, m.s.tokens[k])
                   && Region(h.off, m.s.size) in m.s.tokens[k].mask ==>
         h.session in m.grace[k]
  }

  predicate Reading(m: Memory)
    requires m.s.size > 0 && |m.grace| == |m.s.tokens|
  {
    forall k :: 0 <= k < |m.held| ==> HeldQuiet(m, m.held[k])
  }

  /** The pieces of the source are no larger than a header can tell. */
  predicate SmallSource(m: Memory)
    requires m.s.items != []
  {
    Small(m.tiles, m.s.items[0].src, SourceEnd(m))
  }

  /** The walk is at a piece, and nothing before it is alive. */
  ghost predicate Arrived(m: Memory)
    requires m.s.items != []
  {
    && m.at <= SourceEnd(m) && Bound(m.tiles, Top(m.s), m.at)
    && forall k :: 0 <= k < |m.s.live| ==> !(m.s.items[0].src <= m.s.live[k].off < m.at)
  }

  ghost predicate Walked(m: Memory) {
    m.s.items != [] ==> m.s.items[0].src <= m.at && (SmallSource(m) ==> Arrived(m))
  }

  /** Sources begin and end with pieces. */
  ghost predicate Edges(m: Memory) {
    forall k {:trigger m.s.items[k]} :: 0 <= k < |m.s.items| ==>
      m.s.items[k].src in m.tiles && Bound(m.tiles, Top(m.s), m.s.items[k].src + m.s.items[k].len)
  }

  ghost predicate Layout(m: Memory) { Covered(m) && Ranges(m) && Objects(m) && Edges(m) && Walked(m) }

  ghost predicate MemInv(m: Memory) { m.over.None? && Inv(m.s) && Layout(m) && Waiting(m) && Reading(m) }

  function Init(size: nat): Memory { Memory(RegionState.Init(size), map[0 := size], 0, false, None, {}, 0, [], []) }

  lemma InitInv(size: nat)
    requires size > 0 && size % 8 == 0
    ensures MemInv(Init(size))
  {
    var m := Init(size);
    RegionState.InitInv(size);
    forall i: nat | i < |m.s.used| ensures StartsAt(m, i) { assert i == 0; }
  }
}
