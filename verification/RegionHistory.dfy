/** Every run of the cold file from a fresh one. */
module RegionHistory {
  import opened RegionChunks
  import opened RegionState
  import opened RegionSwitch
  import opened RegionSlots
  import opened RegionTiles
  import opened RegionWalk
  import opened RegionMemory
  import opened RegionUpkeep
  import opened RegionEvacuate
  import opened RegionTurn

  /** What the steps of a run have to be spared: an evacuation over pieces that are larger than a header can
      tell, a doubling with deallocations outstanding in an empty region that do not fit the counter of its
      neighbour, and a push that takes the slot of an evacuation which is not accounted for. */
  predicate Spared(m: Memory, step: Step) {
    && (step.EndEvacuation? && m.s.items != [] ==> SmallSource(m))
    && (step.DoubleRegions? && m.s.size > 0 ==> DoublingSafe(m.s))
    && (step.QueueRegion? ==> |m.s.items| < MAX_QUEUE)
  }

  lemma NextInv(m: Memory, step: Step)
    requires MemInv(m) && Enabled(m, step) && Spared(m, step)
    ensures MemInv(Next(m, step))
  {
    match step
    case Alloc(n) => AllocInv(m, n);
    case Drop(k, session) => DropInv(m, k, session);
    case Dealloc(k) => DeallocInv(m, k);
    case CopyObject => CopyInv(m);
    case Visit(junk) => VisitInv(m, junk);
    case EndEvacuation => EndInv(m);
    case Hand => HandInv(m);
    case Free(k) => FreeInv(m, k);
    case CloseRegion(n) => CloseRegionInv(m, n);
    case ReuseRegion(r) => ReuseRegionInv(m, r);
    case ExtendFile => ExtendFileInv(m);
    case DoubleRegions => DoubleRegionsInv(m);
    case QueueRegion(r) => QueueRegionInv(m, r);
    case OpenSession => OpenInv(m);
    case Hold(session, k) => HoldInv(m, session, k);
    case CloseSession(session) => CloseSessionInv(m, session);
  }

  predicate Follows(m: Memory, step: Step, m': Memory) { Enabled(m, step) && m' == Next(m, step) }

  predicate StepAt(states: seq<Memory>, steps: seq<Step>, i: nat)
    requires |states| == |steps| + 1 && i < |steps|
  {
    Follows(states[i], steps[i], states[i + 1])
  }

  /** A run: consecutive states are related by a step. */
  ghost predicate Run(states: seq<Memory>, steps: seq<Step>, size: nat) {
    && size > 0 && size % 8 == 0 && |states| == |steps| + 1 && states[0] == RegionMemory.Init(size)
    && forall i: nat {:trigger StepAt(states, steps, i)} :: i < |steps| ==> StepAt(states, steps, i)
  }

  lemma FollowsInv(m: Memory, step: Step, m': Memory)
    requires MemInv(m) && Follows(m, step, m') && Spared(m, step)
    ensures MemInv(m')
  {
    NextInv(m, step);
  }

  /** The first `n` steps are spared all of this. */
  ghost predicate AllSpared(states: seq<Memory>, steps: seq<Step>, n: nat)
    requires |states| == |steps| + 1 && n <= |steps|
  {
    forall i {:trigger Spared(states[i], steps[i])} :: 0 <= i < n ==> Spared(states[i], steps[i])
  }

  lemma {:induction false} RunInv(states: seq<Memory>, steps: seq<Step>, size: nat, i: nat)
    requires Run(states, steps, size) && i < |states| && AllSpared(states, steps, i)
    ensures MemInv(states[i])
    decreases i
  {
    if i == 0 {
      RegionMemory.InitInv(size);
    } else {
      RunInv(states, steps, size, i - 1);
      assert StepAt(states, steps, i - 1) && Spared(states[i - 1], steps[i - 1]);
      FollowsInv(states[i - 1], steps[i - 1], states[i]);
    }
  }

  // ----- what a step writes

  /** The range is apart from all that is live, outstanding, or read by a session. */
  ghost predicate Untouched(m: Memory, lo: nat, n: nat) {
    && (forall k :: 0 <= k < |m.s.live| ==> Apart(m.s.live[k].off, m.s.live[k].off + m.s.live[k].size, lo, lo + n))
    && (forall k :: 0 <= k < |m.s.dead| ==> Apart(m.s.dead[k].off, m.s.dead[k].off + m.s.dead[k].size, lo, lo + n))
    && (forall k :: 0 <= k < |m.held| ==> Apart(m.held[k].off, m.held[k].off + m.held[k].size, lo, lo + n))
  }

  /** What is taken of a blank piece is such a range. */
  lemma BlankUntouched(m: Memory, x: nat, n: nat)
    requires Tiles(m.tiles, Top(m.s)) && Objects(m) && Blank(m.s, x) && x in m.tiles && n <= m.tiles[x]
    ensures Untouched(m, x, n)
  {
    forall k | 0 <= k < |m.s.live| ensures Apart(m.s.live[k].off, m.s.live[k].off + m.s.live[k].size, x, x + n) {
      assert Written(m, m.s.live[k].off, m.s.live[k].size);
      PiecesApart(m.tiles, Top(m.s), x, m.s.live[k].off);
    }
    forall k | 0 <= k < |m.s.dead| ensures Apart(m.s.dead[k].off, m.s.dead[k].off + m.s.dead[k].size, x, x + n) {
      assert Written(m, m.s.dead[k].off, m.s.dead[k].size);
      PiecesApart(m.tiles, Top(m.s), x, m.s.dead[k].off);
    }
    forall k | 0 <= k < |m.held| ensures Apart(m.held[k].off, m.held[k].off + m.held[k].size, x, x + n) {
      assert Written(m, m.held[k].off, m.held[k].size);
      PiecesApart(m.tiles, Top(m.s), x, m.held[k].off);
    }
  }

  lemma AllocUntouched(m: Memory, n: nat)
    requires MemInv(m) && Enabled(m, Alloc(n))
    ensures Untouched(m, m.s.pos, n) && m.s.pos + n <= Top(m.s)
  {
    AllocFacts(m, n);
    BlankUntouched(m, m.s.pos, n);
    assert TileOk(m.tiles, Top(m.s), m.s.pos);
  }

  lemma MoveUntouched(m: Memory, junk: nat)
    requires MemInv(m) && Enabled(m, Visit(junk)) && LiveAt(m.s, m.at)
    ensures var k, x := LiveIndex(m.s.live, m.at), m.s.items[0].cursor;
            Untouched(m, x, m.s.live[k].size) && x + m.s.live[k].size <= Top(m.s)
  {
    var k, x := LiveIndex(m.s.live, m.at), m.s.items[0].cursor;
    MoveFacts(m, k);
    BlankUntouched(m, x, m.s.live[k].size);
    assert TileOk(m.tiles, Top(m.s), x);
  }

  /** The object at the walk is copied to the cursor. */
  lemma CopyUntouched(m: Memory)
    requires MemInv(m) && Enabled(m, CopyObject)
    ensures var n, t := m.s.live[LiveIndex(m.s.live, m.at)].size, m.s.items[0];
            n <= t.end - t.cursor && Untouched(m, t.cursor, n)
  {
    var k := LiveIndex(m.s.live, m.at);
    MoveFacts(m, k);
    BlankUntouched(m, m.s.items[0].cursor, m.s.live[k].size);
  }

  /** The filler behind what was copied. */
  lemma FillUntouched(m: Memory)
    requires MemInv(m) && m.s.items != []
    ensures var t := m.s.items[0]; t.cursor < t.end ==> Untouched(m, t.cursor, t.end - t.cursor)
  {
    var t := m.s.items[0];
    assert ItemBlank(m, t);
    if t.cursor < t.end { BlankUntouched(m, t.cursor, t.end - t.cursor); }
  }

  /** The filler at the end of the current region. */
  lemma CloseUntouched(m: Memory)
    requires MemInv(m) && HasRoom(m.s)
    ensures Untouched(m, m.s.pos, RegionEnd(m.s) - m.s.pos)
  {
    BlankUntouched(m, m.s.pos, RegionEnd(m.s) - m.s.pos);
  }

  // ----- safety

  /** Nothing that is live, outstanding or read lies in the region. */
  ghost predicate Deserted(m: Memory, r: nat)
    requires m.s.size > 0
  {
    && (forall k :: 0 <= k < |m.s.live| ==> Region(m.s.live[k].off, m.s.size) != r)
    && (forall k :: 0 <= k < |m.s.dead| ==> Region(m.s.dead[k].off, m.s.size) != r)
    && (forall k :: 0 <= k < |m.held| ==> Region(m.held[k].off, m.s.size) != r)
  }

  lemma ReuseDeserted(m: Memory, r: nat)
    requires MemInv(m) && r in m.s.free
    ensures Deserted(m, r)
  {
    ReuseIsSafe(m.s, r);
    forall k | 0 <= k < |m.held| ensures Region(m.held[k].off, m.s.size) != r { assert HeldQuiet(m, m.held[k]); }
  }

  /** No live object is left in the source of the front evacuation. */
  predicate Evacuated(s: State)
    requires s.items != []
  {
    forall k :: 0 <= k < |s.live| ==> !(s.items[0].src <= s.live[k].off < s.items[0].src + s.items[0].len)
  }

  /** The bytes that a filler takes up at the end of an evacuation: what is left of the range, or, when another item
      has taken the slot, at least a header. */
  function Filler(m: Memory): nat
    requires m.s.items != []
  {
    var t := m.s.items[0];
    if m.over.None? then Sub(t.end, t.cursor)
    else if Excess(SlotOf(m.over.value, m.over.value.src), t.cursor) == 0 then 0 else 8
  }

  /** What a step must not do. */
  ghost predicate Safe(m: Memory, step: Step)
    requires Enabled(m, step)
  {
    match step
    case Alloc(n) => Untouched(m, m.s.pos, n)
    case CopyObject =>
      var n, t := m.s.live[LiveIndex(m.s.live, m.at)].size, m.s.items[0];
      n <= t.end - t.cursor && Untouched(m, t.cursor, n)
    case CloseRegion(_) => HasRoom(m.s) ==> Untouched(m, m.s.pos, RegionEnd(m.s) - m.s.pos)
    case Visit(_) =>
      LiveAt(m.s, m.at) ==>
        var n := m.s.live[LiveIndex(m.s.live, m.at)].size;
        n <= m.s.items[0].end - m.s.items[0].cursor && Untouched(m, m.s.items[0].cursor, n)
    case EndEvacuation =>
      Evacuated(m.s) && (Filler(m) > 0 ==> Untouched(m, m.s.items[0].cursor, Filler(m)))
    case ReuseRegion(r) => Deserted(m, r)
    case Free(k) =>
      Current(m.s, m.s.tokens[k]) ==>
        m.s.tokens[k].mask !! m.s.free && forall r :: r in m.s.tokens[k].mask ==> EmptyRegion(m.s, r)
    case Dealloc(k) =>
      var r := Region(m.s.dead[k].off, m.s.size); Empty(m.s.used[r]) || m.s.dead[k].size <= m.s.used[r].bytes
    case _ => true
  }

  lemma VisitSafe(m: Memory, junk: nat)
    requires MemInv(m) && Enabled(m, Visit(junk))
    ensures Safe(m, Visit(junk))
  {
    if LiveAt(m.s, m.at) {
      MoveUntouched(m, junk);
      MoveFacts(m, LiveIndex(m.s.live, m.at));
    }
  }

  lemma EndSafe(m: Memory)
    requires MemInv(m) && Enabled(m, EndEvacuation) && SmallSource(m)
    ensures Safe(m, EndEvacuation)
  {
    WalkFinished(m);
    FillUntouched(m);
  }

  lemma StepSafe(m: Memory, step: Step)
    requires MemInv(m) && Enabled(m, step) && Spared(m, step)
    ensures Safe(m, step)
  {
    match step
    case Alloc(n) => AllocUntouched(m, n);
    case Visit(junk) => VisitSafe(m, junk);
    case CopyObject => CopyUntouched(m);
    case CloseRegion(_) => if HasRoom(m.s) { CloseUntouched(m); }
    case EndEvacuation => EndSafe(m);
    case ReuseRegion(r) => ReuseDeserted(m, r);
    case Free(k) => if Current(m.s, m.s.tokens[k]) { NoDoubleFree(m.s, k); }
    case Dealloc(k) => DeallocateFits(m.s, k);
    case _ =>
  }

  /** Safety of every step of every run that is spared:
      an object is written, or moved, to where nothing live, outstanding or read by a session is;
      an evacuation has room for every object, and leaves none behind;
      a region that is reused holds nothing that is live, outstanding or read by a session;
      a delayed free never frees a region that is free already, or not empty;
      the bytes that are subtracted from a counter are there;
      and the used bytes of a region in use bound its live bytes. */
  lemma RunSafe(states: seq<Memory>, steps: seq<Step>, size: nat, i: nat)
    requires Run(states, steps, size) && i < |steps| && AllSpared(states, steps, i + 1)
    ensures Enabled(states[i], steps[i]) && Safe(states[i], steps[i])
    ensures forall r :: 0 <= r < |states[i].s.used| ==> BoundedAt(states[i].s, r)
  {
    RunInv(states, steps, size, i);
    assert StepAt(states, steps, i) && Spared(states[i], steps[i]);
    StepSafe(states[i], steps[i]);
  }

  /** The evacuation that is about to begin comes by everything in its source, whatever is written there,
      if and only if its pieces are no larger than a header can tell. */
  lemma EvacuationExactly(states: seq<Memory>, steps: seq<Step>, size: nat, i: nat)
    requires Run(states, steps, size) && i < |states| && AllSpared(states, steps, i) && states[i].s.items != []
    ensures var m := states[i]; Sure(m.tiles, m.s.items[0].src, SourceEnd(m)) <==> SmallSource(m)
  {
    RunInv(states, steps, size, i);
    SourceExactly(states[i]);
  }

  lemma SourceExactly(m: Memory)
    requires Covered(m) && Edges(m) && m.s.items != []
    ensures Sure(m.tiles, m.s.items[0].src, SourceEnd(m)) <==> SmallSource(m)
  {
    var t := m.s.items[0];
    assert t.src in m.tiles;
    if t.src + t.len in m.tiles { assert TileOk(m.tiles, Top(m.s), t.src + t.len); }
    WalkExactly(m.tiles, Top(m.s), t.src, t.src + t.len);
  }
}
