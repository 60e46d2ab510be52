/** A run in which the slot of an evacuation is taken before the evacuation is accounted for: the accounting goes on
    with the item that is now in the slot, and writes a filler over a live object. */
module RegionClash {
  import opened Leb128
  import opened RegionChunks
  import opened RegionState
  import opened RegionSwitch
  import opened RegionSlots
  import opened RegionTiles
  import opened RegionWalk
  import opened RegionMemory
  import opened RegionHistory
  import RegionAllocator

  const S: nat := 1024

  /** Each region has a small object, which stays, and a large one, which is released. */
  function Small(i: nat): Chunk { Chunk(S * i, 16, 0) }

  function Large(i: nat): Chunk { Chunk(S * i + 16, S - 16, 0) }

  // ----- runs

  /** A region is queued because it was chosen at the last switch. */
  ghost predicate PickedAt(states: seq<Memory>, steps: seq<Step>, i: nat, j: nat)
    requires |states| == |steps| + 1 && j < i < |steps|
  {
    && steps[j].ExtendFile? && steps[i].QueueRegion? && (forall k :: j < k < i ==> steps[k].QueueRegion?)
    && steps[i].r in RegionAllocator.Greedy(states[j + 1].s, |states[j + 1].s.used|).0
  }

  ghost predicate Picked(states: seq<Memory>, steps: seq<Step>, i: nat)
    requires |states| == |steps| + 1 && i < |steps|
  {
    steps[i].QueueRegion? ==> exists j: nat :: j < i && PickedAt(states, steps, i, j)
  }

  ghost predicate Track(states: seq<Memory>, steps: seq<Step>) {
    && Run(states, steps, S) && AllSpared(states, steps, |steps|)
    && forall i: nat {:trigger Picked(states, steps, i)} :: i < |steps| ==> Picked(states, steps, i)
  }

  predicate Longer(states: seq<Memory>, steps: seq<Step>, step: Step, states': seq<Memory>, steps': seq<Step>)
    requires |states| == |steps| + 1 && Enabled(states[|steps|], step)
  {
    states' == states + [Next(states[|steps|], step)] && steps' == steps + [step]
  }

  lemma LongerRun(states: seq<Memory>, steps: seq<Step>, step: Step, states': seq<Memory>, steps': seq<Step>)
    requires Run(states, steps, S) && Enabled(states[|steps|], step)
    requires Longer(states, steps, step, states', steps')
    ensures Run(states', steps', S)
  {
    forall i: nat | i < |steps'| ensures StepAt(states', steps', i) {
      if i < |steps| { assert StepAt(states, steps, i); }
    }
  }

  lemma LongerPicked(states: seq<Memory>, steps: seq<Step>, step: Step, states': seq<Memory>, steps': seq<Step>, i: nat)
    requires |states| == |steps| + 1 && Enabled(states[|steps|], step) && i < |steps|
    requires Longer(states, steps, step, states', steps') && Picked(states, steps, i)
    ensures Picked(states', steps', i)
  {
    if steps[i].QueueRegion? {
      var j: nat :| j < i && PickedAt(states, steps, i, j);
      assert PickedAt(states', steps', i, j);
    }
  }

  /** One more step, other than queueing a region. */
  lemma Add(states: seq<Memory>, steps: seq<Step>, step: Step) returns (states': seq<Memory>, steps': seq<Step>)
    requires Track(states, steps) && Enabled(states[|steps|], step) && Spared(states[|steps|], step)
             && !step.QueueRegion?
    ensures Track(states', steps') && Longer(states, steps, step, states', steps')
  {
    states', steps' := states + [Next(states[|steps|], step)], steps + [step];
    LongerRun(states, steps, step, states', steps');
    forall i: nat | i < |steps'| ensures Spared(states'[i], steps'[i]) {
      if i < |steps| { assert Spared(states[i], steps[i]); }
    }
    forall i: nat | i < |steps'| ensures Picked(states', steps', i) {
      if i < |steps| { assert Picked(states, steps, i); LongerPicked(states, steps, step, states', steps', i); }
    }
  }

  /** A region that was chosen at step `j` is queued. */
  lemma AddQueue(states: seq<Memory>, steps: seq<Step>, r: nat, j: nat)
    returns (states': seq<Memory>, steps': seq<Step>)
    requires Track(states, steps) && j < |steps| && steps[j].ExtendFile?
             && forall k :: j < k < |steps| ==> steps[k].QueueRegion?
    requires Enabled(states[|steps|], QueueRegion(r)) && |states[|steps|].s.items| < MAX_QUEUE
    requires r in RegionAllocator.Greedy(states[j + 1].s, |states[j + 1].s.used|).0
    ensures Track(states', steps') && Longer(states, steps, QueueRegion(r), states', steps')
  {
    var step := QueueRegion(r);
    states', steps' := states + [Next(states[|steps|], step)], steps + [step];
    LongerRun(states, steps, step, states', steps');
    forall i: nat | i < |steps'| ensures Spared(states'[i], steps'[i]) {
      if i < |steps| { assert Spared(states[i], steps[i]); }
    }
    forall i: nat | i < |steps'| ensures Picked(states', steps', i) {
      if i < |steps| {
        assert Picked(states, steps, i);
        LongerPicked(states, steps, step, states', steps', i);
      } else {
        assert PickedAt(states', steps', i, j);
      }
    }
  }

  // ----- the choice at a switch

  predicate Chosen(s: State, i: nat)
    requires i < |s.used|
  {
    RegionAllocator.Candidate(s, i) && Word(s.used[i]) == 16
  }

  function Span(lo: nat, hi: nat, n: nat): nat
    requires lo <= hi
  {
    if n <= lo then 0 else if n <= hi then n - lo else hi - lo
  }

  predicate SpanAt(s: State, lo: nat, hi: nat, i: nat)
    requires i < |s.used|
  {
    if lo <= i < hi then Chosen(s, i) else !RegionAllocator.Candidate(s, i)
  }

  /** Exactly the small regions are chosen, if together they fill at most half a region. */
  lemma {:induction false} GreedySpan(s: State, lo: nat, hi: nat, n: nat)
    requires lo <= hi && n <= |s.used| && 16 * (hi - lo) <= s.size / 2
    requires forall i :: 0 <= i < |s.used| ==> SpanAt(s, lo, hi, i)
    ensures forall i :: i in RegionAllocator.Greedy(s, n).0 <==> i < n && lo <= i < hi
    ensures RegionAllocator.Greedy(s, n).1 == 16 * Span(lo, hi, n)
  {
    if n > 0 {
      GreedySpan(s, lo, hi, n - 1);
      assert SpanAt(s, lo, hi, n - 1);
    }
  }

  // ----- regions are filled

  predicate Calm(m: Memory) {
    && m.over.None? && 0 in m.sessions && m.s.size == S && m.s.pending == {} && m.s.queued == {}
    && m.s.open && m.s.cur < |m.s.used|
  }

  /** The pieces of the first region. */
  predicate Split(tiles: TileMap) { 0 in tiles && 16 in tiles && tiles[0] == 16 && tiles[16] == S - 16 }

  predicate Begun(m: Memory, n: nat) {
    && |m.s.live| == n && (forall i :: 0 <= i < n ==> m.s.live[i] == Small(i))
    && |m.s.dead| == n && (forall i :: 0 <= i < n ==> m.s.dead[i] == Large(i))
    && (n > 0 ==> Split(m.tiles))
  }

  predicate Counters(m: Memory, n: nat) {
    && |m.s.used| == n + 1 && m.s.cur == n && m.s.used[n] == Counter(S, 1, 0)
    && (forall i :: 0 <= i < n ==> m.s.used[i] == Counter(S, 0, 0))
  }

  predicate Opened(m: Memory, n: nat) {
    && Calm(m) && m.s.items == [] && m.s.pos == S * n && Counters(m, n) && Begun(m, n)
    && S * n in m.tiles && m.tiles[S * n] == S
  }

  predicate Filled(m: Memory, n: nat) {
    Calm(m) && m.s.items == [] && m.s.pos == S * n + S && Counters(m, n) && Begun(m, n + 1)
  }

  predicate Half(m: Memory, n: nat) {
    && Calm(m) && m.s.items == [] && m.s.pos == S * n + 16 && Counters(m, n) && Split(m.tiles)
    && |m.s.live| == n + 1 && (forall i :: 0 <= i <= n ==> m.s.live[i] == Small(i))
    && |m.s.dead| == n && (forall i :: 0 <= i < n ==> m.s.dead[i] == Large(i))
    && S * n + 16 in m.tiles && m.tiles[S * n + 16] == S - 16
  }

  lemma HalfStep(m: Memory, n: nat)
    requires Opened(m, n)
    ensures Enabled(m, Alloc(16)) && Half(Next(m, Alloc(16)), n)
  {
    assert Small(n) == Chunk(m.s.pos, 16, 0);
  }

  lemma FillSteps(m: Memory, n: nat)
    requires Half(m, n)
    ensures Enabled(m, Alloc(S - 16))
    ensures var m1 := Next(m, Alloc(S - 16)); Enabled(m1, Drop(n + 1, 0)) && Filled(Next(m1, Drop(n + 1, 0)), n)
  {
    var m1 := Next(m, Alloc(S - 16));
    assert m1.s.live == m.s.live + [Large(n)] && Without(m1.s.live, n + 1) == m.s.live;
    assert Next(m1, Drop(n + 1, 0)).s.dead == m.s.dead + [Large(n)];
  }

  lemma TurnSteps(m: Memory, n: nat)
    requires Filled(m, n) && n < 63
    ensures Enabled(m, CloseRegion(16))
    ensures var m1 := Next(m, CloseRegion(16)); Enabled(m1, ExtendFile) && Opened(Next(m1, ExtendFile), n + 1)
  {
    var m1 := Next(m, CloseRegion(16));
    assert m1.s.used == m.s.used[n := Counter(S, 0, 0)];
  }

  lemma AddFill(states: seq<Memory>, steps: seq<Step>, n: nat) returns (states': seq<Memory>, steps': seq<Step>)
    requires Track(states, steps) && Opened(states[|steps|], n)
    ensures Track(states', steps') && Filled(states'[|steps'|], n)
  {
    HalfStep(states[|steps|], n);
    states', steps' := Add(states, steps, Alloc(16));
    FillSteps(states'[|steps'|], n);
    states', steps' := Add(states', steps', Alloc(S - 16));
    states', steps' := Add(states', steps', Drop(n + 1, 0));
  }

  lemma Started() returns (states: seq<Memory>, steps: seq<Step>)
    ensures Track(states, steps) && Opened(states[|steps|], 0)
  {
    states, steps := [RegionMemory.Init(S)], [];
    states, steps := Add(states, steps, OpenSession);
  }

  lemma {:induction false} Built(n: nat) returns (states: seq<Memory>, steps: seq<Step>)
    requires n < 63
    ensures Track(states, steps) && Filled(states[|steps|], n)
  {
    if n == 0 {
      states, steps := Started();
    } else {
      states, steps := Built(n - 1);
      TurnSteps(states[|steps|], n - 1);
      states, steps := Add(states, steps, CloseRegion(16));
      states, steps := Add(states, steps, ExtendFile);
    }
    states, steps := AddFill(states, steps, n);
  }

  // ----- the first evacuation

  const T := Item(0, S, 33 * S, 33 * S, 33 * S + 16)
  const DONE := Item(0, S, 33 * S, 33 * S + 16, 33 * S + 16)

  /** The object behind the range of the first evacuation. */
  const L := Chunk(33 * S + 16, 16, 0)

  /** The large objects from `a` on are still to be deallocated. */
  predicate Outstanding(m: Memory, a: nat) {
    a <= 33 && |m.s.dead| == 33 - a && forall i :: 0 <= i < 33 - a ==> m.s.dead[i] == Large(a + i)
  }

  predicate Smalls(m: Memory) { |m.s.live| >= 33 && forall i :: 1 <= i < 33 ==> m.s.live[i] == Small(i) }

  /** The first region is small; another region has been started. */
  predicate Ready(m: Memory) {
    && Calm(m) && m.s.items == [] && |m.s.used| == 34 && m.s.cur == 33 && m.s.pos == 33 * S && Split(m.tiles)
    && m.s.used[0] == Counter(16, 0, 0) && (forall i :: 1 <= i < 33 ==> m.s.used[i] == Counter(S, 0, 0))
    && m.s.used[33] == Counter(S, 1, 0) && Smalls(m) && |m.s.live| == 33 && m.s.live[0] == Small(0)
    && Outstanding(m, 1) && 33 * S in m.tiles && m.tiles[33 * S] == S
  }

  lemma ReadySteps(m: Memory)
    requires Filled(m, 32)
    ensures Enabled(m, Dealloc(0))
    ensures var m1 := Next(m, Dealloc(0));
            && Enabled(m1, CloseRegion(16))
            && var m2 := Next(m1, CloseRegion(16)); Enabled(m2, ExtendFile) && Ready(Next(m2, ExtendFile))
  {
    assert Region(16, S) == 0;
    var m1 := Next(m, Dealloc(0));
    assert m1.s.used == m.s.used[0 := Counter(16, 0, 0)] && m1.s.dead == m.s.dead[1..];
    var m2 := Next(m1, CloseRegion(16));
    assert m2.s.used == m1.s.used[32 := Counter(S, 0, 0)];
  }

  lemma ReadyChosen(m: Memory)
    requires Ready(m)
    ensures RegionAllocator.Greedy(m.s, |m.s.used|).0 == {0}
  {
    GreedySpan(m.s, 0, 1, 34);
  }

  /** The first region is queued, and two objects are allocated behind its range. */
  predicate Busy(m: Memory, t: Item, at: nat, off: nat) {
    && Calm(m) && m.s.items == [t] && |m.s.used| == 34 && m.s.cur == 33 && m.s.pos == 34 * S && Split(m.tiles)
    && m.s.used[0] == Counter(16, 0, 1) && (forall i :: 1 <= i < 33 ==> m.s.used[i] == Counter(S, 0, 0))
    && m.s.used[33] == Counter(S, 2, 0) && Smalls(m) && |m.s.live| == 35 && m.s.live[0] == Chunk(off, 16, 0)
    && m.s.live[33] == L && m.s.live[34].off == 33 * S + 32
    && Outstanding(m, 1) && m.at == at && 33 * S in m.tiles && m.tiles[33 * S] == 16
  }

  /** The first region is queued. */
  predicate Taken(m: Memory) {
    && Calm(m) && m.s.items == [T] && |m.s.used| == 34 && m.s.cur == 33 && m.s.pos == 33 * S + 16 && Split(m.tiles)
    && m.s.used[0] == Counter(16, 0, 1) && (forall i :: 1 <= i < 33 ==> m.s.used[i] == Counter(S, 0, 0))
    && m.s.used[33] == Counter(S, 2, 0) && Smalls(m) && |m.s.live| == 33 && m.s.live[0] == Small(0)
    && Outstanding(m, 1) && m.at == 0 && 33 * S in m.tiles && m.tiles[33 * S] == 16
    && 33 * S + 16 in m.tiles && m.tiles[33 * S + 16] == S - 16
  }

  lemma QueueStep(m: Memory)
    requires Ready(m)
    ensures Enabled(m, QueueRegion(0)) && Taken(Next(m, QueueRegion(0)))
  {
    var m1 := Next(m, QueueRegion(0));
    assert m1.s.used == m.s.used[0 := Counter(16, 0, 1)][33 := Counter(S, 2, 0)];
    assert m1.s.items == [T];
  }

  lemma BehindSteps(m: Memory)
    requires Taken(m)
    ensures Enabled(m, Alloc(16))
    ensures var m1 := Next(m, Alloc(16)); Enabled(m1, Alloc(S - 32)) && Busy(Next(m1, Alloc(S - 32)), T, 0, 0)
  {
    var m1 := Next(m, Alloc(16));
    var m2 := Next(m1, Alloc(S - 32));
    assert m2.s.live == m.s.live + [L] + [Chunk(33 * S + 32, S - 32, 0)];
  }

  lemma CopySteps(m: Memory)
    requires Busy(m, T, 0, 0)
    ensures Enabled(m, CopyObject)
    ensures var m1 := Next(m, CopyObject); Enabled(m1, Visit(0)) && Busy(Next(m1, Visit(0)), DONE, 16, 33 * S)
  {
    assert m.s.live[0].off == 0;
    var m1 := Next(m, CopyObject);
    FieldExactly(16);
    assert LiveIndex(m.s.live, 0) == 0;
    assert m1.s.items[0 := DONE] == [DONE];
  }

  lemma PassStep(m: Memory)
    requires Busy(m, DONE, 16, 33 * S)
    ensures Enabled(m, Visit(0)) && Busy(Next(m, Visit(0)), DONE, S, 33 * S)
  {
    forall k | 0 <= k < |m.s.live| ensures m.s.live[k].off != 16 {
      if 1 <= k < 33 { assert m.s.live[k] == Small(k); }
    }
    FieldExactly(S - 16);
  }

  lemma FirstSmall() returns (states: seq<Memory>, steps: seq<Step>)
    ensures Track(states, steps) && Ready(states[|steps|]) && |steps| > 0 && steps[|steps| - 1].ExtendFile?
  {
    states, steps := Built(32);
    ReadySteps(states[|steps|]);
    states, steps := Add(states, steps, Dealloc(0));
    states, steps := Add(states, steps, CloseRegion(16));
    states, steps := Add(states, steps, ExtendFile);
  }

  lemma Evacuating() returns (states: seq<Memory>, steps: seq<Step>)
    ensures Track(states, steps) && Busy(states[|steps|], T, 0, 0)
  {
    states, steps := FirstSmall();
    var m := states[|steps|];
    ReadyChosen(m);
    QueueStep(m);
    states, steps := AddQueue(states, steps, 0, |steps| - 1);
    BehindSteps(states[|steps|]);
    states, steps := AddTwo(states, steps, Alloc(16), Alloc(S - 32));
  }

  lemma AddTwo(states: seq<Memory>, steps: seq<Step>, one: Step, two: Step)
    returns (states': seq<Memory>, steps': seq<Step>)
    requires Track(states, steps) && one.Alloc? && two.Alloc?
    requires var m := states[|steps|]; Enabled(m, one) && Enabled(Next(m, one), two)
    ensures Track(states', steps') && states'[|steps'|] == Next(Next(states[|steps|], one), two)
  {
    states', steps' := Add(states, steps, one);
    states', steps' := Add(states', steps', two);
  }

  lemma AddCopies(states: seq<Memory>, steps: seq<Step>) returns (states': seq<Memory>, steps': seq<Step>)
    requires Track(states, steps) && Busy(states[|steps|], T, 0, 0)
    ensures Track(states', steps') && Emptying(states'[|steps'|], 1)
  {
    CopySteps(states[|steps|]);
    states', steps' := Add(states, steps, CopyObject);
    states', steps' := Add(states', steps', Visit(0));
    PassStep(states'[|steps'|]);
    states', steps' := Add(states', steps', Visit(0));
  }

  // ----- the other regions become small

  /** The evacuation has come to its end. The regions below `a` are small. */
  predicate Emptying(m: Memory, a: nat) {
    && Calm(m) && m.s.items == [DONE] && |m.s.used| == 34 && m.s.cur == 33 && m.s.pos == 34 * S
    && 1 <= a <= 32 && m.s.used[0] == Counter(16, 0, 1)
    && (forall i :: 1 <= i < a ==> m.s.used[i] == Counter(16, 0, 0))
       && (forall i :: a <= i < 33 ==> m.s.used[i] == Counter(S, 0, 0))
    && m.s.used[33] == Counter(S, 2, 0) && |m.s.live| == 35 && m.s.live[33] == L && Outstanding(m, a) && m.at == S
  }

  lemma EmptyStep(m: Memory, a: nat)
    requires Emptying(m, a) && a < 32
    ensures Enabled(m, Dealloc(0)) && Emptying(Next(m, Dealloc(0)), a + 1)
  {
    assert m.s.dead[0] == Large(a) && Region(S * a + 16, S) == a;
    var m1 := Next(m, Dealloc(0));
    assert m1.s.used == m.s.used[a := Counter(16, 0, 0)] && m1.s.dead == m.s.dead[1..];
  }

  lemma {:induction false} AddEmpties(states: seq<Memory>, steps: seq<Step>, a: nat)
    returns (states': seq<Memory>, steps': seq<Step>)
    requires Track(states, steps) && Emptying(states[|steps|], a)
    ensures Track(states', steps') && Emptying(states'[|steps'|], 32)
    decreases 32 - a
  {
    if a == 32 {
      states', steps' := states, steps;
    } else {
      EmptyStep(states[|steps|], a);
      states', steps' := Add(states, steps, Dealloc(0));
      states', steps' := AddEmpties(states', steps', a + 1);
    }
  }

  /** Of the small regions, those below `a` are queued. */
  predicate Queueing(m: Memory, a: nat) {
    && Calm(m) && 1 <= a <= 32 && |m.s.items| == a && m.s.items[0] == DONE && |m.s.used| == 35 && m.s.cur == 34
    && m.s.pos == 34 * S + 16 * (a - 1) && m.s.pos in m.tiles && m.tiles[m.s.pos] == S - 16 * (a - 1)
    && (forall i :: 0 <= i < a ==> m.s.used[i] == Counter(16, 0, 1))
    && (forall i :: a <= i < 32 ==> m.s.used[i] == Counter(16, 0, 0))
    && m.s.used[32] == Counter(S, 0, 0) && m.s.used[33] == Counter(S, 1, 0) && m.s.used[34] == Counter(S, a, 0)
    && |m.s.live| == 35 && m.s.live[33] == L && Outstanding(m, 32) && m.at == S
  }

  lemma SwitchSteps(m: Memory)
    requires Emptying(m, 32)
    ensures Enabled(m, CloseRegion(16))
    ensures var m1 := Next(m, CloseRegion(16)); Enabled(m1, ExtendFile) && Queueing(Next(m1, ExtendFile), 1)
  {
    var m1 := Next(m, CloseRegion(16));
    assert m1.s.used == m.s.used[33 := Counter(S, 1, 0)];
  }

  predicate AllChosen(s: State) {
    forall r: nat {:trigger Large(r)} :: 1 <= r < 32 ==> r in RegionAllocator.Greedy(s, |s.used|).0
  }

  lemma SmallChosen(m: Memory)
    requires Queueing(m, 1)
    ensures AllChosen(m.s)
  {
    GreedySpan(m.s, 1, 32, 35);
  }

  lemma QueueMore(m: Memory, a: nat)
    requires Queueing(m, a) && a < 32
    ensures Enabled(m, QueueRegion(a)) && Queueing(Next(m, QueueRegion(a)), a + 1)
  {
    var m1 := Next(m, QueueRegion(a));
    assert m1.s.used == m.s.used[a := Counter(16, 0, 1)][34 := Counter(S, a + 1, 0)];
  }

  lemma {:induction false} AddQueues(states: seq<Memory>, steps: seq<Step>, a: nat, j: nat)
    returns (states': seq<Memory>, steps': seq<Step>)
    requires Track(states, steps) && Queueing(states[|steps|], a)
    requires j < |steps| && steps[j].ExtendFile? && (forall k :: j < k < |steps| ==> steps[k].QueueRegion?)
    requires AllChosen(states[j + 1].s)
    ensures Track(states', steps') && Queueing(states'[|steps'|], 32)
    decreases 32 - a
  {
    if a == 32 {
      states', steps' := states, steps;
    } else {
      QueueMore(states[|steps|], a);
      assert Large(a).size > 0;
      states', steps' := AddQueue(states, steps, a, j);
      states', steps' := AddQueues(states', steps', a + 1, j);
    }
  }

  /** As many items as slots are queued. One more region is small, and another region has been started. */
  predicate Full(m: Memory) {
    && Calm(m) && |m.s.items| == MAX_QUEUE && m.s.items[0] == DONE && |m.s.used| == 36 && m.s.cur == 35
    && m.s.pos == 35 * S && m.s.pos in m.tiles && m.tiles[m.s.pos] == S
    && (forall i :: 0 <= i < 32 ==> m.s.used[i] == Counter(16, 0, 1))
    && m.s.used[32] == Counter(16, 0, 0) && m.s.used[33] == Counter(S, 1, 0) && m.s.used[34] == Counter(S, 31, 0)
    && m.s.used[35] == Counter(S, 1, 0) && |m.s.live| > 33 && m.s.live[33] == L && m.at == S
  }

  lemma LastSteps(m: Memory)
    requires Queueing(m, 32)
    ensures Enabled(m, Alloc(S - 496))
    ensures var m1 := Next(m, Alloc(S - 496));
            && Enabled(m1, Dealloc(0))
            && var m2 := Next(m1, Dealloc(0));
               && Enabled(m2, CloseRegion(16))
               && var m3 := Next(m2, CloseRegion(16)); Enabled(m3, ExtendFile) && Full(Next(m3, ExtendFile))
  {
    var m1 := Next(m, Alloc(S - 496));
    assert m1.s.dead[0] == Large(32) && Region(S * 32 + 16, S) == 32;
    var m2 := Next(m1, Dealloc(0));
    assert m2.s.used == m.s.used[32 := Counter(16, 0, 0)];
    var m3 := Next(m2, CloseRegion(16));
    assert m3.s.used == m2.s.used[34 := Counter(S, 31, 0)];
  }

  lemma FullChosen(m: Memory)
    requires Full(m)
    ensures RegionAllocator.Greedy(m.s, |m.s.used|).0 == {32}
  {
    GreedySpan(m.s, 32, 33, 36);
  }

  lemma SmallRegions() returns (states: seq<Memory>, steps: seq<Step>)
    ensures Track(states, steps) && Emptying(states[|steps|], 32)
  {
    states, steps := Evacuating();
    states, steps := AddCopies(states, steps);
    states, steps := AddEmpties(states, steps, 1);
  }

  lemma AllQueued() returns (states: seq<Memory>, steps: seq<Step>)
    ensures Track(states, steps) && Queueing(states[|steps|], 32)
  {
    states, steps := SmallRegions();
    SwitchSteps(states[|steps|]);
    states, steps := Add(states, steps, CloseRegion(16));
    states, steps := Add(states, steps, ExtendFile);
    SmallChosen(states[|steps|]);
    states, steps := AddQueues(states, steps, 1, |steps| - 1);
  }

  // ----- the clash

  /** The item that takes the slot, and what the accounting makes of the target's counter. */
  lemma Clash(m: Memory)
    requires Full(m)
    ensures Enabled(m, QueueRegion(32)) && !Spared(m, QueueRegion(32))
    ensures var m1 := Next(m, QueueRegion(32));
            && m1.over == Some(Item(32 * S, S, 35 * S, 35 * S, 35 * S + 16)) && m1.s.items == m.s.items
            && Enabled(m1, EndEvacuation) && !Safe(m1, EndEvacuation)
  {
    var m1 := Next(m, QueueRegion(32));
    assert Region(0, S) == 0 && Region(33 * S, S) == 33;
    var u := Item(32 * S, S, 35 * S, 35 * S, 35 * S + 16);
    assert m1.over == Some(u);
    assert Excess(SlotOf(u, u.src), 33 * S + 16) == 2 * S;
    assert Filler(m1) == 8;
    assert !Apart(L.off, L.off + L.size, DONE.cursor, DONE.cursor + 8);
    assert m1.s.live[33] == L;
  }

  /** The bytes of the filler are subtracted as well, which borrows from the other parts of the word. */
  lemma Borrows(m: Memory)
    requires Full(m)
    ensures Enabled(m, QueueRegion(32)) && Enabled(Next(m, QueueRegion(32)), EndEvacuation)
    ensures var m2 := Next(Next(m, QueueRegion(32)), EndEvacuation);
            && L in m2.s.live && L.off in m2.tiles && m2.tiles[L.off] == 2 * S
            && |m2.s.used| == 36 && m2.s.used[33] == Counter(WRITE - S, 255, 255)
  {
    Clash(m);
    var m1 := Next(m, QueueRegion(32));
    var u := m1.over.value;
    assert m1.s.used[33] == Counter(S, 1, 0) && m1.s.live[33] == L;
    assert Region(0, S) == 0 && Region(33 * S, S) == 33;
    assert Excess(SlotOf(u, u.src), DONE.cursor) == 2 * S;
    assert Word(Counter(S, 1, 0)) - (WRITE + 2 * S) == -1024;
    assert (-1024) % WORD == WORD - 1024;
    assert Parts(WORD - 1024) == Counter(WRITE - S, 255, 255);
  }

  /** From a fresh file to a push that takes the slot of an evacuation, all of whose objects have been moved, before
      the evacuation is accounted for. All regions that are queued were chosen at the last switch, nothing is
      doubled, and all pieces are small. When the evacuation is accounted for, the header of a live object is
      overwritten, and the counter of its region is a number of bytes that no region has. */
  lemma HeaderOverwritten() returns (states: seq<Memory>, steps: seq<Step>)
    ensures Track(states, steps)
    ensures var m := states[|steps|];
            && RegionAllocator.Greedy(m.s, |m.s.used|).0 == {32} && Enabled(m, QueueRegion(32))
            && var m1 := Next(m, QueueRegion(32));
               && Enabled(m1, EndEvacuation) && !Safe(m1, EndEvacuation)
               && var m2 := Next(m1, EndEvacuation);
                  L in m2.s.live && L.off in m2.tiles && m2.tiles[L.off] != L.size
                  && |m2.s.used| == 36 && m2.s.used[33] == Counter(WRITE - S, 255, 255)
  {
    states, steps := AllQueued();
    LastSteps(states[|steps|]);
    states, steps := Add(states, steps, Alloc(S - 496));
    states, steps := Add(states, steps, Dealloc(0));
    states, steps := Add(states, steps, CloseRegion(16));
    states, steps := Add(states, steps, ExtendFile);
    var m := states[|steps|];
    FullChosen(m);
    Clash(m);
    Borrows(m);
  }
}
