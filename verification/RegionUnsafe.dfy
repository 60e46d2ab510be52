/** A run in which the size of regions is doubled while a deallocation is outstanding in an emptied region:
    in the end a region is reused that holds a live object. */
module RegionUnsafe {
  import opened RegionChunks
  import opened RegionState
  import opened RegionSwitch
  import opened RegionRuns
  import RegionAllocator

  /** When a step can happen, without any condition on doubling but those of the source. */
  predicate Possible(s: State, step: Step) { if step.DoubleStep? then CanDouble(s) else Enabled(s, step) }

  /** A step, and where it leads. */
  predicate Goes(s: State, step: Step, s': State) {
    Possible(s, step) && s' == if step.DoubleStep? then Double(s) else Next(s, step)
  }

  /** What is queued for evacuation after a switch is the greedy choice, and nothing else is queued; the file
      is extended, or regions are doubled, only when no region is free. */
  predicate Policy(switched: bool, s: State, step: Step) {
    && (switched ==> RegionAllocator.Greedy(s, |s.used|).0 == if step.QueueStep? then {step.r} else {})
    && (step.QueueStep? ==> switched)
    && (step.ExtendStep? || step.DoubleStep? ==> s.free == {})
  }

  predicate StepAt(states: seq<State>, steps: seq<Step>, i: nat)
    requires |states| == |steps| + 1 && i < |steps|
  {
    Goes(states[i], steps[i], states[i + 1]) && Policy(i > 0 && steps[i - 1].ExtendStep?, states[i], steps[i])
  }

  ghost predicate Walk(states: seq<State>, steps: seq<Step>) {
    |states| == |steps| + 1
      && forall i: nat {:trigger StepAt(states, steps, i)} :: i < |steps| ==> StepAt(states, steps, i)
  }

  predicate EndsWithExtend(steps: seq<Step>) { steps != [] && steps[|steps| - 1].ExtendStep? }

  /** One more step. */
  lemma Append(states: seq<State>, steps: seq<Step>, step: Step, s: State)
    returns (states': seq<State>, steps': seq<Step>)
    requires Walk(states, steps) && Goes(states[|steps|], step, s)
             && Policy(EndsWithExtend(steps), states[|steps|], step)
    ensures Walk(states', steps') && states'[0] == states[0] && states'[|steps'|] == s
    ensures EndsWithExtend(steps') == step.ExtendStep?
  {
    states', steps' := states + [s], steps + [step];
    forall i: nat | i < |steps'| ensures StepAt(states', steps', i) {
      if i < |steps| { assert StepAt(states, steps, i); }
    }
  }

  lemma {:induction false} NoneChosen(s: State, n: nat)
    requires n <= |s.used| && forall i :: 0 <= i < n ==> !RegionAllocator.Candidate(s, i)
    ensures RegionAllocator.Greedy(s, n).0 == {}
  {
    if n > 0 { NoneChosen(s, n - 1); }
  }

  // ----- an emptied region

  /** Of two objects in the first region one is deallocated. The region is queued for evacuation; then the
      other object is released, and the evacuation finds nothing to move. */
  function Early(i: nat): State {
    var s := Init(128);
    var a, x, m, l := Chunk(0, 96, 0), Chunk(96, 32, 0), Chunk(160, 64, 0), Chunk(224, 32, 0);
    var full := s.(pos := 128);
    var next := s.(used := [Counter(32, 0, 1), Counter(128, 2, 0)], cur := 1, pos := 256,
                   items := [Item(0, 128, 128, 128, 160)]);
    var done := next.(live := [m, l], dead := [Chunk(96, 32, 7)]);
    match i
    case 0 => s
    case 1 => s.(live := [a], pos := 96)
    case 2 => full.(live := [a, x])
    case 3 => full.(live := [x], dead := [a])
    case 4 => full.(live := [x], used := [Counter(32, 1, 0)])
    case 5 => full.(live := [x], used := [Counter(32, 0, 0)], open := false)
    case 6 => next.(live := [x], used := [Counter(32, 0, 0), Counter(128, 1, 0)], pos := 128, items := [])
    case 7 => next.(live := [x], pos := 160)
    case 8 => next.(live := [x, m], pos := 224)
    case 9 => next.(live := [x, m, l])
    case 10 => done
    case 11 => done.(items := [], pending := {0}, used := [Counter(0, 0, 0), Counter(96, 1, 0)])
    case _ => done.(items := [], used := [Counter(0, 0, 0), Counter(96, 1, 0)], queued := {0},
                    tokens := [Token({0}, 128, {7})])
  }

  function EarlyStep(i: nat): Step {
    match i
    case 0 => AllocateStep(96)
    case 1 => AllocateStep(32)
    case 2 => ReleaseStep(0, 0)
    case 3 => DeallocateStep(0)
    case 4 => CloseStep
    case 5 => ExtendStep
    case 6 => QueueStep(0)
    case 7 => AllocateStep(64)
    case 8 => AllocateStep(32)
    case 9 => ReleaseStep(0, 7)
    case 10 => FinishStep
    case _ => PublishStep
  }

  lemma EarlyGoes(i: nat)
    requires i < 6
    ensures Goes(Early(i), EarlyStep(i), Early(i + 1))
  {
    assert Region(0, 128) == 0;
  }

  lemma LaterGoes(i: nat)
    requires 6 <= i < 10
    ensures Goes(Early(i), EarlyStep(i), Early(i + 1))
  {}

  lemma FinishGoes(i: nat)
    requires 10 <= i < 12
    ensures Goes(Early(i), EarlyStep(i), Early(i + 1))
  {
    assert Region(0, 128) == 0 && Region(128, 128) == 1;
    assert Tags([Chunk(96, 32, 7)]) == {7};
  }

  /** Only the first region is small enough. */
  lemma FirstChosen(s: State)
    requires s == Early(6)
    ensures RegionAllocator.Greedy(s, |s.used|).0 == {0}
  {
    assert RegionAllocator.Candidate(s, 0) && !RegionAllocator.Candidate(s, 1);
    assert RegionAllocator.Greedy(s, 0) == ({}, 0) && RegionAllocator.Greedy(s, 1).0 == {0};
  }

  /** Region 0 has been evacuated and reset, with the deallocation of an object in it outstanding; region 1
      holds two live objects and the further ones are full. */
  function Filled(n: nat): State
    requires 2 <= n
  {
    State(128, [Counter(0, 0, 0), Counter(96, 0, 0)] + seq(n - 2, _ => Counter(128, 0, 0)), n - 1, 128 * n, false, {},
          {}, {0}, [],
          [Chunk(160, 64, 0), Chunk(224, 32, 0)]
            + seq(n - 2, i requires 0 <= i < n - 2 => Chunk(128 * i + 256, 128, 0)),
          [Chunk(96, 32, 7)], [Token({0}, 128, {7})])
  }

  lemma LastGoes()
    ensures Goes(Early(12), CloseStep, Filled(2))
  {
    assert Close(Early(12)).used == Filled(2).used && Filled(2).live == Early(12).live;
  }

  lemma EarlyOk(i: nat)
    requires i < 12
    ensures Goes(Early(i), EarlyStep(i), Early(i + 1))
    ensures Policy(i > 0 && EarlyStep(i - 1).ExtendStep?, Early(i), EarlyStep(i))
  {
    if i < 6 { EarlyGoes(i); } else if i < 10 { LaterGoes(i); } else { FinishGoes(i); }
    EarlyPolicy(i);
  }

  lemma EarlyPolicy(i: nat)
    requires i < 12
    ensures Policy(i > 0 && EarlyStep(i - 1).ExtendStep?, Early(i), EarlyStep(i))
  {
    if i == 6 { FirstChosen(Early(6)); }
  }

  lemma Evacuated() returns (states: seq<State>, steps: seq<Step>)
    ensures Walk(states, steps) && states[0] == Init(128) && states[|steps|] == Filled(2) && !EndsWithExtend(steps)
  {
    states, steps := seq(13, i requires 0 <= i < 13 => Early(i)), seq(12, i requires 0 <= i < 12 => EarlyStep(i));
    forall i: nat | i < 12 ensures StepAt(states, steps, i) { EarlyOk(i); }
    LastGoes();
    states, steps := Append(states, steps, CloseStep, Filled(2));
  }

  // ----- the other regions

  lemma FillGoes(n: nat, s: State, s1: State, s2: State)
    requires 2 <= n < MAX_REGIONS && s == Filled(n)
    requires s1 == s.(used := s.used + [Counter(128, 1, 0)], cur := n, pos := 128 * n, open := true)
    requires s2 == s1.(live := s.live + [Chunk(128 * n, 128, 0)], pos := 128 * n + 128)
    ensures Goes(s, ExtendStep, s1) && Goes(s1, AllocateStep(128), s2) && Goes(s2, CloseStep, Filled(n + 1))
    ensures RegionAllocator.Greedy(s1, |s1.used|).0 == {}
  {
    assert Close(s2).used == Filled(n + 1).used && s2.live == Filled(n + 1).live;
    NoneChosen(s1, |s1.used|);
  }

  lemma {:induction false} FillAll(n: nat) returns (states: seq<State>, steps: seq<Step>)
    requires 2 <= n <= MAX_REGIONS
    ensures Walk(states, steps) && states[0] == Init(128) && states[|steps|] == Filled(n) && !EndsWithExtend(steps)
    decreases n
  {
    if n == 2 {
      states, steps := Evacuated();
    } else {
      states, steps := FillAll(n - 1);
      var s := Filled(n - 1);
      var s1 := s.(used := s.used + [Counter(128, 1, 0)], cur := n - 1, pos := 128 * (n - 1), open := true);
      var s2 := s1.(live := s.live + [Chunk(128 * (n - 1), 128, 0)], pos := 128 * n);
      FillGoes(n - 1, s, s1, s2);
      states, steps := Append(states, steps, ExtendStep, s1);
      states, steps := Append(states, steps, AllocateStep(128), s2);
      states, steps := Append(states, steps, CloseStep, Filled(n));
    }
  }

  // ----- doubling, and what follows

  /** The first region counts the 96 bytes of two live objects; a deallocation of 32 bytes is outstanding. The
      region is still marked as queued for freeing, from before the doubling. */
  predicate Doubled(s: State) {
    && s.size == 256 && |s.used| == 32 && s.used[0] == Counter(96, 0, 0) && !s.open && s.free == {} && s.pending == {}
    && (forall i :: 1 <= i < 32 ==> s.used[i] == Counter(256, 0, 0)) && s.queued == {0}
    && s.tokens == [Token({0}, 128, {7})] && s.dead == [Chunk(96, 32, 7)]
    && |s.live| >= 2 && s.live[0] == Chunk(160, 64, 0) && s.live[1] == Chunk(224, 32, 0)
  }

  lemma DoubledIs(s: State)
    requires s == Filled(MAX_REGIONS)
    ensures Goes(s, DoubleStep, Double(s)) && Doubled(Double(s))
  {
    var used := Joined(s.used);
    assert forall i :: 1 <= i < |used| ==> used[i] == Join(Counter(128, 0, 0), Counter(128, 0, 0));
    assert used[0] == Counter(96, 0, 0);
  }

  /** Nothing is chosen for evacuation, and the outstanding deallocation runs. */
  lemma ReducedGoes(s: State, s1: State, s2: State, s3: State)
    requires Doubled(s) && s1 == Extend(s) && s2 == Allocate(s1, 128)
    requires s3 == s2.(dead := [], used := s2.used[0 := Counter(64, 0, 0)])
    ensures Goes(s, ExtendStep, s1) && Goes(s1, AllocateStep(128), s2) && Goes(s2, DeallocateStep(0), s3)
    ensures RegionAllocator.Greedy(s1, |s1.used|).0 == {} && Reduced(s3)
  {
    assert Region(96, 256) == 0 && Without(s2.dead, 0) == [];
    NoneChosen(s1, |s1.used|);
  }

  predicate Reduced(s: State) {
    && s.size == 256 && |s.used| == 33 && s.used[0] == Counter(64, 0, 0) && s.dead == [] && |s.tokens| == 1
       && s.cur == 32 && s.open
    && |s.live| >= 2 && s.live[0] == Chunk(160, 64, 0) && s.live[1] == Chunk(224, 32, 0)
  }

  /** A live object of the region is deallocated, which empties the region, with another one still in it. */
  lemma EmptiedGoes(s: State, s1: State, s2: State)
    requires Reduced(s) && s1 == s.(live := s.live[1..], dead := [Chunk(160, 64, 8)])
    requires s2 == Store(s1.(dead := []), 0, Counter(0, 0, 0))
    ensures Goes(s, ReleaseStep(0, 8), s1) && Goes(s1, DeallocateStep(0), s2) && Emptied(s2)
  {
    assert Without(s.live, 0) == s.live[1..] && Without(s1.dead, 0) == [] && Region(160, 256) == 0;
  }

  predicate Emptied(s: State) {
    && s.size == 256 && |s.used| == 33 && s.dead == [] && |s.tokens| == 1 && 0 in s.pending && s.cur == 32 && s.open
    && s.live != [] && s.live[0] == Chunk(224, 32, 0)
  }

  /** It is freed at once, since nothing is outstanding any more. */
  lemma FreedGoes(s: State, s1: State, s2: State, s3: State)
    requires Emptied(s) && s1 == Publish(s) && s2 == Fire(s1, 1) && s3 == Close(s2)
    ensures Goes(s, PublishStep, s1) && Goes(s1, FireStep(1), s2) && Goes(s2, CloseStep, s3)
    ensures Possible(s3, ReuseStep(0)) && Bytes(s3.live, s3.size, 0) > 0
  {
    assert Tags(s.dead) == {};
    assert Region(224, 256) == 0;
    BytesMember(s.live, 0, 256, 0);
  }

  lemma WalkToReduced() returns (states: seq<State>, steps: seq<Step>)
    ensures Walk(states, steps) && states[0] == Init(128) && Reduced(states[|steps|]) && !EndsWithExtend(steps)
  {
    states, steps := FillAll(MAX_REGIONS);
    var s1 := Double(Filled(MAX_REGIONS));
    DoubledIs(Filled(MAX_REGIONS));
    states, steps := Append(states, steps, DoubleStep, s1);
    states, steps := AppendReduced(states, steps, s1);
  }

  lemma AppendReduced(states: seq<State>, steps: seq<Step>, s: State) returns (states': seq<State>, steps': seq<Step>)
    requires Walk(states, steps) && states[|steps|] == s && Doubled(s) && !EndsWithExtend(steps)
    ensures Walk(states', steps') && states'[0] == states[0] && Reduced(states'[|steps'|]) && !EndsWithExtend(steps')
  {
    var s1 := Extend(s);
    var s2 := Allocate(s1, 128);
    var s3 := s2.(dead := [], used := s2.used[0 := Counter(64, 0, 0)]);
    ReducedGoes(s, s1, s2, s3);
    states', steps' := Append(states, steps, ExtendStep, s1);
    states', steps' := Append(states', steps', AllocateStep(128), s2);
    states', steps' := Append(states', steps', DeallocateStep(0), s3);
  }

  lemma AppendEmptied(states: seq<State>, steps: seq<Step>, s: State) returns (states': seq<State>, steps': seq<Step>)
    requires Walk(states, steps) && states[|steps|] == s && Reduced(s) && !EndsWithExtend(steps)
    ensures Walk(states', steps') && states'[0] == states[0] && Emptied(states'[|steps'|]) && !EndsWithExtend(steps')
  {
    var s1 := s.(live := s.live[1..], dead := [Chunk(160, 64, 8)]);
    var s2 := Store(s1.(dead := []), 0, Counter(0, 0, 0));
    EmptiedGoes(s, s1, s2);
    states', steps' := Append(states, steps, ReleaseStep(0, 8), s1);
    states', steps' := Append(states', steps', DeallocateStep(0), s2);
  }

  /** A run from a fresh file to a state in which a region that holds a live object is about to be reused. */
  lemma LiveObjectReused() returns (states: seq<State>, steps: seq<Step>)
    ensures Walk(states, steps) && states[0] == Init(128)
    ensures var s := states[|steps|]; Possible(s, ReuseStep(0)) && Bytes(s.live, s.size, 0) > 0
  {
    states, steps := WalkToReduced();
    states, steps := AppendEmptied(states, steps, states[|steps|]);
    var s := states[|steps|];
    var s1 := Publish(s);
    var s2 := Fire(s1, 1);
    var s3 := Close(s2);
    FreedGoes(s, s1, s2, s3);
    states, steps := Append(states, steps, PublishStep, s1);
    states, steps := Append(states, steps, FireStep(1), s2);
    states, steps := Append(states, steps, CloseStep, s3);
  }
}
