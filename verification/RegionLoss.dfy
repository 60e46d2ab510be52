/** A run in which an evacuation is led astray: what was filled behind an earlier one is larger than its
    header can tell, and a live object is left in a region that is then freed. */
module RegionLoss {
  import opened Leb128
  import opened RegionChunks
  import opened RegionState
  import opened RegionSwitch
  import opened RegionTiles
  import opened RegionWalk
  import opened RegionMemory
  import opened RegionHistory
  import RegionAllocator

  /** Half of the largest object; regions have six times as much. */
  const H := 0x80_0000

  const A := Chunk(0, 2 * H, 0)
  const B := Chunk(2 * H, H, 0)
  const C := Chunk(3 * H, 2 * H, 0)
  const M := Chunk(9 * H, 2 * H, 0)

  const T0: TileMap := map[0 := 6 * H]
  const T1: TileMap := T0[0 := 2 * H][2 * H := 4 * H]
  const T2: TileMap := T1[2 * H := H][3 * H := 3 * H]
  const T3: TileMap := T2[3 * H := 2 * H][5 * H := H]
  const T4: TileMap := T3[6 * H := 6 * H]
  const T5: TileMap := T4[6 * H := 3 * H][9 * H := 3 * H]
  const T6: TileMap := T5[9 * H := 2 * H][11 * H := H]
  const T7: TileMap := Clear(T6, 0, 6 * H)
  const T8: TileMap := T7[0 := 2 * H][2 * H := 4 * H]

  function Tiling(i: nat): TileMap {
    if i <= 1 then T0 else if i == 2 then T1 else if i == 3 then T2 else if i <= 7 then T3 else if i == 8 then T4
    else if i <= 19 then T5 else if i <= 24 then T6 else if i == 25 then T7 else T8
  }

  /** The allocator, before step `i`. */
  function Region0(i: nat): State {
    var s := RegionState.Init(6 * H);
    var full := s.(pos := 5 * H);
    var next := s.(used := [Counter(3 * H, 0, 0), Counter(6 * H, 1, 0)], cur := 1, pos := 6 * H);
    var q := next.(used := [Counter(3 * H, 0, 1), Counter(6 * H, 2, 0)], pos := 9 * H,
                   items := [Item(0, 6 * H, 6 * H, 6 * H, 9 * H)]);
    if i <= 1 then s
    else if i == 2 then s.(live := [A], pos := 2 * H)
    else if i == 3 then s.(live := [A, B], pos := 3 * H)
    else if i == 4 then full.(live := [A, B, C])
    else if i == 5 then full.(live := [A, B], dead := [C])
    else if i == 6 then full.(live := [A, B], used := [Counter(4 * H, 1, 0)])
    else if i == 7 then full.(live := [A, B], used := [Counter(3 * H, 0, 0)], open := false)
    else if i == 8 then next.(live := [A, B])
    else if i <= 10 then q.(live := [A, B])
    else if i == 11 then q.(live := [B], dead := [A])
    else if i == 12 then q.(live := [B], used := [Counter(H, 0, 1), Counter(6 * H, 2, 0)])
    else if i == 13 then q.(dead := [B], used := [Counter(H, 0, 1), Counter(6 * H, 2, 0)])
    else q.(used := [Counter(0, 0, 1), Counter(6 * H, 2, 0)])
  }

  /** The same after the first evacuation. */
  function Region1(i: nat): State {
    var s := State(6 * H, [Counter(0, 0, 0), Counter(3 * H, 1, 0)], 1, 9 * H, true, {}, {0}, {}, [], [], [], []);
    var full := s.(live := [M], pos := 11 * H);
    var freed := full.(pending := {}, free := {0});
    var q := freed.(used := [Counter(6 * H, 2, 0), Counter(2 * H, 0, 1)], cur := 0, pos := 2 * H, free := {},
                    items := [Item(6 * H, 6 * H, 0, 0, 2 * H)]);
    var lost := q.(items := [], used := [Counter(4 * H, 1, 0), Counter(0, 0, 0)]);
    if i == 19 then s
    else if i <= 21 then full
    else if i == 22 then full.(pending := {}, queued := {0}, tokens := [Token({0}, 6 * H, {})])
    else if i == 23 then freed
    else if i == 24 then freed.(used := [Counter(0, 0, 0), Counter(2 * H, 0, 0)], open := false)
    else if i == 25 then freed.(used := [Counter(6 * H, 1, 0), Counter(2 * H, 0, 0)], cur := 0, pos := 0, free := {})
    else if i <= 30 then q
    else if i == 31 then lost.(pending := {1})
    else if i == 32 then lost.(queued := {1}, tokens := [Token({1}, 6 * H, {})])
    else lost.(free := {1})
  }

  /** Where the walk is. */
  function WalkAt(i: nat): nat {
    match i
    case 15 => 2 * H
    case 16 => 3 * H
    case 17 => 5 * H
    case 18 => 6 * H
    case 26 => 6 * H
    case 27 => 7 * H
    case 28 => 9 * H + 8
    case 29 => 11 * H
    case 30 => 12 * H
    case _ => 0
  }

  function St(i: nat): Memory {
    Memory(if i <= 18 then Region0(i) else Region1(i), Tiling(i), WalkAt(i), 10 <= i <= 14, None,
           if 1 <= i <= 20 then {0} else {}, if i == 0 then 0 else 1, if i == 22 || i == 32 then [{}] else [], [])
  }

  function Act(i: nat): Step {
    match i
    case 0 => OpenSession
    case 1 => Alloc(2 * H)
    case 2 => Alloc(H)
    case 3 => Alloc(2 * H)
    case 4 => Drop(2, 0)
    case 5 => Dealloc(0)
    case 6 => CloseRegion(2 * H)
    case 7 => ExtendFile
    case 8 => QueueRegion(0)
    case 9 => CopyObject
    case 10 => Drop(0, 0)
    case 11 => Dealloc(0)
    case 12 => Drop(0, 0)
    case 13 => Dealloc(0)
    case 18 => EndEvacuation
    case 19 => Alloc(2 * H)
    case 20 => CloseSession(0)
    case 21 => Hand
    case 22 => Free(0)
    case 23 => CloseRegion(2 * H)
    case 24 => ReuseRegion(0)
    case 25 => QueueRegion(1)
    case 27 => Visit(2 * H - 1)
    case 28 => Visit(2 * H - 16)
    case 30 => EndEvacuation
    case 31 => Hand
    case 32 => Free(0)
    case _ => Visit(0)
  }

  lemma FirstGoes(i: nat)
    requires i < 2
    ensures Follows(St(i), Act(i), St(i + 1))
  {
    if i == 0 {} else {}
  }

  lemma MoreGoes(i: nat)
    requires i == 2 || i == 3
    ensures Follows(St(i), Act(i), St(i + 1))
  {
    if i == 2 {} else {}
  }

  lemma DropGoes(i: nat)
    requires i == 4 || i == 10 || i == 12
    ensures Follows(St(i), Act(i), St(i + 1))
  {
    if i == 4 { assert Without([A, B, C], 2) == [A, B]; }
    else if i == 10 { assert Without([A, B], 0) == [B]; }
    else { assert Without([B], 0) == []; }
  }

  lemma DeallocGoes(i: nat)
    requires i == 5
    ensures Follows(St(i), Act(i), St(i + 1))
  {
    assert Region(3 * H, 6 * H) == 0 && Without(St(i).s.dead, 0) == [];
  }

  lemma DeallocFirst(i: nat)
    requires i == 11
    ensures Follows(St(i), Act(i), St(i + 1))
  {
    assert Region(0, 6 * H) == 0 && Without(St(i).s.dead, 0) == [];
  }

  lemma DeallocSecond(i: nat)
    requires i == 13
    ensures Follows(St(i), Act(i), St(i + 1))
  {
    assert Region(2 * H, 6 * H) == 0 && Without(St(i).s.dead, 0) == [];
  }

  lemma SwitchGoes(i: nat)
    requires 6 <= i <= 9
    ensures Follows(St(i), Act(i), St(i + 1))
  {
    if i == 6 {} else if i == 7 {
      assert Extend(Region0(7)).used == [Counter(3 * H, 0, 0), Counter(6 * H, 1, 0)];
    } else if i == 8 {} else {
      assert Region0(9).live[0].off == 0;
    }
  }

  /** The first evacuation: both objects of the region have been released. */
  lemma WalkGoes(i: nat)
    requires i == 14
    ensures Follows(St(i), Act(i), St(i + 1))
  {
    FieldExactly(2 * H);
  }

  lemma WalkOnGoes(i: nat)
    requires i == 15 || i == 17
    ensures Follows(St(i), Act(i), St(i + 1))
  {
    FieldExactly(H);
    if i == 15 {} else {}
  }

  lemma WalkPastGoes(i: nat)
    requires i == 16
    ensures Follows(St(i), Act(i), St(i + 1))
  {
    FieldExactly(2 * H);
  }

  lemma EndGoes()
    ensures Follows(St(18), Act(18), St(19))
  {
    assert Region(0, 6 * H) == 0 && Region(6 * H, 6 * H) == 1;
  }

  lemma FreeGoes(i: nat)
    requires i == 22
    ensures Follows(St(i), Act(i), St(i + 1))
  {
    assert Without(St(i).s.tokens, 0) == [] && Without(St(i).grace, 0) == [];
  }

  lemma FreeAgainGoes(i: nat)
    requires i == 32
    ensures Follows(St(i), Act(i), St(i + 1))
  {
    assert Without(St(i).s.tokens, 0) == [] && Without(St(i).grace, 0) == [];
  }

  lemma HandGoes(i: nat)
    requires i == 21 || i == 31
    ensures Follows(St(i), Act(i), St(i + 1))
  {
    assert Tags([]) == {};
    if i == 21 {} else {}
  }

  lemma QuietGoes(i: nat)
    requires i == 19 || i == 20
    ensures Follows(St(i), Act(i), St(i + 1))
  {
    if i == 19 {} else {}
  }

  lemma TurnGoes(i: nat)
    requires 23 <= i <= 25
    ensures Follows(St(i), Act(i), St(i + 1))
  {
    if i == 23 {} else if i == 24 {} else {}
  }

  lemma Capacities()
    ensures Capacity(3 * H - 8) == H - 8 && Capacity(2 * H - 1) == 2 * H && Capacity(2 * H - 16) == 2 * H - 16
  {}

  /** What the bytes say: over the rest of what was filled and the header of the object behind it, and from
      within the object to its end. */
  lemma AstrayGoes(i: nat)
    requires i == 26
    ensures Follows(St(i), Act(i), St(i + 1))
  {
    Capacities();
  }

  lemma OverGoes(i: nat)
    requires i == 27
    ensures Follows(St(i), Act(i), St(i + 1))
  {
    Capacities();
  }

  lemma BackGoes(i: nat)
    requires 28 <= i <= 29
    ensures Follows(St(i), Act(i), St(i + 1))
  {
    Capacities();
    FieldExactly(H);
  }

  lemma LostGoes()
    ensures Follows(St(30), Act(30), St(31))
  {
    assert Region(0, 6 * H) == 0 && Region(6 * H, 6 * H) == 1;
  }

  lemma Goes(i: nat)
    requires i < 33
    ensures Follows(St(i), Act(i), St(i + 1))
  {
    if i < 2 { FirstGoes(i); }
    else if i < 4 { MoreGoes(i); }
    else if i == 4 || i == 10 || i == 12 { DropGoes(i); }
    else if i == 5 { DeallocGoes(i); }
    else if i == 11 { DeallocFirst(i); }
    else if i == 13 { DeallocSecond(i); }
    else if i <= 9 { SwitchGoes(i); }
    else if i == 14 { WalkGoes(i); }
    else if i == 16 { WalkPastGoes(i); }
    else if i <= 17 { WalkOnGoes(i); }
    else if i == 18 { EndGoes(); }
    else if i <= 20 { QuietGoes(i); }
    else if i == 21 || i == 31 { HandGoes(i); }
    else if i == 22 { FreeGoes(i); }
    else if i == 32 { FreeAgainGoes(i); }
    else if i <= 25 { TurnGoes(i); }
    else if i == 26 { AstrayGoes(i); }
    else if i == 27 { OverGoes(i); }
    else if i <= 29 { BackGoes(i); }
    else { LostGoes(); }
  }

  /** What is queued is the greedy choice. */
  lemma Chosen(i: nat)
    requires i < 33 && Act(i).QueueRegion?
    ensures RegionAllocator.Greedy(St(i).s, |St(i).s.used|).0 == {Act(i).r}
  {
    var s := St(i).s;
    assert |s.used| == 2 && RegionAllocator.Greedy(s, 0) == ({}, 0);
    if i == 8 {
      assert RegionAllocator.Candidate(s, 0) && !RegionAllocator.Candidate(s, 1);
      assert RegionAllocator.Greedy(s, 1).0 == {0};
    } else {
      assert !RegionAllocator.Candidate(s, 0) && RegionAllocator.Candidate(s, 1);
      assert RegionAllocator.Greedy(s, 1) == ({}, 0);
    }
  }

  lemma SparedSoFar(i: nat)
    requires i < 30
    ensures Spared(St(i), Act(i))
  {
    assert !Act(i).DoubleRegions? && (Act(i).EndEvacuation? ==> i == 18);
    if i == 18 { FirstSmall(); }
  }

  lemma FirstSmall()
    ensures St(18).s.items != [] && SmallSource(St(18))
  {
    var p := Tiling(18);
    assert p.Keys == {0, 2 * H, 3 * H, 5 * H, 6 * H, 9 * H};
  }

  /** The last evacuation leaves the object behind, and its region is freed. */
  lemma LeftBehind()
    ensures St(30).s.items != [] && !Evacuated(St(30).s)
    ensures St(33).s.size > 0 && 1 in St(33).s.free && Bytes(St(33).s.live, St(33).s.size, 1) > 0
  {
    assert St(30).s.live[0] == M && Region(9 * H, 6 * H) == 1;
    BytesMember(St(33).s.live, 0, 6 * H, 1);
  }

  /** Where the last evacuation leaves the headers, it first reads what was copied of an object that was
      released meanwhile, and then the live object itself. */
  predicate ReadsData(copy: Memory, first: Memory, second: Memory) {
    && copy.s.items != [] && copy.s.live != []
    && copy.s.items[0].cursor + 8 <= first.at < copy.s.items[0].cursor + copy.s.live[0].size
    && M in second.s.live && M.off + 8 <= second.at < M.off + M.size
  }

  lemma DataRead()
    ensures ReadsData(St(9), St(27), St(28))
  {
    assert St(28).s.live[0] == M;
  }

  /** From a fresh file of 48 MiB to a state in which a region that holds a live object is free. The regions that
      are evacuated are the greedy choice, no region is doubled, and all evacuations but the last one pass only
      pieces that a header can tell. */
  lemma LiveObjectLost() returns (states: seq<Memory>, steps: seq<Step>)
    ensures Run(states, steps, 6 * H) && |steps| == 33
    ensures forall i :: 0 <= i < 33 && steps[i].QueueRegion? ==>
              RegionAllocator.Greedy(states[i].s, |states[i].s.used|).0 == {steps[i].r}
    ensures forall i :: 0 <= i < 30 ==> Spared(states[i], steps[i])
    ensures steps[9].CopyObject? && steps[27].Visit? && steps[28].Visit? && ReadsData(states[9], states[27], states[28])
    ensures steps[30].EndEvacuation? && states[30].s.items != [] && !Evacuated(states[30].s)
    ensures var s := states[33].s; s.size > 0 && 1 in s.free && Bytes(s.live, s.size, 1) > 0
  {
    states, steps := seq(34, i requires 0 <= i < 34 => St(i)), seq(33, i requires 0 <= i < 33 => Act(i));
    forall i: nat | i < 33 ensures StepAt(states, steps, i) { Goes(i); }
    forall i | 0 <= i < 33 && steps[i].QueueRegion?
      ensures RegionAllocator.Greedy(states[i].s, |states[i].s.used|).0 == {steps[i].r} { Chosen(i); }
    forall i | 0 <= i < 30 ensures Spared(states[i], steps[i]) { SparedSoFar(i); }
    LeftBehind();
    DataRead();
  }
}
