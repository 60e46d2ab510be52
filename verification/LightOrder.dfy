/** What the light client checks of the order of blocks: only that they come after the head it started from. */
module LightOrder {
  import opened Leb128
  import opened LightClient
  import opened LightSnapshot

  /** The numbers of the blocks that start and end changes, as they are handed in. Every start is followed by its
      end; `open` is the start of a change that is under way. */
  function Turns(open: Option<BlockNum>, blocks: seq<SignedBlock>): seq<BlockNum>
    decreases |blocks|
  {
    if blocks == [] then []
    else
      var h, rest := blocks[0].header, blocks[1..];
      var start := if h.newConsensus.Some? then Some(h.blockNum) else open;
      (if h.newConsensus.Some? then [h.blockNum] else [])
      + (if start.Some? && h.commitNum >= start.value then [h.blockNum] + Turns(None, rest) else Turns(start, rest))
  }

  /** Starts and ends in turn: an end is not before its start, and a start is after the end before it. */
  predicate Ascending(lo: BlockNum, start: bool, turns: seq<BlockNum>)
    decreases |turns|
  {
    turns != [] ==> lo <= turns[0] && Ascending(if start then turns[0] else turns[0] + 1, !start, turns[1..])
  }

  /** Changes that do not overlap, in the order of their rows. */
  predicate InOrder(lo: BlockNum, rows: seq<Row>, next: Option<Next>)
    decreases |rows|
  {
    if rows == [] then next.Some? ==> lo <= next.value.blockNum
    else lo <= rows[0].start <= rows[0].end && InOrder(rows[0].end + 1, rows[1..], next)
  }

  function Open(v: State): Option<BlockNum> { if v.joint.next.Some? then Some(v.joint.next.value.blockNum) else None }

  function AllTurns(open: Option<BlockNum>, blocks: seq<SignedBlock>): seq<BlockNum> {
    (if open.Some? then [open.value] else []) + Turns(open, blocks)
  }

  /** What one accepted block does to the change under way, from its header alone. */
  lemma StepTurns(env: Env, v: State, b: SignedBlock)
    requires Step(env, v, b).Some?
    ensures var a, h := Step(env, v, b).value, b.header;
            var start := if h.newConsensus.Some? then Some(h.blockNum) else Open(v);
            && (h.newConsensus.Some? ==> Open(v).None?)
            && (a.row.Some? <==> start.Some? && h.commitNum >= start.value)
            && (a.row.Some? ==>
                  a.row.value.start == start.value && a.row.value.end == h.blockNum && Open(a.state).None?)
            && (a.row.None? ==> Open(a.state) == start)
  {}

  lemma TurnsCons(open: Option<BlockNum>, blocks: seq<SignedBlock>)
    requires blocks != [] && (blocks[0].header.newConsensus.Some? ==> open.None?)
    ensures var h, rest := blocks[0].header, blocks[1..];
            var start := if h.newConsensus.Some? then Some(h.blockNum) else open;
            AllTurns(open, blocks) ==
              if start.Some? && h.commitNum >= start.value then [start.value, h.blockNum] + AllTurns(None, rest)
              else AllTurns(start, rest)
  {}

  /** For every accepted run, in whatever order its blocks are: its rows are in order if and only if the numbers
      of the blocks that start and end changes are. */
  lemma {:induction false} OrderExactly(env: Env, v: State, blocks: seq<SignedBlock>, lo: BlockNum)
    requires Run(env, v, blocks).Some?
    ensures var o := Run(env, v, blocks).value;
            InOrder(lo, o.rows, o.state.joint.next) <==> Ascending(lo, true, AllTurns(Open(v), blocks))
    decreases |blocks|
  {
    if blocks == [] {
      if Open(v).Some? { assert AllTurns(Open(v), blocks) == [Open(v).value] && [Open(v).value][1..] == []; }
    } else {
      var b := blocks[0];
      StepTurns(env, v, b);
      var a := Step(env, v, b).value;
      var o, rest := Run(env, v, blocks).value, Run(env, a.state, blocks[1..]).value;
      TurnsCons(Open(v), blocks);
      if a.row.Some? {
        OrderExactly(env, a.state, blocks[1..], b.header.blockNum + 1);
        TwoTurns(lo, a.row.value.start, b.header.blockNum, AllTurns(None, blocks[1..]));
        assert o.rows[1..] == rest.rows;
      } else {
        OrderExactly(env, a.state, blocks[1..], lo);
        assert [] + rest.rows == rest.rows;
      }
    }
  }

  lemma TwoTurns(lo: BlockNum, start: BlockNum, end: BlockNum, turns: seq<BlockNum>)
    ensures Ascending(lo, true, [start, end] + turns) <==> lo <= start <= end && Ascending(end + 1, true, turns)
  {
    var all := [start, end] + turns;
    assert all[1..] == [end] + turns && all[1..][1..] == turns;
  }

  /** Blocks in increasing order start and end changes in order. */
  lemma IncreasingIsAscending(env: Env, v: State, blocks: seq<SignedBlock>, n: BlockNum, end: BlockNum)
    requires Inv(v, n) && Increasing(blocks, n, end) && Run(env, v, blocks).Some?
    ensures Ascending(From(v, n), true, AllTurns(Open(v), blocks))
  {
    RowsFollow(env, v, blocks, n, end);
    var o := Run(env, v, blocks).value;
    FollowInOrder(From(v, n), o.rows, o.state.joint.next);
    OrderExactly(env, v, blocks, From(v, n));
  }

  lemma {:induction false} FollowInOrder(lo: BlockNum, rows: seq<Row>, next: Option<Next>)
    requires Follow(lo, rows, next)
    ensures InOrder(lo, rows, next)
    decreases |rows|
  {
    if rows != [] { FollowInOrder(rows[0].end + 1, rows[1..], next); }
  }

  /** Every accepted block comes after the head, and no other order is asked for: the head stays what it was. */
  lemma {:induction false} AllAfterHead(env: Env, v: State, blocks: seq<SignedBlock>)
    requires Run(env, v, blocks).Some?
    ensures Run(env, v, blocks).value.state.head == v.head
    ensures forall b :: b in blocks ==> b.header.blockNum > v.head
    decreases |blocks|
  {
    if blocks != [] { AllAfterHead(env, Step(env, v, blocks[0]).value.state, blocks[1..]); }
  }

  /** A change from block 5 to block 7, and after it one from block 1 to block 2. */
  lemma OutOfOrder(env: Env, services: Services, c: Consensus)
    requires c.algorithm.Cft? && c.producers == [] && env.update(services, c, c, []) == Some(services)
    ensures var none := Sha(Joint(c, None));
            var v := State(Joint(c, None), none, [], [], 0, services);
            var b5 := SignedBlock(Header(5, 0, 0, Some(c), None, Sha(Joint(c, Some(Next(c, 5))))), 0, Missing);
            var b7 := SignedBlock(Header(7, 0, 5, None, None, Sha(Joint(c, Some(Next(c, 5))))), 0, Missing);
            var b1 := SignedBlock(Header(1, 0, 0, Some(c), None, Sha(Joint(c, Some(Next(c, 1))))), 0, Missing);
            var b2 := SignedBlock(Header(2, 0, 1, None, None, Sha(Joint(c, Some(Next(c, 1))))), 0, Missing);
            var rows := [Row(5, 5, 7), Row(1, 1, 2)];
            Run(env, v, [b5, b7, b1, b2]) == Some(Outcome(v, rows)) && !InOrder(1, rows, None)
  {
    var none := Sha(Joint(c, None));
    var v := State(Joint(c, None), none, [], [], 0, services);
    var b5 := SignedBlock(Header(5, 0, 0, Some(c), None, Sha(Joint(c, Some(Next(c, 5))))), 0, Missing);
    var b7 := SignedBlock(Header(7, 0, 5, None, None, Sha(Joint(c, Some(Next(c, 5))))), 0, Missing);
    var b1 := SignedBlock(Header(1, 0, 0, Some(c), None, Sha(Joint(c, Some(Next(c, 1))))), 0, Missing);
    var b2 := SignedBlock(Header(2, 0, 1, None, None, Sha(Joint(c, Some(Next(c, 1))))), 0, Missing);
    assert Run(env, v, []) == Some(Outcome(v, []));
    var one, two := [Row(1, 1, 2)], [Row(5, 5, 7), Row(1, 1, 2)];
    OneChange(env, services, c, v, b1, b2, [], Outcome(v, []), [b1, b2], one);
    OneChange(env, services, c, v, b5, b7, [b1, b2], Outcome(v, one), [b5, b7, b1, b2], two);
    assert two[1..] == one;
  }

  /** A change that starts with one block and ends with another, which commits the first. */
  lemma OneChange(env: Env, services: Services, c: Consensus, v: State, b: SignedBlock, b': SignedBlock,
                  rest: seq<SignedBlock>, o: Outcome, blocks: seq<SignedBlock>, rows: seq<Row>)
    requires c.algorithm.Cft? && c.producers == [] && env.update(services, c, c, []) == Some(services)
    requires v == State(Joint(c, None), Sha(Joint(c, None)), [], [], 0, services) && Run(env, v, rest) == Some(o)
    requires b.header.blockNum > 0 && b'.header.blockNum > 0
    requires var hash := Sha(Joint(c, Some(Next(c, b.header.blockNum))));
             && b.header == Header(b.header.blockNum, 0, 0, Some(c), None, hash)
             && b'.header == Header(b'.header.blockNum, 0, b.header.blockNum, None, None, hash)
    requires blocks == [b, b'] + rest
             && rows == [Row(b.header.blockNum, b.header.blockNum, b'.header.blockNum)] + o.rows
    ensures Run(env, v, blocks) == Some(Outcome(o.state, rows))
  {
    var joint := Joint(c, Some(Next(c, b.header.blockNum)));
    var w := State(joint, Sha(joint), [], [b.header], 0, services);
    assert Step(env, v, b) == Some(Accepted(w, None)) by { assert [] + [b.header] == [b.header]; }
    assert Step(env, w, b') == Some(Accepted(v, Some(Row(b.header.blockNum, b.header.blockNum, b'.header.blockNum))));
    RunMore(env, w, b', v, rest, o, [b'] + rest, rows);
    assert [b] + ([b'] + rest) == [b, b'] + rest && [] + rows == rows;
    RunMore(env, v, b, w, [b'] + rest, Outcome(o.state, rows), blocks, rows);
  }
}
