/** The blocks that a snapshot keeps are enough for the light client: it accepts them with the same
    changes and ends in the same consensus as if it had seen every block. */
module LightSnapshot {
  import opened Leb128
  import opened LightClient

  // ----- a run over a sequence of blocks

  datatype Outcome = Outcome(state: State, rows: seq<Row>)

  function RowsOf(r: Option<Row>): seq<Row> { if r.Some? then [r.value] else [] }

  /** None when some block is rejected. */
  function Run(env: Env, v: State, blocks: seq<SignedBlock>): Option<Outcome>
    decreases |blocks|
  {
    if blocks == [] then Some(Outcome(v, []))
    else
      var first := Step(env, v, blocks[0]);
      if first.None? then None
      else
        var rest := Run(env, first.value.state, blocks[1..]);
        if rest.None? then None
        else Some(Outcome(rest.value.state, RowsOf(first.value.row) + rest.value.rows))
  }

  /** Block numbers increase strictly from `n` and stay below `end`. */
  predicate Increasing(blocks: seq<SignedBlock>, n: BlockNum, end: BlockNum) {
    blocks != [] ==> n < blocks[0].header.blockNum < end && Increasing(blocks[1..], blocks[0].header.blockNum, end)
  }

  /** A change that is under way began at or before block `n`, as did the blocks that are pending. */
  predicate Inv(v: State, n: BlockNum) {
    && v.head <= n
    && (v.joint.next.Some? ==>
          && v.hash == Sha(v.joint)
          && v.joint.next.value.blockNum <= n
          && forall p :: p in v.pending ==> v.joint.next.value.blockNum <= p.blockNum <= n)
    && (v.joint.next.None? ==> v.pending == [])
    && (v.hash == Zero || v.hash == Sha(v.joint))
  }

  lemma StepInv(env: Env, v: State, b: SignedBlock, n: BlockNum)
    requires Inv(v, n) && b.header.blockNum > n && Step(env, v, b).Some?
    ensures var a := Step(env, v, b).value;
            && Inv(a.state, b.header.blockNum) && a.state.head == v.head
            && (a.row.Some? ==> a.state.joint.next.None? && a.row.value.start <= a.row.value.commit)
            && (a.row.Some? ==> a.row.value.end == b.header.blockNum)
            && (a.row.Some? ==> a.row.value.start == if v.joint.next.Some? then v.joint.next.value.blockNum
                                                     else b.header.blockNum)
            && (a.row.None? && v.joint.next.Some? ==> a.state.joint == v.joint)
            && (a.row.None? && v.joint.next.None? && a.state.joint.next.Some? ==>
                a.state.joint.next.value.blockNum == b.header.blockNum)
  {}

  /** Changes follow one another; one that is unfinished comes last. */
  predicate Follow(lo: BlockNum, rows: seq<Row>, next: Option<Next>)
    decreases |rows|
  {
    if rows == [] then next.Some? ==> lo <= next.value.blockNum
    else
      && lo <= rows[0].start <= rows[0].end && rows[0].start <= rows[0].commit
      && Follow(rows[0].end + 1, rows[1..], next)
  }

  function From(v: State, n: BlockNum): BlockNum { if v.joint.next.Some? then v.joint.next.value.blockNum else n + 1 }

  lemma {:induction false} FollowLower(lo: BlockNum, lo': BlockNum, rows: seq<Row>, next: Option<Next>)
    requires lo' <= lo && Follow(lo, rows, next)
    ensures Follow(lo', rows, next)
  {}

  lemma {:induction false} RowsFollow(env: Env, v: State, blocks: seq<SignedBlock>, n: BlockNum, end: BlockNum)
    requires Inv(v, n) && Increasing(blocks, n, end) && Run(env, v, blocks).Some?
    ensures var o := Run(env, v, blocks).value; Follow(From(v, n), o.rows, o.state.joint.next)
    ensures forall r :: r in Run(env, v, blocks).value.rows ==> r.end < end
    decreases |blocks|
  {
    if blocks != [] {
      var b := blocks[0];
      StepInv(env, v, b, n);
      var a := Step(env, v, b).value;
      RowsFollow(env, a.state, blocks[1..], b.header.blockNum, end);
      var rest := Run(env, a.state, blocks[1..]).value;
      if a.row.Some? {
        assert ([a.row.value] + rest.rows)[1..] == rest.rows;
      } else {
        assert [] + rest.rows == rest.rows;
        FollowLower(From(a.state, b.header.blockNum), From(v, n), rest.rows, rest.state.joint.next);
      }
    }
  }

  /** A change that is under way either ends as the first change, or is still under way at the end. */
  lemma {:induction false} UnderWay(env: Env, v: State, blocks: seq<SignedBlock>, n: BlockNum, end: BlockNum)
    requires Inv(v, n) && Increasing(blocks, n, end) && Run(env, v, blocks).Some? && v.joint.next.Some?
    ensures var o := Run(env, v, blocks).value;
            if o.rows == [] then o.state.joint == v.joint else o.rows[0].start == v.joint.next.value.blockNum
    decreases |blocks|
  {
    if blocks != [] {
      var b := blocks[0];
      StepInv(env, v, b, n);
      var a := Step(env, v, b).value;
      if a.row.None? { UnderWay(env, a.state, blocks[1..], b.header.blockNum, end); }
    }
  }

  // ----- dropping blocks

  /** Only the blocks in `proofs` keep their signature and consensus data. */
  function Light(b: SignedBlock, proofs: set<BlockNum>): SignedBlock {
    if b.header.blockNum in proofs then b else SignedBlock(b.header, 0, Missing)
  }

  function Keep(blocks: seq<SignedBlock>, kept: set<BlockNum>, proofs: set<BlockNum>): seq<SignedBlock> {
    if blocks == [] then []
    else
      (if blocks[0].header.blockNum in kept then [Light(blocks[0], proofs)] else [])
      + Keep(blocks[1..], kept, proofs)
  }

  function KeepIds(pending: seq<Header>, kept: set<BlockNum>): seq<Header> {
    if pending == [] then []
    else (if pending[0].blockNum in kept then [pending[0]] else []) + KeepIds(pending[1..], kept)
  }

  /** The client that saw only the kept blocks knows fewer pending ones; nothing else differs. */
  predicate Similar(v: State, w: State, kept: set<BlockNum>) { w == v.(pending := KeepIds(v.pending, kept)) }

  lemma {:induction false} KeepIdsSnoc(pending: seq<Header>, h: Header, kept: set<BlockNum>)
    ensures KeepIds(pending + [h], kept) == KeepIds(pending, kept) + (if h.blockNum in kept then [h] else [])
  {
    if pending == [] {
      assert [] + [h] == [h] && [h][1..] == [];
    } else {
      KeepIdsSnoc(pending[1..], h, kept);
      assert (pending + [h])[1..] == pending[1..] + [h];
    }
  }

  /** A kept block is found under the same identifier. */
  lemma {:induction false} SameBlockId(pending: seq<Header>, num: BlockNum, kept: set<BlockNum>)
    requires num in kept
    ensures BlockId(KeepIds(pending, kept), num) == BlockId(pending, num)
  {
    if pending != [] {
      SameBlockId(pending[1..], num, kept);
      var rest := KeepIds(pending[1..], kept);
      if pending[0].blockNum in kept {
        assert ([pending[0]] + rest)[1..] == rest;
      } else {
        assert [] + rest == rest;
      }
    }
  }

  /** A kept block has the same effect, provided that the proof of a change that it ends is kept. */
  lemma StepKept(env: Env, v: State, w: State, b: SignedBlock, kept: set<BlockNum>, proofs: set<BlockNum>, n: BlockNum,
                 end: BlockNum)
    requires Similar(v, w, kept) && Step(env, v, b).Some? && b.header.blockNum in kept
    requires Inv(v, n) && n < b.header.blockNum < end
    requires var row := Step(env, v, b).value.row;
             row.Some? ==> b.header.blockNum in proofs && (row.value.commit < end ==> row.value.commit in kept)
    ensures var a, a' := Step(env, v, b), Step(env, w, Light(b, proofs));
            a'.Some? && a'.value.row == a.value.row && Similar(a.value.state, a'.value.state, kept)
  {
    var h := b.header;
    var v1 := Started(v, h).value;
    KeepIdsSnoc(v1.pending, h, kept);
    var v2 := v1.(pending := v1.pending + [h]);
    if v1.joint.next.Some? && Ends(v1, h) {
      SameProof(env, v2, v2.(pending := KeepIds(v2.pending, kept)), b, kept, h.blockNum, end);
    }
  }

  /** The proof of a change is as good for a client that knows only the kept blocks. */
  lemma SameProof(env: Env, v: State, w: State, b: SignedBlock, kept: set<BlockNum>, n: BlockNum, end: BlockNum)
    requires Similar(v, w, kept) && v.joint.next.Some? && Irreversible(env, v, b).Some? && n < end
    requires Irreversible(env, v, b).value.0 < end ==> Irreversible(env, v, b).value.0 in kept
    requires forall p :: p in v.pending ==> p.blockNum <= n
    ensures Irreversible(env, w, b) == Irreversible(env, v, b)
  {
    if v.joint.current.algorithm.Bft? {
      var commit := b.aux.value.blockNum;
      assert BlockId(v.pending, commit).value in v.pending;
      SameBlockId(v.pending, commit, kept);
    }
  }

  /** A block that neither starts nor ends a change can be dropped. */
  lemma StepDropped(env: Env, v: State, w: State, b: SignedBlock, kept: set<BlockNum>)
    requires Similar(v, w, kept) && Step(env, v, b).Some? && b.header.blockNum !in kept
    requires b.header.newConsensus.None? && Step(env, v, b).value.row.None?
    ensures Similar(Step(env, v, b).value.state, w, kept)
  {
    KeepIdsSnoc(v.pending, b.header, kept);
  }

  /** What has to be kept of a run: of every change the first block, the committed block and the last
      block with its proof; and the first block of a change that is unfinished. */
  predicate Covers(rows: seq<Row>, next: Option<Next>, kept: set<BlockNum>, proofs: set<BlockNum>, end: BlockNum) {
    && (forall r :: r in rows ==>
          r.start in kept && r.end in kept && r.end in proofs && (r.commit < end ==> r.commit in kept))
    && (next.Some? ==> next.value.blockNum in kept)
  }

  /** Any selection of the blocks of an accepted run that covers it is accepted, with the same changes. */
  lemma {:induction false} KeptRun(env: Env, v: State, w: State, blocks: seq<SignedBlock>,
                                   kept: set<BlockNum>, proofs: set<BlockNum>, n: BlockNum, end: BlockNum)
    requires Inv(v, n) && Increasing(blocks, n, end) && Similar(v, w, kept) && Run(env, v, blocks).Some?
    requires var o := Run(env, v, blocks).value; Covers(o.rows, o.state.joint.next, kept, proofs, end)
    ensures var o, o' := Run(env, v, blocks), Run(env, w, Keep(blocks, kept, proofs));
            o'.Some? && o'.value.rows == o.value.rows && Similar(o.value.state, o'.value.state, kept)
    decreases |blocks|
  {
    if blocks != [] {
      var b := blocks[0];
      StepInv(env, v, b, n);
      var a := Step(env, v, b).value;
      var rest := Run(env, a.state, blocks[1..]).value;
      var o := Run(env, v, blocks).value;
      assert forall r :: r in rest.rows ==> r in o.rows;
      if a.row.Some? { assert a.row.value in o.rows; }
      if b.header.blockNum in kept {
        StepKept(env, v, w, b, kept, proofs, n, end);
        var w' := Step(env, w, Light(b, proofs)).value.state;
        KeptRun(env, a.state, w', blocks[1..], kept, proofs, b.header.blockNum, end);
        var tail := Keep(blocks[1..], kept, proofs);
        assert ([Light(b, proofs)] + tail)[1..] == tail;
      } else {
        MustBeKept(env, v, blocks, n, end);
        StepDropped(env, v, w, b, kept);
        KeptRun(env, a.state, w, blocks[1..], kept, proofs, b.header.blockNum, end);
        assert [] + Keep(blocks[1..], kept, proofs) == Keep(blocks[1..], kept, proofs);
        assert [] + rest.rows == rest.rows;
      }
    }
  }

  /** The first block of a run is named by the changes if it starts or ends one. */
  lemma MustBeKept(env: Env, v: State, blocks: seq<SignedBlock>, n: BlockNum, end: BlockNum)
    requires Inv(v, n) && Increasing(blocks, n, end) && Run(env, v, blocks).Some? && blocks != []
    ensures var o, a, num := Run(env, v, blocks).value, Step(env, v, blocks[0]).value, blocks[0].header.blockNum;
            && (a.row.Some? ==> exists r :: r in o.rows && r.end == num)
            && (blocks[0].header.newConsensus.Some? ==>
                  (exists r :: r in o.rows && r.start == num)
                  || (o.state.joint.next.Some? && o.state.joint.next.value.blockNum == num))
  {
    var b := blocks[0];
    StepInv(env, v, b, n);
    var a, o := Step(env, v, b).value, Run(env, v, blocks).value;
    if a.row.Some? {
      assert a.row.value in o.rows;
    } else if b.header.newConsensus.Some? {
      UnderWay(env, a.state, blocks[1..], b.header.blockNum, end);
      var rest := Run(env, a.state, blocks[1..]).value;
      if rest.rows != [] { assert rest.rows[0] in o.rows; }
    }
  }

  /** The other direction: a run reports only block numbers that it has seen, or started from. */
  lemma {:induction false} RowsSeen(env: Env, v: State, blocks: seq<SignedBlock>)
    requires Run(env, v, blocks).Some?
    ensures var o := Run(env, v, blocks).value;
            && (forall r :: r in o.rows ==>
                Seen(r.end, blocks) && (Seen(r.start, blocks) || StartedAt(v.joint.next, r.start)))
            && (forall n :: StartedAt(o.state.joint.next, n) ==> Seen(n, blocks) || StartedAt(v.joint.next, n))
    decreases |blocks|
  {
    if blocks != [] {
      var a := Step(env, v, blocks[0]).value;
      RowsSeen(env, a.state, blocks[1..]);
      assert blocks[0] in blocks;
      assert forall n :: Seen(n, blocks[1..]) ==> Seen(n, blocks);
      assert forall n :: StartedAt(a.state.joint.next, n) ==>
        n == blocks[0].header.blockNum || StartedAt(v.joint.next, n);
    }
  }

  predicate Seen(n: BlockNum, blocks: seq<SignedBlock>) { exists b :: b in blocks && b.header.blockNum == n }

  predicate StartedAt(next: Option<Next>, n: BlockNum) { next.Some? && next.value.blockNum == n }

  // ----- the writer

  /** The numbers written so far, and the last of them. */
  datatype Copy = Aborted | Copied(last: BlockNum, out: seq<BlockNum>)

  /** `copy_block`: skips a number that is not after the last one; aborts if the block is not in the log. */
  function CopyBlock(log: set<BlockNum>, end: BlockNum, c: Copy, num: BlockNum): Copy {
    if c.Aborted? || num <= c.last || num >= end then c
    else if num !in log then Aborted
    else Copied(num, c.out + [num])
  }

  function CopyFrom(log: set<BlockNum>, end: BlockNum, c: Copy, num: BlockNum): Copy
    decreases end - num
  {
    if num >= end then c else CopyFrom(log, end, CopyBlock(log, end, c, num), num + 1)
  }

  function CopyRow(log: set<BlockNum>, end: BlockNum, c: Copy, r: Row): Copy {
    if r.end < end then
      CopyBlock(log, end, CopyBlock(log, end, CopyBlock(log, end, c, r.start), r.commit), r.end)
    else CopyFrom(log, end, c, r.start)
  }

  /** The rows up to the first that starts at `end` or later. */
  function CopyRows(log: set<BlockNum>, end: BlockNum, c: Copy, rows: seq<Row>): Copy
    decreases |rows|
  {
    if rows == [] || rows[0].start >= end then c
    else CopyRows(log, end, CopyRow(log, end, c, rows[0]), rows[1..])
  }

  /** Copies the rows, then the blocks of an unfinished change. */
  function Finish(log: set<BlockNum>, end: BlockNum, c: Copy, rows: seq<Row>, next: Option<Next>): Copy {
    var c := CopyRows(log, end, c, rows);
    if next.Some? then CopyFrom(log, end, c, next.value.blockNum) else c
  }

  function Written(log: set<BlockNum>, end: BlockNum, rows: seq<Row>, next: Option<Next>): Copy {
    Finish(log, end, Copied(0, []), rows, next)
  }

  function Range(from: BlockNum, end: BlockNum): seq<BlockNum>
    decreases end - from
  {
    if from >= end then [] else [from] + Range(from + 1, end)
  }

  function RowProofs(r: Row, end: BlockNum): seq<BlockNum> { if r.end < end then [r.end] else Range(r.start, end) }

  function RowsProofs(rows: seq<Row>, end: BlockNum): seq<BlockNum>
    decreases |rows|
  {
    if rows == [] || rows[0].start >= end then [] else RowProofs(rows[0], end) + RowsProofs(rows[1..], end)
  }

  /** The blocks whose signatures are written. */
  function Proofs(rows: seq<Row>, next: Option<Next>, end: BlockNum): seq<BlockNum> {
    RowsProofs(rows, end) + (if next.Some? then Range(next.value.blockNum, end) else [])
  }

  method CopyOne(log: set<BlockNum>, end: BlockNum, last: BlockNum, out: seq<BlockNum>, num: BlockNum)
    returns (ok: bool, last': BlockNum, out': seq<BlockNum>)
    ensures ok ==> CopyBlock(log, end, Copied(last, out), num) == Copied(last', out')
    ensures !ok ==> CopyBlock(log, end, Copied(last, out), num) == Aborted
  {
    if num <= last || num >= end { return true, last, out; }
    if num !in log { return false, last, out; }
    return true, num, out + [num];
  }

  lemma {:induction false} CopyFromAborted(log: set<BlockNum>, end: BlockNum, num: BlockNum)
    ensures CopyFrom(log, end, Aborted, num) == Aborted
    decreases end - num
  {
    if num < end { CopyFromAborted(log, end, num + 1); }
  }

  lemma {:induction false} CopyRowsAborted(log: set<BlockNum>, end: BlockNum, rows: seq<Row>)
    ensures CopyRows(log, end, Aborted, rows) == Aborted
    decreases |rows|
  {
    if rows != [] && rows[0].start < end {
      CopyFromAborted(log, end, rows[0].start);
      CopyRowsAborted(log, end, rows[1..]);
    }
  }

  method CopyAll(log: set<BlockNum>, end: BlockNum, last: BlockNum, out: seq<BlockNum>, from: BlockNum)
    returns (ok: bool, last': BlockNum, out': seq<BlockNum>, proofs: seq<BlockNum>)
    ensures ok ==> CopyFrom(log, end, Copied(last, out), from) == Copied(last', out') && proofs == Range(from, end)
    ensures !ok ==> CopyFrom(log, end, Copied(last, out), from) == Aborted
  {
    ok, last', out', proofs := true, last, out, [];
    var i := from;
    while i < end
      invariant i <= end || i == from
      invariant CopyFrom(log, end, Copied(last, out), from) == CopyFrom(log, end, Copied(last', out'), i)
      invariant Range(from, end) == proofs + Range(i, end)
    {
      ghost var before := Copied(last', out');
      ok, last', out' := CopyOne(log, end, last', out', i);
      if !ok {
        CopyFromAborted(log, end, i + 1);
        return;
      }
      assert Range(i, end) == [i] + Range(i + 1, end);
      assert proofs + Range(i, end) == proofs + [i] + Range(i + 1, end);
      proofs := proofs + [i];
      i := i + 1;
    }
    assert proofs + [] == proofs;
  }

  /** `write_consensus_change_blocks`: the numbers of the blocks written, and of those whose proof is. */
  method WriteChangeBlocks(log: set<BlockNum>, end: BlockNum, rows: seq<Row>, next: Option<Next>)
    returns (ok: bool, out: seq<BlockNum>, proofs: seq<BlockNum>)
    ensures ok <==> Written(log, end, rows, next).Copied?
    ensures ok ==> out == Written(log, end, rows, next).out && proofs == Proofs(rows, next, end)
  {
    var last: BlockNum := 0;
    out, proofs := [], [];
    var i := 0;
    while i < |rows| && rows[i].start < end
      invariant i <= |rows|
      invariant CopyRows(log, end, Copied(0, []), rows) == CopyRows(log, end, Copied(last, out), rows[i..])
      invariant RowsProofs(rows, end) == proofs + RowsProofs(rows[i..], end)
    {
      ghost var rest := rows[i..];
      assert rest[1..] == rows[i + 1..];
      var more;
      ok, last, out, more := WriteRow(log, end, last, out, rows[i]);
      if !ok {
        CopyRowsAborted(log, end, rows[i + 1..]);
        if next.Some? { CopyFromAborted(log, end, next.value.blockNum); }
        return;
      }
      assert proofs + RowsProofs(rest, end) == (proofs + more) + RowsProofs(rows[i + 1..], end);
      proofs := proofs + more;
      i := i + 1;
    }
    assert RowsProofs(rows, end) == proofs + [];
    ok := true;
    if next.Some? {
      var more;
      ok, last, out, more := CopyAll(log, end, last, out, next.value.blockNum);
      proofs := proofs + more;
    }
  }

  method WriteRow(log: set<BlockNum>, end: BlockNum, last: BlockNum, out: seq<BlockNum>, r: Row)
    returns (ok: bool, last': BlockNum, out': seq<BlockNum>, proofs: seq<BlockNum>)
    ensures ok ==> CopyRow(log, end, Copied(last, out), r) == Copied(last', out') && proofs == RowProofs(r, end)
    ensures !ok ==> CopyRow(log, end, Copied(last, out), r) == Aborted
  {
    proofs := [];
    if r.end < end {
      ok, last', out' := CopyOne(log, end, last, out, r.start);
      if ok { ok, last', out' := CopyOne(log, end, last', out', r.commit); }
      if ok { ok, last', out' := CopyOne(log, end, last', out', r.end); }
      proofs := [r.end];
    } else {
      ok, last', out', proofs := CopyAll(log, end, last, out, r.start);
    }
  }

  // ----- what the writer keeps

  predicate Sorted(out: seq<BlockNum>) { forall i, j :: 0 <= i < j < |out| ==> out[i] < out[j] }

  /** Everything written is in the log, below `end`, in increasing order up to the last. */
  predicate Well(log: set<BlockNum>, end: BlockNum, c: Copy) {
    c.Copied? && Sorted(c.out) && forall n :: n in c.out ==> n in log && n < end && n <= c.last
  }

  /** Later copies keep what is written and add only numbers after the last. */
  predicate Grown(c: Copy, c': Copy) {
    c'.Copied? ==>
      && c.Copied? && c.last <= c'.last
      && (forall n :: n in c.out ==> n in c'.out)
      && (forall n :: n in c'.out ==> n in c.out || c.last < n)
  }

  lemma BlockGrown(log: set<BlockNum>, end: BlockNum, c: Copy, num: BlockNum)
    ensures Grown(c, CopyBlock(log, end, c, num))
    ensures Well(log, end, c) && CopyBlock(log, end, c, num).Copied? ==> Well(log, end, CopyBlock(log, end, c, num))
  {
    if c.Copied? { assert forall i :: 0 <= i < |c.out| ==> c.out[i] in c.out; }
  }

  lemma {:induction false} FromGrown(log: set<BlockNum>, end: BlockNum, c: Copy, num: BlockNum)
    ensures var c' := CopyFrom(log, end, c, num);
            && Grown(c, c') && (Well(log, end, c) && c'.Copied? ==> Well(log, end, c'))
            && (c'.Copied? && num < end && num > c.last ==> num in c'.out)
    decreases end - num
  {
    if num < end {
      BlockGrown(log, end, c, num);
      FromGrown(log, end, CopyBlock(log, end, c, num), num + 1);
    }
  }

  lemma RowGrown(log: set<BlockNum>, end: BlockNum, c: Copy, r: Row)
    ensures var c' := CopyRow(log, end, c, r); Grown(c, c') && (Well(log, end, c) && c'.Copied? ==> Well(log, end, c'))
  {
    if r.end < end {
      BlockGrown(log, end, c, r.start);
      var c1 := CopyBlock(log, end, c, r.start);
      BlockGrown(log, end, c1, r.commit);
      BlockGrown(log, end, CopyBlock(log, end, c1, r.commit), r.end);
    } else {
      FromGrown(log, end, c, r.start);
    }
  }

  lemma {:induction false} RowsGrown(log: set<BlockNum>, end: BlockNum, c: Copy, rows: seq<Row>)
    ensures var c' := CopyRows(log, end, c, rows);
            Grown(c, c') && (Well(log, end, c) && c'.Copied? ==> Well(log, end, c'))
    decreases |rows|
  {
    if rows != [] && rows[0].start < end {
      RowGrown(log, end, c, rows[0]);
      RowsGrown(log, end, CopyRow(log, end, c, rows[0]), rows[1..]);
    }
  }

  lemma FinishGrown(log: set<BlockNum>, end: BlockNum, c: Copy, rows: seq<Row>, next: Option<Next>)
    ensures var c' := Finish(log, end, c, rows, next);
            Grown(c, c') && (Well(log, end, c) && c'.Copied? ==> Well(log, end, c'))
  {
    RowsGrown(log, end, c, rows);
    if next.Some? { FromGrown(log, end, CopyRows(log, end, c, rows), next.value.blockNum); }
  }

  /** The first block of the change after these rows. */
  function Limit(rows: seq<Row>, next: Option<Next>): Option<BlockNum> {
    if rows != [] then Some(rows[0].start) else if next.Some? then Some(next.value.blockNum) else None
  }

  /** The committed block is not beyond the last block of the change; or it is not written at all; or the
      change is a single block and nothing else of interest lies before the committed block. */
  predicate GoodRow(r: Row, limit: Option<BlockNum>, end: BlockNum) {
    r.commit <= r.end || r.commit >= end || (r.start == r.end && (limit.Some? ==> r.commit <= limit.value))
  }

  predicate AllGood(rows: seq<Row>, next: Option<Next>, end: BlockNum) {
    rows != [] ==> GoodRow(rows[0], Limit(rows[1..], next), end) && AllGood(rows[1..], next, end)
  }

  /** The change of `limit` is still to be written, or its first block has been. */
  predicate Ready(c: Copy, limit: Option<BlockNum>) {
    c.Copied? && (limit.Some? ==> c.last < limit.value || (c.last == limit.value && c.last in c.out))
  }

  predicate AllKept(rows: seq<Row>, next: Option<Next>, kept: seq<BlockNum>, end: BlockNum) {
    && (forall r :: r in rows ==> r.start in kept && r.end in kept && (r.commit < end ==> r.commit in kept))
    && (next.Some? ==> next.value.blockNum in kept)
  }

  /** A number before the last one that a run needs was not kept. */
  predicate Lost(rows: seq<Row>, next: Option<Next>, kept: seq<BlockNum>, lo: BlockNum, end: BlockNum) {
    || (exists r :: r in rows && r.end !in kept && r.end + 1 < end)
    || (exists r :: r in rows && r.start !in kept && lo < r.start && r.start + 1 < end)
    || (next.Some? && next.value.blockNum !in kept && lo < next.value.blockNum && next.value.blockNum + 1 < end)
  }

  /** What was written of one change. */
  lemma RowCopied(log: set<BlockNum>, end: BlockNum, c: Copy, r: Row, limit: Option<BlockNum>)
    requires Well(log, end, c) && Ready(c, Some(r.start)) && CopyRow(log, end, c, r).Copied?
    requires r.start <= r.end < end && r.start <= r.commit && (limit.Some? ==> r.end < limit.value)
    ensures var c' := CopyRow(log, end, c, r);
            && (GoodRow(r, limit, end) ==> AllKept([r], None, c'.out, end) && Ready(c', limit))
            && (!GoodRow(r, limit, end) && r.start < r.end ==> r.end !in c'.out && r.end <= c'.last && r.end + 1 < end)
            && (!GoodRow(r, limit, end) && r.start == r.end ==>
                  limit.Some? && limit.value !in c'.out && limit.value <= c'.last && limit.value + 1 < end)
  {}

  /** Exactly when all rows are good, all that a run needs is kept. */
  lemma {:induction false} KeptExactly(log: set<BlockNum>, end: BlockNum, c: Copy, rows: seq<Row>, extra: seq<Row>,
                                       next: Option<Next>, lo: BlockNum)
    requires Well(log, end, c) && Ready(c, Limit(rows, next)) && Follow(lo, rows, next)
    requires (forall r :: r in rows ==> r.end < end) && (next.Some? ==> next.value.blockNum < end)
             && Unfinished(extra, next, end)
    requires Finish(log, end, c, rows + extra, next).Copied?
    ensures var kept := Finish(log, end, c, rows + extra, next).out;
            && (AllGood(rows, next, end) ==> AllKept(rows, next, kept, end))
            && (!AllGood(rows, next, end) ==> Lost(rows, next, kept, lo, end))
    decreases |rows|
  {
    if rows == [] {
      assert rows + extra == extra;
      UnfinishedKept(log, end, c, extra, next);
    } else {
      var r, limit := rows[0], Limit(rows[1..], next);
      var c1 := CopyRow(log, end, c, r);
      assert (rows + extra)[1..] == rows[1..] + extra;
      FinishGrown(log, end, c1, rows[1..] + extra, next);
      RowGrown(log, end, c, r);
      assert limit.Some? ==> r.end < limit.value;
      RowCopied(log, end, c, r, limit);
      assert rows == [r] + rows[1..];
      if GoodRow(r, limit, end) {
        KeptExactly(log, end, c1, rows[1..], extra, next, r.end + 1);
      } else if r.start == r.end {
        if rows[1..] != [] { assert rows[1] in rows; }
      }
    }
  }

  /** At most one row reaches beyond the snapshot: that of the change that is unfinished there. */
  predicate Unfinished(extra: seq<Row>, next: Option<Next>, end: BlockNum) {
    extra == [] || (|extra| == 1 && next.Some? && extra[0].start == next.value.blockNum && extra[0].end >= end)
  }

  lemma UnfinishedKept(log: set<BlockNum>, end: BlockNum, c: Copy, extra: seq<Row>, next: Option<Next>)
    requires Ready(c, Limit([], next)) && Unfinished(extra, next, end) && (next.Some? ==> next.value.blockNum < end)
    requires Finish(log, end, c, extra, next).Copied?
    ensures next.Some? ==> next.value.blockNum in Finish(log, end, c, extra, next).out
  {
    if next.Some? {
      var num := next.value.blockNum;
      RowsGrown(log, end, c, extra);
      FromGrown(log, end, c, num);
      var c1 := CopyRows(log, end, c, extra);
      FromGrown(log, end, c1, num);
      if extra != [] {
        assert CopyRows(log, end, CopyRow(log, end, c, extra[0]), []) == CopyRow(log, end, c, extra[0]);
        assert c1 == CopyFrom(log, end, c, num);
      }
    }
  }

  // ----- what the client loads

  /** `verifyHeaders`: the numbers that are not already known, up to but not including the head of the
      snapshot, where the loop stops. */
  function Handed(out: seq<BlockNum>, head: BlockNum, max: BlockNum): (r: seq<BlockNum>)
    ensures forall n :: n in r ==> n in out && head < n < max
  {
    if out == [] then []
    else if out[0] <= head then Handed(out[1..], head, max)
    else if out[0] >= max then []
    else [out[0]] + Handed(out[1..], head, max)
  }

  lemma {:induction false} HandedSorted(out: seq<BlockNum>, head: BlockNum, max: BlockNum)
    requires Sorted(out)
    ensures Sorted(Handed(out, head, max)) && forall n :: n in out && head < n < max ==> n in Handed(out, head, max)
  {
    if out != [] {
      HandedSorted(out[1..], head, max);
      var rest := Handed(out[1..], head, max);
      forall i | 0 <= i < |rest| ensures out[0] < rest[i] { assert rest[i] in rest; }
      forall n | n in out && head < n < max ensures n in Handed(out, head, max) {
        var i :| 0 <= i < |out| && out[i] == n;
        if i > 0 { assert out[0] < out[i] && n in out[1..]; }
      }
    }
  }

  method VerifyHeaders(out: seq<BlockNum>, head: BlockNum, max: BlockNum) returns (handed: seq<BlockNum>)
    ensures handed == Handed(out, head, max)
  {
    handed := [];
    var i := 0;
    while i < |out|
      invariant i <= |out| && Handed(out, head, max) == handed + Handed(out[i..], head, max)
    {
      assert out[i..][1..] == out[i + 1..];
      if out[i] > head {
        if out[i] >= max { return; }
        handed := handed + [out[i]];
      }
      i := i + 1;
    }
  }

  function Load(log: map<BlockNum, SignedBlock>, out: seq<BlockNum>, proofs: set<BlockNum>): seq<SignedBlock>
    requires forall n :: n in out ==> n in log
  {
    seq(|out|, i requires 0 <= i < |out| => Light(log[out[i]], proofs))
  }

  predicate LogHolds(log: map<BlockNum, SignedBlock>, blocks: seq<SignedBlock>) {
    forall b :: b in blocks ==> b.header.blockNum in log && log[b.header.blockNum] == b
  }

  function Numbers(out: seq<BlockNum>): set<BlockNum> { set n | n in out }

  /** Loading the kept numbers in order gives the kept blocks of the run. */
  lemma {:induction false} LoadIsKeep(log: map<BlockNum, SignedBlock>, blocks: seq<SignedBlock>, out: seq<BlockNum>,
                                      kept: set<BlockNum>, proofs: set<BlockNum>, n: BlockNum, end: BlockNum)
    requires Increasing(blocks, n, end) && LogHolds(log, blocks) && Sorted(out)
    requires forall m :: m in out ==> m > n && m in log && Seen(m, blocks)
    requires forall m :: m > n ==> (m in kept <==> m in out)
    ensures Load(log, out, proofs) == Keep(blocks, kept, proofs)
    decreases |blocks|
  {
    assert out != [] ==> out[0] in out;
    if blocks != [] {
      var b := blocks[0];
      var num := b.header.blockNum;
      AllAfter(blocks[1..], num, end);
      if num in kept {
        FirstIs(blocks, out, num);
        assert forall m :: m in out[1..] ==> m > num && Seen(m, blocks[1..]);
        LoadIsKeep(log, blocks[1..], out[1..], kept, proofs, num, end);
        assert Load(log, out, proofs) == [Light(b, proofs)] + Load(log, out[1..], proofs);
      } else {
        LoadIsKeep(log, blocks[1..], out, kept, proofs, num, end);
        assert [] + Keep(blocks[1..], kept, proofs) == Keep(blocks[1..], kept, proofs);
      }
    }
  }

  lemma {:induction false} AllAfter(blocks: seq<SignedBlock>, n: BlockNum, end: BlockNum)
    requires Increasing(blocks, n, end)
    ensures forall b :: b in blocks ==> n < b.header.blockNum < end
  {
    if blocks != [] { AllAfter(blocks[1..], blocks[0].header.blockNum, end); }
  }

  lemma FirstIs(blocks: seq<SignedBlock>, out: seq<BlockNum>, num: BlockNum)
    requires num in out && Sorted(out) && blocks != [] && blocks[0].header.blockNum == num
    requires forall m :: m in out ==> Seen(m, blocks)
    requires forall b :: b in blocks[1..] ==> num < b.header.blockNum
    ensures out[0] == num && forall m :: m in out[1..] ==> m > num && Seen(m, blocks[1..])
  {
    assert out[0] in out;
    var i :| 0 <= i < |out| && out[i] == num;
    assert Seen(out[0], blocks);
    forall m | m in out[1..] ensures m > num && Seen(m, blocks[1..]) {
      var j :| 0 <= j < |out[1..]| && out[1..][j] == m;
      assert out[j + 1] == m && m in out;
      var b :| b in blocks && b.header.blockNum == m;
      assert b in blocks[1..];
    }
  }

  lemma {:induction false} KeptSeen(blocks: seq<SignedBlock>, kept: set<BlockNum>, proofs: set<BlockNum>, n: BlockNum)
    requires Seen(n, Keep(blocks, kept, proofs))
    ensures n in kept
  {
    if n !in kept && blocks != [] {
      var b :| b in Keep(blocks, kept, proofs) && b.header.blockNum == n;
      assert b in Keep(blocks[1..], kept, proofs);
      KeptSeen(blocks[1..], kept, proofs, n);
    }
  }

  // ----- the main result

  /** The blocks before number `max`. */
  function Before(blocks: seq<SignedBlock>, max: BlockNum): seq<SignedBlock> {
    if blocks == [] || blocks[0].header.blockNum >= max then [] else [blocks[0]] + Before(blocks[1..], max)
  }

  /** What is known of a run from its outcome `o'` before number `max`: the changes that ended before are the
      same, and what the last block ends was under way. */
  ghost predicate EarlyOf(o: Outcome, o': Outcome, max: BlockNum) {
    && (forall r :: r in o'.rows ==> r in o.rows && r.end < max)
    && (forall r :: r in o.rows && r.end < max ==> r in o'.rows)
    && (forall r :: r in o.rows && r.end == max && r.start < max ==> StartedAt(o'.state.joint.next, r.start))
    && (forall m: nat :: StartedAt(o.state.joint.next, m) && m < max ==> StartedAt(o'.state.joint.next, m))
    && (forall m: nat :: StartedAt(o'.state.joint.next, m) ==>
          StartedAt(o.state.joint.next, m) || exists r :: r in o.rows && r.start == m)
  }

  lemma EarlyCons(o: Outcome, o': Outcome, first: seq<Row>, max: BlockNum)
    requires EarlyOf(o, o', max) && forall r :: r in first ==> r.end < max
    ensures EarlyOf(Outcome(o.state, first + o.rows), Outcome(o'.state, first + o'.rows), max)
  {
    assert forall r :: r in o.rows ==> r in first + o.rows;
  }

  lemma {:induction false} RunBefore(env: Env, v: State, blocks: seq<SignedBlock>, n: BlockNum, max: BlockNum)
    requires Inv(v, n) && n < max && Increasing(blocks, n, max + 1) && Run(env, v, blocks).Some?
    ensures Run(env, v, Before(blocks, max)).Some? && Increasing(Before(blocks, max), n, max)
    ensures EarlyOf(Run(env, v, blocks).value, Run(env, v, Before(blocks, max)).value, max)
    decreases |blocks|
  {
    if blocks != [] {
      var b := blocks[0];
      StepInv(env, v, b, n);
      var a := Step(env, v, b).value;
      var rest := Run(env, a.state, blocks[1..]).value;
      if b.header.blockNum >= max {
        assert blocks[1..] == [];
        assert Run(env, a.state, []) == Some(Outcome(a.state, []));
        assert RowsOf(a.row) + [] == RowsOf(a.row);
      } else {
        RunBefore(env, a.state, blocks[1..], b.header.blockNum, max);
        var early := Before(blocks[1..], max);
        RunCons(env, v, b, early);
        EarlyCons(rest, Run(env, a.state, early).value, RowsOf(a.row), max);
      }
    }
  }

  predicate Same(o: Outcome, o': Option<Outcome>) {
    o'.Some? && o'.value.rows == o.rows && o'.value.state.joint == o.state.joint
  }

  lemma OutcomeExact(env: Env, v: State, blocks: seq<SignedBlock>, out: seq<BlockNum>, proofs: set<BlockNum>,
                     end: BlockNum, good: bool)
    requires v.pending == [] && Inv(v, v.head) && Increasing(blocks, v.head, end) && Run(env, v, blocks).Some?
    requires var o := Run(env, v, blocks).value;
             && (good ==> AllKept(o.rows, o.state.joint.next, out, end) && forall r :: r in o.rows ==> r.end in proofs)
             && (!good ==> Lost(o.rows, o.state.joint.next, out, From(v, v.head), end + 1))
    ensures Same(Run(env, v, blocks).value, Run(env, v, Keep(blocks, Numbers(out), proofs))) <==> good
  {
    var kept := Numbers(out);
    if good {
      KeptRun(env, v, v, blocks, kept, proofs, v.head, end);
    } else {
      CannotBeSame(env, v, blocks, out, proofs, end + 1);
    }
  }

  /** The writer's output in terms of the run. */
  lemma WrittenExact(env: Env, v: State, blocks: seq<SignedBlock>, log: set<BlockNum>, end: BlockNum, extra: seq<Row>)
    requires Inv(v, v.head) && (v.joint.next.Some? ==> v.joint.next.value.blockNum > 0)
    requires v.head < end && Increasing(blocks, v.head, end) && Run(env, v, blocks).Some?
    requires Unfinished(extra, Run(env, v, blocks).value.state.joint.next, end)
    requires var o := Run(env, v, blocks).value; Written(log, end, o.rows + extra, o.state.joint.next).Copied?
    ensures var o := Run(env, v, blocks).value;
            var rows, next := o.rows + extra, o.state.joint.next;
            var out, good := Written(log, end, rows, next).out, AllGood(o.rows, next, end);
            && Sorted(out) && (forall n :: n in out ==> n in log && n < end)
            && (good ==> AllKept(o.rows, next, out, end)) && (!good ==> Lost(o.rows, next, out, From(v, v.head), end))
            && (forall r :: r in o.rows ==> r.end in Proofs(rows, next, end))
  {
    var o := Run(env, v, blocks).value;
    var c := Copied(0, []);
    FinishGrown(log, end, c, o.rows + extra, o.state.joint.next);
    RowsFollow(env, v, blocks, v.head, end);
    NextBelow(env, v, blocks, v.head, end);
    KeptExactly(log, end, c, o.rows, extra, o.state.joint.next, From(v, v.head));
    FollowOrdered(From(v, v.head), o.rows, o.state.joint.next);
    ProofsCover(o.rows, extra, end);
  }

  lemma {:induction false} FollowOrdered(lo: BlockNum, rows: seq<Row>, next: Option<Next>)
    requires Follow(lo, rows, next)
    ensures forall r :: r in rows ==> r.start <= r.end
    decreases |rows|
  {
    if rows != [] { FollowOrdered(rows[0].end + 1, rows[1..], next); }
  }

  /** All that a run needs is kept, or something before the head is lost. */
  predicate Decides(o: Outcome, out: seq<BlockNum>, max: BlockNum, lo: BlockNum, good: bool) {
    if good then AllKept(o.rows, o.state.joint.next, out, max) else Lost(o.rows, o.state.joint.next, out, lo, max + 1)
  }

  /** The loader stops one number before the writer does: what it needs is kept exactly as before. */
  lemma KeptBefore(o: Outcome, o': Outcome, out: seq<BlockNum>, max: BlockNum, lo: BlockNum, good: bool)
    requires (good ==> AllKept(o.rows, o.state.joint.next, out, max + 1))
    requires (!good ==> Lost(o.rows, o.state.joint.next, out, lo, max + 1))
    requires EarlyOf(o, o', max) && forall r :: r in o.rows ==> r.start <= r.end <= max
    ensures Decides(o', out, max, lo, good)
  {
    if good {
      if o'.state.joint.next.Some? { assert StartedAt(o'.state.joint.next, o'.state.joint.next.value.blockNum); }
    } else if r :| r in o.rows && r.end !in out && r.end + 1 < max + 1 {
      assert r in o'.rows;
    } else if r :| r in o.rows && r.start !in out && lo < r.start && r.start + 1 < max + 1 {
      if r.end < max { assert r in o'.rows; } else { assert StartedAt(o'.state.joint.next, r.start); }
    } else {
      assert StartedAt(o'.state.joint.next, o.state.joint.next.value.blockNum);
    }
  }

  /** What the writer keeps and the loader hands on, up to the head `max` of a snapshot, has the outcome that all
      blocks before the head have. */
  predicate Restores(env: Env, v: State, blocks: seq<SignedBlock>, log: map<BlockNum, SignedBlock>, max: BlockNum,
                     rows: seq<Row>, next: Option<Next>)
    requires Run(env, v, Before(blocks, max)).Some? && Written(log.Keys, max + 1, rows, next).Copied?
  {
    var out, proofs := Written(log.Keys, max + 1, rows, next).out, Numbers(Proofs(rows, next, max + 1));
    && (forall n :: n in out ==> n in log)
    && Same(Run(env, v, Before(blocks, max)).value, Run(env, v, Load(log, Handed(out, v.head, max), proofs)))
  }

  /** For every increasing sequence of blocks up to the head of a snapshot that the client accepts in full: the
      blocks that the writer keeps, and the loader hands on, give the same changes and the same consensus as
      all blocks before the head, exactly when every change is good. */
  lemma SnapshotSuffices(env: Env, v: State, blocks: seq<SignedBlock>, log: map<BlockNum, SignedBlock>,
                         max: BlockNum, extra: seq<Row>)
    requires v.pending == [] && Inv(v, v.head) && (v.joint.next.Some? ==> v.joint.next.value.blockNum > 0)
    requires v.head < max && Increasing(blocks, v.head, max + 1) && LogHolds(log, blocks)
    requires forall n :: n in log && v.head < n <= max ==> Seen(n, blocks)
    requires Run(env, v, blocks).Some?
    requires Unfinished(extra, Run(env, v, blocks).value.state.joint.next, max + 1)
    requires var o := Run(env, v, blocks).value; Written(log.Keys, max + 1, o.rows + extra, o.state.joint.next).Copied?
    ensures var o := Run(env, v, blocks).value;
            var rows, next := o.rows + extra, o.state.joint.next;
            && Run(env, v, Before(blocks, max)).Some?
            && (Restores(env, v, blocks, log, max, rows, next) <==> AllGood(o.rows, next, max + 1))
  {
    var o := Run(env, v, blocks).value;
    var rows, next := o.rows + extra, o.state.joint.next;
    KeptEarly(env, v, blocks, log.Keys, max, extra);
    var out, proofs := Written(log.Keys, max + 1, rows, next).out, Numbers(Proofs(rows, next, max + 1));
    HandedIsKept(log, blocks, out, proofs, v.head, max);
    OutcomeExact(env, v, Before(blocks, max), out, proofs, max, AllGood(o.rows, next, max + 1));
  }

  lemma EarlyRun(env: Env, v: State, blocks: seq<SignedBlock>, max: BlockNum)
    requires Inv(v, v.head) && v.head < max && Increasing(blocks, v.head, max + 1) && Run(env, v, blocks).Some?
    ensures Run(env, v, Before(blocks, max)).Some? && Increasing(Before(blocks, max), v.head, max)
    ensures var o, o' := Run(env, v, blocks).value, Run(env, v, Before(blocks, max)).value;
            EarlyOf(o, o', max) && forall r :: r in o.rows ==> r.start <= r.end <= max
  {
    RunBefore(env, v, blocks, v.head, max);
    RowsFollow(env, v, blocks, v.head, max + 1);
    var o := Run(env, v, blocks).value;
    FollowOrdered(From(v, v.head), o.rows, o.state.joint.next);
  }

  /** The writer's output in terms of the run before the head. */
  lemma KeptEarly(env: Env, v: State, blocks: seq<SignedBlock>, log: set<BlockNum>, max: BlockNum, extra: seq<Row>)
    requires Inv(v, v.head) && (v.joint.next.Some? ==> v.joint.next.value.blockNum > 0)
    requires v.head < max && Increasing(blocks, v.head, max + 1) && Run(env, v, blocks).Some?
    requires Unfinished(extra, Run(env, v, blocks).value.state.joint.next, max + 1)
    requires var o := Run(env, v, blocks).value; Written(log, max + 1, o.rows + extra, o.state.joint.next).Copied?
    ensures Run(env, v, Before(blocks, max)).Some? && Increasing(Before(blocks, max), v.head, max)
    ensures var o, o' := Run(env, v, blocks).value, Run(env, v, Before(blocks, max)).value;
            var rows, next := o.rows + extra, o.state.joint.next;
            var out, good := Written(log, max + 1, rows, next).out, AllGood(o.rows, next, max + 1);
            && Sorted(out) && (forall n :: n in out ==> n in log) && Decides(o', out, max, From(v, v.head), good)
            && (forall r :: r in o'.rows ==> r.end in Proofs(rows, next, max + 1))
  {
    var o := Run(env, v, blocks).value;
    var rows, next := o.rows + extra, o.state.joint.next;
    WrittenExact(env, v, blocks, log, max + 1, extra);
    EarlyRun(env, v, blocks, max);
    var o' := Run(env, v, Before(blocks, max)).value;
    KeptBefore(o, o', Written(log, max + 1, rows, next).out, max, From(v, v.head), AllGood(o.rows, next, max + 1));
  }

  lemma HandedIsKept(log: map<BlockNum, SignedBlock>, blocks: seq<SignedBlock>, out: seq<BlockNum>,
                     proofs: set<BlockNum>, head: BlockNum, max: BlockNum)
    requires Increasing(blocks, head, max + 1) && Increasing(Before(blocks, max), head, max) && LogHolds(log, blocks)
             && Sorted(out)
    requires (forall n :: n in out ==> n in log) && forall n :: n in log && head < n <= max ==> Seen(n, blocks)
    ensures Load(log, Handed(out, head, max), proofs) == Keep(Before(blocks, max), Numbers(out), proofs)
  {
    var handed := Handed(out, head, max);
    HandedSorted(out, head, max);
    BeforeSeen(blocks, head, max);
    LoadIsKeep(log, Before(blocks, max), handed, Numbers(handed), proofs, head, max);
    KeepSame(Before(blocks, max), Numbers(handed), Numbers(out), proofs, head, max);
  }

  lemma {:induction false} BeforeSeen(blocks: seq<SignedBlock>, n: BlockNum, max: BlockNum)
    requires Increasing(blocks, n, max + 1)
    ensures (forall b :: b in Before(blocks, max) ==> b in blocks)
    ensures forall m: nat :: m < max && Seen(m, blocks) ==> Seen(m, Before(blocks, max))
    decreases |blocks|
  {
    if blocks != [] {
      BeforeSeen(blocks[1..], blocks[0].header.blockNum, max);
      AllAfter(blocks[1..], blocks[0].header.blockNum, max + 1);
      forall m: nat | m < max && Seen(m, blocks) ensures Seen(m, Before(blocks, max)) {
        var b :| b in blocks && b.header.blockNum == m;
        if b == blocks[0] { assert b in Before(blocks, max); } else { assert b in blocks[1..] && Seen(m, blocks[1..]); }
      }
    }
  }

  lemma {:induction false} KeepSame(blocks: seq<SignedBlock>, kept: set<BlockNum>, kept': set<BlockNum>,
                                    proofs: set<BlockNum>, n: BlockNum, max: BlockNum)
    requires Increasing(blocks, n, max) && forall m :: n < m < max ==> (m in kept <==> m in kept')
    ensures Keep(blocks, kept, proofs) == Keep(blocks, kept', proofs)
    decreases |blocks|
  {
    if blocks != [] { KeepSame(blocks[1..], kept, kept', proofs, blocks[0].header.blockNum, max); }
  }

  lemma CannotBeSame(env: Env, v: State, blocks: seq<SignedBlock>, out: seq<BlockNum>, proofs: set<BlockNum>,
                     end: BlockNum)
    requires Run(env, v, blocks).Some?
    requires var o := Run(env, v, blocks).value; Lost(o.rows, o.state.joint.next, out, From(v, v.head), end)
    ensures !Same(Run(env, v, blocks).value, Run(env, v, Keep(blocks, Numbers(out), proofs)))
  {
    var kept := Numbers(out);
    var light := Keep(blocks, kept, proofs);
    if Run(env, v, light).Some? {
      RowsSeen(env, v, light);
      forall n | Seen(n, light) ensures n in out { KeptSeen(blocks, kept, proofs, n); }
      var o', lo := Run(env, v, light).value, From(v, v.head);
      assert forall r :: r in o'.rows ==> r.end in out && (r.start in out || r.start <= lo);
      assert o'.state.joint.next.Some? ==> StartedAt(o'.state.joint.next, o'.state.joint.next.value.blockNum);
    }
  }

  lemma {:induction false} NextBelow(env: Env, v: State, blocks: seq<SignedBlock>, n: BlockNum, end: BlockNum)
    requires Inv(v, n) && n < end && Increasing(blocks, n, end) && Run(env, v, blocks).Some?
    ensures var next := Run(env, v, blocks).value.state.joint.next; next.Some? ==> next.value.blockNum < end
    decreases |blocks|
  {
    if blocks != [] {
      StepInv(env, v, blocks[0], n);
      NextBelow(env, Step(env, v, blocks[0]).value.state, blocks[1..], blocks[0].header.blockNum, end);
    }
  }

  /** The proof of every change that ended is written. */
  lemma {:induction false} ProofsCover(rows: seq<Row>, extra: seq<Row>, end: BlockNum)
    requires forall r :: r in rows ==> r.start <= r.end < end
    ensures forall r :: r in rows ==> r.end in RowsProofs(rows + extra, end)
    decreases |rows|
  {
    if rows != [] {
      assert (rows + extra)[1..] == rows[1..] + extra;
      ProofsCover(rows[1..], extra, end);
    }
  }

  /** Every change is good when no header claims to commit a block after itself. Under BFT this needs no
      such condition, because the committed block has to be known. */
  lemma {:induction false} HonestRows(env: Env, v: State, blocks: seq<SignedBlock>, n: BlockNum, end: BlockNum)
    requires Inv(v, n) && Increasing(blocks, n, end) && Run(env, v, blocks).Some?
    requires forall b :: b in blocks ==> b.header.commitNum <= b.header.blockNum
    ensures forall r :: r in Run(env, v, blocks).value.rows ==> r.commit <= r.end
    decreases |blocks|
  {
    if blocks != [] {
      var b := blocks[0];
      StepInv(env, v, b, n);
      if Step(env, v, b).value.row.Some? { HonestRow(env, v, b, n); }
      HonestRows(env, Step(env, v, b).value.state, blocks[1..], b.header.blockNum, end);
    }
  }

  lemma HonestRow(env: Env, v: State, b: SignedBlock, n: BlockNum)
    requires Inv(v, n) && n < b.header.blockNum && Step(env, v, b).Some? && Step(env, v, b).value.row.Some?
    requires v.joint.current.algorithm.Bft? || b.header.commitNum <= b.header.blockNum
    ensures Step(env, v, b).value.row.value.commit <= b.header.blockNum
  {
    if v.joint.current.algorithm.Bft? {
      AcceptedBft(env, v, b);
      var id :| id in v.pending + [b.header] && id.blockNum == b.aux.value.blockNum;
    }
  }

  lemma {:induction false} HonestGood(rows: seq<Row>, next: Option<Next>, end: BlockNum)
    requires forall r :: r in rows ==> r.commit <= r.end
    ensures AllGood(rows, next, end)
    decreases |rows|
  {
    if rows != [] { HonestGood(rows[1..], next, end); }
  }

  /** A header that claims to commit a later block: its own block is then left out of the snapshot, and what the
      loader hands on is refused. */
  lemma DishonestCommit(env: Env, services: Services, c: Consensus)
    requires c.algorithm.Cft? && c.producers == [] && env.update(services, c, c, []) == Some(services)
    ensures var joint, none := Joint(c, Some(Next(c, 1))), Sha(Joint(c, None));
            var v := State(Joint(c, None), none, [], [], 0, services);
            var b1 := SignedBlock(Header(1, 0, 0, Some(c), None, Sha(joint)), 0, Missing);
            var b2 := SignedBlock(Header(2, 0, 3, None, None, Sha(joint)), 0, Missing);
            var b3 := SignedBlock(Header(3, 0, 0, None, None, none), 0, Missing);
            var b4 := SignedBlock(Header(4, 0, 0, None, None, none), 0, Missing);
            && Run(env, v, [b1, b2, b3, b4]) == Some(Outcome(v, [Row(1, 3, 2)]))
            && Written({1, 2, 3, 4}, 5, [Row(1, 3, 2)], None) == Copied(3, [1, 3]) && Handed([1, 3], 0, 4) == [1, 3]
            && Run(env, v, [b1, b3]).None?
  {
    var joint, none := Joint(c, Some(Next(c, 1))), Sha(Joint(c, None));
    var v := State(Joint(c, None), none, [], [], 0, services);
    var b1 := SignedBlock(Header(1, 0, 0, Some(c), None, Sha(joint)), 0, Missing);
    var b2 := SignedBlock(Header(2, 0, 3, None, None, Sha(joint)), 0, Missing);
    var b3 := SignedBlock(Header(3, 0, 0, None, None, none), 0, Missing);
    var b4 := SignedBlock(Header(4, 0, 0, None, None, none), 0, Missing);
    var v1 := State(joint, Sha(joint), [], [b1.header], 0, services);
    assert Step(env, v, b1) == Some(Accepted(v1, None)) by { assert [] + [b1.header] == [b1.header]; }
    assert Step(env, v1, b2) == Some(Accepted(v, Some(Row(1, 3, 2))));
    RunOne(env, v, b4, v);
    var no: seq<Row>, one := [], [Row(1, 3, 2)];
    RunMore(env, v, b3, v, [b4], Outcome(v, no), [b3, b4], no);
    RunMore(env, v1, b2, v, [b3, b4], Outcome(v, no), [b2, b3, b4], one);
    RunMore(env, v, b1, v1, [b2, b3, b4], Outcome(v, one), [b1, b2, b3, b4], one);
    assert Step(env, v1, b3).None?;
    RunCons(env, v1, b3, []);
    RunCons(env, v, b1, [b3]);
    assert [b1] + [b3] == [b1, b3] && [b3] + [] == [b3];
    DishonestCopy();
  }

  lemma DishonestCopy()
    ensures Written({1, 2, 3, 4}, 5, [Row(1, 3, 2)], None) == Copied(3, [1, 3]) && Handed([1, 3], 0, 4) == [1, 3]
  {
    var c0: Copy := Copied(0, []);
    var c1 := CopyBlock({1, 2, 3, 4}, 5, c0, 1);
    assert c1 == Copied(1, [1]);
    assert CopyBlock({1, 2, 3, 4}, 5, c1, 3) == Copied(3, [1, 3]);
    assert CopyRow({1, 2, 3, 4}, 5, c0, Row(1, 3, 2)) == Copied(3, [1, 3]);
    assert [1, 3][1..] == [3] && [3][1..] == [];
    assert Handed([3], 0, 4) == [3];
  }

  lemma RunOne(env: Env, v: State, b: SignedBlock, v': State)
    requires Step(env, v, b) == Some(Accepted(v', None))
    ensures Run(env, v, [b]) == Some(Outcome(v', []))
  {
    assert Run(env, v', []) == Some(Outcome(v', []));
    RunMore(env, v, b, v', [], Outcome(v', []), [b], []);
  }

  lemma RunMore(env: Env, v: State, b: SignedBlock, v': State, rest: seq<SignedBlock>, o: Outcome,
                blocks: seq<SignedBlock>, rows: seq<Row>)
    requires Step(env, v, b).Some? && Step(env, v, b).value.state == v' && Run(env, v', rest) == Some(o)
    requires blocks == [b] + rest && rows == RowsOf(Step(env, v, b).value.row) + o.rows
    ensures Run(env, v, blocks) == Some(Outcome(o.state, rows))
  {
    RunCons(env, v, b, rest);
  }

  lemma RunCons(env: Env, v: State, b: SignedBlock, rest: seq<SignedBlock>)
    ensures var a, r := Step(env, v, b), Run(env, v, [b] + rest);
            if a.None? then r.None?
            else var t := Run(env, a.value.state, rest);
              if t.None? then r.None? else r == Some(Outcome(t.value.state, RowsOf(a.value.row) + t.value.rows))
  {
    assert ([b] + rest)[1..] == rest;
  }

  /** The writer aborts only if the log has a gap. */
  lemma {:induction false} FromComplete(log: set<BlockNum>, end: BlockNum, c: Copy, num: BlockNum)
    requires c.Copied? && forall n :: 0 < n < end ==> n in log
    ensures CopyFrom(log, end, c, num).Copied?
    decreases end - num
  {
    if num < end { FromComplete(log, end, CopyBlock(log, end, c, num), num + 1); }
  }

  lemma {:induction false} RowsComplete(log: set<BlockNum>, end: BlockNum, c: Copy, rows: seq<Row>)
    requires c.Copied? && forall n :: 0 < n < end ==> n in log
    ensures CopyRows(log, end, c, rows).Copied?
    decreases |rows|
  {
    if rows != [] && rows[0].start < end {
      FromComplete(log, end, c, rows[0].start);
      RowsComplete(log, end, CopyRow(log, end, c, rows[0]), rows[1..]);
    }
  }

  lemma CompleteLog(log: set<BlockNum>, end: BlockNum, rows: seq<Row>, next: Option<Next>)
    requires forall n :: 0 < n < end ==> n in log
    ensures Written(log, end, rows, next).Copied?
  {
    RowsComplete(log, end, Copied(0, []), rows);
    if next.Some? { FromComplete(log, end, CopyRows(log, end, Copied(0, []), rows), next.value.blockNum); }
  }

  /** The main result for honest headers: nothing is lost. */
  lemma SnapshotOfHonestChain(env: Env, v: State, blocks: seq<SignedBlock>, log: map<BlockNum, SignedBlock>,
                              max: BlockNum, extra: seq<Row>)
    requires v.pending == [] && Inv(v, v.head) && (v.joint.next.Some? ==> v.joint.next.value.blockNum > 0)
    requires v.head < max && Increasing(blocks, v.head, max + 1) && LogHolds(log, blocks)
    requires forall n :: n in log && v.head < n <= max ==> Seen(n, blocks)
    requires forall b :: b in blocks ==> b.header.commitNum <= b.header.blockNum
    requires Run(env, v, blocks).Some?
    requires Unfinished(extra, Run(env, v, blocks).value.state.joint.next, max + 1)
    requires var o := Run(env, v, blocks).value; Written(log.Keys, max + 1, o.rows + extra, o.state.joint.next).Copied?
    ensures var o := Run(env, v, blocks).value;
            var rows, next := o.rows + extra, o.state.joint.next;
            Run(env, v, Before(blocks, max)).Some? && Restores(env, v, blocks, log, max, rows, next)
  {
    SnapshotSuffices(env, v, blocks, log, max, extra);
    HonestRun(env, v, blocks, max);
  }

  lemma HonestRun(env: Env, v: State, blocks: seq<SignedBlock>, max: BlockNum)
    requires Inv(v, v.head) && Increasing(blocks, v.head, max + 1) && Run(env, v, blocks).Some?
    requires forall b :: b in blocks ==> b.header.commitNum <= b.header.blockNum
    ensures var o := Run(env, v, blocks).value; AllGood(o.rows, o.state.joint.next, max + 1)
  {
    HonestRows(env, v, blocks, v.head, max + 1);
    var o := Run(env, v, blocks).value;
    HonestGood(o.rows, o.state.joint.next, max + 1);
  }
}
