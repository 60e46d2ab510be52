/** Objects with a gap: an option comes before a pointer that is not optional. When the fixed data ends before the
    option, the pointer is read behind it, from bytes that belong to something else or to nothing. */
module FracMisread {
  import opened Leb128
  import opened SchemaMatch
  import opened SchemaLayout
  import opened FracWire
  import opened FracMachine
  import opened FracComplete
  import FracCanonical
  import FracGap
  import FracFault
  import FracWide
  import FracSchema
  import SchemaCompile

  /** A byte and a list of bytes. */
  predicate ByteList(g: Types, l: nat, e: nat) {
    && l in g && e in g && g[e].kind.Scalar? && !g[e].variable && g[e].size == 1
    && g[l].kind.Container? && g[l].variable && g[l].slots == [Slot(0, false, e)]
  }

  /** An object with a list, an optional byte and a list. */
  predicate Gapped(g: Types, t: nat, l: nat, e: nat) {
    && ByteList(g, l, e) && t in g && g[t].kind.Object? && g[t].size == 12
    && g[t].slots == [Slot(0, false, l), Slot(4, true, e), Slot(8, false, l)]
  }

  const START := Token(StartItem(false), [], 0)
  const ABSENT := Token(EmptyItem, [], 0)

  function Bytes(xs: Buffer): seq<Token> {
    if xs == [] then [] else [Token(ScalarItem, [xs[0]], 0)] + Bytes(xs[1..])
  }

  function ListItems(xs: Buffer): seq<Token> { [START] + (Bytes(xs) + [END]) }

  /** The items of an object without the option. */
  function Items(xs: Buffer, ys: Buffer): seq<Token> {
    [START] + (ListItems(xs) + ([ABSENT] + (ListItems(ys) + [END])))
  }

  // ----- runs, as the states that the parser goes through

  predicate StepAt(g: Types, b: Buffer, ps: seq<Parser>, ts: seq<Token>, i: nat)
    requires Wire(g) && |ps| == |ts| + 1 && i < |ts|
  {
    ps[i].stack != [] && Next(g, b, ps[i]) == Some((ps[i + 1], ts[i]))
  }

  predicate Course(g: Types, b: Buffer, ps: seq<Parser>, ts: seq<Token>)
    requires Wire(g)
  {
    && |ps| == |ts| + 1 && ps[|ts|].stack == [] && ps[|ts|].pos == |b|
    && forall i: nat :: i < |ts| ==> StepAt(g, b, ps, ts, i)
  }

  ghost predicate Gives(g: Types, b: Buffer, p: Parser, ts: seq<Token>)
    requires Wire(g)
  {
    exists ps: seq<Parser> :: Course(g, b, ps, ts) && ps[0] == p
  }

  lemma {:induction false} CourseRuns(g: Types, b: Buffer, ps: seq<Parser>, ts: seq<Token>)
    requires Wire(g) && Course(g, b, ps, ts)
    ensures Runs(g, b, ps[0], ts)
    decreases |ts|
  {
    if ts != [] {
      assert StepAt(g, b, ps, ts, 0);
      forall i: nat | i < |ts[1..]| ensures StepAt(g, b, ps[1..], ts[1..], i) { assert StepAt(g, b, ps, ts, i + 1); }
      CourseRuns(g, b, ps[1..], ts[1..]);
    }
  }

  lemma Prefixed(g: Types, b: Buffer, p: Parser, p': Parser, t: Token, ts: seq<Token>)
    requires Wire(g) && p.stack != [] && Next(g, b, p) == Some((p', t)) && Gives(g, b, p', ts)
    ensures Gives(g, b, p, [t] + ts)
  {
    var qs: seq<Parser> :| Course(g, b, qs, ts) && qs[0] == p';
    var ps := [p] + qs;
    forall i: nat | i < |ts| + 1 ensures StepAt(g, b, ps, [t] + ts, i) {
      if i > 0 { assert StepAt(g, b, qs, ts, i - 1); }
    }
    assert Course(g, b, ps, [t] + ts);
  }

  // ----- lists

  lemma ElementNext(g: Types, b: Buffer, below: seq<Frame>, l: nat, e: nat, at: nat, stop: nat, pos: nat, end: nat)
    requires Wire(g) && ByteList(g, l, e) && at < stop <= |b| && end <= |b|
    ensures Next(g, b, Parser(pos, end, below + [ArrayF(l, at, stop)]))
            == Some((Parser(pos, end, below + [ArrayF(l, at + 1, stop)]), Token(ScalarItem, [b[at]], 0)))
  {
    var p, f' := Parser(pos, end, below + [ArrayF(l, at, stop)]), ArrayF(l, at + 1, stop);
    assert p.stack[|p.stack| - 1] == ArrayF(l, at, stop) && p.stack[..|p.stack| - 1] == below;
    assert b[at..at + 1] == [b[at]] && below + [f'] + [] == below + [f'];
  }

  lemma EndNext(g: Types, b: Buffer, below: seq<Frame>, l: nat, at: nat, pos: nat, end: nat)
    requires Wire(g) && l in g && end <= |b|
    ensures Next(g, b, Parser(pos, end, below + [ArrayF(l, at, at)])) == Some((Parser(pos, end, below), END))
  {
    var p := Parser(pos, end, below + [ArrayF(l, at, at)]);
    assert p.stack[|p.stack| - 1] == ArrayF(l, at, at) && p.stack[..|p.stack| - 1] == below;
  }

  lemma PrefixedByte(g: Types, b: Buffer, p: Parser, p': Parser, xs: Buffer, ts: seq<Token>)
    requires Wire(g) && p.stack != [] && xs != [] && Next(g, b, p) == Some((p', Token(ScalarItem, [xs[0]], 0)))
    requires Gives(g, b, p', Bytes(xs[1..]) + ts)
    ensures Gives(g, b, p, Bytes(xs) + ts)
  {
    Prefixed(g, b, p, p', Token(ScalarItem, [xs[0]], 0), Bytes(xs[1..]) + ts);
    assert [Token(ScalarItem, [xs[0]], 0)] + (Bytes(xs[1..]) + ts) == Bytes(xs) + ts;
  }

  lemma {:induction false} ListRuns(g: Types, b: Buffer, below: seq<Frame>, l: nat, e: nat, at: nat, stop: nat,
                                    pos: nat, end: nat, ts: seq<Token>)
    requires Wire(g) && ByteList(g, l, e) && at <= stop <= |b| && end <= |b|
    requires Gives(g, b, Parser(pos, end, below + [ArrayF(l, stop, stop)]), ts)
    ensures Gives(g, b, Parser(pos, end, below + [ArrayF(l, at, stop)]), Bytes(b[at..stop]) + ts)
    decreases stop - at
  {
    if at == stop {
      assert Bytes(b[at..stop]) + ts == ts;
    } else {
      ElementNext(g, b, below, l, e, at, stop, pos, end);
      ListRuns(g, b, below, l, e, at + 1, stop, pos, end, ts);
      var p, p' := Parser(pos, end, below + [ArrayF(l, at, stop)]), Parser(pos, end, below + [ArrayF(l, at + 1, stop)]);
      assert b[at..stop][0] == b[at] && b[at..stop][1..] == b[at + 1..stop];
      PrefixedByte(g, b, p, p', b[at..stop], ts);
    }
  }

  // ----- members

  function At(t: nat, i: nat, last: bool, pos: nat, end: nat): Parser { Parser(pos, end, [ObjectF(t, 0, i, last)]) }

  lemma ObjectStep(g: Types, b: Buffer, t: nat, i: nat, last: bool, pos: nat, got: Got)
    requires Wire(g) && t in g && got == ReadObject(g, b, ObjectF(t, 0, i, last), pos, |b|)
    requires got.Got? && got.out.Out?
    ensures Next(g, b, At(t, i, last, pos, |b|))
            == Some((Parser(got.out.pos, got.end, [got.frame] + got.out.pushed),
                     Token(got.out.kind, got.out.data, got.index)))
  {
    assert [] + [got.frame] + got.out.pushed == [got.frame] + got.out.pushed;
  }

  /** Member `i` is a list at `pos`, which the pointer leads to, wherever the pointer is read. */
  predicate Found(g: Types, b: Buffer, t: nat, i: nat, l: nat, pos: nat, n: nat, len: nat) {
    && t in g && g[t].kind.Object? && i < |g[t].slots| && !g[t].slots[i].optional && g[t].slots[i].target == l
    && |b| >= 2 && U16(b, 0) == n && 2 + n <= pos
    && pos + 4 + len <= |b| < 0x1_0000_0000 && len > 0 && U32(b, pos) == len
    && var at := 2 + g[t].slots[i].offset; Readable(at, 2 + n) && at + 4 <= |b| && at + U32(b, at) == pos && at < pos
  }

  function ListAt(t: nat, i: nat, l: nat, pos: nat, len: nat, end: nat): Parser {
    Parser(pos + 4 + len, end, [ObjectF(t, 0, i + 1, true)] + [ArrayF(l, pos + 4, pos + 4 + len)])
  }

  lemma ListPushed(g: Types, b: Buffer, l: nat, e: nat, pos: nat, len: nat)
    requires Wire(g) && ByteList(g, l, e) && pos + 4 + len <= |b| && len > 0 && U32(b, pos) == len
    ensures Push(g, b, l, pos, |b|, true)
            == Out([ArrayF(l, pos + 4, pos + 4 + len)], pos + 4 + len, StartItem(false), [])
  {
    assert Inline(g, g[l].slots[0]) == 1;
  }

  lemma ListDeref(g: Types, b: Buffer, t: nat, i: nat, l: nat, e: nat, pos: nat, n: nat, len: nat)
    requires Wire(g) && ByteList(g, l, e) && Found(g, b, t, i, l, pos, n, len)
    ensures Deref(g, b, pos, |b|, 2 + g[t].slots[i].offset, 2 + n, l, false)
            == Out([ArrayF(l, pos + 4, pos + 4 + len)], pos + 4 + len, StartItem(false), [])
  {
    ListPushed(g, b, l, e, pos, len);
  }

  lemma ListNext(g: Types, b: Buffer, t: nat, i: nat, l: nat, e: nat, last: bool, pos: nat, n: nat, len: nat)
    requires Wire(g) && ByteList(g, l, e) && Found(g, b, t, i, l, pos, n, len)
    ensures Next(g, b, At(t, i, last, pos, |b|)) == Some((ListAt(t, i, l, pos, len, |b|), START))
  {
    ListDeref(g, b, t, i, l, e, pos, n, len);
    var out := Out([ArrayF(l, pos + 4, pos + 4 + len)], pos + 4 + len, StartItem(false), []);
    ObjectStep(g, b, t, i, last, pos, Got(ObjectF(t, 0, i + 1, true), out, |b|, 0));
  }

  lemma ListMember(g: Types, b: Buffer, t: nat, i: nat, l: nat, e: nat, last: bool, pos: nat, n: nat, len: nat,
                   ts: seq<Token>)
    requires Wire(g) && ByteList(g, l, e) && Found(g, b, t, i, l, pos, n, len)
    requires Gives(g, b, At(t, i + 1, true, pos + 4 + len, |b|), ts)
    ensures Gives(g, b, At(t, i, last, pos, |b|), ListItems(b[pos + 4..pos + 4 + len]) + ts)
  {
    ListNext(g, b, t, i, l, e, last, pos, n, len);
    ListMemberRuns(g, b, At(t, i, last, pos, |b|), t, i, l, e, pos, len, ts);
  }

  lemma ListMemberRuns(g: Types, b: Buffer, p: Parser, t: nat, i: nat, l: nat, e: nat, pos: nat, len: nat,
                       ts: seq<Token>)
    requires Wire(g) && ByteList(g, l, e) && pos + 4 + len <= |b| && p.stack != []
    requires Next(g, b, p) == Some((ListAt(t, i, l, pos, len, |b|), START))
    requires Gives(g, b, Parser(pos + 4 + len, |b|, [ObjectF(t, 0, i + 1, true)]), ts)
    ensures Gives(g, b, p, ListItems(b[pos + 4..pos + 4 + len]) + ts)
  {
    var xs, stop, f := b[pos + 4..pos + 4 + len], pos + 4 + len, ObjectF(t, 0, i + 1, true);
    EndNext(g, b, [f], l, stop, stop, |b|);
    Prefixed(g, b, Parser(stop, |b|, [f] + [ArrayF(l, stop, stop)]), Parser(stop, |b|, [f]), END, ts);
    ListRuns(g, b, [f], l, e, pos + 4, stop, stop, |b|, [END] + ts);
    Prefixed(g, b, p, ListAt(t, i, l, pos, len, |b|), START, Bytes(xs) + ([END] + ts));
    assert [START] + (Bytes(xs) + ([END] + ts)) == ListItems(xs) + ts;
  }

  /** An option that is beyond the fixed data, or that is marked as absent. */
  lemma AbsentMember(g: Types, b: Buffer, t: nat, last: bool, last': bool, pos: nat, n: nat, ts: seq<Token>)
    requires Wire(g) && t in g && g[t].kind.Object? && |g[t].slots| > 1 && g[t].slots[1].offset == 4
             && g[t].slots[1].optional
    requires 2 <= |b| && U16(b, 0) == n && 2 + n <= |b|
    requires if n <= 4 then last' == last else n >= 8 && U32(b, 6) == 1 && !last'
    requires Gives(g, b, At(t, 2, last', pos, |b|), ts)
    ensures Gives(g, b, At(t, 1, last, pos, |b|), [ABSENT] + ts)
  {
    var f := ObjectF(t, 0, 1, last);
    ObjectStep(g, b, t, 1, last, pos, ReadObject(g, b, f, pos, |b|));
    assert [ObjectF(t, 0, 2, last')] + [] == [ObjectF(t, 0, 2, last')];
    Prefixed(g, b, At(t, 1, last, pos, |b|), At(t, 2, last', pos, |b|), ABSENT, ts);
  }

  lemma NoMore(g: Types, b: Buffer, t: nat, n: nat)
    requires Wire(g) && t in g && g[t].kind.Object? && |g[t].slots| == 3 && g[t].size == 12
    requires 2 <= |b| && U16(b, 0) == n && 2 + n <= |b| && n <= 12
    ensures Gives(g, b, At(t, 3, true, |b|, |b|), [END])
  {
    var p := At(t, 3, true, |b|, |b|);
    assert p.stack[..0] == [];
    assert Course(g, b, [Parser(|b|, |b|, [])], []);
    Prefixed(g, b, p, Parser(|b|, |b|, []), END, []);
    assert [END] + [] == [END];
  }

  lemma FromStart(g: Types, b: Buffer, t: nat, n: nat, ts: seq<Token>)
    requires Wire(g) && t in g && g[t].kind.Object? && 2 <= |b| && U16(b, 0) == n && 2 + n <= |b|
    requires Gives(g, b, At(t, 0, true, 2 + n, |b|), ts)
    ensures Valid(g, b, t, [START] + ts)
  {
    var p := Parser(2 + n, |b|, [ObjectF(t, 0, 0, true)] + [ItemF(START)]);
    assert p.stack[..1] == [ObjectF(t, 0, 0, true)];
    Prefixed(g, b, p, At(t, 0, true, 2 + n, |b|), START, ts);
    var ps: seq<Parser> :| Course(g, b, ps, [START] + ts) && ps[0] == p;
    CourseRuns(g, b, ps, [START] + ts);
  }

  /** An object whose two lists are found one after the other, and whose option is not there. */
  lemma BothFound(g: Types, b: Buffer, t: nat, l: nat, e: nat, n: nat, xs: Buffer, ys: Buffer, last: bool)
    requires Wire(g) && Gapped(g, t, l, e) && n <= 12 && |b| == 2 + n + 4 + |xs| + 4 + |ys|
    requires Found(g, b, t, 0, l, 2 + n, n, |xs|) && Found(g, b, t, 2, l, 2 + n + 4 + |xs|, n, |ys|)
    requires if n <= 4 then last else n >= 8 && U32(b, 6) == 1 && !last
    requires xs == b[2 + n + 4..2 + n + 4 + |xs|] && ys == b[2 + n + 4 + |xs| + 4..|b|]
    ensures Valid(g, b, t, Items(xs, ys))
  {
    var more := [ABSENT] + (ListItems(ys) + [END]);
    LastFound(g, b, t, l, e, n, 2 + n + 4 + |xs|, ys, last);
    FirstFound(g, b, t, l, e, n, xs, more, Items(xs, ys));
  }

  lemma FirstFound(g: Types, b: Buffer, t: nat, l: nat, e: nat, n: nat, xs: Buffer, ts: seq<Token>, all: seq<Token>)
    requires Wire(g) && Gapped(g, t, l, e) && Found(g, b, t, 0, l, 2 + n, n, |xs|)
    requires Gives(g, b, At(t, 1, true, 2 + n + 4 + |xs|, |b|), ts)
    requires xs == b[2 + n + 4..2 + n + 4 + |xs|] && all == [START] + (ListItems(xs) + ts)
    ensures Valid(g, b, t, all)
  {
    ListMember(g, b, t, 0, l, e, true, 2 + n, n, |xs|, ts);
    FromStart(g, b, t, n, ListItems(xs) + ts);
  }

  lemma LastFound(g: Types, b: Buffer, t: nat, l: nat, e: nat, n: nat, pos: nat, ys: Buffer, last: bool)
    requires Wire(g) && Gapped(g, t, l, e) && n <= 12 && |b| == pos + 4 + |ys| && ys == b[pos + 4..|b|]
    requires Found(g, b, t, 2, l, pos, n, |ys|)
    requires if n <= 4 then last else n >= 8 && U32(b, 6) == 1 && !last
    ensures Gives(g, b, At(t, 1, true, pos, |b|), [ABSENT] + (ListItems(ys) + [END]))
  {
    NoMore(g, b, t, n);
    ListMember(g, b, t, 2, l, e, last, pos, n, |ys|, [END]);
    AbsentMember(g, b, t, true, last, pos, n, ListItems(ys) + [END]);
  }

  // ----- two buffers with the same items

  /** The fixed data is that of the first member. The pointer of the third is read from the content of the first. */
  const SHORT: Buffer := [4, 0, 4, 0, 0, 0, 4, 0, 0, 0, 4, 0, 0, 0, 1, 0, 0, 0, 122]

  /** The encoding of the same value. */
  const FULL: Buffer := [12, 0, 12, 0, 0, 0, 1, 0, 0, 0, 12, 0, 0, 0, 4, 0, 0, 0, 4, 0, 0, 0, 1, 0, 0, 0, 122]

  lemma ShortBytes()
    ensures |SHORT| == 19 && U16(SHORT, 0) == 4 && U32(SHORT, 2) == 4 && U32(SHORT, 6) == 4 && U32(SHORT, 10) == 4
    ensures U32(SHORT, 14) == 1 && SHORT[10..14] == [4, 0, 0, 0] && SHORT[18..19] == [122]
  {
    Sliced4(SHORT, 10, 4, 0, 0, 0);
    Sliced1(SHORT, 18, 122);
  }

  lemma FullBytes()
    ensures |FULL| == 27 && U16(FULL, 0) == 12 && U32(FULL, 2) == 12 && U32(FULL, 6) == 1 && U32(FULL, 10) == 12
    ensures U32(FULL, 14) == 4 && U32(FULL, 22) == 1 && FULL[18..22] == [4, 0, 0, 0] && FULL[26..27] == [122]
  {
    Sliced4(FULL, 18, 4, 0, 0, 0);
    Sliced1(FULL, 26, 122);
  }

  lemma Sliced1(b: Buffer, i: nat, x: byte)
    requires i < |b| && b[i] == x
    ensures b[i..i + 1] == [x]
  {}

  lemma Sliced4(b: Buffer, i: nat, w: byte, x: byte, y: byte, z: byte)
    requires i + 4 <= |b| && b[i] == w && b[i + 1] == x && b[i + 2] == y && b[i + 3] == z
    ensures b[i..i + 4] == [w, x, y, z]
  {}

  lemma ShortValid(g: Types, t: nat, l: nat, e: nat)
    requires Wire(g) && Gapped(g, t, l, e)
    ensures Valid(g, SHORT, t, Items([4, 0, 0, 0], [122]))
  {
    ShortBytes();
    assert Found(g, SHORT, t, 0, l, 6, 4, 4) && Found(g, SHORT, t, 2, l, 14, 4, 1);
    BothFound(g, SHORT, t, l, e, 4, [4, 0, 0, 0], [122], true);
  }

  lemma FullValid(g: Types, t: nat, l: nat, e: nat)
    requires Wire(g) && Gapped(g, t, l, e)
    ensures Valid(g, FULL, t, Items([4, 0, 0, 0], [122]))
  {
    FullBytes();
    assert Found(g, FULL, t, 0, l, 14, 12, 4) && Found(g, FULL, t, 2, l, 22, 12, 1);
    BothFound(g, FULL, t, l, e, 12, [4, 0, 0, 0], [122], false);
  }

  /** In every encoding the fixed data has the pointer of the third member. */
  lemma AllPresent(c: Compiled, kids: seq<Val>)
    requires |c.slots| == 3 && |kids| == 3 && !c.slots[2].optional
    ensures FixedBytes(c, kids) == c.size
  {
    assert kids[1..][1..] == [kids[2]] && Present(c, [kids[2]], 2) == 3;
    assert Present(c, kids[1..], 1) == 3;
  }

  /** The shorter buffer is valid with the items of the longer one, and is no encoding. */
  lemma TwoBuffers(g: Types, t: nat, l: nat, e: nat)
    requires Wire(g) && Gapped(g, t, l, e)
    ensures Valid(g, SHORT, t, Items([4, 0, 0, 0], [122])) && Valid(g, FULL, t, Items([4, 0, 0, 0], [122]))
    ensures SHORT != FULL && !FracGap.Injective(g)
    ensures NestedSized(g) ==> forall ts :: !Encodes(Cut, g, SHORT, t, ts)
  {
    ShortValid(g, t, l, e);
    FullValid(g, t, l, e);
    ShortBytes();
    FullBytes();
    forall v ensures !Holds(Cut, g, SHORT, t, v, 0) { NotHeld(g, t, l, e, v); }
  }

  lemma NotHeld(g: Types, t: nat, l: nat, e: nat, v: Val)
    requires Wire(g) && Gapped(g, t, l, e)
    ensures !Holds(Cut, g, SHORT, t, v, 0)
  {
    ShortBytes();
    assert Holds(Cut, g, SHORT, t, v, 0) == HoldsGroup(Cut, g, SHORT, t, v, 0);
    if v.Alt? {
      FracWide.VariantIs(Cut, g, SHORT, t, v, 0);
    } else if v.Node? {
      ObjectHolds(g, SHORT, t, v);
      if |v.kids| == 3 { AllPresent(g[t], v.kids); }
    }
  }

  // ----- reading outside

  /** An object with an optional byte and a list. */
  predicate Open(g: Types, t: nat, l: nat, e: nat) {
    && ByteList(g, l, e) && t in g && g[t].kind.Object? && g[t].size == 8
    && g[t].slots == [Slot(0, true, e), Slot(4, false, l)]
  }

  /** Fixed data of no bytes: the pointer of the list is read behind the end of the buffer. */
  lemma ReadsOutside(g: Types, t: nat, l: nat, e: nat)
    requires Wire(g) && Open(g, t, l, e)
    ensures Stops(g, [0, 0], t, [START, ABSENT], Outside)
  {
    var b: Buffer := [0, 0];
    assert U16(b, 0) == 0;
    var p0, p1, p2 := Parser(2, 2, [ObjectF(t, 0, 0, true)] + [ItemF(START)]), At(t, 0, true, 2, 2),
                      At(t, 1, true, 2, 2);
    assert p0.stack[..1] == p1.stack;
    assert Next(g, b, p0) == Some((p1, START));
    ObjectStep(g, b, t, 0, true, 2, ReadObject(g, b, ObjectF(t, 0, 0, true), 2, 2));
    assert [ObjectF(t, 0, 1, true)] + [] == p2.stack;
    assert Next(g, b, p1) == Some((p2, ABSENT));
    OpenStops(g, t, l, e);
    assert Halts(g, b, p1, [ABSENT], Outside) by { assert [ABSENT][1..] == []; }
    assert [START, ABSENT][1..] == [ABSENT];
  }

  lemma OpenStops(g: Types, t: nat, l: nat, e: nat)
    requires Wire(g) && Open(g, t, l, e)
    ensures Halts(g, [0, 0], At(t, 1, true, 2, 2), [], Outside)
  {
    var b: Buffer := [0, 0];
    assert U16(b, 0) == 0;
    assert Readable(6, 2) && Low(6, 2) == 6;
    assert ReadObject(g, b, ObjectF(t, 0, 1, true), 2, 2) == Fail(Outside);
  }

  // ----- a schema for all of this

  /** A byte, a list of it, an option of it, the two objects, an array of no bytes, and a list of such arrays. */
  function GapSchema(): Schema {
    [IntTy(8), ListTy(0), OptionTy(0), ObjectTy([1, 2, 1]), ObjectTy([2, 1]), ArrayTy(0, 0), ListTy(5)]
  }

  lemma NoGapCycle(g: Schema)
    requires g == GapSchema()
    ensures !SchemaCompile.HasCycle(g, [3, 4, 6])
  {
    forall chain: seq<nat> | |chain| >= 2 && SchemaCompile.StrictChain(g, chain)
      ensures chain[|chain| - 1] != chain[0]
    {
      assert SchemaCompile.StrictChild(g, chain[0], chain[1]);
      assert SchemaCompile.StrictChild(g, chain[|chain| - 2], chain[|chain| - 2 + 1]);
    }
  }

  /** The types that the others are made of. */
  lemma SmallTypes(g: Schema, types: Types)
    requires g == GapSchema()
    ensures Correct(types, 0, g[0]) ==> types[0].kind.Scalar? && types[0].size == 1 && !types[0].variable
    ensures Correct(types, 1, g[1]) ==>
              types[1].kind.Container? && types[1].variable && types[1].slots == [Slot(0, false, 0)]
    ensures Correct(types, 2, g[2]) ==>
              types[2].kind.Optional? && types[2].variable && types[2].slots == [Slot(0, false, 0)]
    ensures Correct(types, 6, g[6]) ==>
              types[6].kind.Container? && types[6].variable && types[6].slots == [Slot(0, false, 5)]
  {}

  /** A list and an option in the objects. */
  predicate Small(types: Types) {
    && Usable(types, 1) && types[1].kind.Container? && types[1].variable
    && Usable(types, 2) && types[2].kind.Optional? && types[2].slots == [Slot(0, false, 0)]
  }

  lemma GapLayouts(types: Types)
    requires Small(types)
    ensures AllUsable(types, [1, 2, 1]) && AllUsable(types, [2, 1])
    ensures AddMembers(types, [1, 2, 1], Layout(0, true, []))
            == Layout(12, true, [Slot(0, false, 1), Slot(4, true, 0), Slot(8, false, 1)])
    ensures AddMembers(types, [2, 1], Layout(0, true, [])) == Layout(8, true, [Slot(0, true, 0), Slot(4, false, 1)])
  {
    var a, o, z := [1, 2, 1], [2, 1], Layout(0, true, []);
    assert a[..2] == [1, 2] && [1, 2][..1] == [1] && o[..1] == [2];
    assert AddMembers(types, [1], z) == Layout(4, true, [Slot(0, false, 1)]) by { assert [1][..0] == []; }
    assert AddMembers(types, [1, 2], z) == Layout(8, true, [Slot(0, false, 1), Slot(4, true, 0)]);
    assert AddMembers(types, [2], z) == Layout(4, true, [Slot(0, true, 0)]) by { assert [2][..0] == []; }
  }

  lemma GapArray(types: Types)
    requires Usable(types, 0) && types[0].kind.Scalar? && types[0].size == 1 && !types[0].variable
    ensures AllUsable(types, [0])
            && AddMembers(types, [0], Layout(0, false, [])) == Layout(1, false, [Slot(0, false, 0)])
  {
    assert [0][..0] == [];
  }

  lemma GapFinished(g: Schema, types: Types, t: nat)
    requires g == GapSchema() && t < 7 && AllUsable(types, Strict(g[t]))
    requires Usable(types, 1) && Usable(types, 2) ==> Small(types)
    requires Usable(types, 0) ==> types[0].kind.Scalar? && types[0].size == 1 && !types[0].variable
    ensures Finished(types, g[t]).Layout?
  {
    if t == 3 || t == 4 {
      assert Usable(types, Strict(g[t])[0]) && Usable(types, Strict(g[t])[1]);
      GapLayouts(types);
    } else if t == 5 {
      assert Usable(types, Strict(g[t])[0]);
      GapArray(types);
    }
  }

  lemma SmallOnes(g: Schema, types: Types)
    requires g == GapSchema() && SchemaCompile.AllCorrect(g, types)
    ensures Usable(types, 1) && Usable(types, 2) ==> Small(types)
    ensures Usable(types, 0) ==> types[0].kind.Scalar? && types[0].size == 1 && !types[0].variable
  {
    SmallTypes(g, types);
    assert Usable(types, 0) ==> Correct(types, 0, g[0]);
    assert Usable(types, 1) ==> Correct(types, 1, g[1]);
    assert Usable(types, 2) ==> Correct(types, 2, g[2]);
  }

  /** What the compiler makes of it. */
  ghost predicate GapTypes(g: Schema, types: Types) {
    && g == GapSchema() && (forall t :: t in types ==> t < 7)
    && Correct(types, 0, g[0]) && Correct(types, 1, g[1]) && Correct(types, 2, g[2]) && Correct(types, 3, g[3])
    && Correct(types, 4, g[4]) && Correct(types, 5, g[5]) && Correct(types, 6, g[6])
  }

  lemma GapFits(g: Schema, types: Types)
    requires GapTypes(g, types)
    ensures FracSchema.Fits(g, types)
  {
    SmallTypes(g, types);
    GapLayouts(types);
    GapTotal(types);
    forall t | t in types ensures FracSchema.EntryFits(g, types, t) {}
  }

  lemma GapTotal(types: Types)
    requires Small(types) && AllUsable(types, [1, 2, 1]) && AllUsable(types, [2, 1])
    ensures Total(types, [1, 2, 1]) == 12 && Total(types, [2, 1]) == 8
  {
    assert [1, 2, 1][..2] == [1, 2] && [1, 2][..1] == [1] && [2, 1][..1] == [2] && [1][..0] == [] && [2][..0] == [];
    assert Total(types, [1]) == Total(types, []) + 4;
    assert Total(types, [2]) == Total(types, []) + 4;
    assert Total(types, [1, 2]) == 8;
  }

  lemma GapObjects(g: Schema, types: Types, r: Types)
    requires GapTypes(g, types) && r == FracSchema.Resolved(types)
    ensures Gapped(r, 3, 1, 0) && Open(r, 4, 1, 0) && 6 in r && r[6].kind.Container?
    ensures r[6].slots == [Slot(0, false, 5)] && 5 in r && !r[5].variable && r[5].size == 0
  {
    SmallTypes(g, types);
    GapLayouts(types);
    GapArray(types);
  }

  /** The schema is compiled without an error. Two valid buffers have the same items; a buffer of two bytes makes the
      parser read outside of it, and one of four makes it divide by zero. */
  lemma GapAccepted(g: Schema, err: Option<SchemaCompile.Error>, types: Types, rank: map<nat, nat>)
    requires g == GapSchema() && SchemaCompile.Outcome(g, [3, 4, 6], err, types)
    requires err.None? ==> SchemaCompile.Completed(g, types, rank)
    ensures err.None?
    ensures var r := FracSchema.Resolved(types);
            && Wire(r) && 3 in r && 4 in r && 6 in r && !FracGap.Injective(r)
            && Valid(r, SHORT, 3, Items([4, 0, 0, 0], [122])) && Valid(r, FULL, 3, Items([4, 0, 0, 0], [122]))
            && Stops(r, [0, 0], 4, [START, ABSENT], Outside) && Stops(r, [0, 0, 0, 0], 6, [], Division)
  {
    GapCompiles(g, err, types);
    SchemaCompile.ReachRoot(g, [3, 4, 6], 3);
    SchemaCompile.ReachRoot(g, [3, 4, 6], 4);
    SchemaCompile.ReachRoot(g, [3, 4, 6], 6);
    assert Correct(types, 3, g[3]) && Correct(types, 4, g[4]) && Correct(types, 6, g[6]);
    GapReached(g, types, rank);
    GapWire(g, types, rank);
    GapResults(g, types, FracSchema.Resolved(types));
  }

  lemma GapCompiles(g: Schema, err: Option<SchemaCompile.Error>, types: Types)
    requires g == GapSchema() && SchemaCompile.Outcome(g, [3, 4, 6], err, types)
    ensures err.None?
  {
    NoGapCycle(g);
    if SchemaCompile.Oversized(g, [3, 4, 6], types) {
      var t: nat :| t < |g| && AllUsable(types, Strict(g[t])) && Finished(types, g[t]).TooLarge?;
      SmallOnes(g, types);
      GapFinished(g, types, t);
    }
    if err.Some? { match err.value case Recursive => case TooLargeError => case ZeroSize => }
  }

  lemma GapWellFormed(g: Schema)
    requires g == GapSchema()
    ensures WellFormed(g)
  {}

  lemma GapWire(g: Schema, types: Types, rank: map<nat, nat>)
    requires GapTypes(g, types) && SchemaCompile.Completed(g, types, rank)
    ensures Wire(FracSchema.Resolved(types))
  {
    GapFits(g, types);
    GapWellFormed(g);
    FracSchema.CompiledIsWire(g, types, rank);
  }

  lemma GapReached(g: Schema, types: Types, rank: map<nat, nat>)
    requires g == GapSchema() && SchemaCompile.Completed(g, types, rank) && 3 in types && 4 in types && 6 in types
    ensures GapTypes(g, types)
  {
    GapWellFormed(g);
    FracSchema.CompletedReady(g, types, rank);
    assert FracSchema.Entry(g, types, rank, 3) && FracSchema.Entry(g, types, rank, 4)
           && FracSchema.Entry(g, types, rank, 6);
    assert g[3].members[0] in Strict(g[3]) && g[3].members[1] in Strict(g[3]);
    assert FracSchema.Entry(g, types, rank, 1) && FracSchema.Entry(g, types, rank, 2);
    assert g[1].elem in Lazy(g[1]) && g[6].elem in Lazy(g[6]);
    assert FracSchema.Entry(g, types, rank, 0) && FracSchema.Entry(g, types, rank, 5);
    forall t | t in types ensures t < 7 { assert FracSchema.Entry(g, types, rank, t); }
  }

  lemma GapResults(g: Schema, types: Types, r: Types)
    requires GapTypes(g, types) && r == FracSchema.Resolved(types) && Wire(r)
    ensures 3 in r && 4 in r && 6 in r && !FracGap.Injective(r)
    ensures Valid(r, SHORT, 3, Items([4, 0, 0, 0], [122])) && Valid(r, FULL, 3, Items([4, 0, 0, 0], [122]))
    ensures Stops(r, [0, 0], 4, [START, ABSENT], Outside) && Stops(r, [0, 0, 0, 0], 6, [], Division)
  {
    GapObjects(g, types, r);
    TwoBuffers(r, 3, 1, 0);
    ReadsOutside(r, 4, 1, 0);
    Divides(r, 6);
  }

  lemma Divides(g: Types, t: nat)
    requires Wire(g) && FracFault.Sizeless(g, t)
    ensures Stops(g, [0, 0, 0, 0], t, [], Division)
  {
    var b: Buffer := [0, 0, 0, 0];
    assert U32(b, 0) == 0;
    FracFault.SizelessDivides(g, b, t);
  }
}
