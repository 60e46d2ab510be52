/** Nested data of no bytes: the one way in which a valid buffer, whose fixed data reaches its pointers, is not the
    only one with its items. */
module FracEmpty {
  import opened Leb128
  import opened SchemaMatch
  import opened SchemaLayout
  import opened FracWire
  import opened FracMachine
  import opened FracSane
  import opened FracTrace
  import opened FracCanonical
  import FracEnds

  /** The item of a value of no bytes, and what follows it. */
  function Head(g: Types, t: nat, index: nat): Token
    requires t in g
  {
    Token(if g[t].kind.Scalar? then ScalarItem else StartItem(false), [], index)
  }

  function Follow(g: Types, t: nat, d: nat): seq<Token>
    requires Wire(g) && Hollow(g, t, d)
    decreases d, 0
  {
    match g[t].kind
    case Scalar => []
    case Struct => FollowMembers(g, t, d, 0)
    case _ => [END]
  }

  const ABSENT := Token(EmptyItem, [], 0)

  /** The items of the members from `i` on: those in place have no bytes, the others are left out. */
  function FollowMembers(g: Types, t: nat, d: nat, i: nat): seq<Token>
    requires Wire(g) && Hollow(g, t, d) && g[t].kind.Struct? && i <= |g[t].slots|
    decreases d - 1, |g[t].slots| - i + 1
  {
    if i == |g[t].slots| then [END]
    else
      var s := g[t].slots[i];
      assert HollowSlot(g, s, d - 1);
      var more := FollowMembers(g, t, d, i + 1);
      if FixedSlot(g, s) then [Head(g, s.target, 0)] + (Follow(g, s.target, d - 1) + more) else [ABSENT] + more
  }

  /** The reader of a value of no bytes at `at`. */
  function Reader(g: Types, t: nat, at: nat): seq<Frame>
    requires t in g
  {
    match g[t].kind
    case Scalar => []
    case Struct => [ObjectF(t, at, 0, true)]
    case _ => [ArrayF(t, at, at)]
  }

  /** The reader of such a value, wherever it is, gives its items and leaves everything as it was. */
  lemma {:induction false} RunsHollow(g: Types, b: Buffer, below: seq<Frame>, t: nat, d: nat, at: nat, pos: nat,
                                      end: nat, ts: seq<Token>)
    requires Wire(g) && Hollow(g, t, d) && at <= |b| && end <= |b| && Yields(g, b, Parser(pos, end, below), ts)
    ensures Yields(g, b, Parser(pos, end, below + Reader(g, t, at)), Follow(g, t, d) + ts)
    decreases d, 1
  {
    if g[t].kind.Scalar? {
      assert below + [] == below && [] + ts == ts;
    } else if g[t].kind.Struct? {
      RunsMembers(g, b, below, t, d, 0, at, pos, end, ts);
    } else {
      PrependEnd(g, b, below, ArrayF(t, at, at), pos, end, end, ts);
    }
  }

  /** Fixed data of no bytes is read in place. */
  lemma FixedReader(g: Types, b: Buffer, t: nat, d: nat, at: nat, pos: nat)
    requires Wire(g) && Hollow(g, t, d) && g[t].size == 0 && at <= |b|
    ensures var out := ParseFixed(g, b, t, at, pos);
            out == Out(Reader(g, t, at), pos, Head(g, t, 0).kind, [])
  {}

  /** A member in place. */
  lemma PrependMember(g: Types, b: Buffer, below: seq<Frame>, t: nat, d: nat, i: nat, u: nat, at: nat, pos: nat,
                      end: nat, ts: seq<Token>)
    requires Wire(g) && Hollow(g, t, d) && g[t].kind.Struct? && i < |g[t].slots| && at <= |b| && end <= |b|
    requires FixedSlot(g, g[t].slots[i]) && u == g[t].slots[i].target
    requires Yields(g, b, Parser(pos, end, (below + [ObjectF(t, at, i + 1, true)]) + Reader(g, u, at)), ts)
    ensures Yields(g, b, Parser(pos, end, below + [ObjectF(t, at, i, true)]), [Head(g, u, 0)] + ts)
  {
    assert HollowSlot(g, g[t].slots[i], d - 1);
    FixedReader(g, b, u, d - 1, at, pos);
    var f := ObjectF(t, at, i, true);
    PrependRead(g, b, below, f, pos, end, ReadObject(g, b, f, pos, end), Head(g, u, 0), ts);
  }

  /** A member that is left out. */
  lemma PrependAbsent(g: Types, b: Buffer, below: seq<Frame>, t: nat, d: nat, i: nat, at: nat, pos: nat, end: nat,
                      ts: seq<Token>)
    requires Wire(g) && Hollow(g, t, d) && g[t].kind.Struct? && i < |g[t].slots| && at <= |b| && end <= |b|
    requires !FixedSlot(g, g[t].slots[i]) && Yields(g, b, Parser(pos, end, below + [ObjectF(t, at, i + 1, true)]), ts)
    ensures Yields(g, b, Parser(pos, end, below + [ObjectF(t, at, i, true)]), [ABSENT] + ts)
  {
    assert HollowSlot(g, g[t].slots[i], d - 1);
    var f, f' := ObjectF(t, at, i, true), ObjectF(t, at, i + 1, true);
    assert (below + [f']) + [] == below + [f'];
    PrependRead(g, b, below, f, pos, end, ReadObject(g, b, f, pos, end), ABSENT, ts);
  }

  lemma PrependNoMore(g: Types, b: Buffer, below: seq<Frame>, t: nat, at: nat, pos: nat, end: nat, ts: seq<Token>)
    requires Wire(g) && t in g && g[t].kind.Struct? && Extent(Cut, g[t]) == 0 && at <= |b| && end <= |b|
    requires Yields(g, b, Parser(pos, end, below), ts)
    ensures Yields(g, b, Parser(pos, end, below + [ObjectF(t, at, |g[t].slots|, true)]), [END] + ts)
  {
    PrependEnd(g, b, below, ObjectF(t, at, |g[t].slots|, true), pos, end, end, ts);
  }

  lemma {:induction false} RunsMembers(g: Types, b: Buffer, below: seq<Frame>, t: nat, d: nat, i: nat, at: nat,
                                       pos: nat, end: nat, ts: seq<Token>)
    requires Wire(g) && Hollow(g, t, d) && g[t].kind.Struct? && i <= |g[t].slots|
    requires at <= |b| && end <= |b| && Yields(g, b, Parser(pos, end, below), ts)
    ensures Yields(g, b, Parser(pos, end, below + [ObjectF(t, at, i, true)]), FollowMembers(g, t, d, i) + ts)
    decreases d, 0, |g[t].slots| - i
  {
    if i == |g[t].slots| {
      PrependNoMore(g, b, below, t, at, pos, end, ts);
    } else {
      var s, more := g[t].slots[i], FollowMembers(g, t, d, i + 1);
      assert HollowSlot(g, s, d - 1);
      RunsMembers(g, b, below, t, d, i + 1, at, pos, end, ts);
      if FixedSlot(g, s) {
        RunsHollow(g, b, below + [ObjectF(t, at, i + 1, true)], s.target, d - 1, at, pos, end, more + ts);
        PrependMember(g, b, below, t, d, i, s.target, at, pos, end, Follow(g, s.target, d - 1) + (more + ts));
        Regroup([Head(g, s.target, 0)], Follow(g, s.target, d - 1), more, ts);
      } else {
        PrependAbsent(g, b, below, t, d, i, at, pos, end, more + ts);
        assert ([ABSENT] + more) + ts == [ABSENT] + (more + ts);
      }
    }
  }

  lemma Regroup<T>(w: seq<T>, x: seq<T>, y: seq<T>, z: seq<T>)
    ensures (w + (x + y)) + z == w + (x + (y + z))
  {}

  // ----- a hole in the encoding

  /** The items of nested data of no bytes. */
  function HoleItems(g: Types, u: nat, d: nat): seq<Token>
    requires Wire(g) && Hollow(g, u, d)
  {
    [Token(StartItem(false), [], 0)] + ([Head(g, u, 0)] + (Follow(g, u, d) + [END]))
  }

  /** Reading it at the end of the data. */
  lemma EndReader(g: Types, b: Buffer, t: nat, d: nat, end: nat)
    requires Wire(g) && Hollow(g, t, d) && end <= |b|
    ensures Parse(g, b, t, end, end) == Out(Reader(g, t, end), end, Head(g, t, 0).kind, [])
  {}

  /** From the reader of the nested data on. */
  lemma HoleLeads(g: Types, b: Buffer, t: nat, u: nat, d: nat)
    requires Wire(g) && t in g && g[t].kind.Nested? && u == g[t].slots[0].target && Hollow(g, u, d)
    requires |b| >= 4 && U32(b, 0) == 0
    ensures Yields(g, b, Parser(0, |b|, [NestedF(t, 0, 0)]), [Head(g, u, 0)] + (Follow(g, u, d) + [END]))
  {
    var end := |b|;
    var f, f' := NestedF(t, 0, 0), NestedF(t, 0, end);
    assert Trace(g, b, [Parser(end, end, [])], []);
    PrependEnd(g, b, [], f', end, end, end, []);
    assert [] + [f'] == [f'] && [END] + [] == [END];
    RunsHollow(g, b, [f'], u, d, end, end, end, [END]);
    EndReader(g, b, u, d, end);
    assert [] + [f] == [f];
    PrependRead(g, b, [], f, 0, end, Read(g, b, f, 0, end), Head(g, u, 0), Follow(g, u, d) + [END]);
  }

  lemma YieldsValid(g: Types, b: Buffer, t: nat, ts: seq<Token>)
    requires Wire(g) && t in g && g[t].kind.Nested? && Yields(g, b, Parser(0, |b|, [NestedF(t, 0, 0)]), ts)
    ensures Proper(g, b, t, [Token(StartItem(false), [], 0)] + ts)
  {
    var first, f := Token(StartItem(false), [], 0), NestedF(t, 0, 0);
    var p := Parser(0, |b|, [f] + [ItemF(first)]);
    assert p.stack[..1] == [f];
    Prepend(g, b, p, Parser(0, |b|, [f]), first, ts);
    var all := [first] + ts;
    var ps: seq<Parser> :| Trace(g, b, ps, all) && ps[0] == p && ps[|all|].pos == |b|;
    YieldsRuns(g, b, ps, all);
  }

  /** Nested data of no bytes is accepted with any bytes behind it, and the items do not show them. */
  lemma HoleIsValid(g: Types, t: nat, d: nat, x: Buffer)
    requires Wire(g) && t in g && g[t].kind.Nested? && Hollow(g, g[t].slots[0].target, d)
    ensures Proper(g, [0, 0, 0, 0] + x, t, HoleItems(g, g[t].slots[0].target, d))
  {
    var b: Buffer := [0, 0, 0, 0] + x;
    assert U32(b, 0) == 0;
    HoleLeads(g, b, t, g[t].slots[0].target, d);
    YieldsValid(g, b, t, [Head(g, g[t].slots[0].target, 0)] + (Follow(g, g[t].slots[0].target, d) + [END]));
  }

  /** Such buffers of the schema are the same whenever their items are. */
  ghost predicate Canonical(g: Types)
    requires Wire(g)
  {
    forall root, b, b', ts :: root in g && Proper(g, b, root, ts) && Proper(g, b', root, ts) ==> b == b'
  }

  /** The valid buffers whose fixed data reaches its pointers are canonical if and only if no nested data can be
      empty. */
  lemma CanonicalExactly(g: Types)
    requires Wire(g)
    ensures Canonical(g) <==> NestedSized(g)
  {
    if NestedSized(g) {
      forall root, b, b', ts | root in g && Proper(g, b, root, ts) && Proper(g, b', root, ts) ensures b == b' {
        ValidIsCanonical(g, b, b', root, ts);
      }
    } else {
      var t :| t in g && !ContentSized(g, t);
      var d :| Hollow(g, g[t].slots[0].target, d);
      HoleIsValid(g, t, d, []);
      HoleIsValid(g, t, d, [0]);
      var b0: Buffer, b1: Buffer := [0, 0, 0, 0] + [], [0, 0, 0, 0] + [0];
      assert |b0| != |b1|;
    }
  }

  // ----- which nested data can be empty

  /** A scalar, array or struct of no bytes has a value of no bytes. */
  lemma {:induction false} SizeZeroHollow(g: Types, rank: map<nat, nat>, t: nat)
    requires Wire(g) && FracEnds.Founded(g, rank) && t in g && g[t].size == 0
    requires g[t].kind.Scalar? || g[t].kind.Array? || g[t].kind.Struct?
    ensures t in rank && Hollow(g, t, rank[t] + 1)
    decreases if t in rank then rank[t] else 0
  {
    assert FracEnds.FoundedAt(g, rank, t) && WireOk(g, g[t]);
    if g[t].kind.Struct? {
      forall i | 0 <= i < |g[t].slots| ensures HollowSlot(g, g[t].slots[i], rank[t]) {
        var s := g[t].slots[i];
        BeginInside(g, g[t], i + 1);
        assert Begin(g[t], i + 1) == Begin(g[t], i) + Inline(g, s) && WireOk(g, g[s.target]);
        assert FracEnds.Below(rank, s.target, t);
        SizeZeroHollow(g, rank, s.target);
        HollowMore(g, s.target, rank[s.target] + 1, rank[t]);
      }
    }
  }

  predicate HasBytes(g: Types, t: nat)
    requires Wire(g) && t in g
  {
    g[t].kind.Nested? ==>
      var c := g[g[t].slots[0].target];
      c.kind.Scalar? || c.kind.Array? || c.kind.Struct? ==> c.size > 0
  }

  /** In a compiled schema without structs of 65536 bytes, nested data can be empty if and only if it is that
      of a scalar, array or struct of size zero. */
  lemma NestedSizedExactly(g: Types, rank: map<nat, nat>)
    requires Wire(g) && FracEnds.Founded(g, rank) && forall t :: t in g && g[t].kind.Struct? ==> g[t].size < 0x1_0000
    ensures NestedSized(g) <==> forall t :: t in g ==> HasBytes(g, t)
  {
    forall t | t in g ensures ContentSized(g, t) <==> HasBytes(g, t) {
      if g[t].kind.Nested? {
        var u := g[t].slots[0].target;
        if !HasBytes(g, t) { SizeZeroHollow(g, rank, u); }
      }
    }
    if NestedSized(g) { forall t | t in g ensures HasBytes(g, t) { assert ContentSized(g, t); } }
  }
}
