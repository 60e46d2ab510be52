/** The parser accepts every encoding: a buffer is valid exactly when it holds a value from end to end. */
module FracComplete {
  import opened Leb128
  import opened SchemaMatch
  import opened SchemaLayout
  import opened FracWire
  import opened FracMachine
  import opened FracSane
  import opened FracTrace
  import opened FracCanonical

  // ----- the item of a value, and what follows it

  function KindOf(v: Val): ItemKind {
    match v
    case Leaf(_) => ScalarItem
    case Nil => EmptyItem
    case Node(_) => StartItem(false)
    case Alt(_, _) => StartItem(true)
  }

  function DataOf(v: Val): Buffer { if v.Leaf? then v.data else [] }

  function Follow(v: Val): seq<Token> { if v.Leaf? || v.Nil? then [] else Tail(v) }

  /** Reading gives the item of the value. */
  predicate Starts(out: Out, v: Val) { out.Out? && out.kind == KindOf(v) && out.data == DataOf(v) }

  lemma TokensAre(v: Val, index: nat, ts: seq<Token>)
    ensures Tokens(v, index) + ts == [Token(KindOf(v), DataOf(v), index)] + (Follow(v) + ts)
  {}

  lemma AllAre(vs: seq<Val>, ts: seq<Token>)
    requires vs != []
    ensures TokensAll(vs) + ts == Tokens(vs[0], 0) + (TokensAll(vs[1..]) + ts)
  {}

  lemma TailIs(kids: seq<Val>, ts: seq<Token>)
    ensures Tail(Node(kids)) + ts == TokensAll(kids) + ([END] + ts)
  {}

  // ----- the reader of an object

  /** The fixed data of an object is there, and the heap is behind it. */
  predicate PartInside(b: Buffer, c: Compiled, start: nat, n: nat, base: nat, pos: nat) {
    && (c.kind.Object? ==> start + 2 <= |b|) && (n, base) == FixedPart(b, c, start)
    && base + n <= |b| && n <= c.size && (c.variable ==> base + n <= pos)
  }

  lemma {:induction false} YieldsInPlace(g: Types, b: Buffer, below: seq<Frame>, t: nat, start: nat, i: nat, last: bool,
                                         v: Val, n: nat, base: nat, pos: nat, end: nat, ts: seq<Token>)
    requires Wire(g) && NestedSized(g) && t in g && i < |g[t].slots| && end <= |b|
             && PartInside(b, g[t], start, n, base, pos)
    requires FixedSlot(g, g[t].slots[i]) && HoldsMember(g, b, g[t].slots[i], v, base, n, pos) && pos <= end
    requires Yields(g, b, Parser(pos, end, below + [ObjectF(t, start, i + 1, last)]), ts)
    ensures Yields(g, b, Parser(pos, end, below + [ObjectF(t, start, i, last)]), Tokens(v, 0) + ts)
    decreases Count(v), 6, 0
  {
    var s, f := g[t].slots[i], ObjectF(t, start, i, last);
    YieldsFixed(g, b, below + [ObjectF(t, start, i + 1, last)], s.target, v, base + s.offset, pos, end, ts);
    PrependRead(g, b, below, f, pos, end, ReadObject(g, b, f, pos, end), Token(KindOf(v), DataOf(v), 0),
                Follow(v) + ts);
    TokensAre(v, 0, ts);
  }

  lemma YieldsBeyond(g: Types, b: Buffer, below: seq<Frame>, t: nat, start: nat, i: nat, last: bool, v: Val,
                    n: nat, base: nat, pos: nat, end: nat, ts: seq<Token>)
    requires Wire(g) && t in g && i < |g[t].slots| && end <= |b| && PartInside(b, g[t], start, n, base, pos)
    requires !FixedSlot(g, g[t].slots[i]) && Beyond(g[t].slots[i], n) && v == Nil
    requires Yields(g, b, Parser(pos, end, below + [ObjectF(t, start, i + 1, last)]), ts)
    ensures Yields(g, b, Parser(pos, end, below + [ObjectF(t, start, i, last)]), Tokens(v, 0) + ts)
  {
    var f := ObjectF(t, start, i, last);
    assert (below + [ObjectF(t, start, i + 1, last)]) + [] == below + [ObjectF(t, start, i + 1, last)];
    PrependRead(g, b, below, f, pos, end, ReadObject(g, b, f, pos, end), Token(EmptyItem, [], 0), ts);
    assert Tokens(v, 0) == [Token(EmptyItem, [], 0)];
  }

  lemma {:induction false} YieldsPointed(g: Types, b: Buffer, below: seq<Frame>, t: nat, start: nat, i: nat, last: bool,
                                         v: Val, n: nat, base: nat, pos: nat, end: nat, ts: seq<Token>)
    requires Wire(g) && NestedSized(g) && t in g && i < |g[t].slots| && end <= |b|
             && PartInside(b, g[t], start, n, base, pos)
    requires !FixedSlot(g, g[t].slots[i]) && !Beyond(g[t].slots[i], n) && g[t].variable
    requires HoldsMember(g, b, g[t].slots[i], v, base, n, pos) && pos + MemberLength(g, g[t].slots[i], v) <= end
    requires Yields(g, b,
                    Parser(pos + MemberLength(g, g[t].slots[i], v), end, below + [ObjectF(t, start, i + 1, v != Nil)]),
                    ts)
    ensures Yields(g, b, Parser(pos, end, below + [ObjectF(t, start, i, last)]), Tokens(v, 0) + ts)
    decreases Count(v), 6, 0
  {
    var s, f := g[t].slots[i], ObjectF(t, start, i, last);
    YieldsDeref(g, b, below + [ObjectF(t, start, i + 1, v != Nil)], pos, end, base + s.offset, base + n, s.target,
                s.optional, v, ts);
    PrependRead(g, b, below, f, pos, end, ReadObject(g, b, f, pos, end), Token(KindOf(v), DataOf(v), 0),
                Follow(v) + ts);
    TokensAre(v, 0, ts);
  }

  /** The reader goes through the remaining members. */
  lemma {:induction false} YieldsMembers(g: Types, b: Buffer, below: seq<Frame>, t: nat, start: nat, i: nat, last: bool,
                                         vs: seq<Val>, n: nat, base: nat, pos: nat, end: nat, ts: seq<Token>)
    requires Wire(g) && NestedSized(g) && t in g && (g[t].kind.Object? || g[t].kind.Struct?) && i + |vs| == |g[t].slots|
    requires end <= |b| && PartInside(b, g[t], start, n, base, pos)
             && HoldsMembers(Cut, g, b, g[t], vs, i, base, n, pos)
    requires g[t].kind.Object? ==> LastHasValue(g, g[t], vs, i, n, last)
    requires pos + MembersLength(Cut, g, g[t], vs, i) <= end
    requires Yields(g, b, Parser(pos + MembersLength(Cut, g, g[t], vs, i), end, below), ts)
    ensures Yields(g, b, Parser(pos, end, below + [ObjectF(t, start, i, last)]), TokensAll(vs) + ([END] + ts))
    decreases CountAll(vs), 7
  {
    var c := g[t];
    if vs == [] {
      PrependEnd(g, b, below, ObjectF(t, start, i, last), pos, end, end, ts);
      assert TokensAll(vs) + ([END] + ts) == [END] + ts;
    } else {
      assert WireOk(g, c);
      var s, v, rest := c.slots[i], vs[0], TokensAll(vs[1..]) + ([END] + ts);
      YieldsMembers(g, b, below, t, start, i + 1, NextLast(g, s, v, n, last), vs[1..], n, base,
                    pos + MemberLength(g, s, v), end, ts);
      if FixedSlot(g, s) {
        YieldsInPlace(g, b, below, t, start, i, last, v, n, base, pos, end, rest);
      } else if Beyond(s, n) {
        YieldsBeyond(g, b, below, t, start, i, last, v, n, base, pos, end, rest);
      } else {
        YieldsPointed(g, b, below, t, start, i, last, v, n, base, pos, end, rest);
      }
      AllAre(vs, [END] + ts);
    }
  }

  // ----- the reader of an array

  lemma {:induction false} YieldsElement(g: Types, b: Buffer, below: seq<Frame>, t: nat, at: nat, stop: nat, v: Val,
                                        pos: nat, end: nat, ts: seq<Token>)
    requires Wire(g) && NestedSized(g) && t in g && |g[t].slots| == 1 && end <= |b| && stop <= |b| && at != stop
    requires HoldsElement(g, b, g[t].slots[0], v, at, pos) && pos + MemberLength(g, g[t].slots[0], v) <= end
    requires FixedSlot(g, g[t].slots[0]) || (at + 4 <= stop && stop <= pos)
    requires Yields(g, b,
                    Parser(pos + MemberLength(g, g[t].slots[0], v), end,
                           below + [ArrayF(t, at + Inline(g, g[t].slots[0]), stop)]), ts)
    ensures Yields(g, b, Parser(pos, end, below + [ArrayF(t, at, stop)]), Tokens(v, 0) + ts)
    decreases Count(v), 6
  {
    var s, f, f' := g[t].slots[0], ArrayF(t, at, stop), ArrayF(t, at + Inline(g, g[t].slots[0]), stop);
    if FixedSlot(g, s) {
      YieldsFixed(g, b, below + [f'], s.target, v, at, pos, end, ts);
    } else {
      YieldsDeref(g, b, below + [f'], pos, end, at, stop, s.target, s.optional, v, ts);
    }
    PrependRead(g, b, below, f, pos, end, ReadArray(g, b, f, pos, end), Token(KindOf(v), DataOf(v), 0), Follow(v) + ts);
    TokensAre(v, 0, ts);
  }

  /** The reader goes through the remaining elements. */
  lemma {:induction false} YieldsElements(g: Types, b: Buffer, below: seq<Frame>, t: nat, at: nat, stop: nat,
                                          vs: seq<Val>, pos: nat, end: nat, ts: seq<Token>)
    requires Wire(g) && NestedSized(g) && t in g && |g[t].slots| == 1 && end <= |b| && stop <= |b|
    requires HoldsElements(Cut, g, b, g[t], vs, at, pos) && at + |vs| * Inline(g, g[t].slots[0]) == stop
    requires (vs != [] ==> Inline(g, g[t].slots[0]) > 0) && (FixedSlot(g, g[t].slots[0]) || stop <= pos)
    requires pos + ElementsLength(Cut, g, g[t], vs) <= end
    requires Yields(g, b, Parser(pos + ElementsLength(Cut, g, g[t], vs), end, below), ts)
    ensures Yields(g, b, Parser(pos, end, below + [ArrayF(t, at, stop)]), TokensAll(vs) + ([END] + ts))
    decreases CountAll(vs), 7
  {
    if vs == [] {
      PrependEnd(g, b, below, ArrayF(t, at, stop), pos, end, end, ts);
      assert TokensAll(vs) + ([END] + ts) == [END] + ts;
    } else {
      var s, v := g[t].slots[0], vs[0];
      OneLess(|vs|, Inline(g, s));
      YieldsElements(g, b, below, t, at + Inline(g, s), stop, vs[1..], pos + MemberLength(g, s, v), end, ts);
      YieldsElement(g, b, below, t, at, stop, v, pos, end, TokensAll(vs[1..]) + ([END] + ts));
      AllAre(vs, [END] + ts);
    }
  }

  // ----- values

  lemma {:induction false} YieldsFixed(g: Types, b: Buffer, below: seq<Frame>, t: nat, v: Val, at: nat, pos: nat,
                                       end: nat, ts: seq<Token>)
    requires Wire(g) && NestedSized(g) && t in g && !g[t].variable && HoldsFixed(Cut, g, b, t, v, at)
             && pos <= end <= |b|
    requires Yields(g, b, Parser(pos, end, below), ts)
    ensures var out := ParseFixed(g, b, t, at, pos);
            Starts(out, v) && out.pos == pos && Yields(g, b, Parser(pos, end, below + out.pushed), Follow(v) + ts)
    decreases Count(v), 3
  {
    assert WireOk(g, g[t]);
    if v.Leaf? {
      assert below + [] == below && [] + ts == ts;
    } else if g[t].kind.Struct? {
      MembersNoHeap(g, b, g[t], v.kids, 0, at, Extent(Cut, g[t]), pos);
      YieldsMembers(g, b, below, t, at, 0, true, v.kids, Extent(Cut, g[t]), at, pos, end, ts);
      TailIs(v.kids, ts);
    } else {
      ElementsNoHeap(g, b, g[t], v.kids, at, pos);
      ElementsSized(g, g[t], v.kids);
      YieldsElements(g, b, below, t, at, at + g[t].size, v.kids, pos, end, ts);
      TailIs(v.kids, ts);
    }
  }

  /** Elements that fill a size that is not zero are not of size zero. */
  lemma ElementsSized(g: Types, c: Compiled, vs: seq<Val>)
    requires SlotsKnown(g, c) && |c.slots| == 1 && |vs| * Inline(g, c.slots[0]) == c.size && (c.size == 0 ==> vs == [])
    ensures vs != [] ==> Inline(g, c.slots[0]) > 0
  {}

  lemma {:induction false} YieldsDeref(g: Types, b: Buffer, below: seq<Frame>, pos: nat, end: nat, fixed: nat,
                                       fixedEnd: nat, t: nat, optional: bool, v: Val, ts: seq<Token>)
    requires Wire(g) && NestedSized(g) && t in g && HoldsPointer(Cut, g, b, t, optional, v, fixed, pos)
    requires fixed + 4 <= fixedEnd <= |b| && fixed + 4 <= pos
             && pos + TargetLength(Cut, g, t, optional, v) <= end <= |b|
    requires Yields(g, b, Parser(pos + TargetLength(Cut, g, t, optional, v), end, below), ts)
    ensures var out := Deref(g, b, pos, end, fixed, fixedEnd, t, optional);
            Starts(out, v) && Yields(g, b, Parser(out.pos, end, below + out.pushed), Follow(v) + ts)
    decreases Count(v), 4
  {
    if optional && v == Nil {
      assert below + [] == below && [] + ts == ts;
    } else if IsContainer(g[t]) && v == Node([]) {
      PrependEnd(g, b, below, ArrayF(t, fixed, fixed), pos, end, end, ts);
      assert Tail(v) == [END];
    } else if g[t].kind.Scalar? {
      assert below + [] == below && [] + ts == ts;
    } else {
      YieldsPush(g, b, below, t, v, pos, end, true, ts);
    }
  }

  lemma {:induction false} YieldsParse(g: Types, b: Buffer, below: seq<Frame>, t: nat, v: Val, pos: nat, end: nat,
                                       ts: seq<Token>)
    requires Wire(g) && NestedSized(g) && t in g && Holds(Cut, g, b, t, v, pos)
             && pos + Length(Cut, g, t, v) <= end <= |b|
    requires Yields(g, b, Parser(pos + Length(Cut, g, t, v), end, below), ts)
    ensures var out := Parse(g, b, t, pos, end);
            Starts(out, v) && Yields(g, b, Parser(out.pos, end, below + out.pushed), Follow(v) + ts)
    decreases Count(v), 5
  {
    if g[t].kind.Scalar? {
      assert below + [] == below && [] + ts == ts;
    } else if g[t].kind.Optional? {
      YieldsDeref(g, b, below, pos + 4, end, pos, end, g[t].slots[0].target, true, v, ts);
    } else {
      YieldsPush(g, b, below, t, v, pos, end, false, ts);
    }
  }

  /** A group, from the reader that is pushed for it. */
  lemma {:induction false} YieldsPush(g: Types, b: Buffer, below: seq<Frame>, t: nat, v: Val, at: nat, end: nat,
                                      pointer: bool, ts: seq<Token>)
    requires Wire(g) && NestedSized(g) && t in g && HoldsGroup(Cut, g, b, t, v, at)
             && at + GroupLength(Cut, g, t, v) <= end <= |b|
    requires pointer && IsContainer(g[t]) ==> v != Node([])
    requires Yields(g, b, Parser(at + GroupLength(Cut, g, t, v), end, below), ts)
    ensures var out := Push(g, b, t, at, end, pointer);
            Starts(out, v) && Yields(g, b, Parser(out.pos, end, below + out.pushed), Follow(v) + ts)
    decreases Count(v), 3
  {
    if v.Alt? {
      YieldsVariant(g, b, below, t, v, at, end, ts);
    } else {
      YieldsNode(g, b, below, t, v.kids, at, end, pointer, ts);
    }
  }

  lemma {:induction false} YieldsNode(g: Types, b: Buffer, below: seq<Frame>, t: nat, kids: seq<Val>, at: nat, end: nat,
                                      pointer: bool, ts: seq<Token>)
    requires Wire(g) && NestedSized(g) && t in g && HoldsNode(Cut, g, b, g[t], kids, at)
             && at + NodeLength(Cut, g, g[t], kids) <= end <= |b|
    requires pointer && IsContainer(g[t]) ==> kids != []
    requires Yields(g, b, Parser(at + NodeLength(Cut, g, g[t], kids), end, below), ts)
    ensures var out := Push(g, b, t, at, end, pointer);
            Starts(out, Node(kids)) && Yields(g, b, Parser(out.pos, end, below + out.pushed), Tail(Node(kids)) + ts)
    decreases CountAll(kids), 9
  {
    assert WireOk(g, g[t]);
    TailIs(kids, ts);
    match g[t].kind
    case Object => YieldsObject(g, b, below, t, kids, at, end, ts);
    case Struct =>
      YieldsMembers(g, b, below, t, at, 0, true, kids, Extent(Cut, g[t]), at, at + Extent(Cut, g[t]), end, ts);
    case Container =>
      YieldsContainer(g, b, below, t, kids, at, end, pointer, ts);
    case Array =>
      ElementsSized(g, g[t], kids);
      YieldsElements(g, b, below, t, at, at + g[t].size, kids, at + g[t].size, end, ts);
    case Optional => YieldsOption(g, b, below, t, kids, at, end, ts);
    case Nested => YieldsNested(g, b, below, t, kids, at, end, ts);
    case _ =>
  }

  lemma {:induction false} YieldsObject(g: Types, b: Buffer, below: seq<Frame>, t: nat, kids: seq<Val>, at: nat,
                                        end: nat, ts: seq<Token>)
    requires Wire(g) && NestedSized(g) && t in g && g[t].kind.Object? && HoldsObject(Cut, g, b, g[t], kids, at)
    requires at + NodeLength(Cut, g, g[t], kids) <= end <= |b|
             && Yields(g, b, Parser(at + NodeLength(Cut, g, g[t], kids), end, below), ts)
    ensures Yields(g, b, Parser(at + 2 + U16(b, at), end, below + [ObjectF(t, at, 0, true)]),
                   TokensAll(kids) + ([END] + ts))
    decreases CountAll(kids), 8
  {
    assert WireOk(g, g[t]);
    var n := FixedBytes(g[t], kids);
    BeginInside(g, g[t], Present(g[t], kids, 0));
    YieldsMembers(g, b, below, t, at, 0, true, kids, n, at + 2, at + 2 + n, end, ts);
  }

  lemma {:induction false} YieldsContainer(g: Types, b: Buffer, below: seq<Frame>, t: nat, kids: seq<Val>, at: nat,
                                           end: nat, pointer: bool, ts: seq<Token>)
    requires Wire(g) && NestedSized(g) && t in g && g[t].kind.Container? && HoldsContainer(Cut, g, b, g[t], kids, at)
    requires at + NodeLength(Cut, g, g[t], kids) <= end <= |b| && (pointer ==> kids != [])
    requires Yields(g, b, Parser(at + NodeLength(Cut, g, g[t], kids), end, below), ts)
    ensures var out := Push(g, b, t, at, end, pointer);
            Starts(out, Node(kids))
              && Yields(g, b, Parser(out.pos, end, below + out.pushed), TokensAll(kids) + ([END] + ts))
    decreases CountAll(kids), 8
  {
    assert WireOk(g, g[t]);
    var k := Inline(g, g[t].slots[0]);
    Multiple(|kids|, k);
    var stop := at + 4 + |kids| * k;
    YieldsElements(g, b, below, t, at + 4, stop, kids, stop, end, ts);
  }

  lemma Multiple(n: nat, k: nat)
    requires k > 0
    ensures (n * k) % k == 0 && (n > 0 ==> n * k > 0)
  {
    Remainder(n * k, k, (n * k) / k, (n * k) % k, n);
  }

  lemma Remainder(x: nat, k: nat, q: nat, r: nat, n: nat)
    requires k > 0 && x == n * k && x == k * q + r && r < k
    ensures r == 0
  {
    if q < n { Gap(q, n - q, k); } else if q > n { Gap(n, q - n, k); }
  }

  lemma Gap(a: nat, d: nat, k: nat)
    requires d > 0
    ensures a * k + k <= (a + d) * k
  {
    assert (a + d) * k == a * k + d * k;
    OneLess(d, k);
  }

  lemma {:induction false} YieldsOption(g: Types, b: Buffer, below: seq<Frame>, t: nat, kids: seq<Val>, at: nat,
                                        end: nat, ts: seq<Token>)
    requires Wire(g) && NestedSized(g) && t in g && g[t].kind.Optional? && HoldsNode(Cut, g, b, g[t], kids, at)
    requires at + NodeLength(Cut, g, g[t], kids) <= end <= |b|
             && Yields(g, b, Parser(at + NodeLength(Cut, g, g[t], kids), end, below), ts)
    ensures Yields(g, b, Parser(at, end, below + [OptionF(t, false)]), TokensAll(kids) + ([END] + ts))
    decreases CountAll(kids), 8
  {
    assert CountOne(kids);
    var u, kid, f, f' := g[t].slots[0].target, kids[0], OptionF(t, false), OptionF(t, true);
    PrependEnd(g, b, below, f', at + 4 + TargetLength(Cut, g, u, true, kid), end, end, ts);
    YieldsDeref(g, b, below + [f'], at + 4, end, at, end, u, true, kid, [END] + ts);
    PrependRead(g, b, below, f, at, end, ReadOption(g, b, f, at, end), Token(KindOf(kid), DataOf(kid), 0),
                Follow(kid) + ([END] + ts));
    TokensAre(kid, 0, [END] + ts);
    OneAll(kids);
  }

  lemma OneAll(kids: seq<Val>)
    requires |kids| == 1
    ensures TokensAll(kids) == Tokens(kids[0], 0)
  {
    assert kids[1..] == [] && TokensAll([]) == [];
  }

  lemma {:induction false} YieldsNested(g: Types, b: Buffer, below: seq<Frame>, t: nat, kids: seq<Val>, at: nat,
                                        end: nat, ts: seq<Token>)
    requires Wire(g) && NestedSized(g) && t in g && g[t].kind.Nested? && HoldsNode(Cut, g, b, g[t], kids, at)
    requires at + NodeLength(Cut, g, g[t], kids) <= end <= |b|
             && Yields(g, b, Parser(at + NodeLength(Cut, g, g[t], kids), end, below), ts)
    ensures Yields(g, b, Parser(at, end, below + [NestedF(t, at, 0)]), TokensAll(kids) + ([END] + ts))
    decreases CountAll(kids), 8
  {
    assert CountOne(kids) && ContentSized(g, t);
    var u, kid, f, f' := g[t].slots[0].target, kids[0], NestedF(t, at, 0), NestedF(t, at, end);
    HoldsPositive(g, b, u, kid, at + 4);
    var stop := at + 4 + Length(Cut, g, u, kid);
    PrependEnd(g, b, below, f', stop, stop, end, ts);
    YieldsParse(g, b, below + [f'], u, kid, at + 4, stop, [END] + ts);
    var got := Made(f', Parse(g, b, u, at + 4, stop), stop, 0);
    NestedOpens(g, b, t, at, end, stop, got);
    PrependRead(g, b, below, f, at, end, got, Token(KindOf(kid), DataOf(kid), 0), Follow(kid) + ([END] + ts));
    TokensAre(kid, 0, [END] + ts);
    OneAll(kids);
  }

  lemma NestedOpens(g: Types, b: Buffer, t: nat, at: nat, end: nat, stop: nat, got: Got)
    requires Wire(g) && t in g && g[t].kind.Nested? && at + 4 < stop <= end <= |b| && at + 4 + U32(b, at) == stop
    requires got == Made(NestedF(t, at, end), Parse(g, b, g[t].slots[0].target, at + 4, stop), stop, 0)
    ensures Read(g, b, NestedF(t, at, 0), at, end) == got
  {}

  lemma {:induction false} YieldsVariant(g: Types, b: Buffer, below: seq<Frame>, t: nat, v: Val, at: nat, end: nat,
                                         ts: seq<Token>)
    requires Wire(g) && NestedSized(g) && t in g && v.Alt? && HoldsVariant(Cut, g, b, g[t], v, at)
    requires at + GroupLength(Cut, g, t, v) <= end <= |b|
             && Yields(g, b, Parser(at + GroupLength(Cut, g, t, v), end, below), ts)
    ensures Yields(g, b, Parser(at, end, below + [VariantF(t, 0)]), Tail(v) + ts)
    decreases Count(v), 2
  {
    var u, kid, f, f' := g[t].slots[v.tag].target, v.kid, VariantF(t, 0), VariantF(t, end);
    var stop := at + 5 + Length(Cut, g, u, kid);
    PrependEnd(g, b, below, f', stop, stop, end, ts);
    YieldsParse(g, b, below + [f'], u, kid, at + 5, stop, [END] + ts);
    var got := Made(f', Parse(g, b, u, at + 5, stop), stop, v.tag);
    AltOpens(g, b, t, v.tag, at, end, stop, got);
    PrependRead(g, b, below, f, at, end, got, Token(KindOf(kid), DataOf(kid), v.tag), Follow(kid) + ([END] + ts));
    TokensAre(kid, v.tag, [END] + ts);
    assert Tail(v) + ts == Tokens(kid, v.tag) + ([END] + ts);
  }

  lemma AltOpens(g: Types, b: Buffer, t: nat, tag: nat, at: nat, end: nat, stop: nat, got: Got)
    requires Wire(g) && t in g && g[t].kind.Variant? && tag < |g[t].slots| && tag < 128 && at + 5 <= stop <= end <= |b|
    requires b[at] == tag && at + 5 + U32(b, at + 1) == stop
    requires got == Made(VariantF(t, end), Parse(g, b, g[t].slots[tag].target, at + 5, stop), stop, tag)
    ensures Read(g, b, VariantF(t, 0), at, end) == got
  {}

  // ----- the result

  /** The buffer is the encoding of a value with these items. */
  ghost predicate Encodes(w: Reading, g: Types, b: Buffer, root: nat, ts: seq<Token>)
    requires Wire(g) && root in g
  {
    exists v :: ts == Tokens(v, 0) && Holds(w, g, b, root, v, 0) && Length(w, g, root, v) == |b|
  }

  lemma HoldsValid(g: Types, b: Buffer, root: nat, v: Val)
    requires Wire(g) && NestedSized(g) && root in g && Holds(Cut, g, b, root, v, 0) && Length(Cut, g, root, v) == |b|
    ensures Proper(g, b, root, Tokens(v, 0))
  {
    assert Trace(g, b, [Parser(|b|, |b|, [])], []);
    YieldsParse(g, b, [], root, v, 0, |b|, []);
    var out := Parse(g, b, root, 0, |b|);
    var first := Token(out.kind, out.data, 0);
    var p := Parser(out.pos, |b|, out.pushed + [ItemF(first)]);
    assert p.stack[|p.stack| - 1] == ItemF(first) && p.stack[..|p.stack| - 1] == [] + out.pushed;
    Prepend(g, b, p, Parser(out.pos, |b|, [] + out.pushed), first, Follow(v) + []);
    TokensAre(v, 0, []);
    assert Tokens(v, 0) + [] == Tokens(v, 0);
    var ps: seq<Parser> :| Trace(g, b, ps, Tokens(v, 0)) && ps[0] == p && ps[|Tokens(v, 0)|].pos == |b|;
    YieldsRuns(g, b, ps, Tokens(v, 0));
  }

  /** A buffer is the encoding of the value that these items describe, where a struct takes the number of bytes
      that the reader keeps of its size, if and only if it is valid with them and fixed data reaches every
      pointer that is not optional. */
  lemma ValidExactly(g: Types, b: Buffer, root: nat, ts: seq<Token>)
    requires Wire(g) && NestedSized(g) && root in g
    ensures Proper(g, b, root, ts) <==> Encodes(Cut, g, b, root, ts)
  {
    if Proper(g, b, root, ts) { var v := ValidHolds(g, b, root, ts); }
    if Encodes(Cut, g, b, root, ts) {
      var v :| ts == Tokens(v, 0) && Holds(Cut, g, b, root, v, 0) && Length(Cut, g, root, v) == |b|;
      HoldsValid(g, b, root, v);
    }
  }

  /** An object laid out as the format asks: its members, in fixed data that ends with the last one present. */
  predicate LaidOut(g: Types, b: Buffer, root: nat, kids: seq<Val>)
    requires Wire(g) && root in g
  {
    var c := g[root];
    && c.kind.Object? && |kids| == |c.slots| && 2 + FixedBytes(c, kids) <= |b| && U16(b, 0) == FixedBytes(c, kids)
    && HoldsMembers(Cut, g, b, c, kids, 0, 2, FixedBytes(c, kids), 2 + FixedBytes(c, kids))
    && 2 + FixedBytes(c, kids) + MembersLength(Cut, g, c, kids, 0) == |b|
  }

  lemma ObjectHolds(g: Types, b: Buffer, t: nat, v: Val)
    requires Wire(g) && t in g && g[t].kind.Object? && v.Node?
    ensures Holds(Cut, g, b, t, v, 0) <==> HoldsObject(Cut, g, b, g[t], v.kids, 0)
    ensures Length(Cut, g, t, v) == NodeLength(Cut, g, g[t], v.kids)
  {
    assert Holds(Cut, g, b, t, v, 0) <==> HoldsGroup(Cut, g, b, t, v, 0);
    assert HoldsGroup(Cut, g, b, t, v, 0) <==> HoldsNode(Cut, g, b, g[t], v.kids, 0);
    assert Length(Cut, g, t, v) == GroupLength(Cut, g, t, v);
  }

  /** Such an object is valid, with fixed data that reaches the pointers of every object in it, if and only if the last
      of its members that is read through a pointer has a
      value, whatever follows it in place. */
  lemma ObjectExactly(g: Types, b: Buffer, root: nat, kids: seq<Val>)
    requires Wire(g) && NestedSized(g) && root in g && LaidOut(g, b, root, kids)
    ensures Proper(g, b, root, Tokens(Node(kids), 0)) <==>
            LastHasValue(g, g[root], kids, 0, FixedBytes(g[root], kids), true)
  {
    var v := Node(kids);
    ValidExactly(g, b, root, Tokens(v, 0));
    ObjectHolds(g, b, root, v);
    if LastHasValue(g, g[root], kids, 0, FixedBytes(g[root], kids), true) {
      assert Holds(Cut, g, b, root, v, 0) && Length(Cut, g, root, v) == |b|;
    }
    if Proper(g, b, root, Tokens(v, 0)) {
      var w :| Tokens(v, 0) == Tokens(w, 0) && Holds(Cut, g, b, root, w, 0) && Length(Cut, g, root, w) == |b|;
      assert Tokens(v, 0) + [] == Tokens(w, 0) + [];
      TokensPrefix(v, w, 0, [], []);
    }
  }
}
