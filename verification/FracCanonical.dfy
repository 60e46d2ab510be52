/** A valid buffer holds the value that its items describe, and no other buffer does. */
module FracCanonical {
  import opened Leb128
  import opened SchemaMatch
  import opened SchemaLayout
  import opened FracWire
  import opened FracMachine
  import opened FracSane
  import opened FracTrace

  // ----- items determine the value

  lemma SameFirst<T>(x: seq<T>, y: seq<T>, r: seq<T>, r': seq<T>)
    requires x + r == y + r' && x != [] && y != []
    ensures x[0] == y[0] && x[1..] + r == y[1..] + r'
  {
    assert (x + r)[0] == x[0] && (y + r')[0] == y[0];
    assert (x + r)[1..] == x[1..] + r && (y + r')[1..] == y[1..] + r';
  }

  lemma Alone(v: Val, index: nat, r: seq<Token>)
    requires v.Leaf? || v.Nil?
    ensures Tokens(v, index)[1..] + r == r
  {}

  lemma Grouped(v: Val, index: nat, r: seq<Token>)
    requires v.Node? || v.Alt?
    ensures v.Node? ==> Tokens(v, index)[1..] + r == TokensAll(v.kids) + ([END] + r)
    ensures v.Alt? ==> Tokens(v, index)[1..] + r == Tokens(v.kid, v.tag) + ([END] + r)
  {
    assert Tokens(v, index)[1..] == Tail(v);
  }

  lemma {:induction false} TokensPrefix(v: Val, v': Val, index: nat, r: seq<Token>, r': seq<Token>)
    requires Tokens(v, index) + r == Tokens(v', index) + r'
    ensures v == v' && r == r'
    decreases Count(v), 1
  {
    SameFirst(Tokens(v, index), Tokens(v', index), r, r');
    if v.Leaf? || v.Nil? {
      Alone(v, index, r);
      Alone(v', index, r');
    } else {
      Grouped(v, index, r);
      Grouped(v', index, r');
      if v.Node? { AllPrefix(v.kids, v'.kids, r, r'); } else { AltPrefix(v, v', r, r'); }
    }
  }

  lemma {:induction false} AltPrefix(v: Val, v': Val, r: seq<Token>, r': seq<Token>)
    requires v.Alt? && v'.Alt? && Tokens(v.kid, v.tag) + ([END] + r) == Tokens(v'.kid, v'.tag) + ([END] + r')
    ensures v == v' && r == r'
    decreases Count(v), 0
  {
    SameFirst(Tokens(v.kid, v.tag), Tokens(v'.kid, v'.tag), [END] + r, [END] + r');
    TokensPrefix(v.kid, v'.kid, v.tag, [END] + r, [END] + r');
    assert ([END] + r)[1..] == r && ([END] + r')[1..] == r';
  }

  lemma {:induction false} AllPrefix(vs: seq<Val>, vs': seq<Val>, r: seq<Token>, r': seq<Token>)
    requires TokensAll(vs) + ([END] + r) == TokensAll(vs') + ([END] + r')
    ensures vs == vs' && r == r'
    decreases CountAll(vs), 2
  {
    AllFirst(vs, r);
    AllFirst(vs', r');
    if vs != [] {
      assert TokensAll(vs) + ([END] + r) == Tokens(vs[0], 0) + (TokensAll(vs[1..]) + ([END] + r));
      assert TokensAll(vs') + ([END] + r') == Tokens(vs'[0], 0) + (TokensAll(vs'[1..]) + ([END] + r'));
      TokensPrefix(vs[0], vs'[0], 0, TokensAll(vs[1..]) + ([END] + r), TokensAll(vs'[1..]) + ([END] + r'));
      AllPrefix(vs[1..], vs'[1..], r, r');
      assert vs == [vs[0]] + vs[1..] && vs' == [vs'[0]] + vs'[1..];
    }
  }

  /** An end item comes first exactly when no value is left. */
  lemma AllFirst(vs: seq<Val>, r: seq<Token>)
    ensures var a := TokensAll(vs) + ([END] + r);
            a != [] && (a[0].kind == EndItem <==> vs == []) && (vs == [] ==> a[1..] == r)
  {
    if vs != [] { assert (TokensAll(vs) + ([END] + r))[0] == Tokens(vs[0], 0)[0]; }
  }

  // ----- the size of an object's fixed data

  lemma {:induction false} AbsentLast(g: Types, c: Compiled, vs: seq<Val>, i: nat, n: nat)
    requires SlotsKnown(g, c) && i + |vs| == |c.slots| && Present(c, vs, i) == i
    ensures !LastHasValue(g, c, vs, i, n, false)
    decreases |vs|
  {
    if vs != [] { AbsentLast(g, c, vs[1..], i + 1, n); }
  }

  lemma {:induction false} PresentIncluded(g: Types, b: Buffer, c: Compiled, vs: seq<Val>, i: nat, base: nat, n: nat,
                                           heap: nat)
    requires Wire(g) && SlotsKnown(g, c) && Tiled(g, c) && i + |vs| == |c.slots|
    requires HoldsMembers(Cut, g, b, c, vs, i, base, n, heap) && Present(c, vs, i) > i
    ensures Begin(c, Present(c, vs, i)) <= n
    decreases |vs|
  {
    var s := c.slots[i];
    assert Begin(c, i + 1) == Begin(c, i) + Inline(g, s);
    if Present(c, vs[1..], i + 1) > i + 1 {
      var heap' := if FixedSlot(g, s) || (s.optional && s.offset >= n) then heap
                   else heap + TargetLength(Cut, g, s.target, s.optional, vs[0]);
      PresentIncluded(g, b, c, vs[1..], i + 1, base, n, heap');
    }
  }

  lemma {:induction false} BeginOrdered(g: Types, c: Compiled, i: nat, j: nat)
    requires SlotsKnown(g, c) && Tiled(g, c) && i <= j <= |c.slots|
    ensures Begin(c, i) <= Begin(c, j)
    decreases j - i
  {
    if i < j { BeginOrdered(g, c, i + 1, j); assert Begin(c, i + 1) == Begin(c, i) + Inline(g, c.slots[i]); }
  }

  /** The fixed data ends with the last member that is present: not before, because members are read within
      it, and not later, because a trailing absent member is refused. */
  lemma {:induction false} FixedBytesAre(g: Types, b: Buffer, c: Compiled, vs: seq<Val>, i: nat, base: nat, n: nat,
                                         heap: nat, last: bool)
    requires Wire(g) && SlotsKnown(g, c) && Tiled(g, c) && i + |vs| == |c.slots| && Begin(c, i) <= n <= c.size
    requires HoldsMembers(Cut, g, b, c, vs, i, base, n, heap) && LastHasValue(g, c, vs, i, n, last)
    ensures n == Begin(c, Present(c, vs, i))
    decreases |vs|
  {
    if vs != [] {
      var s, k := c.slots[i], Present(c, vs, i);
      assert Begin(c, i + 1) == Begin(c, i) + Inline(g, s);
      if k > i {
        PresentIncluded(g, b, c, vs, i, base, n, heap);
        BeginOrdered(g, c, i + 1, k);
        var skipped := FixedSlot(g, s) || (s.optional && s.offset >= n);
        var heap' := if skipped then heap else heap + TargetLength(Cut, g, s.target, s.optional, vs[0]);
        FixedBytesAre(g, b, c, vs[1..], i + 1, base, n, heap', if skipped then last else vs[0] != Nil);
      } else {
        AbsentLast(g, c, vs[1..], i + 1, n);
      }
    }
  }

  // ----- fixed data does not use the heap

  lemma {:induction false} MembersNoHeap(g: Types, b: Buffer, c: Compiled, vs: seq<Val>, i: nat, base: nat, n: nat,
                                         heap: nat)
    requires Wire(g) && SlotsKnown(g, c) && forall k :: 0 <= k < |c.slots| ==> FixedSlot(g, c.slots[k])
    ensures HoldsMembers(Cut, g, b, c, vs, i, base, n, heap) == HoldsMembers(Cut, g, b, c, vs, i, base, n, 0)
    ensures MembersLength(Cut, g, c, vs, i) == 0
    decreases |vs|
  {
    if vs != [] && i < |c.slots| { MembersNoHeap(g, b, c, vs[1..], i + 1, base, n, heap); }
  }

  lemma {:induction false} ElementsNoHeap(g: Types, b: Buffer, c: Compiled, vs: seq<Val>, pos: nat, heap: nat)
    requires Wire(g) && SlotsKnown(g, c) && |c.slots| == 1 && FixedSlot(g, c.slots[0])
    ensures HoldsElements(Cut, g, b, c, vs, pos, heap) == HoldsElements(Cut, g, b, c, vs, pos, 0)
    ensures ElementsLength(Cut, g, c, vs) == 0
    decreases |vs|
  {
    if vs != [] { ElementsNoHeap(g, b, c, vs[1..], pos + Inline(g, c.slots[0]), heap); }
  }

  // ----- values of no bytes

  lemma {:induction false} HollowMore(g: Types, t: nat, d: nat, d': nat)
    requires Wire(g) && Hollow(g, t, d) && d <= d'
    ensures Hollow(g, t, d')
    decreases d
  {
    if g[t].kind.Struct? {
      forall i | 0 <= i < |g[t].slots| ensures HollowSlot(g, g[t].slots[i], d' - 1) {
        var s := g[t].slots[i];
        assert HollowSlot(g, s, d - 1);
        if FixedSlot(g, s) { HollowMore(g, s.target, d - 1, d' - 1); }
      }
    }
  }

  /** Fixed data of no bytes. */
  lemma {:induction false} FixedHollow(g: Types, b: Buffer, t: nat, v: Val, pos: nat)
    requires Wire(g) && t in g && g[t].size == 0 && HoldsFixed(Cut, g, b, t, v, pos)
    ensures Hollow(g, t, Count(v))
    decreases Count(v), 1
  {
    assert WireOk(g, g[t]);
    if v.Node? && g[t].kind.Struct? {
      SlotsHollow(g, b, g[t], v.kids, 0, pos, 0);
      forall i | 0 <= i < |g[t].slots| ensures HollowSlot(g, g[t].slots[i], Count(v) - 1) {
        assert HollowSlot(g, g[t].slots[i], CountAll(v.kids));
      }
    }
  }

  lemma {:induction false} SlotsHollow(g: Types, b: Buffer, c: Compiled, vs: seq<Val>, i: nat, base: nat, heap: nat)
    requires Wire(g) && SlotsKnown(g, c) && i + |vs| == |c.slots| && HoldsMembers(Cut, g, b, c, vs, i, base, 0, heap)
    ensures forall k :: i <= k < |c.slots| ==> HollowSlot(g, c.slots[k], CountAll(vs))
    decreases CountAll(vs), 2
  {
    if vs != [] {
      var s := c.slots[i];
      SlotsHollow(g, b, c, vs[1..], i + 1, base, heap);
      if FixedSlot(g, s) {
        FixedHollow(g, b, s.target, vs[0], base + s.offset);
        HollowMore(g, s.target, Count(vs[0]), CountAll(vs));
      }
      forall k | i < k < |c.slots| ensures HollowSlot(g, c.slots[k], CountAll(vs)) {
        assert HollowSlot(g, c.slots[k], CountAll(vs[1..]));
        if FixedSlot(g, c.slots[k]) { HollowMore(g, c.slots[k].target, CountAll(vs[1..]), CountAll(vs)); }
      }
    }
  }

  /** Only a value of such a type has no bytes. */
  lemma HoldsPositive(g: Types, b: Buffer, t: nat, v: Val, pos: nat)
    requires Wire(g) && t in g && Holds(Cut, g, b, t, v, pos) && forall d :: !Hollow(g, t, d)
    ensures Length(Cut, g, t, v) > 0
  {
    var c := g[t];
    assert WireOk(g, c);
    assert !Hollow(g, t, Count(v));
    if !c.kind.Scalar? && !c.kind.Optional? {
      assert HoldsGroup(Cut, g, b, t, v, pos) && Length(Cut, g, t, v) == GroupLength(Cut, g, t, v);
      if v.Alt? {
        assert HoldsVariant(Cut, g, b, c, v, pos);
      } else {
        assert HoldsNode(Cut, g, b, c, v.kids, pos) && GroupLength(Cut, g, t, v) == NodeLength(Cut, g, c, v.kids);
        if c.kind.Object? { assert HoldsObject(Cut, g, b, c, v.kids, pos); }
        if c.kind.Struct? && Extent(Cut, c) == 0 { StructHollow(g, b, t, v, pos); }
      }
    }
  }

  lemma StructHollow(g: Types, b: Buffer, t: nat, v: Val, pos: nat)
    requires Wire(g) && t in g && g[t].kind.Struct? && Extent(Cut, g[t]) == 0 && v.Node?
             && HoldsStruct(Cut, g, b, g[t], v.kids, pos)
    ensures Hollow(g, t, Count(v))
  {
    SlotsHollow(g, b, g[t], v.kids, 0, pos, pos);
    forall i | 0 <= i < |g[t].slots| ensures HollowSlot(g, g[t].slots[i], Count(v) - 1) {
      assert HollowSlot(g, g[t].slots[i], CountAll(v.kids));
    }
  }

  // ----- running a reader to its end

  /** The heap is behind the fixed data, where pointers are read. */
  predicate Behind(b: Buffer, c: Compiled, start: nat, pos: nat) {
    c.variable ==>
      if c.kind.Object? then start + 2 <= |b| ==> start + 2 + U16(b, start) <= pos
      else start + Extent(Cut, c) <= pos
  }

  /** What the members from `i` on are found to be. */
  predicate MembersRead(g: Types, b: Buffer, c: Compiled, vs: seq<Val>, i: nat, start: nat, last: bool, pos: nat)
    requires Wire(g) && SlotsKnown(g, c)
  {
    && (c.kind.Object? ==> start + 2 <= |b|)
    && var (n, base) := FixedPart(b, c, start);
       && base + n <= |b| && n <= c.size && i + |vs| == |c.slots|
       && HoldsMembers(Cut, g, b, c, vs, i, base, n, pos)
       && (c.kind.Object? ==> LastHasValue(g, c, vs, i, n, last))
  }

  /** What one member puts behind the fixed data. */
  function MemberLength(g: Types, s: Slot, v: Val): nat
    requires Wire(g) && s.target in g
  {
    if FixedSlot(g, s) then 0 else TargetLength(Cut, g, s.target, s.optional, v)
  }

  /** An optional member beyond the fixed data. */
  predicate Beyond(s: Slot, n: nat) { s.optional && s.offset >= n }

  predicate HoldsMember(g: Types, b: Buffer, s: Slot, v: Val, base: nat, n: nat, heap: nat)
    requires Wire(g) && s.target in g
  {
    if FixedSlot(g, s) then s.offset + g[s.target].size <= n && HoldsFixed(Cut, g, b, s.target, v, base + s.offset)
    else if Beyond(s, n) then v == Nil
    else s.offset + 4 <= n && HoldsPointer(Cut, g, b, s.target, s.optional, v, base + s.offset, heap)
  }

  function NextLast(g: Types, s: Slot, v: Val, n: nat, last: bool): bool
    requires s.target in g
  {
    if FixedSlot(g, s) || Beyond(s, n) then last else v != Nil
  }

  /** What the next member is found to be. */
  predicate MemberRead(g: Types, b: Buffer, ps: seq<Parser>, ts: seq<Token>, i: nat, below: seq<Frame>, f: Frame,
                       pos: nat, end: nat, v: Val, k: nat)
    requires Wire(g) && |ps| == |ts| + 1 && f.ObjectF? && f.t in g && f.index < |g[f.t].slots|
  {
    var c, s := g[f.t], g[f.t].slots[f.index];
    && i < k <= |ts| && [ts[i]] + ts[i + 1..k] == Tokens(v, 0)
    && (c.kind.Object? ==> f.start + 2 <= |b|)
    && var (n, base) := FixedPart(b, c, f.start);
       && HoldsMember(g, b, s, v, base, n, pos)
       && ps[k] == Parser(pos + MemberLength(g, s, v), end,
                          below + [ObjectF(f.t, f.start, f.index + 1, NextLast(g, s, v, n, f.last))])
  }

  /** A member in place. */
  lemma {:induction false} RunFixedMember(g: Types, b: Buffer, ps: seq<Parser>, ts: seq<Token>, i: nat,
                                          below: seq<Frame>, f: Frame, pos: nat, end: nat) returns (v: Val, k: nat)
    requires Wire(g) && NestedSized(g) && Trace(g, b, ps, ts) && i <= |ts| && f.ObjectF? && f.t in g && end <= |b|
             && f.index < |g[f.t].slots|
    requires FixedSlot(g, g[f.t].slots[f.index]) && ps[i] == Parser(pos, end, below + [f])
    ensures MemberRead(g, b, ps, ts, i, below, f, pos, end, v, k)
    decreases |ts| - i, 0, 0
  {
    StepOf(g, b, ps, ts, i, below, f, pos, end);
    var s := g[f.t].slots[f.index];
    var (n, base) := FixedPart(b, g[f.t], f.start);
    v, k := RunFixed(g, b, ps, ts, i + 1, below + [ObjectF(f.t, f.start, f.index + 1, f.last)], s.target,
                     base + s.offset, pos, end);
  }

  /** A member that is not in place has fixed data to look at. */
  lemma PartRead(g: Types, b: Buffer, ps: seq<Parser>, ts: seq<Token>, i: nat, below: seq<Frame>, f: Frame, pos: nat,
                 end: nat)
    requires Wire(g) && Trace(g, b, ps, ts) && i <= |ts| && f.ObjectF? && f.t in g && end <= |b|
    requires ps[i] == Parser(pos, end, below + [f])
    ensures i < |ts| && (g[f.t].kind.Object? ==> f.start + 2 <= |b|)
    ensures var (n, base) := FixedPart(b, g[f.t], f.start); base + n <= |b|
  {
    StepOf(g, b, ps, ts, i, below, f, pos, end);
  }

  /** A member that is left out. */
  lemma StepBeyond(g: Types, b: Buffer, ps: seq<Parser>, ts: seq<Token>, i: nat, below: seq<Frame>, f: Frame, pos: nat,
                   end: nat, n: nat, base: nat)
    requires Wire(g) && Trace(g, b, ps, ts) && i <= |ts| && f.ObjectF? && f.t in g && end <= |b|
             && f.index < |g[f.t].slots|
    requires (g[f.t].kind.Object? ==> f.start + 2 <= |b|) && (n, base) == FixedPart(b, g[f.t], f.start)
             && base + n <= |b|
    requires !FixedSlot(g, g[f.t].slots[f.index]) && Beyond(g[f.t].slots[f.index], n)
             && ps[i] == Parser(pos, end, below + [f])
    ensures i < |ts| && ts[i] == Token(EmptyItem, [], 0)
    ensures ps[i + 1] == Parser(pos, end, below + [ObjectF(f.t, f.start, f.index + 1, f.last)])
  {
    StepOf(g, b, ps, ts, i, below, f, pos, end);
    assert forall s: seq<Frame> :: s + [] == s;
  }

  /** A member behind a pointer. */
  lemma {:induction false} RunPointed(g: Types, b: Buffer, ps: seq<Parser>, ts: seq<Token>, i: nat, below: seq<Frame>,
                                      f: Frame, pos: nat, end: nat, n: nat, base: nat) returns (v: Val, k: nat)
    requires Wire(g) && NestedSized(g) && Trace(g, b, ps, ts) && i <= |ts| && f.ObjectF? && f.t in g && end <= |b|
    requires f.index < |g[f.t].slots| && (g[f.t].kind.Object? ==> f.start + 2 <= |b|)
    requires (n, base) == FixedPart(b, g[f.t], f.start) && base + n <= |b| && base + n <= pos
    requires !FixedSlot(g, g[f.t].slots[f.index]) && !Beyond(g[f.t].slots[f.index], n)
             && ps[i] == Parser(pos, end, below + [f])
    ensures i < k <= |ts| && [ts[i]] + ts[i + 1..k] == Tokens(v, 0)
    ensures var s := g[f.t].slots[f.index];
            && s.offset + 4 <= n && HoldsPointer(Cut, g, b, s.target, s.optional, v, base + s.offset, pos)
            && ps[k] == Parser(pos + TargetLength(Cut, g, s.target, s.optional, v), end,
                               below + [ObjectF(f.t, f.start, f.index + 1, v != Nil)])
    decreases |ts| - i, 0, 0
  {
    StepOf(g, b, ps, ts, i, below, f, pos, end);
    var s := g[f.t].slots[f.index];
    var out := Deref(g, b, pos, end, base + s.offset, base + n, s.target, s.optional);
    var f' := ObjectF(f.t, f.start, f.index + 1, out.kind != EmptyItem);
    v, k := RunDeref(g, b, ps, ts, i + 1, below + [f'], pos, end, base + s.offset, base + n, s.target, s.optional, 0);
  }

  lemma {:induction false} RunPointerMember(g: Types, b: Buffer, ps: seq<Parser>, ts: seq<Token>, i: nat,
                                            below: seq<Frame>, f: Frame, pos: nat, end: nat) returns (v: Val, k: nat)
    requires Wire(g) && NestedSized(g) && Trace(g, b, ps, ts) && i <= |ts| && f.ObjectF? && f.t in g && end <= |b|
             && f.index < |g[f.t].slots|
    requires !FixedSlot(g, g[f.t].slots[f.index]) && g[f.t].variable && Behind(b, g[f.t], f.start, pos)
    requires ps[i] == Parser(pos, end, below + [f])
    ensures MemberRead(g, b, ps, ts, i, below, f, pos, end, v, k)
    decreases |ts| - i, 0, 1
  {
    PartRead(g, b, ps, ts, i, below, f, pos, end);
    var (n, base) := FixedPart(b, g[f.t], f.start);
    if Beyond(g[f.t].slots[f.index], n) {
      StepBeyond(g, b, ps, ts, i, below, f, pos, end, n, base);
      v, k := Nil, i + 1;
    } else {
      v, k := RunPointed(g, b, ps, ts, i, below, f, pos, end, n, base);
    }
  }

  /** The value of the next member. */
  lemma {:induction false} RunMember(g: Types, b: Buffer, ps: seq<Parser>, ts: seq<Token>, i: nat, below: seq<Frame>,
                                     f: Frame, pos: nat, end: nat) returns (v: Val, k: nat)
    requires Wire(g) && NestedSized(g) && Trace(g, b, ps, ts) && i <= |ts| && f.ObjectF? && f.t in g && end <= |b|
             && f.index < |g[f.t].slots|
    requires (g[f.t].kind.Object? || g[f.t].kind.Struct?) && Behind(b, g[f.t], f.start, pos)
    requires ps[i] == Parser(pos, end, below + [f])
    ensures MemberRead(g, b, ps, ts, i, below, f, pos, end, v, k)
    decreases |ts| - i, 0, 2
  {
    assert WireOk(g, g[f.t]);
    if FixedSlot(g, g[f.t].slots[f.index]) {
      v, k := RunFixedMember(g, b, ps, ts, i, below, f, pos, end);
    } else {
      v, k := RunPointerMember(g, b, ps, ts, i, below, f, pos, end);
    }
  }

  lemma MembersCons(g: Types, b: Buffer, c: Compiled, v: Val, vs: seq<Val>, i: nat, base: nat, n: nat, heap: nat,
                    last: bool)
    requires Wire(g) && SlotsKnown(g, c) && i < |c.slots| && HoldsMember(g, b, c.slots[i], v, base, n, heap)
    requires HoldsMembers(Cut, g, b, c, vs, i + 1, base, n, heap + MemberLength(g, c.slots[i], v))
    ensures HoldsMembers(Cut, g, b, c, [v] + vs, i, base, n, heap)
    ensures MembersLength(Cut, g, c, [v] + vs, i)
            == MemberLength(g, c.slots[i], v) + MembersLength(Cut, g, c, vs, i + 1)
    ensures LastHasValue(g, c, [v] + vs, i, n, last)
            == LastHasValue(g, c, vs, i + 1, n, NextLast(g, c.slots[i], v, n, last))
  {
    assert ([v] + vs)[1..] == vs;
  }

  lemma RunNoMore(g: Types, b: Buffer, ps: seq<Parser>, ts: seq<Token>, i: nat, below: seq<Frame>, f: Frame, pos: nat,
                  end: nat)
    requires Wire(g) && Trace(g, b, ps, ts) && i <= |ts| && f.ObjectF? && f.t in g && end <= |b|
             && f.index == |g[f.t].slots|
    requires ps[i] == Parser(pos, end, below + [f])
    ensures i < |ts| && ts[i] == END && ps[i + 1] == Parser(pos, end, below)
    ensures MembersRead(g, b, g[f.t], [], f.index, f.start, f.last, pos)
  {
    StepOf(g, b, ps, ts, i, below, f, pos, end);
  }

  /** The values of the remaining members. */
  lemma {:induction false} RunObject(g: Types, b: Buffer, ps: seq<Parser>, ts: seq<Token>, i: nat, below: seq<Frame>,
                                     f: Frame, pos: nat, end: nat) returns (vs: seq<Val>, j: nat)
    requires Wire(g) && NestedSized(g) && Trace(g, b, ps, ts) && i <= |ts| && f.ObjectF? && f.t in g && end <= |b|
             && f.index <= |g[f.t].slots|
    requires (g[f.t].kind.Object? || g[f.t].kind.Struct?) && Behind(b, g[f.t], f.start, pos)
    requires ps[i] == Parser(pos, end, below + [f])
    ensures MembersRead(g, b, g[f.t], vs, f.index, f.start, f.last, pos)
    ensures i <= j <= |ts| && ts[i..j] == TokensAll(vs) + [END]
    ensures ps[j] == Parser(pos + MembersLength(Cut, g, g[f.t], vs, f.index), end, below)
    decreases |ts| - i, 1
  {
    var c := g[f.t];
    if f.index == |c.slots| {
      RunNoMore(g, b, ps, ts, i, below, f, pos, end);
      vs, j := [], i + 1;
      assert ts[i..j] == [] + [END];
    } else {
      var s := c.slots[f.index];
      var v, k := RunMember(g, b, ps, ts, i, below, f, pos, end);
      var (n, base) := FixedPart(b, c, f.start);
      var f' := ObjectF(f.t, f.start, f.index + 1, NextLast(g, s, v, n, f.last));
      var vs';
      vs', j := RunObject(g, b, ps, ts, k, below, f', pos + MemberLength(g, s, v), end);
      MembersCons(g, b, c, v, vs', f.index, base, n, pos, f.last);
      Sequel(v, vs', ts, i, k, j);
      vs := [v] + vs';
    }
  }

  /** The items of the first value, and then those of the others. */
  lemma Sequel(v: Val, vs: seq<Val>, ts: seq<Token>, i: nat, k: nat, j: nat)
    requires i < k <= j <= |ts| && [ts[i]] + ts[i + 1..k] == Tokens(v, 0) && ts[k..j] == TokensAll(vs) + [END]
    ensures ts[i..j] == TokensAll([v] + vs) + [END]
  {
    Glue(ts, i, k, j, Tokens(v, 0), TokensAll(vs), [END]);
    assert ([v] + vs)[1..] == vs;
  }

  lemma Glue<T>(s: seq<T>, i: nat, k: nat, j: nat, x: seq<T>, y: seq<T>, z: seq<T>)
    requires i < k <= j <= |s| && [s[i]] + s[i + 1..k] == x && s[k..j] == y + z
    ensures s[i..j] == (x + y) + z
  {
    assert s[i..j] == ([s[i]] + s[i + 1..k]) + s[k..j];
  }

  predicate HoldsElement(g: Types, b: Buffer, s: Slot, v: Val, pos: nat, heap: nat)
    requires Wire(g) && s.target in g
  {
    if FixedSlot(g, s) then HoldsFixed(Cut, g, b, s.target, v, pos)
    else HoldsPointer(Cut, g, b, s.target, s.optional, v, pos, heap)
  }

  /** The value of the next element. */
  lemma {:induction false} RunElement(g: Types, b: Buffer, ps: seq<Parser>, ts: seq<Token>, i: nat, below: seq<Frame>,
                                      f: Frame, pos: nat, end: nat) returns (v: Val, k: nat)
    requires Wire(g) && NestedSized(g) && Trace(g, b, ps, ts) && i <= |ts| && f.ArrayF? && f.t in g && end <= |b|
             && |g[f.t].slots| == 1
    requires (FixedSlot(g, g[f.t].slots[0]) || f.stop <= pos) && f.pos != f.stop
    requires ps[i] == Parser(pos, end, below + [f])
    ensures i < k <= |ts| && [ts[i]] + ts[i + 1..k] == Tokens(v, 0)
    ensures var s := g[f.t].slots[0];
            && HoldsElement(g, b, s, v, f.pos, pos)
            && ps[k] == Parser(pos + MemberLength(g, s, v), end, below + [ArrayF(f.t, f.pos + Inline(g, s), f.stop)])
    decreases |ts| - i, 0
  {
    var got := ReadArray(g, b, f, pos, end);
    StepOf(g, b, ps, ts, i, below, f, pos, end);
    var s, f' := g[f.t].slots[0], got.frame;
    if FixedSlot(g, s) {
      v, k := RunFixed(g, b, ps, ts, i + 1, below + [f'], s.target, f.pos, pos, end);
    } else {
      v, k := RunDeref(g, b, ps, ts, i + 1, below + [f'], pos, end, f.pos, f.stop, s.target, s.optional, 0);
    }
  }

  lemma ElementsCons(g: Types, b: Buffer, c: Compiled, v: Val, vs: seq<Val>, pos: nat, heap: nat)
    requires Wire(g) && SlotsKnown(g, c) && |c.slots| == 1 && HoldsElement(g, b, c.slots[0], v, pos, heap)
    requires HoldsElements(Cut, g, b, c, vs, pos + Inline(g, c.slots[0]), heap + MemberLength(g, c.slots[0], v))
    ensures HoldsElements(Cut, g, b, c, [v] + vs, pos, heap)
    ensures ElementsLength(Cut, g, c, [v] + vs) == MemberLength(g, c.slots[0], v) + ElementsLength(Cut, g, c, vs)
  {
    assert ([v] + vs)[1..] == vs;
  }

  /** The values of the remaining elements. */
  lemma {:induction false} RunArray(g: Types, b: Buffer, ps: seq<Parser>, ts: seq<Token>, i: nat, below: seq<Frame>,
                                    f: Frame, pos: nat, end: nat) returns (vs: seq<Val>, j: nat)
    requires Wire(g) && NestedSized(g) && Trace(g, b, ps, ts) && i <= |ts| && f.ArrayF? && f.t in g && end <= |b|
             && |g[f.t].slots| == 1
    requires FixedSlot(g, g[f.t].slots[0]) || f.stop <= pos || f.pos == f.stop
    requires ps[i] == Parser(pos, end, below + [f])
    ensures f.pos + |vs| * Inline(g, g[f.t].slots[0]) == f.stop && HoldsElements(Cut, g, b, g[f.t], vs, f.pos, pos)
    ensures i <= j <= |ts| && ts[i..j] == TokensAll(vs) + [END]
    ensures ps[j] == Parser(pos + ElementsLength(Cut, g, g[f.t], vs), end, below)
    ensures f.pos == f.stop ==> vs == []
    decreases |ts| - i, 1
  {
    var c := g[f.t];
    if f.pos == f.stop {
      StepOf(g, b, ps, ts, i, below, f, pos, end);
      vs, j := [], i + 1;
      assert ts[i..j] == [] + [END];
    } else {
      var v, k := RunElement(g, b, ps, ts, i, below, f, pos, end);
      var s := c.slots[0];
      var vs';
      vs', j := RunArray(g, b, ps, ts, k, below, ArrayF(f.t, f.pos + Inline(g, s), f.stop), pos + MemberLength(g, s, v),
                         end);
      ElementsCons(g, b, c, v, vs', f.pos, pos);
      Sequel(v, vs', ts, i, k, j);
      vs := [v] + vs';
      OneLess(|vs|, Inline(g, s));
    }
  }

  lemma {:induction false} RunFixed(g: Types, b: Buffer, ps: seq<Parser>, ts: seq<Token>, i: nat, below: seq<Frame>,
                                    t: nat, at: nat, pos: nat, end: nat) returns (v: Val, j: nat)
    requires Wire(g) && NestedSized(g) && Trace(g, b, ps, ts) && i <= |ts| && t in g && end <= |b| && !g[t].variable
             && ParseFixed(g, b, t, at, pos).Out?
    requires ps[i] == Parser(pos, end, below + ParseFixed(g, b, t, at, pos).pushed)
    ensures i <= j <= |ts| && ps[j] == Parser(pos, end, below) && HoldsFixed(Cut, g, b, t, v, at)
    ensures var out := ParseFixed(g, b, t, at, pos); [Token(out.kind, out.data, 0)] + ts[i..j] == Tokens(v, 0)
    decreases |ts| - i, 4
  {
    assert WireOk(g, g[t]);
    var out := ParseFixed(g, b, t, at, pos);
    if g[t].kind.Scalar? {
      v, j := Leaf(out.data), i;
      assert below + [] == below;
    } else if g[t].kind.Struct? {
      var kids;
      kids, j := RunObject(g, b, ps, ts, i, below, ObjectF(t, at, 0, true), pos, end);
      v := Node(kids);
      MembersNoHeap(g, b, g[t], kids, 0, at, Extent(Cut, g[t]), pos);
    } else {
      var kids;
      kids, j := RunArray(g, b, ps, ts, i, below, ArrayF(t, at, at + g[t].size), pos, end);
      v := Node(kids);
      ElementsNoHeap(g, b, g[t], kids, at, pos);
    }
  }

  lemma {:induction false} RunDeref(g: Types, b: Buffer, ps: seq<Parser>, ts: seq<Token>, i: nat, below: seq<Frame>,
                                    pos: nat, end: nat, fixed: nat, fixedEnd: nat, t: nat, optional: bool, index: nat)
                                    returns (v: Val, j: nat)
    requires Wire(g) && NestedSized(g) && Trace(g, b, ps, ts) && i <= |ts| && t in g && end <= |b| && fixedEnd <= |b|
             && fixed <= fixedEnd && fixed != pos
    requires Deref(g, b, pos, end, fixed, fixedEnd, t, optional).Out?
    requires var out := Deref(g, b, pos, end, fixed, fixedEnd, t, optional);
             ps[i] == Parser(out.pos, end, below + out.pushed)
    ensures i <= j <= |ts| && ps[j] == Parser(pos + TargetLength(Cut, g, t, optional, v), end, below)
    ensures HoldsPointer(Cut, g, b, t, optional, v, fixed, pos)
    ensures var out := Deref(g, b, pos, end, fixed, fixedEnd, t, optional);
            [Token(out.kind, out.data, index)] + ts[i..j] == Tokens(v, index) && (out.kind != EmptyItem <==> v != Nil)
    decreases |ts| - i, 4
  {
    assert WireOk(g, g[t]);
    var out := Deref(g, b, pos, end, fixed, fixedEnd, t, optional);
    var offset := U32(b, fixed);
    assert below + [] == below;
    if optional && offset == 1 {
      v, j := Nil, i;
    } else if g[t].kind.Scalar? {
      v, j := Leaf(out.data), i;
    } else if offset == 0 {
      var kids;
      kids, j := RunArray(g, b, ps, ts, i, below, ArrayF(t, fixed, fixed), pos, end);
      v := Node([]);
    } else {
      v, j := RunPush(g, b, ps, ts, i, below, t, pos, end, true);
    }
  }

  lemma {:induction false} RunParse(g: Types, b: Buffer, ps: seq<Parser>, ts: seq<Token>, i: nat, below: seq<Frame>,
                                    t: nat, pos: nat, end: nat, index: nat) returns (v: Val, j: nat)
    requires Wire(g) && NestedSized(g) && Trace(g, b, ps, ts) && i <= |ts| && t in g && end <= |b|
             && pos <= end && Parse(g, b, t, pos, end).Out?
    requires var out := Parse(g, b, t, pos, end); ps[i] == Parser(out.pos, end, below + out.pushed)
    ensures i <= j <= |ts| && ps[j] == Parser(pos + Length(Cut, g, t, v), end, below) && Holds(Cut, g, b, t, v, pos)
    ensures var out := Parse(g, b, t, pos, end); [Token(out.kind, out.data, index)] + ts[i..j] == Tokens(v, index)
    decreases |ts| - i, 5
  {
    assert WireOk(g, g[t]);
    var out := Parse(g, b, t, pos, end);
    if g[t].kind.Scalar? {
      v, j := Leaf(out.data), i;
      assert below + [] == below;
    } else if g[t].kind.Optional? {
      v, j := RunDeref(g, b, ps, ts, i, below, pos + 4, end, pos, end, g[t].slots[0].target, true, index);
    } else {
      v, j := RunPush(g, b, ps, ts, i, below, t, pos, end, false);
    }
  }

  /** What a reader pushed for a group at `at` is found to read. */
  predicate GroupRead(g: Types, b: Buffer, ps: seq<Parser>, ts: seq<Token>, i: nat, below: seq<Frame>, t: nat, at: nat,
                      end: nat, v: Val, j: nat)
    requires Wire(g) && t in g && |ps| == |ts| + 1
  {
    && (v.Node? || v.Alt?) && i <= j <= |ts| && ts[i..j] == Tail(v)
    && HoldsGroup(Cut, g, b, t, v, at) && ps[j] == Parser(at + GroupLength(Cut, g, t, v), end, below)
  }

  lemma {:induction false} RunPushedObject(g: Types, b: Buffer, ps: seq<Parser>, ts: seq<Token>, i: nat,
                                           below: seq<Frame>, t: nat, at: nat, end: nat) returns (v: Val, j: nat)
    requires Wire(g) && NestedSized(g) && Trace(g, b, ps, ts) && i <= |ts| && t in g && end <= |b| && g[t].kind.Object?
             && at + 2 <= end
    requires ps[i] == Parser(at + 2 + U16(b, at), end, below + [ObjectF(t, at, 0, true)])
    ensures GroupRead(g, b, ps, ts, i, below, t, at, end, v, j) && v.Node?
    decreases |ts| - i, 2
  {
    var c, n := g[t], U16(b, at);
    assert WireOk(g, c);
    var kids;
    kids, j := RunObject(g, b, ps, ts, i, below, ObjectF(t, at, 0, true), at + 2 + n, end);
    v := Node(kids);
    FixedBytesAre(g, b, c, kids, 0, at + 2, n, at + 2 + n, true);
    assert HoldsObject(Cut, g, b, c, kids, at);
    assert HoldsNode(Cut, g, b, c, kids, at);
  }

  lemma {:induction false} RunPushedStruct(g: Types, b: Buffer, ps: seq<Parser>, ts: seq<Token>, i: nat,
                                           below: seq<Frame>, t: nat, at: nat, end: nat) returns (v: Val, j: nat)
    requires Wire(g) && NestedSized(g) && Trace(g, b, ps, ts) && i <= |ts| && t in g && end <= |b| && g[t].kind.Struct?
    requires at + Extent(Cut, g[t]) <= end
             && ps[i] == Parser(at + Extent(Cut, g[t]), end, below + [ObjectF(t, at, 0, true)])
    ensures GroupRead(g, b, ps, ts, i, below, t, at, end, v, j) && v.Node?
    decreases |ts| - i, 2
  {
    var c := g[t];
    var kids;
    kids, j := RunObject(g, b, ps, ts, i, below, ObjectF(t, at, 0, true), at + Extent(Cut, c), end);
    v := Node(kids);
    assert HoldsStruct(Cut, g, b, c, kids, at);
    assert HoldsNode(Cut, g, b, c, kids, at);
  }

  lemma {:induction false} RunPushedContainer(g: Types, b: Buffer, ps: seq<Parser>, ts: seq<Token>, i: nat,
                                              below: seq<Frame>, t: nat, at: nat, end: nat) returns (v: Val, j: nat)
    requires Wire(g) && NestedSized(g) && Trace(g, b, ps, ts) && i <= |ts| && t in g && g[t].kind.Container?
             && at + 4 <= end <= |b|
    requires at + 4 + U32(b, at) <= end && |g[t].slots| == 1 && Inline(g, g[t].slots[0]) > 0
    requires var stop := at + 4 + U32(b, at); ps[i] == Parser(stop, end, below + [ArrayF(t, at + 4, stop)])
    ensures GroupRead(g, b, ps, ts, i, below, t, at, end, v, j) && v.Node? && (U32(b, at) != 0 ==> v != Node([]))
    decreases |ts| - i, 2
  {
    var c, stop := g[t], at + 4 + U32(b, at);
    assert WireOk(g, c);
    var kids;
    kids, j := RunArray(g, b, ps, ts, i, below, ArrayF(t, at + 4, stop), stop, end);
    v := Node(kids);
    assert HoldsContainer(Cut, g, b, c, kids, at);
    assert HoldsNode(Cut, g, b, c, kids, at);
  }

  lemma {:induction false} RunPushedArray(g: Types, b: Buffer, ps: seq<Parser>, ts: seq<Token>, i: nat,
                                          below: seq<Frame>, t: nat, at: nat, end: nat) returns (v: Val, j: nat)
    requires Wire(g) && NestedSized(g) && Trace(g, b, ps, ts) && i <= |ts| && t in g && end <= |b| && g[t].kind.Array?
             && at + g[t].size <= end
    requires ps[i] == Parser(at + g[t].size, end, below + [ArrayF(t, at, at + g[t].size)])
    ensures GroupRead(g, b, ps, ts, i, below, t, at, end, v, j) && v.Node?
    decreases |ts| - i, 2
  {
    var c := g[t];
    assert WireOk(g, c);
    var kids;
    kids, j := RunArray(g, b, ps, ts, i, below, ArrayF(t, at, at + c.size), at + c.size, end);
    v := Node(kids);
    assert HoldsArray(Cut, g, b, c, kids, at);
    assert HoldsNode(Cut, g, b, c, kids, at);
  }

  lemma {:induction false} RunOption(g: Types, b: Buffer, ps: seq<Parser>, ts: seq<Token>, i: nat, below: seq<Frame>,
                                     t: nat, at: nat, end: nat) returns (v: Val, j: nat)
    requires Wire(g) && NestedSized(g) && Trace(g, b, ps, ts) && i <= |ts| && t in g && end <= |b|
             && g[t].kind.Optional?
    requires ps[i] == Parser(at, end, below + [OptionF(t, false)])
    ensures GroupRead(g, b, ps, ts, i, below, t, at, end, v, j) && v.Node?
    decreases |ts| - i, 2
  {
    var c, f' := g[t], OptionF(t, true);
    assert WireOk(g, c);
    StepOf(g, b, ps, ts, i, below, OptionF(t, false), at, end);
    var kid, k := RunDeref(g, b, ps, ts, i + 1, below + [f'], at + 4, end, at, end, c.slots[0].target, true, 0);
    StepOf(g, b, ps, ts, k, below, f', at + 4 + TargetLength(Cut, g, c.slots[0].target, true, kid), end);
    v, j := Node([kid]), k + 1;
    OneKid(kid, ts, i, k);
    assert CountOne([kid]) && HoldsNode(Cut, g, b, c, [kid], at);
  }

  lemma OneKid(kid: Val, ts: seq<Token>, i: nat, k: nat)
    requires i < k < |ts| && [ts[i]] + ts[i + 1..k] == Tokens(kid, 0) && ts[k] == END
    ensures ts[i..k + 1] == Tail(Node([kid]))
  {
    assert TokensAll([]) == [] && [kid][1..] == [];
    assert TokensAll([kid]) == Tokens(kid, 0) + [];
    assert ts[i..k + 1] == ([ts[i]] + ts[i + 1..k]) + [ts[k]];
  }

  function InnerFrom(b: Buffer, at: nat, end: nat): nat
    requires at + 4 <= |b|
  {
    if U32(b, at) == 0 then end else at + 4
  }

  /** What the reader of nested data does first. */
  lemma InnerGot(g: Types, b: Buffer, t: nat, at: nat, end: nat, got: Got)
    requires Wire(g) && t in g && end <= |b| && g[t].kind.Nested?
    requires got == ReadNested(g, b, NestedF(t, at, 0), at, end) && !got.Fail?
    ensures at + 4 <= end && got.Got? && got.out.Out? && got.index == 0 && got.frame == NestedF(t, at, end)
    ensures var from := InnerFrom(b, at, end);
            got.end == from + U32(b, at) <= end && got.out == Parse(g, b, g[t].slots[0].target, from, got.end)
  {}

  lemma StepInner(g: Types, b: Buffer, ps: seq<Parser>, ts: seq<Token>, i: nat, below: seq<Frame>, t: nat, at: nat,
                  end: nat)
    requires Wire(g) && Trace(g, b, ps, ts) && i <= |ts| && t in g && end <= |b| && g[t].kind.Nested?
    requires ps[i] == Parser(at, end, below + [NestedF(t, at, 0)])
    ensures at + 4 <= end && i < |ts|
    ensures var from := InnerFrom(b, at, end);
            var stop := from + U32(b, at);
            && stop <= end
            && var out := Parse(g, b, g[t].slots[0].target, from, stop);
               && out.Out? && ts[i] == Token(out.kind, out.data, 0)
               && ps[i + 1] == Parser(out.pos, stop, (below + [NestedF(t, at, end)]) + out.pushed)
  {
    StepOf(g, b, ps, ts, i, below, NestedF(t, at, 0), at, end);
    var got := Read(g, b, NestedF(t, at, 0), at, end);
    InnerGot(g, b, t, at, end, got);
  }

  lemma {:induction false} RunInner(g: Types, b: Buffer, ps: seq<Parser>, ts: seq<Token>, i: nat, below: seq<Frame>,
                                    t: nat, at: nat, end: nat) returns (kid: Val, k: nat, from: nat)
    requires Wire(g) && NestedSized(g) && Trace(g, b, ps, ts) && i <= |ts| && t in g && end <= |b| && g[t].kind.Nested?
    requires ps[i] == Parser(at, end, below + [NestedF(t, at, 0)])
    ensures at + 4 <= end && i < k <= |ts| && [ts[i]] + ts[i + 1..k] == Tokens(kid, 0)
    ensures from == InnerFrom(b, at, end) && from + U32(b, at) <= end
    ensures var u := g[t].slots[0].target;
            && Holds(Cut, g, b, u, kid, from)
            && ps[k] == Parser(from + Length(Cut, g, u, kid), from + U32(b, at), below + [NestedF(t, at, end)])
    decreases |ts| - i, 0
  {
    assert WireOk(g, g[t]);
    StepInner(g, b, ps, ts, i, below, t, at, end);
    from := InnerFrom(b, at, end);
    kid, k := RunParse(g, b, ps, ts, i + 1, below + [NestedF(t, at, end)], g[t].slots[0].target, from,
                       from + U32(b, at), 0);
  }

  lemma {:induction false} RunNested(g: Types, b: Buffer, ps: seq<Parser>, ts: seq<Token>, i: nat, below: seq<Frame>,
                                     t: nat, at: nat, end: nat) returns (v: Val, j: nat)
    requires Wire(g) && NestedSized(g) && Trace(g, b, ps, ts) && i <= |ts| && t in g && end <= |b| && g[t].kind.Nested?
    requires ps[i] == Parser(at, end, below + [NestedF(t, at, 0)])
    ensures GroupRead(g, b, ps, ts, i, below, t, at, end, v, j) && v.Node? && v != Node([])
    decreases |ts| - i, 2
  {
    assert WireOk(g, g[t]);
    var u := g[t].slots[0].target;
    var kid, k, from := RunInner(g, b, ps, ts, i, below, t, at, end);
    StepOf(g, b, ps, ts, k, below, NestedF(t, at, end), from + Length(Cut, g, u, kid), from + U32(b, at));
    assert ContentSized(g, t);
    HoldsPositive(g, b, u, kid, from);
    v, j := Node([kid]), k + 1;
    OneKid(kid, ts, i, k);
    assert CountOne([kid]) && HoldsNode(Cut, g, b, g[t], [kid], at);
  }

  lemma {:induction false} RunContent(g: Types, b: Buffer, ps: seq<Parser>, ts: seq<Token>, i: nat, below: seq<Frame>,
                                      t: nat, at: nat, end: nat) returns (tag: nat, kid: Val, k: nat)
    requires Wire(g) && NestedSized(g) && Trace(g, b, ps, ts) && i <= |ts| && t in g && end <= |b| && g[t].kind.Variant?
    requires ps[i] == Parser(at, end, below + [VariantF(t, 0)])
    ensures at + 5 <= end && tag < |g[t].slots| && tag < 128 && b[at] == tag && at + 5 + U32(b, at + 1) <= end
    ensures i < k <= |ts| && [ts[i]] + ts[i + 1..k] == Tokens(kid, tag)
    ensures var u, n := g[t].slots[tag].target, U32(b, at + 1);
            Holds(Cut, g, b, u, kid, at + 5)
              && ps[k] == Parser(at + 5 + Length(Cut, g, u, kid), at + 5 + n, below + [VariantF(t, end)])
    decreases |ts| - i, 0
  {
    StepOf(g, b, ps, ts, i, below, VariantF(t, 0), at, end);
    tag := b[at] as int;
    kid, k := RunParse(g, b, ps, ts, i + 1, below + [VariantF(t, end)], g[t].slots[tag].target, at + 5,
                       at + 5 + U32(b, at + 1), tag);
  }

  lemma {:induction false} RunVariant(g: Types, b: Buffer, ps: seq<Parser>, ts: seq<Token>, i: nat, below: seq<Frame>,
                                      t: nat, at: nat, end: nat) returns (v: Val, j: nat)
    requires Wire(g) && NestedSized(g) && Trace(g, b, ps, ts) && i <= |ts| && t in g && end <= |b| && g[t].kind.Variant?
    requires ps[i] == Parser(at, end, below + [VariantF(t, 0)])
    ensures GroupRead(g, b, ps, ts, i, below, t, at, end, v, j) && v.Alt?
    decreases |ts| - i, 2
  {
    var tag, kid, k := RunContent(g, b, ps, ts, i, below, t, at, end);
    var n, u := U32(b, at + 1), g[t].slots[tag].target;
    StepOf(g, b, ps, ts, k, below, VariantF(t, end), at + 5 + Length(Cut, g, u, kid), at + 5 + n);
    v, j := Alt(tag, kid), k + 1;
    AltTail(tag, kid, ts, i, k);
    assert HoldsVariant(Cut, g, b, g[t], v, at);
  }

  lemma AltTail(tag: nat, kid: Val, ts: seq<Token>, i: nat, k: nat)
    requires i < k < |ts| && [ts[i]] + ts[i + 1..k] == Tokens(kid, tag) && ts[k] == END
    ensures ts[i..k + 1] == Tail(Alt(tag, kid))
  {
    assert ts[i..k + 1] == ([ts[i]] + ts[i + 1..k]) + [ts[k]];
  }

  /** A group, from the reader that is pushed for it. */
  lemma {:induction false} RunPush(g: Types, b: Buffer, ps: seq<Parser>, ts: seq<Token>, i: nat, below: seq<Frame>,
                                   t: nat, at: nat, end: nat, pointer: bool) returns (v: Val, j: nat)
    requires Wire(g) && NestedSized(g) && Trace(g, b, ps, ts) && i <= |ts| && t in g && end <= |b|
             && Push(g, b, t, at, end, pointer).Out?
    requires var out := Push(g, b, t, at, end, pointer); ps[i] == Parser(out.pos, end, below + out.pushed)
    ensures GroupRead(g, b, ps, ts, i, below, t, at, end, v, j)
    ensures var out := Push(g, b, t, at, end, pointer); out.kind == StartItem(v.Alt?) && out.data == []
    ensures pointer && IsContainer(g[t]) ==> v != Node([])
    decreases |ts| - i, 3
  {
    match g[t].kind
    case Object => v, j := RunPushedObject(g, b, ps, ts, i, below, t, at, end);
    case Struct => v, j := RunPushedStruct(g, b, ps, ts, i, below, t, at, end);
    case Nested => v, j := RunNested(g, b, ps, ts, i, below, t, at, end);
    case Container => v, j := RunPushedContainer(g, b, ps, ts, i, below, t, at, end);
    case Array => v, j := RunPushedArray(g, b, ps, ts, i, below, t, at, end);
    case Optional => v, j := RunOption(g, b, ps, ts, i, below, t, at, end);
    case Variant => v, j := RunVariant(g, b, ps, ts, i, below, t, at, end);
    case _ =>
  }

  // ----- the only encoding

  /** A valid buffer, when fixed data reaches its pointers, is exactly the encoding of the value that its items
      describe. */
  lemma ValidHolds(g: Types, b: Buffer, root: nat, ts: seq<Token>) returns (v: Val)
    requires Wire(g) && NestedSized(g) && root in g && Proper(g, b, root, ts)
    ensures ts == Tokens(v, 0) && Holds(Cut, g, b, root, v, 0) && Length(Cut, g, root, v) == |b|
  {
    var out := Parse(g, b, root, 0, |b|);
    var token := Token(out.kind, out.data, 0);
    var p := Parser(out.pos, |b|, out.pushed + [ItemF(token)]);
    SaneStart(g, b, root, p);
    var ps := TraceOf(g, b, p, ts);
    assert StepAt(g, b, ps, ts, 0);
    assert ps[0].stack[..|ps[0].stack| - 1] == [] + out.pushed;
    var j;
    v, j := RunParse(g, b, ps, ts, 1, [], root, 0, |b|, 0);
    assert j < |ts| ==> StepAt(g, b, ps, ts, j);
    assert ts == [ts[0]] + ts[1..j];
  }

  /** Two such buffers with the same items are the same buffer. */
  lemma ValidIsCanonical(g: Types, b: Buffer, b': Buffer, root: nat, ts: seq<Token>)
    requires Wire(g) && NestedSized(g) && root in g && Proper(g, b, root, ts) && Proper(g, b', root, ts)
    ensures b == b'
  {
    var v := ValidHolds(g, b, root, ts);
    var v' := ValidHolds(g, b', root, ts);
    assert Tokens(v, 0) + [] == Tokens(v', 0) + [];
    TokensPrefix(v, v', 0, [], []);
    Unique(Cut, g, b, b', root, v, 0);
    forall i | 0 <= i < |b| ensures b[i] == b'[i] { assert SameAt(b, b', i); }
  }
}
