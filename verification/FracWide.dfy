/** Structs of 65536 bytes or more, of whose size the reader keeps 16 bits. */
module FracWide {
  import opened Leb128
  import opened SchemaMatch
  import opened SchemaLayout
  import opened FracWire
  import opened FracMachine
  import opened FracCanonical
  import opened FracComplete
  import FracGap
  import FracSchema
  import SchemaCompile

  // ----- values all of whose structs are smaller

  predicate Narrow(g: Types, t: nat, v: Val)
    requires Wire(g) && t in g
    decreases Count(v), 5
  {
    if g[t].kind.Scalar? then true
    else if g[t].kind.Optional? then NarrowTarget(g, g[t].slots[0].target, true, v)
    else NarrowGroup(g, t, v)
  }

  predicate NarrowTarget(g: Types, t: nat, optional: bool, v: Val)
    requires Wire(g) && t in g
    decreases Count(v), 4
  {
    (optional && v == Nil) || g[t].kind.Scalar? || NarrowGroup(g, t, v)
  }

  predicate NarrowGroup(g: Types, t: nat, v: Val)
    requires Wire(g) && t in g
    decreases Count(v), 3
  {
    match v
    case Node(kids) => NarrowNode(g, g[t], kids)
    case Alt(tag, kid) => g[t].kind.Variant? && tag < |g[t].slots| ==> Narrow(g, g[t].slots[tag].target, kid)
    case _ => true
  }

  predicate NarrowNode(g: Types, c: Compiled, kids: seq<Val>)
    requires Wire(g) && WireOk(g, c)
    decreases CountAll(kids), 8
  {
    match c.kind
    case Struct => c.size < 0x1_0000 && NarrowMembers(g, c, kids, 0)
    case Object => NarrowMembers(g, c, kids, 0)
    case Container => NarrowElements(g, c, kids)
    case Array => NarrowElements(g, c, kids)
    case Optional => |kids| == 1 && CountOne(kids) ==> NarrowTarget(g, c.slots[0].target, true, kids[0])
    case Nested => |kids| == 1 && CountOne(kids) ==> Narrow(g, c.slots[0].target, kids[0])
    case _ => true
  }

  predicate NarrowFixed(g: Types, t: nat, v: Val)
    requires Wire(g) && t in g
    decreases Count(v), 3
  {
    match v
    case Node(kids) =>
      (match g[t].kind
       case Struct => g[t].size < 0x1_0000 && NarrowMembers(g, g[t], kids, 0)
       case Array => NarrowElements(g, g[t], kids)
       case _ => true)
    case _ => true
  }

  predicate NarrowSlot(g: Types, s: Slot, v: Val)
    requires Wire(g) && s.target in g
    decreases Count(v), 5
  {
    if FixedSlot(g, s) then NarrowFixed(g, s.target, v) else NarrowTarget(g, s.target, s.optional, v)
  }

  predicate NarrowMembers(g: Types, c: Compiled, vs: seq<Val>, i: nat)
    requires Wire(g) && SlotsKnown(g, c)
    decreases CountAll(vs), 6
  {
    vs == [] || i >= |c.slots| || (NarrowSlot(g, c.slots[i], vs[0]) && NarrowMembers(g, c, vs[1..], i + 1))
  }

  predicate NarrowElements(g: Types, c: Compiled, vs: seq<Val>)
    requires Wire(g) && SlotsKnown(g, c) && |c.slots| == 1
    decreases CountAll(vs), 6
  {
    vs == [] || (NarrowSlot(g, c.slots[0], vs[0]) && NarrowElements(g, c, vs[1..]))
  }

  // ----- the two readings of a value

  /** The readings agree on a narrow value; and on any other the cut one is shorter. */
  ghost predicate Agree(narrow: bool, cut: bool, whole: bool, short: nat, long: nat) {
    short <= long && (narrow ==> short == long && cut == whole) && (cut && short == long ==> narrow)
  }

  lemma VariantIs(w: Reading, g: Types, b: Buffer, t: nat, v: Val, pos: nat)
    requires Wire(g) && t in g && v.Alt?
    ensures HoldsGroup(w, g, b, t, v, pos) == HoldsVariant(w, g, b, g[t], v, pos)
    ensures g[t].kind.Variant? && v.tag < |g[t].slots| ==>
              GroupLength(w, g, t, v) == 5 + Length(w, g, g[t].slots[v.tag].target, v.kid)
  {}

  lemma NestedIs(w: Reading, g: Types, b: Buffer, c: Compiled, kids: seq<Val>, pos: nat)
    requires Wire(g) && WireOk(g, c) && c.kind.Nested? && |kids| == 1
    ensures HoldsNode(w, g, b, c, kids, pos) == HoldsNested(w, g, b, c.slots[0].target, kids[0], pos)
    ensures NodeLength(w, g, c, kids) == 4 + Length(w, g, c.slots[0].target, kids[0])
  {
    assert CountOne(kids);
  }

  lemma MembersAre(w: Reading, g: Types, b: Buffer, c: Compiled, vs: seq<Val>, i: nat, base: nat, n: nat, heap: nat)
    requires Wire(g) && SlotsKnown(g, c) && vs != [] && i < |c.slots|
    ensures var s := c.slots[i];
            var length := if FixedSlot(g, s) then 0 else TargetLength(w, g, s.target, s.optional, vs[0]);
            && MembersLength(w, g, c, vs, i) == length + MembersLength(w, g, c, vs[1..], i + 1)
            && HoldsMembers(w, g, b, c, vs, i, base, n, heap) ==
                 if FixedSlot(g, s) then
                   && s.offset + g[s.target].size <= n && HoldsFixed(w, g, b, s.target, vs[0], base + s.offset)
                   && HoldsMembers(w, g, b, c, vs[1..], i + 1, base, n, heap)
                 else if s.optional && s.offset >= n then
                   vs[0] == Nil && HoldsMembers(w, g, b, c, vs[1..], i + 1, base, n, heap)
                 else
                   && s.offset + 4 <= n && HoldsPointer(w, g, b, s.target, s.optional, vs[0], base + s.offset, heap)
                   && HoldsMembers(w, g, b, c, vs[1..], i + 1, base, n, heap + length)
  {}

  lemma ElementsAre(w: Reading, g: Types, b: Buffer, c: Compiled, vs: seq<Val>, pos: nat, heap: nat)
    requires Wire(g) && SlotsKnown(g, c) && |c.slots| == 1 && vs != []
    ensures var s := c.slots[0];
            var length := if FixedSlot(g, s) then 0 else TargetLength(w, g, s.target, s.optional, vs[0]);
            && ElementsLength(w, g, c, vs) == length + ElementsLength(w, g, c, vs[1..])
            && HoldsElements(w, g, b, c, vs, pos, heap) ==
                 (&& (if FixedSlot(g, s) then HoldsFixed(w, g, b, s.target, vs[0], pos)
                      else HoldsPointer(w, g, b, s.target, s.optional, vs[0], pos, heap))
                  && HoldsElements(w, g, b, c, vs[1..], pos + Inline(g, s), heap + length))
  {}

  lemma {:induction false} Compare(g: Types, b: Buffer, t: nat, v: Val, pos: nat)
    requires Wire(g) && t in g
    ensures Agree(Narrow(g, t, v), Holds(Cut, g, b, t, v, pos), Holds(Whole, g, b, t, v, pos),
                  Length(Cut, g, t, v), Length(Whole, g, t, v))
    decreases Count(v), 5
  {
    if g[t].kind.Scalar? {
    } else if g[t].kind.Optional? {
      ComparePointer(g, b, g[t].slots[0].target, true, v, pos, pos + 4);
    } else {
      CompareGroup(g, b, t, v, pos);
    }
  }

  lemma {:induction false} ComparePointer(g: Types, b: Buffer, t: nat, optional: bool, v: Val, fixed: nat, heap: nat)
    requires Wire(g) && t in g
    ensures Agree(NarrowTarget(g, t, optional, v), HoldsPointer(Cut, g, b, t, optional, v, fixed, heap),
                  HoldsPointer(Whole, g, b, t, optional, v, fixed, heap),
                  TargetLength(Cut, g, t, optional, v), TargetLength(Whole, g, t, optional, v))
    decreases Count(v), 4
  {
    assert WireOk(g, g[t]);
    CompareGroup(g, b, t, v, heap);
  }

  lemma {:induction false} CompareGroup(g: Types, b: Buffer, t: nat, v: Val, pos: nat)
    requires Wire(g) && t in g
    ensures Agree(NarrowGroup(g, t, v), HoldsGroup(Cut, g, b, t, v, pos), HoldsGroup(Whole, g, b, t, v, pos),
                  GroupLength(Cut, g, t, v), GroupLength(Whole, g, t, v))
    decreases Count(v), 3
  {
    match v
    case Node(kids) => CompareNode(g, b, g[t], kids, pos);
    case Alt(tag, kid) =>
      VariantIs(Cut, g, b, t, v, pos);
      VariantIs(Whole, g, b, t, v, pos);
      if g[t].kind.Variant? && tag < |g[t].slots| { Compare(g, b, g[t].slots[tag].target, kid, pos + 5); }
    case _ =>
  }

  lemma {:induction false} CompareNode(g: Types, b: Buffer, c: Compiled, kids: seq<Val>, pos: nat)
    requires Wire(g) && WireOk(g, c)
    ensures Agree(NarrowNode(g, c, kids), HoldsNode(Cut, g, b, c, kids, pos), HoldsNode(Whole, g, b, c, kids, pos),
                  NodeLength(Cut, g, c, kids), NodeLength(Whole, g, c, kids))
    decreases CountAll(kids), 8
  {
    match c.kind
    case Struct => CompareStruct(g, b, c, kids, pos);
    case Object => CompareObject(g, b, c, kids, pos);
    case Container => CompareList(g, b, c, kids, pos);
    case Array => CompareArray(g, b, c, kids, pos);
    case Optional =>
      if |kids| == 1 { assert CountOne(kids); ComparePointer(g, b, c.slots[0].target, true, kids[0], pos, pos + 4); }
    case Nested =>
      if |kids| == 1 { CompareNested(g, b, c, kids, pos); }
    case _ =>
  }

  lemma {:induction false} CompareNested(g: Types, b: Buffer, c: Compiled, kids: seq<Val>, pos: nat)
    requires Wire(g) && WireOk(g, c) && c.kind.Nested? && |kids| == 1
    ensures Agree(NarrowNode(g, c, kids), HoldsNode(Cut, g, b, c, kids, pos), HoldsNode(Whole, g, b, c, kids, pos),
                  NodeLength(Cut, g, c, kids), NodeLength(Whole, g, c, kids))
    decreases CountAll(kids), 7
  {
    assert CountOne(kids);
    Compare(g, b, c.slots[0].target, kids[0], pos + 4);
    NestedIs(Cut, g, b, c, kids, pos);
    NestedIs(Whole, g, b, c, kids, pos);
  }

  lemma {:induction false} CompareStruct(g: Types, b: Buffer, c: Compiled, kids: seq<Val>, pos: nat)
    requires Wire(g) && WireOk(g, c) && c.kind.Struct?
    ensures Agree(NarrowNode(g, c, kids), HoldsStruct(Cut, g, b, c, kids, pos), HoldsStruct(Whole, g, b, c, kids, pos),
                  NodeLength(Cut, g, c, kids), NodeLength(Whole, g, c, kids))
    decreases CountAll(kids), 7
  {
    var n := Extent(Cut, c);
    CompareMembers(g, b, c, kids, 0, pos, n, pos + n);
  }

  lemma {:induction false} CompareObject(g: Types, b: Buffer, c: Compiled, kids: seq<Val>, pos: nat)
    requires Wire(g) && WireOk(g, c) && c.kind.Object?
    ensures Agree(NarrowNode(g, c, kids), HoldsObject(Cut, g, b, c, kids, pos), HoldsObject(Whole, g, b, c, kids, pos),
                  NodeLength(Cut, g, c, kids), NodeLength(Whole, g, c, kids))
    decreases CountAll(kids), 7
  {
    if |kids| == |c.slots| {
      var n := FixedBytes(c, kids);
      CompareMembers(g, b, c, kids, 0, pos + 2, n, pos + 2 + n);
    }
  }

  lemma {:induction false} CompareList(g: Types, b: Buffer, c: Compiled, kids: seq<Val>, pos: nat)
    requires Wire(g) && WireOk(g, c) && c.kind.Container?
    ensures Agree(NarrowNode(g, c, kids), HoldsContainer(Cut, g, b, c, kids, pos),
                  HoldsContainer(Whole, g, b, c, kids, pos),
                  NodeLength(Cut, g, c, kids), NodeLength(Whole, g, c, kids))
    decreases CountAll(kids), 7
  {
    CompareElements(g, b, c, kids, pos + 4, pos + 4 + |kids| * Inline(g, c.slots[0]));
  }

  lemma {:induction false} CompareArray(g: Types, b: Buffer, c: Compiled, kids: seq<Val>, pos: nat)
    requires Wire(g) && WireOk(g, c) && c.kind.Array?
    ensures Agree(NarrowNode(g, c, kids), HoldsArray(Cut, g, b, c, kids, pos), HoldsArray(Whole, g, b, c, kids, pos),
                  NodeLength(Cut, g, c, kids), NodeLength(Whole, g, c, kids))
    decreases CountAll(kids), 7
  {
    CompareElements(g, b, c, kids, pos, pos + c.size);
  }

  /** Fixed data that is found is narrow. */
  lemma {:induction false} CompareFixed(g: Types, b: Buffer, t: nat, v: Val, pos: nat)
    requires Wire(g) && t in g && !g[t].variable
    ensures Agree(NarrowFixed(g, t, v), HoldsFixed(Cut, g, b, t, v, pos), HoldsFixed(Whole, g, b, t, v, pos), 0, 0)
    decreases Count(v), 3
  {
    assert WireOk(g, g[t]);
    if v.Node? && g[t].kind.Struct? {
      var n := Extent(Cut, g[t]);
      CompareMembers(g, b, g[t], v.kids, 0, pos, n, 0);
      FixedLength(g, g[t], v.kids, 0);
      if HoldsFixed(Cut, g, b, t, v, pos) { FixedWhole(Cut, g, b, g[t], v.kids, 0, pos, n, 0); }
    } else if v.Node? && g[t].kind.Array? {
      CompareElements(g, b, g[t], v.kids, pos, 0);
      ElementLength(g, g[t], v.kids);
    }
  }

  lemma {:induction false} FixedLength(g: Types, c: Compiled, vs: seq<Val>, i: nat)
    requires Wire(g) && SlotsKnown(g, c) && forall k :: 0 <= k < |c.slots| ==> FixedSlot(g, c.slots[k])
    ensures MembersLength(Cut, g, c, vs, i) == MembersLength(Whole, g, c, vs, i) == 0
    decreases |vs|
  {
    if vs != [] && i < |c.slots| { FixedLength(g, c, vs[1..], i + 1); }
  }

  lemma {:induction false} ElementLength(g: Types, c: Compiled, vs: seq<Val>)
    requires Wire(g) && SlotsKnown(g, c) && |c.slots| == 1 && FixedSlot(g, c.slots[0])
    ensures ElementsLength(Cut, g, c, vs) == ElementsLength(Whole, g, c, vs) == 0
    decreases |vs|
  {
    if vs != [] { ElementLength(g, c, vs[1..]); }
  }

  lemma {:induction false} CompareMembers(g: Types, b: Buffer, c: Compiled, vs: seq<Val>, i: nat, base: nat, n: nat,
                                          heap: nat)
    requires Wire(g) && SlotsKnown(g, c)
    ensures Agree(NarrowMembers(g, c, vs, i), HoldsMembers(Cut, g, b, c, vs, i, base, n, heap),
                  HoldsMembers(Whole, g, b, c, vs, i, base, n, heap),
                  MembersLength(Cut, g, c, vs, i), MembersLength(Whole, g, c, vs, i))
    decreases CountAll(vs), 6
  {
    if vs != [] && i < |c.slots| {
      var s := c.slots[i];
      assert NarrowMembers(g, c, vs, i) == (NarrowSlot(g, s, vs[0]) && NarrowMembers(g, c, vs[1..], i + 1));
      MembersAre(Cut, g, b, c, vs, i, base, n, heap);
      MembersAre(Whole, g, b, c, vs, i, base, n, heap);
      if FixedSlot(g, s) {
        CompareFixed(g, b, s.target, vs[0], base + s.offset);
        CompareMembers(g, b, c, vs[1..], i + 1, base, n, heap);
      } else {
        ComparePointer(g, b, s.target, s.optional, vs[0], base + s.offset, heap);
        if s.optional && s.offset >= n {
          CompareMembers(g, b, c, vs[1..], i + 1, base, n, heap);
        } else {
          CompareMembers(g, b, c, vs[1..], i + 1, base, n, heap + TargetLength(Cut, g, s.target, s.optional, vs[0]));
        }
      }
    }
  }

  lemma {:induction false} CompareElements(g: Types, b: Buffer, c: Compiled, vs: seq<Val>, pos: nat, heap: nat)
    requires Wire(g) && SlotsKnown(g, c) && |c.slots| == 1
    ensures Agree(NarrowElements(g, c, vs), HoldsElements(Cut, g, b, c, vs, pos, heap),
                  HoldsElements(Whole, g, b, c, vs, pos, heap),
                  ElementsLength(Cut, g, c, vs), ElementsLength(Whole, g, c, vs))
    decreases CountAll(vs), 6
  {
    if vs != [] {
      var s := c.slots[0];
      assert NarrowElements(g, c, vs) == (NarrowSlot(g, s, vs[0]) && NarrowElements(g, c, vs[1..]));
      ElementsAre(Cut, g, b, c, vs, pos, heap);
      ElementsAre(Whole, g, b, c, vs, pos, heap);
      if FixedSlot(g, s) {
        CompareFixed(g, b, s.target, vs[0], pos);
        CompareElements(g, b, c, vs[1..], pos + Inline(g, s), heap);
      } else {
        ComparePointer(g, b, s.target, s.optional, vs[0], pos, heap);
        CompareElements(g, b, c, vs[1..], pos + Inline(g, s), heap + TargetLength(Cut, g, s.target, s.optional, vs[0]));
      }
    }
  }

  // ----- the result

  /** The encoding of a value, with all the bytes of its structs, is accepted, with fixed data that reaches its
      pointers, if and only if each of them has fewer than 65536. */
  lemma WideExactly(g: Types, b: Buffer, root: nat, v: Val)
    requires Wire(g) && NestedSized(g) && root in g && Holds(Whole, g, b, root, v, 0)
             && Length(Whole, g, root, v) == |b|
    ensures Proper(g, b, root, Tokens(v, 0)) <==> Narrow(g, root, v)
    ensures FracGap.Gapless(g) ==> (Valid(g, b, root, Tokens(v, 0)) <==> Narrow(g, root, v))
  {
    if FracGap.Gapless(g) { FracGap.GaplessProper(g, b, root, Tokens(v, 0)); }
    Compare(g, b, root, v, 0);
    if Narrow(g, root, v) { HoldsValid(g, b, root, v); }
    if Proper(g, b, root, Tokens(v, 0)) {
      var u := ValidHolds(g, b, root, Tokens(v, 0));
      assert Tokens(v, 0) + [] == Tokens(u, 0) + [];
      TokensPrefix(v, u, 0, [], []);
    }
  }

  // ----- schemas without such structs

  predicate AllNarrow(g: Types) { forall t :: t in g && g[t].kind.Struct? ==> g[t].size < 0x1_0000 }

  lemma {:induction false} NarrowValue(g: Types, t: nat, v: Val)
    requires Wire(g) && AllNarrow(g) && t in g
    ensures Narrow(g, t, v) && NarrowGroup(g, t, v)
    decreases Count(v), 5
  {
    assert WireOk(g, g[t]);
    NarrowGroups(g, t, v);
    if g[t].kind.Optional? { NarrowGroups(g, g[t].slots[0].target, v); }
  }

  lemma {:induction false} NarrowGroups(g: Types, t: nat, v: Val)
    requires Wire(g) && AllNarrow(g) && t in g
    ensures NarrowGroup(g, t, v)
    decreases Count(v), 4
  {
    assert WireOk(g, g[t]);
    match v
    case Node(kids) =>
      NarrowList(g, g[t], kids, 0);
      if |g[t].slots| == 1 { NarrowRow(g, g[t], kids); }
      if |kids| == 1 && |g[t].slots| == 1 { assert CountOne(kids); NarrowValue(g, g[t].slots[0].target, kids[0]); }
    case Alt(tag, kid) => if tag < |g[t].slots| { NarrowValue(g, g[t].slots[tag].target, kid); }
    case _ =>
  }

  lemma {:induction false} NarrowSlots(g: Types, s: Slot, v: Val)
    requires Wire(g) && AllNarrow(g) && s.target in g
    ensures NarrowSlot(g, s, v)
    decreases Count(v), 5
  {
    assert WireOk(g, g[s.target]);
    NarrowGroups(g, s.target, v);
    if v.Node? {
      NarrowList(g, g[s.target], v.kids, 0);
      if |g[s.target].slots| == 1 { NarrowRow(g, g[s.target], v.kids); }
    }
  }

  lemma {:induction false} NarrowList(g: Types, c: Compiled, vs: seq<Val>, i: nat)
    requires Wire(g) && AllNarrow(g) && SlotsKnown(g, c)
    ensures NarrowMembers(g, c, vs, i)
    decreases CountAll(vs), 6
  {
    if vs != [] && i < |c.slots| {
      NarrowSlots(g, c.slots[i], vs[0]);
      NarrowList(g, c, vs[1..], i + 1);
    }
  }

  lemma {:induction false} NarrowRow(g: Types, c: Compiled, vs: seq<Val>)
    requires Wire(g) && AllNarrow(g) && SlotsKnown(g, c) && |c.slots| == 1
    ensures NarrowElements(g, c, vs)
    decreases CountAll(vs), 6
  {
    if vs != [] {
      NarrowSlots(g, c.slots[0], vs[0]);
      NarrowRow(g, c, vs[1..]);
    }
  }

  /** Without structs of 65536 bytes or more, a buffer is valid with these items, with fixed data that reaches its
      pointers, if and only if it is the encoding of the value that they describe. */
  lemma FormatExactly(g: Types, b: Buffer, root: nat, ts: seq<Token>)
    requires Wire(g) && NestedSized(g) && AllNarrow(g) && root in g
    ensures Proper(g, b, root, ts) <==> Encodes(Whole, g, b, root, ts)
    ensures FracGap.Gapless(g) ==> (Valid(g, b, root, ts) <==> Encodes(Whole, g, b, root, ts))
  {
    if FracGap.Gapless(g) { FracGap.GaplessProper(g, b, root, ts); }
    ValidExactly(g, b, root, ts);
    forall v ensures Holds(Cut, g, b, root, v, 0) == Holds(Whole, g, b, root, v, 0)
                     && Length(Cut, g, root, v) == Length(Whole, g, root, v) {
      NarrowValue(g, root, v);
      Compare(g, b, root, v, 0);
    }
  }

  // ----- a schema with such a struct

  function Nils(n: nat): seq<Val> { seq(n, _ => Nil) }

  lemma {:induction false} NilsHeld(g: Types, c: Compiled, i: nat)
    requires Wire(g) && SlotsKnown(g, c) && i <= |c.slots| && forall k :: 0 <= k < |c.slots| ==> c.slots[k].optional
    ensures HoldsMembers(Cut, g, [], c, Nils(|c.slots| - i), i, 0, 0, 0)
    ensures MembersLength(Cut, g, c, Nils(|c.slots| - i), i) == 0
    decreases |c.slots| - i
  {
    if i < |c.slots| {
      NilsHeld(g, c, i + 1);
      assert Nils(|c.slots| - i)[1..] == Nils(|c.slots| - (i + 1));
      MembersAre(Cut, g, [], c, Nils(|c.slots| - i), i, 0, 0, 0);
    }
  }

  /** A struct of options whose size is a multiple of 65536 is found in no bytes at all. */
  lemma FoundInNothing(g: Types, t: nat)
    requires Wire(g) && NestedSized(g) && t in g && g[t].kind.Struct? && g[t].size > 0 && Extent(Cut, g[t]) == 0
    requires forall k :: 0 <= k < |g[t].slots| ==> g[t].slots[k].optional
    ensures Valid(g, [], t, Tokens(Node(Nils(|g[t].slots|)), 0))
    ensures forall v :: !Holds(Whole, g, [], t, v, 0)
  {
    var c, kids := g[t], Nils(|g[t].slots|);
    NilsHeld(g, c, 0);
    assert HoldsStruct(Cut, g, [], c, kids, 0);
    assert HoldsNode(Cut, g, [], c, kids, 0) && NodeLength(Cut, g, c, kids) == 0;
    assert HoldsGroup(Cut, g, [], t, Node(kids), 0) && GroupLength(Cut, g, t, Node(kids)) == 0;
    HoldsValid(g, [], t, Node(kids));
    forall v ensures !Holds(Whole, g, [], t, v, 0) { NeedsBytes(g, t, v); }
  }

  lemma NeedsBytes(g: Types, t: nat, v: Val)
    requires Wire(g) && t in g && g[t].kind.Struct? && g[t].size > 0
    ensures !Holds(Whole, g, [], t, v, 0)
  {
    assert Holds(Whole, g, [], t, v, 0) == HoldsGroup(Whole, g, [], t, v, 0);
    if v.Alt? {
      VariantIs(Whole, g, [], t, v, 0);
    } else if v.Node? {
      assert HoldsNode(Whole, g, [], g[t], v.kids, 0) == HoldsStruct(Whole, g, [], g[t], v.kids, 0);
    }
  }

  /** A byte, an option of it, and a struct of 16384 such options. */
  function WideSchema(): (g: Schema)
    ensures IsWide(g)
  {
    [IntTy(8), OptionTy(0), StructTy(seq(16384, _ => 1))]
  }

  predicate IsWide(g: Schema) {
    && |g| == 3 && g[0] == IntTy(8) && g[1] == OptionTy(0)
    && g[2].StructTy? && |g[2].members| == 16384 && forall i :: 0 <= i < |g[2].members| ==> g[2].members[i] == 1
  }

  lemma {:induction false} OptionsTotal(types: Types, ms: seq<nat>)
    requires Usable(types, 1) && types[1].kind.Optional? && forall i :: 0 <= i < |ms| ==> ms[i] == 1
    ensures AllUsable(types, ms) && Total(types, ms) == 4 * |ms|
  {
    if ms != [] { OptionsTotal(types, ms[..|ms| - 1]); }
  }

  /** Its struct has 65536 bytes. */
  lemma WideEntry(g: Schema, types: Types)
    requires IsWide(g) && Correct(types, 1, g[1]) && Correct(types, 2, g[2])
    ensures types[2].kind.Struct? && types[2].size == 0x1_0000 && |types[2].slots| == 16384
    ensures forall k :: 0 <= k < 16384 ==> types[2].slots[k].optional
    ensures Total(types, g[2].members) == 0x1_0000
  {
    var ms := g[2].members;
    OptionsTotal(types, ms);
    OffsetsAreSums(types, ms, false);
    forall k | 0 <= k < 16384 ensures types[2].slots[k].optional { assert SlotFor(types, ms, k, types[2].slots[k]); }
  }

  lemma WideWellFormed(g: Schema)
    requires IsWide(g)
    ensures WellFormed(g)
  {}

  /** What the compiler makes of it. */
  ghost predicate WideTypes(g: Schema, types: Types) {
    && IsWide(g) && 1 in types && 2 in types && (forall t :: t in types ==> t < 3)
    && Correct(types, 1, g[1]) && Correct(types, 2, g[2]) && (0 in types ==> Correct(types, 0, g[0]))
  }

  lemma WideCompiled(g: Schema, types: Types, rank: map<nat, nat>)
    requires IsWide(g) && SchemaCompile.Completed(g, types, rank) && 2 in types
    ensures WideTypes(g, types)
  {
    WideWellFormed(g);
    FracSchema.CompletedReady(g, types, rank);
    assert FracSchema.Entry(g, types, rank, 2);
    assert g[2].members[0] in Strict(g[2]);
    assert FracSchema.Entry(g, types, rank, 1);
    if 0 in types { assert FracSchema.Entry(g, types, rank, 0); }
    forall t | t in types ensures t < 3 { assert FracSchema.Entry(g, types, rank, t); }
  }

  lemma WideFits(g: Schema, types: Types)
    requires WideTypes(g, types)
    ensures FracSchema.Fits(g, types)
  {
    WideEntry(g, types);
    forall t | t in types ensures FracSchema.EntryFits(g, types, t) {}
  }

  lemma NoneNested(g: Schema, types: Types, r: Types)
    requires WideTypes(g, types) && r == FracSchema.Resolved(types) && Wire(r)
    ensures NestedSized(r)
  {
    forall t | t in r ensures ContentSized(r, t) { FracSchema.ResolvedSame(types, t); }
  }

  lemma NoWideCycle(g: Schema)
    requires IsWide(g)
    ensures !SchemaCompile.HasCycle(g, [2])
  {
    forall chain: seq<nat> | |chain| >= 2 && SchemaCompile.StrictChain(g, chain)
      ensures chain[|chain| - 1] != chain[0]
    {
      assert SchemaCompile.StrictChild(g, chain[0], chain[1]);
      assert SchemaCompile.StrictChild(g, chain[|chain| - 2], chain[|chain| - 2 + 1]);
    }
  }

  lemma OptionsFit(types: Types, ms: seq<nat>)
    requires Usable(types, 1) && types[1].kind.Optional? && |ms| <= 16384 && forall i :: 0 <= i < |ms| ==> ms[i] == 1
    ensures AllUsable(types, ms) && AddMembers(types, ms, Layout(0, false, [])).Layout?
  {
    forall i | 0 <= i < |ms| ensures Total(types, ms[..i]) <= 65535 { OptionsTotal(types, ms[..i]); }
    FitsWithoutWrap(types, ms, false);
  }

  lemma OptionKind(g: Schema, types: Types)
    requires IsWide(g) && SchemaCompile.AllCorrect(g, types) && SchemaLayout.Done(types, 1)
    ensures types[1].kind.Optional?
  {
    assert Correct(types, 1, g[1]);
  }

  lemma WideFinished(g: Schema, types: Types, t: nat)
    requires IsWide(g) && t < 3 && AllUsable(types, Strict(g[t])) && (Usable(types, 1) ==> types[1].kind.Optional?)
    ensures Finished(types, g[t]).Layout?
  {
    if t == 2 {
      assert Strict(g[2])[0] == 1 && Usable(types, Strict(g[2])[0]);
      OptionsFit(types, g[2].members);
    }
  }

  lemma NotOversized(g: Schema, types: Types)
    requires IsWide(g)
    ensures !SchemaCompile.Oversized(g, [2], types)
  {
    if SchemaCompile.Oversized(g, [2], types) {
      if SchemaLayout.Done(types, 1) { OptionKind(g, types); }
      var t: nat :| t < |g| && AllUsable(types, Strict(g[t])) && Finished(types, g[t]).TooLarge?;
      WideFinished(g, types, t);
    }
  }

  /** The schema is compiled without an error, and the empty buffer is valid for its struct, which has 65536
      bytes in every encoding. */
  lemma WideAccepted(g: Schema, err: Option<SchemaCompile.Error>, types: Types, rank: map<nat, nat>)
    requires g == WideSchema() && SchemaCompile.Outcome(g, [2], err, types)
    requires err.None? ==> SchemaCompile.Completed(g, types, rank)
    ensures err.None?
    ensures var r := FracSchema.Resolved(types);
            && Wire(r) && 2 in r
            && Valid(r, [], 2, Tokens(Node(Nils(16384)), 0)) && forall v :: !Holds(Whole, r, [], 2, v, 0)
  {
    NoWideCycle(g);
    NotOversized(g, types);
    SchemaCompile.ReachRoot(g, [2], 2);
    if err.Some? { match err.value case Recursive => case TooLargeError => case ZeroSize => }
    assert Correct(types, 2, g[2]);
    WideCompiled(g, types, rank);
    WideWellFormed(g);
    WideFits(g, types);
    FracSchema.CompiledIsWire(g, types, rank);
    WideFound(g, types, FracSchema.Resolved(types));
  }

  lemma WideFound(g: Schema, types: Types, r: Types)
    requires WideTypes(g, types) && r == FracSchema.Resolved(types) && Wire(r)
    ensures 2 in r && Valid(r, [], 2, Tokens(Node(Nils(16384)), 0)) && forall v :: !Holds(Whole, r, [], 2, v, 0)
  {
    WideEntry(g, types);
    NoneNested(g, types, r);
    assert r[2] == types[2];
    FoundInNothing(r, 2);
  }
}
