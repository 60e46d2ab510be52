/** What the schema compiler makes is what the parser needs. */
module FracSchema {
  import opened Leb128
  import opened SchemaMatch
  import opened SchemaLayout
  import opened SchemaCompile
  import opened FracWire
  import FracEnds

  /** A list of options refers to what the options hold. */
  function Resolve(types: Types, c: Compiled): Compiled {
    if c.kind.Container? && |c.slots| == 1 && c.slots[0].target in types
       && types[c.slots[0].target].kind.Optional? && |types[c.slots[0].target].slots| == 1
    then c.(slots := [Slot(c.slots[0].offset, true, types[c.slots[0].target].slots[0].target)])
    else c
  }

  function Resolved(types: Types): Types { map t | t in types :: Resolve(types, types[t]) }

  /** The pass over all types, in any order. */
  method ResolveContainers(types: Types) returns (r: Types)
    ensures r == Resolved(types)
  {
    r := types;
    var todo := types.Keys;
    while todo != {}
      invariant todo <= types.Keys && r.Keys == types.Keys
      invariant forall t :: t in types ==> r[t] == if t in todo then types[t] else Resolve(types, types[t])
      decreases |todo|
    {
      var t :| t in todo;
      var c := r[t];
      if c.kind.Container? && |c.slots| == 1 && c.slots[0].target in r {
        var m := r[c.slots[0].target];
        if m.kind.Optional? && |m.slots| == 1 {
          r := r[t := c.(slots := [Slot(c.slots[0].offset, true, m.slots[0].target)])];
        }
      }
      todo := todo - {t};
    }
    assert r == Resolved(types);
  }

  /** No sum of member sizes wraps around. */
  ghost predicate Fits(g: Schema, types: Types) {
    forall t {:trigger EntryFits(g, types, t)} :: t in types ==> EntryFits(g, types, t)
  }

  ghost predicate EntryFits(g: Schema, types: Types, t: nat) {
    t < |g| && MembersOf(g[t]).Some? && AllUsable(types, MembersOf(g[t]).value) ==>
      Total(types, MembersOf(g[t]).value) < 0x1_0000_0000
  }

  function MembersOf(ty: Ty): Option<seq<nat>> {
    match ty
    case ObjectTy(ms) => Some(ms)
    case StructTy(ms) => Some(ms)
    case TupleTy(ms) => Some(ms)
    case _ => None
  }

  /** A compiled type is fit for the parser, among the resolved types. */
  ghost predicate Good(types: Types, c: Compiled) {
    SlotsKnown(types, c) && (c.kind.Optional? ==> |c.slots| == 1 && c.variable)
      && WireOk(Resolved(types), Resolve(types, c))
  }

  ghost predicate GoodAt(types: Types, t: nat) { t in types && Good(types, types[t]) }

  ghost predicate AllGood(types: Types, ms: seq<nat>) {
    forall i {:trigger GoodAt(types, ms[i])} :: 0 <= i < |ms| ==> GoodAt(types, ms[i])
  }

  lemma ResolvedSame(types: Types, t: nat)
    requires t in types
    ensures t in Resolved(types) && Resolved(types)[t].kind == types[t].kind
    ensures Resolved(types)[t].variable == types[t].variable && Resolved(types)[t].size == types[t].size
  {}

  lemma {:induction false} TotalGrows(types: Types, ms: seq<nat>, i: nat)
    requires AllUsable(types, ms) && i <= |ms|
    ensures AllUsable(types, ms[..i]) && Total(types, ms[..i]) <= Total(types, ms)
    decreases |ms|
  {
    if i < |ms| {
      TotalGrows(types, ms[..|ms| - 1], i);
      assert ms[..|ms| - 1][..i] == ms[..i];
    } else {
      assert ms[..i] == ms;
    }
  }

  lemma TotalNext(types: Types, ms: seq<nat>, i: nat)
    requires AllUsable(types, ms) && i < |ms|
    ensures AllUsable(types, ms[..i]) && AllUsable(types, ms[..i + 1])
    ensures Total(types, ms[..i + 1]) == Total(types, ms[..i]) + InlineSize(types[ms[i]])
  {
    assert ms[..i + 1][..i] == ms[..i];
  }

  /** What the slot of a member has to be like. */
  ghost predicate Placed(types: Types, m: nat, s: Slot, offset: nat) {
    && m in types && s.target in types && s.offset == offset
    && Inline(Resolved(types), s) == InlineSize(types[m]) && (types[m].variable <==> !FixedSlot(Resolved(types), s))
  }

  lemma SlotGood(types: Types, ms: seq<nat>, i: nat, s: Slot)
    requires AllUsable(types, ms) && i < |ms| && SlotFor(types, ms, i, s) && GoodAt(types, ms[i])
    ensures Placed(types, ms[i], s, Wrap(Total(types, ms[..i])))
  {
    assert Usable(types, ms[i]);
    if types[ms[i]].kind.Optional? { assert types[ms[i]].slots[0].target in types; }
    ResolvedSame(types, s.target);
  }

  /** Members begin at the sums of what is before them. */
  lemma BeginIs(types: Types, ms: seq<nat>, v: bool, c: Compiled, i: nat)
    requires AllUsable(types, ms) && AddMembers(types, ms, Layout(0, v, [])) == Layout(c.size, c.variable, c.slots)
    requires Total(types, ms) < 0x1_0000_0000 && i <= |ms|
    ensures |c.slots| == |ms| && AllUsable(types, ms[..i]) && FracWire.Begin(c, i) == Total(types, ms[..i])
  {
    OffsetsAreSums(types, ms, v);
    TotalGrows(types, ms, i);
    if i < |ms| { assert SlotFor(types, ms, i, c.slots[i]); } else { assert ms[..i] == ms; }
  }

  lemma SlotPlaced(types: Types, ms: seq<nat>, v: bool, c: Compiled, i: nat)
    requires AllUsable(types, ms) && AddMembers(types, ms, Layout(0, v, [])) == Layout(c.size, c.variable, c.slots)
    requires i < |ms| && AllGood(types, ms)
    ensures |c.slots| == |ms| && Placed(types, ms[i], c.slots[i], c.slots[i].offset)
            && (types[ms[i]].variable ==> c.variable)
  {
    OffsetsAreSums(types, ms, v);
    assert SlotFor(types, ms, i, c.slots[i]);
    assert GoodAt(types, ms[i]);
    SlotGood(types, ms, i, c.slots[i]);
  }

  /** The member after one begins where it ends. */
  lemma SlotNext(types: Types, ms: seq<nat>, v: bool, c: Compiled, i: nat)
    requires AllUsable(types, ms) && AddMembers(types, ms, Layout(0, v, [])) == Layout(c.size, c.variable, c.slots)
    requires Total(types, ms) < 0x1_0000_0000 && i < |ms| && AllGood(types, ms)
    ensures |c.slots| == |ms| && Placed(types, ms[i], c.slots[i], c.slots[i].offset)
            && (types[ms[i]].variable ==> c.variable)
    ensures FracWire.Begin(c, i + 1) == FracWire.Begin(c, i) + InlineSize(types[ms[i]])
  {
    SlotPlaced(types, ms, v, c, i);
    BeginIs(types, ms, v, c, i);
    BeginIs(types, ms, v, c, i + 1);
    TotalNext(types, ms, i);
  }

  /** The members of an object, struct or tuple. */
  lemma MembersGood(types: Types, ms: seq<nat>, v: bool, c: Compiled)
    requires AllUsable(types, ms) && AddMembers(types, ms, Layout(0, v, [])) == Layout(c.size, c.variable, c.slots)
    requires Total(types, ms) < 0x1_0000_0000 && AllGood(types, ms)
    requires (v && c.kind.Object?) || (!v && c.kind.Struct?)
    ensures Good(types, c)
  {
    var r := Resolved(types);
    BeginIs(types, ms, v, c, 0);
    BeginIs(types, ms, v, c, |ms|);
    assert ms[..0] == [] && ms[..|ms|] == ms;
    forall i | 0 <= i < |c.slots|
      ensures c.slots[i].target in types && c.slots[i].target in r && (!c.variable ==> FixedSlot(r, c.slots[i]))
      ensures FracWire.Begin(c, i + 1) == FracWire.Begin(c, i) + Inline(r, c.slots[i])
    {
      SlotNext(types, ms, v, c, i);
    }
    OffsetsAreSums(types, ms, v);
  }

  /** An array has one member, which is laid out like that of a struct. */
  lemma ArrayGood(types: Types, e: nat, n: nat, c: Compiled)
    requires AllUsable(types, [e]) && AddMembers(types, [e], Layout(0, false, [])).Layout? && GoodAt(types, e)
    requires var l := AddMembers(types, [e], Layout(0, false, []));
             l.slots == c.slots && l.variable == c.variable && c.size == Wrap(l.size * n)
    requires c.kind.Array?
    ensures Good(types, c)
  {
    OffsetsAreSums(types, [e], false);
    assert SlotFor(types, [e], 0, c.slots[0]);
    SlotGood(types, [e], 0, c.slots[0]);
    ResolvedSame(types, c.slots[0].target);
    assert [e][..0] == [] && Total(types, [e]) == InlineSize(types[e]);
    PointersWhole(n);
  }

  lemma PointersWhole(n: nat)
    ensures Wrap(4 * n) % 4 == 0
  {}

  /** A list of options becomes a list of pointers; other lists stay as they are. */
  lemma ListGood(types: Types, e: nat, c: Compiled)
    requires c.kind.Container? && c.variable && c.slots == [Slot(0, false, e)] && e in types
    requires types[e].kind.Optional? ==> SlotsKnown(types, types[e]) && |types[e].slots| == 1
    ensures Good(types, c)
  {
    var d := Resolve(types, c);
    assert |d.slots| == 1 && d.slots[0].target in types;
    ResolvedSame(types, d.slots[0].target);
    ResolvedSame(types, e);
  }

  /** Types that hold one other type, or alternatives, behind a pointer. */
  lemma WrapperGood(types: Types, c: Compiled)
    requires c.variable && (c.kind.Optional? || c.kind.Nested? ==> |c.slots| == 1)
             && (c.kind.Optional? || c.kind.Nested? || c.kind.Variant?)
    requires forall i :: 0 <= i < |c.slots| ==> c.slots[i].target in types
    ensures Good(types, c)
  {}

  /** What is known of an entry. */
  ghost predicate Entry(g: Schema, types: Types, rank: map<nat, nat>, t: nat) {
    && t in types && t in rank && t < |g| && Correct(types, t, g[t])
    && (forall m :: m in Strict(g[t]) ==> m in types && m in rank && rank[m] < rank[t])
    && (forall m :: m in Lazy(g[t]) ==> m in types)
  }

  ghost predicate Ready(g: Schema, types: Types, rank: map<nat, nat>) {
    forall t {:trigger Entry(g, types, rank, t)} :: t in types ==> Entry(g, types, rank, t)
  }

  lemma CompletedReady(g: Schema, types: Types, rank: map<nat, nat>)
    requires WellFormed(g) && Completed(g, types, rank)
    ensures Ready(g, types, rank)
  {
    forall t | t in types ensures Entry(g, types, rank, t) {
      assert Done(types, t) && Correct(types, t, g[t]);
      forall m | m in Strict(g[t]) ensures m in types && m in rank && rank[m] < rank[t] { assert StrictChild(g, t, m); }
      forall m | m in Lazy(g[t]) ensures m in types { assert Child(g, t, m) && Done(types, m); }
    }
  }

  /** A type whose strict children are fit for the parser is so too. */
  lemma StepGood(g: Schema, types: Types, rank: map<nat, nat>, t: nat)
    requires Ready(g, types, rank) && Fits(g, types) && t in types && t < |g| && AllGood(types, Strict(g[t]))
    requires g[t].ListTy? ==> ListElement(types, g[t].elem)
    ensures Good(types, types[t])
  {
    var ty, c := g[t], types[t];
    assert Entry(g, types, rank, t) && EntryFits(g, types, t);
    match ty
    case ObjectTy(ms) =>
      MembersGood(types, ms, true, c);
    case TupleTy(ms) =>
      MembersGood(types, ms, true, c);
    case StructTy(ms) =>
      MembersGood(types, ms, false, c);
    case ArrayTy(e, n) =>
      assert GoodAt(types, Strict(ty)[0]);
      ArrayGood(types, e, n, c);
    case ListTy(e) => ListGood(types, e, c);
    case OptionTy(e) =>
      assert e in Lazy(ty);
      WrapperGood(types, c);
    case VariantTy(ms) =>
      assert forall i :: 0 <= i < |ms| ==> ms[i] in Lazy(ty);
      WrapperGood(types, c);
    case FracPackTy(e) =>
      assert GoodAt(types, Strict(ty)[0]);
      WrapperGood(types, c);
    case CustomTy(e) =>
      assert GoodAt(types, Strict(ty)[0]) && Usable(types, e);
    case _ =>
  }

  ghost predicate ListElement(types: Types, e: nat) {
    e in types && (types[e].kind.Optional? ==> SlotsKnown(types, types[e]) && |types[e].slots| == 1)
  }

  /** An option, or a custom type for one, refers to one type. */
  lemma {:induction false} OptionShape(g: Schema, types: Types, rank: map<nat, nat>, t: nat)
    requires Ready(g, types, rank) && t in types && t in rank && types[t].kind.Optional?
    ensures SlotsKnown(types, types[t]) && |types[t].slots| == 1
    decreases rank[t]
  {
    assert Entry(g, types, rank, t);
    match g[t]
    case OptionTy(e) => assert e in Lazy(g[t]);
    case CustomTy(e) =>
      assert e in Strict(g[t]);
      OptionShape(g, types, rank, e);
    case _ =>
  }

  /** Every compiled type is fit for the parser. */
  lemma {:induction false} TypeGood(g: Schema, types: Types, rank: map<nat, nat>, t: nat)
    requires Ready(g, types, rank) && Fits(g, types) && t in types && t in rank
    ensures GoodAt(types, t)
    decreases rank[t]
  {
    assert Entry(g, types, rank, t);
    var ty := g[t];
    forall i | 0 <= i < |Strict(ty)| ensures GoodAt(types, Strict(ty)[i]) {
      TypeGood(g, types, rank, Strict(ty)[i]);
    }
    if ty.ListTy? {
      assert ty.elem in Lazy(ty) && Entry(g, types, rank, ty.elem) && EntryFits(g, types, t);
      if types[ty.elem].kind.Optional? { OptionShape(g, types, rank, ty.elem); }
    }
    StepGood(g, types, rank, t);
  }

  /** What the compiler makes of a schema satisfies what the parser relies on. */
  lemma CompiledIsWire(g: Schema, types: Types, rank: map<nat, nat>)
    requires WellFormed(g) && Completed(g, types, rank) && Fits(g, types)
    ensures Wire(Resolved(types))
  {
    CompletedReady(g, types, rank);
    forall t | t in types ensures WireOk(Resolved(types), Resolved(types)[t]) {
      assert Entry(g, types, rank, t);
      TypeGood(g, types, rank, t);
    }
  }

  // ----- fixed data ends

  /** A member that is in place ranks below its type. */
  ghost predicate SlotsBelow(types: Types, rank: map<nat, nat>, t: nat)
    requires t in types
  {
    forall i :: 0 <= i < |types[t].slots| && !types[t].slots[i].optional ==>
      FracEnds.Below(rank, types[t].slots[i].target, t)
  }

  lemma StructBelow(g: Schema, types: Types, rank: map<nat, nat>, t: nat)
    requires Entry(g, types, rank, t) && g[t].StructTy?
    ensures SlotsBelow(types, rank, t)
  {
    var ms := g[t].members;
    OffsetsAreSums(types, ms, false);
    forall i | 0 <= i < |ms| && !types[t].slots[i].optional ensures FracEnds.Below(rank, types[t].slots[i].target, t) {
      assert SlotFor(types, ms, i, types[t].slots[i]) && ms[i] in Strict(g[t]);
    }
  }

  lemma ArrayBelow(g: Schema, types: Types, rank: map<nat, nat>, t: nat)
    requires Entry(g, types, rank, t) && g[t].ArrayTy?
    ensures SlotsBelow(types, rank, t) && |types[t].slots| == 1
    ensures GoodAt(types, g[t].elem) && Inline(Resolved(types), types[t].slots[0]) == 0 ==> types[t].size == 0
  {
    var es := [g[t].elem];
    OffsetsAreSums(types, es, false);
    assert SlotFor(types, es, 0, types[t].slots[0]) && es[0] in Strict(g[t]);
    if GoodAt(types, es[0]) {
      SlotGood(types, es, 0, types[t].slots[0]);
      assert es[..0] == [] && Total(types, es) == InlineSize(types[es[0]]);
    }
  }

  lemma {:induction false} EntryFounded(g: Schema, types: Types, rank: map<nat, nat>, t: nat)
    requires Ready(g, types, rank) && Fits(g, types) && t in types && t in rank
             && (types[t].kind.Struct? || types[t].kind.Array?)
    ensures SlotsBelow(types, rank, t)
    ensures types[t].kind.Array? ==>
              |types[t].slots| == 1 && types[t].slots[0].target in types
              && (Inline(Resolved(types), types[t].slots[0]) == 0 ==> types[t].size == 0)
    decreases rank[t]
  {
    assert Entry(g, types, rank, t);
    TypeGood(g, types, rank, t);
    match g[t]
    case StructTy(_) => StructBelow(g, types, rank, t);
    case ArrayTy(e, _) =>
      assert e in Strict(g[t]);
      TypeGood(g, types, rank, e);
      ArrayBelow(g, types, rank, t);
    case CustomTy(e) =>
      assert e in Strict(g[t]) && Usable(types, Strict(g[t])[0]);
      EntryFounded(g, types, rank, e);
    case _ =>
  }

  /** What the compiler makes of a schema has no endless fixed data. */
  lemma CompiledIsFounded(g: Schema, types: Types, rank: map<nat, nat>)
    requires WellFormed(g) && Completed(g, types, rank) && Fits(g, types)
    ensures Wire(Resolved(types)) && FracEnds.Founded(Resolved(types), rank)
  {
    CompiledIsWire(g, types, rank);
    CompletedReady(g, types, rank);
    var r := Resolved(types);
    forall t | t in r ensures FracEnds.FoundedAt(r, rank, t) {
      assert Entry(g, types, rank, t);
      ResolvedSame(types, t);
      if types[t].kind.Struct? || types[t].kind.Array? {
        EntryFounded(g, types, rank, t);
        assert r[t] == types[t];
      }
    }
  }

  /** The constructor of a compiled schema: the walk, and then the pass over the lists. */
  method CompileSchema(g: Schema, roots: seq<nat>)
    returns (err: Option<Error>, types: Types, ghost walked: Types, ghost rank: map<nat, nat>)
    requires WellFormed(g) && forall t :: t in roots ==> t < |g|
    ensures err.None? ==> types == Resolved(walked) && !HasCycle(g, roots)
    ensures err.None? ==> forall t: nat :: Reachable(g, roots, t) ==> t < |g| && t in types && Correct(walked, t, g[t])
    ensures err.None? && Fits(g, walked) ==> Wire(types) && FracEnds.Founded(types, rank)
    ensures err != Some(TooLargeError) && !HasEmptyStruct(g, roots) ==> (err == Some(Recursive) <==> HasCycle(g, roots))
  {
    err, types, rank := Compile(g, roots);
    walked := types;
    if err.None? {
      types := ResolveContainers(types);
      if Fits(g, walked) { CompiledIsFounded(g, walked, rank); }
    }
  }
}
