/** Objects without a gap: no option comes before a pointer that is not optional. Then fixed data reaches every
    pointer that is read. */
module FracGap {
  import opened Leb128
  import opened SchemaMatch
  import opened SchemaLayout
  import opened FracWire
  import opened FracMachine
  import opened FracComplete
  import FracCanonical
  import FracCover
  import FracEmpty

  predicate GaplessAt(g: Types, c: Compiled)
    requires SlotsKnown(g, c)
  {
    forall i, j :: 0 <= i < j < |c.slots| && c.slots[i].optional ==> FixedSlot(g, c.slots[j]) || c.slots[j].optional
  }

  predicate Gapless(g: Types)
    requires Wire(g)
  {
    forall t {:trigger GaplessAt(g, g[t])} :: t in g ==> GaplessAt(g, g[t])
  }

  // ----- the fixed data up to the next member

  predicate NoOption(c: Compiled, i: nat) { forall k :: 0 <= k < i && k < |c.slots| ==> !c.slots[k].optional }

  /** The fixed data of an object is there, and holds all members so far if none of them is optional. */
  predicate Within(g: Types, b: Buffer, f: Frame) {
    f.ObjectF? ==>
      && f.t in g && (g[f.t].kind.Object? || g[f.t].kind.Struct?) && f.index <= |g[f.t].slots|
      && (g[f.t].kind.Object? ==> f.start + 2 <= |b|)
      && var (n, base) := FixedPart(b, g[f.t], f.start);
         base + n <= |b| && (NoOption(g[f.t], f.index) ==> Begin(g[f.t], f.index) <= n)
  }

  predicate AllWithin(g: Types, b: Buffer, fs: seq<Frame>) { forall i :: 0 <= i < |fs| ==> Within(g, b, fs[i]) }

  lemma PushWithin(g: Types, b: Buffer, t: nat, at: nat, end: nat, pointer: bool)
    requires Wire(g) && t in g && end <= |b|
    ensures var out := Push(g, b, t, at, end, pointer); out.Out? ==> AllWithin(g, b, out.pushed)
  {
    assert WireOk(g, g[t]);
  }

  lemma DerefWithin(g: Types, b: Buffer, pos: nat, end: nat, fixed: nat, fixedEnd: nat, t: nat, optional: bool)
    requires Wire(g) && t in g && end <= |b| && fixedEnd <= |b|
    ensures var out := Deref(g, b, pos, end, fixed, fixedEnd, t, optional); out.Out? ==> AllWithin(g, b, out.pushed)
  {
    PushWithin(g, b, t, pos, end, true);
  }

  lemma ParseWithin(g: Types, b: Buffer, t: nat, pos: nat, end: nat)
    requires Wire(g) && t in g && end <= |b|
    ensures var out := Parse(g, b, t, pos, end); out.Out? ==> AllWithin(g, b, out.pushed)
  {
    PushWithin(g, b, t, pos, end, false);
    if g[t].kind.Optional? { DerefWithin(g, b, pos + 4, end, pos, end, g[t].slots[0].target, true); }
  }

  lemma FixedWithin(g: Types, b: Buffer, t: nat, at: nat, pos: nat)
    requires Wire(g) && t in g
    ensures var out := ParseFixed(g, b, t, at, pos); out.Out? ==> AllWithin(g, b, out.pushed)
  {
    assert WireOk(g, g[t]);
  }

  predicate GotWithin(g: Types, b: Buffer, got: Got) {
    got.Got? && got.out.Out? ==> Within(g, b, got.frame) && AllWithin(g, b, got.out.pushed)
  }

  /** A member that was read lies in the fixed data, if it is not optional. */
  lemma NextWithin(g: Types, b: Buffer, f: Frame, f': Frame)
    requires Wire(g) && f.ObjectF? && Within(g, b, f) && f.index < |g[f.t].slots|
    requires f'.ObjectF? && f'.t == f.t && f'.start == f.start && f'.index == f.index + 1
    requires var s := g[f.t].slots[f.index];
             s.optional || s.offset + Inline(g, s) <= FixedPart(b, g[f.t], f.start).0
    ensures Within(g, b, f')
  {
    var c, i := g[f.t], f.index;
    assert WireOk(g, c);
    assert Begin(c, i + 1) == Begin(c, i) + Inline(g, c.slots[i]);
    if NoOption(c, i + 1) { assert !c.slots[i].optional; }
  }

  /** A pointer that was read without an option before it lies in the fixed data. */
  lemma ObjectInFixed(g: Types, b: Buffer, f: Frame, pos: nat, end: nat)
    requires Wire(g) && Gapless(g) && end <= |b| && f.ObjectF? && Within(g, b, f)
    requires ReadObject(g, b, f, pos, end).Got?
    ensures f.index < |g[f.t].slots| && InFixed(g, b, f)
  {
    var c, s := g[f.t], g[f.t].slots[f.index];
    if !FixedSlot(g, s) && !s.optional {
      assert GaplessAt(g, c) && NoOption(c, f.index);
    }
  }

  lemma ObjectWithin(g: Types, b: Buffer, f: Frame, pos: nat, end: nat)
    requires Wire(g) && Gapless(g) && end <= |b| && f.ObjectF? && Within(g, b, f)
    ensures GotWithin(g, b, ReadObject(g, b, f, pos, end))
  {
    var got := ReadObject(g, b, f, pos, end);
    if got.Got? {
      ObjectInFixed(g, b, f, pos, end);
      var s := g[f.t].slots[f.index];
      var (n, base) := FixedPart(b, g[f.t], f.start);
      NextWithin(g, b, f, got.frame);
      if FixedSlot(g, s) {
        FixedWithin(g, b, s.target, base + s.offset, pos);
      } else if !(s.optional && s.offset >= n) {
        DerefWithin(g, b, pos, end, base + s.offset, base + n, s.target, s.optional);
      }
    }
  }

  lemma ArrayWithin(g: Types, b: Buffer, f: Frame, pos: nat, end: nat)
    requires Wire(g) && end <= |b| && f.ArrayF? && f.t in g
    ensures GotWithin(g, b, ReadArray(g, b, f, pos, end))
  {
    var got := ReadArray(g, b, f, pos, end);
    if got.Got? {
      var s := g[f.t].slots[0];
      if FixedSlot(g, s) {
        FixedWithin(g, b, s.target, f.pos, pos);
      } else {
        DerefWithin(g, b, pos, end, f.pos, f.stop, s.target, s.optional);
      }
    }
  }

  lemma VariantWithin(g: Types, b: Buffer, f: Frame, pos: nat, end: nat)
    requires Wire(g) && end <= |b| && f.VariantF? && f.t in g
    ensures GotWithin(g, b, ReadVariant(g, b, f, pos, end))
  {
    var got := ReadVariant(g, b, f, pos, end);
    if got.Got? { ParseWithin(g, b, g[f.t].slots[b[pos]].target, pos + 5, got.end); }
  }

  lemma NestedWithin(g: Types, b: Buffer, f: Frame, pos: nat, end: nat)
    requires Wire(g) && end <= |b| && f.NestedF? && f.t in g
    ensures GotWithin(g, b, ReadNested(g, b, f, pos, end))
  {
    var got := ReadNested(g, b, f, pos, end);
    if got.Got? {
      var n := U32(b, f.offset);
      ParseWithin(g, b, g[f.t].slots[0].target, if n == 0 then end else f.offset + 4, got.end);
    }
  }

  lemma OptionWithin(g: Types, b: Buffer, f: Frame, pos: nat, end: nat)
    requires Wire(g) && end <= |b| && f.OptionF? && f.t in g
    ensures GotWithin(g, b, ReadOption(g, b, f, pos, end))
  {
    var got := ReadOption(g, b, f, pos, end);
    if got.Got? { DerefWithin(g, b, pos + 4, end, pos, end, g[f.t].slots[0].target, true); }
  }

  lemma ReadWithin(g: Types, b: Buffer, f: Frame, pos: nat, end: nat) returns (got: Got)
    requires Wire(g) && Gapless(g) && end <= |b| && !f.ItemF? && f.t in g && Within(g, b, f)
    ensures got == Read(g, b, f, pos, end) && GotWithin(g, b, got) && (got.Got? ==> InFixed(g, b, f))
    ensures got.Done? ==> InFixed(g, b, f)
  {
    got := Read(g, b, f, pos, end);
    match f
    case ObjectF(_, _, _, _) =>
      ObjectWithin(g, b, f, pos, end);
      if got.Got? { ObjectInFixed(g, b, f, pos, end); }
    case ArrayF(_, _, _) => ArrayWithin(g, b, f, pos, end);
    case VariantF(_, _) => VariantWithin(g, b, f, pos, end);
    case NestedF(_, _, _) => NestedWithin(g, b, f, pos, end);
    case OptionF(_, _) => OptionWithin(g, b, f, pos, end);
  }

  /** A step of the parser, as what the reader on top does. */
  lemma StepWithin(g: Types, b: Buffer, p: Parser, p': Parser, item: Token)
    requires Wire(g) && Gapless(g) && p.stack != [] && AllWithin(g, b, p.stack) && Next(g, b, p) == Some((p', item))
    ensures InFixed(g, b, p.stack[|p.stack| - 1]) && AllWithin(g, b, p'.stack)
  {
    var top := |p.stack| - 1;
    var f, rest := p.stack[top], p.stack[..top];
    assert Within(g, b, f);
    if !f.ItemF? {
      var got := ReadWithin(g, b, f, p.pos, p.end);
      if got.Got? {
        assert p'.stack == rest + [got.frame] + got.out.pushed;
      }
    }
  }

  lemma {:induction false} RunStays(g: Types, b: Buffer, p: Parser, ts: seq<Token>)
    requires Wire(g) && Gapless(g) && AllWithin(g, b, p.stack)
    ensures Stays(g, b, p, ts)
    decreases |ts|
  {
    if ts != [] && p.stack != [] && Next(g, b, p).Some? {
      var (p', item) := Next(g, b, p).value;
      StepWithin(g, b, p, p', item);
      RunStays(g, b, p', ts[1..]);
    }
  }

  // ----- results for every valid buffer

  /** Without gaps, fixed data reaches the pointers of every valid buffer. */
  lemma GaplessProper(g: Types, b: Buffer, root: nat, ts: seq<Token>)
    requires Wire(g) && Gapless(g) && root in g
    ensures Valid(g, b, root, ts) <==> Proper(g, b, root, ts)
  {
    var out := Parse(g, b, root, 0, |b|);
    if out.Out? {
      ParseWithin(g, b, root, 0, |b|);
      var p := Parser(out.pos, |b|, out.pushed + [ItemF(Token(out.kind, out.data, 0))]);
      assert AllWithin(g, b, p.stack);
      RunStays(g, b, p, ts);
    }
  }

  /** Without gaps, a buffer is valid with these items if and only if it is the encoding of the value that they
      describe. */
  lemma GaplessExactly(g: Types, b: Buffer, root: nat, ts: seq<Token>)
    requires Wire(g) && Gapless(g) && NestedSized(g) && root in g
    ensures Valid(g, b, root, ts) <==> Encodes(Cut, g, b, root, ts)
  {
    GaplessProper(g, b, root, ts);
    ValidExactly(g, b, root, ts);
  }

  /** No two valid buffers have the same items. */
  ghost predicate Injective(g: Types)
    requires Wire(g)
  {
    forall root, b, b', ts :: root in g && Valid(g, b, root, ts) && Valid(g, b', root, ts) ==> b == b'
  }

  /** Without gaps, valid buffers are canonical if and only if no nested data can be empty. */
  lemma GaplessCanonical(g: Types)
    requires Wire(g) && Gapless(g)
    ensures Injective(g) <==> NestedSized(g)
  {
    FracEmpty.CanonicalExactly(g);
    forall root, b, ts | root in g ensures Valid(g, b, root, ts) <==> Proper(g, b, root, ts) {
      GaplessProper(g, b, root, ts);
    }
  }

  /** Without gaps, every byte of a valid buffer is used exactly once. */
  lemma GaplessCovers(g: Types, b: Buffer, root: nat, ts: seq<Token>) returns (v: Val)
    requires Wire(g) && Gapless(g) && NestedSized(g) && root in g && Valid(g, b, root, ts)
    ensures ts == Tokens(v, 0) && Holds(Cut, g, b, root, v, 0)
    ensures forall x: nat :: FracCover.Uses(g, root, v, 0, x) == if x < |b| then 1 else 0
  {
    GaplessProper(g, b, root, ts);
    v := FracCover.ValidCovers(g, b, root, ts);
  }
}
