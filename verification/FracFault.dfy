/** Reading that ends with a division by zero or outside of the buffer, and the schemas for which it cannot. */
module FracFault {
  import opened Leb128
  import opened SchemaMatch
  import opened SchemaLayout
  import opened FracWire
  import opened FracMachine
  import opened FracSane
  import opened FracGap
  import FracComplete

  // ----- division by zero

  /** A list whose elements have no bytes. */
  predicate Sizeless(g: Types, t: nat)
    requires Wire(g)
  {
    t in g && g[t].kind.Container? && Inline(g, g[t].slots[0]) == 0
  }

  ghost predicate SomeSizeless(g: Types)
    requires Wire(g)
  {
    exists t: nat :: Sizeless(g, t)
  }

  ghost predicate Undivided(g: Types, out: Out)
    requires Wire(g)
  {
    out.Bad? && out.why.Division? ==> SomeSizeless(g)
  }

  lemma PushUndivided(g: Types, b: Buffer, t: nat, at: nat, end: nat, pointer: bool)
    requires Wire(g) && t in g && end <= |b|
    ensures Undivided(g, Push(g, b, t, at, end, pointer))
  {
    if Push(g, b, t, at, end, pointer) == Bad(Division) { assert Sizeless(g, t); }
  }

  lemma DerefUndivided(g: Types, b: Buffer, pos: nat, end: nat, fixed: nat, fixedEnd: nat, t: nat, optional: bool)
    requires Wire(g) && t in g && end <= |b| && fixedEnd <= |b|
    ensures Undivided(g, Deref(g, b, pos, end, fixed, fixedEnd, t, optional))
  {
    PushUndivided(g, b, t, pos, end, true);
  }

  lemma ParseUndivided(g: Types, b: Buffer, t: nat, pos: nat, end: nat)
    requires Wire(g) && t in g && end <= |b|
    ensures Undivided(g, Parse(g, b, t, pos, end))
  {
    PushUndivided(g, b, t, pos, end, false);
    if g[t].kind.Optional? { DerefUndivided(g, b, pos + 4, end, pos, end, g[t].slots[0].target, true); }
  }

  lemma ObjectUndivided(g: Types, b: Buffer, f: Frame, pos: nat, end: nat)
    requires Wire(g) && end <= |b| && f.ObjectF? && f.t in g && ReadObject(g, b, f, pos, end) == Fail(Division)
    ensures SomeSizeless(g)
  {
    var s := g[f.t].slots[f.index];
    var (n, base) := FixedPart(b, g[f.t], f.start);
    DerefUndivided(g, b, pos, end, base + s.offset, base + n, s.target, s.optional);
  }

  lemma ArrayUndivided(g: Types, b: Buffer, f: Frame, pos: nat, end: nat)
    requires Wire(g) && end <= |b| && f.ArrayF? && f.t in g && ReadArray(g, b, f, pos, end) == Fail(Division)
    ensures SomeSizeless(g)
  {
    var s := g[f.t].slots[0];
    DerefUndivided(g, b, pos, end, f.pos, f.stop, s.target, s.optional);
  }

  lemma VariantUndivided(g: Types, b: Buffer, f: Frame, pos: nat, end: nat, got: Got)
    requires Wire(g) && end <= |b| && f.VariantF? && f.t in g
    requires got == ReadVariant(g, b, f, pos, end) && got == Fail(Division)
    ensures SomeSizeless(g)
  {
    var u, from, stop := VariantReads(g, b, f, pos, end, got);
    ParseUndivided(g, b, u, from, stop);
  }

  lemma NestedUndivided(g: Types, b: Buffer, f: Frame, pos: nat, end: nat)
    requires Wire(g) && end <= |b| && f.NestedF? && f.t in g && ReadNested(g, b, f, pos, end) == Fail(Division)
    ensures SomeSizeless(g)
  {
    var from, stop := NestedFails(g, b, f, pos, end, Fail(Division));
    ParseUndivided(g, b, g[f.t].slots[0].target, from, stop);
  }

  lemma OptionUndivided(g: Types, b: Buffer, f: Frame, pos: nat, end: nat)
    requires Wire(g) && end <= |b| && f.OptionF? && f.t in g && ReadOption(g, b, f, pos, end) == Fail(Division)
    ensures SomeSizeless(g)
  {
    DerefUndivided(g, b, pos + 4, end, pos, end, g[f.t].slots[0].target, true);
  }

  lemma CauseUndivided(g: Types, b: Buffer, p: Parser)
    requires Wire(g) && p.stack != [] && Cause(g, b, p) == Division
    ensures SomeSizeless(g)
  {
    var f := p.stack[|p.stack| - 1];
    match f
    case ObjectF(_, _, _, _) => ObjectUndivided(g, b, f, p.pos, p.end);
    case ArrayF(_, _, _) => ArrayUndivided(g, b, f, p.pos, p.end);
    case VariantF(_, _) => VariantUndivided(g, b, f, p.pos, p.end, ReadVariant(g, b, f, p.pos, p.end));
    case NestedF(_, _, _) => NestedUndivided(g, b, f, p.pos, p.end);
    case OptionF(_, _) => OptionUndivided(g, b, f, p.pos, p.end);
  }

  lemma {:induction false} RunUndivided(g: Types, b: Buffer, p: Parser, ts: seq<Token>)
    requires Wire(g) && Halts(g, b, p, ts, Division)
    ensures SomeSizeless(g)
    decreases |ts|
  {
    if ts == [] { CauseUndivided(g, b, p); } else { RunUndivided(g, b, Next(g, b, p).value.0, ts[1..]); }
  }

  /** A list of elements of no bytes is divided by zero if and only if its size is that of the data. */
  lemma SizelessDivides(g: Types, b: Buffer, t: nat)
    requires Wire(g) && Sizeless(g, t)
    ensures Stops(g, b, t, [], Division) <==> |b| >= 4 && 4 + U32(b, 0) <= |b|
  {
    var out := Parse(g, b, t, 0, |b|);
    assert out == Push(g, b, t, 0, |b|, false);
    if out.Out? { assert false; }
  }

  /** Some buffer of a schema makes the parser divide by zero if and only if it has a list whose elements have no
      bytes. */
  lemma DividesExactly(g: Types)
    requires Wire(g)
    ensures SomeSizeless(g) <==> exists root, b, ts :: root in g && Stops(g, b, root, ts, Division)
  {
    if SomeSizeless(g) {
      var t: nat :| Sizeless(g, t);
      var b: Buffer := [0, 0, 0, 0];
      assert U32(b, 0) == 0;
      SizelessDivides(g, b, t);
    }
    if root, b, ts :| root in g && Stops(g, b, root, ts, Division) {
      var out := Parse(g, b, root, 0, |b|);
      ParseUndivided(g, b, root, 0, |b|);
      if out.Out? {
        RunUndivided(g, b, Parser(out.pos, |b|, out.pushed + [ItemF(Token(out.kind, out.data, 0))]), ts);
      }
    }
  }

  // ----- reading outside

  predicate EvenAt(g: Types, c: Compiled)
    requires Shaped(g, c)
  {
    c.kind.Array? ==> var k := Inline(g, c.slots[0]); if k == 0 then c.size == 0 else c.size % k == 0
  }

  /** Arrays are made of whole elements: no size of an array wraps around. */
  predicate Even(g: Types)
    requires Wire(g)
  {
    forall t {:trigger EvenAt(g, g[t])} :: t in g ==> EvenAt(g, g[t])
  }

  /** An array lies in the buffer, and whole elements of it are left. */
  predicate Inside(g: Types, b: Buffer, f: Frame)
    requires Wire(g)
  {
    f.ArrayF? && f.pos != f.stop ==>
      && f.t in g && |g[f.t].slots| == 1 && f.pos <= f.stop <= |b|
      && var k := Inline(g, g[f.t].slots[0]); k > 0 && (f.stop - f.pos) % k == 0
  }

  predicate AllInside(g: Types, b: Buffer, fs: seq<Frame>)
    requires Wire(g)
  {
    forall i :: 0 <= i < |fs| ==> Inside(g, b, fs[i])
  }

  predicate OutInside(g: Types, b: Buffer, out: Out)
    requires Wire(g)
  {
    if out.Bad? then out.why != Outside else AllInside(g, b, out.pushed)
  }

  lemma PushInside(g: Types, b: Buffer, t: nat, at: nat, end: nat, pointer: bool)
    requires Wire(g) && Even(g) && t in g && end <= |b|
    ensures OutInside(g, b, Push(g, b, t, at, end, pointer))
  {
    assert EvenAt(g, g[t]);
  }

  lemma DerefInside(g: Types, b: Buffer, pos: nat, end: nat, fixed: nat, fixedEnd: nat, t: nat, optional: bool)
    requires Wire(g) && Even(g) && t in g && end <= |b| && fixed <= fixedEnd <= |b|
    ensures OutInside(g, b, Deref(g, b, pos, end, fixed, fixedEnd, t, optional))
  {
    PushInside(g, b, t, pos, end, true);
  }

  lemma ParseInside(g: Types, b: Buffer, t: nat, pos: nat, end: nat)
    requires Wire(g) && Even(g) && t in g && pos <= end <= |b|
    ensures OutInside(g, b, Parse(g, b, t, pos, end))
  {
    PushInside(g, b, t, pos, end, false);
    if g[t].kind.Optional? { DerefInside(g, b, pos + 4, end, pos, end, g[t].slots[0].target, true); }
  }

  lemma FixedInside(g: Types, b: Buffer, t: nat, at: nat, pos: nat)
    requires Wire(g) && Even(g) && t in g && at + g[t].size <= |b|
    ensures OutInside(g, b, ParseFixed(g, b, t, at, pos))
  {
    assert EvenAt(g, g[t]);
  }

  predicate GotInside(g: Types, b: Buffer, got: Got)
    requires Wire(g)
  {
    match got
    case Fail(why) => why != Outside
    case Done(_, _) => true
    case Got(f, out, _, _) => Inside(g, b, f) && OutInside(g, b, out)
  }

  /** The next pointer that is not optional does not lie behind the fixed data. */
  lemma PointerInside(g: Types, b: Buffer, f: Frame)
    requires Wire(g) && Gapless(g) && f.ObjectF? && Within(g, b, f) && f.index < |g[f.t].slots|
    requires var s := g[f.t].slots[f.index]; !FixedSlot(g, s) && !s.optional
    ensures g[f.t].slots[f.index].offset <= FixedPart(b, g[f.t], f.start).0
  {
    assert GaplessAt(g, g[f.t]) && NoOption(g[f.t], f.index);
  }

  lemma PlacedInside(g: Types, b: Buffer, f: Frame, pos: nat, end: nat, s: Slot)
    requires Wire(g) && Even(g) && end <= |b| && f.ObjectF? && Within(g, b, f)
    requires f.index < |g[f.t].slots| && s == g[f.t].slots[f.index] && FixedSlot(g, s)
    ensures GotInside(g, b, ReadObject(g, b, f, pos, end))
  {
    var (n, base) := FixedPart(b, g[f.t], f.start);
    if s.offset + g[s.target].size <= n { FixedInside(g, b, s.target, base + s.offset, pos); }
  }

  lemma PointedInside(g: Types, b: Buffer, f: Frame, pos: nat, end: nat, s: Slot)
    requires Wire(g) && Gapless(g) && Even(g) && end <= |b| && f.ObjectF? && Within(g, b, f)
    requires f.index < |g[f.t].slots| && s == g[f.t].slots[f.index] && !FixedSlot(g, s)
    ensures GotInside(g, b, ReadObject(g, b, f, pos, end))
  {
    var (n, base) := FixedPart(b, g[f.t], f.start);
    if !(s.optional && s.offset >= n) {
      if !s.optional { PointerInside(g, b, f); }
      DerefInside(g, b, pos, end, base + s.offset, base + n, s.target, s.optional);
    }
  }

  lemma ObjectInside(g: Types, b: Buffer, f: Frame, pos: nat, end: nat)
    requires Wire(g) && Gapless(g) && Even(g) && end <= |b| && f.ObjectF? && Within(g, b, f)
    ensures GotInside(g, b, ReadObject(g, b, f, pos, end))
  {
    if f.index < |g[f.t].slots| {
      var s := g[f.t].slots[f.index];
      if FixedSlot(g, s) { PlacedInside(g, b, f, pos, end, s); } else { PointedInside(g, b, f, pos, end, s); }
    }
  }

  /** What is left of whole elements after one of them. */
  lemma WholeLeft(x: nat, k: nat)
    requires k > 0 && x > 0 && x % k == 0
    ensures k <= x && (x - k) % k == 0
  {
    Less(x, k, x / k);
  }

  lemma Less(x: nat, k: nat, q: nat)
    requires k > 0 && x >= k && x == q * k
    ensures (x - k) % k == 0
  {
    assert x - k == (q - 1) * k;
    FracComplete.Multiple(q - 1, k);
  }

  lemma ArrayInside(g: Types, b: Buffer, f: Frame, pos: nat, end: nat)
    requires Wire(g) && Even(g) && end <= |b| && f.ArrayF? && f.t in g && Inside(g, b, f)
    ensures GotInside(g, b, ReadArray(g, b, f, pos, end))
  {
    if f.pos != f.stop {
      var s := g[f.t].slots[0];
      WholeLeft(f.stop - f.pos, Inline(g, s));
      if FixedSlot(g, s) {
        FixedInside(g, b, s.target, f.pos, pos);
      } else {
        DerefInside(g, b, pos, end, f.pos, f.stop, s.target, s.optional);
      }
    }
  }

  lemma VariantInside(g: Types, b: Buffer, f: Frame, pos: nat, end: nat)
    requires Wire(g) && Even(g) && end <= |b| && f.VariantF? && f.t in g
    ensures GotInside(g, b, ReadVariant(g, b, f, pos, end))
  {
    var got := ReadVariant(g, b, f, pos, end);
    if got.Got? || (got.Fail? && got.why != Refused) {
      var u, from, stop := VariantReads(g, b, f, pos, end, got);
      ParseInside(g, b, u, from, stop);
    }
  }

  /** A variant that is not refused is read as its content is. */
  lemma VariantReads(g: Types, b: Buffer, f: Frame, pos: nat, end: nat, got: Got) returns (u: nat, from: nat, stop: nat)
    requires Wire(g) && end <= |b| && f.VariantF? && f.t in g
    requires got == ReadVariant(g, b, f, pos, end) && (got.Got? || (got.Fail? && got.why != Refused))
    ensures u in g && from <= stop <= end
    ensures got.Fail? ==> Parse(g, b, u, from, stop) == Bad(got.why)
    ensures got.Got? ==> Parse(g, b, u, from, stop) == got.out && got.frame.VariantF?
  {
    u, from, stop := g[f.t].slots[b[pos]].target, pos + 5, pos + 5 + U32(b, pos + 1);
  }

  lemma NestedInside(g: Types, b: Buffer, f: Frame, pos: nat, end: nat)
    requires Wire(g) && Even(g) && end <= |b| && f.NestedF? && f.t in g
    ensures GotInside(g, b, ReadNested(g, b, f, pos, end))
  {
    var got := ReadNested(g, b, f, pos, end);
    if got.Got? {
      var from := NestedGot(g, b, f, pos, end, got);
      ParseInside(g, b, g[f.t].slots[0].target, from, got.end);
    } else if got.Fail? && got.why != Refused {
      var from, stop := NestedFails(g, b, f, pos, end, got);
      ParseInside(g, b, g[f.t].slots[0].target, from, stop);
    }
  }

  lemma NestedFails(g: Types, b: Buffer, f: Frame, pos: nat, end: nat, got: Got) returns (from: nat, stop: nat)
    requires Wire(g) && end <= |b| && f.NestedF? && f.t in g
    requires got == ReadNested(g, b, f, pos, end) && got.Fail? && got.why != Refused
    ensures |g[f.t].slots| == 1 && from <= stop <= end
    ensures Parse(g, b, g[f.t].slots[0].target, from, stop) == Bad(got.why)
  {
    var n := U32(b, f.offset);
    from := if n == 0 then end else f.offset + 4;
    stop := from + n;
  }

  lemma OptionInside(g: Types, b: Buffer, f: Frame, pos: nat, end: nat)
    requires Wire(g) && Even(g) && pos <= end <= |b| && f.OptionF? && f.t in g
    ensures GotInside(g, b, ReadOption(g, b, f, pos, end))
  {
    if |g[f.t].slots| == 1 { DerefInside(g, b, pos + 4, end, pos, end, g[f.t].slots[0].target, true); }
  }

  lemma ReadInside(g: Types, b: Buffer, f: Frame, pos: nat, end: nat) returns (got: Got)
    requires Wire(g) && Gapless(g) && Even(g) && pos <= end <= |b| && !f.ItemF? && f.t in g
    requires Within(g, b, f) && Inside(g, b, f)
    ensures got == Read(g, b, f, pos, end) && GotInside(g, b, got)
  {
    got := Read(g, b, f, pos, end);
    match f
    case ObjectF(_, _, _, _) => ObjectInside(g, b, f, pos, end);
    case ArrayF(_, _, _) => ArrayInside(g, b, f, pos, end);
    case VariantF(_, _) => VariantInside(g, b, f, pos, end);
    case NestedF(_, _, _) => NestedInside(g, b, f, pos, end);
    case OptionF(_, _) => OptionInside(g, b, f, pos, end);
  }

  /** What is known of a state. */
  predicate Kept(g: Types, b: Buffer, p: Parser)
    requires Wire(g)
  {
    Sane(g, b, p) && AllWithin(g, b, p.stack) && AllInside(g, b, p.stack)
  }

  lemma CauseInside(g: Types, b: Buffer, p: Parser)
    requires Wire(g) && Gapless(g) && Even(g) && p.stack != [] && Kept(g, b, p)
    ensures Cause(g, b, p) != Outside
  {
    var f := p.stack[|p.stack| - 1];
    if !f.ItemF? && p.end <= |b| && f.t in g { var got := ReadInside(g, b, f, p.pos, p.end); }
  }

  lemma StackInside(g: Types, b: Buffer, p: Parser, p': Parser, item: Token)
    requires Wire(g) && Gapless(g) && Even(g) && p.stack != [] && Next(g, b, p) == Some((p', item))
    requires p.pos <= p.end && AllWithin(g, b, p.stack) && AllInside(g, b, p.stack)
    ensures AllInside(g, b, p'.stack)
  {
    var top := |p.stack| - 1;
    var f, rest := p.stack[top], p.stack[..top];
    assert Within(g, b, f) && Inside(g, b, f);
    if !f.ItemF? {
      var got := ReadInside(g, b, f, p.pos, p.end);
      if got.Got? { assert p'.stack == rest + [got.frame] + got.out.pushed; }
    }
  }

  lemma {:induction false} RunInside(g: Types, b: Buffer, p: Parser, ts: seq<Token>, why: Fault)
    requires Wire(g) && Gapless(g) && Even(g) && Kept(g, b, p) && Halts(g, b, p, ts, why)
    ensures why != Outside
    decreases |ts|
  {
    if p.stack != [] {
      if ts == [] {
        CauseInside(g, b, p);
      } else {
        var (p', item) := Next(g, b, p).value;
        SaneNext(g, b, p, p', item);
        StepWithin(g, b, p, p', item);
        StackInside(g, b, p, p', item);
        RunInside(g, b, p', ts[1..], why);
      }
    }
  }

  /** In a schema without gaps, whose arrays are whole, the parser reads nothing outside of any buffer. */
  lemma GaplessInside(g: Types, b: Buffer, root: nat, ts: seq<Token>, why: Fault)
    requires Wire(g) && Gapless(g) && Even(g) && root in g && Stops(g, b, root, ts, why)
    ensures why != Outside
  {
    var out := Parse(g, b, root, 0, |b|);
    ParseInside(g, b, root, 0, |b|);
    if out.Out? {
      ParseWithin(g, b, root, 0, |b|);
      var p := Parser(out.pos, |b|, out.pushed + [ItemF(Token(out.kind, out.data, 0))]);
      SaneStart(g, b, root, p);
      assert AllWithin(g, b, p.stack) && AllInside(g, b, p.stack);
      RunInside(g, b, p, ts, why);
    }
  }
}
