/** States that the parser can be in: the cursor is not behind the end of its data, and arrays of pointers are
    whole. So a pointer is read behind the fixed data only for a member of an object. */
module FracSane {
  import opened Leb128
  import opened SchemaMatch
  import opened SchemaLayout
  import opened FracWire
  import opened FracMachine

  /** An array of pointers has a whole number of them left. */
  predicate WholeArray(g: Types, f: Frame)
    requires Wire(g)
  {
    f.ArrayF? && f.t in g && |g[f.t].slots| == 1 && !FixedSlot(g, g[f.t].slots[0]) ==>
      f.pos <= f.stop && (f.stop - f.pos) % 4 == 0
  }

  /** Readers below the top keep ends that are no earlier. */
  predicate Ends(stack: seq<Frame>, end: nat, n: nat)
    decreases |stack|
  {
    end <= n
    && (stack == [] ||
        var f, rest := stack[|stack| - 1], stack[..|stack| - 1];
        if (f.VariantF? || f.NestedF?) && f.outer != 0 then end <= f.outer && Ends(rest, f.outer, n)
        else Ends(rest, end, n))
  }

  predicate Sane(g: Types, b: Buffer, p: Parser)
    requires Wire(g)
  {
    p.pos <= p.end && Ends(p.stack, p.end, |b|) && forall i :: 0 <= i < |p.stack| ==> WholeArray(g, p.stack[i])
  }

  /** The pointer that a reader follows next, if any, lies in its fixed data. */
  predicate Snug(g: Types, b: Buffer, f: Frame, pos: nat, end: nat)
    requires Wire(g)
  {
    match f
    case ObjectF(_, _, _, _) => InFixed(g, b, f)
    case ArrayF(t, at, stop) =>
      t in g && |g[t].slots| == 1 && !FixedSlot(g, g[t].slots[0]) && at != stop ==> at + 4 <= stop
    case OptionF(_, done) => done || pos <= end
    case _ => true
  }

  predicate SnugTop(g: Types, b: Buffer, p: Parser)
    requires Wire(g) && p.stack != []
  {
    Snug(g, b, p.stack[|p.stack| - 1], p.pos, p.end)
  }

  lemma SaneIsSnug(g: Types, b: Buffer, p: Parser)
    requires Wire(g) && Sane(g, b, p) && p.stack != [] && InFixed(g, b, p.stack[|p.stack| - 1])
    ensures SnugTop(g, b, p)
  {
    assert WholeArray(g, p.stack[|p.stack| - 1]);
  }

  // ----- what reading puts on the stack

  /** New readers have kept no end, and read no further than the end. */
  predicate Fresh(g: Types, out: Out, end: nat)
    requires Wire(g)
  {
    out.Out? ==>
      && out.pos <= end && |out.pushed| <= 1
      && (out.pushed != [] ==> WholeArray(g, out.pushed[0]) && Unopened(out.pushed[0]))
  }

  predicate Unopened(f: Frame) { f.VariantF? || f.NestedF? ==> f.outer == 0 }

  lemma PushFresh(g: Types, b: Buffer, t: nat, at: nat, end: nat, pointer: bool)
    requires Wire(g) && t in g && at <= end <= |b|
    ensures Fresh(g, Push(g, b, t, at, end, pointer), end)
  {
    assert WireOk(g, g[t]);
  }

  lemma FollowedFresh(g: Types, b: Buffer, pos: nat, end: nat, at: nat, t: nat, optional: bool)
    requires Wire(g) && t in g && pos <= end <= |b| && at + 4 <= |b|
    ensures Fresh(g, Followed(g, b, pos, end, at, t, optional), end)
  {
    if at + U32(b, at) == pos { PushFresh(g, b, t, pos, end, true); }
  }

  lemma DerefFresh(g: Types, b: Buffer, pos: nat, end: nat, fixed: nat, fixedEnd: nat, t: nat, optional: bool)
    requires Wire(g) && t in g && pos <= end <= |b| && fixedEnd <= |b|
    ensures Fresh(g, Deref(g, b, pos, end, fixed, fixedEnd, t, optional), end)
  {
    if Low(fixed, fixedEnd) + 4 <= |b| { FollowedFresh(g, b, pos, end, Low(fixed, fixedEnd), t, optional); }
  }

  lemma ParseFresh(g: Types, b: Buffer, t: nat, pos: nat, end: nat)
    requires Wire(g) && t in g && pos <= end <= |b|
    ensures Fresh(g, Parse(g, b, t, pos, end), end)
  {
    if g[t].kind.Optional? {
      if pos + 4 <= end { DerefFresh(g, b, pos + 4, end, pos, end, g[t].slots[0].target, true); }
    } else if !g[t].kind.Scalar? {
      PushFresh(g, b, t, pos, end, false);
    }
  }

  lemma FixedFresh(g: Types, b: Buffer, t: nat, at: nat, pos: nat, end: nat)
    requires Wire(g) && t in g && pos <= end
    ensures Fresh(g, ParseFixed(g, b, t, at, pos), end)
  {
    assert WireOk(g, g[t]);
  }

  // ----- steps

  /** What a reader does to the ends. */
  predicate Decent(g: Types, f: Frame, pos: nat, end: nat, got: Got)
    requires Wire(g)
  {
    match got
    case Fail(_) => true
    case Done(pos', end') => pos' == pos && end' == if (f.VariantF? || f.NestedF?) && f.outer != 0 then f.outer else end
    case Got(f', out, end', _) =>
      && WholeArray(g, f') && Fresh(g, out, end') && end' <= end
      && (if f'.VariantF? || f'.NestedF? then Unopened(f) && f'.outer == end else Unopened(f) && end' == end)
  }

  /** A reader that goes on within the same data. */
  lemma GoesOn(g: Types, f: Frame, f': Frame, out: Out, pos: nat, end: nat, index: nat)
    requires Wire(g) && Unopened(f) && !f'.VariantF? && !f'.NestedF? && WholeArray(g, f') && Fresh(g, out, end)
    ensures Decent(g, f, pos, end, Made(f', out, end, index))
  {}

  lemma MemberDecent(g: Types, b: Buffer, f: Frame, pos: nat, end: nat, n: nat, base: nat, got: Got)
    requires Wire(g) && pos <= end <= |b| && f.ObjectF? && f.t in g && f.index < |g[f.t].slots| && base + n <= |b|
    requires var s := g[f.t].slots[f.index];
             var out := Deref(g, b, pos, end, base + s.offset, base + n, s.target, s.optional);
             got == if out.Bad? then Fail(out.why)
                    else Got(f.(index := f.index + 1, last := out.kind != EmptyItem), out, end, 0)
    ensures Decent(g, f, pos, end, got)
  {
    var s := g[f.t].slots[f.index];
    DerefFresh(g, b, pos, end, base + s.offset, base + n, s.target, s.optional);
  }

  lemma ObjectDecent(g: Types, b: Buffer, f: Frame, pos: nat, end: nat)
    requires Wire(g) && pos <= end <= |b| && f.ObjectF? && f.t in g
    ensures Decent(g, f, pos, end, ReadObject(g, b, f, pos, end))
  {
    var c, got := g[f.t], ReadObject(g, b, f, pos, end);
    if got.Got? {
      var (n, base) := FixedPart(b, c, f.start);
      var s, f' := c.slots[f.index], f.(index := f.index + 1);
      if FixedSlot(g, s) {
        FixedFresh(g, b, s.target, base + s.offset, pos, end);
        GoesOn(g, f, f', ParseFixed(g, b, s.target, base + s.offset, pos), pos, end, 0);
      } else if s.optional && s.offset >= n {
        GoesOn(g, f, f', Out([], pos, EmptyItem, []), pos, end, 0);
      } else {
        MemberDecent(g, b, f, pos, end, n, base, got);
      }
    }
  }

  lemma ArrayDecent(g: Types, b: Buffer, f: Frame, pos: nat, end: nat)
    requires Wire(g) && pos <= end <= |b| && f.ArrayF? && f.t in g && WholeArray(g, f)
    ensures Decent(g, f, pos, end, ReadArray(g, b, f, pos, end))
  {
    var got := ReadArray(g, b, f, pos, end);
    if got.Got? {
      var s := g[f.t].slots[0];
      if FixedSlot(g, s) {
        FixedFresh(g, b, s.target, f.pos, pos, end);
      } else {
        DerefFresh(g, b, pos, end, f.pos, f.stop, s.target, s.optional);
      }
    }
  }

  lemma VariantGot(g: Types, b: Buffer, f: Frame, pos: nat, end: nat, got: Got)
    requires Wire(g) && end <= |b| && f.VariantF? && f.t in g && got == ReadVariant(g, b, f, pos, end) && got.Got?
    ensures f.outer == 0 && pos + 5 <= got.end <= end && b[pos] < |g[f.t].slots| && got.frame == VariantF(f.t, end)
    ensures got.out == Parse(g, b, g[f.t].slots[b[pos]].target, pos + 5, got.end) && got.out.Out?
  {}

  lemma NestedGot(g: Types, b: Buffer, f: Frame, pos: nat, end: nat, got: Got) returns (from: nat)
    requires Wire(g) && end <= |b| && f.NestedF? && f.t in g && got == ReadNested(g, b, f, pos, end) && got.Got?
    ensures f.outer == 0 && |g[f.t].slots| == 1 && f.offset < from <= got.end <= end
    ensures got.frame == NestedF(f.t, f.offset, end)
    ensures got.out == Parse(g, b, g[f.t].slots[0].target, from, got.end) && got.out.Out?
  {
    from := if U32(b, f.offset) == 0 then end else f.offset + 4;
  }

  lemma VariantEnds(g: Types, b: Buffer, f: Frame, pos: nat, end: nat, got: Got)
    requires Wire(g) && end <= |b| && f.VariantF? && f.t in g && got == ReadVariant(g, b, f, pos, end) && !got.Got?
    ensures got.Fail? || (f.outer != 0 && got == Done(pos, f.outer))
  {}

  /** A reader that goes on within data of its own. */
  lemma OpensDecent(g: Types, f: Frame, pos: nat, end: nat, got: Got)
    requires Wire(g) && Unopened(f) && got.Got? && (got.frame.VariantF? || got.frame.NestedF?) && got.frame.outer == end
    requires Fresh(g, got.out, got.end) && got.end <= end
    ensures Decent(g, f, pos, end, got)
  {}

  lemma VariantOpens(g: Types, b: Buffer, f: Frame, pos: nat, end: nat, got: Got)
    requires Wire(g) && pos <= end <= |b| && f.VariantF? && f.t in g && got == ReadVariant(g, b, f, pos, end)
             && got.Got?
    ensures f.outer == 0 && got.end <= end && got.frame == VariantF(f.t, end) && Fresh(g, got.out, got.end)
  {
    VariantGot(g, b, f, pos, end, got);
    ParseFresh(g, b, g[f.t].slots[b[pos]].target, pos + 5, got.end);
  }

  lemma VariantDecent(g: Types, b: Buffer, f: Frame, pos: nat, end: nat)
    requires Wire(g) && pos <= end <= |b| && f.VariantF? && f.t in g
    ensures Decent(g, f, pos, end, ReadVariant(g, b, f, pos, end))
  {
    var got := ReadVariant(g, b, f, pos, end);
    if got.Got? {
      VariantOpens(g, b, f, pos, end, got);
      OpensDecent(g, f, pos, end, got);
    } else {
      VariantEnds(g, b, f, pos, end, got);
    }
  }

  lemma NestedDecent(g: Types, b: Buffer, f: Frame, pos: nat, end: nat)
    requires Wire(g) && pos <= end <= |b| && f.NestedF? && f.t in g
    ensures Decent(g, f, pos, end, ReadNested(g, b, f, pos, end))
  {
    var got := ReadNested(g, b, f, pos, end);
    if got.Got? {
      var from := NestedGot(g, b, f, pos, end, got);
      ParseFresh(g, b, g[f.t].slots[0].target, from, got.end);
      OpensDecent(g, f, pos, end, got);
    }
  }

  lemma OptionDecent(g: Types, b: Buffer, f: Frame, pos: nat, end: nat)
    requires Wire(g) && pos <= end <= |b| && f.OptionF? && f.t in g
    ensures Decent(g, f, pos, end, ReadOption(g, b, f, pos, end))
  {
    var got := ReadOption(g, b, f, pos, end);
    if got.Got? { DerefFresh(g, b, pos + 4, end, pos, end, g[f.t].slots[0].target, true); }
  }

  lemma ReadDecent(g: Types, b: Buffer, f: Frame, pos: nat, end: nat)
    requires Wire(g) && pos <= end <= |b| && !f.ItemF? && f.t in g && WholeArray(g, f)
    ensures Decent(g, f, pos, end, Read(g, b, f, pos, end))
  {
    match f
    case ObjectF(_, _, _, _) => ObjectDecent(g, b, f, pos, end);
    case ArrayF(_, _, _) => ArrayDecent(g, b, f, pos, end);
    case VariantF(_, _) => VariantDecent(g, b, f, pos, end);
    case NestedF(_, _, _) => NestedDecent(g, b, f, pos, end);
    case OptionF(_, _) => OptionDecent(g, b, f, pos, end);
  }

  lemma EndsSnoc(stack: seq<Frame>, f: Frame, end: nat, n: nat)
    ensures Ends(stack + [f], end, n) <==>
            end <= n && if (f.VariantF? || f.NestedF?) && f.outer != 0 then end <= f.outer && Ends(stack, f.outer, n)
                        else Ends(stack, end, n)
  {
    assert (stack + [f])[..|stack|] == stack;
  }

  lemma EndsPushed(stack: seq<Frame>, pushed: seq<Frame>, end: nat, n: nat)
    requires Ends(stack, end, n) && |pushed| <= 1 && (pushed != [] ==> Unopened(pushed[0]))
    ensures Ends(stack + pushed, end, n)
  {
    if pushed == [] {
      assert stack + pushed == stack;
    } else {
      assert pushed == [pushed[0]];
      EndsSnoc(stack, pushed[0], end, n);
    }
  }

  lemma GotEnds(rest: seq<Frame>, f: Frame, f': Frame, end: nat, end': nat, n: nat)
    requires Ends(rest + [f], end, n) && Unopened(f) && end' <= end
    requires if f'.VariantF? || f'.NestedF? then f'.outer == end else end' == end
    ensures Ends(rest + [f'], end', n)
  {
    EndsSnoc(rest, f, end, n);
    EndsSnoc(rest, f', end', n);
    Shrink(rest, end, end', n);
  }

  lemma {:induction false} Shrink(stack: seq<Frame>, end: nat, end': nat, n: nat)
    requires Ends(stack, end, n) && end' <= end
    ensures Ends(stack, end', n)
    decreases |stack|
  {
    if stack != [] {
      var f := stack[|stack| - 1];
      if !((f.VariantF? || f.NestedF?) && f.outer != 0) { Shrink(stack[..|stack| - 1], end, end', n); }
    }
  }

  lemma WholeArrays(g: Types, p: Parser, rest: seq<Frame>, more: seq<Frame>, p': Parser)
    requires Wire(g) && forall i :: 0 <= i < |p.stack| ==> WholeArray(g, p.stack[i])
    requires p.stack != [] && rest == p.stack[..|p.stack| - 1] && p'.stack == rest + more
    requires forall i :: 0 <= i < |more| ==> WholeArray(g, more[i])
    ensures forall i :: 0 <= i < |p'.stack| ==> WholeArray(g, p'.stack[i])
  {
    forall i | 0 <= i < |p'.stack| ensures WholeArray(g, p'.stack[i]) {
      if i < |rest| { assert p'.stack[i] == p.stack[i]; } else { assert p'.stack[i] == more[i - |rest|]; }
    }
  }

  lemma GotSane(g: Types, b: Buffer, p: Parser, rest: seq<Frame>, f: Frame, got: Got, p': Parser)
    requires Wire(g) && Sane(g, b, p) && p.stack == rest + [f] && got.Got? && got.out.Out?
    requires Decent(g, f, p.pos, p.end, got) && p' == Parser(got.out.pos, got.end, rest + [got.frame] + got.out.pushed)
    ensures Sane(g, b, p')
  {
    GotEnds(rest, f, got.frame, p.end, got.end, |b|);
    EndsPushed(rest + [got.frame], got.out.pushed, got.end, |b|);
    assert rest + [got.frame] + got.out.pushed == rest + ([got.frame] + got.out.pushed);
    assert p.stack[..|p.stack| - 1] == rest;
    WholeArrays(g, p, rest, [got.frame] + got.out.pushed, p');
  }

  lemma DoneSane(g: Types, b: Buffer, p: Parser, rest: seq<Frame>, f: Frame, p': Parser)
    requires Wire(g) && Sane(g, b, p) && p.stack == rest + [f] && p'.pos == p.pos && p'.stack == rest
    requires p'.end == if (f.VariantF? || f.NestedF?) && f.outer != 0 then f.outer else p.end
    ensures Sane(g, b, p')
  {
    EndsSnoc(rest, f, p.end, |b|);
    assert p.stack[..|p.stack| - 1] == rest && rest + [] == rest;
    WholeArrays(g, p, rest, [], p');
  }

  /** A step, as what the reader on top does. */
  lemma NextIs(g: Types, b: Buffer, p: Parser, rest: seq<Frame>, f: Frame, p': Parser, item: Token) returns (got: Got)
    requires Wire(g) && p.pos <= p.end && WholeArray(g, f) && !f.ItemF?
    requires p.stack != [] && f == p.stack[|p.stack| - 1] && rest == p.stack[..|p.stack| - 1]
    requires Next(g, b, p) == Some((p', item))
    ensures !got.Fail? && Decent(g, f, p.pos, p.end, got)
    ensures got.Done? ==> p' == Parser(got.pos, got.end, rest)
    ensures got.Got? ==> got.out.Out? && p' == Parser(got.out.pos, got.end, rest + [got.frame] + got.out.pushed)
  {
    ReadDecent(g, b, f, p.pos, p.end);
    got := Read(g, b, f, p.pos, p.end);
  }

  /** Every step keeps this. */
  lemma SaneNext(g: Types, b: Buffer, p: Parser, p': Parser, item: Token)
    requires Wire(g) && Sane(g, b, p) && p.stack != [] && Next(g, b, p) == Some((p', item))
    ensures Sane(g, b, p')
  {
    var f, rest := p.stack[|p.stack| - 1], p.stack[..|p.stack| - 1];
    assert p.stack == rest + [f] && WholeArray(g, f);
    if f.ItemF? {
      DoneSane(g, b, p, rest, f, p');
    } else {
      var got := NextIs(g, b, p, rest, f, p', item);
      if got.Got? { GotSane(g, b, p, rest, f, got, p'); } else { DoneSane(g, b, p, rest, f, p'); }
    }
  }

  /** The parser as it begins. */
  lemma SaneStart(g: Types, b: Buffer, root: nat, p: Parser)
    requires Wire(g) && root in g
    requires var out := Parse(g, b, root, 0, |b|);
             out.Out? && p == Parser(out.pos, |b|, out.pushed + [ItemF(Token(out.kind, out.data, 0))])
    ensures Sane(g, b, p)
  {
    var out := Parse(g, b, root, 0, |b|);
    ParseFresh(g, b, root, 0, |b|);
    EndsPushed([], out.pushed, |b|, |b|);
    assert [] + out.pushed == out.pushed;
    EndsSnoc(out.pushed, ItemF(Token(out.kind, out.data, 0)), |b|, |b|);
  }
}
