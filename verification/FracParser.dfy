/** The parser as an object: a cursor, the end of the data, and a stack of readers. */
module FracParser {
  import opened Leb128
  import opened SchemaMatch
  import opened SchemaLayout
  import opened FracWire
  import opened FracMachine
  import FracSane
  import FracEnds

  /** The state after reading a type: the cursor has moved, and its reader is on the stack. */
  predicate Follows(p: Parser, out: Out, p': Parser, fault: Fault) {
    if out.Bad? then fault == out.why else p' == Parser(out.pos, p.end, p.stack + out.pushed)
  }

  /** What a reader on top of `rest` did. */
  predicate Did(got: Got, rest: seq<Frame>, p': Parser, item: Option<Token>, fault: Fault) {
    match got
    case Fail(why) => item.None? && fault == why
    case Done(pos, end) => item == Some(END) && p' == Parser(pos, end, rest)
    case Got(f, out, end, index) =>
      if out.Bad? then item.None? && fault == out.why
      else item == Some(Token(out.kind, out.data, index)) && p' == Parser(out.pos, end, rest + [f] + out.pushed)
  }

  /** What comes of a variant. */
  predicate Opens(g: Types, b: Buffer, t: nat, pos: nat, end: nat, tag: nat, got: Got)
    requires Wire(g) && t in g && pos + 5 <= end <= |b|
  {
    var n := U32(b, pos + 1);
    if tag >= 128 || pos + 5 + n > end || tag >= |g[t].slots| then got == Fail(Refused)
    else got == Made(VariantF(t, end), Parse(g, b, g[t].slots[tag].target, pos + 5, pos + 5 + n), pos + 5 + n, tag)
  }

  class FracParser {
    const types: Types
    const src: Buffer
    var pos: nat
    var end: nat
    var stack: seq<Frame>
    /** Why reading ended early, once it has. */
    var fault: Fault

    constructor (types: Types, src: Buffer)
      ensures this.types == types && this.src == src && View() == Parser(0, |src|, [])
    {
      this.types := types;
      this.src := src;
      pos := 0;
      end := |src|;
      stack := [];
      fault := Refused;
    }

    function View(): Parser
      reads this
    {
      Parser(pos, end, stack)
    }

    /** A scalar at `at`. */
    method ReadAt(t: nat, at: nat) returns (kind: ItemKind, data: Buffer, ok: bool)
      requires Wire(types) && t in types && end <= |src|
      modifies this`pos, this`fault
      ensures var out := ReadScalar(types, src, t, at, end);
              ok == out.Out? && (ok ==> kind == out.kind && data == out.data)
                && Follows(old(View()), out, View(), fault)
    {
      pos := at + types[t].size;
      fault := Refused;
      if pos > end { return ScalarItem, [], false; }
      assert stack + [] == stack;
      return ScalarItem, src[at..pos], true;
    }

    /** Puts the reader of a type on the stack. */
    method PushType(t: nat, at: nat, pointer: bool) returns (ok: bool)
      requires Wire(types) && t in types && end <= |src|
      modifies this`pos, this`stack, this`fault
      ensures var out := Push(types, src, t, at, end, pointer);
              && ok == out.Out? && Follows(old(View()), out, View(), fault)
              && (ok ==> out.kind == StartItem(types[t].kind.Variant?) && out.data == [])
    {
      var c := types[t];
      pos, fault := at, Refused;
      match c.kind {
        case Object =>
          if pos + 2 > end { return false; }
          pos := pos + 2 + U16(src, pos);
          if pos > end { return false; }
          stack := stack + [ObjectF(t, at, 0, true)];
        case Struct =>
          pos := pos + Extent(Cut, c);
          if pos > end { return false; }
          stack := stack + [ObjectF(t, at, 0, true)];
        case Nested =>
          stack := stack + [NestedF(t, at, 0)];
        case Container =>
          if pos + 4 > end { return false; }
          var size := U32(src, pos);
          pos := pos + 4;
          if pos + size > end || (pointer && size == 0) { return false; }
          if Inline(types, c.slots[0]) == 0 { fault := Division; return false; }
          if size % Inline(types, c.slots[0]) != 0 { return false; }
          stack := stack + [ArrayF(t, pos, pos + size)];
          pos := pos + size;
        case Array =>
          pos := pos + c.size;
          if pos > end { return false; }
          stack := stack + [ArrayF(t, at, pos)];
        case Optional =>
          stack := stack + [OptionF(t, false)];
        case Variant =>
          stack := stack + [VariantF(t, 0)];
        case _ =>
          return false;
      }
      return true;
    }

    /** Follows a pointer. */
    method DerefAt(fixed: nat, fixedEnd: nat, t: nat, optional: bool) returns (kind: ItemKind, data: Buffer, ok: bool)
      requires Wire(types) && t in types && end <= |src| && fixedEnd <= |src|
      modifies this`pos, this`stack, this`fault
      ensures var out := Deref(types, src, old(pos), end, fixed, fixedEnd, t, optional);
              ok == out.Out? && (ok ==> kind == out.kind && data == out.data)
                && Follows(old(View()), out, View(), fault)
    {
      fault := Refused;
      if !Readable(fixed, fixedEnd) { return EmptyItem, [], false; }
      var at := Low(fixed, fixedEnd);
      if at + 4 > |src| { fault := Outside; return EmptyItem, [], false; }
      var offset := U32(src, at);
      if optional && offset == 1 {
        assert stack + [] == stack;
        return EmptyItem, [], true;
      }
      if !(IsContainer(types[t]) && offset == 0) && at + offset != pos { return EmptyItem, [], false; }
      if types[t].kind.Scalar? {
        kind, data, ok := ReadAt(t, at + offset);
      } else if offset == 0 {
        stack := stack + [ArrayF(t, at, at)];
        kind, data, ok := StartItem(types[t].kind.Variant?), [], true;
      } else {
        ok := PushType(t, at + offset, true);
        kind, data := StartItem(types[t].kind.Variant?), [];
      }
    }

    /** Reads a type at the cursor. */
    method ParseType(t: nat) returns (kind: ItemKind, data: Buffer, ok: bool)
      requires Wire(types) && t in types && end <= |src|
      modifies this`pos, this`stack, this`fault
      ensures var out := Parse(types, src, t, old(pos), end);
              ok == out.Out? && (ok ==> kind == out.kind && data == out.data)
                && Follows(old(View()), out, View(), fault)
    {
      if types[t].kind.Scalar? {
        kind, data, ok := ReadAt(t, pos);
      } else if types[t].kind.Optional? {
        var start := pos;
        pos := pos + 4;
        kind, data, ok := DerefAt(start, end, types[t].slots[0].target, true);
      } else {
        ok := PushType(t, pos, false);
        kind, data := StartItem(types[t].kind.Variant?), [];
      }
    }

    /** Fixed data in place. */
    method ParseFixedAt(t: nat, at: nat) returns (kind: ItemKind, data: Buffer, ok: bool)
      requires t in types
      modifies this`stack, this`fault
      ensures var out := ParseFixed(types, src, t, at, pos);
              ok == out.Out? && (ok ==> kind == out.kind && data == out.data)
                && Follows(old(View()), out, View(), fault)
    {
      kind, data, ok, fault := StartItem(types[t].kind.Variant?), [], false, Outside;
      if at + types[t].size > |src| { return; }
      match types[t].kind {
        case Scalar =>
          assert stack + [] == stack;
          kind, data, ok := ScalarItem, src[at..at + types[t].size], true;
        case Struct =>
          stack := stack + [ObjectF(t, at, 0, true)];
          ok := true;
        case Array =>
          stack := stack + [ArrayF(t, at, at + types[t].size)];
          ok := true;
        case _ =>
          fault := Refused;
      }
    }

    /** Reads fixed data in place; the reader on top becomes `f`. */
    method ReadInPlace(f: Frame, t: nat, at: nat) returns (item: Option<Token>)
      requires t in types && stack != []
      modifies this`stack, this`fault
      ensures Did(Made(f, ParseFixed(types, src, t, at, pos), end, 0), old(stack)[..|old(stack)| - 1], View(), item,
                  fault)
    {
      stack := stack[|stack| - 1 := f];
      var kind, data, ok := ParseFixedAt(t, at);
      return if ok then Some(Token(kind, data, 0)) else None;
    }

    /** Follows a pointer; the reader on top becomes `f`. */
    method ReadPointer(f: Frame, fixed: nat, fixedEnd: nat, t: nat, optional: bool) returns (item: Option<Token>)
      requires Wire(types) && t in types && end <= |src| && fixedEnd <= |src| && stack != []
      modifies this
      ensures var out := Deref(types, src, old(pos), old(end), fixed, fixedEnd, t, optional);
              Did(Made(f, out, old(end), 0), old(stack)[..|old(stack)| - 1], View(), item, fault)
    {
      stack := stack[|stack| - 1 := f];
      var kind, data, ok := DerefAt(fixed, fixedEnd, t, optional);
      return if ok then Some(Token(kind, data, 0)) else None;
    }

    /** Follows the pointer of a member, and notes whether it has a value. */
    method ReadMember(f: Frame, fixed: nat, fixedEnd: nat, t: nat, optional: bool) returns (item: Option<Token>)
      requires Wire(types) && t in types && end <= |src| && fixedEnd <= |src| && stack != [] && f.ObjectF?
      modifies this
      ensures var out := Deref(types, src, old(pos), old(end), fixed, fixedEnd, t, optional);
              Did(Made(f.(index := f.index + 1, last := out.Out? && out.kind != EmptyItem), out, old(end), 0),
                  old(stack)[..|old(stack)| - 1], View(), item, fault)
    {
      var top := |stack| - 1;
      item := ReadPointer(f, fixed, fixedEnd, t, optional);
      if item.Some? {
        stack := stack[top := ObjectF(f.t, f.start, f.index + 1, item.value.kind != EmptyItem)];
      }
    }

    /** The next member of an object or struct. */
    method NextObject(f: Frame) returns (item: Option<Token>)
      requires Wire(types) && end <= |src| && f.ObjectF? && f.t in types && stack != [] && stack[|stack| - 1] == f
      modifies this
      ensures Did(ReadObject(types, src, f, old(pos), old(end)), old(stack)[..|old(stack)| - 1], View(), item, fault)
    {
      var top := |stack| - 1;
      var c := types[f.t];
      fault := Outside;
      if c.kind.Object? && f.start + 2 > |src| { return None; }
      var (n, base) := FixedPart(src, c, f.start);
      if base + n > |src| { return None; }
      fault := Refused;
      if f.index >= |c.slots| {
        if n > c.size || (c.kind.Object? && !f.last) { return None; }
        stack := stack[..top];
        return Some(END);
      }
      item := ReadSlot(f, c.slots[f.index], base, n);
    }

    /** Reads a member from fixed data of `n` bytes at `base`. */
    method ReadSlot(f: Frame, s: Slot, base: nat, n: nat) returns (item: Option<Token>)
      requires Wire(types) && end <= |src| && base + n <= |src| && f.ObjectF? && f.t in types && stack != []
               && stack[|stack| - 1] == f
      requires f.index < |types[f.t].slots| && s == types[f.t].slots[f.index]
      requires types[f.t].kind.Object? ==> f.start + 2 <= |src|
      requires (n, base) == FixedPart(src, types[f.t], f.start) && fault == Refused
      modifies this
      ensures Did(ReadObject(types, src, f, old(pos), old(end)), old(stack)[..|old(stack)| - 1], View(), item, fault)
    {
      var top := |stack| - 1;
      var f' := ObjectF(f.t, f.start, f.index + 1, f.last);
      if FixedSlot(types, s) {
        if s.offset + types[s.target].size > n { return None; }
        item := ReadInPlace(f', s.target, base + s.offset);
      } else if s.optional && s.offset >= n {
        stack := stack[top := f'];
        item := Some(Token(EmptyItem, [], 0));
      } else {
        item := ReadMember(f, base + s.offset, base + n, s.target, s.optional);
      }
    }

    /** The next element of an array or list. */
    method NextElement(f: Frame) returns (item: Option<Token>)
      requires Wire(types) && end <= |src| && f.ArrayF? && f.t in types && stack != [] && stack[|stack| - 1] == f
      modifies this
      ensures Did(ReadArray(types, src, f, old(pos), old(end)), old(stack)[..|old(stack)| - 1], View(), item, fault)
    {
      var top := |stack| - 1;
      if f.pos == f.stop {
        stack := stack[..top];
        return Some(END);
      }
      fault := Outside;
      if f.stop > |src| || |types[f.t].slots| != 1 { return None; }
      var s := types[f.t].slots[0];
      var f' := ArrayF(f.t, f.pos + Inline(types, s), f.stop);
      if FixedSlot(types, s) {
        item := ReadInPlace(f', s.target, f.pos);
      } else {
        item := ReadPointer(f', f.pos, f.stop, s.target, s.optional);
      }
    }

    /** Reads a type from `from` on, with the data ending at `stop`; the reader on top becomes `f`. */
    method ReadWithin(f: Frame, t: nat, from: nat, stop: nat, index: nat, ghost got: Got) returns (item: Option<Token>)
      requires Wire(types) && t in types && stop <= |src| && stack != []
               && got == Made(f, Parse(types, src, t, from, stop), stop, index)
      modifies this
      ensures Did(got, old(stack)[..|old(stack)| - 1], View(), item, fault)
    {
      stack := stack[|stack| - 1 := f];
      pos, end := from, stop;
      var kind, data, ok := ParseType(t);
      return if ok then Some(Token(kind, data, index)) else None;
    }

    /** Ends data that was read within a size of its own: nothing may be left of it. */
    method CloseData(outer: nat) returns (item: Option<Token>)
      requires stack != []
      modifies this
      ensures var got := if old(pos) != old(end) then Fail(Refused) else Done(old(pos), outer);
              Did(got, old(stack)[..|old(stack)| - 1], View(), item, fault)
    {
      fault := Refused;
      if pos != end { return None; }
      end := outer;
      stack := stack[..|stack| - 1];
      return Some(END);
    }

    /** The content of a variant, within the size that it gives. */
    method NextAlternative(f: Frame) returns (item: Option<Token>)
      requires Wire(types) && end <= |src| && f.VariantF? && f.t in types && stack != [] && stack[|stack| - 1] == f
      modifies this
      ensures Did(ReadVariant(types, src, f, old(pos), old(end)), old(stack)[..|old(stack)| - 1], View(), item, fault)
    {
      fault := Refused;
      if f.outer != 0 {
        item := CloseData(f.outer);
      } else if pos + 5 > end {
        item := None;
      } else {
        item := OpenVariant(f, src[pos] as int, ReadVariant(types, src, f, pos, end));
      }
    }

    method OpenVariant(f: Frame, tag: nat, ghost got: Got) returns (item: Option<Token>)
      requires Wire(types) && end <= |src| && f.VariantF? && f.t in types && stack != []
      requires f.outer == 0 && pos + 5 <= end && src[pos] == tag && fault == Refused
               && Opens(types, src, f.t, pos, end, tag, got)
      modifies this
      ensures Did(got, old(stack)[..|old(stack)| - 1], View(), item, fault)
    {
      var size := U32(src, pos + 1);
      if tag >= 128 || pos + 5 + size > end || tag >= |types[f.t].slots| { return None; }
      item := ReadWithin(VariantF(f.t, end), types[f.t].slots[tag].target, pos + 5, pos + 5 + size, tag, got);
    }

    /** The content of nested data. */
    method NextNested(f: Frame) returns (item: Option<Token>)
      requires Wire(types) && end <= |src| && f.NestedF? && f.t in types && stack != [] && stack[|stack| - 1] == f
      modifies this
      ensures Did(ReadNested(types, src, f, old(pos), old(end)), old(stack)[..|old(stack)| - 1], View(), item, fault)
    {
      fault := Refused;
      if f.outer != 0 {
        item := CloseData(f.outer);
      } else if f.offset + 4 > end || |types[f.t].slots| != 1 {
        item := None;
      } else {
        item := OpenNested(f, types[f.t].slots[0].target);
      }
    }

    method OpenNested(f: Frame, t: nat) returns (item: Option<Token>)
      requires Wire(types) && end <= |src| && f.NestedF? && f.t in types && stack != [] && stack[|stack| - 1] == f
      requires f.outer == 0 && f.offset + 4 <= end && |types[f.t].slots| == 1 && t == types[f.t].slots[0].target
               && fault == Refused
      modifies this
      ensures Did(ReadNested(types, src, f, old(pos), old(end)), old(stack)[..|old(stack)| - 1], View(), item, fault)
    {
      var size := U32(src, f.offset);
      var from := if size == 0 then end else f.offset + 4;
      if from + size > end { return None; }
      item := ReadWithin(NestedF(f.t, f.offset, end), t, from, from + size, 0, ReadNested(types, src, f, pos, end));
    }

    /** The content of an optional value. */
    method NextOption(f: Frame) returns (item: Option<Token>)
      requires Wire(types) && end <= |src| && f.OptionF? && f.t in types && stack != [] && stack[|stack| - 1] == f
      modifies this
      ensures Did(ReadOption(types, src, f, old(pos), old(end)), old(stack)[..|old(stack)| - 1], View(), item, fault)
    {
      var top := |stack| - 1;
      if f.done {
        stack := stack[..top];
        return Some(END);
      }
      fault := Refused;
      if |types[f.t].slots| != 1 { return None; }
      var start := pos;
      pos := pos + 4;
      item := ReadPointer(OptionF(f.t, true), start, end, types[f.t].slots[0].target, true);
    }

    /** The next item; none is an error. */
    method NextItem() returns (item: Option<Token>)
      requires Wire(types) && stack != []
      modifies this
      ensures item.None? ==> Next(types, src, old(View())).None? && fault == Cause(types, src, old(View()))
      ensures item.Some? ==> Next(types, src, old(View())) == Some((View(), item.value))
    {
      var f := stack[|stack| - 1];
      if f.ItemF? {
        stack := stack[..|stack| - 1];
        return Some(f.token);
      }
      fault := Refused;
      if end > |src| || !Known(types, f) { return None; }
      match f
      case ObjectF(_, _, _, _) => item := NextObject(f);
      case ArrayF(_, _, _) => item := NextElement(f);
      case VariantF(_, _) => item := NextAlternative(f);
      case NestedF(_, _, _) => item := NextNested(f);
      case OptionF(_, _) => item := NextOption(f);
    }
  }

  /** The runs from `p0` are those that begin with `items` and go on from `p`, and so are those that end early. */
  ghost predicate Reaches(g: Types, b: Buffer, p0: Parser, items: seq<Token>, p: Parser)
    requires Wire(g)
  {
    && (forall ts {:trigger Runs(g, b, p0, ts)} :: Runs(g, b, p0, ts) <==> items <= ts && Runs(g, b, p, ts[|items|..]))
    && (forall ts, why {:trigger Halts(g, b, p0, ts, why)} ::
          Halts(g, b, p0, ts, why) <==> items <= ts && Halts(g, b, p, ts[|items|..], why))
  }

  lemma ReachesNext(g: Types, b: Buffer, p0: Parser, items: seq<Token>, p: Parser, p': Parser, t: Token)
    requires Wire(g) && Reaches(g, b, p0, items, p) && p.stack != [] && Next(g, b, p) == Some((p', t))
    ensures Reaches(g, b, p0, items + [t], p')
  {
    forall ts, why
      ensures Runs(g, b, p0, ts) <==> items + [t] <= ts && Runs(g, b, p', ts[|items| + 1..])
      ensures Halts(g, b, p0, ts, why) <==> items + [t] <= ts && Halts(g, b, p', ts[|items| + 1..], why)
    {
      if items <= ts && |ts| > |items| {
        assert ts[|items|..][1..] == ts[|items| + 1..] && ts[|items|..][0] == ts[|items|];
      }
    }
  }

  /** Nothing but this is answered. */
  ghost predicate Only(g: Types, b: Buffer, p0: Parser, answer: Answer)
    requires Wire(g)
  {
    && (answer.Accepted? <==> exists ts :: Runs(g, b, p0, ts))
    && forall why :: answer == Stopped(why) <==> exists ts :: Halts(g, b, p0, ts, why)
  }

  lemma ReachesError(g: Types, b: Buffer, p0: Parser, items: seq<Token>, p: Parser)
    requires Wire(g) && Reaches(g, b, p0, items, p) && p.stack != [] && Next(g, b, p).None?
    ensures Only(g, b, p0, Stopped(Cause(g, b, p)))
  {
    assert items[|items|..] == [];
    assert Halts(g, b, p, [], Cause(g, b, p));
    assert Halts(g, b, p0, items, Cause(g, b, p));
  }

  lemma ReachesEnd(g: Types, b: Buffer, p0: Parser, items: seq<Token>, p: Parser)
    requires Wire(g) && Reaches(g, b, p0, items, p) && p.stack == []
    ensures forall ts :: Runs(g, b, p0, ts) <==> ts == items && p.pos == |b|
    ensures Only(g, b, p0, if p.pos == |b| then Accepted else Stopped(Refused))
  {
    forall ts ensures Runs(g, b, p0, ts) <==> ts == items && p.pos == |b| {
      if items <= ts { assert ts[|items|..] == [] <==> ts == items; }
    }
    assert items[|items|..] == [];
    assert Runs(g, b, p0, items) <==> p.pos == |b|;
    assert Halts(g, b, p0, items, Refused) <==> p.pos != |b|;
  }

  /** Reads a buffer to its end, which is reached for every type of a compiled schema: the answer is that the
      buffer is valid, or it is how reading ends early. */
  method Validate(types: Types, src: Buffer, root: nat, ghost rank: map<nat, nat>)
    returns (answer: Answer, items: seq<Token>)
    requires Wire(types) && root in types && FracEnds.Founded(types, rank)
    ensures answer.Accepted? ==> Valid(types, src, root, items)
    ensures answer.Accepted? <==> exists ts :: Valid(types, src, root, ts)
    ensures forall why :: answer == Stopped(why) <==> exists ts :: Stops(types, src, root, ts, why)
  {
    items := [];
    var p := new FracParser(types, src);
    var kind, data, ok := p.ParseType(root);
    if !ok {
      assert Stops(types, src, root, [], p.fault);
      return Stopped(p.fault), [];
    }
    p.stack := p.stack + [ItemF(Token(kind, data, 0))];
    ghost var p0 := p.View();
    assert [] + Parse(types, src, root, 0, |src|).pushed == Parse(types, src, root, 0, |src|).pushed;
    assert forall ts :: Valid(types, src, root, ts) == Runs(types, src, p0, ts);
    assert forall ts, why :: Stops(types, src, root, ts, why) == Halts(types, src, p0, ts, why);
    assert forall ts: seq<Token> :: ts[0..] == ts;
    ghost var m, k := FracEnds.BoundsExist(types, rank, |src|);
    FracEnds.StartReady(types, rank, src, m, k, root, p0);
    FracSane.SaneStart(types, src, root, p0);
    while p.stack != []
      invariant p.types == types && p.src == src && Reaches(types, src, p0, items, p.View())
      invariant FracEnds.Ready(types, src, p.View()) && FracSane.Sane(types, src, p.View())
      decreases FracEnds.Potential(types, rank, src, m, k, p.View())
    {
      ghost var before := p.View();
      var item := p.NextItem();
      if item.None? {
        ReachesError(types, src, p0, items, before);
        return Stopped(p.fault), items;
      }
      ReachesNext(types, src, p0, items, before, p.View(), item.value);
      FracEnds.NextLessens(types, rank, src, m, k, before, p.View(), item.value);
      FracSane.SaneNext(types, src, before, p.View(), item.value);
      items := items + [item.value];
    }
    ReachesEnd(types, src, p0, items, p.View());
    answer := if p.pos == |src| then Accepted else Stopped(Refused);
  }
}
