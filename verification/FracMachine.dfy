/** The fracpack parser with its explicit stack of readers, on buffers without unknown extensions. */
module FracMachine {
  import opened Leb128
  import opened SchemaMatch
  import opened SchemaLayout
  import opened FracWire

  // ----- items

  /** A start item tells whether its type is a variant. */
  datatype ItemKind = ScalarItem | EmptyItem | StartItem(variant: bool) | EndItem
  datatype Token = Token(kind: ItemKind, data: Buffer, index: nat)

  const END := Token(EndItem, [], 0)

  /** The items of a value. The index is that of the alternative for the content of a variant; for the
      members of an object it follows from the order. */
  function Tokens(v: Val, index: nat): (ts: seq<Token>)
    ensures ts != [] && ts[0].kind != EndItem && ts[0].index == index
    decreases Count(v), 1
  {
    match v
    case Leaf(data) => [Token(ScalarItem, data, index)]
    case Nil => [Token(EmptyItem, [], index)]
    case Node(_) => [Token(StartItem(false), [], index)] + Tail(v)
    case Alt(_, _) => [Token(StartItem(true), [], index)] + Tail(v)
  }

  /** What follows the start item of a group. */
  function Tail(v: Val): seq<Token>
    requires v.Node? || v.Alt?
    decreases Count(v), 0
  {
    match v
    case Node(kids) => TokensAll(kids) + [END]
    case Alt(tag, kid) => Tokens(kid, tag) + [END]
  }

  function TokensAll(vs: seq<Val>): seq<Token>
    decreases CountAll(vs), 2
  {
    if vs == [] then [] else Tokens(vs[0], 0) + TokensAll(vs[1..])
  }

  // ----- readers

  datatype Frame =
    | ObjectF(t: nat, start: nat, index: nat, last: bool)
    | OptionF(t: nat, done: bool)
    | ArrayF(t: nat, pos: nat, stop: nat)
    | VariantF(t: nat, outer: nat)
    | NestedF(t: nat, offset: nat, outer: nat)
    | ItemF(token: Token)

  /** How reading ends early: with an error, with a read outside of the buffer, or with a division by zero. */
  datatype Fault = Refused | Outside | Division

  /** What reading a type gives: the readers pushed, the new position, and the item. */
  datatype Out = Bad(why: Fault) | Out(pushed: seq<Frame>, pos: nat, kind: ItemKind, data: Buffer)

  function ReadScalar(g: Types, b: Buffer, t: nat, at: nat, end: nat): Out
    requires t in g && end <= |b|
  {
    if at + g[t].size > end then Bad(Refused) else Out([], at + g[t].size, ScalarItem, b[at..at + g[t].size])
  }

  function StartOut(f: Frame, pos: nat, c: Compiled): Out { Out([f], pos, StartItem(c.kind.Variant?), []) }

  /** `push`. Positions do not wrap: a sum that would is beyond the end of the buffer. */
  function Push(g: Types, b: Buffer, t: nat, at: nat, end: nat, pointer: bool): Out
    requires Wire(g) && t in g && end <= |b|
  {
    var c := g[t];
    match c.kind
    case Object =>
      if at + 2 > end || at + 2 + U16(b, at) > end then Bad(Refused)
      else StartOut(ObjectF(t, at, 0, true), at + 2 + U16(b, at), c)
    case Struct =>
      if at + Extent(Cut, c) > end then Bad(Refused)
      else StartOut(ObjectF(t, at, 0, true), at + Extent(Cut, c), c)
    case Nested => StartOut(NestedF(t, at, 0), at, c)
    case Container =>
      if at + 4 > end || at + 4 + U32(b, at) > end then Bad(Refused)
      else if pointer && U32(b, at) == 0 then Bad(Refused)
      else if Inline(g, c.slots[0]) == 0 then Bad(Division)
      else if U32(b, at) % Inline(g, c.slots[0]) != 0 then Bad(Refused)
      else StartOut(ArrayF(t, at + 4, at + 4 + U32(b, at)), at + 4 + U32(b, at), c)
    case Array => if at + c.size > end then Bad(Refused) else StartOut(ArrayF(t, at, at + c.size), at + c.size, c)
    case Optional => StartOut(OptionF(t, false), at, c)
    case Variant => StartOut(VariantF(t, 0), at, c)
    case _ => Bad(Refused)
  }

  /** Positions have 32 bits. The room for a pointer is a difference, which wraps around when the pointer lies
      behind the fixed data. */
  predicate Readable(fixed: nat, fixedEnd: nat) {
    if fixed <= fixedEnd then fixed + 4 <= fixedEnd else (fixedEnd - fixed) % 0x1_0000_0000 >= 4
  }

  /** Where a pointer is read. */
  function Low(fixed: nat, fixedEnd: nat): nat { if fixed <= fixedEnd then fixed else fixed % 0x1_0000_0000 }

  /** `deref`: a pointer at `fixed`, for fixed data that ends at `fixedEnd`; the heap is at `pos`. */
  function Deref(g: Types, b: Buffer, pos: nat, end: nat, fixed: nat, fixedEnd: nat, t: nat, optional: bool): Out
    requires Wire(g) && t in g && end <= |b| && fixedEnd <= |b|
  {
    if !Readable(fixed, fixedEnd) then Bad(Refused)
    else if Low(fixed, fixedEnd) + 4 > |b| then Bad(Outside)
    else Followed(g, b, pos, end, Low(fixed, fixedEnd), t, optional)
  }

  /** What the pointer at `at` leads to. */
  function Followed(g: Types, b: Buffer, pos: nat, end: nat, at: nat, t: nat, optional: bool): Out
    requires Wire(g) && t in g && end <= |b| && at + 4 <= |b|
  {
    var offset := U32(b, at);
    if optional && offset == 1 then Out([], pos, EmptyItem, [])
    else if !(IsContainer(g[t]) && offset == 0) && at + offset != pos then Bad(Refused)
    else if g[t].kind.Scalar? then ReadScalar(g, b, t, at + offset, end)
    else if offset == 0 then Out([ArrayF(t, at, at)], pos, StartItem(g[t].kind.Variant?), [])
    else Push(g, b, t, at + offset, end, true)
  }

  function Parse(g: Types, b: Buffer, t: nat, pos: nat, end: nat): Out
    requires Wire(g) && t in g && end <= |b|
  {
    if g[t].kind.Scalar? then ReadScalar(g, b, t, pos, end)
    else if g[t].kind.Optional? then Deref(g, b, pos + 4, end, pos, end, g[t].slots[0].target, true)
    else Push(g, b, t, pos, end, false)
  }

  /** `parse_fixed`; the position does not change. */
  function ParseFixed(g: Types, b: Buffer, t: nat, at: nat, pos: nat): Out
    requires t in g
  {
    if at + g[t].size > |b| then Bad(Outside)
    else
      match g[t].kind
      case Scalar => Out([], pos, ScalarItem, b[at..at + g[t].size])
      case Struct => StartOut(ObjectF(t, at, 0, true), pos, g[t])
      case Array => StartOut(ArrayF(t, at, at + g[t].size), pos, g[t])
      case _ => Bad(Refused)
  }

  /** The result of a reader: itself as it goes on, what it read, and the end of the data from now on. */
  datatype Got = Fail(why: Fault) | Got(frame: Frame, out: Out, end: nat, index: nat) | Done(pos: nat, end: nat)

  function Made(f: Frame, out: Out, end: nat, index: nat): Got {
    if out.Bad? then Fail(out.why) else Got(f, out, end, index)
  }

  /** The size of the fixed data of an object, and where it begins. Of a struct's size 16 bits are kept. */
  function FixedPart(b: Buffer, c: Compiled, start: nat): (r: (nat, nat))
    requires start + 2 <= |b| || !c.kind.Object?
  {
    if c.kind.Object? then (U16(b, start), start + 2) else (Extent(Cut, c), start)
  }

  function ReadObject(g: Types, b: Buffer, f: Frame, pos: nat, end: nat): Got
    requires Wire(g) && end <= |b| && f.ObjectF? && f.t in g
  {
    var c := g[f.t];
    if c.kind.Object? && f.start + 2 > |b| then Fail(Outside)
    else
      var (n, base) := FixedPart(b, c, f.start);
      if base + n > |b| then Fail(Outside)
      else if f.index >= |c.slots| then
        if n > c.size || (c.kind.Object? && !f.last) then Fail(Refused) else Done(pos, end)
      else
        var s := c.slots[f.index];
        if FixedSlot(g, s) then
          if s.offset + g[s.target].size > n then Fail(Refused)
          else Made(f.(index := f.index + 1), ParseFixed(g, b, s.target, base + s.offset, pos), end, 0)
        else if s.optional && s.offset >= n then Got(f.(index := f.index + 1), Out([], pos, EmptyItem, []), end, 0)
        else
          var out := Deref(g, b, pos, end, base + s.offset, base + n, s.target, s.optional);
          if out.Bad? then Fail(out.why)
          else Got(f.(index := f.index + 1, last := out.kind != EmptyItem), out, end, 0)
  }

  function ReadArray(g: Types, b: Buffer, f: Frame, pos: nat, end: nat): Got
    requires Wire(g) && end <= |b| && f.ArrayF? && f.t in g
  {
    if f.pos == f.stop then Done(pos, end)
    else if f.stop > |b| || |g[f.t].slots| != 1 then Fail(Outside)
    else
      var s := g[f.t].slots[0];
      if FixedSlot(g, s) then Made(f.(pos := f.pos + g[s.target].size), ParseFixed(g, b, s.target, f.pos, pos), end, 0)
      else Made(f.(pos := f.pos + 4), Deref(g, b, pos, end, f.pos, f.stop, s.target, s.optional), end, 0)
  }

  function ReadVariant(g: Types, b: Buffer, f: Frame, pos: nat, end: nat): Got
    requires Wire(g) && end <= |b| && f.VariantF? && f.t in g
  {
    if f.outer != 0 then if pos != end then Fail(Refused) else Done(pos, f.outer)
    else if pos + 5 > end then Fail(Refused)
    else
      var tag, n := b[pos], U32(b, pos + 1);
      if tag >= 128 || pos + 5 + n > end || tag >= |g[f.t].slots| then Fail(Refused)
      else Made(VariantF(f.t, end), Parse(g, b, g[f.t].slots[tag].target, pos + 5, pos + 5 + n), pos + 5 + n, tag)
  }

  function ReadNested(g: Types, b: Buffer, f: Frame, pos: nat, end: nat): Got
    requires Wire(g) && end <= |b| && f.NestedF? && f.t in g
  {
    if f.outer != 0 then if pos != end then Fail(Refused) else Done(pos, f.outer)
    else if f.offset + 4 > end || |g[f.t].slots| != 1 then Fail(Refused)
    else
      var n, t := U32(b, f.offset), g[f.t].slots[0].target;
      var from := if n == 0 then end else f.offset + 4;
      if from + n > end then Fail(Refused)
      else Made(NestedF(f.t, f.offset, end), Parse(g, b, t, from, from + n), from + n, 0)
  }

  function ReadOption(g: Types, b: Buffer, f: Frame, pos: nat, end: nat): Got
    requires Wire(g) && end <= |b| && f.OptionF? && f.t in g
  {
    if f.done then Done(pos, end)
    else if |g[f.t].slots| != 1 then Fail(Refused)
    else Made(f.(done := true), Deref(g, b, pos + 4, end, pos, end, g[f.t].slots[0].target, true), end, 0)
  }

  // ----- the parser

  datatype Parser = Parser(pos: nat, end: nat, stack: seq<Frame>)

  predicate Known(g: Types, f: Frame) { f.ItemF? || f.t in g }

  function Read(g: Types, b: Buffer, f: Frame, pos: nat, end: nat): Got
    requires Wire(g) && end <= |b| && Known(g, f) && !f.ItemF?
  {
    match f
    case ObjectF(_, _, _, _) => ReadObject(g, b, f, pos, end)
    case ArrayF(_, _, _) => ReadArray(g, b, f, pos, end)
    case VariantF(_, _) => ReadVariant(g, b, f, pos, end)
    case NestedF(_, _, _) => ReadNested(g, b, f, pos, end)
    case OptionF(_, _) => ReadOption(g, b, f, pos, end)
  }

  /** `next`: the item, and the parser afterwards; None when it ends early. */
  function Next(g: Types, b: Buffer, p: Parser): Option<(Parser, Token)>
    requires Wire(g) && p.stack != []
  {
    var n := |p.stack| - 1;
    var f, rest := p.stack[n], p.stack[..n];
    if f.ItemF? then Some((p.(stack := rest), f.token))
    else if p.end > |b| || !Known(g, f) then None
    else
      match Read(g, b, f, p.pos, p.end)
      case Fail(_) => None
      case Done(pos, end) => Some((Parser(pos, end, rest), END))
      case Got(f', out, end, index) =>
        if out.Bad? then None
        else Some((Parser(out.pos, end, rest + [f'] + out.pushed), Token(out.kind, out.data, index)))
  }

  /** Why the parser ends early. */
  function Cause(g: Types, b: Buffer, p: Parser): Fault
    requires Wire(g) && p.stack != []
  {
    var f := p.stack[|p.stack| - 1];
    if f.ItemF? || p.end > |b| || !Known(g, f) then Refused
    else
      var got := Read(g, b, f, p.pos, p.end);
      if got.Fail? then got.why else if got.Got? && got.out.Bad? then got.out.why else Refused
  }

  /** The fixed data of an object reaches the next pointer that it cannot do without. */
  predicate InFixed(g: Types, b: Buffer, f: Frame)
    requires Wire(g)
  {
    f.ObjectF? && f.t in g && f.index < |g[f.t].slots| && (g[f.t].kind.Object? ==> f.start + 2 <= |b|) ==>
      var s := g[f.t].slots[f.index];
      FixedSlot(g, s) || s.optional || s.offset + 4 <= FixedPart(b, g[f.t], f.start).0
  }

  /** The parser gives exactly these items, and ends at the end of the buffer. */
  predicate Runs(g: Types, b: Buffer, p: Parser, ts: seq<Token>)
    requires Wire(g)
    decreases |ts|
  {
    if ts == [] then p.stack == [] && p.pos == |b|
    else
      p.stack != [] && Next(g, b, p).Some? && Next(g, b, p).value.1 == ts[0]
        && Runs(g, b, Next(g, b, p).value.0, ts[1..])
  }

  /** `fracpack_validate` answers `valid`, after these items. */
  predicate Valid(g: Types, b: Buffer, root: nat, ts: seq<Token>)
    requires Wire(g) && root in g
  {
    var out := Parse(g, b, root, 0, |b|);
    out.Out? && Runs(g, b, Parser(out.pos, |b|, out.pushed + [ItemF(Token(out.kind, out.data, 0))]), ts)
  }

  /** Reading ends: the buffer is valid, or not. */
  datatype Answer = Accepted | Stopped(why: Fault)

  /** After these items the parser ends early, or in front of bytes that are left over. */
  predicate Halts(g: Types, b: Buffer, p: Parser, ts: seq<Token>, why: Fault)
    requires Wire(g)
    decreases |ts|
  {
    if p.stack == [] then ts == [] && p.pos != |b| && why == Refused
    else if ts == [] then Next(g, b, p).None? && Cause(g, b, p) == why
    else
      Next(g, b, p).Some? && Next(g, b, p).value.1 == ts[0]
        && Halts(g, b, Next(g, b, p).value.0, ts[1..], why)
  }

  /** `fracpack_validate` ends early, after these items. */
  predicate Stops(g: Types, b: Buffer, root: nat, ts: seq<Token>, why: Fault)
    requires Wire(g) && root in g
  {
    var out := Parse(g, b, root, 0, |b|);
    if out.Bad? then ts == [] && why == out.why
    else Halts(g, b, Parser(out.pos, |b|, out.pushed + [ItemF(Token(out.kind, out.data, 0))]), ts, why)
  }

  /** Along these items, the fixed data of every object that is read reaches its pointers. */
  predicate Stays(g: Types, b: Buffer, p: Parser, ts: seq<Token>)
    requires Wire(g)
    decreases |ts|
  {
    ts == [] || p.stack == [] || Next(g, b, p).None?
    || (InFixed(g, b, p.stack[|p.stack| - 1]) && Stays(g, b, Next(g, b, p).value.0, ts[1..]))
  }

  /** `valid`, and the fixed data of every object that was read reaches each pointer that is not optional. */
  predicate Proper(g: Types, b: Buffer, root: nat, ts: seq<Token>)
    requires Wire(g) && root in g
  {
    Valid(g, b, root, ts)
    && var out := Parse(g, b, root, 0, |b|);
       Stays(g, b, Parser(out.pos, |b|, out.pushed + [ItemF(Token(out.kind, out.data, 0))]), ts)
  }
}
