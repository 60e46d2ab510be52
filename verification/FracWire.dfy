/** The fracpack wire format over compiled types: when a buffer holds a value, and why only one buffer does. */
module FracWire {
  import opened Leb128
  import opened SchemaMatch
  import opened SchemaLayout

  type Buffer = seq<byte>

  /** What a reader reports of a value: scalar bytes, an absent optional, or a bracketed group. A group
      of a variant names the alternative. */
  datatype Val = Leaf(data: Buffer) | Nil | Node(kids: seq<Val>) | Alt(tag: nat, kid: Val)

  function Count(v: Val): (n: nat)
    ensures n > 0
  {
    match v
    case Leaf(_) => 1
    case Nil => 1
    case Node(kids) => 1 + CountAll(kids)
    case Alt(_, kid) => 1 + Count(kid)
  }

  function CountAll(vs: seq<Val>): nat { if vs == [] then 0 else Count(vs[0]) + CountAll(vs[1..]) }

  // ----- types

  function Inline(g: Types, s: Slot): nat
    requires s.target in g
  {
    if s.optional || g[s.target].variable then 4 else g[s.target].size
  }

  /** Where member `i` begins in the fixed part, or where the fixed part ends. */
  function Begin(c: Compiled, i: nat): nat
    requires i <= |c.slots|
  {
    if i < |c.slots| then c.slots[i].offset else c.size
  }

  predicate SlotsKnown(g: Types, c: Compiled) { forall i :: 0 <= i < |c.slots| ==> c.slots[i].target in g }

  /** The members lie one after the other from the start of the fixed part. */
  predicate Tiled(g: Types, c: Compiled)
    requires SlotsKnown(g, c)
  {
    Begin(c, 0) == 0 && forall i :: 0 <= i < |c.slots| ==> Begin(c, i + 1) == Begin(c, i) + Inline(g, c.slots[i])
  }

  predicate FixedSlot(g: Types, s: Slot)
    requires s.target in g
  {
    !s.optional && !g[s.target].variable
  }

  /** The members of a type are types, and a wrapper has one. */
  predicate Shaped(g: Types, c: Compiled) {
    && SlotsKnown(g, c) && !c.kind.Custom? && !c.kind.Uninitialized?
    && (c.kind.Array? || c.kind.Container? || c.kind.Optional? || c.kind.Nested? ==> |c.slots| == 1)
  }

  /** A compiled type as the schema compiler makes it. */
  predicate WireOk(g: Types, c: Compiled) {
    && Shaped(g, c)
    && match c.kind
       case Scalar => !c.variable
       case Struct => Tiled(g, c) && (!c.variable ==> forall i :: 0 <= i < |c.slots| ==> FixedSlot(g, c.slots[i]))
       case Object => c.variable && Tiled(g, c)
       case Array => (!c.variable ==> FixedSlot(g, c.slots[0])) && (!FixedSlot(g, c.slots[0]) ==> c.size % 4 == 0)
       case _ => c.variable
  }

  predicate Wire(g: Types) {
    && (forall t {:trigger g[t]} :: t in g ==> Shaped(g, g[t]))
    && (forall t {:trigger WireOk(g, g[t])} :: t in g ==> WireOk(g, g[t]))
  }

  /** How a struct is read: with all the bytes of its members, or with the low 16 bits of their number. */
  datatype Reading = Whole | Cut

  function Extent(w: Reading, c: Compiled): (n: nat)
    ensures n <= c.size && (w.Whole? || c.size < 0x1_0000 ==> n == c.size) && (w.Cut? ==> n < 0x1_0000)
  {
    if w.Cut? then c.size % 0x1_0000 else c.size
  }

  /** A type with a value of no bytes, which is built from such types in fewer than `d` levels. */
  predicate Hollow(g: Types, t: nat, d: nat)
    requires Wire(g)
    decreases d, 0
  {
    && d > 0 && t in g
    && match g[t].kind
       case Scalar => g[t].size == 0
       case Array => g[t].size == 0
       case Struct => Extent(Cut, g[t]) == 0
         && forall i :: 0 <= i < |g[t].slots| ==> HollowSlot(g, g[t].slots[i], d - 1)
       case _ => false
  }

  /** A member that needs no bytes: it has none, or it may be left out. */
  predicate HollowSlot(g: Types, s: Slot, d: nat)
    requires Wire(g) && s.target in g
    decreases d, 1
  {
    if FixedSlot(g, s) then s.offset + g[s.target].size == 0 && Hollow(g, s.target, d) else s.optional
  }

  /** Nested data is never empty. */
  ghost predicate NestedSized(g: Types)
    requires Wire(g)
  {
    forall t {:trigger ContentSized(g, t)} :: t in g ==> ContentSized(g, t)
  }

  ghost predicate ContentSized(g: Types, t: nat)
    requires Wire(g) && t in g
  {
    g[t].kind.Nested? ==> forall d :: !Hollow(g, g[t].slots[0].target, d)
  }

  predicate IsContainer(c: Compiled) { c.kind.Container? || c.kind.Nested? }

  // ----- numbers in a buffer

  function U16(b: Buffer, pos: nat): nat
    requires pos + 2 <= |b|
  {
    var lo: int, hi: int := b[pos], b[pos + 1];
    lo + 256 * hi
  }

  function U32(b: Buffer, pos: nat): nat
    requires pos + 4 <= |b|
  {
    U16(b, pos) + 65536 * U16(b, pos + 2)
  }

  /** Two buffers reach over [lo, hi) and agree on it. */
  predicate Same(b: Buffer, b': Buffer, lo: nat, hi: nat) { forall i: nat :: lo <= i < hi ==> SameAt(b, b', i) }

  predicate SameAt(b: Buffer, b': Buffer, i: nat) { i < |b| && i < |b'| && b[i] == b'[i] }

  lemma SameU16(b: Buffer, b': Buffer, pos: nat)
    requires pos + 2 <= |b| && pos + 2 <= |b'| && U16(b, pos) == U16(b', pos)
    ensures Same(b, b', pos, pos + 2)
  {}

  lemma SameU32(b: Buffer, b': Buffer, pos: nat)
    requires pos + 4 <= |b| && pos + 4 <= |b'| && U32(b, pos) == U32(b', pos)
    ensures Same(b, b', pos, pos + 4)
  {
    SameU16(b, b', pos);
    SameU16(b, b', pos + 2);
  }

  // ----- lengths, which depend on the value only

  /** An optional member that is not there. */
  predicate Absent(s: Slot, v: Val) { s.optional && v == Nil }

  /** How many members of an object are written: trailing absent ones are left out. */
  function Present(c: Compiled, vs: seq<Val>, i: nat): (k: nat)
    ensures k >= i && (i + |vs| <= |c.slots| ==> k <= i + |vs|)
    decreases |vs|
  {
    if vs == [] || i >= |c.slots| then i
    else var k := Present(c, vs[1..], i + 1); if k == i + 1 && Absent(c.slots[i], vs[0]) then i else k
  }

  function FixedBytes(c: Compiled, vs: seq<Val>): nat
    requires |vs| == |c.slots|
  {
    Begin(c, Present(c, vs, 0))
  }

  /** The bytes of a value of type `t`. */
  function Length(w: Reading, g: Types, t: nat, v: Val): nat
    requires Wire(g) && t in g
    decreases Count(v), 5
  {
    if g[t].kind.Scalar? then g[t].size
    else if g[t].kind.Optional? then 4 + TargetLength(w, g, g[t].slots[0].target, true, v)
    else GroupLength(w, g, t, v)
  }

  /** The bytes behind a pointer. */
  function TargetLength(w: Reading, g: Types, t: nat, optional: bool, v: Val): nat
    requires Wire(g) && t in g
    decreases Count(v), 4
  {
    if optional && v == Nil then 0
    else if IsContainer(g[t]) && v == Node([]) then 0
    else if g[t].kind.Scalar? then g[t].size
    else GroupLength(w, g, t, v)
  }

  function GroupLength(w: Reading, g: Types, t: nat, v: Val): nat
    requires Wire(g) && t in g
    decreases Count(v), 3
  {
    match v
    case Node(kids) => NodeLength(w, g, g[t], kids)
    case Alt(tag, kid) => if g[t].kind.Variant? && tag < |g[t].slots| then 5 + Length(w, g, g[t].slots[tag].target, kid)
                          else 0
    case _ => 0
  }

  function NodeLength(w: Reading, g: Types, c: Compiled, kids: seq<Val>): nat
    requires Wire(g) && WireOk(g, c)
    decreases CountAll(kids), 8
  {
    match c.kind
    case Struct => Extent(w, c) + MembersLength(w, g, c, kids, 0)
    case Object => if |kids| != |c.slots| then 0 else 2 + FixedBytes(c, kids) + MembersLength(w, g, c, kids, 0)
    case Container => 4 + |kids| * Inline(g, c.slots[0]) + ElementsLength(w, g, c, kids)
    case Array => c.size + ElementsLength(w, g, c, kids)
    case Optional => if |kids| == 1 && CountOne(kids) then 4 + TargetLength(w, g, c.slots[0].target, true, kids[0])
                     else 0
    case Nested => if |kids| == 1 && CountOne(kids) then 4 + Length(w, g, c.slots[0].target, kids[0]) else 0
    case _ => 0
  }

  /** What the members from `i` on put behind the fixed part. */
  function MembersLength(w: Reading, g: Types, c: Compiled, vs: seq<Val>, i: nat): nat
    requires Wire(g) && SlotsKnown(g, c)
    decreases CountAll(vs), 6
  {
    if vs == [] || i >= |c.slots| then 0
    else
      (if FixedSlot(g, c.slots[i]) then 0 else TargetLength(w, g, c.slots[i].target, c.slots[i].optional, vs[0]))
      + MembersLength(w, g, c, vs[1..], i + 1)
  }

  function ElementsLength(w: Reading, g: Types, c: Compiled, vs: seq<Val>): nat
    requires Wire(g) && SlotsKnown(g, c) && |c.slots| == 1
    decreases CountAll(vs), 6
  {
    if vs == [] then 0
    else
      (if FixedSlot(g, c.slots[0]) then 0 else TargetLength(w, g, c.slots[0].target, c.slots[0].optional, vs[0]))
      + ElementsLength(w, g, c, vs[1..])
  }

  // ----- when a buffer holds a value

  /** Whether the last member read through a pointer has a value. */
  predicate LastHasValue(g: Types, c: Compiled, vs: seq<Val>, i: nat, n: nat, last: bool)
    requires SlotsKnown(g, c)
    decreases |vs|
  {
    if vs == [] || i >= |c.slots| then last
    else
      var s := c.slots[i];
      var last' := if FixedSlot(g, s) || (s.optional && s.offset >= n) then last else vs[0] != Nil;
      LastHasValue(g, c, vs[1..], i + 1, n, last')
  }

  /** A value of type `t` from `pos` on. */
  predicate Holds(w: Reading, g: Types, b: Buffer, t: nat, v: Val, pos: nat)
    requires Wire(g) && t in g
    decreases Count(v), 5
  {
    if g[t].kind.Scalar? then HoldsScalar(g, b, t, v, pos)
    else if g[t].kind.Optional? then HoldsPointer(w, g, b, g[t].slots[0].target, true, v, pos, pos + 4)
    else HoldsGroup(w, g, b, t, v, pos)
  }

  predicate HoldsScalar(g: Types, b: Buffer, t: nat, v: Val, pos: nat)
    requires t in g
  {
    pos + g[t].size <= |b| && v == Leaf(b[pos..pos + g[t].size])
  }

  /** A pointer at `fixed` to data at `heap`: 1 for an absent optional, 0 for an empty container, and otherwise
      the distance. */
  predicate HoldsPointer(w: Reading, g: Types, b: Buffer, t: nat, optional: bool, v: Val, fixed: nat, heap: nat)
    requires Wire(g) && t in g
    decreases Count(v), 4
  {
    && fixed + 4 <= |b|
    && if optional && v == Nil then U32(b, fixed) == 1
       else if IsContainer(g[t]) && v == Node([]) then U32(b, fixed) == 0
       else
         && fixed + U32(b, fixed) == heap
         && if g[t].kind.Scalar? then HoldsScalar(g, b, t, v, heap) else HoldsGroup(w, g, b, t, v, heap)
  }

  /** A type that is read by a reader of its own. */
  predicate HoldsGroup(w: Reading, g: Types, b: Buffer, t: nat, v: Val, pos: nat)
    requires Wire(g) && t in g
    decreases Count(v), 3
  {
    if v.Alt? then HoldsVariant(w, g, b, g[t], v, pos)
    else v.Node? && HoldsNode(w, g, b, g[t], v.kids, pos)
  }

  predicate HoldsVariant(w: Reading, g: Types, b: Buffer, c: Compiled, v: Val, pos: nat)
    requires Wire(g) && SlotsKnown(g, c) && v.Alt?
    decreases Count(v), 2
  {
    && c.kind.Variant? && pos + 5 <= |b| && b[pos] == v.tag < |c.slots| && v.tag < 128
    && U32(b, pos + 1) == Length(w, g, c.slots[v.tag].target, v.kid)
    && Holds(w, g, b, c.slots[v.tag].target, v.kid, pos + 5)
  }

  predicate HoldsNode(w: Reading, g: Types, b: Buffer, c: Compiled, kids: seq<Val>, pos: nat)
    requires Wire(g) && WireOk(g, c)
    decreases CountAll(kids), 8
  {
    match c.kind
    case Struct => HoldsStruct(w, g, b, c, kids, pos)
    case Object => HoldsObject(w, g, b, c, kids, pos)
    case Container => HoldsContainer(w, g, b, c, kids, pos)
    case Array => HoldsArray(w, g, b, c, kids, pos)
    case Optional => |kids| == 1 && CountOne(kids)
      && HoldsPointer(w, g, b, c.slots[0].target, true, kids[0], pos, pos + 4)
    case Nested => |kids| == 1 && CountOne(kids) && HoldsNested(w, g, b, c.slots[0].target, kids[0], pos)
    case _ => false
  }

  /** The size of a list is that of its parts. */
  predicate CountOne(kids: seq<Val>)
    requires |kids| == 1
    ensures CountOne(kids) && CountAll(kids) == Count(kids[0])
  {
    CountAll(kids) == Count(kids[0]) + CountAll(kids[1..])
  }

  predicate HoldsStruct(w: Reading, g: Types, b: Buffer, c: Compiled, kids: seq<Val>, pos: nat)
    requires Wire(g) && SlotsKnown(g, c)
    decreases CountAll(kids), 7
  {
    var n := Extent(w, c);
    |kids| == |c.slots| && pos + n <= |b| && HoldsMembers(w, g, b, c, kids, 0, pos, n, pos + n)
  }

  predicate HoldsObject(w: Reading, g: Types, b: Buffer, c: Compiled, kids: seq<Val>, pos: nat)
    requires Wire(g) && SlotsKnown(g, c)
    decreases CountAll(kids), 7
  {
    && |kids| == |c.slots| && pos + 2 + FixedBytes(c, kids) <= |b| && U16(b, pos) == FixedBytes(c, kids)
    && LastHasValue(g, c, kids, 0, FixedBytes(c, kids), true)
    && HoldsMembers(w, g, b, c, kids, 0, pos + 2, FixedBytes(c, kids), pos + 2 + FixedBytes(c, kids))
  }

  predicate HoldsContainer(w: Reading, g: Types, b: Buffer, c: Compiled, kids: seq<Val>, pos: nat)
    requires Wire(g) && SlotsKnown(g, c) && |c.slots| == 1
    decreases CountAll(kids), 7
  {
    var n := |kids| * Inline(g, c.slots[0]);
    && Inline(g, c.slots[0]) > 0 && pos + 4 + n <= |b| && U32(b, pos) == n
    && HoldsElements(w, g, b, c, kids, pos + 4, pos + 4 + n)
  }

  /** Elements fill an array; one of size zero has none. */
  predicate Fills(g: Types, c: Compiled, kids: seq<Val>)
    requires SlotsKnown(g, c) && |c.slots| == 1
  {
    |kids| * Inline(g, c.slots[0]) == c.size && (c.size == 0 ==> kids == [])
  }

  predicate HoldsArray(w: Reading, g: Types, b: Buffer, c: Compiled, kids: seq<Val>, pos: nat)
    requires Wire(g) && SlotsKnown(g, c) && |c.slots| == 1
    decreases CountAll(kids), 7
  {
    Fills(g, c, kids) && pos + c.size <= |b| && HoldsElements(w, g, b, c, kids, pos, pos + c.size)
  }

  predicate HoldsNested(w: Reading, g: Types, b: Buffer, t: nat, v: Val, pos: nat)
    requires Wire(g) && t in g
    decreases Count(v), 6
  {
    pos + 4 <= |b| && U32(b, pos) == Length(w, g, t, v) && Holds(w, g, b, t, v, pos + 4)
  }

  /** Fixed-size data in place. */
  predicate HoldsFixed(w: Reading, g: Types, b: Buffer, t: nat, v: Val, pos: nat)
    requires Wire(g) && t in g
    decreases Count(v), 3
  {
    && pos + g[t].size <= |b|
    && match v
       case Leaf(data) => g[t].kind.Scalar? && data == b[pos..pos + g[t].size]
       case Node(kids) =>
         (match g[t].kind
          case Struct => |kids| == |g[t].slots| && HoldsMembers(w, g, b, g[t], kids, 0, pos, Extent(w, g[t]), 0)
          case Array => Fills(g, g[t], kids) && HoldsElements(w, g, b, g[t], kids, pos, 0)
          case _ => false)
       case _ => false
  }

  /** The members from `i` on: fixed data from `base`, of which `n` bytes are there, and data at `heap`. */
  predicate HoldsMembers(w: Reading, g: Types, b: Buffer, c: Compiled, vs: seq<Val>, i: nat, base: nat, n: nat,
                         heap: nat)
    requires Wire(g) && SlotsKnown(g, c)
    decreases CountAll(vs), 6
  {
    vs == [] || i >= |c.slots| ||
      var s := c.slots[i];
      if FixedSlot(g, s) then
        && s.offset + g[s.target].size <= n && HoldsFixed(w, g, b, s.target, vs[0], base + s.offset)
        && HoldsMembers(w, g, b, c, vs[1..], i + 1, base, n, heap)
      else if s.optional && s.offset >= n then
        vs[0] == Nil && HoldsMembers(w, g, b, c, vs[1..], i + 1, base, n, heap)
      else
        && s.offset + 4 <= n && HoldsPointer(w, g, b, s.target, s.optional, vs[0], base + s.offset, heap)
        && HoldsMembers(w, g, b, c, vs[1..], i + 1, base, n, heap + TargetLength(w, g, s.target, s.optional, vs[0]))
  }

  /** Elements from `pos` on, and their data at `heap`. */
  predicate HoldsElements(w: Reading, g: Types, b: Buffer, c: Compiled, vs: seq<Val>, pos: nat, heap: nat)
    requires Wire(g) && SlotsKnown(g, c) && |c.slots| == 1
    decreases CountAll(vs), 6
  {
    vs == [] ||
      var s := c.slots[0];
      if FixedSlot(g, s) then
        HoldsFixed(w, g, b, s.target, vs[0], pos) && HoldsElements(w, g, b, c, vs[1..], pos + Inline(g, s), heap)
      else
        && HoldsPointer(w, g, b, s.target, s.optional, vs[0], pos, heap)
        && HoldsElements(w, g, b, c, vs[1..], pos + Inline(g, s),
                         heap + TargetLength(w, g, s.target, s.optional, vs[0]))
  }

  // ----- only one buffer holds a value

  lemma SameSlice(b: Buffer, b': Buffer, lo: nat, hi: nat)
    requires lo <= hi <= |b| && hi <= |b'| && b[lo..hi] == b'[lo..hi]
    ensures Same(b, b', lo, hi)
  {
    forall i: nat | lo <= i < hi ensures SameAt(b, b', i) { assert b[lo..hi][i - lo] == b'[lo..hi][i - lo]; }
  }

  lemma SameJoin(b: Buffer, b': Buffer, lo: nat, mid: nat, hi: nat)
    requires Same(b, b', lo, mid) && Same(b, b', mid, hi)
    ensures Same(b, b', lo, hi)
  {}

  lemma {:induction false} Unique(w: Reading, g: Types, b: Buffer, b': Buffer, t: nat, v: Val, pos: nat)
    requires Wire(g) && t in g && Holds(w, g, b, t, v, pos) && Holds(w, g, b', t, v, pos)
    ensures Same(b, b', pos, pos + Length(w, g, t, v))
    decreases Count(v), 5
  {
    if g[t].kind.Scalar? {
      SameSlice(b, b', pos, pos + g[t].size);
    } else if g[t].kind.Optional? {
      UniquePointer(w, g, b, b', g[t].slots[0].target, true, v, pos, pos + 4);
      SameJoin(b, b', pos, pos + 4, pos + Length(w, g, t, v));
    } else {
      UniqueGroup(w, g, b, b', t, v, pos);
    }
  }

  lemma {:induction false} UniquePointer(w: Reading, g: Types, b: Buffer, b': Buffer, t: nat, optional: bool, v: Val,
                                         fixed: nat, heap: nat)
    requires Wire(g) && t in g && HoldsPointer(w, g, b, t, optional, v, fixed, heap)
             && HoldsPointer(w, g, b', t, optional, v, fixed, heap)
    ensures Same(b, b', fixed, fixed + 4) && Same(b, b', heap, heap + TargetLength(w, g, t, optional, v))
    decreases Count(v), 4
  {
    SameU32(b, b', fixed);
    if !(optional && v == Nil) && !(IsContainer(g[t]) && v == Node([])) {
      if g[t].kind.Scalar? { SameSlice(b, b', heap, heap + g[t].size); } else { UniqueGroup(w, g, b, b', t, v, heap); }
    }
  }

  lemma {:induction false} UniqueGroup(w: Reading, g: Types, b: Buffer, b': Buffer, t: nat, v: Val, pos: nat)
    requires Wire(g) && t in g && HoldsGroup(w, g, b, t, v, pos) && HoldsGroup(w, g, b', t, v, pos)
    ensures Same(b, b', pos, pos + GroupLength(w, g, t, v))
    decreases Count(v), 3
  {
    if v.Alt? {
      SameU32(b, b', pos + 1);
      Unique(w, g, b, b', g[t].slots[v.tag].target, v.kid, pos + 5);
      assert SameAt(b, b', pos);
      SameJoin(b, b', pos, pos + 5, pos + GroupLength(w, g, t, v));
    } else {
      UniqueNode(w, g, b, b', g[t], v.kids, pos, GroupLength(w, g, t, v));
    }
  }

  lemma {:induction false} UniqueNode(w: Reading, g: Types, b: Buffer, b': Buffer, c: Compiled, kids: seq<Val>,
                                      pos: nat, n: nat)
    requires Wire(g) && WireOk(g, c) && HoldsNode(w, g, b, c, kids, pos) && HoldsNode(w, g, b', c, kids, pos)
             && n == NodeLength(w, g, c, kids)
    ensures Same(b, b', pos, pos + n)
    decreases CountAll(kids), 8
  {
    match c.kind
    case Struct => UniqueStruct(w, g, b, b', c, kids, pos);
    case Object => UniqueObject(w, g, b, b', c, kids, pos);
    case Container => UniqueContainer(w, g, b, b', c, kids, pos);
    case Array => UniqueArray(w, g, b, b', c, kids, pos);
    case Optional =>
      assert CountOne(kids);
      UniquePointer(w, g, b, b', c.slots[0].target, true, kids[0], pos, pos + 4);
      SameJoin(b, b', pos, pos + 4, pos + n);
    case Nested =>
      assert CountOne(kids);
      SameU32(b, b', pos);
      Unique(w, g, b, b', c.slots[0].target, kids[0], pos + 4);
      SameJoin(b, b', pos, pos + 4, pos + n);
    case _ =>
  }

  lemma {:induction false} UniqueStruct(w: Reading, g: Types, b: Buffer, b': Buffer, c: Compiled, kids: seq<Val>,
                                        pos: nat)
    requires Wire(g) && SlotsKnown(g, c) && Tiled(g, c) && HoldsStruct(w, g, b, c, kids, pos)
             && HoldsStruct(w, g, b', c, kids, pos)
    ensures Same(b, b', pos, pos + Extent(w, c) + MembersLength(w, g, c, kids, 0))
    decreases CountAll(kids), 7
  {
    var n := Extent(w, c);
    UniqueMembers(w, g, b, b', c, kids, 0, pos, n, pos + n);
    SameJoin(b, b', pos, pos + n, pos + n + MembersLength(w, g, c, kids, 0));
  }

  lemma {:induction false} UniqueObject(w: Reading, g: Types, b: Buffer, b': Buffer, c: Compiled, kids: seq<Val>,
                                        pos: nat)
    requires Wire(g) && SlotsKnown(g, c) && Tiled(g, c) && HoldsObject(w, g, b, c, kids, pos)
             && HoldsObject(w, g, b', c, kids, pos)
    ensures Same(b, b', pos, pos + 2 + FixedBytes(c, kids) + MembersLength(w, g, c, kids, 0))
    decreases CountAll(kids), 7
  {
    var n := FixedBytes(c, kids);
    BeginInside(g, c, Present(c, kids, 0));
    SameU16(b, b', pos);
    UniqueMembers(w, g, b, b', c, kids, 0, pos + 2, n, pos + 2 + n);
    SameJoin(b, b', pos, pos + 2, pos + 2 + n);
    SameJoin(b, b', pos, pos + 2 + n, pos + 2 + n + MembersLength(w, g, c, kids, 0));
  }

  lemma {:induction false} UniqueContainer(w: Reading, g: Types, b: Buffer, b': Buffer, c: Compiled, kids: seq<Val>,
                                           pos: nat)
    requires Wire(g) && SlotsKnown(g, c) && |c.slots| == 1
    requires HoldsContainer(w, g, b, c, kids, pos) && HoldsContainer(w, g, b', c, kids, pos)
    ensures Same(b, b', pos, pos + 4 + |kids| * Inline(g, c.slots[0]) + ElementsLength(w, g, c, kids))
    decreases CountAll(kids), 7
  {
    var n := |kids| * Inline(g, c.slots[0]);
    SameU32(b, b', pos);
    UniqueElements(w, g, b, b', c, kids, pos + 4, pos + 4 + n, n);
    SameJoin(b, b', pos, pos + 4, pos + 4 + n);
    SameJoin(b, b', pos, pos + 4 + n, pos + 4 + n + ElementsLength(w, g, c, kids));
  }

  lemma {:induction false} UniqueArray(w: Reading, g: Types, b: Buffer, b': Buffer, c: Compiled, kids: seq<Val>,
                                       pos: nat)
    requires Wire(g) && SlotsKnown(g, c) && |c.slots| == 1 && HoldsArray(w, g, b, c, kids, pos)
             && HoldsArray(w, g, b', c, kids, pos)
    ensures Same(b, b', pos, pos + c.size + ElementsLength(w, g, c, kids))
    decreases CountAll(kids), 7
  {
    UniqueElements(w, g, b, b', c, kids, pos, pos + c.size, c.size);
    SameJoin(b, b', pos, pos + c.size, pos + c.size + ElementsLength(w, g, c, kids));
  }

  lemma {:induction false} BeginInside(g: Types, c: Compiled, i: nat)
    requires SlotsKnown(g, c) && Tiled(g, c) && i <= |c.slots|
    ensures Begin(c, i) <= c.size
    decreases |c.slots| - i
  {
    if i < |c.slots| { BeginInside(g, c, i + 1); assert Begin(c, i + 1) == Begin(c, i) + Inline(g, c.slots[i]); }
  }

  lemma {:induction false} UniqueFixed(w: Reading, g: Types, b: Buffer, b': Buffer, t: nat, v: Val, pos: nat)
    requires Wire(g) && t in g && !g[t].variable && HoldsFixed(w, g, b, t, v, pos) && HoldsFixed(w, g, b', t, v, pos)
    ensures Same(b, b', pos, pos + g[t].size)
    decreases Count(v), 3
  {
    assert WireOk(g, g[t]);
    match v
    case Leaf(_) => SameSlice(b, b', pos, pos + g[t].size);
    case Node(kids) =>
      if g[t].kind.Struct? {
        FixedWhole(w, g, b, g[t], kids, 0, pos, Extent(w, g[t]), 0);
        UniqueMembers(w, g, b, b', g[t], kids, 0, pos, g[t].size, 0);
      } else { UniqueElements(w, g, b, b', g[t], kids, pos, 0, g[t].size); }
    case _ =>
  }

  /** Members that are all in place are found within the bytes taken only if these are all of them. */
  lemma {:induction false} FixedWhole(w: Reading, g: Types, b: Buffer, c: Compiled, vs: seq<Val>, i: nat, base: nat,
                                      n: nat, heap: nat)
    requires Wire(g) && SlotsKnown(g, c) && Tiled(g, c) && i + |vs| == |c.slots| && Begin(c, i) <= n
    requires (forall k :: 0 <= k < |c.slots| ==> FixedSlot(g, c.slots[k]))
             && HoldsMembers(w, g, b, c, vs, i, base, n, heap)
    ensures c.size <= n
    decreases |vs|
  {
    if vs != [] {
      assert Begin(c, i + 1) == Begin(c, i) + Inline(g, c.slots[i]);
      FixedWhole(w, g, b, c, vs[1..], i + 1, base, n, heap);
    }
  }

  function Min(a: nat, b: nat): nat { if a < b then a else b }

  lemma {:induction false} UniqueMembers(w: Reading, g: Types, b: Buffer, b': Buffer, c: Compiled, vs: seq<Val>, i: nat,
                                         base: nat, n: nat, heap: nat)
    requires Wire(g) && SlotsKnown(g, c) && Tiled(g, c) && i + |vs| == |c.slots| && n <= c.size
    requires HoldsMembers(w, g, b, c, vs, i, base, n, heap) && HoldsMembers(w, g, b', c, vs, i, base, n, heap)
    ensures Same(b, b', base + Min(Begin(c, i), n), base + n)
    ensures Same(b, b', heap, heap + MembersLength(w, g, c, vs, i))
    decreases CountAll(vs), 6
  {
    if vs != [] {
      var s := c.slots[i];
      assert Begin(c, i + 1) == Begin(c, i) + Inline(g, s);
      if FixedSlot(g, s) {
        UniqueFixed(w, g, b, b', s.target, vs[0], base + s.offset);
        UniqueMembers(w, g, b, b', c, vs[1..], i + 1, base, n, heap);
        SameJoin(b, b', base + s.offset, base + s.offset + g[s.target].size, base + n);
      } else if s.optional && s.offset >= n {
        UniqueMembers(w, g, b, b', c, vs[1..], i + 1, base, n, heap);
      } else {
        var next := heap + TargetLength(w, g, s.target, s.optional, vs[0]);
        UniquePointer(w, g, b, b', s.target, s.optional, vs[0], base + s.offset, heap);
        UniqueMembers(w, g, b, b', c, vs[1..], i + 1, base, n, next);
        SameJoin(b, b', base + s.offset, base + s.offset + 4, base + n);
        SameJoin(b, b', heap, next, heap + MembersLength(w, g, c, vs, i));
      }
    }
  }

  lemma {:induction false} UniqueElements(w: Reading, g: Types, b: Buffer, b': Buffer, c: Compiled, vs: seq<Val>,
                                          pos: nat, heap: nat, n: nat)
    requires Wire(g) && SlotsKnown(g, c) && |c.slots| == 1 && n == |vs| * Inline(g, c.slots[0])
    requires HoldsElements(w, g, b, c, vs, pos, heap) && HoldsElements(w, g, b', c, vs, pos, heap)
    ensures Same(b, b', pos, pos + n) && Same(b, b', heap, heap + ElementsLength(w, g, c, vs))
    decreases CountAll(vs), 6
  {
    if vs != [] {
      var s := c.slots[0];
      var k := Inline(g, s);
      OneLess(|vs|, k);
      if FixedSlot(g, s) {
        UniqueFixed(w, g, b, b', s.target, vs[0], pos);
        UniqueElements(w, g, b, b', c, vs[1..], pos + k, heap, n - k);
        SameJoin(b, b', pos, pos + k, pos + n);
      } else {
        var next := heap + TargetLength(w, g, s.target, s.optional, vs[0]);
        UniquePointer(w, g, b, b', s.target, s.optional, vs[0], pos, heap);
        UniqueElements(w, g, b, b', c, vs[1..], pos + k, next, n - k);
        SameJoin(b, b', pos, pos + k, pos + n);
        SameJoin(b, b', heap, next, heap + ElementsLength(w, g, c, vs));
      }
    }
  }

  lemma OneLess(n: nat, k: nat)
    requires n > 0
    ensures n * k - k == (n - 1) * k && n * k >= k
  {}
}
