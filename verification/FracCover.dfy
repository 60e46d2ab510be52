/** Every byte of a valid buffer belongs to exactly one scalar, pointer, tag or size. */
module FracCover {
  import opened Leb128
  import opened SchemaMatch
  import opened SchemaLayout
  import opened FracWire
  import opened FracMachine
  import opened FracCanonical

  /** Whether byte `x` is one of `n` bytes from `lo` on. */
  function In(x: nat, lo: nat, n: nat): nat { if lo <= x < lo + n then 1 else 0 }

  // ----- how many parts of a value use byte `x`

  function Uses(g: Types, t: nat, v: Val, pos: nat, x: nat): nat
    requires Wire(g) && t in g
    decreases Count(v), 5
  {
    if g[t].kind.Scalar? then In(x, pos, g[t].size)
    else if g[t].kind.Optional? then In(x, pos, 4) + TargetUses(g, g[t].slots[0].target, true, v, pos + 4, x)
    else GroupUses(g, t, v, pos, x)
  }

  function TargetUses(g: Types, t: nat, optional: bool, v: Val, heap: nat, x: nat): nat
    requires Wire(g) && t in g
    decreases Count(v), 4
  {
    if optional && v == Nil then 0
    else if IsContainer(g[t]) && v == Node([]) then 0
    else if g[t].kind.Scalar? then In(x, heap, g[t].size)
    else GroupUses(g, t, v, heap, x)
  }

  function GroupUses(g: Types, t: nat, v: Val, pos: nat, x: nat): nat
    requires Wire(g) && t in g
    decreases Count(v), 3
  {
    match v
    case Node(kids) => NodeUses(g, g[t], kids, pos, x)
    case Alt(tag, kid) =>
      if g[t].kind.Variant? && tag < |g[t].slots| then
        In(x, pos, 1) + In(x, pos + 1, 4) + Uses(g, g[t].slots[tag].target, kid, pos + 5, x)
      else 0
    case _ => 0
  }

  function NodeUses(g: Types, c: Compiled, kids: seq<Val>, pos: nat, x: nat): nat
    requires Wire(g) && WireOk(g, c)
    decreases CountAll(kids), 8
  {
    match c.kind
    case Struct => MembersUse(g, c, kids, 0, pos, Extent(Cut, c), pos + Extent(Cut, c), x)
    case Object =>
      if |kids| != |c.slots| then 0
      else var n := FixedBytes(c, kids); In(x, pos, 2) + MembersUse(g, c, kids, 0, pos + 2, n, pos + 2 + n, x)
    case Container => In(x, pos, 4) + ElementsUse(g, c, kids, pos + 4, pos + 4 + |kids| * Inline(g, c.slots[0]), x)
    case Array => ElementsUse(g, c, kids, pos, pos + c.size, x)
    case Optional =>
      if |kids| == 1 && CountOne(kids) then In(x, pos, 4) + TargetUses(g, c.slots[0].target, true, kids[0], pos + 4, x)
      else 0
    case Nested =>
      if |kids| == 1 && CountOne(kids) then In(x, pos, 4) + Uses(g, c.slots[0].target, kids[0], pos + 4, x) else 0
    case _ => 0
  }

  function FixedUses(g: Types, t: nat, v: Val, pos: nat, x: nat): nat
    requires Wire(g) && t in g
    decreases Count(v), 3
  {
    match v
    case Leaf(_) => In(x, pos, g[t].size)
    case Node(kids) =>
      (match g[t].kind
       case Struct => MembersUse(g, g[t], kids, 0, pos, Extent(Cut, g[t]), 0, x)
       case Array => ElementsUse(g, g[t], kids, pos, 0, x)
       case _ => 0)
    case _ => 0
  }

  function MembersUse(g: Types, c: Compiled, vs: seq<Val>, i: nat, base: nat, n: nat, heap: nat, x: nat): nat
    requires Wire(g) && SlotsKnown(g, c)
    decreases CountAll(vs), 6
  {
    if vs == [] || i >= |c.slots| then 0
    else
      var s := c.slots[i];
      if FixedSlot(g, s) then
        FixedUses(g, s.target, vs[0], base + s.offset, x) + MembersUse(g, c, vs[1..], i + 1, base, n, heap, x)
      else if s.optional && s.offset >= n then MembersUse(g, c, vs[1..], i + 1, base, n, heap, x)
      else
        In(x, base + s.offset, 4) + TargetUses(g, s.target, s.optional, vs[0], heap, x)
        + MembersUse(g, c, vs[1..], i + 1, base, n, heap + TargetLength(Cut, g, s.target, s.optional, vs[0]), x)
  }

  function ElementsUse(g: Types, c: Compiled, vs: seq<Val>, pos: nat, heap: nat, x: nat): nat
    requires Wire(g) && SlotsKnown(g, c) && |c.slots| == 1
    decreases CountAll(vs), 6
  {
    if vs == [] then 0
    else
      var s := c.slots[0];
      if FixedSlot(g, s) then
        FixedUses(g, s.target, vs[0], pos, x) + ElementsUse(g, c, vs[1..], pos + Inline(g, s), heap, x)
      else
        In(x, pos, 4) + TargetUses(g, s.target, s.optional, vs[0], heap, x)
        + ElementsUse(g, c, vs[1..], pos + Inline(g, s), heap + TargetLength(Cut, g, s.target, s.optional, vs[0]), x)
  }

  // ----- each byte once

  lemma {:induction false} Once(g: Types, b: Buffer, t: nat, v: Val, pos: nat, x: nat)
    requires Wire(g) && t in g && Holds(Cut, g, b, t, v, pos)
    ensures Uses(g, t, v, pos, x) == In(x, pos, Length(Cut, g, t, v))
    decreases Count(v), 5
  {
    if g[t].kind.Scalar? {
    } else if g[t].kind.Optional? {
      OncePointer(g, b, g[t].slots[0].target, true, v, pos, pos + 4, x);
    } else {
      OnceGroup(g, b, t, v, pos, x);
    }
  }

  lemma {:induction false} OncePointer(g: Types, b: Buffer, t: nat, optional: bool, v: Val, fixed: nat, heap: nat,
                                       x: nat)
    requires Wire(g) && t in g && HoldsPointer(Cut, g, b, t, optional, v, fixed, heap)
    ensures TargetUses(g, t, optional, v, heap, x) == In(x, heap, TargetLength(Cut, g, t, optional, v))
    decreases Count(v), 4
  {
    if !(optional && v == Nil) && !(IsContainer(g[t]) && v == Node([])) && !g[t].kind.Scalar? {
      OnceGroup(g, b, t, v, heap, x);
    }
  }

  lemma {:induction false} OnceGroup(g: Types, b: Buffer, t: nat, v: Val, pos: nat, x: nat)
    requires Wire(g) && t in g && HoldsGroup(Cut, g, b, t, v, pos)
    ensures GroupUses(g, t, v, pos, x) == In(x, pos, GroupLength(Cut, g, t, v))
    decreases Count(v), 3
  {
    if v.Alt? { Once(g, b, g[t].slots[v.tag].target, v.kid, pos + 5, x); } else {
      OnceNode(g, b, g[t], v.kids, pos, x);
    }
  }

  lemma {:induction false} OnceNode(g: Types, b: Buffer, c: Compiled, kids: seq<Val>, pos: nat, x: nat)
    requires Wire(g) && WireOk(g, c) && HoldsNode(Cut, g, b, c, kids, pos)
    ensures NodeUses(g, c, kids, pos, x) == In(x, pos, NodeLength(Cut, g, c, kids))
    decreases CountAll(kids), 8
  {
    match c.kind
    case Struct => OnceMembers(g, b, c, kids, 0, pos, Extent(Cut, c), pos + Extent(Cut, c), x);
    case Object => OnceObject(g, b, c, kids, pos, x);
    case Container =>
      var n := |kids| * Inline(g, c.slots[0]);
      OnceElements(g, b, c, kids, pos + 4, pos + 4 + n, n, x);
    case Array => OnceElements(g, b, c, kids, pos, pos + c.size, c.size, x);
    case Optional =>
      assert CountOne(kids);
      OncePointer(g, b, c.slots[0].target, true, kids[0], pos, pos + 4, x);
    case Nested =>
      assert CountOne(kids);
      Once(g, b, c.slots[0].target, kids[0], pos + 4, x);
    case _ =>
  }

  lemma {:induction false} OnceObject(g: Types, b: Buffer, c: Compiled, kids: seq<Val>, pos: nat, x: nat)
    requires Wire(g) && WireOk(g, c) && c.kind.Object? && HoldsObject(Cut, g, b, c, kids, pos)
    ensures NodeUses(g, c, kids, pos, x) == In(x, pos, NodeLength(Cut, g, c, kids))
    decreases CountAll(kids), 7
  {
    var n := FixedBytes(c, kids);
    BeginInside(g, c, Present(c, kids, 0));
    OnceMembers(g, b, c, kids, 0, pos + 2, n, pos + 2 + n, x);
  }

  lemma {:induction false} OnceFixed(g: Types, b: Buffer, t: nat, v: Val, pos: nat, x: nat)
    requires Wire(g) && t in g && !g[t].variable && HoldsFixed(Cut, g, b, t, v, pos)
    ensures FixedUses(g, t, v, pos, x) == In(x, pos, g[t].size)
    decreases Count(v), 3
  {
    assert WireOk(g, g[t]);
    match v
    case Leaf(_) =>
    case Node(kids) =>
      if g[t].kind.Struct? {
        FixedWhole(Cut, g, b, g[t], kids, 0, pos, Extent(Cut, g[t]), 0);
        OnceMembers(g, b, g[t], kids, 0, pos, g[t].size, 0, x);
        MembersNoHeap(g, b, g[t], kids, 0, pos, g[t].size, 0);
      } else {
        OnceElements(g, b, g[t], kids, pos, 0, g[t].size, x);
        ElementsNoHeap(g, b, g[t], kids, pos, 0);
      }
    case _ =>
  }

  lemma {:induction false} OnceMembers(g: Types, b: Buffer, c: Compiled, vs: seq<Val>, i: nat, base: nat, n: nat,
                                       heap: nat, x: nat)
    requires Wire(g) && SlotsKnown(g, c) && Tiled(g, c) && i + |vs| == |c.slots| && n <= c.size
    requires HoldsMembers(Cut, g, b, c, vs, i, base, n, heap)
    ensures var lo := Min(Begin(c, i), n);
            MembersUse(g, c, vs, i, base, n, heap, x)
              == In(x, base + lo, n - lo) + In(x, heap, MembersLength(Cut, g, c, vs, i))
    decreases CountAll(vs), 6
  {
    if vs != [] {
      var s := c.slots[i];
      assert Begin(c, i + 1) == Begin(c, i) + Inline(g, s);
      if FixedSlot(g, s) {
        OnceFixed(g, b, s.target, vs[0], base + s.offset, x);
        OnceMembers(g, b, c, vs[1..], i + 1, base, n, heap, x);
      } else if s.optional && s.offset >= n {
        OnceMembers(g, b, c, vs[1..], i + 1, base, n, heap, x);
      } else {
        OncePointed(g, b, c, vs, i, base, n, heap, x);
      }
    }
  }

  /** The case of a member behind a pointer. */
  lemma {:induction false} OncePointed(g: Types, b: Buffer, c: Compiled, vs: seq<Val>, i: nat, base: nat, n: nat,
                                       heap: nat, x: nat)
    requires Wire(g) && SlotsKnown(g, c) && Tiled(g, c) && i + |vs| == |c.slots| && n <= c.size && vs != []
    requires !FixedSlot(g, c.slots[i]) && c.slots[i].offset < n && HoldsMembers(Cut, g, b, c, vs, i, base, n, heap)
    ensures var lo := Begin(c, i);
            MembersUse(g, c, vs, i, base, n, heap, x)
              == In(x, base + lo, n - lo) + In(x, heap, MembersLength(Cut, g, c, vs, i))
    decreases CountAll(vs), 5
  {
    var s := c.slots[i];
    var k := TargetLength(Cut, g, s.target, s.optional, vs[0]);
    assert Begin(c, i + 1) == Begin(c, i) + 4;
    OncePointer(g, b, s.target, s.optional, vs[0], base + s.offset, heap, x);
    OnceMembers(g, b, c, vs[1..], i + 1, base, n, heap + k, x);
    Joined(x, base + s.offset, n - s.offset - 4, heap, k, MembersLength(Cut, g, c, vs[1..], i + 1));
  }

  lemma Joined(x: nat, lo: nat, n: nat, heap: nat, k: nat, l: nat)
    ensures In(x, lo, 4) + In(x, heap, k) + (In(x, lo + 4, n) + In(x, heap + k, l))
            == In(x, lo, n + 4) + In(x, heap, k + l)
  {}

  lemma {:induction false} OnceElements(g: Types, b: Buffer, c: Compiled, vs: seq<Val>, pos: nat, heap: nat, n: nat,
                                        x: nat)
    requires Wire(g) && SlotsKnown(g, c) && |c.slots| == 1 && n == |vs| * Inline(g, c.slots[0])
    requires HoldsElements(Cut, g, b, c, vs, pos, heap)
    ensures ElementsUse(g, c, vs, pos, heap, x) == In(x, pos, n) + In(x, heap, ElementsLength(Cut, g, c, vs))
    decreases CountAll(vs), 6
  {
    if vs != [] {
      var s := c.slots[0];
      var k := Inline(g, s);
      OneLess(|vs|, k);
      if FixedSlot(g, s) {
        OnceFixed(g, b, s.target, vs[0], pos, x);
        OnceElements(g, b, c, vs[1..], pos + k, heap, n - k, x);
      } else {
        OncePointer(g, b, s.target, s.optional, vs[0], pos, heap, x);
        OnceElements(g, b, c, vs[1..], pos + k, heap + TargetLength(Cut, g, s.target, s.optional, vs[0]), n - k, x);
      }
    }
  }

  /** In a valid buffer whose fixed data reaches its pointers, every byte is used by exactly one part of the value that
      the items describe. */
  lemma ValidCovers(g: Types, b: Buffer, root: nat, ts: seq<Token>) returns (v: Val)
    requires Wire(g) && NestedSized(g) && root in g && Proper(g, b, root, ts)
    ensures ts == Tokens(v, 0) && Holds(Cut, g, b, root, v, 0)
    ensures forall x: nat :: Uses(g, root, v, 0, x) == if x < |b| then 1 else 0
  {
    v := ValidHolds(g, b, root, ts);
    forall x: nat ensures Uses(g, root, v, 0, x) == if x < |b| then 1 else 0 { Once(g, b, root, v, 0, x); }
  }
}
