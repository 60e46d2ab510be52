/** The parser comes to an end: every step uses up bytes, or work that is bounded for the readers on the stack. */
module FracEnds {
  import opened Leb128
  import opened SchemaMatch
  import opened SchemaLayout
  import opened FracWire
  import opened FracMachine
  import opened FracSane

  // ----- types without endless fixed data

  /** Members that are not optional rank below their type, and an array of elements of no bytes has none. */
  ghost predicate FoundedAt(g: Types, rank: map<nat, nat>, t: nat)
    requires Wire(g) && t in g
  {
    && t in rank
    && (g[t].kind.Struct? || g[t].kind.Array? ==>
          forall i :: 0 <= i < |g[t].slots| && !g[t].slots[i].optional ==> Below(rank, g[t].slots[i].target, t))
    && (g[t].kind.Array? && Inline(g, g[t].slots[0]) == 0 ==> g[t].size == 0)
  }

  ghost predicate Below(rank: map<nat, nat>, u: nat, t: nat) { u in rank && t in rank && rank[u] < rank[t] }

  ghost predicate Founded(g: Types, rank: map<nat, nat>)
    requires Wire(g)
  {
    forall t {:trigger FoundedAt(g, rank, t)} :: t in g ==> FoundedAt(g, rank, t)
  }

  // ----- the work of fixed data

  function Mul(x: nat, y: nat): nat { x * y }

  /** An upper bound for the items of fixed data of type `t`, in a buffer of `n` bytes. */
  ghost function Fixed(g: Types, rank: map<nat, nat>, n: nat, t: nat): nat
    requires Wire(g) && Founded(g, rank) && t in g
    decreases if t in rank then rank[t] else 0, 1, 0
  {
    assert FoundedAt(g, rank, t);
    match g[t].kind
    case Struct => 1 + FixedFrom(g, rank, n, t, 0)
    case Array =>
      if FixedSlot(g, g[t].slots[0]) then
        assert Below(rank, g[t].slots[0].target, t);
        1 + Mul(n, 1 + Fixed(g, rank, n, g[t].slots[0].target))
      else 1
    case _ => 0
  }

  ghost function FixedFrom(g: Types, rank: map<nat, nat>, n: nat, t: nat, i: nat): nat
    requires Wire(g) && Founded(g, rank) && t in g && g[t].kind.Struct?
    decreases if t in rank then rank[t] else 0, 0, |g[t].slots| - i
  {
    assert FoundedAt(g, rank, t);
    if i >= |g[t].slots| then 0
    else
      var s := g[t].slots[i];
      assert FixedSlot(g, s) ==> Below(rank, s.target, t);
      1 + (if FixedSlot(g, s) then Fixed(g, rank, n, s.target) else 0) + FixedFrom(g, rank, n, t, i + 1)
  }

  // ----- the work of a reader, which is not paid for by bytes

  /** A struct that is read without using up bytes. Its pointers are all behind its fixed data. */
  predicate Lean(c: Compiled) { c.kind.Struct? && Extent(Cut, c) == 0 }

  /** An upper bound for the work of a reader of type `t` that was put on the stack without using up bytes. */
  ghost function Idle(g: Types, rank: map<nat, nat>, n: nat, t: nat): (w: nat)
    requires Wire(g) && Founded(g, rank) && t in g
    ensures w >= 1
    decreases if t in rank then rank[t] else 0, 1, 0
  {
    if Lean(g[t]) then 1 + IdleFrom(g, rank, n, t, 0) else 2
  }

  ghost function IdleFrom(g: Types, rank: map<nat, nat>, n: nat, t: nat, i: nat): nat
    requires Wire(g) && Founded(g, rank) && t in g && g[t].kind.Struct?
    decreases if t in rank then rank[t] else 0, 0, |g[t].slots| - i
  {
    assert FoundedAt(g, rank, t);
    if i >= |g[t].slots| then 0
    else
      var s := g[t].slots[i];
      assert !s.optional ==> Below(rank, s.target, t);
      1 + (if FixedSlot(g, s) then Fixed(g, rank, n, s.target) else if s.optional then 0
                                                                    else Idle(g, rank, n, s.target))
      + IdleFrom(g, rank, n, t, i + 1)
  }

  /** The work of members: what is behind a pointer is read within `m` steps, or uses up bytes. */
  ghost function MembersWork(g: Types, rank: map<nat, nat>, n: nat, m: nat, c: Compiled, i: nat): nat
    requires Wire(g) && Founded(g, rank) && SlotsKnown(g, c)
    decreases |c.slots| - i
  {
    if i >= |c.slots| then 0
    else
      1 + (if FixedSlot(g, c.slots[i]) then Fixed(g, rank, n, c.slots[i].target) else m)
      + MembersWork(g, rank, n, m, c, i + 1)
  }

  ghost function ElementWork(g: Types, rank: map<nat, nat>, n: nat, m: nat, t: nat): nat
    requires Wire(g) && Founded(g, rank) && t in g
  {
    if |g[t].slots| != 1 then 0
    else if FixedSlot(g, g[t].slots[0]) then Fixed(g, rank, n, g[t].slots[0].target) else m
  }

  ghost function FrameWork(g: Types, rank: map<nat, nat>, b: Buffer, m: nat, f: Frame): (w: nat)
    requires Wire(g) && Founded(g, rank)
    ensures w > 0
  {
    if f.ItemF? || f.t !in g then 1
    else
      match f
      case ObjectF(t, _, i, _) =>
        1 + if Lean(g[t]) then IdleFrom(g, rank, |b|, t, i) else MembersWork(g, rank, |b|, m, g[t], i)
      case ArrayF(t, pos, stop) =>
        if pos == stop || pos > |b| then 1 else 1 + Mul(|b| - pos, 1 + ElementWork(g, rank, |b|, m, t))
      case VariantF(_, outer) => if outer == 0 then 2 else 1
      case NestedF(_, _, outer) => if outer == 0 then 2 else 1
      case OptionF(_, done) => if done then 1 else 2
  }

  ghost function Work(g: Types, rank: map<nat, nat>, b: Buffer, m: nat, stack: seq<Frame>): nat
    requires Wire(g) && Founded(g, rank)
  {
    if stack == [] then 0
    else Work(g, rank, b, m, stack[..|stack| - 1]) + FrameWork(g, rank, b, m, stack[|stack| - 1])
  }

  /** Readers that are put on the stack without using up bytes have at most `m` steps, others at most `k`. */
  ghost predicate Bounds(g: Types, rank: map<nat, nat>, n: nat, m: nat, k: nat)
    requires Wire(g) && Founded(g, rank)
  {
    && 2 <= m < k
    && (forall t {:trigger Idle(g, rank, n, t)} :: t in g ==> Idle(g, rank, n, t) <= m)
    && (forall t {:trigger Busy(g, rank, n, m, k, t)} :: t in g ==> Busy(g, rank, n, m, k, t))
  }

  ghost predicate Busy(g: Types, rank: map<nat, nat>, n: nat, m: nat, k: nat, t: nat)
    requires Wire(g) && Founded(g, rank) && t in g
  {
    1 + MembersWork(g, rank, n, m, g[t], 0) <= k && 1 + Mul(n, 1 + ElementWork(g, rank, n, m, t)) <= k
  }

  // ----- bounds exist

  lemma {:induction false} IdleBound(g: Types, rank: map<nat, nat>, n: nat, keys: set<nat>) returns (m: nat)
    requires Wire(g) && Founded(g, rank) && keys <= g.Keys
    ensures m >= 2 && forall t {:trigger Idle(g, rank, n, t)} :: t in keys ==> Idle(g, rank, n, t) <= m
    decreases |keys|
  {
    if keys == {} {
      m := 2;
    } else {
      var t :| t in keys;
      var r := IdleBound(g, rank, n, keys - {t});
      m := r + Idle(g, rank, n, t);
    }
  }

  lemma BusyOne(g: Types, rank: map<nat, nat>, n: nat, m: nat, t: nat) returns (k: nat)
    requires Wire(g) && Founded(g, rank) && t in g
    ensures forall x: nat :: k <= x ==> Busy(g, rank, n, m, x, t)
  {
    var row := Mul(n, 1 + ElementWork(g, rank, n, m, t));
    k := 1 + MembersWork(g, rank, n, m, g[t], 0) + row;
  }

  lemma {:induction false} BusyBound(g: Types, rank: map<nat, nat>, n: nat, m: nat, keys: set<nat>) returns (k: nat)
    requires Wire(g) && Founded(g, rank) && keys <= g.Keys
    ensures k > m
    ensures forall t, x: nat {:trigger Busy(g, rank, n, m, x, t)} :: t in keys && k <= x ==> Busy(g, rank, n, m, x, t)
    decreases |keys|
  {
    if keys == {} {
      k := m + 1;
    } else {
      var t :| t in keys;
      var r := BusyBound(g, rank, n, m, keys - {t});
      var one := BusyOne(g, rank, n, m, t);
      k := r + one;
    }
  }

  lemma BoundsExist(g: Types, rank: map<nat, nat>, n: nat) returns (m: nat, k: nat)
    requires Wire(g) && Founded(g, rank)
    ensures Bounds(g, rank, n, m, k)
  {
    m := IdleBound(g, rank, n, g.Keys);
    k := BusyBound(g, rank, n, m, g.Keys);
  }

  // ----- what reading puts on the stack

  /** Elements that are still to be read take up space. */
  predicate Spaced(g: Types, f: Frame)
    requires Wire(g)
  {
    f.ArrayF? && f.t in g && f.pos != f.stop && |g[f.t].slots| == 1 ==> Inline(g, g[f.t].slots[0]) > 0
  }

  /** A reader that has been read from, or need not be to know where it reads. */
  predicate Started(f: Frame) { !(f.NestedF? && f.outer == 0) }

  /** Nested data that is not yet read begins at the cursor. */
  predicate Sound(g: Types, f: Frame, pos: nat)
    requires Wire(g)
  {
    Spaced(g, f) && (Started(f) || f.offset == pos)
  }

  /** Reading from `pos` on: what is put on the stack has at most `w` steps of work, apart from what the bytes
      that were used up pay for. */
  ghost predicate Paid(g: Types, rank: map<nat, nat>, b: Buffer, m: nat, k: nat, out: Out, pos: nat, w: nat)
    requires Wire(g) && Founded(g, rank)
  {
    out.Out? ==>
      && pos <= out.pos <= |b| && |out.pushed| <= 1
      && Work(g, rank, b, m, out.pushed) + Mul(k, |b| - out.pos) <= w + Mul(k, |b| - pos)
      && forall f :: f in out.pushed ==> Sound(g, f, out.pos)
  }

  lemma Pay(k: nat, x: nat, y: nat, w: nat)
    requires x < y && w <= k
    ensures Mul(k, x) + w <= Mul(k, y)
  {
    assert k * y == k * x + k * (y - x);
    Times(k, y - x);
  }

  lemma Times(k: nat, d: nat)
    requires d > 0
    ensures k * d >= k
  {}

  lemma OneFrame(g: Types, rank: map<nat, nat>, b: Buffer, m: nat, f: Frame)
    requires Wire(g) && Founded(g, rank)
    ensures Work(g, rank, b, m, [f]) == FrameWork(g, rank, b, m, f) && Work(g, rank, b, m, []) == 0
  {
    assert [f][..0] == [];
  }

  lemma FreshObject(g: Types, rank: map<nat, nat>, b: Buffer, m: nat, k: nat, t: nat, at: nat)
    requires Wire(g) && Founded(g, rank) && Bounds(g, rank, |b|, m, k) && t in g
    ensures FrameWork(g, rank, b, m, ObjectF(t, at, 0, true)) <= k
    ensures Lean(g[t]) ==> FrameWork(g, rank, b, m, ObjectF(t, at, 0, true)) == Idle(g, rank, |b|, t)
  {
    assert Busy(g, rank, |b|, m, k, t) && Idle(g, rank, |b|, t) <= m;
  }

  lemma FreshArray(g: Types, rank: map<nat, nat>, b: Buffer, m: nat, k: nat, t: nat, at: nat, stop: nat)
    requires Wire(g) && Founded(g, rank) && Bounds(g, rank, |b|, m, k) && t in g
    ensures FrameWork(g, rank, b, m, ArrayF(t, at, stop)) <= k
    ensures at == stop ==> FrameWork(g, rank, b, m, ArrayF(t, at, stop)) == 1
  {
    assert Busy(g, rank, |b|, m, k, t);
    if at != stop && at <= |b| { Fewer(|b| - at, |b|, 1 + ElementWork(g, rank, |b|, m, t)); }
  }

  lemma Fewer(x: nat, y: nat, k: nat)
    requires x <= y
    ensures Mul(x, k) <= Mul(y, k) && Mul(k, x) <= Mul(k, y)
  {}

  lemma PushPaid(g: Types, rank: map<nat, nat>, b: Buffer, m: nat, k: nat, t: nat, at: nat, end: nat, pointer: bool,
                 w: nat)
    requires Wire(g) && Founded(g, rank) && Bounds(g, rank, |b|, m, k) && t in g && at <= |b| && end <= |b|
    requires if Lean(g[t]) then w >= FrameWork(g, rank, b, m, ObjectF(t, at, 0, true)) else w >= 2
    ensures Paid(g, rank, b, m, k, Push(g, b, t, at, end, pointer), at, w)
  {
    var out := Push(g, b, t, at, end, pointer);
    assert FoundedAt(g, rank, t) && WireOk(g, g[t]);
    if out.Out? {
      var f := out.pushed[0];
      OneFrame(g, rank, b, m, f);
      if f.ObjectF? { FreshObject(g, rank, b, m, k, t, at); }
      if f.ArrayF? { FreshArray(g, rank, b, m, k, t, f.pos, f.stop); }
      if out.pos > at { Pay(k, |b| - out.pos, |b| - at, FrameWork(g, rank, b, m, f)); }
    }
  }

  lemma PushIdle(g: Types, rank: map<nat, nat>, b: Buffer, m: nat, k: nat, t: nat, at: nat, end: nat, pointer: bool)
    requires Wire(g) && Founded(g, rank) && Bounds(g, rank, |b|, m, k) && t in g && at <= |b| && end <= |b|
    ensures Paid(g, rank, b, m, k, Push(g, b, t, at, end, pointer), at, Idle(g, rank, |b|, t))
  {
    FreshObject(g, rank, b, m, k, t, at);
    PushPaid(g, rank, b, m, k, t, at, end, pointer, Idle(g, rank, |b|, t));
  }

  lemma DerefPaid(g: Types, rank: map<nat, nat>, b: Buffer, m: nat, k: nat, pos: nat, end: nat, fixed: nat,
                  fixedEnd: nat, t: nat, optional: bool, w: nat)
    requires Wire(g) && Founded(g, rank) && Bounds(g, rank, |b|, m, k) && t in g && end <= |b| && fixedEnd <= |b|
             && pos <= |b|
    requires w >= 1 && Paid(g, rank, b, m, k, Push(g, b, t, pos, end, true), pos, w)
    ensures Paid(g, rank, b, m, k, Deref(g, b, pos, end, fixed, fixedEnd, t, optional), pos, w)
  {
    var out := Deref(g, b, pos, end, fixed, fixedEnd, t, optional);
    if out.Out? {
      if out.pushed == [] {
        NonePaid(g, rank, b, m, k, out, pos, w);
      } else if U32(b, Low(fixed, fixedEnd)) == 0 {
        OneFrame(g, rank, b, m, ArrayF(t, Low(fixed, fixedEnd), Low(fixed, fixedEnd)));
      }
    }
  }

  lemma DerefIdle(g: Types, rank: map<nat, nat>, b: Buffer, m: nat, k: nat, pos: nat, end: nat, fixed: nat,
                  fixedEnd: nat, t: nat, optional: bool)
    requires Wire(g) && Founded(g, rank) && Bounds(g, rank, |b|, m, k) && t in g && end <= |b| && fixedEnd <= |b|
             && pos <= |b|
    ensures Paid(g, rank, b, m, k, Deref(g, b, pos, end, fixed, fixedEnd, t, optional), pos, Idle(g, rank, |b|, t))
  {
    PushIdle(g, rank, b, m, k, t, pos, end, true);
    DerefPaid(g, rank, b, m, k, pos, end, fixed, fixedEnd, t, optional, Idle(g, rank, |b|, t));
  }

  /** Nothing is put on the stack. */
  lemma NonePaid(g: Types, rank: map<nat, nat>, b: Buffer, m: nat, k: nat, out: Out, pos: nat, w: nat)
    requires Wire(g) && Founded(g, rank) && out.Out? && out.pushed == [] && pos <= out.pos <= |b|
    ensures Paid(g, rank, b, m, k, out, pos, w)
  {
    Fewer(|b| - out.pos, |b| - pos, k);
  }

  lemma ParsePaid(g: Types, rank: map<nat, nat>, b: Buffer, m: nat, k: nat, t: nat, pos: nat, end: nat)
    requires Wire(g) && Founded(g, rank) && Bounds(g, rank, |b|, m, k) && t in g && pos <= end <= |b|
    ensures Paid(g, rank, b, m, k, Parse(g, b, t, pos, end), pos, m)
  {
    var out := Parse(g, b, t, pos, end);
    if out.Out? {
      if g[t].kind.Scalar? {
        NonePaid(g, rank, b, m, k, out, pos, m);
      } else if g[t].kind.Optional? {
        DerefIdle(g, rank, b, m, k, pos + 4, end, pos, end, g[t].slots[0].target, true);
        Fewer(|b| - (pos + 4), |b| - pos, k);
      } else {
        PushIdle(g, rank, b, m, k, t, pos, end, false);
      }
    }
  }

  /** Fixed members only. */
  lemma {:induction false} AllFixed(g: Types, rank: map<nat, nat>, n: nat, m: nat, t: nat, i: nat)
    requires Wire(g) && Founded(g, rank) && t in g && g[t].kind.Struct? && !g[t].variable
    ensures MembersWork(g, rank, n, m, g[t], i) == FixedFrom(g, rank, n, t, i) == IdleFrom(g, rank, n, t, i)
    decreases |g[t].slots| - i
  {
    if i < |g[t].slots| {
      assert WireOk(g, g[t]) && FixedSlot(g, g[t].slots[i]);
      AllFixed(g, rank, n, m, t, i + 1);
    }
  }

  lemma FixedPaid(g: Types, rank: map<nat, nat>, b: Buffer, m: nat, t: nat, at: nat, pos: nat)
    requires Wire(g) && Founded(g, rank) && t in g && !g[t].variable
    ensures var out := ParseFixed(g, b, t, at, pos);
            out.Out? ==> out.pos == pos && |out.pushed| <= 1
                         && Work(g, rank, b, m, out.pushed) <= Fixed(g, rank, |b|, t)
                         && forall f :: f in out.pushed ==> Sound(g, f, pos)
  {
    assert FoundedAt(g, rank, t) && WireOk(g, g[t]);
    var out := ParseFixed(g, b, t, at, pos);
    if out.Out? && out.pushed != [] {
      var f := out.pushed[0];
      OneFrame(g, rank, b, m, f);
      if g[t].kind.Struct? {
        AllFixed(g, rank, |b|, m, t, 0);
      } else {
        Fewer(|b| - at, |b|, 1 + ElementWork(g, rank, |b|, m, t));
      }
    }
  }

  // ----- steps

  /** A reader on top of the stack goes on, ends or fails: the work that it leaves and puts on the stack,
      together with the bytes that are left, is less than before. */
  ghost predicate Lessens(g: Types, rank: map<nat, nat>, b: Buffer, m: nat, k: nat, f: Frame, pos: nat, got: Got)
    requires Wire(g) && Founded(g, rank) && pos <= |b|
  {
    match got
    case Fail(_) => true
    case Done(pos', _) => pos' == pos
    case Got(f', out, _, _) =>
      out.Out? ==>
        && pos <= out.pos <= |b| && |out.pushed| <= 1 && Started(f') && Spaced(g, f')
        && (forall x :: x in out.pushed ==> Sound(g, x, out.pos))
        && FrameWork(g, rank, b, m, f') + Work(g, rank, b, m, out.pushed) + Mul(k, |b| - out.pos)
             < FrameWork(g, rank, b, m, f) + Mul(k, |b| - pos)
  }

  ghost function MemberWork(g: Types, rank: map<nat, nat>, n: nat, m: nat, c: Compiled, s: Slot): nat
    requires Wire(g) && Founded(g, rank) && s.target in g
  {
    if FixedSlot(g, s) then Fixed(g, rank, n, s.target)
    else if !Lean(c) then m
    else if s.optional then 0 else Idle(g, rank, n, s.target)
  }

  /** A member that is read leaves the others. */
  lemma MemberRead(g: Types, rank: map<nat, nat>, b: Buffer, m: nat, f: Frame, f': Frame)
    requires Wire(g) && Founded(g, rank) && f.ObjectF? && f'.ObjectF? && f.t in g && f'.t == f.t && f'.start == f.start
    requires f'.index == f.index + 1 <= |g[f.t].slots|
    ensures FrameWork(g, rank, b, m, f') + 1 + MemberWork(g, rank, |b|, m, g[f.t], g[f.t].slots[f.index])
            == FrameWork(g, rank, b, m, f)
  {}

  lemma InPlaceLessens(g: Types, rank: map<nat, nat>, b: Buffer, m: nat, k: nat, f: Frame, pos: nat, end: nat, s: Slot,
                       at: nat)
    requires Wire(g) && Founded(g, rank) && pos <= |b| && f.ObjectF? && f.t in g && f.index < |g[f.t].slots|
    requires s == g[f.t].slots[f.index] && FixedSlot(g, s)
    ensures Lessens(g, rank, b, m, k, f, pos,
                    Made(f.(index := f.index + 1), ParseFixed(g, b, s.target, at, pos), end, 0))
  {
    FixedPaid(g, rank, b, m, s.target, at, pos);
    MemberRead(g, rank, b, m, f, f.(index := f.index + 1));
  }

  lemma PointedLessens(g: Types, rank: map<nat, nat>, b: Buffer, m: nat, k: nat, f: Frame, pos: nat, end: nat, s: Slot,
                       n: nat, base: nat, out: Out)
    requires Wire(g) && Founded(g, rank) && Bounds(g, rank, |b|, m, k) && pos <= |b| && end <= |b| && f.ObjectF?
             && f.t in g
    requires f.index < |g[f.t].slots| && s == g[f.t].slots[f.index] && !FixedSlot(g, s)
    requires (g[f.t].kind.Object? ==> f.start + 2 <= |b|) && n == FixedPart(b, g[f.t], f.start).0 && base + n <= |b|
    requires !(s.optional && s.offset >= n)
    requires out == Deref(g, b, pos, end, base + s.offset, base + n, s.target, s.optional) && out.Out?
    ensures Lessens(g, rank, b, m, k, f, pos, Got(f.(index := f.index + 1, last := out.kind != EmptyItem), out, end, 0))
  {
    DerefIdle(g, rank, b, m, k, pos, end, base + s.offset, base + n, s.target, s.optional);
    MemberRead(g, rank, b, m, f, f.(index := f.index + 1, last := out.kind != EmptyItem));
    assert Idle(g, rank, |b|, s.target) <= m;
  }

  lemma AbsentLessens(g: Types, rank: map<nat, nat>, b: Buffer, m: nat, k: nat, f: Frame, pos: nat, end: nat)
    requires Wire(g) && Founded(g, rank) && pos <= |b| && f.ObjectF? && f.t in g && f.index < |g[f.t].slots|
    ensures Lessens(g, rank, b, m, k, f, pos, Got(f.(index := f.index + 1), Out([], pos, EmptyItem, []), end, 0))
  {
    MemberRead(g, rank, b, m, f, f.(index := f.index + 1));
  }

  lemma ObjectLessens(g: Types, rank: map<nat, nat>, b: Buffer, m: nat, k: nat, f: Frame, pos: nat, end: nat)
    requires Wire(g) && Founded(g, rank) && Bounds(g, rank, |b|, m, k) && pos <= |b| && end <= |b| && f.ObjectF?
             && f.t in g
    ensures Lessens(g, rank, b, m, k, f, pos, ReadObject(g, b, f, pos, end))
  {
    var c, got := g[f.t], ReadObject(g, b, f, pos, end);
    if got.Got? {
      var (n, base) := FixedPart(b, c, f.start);
      var s := c.slots[f.index];
      if FixedSlot(g, s) {
        InPlaceLessens(g, rank, b, m, k, f, pos, end, s, base + s.offset);
      } else if s.optional && s.offset >= n {
        AbsentLessens(g, rank, b, m, k, f, pos, end);
      } else {
        PointedLessens(g, rank, b, m, k, f, pos, end, s, n, base, got.out);
      }
    }
  }

  /** The next element is further on. */
  lemma ElementsLeft(x: nat, d: nat, w: nat)
    requires 0 < d <= x
    ensures Mul(x - d, w) + w <= Mul(x, w)
  {
    assert x * w == (x - d) * w + d * w;
    Times(w, d);
  }

  /** An element that is read leaves less to read. */
  lemma ElementRead(g: Types, rank: map<nat, nat>, b: Buffer, m: nat, f: Frame, f': Frame)
    requires Wire(g) && Founded(g, rank) && f.ArrayF? && f.t in g && |g[f.t].slots| == 1 && f.pos != f.stop
    requires f' == ArrayF(f.t, f.pos + Inline(g, g[f.t].slots[0]), f.stop) && f'.pos <= |b|
             && Inline(g, g[f.t].slots[0]) > 0
    ensures FrameWork(g, rank, b, m, f') + 1 + ElementWork(g, rank, |b|, m, f.t) <= FrameWork(g, rank, b, m, f)
  {
    ElementsLeft(|b| - f.pos, Inline(g, g[f.t].slots[0]), 1 + ElementWork(g, rank, |b|, m, f.t));
  }

  lemma ArrayLessens(g: Types, rank: map<nat, nat>, b: Buffer, m: nat, k: nat, f: Frame, pos: nat, end: nat)
    requires Wire(g) && Founded(g, rank) && Bounds(g, rank, |b|, m, k) && pos <= |b| && end <= |b| && f.ArrayF?
             && f.t in g
    requires Sound(g, f, pos) && WholeArray(g, f)
    ensures Lessens(g, rank, b, m, k, f, pos, ReadArray(g, b, f, pos, end))
  {
    var got := ReadArray(g, b, f, pos, end);
    if got.Got? {
      var s := g[f.t].slots[0];
      if FixedSlot(g, s) {
        FixedPaid(g, rank, b, m, s.target, f.pos, pos);
      } else {
        DerefIdle(g, rank, b, m, k, pos, end, f.pos, f.stop, s.target, s.optional);
      }
      ElementRead(g, rank, b, m, f, got.frame);
    }
  }

  /** Data within a size of its own: the bytes up to it pay for the reader. */
  lemma InnerLessens(g: Types, rank: map<nat, nat>, b: Buffer, m: nat, k: nat, f: Frame, f': Frame, pos: nat, from: nat,
                     out: Out, end: nat, index: nat)
    requires Wire(g) && Founded(g, rank) && m < k && pos < from <= |b| && Paid(g, rank, b, m, k, out, from, m)
    requires (f.VariantF? && f'.VariantF?) || (f.NestedF? && f'.NestedF?)
    requires f.outer == 0 && f'.outer != 0 && f.t in g && f'.t == f.t
    ensures Lessens(g, rank, b, m, k, f, pos, Made(f', out, end, index))
  {
    Pay(k, |b| - from, |b| - pos, m);
    assert FrameWork(g, rank, b, m, f) == 2 && FrameWork(g, rank, b, m, f') == 1;
  }

  lemma VariantPaid(g: Types, rank: map<nat, nat>, b: Buffer, m: nat, k: nat, f: Frame, pos: nat, end: nat, got: Got)
    requires Wire(g) && Founded(g, rank) && Bounds(g, rank, |b|, m, k) && end <= |b| && f.VariantF? && f.t in g
    requires got == ReadVariant(g, b, f, pos, end) && got.Got?
    ensures f.outer == 0 && pos + 5 <= got.end <= end && got.frame == VariantF(f.t, end)
    ensures got.out.Out? && Paid(g, rank, b, m, k, got.out, pos + 5, m)
  {
    VariantGot(g, b, f, pos, end, got);
    ParsePaid(g, rank, b, m, k, g[f.t].slots[b[pos]].target, pos + 5, got.end);
  }

  lemma VariantLessens(g: Types, rank: map<nat, nat>, b: Buffer, m: nat, k: nat, f: Frame, pos: nat, end: nat)
    requires Wire(g) && Founded(g, rank) && Bounds(g, rank, |b|, m, k) && pos <= |b| && end <= |b| && f.VariantF?
             && f.t in g
    ensures Lessens(g, rank, b, m, k, f, pos, ReadVariant(g, b, f, pos, end))
  {
    var got := ReadVariant(g, b, f, pos, end);
    if got.Got? {
      VariantPaid(g, rank, b, m, k, f, pos, end, got);
      InnerLessens(g, rank, b, m, k, f, got.frame, pos, pos + 5, got.out, got.end, got.index);
    }
  }

  lemma NestedLessens(g: Types, rank: map<nat, nat>, b: Buffer, m: nat, k: nat, f: Frame, pos: nat, end: nat)
    requires Wire(g) && Founded(g, rank) && Bounds(g, rank, |b|, m, k) && pos <= |b| && end <= |b| && f.NestedF?
             && f.t in g
    requires Sound(g, f, pos)
    ensures Lessens(g, rank, b, m, k, f, pos, ReadNested(g, b, f, pos, end))
  {
    var got := ReadNested(g, b, f, pos, end);
    if got.Got? {
      var from := NestedGot(g, b, f, pos, end, got);
      ParsePaid(g, rank, b, m, k, g[f.t].slots[0].target, from, got.end);
      InnerLessens(g, rank, b, m, k, f, got.frame, pos, from, got.out, got.end, got.index);
    }
  }

  lemma OptionLessens(g: Types, rank: map<nat, nat>, b: Buffer, m: nat, k: nat, f: Frame, pos: nat, end: nat)
    requires Wire(g) && Founded(g, rank) && Bounds(g, rank, |b|, m, k) && pos <= end <= |b| && f.OptionF?
             && f.t in g
    ensures Lessens(g, rank, b, m, k, f, pos, ReadOption(g, b, f, pos, end))
  {
    var got := ReadOption(g, b, f, pos, end);
    if got.Got? {
      DerefIdle(g, rank, b, m, k, pos + 4, end, pos, end, g[f.t].slots[0].target, true);
      Pay(k, |b| - (pos + 4), |b| - pos, m);
    }
  }

  lemma ReadLessens(g: Types, rank: map<nat, nat>, b: Buffer, m: nat, k: nat, f: Frame, pos: nat, end: nat)
    requires Wire(g) && Founded(g, rank) && Bounds(g, rank, |b|, m, k) && pos <= end <= |b| && !f.ItemF?
             && f.t in g
    requires Sound(g, f, pos) && WholeArray(g, f)
    ensures Lessens(g, rank, b, m, k, f, pos, Read(g, b, f, pos, end))
  {
    match f
    case ObjectF(_, _, _, _) => ObjectLessens(g, rank, b, m, k, f, pos, end);
    case ArrayF(_, _, _) => ArrayLessens(g, rank, b, m, k, f, pos, end);
    case VariantF(_, _) => VariantLessens(g, rank, b, m, k, f, pos, end);
    case NestedF(_, _, _) => NestedLessens(g, rank, b, m, k, f, pos, end);
    case OptionF(_, _) => OptionLessens(g, rank, b, m, k, f, pos, end);
  }

  /** Only the reader on top, or the one below its first item, may be one that was not read from. */
  ghost predicate Ready(g: Types, b: Buffer, p: Parser)
    requires Wire(g)
  {
    var top := |p.stack| - 1;
    && p.pos <= |b|
    && (forall i :: 0 <= i <= top ==> Sound(g, p.stack[i], p.pos))
    && (forall i :: 0 <= i < top ==> Started(p.stack[i]) || (i == top - 1 && p.stack[top].ItemF?))
  }

  /** The bytes that are left, and the work on the stack. */
  ghost function Potential(g: Types, rank: map<nat, nat>, b: Buffer, m: nat, k: nat, p: Parser): nat
    requires Wire(g) && Founded(g, rank) && p.pos <= |b|
  {
    Work(g, rank, b, m, p.stack) + Mul(k, |b| - p.pos)
  }

  lemma WorkSnoc(g: Types, rank: map<nat, nat>, b: Buffer, m: nat, stack: seq<Frame>, f: Frame)
    requires Wire(g) && Founded(g, rank)
    ensures Work(g, rank, b, m, stack + [f]) == Work(g, rank, b, m, stack) + FrameWork(g, rank, b, m, f)
  {
    assert (stack + [f])[..|stack|] == stack;
  }

  lemma WorkPushed(g: Types, rank: map<nat, nat>, b: Buffer, m: nat, stack: seq<Frame>, pushed: seq<Frame>)
    requires Wire(g) && Founded(g, rank) && |pushed| <= 1
    ensures Work(g, rank, b, m, stack + pushed) == Work(g, rank, b, m, stack) + Work(g, rank, b, m, pushed)
  {
    if pushed == [] {
      assert stack + pushed == stack;
    } else {
      assert pushed == [pushed[0]];
      WorkSnoc(g, rank, b, m, stack, pushed[0]);
      OneFrame(g, rank, b, m, pushed[0]);
    }
  }

  /** Every step of the parser lessens the potential. */
  lemma NextLessens(g: Types, rank: map<nat, nat>, b: Buffer, m: nat, k: nat, p: Parser, p': Parser, item: Token)
    requires Wire(g) && Founded(g, rank) && Bounds(g, rank, |b|, m, k) && Ready(g, b, p) && Sane(g, b, p)
    requires p.stack != [] && Next(g, b, p) == Some((p', item))
    ensures Ready(g, b, p') && Potential(g, rank, b, m, k, p') < Potential(g, rank, b, m, k, p)
  {
    var f := p.stack[|p.stack| - 1];
    if f.ItemF? {
      DoneReady(g, rank, b, m, k, p, p');
    } else {
      assert Sound(g, f, p.pos) && WholeArray(g, f);
      ReadLessens(g, rank, b, m, k, f, p.pos, p.end);
      StepLessens(g, rank, b, m, k, p, f, Read(g, b, f, p.pos, p.end), p', item);
    }
  }

  lemma StepLessens(g: Types, rank: map<nat, nat>, b: Buffer, m: nat, k: nat, p: Parser, f: Frame, got: Got, p': Parser,
                    item: Token)
    requires Wire(g) && Founded(g, rank) && Ready(g, b, p) && p.stack != [] && f == p.stack[|p.stack| - 1] && !f.ItemF?
    requires Lessens(g, rank, b, m, k, f, p.pos, got) && p.end <= |b| && f.t in g && got == Read(g, b, f, p.pos, p.end)
    requires Next(g, b, p) == Some((p', item))
    ensures Ready(g, b, p') && Potential(g, rank, b, m, k, p') < Potential(g, rank, b, m, k, p)
  {
    var rest := p.stack[..|p.stack| - 1];
    if got.Got? {
      GotLessens(g, rank, b, m, k, p, rest, f, got, p');
      StillReady(g, b, p, rest, got.frame, got.out.pushed, p');
    } else {
      DoneReady(g, rank, b, m, k, p, p');
    }
  }

  lemma GotLessens(g: Types, rank: map<nat, nat>, b: Buffer, m: nat, k: nat, p: Parser, rest: seq<Frame>, f: Frame,
                   got: Got, p': Parser)
    requires Wire(g) && Founded(g, rank) && p.stack != [] && rest == p.stack[..|p.stack| - 1]
             && f == p.stack[|p.stack| - 1]
    requires p.pos <= |b| && got.Got? && got.out.Out? && Lessens(g, rank, b, m, k, f, p.pos, got)
    requires p' == Parser(got.out.pos, got.end, rest + [got.frame] + got.out.pushed)
    ensures Potential(g, rank, b, m, k, p') < Potential(g, rank, b, m, k, p)
  {
    WorkSnoc(g, rank, b, m, rest, got.frame);
    WorkPushed(g, rank, b, m, rest + [got.frame], got.out.pushed);
  }

  lemma DoneReady(g: Types, rank: map<nat, nat>, b: Buffer, m: nat, k: nat, p: Parser, p': Parser)
    requires Wire(g) && Founded(g, rank) && Ready(g, b, p) && p.stack != []
    requires p'.stack == p.stack[..|p.stack| - 1] && p'.pos == p.pos
    ensures Ready(g, b, p') && Potential(g, rank, b, m, k, p') < Potential(g, rank, b, m, k, p)
  {
    forall i | 0 <= i < |p'.stack| ensures Sound(g, p'.stack[i], p'.pos) { assert p'.stack[i] == p.stack[i]; }
    forall i | 0 <= i < |p'.stack| - 1 ensures Started(p'.stack[i]) { assert p'.stack[i] == p.stack[i]; }
  }

  lemma StillReady(g: Types, b: Buffer, p: Parser, rest: seq<Frame>, f: Frame, pushed: seq<Frame>, p': Parser)
    requires Wire(g) && Ready(g, b, p) && p.stack != [] && rest == p.stack[..|p.stack| - 1]
             && !p.stack[|p.stack| - 1].ItemF?
    requires p'.pos <= |b| && p'.stack == rest + [f] + pushed && |pushed| <= 1 && Started(f) && Spaced(g, f)
    requires forall x :: x in pushed ==> Sound(g, x, p'.pos)
    ensures Ready(g, b, p')
  {
    var n := |rest|;
    forall i | 0 <= i < |p'.stack| ensures Sound(g, p'.stack[i], p'.pos) {
      if i < n { assert p'.stack[i] == p.stack[i]; } else if i > n { assert p'.stack[i] in pushed; }
    }
    forall i | 0 <= i < |p'.stack| - 1 ensures Started(p'.stack[i]) {
      if i < n { assert p'.stack[i] == p.stack[i]; }
    }
  }

  /** The parser as it begins. */
  lemma StartReady(g: Types, rank: map<nat, nat>, b: Buffer, m: nat, k: nat, root: nat, p: Parser)
    requires Wire(g) && Founded(g, rank) && Bounds(g, rank, |b|, m, k) && root in g
    requires var out := Parse(g, b, root, 0, |b|);
             out.Out? && p == Parser(out.pos, |b|, out.pushed + [ItemF(Token(out.kind, out.data, 0))])
    ensures Ready(g, b, p)
  {
    ParsePaid(g, rank, b, m, k, root, 0, |b|);
  }
}
