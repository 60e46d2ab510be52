/** Types of a schema, with aliases resolved, and the layout of their compiled form. */
module SchemaLayout {
  import opened SchemaMatch

  /** A child type is its index in the schema. */
  datatype Ty =
    | ObjectTy(members: seq<nat>) | StructTy(members: seq<nat>) | TupleTy(members: seq<nat>)
    | IntTy(bits: nat) | FloatTy(exp: nat, mantissa: nat)
    | ArrayTy(elem: nat, len: nat) | FracPackTy(elem: nat) | CustomTy(elem: nat)
    | OptionTy(elem: nat) | ListTy(elem: nat) | VariantTy(members: seq<nat>)

  type Schema = seq<Ty>

  /** Children that have to be complete before their parent. */
  function Strict(t: Ty): seq<nat> {
    match t
    case ObjectTy(ms) => ms
    case StructTy(ms) => ms
    case TupleTy(ms) => ms
    case ArrayTy(e, _) => [e]
    case FracPackTy(e) => [e]
    case CustomTy(e) => [e]
    case _ => []
  }

  /** Children that are only referred to. */
  function Lazy(t: Ty): seq<nat> {
    match t
    case OptionTy(e) => [e]
    case ListTy(e) => [e]
    case VariantTy(ms) => ms
    case _ => []
  }

  predicate Terminal(t: Ty) { t.IntTy? || t.FloatTy? || t.OptionTy? || t.ListTy? || t.VariantTy? }

  ghost predicate WellFormed(g: Schema) {
    forall t, c :: 0 <= t < |g| && (c in Strict(g[t]) || c in Lazy(g[t])) ==> c < |g|
  }

  function KindOf(t: Ty): Kind {
    match t
    case ObjectTy(_) => Object case StructTy(_) => Struct case TupleTy(_) => Object
    case IntTy(_) => Scalar case FloatTy(_, _) => Scalar
    case ArrayTy(_, _) => Array case FracPackTy(_) => Nested case CustomTy(_) => Custom
    case OptionTy(_) => Optional case ListTy(_) => Container case VariantTy(_) => Variant
  }

  datatype Slot = Slot(offset: nat, optional: bool, target: nat)

  /** While a type is incomplete, `size` is its position on the stack. */
  datatype Compiled = Compiled(kind: Kind, variable: bool, size: nat, slots: seq<Slot>, complete: bool)
  type Types = map<nat, Compiled>

  predicate Done(types: Types, t: nat) { t in types && types[t].complete }

  function Wrap(x: nat): nat { x % 0x1_0000_0000 }

  /** What a member takes up inside its parent: its data, or a 4-byte offset to it. */
  function InlineSize(c: Compiled): nat { if c.kind.Optional? || c.variable then 4 else c.size }

  datatype Layout = Layout(size: nat, variable: bool, slots: seq<Slot>) | TooLarge

  /** The type that a member refers to: an option is replaced by what it holds. */
  function Target(types: Types, m: nat): nat
    requires Done(types, m) && (types[m].kind.Optional? ==> types[m].slots != [])
  {
    if types[m].kind.Optional? then types[m].slots[0].target else m
  }

  predicate Usable(types: Types, m: nat) { Done(types, m) && (types[m].kind.Optional? ==> types[m].slots != []) }

  predicate AllUsable(types: Types, ms: seq<nat>) { forall i :: 0 <= i < |ms| ==> Usable(types, ms[i]) }

  /** `make_member`. A variable-size member of an option is sized by the option alone. */
  function AddMember(types: Types, m: nat, l: Layout): Layout
    requires Usable(types, m)
  {
    if l.TooLarge? || l.size > 65535 then TooLarge
    else
      var c := types[m];
      Layout(Wrap(l.size + InlineSize(c)), l.variable || c.variable,
             l.slots + [Slot(l.size, c.kind.Optional?, Target(types, m))])
  }

  function AddMembers(types: Types, ms: seq<nat>, l: Layout): Layout
    requires AllUsable(types, ms)
  {
    if ms == [] then l else AddMember(types, ms[|ms| - 1], AddMembers(types, ms[..|ms| - 1], l))
  }

  function Total(types: Types, ms: seq<nat>): nat
    requires AllUsable(types, ms)
  {
    if ms == [] then 0 else Total(types, ms[..|ms| - 1]) + InlineSize(types[ms[|ms| - 1]])
  }

  /** Member `i` lies at the total inline size of the members before it, modulo 2^32. */
  predicate SlotFor(types: Types, ms: seq<nat>, i: nat, s: Slot)
    requires AllUsable(types, ms) && i < |ms|
  {
    && s.offset == Wrap(Total(types, ms[..i])) && s.offset <= 65535
    && s.optional == types[ms[i]].kind.Optional? && s.target == Target(types, ms[i])
  }

  predicate AnyVariable(types: Types, ms: seq<nat>)
    requires AllUsable(types, ms)
  {
    exists i :: 0 <= i < |ms| && types[ms[i]].variable
  }

  /** The layout of a list of members, when it does not fail. */
  lemma {:induction false} OffsetsAreSums(types: Types, ms: seq<nat>, v: bool)
    requires AllUsable(types, ms) && AddMembers(types, ms, Layout(0, v, [])).Layout?
    ensures var l := AddMembers(types, ms, Layout(0, v, []));
            && |l.slots| == |ms| && l.size == Wrap(Total(types, ms))
            && (l.variable <==> v || AnyVariable(types, ms))
            && forall i :: 0 <= i < |ms| ==> SlotFor(types, ms, i, l.slots[i])
  {
    if ms != [] {
      var n := |ms| - 1;
      var init, l := ms[..n], AddMembers(types, ms, Layout(0, v, []));
      OffsetsAreSums(types, init, v);
      var l0 := AddMembers(types, init, Layout(0, v, []));
      WrapAdd(Total(types, init), InlineSize(types[ms[n]]));
      forall i | 0 <= i < |ms| ensures SlotFor(types, ms, i, l.slots[i]) {
        if i < n {
          assert SlotFor(types, init, i, l0.slots[i]);
          assert init[..i] == ms[..i];
        }
      }
      LastVariable(types, ms);
    }
  }

  lemma LastVariable(types: Types, ms: seq<nat>)
    requires AllUsable(types, ms) && ms != []
    ensures AnyVariable(types, ms) <==> AnyVariable(types, ms[..|ms| - 1]) || types[ms[|ms| - 1]].variable
  {
    var init := ms[..|ms| - 1];
    assert forall i :: 0 <= i < |init| ==> init[i] == ms[i];
  }

  lemma WrapAdd(a: nat, b: nat)
    ensures Wrap(Wrap(a) + b) == Wrap(a + b)
  {
    var k := a / 0x1_0000_0000;
    var x := Wrap(a) + b;
    assert a + b == x + 0x1_0000_0000 * k;
    Remainder(x, k, x / 0x1_0000_0000, Wrap(x), (a + b) / 0x1_0000_0000, Wrap(a + b));
  }

  lemma Remainder(x: nat, k: nat, q: nat, r: nat, q': nat, r': nat)
    requires x == 0x1_0000_0000 * q + r && r < 0x1_0000_0000
    requires x + 0x1_0000_0000 * k == 0x1_0000_0000 * q' + r' && r' < 0x1_0000_0000
    ensures r == r'
  {}

  /** If no sum of preceding members exceeds 65535, then nothing fails and nothing wraps. */
  lemma {:induction false} FitsWithoutWrap(types: Types, ms: seq<nat>, v: bool)
    requires AllUsable(types, ms)
    requires forall i :: 0 <= i < |ms| ==> Total(types, ms[..i]) <= 65535
    ensures AddMembers(types, ms, Layout(0, v, [])).Layout?
  {
    if ms != [] {
      var init := ms[..|ms| - 1];
      forall i | 0 <= i < |init| ensures Total(types, init[..i]) <= 65535 { assert init[..i] == ms[..i]; }
      FitsWithoutWrap(types, init, v);
      OffsetsAreSums(types, init, v);
      assert Total(types, ms[..|ms| - 1]) <= 65535;
    }
  }

  /** `link_impl`: the loop over the members. */
  method Link(types: Types, ms: seq<nat>, v: bool) returns (l: Layout)
    requires AllUsable(types, ms)
    ensures l == AddMembers(types, ms, Layout(0, v, []))
  {
    l := Layout(0, v, []);
    for i := 0 to |ms|
      invariant l == AddMembers(types, ms[..i], Layout(0, v, []))
    {
      assert ms[..i + 1][..i] == ms[..i];
      l := AddMember(types, ms[i], l);
    }
    assert ms[..|ms|] == ms;
  }

  /** The compiled form of a type whose strict children are complete; None when it is too large. */
  function Finished(types: Types, t: Ty): (r: Layout)
    requires AllUsable(types, Strict(t))
  {
    match t
    case StructTy(ms) => AddMembers(types, ms, Layout(0, false, []))
    case ArrayTy(e, n) =>
      var l := AddMembers(types, [e], Layout(0, false, []));
      if l.TooLarge? then l else l.(size := Wrap(l.size * n))
    case FracPackTy(e) => Layout(0, true, [Slot(0, false, e)])
    case CustomTy(e) =>
      assert Usable(types, Strict(t)[0]);
      Layout(types[e].size, types[e].variable, types[e].slots)
    case OptionTy(e) => Layout(0, true, [Slot(0, false, e)])
    case ListTy(e) => Layout(0, true, [Slot(0, false, e)])
    case VariantTy(ms) => Layout(0, true, seq(|ms|, i requires 0 <= i < |ms| => Slot(0, false, ms[i])))
    case IntTy(b) => Layout(Wrap(b + 7) / 8, false, [])
    case FloatTy(e, m) => Layout(Wrap(e + m + 7) / 8, false, [])
    case ObjectTy(ms) => AddMembers(types, ms, Layout(0, true, []))
    case TupleTy(ms) => AddMembers(types, ms, Layout(0, true, []))
  }

  function FinishedKind(types: Types, t: Ty): Kind
    requires AllUsable(types, Strict(t))
  {
    if t.CustomTy? then
      assert Usable(types, Strict(t)[0]);
      types[t.elem].kind
    else KindOf(t)
  }

  /** The entry of a complete type is determined by its complete children. */
  ghost predicate Correct(types: Types, t: nat, ty: Ty) {
    && Usable(types, t) && AllUsable(types, Strict(ty))
    && Finished(types, ty) == Layout(types[t].size, types[t].variable, types[t].slots)
    && types[t].kind == FinishedKind(types, ty)
  }

  /** Completing one more type changes nothing for those that are complete. */
  ghost predicate Extends(types: Types, types': Types) {
    forall t :: Done(types, t) ==> t in types' && types'[t] == types[t]
  }

  lemma {:induction false} AddMembersExtends(types: Types, types': Types, ms: seq<nat>, l: Layout)
    requires Extends(types, types') && AllUsable(types, ms)
    ensures AddMembers(types', ms, l) == AddMembers(types, ms, l)
  {
    if ms != [] {
      AddMembersExtends(types, types', ms[..|ms| - 1], l);
    }
  }

  lemma FinishedExtends(types: Types, types': Types, ty: Ty)
    requires Extends(types, types') && AllUsable(types, Strict(ty))
    ensures AllUsable(types', Strict(ty)) && Finished(types', ty) == Finished(types, ty)
    ensures FinishedKind(types', ty) == FinishedKind(types, ty)
  {
    match ty
    case ObjectTy(ms) => AddMembersExtends(types, types', ms, Layout(0, true, []));
    case TupleTy(ms) => AddMembersExtends(types, types', ms, Layout(0, true, []));
    case StructTy(ms) => AddMembersExtends(types, types', ms, Layout(0, false, []));
    case ArrayTy(e, n) => AddMembersExtends(types, types', [e], Layout(0, false, []));
    case CustomTy(e) => assert Usable(types, Strict(ty)[0]);
    case _ =>
  }

  lemma CorrectExtends(types: Types, types': Types, t: nat, ty: Ty)
    requires Extends(types, types') && Correct(types, t, ty)
    ensures Correct(types', t, ty)
  {
    FinishedExtends(types, types', ty);
  }

  /** In a compiled object, struct or tuple, member `i` is at the total inline size of the members before
      it, exactly when that total fits 16 bits. */
  lemma MemberOffsets(types: Types, t: nat, ty: Ty, i: nat)
    requires Correct(types, t, ty) && (ty.ObjectTy? || ty.StructTy? || ty.TupleTy?) && i < |ty.members|
    ensures |types[t].slots| == |ty.members| && SlotFor(types, ty.members, i, types[t].slots[i])
    ensures types[t].slots[i].offset == Total(types, ty.members[..i]) <==> Total(types, ty.members[..i]) <= 65535
    ensures types[t].size == Wrap(Total(types, ty.members))
  {
    OffsetsAreSums(types, ty.members, !ty.StructTy?);
  }

  /** A total of 2^32 wraps around: the member after it is laid out at the start again. */
  lemma WrappedTotal(types: Types, small: nat, big: nat)
    requires Done(types, small) && types[small].kind.Scalar? && !types[small].variable && types[small].size == 4
    requires Done(types, big) && types[big].kind.Array? && !types[big].variable && types[big].size == 0xffff_fffc
    ensures var ms := [small, big, small];
            AllUsable(types, ms) && Total(types, ms[..2]) == 0x1_0000_0000
            && AddMembers(types, ms, Layout(0, false, [])) ==
                 Layout(4, false, [Slot(0, false, small), Slot(4, false, big), Slot(0, false, small)])
  {
    var l0 := Layout(0, false, []);
    var ms := [small, big, small];
    var one, two := [small], [small, big];
    assert AllUsable(types, one) && AllUsable(types, two) && AllUsable(types, ms);
    assert one[..0] == [] && two[..1] == one && ms[..2] == two;
    assert AddMembers(types, one, l0) == Layout(4, false, [Slot(0, false, small)]);
    assert AddMembers(types, two, l0) == Layout(0, false, [Slot(0, false, small), Slot(4, false, big)]);
    assert Total(types, one) == 4;
    assert Total(types, two) == Total(types, one) + InlineSize(types[big]);
  }
}
