/** Correctness of `translate_expr`: the translated bytes, run by the 8-byte machine, do what
    the wasm bytes do on the 4-byte machine. Cells are unsigned integers, so "the native cell
    is the zero-extended wasm cell" is equality. */
module DwarfSimulation {
  import opened Leb128
  import opened DwarfMachine
  import opened DwarfTranslate

  /** Native memory holds the wasm linear memory at `base`, register 4 holds `base`, and the
      native frame base is the native address of the wasm frame base. */
  ghost predicate Corresponds(wasm: Machine, native: Machine) {
    && wasm.width == W32 && native.width == W64
    && native.reg4 < TWO64 && wasm.frameBase < TWO32
    && native.frameBase == W64.Wrap(native.reg4 + wasm.frameBase)
    && (forall a: nat :: wasm.mem(a).Some? ==>
          native.reg4 + a < TWO64 && native.mem(native.reg4 + a) == wasm.mem(a))
  }

  predicate Cells32(st: Stack) { forall i :: 0 <= i < |st| ==> st[i] < TWO32 }

  /** When a signed-extended unsigned remainder is still the 32-bit one. */
  predicate ModExact(a: nat, b: nat) {
    a < TWO31 || b >= TWO31 || (b != 0 && (TWO64 - TWO32) % b == 0)
  }

  /** The translation of `op` is exact on this stack. Only frame-relative addresses that leave
      the 32-bit range and some remainders are not. */
  predicate Exact(wasm: Machine, op: Op, st: Stack) {
    match op
    case Fbreg(x) => 0 <= wasm.frameBase + x < TWO32
    case Binary(Mod) => |st| >= 2 ==> ModExact(st[1], st[0])
    case _ => true
  }

  // ----- the instruction sequences that the translator composes

  lemma Run1(m: Machine, op: Op, st: Stack)
    ensures Run(m, [op], st) == Step(m, op, st)
  {
    assert [op][1..] == [];
    match Step(m, op, st) case None => case Some(st') => assert Run(m, [], st') == Some(st');
  }

  lemma RunThen(m: Machine, p: seq<Op>, q: seq<Op>, st: Stack, mid: Stack)
    requires Run(m, p, st) == Some(mid)
    ensures Run(m, p + q, st) == Run(m, q, mid)
  {
    RunAppend(m, p, q, st);
  }

  lemma Run2(m: Machine, a: Op, b: Op, st: Stack)
    requires Step(m, a, st).Some?
    ensures Run(m, [a, b], st) == Step(m, b, Step(m, a, st).value)
  {
    Run1(m, a, st);
    RunThen(m, [a], [b], st, Step(m, a, st).value);
    Run1(m, b, Step(m, a, st).value);
    assert [a] + [b] == [a, b];
  }

  lemma RunTruncate(m: Machine, x: nat, st: Stack)
    requires m.width == W64 && x < TWO64
    ensures Run(m, Truncate, [x] + st) == Some([W32.Wrap(x)] + st)
  {
    Run2(m, ConstU(4, 0xffff_ffff), Binary(And), [x] + st);
    var s1 := [0xffff_ffff] + ([x] + st);
    assert Step(m, ConstU(4, 0xffff_ffff), [x] + st) == Some(s1);
    assert s1[2..] == st;
    LimitIsPow2(4);
    BitAndMask(x, 32);
  }

  lemma ShiftBy32(a: int)
    ensures a >= 0 ==> ShiftLeft(a, 32) == a * TWO32
    ensures ShiftRight(a, 32) == a / TWO32
  {
    LimitIsPow2(4);
  }

  /** A shift by the constant 32, as both halves of a sign extension do it. */
  lemma RunShift32(m: Machine, b: BinOp, x: nat, st: Stack, v: nat)
    requires m.width == W64 && Apply(W64, b, x, 32) == Some(v)
    ensures Run(m, [ConstU(1, 32), Binary(b)], [x] + st) == Some([v] + st)
  {
    Run2(m, ConstU(1, 32), Binary(b), [x] + st);
    var s1 := [32] + ([x] + st);
    assert Step(m, ConstU(1, 32), [x] + st) == Some(s1);
    assert s1[2..] == st;
  }

  lemma SignExtendValue(x: nat)
    requires x < TWO32
    ensures x * TWO32 < TWO64
    ensures Apply(W64, Shl, x, 32) == Some(x * TWO32)
    ensures Apply(W64, Shra, x * TWO32, 32) == Some(Extended(x))
  {
    ShiftBy32(x);
    var y := x * TWO32;
    ShiftBy32(W64.Signed(y));
    assert W64.Signed(y) == W32.Signed(x) * TWO32;
    assert W64.Signed(y) / TWO32 == W32.Signed(x);
  }

  lemma RunSignExtend(m: Machine, x: nat, st: Stack)
    requires m.width == W64 && x < TWO32
    ensures Run(m, SignExtend, [x] + st) == Some([Extended(x)] + st)
  {
    SignExtendValue(x);
    var y := x * TWO32;
    RunShift32(m, Shl, x, st, y);
    RunShift32(m, Shra, y, st, Extended(x));
    RunThen(m, [ConstU(1, 32), Binary(Shl)], [ConstU(1, 32), Binary(Shra)], [x] + st, [y] + st);
    assert SignExtend == [ConstU(1, 32), Binary(Shl)] + [ConstU(1, 32), Binary(Shra)];
  }

  lemma RunSwap(m: Machine, x: nat, y: nat, st: Stack)
    ensures Run(m, [Swap], [x, y] + st) == Some([y, x] + st)
  {
    Run1(m, Swap, [x, y] + st);
    assert ([x, y] + st)[2..] == st;
  }

  lemma RunSignExtend2(m: Machine, x: nat, y: nat, st: Stack)
    requires m.width == W64 && x < TWO32 && y < TWO32
    ensures Run(m, SignExtend2, [x, y] + st)
         == Some([Extended(x), Extended(y)] + st)
  {
    var x', y' := Extended(x), Extended(y);
    assert [x, y] + st == [x] + ([y] + st) && [x', y] + st == [x'] + ([y] + st);
    RunSignExtend(m, x, [y] + st);
    RunSwap(m, x', y, st);
    RunThen(m, SignExtend, [Swap], [x, y] + st, [x', y] + st);
    assert [y, x'] + st == [y] + ([x'] + st) && [y', x'] + st == [y'] + ([x'] + st);
    RunSignExtend(m, y, [x'] + st);
    RunThen(m, SignExtend + [Swap], SignExtend, [x, y] + st, [y, x'] + st);
    RunSwap(m, y', x', st);
    RunThen(m, SignExtend + [Swap] + SignExtend, [Swap], [x, y] + st, [y', x'] + st);
  }

  lemma RunAdjust(m: Machine, a: nat, st: Stack)
    requires m.width == W64 && m.reg4 < TWO64
    ensures Run(m, AdjustAddr, [a] + st) == Some([W64.Wrap(m.reg4 + a)] + st)
    ensures Run(m, AddrToWasm, [a] + st) == Some([W64.Wrap(a - m.reg4)] + st)
  {
    Run2(m, Breg(4, 0), Binary(Plus), [a] + st);
    Run2(m, Breg(4, 0), Binary(Minus), [a] + st);
    assert ([m.reg4] + ([a] + st))[2..] == st;
  }

  // ----- arithmetic facts: a wide operation followed by truncation is the narrow operation

  lemma {:induction false} SameLoad(wasm: Machine, native: Machine, a: nat, n: nat)
    requires Corresponds(wasm, native) && Load(wasm, a, n).Some?
    ensures n > 0 ==> native.reg4 + a < TWO64
    ensures Load(native, native.reg4 + a, n) == Load(wasm, a, n)
    decreases n
  {
    if n != 0 {
      SameLoad(wasm, native, a + 1, n - 1);
    }
  }

  lemma WrapWrap(x: int)
    ensures W32.Wrap(W64.Wrap(x)) == W32.Wrap(x)
  {
    var q := x / TWO64;
    assert x == TWO64 * q + W64.Wrap(x);
  }

  lemma WrapSigned(x: nat)
    requires x < TWO32
    ensures W64.Signed(Extended(x)) == W32.Signed(x)
    ensures W32.Wrap(W32.Signed(x)) == x
  {}

  /** A shift right of a 32-bit value, done on 64 bits, never needs truncation. */
  lemma ShiftRightNarrow(x: nat, b: nat)
    requires x < TWO32
    ensures 0 <= ShiftRight(x, b) < TWO32
  {}

  function Extended(x: nat): nat { W64.Wrap(W32.Signed(x)) }

  lemma ExtendedValue(x: nat)
    requires x < TWO32
    ensures Extended(x) == if x < TWO31 then x else x + (TWO64 - TWO32)
  {}

  /** The remainder of two negative values, or of any value by a negative one. */
  lemma ModNegativeDivisor(a: nat, b: nat)
    requires a < TWO32 && TWO31 <= b < TWO32
    ensures W32.Wrap(Extended(a) % Extended(b)) == a % b
  {
    ExtendedValue(a);
    ExtendedValue(b);
    var a', b' := Extended(a), Extended(b);
    if a < b {
      ModSmall(a, b);
      ModSmall(a', b');
    } else {
      ModUnique(a, b, 1, a - b);
      ModUnique(a', b', 1, a - b);
    }
  }

  lemma ModPositiveDivisor(a: nat, b: nat)
    requires a < TWO32 && 0 < b < TWO31
    ensures W32.Wrap(Extended(a) % Extended(b)) == a % b <==> a < TWO31 || (TWO64 - TWO32) % b == 0
  {
    ExtendedValue(a);
    ExtendedValue(b);
    ModShift(TWO64 - TWO32, a, b);
    ModUpper(Extended(a), b);
    ModUpper(a, b);
  }

  lemma ModUpper(x: nat, b: nat)
    requires 0 < b < TWO32
    ensures x % b < TWO32 && W32.Wrap(x % b) == x % b
  {}

  lemma SignExtendedMod(a: nat, b: nat)
    requires a < TWO32 && 0 < b < TWO32
    ensures Extended(b) != 0
    ensures W32.Wrap(Extended(a) % Extended(b)) == a % b <==> ModExact(a, b)
  {
    ExtendedValue(b);
    if b >= TWO31 { ModNegativeDivisor(a, b); } else { ModPositiveDivisor(a, b); }
  }

  lemma ModSmall(a: nat, b: nat)
    requires a < b
    ensures a % b == a
  {
    ModUnique(a, b, 0, a);
  }

  lemma ModShift(c: nat, a: nat, b: nat)
    requires b > 0
    ensures (c + a) % b == a % b <==> c % b == 0
  {
    var q, r, q', r' := c / b, c % b, a / b, a % b;
    assert c + a == b * (q + q') + (r + r');
    if r + r' < b {
      ModUnique(c + a, b, q + q', r + r');
    } else {
      assert c + a == b * (q + q' + 1) + (r + r' - b);
      ModUnique(c + a, b, q + q' + 1, r + r' - b);
    }
  }

  // ----- one operation

  lemma RunBinary(m: Machine, b: BinOp, x: nat, y: nat, st: Stack)
    ensures Run(m, [Binary(b)], [x, y] + st) ==
      match Apply(m.width, b, y, x) case None => None case Some(v) => Some([v] + st)
  {
    Run1(m, Binary(b), [x, y] + st);
    assert ([x, y] + st)[2..] == st;
  }

  /** The four operations whose wide result is congruent to the narrow one. */
  lemma ModularBinary(b: BinOp, x: nat, y: nat)
    requires b in {Plus, Minus, Mul, Shl}
    ensures Apply(W64, b, y, x).Some? && Apply(W64, b, y, x).value < TWO64
    ensures Apply(W32, b, y, x) == Some(W32.Wrap(Apply(W64, b, y, x).value))
  {
    match b
    case Plus => WrapWrap(y + x);
    case Minus => WrapWrap(y - x);
    case Mul => WrapWrap(y * x);
    case Shl => WrapWrap(ShiftLeft(y, x));
  }

  lemma SimulateModular(native: Machine, b: BinOp, x: nat, y: nat, st: Stack)
    requires native.width == W64 && b in {Plus, Minus, Mul, Shl}
    ensures Run(native, [Binary(b)] + Truncate, [x, y] + st) == Some([Apply(W32, b, y, x).value] + st)
  {
    ModularBinary(b, x, y);
    RunBinary(native, b, x, y, st);
    var v := Apply(W64, b, y, x).value;
    RunTruncate(native, v, st);
    RunThen(native, [Binary(b)], Truncate, [x, y] + st, [v] + st);
  }

  lemma BitwiseNarrow(x: nat, y: nat)
    requires x < TWO32 && y < TWO32
    ensures BitAnd(x, y) < TWO32 && BitOr(x, y) < TWO32 && BitXor(x, y) < TWO32
  {
    LimitIsPow2(4);
    BitBounds(x, y, 32);
  }

  lemma NarrowBinary(b: BinOp, x: nat, y: nat)
    requires x < TWO32 && y < TWO32 && b in {And, Or, Xor, Shr, Eq, Ne}
    ensures Apply(W64, b, y, x) == Apply(W32, b, y, x)
    ensures Apply(W32, b, y, x).Some? && Apply(W32, b, y, x).value < TWO32
  {
    BitwiseNarrow(y, x);
    ShiftRightNarrow(y, x);
  }

  lemma SignedCompare(b: BinOp, x: nat, y: nat)
    requires x < TWO32 && y < TWO32 && b in {Ge, Gt, Le, Lt}
    ensures Apply(W64, b, Extended(y), Extended(x)) == Apply(W32, b, y, x)
    ensures Apply(W32, b, y, x).Some? && Apply(W32, b, y, x).value < TWO32
  {
    WrapSigned(x);
    WrapSigned(y);
  }

  lemma SignedDiv(x: nat, y: nat)
    requires 0 < x < TWO32 && y < TWO32
    ensures var v := Apply(W64, Div, Extended(y), Extended(x));
            v.Some? && v.value < TWO64 && Apply(W32, Div, y, x) == Some(W32.Wrap(v.value))
  {
    WrapSigned(x);
    WrapSigned(y);
    ExtendedValue(x);
    WrapWrap(TruncDiv(W32.Signed(y), W32.Signed(x)));
  }

  lemma SimulateCompare(native: Machine, b: BinOp, x: nat, y: nat, st: Stack)
    requires native.width == W64 && x < TWO32 && y < TWO32 && b in {Ge, Gt, Le, Lt}
    ensures Run(native, SignExtend2 + [Binary(b)], [x, y] + st) == Some([Apply(W32, b, y, x).value] + st)
  {
    SignedCompare(b, x, y);
    RunSignExtend2(native, x, y, st);
    RunBinary(native, b, Extended(x), Extended(y), st);
    RunThen(native, SignExtend2, [Binary(b)], [x, y] + st, [Extended(x), Extended(y)] + st);
  }

  /** Division and remainder: sign-extend both, operate on 64 bits, truncate. */
  lemma RunExtendedTruncated(native: Machine, b: BinOp, x: nat, y: nat, st: Stack, v: nat)
    requires native.width == W64 && x < TWO32 && y < TWO32 && v < TWO64
    requires Apply(W64, b, Extended(y), Extended(x)) == Some(v)
    ensures Run(native, SignExtend2 + [Binary(b)] + Truncate, [x, y] + st) == Some([W32.Wrap(v)] + st)
  {
    RunSignExtend2(native, x, y, st);
    RunBinary(native, b, Extended(x), Extended(y), st);
    RunThen(native, SignExtend2, [Binary(b)], [x, y] + st, [Extended(x), Extended(y)] + st);
    RunTruncate(native, v, st);
    RunThen(native, SignExtend2 + [Binary(b)], Truncate, [x, y] + st, [v] + st);
  }

  lemma SimulateDiv(native: Machine, x: nat, y: nat, st: Stack)
    requires native.width == W64 && 0 < x < TWO32 && y < TWO32
    ensures Run(native, TranslateOp(Binary(Div)), [x, y] + st) == Some([Apply(W32, Div, y, x).value] + st)
  {
    SignedDiv(x, y);
    RunExtendedTruncated(native, Div, x, y, st, Apply(W64, Div, Extended(y), Extended(x)).value);
  }

  lemma SimulateMod(native: Machine, x: nat, y: nat, st: Stack)
    requires native.width == W64 && 0 < x < TWO32 && y < TWO32
    ensures var r := Run(native, TranslateOp(Binary(Mod)), [x, y] + st);
            r.Some? && (r == Some([y % x] + st) <==> ModExact(y, x))
  {
    SignExtendedMod(y, x);
    var v := Extended(y) % Extended(x);
    ModBelow(Extended(y), Extended(x));
    RunExtendedTruncated(native, Mod, x, y, st, v);
    assert ([W32.Wrap(v)] + st)[0] == W32.Wrap(v) && ([y % x] + st)[0] == y % x;
  }

  lemma SimulateBinary(native: Machine, b: BinOp, x: nat, y: nat, st: Stack)
    requires native.width == W64 && x < TWO32 && y < TWO32 && Apply(W32, b, y, x).Some?
    ensures Apply(W32, b, y, x).value < TWO32
    ensures var r := Run(native, TranslateOp(Binary(b)), [x, y] + st);
            r.Some? && (r == Some([Apply(W32, b, y, x).value] + st) <==> (b.Mod? ==> ModExact(y, x)))
  {
    if b in {Plus, Minus, Mul, Shl} {
      SimulateModular(native, b, x, y, st);
    } else if b in {And, Or, Xor, Shr, Eq, Ne} {
      NarrowBinary(b, x, y);
      RunBinary(native, b, x, y, st);
    } else if b in {Ge, Gt, Le, Lt} {
      SimulateCompare(native, b, x, y, st);
    } else {
      match b
      case Shra => SimulateShra(native, x, y, st);
      case Div => SimulateDiv(native, x, y, st);
      case Mod => SimulateMod(native, x, y, st); ModUpper(y, x);
    }
  }

  lemma ModBelow(x: nat, b: nat)
    requires b > 0
    ensures x % b <= x
  {
    assert x == b * (x / b) + x % b;
    QuotientBound(x, b);
    MulSign(b, x / b);
  }

  lemma SimulateShra(native: Machine, x: nat, y: nat, st: Stack)
    requires native.width == W64 && x < TWO32 && y < TWO32
    ensures Run(native, TranslateOp(Binary(Shra)), [x, y] + st) == Some([Apply(W32, Shra, y, x).value] + st)
  {
    var y' := Extended(y);
    WrapSigned(y);
    RunSwap(native, x, y, st);
    assert [y, x] + st == [y] + ([x] + st) && [y', x] + st == [y'] + ([x] + st);
    RunSignExtend(native, y, [x] + st);
    RunThen(native, [Swap], SignExtend, [x, y] + st, [y, x] + st);
    RunSwap(native, y', x, st);
    RunThen(native, [Swap] + SignExtend, [Swap], [x, y] + st, [y', x] + st);
    RunBinary(native, Shra, x, y', st);
    RunThen(native, [Swap] + SignExtend + [Swap], [Binary(Shra)], [x, y] + st, [x, y'] + st);
    var v := Apply(W64, Shra, y', x).value;
    WrapWrap(ShiftRight(W32.Signed(y), x));
    RunTruncate(native, v, st);
    RunThen(native, [Swap] + SignExtend + [Swap] + [Binary(Shra)], Truncate, [x, y] + st, [v] + st);
    assert TranslateOp(Binary(Shra)) == [Swap] + SignExtend + [Swap] + [Binary(Shra)] + Truncate;
  }

  lemma AbsNarrow(x: nat)
    requires x < TWO32
    ensures W32.Wrap(Apply1(W64, Abs, Extended(x))) == Apply1(W32, Abs, x)
  {
    WrapSigned(x);
    if x >= TWO31 { assert Apply1(W64, Abs, Extended(x)) == TWO32 - x; }
  }

  lemma NegNarrow(x: nat)
    requires x < TWO32
    ensures W32.Wrap(Apply1(W64, Neg, x)) == Apply1(W32, Neg, x)
  {
    if x != 0 {
      assert Apply1(W64, Neg, x) == TWO64 - x;
      assert W32.Wrap(TWO64 - x) == TWO32 - x;
      assert Apply1(W32, Neg, x) == TWO32 - x;
    }
  }

  lemma UnaryNarrow(u: UnOp, x: nat)
    requires x < TWO32
    ensures W32.Wrap(Apply1(W64, u, if u.Abs? then Extended(x) else x)) == Apply1(W32, u, x)
  {
    match u
    case Abs => AbsNarrow(x);
    case Neg => NegNarrow(x);
    case Not => assert Apply1(W64, Not, x) == TWO64 - 1 - x;
  }

  lemma RunUnaryTruncated(m: Machine, u: UnOp, x: nat, st: Stack)
    requires m.width == W64
    ensures Run(m, [Unary(u)] + Truncate, [x] + st) == Some([W32.Wrap(Apply1(W64, u, x))] + st)
  {
    Run1(m, Unary(u), [x] + st);
    assert ([x] + st)[1..] == st;
    RunTruncate(m, Apply1(W64, u, x), st);
    RunThen(m, [Unary(u)], Truncate, [x] + st, [Apply1(W64, u, x)] + st);
  }

  lemma SimulateUnary(native: Machine, u: UnOp, x: nat, st: Stack)
    requires native.width == W64 && x < TWO32
    ensures Apply1(W32, u, x) < TWO32
    ensures Run(native, TranslateOp(Unary(u)), [x] + st) == Some([Apply1(W32, u, x)] + st)
  {
    UnaryNarrow(u, x);
    if u.Abs? {
      RunSignExtend(native, x, st);
      RunUnaryTruncated(native, u, Extended(x), st);
      RunThen(native, SignExtend, [Unary(u)] + Truncate, [x] + st, [Extended(x)] + st);
      assert SignExtend + [Unary(u)] + Truncate == SignExtend + ([Unary(u)] + Truncate);
    } else {
      RunUnaryTruncated(native, u, x, st);
    }
  }

  lemma LoadNarrow(m: Machine, a: nat, n: nat)
    requires n <= 4 && Load(m, a, n).Some?
    ensures Load(m, a, n).value < TWO32
  {
    LoadBound(m, a, n);
    LimitIsPow2(4);
    Pow2Mono(8 * n, 32);
  }

  lemma RunDerefSize(m: Machine, a: nat, n: nat, st: Stack, v: nat)
    requires 0 < n <= m.width.Bytes() && Load(m, a, n) == Some(v)
    ensures Run(m, [DerefSize(n)], [a] + st) == Some([v] + st)
  {
    Run1(m, DerefSize(n), [a] + st);
    assert ([a] + st)[1..] == st;
  }

  lemma SimulateLoad(wasm: Machine, native: Machine, a: nat, n: nat, st: Stack)
    requires Corresponds(wasm, native) && 0 < n <= 4 && Load(wasm, a, n).Some?
    ensures Load(wasm, a, n).value < TWO32
    ensures Run(native, AdjustAddr + [DerefSize(n)], [a] + st) == Some([Load(wasm, a, n).value] + st)
  {
    var v := Load(wasm, a, n).value;
    SameLoad(wasm, native, a, n);
    LoadNarrow(wasm, a, n);
    RunDerefSize(native, native.reg4 + a, n, st, v);
    RunAdjust(native, a, st);
    assert W64.Wrap(native.reg4 + a) == native.reg4 + a;
    RunThen(native, AdjustAddr, [DerefSize(n)], [a] + st, [native.reg4 + a] + st);
  }

  lemma {:induction false} Pow2Mono(a: nat, b: nat)
    requires a <= b
    ensures Pow2(a) <= Pow2(b)
  {
    if a < b { Pow2Mono(a, b - 1); }
  }

  lemma SimulateFbreg(wasm: Machine, native: Machine, x: int, st: Stack)
    requires Corresponds(wasm, native) && -TWO63 <= x < TWO63
    ensures var r := Run(native, TranslateOp(Fbreg(x)), st);
            r.Some? && (r == Some([W32.Wrap(wasm.frameBase + x)] + st) <==> 0 <= wasm.frameBase + x < TWO32)
  {
    RunFbreg(wasm, native, x, st);
    WrapsAgree(wasm.frameBase + x);
    assert ([W64.Wrap(wasm.frameBase + x)] + st)[0] == W64.Wrap(wasm.frameBase + x);
    assert ([W32.Wrap(wasm.frameBase + x)] + st)[0] == W32.Wrap(wasm.frameBase + x);
  }

  lemma RunFbreg(wasm: Machine, native: Machine, x: int, st: Stack)
    requires Corresponds(wasm, native) && -TWO63 <= x < TWO63
    ensures Run(native, TranslateOp(Fbreg(x)), st) == Some([W64.Wrap(wasm.frameBase + x)] + st)
  {
    var p := W64.Wrap(native.frameBase + x);
    Run1(native, Fbreg(x), st);
    RunAdjust(native, p, st);
    RunThen(native, [Fbreg(x)], AddrToWasm, st, [p] + st);
    FrameOffset(native.reg4, wasm.frameBase, x);
  }

  lemma FrameOffset(base: nat, fb: nat, x: int)
    requires base < TWO64 && fb < TWO32 && -TWO63 <= x < TWO63
    ensures W64.Wrap(W64.Wrap(W64.Wrap(base + fb) + x) - base) == W64.Wrap(fb + x)
  {
    WrapAdd(base + fb, x);
    WrapAdd(base + fb + x, 0 - base);
  }

  lemma WrapsAgree(y: int)
    requires -TWO63 <= y < TWO63 + TWO32
    ensures W64.Wrap(y) == W32.Wrap(y) <==> 0 <= y < TWO32
  {
    assert W64.Wrap(y) == if y < 0 then y + TWO64 else y;
  }

  lemma WrapAdd(a: int, b: int)
    ensures W64.Wrap(W64.Wrap(a) + b) == W64.Wrap(a + b)
  {
    assert a == TWO64 * (a / TWO64) + W64.Wrap(a);
  }

  predicate ConstOp(op: Op) {
    op.Lit? || op.Addr? || op.ConstU? || op.ConstS? || op.Uconst? || op.Sconst?
  }

  /** The value that a constant operation pushes. */
  function ConstValue(w: Width, op: Op): nat
    requires ConstOp(op)
  {
    match op
    case Lit(n) => n
    case Addr(v) => w.Wrap(v)
    case ConstU(_, v) => w.Wrap(v)
    case ConstS(size, v) => w.Wrap(if 2 * v < Limit(size) then v else v - Limit(size))
    case Uconst(v) => w.Wrap(v)
    case Sconst(x) => w.Wrap(x)
  }

  lemma WrapNarrow(x: nat)
    requires x < TWO32
    ensures W64.Wrap(x) == x && W32.Wrap(x) == x
  {}

  lemma ConstUNarrow(size: nat, v: nat)
    requires InRange(ConstU(size, v))
    ensures TranslateOp(ConstU(size, v)) == [ConstU(if size == 8 then 4 else size, W32.Wrap(v))]
  {}

  lemma ConstNarrow(op: Op)
    requires InRange(op) && ConstOp(op)
    ensures |TranslateOp(op)| == 1 && ConstOp(TranslateOp(op)[0])
    ensures ConstValue(W64, TranslateOp(op)[0]) == ConstValue(W32, op) < TWO32
  {
    match op
    case Lit(n) =>
    case Addr(v) => WrapNarrow(v);
    case ConstU(size, v) => ConstUNarrow(size, v); WrapNarrow(W32.Wrap(v));
    case ConstS(size, v) => WrapNarrow(SignedOperand(size, v));
    case Uconst(v) => WrapNarrow(v);
    case Sconst(x) => WrapNarrow(W32.Wrap(x));
  }

  lemma SimulateConst(wasm: Machine, native: Machine, op: Op, st: Stack)
    requires native.width == W64 && wasm.width == W32 && InRange(op) && ConstOp(op)
    ensures Step(wasm, op, st) == Some([ConstValue(W32, op)] + st)
    ensures Run(native, TranslateOp(op), st) == Step(wasm, op, st)
  {
    ConstNarrow(op);
    var t := TranslateOp(op)[0];
    assert TranslateOp(op) == [t];
    Run1(native, t, st);
  }

  predicate StackOp(op: Op) { op.Dup? || op.Drop? || op.Over? || op.Pick? || op.Swap? || op.Rot? || op.Nop? }

  lemma SimulateStackOp(wasm: Machine, native: Machine, op: Op, st: Stack)
    requires StackOp(op) && InRange(op) && Cells32(st) && Step(wasm, op, st).Some?
    ensures Run(native, TranslateOp(op), st) == Step(wasm, op, st)
    ensures Cells32(Step(wasm, op, st).value)
  {
    if op.Nop? { assert Run(native, [], st) == Some(st); } else { Run1(native, op, st); }
  }

  lemma SimulatePlusUconst(native: Machine, v: nat, x: nat, st: Stack)
    requires native.width == W64
    ensures Run(native, [PlusUconst(v)] + Truncate, [x] + st) == Some([W32.Wrap(x + v)] + st)
  {
    Run1(native, PlusUconst(v), [x] + st);
    assert ([x] + st)[1..] == st;
    RunTruncate(native, W64.Wrap(x + v), st);
    RunThen(native, [PlusUconst(v)], Truncate, [x] + st, [W64.Wrap(x + v)] + st);
    WrapWrap(x + v);
  }

  /** Every operation that succeeds on the wasm machine also runs natively, and gives the same
      stack exactly when `Exact` holds. */
  lemma SimulateOp(wasm: Machine, native: Machine, op: Op, st: Stack)
    requires Corresponds(wasm, native) && InRange(op) && Cells32(st) && Step(wasm, op, st).Some?
    ensures Cells32(Step(wasm, op, st).value)
    ensures Run(native, TranslateOp(op), st).Some?
    ensures Run(native, TranslateOp(op), st) == Step(wasm, op, st) <==> Exact(wasm, op, st)
  {
    if StackOp(op) {
      SimulateStackOp(wasm, native, op, st);
    } else {
      match op
      case Binary(b) =>
        var x, y, rest := st[0], st[1], st[2..];
        assert st == [x, y] + rest;
        SimulateBinary(native, b, x, y, rest);
      case Unary(u) =>
        assert st == [st[0]] + st[1..];
        SimulateUnary(native, u, st[0], st[1..]);
      case PlusUconst(v) =>
        assert st == [st[0]] + st[1..];
        SimulatePlusUconst(native, v, st[0], st[1..]);
      case Deref =>
        assert st == [st[0]] + st[1..];
        SimulateLoad(wasm, native, st[0], 4, st[1..]);
      case DerefSize(n) =>
        assert st == [st[0]] + st[1..];
        SimulateLoad(wasm, native, st[0], n, st[1..]);
      case Fbreg(x) => SimulateFbreg(wasm, native, x, st);
      case _ => SimulateConst(wasm, native, op, st); ConstNarrow(op);
    }
  }

  // ----- whole expressions

  /** `Exact` holds of every operation as it is executed. */
  predicate ExactRun(wasm: Machine, ops: seq<Op>, st: Stack) {
    if ops == [] then true
    else Exact(wasm, ops[0], st) &&
         (match Step(wasm, ops[0], st)
          case None => true
          case Some(st') => ExactRun(wasm, ops[1..], st'))
  }

  lemma {:induction false} SimulateRun(wasm: Machine, native: Machine, ops: seq<Op>, st: Stack)
    requires Corresponds(wasm, native) && AllInRange(ops) && Cells32(st)
    requires Run(wasm, ops, st).Some? && ExactRun(wasm, ops, st)
    ensures Cells32(Run(wasm, ops, st).value)
    ensures Run(native, TranslateOps(ops), st) == Run(wasm, ops, st)
  {
    if ops != [] {
      SimulateOp(wasm, native, ops[0], st);
      var st' := Step(wasm, ops[0], st).value;
      SimulateRun(wasm, native, ops[1..], st');
      RunThen(native, TranslateOp(ops[0]), TranslateOps(ops[1..]), st, st');
    }
  }

  function RunBytes(m: Machine, s: seq<byte>, st: Stack): Option<Stack> {
    match DecodeAll(s, m.width)
    case None => None
    case Some(ops) => Run(m, ops, st)
  }

  /** Running the bytes that `TranslateExpr` returns natively gives the stack that the wasm bytes
      give, starting from the native form of the implicit object if there is one; a final wasm
      location becomes the native address of that location. */
  lemma TranslationCorrect(wasm: Machine, native: Machine, s: seq<byte>, out: seq<byte>,
                           implicitObject: bool, isLocation: bool, objAddr: nat, st: Stack)
    requires Corresponds(wasm, native) && objAddr < TWO32
    requires DecodeAll(s, W32).Some? && AllInRange(DecodeAll(s, W32).value)
    requires DecodeAll(out, W64) == Some(Translated(DecodeAll(s, W32).value, implicitObject, isLocation))
    requires RunBytes(wasm, s, if implicitObject then [objAddr] else []) == Some(st)
    requires ExactRun(wasm, DecodeAll(s, W32).value, if implicitObject then [objAddr] else [])
    requires isLocation ==> st != []
    ensures RunBytes(native, out, if implicitObject then [W64.Wrap(native.reg4 + objAddr)] else [])
         == Some(if isLocation then [W64.Wrap(native.reg4 + st[0])] + st[1..] else st)
  {
    var ops := DecodeAll(s, W32).value;
    var start: Stack := if implicitObject then [objAddr] else [];
    var start': Stack := if implicitObject then [W64.Wrap(native.reg4 + objAddr)] else [];
    var pre: seq<Op> := if implicitObject then AddrToWasm else [];
    RunPrologue(native, implicitObject, objAddr);
    SimulateRun(wasm, native, ops, start);
    RunThen(native, pre, TranslateOps(ops), start', start);
    RunThen(native, pre + TranslateOps(ops), if isLocation then AdjustAddr else [], start', st);
    RunEpilogue(native, isLocation, st);
  }

  lemma RunEpilogue(native: Machine, isLocation: bool, st: Stack)
    requires native.width == W64 && native.reg4 < TWO64 && (isLocation ==> st != [])
    ensures Run(native, if isLocation then AdjustAddr else [], st)
         == Some(if isLocation then [W64.Wrap(native.reg4 + st[0])] + st[1..] else st)
  {
    if isLocation {
      RunAdjust(native, st[0], st[1..]);
      assert [st[0]] + st[1..] == st;
    }
  }

  lemma RunPrologue(native: Machine, implicitObject: bool, objAddr: nat)
    requires native.width == W64 && native.reg4 < TWO64 && objAddr < TWO32
    ensures Run(native, if implicitObject then AddrToWasm else [],
                if implicitObject then [W64.Wrap(native.reg4 + objAddr)] else [])
         == Some(if implicitObject then [objAddr] else [])
  {
    if implicitObject { RunImplicitObject(native, objAddr); }
  }

  lemma RunImplicitObject(native: Machine, objAddr: nat)
    requires native.width == W64 && native.reg4 < TWO64 && objAddr < TWO32
    ensures Run(native, AddrToWasm, [W64.Wrap(native.reg4 + objAddr)]) == Some([objAddr])
  {
    var p := W64.Wrap(native.reg4 + objAddr);
    WrapAdd(native.reg4 + objAddr, 0 - native.reg4);
    WrapNarrow(objAddr);
    RunAdjust(native, p, []);
    assert [p] + [] == [p];
    assert [W64.Wrap(p - native.reg4)] + [] == [objAddr];
  }

  /** The remainder is translated wrongly for some operands: -1 by 7 is 3 on the 4-byte machine
      and 1 on the 8-byte one. */
  lemma ModCounterexample(native: Machine)
    requires native.width == W64
    ensures Apply(W32, Mod, 0xffff_ffff, 7) == Some(3)
    ensures Run(native, TranslateOp(Binary(Mod)), [7, 0xffff_ffff]) != Some([3])
  {
    assert [7, 0xffff_ffff] + [] == [7, 0xffff_ffff] && [3] + [] == [3];
    SimulateMod(native, 7, 0xffff_ffff, []);
  }

  /** A frame offset below the start of linear memory does not wrap at 32 bits. */
  lemma FbregCounterexample(wasm: Machine, native: Machine)
    requires Corresponds(wasm, native) && wasm.frameBase == 0
    ensures Step(wasm, Fbreg(-1), []) == Some([0xffff_ffff])
    ensures Run(native, TranslateOp(Fbreg(-1)), []) != Some([0xffff_ffff])
  {
    assert [0xffff_ffff] + [] == [0xffff_ffff];
    SimulateFbreg(wasm, native, -1, []);
  }
}
