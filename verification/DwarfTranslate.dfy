/** `translate_expr`: wasm location expressions to native ones, byte stream to byte stream. */
module DwarfTranslate {
  import opened Leb128
  import opened DwarfMachine

  // ----- binary form of expressions (section 7.7.1 of DWARF Version 4)

  function UnaryCode(u: UnOp): byte {
    match u case Abs => 0x19 case Neg => 0x1f case Not => 0x20
  }

  function BinaryCode(b: BinOp): byte {
    match b
    case And => 0x1a case Div => 0x1b case Minus => 0x1c case Mod => 0x1d case Mul => 0x1e
    case Or => 0x21 case Plus => 0x22 case Shl => 0x24 case Shr => 0x25 case Shra => 0x26
    case Xor => 0x27 case Eq => 0x29 case Ge => 0x2a case Gt => 0x2b case Le => 0x2c
    case Lt => 0x2d case Ne => 0x2e
  }

  function OfBinaryCode(c: byte): Option<BinOp> {
    if c == 0x1a then Some(And) else if c == 0x1b then Some(Div) else if c == 0x1c then Some(Minus)
    else if c == 0x1d then Some(Mod) else if c == 0x1e then Some(Mul) else if c == 0x21 then Some(Or)
    else if c == 0x22 then Some(Plus) else if c == 0x24 then Some(Shl) else if c == 0x25 then Some(Shr)
    else if c == 0x26 then Some(Shra) else if c == 0x27 then Some(Xor) else if c == 0x29 then Some(Eq)
    else if c == 0x2a then Some(Ge) else if c == 0x2b then Some(Gt) else if c == 0x2c then Some(Le)
    else if c == 0x2d then Some(Lt) else if c == 0x2e then Some(Ne) else None
  }

  /** Size and signedness of the fixed-size constants const1u .. const8s. */
  function ConstShape(c: byte): (nat, bool)
    requires 0x08 <= c <= 0x0f
  {
    (if c < 0x0a then 1 else if c < 0x0c then 2 else if c < 0x0e then 4 else 8, c % 2 == 1)
  }

  /** Operand layout of an operation. */
  datatype Shape = NoOperand | FixedOperand(n: nat) | UlebOperand | SlebOperand

  /** `w` fixes the size of an address operand. Operations outside the modelled subset have
      no shape. */
  function ShapeOf(c: byte, w: Width): Option<Shape> {
    if c == 0x03 then Some(FixedOperand(w.Bytes()))
    else if 0x08 <= c <= 0x0f then Some(FixedOperand(ConstShape(c).0))
    else if c == 0x10 || c == 0x23 then Some(UlebOperand)
    else if c == 0x11 || 0x70 <= c < 0x90 || c == 0x91 then Some(SlebOperand)
    else if c == 0x15 || c == 0x94 then Some(FixedOperand(1))
    else if c == 0x06 || c == 0x12 || c == 0x13 || c == 0x14 || c == 0x16 || c == 0x17
            || c == 0x19 || c == 0x1f || c == 0x20 || c == 0x96 || 0x30 <= c < 0x50
            || OfBinaryCode(c).Some? then Some(NoOperand)
    else None
  }

  predicate Fits(shape: Shape, v: int) {
    match shape
    case NoOperand => v == 0
    case FixedOperand(n) => (n == 1 || n == 2 || n == 4 || n == 8) && 0 <= v < Limit(n)
    case UlebOperand => 0 <= v
    case SlebOperand => true
  }

  function Make(c: byte, w: Width, v: int): Op
    requires ShapeOf(c, w).Some? && Fits(ShapeOf(c, w).value, v)
  {
    if c == 0x03 then Addr(v)
    else if c == 0x06 then Deref
    else if 0x08 <= c <= 0x0f then
      (var (n, signed) := ConstShape(c); if signed then ConstS(n, v) else ConstU(n, v))
    else if c == 0x10 then Uconst(v)
    else if c == 0x11 then Sconst(v)
    else if c == 0x12 then Dup
    else if c == 0x13 then Drop
    else if c == 0x14 then Over
    else if c == 0x15 then Pick(v)
    else if c == 0x16 then Swap
    else if c == 0x17 then Rot
    else if c == 0x19 then Unary(Abs)
    else if c == 0x1f then Unary(Neg)
    else if c == 0x20 then Unary(Not)
    else if c == 0x23 then PlusUconst(v)
    else if 0x30 <= c < 0x50 then Lit(c - 0x30)
    else if 0x70 <= c < 0x90 then Breg(c - 0x70, v)
    else if c == 0x91 then Fbreg(v)
    else if c == 0x94 then DerefSize(v)
    else if c == 0x96 then Nop
    else Binary(OfBinaryCode(c).value)
  }

  /** The signed interpretation of the low 64 bits. */
  function Int64(x: int): int { W64.Signed(W64.Wrap(x)) }

  function DecodeOperand(shape: Shape, w: Width, t: seq<byte>): (r: Option<(int, seq<byte>)>)
    ensures r.Some? ==> |r.value.1| <= |t| && Fits(shape, r.value.0)
  {
    match shape
    case NoOperand => Some((0, t))
    case FixedOperand(n) =>
      if |t| < n || !(n == 1 || n == 2 || n == 4 || n == 8) then None
      else DecodeFixedBound(t, n); LimitIsPow2(n); Some((DecodeFixed(t, n), t[n..]))
    case UlebOperand =>
      (match DecodeUnsigned(t, if w.W32? then 5 else 10)
       case None => None
       case Some(p) => Some((w.Wrap(p.0), p.1)))
    case SlebOperand =>
      (match DecodeSigned(t, 10)
       case None => None
       case Some(p) => Some((Int64(p.0), p.1)))
  }

  function DecodeOp(s: seq<byte>, w: Width): (r: Option<(Op, seq<byte>)>)
    ensures r.Some? ==> |r.value.1| < |s|
  {
    if s == [] then None else
    match ShapeOf(s[0], w)
    case None => None
    case Some(shape) =>
      match DecodeOperand(shape, w, s[1..])
      case None => None
      case Some(p) => Some((Make(s[0], w, p.0), p.1))
  }

  function DecodeAll(s: seq<byte>, w: Width): Option<seq<Op>>
    decreases |s|
  {
    if s == [] then Some([])
    else match DecodeOp(s, w)
      case None => None
      case Some(p) =>
        match DecodeAll(p.1, w)
        case None => None
        case Some(rest) => Some([p.0] + rest)
  }

  /** The operations that the translator emits, with operands in range. */
  predicate Emittable(op: Op) {
    match op
    case Lit(n) => n < 32
    case ConstU(size, v) => (size == 1 || size == 2 || size == 4) && v < Limit(size)
    case Uconst(v) => v < TWO32
    case Fbreg(x) => -TWO63 <= x < TWO63
    case Breg(reg, x) => reg < 32 && -TWO63 <= x < TWO63
    case Pick(i) => i < 256
    case DerefSize(n) => n < 256
    case PlusUconst(v) => v < TWO32
    case Addr(_) => false
    case ConstS(_, _) => false
    case Sconst(_) => false
    case _ => true
  }

  predicate AllEmittable(ops: seq<Op>) {
    forall i :: 0 <= i < |ops| ==> Emittable(ops[i])
  }

  function Code(op: Op): byte
    requires Emittable(op)
  {
    match op
    case Lit(n) => 0x30 + n
    case ConstU(size, _) => if size == 1 then 0x08 else if size == 2 then 0x0a else 0x0c
    case Uconst(_) => 0x10
    case Fbreg(_) => 0x91
    case Breg(reg, _) => 0x70 + reg
    case Dup => 0x12
    case Drop => 0x13
    case Over => 0x14
    case Pick(_) => 0x15
    case Swap => 0x16
    case Rot => 0x17
    case Deref => 0x06
    case DerefSize(_) => 0x94
    case Unary(u) => UnaryCode(u)
    case Binary(b) => BinaryCode(b)
    case PlusUconst(_) => 0x23
    case Nop => 0x96
  }

  function Value(op: Op): int {
    match op
    case ConstU(_, v) => v
    case Uconst(v) => v
    case Fbreg(x) => x
    case Breg(_, x) => x
    case Pick(i) => i
    case DerefSize(n) => n
    case PlusUconst(v) => v
    case _ => 0
  }

  function EncodeOperand(shape: Shape, v: int): seq<byte>
    requires Fits(shape, v)
  {
    match shape
    case NoOperand => []
    case FixedOperand(n) => EncodeFixed(v, n)
    case UlebOperand => EncodeUnsigned(v)
    case SlebOperand => EncodeSigned(v)
  }

  /** Opcode and operand determine the operation. */
  lemma CodeRoundTrip(op: Op)
    requires Emittable(op)
    ensures ShapeOf(Code(op), W64).Some? && Fits(ShapeOf(Code(op), W64).value, Value(op))
    ensures Make(Code(op), W64, Value(op)) == op
  {
    match op
    case Binary(b) => BinaryCodeRoundTrip(b);
    case _ =>
  }

  lemma ValueBound(op: Op)
    requires Emittable(op)
    ensures -TWO63 <= Value(op) < TWO63
  {
  }

  function EncodeOp(op: Op): seq<byte>
    requires Emittable(op)
  {
    CodeRoundTrip(op);
    [Code(op)] + EncodeOperand(ShapeOf(Code(op), W64).value, Value(op))
  }

  function EncodeAll(ops: seq<Op>): seq<byte>
    requires AllEmittable(ops)
  {
    if ops == [] then [] else EncodeOp(ops[0]) + EncodeAll(ops[1..])
  }

  lemma BinaryCodeRoundTrip(b: BinOp)
    ensures OfBinaryCode(BinaryCode(b)) == Some(b)
  {}

  lemma Pow128Ten()
    ensures Pow128(9) == TWO63 && Pow128(10) == 128 * TWO63
  {
    assert Pow128(5) == 0x8_0000_0000;
    assert Pow128(9) == 128 * 128 * 128 * 128 * Pow128(5);
  }

  lemma UlebOperandRoundTrip(v: nat, t: seq<byte>)
    requires v < TWO64
    ensures DecodeOperand(UlebOperand, W64, EncodeUnsigned(v) + t) == Some((v as int, t))
  {
    Pow128Ten();
    UnsignedRoundTrip(v, t, 10);
  }

  lemma Int64Identity(v: int)
    requires -TWO63 <= v < TWO63
    ensures Int64(v) == v
  {}

  lemma SlebOperandRoundTrip(v: int, t: seq<byte>)
    requires -TWO63 <= v < TWO63
    ensures DecodeOperand(SlebOperand, W64, EncodeSigned(v) + t) == Some((v, t))
  {
    Pow128Ten();
    SignedRoundTrip(v, t, 10);
    Int64Identity(v);
  }

  lemma OperandRoundTrip(shape: Shape, v: int, t: seq<byte>)
    requires Fits(shape, v) && -TWO63 <= v < TWO63
    ensures DecodeOperand(shape, W64, EncodeOperand(shape, v) + t) == Some((v, t))
  {
    match shape
    case NoOperand => assert [] + t == t;
    case FixedOperand(n) =>
      LimitIsPow2(n);
      FixedRoundTrip(v, n, t);
      assert (EncodeFixed(v, n) + t)[n..] == t;
    case UlebOperand => UlebOperandRoundTrip(v, t);
    case SlebOperand => SlebOperandRoundTrip(v, t);
  }

  /** What the translator writes, a native consumer reads back. */
  lemma OpRoundTrip(op: Op, t: seq<byte>)
    requires Emittable(op)
    ensures DecodeOp(EncodeOp(op) + t, W64) == Some((op, t))
  {
    var s := EncodeOp(op) + t;
    CodeRoundTrip(op);
    ValueBound(op);
    OperandRoundTrip(ShapeOf(Code(op), W64).value, Value(op), t);
    assert s[1..] == EncodeOperand(ShapeOf(Code(op), W64).value, Value(op)) + t;
  }

  lemma {:induction false} AllRoundTrip(ops: seq<Op>)
    requires AllEmittable(ops)
    ensures DecodeAll(EncodeAll(ops), W64) == Some(ops)
  {
    if ops != [] {
      OpRoundTrip(ops[0], EncodeAll(ops[1..]));
      AllRoundTrip(ops[1..]);
      assert [ops[0]] + ops[1..] == ops;
    }
  }

  // ----- the translation

  const AdjustAddr: seq<Op> := [Breg(4, 0), Binary(Plus)]
  const AddrToWasm: seq<Op> := [Breg(4, 0), Binary(Minus)]
  const Truncate: seq<Op> := [ConstU(4, 0xffff_ffff), Binary(And)]
  const SignExtend: seq<Op> := [ConstU(1, 32), Binary(Shl), ConstU(1, 32), Binary(Shra)]
  const SignExtend2: seq<Op> := SignExtend + [Swap] + SignExtend + [Swap]

  predicate InRange(op: Op) {
    match op
    case Lit(n) => n < 32
    case Addr(v) => v < TWO32
    case ConstU(size, v) => (size == 1 || size == 2 || size == 4 || size == 8) && v < Limit(size)
    case ConstS(size, v) => (size == 1 || size == 2 || size == 4 || size == 8) && v < Limit(size)
    case Uconst(v) => v < TWO32
    case Sconst(x) => -TWO63 <= x < TWO63
    case Fbreg(x) => -TWO63 <= x < TWO63
    case Pick(i) => i < 256
    case DerefSize(n) => n < 256
    case PlusUconst(v) => v < TWO32
    case Breg(_, _) => false
    case _ => true
  }

  /** The 4-byte operand written for a signed constant of `size` bytes. */
  function SignedOperand(size: nat, v: nat): nat {
    W32.Wrap(if 2 * v < Limit(size) then v else v - Limit(size))
  }

  function TranslateUnary(u: UnOp): seq<Op> {
    (if u.Abs? then SignExtend else []) + [Unary(u)] + Truncate
  }

  function TranslateBinary(b: BinOp): seq<Op> {
    match b
    case And => [Binary(b)] case Or => [Binary(b)] case Xor => [Binary(b)] case Shr => [Binary(b)]
    case Eq => [Binary(b)] case Ne => [Binary(b)]
    case Div => SignExtend2 + [Binary(b)] + Truncate
    case Mod => SignExtend2 + [Binary(b)] + Truncate
    case Shra => [Swap] + SignExtend + [Swap, Binary(b)] + Truncate
    case Ge => SignExtend2 + [Binary(b)] case Gt => SignExtend2 + [Binary(b)]
    case Le => SignExtend2 + [Binary(b)] case Lt => SignExtend2 + [Binary(b)]
    case _ => [Binary(b)] + Truncate
  }

  function TranslateOp(op: Op): seq<Op>
    requires InRange(op)
  {
    match op
    case Addr(v) => [ConstU(4, v)]
    case ConstU(size, v) => if size == 8 then [ConstU(4, W32.Wrap(v))] else [op]
    case ConstS(size, v) => [ConstU(4, SignedOperand(size, v))]
    case Sconst(x) => [ConstU(4, W32.Wrap(x))]
    case Fbreg(x) => [op] + AddrToWasm
    case Deref => AdjustAddr + [DerefSize(4)]
    case DerefSize(_) => AdjustAddr + [op]
    case Unary(u) => TranslateUnary(u)
    case PlusUconst(_) => [op] + Truncate
    case Binary(b) => TranslateBinary(b)
    case Nop => []
    case _ => [op]
  }

  predicate AllInRange(ops: seq<Op>) {
    forall i :: 0 <= i < |ops| ==> InRange(ops[i])
  }

  function TranslateOps(ops: seq<Op>): seq<Op>
    requires AllInRange(ops)
  {
    if ops == [] then [] else TranslateOp(ops[0]) + TranslateOps(ops[1..])
  }

  /** The native expression for a wasm expression. */
  function Translated(ops: seq<Op>, implicitObject: bool, isLocation: bool): seq<Op>
    requires AllInRange(ops)
  {
    (if implicitObject then AddrToWasm else []) + TranslateOps(ops) +
    (if isLocation then AdjustAddr else [])
  }

  lemma {:induction false} EncodeAppend(p: seq<Op>, q: seq<Op>)
    requires AllEmittable(p) && AllEmittable(q)
    ensures EncodeAll(p + q) == EncodeAll(p) + EncodeAll(q)
  {
    if p == [] {
      assert p + q == q;
    } else {
      assert (p + q)[1..] == p[1..] + q;
      EncodeAppend(p[1..], q);
    }
  }

  lemma {:induction false} TranslateAppend(p: seq<Op>, q: seq<Op>)
    requires AllInRange(p) && AllInRange(q)
    ensures TranslateOps(p + q) == TranslateOps(p) + TranslateOps(q)
  {
    if p == [] {
      assert p + q == q;
    } else {
      assert (p + q)[1..] == p[1..] + q;
      TranslateAppend(p[1..], q);
    }
  }

  lemma PiecesEmittable()
    ensures AllEmittable(AdjustAddr) && AllEmittable(AddrToWasm) && AllEmittable(Truncate)
    ensures AllEmittable(SignExtend) && AllEmittable(SignExtend2)
  {
    assert Emittable(ConstU(1, 32)) && Emittable(ConstU(4, 0xffff_ffff)) && Emittable(Breg(4, 0));
    assert AllEmittable(SignExtend) && AllEmittable([Swap]);
  }

  lemma ConstEmittable(op: Op)
    requires InRange(op) && (op.Addr? || op.ConstU? || op.ConstS? || op.Sconst?)
    ensures AllEmittable(TranslateOp(op))
  {
  }

  lemma TranslateOpEmittable(op: Op)
    requires InRange(op)
    ensures AllEmittable(TranslateOp(op))
  {
    PiecesEmittable();
    if op.Addr? || op.ConstU? || op.ConstS? || op.Sconst? {
      ConstEmittable(op);
    } else {
      assert AllEmittable([op]);
      assert AllEmittable([DerefSize(4)]) && AllEmittable([Swap]) && AllEmittable([Swap, op]);
    }
  }

  /** A decoded wasm operation has its operand in range, unless it is a register operation,
      which wasm expressions do not use. */
  lemma DecodedInRange(s: seq<byte>)
    requires DecodeOp(s, W32).Some?
    ensures InRange(DecodeOp(s, W32).value.0) <==> !DecodeOp(s, W32).value.0.Breg?
  {
    var shape := ShapeOf(s[0], W32).value;
    var v := DecodeOperand(shape, W32, s[1..]).value.0;
    MakeInRange(s[0], v);
  }

  lemma MakeInRange(c: byte, v: int)
    requires ShapeOf(c, W32).Some? && Fits(ShapeOf(c, W32).value, v)
    requires match ShapeOf(c, W32).value
             case UlebOperand => v < TWO32
             case SlebOperand => -TWO63 <= v < TWO63
             case _ => true
    ensures InRange(Make(c, W32, v)) <==> !Make(c, W32, v).Breg?
  {
  }

  /** The translator accepts exactly the expressions that decode and use no register, and the
      bytes it appends are the encoding of the translated operations. */
  method TranslateExpr(s: seq<byte>, implicitObject: bool, isLocation: bool)
    returns (out: Option<seq<byte>>)
    ensures out.Some? <==> DecodeAll(s, W32).Some? && AllInRange(DecodeAll(s, W32).value)
    ensures out.Some? ==>
      DecodeAll(out.value, W64) == Some(Translated(DecodeAll(s, W32).value, implicitObject, isLocation))
  {
    PiecesEmittable();
    var pre: seq<Op> := if implicitObject then AddrToWasm else [];
    var post: seq<Op> := if isLocation then AdjustAddr else [];
    var bytes, rest := EncodeAll(pre), s;
    ghost var done: seq<Op> := [];
    assert pre + TranslateOps(done) == pre;
    assert DecodeAll(s, W32).Some? ==> done + DecodeAll(s, W32).value == DecodeAll(s, W32).value;
    while rest != []
      invariant AllInRange(done) && AllEmittable(pre + TranslateOps(done))
      invariant bytes == EncodeAll(pre + TranslateOps(done))
      invariant DecodeAll(s, W32) == Prepend(done, DecodeAll(rest, W32))
      decreases |rest|
    {
      var next := DecodeOp(rest, W32);
      if next.None? { return None; }
      var (op, tail) := next.value;
      DecodedInRange(rest);
      if op.Breg? {
        RegisterRefused(rest, done);
        return None;
      }
      TranslateOpEmittable(op);
      ExtendTranslation(pre, done, op);
      ExtendDecoding(rest, done);
      bytes := bytes + EncodeAll(TranslateOp(op));
      done := done + [op];
      rest := tail;
    }
    EncodeAppend(pre + TranslateOps(done), post);
    assert done + [] == done;
    AllRoundTrip(pre + TranslateOps(done) + post);
    return Some(bytes + EncodeAll(post));
  }

  function Prepend(done: seq<Op>, r: Option<seq<Op>>): Option<seq<Op>> {
    match r case None => None case Some(ops) => Some(done + ops)
  }

  lemma ExtendDecoding(rest: seq<byte>, done: seq<Op>)
    requires DecodeOp(rest, W32).Some?
    ensures var (op, tail) := DecodeOp(rest, W32).value;
            Prepend(done, DecodeAll(rest, W32)) == Prepend(done + [op], DecodeAll(tail, W32))
  {
    var (op, tail) := DecodeOp(rest, W32).value;
    match DecodeAll(tail, W32)
    case None =>
    case Some(ops) => assert done + ([op] + ops) == done + [op] + ops;
  }

  lemma TranslateSnoc(done: seq<Op>, op: Op)
    requires AllInRange(done) && InRange(op)
    ensures AllInRange(done + [op])
    ensures TranslateOps(done + [op]) == TranslateOps(done) + TranslateOp(op)
  {
    TranslateAppend(done, [op]);
    assert [op][1..] == [];
    assert TranslateOp(op) + TranslateOps([]) == TranslateOp(op);
  }

  lemma ExtendTranslation(pre: seq<Op>, done: seq<Op>, op: Op)
    requires AllInRange(done) && InRange(op)
    requires AllEmittable(pre + TranslateOps(done)) && AllEmittable(TranslateOp(op))
    ensures AllInRange(done + [op])
    ensures AllEmittable(pre + TranslateOps(done + [op]))
    ensures EncodeAll(pre + TranslateOps(done + [op]))
         == EncodeAll(pre + TranslateOps(done)) + EncodeAll(TranslateOp(op))
  {
    TranslateSnoc(done, op);
    EncodeAssoc(pre, TranslateOps(done), TranslateOp(op));
  }

  lemma EncodeAssoc(p: seq<Op>, q: seq<Op>, r: seq<Op>)
    requires AllEmittable(p + q) && AllEmittable(r)
    ensures AllEmittable(p + (q + r)) && EncodeAll(p + (q + r)) == EncodeAll(p + q) + EncodeAll(r)
  {
    assert p + (q + r) == p + q + r;
    EncodeAppend(p + q, r);
  }

  lemma RegisterRefused(rest: seq<byte>, done: seq<Op>)
    requires DecodeOp(rest, W32).Some? && DecodeOp(rest, W32).value.0.Breg?
    ensures DecodeAll(rest, W32).Some? ==> !AllInRange(done + DecodeAll(rest, W32).value)
  {
    if DecodeAll(rest, W32).Some? {
      assert (done + DecodeAll(rest, W32).value)[|done|].Breg?;
    }
  }
}
