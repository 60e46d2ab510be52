/** The stack machine of section 2.5.1 of DWARF Version 4, parameterised by the size of an
    address: the 4-byte instance gives wasm expressions their meaning, the 8-byte instance
    the native ones. */
module DwarfMachine {
  import opened Leb128

  const TWO31 := 0x8000_0000
  const TWO32 := 0x1_0000_0000
  const TWO63 := 0x8000_0000_0000_0000
  const TWO64 := 0x1_0000_0000_0000_0000

  datatype UnOp = Abs | Neg | Not
  datatype BinOp =
    | And | Div | Minus | Mod | Mul | Or | Plus | Shl | Shr | Shra | Xor
    | Eq | Ge | Gt | Le | Lt | Ne

  datatype Op =
    | Lit(n: nat)
    | Addr(v: nat)
    | ConstU(size: nat, v: nat)    // const1u, const2u, const4u, const8u
    | ConstS(size: nat, v: nat)    // const1s .. const8s; v is the unsigned reading of the bits
    | Uconst(v: nat)               // constu
    | Sconst(x: int)               // consts
    | Fbreg(x: int)
    | Breg(reg: nat, x: int)
    | Dup | Drop | Over | Pick(i: nat) | Swap | Rot
    | Deref | DerefSize(size: nat)
    | Unary(u: UnOp) | Binary(b: BinOp) | PlusUconst(v: nat) | Nop

  datatype Width = W32 | W64 {
    function Bytes(): nat { if W32? then 4 else 8 }
    function Modulus(): nat { if W32? then TWO32 else TWO64 }
    function Wrap(x: int): (r: nat) ensures r < Modulus() { x % Modulus() }
    function Signed(x: nat): int { if 2 * x < Modulus() then x else x - Modulus() }
  }

  /** `mem` is undefined outside the accessible memory. */
  datatype Machine = Machine(width: Width, mem: nat -> Option<byte>, frameBase: nat, reg4: nat)

  /** One more than the largest unsigned integer of `size` bytes. */
  function Limit(size: nat): nat {
    if size == 1 then 256 else if size == 2 then 65536 else if size == 4 then TWO32 else TWO64
  }

  lemma {:induction false} Pow2At16()
    ensures Pow2(8) == 256 && Pow2(16) == 65536
  {
    assert Pow2(8) == 256;
    Pow2Add(8, 8);
  }

  lemma {:induction false} Pow2At64()
    ensures Pow2(32) == TWO32 && Pow2(64) == TWO64
  {
    Pow2At16();
    Pow2Add(16, 16);
    Pow2Add(32, 32);
  }

  lemma {:induction false} LimitIsPow2(size: nat)
    requires size == 1 || size == 2 || size == 4 || size == 8
    ensures Limit(size) == Pow2(8 * size)
  {
    Pow2At16();
    Pow2At64();
  }

  // ----- bitwise operations on unsigned integers

  function BitAnd(x: nat, y: nat): nat {
    if x == 0 || y == 0 then 0
    else 2 * BitAnd(x / 2, y / 2) + (if x % 2 == 1 && y % 2 == 1 then 1 else 0)
  }

  function BitOr(x: nat, y: nat): nat {
    if x == 0 then y else if y == 0 then x
    else 2 * BitOr(x / 2, y / 2) + (if x % 2 == 1 || y % 2 == 1 then 1 else 0)
  }

  function BitXor(x: nat, y: nat): nat {
    if x == 0 then y else if y == 0 then x
    else 2 * BitXor(x / 2, y / 2) + (if x % 2 == y % 2 then 0 else 1)
  }

  /** Division rounding toward zero. */
  function TruncDiv(a: int, b: int): int
    requires b != 0
  {
    if a >= 0 then (if b > 0 then a / b else -(a / -b))
    else (if b > 0 then -(-a / b) else -a / -b)
  }

  function ShiftLeft(a: nat, b: nat): nat { a * Pow2(b) }

  /** `a` shifted right by `b` bits, rounding down (so the sign is kept). */
  function ShiftRight(a: int, b: nat): (r: int)
    ensures a >= 0 ==> 0 <= r <= a
  {
    QuotientBound(a, Pow2(b));
    a / Pow2(b)
  }

  lemma QuotientBound(a: int, d: int)
    requires d >= 1
    ensures a >= 0 ==> 0 <= a / d <= a
  {
    if a >= 0 {
      assert a == d * (a / d) + a % d;
      MulSign(d, a / d);
    }
  }

  lemma MulSign(m: int, d: int)
    requires m > 0
    ensures d >= 1 ==> m * d >= m && m * d >= d
    ensures d <= -1 ==> m * d <= -m
  {}

  function Truth(b: bool): nat { if b then 1 else 0 }

  /** `a` is the former second entry, `b` the former top of the stack. */
  function Apply(w: Width, op: BinOp, a: nat, b: nat): Option<nat> {
    match op
    case And => Some(BitAnd(a, b))
    case Or => Some(BitOr(a, b))
    case Xor => Some(BitXor(a, b))
    case Plus => Some(w.Wrap(a + b))
    case Minus => Some(w.Wrap(a - b))
    case Mul => Some(w.Wrap(a * b))
    case Div => if b == 0 then None else
      if w.Signed(b) == 0 then None else Some(w.Wrap(TruncDiv(w.Signed(a), w.Signed(b))))
    case Mod => if b == 0 then None else Some(a % b)   // unsigned: "addressing arithmetic"
    case Shl => Some(w.Wrap(ShiftLeft(a, b)))
    case Shr => Some(ShiftRight(a, b))
    case Shra => Some(w.Wrap(ShiftRight(w.Signed(a), b)))
    case Eq => Some(Truth(w.Signed(a) == w.Signed(b)))
    case Ne => Some(Truth(w.Signed(a) != w.Signed(b)))
    case Ge => Some(Truth(w.Signed(a) >= w.Signed(b)))
    case Gt => Some(Truth(w.Signed(a) > w.Signed(b)))
    case Le => Some(Truth(w.Signed(a) <= w.Signed(b)))
    case Lt => Some(Truth(w.Signed(a) < w.Signed(b)))
  }

  function Apply1(w: Width, op: UnOp, a: nat): nat {
    match op
    case Abs => w.Wrap(if w.Signed(a) < 0 then -w.Signed(a) else w.Signed(a))
    case Neg => w.Wrap(-w.Signed(a))
    case Not => w.Wrap(w.Modulus() - 1 - a)
  }

  /** `n` bytes at `a`, least significant first; an access outside memory has no value. */
  function Load(m: Machine, a: nat, n: nat): Option<nat>
    decreases n
  {
    if n == 0 then Some(0)
    else if a >= m.width.Modulus() then None
    else match m.mem(a)
      case None => None
      case Some(lo) =>
        match Load(m, a + 1, n - 1)
        case None => None
        case Some(hi) => Some(lo + 256 * hi)
  }

  type Stack = seq<nat>   // the top of the stack is the first element

  function Push(v: nat, st: Stack): Option<Stack> { Some([v] + st) }

  function Step(m: Machine, op: Op, st: Stack): Option<Stack> {
    var w := m.width;
    match op
    case Lit(n) => Push(n, st)
    case Addr(v) => Push(w.Wrap(v), st)
    case ConstU(_, v) => Push(w.Wrap(v), st)
    case ConstS(size, v) => Push(w.Wrap(if 2 * v < Limit(size) then v else v - Limit(size)), st)
    case Uconst(v) => Push(w.Wrap(v), st)
    case Sconst(x) => Push(w.Wrap(x), st)
    case Fbreg(x) => Push(w.Wrap(m.frameBase + x), st)
    case Breg(reg, x) => if reg == 4 then Push(w.Wrap(m.reg4 + x), st) else None
    case Dup => if |st| < 1 then None else Push(st[0], st)
    case Drop => if |st| < 1 then None else Some(st[1..])
    case Over => if |st| < 2 then None else Push(st[1], st)
    case Pick(i) => if |st| <= i then None else Push(st[i], st)
    case Swap => if |st| < 2 then None else Some([st[1], st[0]] + st[2..])
    case Rot => if |st| < 3 then None else Some([st[1], st[2], st[0]] + st[3..])
    case Deref => if |st| < 1 then None else
      (match Load(m, st[0], w.Bytes()) case None => None case Some(v) => Push(v, st[1..]))
    case DerefSize(n) => if |st| < 1 || n == 0 || n > w.Bytes() then None else
      (match Load(m, st[0], n) case None => None case Some(v) => Push(v, st[1..]))
    case Unary(u) => if |st| < 1 then None else Push(Apply1(w, u, st[0]), st[1..])
    case Binary(b) => if |st| < 2 then None else
      (match Apply(w, b, st[1], st[0]) case None => None case Some(v) => Push(v, st[2..]))
    case PlusUconst(v) => if |st| < 1 then None else Push(w.Wrap(st[0] + v), st[1..])
    case Nop => Some(st)
  }

  function Run(m: Machine, ops: seq<Op>, st: Stack): Option<Stack>
  {
    if ops == [] then Some(st)
    else match Step(m, ops[0], st)
      case None => None
      case Some(st') => Run(m, ops[1..], st')
  }

  lemma {:induction false} RunAppend(m: Machine, p: seq<Op>, q: seq<Op>, st: Stack)
    ensures Run(m, p + q, st) ==
      match Run(m, p, st) case None => None case Some(st') => Run(m, q, st')
  {
    if p == [] {
      assert p + q == q;
    } else {
      assert (p + q)[1..] == p[1..] + q;
      match Step(m, p[0], st)
      case None =>
      case Some(st') => RunAppend(m, p[1..], q, st');
    }
  }

  lemma {:induction false} BitAndMask(x: nat, k: nat)
    ensures BitAnd(x, Pow2(k) - 1) == x % Pow2(k)
  {
    if k == 0 {
    } else if x == 0 {
      ModUnique(0, Pow2(k), 0, 0);
    } else {
      BitAndMask(x / 2, k - 1);
      BitAndMaskStep(x, Pow2(k - 1), x / 2 % Pow2(k - 1));
      ModTwice(x, Pow2(k - 1));
    }
  }

  lemma {:induction false} BitAndMaskStep(x: nat, p: nat, r: nat)
    requires x != 0 && p >= 1 && BitAnd(x / 2, p - 1) == r
    ensures BitAnd(x, 2 * p - 1) == 2 * r + x % 2
  {
    assert (2 * p - 1) / 2 == p - 1;
    BitAndStep(x, 2 * p - 1);
  }

  lemma {:induction false} BitAndStep(x: nat, y: nat)
    requires x != 0 && y % 2 == 1
    ensures BitAnd(x, y) == 2 * BitAnd(x / 2, y / 2) + x % 2
  {}

  lemma ModTwice(x: nat, p: nat)
    requires p > 0
    ensures x % (2 * p) == 2 * (x / 2 % p) + x % 2
  {
    var q, r := x / 2 / p, x / 2 % p;
    assert x / 2 == p * q + r;
    assert x == 2 * p * q + (2 * r + x % 2);
    ModUnique(x, 2 * p, q, 2 * r + x % 2);
  }

  lemma ModUnique(x: int, m: int, q: int, r: int)
    requires m > 0 && 0 <= r < m && x == m * q + r
    ensures x % m == r && x / m == q
  {
    var d := q - x / m;
    assert m * d == x % m - r;
    MulSign(m, d);
  }

  lemma {:induction false} BitBounds(x: nat, y: nat, k: nat)
    requires x < Pow2(k) && y < Pow2(k)
    ensures BitAnd(x, y) < Pow2(k) && BitOr(x, y) < Pow2(k) && BitXor(x, y) < Pow2(k)
  {
    if k != 0 { BitBounds(x / 2, y / 2, k - 1); }
  }

  lemma {:induction false} LoadBound(m: Machine, a: nat, n: nat)
    ensures Load(m, a, n).Some? ==> Load(m, a, n).value < Pow2(8 * n)
    decreases n
  {
    if n != 0 {
      Pow2Add(8, 8 * (n - 1));
      assert Pow2(8) == 256;
      LoadBound(m, a + 1, n - 1);
    }
  }
}
