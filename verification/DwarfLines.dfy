/** `write_line_program`: an incremental encoder for the line-number state machine of section 6.2
    of DWARF Version 4. */
module DwarfLines {
  import opened Leb128
  import opened DwarfMachine

  /** A source location; addresses are relative to the wasm code section. */
  datatype Location = Location(begin: nat, end: nat, file: nat, line: nat,
                               prologueEnd: bool, epilogueBegin: bool)

  /** One machine instruction range produced by the just-in-time compiler. */
  datatype InstrLoc = InstrLoc(codeOffset: nat, wasmAddr: nat)

  datatype Instr =
    | Copy | AdvanceLine(x: int) | SetFile(n: nat) | SetPrologueEnd | SetEpilogueBegin
    | SetAddress(a: nat) | EndSequence

  // ----- the consumer: sections 6.2.2 and 6.2.5

  datatype Registers = Registers(address: nat, file: nat, line: nat, prologueEnd: bool, epilogueBegin: bool)
  datatype Row = Row(address: nat, file: nat, line: nat, prologueEnd: bool, epilogueBegin: bool, endSequence: bool)

  const Initial := Registers(0, 1, 1, false, false)

  function RowOf(r: Registers, endSequence: bool): Row {
    Row(r.address, r.file, r.line, r.prologueEnd, r.epilogueBegin, endSequence)
  }

  /** The registers after one instruction, and the rows it appends. */
  function Exec1(i: Instr, r: Registers): (Registers, seq<Row>) {
    match i
    case Copy => (r.(prologueEnd := false, epilogueBegin := false), [RowOf(r, false)])
    case AdvanceLine(x) => (r.(line := W32.Wrap(r.line + x)), [])
    case SetFile(n) => (r.(file := n), [])
    case SetPrologueEnd => (r.(prologueEnd := true), [])
    case SetEpilogueBegin => (r.(epilogueBegin := true), [])
    case SetAddress(a) => (r.(address := a), [])
    case EndSequence => (Initial, [RowOf(r, true)])
  }

  function Exec(p: seq<Instr>, r: Registers): (Registers, seq<Row>) {
    if p == [] then (r, [])
    else
      var (r1, rows1) := Exec1(p[0], r);
      var (r2, rows2) := Exec(p[1..], r1);
      (r2, rows1 + rows2)
  }

  lemma {:induction false} ExecAppend(p: seq<Instr>, q: seq<Instr>, r: Registers)
    ensures var (r1, rows1) := Exec(p, r);
            var (r2, rows2) := Exec(q, r1);
            Exec(p + q, r) == (r2, rows1 + rows2)
  {
    if p == [] {
      assert p + q == q;
      assert [] + Exec(q, r).1 == Exec(q, r).1;
    } else {
      assert (p + q)[1..] == p[1..] + q;
      var (r0, rows0) := Exec1(p[0], r);
      ExecAppend(p[1..], q, r0);
      var (r1, rows1) := Exec(p[1..], r0);
      var (r2, rows2) := Exec(q, r1);
      assert rows0 + (rows1 + rows2) == rows0 + rows1 + rows2;
    }
  }

  // ----- binary form

  function DecodeExtended(s: seq<byte>): (r: Option<(Instr, seq<byte>)>)
    ensures r.Some? ==> |r.value.1| < |s|
  {
    match DecodeUnsigned(s, 5)
    case None => None
    case Some(p) =>
      var (size, t) := p;
      if size < 1 || |t| < size then None
      else if t[0] == 0x01 then Some((EndSequence, t[size..]))
      else if t[0] == 0x02 && size == 9 then Some((SetAddress(DecodeFixed(t[1..9], 8)), t[size..]))
      else None
  }

  function DecodeInstr(s: seq<byte>): (r: Option<(Instr, seq<byte>)>)
    ensures r.Some? ==> |r.value.1| < |s|
  {
    if s == [] then None
    else if s[0] == 0x00 then DecodeExtended(s[1..])
    else if s[0] == 0x01 then Some((Copy, s[1..]))
    else if s[0] == 0x03 then
      (match DecodeSigned(s[1..], 10) case None => None case Some(p) => Some((AdvanceLine(p.0), p.1)))
    else if s[0] == 0x04 then
      (match DecodeUnsigned(s[1..], 5) case None => None case Some(p) => Some((SetFile(p.0), p.1)))
    else if s[0] == 0x0a then Some((SetPrologueEnd, s[1..]))
    else if s[0] == 0x0b then Some((SetEpilogueBegin, s[1..]))
    else None
  }

  function Decode(s: seq<byte>): Option<seq<Instr>>
    decreases |s|
  {
    if s == [] then Some([])
    else match DecodeInstr(s)
      case None => None
      case Some(p) =>
        match Decode(p.1)
        case None => None
        case Some(rest) => Some([p.0] + rest)
  }

  predicate Encodable(i: Instr) {
    match i
    case AdvanceLine(x) => -TWO31 <= x < TWO31
    case SetFile(n) => n < TWO32
    case SetAddress(a) => a < TWO64
    case _ => true
  }

  predicate AllEncodable(p: seq<Instr>) { forall i :: 0 <= i < |p| ==> Encodable(p[i]) }

  /** An extended instruction carries the length of its payload. */
  function EncodeInstr(i: Instr): seq<byte> {
    match i
    case Copy => [0x01]
    case AdvanceLine(x) => [0x03] + EncodeSigned(x)
    case SetFile(n) => [0x04] + EncodeUnsigned(n)
    case SetPrologueEnd => [0x0a]
    case SetEpilogueBegin => [0x0b]
    case SetAddress(a) => [0x00, 9, 0x02] + EncodeFixed(a, 8)
    case EndSequence => [0x00, 1, 0x01]
  }

  function Encode(p: seq<Instr>): seq<byte> {
    if p == [] then [] else EncodeInstr(p[0]) + Encode(p[1..])
  }

  lemma Pow128At5()
    ensures Pow128(5) == 0x8_0000_0000 && Pow128(9) == TWO63
  {
    assert Pow128(5) == 0x8_0000_0000;
    assert Pow128(9) == 128 * 128 * 128 * 128 * Pow128(5);
  }

  lemma SetAddressRoundTrip(a: nat, t: seq<byte>)
    requires a < TWO64
    ensures DecodeInstr(EncodeInstr(SetAddress(a)) + t) == Some((SetAddress(a), t))
  {
    var s := EncodeInstr(SetAddress(a)) + t;
    var u := s[2..];
    assert s[1..] == [9] + u;
    assert DecodeUnsigned(s[1..], 5) == Some((9, u));
    assert u[1..9] == EncodeFixed(a, 8) + [];
    LimitIsPow2(8);
    FixedRoundTrip(a, 8, []);
    assert u[9..] == t;
  }

  lemma AdvanceLineRoundTrip(x: int, t: seq<byte>)
    requires -TWO31 <= x < TWO31
    ensures DecodeInstr(EncodeInstr(AdvanceLine(x)) + t) == Some((AdvanceLine(x), t))
  {
    Pow128At5();
    SignedRoundTrip(x, t, 10);
    assert (EncodeInstr(AdvanceLine(x)) + t)[1..] == EncodeSigned(x) + t;
  }

  lemma SetFileRoundTrip(n: nat, t: seq<byte>)
    requires n < TWO32
    ensures DecodeInstr(EncodeInstr(SetFile(n)) + t) == Some((SetFile(n), t))
  {
    Pow128At5();
    UnsignedRoundTrip(n, t, 5);
    assert (EncodeInstr(SetFile(n)) + t)[1..] == EncodeUnsigned(n) + t;
  }

  lemma InstrRoundTrip(i: Instr, t: seq<byte>)
    requires Encodable(i)
    ensures DecodeInstr(EncodeInstr(i) + t) == Some((i, t))
  {
    var s := EncodeInstr(i) + t;
    match i
    case AdvanceLine(x) => AdvanceLineRoundTrip(x, t);
    case SetFile(n) => SetFileRoundTrip(n, t);
    case SetAddress(a) => SetAddressRoundTrip(a, t);
    case EndSequence =>
      assert s[1..] == [1] + s[2..];
      assert DecodeUnsigned(s[1..], 5) == Some((1, s[2..]));
      assert s[2..][1..] == t;
    case _ => assert s[1..] == t;
  }

  lemma {:induction false} RoundTrip(p: seq<Instr>)
    requires AllEncodable(p)
    ensures Decode(Encode(p)) == Some(p)
  {
    if p != [] {
      InstrRoundTrip(p[0], Encode(p[1..]));
      RoundTrip(p[1..]);
      assert [p[0]] + p[1..] == p;
    }
  }

  lemma {:induction false} EncodeAppend(p: seq<Instr>, q: seq<Instr>)
    ensures Encode(p + q) == Encode(p) + Encode(q)
  {
    if p == [] {
      assert p + q == q;
    } else {
      assert (p + q)[1..] == p[1..] + q;
      EncodeAppend(p[1..], q);
    }
  }

  // ----- native ranges of wasm locations

  predicate SortedByWasm(locs: seq<InstrLoc>) {
    forall i, j :: 0 <= i < j < |locs| ==> locs[i].wasmAddr <= locs[j].wasmAddr
  }

  predicate MonotoneCode(locs: seq<InstrLoc>) {
    forall i, j :: 0 <= i < j < |locs| ==> locs[i].codeOffset <= locs[j].codeOffset
  }

  /** The first instruction at or after a wasm address, by scanning. */
  function FirstAtLeast(locs: seq<InstrLoc>, value: nat): (k: nat)
    ensures k <= |locs|
    ensures forall i :: 0 <= i < k ==> locs[i].wasmAddr < value
    ensures k < |locs| ==> value <= locs[k].wasmAddr
  {
    if locs == [] || value <= locs[0].wasmAddr then 0
    else
      var k := FirstAtLeast(locs[1..], value);
      assert forall i :: 1 <= i < k + 1 ==> locs[i] == locs[1..][i - 1];
      k + 1
  }

  /** The same index by bisection, as `std::ranges::partition_point` finds it. */
  method PartitionPoint(locs: seq<InstrLoc>, value: nat) returns (k: nat)
    requires SortedByWasm(locs)
    ensures k == FirstAtLeast(locs, value)
  {
    var lo, hi := 0, |locs|;
    while lo < hi
      invariant 0 <= lo <= hi <= |locs|
      invariant forall i :: 0 <= i < lo ==> locs[i].wasmAddr < value
      invariant forall i :: hi <= i < |locs| ==> value <= locs[i].wasmAddr
    {
      var mid := (lo + hi) / 2;
      if locs[mid].wasmAddr < value { lo := mid + 1; } else { hi := mid; }
    }
    ghost var f := FirstAtLeast(locs, value);
    assert f < |locs| ==> value <= locs[f].wasmAddr;
    assert lo < |locs| ==> value <= locs[lo].wasmAddr;
    k := lo;
  }

  /** What the line program is written from: locations, the compiled code map, the offset of the
      wasm code section and the native start of the code. */
  datatype Input = Input(locations: seq<Location>, instrs: seq<InstrLoc>, codeOffset: nat, codeStart: nat)

  function NativeAddress(inp: Input, k: nat): nat
    requires k < |inp.instrs|
  {
    W64.Wrap(inp.codeStart + inp.instrs[k].codeOffset)
  }

  function WasmAddress(inp: Input, offset: nat): nat { W32.Wrap(inp.codeOffset + offset) }

  /** The native range of a location, if some instruction starts in it and one follows it.
      Offsets are unsigned 32-bit, native addresses 64-bit. */
  function AddrRange(inp: Input, loc: Location): Option<(nat, nat)> {
    var i := FirstAtLeast(inp.instrs, WasmAddress(inp, loc.begin));
    var j := FirstAtLeast(inp.instrs, WasmAddress(inp, loc.end));
    if i < j < |inp.instrs| then Some((NativeAddress(inp, i), NativeAddress(inp, j))) else None
  }

  method GetAddrRange(inp: Input, loc: Location) returns (r: Option<(nat, nat)>)
    requires SortedByWasm(inp.instrs)
    ensures r == AddrRange(inp, loc)
  {
    var i := PartitionPoint(inp.instrs, WasmAddress(inp, loc.begin));
    var j := PartitionPoint(inp.instrs, WasmAddress(inp, loc.end));
    if i < j && j != |inp.instrs| {
      return Some((NativeAddress(inp, i), NativeAddress(inp, j)));
    }
    return None;
  }

  // ----- the encoder

  /** A location together with its native range. */
  datatype Placed = Placed(loc: Location, first: nat, second: nat)

  function PlacedLocations(inp: Input, locs: seq<Location>): seq<Placed> {
    if locs == [] then []
    else match AddrRange(inp, locs[0])
      case None => PlacedLocations(inp, locs[1..])
      case Some(r) => [Placed(locs[0], r.0, r.1)] + PlacedLocations(inp, locs[1..])
  }

  /** What the encoder remembers of the consumer's registers. */
  datatype State = State(address: nat, file: nat, line: nat)

  function FileNumber(loc: Location): nat { W32.Wrap(loc.file + 1) }

  /** `int32_t(to - from)` on unsigned 32-bit lines */
  function LineDelta(from: nat, to: nat): int { W32.Signed(W32.Wrap(to - from)) }

  function EmitAddress(p: Placed, st: State): seq<Instr> {
    if p.first == st.address then []
    else (if p.first < st.address then [EndSequence] else []) + [SetAddress(p.first)]
  }

  /** The file and line that the consumer holds once `EmitAddress` has run. */
  function AfterAddress(p: Placed, st: State): State {
    if p.first < st.address then State(p.first, 1, 1) else st.(address := p.first)
  }

  function EmitRegisters(p: Placed, st: State): seq<Instr> {
    (if st.file != FileNumber(p.loc) then [SetFile(FileNumber(p.loc))] else []) +
    (if st.line != p.loc.line then [AdvanceLine(LineDelta(st.line, p.loc.line))] else []) +
    (if p.loc.prologueEnd then [SetPrologueEnd] else []) +
    (if p.loc.epilogueBegin then [SetEpilogueBegin] else []) + [Copy]
  }

  function EmitEnd(p: Placed): seq<Instr> {
    if p.first == p.second then [] else [SetAddress(p.second)]
  }

  function Emit(p: Placed, st: State): seq<Instr> {
    EmitAddress(p, st) + EmitRegisters(p, AfterAddress(p, st)) + EmitEnd(p)
  }

  function After(p: Placed): State { State(p.second, FileNumber(p.loc), p.loc.line) }

  function Program(ps: seq<Placed>, st: State): seq<Instr> {
    if ps == [] then [EndSequence] else Emit(ps[0], st) + Program(ps[1..], After(ps[0]))
  }

  function LineProgram(inp: Input): seq<Instr> {
    Program(PlacedLocations(inp, inp.locations), State(0, 1, 1))
  }

  /** The part of the program that is written from location `k` on. */
  function Remaining(inp: Input, k: nat, st: State): seq<Instr>
    requires k <= |inp.locations|
  {
    Program(PlacedLocations(inp, inp.locations[k..]), st)
  }

  lemma RemainingStep(inp: Input, k: nat, st: State)
    requires k < |inp.locations|
    ensures Remaining(inp, k, st) ==
      match AddrRange(inp, inp.locations[k])
      case None => Remaining(inp, k + 1, st)
      case Some(r) =>
        var p := Placed(inp.locations[k], r.0, r.1);
        Emit(p, st) + Remaining(inp, k + 1, After(p))
  {
    var locs := inp.locations[k..];
    assert locs[1..] == inp.locations[k + 1..];
    var ps := PlacedLocations(inp, locs);
    match AddrRange(inp, inp.locations[k])
    case None =>
    case Some(r) => assert ps[1..] == PlacedLocations(inp, locs[1..]);
  }

  ghost predicate InputOk(inp: Input) {
    && SortedByWasm(inp.instrs)
    && forall i :: 0 <= i < |inp.locations| ==> inp.locations[i].line < TWO32
  }

  method WriteLineProgram(inp: Input) returns (s: seq<byte>)
    requires InputOk(inp)
    ensures Decode(s) == Some(LineProgram(inp))
  {
    var st := State(0, 1, 1);
    s := [];
    ghost var written: seq<Instr> := [];
    var k := 0;
    assert inp.locations[0..] == inp.locations;
    assert LineProgram(inp) == written + Remaining(inp, 0, st);
    while k < |inp.locations|
      invariant 0 <= k <= |inp.locations|
      invariant s == Encode(written)
      invariant LineProgram(inp) == written + Remaining(inp, k, st)
    {
      var range := GetAddrRange(inp, inp.locations[k]);
      RemainingStep(inp, k, st);
      if range.Some? {
        var p := Placed(inp.locations[k], range.value.0, range.value.1);
        var piece := WriteLocation(p, st);
        EncodeAppend(written, piece);
        s := s + Encode(piece);
        Reassociate(written, piece, Remaining(inp, k + 1, After(p)));
        written := written + piece;
        st := After(p);
      }
      k := k + 1;
    }
    assert Remaining(inp, k, st) == [EndSequence];
    EncodeAppend(written, [EndSequence]);
    s := s + Encode([EndSequence]);
    ProgramEncodable(inp, inp.locations, State(0, 1, 1));
    RoundTrip(LineProgram(inp));
  }

  lemma Reassociate(a: seq<Instr>, b: seq<Instr>, c: seq<Instr>)
    ensures a + (b + c) == a + b + c
  {}

  /** One pass of the loop over a location that has a native range. */
  method WriteLocation(p: Placed, st: State) returns (piece: seq<Instr>)
    ensures piece == Emit(p, st)
  {
    var at := st;
    piece := [];
    if p.first != st.address {
      if p.first < st.address {
        piece := piece + [EndSequence];
        at := State(st.address, 1, 1);
      }
      piece := piece + [SetAddress(p.first)];
      at := at.(address := p.first);
    }
    assert piece == EmitAddress(p, st) && at == AfterAddress(p, st);
    var registers := WriteRegisters(p, at);
    piece := piece + registers;
    if p.first != p.second { piece := piece + [SetAddress(p.second)]; }
  }

  method WriteRegisters(p: Placed, at: State) returns (out: seq<Instr>)
    ensures out == EmitRegisters(p, at)
  {
    out := [];
    if at.file != FileNumber(p.loc) { out := out + [SetFile(FileNumber(p.loc))]; }
    if at.line != p.loc.line { out := out + [AdvanceLine(LineDelta(at.line, p.loc.line))]; }
    if p.loc.prologueEnd { out := out + [SetPrologueEnd]; }
    if p.loc.epilogueBegin { out := out + [SetEpilogueBegin]; }
    out := out + [Copy];
  }

  lemma {:induction false} ProgramEncodable(inp: Input, locs: seq<Location>, st: State)
    ensures var p := Program(PlacedLocations(inp, locs), st);
            AllEncodable(p)
  {
    if locs != [] {
      match AddrRange(inp, locs[0])
      case None =>
        ProgramEncodable(inp, locs[1..], st);
        assert PlacedLocations(inp, locs) == PlacedLocations(inp, locs[1..]);
      case Some(r) =>
        var p := Placed(locs[0], r.0, r.1);
        ProgramEncodable(inp, locs[1..], After(p));
        var ps := PlacedLocations(inp, locs);
        assert ps[1..] == PlacedLocations(inp, locs[1..]);
        EmitEncodable(p, st);
    }
  }

  lemma EmitEncodable(p: Placed, st: State)
    requires p.first < TWO64 && p.second < TWO64
    ensures AllEncodable(Emit(p, st))
  {
    var a, b, c := EmitAddress(p, st), EmitRegisters(p, AfterAddress(p, st)), EmitEnd(p);
    assert AllEncodable(a) && AllEncodable(b) && AllEncodable(c);
  }

  // ----- what the consumer sees

  function ExpectedRow(p: Placed): Row {
    Row(p.first, FileNumber(p.loc), p.loc.line, p.loc.prologueEnd, p.loc.epilogueBegin, false)
  }

  function DataRows(rows: seq<Row>): seq<Row> {
    if rows == [] then []
    else (if rows[0].endSequence then [] else [rows[0]]) + DataRows(rows[1..])
  }

  lemma {:induction false} DataRowsAppend(a: seq<Row>, b: seq<Row>)
    ensures DataRows(a + b) == DataRows(a) + DataRows(b)
  {
    if a == [] {
      assert a + b == b;
    } else {
      assert (a + b)[1..] == a[1..] + b;
      DataRowsAppend(a[1..], b);
    }
  }

  function RegistersOf(st: State): Registers { Registers(st.address, st.file, st.line, false, false) }

  /** The end-of-sequence row that closes the previous sequence when addresses go back. */
  function CloseRows(p: Placed, st: State): seq<Row> {
    if p.first < st.address then [RowOf(RegistersOf(st), true)] else []
  }

  lemma ExecEmitAddress(p: Placed, st: State)
    ensures Exec(EmitAddress(p, st), RegistersOf(st)) == (RegistersOf(AfterAddress(p, st)), CloseRows(p, st))
  {
    var r := RegistersOf(st);
    if p.first < st.address {
      ExecSingle(EndSequence, r);
      ExecSingle(SetAddress(p.first), Initial);
      ExecAppend([EndSequence], [SetAddress(p.first)], r);
      assert CloseRows(p, st) + [] == CloseRows(p, st);
    } else if p.first > st.address {
      ExecSingle(SetAddress(p.first), r);
      assert EmitAddress(p, st) == [SetAddress(p.first)];
    }
  }

  lemma LineDeltaExact(from: nat, to: nat)
    requires from < TWO32 && to < TWO32
    ensures W32.Wrap(from + LineDelta(from, to)) == to
  {}

  lemma ExecSingle(i: Instr, r: Registers)
    ensures Exec([i], r) == Exec1(i, r)
  {
    assert [i][1..] == [];
    assert Exec1(i, r).1 + [] == Exec1(i, r).1;
  }

  /** A conditional instruction that appends no row. */
  lemma ExecGuarded(b: bool, i: Instr, q: seq<Instr>, r: Registers)
    requires Exec1(i, r).1 == []
    ensures Exec((if b then [i] else []) + q, r) == Exec(q, if b then Exec1(i, r).0 else r)
  {
    if b {
      ExecSingle(i, r);
      ExecAppend([i], q, r);
      assert [] + Exec(q, Exec1(i, r).0).1 == Exec(q, Exec1(i, r).0).1;
    } else {
      assert [] + q == q;
    }
  }

  lemma ExecEmitRegisters(p: Placed, st: State)
    requires st.line < TWO32 && p.loc.line < TWO32 && st.address == p.first
    ensures Exec(EmitRegisters(p, st), RegistersOf(st))
         == (RegistersOf(After(p).(address := p.first)), [ExpectedRow(p)])
  {
    var f, l := SetFile(FileNumber(p.loc)), AdvanceLine(LineDelta(st.line, p.loc.line));
    var q4 := [Copy];
    var q3 := (if p.loc.epilogueBegin then [SetEpilogueBegin] else []) + q4;
    var q2 := (if p.loc.prologueEnd then [SetPrologueEnd] else []) + q3;
    var q1 := (if st.line != p.loc.line then [l] else []) + q2;
    assert EmitRegisters(p, st) == (if st.file != FileNumber(p.loc) then [f] else []) + q1;
    var r0 := RegistersOf(st);
    ExecGuarded(st.file != FileNumber(p.loc), f, q1, r0);
    var r1 := r0.(file := FileNumber(p.loc));
    ExecGuarded(st.line != p.loc.line, l, q2, r1);
    LineDeltaExact(st.line, p.loc.line);
    var r2 := r1.(line := p.loc.line);
    ExecGuarded(p.loc.prologueEnd, SetPrologueEnd, q3, r2);
    var r3 := r2.(prologueEnd := p.loc.prologueEnd);
    ExecGuarded(p.loc.epilogueBegin, SetEpilogueBegin, q4, r3);
    ExecSingle(Copy, r3.(epilogueBegin := p.loc.epilogueBegin));
  }

  lemma ExecEmitEnd(p: Placed, st: State)
    requires st.address == p.first
    ensures Exec(EmitEnd(p), RegistersOf(st)) == (RegistersOf(st.(address := p.second)), [])
  {
    if p.first != p.second { ExecSingle(SetAddress(p.second), RegistersOf(st)); }
  }

  lemma ExecEmit(p: Placed, st: State)
    requires st.line < TWO32 && p.loc.line < TWO32
    ensures Exec(Emit(p, st), RegistersOf(st))
         == (RegistersOf(After(p)), CloseRows(p, st) + [ExpectedRow(p)])
  {
    var a, b, c := EmitAddress(p, st), EmitRegisters(p, AfterAddress(p, st)), EmitEnd(p);
    ExecEmitAddress(p, st);
    ExecEmitRegisters(p, AfterAddress(p, st));
    ExecEmitEnd(p, After(p).(address := p.first));
    ExecAppend(a, b, RegistersOf(st));
    ExecAppend(a + b, c, RegistersOf(st));
    assert CloseRows(p, st) + [ExpectedRow(p)] + [] == CloseRows(p, st) + [ExpectedRow(p)];
  }

  function ExpectedRows(ps: seq<Placed>): seq<Row> {
    if ps == [] then [] else [ExpectedRow(ps[0])] + ExpectedRows(ps[1..])
  }

  predicate LinesOk(ps: seq<Placed>) { forall i :: 0 <= i < |ps| ==> ps[i].loc.line < TWO32 }

  /** All rows of the program, sequence ends included. */
  function Rows(ps: seq<Placed>, st: State): seq<Row> {
    if ps == [] then [RowOf(RegistersOf(st), true)]
    else CloseRows(ps[0], st) + [ExpectedRow(ps[0])] + Rows(ps[1..], After(ps[0]))
  }

  lemma {:induction false} ExecProgram(ps: seq<Placed>, st: State)
    requires LinesOk(ps) && st.line < TWO32
    ensures Exec(Program(ps, st), RegistersOf(st)) == (Initial, Rows(ps, st))
  {
    if ps == [] {
      ExecSingle(EndSequence, RegistersOf(st));
    } else {
      ExecEmit(ps[0], st);
      ExecProgram(ps[1..], After(ps[0]));
      ExecAppend(Emit(ps[0], st), Program(ps[1..], After(ps[0])), RegistersOf(st));
    }
  }

  lemma {:induction false} DataRowsOfRows(ps: seq<Placed>, st: State)
    ensures DataRows(Rows(ps, st)) == ExpectedRows(ps)
  {
    if ps == [] {
      assert Rows(ps, st)[1..] == [];
    } else {
      var h := CloseRows(ps[0], st) + [ExpectedRow(ps[0])];
      assert Rows(ps, st) == h + Rows(ps[1..], After(ps[0]));
      DataRowsAppend(h, Rows(ps[1..], After(ps[0])));
      DataRowsAppend(CloseRows(ps[0], st), [ExpectedRow(ps[0])]);
      DataRowsOfRows(ps[1..], After(ps[0]));
      assert [ExpectedRow(ps[0])][1..] == [];
      if |CloseRows(ps[0], st)| == 1 { assert CloseRows(ps[0], st)[1..] == []; }
    }
  }

  /** The addresses of a sequence never decrease. */
  predicate Ascending(rows: seq<Row>) {
    forall i :: 0 <= i < |rows| - 1 ==> rows[i].endSequence || rows[i].address <= rows[i + 1].address
  }

  predicate RangesForward(ps: seq<Placed>) { forall i :: 0 <= i < |ps| ==> ps[i].first <= ps[i].second }

  lemma {:induction false} RowsAscending(ps: seq<Placed>, st: State)
    requires RangesForward(ps)
    ensures Ascending(Rows(ps, st))
    ensures |Rows(ps, st)| > 0 && Rows(ps, st)[0].address >= st.address
    ensures Rows(ps, st)[|Rows(ps, st)| - 1].endSequence
  {
    if ps != [] {
      RowsAscending(ps[1..], After(ps[0]));
      var t := Rows(ps[1..], After(ps[0]));
      var h := CloseRows(ps[0], st) + [ExpectedRow(ps[0])];
      assert Rows(ps, st) == h + t;
      assert t[0].address >= ps[0].second >= ps[0].first;
    }
  }

  /** A row covers the code up to the address of the row that follows it. */
  function Extents(rows: seq<Row>): seq<(nat, nat)> {
    if |rows| < 2 then []
    else (if rows[0].endSequence then [] else [(rows[0].address, rows[1].address)]) + Extents(rows[1..])
  }

  /** A range is extended up to the next one unless that one starts no later than it ends. */
  function ExpectedExtents(ps: seq<Placed>): seq<(nat, nat)> {
    if ps == [] then []
    else
      var end := if |ps| == 1 || ps[1].first <= ps[0].second then ps[0].second else ps[1].first;
      [(ps[0].first, end)] + ExpectedExtents(ps[1..])
  }

  lemma {:induction false} ExtentsOfRows(ps: seq<Placed>, st: State)
    ensures Extents(Rows(ps, st)) == ExpectedExtents(ps)
    ensures |Rows(ps, st)| > 0
    ensures Rows(ps, st)[0].address == if ps == [] || ps[0].first < st.address then st.address else ps[0].first
  {
    if ps != [] {
      var t := Rows(ps[1..], After(ps[0]));
      ExtentsOfRows(ps[1..], After(ps[0]));
      assert Rows(ps, st) == CloseRows(ps[0], st) + ([ExpectedRow(ps[0])] + t);
      assert ([ExpectedRow(ps[0])] + t)[1..] == t;
      if ps[0].first < st.address {
        assert Rows(ps, st)[1..] == [ExpectedRow(ps[0])] + t;
      } else {
        assert Rows(ps, st) == [ExpectedRow(ps[0])] + t;
      }
    }
  }

  lemma {:induction false} PlacedLinesOk(inp: Input, locs: seq<Location>)
    requires forall i :: 0 <= i < |locs| ==> locs[i].line < TWO32
    ensures LinesOk(PlacedLocations(inp, locs))
  {
    if locs != [] { PlacedLinesOk(inp, locs[1..]); }
  }

  /** Code offsets grow with wasm addresses, and the code does not wrap around the address space. */
  predicate CodeForward(inp: Input) {
    && MonotoneCode(inp.instrs)
    && forall i :: 0 <= i < |inp.instrs| ==> inp.codeStart + inp.instrs[i].codeOffset < TWO64
  }

  lemma {:induction false} PlacedForward(inp: Input, locs: seq<Location>)
    requires CodeForward(inp)
    ensures RangesForward(PlacedLocations(inp, locs))
  {
    if locs != [] {
      PlacedForward(inp, locs[1..]);
      AddrRangeForward(inp, locs[0]);
    }
  }

  lemma AddrRangeForward(inp: Input, loc: Location)
    requires CodeForward(inp)
    ensures AddrRange(inp, loc).Some? ==> AddrRange(inp, loc).value.0 <= AddrRange(inp, loc).value.1
  {
    forall k | 0 <= k < |inp.instrs|
      ensures NativeAddress(inp, k) == inp.codeStart + inp.instrs[k].codeOffset
    {}
  }

  /** The written program yields one row per location that has a native range, in order, with its
      address, file, line and flags, then ends its last sequence; the extents are the ranges, up to
      gaps; within a sequence addresses ascend when code offsets do. */
  lemma LineProgramCorrect(inp: Input, s: seq<byte>)
    requires InputOk(inp) && Decode(s) == Some(LineProgram(inp))
    ensures var ps := PlacedLocations(inp, inp.locations);
            var rows := Exec(Decode(s).value, Initial).1;
            && DataRows(rows) == ExpectedRows(ps)
            && Extents(rows) == ExpectedExtents(ps)
            && (CodeForward(inp) ==> Ascending(rows) && rows != [] && rows[|rows| - 1].endSequence)
  {
    var ps := PlacedLocations(inp, inp.locations);
    var st := State(0, 1, 1);
    PlacedLinesOk(inp, inp.locations);
    ExecProgram(ps, st);
    assert RegistersOf(st) == Initial;
    DataRowsOfRows(ps, st);
    ExtentsOfRows(ps, st);
    if CodeForward(inp) {
      PlacedForward(inp, inp.locations);
      RowsAscending(ps, st);
    }
  }
}
