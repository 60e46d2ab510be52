/** An encoding that the parser refuses: an absent option that is followed by fixed data. */
module FracRefused {
  import opened Leb128
  import opened SchemaMatch
  import opened SchemaLayout
  import opened FracWire
  import opened FracMachine
  import opened FracComplete

  /** No item sequence belongs to a run from here. */
  ghost predicate Stuck(g: Types, b: Buffer, p: Parser)
    requires Wire(g)
  {
    forall ts :: !Runs(g, b, p, ts)
  }

  lemma StuckBefore(g: Types, b: Buffer, p: Parser)
    requires Wire(g) && p.stack != [] && (Next(g, b, p).Some? ==> Stuck(g, b, Next(g, b, p).value.0))
    ensures Stuck(g, b, p)
  {}

  /** An object with an optional member and one byte of fixed data. */
  predicate Mixed(g: Types, t: nat, u: nat, w: nat) {
    && t in g && u in g && w in g && g[t].kind.Object? && g[t].size == 5
    && g[t].slots == [Slot(0, true, u), Slot(4, false, w)]
    && g[w].kind.Scalar? && !g[w].variable && g[w].size == 1
  }

  function Encoded(x: byte): Buffer { [5, 0, 1, 0, 0, 0, x] }

  function At(t: nat, index: nat, last: bool): Parser { Parser(7, 7, [ObjectF(t, 0, index, last)]) }

  /** The absent option is read, and noted as the last member without a value. */
  lemma OptionRead(g: Types, b: Buffer, t: nat, u: nat, w: nat, x: byte)
    requires Wire(g) && Mixed(g, t, u, w) && b == Encoded(x)
    ensures Next(g, b, At(t, 0, true)) == Some((At(t, 1, false), Token(EmptyItem, [], 0)))
  {
    assert U16(b, 0) == 5 && U32(b, 2) == 1;
    assert [] + [ObjectF(t, 0, 1, false)] + [] == [ObjectF(t, 0, 1, false)];
    assert At(t, 0, true).stack[..0] == [];
  }

  /** The fixed data does not change that. */
  lemma DataRead(g: Types, b: Buffer, t: nat, u: nat, w: nat, x: byte)
    requires Wire(g) && Mixed(g, t, u, w) && b == Encoded(x)
    ensures Next(g, b, At(t, 1, false)) == Some((At(t, 2, false), Token(ScalarItem, [x], 0)))
  {
    assert U16(b, 0) == 5 && b[6..7] == [x];
    assert [] + [ObjectF(t, 0, 2, false)] + [] == [ObjectF(t, 0, 2, false)];
    assert At(t, 1, false).stack[..0] == [];
  }

  lemma EndRefused(g: Types, b: Buffer, t: nat, u: nat, w: nat, x: byte)
    requires Wire(g) && Mixed(g, t, u, w) && b == Encoded(x)
    ensures Next(g, b, At(t, 2, false)).None?
  {
    assert U16(b, 0) == 5;
  }

  /** The buffer is an object laid out as the format asks, with an absent option: its fixed data ends with
      the member behind the option. */
  lemma IsLaidOut(g: Types, b: Buffer, t: nat, u: nat, w: nat, x: byte)
    requires Wire(g) && Mixed(g, t, u, w) && b == Encoded(x)
    ensures LaidOut(g, b, t, [Nil, Leaf([x])])
  {
    var c, vs := g[t], [Nil, Leaf([x])];
    assert vs[1..] == [Leaf([x])] && vs[1..][1..] == [] && b[6..7] == [x];
    assert U16(b, 0) == 5 && U32(b, 2) == 1;
    assert Present(c, vs[1..], 1) == 2 && FixedBytes(c, vs) == 5;
    assert HoldsFixed(Cut, g, b, w, Leaf([x]), 6);
    assert HoldsMembers(Cut, g, b, c, vs[1..], 1, 2, 5, 7);
    assert HoldsPointer(Cut, g, b, u, true, Nil, 2, 7);
    assert MembersLength(Cut, g, c, vs[1..], 1) == 0 && TargetLength(Cut, g, u, true, Nil) == 0;
    assert MembersLength(Cut, g, c, vs, 0) == 0;
  }

  /** It is refused, whatever the items. */
  lemma EncodingRefused(g: Types, t: nat, u: nat, w: nat, x: byte)
    requires Wire(g) && Mixed(g, t, u, w)
    ensures LaidOut(g, Encoded(x), t, [Nil, Leaf([x])]) && forall ts :: !Valid(g, Encoded(x), t, ts)
  {
    var b := Encoded(x);
    IsLaidOut(g, b, t, u, w, x);
    EndRefused(g, b, t, u, w, x);
    StuckBefore(g, b, At(t, 2, false));
    DataRead(g, b, t, u, w, x);
    StuckBefore(g, b, At(t, 1, false));
    OptionRead(g, b, t, u, w, x);
    StuckBefore(g, b, At(t, 0, true));
    FirstItem(g, b, t, u, w, x);
  }

  lemma FirstItem(g: Types, b: Buffer, t: nat, u: nat, w: nat, x: byte)
    requires Wire(g) && Mixed(g, t, u, w) && b == Encoded(x) && Stuck(g, b, At(t, 0, true))
    ensures forall ts :: !Valid(g, b, t, ts)
  {
    assert U16(b, 0) == 5;
    var out := Parse(g, b, t, 0, |b|);
    var p := Parser(out.pos, |b|, out.pushed + [ItemF(Token(out.kind, out.data, 0))]);
    assert p.stack[..|p.stack| - 1] == [ObjectF(t, 0, 0, true)];
    StuckBefore(g, b, p);
  }
}
