/** Runs of the parser, as the states that it goes through, with the pointers read in the fixed data. */
module FracTrace {
  import opened Leb128
  import opened SchemaMatch
  import opened SchemaLayout
  import opened FracWire
  import opened FracMachine
  import opened FracSane

  predicate StepAt(g: Types, b: Buffer, ps: seq<Parser>, ts: seq<Token>, i: nat)
    requires Wire(g) && |ps| == |ts| + 1 && i < |ts|
  {
    ps[i].stack != [] && Next(g, b, ps[i]) == Some((ps[i + 1], ts[i])) && SnugTop(g, b, ps[i])
  }

  /** The parser goes through the states `ps`, giving the items `ts`, until its stack is empty. */
  predicate Trace(g: Types, b: Buffer, ps: seq<Parser>, ts: seq<Token>)
    requires Wire(g)
  {
    |ps| == |ts| + 1 && ps[|ts|].stack == [] && forall i: nat :: i < |ts| ==> StepAt(g, b, ps, ts, i)
  }

  lemma {:induction false} TraceOf(g: Types, b: Buffer, p: Parser, ts: seq<Token>) returns (ps: seq<Parser>)
    requires Wire(g) && Runs(g, b, p, ts) && Stays(g, b, p, ts) && Sane(g, b, p)
    ensures Trace(g, b, ps, ts) && ps[0] == p && ps[|ts|].pos == |b|
    decreases |ts|
  {
    if ts == [] {
      ps := [p];
    } else {
      SaneNext(g, b, p, Next(g, b, p).value.0, ts[0]);
      SaneIsSnug(g, b, p);
      var qs := TraceOf(g, b, Next(g, b, p).value.0, ts[1..]);
      ps := [p] + qs;
      forall i: nat | i < |ts| ensures StepAt(g, b, ps, ts, i) {
        if i > 0 { assert StepAt(g, b, qs, ts[1..], i - 1); }
      }
    }
  }

  /** A reader on top of the stack takes the next step. */
  lemma StepOf(g: Types, b: Buffer, ps: seq<Parser>, ts: seq<Token>, i: nat, below: seq<Frame>, f: Frame, pos: nat,
               end: nat)
    requires Wire(g) && Trace(g, b, ps, ts) && i <= |ts| && !f.ItemF? && f.t in g && end <= |b|
    requires ps[i] == Parser(pos, end, below + [f])
    ensures Snug(g, b, f, pos, end)
    ensures var got := Read(g, b, f, pos, end);
            && i < |ts| && !got.Fail?
            && (got.Done? ==> ts[i] == END && ps[i + 1] == Parser(got.pos, got.end, below))
            && (got.Got? ==>
                  && got.out.Out? && ts[i] == Token(got.out.kind, got.out.data, got.index)
                  && ps[i + 1] == Parser(got.out.pos, got.end, (below + [got.frame]) + got.out.pushed))
  {
    assert StepAt(g, b, ps, ts, i);
    assert ps[i].stack[|ps[i].stack| - 1] == f && ps[i].stack[..|ps[i].stack| - 1] == below;
  }

  // ----- putting runs together

  ghost predicate Yields(g: Types, b: Buffer, p: Parser, ts: seq<Token>)
    requires Wire(g)
  {
    exists ps: seq<Parser> :: Trace(g, b, ps, ts) && ps[0] == p && ps[|ts|].pos == |b|
  }

  lemma {:induction false} YieldsRuns(g: Types, b: Buffer, ps: seq<Parser>, ts: seq<Token>)
    requires Wire(g) && Trace(g, b, ps, ts) && ps[|ts|].pos == |b|
    ensures Runs(g, b, ps[0], ts) && Stays(g, b, ps[0], ts)
    decreases |ts|
  {
    if ts != [] {
      assert StepAt(g, b, ps, ts, 0);
      forall i: nat | i < |ts[1..]| ensures StepAt(g, b, ps[1..], ts[1..], i) { assert StepAt(g, b, ps, ts, i + 1); }
      YieldsRuns(g, b, ps[1..], ts[1..]);
    }
  }

  lemma Prepend(g: Types, b: Buffer, p: Parser, p': Parser, t: Token, ts: seq<Token>)
    requires Wire(g) && p.stack != [] && Next(g, b, p) == Some((p', t)) && SnugTop(g, b, p) && Yields(g, b, p', ts)
    ensures Yields(g, b, p, [t] + ts)
  {
    var qs: seq<Parser> :| Trace(g, b, qs, ts) && qs[0] == p' && qs[|ts|].pos == |b|;
    var ps := [p] + qs;
    forall i: nat | i < |ts| + 1 ensures StepAt(g, b, ps, [t] + ts, i) {
      if i > 0 { assert StepAt(g, b, qs, ts, i - 1); }
    }
    assert Trace(g, b, ps, [t] + ts);
  }

  /** A reader that is finished. */
  lemma PrependEnd(g: Types, b: Buffer, below: seq<Frame>, f: Frame, pos: nat, end: nat, end': nat, ts: seq<Token>)
    requires Wire(g) && !f.ItemF? && f.t in g && end <= |b| && Read(g, b, f, pos, end) == Done(pos, end')
             && Snug(g, b, f, pos, end)
    requires Yields(g, b, Parser(pos, end', below), ts)
    ensures Yields(g, b, Parser(pos, end, below + [f]), [END] + ts)
  {
    var p := Parser(pos, end, below + [f]);
    assert p.stack[|p.stack| - 1] == f && p.stack[..|p.stack| - 1] == below;
    Prepend(g, b, p, Parser(pos, end', below), END, ts);
  }

  /** A reader that goes on. */
  lemma PrependRead(g: Types, b: Buffer, below: seq<Frame>, f: Frame, pos: nat, end: nat, got: Got, t: Token,
                    ts: seq<Token>)
    requires Wire(g) && !f.ItemF? && f.t in g && end <= |b| && got == Read(g, b, f, pos, end) && got.Got?
             && got.out.Out? && Snug(g, b, f, pos, end)
    requires t == Token(got.out.kind, got.out.data, got.index)
    requires Yields(g, b, Parser(got.out.pos, got.end, (below + [got.frame]) + got.out.pushed), ts)
    ensures Yields(g, b, Parser(pos, end, below + [f]), [t] + ts)
  {
    var p := Parser(pos, end, below + [f]);
    assert p.stack[|p.stack| - 1] == f && p.stack[..|p.stack| - 1] == below;
    Prepend(g, b, p, Parser(got.out.pos, got.end, (below + [got.frame]) + got.out.pushed), t, ts);
  }
}
