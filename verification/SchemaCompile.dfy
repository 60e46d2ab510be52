/** Compilation of a schema: a depth-first walk with an explicit stack, which completes the strict
    children of a type before the type, and puts off children that are only referred to. */
module SchemaCompile {
  import opened Leb128
  import opened SchemaMatch
  import opened SchemaLayout

  datatype Error = Recursive | TooLargeError | ZeroSize
  datatype Work = Work(types: Types, stack: seq<nat>, queue: seq<nat>)

  // ----- containment

  ghost predicate Child(g: Schema, a: nat, b: nat) {
    a < |g| && b < |g| && (b in Strict(g[a]) || b in Lazy(g[a]))
  }

  ghost predicate StrictChild(g: Schema, a: nat, b: nat) { a < |g| && b < |g| && b in Strict(g[a]) }

  /** Consecutive types of a chain contain one another strictly. */
  ghost predicate StrictChain(g: Schema, chain: seq<nat>) {
    forall i :: 0 <= i < |chain| - 1 ==> StrictChild(g, chain[i], chain[i + 1])
  }

  /** A type that contains itself without passing through a list, an option or a variant. */
  ghost predicate ContainsItself(g: Schema, t: nat) {
    exists chain :: |chain| >= 2 && chain[0] == t && chain[|chain| - 1] == t && StrictChain(g, chain)
  }

  ghost predicate Chain(g: Schema, chain: seq<nat>) {
    forall i :: 0 <= i < |chain| - 1 ==> Child(g, chain[i], chain[i + 1])
  }

  ghost predicate Reachable(g: Schema, roots: seq<nat>, t: nat) {
    exists chain :: |chain| >= 1 && chain[0] in roots && chain[|chain| - 1] == t && Chain(g, chain)
  }

  lemma ReachRoot(g: Schema, roots: seq<nat>, t: nat)
    requires t in roots
    ensures Reachable(g, roots, t)
  {
    var chain := [t];
    assert Chain(g, chain) && chain[0] in roots;
  }

  lemma ReachChild(g: Schema, roots: seq<nat>, a: nat, b: nat)
    requires Reachable(g, roots, a) && Child(g, a, b)
    ensures Reachable(g, roots, b)
  {
    var chain :| |chain| >= 1 && chain[0] in roots && chain[|chain| - 1] == a && Chain(g, chain);
    var longer := chain + [b];
    assert Chain(g, longer);
  }

  // ----- the invariant of the walk

  /** `path` holds the stack positions of the types that are being completed, from the bottom. */
  ghost predicate OnPath(w: Work, path: seq<nat>) {
    && (forall k :: 0 <= k < |path| ==> path[k] < |w.stack|)
    && (forall k, l :: 0 <= k < l < |path| ==> path[k] < path[l])
    && (forall k :: 0 <= k < |path| ==> Active(w.types, w.stack[path[k]], path[k]))
    && (forall t :: t in w.types && !w.types[t].complete ==>
          w.types[t].size in path && w.stack[w.types[t].size] == t)
  }

  ghost predicate Active(types: Types, t: nat, pos: nat) { t in types && !types[t].complete && types[t].size == pos }

  ghost predicate Above(w: Work, path: seq<nat>, k: nat, i: nat) {
    k < |path| && path[k] < i < |w.stack| && (k + 1 < |path| ==> i <= path[k + 1])
  }

  /** What lies above a type on the stack, up to the next one on the path, are its strict children. */
  ghost predicate Owned(g: Schema, w: Work, path: seq<nat>)
    requires OnPath(w, path)
  {
    forall k: nat, i: nat :: Above(w, path, k, i) ==> StrictChild(g, w.stack[path[k]], w.stack[i])
  }

  ghost predicate LiesAbove(stack: seq<nat>, pos: nat, c: nat) { exists i :: pos < i < |stack| && stack[i] == c }

  /** Strict children of a type on the path are complete, or still above it on the stack. */
  ghost predicate Pending(g: Schema, w: Work, path: seq<nat>)
    requires OnPath(w, path)
  {
    forall k, c :: 0 <= k < |path| && StrictChild(g, w.stack[path[k]], c) ==>
      Done(w.types, c) || LiesAbove(w.stack, path[k], c)
  }

  /** The complete types are ranked above their strict children. */
  ghost predicate Ranked(g: Schema, types: Types, rank: map<nat, nat>) {
    && (forall t :: t in rank <==> Done(types, t))
    && (forall t :: t in rank ==> rank[t] < |rank|)
    && (forall t, c :: t in rank && StrictChild(g, t, c) ==> c in rank && rank[c] < rank[t])
  }

  /** What is only referred to will be compiled, or has been. */
  ghost predicate Known(w: Work, t: nat) { Done(w.types, t) || t in w.stack || t in w.queue }

  ghost predicate Referred(g: Schema, w: Work, roots: seq<nat>) {
    && (forall t :: t in roots ==> Known(w, t))
    && (forall t, c :: Done(w.types, t) && Child(g, t, c) ==> Known(w, c))
  }

  ghost predicate AllReachable(g: Schema, w: Work, roots: seq<nat>) {
    && (forall t :: t in w.stack || t in w.queue || t in w.types ==> t < |g| && Reachable(g, roots, t))
  }

  ghost predicate AllCorrect(g: Schema, types: Types) {
    forall t: nat :: Done(types, t) ==> t < |g| && Correct(types, t, g[t])
  }

  /** Types that are only referred to are complete at once. */
  ghost predicate NoneWaits(g: Schema, types: Types) {
    forall t :: t in types && !types[t].complete ==> t < |g| && !Terminal(g[t])
  }

  ghost predicate Inv(g: Schema, w: Work, roots: seq<nat>, path: seq<nat>, rank: map<nat, nat>) {
    && OnPath(w, path) && Owned(g, w, path) && Pending(g, w, path) && Ranked(g, w.types, rank)
    && Referred(g, w, roots) && AllReachable(g, w, roots) && AllCorrect(g, w.types)
    && NoneWaits(g, w.types)
  }

  // ----- the steps

  function Top(w: Work): nat
    requires w.stack != []
  {
    w.stack[|w.stack| - 1]
  }

  function Below(w: Work): seq<nat>
    requires w.stack != []
  {
    w.stack[..|w.stack| - 1]
  }

  /** A type is met for the first time: it stays on the stack under its children. */
  function Begin(g: Schema, w: Work): Work
    requires w.stack != [] && Top(w) < |g|
  {
    var t := Top(w);
    w.(types := w.types[t := Compiled(KindOf(g[t]), true, |w.stack| - 1, [], false)], stack := w.stack + Strict(g[t]))
  }

  lemma BeginOnPath(g: Schema, w: Work, path: seq<nat>)
    requires w.stack != [] && Top(w) < |g| && Top(w) !in w.types && OnPath(w, path)
    ensures OnPath(Begin(g, w), path + [|w.stack| - 1])
  {
    var w', path' := Begin(g, w), path + [|w.stack| - 1];
    var top := |w.stack| - 1;
    forall k | 0 <= k < |path| ensures path[k] < top && w.stack[path[k]] != Top(w) {
      assert Active(w.types, w.stack[path[k]], path[k]);
    }
    forall k | 0 <= k < |path'| ensures Active(w'.types, w'.stack[path'[k]], path'[k]) {
      if k < |path| { assert Active(w.types, w.stack[path[k]], path[k]); }
    }
    forall t | t in w'.types && !w'.types[t].complete
      ensures w'.types[t].size in path' && w'.stack[w'.types[t].size] == t
    {
      if t != Top(w) { assert w.types[t].size in path; } else { assert path'[|path|] == top; }
    }
  }

  lemma BeginOwned(g: Schema, w: Work, path: seq<nat>)
    requires WellFormed(g) && w.stack != [] && Top(w) < |g| && Top(w) !in w.types && OnPath(w, path)
             && Owned(g, w, path)
    ensures OnPath(Begin(g, w), path + [|w.stack| - 1]) && Owned(g, Begin(g, w), path + [|w.stack| - 1])
  {
    BeginOnPath(g, w, path);
    var w', path', top := Begin(g, w), path + [|w.stack| - 1], |w.stack| - 1;
    forall k: nat, i: nat | Above(w', path', k, i) ensures StrictChild(g, w'.stack[path'[k]], w'.stack[i])
    {
      if k < |path| {
        assert i <= top && Above(w, path, k, i);
      } else {
        assert w'.stack[i] == Strict(g[Top(w)])[i - top - 1];
        assert w'.stack[i] in Strict(g[Top(w)]);
      }
    }
  }

  lemma BeginPending(g: Schema, w: Work, path: seq<nat>)
    requires w.stack != [] && Top(w) < |g| && Top(w) !in w.types && OnPath(w, path) && Pending(g, w, path)
    ensures OnPath(Begin(g, w), path + [|w.stack| - 1]) && Pending(g, Begin(g, w), path + [|w.stack| - 1])
  {
    BeginOnPath(g, w, path);
    var w', path', top := Begin(g, w), path + [|w.stack| - 1], |w.stack| - 1;
    forall k, c | 0 <= k < |path'| && StrictChild(g, w'.stack[path'[k]], c)
      ensures Done(w'.types, c) || LiesAbove(w'.stack, path'[k], c)
    {
      var p := path'[k];
      if k < |path| {
        assert p == path[k] && p < |w.stack| && w'.stack[p] == w.stack[p];
        assert StrictChild(g, w.stack[path[k]], c);
        assert Done(w.types, c) || LiesAbove(w.stack, path[k], c);
        if LiesAbove(w.stack, p, c) {
          var i :| p < i < |w.stack| && w.stack[i] == c;
          assert w'.stack[i] == c;
        }
      } else {
        var j :| 0 <= j < |Strict(g[Top(w)])| && Strict(g[Top(w)])[j] == c;
        assert w'.stack[top + 1 + j] == c;
      }
    }
  }

  lemma BeginReachable(g: Schema, w: Work, roots: seq<nat>)
    requires WellFormed(g) && AllReachable(g, w, roots) && w.stack != []
    ensures Top(w) < |g| && AllReachable(g, Begin(g, w), roots)
  {
    var t := Top(w);
    assert t in w.stack;
    var w' := Begin(g, w);
    forall x | x in w'.stack || x in w'.queue || x in w'.types ensures x < |g| && Reachable(g, roots, x) {
      if x in Strict(g[t]) { ReachChild(g, roots, t, x); }
    }
  }

  lemma CorrectKept(g: Schema, types: Types, types': Types)
    requires AllCorrect(g, types) && Extends(types, types') && forall t :: Done(types', t) ==> Done(types, t)
    ensures AllCorrect(g, types')
  {
    forall x: nat | Done(types', x) ensures x < |g| && Correct(types', x, g[x]) {
      CorrectExtends(types, types', x, g[x]);
    }
  }

  lemma BeginRest(g: Schema, w: Work, roots: seq<nat>, rank: map<nat, nat>)
    requires w.stack != [] && Top(w) < |g| && Top(w) !in w.types
    requires Referred(g, w, roots) && Ranked(g, w.types, rank) && AllCorrect(g, w.types)
    ensures var w' := Begin(g, w); Referred(g, w', roots) && Ranked(g, w'.types, rank) && AllCorrect(g, w'.types)
  {
    var w' := Begin(g, w);
    assert forall x :: Done(w'.types, x) <==> Done(w.types, x);
    CorrectKept(g, w.types, w'.types);
    assert forall x :: x in w.stack ==> x in w'.stack;
    assert forall x :: Known(w, x) ==> Known(w', x);
  }

  lemma BeginInv(g: Schema, w: Work, roots: seq<nat>, path: seq<nat>, rank: map<nat, nat>)
    requires WellFormed(g) && Inv(g, w, roots, path, rank) && w.stack != [] && Top(w) !in w.types
    requires Top(w) < |g| && !Terminal(g[Top(w)])
    ensures Inv(g, Begin(g, w), roots, path + [|w.stack| - 1], rank)
  {
    BeginReachable(g, w, roots);
    BeginOwned(g, w, path);
    BeginPending(g, w, path);
    BeginRest(g, w, roots, rank);
  }

  /** A type that is complete is taken off the stack. */
  function Skip(w: Work): Work
    requires w.stack != []
  {
    w.(stack := Below(w))
  }

  lemma SkipOnPath(g: Schema, w: Work, path: seq<nat>)
    requires w.stack != [] && Done(w.types, Top(w)) && OnPath(w, path)
    ensures OnPath(Skip(w), path)
    ensures Owned(g, w, path) ==> Owned(g, Skip(w), path)
  {
    var w' := Skip(w);
    forall k | 0 <= k < |path| ensures path[k] < |w'.stack| && w'.stack[path[k]] == w.stack[path[k]] {
      assert Active(w.types, w.stack[path[k]], path[k]);
    }
    assert forall k | 0 <= k < |path| :: Active(w'.types, w'.stack[path[k]], path[k]) <==>
      Active(w.types, w.stack[path[k]], path[k]);
    if Owned(g, w, path) {
      forall k: nat, i: nat | Above(w', path, k, i) ensures StrictChild(g, w'.stack[path[k]], w'.stack[i]) {
        assert Above(w, path, k, i);
      }
    }
  }

  lemma SkipPending(g: Schema, w: Work, path: seq<nat>)
    requires w.stack != [] && Done(w.types, Top(w)) && OnPath(w, path) && Pending(g, w, path)
    ensures OnPath(Skip(w), path) && Pending(g, Skip(w), path)
  {
    SkipOnPath(g, w, path);
    var w' := Skip(w);
    forall k, c | 0 <= k < |path| && StrictChild(g, w'.stack[path[k]], c)
      ensures Done(w'.types, c) || LiesAbove(w'.stack, path[k], c)
    {
      if !Done(w.types, c) {
        assert LiesAbove(w.stack, path[k], c);
        var i :| path[k] < i < |w.stack| && w.stack[i] == c;
        assert w'.stack[i] == c;
      }
    }
  }

  lemma SkipInv(g: Schema, w: Work, roots: seq<nat>, path: seq<nat>, rank: map<nat, nat>)
    requires Inv(g, w, roots, path, rank) && w.stack != [] && Done(w.types, Top(w))
    ensures Inv(g, Skip(w), roots, path, rank)
  {
    SkipOnPath(g, w, path);
    SkipPending(g, w, path);
    SkipKnown(g, w, roots);
  }

  lemma SkipKnown(g: Schema, w: Work, roots: seq<nat>)
    requires w.stack != [] && Done(w.types, Top(w))
    ensures Referred(g, w, roots) ==> Referred(g, Skip(w), roots)
    ensures AllReachable(g, w, roots) ==> AllReachable(g, Skip(w), roots)
  {
    assert w.stack == Below(w) + [Top(w)];
    assert forall x :: x in Below(w) ==> x in w.stack;
    assert forall x :: Known(w, x) ==> Known(Skip(w), x);
  }

  /** A type whose strict children are complete becomes complete; it is still on top of the stack. */
  function Mark(g: Schema, w: Work, c: Compiled): Work
    requires w.stack != [] && Top(w) < |g|
  {
    w.(types := w.types[Top(w) := c], queue := w.queue + Lazy(g[Top(w)]))
  }

  /** The path without the type that is completed. */
  function Shorter(w: Work, path: seq<nat>): seq<nat>
    requires w.stack != []
  {
    if path != [] && path[|path| - 1] == |w.stack| - 1 then path[..|path| - 1] else path
  }

  /** On top is a type that is met for the first time, or the last one on the path. */
  ghost predicate Completing(g: Schema, w: Work, path: seq<nat>) {
    && w.stack != [] && Top(w) < |g|
    && (if Top(w) in w.types then path != [] && path[|path| - 1] == |w.stack| - 1
        && Active(w.types, Top(w), |w.stack| - 1)
        else Strict(g[Top(w)]) == [])
  }

  lemma MarkOnPath(g: Schema, w: Work, path: seq<nat>, c: Compiled)
    requires Completing(g, w, path) && OnPath(w, path) && c.complete
    ensures OnPath(Mark(g, w, c), Shorter(w, path))
  {
    var w', path' := Mark(g, w, c), Shorter(w, path);
    forall k | 0 <= k < |path'| ensures Active(w'.types, w'.stack[path'[k]], path'[k]) {
      assert Active(w.types, w.stack[path[k]], path[k]);
    }
    forall t | t in w'.types && !w'.types[t].complete
      ensures w'.types[t].size in path' && w'.stack[w'.types[t].size] == t
    {
      var k :| 0 <= k < |path| && path[k] == w.types[t].size;
      assert path'[k] == path[k];
    }
  }

  lemma MarkOwned(g: Schema, w: Work, path: seq<nat>, c: Compiled)
    requires Completing(g, w, path) && OnPath(w, path) && Owned(g, w, path) && c.complete
    ensures OnPath(Mark(g, w, c), Shorter(w, path)) && Owned(g, Mark(g, w, c), Shorter(w, path))
  {
    MarkOnPath(g, w, path, c);
    var w', path' := Mark(g, w, c), Shorter(w, path);
    forall k: nat, i: nat | Above(w', path', k, i) ensures StrictChild(g, w'.stack[path'[k]], w'.stack[i]) {
      assert Above(w, path, k, i);
    }
  }

  lemma MarkPending(g: Schema, w: Work, path: seq<nat>, c: Compiled)
    requires Completing(g, w, path) && OnPath(w, path) && Pending(g, w, path) && c.complete
    ensures OnPath(Mark(g, w, c), Shorter(w, path)) && Pending(g, Mark(g, w, c), Shorter(w, path))
  {
    MarkOnPath(g, w, path, c);
    var w', path' := Mark(g, w, c), Shorter(w, path);
    forall k, x | 0 <= k < |path'| && StrictChild(g, w'.stack[path'[k]], x)
      ensures Done(w'.types, x) || LiesAbove(w'.stack, path'[k], x)
    {
      assert path[k] == path'[k];
      assert Done(w.types, x) || LiesAbove(w.stack, path[k], x);
    }
  }

  /** All strict children of the type on top are complete. */
  lemma ChildrenDone(g: Schema, w: Work, path: seq<nat>)
    requires WellFormed(g) && Completing(g, w, path) && OnPath(w, path) && Pending(g, w, path) && AllCorrect(g, w.types)
    ensures !Done(w.types, Top(w)) && AllUsable(w.types, Strict(g[Top(w)]))
    ensures forall c :: StrictChild(g, Top(w), c) ==> Done(w.types, c)
  {
    var t := Top(w);
    forall c | StrictChild(g, t, c) ensures Done(w.types, c) {
      if t in w.types {
        var k := |path| - 1;
        assert w.stack[path[k]] == t && !LiesAbove(w.stack, path[k], c);
      }
    }
    forall i | 0 <= i < |Strict(g[t])| ensures Usable(w.types, Strict(g[t])[i]) {
      assert Strict(g[t])[i] in Strict(g[t]);
      assert StrictChild(g, t, Strict(g[t])[i]);
      assert Correct(w.types, Strict(g[t])[i], g[Strict(g[t])[i]]);
    }
  }

  function Entry(types: Types, ty: Ty, l: Layout): Compiled
    requires AllUsable(types, Strict(ty)) && l.Layout?
  {
    Compiled(FinishedKind(types, ty), l.variable, l.size, l.slots, true)
  }

  lemma MarkCorrect(g: Schema, w: Work, path: seq<nat>)
    requires WellFormed(g) && Completing(g, w, path) && OnPath(w, path) && Pending(g, w, path) && AllCorrect(g, w.types)
    requires AllUsable(w.types, Strict(g[Top(w)])) && Finished(w.types, g[Top(w)]).Layout?
    ensures AllCorrect(g, Mark(g, w, Entry(w.types, g[Top(w)], Finished(w.types, g[Top(w)]))).types)
  {
    ChildrenDone(g, w, path);
    var t, ty := Top(w), g[Top(w)];
    var c := Entry(w.types, ty, Finished(w.types, ty));
    var types' := w.types[t := c];
    assert Extends(w.types, types');
    FinishedExtends(w.types, types', ty);
    if ty.CustomTy? { assert Usable(w.types, Strict(ty)[0]); }
    assert Correct(types', t, ty);
    forall x: nat | Done(types', x) ensures x < |g| && Correct(types', x, g[x]) {
      if x != t {
        assert Done(w.types, x);
        CorrectExtends(w.types, types', x, g[x]);
      }
    }
  }

  lemma MarkRanked(g: Schema, w: Work, path: seq<nat>, rank: map<nat, nat>, c: Compiled)
    requires Completing(g, w, path) && Ranked(g, w.types, rank) && c.complete && !Done(w.types, Top(w))
    requires forall x :: StrictChild(g, Top(w), x) ==> Done(w.types, x)
    ensures Ranked(g, Mark(g, w, c).types, rank[Top(w) := |rank|])
  {
    var t := Top(w);
    var rank' := rank[t := |rank|];
    assert rank'.Keys == rank.Keys + {t};
    assert |rank'| == |rank| + 1;
    forall x, y | x in rank' && StrictChild(g, x, y) ensures y in rank' && rank'[y] < rank'[x] {
      if x == t { assert Done(w.types, y); }
    }
  }

  lemma MarkKnown(g: Schema, w: Work, roots: seq<nat>, path: seq<nat>, c: Compiled)
    requires WellFormed(g) && Completing(g, w, path) && c.complete
    requires forall x :: StrictChild(g, Top(w), x) ==> Done(w.types, x)
    requires Referred(g, w, roots) && AllReachable(g, w, roots)
    ensures Referred(g, Mark(g, w, c), roots) && AllReachable(g, Mark(g, w, c), roots)
  {
    var t, w' := Top(w), Mark(g, w, c);
    assert t in w.stack;
    assert forall x :: Known(w, x) ==> Known(w', x);
    forall x, y | Done(w'.types, x) && Child(g, x, y) ensures Known(w', y) {
      if x == t {
        if y in Strict(g[t]) { assert StrictChild(g, t, y); }
      }
    }
    forall x | x in w'.stack || x in w'.queue || x in w'.types ensures x < |g| && Reachable(g, roots, x) {
      if x in Lazy(g[t]) { ReachChild(g, roots, t, x); }
    }
  }

  lemma MarkInv(g: Schema, w: Work, roots: seq<nat>, path: seq<nat>, rank: map<nat, nat>)
    requires WellFormed(g) && Inv(g, w, roots, path, rank) && Completing(g, w, path)
    requires AllUsable(w.types, Strict(g[Top(w)])) && Finished(w.types, g[Top(w)]).Layout?
    ensures var c := Entry(w.types, g[Top(w)], Finished(w.types, g[Top(w)]));
            Inv(g, Mark(g, w, c), roots, Shorter(w, path), rank[Top(w) := |rank|])
  {
    var c := Entry(w.types, g[Top(w)], Finished(w.types, g[Top(w)]));
    ChildrenDone(g, w, path);
    MarkOwned(g, w, path, c);
    MarkPending(g, w, path, c);
    MarkRanked(g, w, path, rank, c);
    MarkKnown(g, w, roots, path, c);
    MarkCorrect(g, w, path);
  }

  // ----- outcomes of the walk

  /** From any type on the path, strict containment leads to what is on top of the stack. */
  lemma {:induction false} PathLeadsToTop(g: Schema, w: Work, path: seq<nat>, k: nat) returns (chain: seq<nat>)
    requires w.stack != [] && OnPath(w, path) && Owned(g, w, path)
    requires k < |path| && path[|path| - 1] < |w.stack| - 1
    ensures |chain| >= 2 && chain[0] == w.stack[path[k]] && chain[|chain| - 1] == Top(w) && StrictChain(g, chain)
    decreases |path| - k
  {
    if k == |path| - 1 {
      chain := [w.stack[path[k]], Top(w)];
      assert Above(w, path, k, |w.stack| - 1);
    } else {
      var rest := PathLeadsToTop(g, w, path, k + 1);
      assert Above(w, path, k, path[k + 1]);
      chain := [w.stack[path[k]]] + rest;
      forall i | 0 <= i < |chain| - 1 ensures StrictChild(g, chain[i], chain[i + 1]) {
        if i > 0 { assert StrictChild(g, rest[i - 1], rest[i]); }
      }
    }
  }

  /** A type that is met again under itself closes a chain of strict containment. */
  lemma CycleFound(g: Schema, w: Work, path: seq<nat>)
    requires w.stack != [] && OnPath(w, path) && Owned(g, w, path)
    requires Top(w) in w.types && !w.types[Top(w)].complete && w.types[Top(w)].size != |w.stack| - 1
    ensures ContainsItself(g, Top(w))
  {
    var t, n := Top(w), |path|;
    var k :| 0 <= k < n && path[k] == w.types[t].size;
    assert Active(w.types, w.stack[path[n - 1]], path[n - 1]);
    var chain := PathLeadsToTop(g, w, path, k);
  }

  /** A chain of strict containment goes down in rank. */
  lemma {:induction false} RankFalls(g: Schema, types: Types, rank: map<nat, nat>, chain: seq<nat>)
    requires Ranked(g, types, rank) && |chain| >= 2 && StrictChain(g, chain) && chain[0] in rank
    ensures chain[|chain| - 1] in rank && rank[chain[|chain| - 1]] < rank[chain[0]]
  {
    assert StrictChild(g, chain[0], chain[1]);
    if |chain| > 2 {
      var rest := chain[1..];
      forall i | 0 <= i < |rest| - 1 ensures StrictChild(g, rest[i], rest[i + 1]) {
        assert StrictChild(g, chain[i + 1], chain[i + 2]);
      }
      RankFalls(g, types, rank, rest);
    }
  }

  lemma NoCycle(g: Schema, types: Types, rank: map<nat, nat>, t: nat)
    requires Ranked(g, types, rank) && Done(types, t)
    ensures !ContainsItself(g, t)
  {
    forall chain | |chain| >= 2 && chain[0] == t && StrictChain(g, chain) ensures chain[|chain| - 1] != t {
      RankFalls(g, types, rank, chain);
    }
  }

  /** With nothing left to do, everything that can be reached is complete. */
  lemma {:induction false} ChainDone(g: Schema, w: Work, roots: seq<nat>, chain: seq<nat>)
    requires Referred(g, w, roots) && w.stack == [] && w.queue == []
    requires |chain| >= 1 && chain[0] in roots && Chain(g, chain)
    ensures Done(w.types, chain[|chain| - 1])
    decreases |chain|
  {
    var n := |chain| - 1;
    if n == 0 {
      assert Known(w, chain[0]);
    } else {
      var init := chain[..n];
      forall i | 0 <= i < |init| - 1 ensures Child(g, init[i], init[i + 1]) { assert Child(g, chain[i], chain[i + 1]); }
      ChainDone(g, w, roots, init);
      assert Child(g, chain[n - 1], chain[n]);
      assert Known(w, chain[n]);
    }
  }

  /** All types are complete, together with what they refer to, and rank above what they contain. */
  ghost predicate Completed(g: Schema, types: Types, rank: map<nat, nat>) {
    && AllCorrect(g, types) && Ranked(g, types, rank)
    && (forall t :: t in types ==> types[t].complete)
    && (forall t, c :: Done(types, t) && Child(g, t, c) ==> Done(types, c))
  }

  lemma NothingLeft(g: Schema, w: Work, roots: seq<nat>, path: seq<nat>, rank: map<nat, nat>)
    requires Inv(g, w, roots, path, rank) && w.stack == [] && w.queue == []
    ensures Completed(g, w.types, rank)
  {
    forall t, c | Done(w.types, t) && Child(g, t, c) ensures Done(w.types, c) { assert Known(w, c); }
  }

  lemma AllCompiled(g: Schema, w: Work, roots: seq<nat>, path: seq<nat>, rank: map<nat, nat>)
    requires Inv(g, w, roots, path, rank) && w.stack == [] && w.queue == []
    ensures forall t: nat :: Reachable(g, roots, t) ==> t < |g| && Correct(w.types, t, g[t]) && !ContainsItself(g, t)
  {
    forall t: nat | Reachable(g, roots, t) ensures t < |g| && Correct(w.types, t, g[t]) && !ContainsItself(g, t) {
      var chain :| |chain| >= 1 && chain[0] in roots && chain[|chain| - 1] == t && Chain(g, chain);
      ChainDone(g, w, roots, chain);
      NoCycle(g, w.types, rank, t);
    }
  }

  lemma EmptyPath(w: Work, path: seq<nat>)
    requires OnPath(w, path) && w.stack == []
    ensures path == []
  {
    var _ := First(path);
  }

  function First(path: seq<nat>): nat { if path == [] then 0 else path[0] }

  lemma SwapInv(g: Schema, w: Work, roots: seq<nat>, path: seq<nat>, rank: map<nat, nat>)
    requires Inv(g, w, roots, path, rank) && w.stack == []
    ensures path == [] && Inv(g, w.(stack := w.queue, queue := []), roots, [], rank)
  {
    var w' := w.(stack := w.queue, queue := []);
    EmptyPath(w, path);
    assert forall x :: Known(w, x) ==> Known(w', x);
    assert forall t :: t in w.types ==> w.types[t].complete;
  }

  // ----- termination

  ghost function Unmet(g: Schema, w: Work): set<nat> { set t | 0 <= t < |g| && t !in w.types }

  ghost function Undone(g: Schema, w: Work): set<nat> { set t | 0 <= t < |g| && !Done(w.types, t) }

  /** Progress of one step of the walk. */
  ghost predicate Progress(g: Schema, w: Work, w': Work) {
    || Unmet(g, w') < Unmet(g, w)
    || (Unmet(g, w') == Unmet(g, w) && w'.queue == w.queue
        && (Undone(g, w') < Undone(g, w) || (Undone(g, w') == Undone(g, w) && |w'.stack| < |w.stack|)))
  }

  lemma SkipStep(g: Schema, w: Work, roots: seq<nat>, path: seq<nat>, rank: map<nat, nat>)
    requires Inv(g, w, roots, path, rank) && w.stack != [] && Done(w.types, Top(w))
    ensures Inv(g, Skip(w), roots, path, rank) && Progress(g, w, Skip(w))
  {
    SkipInv(g, w, roots, path, rank);
  }

  lemma BeginStep(g: Schema, w: Work, roots: seq<nat>, path: seq<nat>, rank: map<nat, nat>)
    requires WellFormed(g) && Inv(g, w, roots, path, rank) && w.stack != [] && Top(w) !in w.types
    requires Top(w) < |g| && !Terminal(g[Top(w)])
    ensures Inv(g, Begin(g, w), roots, path + [|w.stack| - 1], rank) && Progress(g, w, Begin(g, w))
  {
    BeginInv(g, w, roots, path, rank);
    BeginProgress(g, w);
  }

  lemma BeginProgress(g: Schema, w: Work)
    requires w.stack != [] && Top(w) < |g| && Top(w) !in w.types
    ensures Progress(g, w, Begin(g, w))
  {
    assert Top(w) in Unmet(g, w) && Top(w) !in Unmet(g, Begin(g, w));
  }

  lemma CompleteStep(g: Schema, w: Work, roots: seq<nat>, path: seq<nat>, rank: map<nat, nat>, l: Layout)
    requires WellFormed(g) && Inv(g, w, roots, path, rank) && Completing(g, w, path)
    requires AllUsable(w.types, Strict(g[Top(w)])) && l == Finished(w.types, g[Top(w)]) && l.Layout?
    ensures var w' := Skip(Mark(g, w, Entry(w.types, g[Top(w)], l)));
            Inv(g, w', roots, Shorter(w, path), rank[Top(w) := |rank|]) && Progress(g, w, w')
  {
    var w1 := Mark(g, w, Entry(w.types, g[Top(w)], l));
    MarkInv(g, w, roots, path, rank);
    SkipInv(g, w1, roots, Shorter(w, path), rank[Top(w) := |rank|]);
    CompleteProgress(g, w, path, Entry(w.types, g[Top(w)], l));
  }

  lemma CompleteProgress(g: Schema, w: Work, path: seq<nat>, c: Compiled)
    requires Completing(g, w, path) && NoneWaits(g, w.types) && c.complete
    ensures Progress(g, w, Skip(Mark(g, w, c)))
  {
    var t, w' := Top(w), Skip(Mark(g, w, c));
    if t in w.types {
      assert Lazy(g[t]) == [] && w'.queue == w.queue;
      assert Unmet(g, w') == Unmet(g, w);
      assert t in Undone(g, w) && t !in Undone(g, w');
    } else {
      assert t in Unmet(g, w) && t !in Unmet(g, w');
    }
  }

  lemma InBounds(g: Schema, w: Work, roots: seq<nat>)
    requires AllReachable(g, w, roots) && w.stack != []
    ensures Top(w) < |g| && Reachable(g, roots, Top(w))
  {
    assert Top(w) in w.stack;
  }

  /** The layout of a type whose strict children are complete. */
  method FinishType(types: Types, ty: Ty) returns (l: Layout)
    requires AllUsable(types, Strict(ty))
    ensures l == Finished(types, ty)
  {
    match ty {
      case ObjectTy(ms) => l := Link(types, ms, true);
      case TupleTy(ms) => l := Link(types, ms, true);
      case StructTy(ms) => l := Link(types, ms, false);
      case ArrayTy(e, n) =>
        l := Link(types, [e], false);
        if l.Layout? { l := l.(size := Wrap(l.size * n)); }
      case _ => l := Finished(types, ty);
    }
  }

  /** Some type that can be reached does not fit its 16-bit offsets, by the entries of what it contains. */
  ghost predicate Oversized(g: Schema, roots: seq<nat>, types: Types) {
    AllCorrect(g, types)
    && exists t: nat ::
         t < |g| && Reachable(g, roots, t) && AllUsable(types, Strict(g[t])) && Finished(types, g[t]).TooLarge?
  }

  ghost predicate HasCycle(g: Schema, roots: seq<nat>) { exists t :: Reachable(g, roots, t) && ContainsItself(g, t) }

  ghost predicate HasEmptyStruct(g: Schema, roots: seq<nat>) {
    exists t: nat :: t < |g| && Reachable(g, roots, t) && g[t] == StructTy([])
  }

  /** An error that is reported has its reason. */
  ghost predicate Justified(g: Schema, roots: seq<nat>, types: Types, err: Option<Error>) {
    && (err == Some(Recursive) ==> HasCycle(g, roots))
    && (err == Some(ZeroSize) ==> HasEmptyStruct(g, roots))
    && (err == Some(TooLargeError) ==> Oversized(g, roots, types))
  }

  /** Completes the type on top of the stack. */
  method Complete(g: Schema, w: Work, ghost roots: seq<nat>, ghost path: seq<nat>, ghost rank: map<nat, nat>)
    returns (err: Option<Error>, w': Work, ghost path': seq<nat>, ghost rank': map<nat, nat>)
    requires WellFormed(g) && Inv(g, w, roots, path, rank) && Completing(g, w, path)
    ensures Justified(g, roots, w'.types, err)
    ensures err.None? ==> Inv(g, w', roots, path', rank') && Progress(g, w, w')
  {
    path', rank' := path, rank;
    var t := w.stack[|w.stack| - 1];
    ChildrenDone(g, w, path);
    InBounds(g, w, roots);
    var l := FinishType(w.types, g[t]);
    if l.TooLarge? { return Some(TooLargeError), w, path, rank; }
    CompleteStep(g, w, roots, path, rank, l);
    err, path', rank' := None, Shorter(w, path), rank[t := |rank|];
    w' := Work(w.types[t := Entry(w.types, g[t], l)], w.stack[..|w.stack| - 1], w.queue + Lazy(g[t]));
  }

  /** `add_impl`: one step of the walk. */
  method Add(g: Schema, w: Work, ghost roots: seq<nat>, ghost path: seq<nat>, ghost rank: map<nat, nat>)
    returns (err: Option<Error>, w': Work, ghost path': seq<nat>, ghost rank': map<nat, nat>)
    requires WellFormed(g) && Inv(g, w, roots, path, rank) && w.stack != []
    ensures Justified(g, roots, w'.types, err)
    ensures err.None? ==> Inv(g, w', roots, path', rank') && Progress(g, w, w')
  {
    err, w', path', rank' := None, w, path, rank;
    var t := w.stack[|w.stack| - 1];
    InBounds(g, w, roots);
    if t in w.types && w.types[t].complete {
      SkipStep(g, w, roots, path, rank);
      w' := w.(stack := w.stack[..|w.stack| - 1]);
    } else if t !in w.types && !Terminal(g[t]) {
      if g[t] == StructTy([]) { return Some(ZeroSize), w, path, rank; }
      BeginStep(g, w, roots, path, rank);
      path' := path + [|w.stack| - 1];
      w' := Work(w.types[t := Compiled(KindOf(g[t]), true, |w.stack| - 1, [], false)], w.stack + Strict(g[t]), w.queue);
    } else if t in w.types && w.types[t].size != |w.stack| - 1 {
      CycleFound(g, w, path);
      err := Some(Recursive);
    } else {
      OnTop(g, w, path);
      err, w', path', rank' := Complete(g, w, roots, path, rank);
    }
  }

  /** Works off the stack; the queue collects what is only referred to. */
  method Drain(g: Schema, w0: Work, ghost roots: seq<nat>, ghost rank0: map<nat, nat>)
    returns (err: Option<Error>, w: Work, ghost path: seq<nat>, ghost rank: map<nat, nat>)
    requires WellFormed(g) && Inv(g, w0, roots, [], rank0) && w0.queue == []
    ensures Justified(g, roots, w.types, err)
    ensures err.None? ==> Inv(g, w, roots, path, rank) && w.stack == []
    ensures err.None? ==> Unmet(g, w) < Unmet(g, w0) || (Unmet(g, w) == Unmet(g, w0) && w.queue == [])
  {
    err, w, path, rank := None, w0, [], rank0;
    while w.stack != []
      invariant Inv(g, w, roots, path, rank) && err.None?
      invariant Unmet(g, w) < Unmet(g, w0) || (Unmet(g, w) == Unmet(g, w0) && w.queue == [])
      decreases Unmet(g, w), Undone(g, w), |w.stack|
    {
      err, w, path, rank := Add(g, w, roots, path, rank);
      if err.Some? { return; }
    }
  }

  /** Works off the queue, one stack at a time. */
  method Walk(g: Schema, roots: seq<nat>) returns (err: Option<Error>, types: Types, ghost rank: map<nat, nat>)
    requires WellFormed(g) && forall t :: t in roots ==> t < |g|
    ensures Justified(g, roots, types, err)
    ensures err.None? ==> !HasCycle(g, roots) && Completed(g, types, rank)
    ensures err.None? ==> forall t: nat :: Reachable(g, roots, t) ==> t < |g| && Correct(types, t, g[t])
  {
    var w := Work(map[], [], roots);
    ghost var path: seq<nat> := [];
    rank := map[];
    StartInv(g, roots);
    while w.queue != []
      invariant Inv(g, w, roots, path, rank) && w.stack == []
      decreases Unmet(g, w), |w.queue|
    {
      SwapInv(g, w, roots, path, rank);
      ghost var before := w;
      w := w.(stack := w.queue, queue := []);
      err, w, path, rank := Drain(g, w, roots, rank);
      if err.Some? { return err, w.types, rank; }
    }
    AllCompiled(g, w, roots, path, rank);
    NothingLeft(g, w, roots, path, rank);
    return None, w.types, rank;
  }

  /** Compiles everything that can be reached from the roots. Unless an object is too large or a struct is
      empty, it fails exactly when some type contains itself without passing through a list, an option or
      a variant; on success every entry is determined by those of its children. */
  method Compile(g: Schema, roots: seq<nat>) returns (err: Option<Error>, types: Types, ghost rank: map<nat, nat>)
    requires WellFormed(g) && forall t :: t in roots ==> t < |g|
    ensures Outcome(g, roots, err, types)
    ensures err.None? ==> !HasCycle(g, roots) && Completed(g, types, rank)
    ensures err != Some(TooLargeError) && !HasEmptyStruct(g, roots) ==> (err == Some(Recursive) <==> HasCycle(g, roots))
  {
    err, types, rank := Walk(g, roots);
    if err.Some? { match err.value case Recursive => case TooLargeError => case ZeroSize => }
  }

  /** What `Compile` promises of its results. */
  ghost predicate Outcome(g: Schema, roots: seq<nat>, err: Option<Error>, types: Types) {
    && Justified(g, roots, types, err)
    && (err.None? ==> forall t: nat :: Reachable(g, roots, t) ==> t < |g| && Correct(types, t, g[t]))
  }

  /** An integer, a large array of it, and a struct with both that ends in the integer again. */
  function WrappingSchema(): Schema { [IntTy(32), ArrayTy(0, 0x3fff_ffff), StructTy([0, 1, 0])] }

  lemma WrappingEntries(g: Schema, types: Types)
    requires g == WrappingSchema()
    requires (Done(types, 0) ==> Correct(types, 0, g[0])) && (Done(types, 1) ==> Correct(types, 1, g[1]))
    ensures Done(types, 0) ==> types[0].kind.Scalar? && !types[0].variable && types[0].size == 4
    ensures Done(types, 1) ==> types[1].kind.Array? && !types[1].variable && types[1].size == 0xffff_fffc
  {
    if Done(types, 1) {
      assert Correct(types, 1, g[1]) && Usable(types, Strict(g[1])[0]);
      var e := [0];
      assert e[..0] == [] && AllUsable(types, e);
      assert AddMembers(types, e, Layout(0, false, [])) == Layout(4, false, [Slot(0, false, 0)]);
    }
  }

  lemma {:induction false} WrappingFalls(g: Schema, chain: seq<nat>)
    requires g == WrappingSchema() && |chain| >= 2 && StrictChain(g, chain)
    ensures chain[|chain| - 1] < chain[0]
  {
    assert StrictChild(g, chain[0], chain[1]);
    if |chain| > 2 {
      var rest := chain[1..];
      forall i | 0 <= i < |rest| - 1 ensures StrictChild(g, rest[i], rest[i + 1]) {
        assert StrictChild(g, chain[i + 1], chain[i + 2]);
      }
      WrappingFalls(g, rest);
    }
  }

  lemma WrappingFits(g: Schema, types: Types)
    requires g == WrappingSchema() && AllCorrect(g, types)
    ensures !Oversized(g, [2], types)
  {
    WrappingEntries(g, types);
    if AllUsable(types, Strict(g[1])) {
      var e := [0];
      assert Strict(g[1]) == e && e[..0] == [] && Usable(types, e[0]);
      assert AddMembers(types, e, Layout(0, false, [])) == AddMember(types, e[0], Layout(0, false, []));
      assert Finished(types, g[1]).Layout?;
    }
    if AllUsable(types, Strict(g[2])) {
      assert Usable(types, Strict(g[2])[0]) && Usable(types, Strict(g[2])[1]);
      WrappedTotal(types, 0, 1);
      assert Finished(types, g[2]).Layout?;
    }
    assert AllUsable(types, Strict(g[0])) ==> Finished(types, g[0]).Layout?;
    forall t: nat | t < |g| && AllUsable(types, Strict(g[t])) ensures Finished(types, g[t]).Layout? {
      if t == 0 {} else if t == 1 {} else {}
    }
  }

  lemma WrappingAccepted(g: Schema, err: Option<Error>, types: Types)
    requires g == WrappingSchema() && Justified(g, [2], types, err)
    ensures err.None?
  {
    if HasCycle(g, [2]) {
      var t :| Reachable(g, [2], t) && ContainsItself(g, t);
      var chain :| |chain| >= 2 && chain[0] == t && chain[|chain| - 1] == t && StrictChain(g, chain);
      WrappingFalls(g, chain);
    }
    if Oversized(g, [2], types) { WrappingFits(g, types); }
    match err case None => case Some(e) => match e case Recursive => case TooLargeError => case ZeroSize =>
  }

  /** The check of the offsets lets a wrapped one through: the schema is accepted, and both the first and
      the last member of the struct, which has 2^32 + 4 bytes, lie at offset 0. */
  lemma WrappedOffset(err: Option<Error>, types: Types)
    requires Outcome(WrappingSchema(), [2], err, types)
    ensures err.None? && 2 in types && types[2].size == 4
    ensures types[2].slots == [Slot(0, false, 0), Slot(4, false, 1), Slot(0, false, 0)]
  {
    var g := WrappingSchema();
    WrappingAccepted(g, err, types);
    ReachRoot(g, [2], 2);
    assert StrictChild(g, 2, 0) && StrictChild(g, 2, 1);
    ReachChild(g, [2], 2, 0);
    ReachChild(g, [2], 2, 1);
    assert Correct(types, 0, g[0]) && Correct(types, 1, g[1]) && Correct(types, 2, g[2]);
    WrappingEntries(g, types);
    WrappedTotal(types, 0, 1);
  }

  lemma StartInv(g: Schema, roots: seq<nat>)
    requires forall t :: t in roots ==> t < |g|
    ensures Inv(g, Work(map[], [], roots), roots, [], map[])
  {
    forall t | t in roots ensures Reachable(g, roots, t) { ReachRoot(g, roots, t); }
  }

  lemma OnTop(g: Schema, w: Work, path: seq<nat>)
    requires w.stack != [] && Top(w) < |g| && OnPath(w, path) && !Done(w.types, Top(w))
    requires Top(w) in w.types ==> w.types[Top(w)].size == |w.stack| - 1
    requires Top(w) !in w.types ==> Terminal(g[Top(w)])
    ensures Completing(g, w, path)
  {
    if Top(w) in w.types {
      var k :| 0 <= k < |path| && path[k] == |w.stack| - 1;
    }
  }
}
