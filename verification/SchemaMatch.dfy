/** `CompiledType::matches`: two compiled types, which may be cyclic, have the same wire format. */
module SchemaMatch {
  datatype Kind = Scalar | Struct | Object | Container | Array | Variant | Optional | Nested | Custom | Uninitialized

  /** A child is a reference to another type of the graph. */
  datatype Member = Member(optional: bool, target: nat)
  datatype Type = Type(kind: Kind, variable: bool, size: nat, children: seq<Member>)
  type Graph = seq<Type>
  datatype Pair = Pair(lhs: nat, rhs: nat)

  predicate Closed(g: Graph) {
    forall t, i :: 0 <= t < |g| && 0 <= i < |g[t].children| ==> g[t].children[i].target < |g|
  }

  /** Two types agree on everything but what their children are. */
  predicate Agree(x: Type, y: Type) {
    && x.kind == y.kind && x.variable == y.variable && x.size == y.size
    && |x.children| == |y.children|
    && forall i :: 0 <= i < |x.children| ==> x.children[i].optional == y.children[i].optional
  }

  /** The path leads from `t` along existing children. */
  ghost predicate Leads(g: Graph, t: nat, path: seq<nat>)
    requires Closed(g) && t < |g|
    decreases |path|
  {
    path == [] || (path[0] < |g[t].children| && Leads(g, g[t].children[path[0]].target, path[1..]))
  }

  ghost function End(g: Graph, t: nat, path: seq<nat>): (r: nat)
    requires Closed(g) && t < |g| && Leads(g, t, path)
    ensures r < |g|
    decreases |path|
  {
    if path == [] then t else End(g, g[t].children[path[0]].target, path[1..])
  }

  /** Every pair of types at the end of the same path agrees. */
  ghost predicate Equivalent(g: Graph, a: nat, b: nat)
    requires Closed(g) && a < |g| && b < |g|
  {
    forall path :: Leads(g, a, path) && Leads(g, b, path) ==> Agree(g[End(g, a, path)], g[End(g, b, path)])
  }

  ghost predicate Reached(g: Graph, a: nat, b: nat, x: nat, y: nat)
    requires Closed(g) && a < |g| && b < |g|
  {
    exists path :: Leads(g, a, path) && Leads(g, b, path) && End(g, a, path) == x && End(g, b, path) == y
  }

  lemma {:induction false} Extend(g: Graph, t: nat, path: seq<nat>, i: nat)
    requires Closed(g) && t < |g| && Leads(g, t, path) && i < |g[End(g, t, path)].children|
    ensures Leads(g, t, path + [i]) && End(g, t, path + [i]) == g[End(g, t, path)].children[i].target
    decreases |path|
  {
    if path == [] {
      assert path + [i] == [i];
    } else {
      Extend(g, g[t].children[path[0]].target, path[1..], i);
      assert (path + [i])[1..] == path[1..] + [i];
    }
  }

  lemma ReachedChild(g: Graph, a: nat, b: nat, x: nat, y: nat, i: nat)
    requires Closed(g) && a < |g| && b < |g| && x < |g| && y < |g| && Reached(g, a, b, x, y)
    requires i < |g[x].children| && i < |g[y].children|
    ensures Reached(g, a, b, g[x].children[i].target, g[y].children[i].target)
  {
    var path :| Leads(g, a, path) && Leads(g, b, path) && End(g, a, path) == x && End(g, b, path) == y;
    Extend(g, a, path, i);
    Extend(g, b, path, i);
  }

  ghost predicate InRange(g: Graph, pairs: set<Pair>) { forall p :: p in pairs ==> p.lhs < |g| && p.rhs < |g| }

  /** Pairs that agree and whose children are in `pairs` again. */
  ghost predicate Stable(g: Graph, known: set<Pair>, pairs: set<Pair>)
    requires Closed(g) && InRange(g, known)
  {
    forall p :: p in known ==> Agree(g[p.lhs], g[p.rhs]) && ChildrenIn(g, p, |g[p.lhs].children|, pairs)
  }

  ghost predicate ChildrenIn(g: Graph, p: Pair, n: nat, pairs: set<Pair>)
    requires p.lhs < |g| && p.rhs < |g| && n <= |g[p.lhs].children| && n <= |g[p.rhs].children|
  {
    forall i :: 0 <= i < n ==> Pair(g[p.lhs].children[i].target, g[p.rhs].children[i].target) in pairs
  }

  /** A stable set contains every pair that is reached from one of its own. */
  lemma {:induction false} StableContains(g: Graph, known: set<Pair>, a: nat, b: nat, path: seq<nat>)
    requires Closed(g) && InRange(g, known) && Stable(g, known, known) && Pair(a, b) in known
    requires Leads(g, a, path) && Leads(g, b, path)
    ensures Pair(End(g, a, path), End(g, b, path)) in known
    decreases |path|
  {
    if path != [] {
      var i := path[0];
      assert Agree(g[Pair(a, b).lhs], g[Pair(a, b).rhs]);
      StableContains(g, known, g[a].children[i].target, g[b].children[i].target, path[1..]);
    }
  }

  lemma StableEquivalent(g: Graph, known: set<Pair>, a: nat, b: nat)
    requires Closed(g) && InRange(g, known) && Stable(g, known, known) && Pair(a, b) in known
    ensures Equivalent(g, a, b)
  {
    forall path | Leads(g, a, path) && Leads(g, b, path) ensures Agree(g[End(g, a, path)], g[End(g, b, path)]) {
      StableContains(g, known, a, b, path);
      var p := Pair(End(g, a, path), End(g, b, path));
      assert Agree(g[p.lhs], g[p.rhs]);
    }
  }

  ghost function AllPairs(n: nat): set<Pair> { set x, y | 0 <= x < n && 0 <= y < n :: Pair(x, y) }

  ghost function Elements(stack: seq<Pair>): set<Pair> { set p | p in stack }

  ghost predicate IsChild(g: Graph, p: Pair, q: Pair)
    requires p.lhs < |g| && p.rhs < |g| && |g[p.lhs].children| == |g[p.rhs].children|
  {
    exists i :: 0 <= i < |g[p.lhs].children| && q == Pair(g[p.lhs].children[i].target, g[p.rhs].children[i].target)
  }

  /** Pushes the pairs of children; stops at one that is optional on one side only. */
  method PushChildren(g: Graph, p: Pair, stack: seq<Pair>) returns (ok: bool, stack': seq<Pair>)
    requires Closed(g) && p.lhs < |g| && p.rhs < |g| && |g[p.lhs].children| == |g[p.rhs].children|
    ensures ok <==> forall i :: 0 <= i < |g[p.lhs].children| ==>
            g[p.lhs].children[i].optional == g[p.rhs].children[i].optional
    ensures ok ==> Elements(stack) <= Elements(stack') && ChildrenIn(g, p, |g[p.lhs].children|, Elements(stack'))
    ensures forall q :: q in stack' ==> q in stack || IsChild(g, p, q)
  {
    stack' := stack;
    var n := |g[p.lhs].children|;
    for i := 0 to n
      invariant forall j :: 0 <= j < i ==> g[p.lhs].children[j].optional == g[p.rhs].children[j].optional
      invariant Elements(stack) <= Elements(stack') && ChildrenIn(g, p, i, Elements(stack'))
      invariant forall q :: q in stack' ==> q in stack || IsChild(g, p, q)
    {
      var lm, rm := g[p.lhs].children[i], g[p.rhs].children[i];
      if lm.optional != rm.optional { return false, stack'; }
      stack' := stack' + [Pair(lm.target, rm.target)];
    }
    ok := true;
  }

  /** Terminates on every graph; true exactly when the types are equivalent along all common paths. */
  method Matches(g: Graph, a: nat, b: nat) returns (r: bool)
    requires Closed(g) && a < |g| && b < |g|
    ensures r <==> Equivalent(g, a, b)
  {
    var stack: seq<Pair> := [Pair(a, b)];
    var known: set<Pair> := {};
    assert Reached(g, a, b, a, b) by { assert Leads(g, a, []) && Leads(g, b, []); }
    while stack != []
      invariant InRange(g, known) && InRange(g, Elements(stack))
      invariant forall p :: p in stack ==> Reached(g, a, b, p.lhs, p.rhs)
      invariant Pair(a, b) in known + Elements(stack)
      invariant Stable(g, known, known + Elements(stack))
      decreases AllPairs(|g|) - known, |stack|
    {
      var p := stack[|stack| - 1];
      ghost var before := stack;
      stack := stack[..|stack| - 1];
      assert before == stack + [p];
      assert Elements(before) == Elements(stack) + {p};
      assert p in before;
      if p !in known {
        ghost var was := known;
        known := known + {p};
        assert p in AllPairs(|g|);
        var x, y := g[p.lhs], g[p.rhs];
        if x.kind != y.kind || x.variable != y.variable || x.size != y.size || |x.children| != |y.children| {
          Disagree(g, a, b, p);
          return false;
        }
        var ok, pushed := PushChildren(g, p, stack);
        if !ok {
          Disagree(g, a, b, p);
          return false;
        }
        forall q | q in pushed ensures q.lhs < |g| && q.rhs < |g| && Reached(g, a, b, q.lhs, q.rhs) {
          if q !in stack {
            var i :| 0 <= i < |x.children| && q == Pair(x.children[i].target, y.children[i].target);
            ReachedChild(g, a, b, p.lhs, p.rhs, i);
          } else {
            assert q in before;
          }
        }
        stack := pushed;
        assert was + Elements(before) <= known + Elements(stack);
      }
    }
    assert known + Elements(stack) == known;
    StableEquivalent(g, known, a, b);
    r := true;
  }

  lemma Disagree(g: Graph, a: nat, b: nat, p: Pair)
    requires Closed(g) && a < |g| && b < |g| && p.lhs < |g| && p.rhs < |g| && Reached(g, a, b, p.lhs, p.rhs)
    requires !Agree(g[p.lhs], g[p.rhs])
    ensures !Equivalent(g, a, b)
  {}
}
