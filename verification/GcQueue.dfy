/** `gc_queue` as the object it is in the source: what one call does under the queue mutex.
    The values that a call loads from the sessions' atomic sequences, and the values that its
    compare-exchanges find there, are parameters. */
module GcQueue {
  import opened Leb128
  import opened GcRing

  /** What a scan saw of one session. */
  datatype Observed = Observed(loaded: nat, actual: nat)

  class Queue {
    const slots: array<Option<Elem>>
    var end: nat
    var size: nat
    var waiting: bool
    ghost var pushed: seq<Elem>   // every element ever pushed
    ghost var popped: nat         // how many of them have been moved out

    ghost predicate Valid()
      reads this, slots
    {
      slots.Length > 1 && Holds(slots[..], end, size, pushed, popped)
    }

    constructor (maxSize: nat)
      ensures fresh(slots) && slots.Length == maxSize + 1 && forall k :: 0 <= k < slots.Length ==> slots[k].None?
      ensures end == 0 && size == 0 && !waiting && pushed == [] && popped == 0
      ensures Valid() <==> 0 < maxSize < MAX_SLOTS
    {
      slots := new Option<Elem>[maxSize + 1](_ => None);
      end, size, waiting := 0, 0, false;
      pushed, popped := [], 0;
    }

    /** Moves out the elements from `start` up to (not including) index `stop`. */
    method PopSome(start: nat, stop: nat, ghost upto: nat) returns (out: seq<Option<Elem>>)
      requires Valid() && popped <= upto <= |pushed|
      requires start == popped % slots.Length && stop == upto % slots.Length
      modifies this`size, this`popped, slots
      ensures Valid() && popped == upto
      ensures out == Somes(pushed[old(popped)..upto])
    {
      var cur := start;
      out := [];
      ghost var first := popped;
      while cur != stop
        invariant first <= popped <= upto && cur == popped % slots.Length
        invariant Valid()
        invariant out == Somes(pushed[first..popped])
        decreases upto - popped
      {
        SomesExtend(pushed, first, popped);
        var item := PopOne(cur);
        out := out + [item];
        cur := Next(slots.Length, cur);
      }
      if popped < upto { DistinctSlots(slots.Length, popped, upto); }
    }

    /** One iteration of the loop: the oldest element leaves its slot. */
    method PopOne(cur: nat) returns (item: Option<Elem>)
      requires Valid() && popped < |pushed| && cur == popped % slots.Length
      modifies this`size, this`popped, slots
      ensures Valid() && popped == old(popped) + 1 && item == Some(pushed[old(popped)])
      ensures item == old(slots[cur]) && slots[..] == old(slots[..])[cur := None]
      ensures Next(slots.Length, cur) == popped % slots.Length
    {
      HoldsPopOne(slots[..], end, size, pushed, popped);
      ModStep(slots.Length, popped);
      item := slots[cur];
      slots[cur] := None;
      assert slots[..] == old(slots[..])[cur := None];
      size := size - 1;
      popped := popped + 1;
    }

    /** The scan of `start_wait`. The result is a position of the queue that is not after any position
        held by a session as it was seen. A blocking scan stops at the first session that holds the
        start: it leaves a mark there for its wake-up call, unless one is already out. */
    method StartWait(block: bool, seen: seq<Observed>) returns (r: nat, mark: Option<nat>, ghost p: nat)
      requires Valid()
      requires forall i :: 0 <= i < |seen| ==>
        Scannable(slots.Length, Masked(seen[i].loaded)) && Scannable(slots.Length, seen[i].actual)
      modifies this`waiting
      ensures popped <= p <= |pushed| && r == p % slots.Length
      ensures mark.Some? ==> mark.value < |seen| && seen[mark.value].actual == popped % slots.Length
      ensures waiting <==> old(waiting) || mark.Some?
      ensures block && size > 0 && p == popped ==> waiting
      ensures AllUnseen(slots.Length, popped, |pushed|, block, seen, p)
      ensures p == |pushed| || (block && p == popped)
              || exists i :: 0 <= i < |seen| && Sees(slots.Length, popped, block, seen[i], p)
    {
      ghost var n, e := slots.Length, |pushed|;
      StartIsPopped(slots[..], end, size, pushed, popped);
      var start := Start(slots.Length, end, size);
      r, p, mark := end, |pushed|, None;
      for i := 0 to |seen|
        invariant popped <= p <= e && r == p % n && mark.None? && waiting == old(waiting)
        invariant block && size > 0 ==> p != popped
        invariant AllUnseen(n, popped, e, block, seen[..i], p)
        invariant p == e || exists k :: 0 <= k < i && Sees(n, popped, block, seen[k], p)
      {
        var v := Masked(seen[i].loaded);
        if v == start && block {
          if waiting { r, p := start, popped; return; }
          if seen[i].actual == start {
            waiting := true;
            r, p, mark := start, popped, Some(i);
            return;
          }
          v := seen[i].actual;
        }
        ghost var p' := LowerIsSafe(n, e, popped, p, v);
        assert p' != p ==> Sees(n, popped, block, seen[i], p');
        assert seen[..i + 1] == seen[..i] + [seen[i]];
        r, p := LowerOf(slots.Length, end, start, r, v), p';
      }
    }

    /** One attempt of `push`: when the queue is full and nothing can be popped, the caller must wait
        for a wake-up that is guaranteed to come; otherwise the element is the newest one. */
    method TryPush(e: Elem, seen: seq<Observed>) returns (ok: bool, out: seq<Option<Elem>>)
      requires Valid()
      requires forall i :: 0 <= i < |seen| ==>
        Scannable(slots.Length, Masked(seen[i].loaded)) && Scannable(slots.Length, seen[i].actual)
      modifies this, slots
      ensures Valid()
      ensures ok ==> pushed == old(pushed) + [e]
      ensures !ok ==> pushed == old(pushed) && popped == old(popped) && out == [] && waiting
                      && size == slots.Length - 1
      ensures old(popped) <= popped <= |old(pushed)| && out == Somes(old(pushed)[old(popped)..popped])
      ensures old(size) < slots.Length - 1 ==> ok && out == [] && popped == old(popped)
      ensures AllUnseen(slots.Length, old(popped), |old(pushed)|, true, seen, popped)
    {
      out := [];
      if size == slots.Length - 1 {
        ok, out := MakeRoom(seen);
        if !ok { return; }
      } else {
        assert pushed[popped..popped] == [];
      }
      Append(e);
      ok := true;
    }

    /** The queue is full: what no session can still see is popped, if there is anything. */
    method MakeRoom(seen: seq<Observed>) returns (ok: bool, out: seq<Option<Elem>>)
      requires Valid() && size == slots.Length - 1
      requires forall i :: 0 <= i < |seen| ==>
        Scannable(slots.Length, Masked(seen[i].loaded)) && Scannable(slots.Length, seen[i].actual)
      modifies this`waiting, this`size, this`popped, slots
      ensures Valid() && old(popped) <= popped <= |pushed| && out == Somes(pushed[old(popped)..popped])
      ensures ok <==> popped > old(popped)
      ensures !ok ==> out == [] && waiting && size == old(size)
      ensures AllUnseen(slots.Length, old(popped), |pushed|, true, seen, popped)
    {
      StartIsPopped(slots[..], end, size, pushed, popped);
      var r, mark, upto := StartWait(true, seen);
      var start := Start(slots.Length, end, size);
      if r == start {
        if upto > popped { DistinctSlots(slots.Length, popped, upto); }
        assert pushed[popped..popped] == [];
        return false, [];
      }
      out := PopSome(start, r, upto);
      ok := true;
    }

    method Append(e: Elem)
      requires Valid() && size < slots.Length - 1
      modifies this`end, this`size, this`pushed, slots
      ensures Valid() && pushed == old(pushed) + [e]
    {
      EndIsEmpty(slots[..], end, size, pushed, popped);
      HoldsPush(slots[..], end, size, pushed, popped, e);
      ghost var before := slots[..];
      slots[end] := Some(e);
      assert slots[..] == before[end := Some(e)];
      end, size := Next(slots.Length, end), size + 1;
      pushed := pushed + [e];
    }

    /** `poll` never blocks and pops what no session can still see. */
    method Poll(seen: seq<Observed>) returns (out: seq<Option<Elem>>)
      requires Valid()
      requires forall i :: 0 <= i < |seen| ==>
        Scannable(slots.Length, Masked(seen[i].loaded)) && Scannable(slots.Length, seen[i].actual)
      modifies this, slots
      ensures Valid() && pushed == old(pushed) && old(popped) <= popped && end == old(end)
      ensures out == Somes(pushed[old(popped)..popped])
      ensures forall i, since: nat ::
        0 <= i < |seen| && old(popped) <= since <= |pushed| && StandsFor(slots.Length, Masked(seen[i].loaded), since)
        ==> popped <= since
      ensures popped == |pushed|
              || exists i :: 0 <= i < |seen| && StandsFor(slots.Length, Masked(seen[i].loaded), popped)
    {
      StartIsPopped(slots[..], end, size, pushed, popped);
      var start := Start(slots.Length, end, size);
      var r, mark, upto := StartWait(false, seen);
      ghost var gone := popped;
      assert forall i, since: nat ::
        0 <= i < |seen| && gone <= since <= |pushed| && StandsFor(slots.Length, Masked(seen[i].loaded), since)
        ==> Sees(slots.Length, gone, false, seen[i], since);
      if upto != |pushed| {
        var i :| 0 <= i < |seen| && Sees(slots.Length, gone, false, seen[i], upto);
        assert StandsFor(slots.Length, Masked(seen[i].loaded), upto);
      }
      out := PopSome(start, r, upto);
    }
  }

  /** Ring index `v` is that of absolute position `since`. */
  predicate StandsFor(n: nat, v: nat, since: nat) { n > 0 && v == since % n }

  /** The sequence that a scan takes into account, with `gone` elements popped before, stands for `since`. */
  predicate Sees(n: nat, gone: nat, block: bool, o: Observed, since: nat) {
    n > 0 && StandsFor(n, if block && Masked(o.loaded) == gone % n then o.actual else Masked(o.loaded), since)
  }

  /** Position `p` is not after that of any session, of those between `gone` and `e`. */
  ghost predicate AllUnseen(n: nat, gone: nat, e: nat, block: bool, seen: seq<Observed>, p: nat) {
    forall i, since: nat :: 0 <= i < |seen| && gone <= since <= e && Sees(n, gone, block, seen[i], since) ==> p <= since
  }

  lemma SomesExtend(s: seq<Elem>, first: nat, k: nat)
    requires first <= k < |s|
    ensures Somes(s[first..k + 1]) == Somes(s[first..k]) + [Some(s[k])]
  {
    assert s[first..k + 1] == s[first..k] + [s[k]];
    SomesSnoc(s[first..k], s[k]);
  }

  lemma {:induction false} SomesSnoc(a: seq<Elem>, x: Elem)
    ensures Somes(a + [x]) == Somes(a) + [Some(x)]
  {
    if a == [] {
      assert a + [x] == [x] && [x][1..] == [];
    } else {
      assert (a + [x])[1..] == a[1..] + [x];
      SomesSnoc(a[1..], x);
    }
  }
}
