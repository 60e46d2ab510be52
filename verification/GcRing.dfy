/** The ring buffer under `gc_queue`, and how circular indices relate to absolute positions. */
module GcRing {
  import opened Leb128

  type Elem = nat

  const NPOS := 0xffff_ffff        // sequence of an unlocked session
  const WAIT_BIT := 0x8000_0000    // marks the session that must wake the queue
  const MAX_SLOTS := 0x4000_0000

  /** `value & ~wait_bit` */
  function Masked(v: nat): nat { v % WAIT_BIT }

  function Next(n: nat, pos: nat): nat { if pos + 1 == n then 0 else pos + 1 }

  /** The order of sequences relative to the current end (`make_sequence_order`). */
  function Order(n: nat, end: nat, s: nat): nat {
    if s == NPOS then s else if s <= end then s + n else s
  }

  /** The comparison that ends an iteration of a scan from `start`. */
  function LowerOf(n: nat, end: nat, start: nat, lowest: nat, sequence: nat): nat {
    if Order(n, end, start) <= Order(n, end, sequence) < Order(n, end, lowest) then sequence else lowest
  }

  /** Where the queue begins. */
  function Start(n: nat, end: nat, size: nat): nat
    requires n > 0 && size <= end + n
  {
    (end + n - size) % n
  }

  // ----- absolute positions

  lemma ModStep(n: nat, a: nat)
    requires n > 0
    ensures (a + 1) % n == Next(n, a % n)
  {
    var q, r := a / n, a % n;
    assert a == n * q + r;
    if r + 1 == n {
      assert a + 1 == n * (q + 1) + 0;
      Unique(a + 1, n, q + 1, 0);
    } else {
      assert a + 1 == n * q + (r + 1);
      Unique(a + 1, n, q, r + 1);
    }
  }

  lemma Unique(x: int, m: int, q: int, r: int)
    requires m > 0 && 0 <= r < m && x == m * q + r
    ensures x % m == r
  {
    var d := q - x / m;
    assert m * d == x % m - r;
    MulBound(m, d);
  }

  lemma MulBound(m: int, d: int)
    requires m > 0
    ensures d >= 1 ==> m * d >= m
    ensures d <= -1 ==> m * d <= -m
  {}

  /** A residue moves with its position, for less than a full turn back. */
  lemma ModBack(n: nat, e: nat, k: nat)
    requires n > 0 && k <= e && k <= n
    ensures k < n ==> (e - k) % n == if k <= e % n then e % n - k else e % n + n - k
    ensures (e % n + n - k) % n == (e - k) % n
  {
    var q, r := e / n, e % n;
    assert e == n * q + r;
    if k <= r {
      assert e - k == n * q + (r - k);
      Unique(e - k, n, q, r - k);
      assert r + n - k == n * 1 + (r - k);
      Unique(r + n - k, n, 1, r - k);
    } else {
      assert e - k == n * (q - 1) + (r + n - k);
      Unique(e - k, n, q - 1, r + n - k);
      Unique(r + n - k, n, 0, r + n - k);
    }
  }

  /** `Order` agrees with absolute order on every position in the last full turn. */
  lemma OrderIsAbsolute(n: nat, e: nat, a: nat)
    requires 0 < n <= MAX_SLOTS && a <= e < a + n
    ensures Order(n, e % n, a % n) == e % n + n - (e - a)
  {
    ModBack(n, e, e - a);
  }

  /** Every circular index at or below the end is one of those positions. */
  lemma PositionOfSequence(n: nat, e: nat, s: nat)
    requires 0 < n <= MAX_SLOTS && s < n
    ensures e % n < Order(n, e % n, s) <= e % n + n
    ensures var a := e - (e % n + n - Order(n, e % n, s)); a >= 0 ==> a % n == s
  {
    var a := e - (e % n + n - Order(n, e % n, s));
    if a >= 0 { ModBack(n, e, e - a); }
  }

  /** An unlocked session never lowers the result of a scan, whatever the end is, exactly when the
      ring has at most 2^30 slots. */
  lemma UnlockedIsIgnored(n: nat)
    requires 0 < n < WAIT_BIT
    ensures (forall end: nat :: end < n ==> Order(n, end, Masked(NPOS)) >= Order(n, end, end)) <==> n <= MAX_SLOTS
  {
    assert Masked(NPOS) == WAIT_BIT - 1;
    if n > MAX_SLOTS {
      assert Order(n, n - 1, Masked(NPOS)) < Order(n, n - 1, n - 1);
    }
  }

  // ----- slots

  /** Number of steps from `start` to `end` around the ring. */
  function Distance(n: nat, start: nat, end: nat): nat
    requires start < n && end < n
  {
    if start <= end then end - start else end + n - start
  }

  /** The loop of `pop_some`: the slots afterwards and the elements moved out, in order. */
  function Popped(slots: seq<Option<Elem>>, start: nat, end: nat): (seq<Option<Elem>>, seq<Option<Elem>>)
    requires start < |slots| && end < |slots|
    decreases Distance(|slots|, start, end)
  {
    if start == end then (slots, [])
    else
      var (rest, out) := Popped(slots[start := None], Next(|slots|, start), end);
      (rest, [slots[start]] + out)
  }

  /** The ring holds exactly the elements pushed and not yet popped. */
  ghost predicate Holds(slots: seq<Option<Elem>>, end: nat, size: nat, pushed: seq<Elem>, popped: nat) {
    && 0 < |slots| <= MAX_SLOTS
    && popped <= |pushed| && size == |pushed| - popped < |slots|
    && end == |pushed| % |slots|
    && (forall a :: popped <= a < |pushed| ==> slots[a % |slots|] == Some(pushed[a]))
    && (forall k :: 0 <= k < |slots| && slots[k].Some? ==>
          exists a :: popped <= a < |pushed| && a % |slots| == k)
  }

  /** Positions less than a turn apart have different slots. */
  lemma DistinctSlots(n: nat, a: nat, b: nat)
    requires n > 0 && a < b < a + n
    ensures a % n != b % n
  {
    ModBack(n, b, b - a);
  }

  lemma StartIsPopped(slots: seq<Option<Elem>>, end: nat, size: nat, pushed: seq<Elem>, popped: nat)
    requires Holds(slots, end, size, pushed, popped)
    ensures Start(|slots|, end, size) == popped % |slots|
  {
    ModBack(|slots|, |pushed|, size);
  }

  /** The slot at the end is empty, so a push overwrites nothing. */
  lemma EndIsEmpty(slots: seq<Option<Elem>>, end: nat, size: nat, pushed: seq<Elem>, popped: nat)
    requires Holds(slots, end, size, pushed, popped)
    ensures end < |slots| && slots[end].None?
  {
    forall a | popped <= a < |pushed| ensures a % |slots| != end {
      DistinctSlots(|slots|, a, |pushed|);
    }
  }

  lemma HoldsPush(slots: seq<Option<Elem>>, end: nat, size: nat, pushed: seq<Elem>, popped: nat, e: Elem)
    requires Holds(slots, end, size, pushed, popped) && size + 1 < |slots|
    ensures Holds(slots[end := Some(e)], Next(|slots|, end), size + 1, pushed + [e], popped)
  {
    var n, slots', pushed' := |slots|, slots[end := Some(e)], pushed + [e];
    ModStep(n, |pushed|);
    forall a | popped <= a < |pushed'| ensures slots'[a % n] == Some(pushed'[a]) {
      if a < |pushed| { DistinctSlots(n, a, |pushed|); }
    }
    forall k | 0 <= k < n && slots'[k].Some? ensures exists a :: popped <= a < |pushed'| && a % n == k {
      if k == end {
        assert popped <= |pushed| < |pushed'| && |pushed| % n == k;
      } else {
        var a :| popped <= a < |pushed| && a % n == k;
        assert popped <= a < |pushed'|;
      }
    }
  }

  lemma HoldsPopOne(slots: seq<Option<Elem>>, end: nat, size: nat, pushed: seq<Elem>, popped: nat)
    requires Holds(slots, end, size, pushed, popped) && size > 0
    ensures slots[popped % |slots|] == Some(pushed[popped])
    ensures Holds(slots[popped % |slots| := None], end, size - 1, pushed, popped + 1)
  {
    var n := |slots|;
    var slots' := slots[popped % n := None];
    forall a | popped + 1 <= a < |pushed| ensures slots'[a % n] == Some(pushed[a]) {
      DistinctSlots(n, popped, a);
    }
    forall k | 0 <= k < n && slots'[k].Some? ensures exists a :: popped + 1 <= a < |pushed| && a % n == k {
      var a :| popped <= a < |pushed| && a % n == k;
      assert a != popped;
    }
  }

  function Somes(s: seq<Elem>): seq<Option<Elem>> {
    if s == [] then [] else [Some(s[0])] + Somes(s[1..])
  }

  /** Popping up to absolute position `upto` moves out exactly the oldest elements, in push order. */
  lemma {:induction false} PoppedIsFifo(slots: seq<Option<Elem>>, end: nat, size: nat,
                                        pushed: seq<Elem>, popped: nat, upto: nat)
    requires Holds(slots, end, size, pushed, popped) && popped <= upto <= |pushed|
    ensures var (slots', out) := Popped(slots, popped % |slots|, upto % |slots|);
            Holds(slots', end, |pushed| - upto, pushed, upto) && out == Somes(pushed[popped..upto])
    decreases upto - popped
  {
    var n := |slots|;
    if popped < upto {
      DistinctSlots(n, popped, upto);
      ModStep(n, popped);
      HoldsPopOne(slots, end, size, pushed, popped);
      PoppedIsFifo(slots[popped % n := None], end, size - 1, pushed, popped + 1, upto);
      assert pushed[popped..upto][1..] == pushed[popped + 1..upto];
    }
  }

  /** A scanned sequence is a ring index, or marks an unlocked session. */
  predicate Scannable(n: nat, v: nat) { v < n || v == NPOS || v == WAIT_BIT - 1 }

  /** Folding one more sequence into a scan: the result stays a position in the queue, is not after the
      previous one, and is not after any position that the sequence stands for. */
  lemma LowerIsSafe(n: nat, e: nat, gone: nat, p: nat, v: nat) returns (p': nat)
    requires 0 < n <= MAX_SLOTS && gone <= p <= e < gone + n && Scannable(n, v)
    ensures gone <= p' <= p && LowerOf(n, e % n, gone % n, p % n, v) == p' % n
    ensures forall since: nat :: gone <= since <= e && v == since % n ==> p' <= since
    ensures p' == p || (v < n && p' % n == v)
  {
    OrderIsAbsolute(n, e, gone);
    OrderIsAbsolute(n, e, p);
    p' := p;
    if v < n {
      PositionOfSequence(n, e, v);
      forall since: nat | gone <= since <= e && v == since % n
        ensures Order(n, e % n, v) == e % n + n - (e - since)
      {
        OrderIsAbsolute(n, e, since);
      }
      if LowerOf(n, e % n, gone % n, p % n, v) != p % n {
        p' := e - (e % n + n - Order(n, e % n, v));
      }
    }
  }
}
