/** The walk of an evacuation over a region, from header to header. */
module RegionWalk {
  import opened RegionTiles

  /** The size field of a header has 24 bits. */
  const FIELD := 0x100_0000

  /** The space that an object with this size takes up after its header. */
  function Capacity(size: nat): (c: nat)
    ensures c % 8 == 0 && c <= FIELD
  {
    (size % FIELD + 7) / 8 * 8
  }

  /** The size of an object with its header. */
  predicate ObjectSize(n: nat) { n % 8 == 0 && 8 <= n <= FIELD }

  /** How far the walk goes from `x`: by the field of the header there, or by whatever the bytes say. */
  function Jump(p: TileMap, junk: nat -> nat, x: nat): (d: nat)
    ensures d % 8 == 0 && d > 0
  {
    8 + Capacity(if x in p then Less(p[x]) else junk(x))
  }

  /** The size that the header of a piece gives. */
  function Less(n: nat): nat { if n < 8 then 0 else n - 8 }

  /** A field says how long its piece is if and only if the piece has at most 2^24 bytes. */
  lemma FieldExactly(n: nat)
    requires n % 8 == 0 && n >= 8
    ensures 8 + Capacity(Less(n)) == n <==> n <= FIELD
    ensures n > FIELD ==> 8 + Capacity(Less(n)) < n
  {
    if n <= FIELD {
      assert (n - 8) % FIELD == n - 8;
    } else {
      Shorter(n);
    }
  }

  lemma Shorter(n: nat)
    requires n % 8 == 0 && n > FIELD
    ensures 8 + Capacity(n - 8) < n
  {
    var m := (n - 8) % FIELD;
    assert m < FIELD;
    if n == FIELD + 8 { assert m == 0; }
  }

  /** Consecutive positions of the walk. */
  ghost predicate Path(p: TileMap, junk: nat -> nat, xs: seq<nat>) {
    forall i :: 0 <= i < |xs| - 1 ==> xs[i + 1] == xs[i] + Jump(p, junk, xs[i])
  }

  /** The walk from `lo` arrives at `hi`, and comes by everything that begins in between. */
  ghost predicate Covers(p: TileMap, junk: nat -> nat, lo: nat, hi: nat) {
    exists xs: seq<nat> ::
      && |xs| > 0 && xs[0] == lo && xs[|xs| - 1] == hi && Path(p, junk, xs)
      && forall x :: x in p && lo <= x < hi ==> x in xs
  }

  /** Whatever the bytes are that are not headers. */
  ghost predicate Sure(p: TileMap, lo: nat, hi: nat) { forall junk: nat -> nat :: Covers(p, junk, lo, hi) }

  predicate Small(p: TileMap, lo: nat, hi: nat) { forall x :: x in p && lo <= x < hi ==> p[x] <= FIELD }

  // ----- small pieces are all visited

  /** The offsets from `lo` on. */
  function Offsets(p: TileMap, top: nat, lo: nat, hi: nat): (xs: seq<nat>)
    requires Tiles(p, top) && lo <= hi <= top && Bound(p, top, lo) && Bound(p, top, hi)
    ensures |xs| > 0 && xs[0] == lo && xs[|xs| - 1] == hi
    decreases hi - lo
  {
    if lo == hi then [lo]
    else
      assert TileOk(p, top, lo);
      PieceEnds(p, top, lo, hi);
      [lo] + Offsets(p, top, lo + p[lo], hi)
  }

  lemma {:induction false} OffsetsAll(p: TileMap, top: nat, lo: nat, hi: nat, x: nat)
    requires Tiles(p, top) && lo <= hi <= top && Bound(p, top, lo) && Bound(p, top, hi) && x in p && lo <= x < hi
    ensures x in Offsets(p, top, lo, hi)
    decreases hi - lo
  {
    assert TileOk(p, top, lo);
    PieceEnds(p, top, lo, hi);
    if x != lo { PieceEnds(p, top, lo, x); OffsetsAll(p, top, lo + p[lo], hi, x); }
  }

  lemma {:induction false} OffsetsPath(p: TileMap, top: nat, junk: nat -> nat, lo: nat, hi: nat)
    requires Tiles(p, top) && Even(p) && lo <= hi <= top && Bound(p, top, lo) && Bound(p, top, hi) && Small(p, lo, hi)
    ensures Path(p, junk, Offsets(p, top, lo, hi))
    decreases hi - lo
  {
    if lo < hi {
      assert TileOk(p, top, lo);
      PieceEnds(p, top, lo, hi);
      var rest := Offsets(p, top, lo + p[lo], hi);
      OffsetsPath(p, top, junk, lo + p[lo], hi);
      FieldExactly(p[lo]);
      var xs := [lo] + rest;
      forall i | 0 <= i < |xs| - 1 ensures xs[i + 1] == xs[i] + Jump(p, junk, xs[i]) {
        if i > 0 { assert rest[i - 1 + 1] == rest[i - 1] + Jump(p, junk, rest[i - 1]); }
      }
    }
  }

  // ----- a large piece can lead astray

  /** Bytes that lead past the end of the piece at `x`: eight at a time, and over its last header. */
  function Astray(end: nat): nat -> nat { z => if z + 8 == end then 8 else 0 }

  /** Where the walk can be: up to the large piece, in it, or beyond the offset behind it. */
  predicate Possible(p: TileMap, x: nat, z: nat)
    requires x in p
  {
    (z in p && z <= x) || (x < z < x + p[x] && (z - x) % 8 == 0) || z > x + p[x]
  }

  lemma PossibleNext(p: TileMap, top: nat, lo: nat, x: nat, z: nat)
    requires Tiles(p, top) && Even(p) && x in p && p[x] > FIELD && lo <= z && Possible(p, x, z)
    requires forall y :: y in p && lo <= y < x ==> p[y] <= FIELD
    ensures Possible(p, x, z + Jump(p, Astray(x + p[x]), z))
  {
    assert TileOk(p, top, x);
    if z in p && z < x {
      assert TileOk(p, top, z);
      PieceEnds(p, top, z, x);
      FieldExactly(p[z]);
    } else if z == x {
      FieldExactly(p[x]);
    } else if z in p && z < x + p[x] {
      PieceEnds(p, top, x, z);
    }
  }

  lemma {:induction false} NeverThere(p: TileMap, top: nat, lo: nat, x: nat, xs: seq<nat>, i: nat)
    requires Tiles(p, top) && Even(p) && lo in p && x in p && lo <= x && p[x] > FIELD
    requires forall y :: y in p && lo <= y < x ==> p[y] <= FIELD
    requires |xs| > 0 && xs[0] == lo && Path(p, Astray(x + p[x]), xs) && i < |xs|
    ensures Possible(p, x, xs[i]) && lo <= xs[i]
    decreases i
  {
    if i > 0 {
      NeverThere(p, top, lo, x, xs, i - 1);
      PossibleNext(p, top, lo, x, xs[i - 1]);
      assert xs[i - 1 + 1] == xs[i - 1] + Jump(p, Astray(x + p[x]), xs[i - 1]);
    }
  }

  lemma NotCovered(p: TileMap, top: nat, lo: nat, hi: nat, x: nat)
    requires Tiles(p, top) && Even(p) && lo in p && Bound(p, top, hi) && hi <= top && x in p && lo <= x < hi
             && p[x] > FIELD
    requires forall y :: y in p && lo <= y < x ==> p[y] <= FIELD
    ensures !Covers(p, Astray(x + p[x]), lo, hi)
  {
    var end := x + p[x];
    assert TileOk(p, top, x);
    PieceEnds(p, top, x, hi);
    if Covers(p, Astray(end), lo, hi) {
      var xs: seq<nat> :| && |xs| > 0 && xs[0] == lo && xs[|xs| - 1] == hi && Path(p, Astray(end), xs)
                          && forall y :: y in p && lo <= y < hi ==> y in xs;
      assert end in xs by { if end == hi { assert xs[|xs| - 1] == end; } }
      var i :| 0 <= i < |xs| && xs[i] == end;
      NeverThere(p, top, lo, x, xs, i);
    }
  }

  lemma {:induction false} FirstLarge(p: TileMap, lo: nat, hi: nat, x: nat) returns (first: nat)
    requires x in p && lo <= x < hi && p[x] > FIELD
    ensures first in p && lo <= first < hi && p[first] > FIELD
    ensures forall y :: y in p && lo <= y < first ==> p[y] <= FIELD
    decreases x
  {
    if y :| y in p && lo <= y < x && p[y] > FIELD {
      first := FirstLarge(p, lo, hi, y);
    } else {
      first := x;
    }
  }

  /** The walk comes by everything, whatever the bytes between headers are, if and only if nothing in the
      range is larger than 2^24 bytes. */
  lemma WalkExactly(p: TileMap, top: nat, lo: nat, hi: nat)
    requires Tiles(p, top) && Even(p) && lo in p && lo <= hi <= top && Bound(p, top, hi)
    ensures Sure(p, lo, hi) <==> Small(p, lo, hi)
  {
    if Small(p, lo, hi) {
      forall junk: nat -> nat ensures Covers(p, junk, lo, hi) {
        OffsetsPath(p, top, junk, lo, hi);
        forall x | x in p && lo <= x < hi ensures x in Offsets(p, top, lo, hi) { OffsetsAll(p, top, lo, hi, x); }
      }
    } else {
      var x :| x in p && lo <= x < hi && p[x] > FIELD;
      var first := FirstLarge(p, lo, hi, x);
      NotCovered(p, top, lo, hi, first);
    }
  }

  /** A walk over small pieces that goes on to the end or beyond stops at the end, and comes by everything. */
  lemma {:induction false} SmallWalk(p: TileMap, top: nat, junk: nat -> nat, lo: nat, hi: nat, xs: seq<nat>)
    requires Tiles(p, top) && Even(p) && lo <= hi <= top && Bound(p, top, lo) && Bound(p, top, hi) && Small(p, lo, hi)
    requires |xs| > 0 && xs[0] == lo && Path(p, junk, xs) && xs[|xs| - 1] >= hi
             && forall i :: 0 <= i < |xs| - 1 ==> xs[i] < hi
    ensures xs == Offsets(p, top, lo, hi)
    decreases hi - lo
  {
    if lo < hi {
      assert TileOk(p, top, lo);
      PieceEnds(p, top, lo, hi);
      FieldExactly(p[lo]);
      assert |xs| > 1 && xs[0 + 1] == xs[0] + Jump(p, junk, xs[0]);
      var rest := xs[1..];
      forall i | 0 <= i < |rest| - 1 ensures rest[i + 1] == rest[i] + Jump(p, junk, rest[i]) {
        assert xs[i + 1 + 1] == xs[i + 1] + Jump(p, junk, xs[i + 1]);
      }
      SmallWalk(p, top, junk, lo + p[lo], hi, rest);
      assert xs == [lo] + rest;
    }
  }
}
