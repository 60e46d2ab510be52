/** Positions of the ring allocator: an offset with a bit that flips on every lap stands for a position on an
    unbounded line. The three positions satisfy swap <= alloc <= end <= swap + size. */
module RingPointer {
  import opened RegionWalk

  /** A position: which lap it is in, and the offset within the buffer. */
  datatype Pos = Pos(lap: nat, off: nat)

  function At(p: Pos, size: nat): nat { p.lap * size + p.off }

  /** What the program stores of a position. */
  datatype Ptr = Ptr(off: nat, phase: bool)

  function Stored(p: Pos): Ptr { Ptr(p.off, p.lap % 2 == 1) }

  /** `next`: past an object that ends no later than the buffer does. */
  function Next(p: Ptr, n: nat, size: nat): Ptr {
    if p.off + n == size then Ptr(0, !p.phase) else Ptr(p.off + n, p.phase)
  }

  /** The update of the end of free memory, by any number of bytes up to a lap. */
  function Advance(p: Ptr, n: nat, size: nat): Ptr {
    if p.off + n >= size then Ptr(p.off + n - size, !p.phase) else Ptr(p.off + n, p.phase)
  }

  function AdvancePos(p: Pos, n: nat, size: nat): Pos {
    if p.off + n >= size then Pos(p.lap + 1, p.off + n - size) else Pos(p.lap, p.off + n)
  }

  /** Both updates add to the position on the line. */
  lemma AdvanceAdds(p: Pos, n: nat, size: nat)
    requires p.off < size && n <= size
    ensures var q := AdvancePos(p, n, size);
            q.off < size && At(q, size) == At(p, size) + n && Stored(q) == Advance(Stored(p), n, size)
    ensures p.off + n <= size ==> Next(Stored(p), n, size) == Advance(Stored(p), n, size)
  {
    assert (p.lap + 1) * size == p.lap * size + size;
  }

  /** Delayed updates can run in any order. */
  lemma AdvanceCommutes(p: Pos, m: nat, n: nat, size: nat)
    requires p.off < size && m + n <= size
    ensures Advance(Advance(Stored(p), m, size), n, size) == Advance(Advance(Stored(p), n, size), m, size)
    ensures Advance(Advance(Stored(p), m, size), n, size) == Advance(Stored(p), m + n, size)
  {}

  /** Two positions at most a lap apart: the bits differ exactly when the later one is in the next lap. */
  lemma SameLap(p: Pos, q: Pos, size: nat)
    requires p.off < size && q.off < size && At(p, size) <= At(q, size) <= At(p, size) + size
    ensures if Stored(p).phase == Stored(q).phase then q.lap == p.lap && p.off <= q.off
            else q.lap == p.lap + 1 && q.off <= p.off
  {
    if q.lap < p.lap { Laps(q.lap, p.lap, size); }
    assert (p.lap + 1) * size == p.lap * size + size;
    if q.lap > p.lap + 1 { Laps(p.lap + 1, q.lap, size); }
    assert q.lap == p.lap || q.lap == p.lap + 1;
  }

  lemma Laps(a: nat, b: nat, size: nat)
    requires a < b
    ensures a * size + size <= b * size
  {
    var k: nat := b - a - 1;
    assert (a + 1 + k) * size == a * size + size + k * size;
  }

  /** `potential_free_bytes`: all that is not allocated. */
  function PotentialFree(alloc: Ptr, swap: Ptr, size: nat): int {
    if alloc.phase == swap.phase then swap.off + (size - alloc.off) else swap.off - alloc.off
  }

  lemma PotentialFreeIs(alloc: Pos, swap: Pos, size: nat)
    requires alloc.off < size && swap.off < size && At(swap, size) <= At(alloc, size) <= At(swap, size) + size
    ensures PotentialFree(Stored(alloc), Stored(swap), size) == size - (At(alloc, size) - At(swap, size))
  {
    SameLap(swap, alloc, size);
    assert (swap.lap + 1) * size == swap.lap * size + size;
  }

  // ----- the dummy object at the end of the buffer

  /** The field of its header: 24 bits of what is left behind the header. */
  function DummyField(trailing: nat): nat { (trailing - 8) % FIELD }

  /** How far the header of a dummy object reaches. */
  function DummyLength(trailing: nat): nat { 8 + Capacity(DummyField(trailing)) }

  /** The dummy object ends where the buffer does if and only if the buffer has a multiple of 8 bytes. Otherwise it
      ends behind it. */
  lemma DummyExactly(off: nat, size: nat)
    requires off % 8 == 0 && off < size <= off + FIELD
    ensures DummyLength(size - off) == size - off <==> size % 8 == 0
    ensures size % 8 != 0 ==> off + DummyLength(size - off) > size
  {
    var t := size - off;
    if t >= 8 {
      assert DummyField(t) == t - 8;
    } else {
      assert DummyField(t) == FIELD - 8 + t;
    }
  }

  /** Two positions in a buffer of 35000005 bytes: the dummy object ends 3 bytes behind the buffer, or it is taken
      for one of more than 16 MiB. */
  lemma DummyPasses()
    ensures 34999000 + DummyLength(35000005 - 34999000) == 35000008
    ensures DummyLength(35000005 - 35000000) == FIELD + 8
  {}

  /** An object of `n` bytes does not fit before the end of the buffer, and free memory goes on at its beginning. */
  predicate NeedsDummy(allocP: Ptr, endP: Ptr, size: nat, n: nat) {
    allocP.off + n > size && endP.phase != allocP.phase
  }

  /** The first position from which `n` bytes are contiguous. */
  function Earliest(p: Pos, n: nat, size: nat): nat {
    if p.off + n <= size then At(p, size) else p.lap * size + size
  }

  /** `check_contiguous_free_space`: where the object would go, after a dummy object if it does not fit
      before the end of the buffer. In a buffer of a multiple of 8 bytes it succeeds exactly when there is room; in
      another one the dummy object leads behind the end of the buffer. */
  method CheckContiguous(allocP: Ptr, endP: Ptr, size: nat, n: nat, ghost alloc: Pos, ghost end: Pos)
    returns (ok: bool, allocP': Ptr, ghost alloc': Pos)
    requires ObjectSize(n) && alloc.off % 8 == 0
    requires alloc.off < size && end.off < size && At(alloc, size) <= At(end, size) <= At(alloc, size) + size
    requires allocP == Stored(alloc) && endP == Stored(end)
    ensures size % 8 == 0 || !NeedsDummy(allocP, endP, size, n) ==>
              && allocP' == Stored(alloc') && alloc'.off < size
              && At(alloc, size) <= At(alloc', size) <= At(end, size)
              && (ok ==> At(alloc', size) + n <= At(end, size) && alloc'.off + n <= size)
              && (!ok ==> Earliest(alloc, n, size) + n > At(end, size))
              && alloc' == if NeedsDummy(allocP, endP, size, n) then Pos(alloc.lap + 1, 0) else alloc
    ensures size % 8 != 0 && NeedsDummy(allocP, endP, size, n) ==>
              allocP'.off == alloc.off + DummyLength(size - alloc.off) > size
  {
    SameLap(alloc, end, size);
    assert (alloc.lap + 1) * size == alloc.lap * size + size;
    allocP', alloc' := allocP, alloc;
    var trailing := size - allocP.off;
    if n > trailing {
      if endP.phase != allocP.phase {
        DummyExactly(alloc.off, size);
        AdvanceAdds(alloc, trailing, size);
        allocP', alloc' := Next(allocP, DummyLength(trailing), size), AdvancePos(alloc, trailing, size);
        return endP.off >= n, allocP', alloc';
      }
      return false, allocP, alloc;
    }
    ok := endP.phase != allocP.phase || endP.off >= allocP.off + n;
  }

  /** Ranges on the line that do not overlap, and lie within one lap of each other, do not overlap in the
      buffer either. */
  lemma ApartInBuffer(p: Pos, n: nat, q: Pos, m: nat, size: nat)
    requires p.off + n <= size && q.off + m <= size && p.off < size && q.off < size && 0 < n && 0 < m
    requires At(p, size) + n <= At(q, size) && At(q, size) + m <= At(p, size) + size
    ensures p.off + n <= q.off || q.off + m <= p.off
  {
    if q.lap < p.lap { Laps(q.lap, p.lap, size); }
    assert (p.lap + 1) * size == p.lap * size + size;
    if q.lap > p.lap + 1 { Laps(p.lap + 1, q.lap, size); }
    assert q.lap == p.lap || q.lap == p.lap + 1;
  }
}
