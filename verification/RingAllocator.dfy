/** The ring allocator with the pointers that it stores and the headers of its objects, updated in place. */
module RingAllocator {
  import opened Leb128
  import opened RegionWalk
  import opened RingPointer

  // ----- the objects of the allocated memory, from header to header

  function Sum(sizes: seq<nat>): nat { if sizes == [] then 0 else sizes[0] + Sum(sizes[1..]) }

  lemma {:induction false} SumSnoc(sizes: seq<nat>, n: nat)
    ensures Sum(sizes + [n]) == Sum(sizes) + n
  {
    if sizes == [] {
      assert sizes + [n] == [n] && Sum([]) == 0;
    } else {
      SumSnoc(sizes[1..], n);
      assert (sizes + [n])[1..] == sizes[1..] + [n];
    }
  }

  function Length(field: nat): (n: nat)
    ensures n % 8 == 0 && n >= 8
  {
    8 + Capacity(field)
  }

  function Sub(a: nat, b: nat): nat { if a < b then 0 else a - b }

  /** From `p` on there are objects of these sizes, as their headers say. None lies across the end of the buffer. */
  predicate Row(heads: map<nat, nat>, p: Pos, sizes: seq<nat>, size: nat)
    decreases |sizes|
  {
    sizes == []
    || (&& p.off in heads && Length(heads[p.off]) == sizes[0] && p.off + sizes[0] <= size
        && Row(heads, AdvancePos(p, sizes[0], size), sizes[1..], size))
  }

  /** The row ends at `q`; a header written there belongs to none of its objects. */
  lemma {:induction false} RowSnoc(heads: map<nat, nat>, p: Pos, sizes: seq<nat>, q: Pos, field: nat, size: nat)
    requires Row(heads, p, sizes, size) && p.off < size && q.off < size && At(q, size) == At(p, size) + Sum(sizes)
    requires Sum(sizes) < size && q.off + Length(field) <= size
    ensures Row(heads[q.off := field], p, sizes + [Length(field)], size)
    decreases |sizes|
  {
    SameLap(p, q, size);
    if sizes == [] {
      assert p == q && sizes + [Length(field)] == [Length(field)];
    } else {
      var n, rest := sizes[0], sizes[1..];
      AdvanceAdds(p, n, size);
      RowSnoc(heads, AdvancePos(p, n, size), rest, q, field, size);
      assert (sizes + [Length(field)])[1..] == rest + [Length(field)];
      if p.off == q.off { SameOffset(p, q, size); }
    }
  }

  lemma SameOffset(p: Pos, q: Pos, size: nat)
    requires p.off == q.off < size && At(p, size) <= At(q, size) < At(p, size) + size
    ensures p == q
  {
    SameLap(p, q, size);
  }

  /** A header is written at the end of the row. */
  lemma RowGrows(heads: map<nat, nat>, swap: Pos, row: seq<nat>, alloc: Pos, field: nat, size: nat)
    requires Row(heads, swap, row, size) && swap.off < size && alloc.off < size && alloc.off % 8 == 0
    requires At(swap, size) + Sum(row) == At(alloc, size) && alloc.off + Length(field) <= size
             && At(alloc, size) + Length(field) <= At(swap, size) + size
    ensures var n, q := Length(field), AdvancePos(alloc, Length(field), size);
            && Row(heads[alloc.off := field], swap, row + [n], size) && Sum(row + [n]) == Sum(row) + n
            && q.off < size && q.off % 8 == 0 && At(q, size) == At(alloc, size) + n
            && Stored(q) == Next(Stored(alloc), n, size)
  {
    AdvanceAdds(alloc, Length(field), size);
    StaysEven(alloc, Length(field), size);
    RowSnoc(heads, swap, row, alloc, field, size);
    SumSnoc(row, Length(field));
  }

  lemma StaysEven(p: Pos, n: nat, size: nat)
    requires p.off % 8 == 0 && n % 8 == 0 && p.off + n <= size
    ensures AdvancePos(p, n, size).off % 8 == 0
  {}

  /** Where an object goes, with a dummy object before it or without. */
  function Begins(alloc: Pos, pad: bool): Pos { if pad then Pos(alloc.lap + 1, 0) else alloc }

  class Ring {
    const size: nat
    var allocP: Ptr
    var swapP: Ptr
    var endFreeP: Ptr
    /** The fields of the headers, by offset. */
    var heads: map<nat, nat>
    ghost var alloc: Pos
    ghost var swap: Pos
    ghost var end: Pos
    ghost var outstanding: nat
    /** The sizes of the objects from `swap` to `alloc`. */
    ghost var row: seq<nat>

    /** The order of the positions; what was swapped out and not freed yet separates free memory from
        the allocated memory behind it. */
    ghost predicate Valid()
      reads this
    {
      && size > 0 && alloc.off < size && swap.off < size && end.off < size && alloc.off % 8 == 0
      && allocP == Stored(alloc) && swapP == Stored(swap) && endFreeP == Stored(end)
      && At(swap, size) + Sum(row) == At(alloc, size) <= At(end, size)
      && At(end, size) + outstanding == At(swap, size) + size
      && Row(heads, swap, row, size)
    }

    constructor (size: nat)
      requires size > 0
      ensures Valid() && this.size == size && outstanding == 0 && At(alloc, size) == 0 && row == []
    {
      this.size := size;
      allocP, swapP, endFreeP, heads := Ptr(0, false), Ptr(0, false), Ptr(0, true), map[];
      alloc, swap, end, outstanding, row := Pos(0, 0), Pos(0, 0), Pos(1, 0), 0, [];
    }

    /** A delayed update: free memory grows by what was swapped out, in whatever order the updates run. */
    method UpdateFree(bytes: nat)
      requires Valid() && bytes <= outstanding
      modifies `endFreeP, `end, `outstanding
      ensures Valid() && At(end, size) == old(At(end, size)) + bytes && outstanding == old(outstanding) - bytes
    {
      AdvanceAdds(end, bytes, size);
      var off, phase := endFreeP.off + bytes, endFreeP.phase;
      if off >= size {
        off, phase := off - size, !phase;
      }
      endFreeP := Ptr(off, phase);
      end, outstanding := AdvancePos(end, bytes, size), outstanding - bytes;
    }

    /** An object of this length can be written at `alloc`. */
    ghost predicate Room(n: nat)
      reads this
    {
      Valid() && alloc.off + n <= size && At(alloc, size) + n <= At(end, size)
    }

    /** `allocate_impl`: the header is written, and `alloc_p` moves past the object. */
    method WriteObject(field: nat)
      modifies `allocP, `alloc, `heads, `row
      ensures allocP == Next(old(allocP), Length(field), size)
      ensures old(Room(Length(field))) ==>
                Valid() && row == old(row) + [Length(field)] && alloc == AdvancePos(old(alloc), Length(field), size)
    {
      var n := Length(field);
      if Room(n) { RowGrows(heads, swap, row, alloc, field, size); }
      heads := heads[allocP.off := field];
      allocP := Next(allocP, n, size);
      alloc, row := AdvancePos(alloc, n, size), row + [n];
    }

    /** The memory that is left at the end of the buffer becomes a dummy object. */
    method PadEnd(n: nat)
      requires Valid() && ObjectSize(n) && NeedsDummy(allocP, endFreeP, size, n)
      modifies `allocP, `alloc, `heads, `row
      ensures size % 8 == 0 ==>
                && Valid() && alloc == Pos(old(alloc).lap + 1, 0) && row == old(row) + [size - old(alloc).off]
                && old(At(alloc, size)) <= At(alloc, size) == old(alloc).lap * size + size
      ensures size % 8 != 0 ==> allocP.off > size
    {
      DummyExactly(alloc.off, size);
      SameLap(alloc, end, size);
      AdvanceAdds(alloc, size - alloc.off, size);
      WriteObject(DummyField(size - allocP.off));
    }

    /** On success the object occupies contiguous free memory; a refusal may still have put a dummy object
        at the end of the buffer. In a buffer that has not a multiple of 8 bytes, a dummy object leads `alloc_p`
        behind the end. */
    method TryAllocate(field: nat) returns (off: Option<nat>)
      requires Valid() && ObjectSize(Length(field))
      modifies `allocP, `alloc, `heads, `row
      ensures var n, pad := Length(field), NeedsDummy(old(allocP), endFreeP, size, Length(field));
              if size % 8 != 0 && pad then allocP.off > size
              else
                var start, row1 := Begins(old(alloc), pad), if pad then old(row) + [Sub(size, old(alloc).off)]
                                                            else old(row);
                && Valid()
                && (off.Some? ==>
                    && off.value == start.off && start.off + n <= size && At(start, size) + n <= At(end, size)
                    && alloc == AdvancePos(start, n, size) && row == row1 + [n])
                && (off.None? ==> alloc == start && row == row1 && Earliest(old(alloc), n, size) + n > At(end, size))
    {
      var n := Length(field);
      var ok, next, at := CheckContiguous(allocP, endFreeP, size, n, alloc, end);
      if NeedsDummy(allocP, endFreeP, size, n) { PadEnd(n); }
      if !ok { return None; }
      off := Some(allocP.off);
      WriteObject(field);
    }

    /** `swap`: walks from header to header from `swap_p` on until enough would be free, or an object cannot be moved.
        `moved` tells of each object whether it was moved or is dead. */
    method Swap(target: nat, moved: seq<bool>) returns (freed: nat, visited: nat)
      requires Valid() && target <= size && |moved| == |row|
      modifies `swapP, `swap, `outstanding, `row
      ensures Valid() && visited <= |old(row)| && row == old(row)[visited..]
      ensures forall i :: 0 <= i < visited ==> moved[i]
      ensures At(swap, size) == old(At(swap, size)) + freed && outstanding == old(outstanding) + freed
      ensures visited < |old(row)| && freed + (size - (At(alloc, size) - old(At(swap, size)))) < target ==>
              !moved[visited]
    {
      PotentialFreeIs(alloc, swap, size);
      var free := PotentialFree(allocP, swapP, size);
      freed, visited := 0, 0;
      while freed + free < target
        invariant Valid() && visited <= |old(row)| && row == old(row)[visited..]
        invariant forall i :: 0 <= i < visited ==> moved[i]
        invariant At(swap, size) == old(At(swap, size)) + freed && outstanding == old(outstanding) + freed
        invariant alloc == old(alloc)
        decreases |old(row)| - visited
      {
        assert row != [];
        var n := Length(heads[swapP.off]);
        if !moved[visited] { break; }
        AdvanceAdds(swap, n, size);
        swapP := Next(swapP, n, size);
        swap, row := AdvancePos(swap, n, size), row[1..];
        freed, outstanding, visited := freed + n, outstanding + n, visited + 1;
      }
    }
  }
}
