/** Turning to another region keeps the layout of the cold file: a free region is cleared, the file is
    extended, or regions are joined. */
module RegionTurn {
  import opened RegionChunks
  import opened RegionState
  import opened RegionSwitch
  import opened RegionTiles
  import opened RegionWalk
  import opened RegionMemory
  import opened RegionUpkeep
  import opened RegionEvacuate
  import R = RegionRuns

  // ----- reuse

  /** An offset in another region is not within the one that is cleared. */
  lemma OtherRegion(x: nat, size: nat, r: nat)
    requires size > 0 && Region(x, size) != r
    ensures !(r * size <= x < r * size + size)
  {
    if r * size <= x < r * size + size { RegionIs(x, size, r); }
  }

  lemma ReuseStart(m: Memory, r: nat, i: nat)
    requires Covered(m) && m.s.size > 0 && r < |m.s.used| && i < |m.s.used|
    ensures i * m.s.size in Clear(m.tiles, r * m.s.size, m.s.size)
  {
    assert StartsAt(m, i);
    if i < r { Gap(m.s.size, i, r); }
    if r < i { Gap(m.s.size, r, i); }
  }

  lemma ReuseCovered(m: Memory, m': Memory, r: nat)
    requires Shape(m.s) && Covered(m) && r < |m.s.used|
    requires m'.s == Reuse(m.s, r) && m'.tiles == Clear(m.tiles, r * m.s.size, m.s.size)
    ensures Covered(m')
  {
    RegionBoundsTiled(m, r);
    ClearTiles(m.tiles, Top(m.s), r * m.s.size, m.s.size);
    forall i: nat | i < |m'.s.used| ensures StartsAt(m', i) { ReuseStart(m, r, i); }
  }

  lemma ReuseRanges(m: Memory, m': Memory, r: nat)
    requires Inv(m.s) && Covered(m) && Ranges(m) && r in m.s.free && r < |m.s.used|
    requires m'.s == Reuse(m.s, r) && m'.tiles == Clear(m.tiles, r * m.s.size, m.s.size)
    ensures Ranges(m')
  {
    ReuseIsSafe(m.s, r);
    forall k | 0 <= k < |m'.s.items| ensures ItemBlank(m', m'.s.items[k]) {
      var t := m.s.items[k];
      assert ItemBlank(m, t) && ItemOk(m.s, t);
      if t.cursor < t.end {
        Within(t.cursor, t.dest, t.end, m.s.size);
        OtherRegion(t.cursor, m.s.size, r);
      }
    }
    forall k, l | 0 <= k < l < |m'.s.items| ensures CursorsApart(m'.s.items[k], m'.s.items[l]) {
      assert CursorsApart(m.s.items[k], m.s.items[l]);
    }
  }

  lemma ReuseWritten(m: Memory, m': Memory, r: nat, off: nat, size: nat)
    requires m.s.size > 0 && !m.s.open && r < |m.s.used| && Written(m, off, size) && Region(off, m.s.size) != r
    requires m'.s == Reuse(m.s, r) && m'.tiles == Clear(m.tiles, r * m.s.size, m.s.size)
    ensures Written(m', off, size)
  {
    OtherRegion(off, m.s.size, r);
    assert off != r * m.s.size;
  }

  lemma ReuseObjects(m: Memory, m': Memory, r: nat)
    requires Inv(m.s) && Objects(m) && Waiting(m) && Reading(m) && !m.s.open && r in m.s.free && r < |m.s.used|
    requires m'.s == Reuse(m.s, r) && m'.tiles == Clear(m.tiles, r * m.s.size, m.s.size) && m'.held == m.held
    ensures Objects(m')
  {
    ReuseIsSafe(m.s, r);
    forall k | 0 <= k < |m'.s.live| ensures Written(m', m'.s.live[k].off, m'.s.live[k].size) {
      ReuseWritten(m, m', r, m.s.live[k].off, m.s.live[k].size);
    }
    forall k | 0 <= k < |m'.s.dead| ensures Written(m', m'.s.dead[k].off, m'.s.dead[k].size) {
      ReuseWritten(m, m', r, m.s.dead[k].off, m.s.dead[k].size);
    }
    forall k | 0 <= k < |m'.held| ensures Written(m', m'.held[k].off, m'.held[k].size) {
      assert HeldQuiet(m, m.held[k]);
      ReuseWritten(m, m', r, m.held[k].off, m.held[k].size);
    }
  }

  /** The bound behind a range in another region stays. */
  lemma ReuseBound(m: Memory, r: nat, lo: nat, x: nat)
    requires Covered(m) && m.s.size > 0 && r < |m.s.used| && lo < x && Bound(m.tiles, Top(m.s), x)
    requires InOneRegion(lo, x, m.s.size) && Region(lo, m.s.size) != r
    ensures Bound(Clear(m.tiles, r * m.s.size, m.s.size), Top(m.s), x)
  {
    OtherRegion(x - 1, m.s.size, r);
  }

  lemma ReuseEdges(m: Memory, m': Memory, r: nat)
    requires Inv(m.s) && Covered(m) && Edges(m) && r in m.s.free && r < |m.s.used|
    requires m'.s == Reuse(m.s, r) && m'.tiles == Clear(m.tiles, r * m.s.size, m.s.size)
    ensures Edges(m')
  {
    ReuseIsSafe(m.s, r);
    forall k | 0 <= k < |m'.s.items|
      ensures m'.s.items[k].src in m'.tiles && Bound(m'.tiles, Top(m'.s), m'.s.items[k].src + m'.s.items[k].len)
    {
      var t := m.s.items[k];
      assert ItemOk(m.s, t) && t.src in m.tiles;
      OtherRegion(t.src, m.s.size, r);
      ReuseBound(m, r, t.src, t.src + t.len);
    }
  }

  /** The pieces of the source are those of another region. */
  lemma ReuseSmall(m: Memory, m': Memory, r: nat)
    requires m.s.size > 0 && m.s.items != [] && ItemOk(m.s, m.s.items[0]) && Region(m.s.items[0].src, m.s.size) != r
             && r < |m.s.used|
    requires m'.s == Reuse(m.s, r) && m'.tiles == Clear(m.tiles, r * m.s.size, m.s.size) && SmallSource(m')
    ensures SmallSource(m)
  {
    var t := m.s.items[0];
    forall y | y in m.tiles && t.src <= y < SourceEnd(m) ensures m.tiles[y] <= FIELD {
      Within(y, t.src, t.src + t.len, m.s.size);
      OtherRegion(y, m.s.size, r);
      assert y in m'.tiles && m'.tiles[y] == m.tiles[y];
    }
  }

  lemma ReuseWalked(m: Memory, m': Memory, r: nat)
    requires Inv(m.s) && Covered(m) && Edges(m) && Walked(m) && r in m.s.free && r < |m.s.used|
    requires m'.s == Reuse(m.s, r) && m'.tiles == Clear(m.tiles, r * m.s.size, m.s.size) && m'.at == m.at
    ensures Walked(m')
  {
    if m.s.items != [] && SmallSource(m') {
      ReuseIsSafe(m.s, r);
      var t := m.s.items[0];
      assert ItemOk(m.s, t) && t.src in m.tiles;
      ReuseSmall(m, m', r);
      if m.at == t.src {
        OtherRegion(t.src, m.s.size, r);
      } else {
        Within(m.at - 1, t.src, t.src + t.len, m.s.size);
        ReuseBound(m, r, t.src, m.at);
      }
    }
  }

  lemma ReuseReading(m: Memory, m': Memory, r: nat)
    requires m.s.size > 0 && Waiting(m) && Reading(m) && r < |m.s.used| && m'.s == Reuse(m.s, r)
    requires m'.grace == m.grace && m'.sessions == m.sessions && m'.clock == m.clock && m'.held == m.held
    ensures Waiting(m') && Reading(m')
  {
    SameReading(m, m');
  }

  lemma ReuseRegionInv(m: Memory, r: nat)
    requires MemInv(m) && Enabled(m, ReuseRegion(r))
    ensures MemInv(Next(m, ReuseRegion(r)))
  {
    var m' := Next(m, ReuseRegion(r));
    ReuseLayout(m, m', r);
    ReuseInv(m.s, r);
    ReuseReading(m, m', r);
  }

  lemma ReuseLayout(m: Memory, m': Memory, r: nat)
    requires Inv(m.s) && Layout(m) && Waiting(m) && Reading(m) && Enabled(m, ReuseRegion(r))
             && m' == Next(m, ReuseRegion(r))
    ensures Layout(m')
  {
    ReuseCovered(m, m', r);
    ReuseRanges(m, m', r);
    ReuseObjects(m, m', r);
    ReuseEdges(m, m', r);
    ReuseWalked(m, m', r);
  }

  // ----- a longer file

  lemma ExtendCovered(m: Memory, m': Memory)
    requires m.s.size > 0 && Covered(m) && m'.s == Extend(m.s) && m'.tiles == Grow(m.tiles, Top(m.s), m.s.size)
    ensures Covered(m')
  {
    var n := |m.s.used|;
    GrowTiles(m.tiles, Top(m.s), m.s.size);
    NextStart(n, m.s.size);
    TimesEven(n, m.s.size);
    forall i: nat | i < |m'.s.used| ensures StartsAt(m', i) { if i < n { assert StartsAt(m, i); } }
  }

  lemma TimesEven(n: nat, size: nat)
    requires size % 8 == 0
    ensures (n * size) % 8 == 0
  {
    var q := size / 8;
    assert n * size == 8 * (n * q);
  }

  lemma ExtendLayout(m: Memory)
    requires m.s.size > 0 && Layout(m) && Enabled(m, ExtendFile)
    ensures Layout(Next(m, ExtendFile))
  {
    var m' := Next(m, ExtendFile);
    NotAtTop(m.tiles, Top(m.s));
    ExtendCovered(m, m');
    forall k | 0 <= k < |m'.s.items|
      ensures ItemBlank(m', m'.s.items[k]) && m'.s.items[k].src in m'.tiles
      ensures Bound(m'.tiles, Top(m'.s), m'.s.items[k].src + m'.s.items[k].len)
    {
      assert ItemBlank(m, m.s.items[k]) && m.s.items[k].src in m.tiles;
    }
    forall k, l | 0 <= k < l < |m'.s.items| ensures CursorsApart(m'.s.items[k], m'.s.items[l]) {
      assert CursorsApart(m.s.items[k], m.s.items[l]);
    }
    ExtendObjects(m, m');
    ExtendWalked(m, m');
  }

  lemma ExtendWritten(m: Memory, m': Memory, off: nat, size: nat)
    requires Tiles(m.tiles, Top(m.s)) && !m.s.open && m'.s == Extend(m.s)
             && m'.tiles == Grow(m.tiles, Top(m.s), m.s.size)
    requires Written(m, off, size)
    ensures Written(m', off, size)
  {
    NotAtTop(m.tiles, Top(m.s));
  }

  lemma ExtendObjects(m: Memory, m': Memory)
    requires Tiles(m.tiles, Top(m.s)) && !m.s.open && m'.s == Extend(m.s)
             && m'.tiles == Grow(m.tiles, Top(m.s), m.s.size)
    requires Objects(m) && m'.held == m.held
    ensures Objects(m')
  {
    forall k | 0 <= k < |m'.s.live| ensures Written(m', m'.s.live[k].off, m'.s.live[k].size) {
      ExtendWritten(m, m', m.s.live[k].off, m.s.live[k].size);
    }
    forall k | 0 <= k < |m'.s.dead| ensures Written(m', m'.s.dead[k].off, m'.s.dead[k].size) {
      ExtendWritten(m, m', m.s.dead[k].off, m.s.dead[k].size);
    }
    forall k | 0 <= k < |m'.held| ensures Written(m', m'.held[k].off, m'.held[k].size) {
      ExtendWritten(m, m', m.held[k].off, m.held[k].size);
    }
  }

  lemma ExtendWalked(m: Memory, m': Memory)
    requires Tiles(m.tiles, Top(m.s)) && m'.s == Extend(m.s) && m'.tiles == Grow(m.tiles, Top(m.s), m.s.size)
    requires Walked(m) && m'.at == m.at
    ensures Walked(m')
  {
    NotAtTop(m.tiles, Top(m.s));
    if m.s.items != [] && SmallSource(m') {
      forall y | y in m.tiles && m.s.items[0].src <= y < SourceEnd(m) ensures m.tiles[y] <= FIELD {
        assert y in m'.tiles && m'.tiles[y] == m.tiles[y];
      }
    }
  }

  lemma ExtendReading(m: Memory, m': Memory)
    requires m.s.size > 0 && Waiting(m) && Reading(m) && m'.s == Extend(m.s)
    requires m'.grace == m.grace && m'.sessions == m.sessions && m'.clock == m.clock && m'.held == m.held
    ensures Waiting(m') && Reading(m')
  {
    forall k | 0 <= k < |m'.held| ensures HeldQuiet(m', m'.held[k]) { assert HeldQuiet(m, m.held[k]); }
  }

  lemma ExtendFileInv(m: Memory)
    requires MemInv(m) && Enabled(m, ExtendFile)
    ensures MemInv(Next(m, ExtendFile))
  {
    ExtendInv(m.s);
    ExtendLayout(m);
    ExtendReading(m, Next(m, ExtendFile));
  }

  // ----- regions of twice the size

  lemma HalfTop(n: nat, size: nat)
    requires n % 2 == 0
    ensures n / 2 * (2 * size) == n * size
  {
    assert n == 2 * (n / 2);
  }

  lemma DoubleCovered(m: Memory, m': Memory)
    requires Covered(m) && CanDouble(m.s) && m'.s == Double(m.s) && m'.tiles == m.tiles
    ensures Covered(m') && Top(m'.s) == Top(m.s)
  {
    HalfTop(|m.s.used|, m.s.size);
    forall i: nat | i < |m'.s.used| ensures StartsAt(m', i) {
      assert StartsAt(m, 2 * i);
      assert i * (2 * m.s.size) == 2 * i * m.s.size;
    }
  }

  lemma DoubleLayout(m: Memory)
    requires Layout(m) && Enabled(m, DoubleRegions)
    ensures Layout(Next(m, DoubleRegions))
  {
    var m' := Next(m, DoubleRegions);
    DoubleCovered(m, m');
    forall k | 0 <= k < |m'.s.items| ensures ItemBlank(m', m'.s.items[k]) { assert ItemBlank(m, m.s.items[k]); }
    forall k, l | 0 <= k < l < |m'.s.items| ensures CursorsApart(m'.s.items[k], m'.s.items[l]) {
      assert CursorsApart(m.s.items[k], m.s.items[l]);
    }
    DoubleObjects(m, m');
  }

  lemma DoubleObjects(m: Memory, m': Memory)
    requires Objects(m) && !m.s.open && m'.s == Double(m.s) && m'.tiles == m.tiles && m'.held == m.held
    ensures Objects(m')
  {
    assert forall x :: Blank(m'.s, x) <==> Blank(m.s, x);
  }

  lemma DoubleReading(m: Memory, m': Memory)
    requires Inv(m.s) && Waiting(m) && Reading(m) && CanDouble(m.s) && m'.s == Double(m.s)
    requires m'.grace == m.grace && m'.sessions == m.sessions && m'.clock == m.clock && m'.held == m.held
    ensures Waiting(m') && Reading(m')
  {
    forall k | 0 <= k < |m'.held| ensures HeldQuiet(m', m'.held[k]) {
      assert HeldQuiet(m, m.held[k]);
      RegionDouble(m.held[k].off, m.s.size);
    }
  }

  lemma DoubleRegionsInv(m: Memory)
    requires MemInv(m) && Enabled(m, DoubleRegions) && DoublingSafe(m.s)
    ensures MemInv(Next(m, DoubleRegions))
  {
    DoubleInv(m.s);
    DoubleLayout(m);
    DoubleReading(m, Next(m, DoubleRegions));
  }
}
