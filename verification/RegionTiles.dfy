/** A file that is covered without gaps: from each offset where something begins, to the next. */
module RegionTiles {
  type TileMap = map<nat, nat>

  predicate Bound(p: TileMap, top: nat, x: nat) { x in p || x == top }

  predicate TileOk(p: TileMap, top: nat, x: nat)
    requires x in p
  {
    p[x] > 0 && x + p[x] <= top && Bound(p, top, x + p[x])
  }

  predicate Before(p: TileMap, x: nat, y: nat)
    requires x in p
  {
    x < y ==> x + p[x] <= y
  }

  /** The pieces cover [0, top), each up to the next. */
  predicate Tiles(p: TileMap, top: nat) {
    && (forall x {:trigger TileOk(p, top, x)} :: x in p ==> TileOk(p, top, x))
    && (forall x, y {:trigger Before(p, x, y)} :: x in p && y in p ==> Before(p, x, y))
    && (top > 0 ==> 0 in p)
  }

  /** Offsets and sizes are multiples of eight. */
  predicate Even(p: TileMap) { forall x {:trigger p[x]} :: x in p ==> x % 8 == 0 && p[x] % 8 == 0 }

  /** What begins at another offset is apart. */
  lemma PiecesApart(p: TileMap, top: nat, x: nat, y: nat)
    requires Tiles(p, top) && x in p && y in p && x != y
    ensures x + p[x] <= y || y + p[y] <= x
  {
    assert Before(p, x, y) && Before(p, y, x);
  }

  /** Nothing begins within a piece, and a piece ends before any bound behind it. */
  lemma PieceEnds(p: TileMap, top: nat, x: nat, y: nat)
    requires Tiles(p, top) && x in p && Bound(p, top, y) && x < y
    ensures x + p[x] <= y
  {
    assert TileOk(p, top, x);
    if y in p { assert Before(p, x, y); }
  }

  lemma NotAtTop(p: TileMap, top: nat)
    requires Tiles(p, top)
    ensures top !in p
  {
    assert top in p ==> TileOk(p, top, top);
  }

  // ----- cutting a piece in two

  /** The first `n` bytes of a piece are taken. */
  function Cut(p: TileMap, x: nat, n: nat): TileMap
    requires x in p
  {
    if 0 < n < p[x] then p[x := n][x + n := p[x] - n] else p
  }

  lemma CutWhole(p: TileMap, x: nat, n: nat)
    requires x in p && 0 < n <= p[x]
    ensures x in Cut(p, x, n) && Cut(p, x, n)[x] == n
    ensures n < p[x] ==> x + n in Cut(p, x, n) && Cut(p, x, n)[x + n] == p[x] - n
  {}

  /** Pieces other than the one that is cut stay as they are. */
  lemma CutKeeps(p: TileMap, top: nat, x: nat, n: nat, y: nat)
    requires Tiles(p, top) && x in p && n <= p[x] && y in p && y != x
    ensures y in Cut(p, x, n) && Cut(p, x, n)[y] == p[y]
  {
    PiecesApart(p, top, x, y);
  }

  lemma CutTile(p: TileMap, top: nat, x: nat, n: nat, y: nat)
    requires Tiles(p, top) && x in p && 0 < n < p[x] && y in Cut(p, x, n)
    ensures TileOk(Cut(p, x, n), top, y)
  {
    assert TileOk(p, top, x);
    if y != x && y != x + n { assert TileOk(p, top, y); CutKeeps(p, top, x, n, y); }
  }

  lemma CutBefore(p: TileMap, top: nat, x: nat, n: nat, y: nat, z: nat)
    requires Tiles(p, top) && x in p && 0 < n < p[x] && y in Cut(p, x, n) && z in Cut(p, x, n)
    ensures Before(Cut(p, x, n), y, z)
  {
    if y != x && y != x + n { CutKeeps(p, top, x, n, y); PiecesApart(p, top, x, y); }
    if z != x && z != x + n { PiecesApart(p, top, x, z); }
    if y != x && y != x + n && z in p { assert Before(p, y, z); }
  }

  lemma CutTiles(p: TileMap, top: nat, x: nat, n: nat)
    requires Tiles(p, top) && x in p && n <= p[x]
    ensures Tiles(Cut(p, x, n), top)
  {
    if 0 < n < p[x] {
      var q := Cut(p, x, n);
      forall y | y in q ensures TileOk(q, top, y) { CutTile(p, top, x, n, y); }
      forall y, z | y in q && z in q ensures Before(q, y, z) { CutBefore(p, top, x, n, y, z); }
    }
  }

  lemma CutEven(p: TileMap, x: nat, n: nat)
    requires Even(p) && x in p && n % 8 == 0
    ensures Even(Cut(p, x, n))
  {}

  // ----- a new piece behind the last

  function Grow(p: TileMap, top: nat, n: nat): TileMap { p[top := n] }

  lemma GrowTiles(p: TileMap, top: nat, n: nat)
    requires Tiles(p, top) && n > 0
    ensures Tiles(Grow(p, top, n), top + n)
  {
    NotAtTop(p, top);
    var q := Grow(p, top, n);
    forall y | y in q ensures TileOk(q, top + n, y) { if y != top { assert TileOk(p, top, y); } }
    forall y, z | y in q && z in q ensures Before(q, y, z) {
      if y != top { assert TileOk(p, top, y); if z != top { assert Before(p, y, z); } }
      if z != top { assert TileOk(p, top, z); }
    }
  }

  // ----- all pieces of a range become one

  function Clear(p: TileMap, lo: nat, n: nat): TileMap {
    (map x | x in p && !(lo <= x < lo + n) :: p[x])[lo := n]
  }

  lemma ClearTile(p: TileMap, top: nat, lo: nat, n: nat, x: nat)
    requires Tiles(p, top) && n > 0 && lo in p && Bound(p, top, lo + n) && x in Clear(p, lo, n)
    ensures TileOk(Clear(p, lo, n), top, x)
  {
    if x != lo {
      assert TileOk(p, top, x);
      if x < lo { PieceEnds(p, top, x, lo); }
    } else if lo + n in p {
      assert TileOk(p, top, lo + n);
    }
  }

  lemma ClearBefore(p: TileMap, top: nat, lo: nat, n: nat, x: nat, y: nat)
    requires Tiles(p, top) && n > 0 && lo in p && Bound(p, top, lo + n) && x in Clear(p, lo, n) && y in Clear(p, lo, n)
    ensures Before(Clear(p, lo, n), x, y)
  {
    if x != lo { assert Before(p, x, y); }
  }

  lemma ClearTiles(p: TileMap, top: nat, lo: nat, n: nat)
    requires Tiles(p, top) && n > 0 && lo in p && Bound(p, top, lo + n)
    ensures Tiles(Clear(p, lo, n), top)
  {
    var q := Clear(p, lo, n);
    forall x | x in q ensures TileOk(q, top, x) { ClearTile(p, top, lo, n, x); }
    forall x, y | x in q && y in q ensures Before(q, x, y) { ClearBefore(p, top, lo, n, x, y); }
  }
}
