/**
 What mining a chunk means: the cells whose hash is below a threshold, listed column by
 column (the CPU's loops) or row by row (the order of the device buffer).  The hash is a
 parameter; every statement here holds for any hash function.
 */
module Planets {

  type Hasher = (int, int) -> nat

  datatype Planet = Planet(x: int, y: int, hash: nat)

  /** The square of cells with the given bottom-left corner. */
  datatype Chunk = Chunk(x: int, y: int, side: nat)

  predicate Inside(c: Chunk, x: int, y: int) {
    c.x <= x < c.x + c.side && c.y <= y < c.y + c.side
  }

  predicate IsHit(h: Hasher, t: nat, p: Planet) {
    p.hash == h(p.x, p.y) && p.hash < t
  }

  function Hit(h: Hasher, t: nat, x: int, y: int): seq<Planet> {
    if h(x, y) < t then [Planet(x, y, h(x, y))] else []
  }

  // ---------- column by column ----------

  function Column(h: Hasher, t: nat, x: int, y0: int, n: nat): seq<Planet> {
    if n == 0 then [] else Column(h, t, x, y0, n - 1) + Hit(h, t, x, y0 + n - 1)
  }

  function Columns(h: Hasher, t: nat, c: Chunk, n: nat): seq<Planet> {
    if n == 0 then [] else Columns(h, t, c, n - 1) + Column(h, t, c.x + n - 1, c.y, c.side)
  }

  function ByColumns(h: Hasher, t: nat, c: Chunk): seq<Planet> {
    Columns(h, t, c, c.side)
  }

  // ---------- row by row ----------

  function Row(h: Hasher, t: nat, x0: int, y: int, n: nat): seq<Planet> {
    if n == 0 then [] else Row(h, t, x0, y, n - 1) + Hit(h, t, x0 + n - 1, y)
  }

  function Rows(h: Hasher, t: nat, c: Chunk, n: nat): seq<Planet> {
    if n == 0 then [] else Rows(h, t, c, n - 1) + Row(h, t, c.x, c.y + n - 1, c.side)
  }

  function ByRows(h: Hasher, t: nat, c: Chunk): seq<Planet> {
    Rows(h, t, c, c.side)
  }

  // ---------- exactly the hits, each once ----------

  /** How often a planet is listed. */
  function Count(s: seq<Planet>, p: Planet): nat {
    if s == [] then 0 else Count(s[..|s| - 1], p) + (if s[|s| - 1] == p then 1 else 0)
  }

  lemma CountEmpty(p: Planet)
    ensures Count([], p) == 0
  {
  }

  lemma {:induction false} CountIsMultiplicity(s: seq<Planet>, p: Planet)
    ensures Count(s, p) == multiset(s)[p]
  {
    if s != [] {
      CountIsMultiplicity(s[..|s| - 1], p);
      assert s == s[..|s| - 1] + [s[|s| - 1]];
    }
  }

  lemma {:induction false} CountConcat(a: seq<Planet>, b: seq<Planet>, p: Planet)
    ensures Count(a + b, p) == Count(a, p) + Count(b, p)
  {
    if b == [] {
      assert a + b == a;
    } else {
      assert (a + b)[..|a + b| - 1] == a + b[..|b| - 1];
      CountConcat(a, b[..|b| - 1], p);
    }
  }

  lemma CountHit(h: Hasher, t: nat, x: int, y: int, p: Planet)
    ensures Count(Hit(h, t, x, y), p) == if p.x == x && p.y == y && IsHit(h, t, p) then 1 else 0
  {
  }

  /** Equal counts are equal multisets. */
  lemma EqualCounts(a: seq<Planet>, b: seq<Planet>)
    requires forall p :: Count(a, p) == Count(b, p)
    ensures multiset(a) == multiset(b)
  {
    forall p: Planet
      ensures multiset(a)[p] == multiset(b)[p]
    {
      CountIsMultiplicity(a, p);
      CountIsMultiplicity(b, p);
    }
  }

  lemma {:induction false} ColumnCount(h: Hasher, t: nat, x: int, y0: int, n: nat, p: Planet)
    ensures Count(Column(h, t, x, y0, n), p)
         == if p.x == x && y0 <= p.y < y0 + n && IsHit(h, t, p) then 1 else 0
  {
    hide Count, Hit;
    if n == 0 {
      CountEmpty(p);
    } else {
      ColumnCount(h, t, x, y0, n - 1, p);
      CountHit(h, t, x, y0 + n - 1, p);
      CountConcat(Column(h, t, x, y0, n - 1), Hit(h, t, x, y0 + n - 1), p);
    }
  }

  lemma {:induction false} ColumnsCount(h: Hasher, t: nat, c: Chunk, n: nat, p: Planet)
    ensures Count(Columns(h, t, c, n), p)
         == if c.x <= p.x < c.x + n && c.y <= p.y < c.y + c.side && IsHit(h, t, p) then 1 else 0
  {
    hide Count, Column;
    if n == 0 {
      CountEmpty(p);
    } else {
      ColumnsCount(h, t, c, n - 1, p);
      ColumnCount(h, t, c.x + n - 1, c.y, c.side, p);
      CountConcat(Columns(h, t, c, n - 1), Column(h, t, c.x + n - 1, c.y, c.side), p);
    }
  }

  /** Sound, complete and free of duplicates: every hit of the chunk once, nothing else. */
  lemma ByColumnsCount(h: Hasher, t: nat, c: Chunk, p: Planet)
    ensures Count(ByColumns(h, t, c), p)
         == if Inside(c, p.x, p.y) && IsHit(h, t, p) then 1 else 0
  {
    ColumnsCount(h, t, c, c.side, p);
  }

  lemma {:induction false} RowCount(h: Hasher, t: nat, x0: int, y: int, n: nat, p: Planet)
    ensures Count(Row(h, t, x0, y, n), p)
         == if p.y == y && x0 <= p.x < x0 + n && IsHit(h, t, p) then 1 else 0
  {
    hide Count, Hit;
    if n == 0 {
      CountEmpty(p);
    } else {
      RowCount(h, t, x0, y, n - 1, p);
      CountHit(h, t, x0 + n - 1, y, p);
      CountConcat(Row(h, t, x0, y, n - 1), Hit(h, t, x0 + n - 1, y), p);
    }
  }

  lemma {:induction false} RowsCount(h: Hasher, t: nat, c: Chunk, n: nat, p: Planet)
    ensures Count(Rows(h, t, c, n), p)
         == if c.y <= p.y < c.y + n && c.x <= p.x < c.x + c.side && IsHit(h, t, p) then 1 else 0
  {
    hide Count, Row;
    if n == 0 {
      CountEmpty(p);
    } else {
      RowsCount(h, t, c, n - 1, p);
      RowCount(h, t, c.x, c.y + n - 1, c.side, p);
      CountConcat(Rows(h, t, c, n - 1), Row(h, t, c.x, c.y + n - 1, c.side), p);
    }
  }

  lemma ByRowsCount(h: Hasher, t: nat, c: Chunk, p: Planet)
    ensures Count(ByRows(h, t, c), p)
         == if Inside(c, p.x, p.y) && IsHit(h, t, p) then 1 else 0
  {
    RowsCount(h, t, c, c.side, p);
  }

  /** Rows first or columns first, the planets are the same. */
  lemma OrdersAgree(h: Hasher, t: nat, c: Chunk)
    ensures multiset(ByRows(h, t, c)) == multiset(ByColumns(h, t, c))
  {
    forall p
      ensures Count(ByRows(h, t, c), p) == Count(ByColumns(h, t, c), p)
    {
      ByRowsCount(h, t, c, p);
      ByColumnsCount(h, t, c, p);
    }
    EqualCounts(ByRows(h, t, c), ByColumns(h, t, c));
  }

  // ---------- order ----------

  predicate Before(p: Planet, q: Planet) {
    p.y < q.y || (p.y == q.y && p.x < q.x)
  }

  /** Strictly increasing in (y, x). */
  ghost predicate RowMajor(s: seq<Planet>) {
    forall i, j | 0 <= i < j < |s| :: Before(s[i], s[j])
  }

  lemma {:induction false} RowIsOrdered(h: Hasher, t: nat, x0: int, y: int, n: nat)
    ensures RowMajor(Row(h, t, x0, y, n))
    ensures forall p | p in Row(h, t, x0, y, n) :: p.y == y && p.x < x0 + n
  {
    if n > 0 {
      RowIsOrdered(h, t, x0, y, n - 1);
    }
  }

  lemma {:induction false} RowsAreOrdered(h: Hasher, t: nat, c: Chunk, n: nat)
    ensures RowMajor(Rows(h, t, c, n))
    ensures forall p | p in Rows(h, t, c, n) :: p.y < c.y + n
  {
    if n > 0 {
      RowsAreOrdered(h, t, c, n - 1);
      RowIsOrdered(h, t, c.x, c.y + n - 1, c.side);
      var front: seq<Planet>, last: seq<Planet> :=
        Rows(h, t, c, n - 1), Row(h, t, c.x, c.y + n - 1, c.side);
      var all: seq<Planet> := front + last;
      forall i, j | 0 <= i < j < |all|
        ensures Before(all[i], all[j])
      {
        if i < |front| <= j {
          assert front[i] in front && last[j - |front|] in last;
        }
      }
    }
  }

  predicate BeforeByColumns(p: Planet, q: Planet) {
    p.x < q.x || (p.x == q.x && p.y < q.y)
  }

  /** Strictly increasing in (x, y). */
  ghost predicate ColumnMajor(s: seq<Planet>) {
    forall i, j | 0 <= i < j < |s| :: BeforeByColumns(s[i], s[j])
  }

  lemma {:induction false} ColumnIsOrdered(h: Hasher, t: nat, x: int, y0: int, n: nat)
    ensures ColumnMajor(Column(h, t, x, y0, n))
    ensures forall p | p in Column(h, t, x, y0, n) :: p.x == x && p.y < y0 + n
  {
    if n > 0 {
      ColumnIsOrdered(h, t, x, y0, n - 1);
    }
  }

  lemma {:induction false} ColumnsAreOrdered(h: Hasher, t: nat, c: Chunk, n: nat)
    ensures ColumnMajor(Columns(h, t, c, n))
    ensures forall p | p in Columns(h, t, c, n) :: p.x < c.x + n
  {
    if n > 0 {
      ColumnsAreOrdered(h, t, c, n - 1);
      ColumnIsOrdered(h, t, c.x + n - 1, c.y, c.side);
      var front: seq<Planet>, last: seq<Planet> :=
        Columns(h, t, c, n - 1), Column(h, t, c.x + n - 1, c.y, c.side);
      var all: seq<Planet> := front + last;
      forall i, j | 0 <= i < j < |all|
        ensures BeforeByColumns(all[i], all[j])
      {
        if i < |front| <= j {
          assert front[i] in front && last[j - |front|] in last;
        }
      }
    }
  }

  // ---------- tiling and rarity ----------

  /** How many of the chunks contain the cell. */
  function Cover(tiles: seq<Chunk>, x: int, y: int): nat {
    if tiles == [] then 0
    else Cover(tiles[..|tiles| - 1], x, y) + (if Inside(tiles[|tiles| - 1], x, y) then 1 else 0)
  }

  /** Mining one chunk after another into one list. */
  function MineAll(h: Hasher, t: nat, tiles: seq<Chunk>): seq<Planet> {
    if tiles == [] then []
    else MineAll(h, t, tiles[..|tiles| - 1]) + ByColumns(h, t, tiles[|tiles| - 1])
  }

  lemma {:induction false} MineAllCount(h: Hasher, t: nat, tiles: seq<Chunk>, p: Planet)
    ensures Count(MineAll(h, t, tiles), p)
         == if IsHit(h, t, p) then Cover(tiles, p.x, p.y) else 0
  {
    hide Count, ByColumns;
    if tiles == [] {
      CountEmpty(p);
    } else {
      MineAllCount(h, t, tiles[..|tiles| - 1], p);
      ByColumnsCount(h, t, tiles[|tiles| - 1], p);
      CountConcat(MineAll(h, t, tiles[..|tiles| - 1]), ByColumns(h, t, tiles[|tiles| - 1]), p);
    }
  }

  /** Two families of chunks that cover every cell equally often yield the same planets. */
  lemma EqualCoverEqualPlanets(h: Hasher, t: nat, tiles: seq<Chunk>, others: seq<Chunk>)
    requires forall x, y :: Cover(tiles, x, y) == Cover(others, x, y)
    ensures multiset(MineAll(h, t, tiles)) == multiset(MineAll(h, t, others))
  {
    forall p
      ensures Count(MineAll(h, t, tiles), p) == Count(MineAll(h, t, others), p)
    {
      MineAllCount(h, t, tiles, p);
      MineAllCount(h, t, others, p);
    }
    EqualCounts(MineAll(h, t, tiles), MineAll(h, t, others));
  }

  /** Mining any partition of a chunk into chunks yields the chunk's planets. */
  lemma PartitionYieldsChunk(h: Hasher, t: nat, tiles: seq<Chunk>, c: Chunk)
    requires forall x, y :: Cover(tiles, x, y) == if Inside(c, x, y) then 1 else 0
    ensures multiset(MineAll(h, t, tiles)) == multiset(ByColumns(h, t, c))
  {
    assert [c][..0] == [];
    assert MineAll(h, t, [c]) == MineAll(h, t, []) + ByColumns(h, t, c) == ByColumns(h, t, c);
    forall x, y
      ensures Cover(tiles, x, y) == Cover([c], x, y)
    {
      assert Cover([c], x, y) == Cover([], x, y) + (if Inside(c, x, y) then 1 else 0);
    }
    EqualCoverEqualPlanets(h, t, tiles, [c]);
  }

  function Quadrants(x: int, y: int, m: nat): seq<Chunk> {
    [Chunk(x, y, m), Chunk(x + m, y, m), Chunk(x, y + m, m), Chunk(x + m, y + m, m)]
  }

  lemma QuadrantsYieldChunk(h: Hasher, t: nat, x: int, y: int, m: nat)
    ensures multiset(MineAll(h, t, Quadrants(x, y, m)))
         == multiset(ByColumns(h, t, Chunk(x, y, 2 * m)))
  {
    var q := Quadrants(x, y, m);
    forall a, b
      ensures Cover(q, a, b) == if Inside(Chunk(x, y, 2 * m), a, b) then 1 else 0
    {
      assert q[..3][..2] == q[..2] && q[..2][..1] == q[..1] && q[..1][..0] == [];
      assert Cover(q[..1], a, b) == if Inside(q[0], a, b) then 1 else 0;
      assert Cover(q[..2], a, b) == Cover(q[..1], a, b) + if Inside(q[1], a, b) then 1 else 0;
      assert Cover(q[..3], a, b) == Cover(q[..2], a, b) + if Inside(q[2], a, b) then 1 else 0;
    }
    PartitionYieldsChunk(h, t, q, Chunk(x, y, 2 * m));
  }

  /** A lower threshold only ever removes planets. */
  lemma LowerThresholdRemoves(h: Hasher, t: nat, u: nat, c: Chunk)
    requires t <= u
    ensures multiset(ByColumns(h, t, c)) <= multiset(ByColumns(h, u, c))
  {
    forall p: Planet
      ensures multiset(ByColumns(h, t, c))[p] <= multiset(ByColumns(h, u, c))[p]
    {
      ByColumnsCount(h, t, c, p);
      ByColumnsCount(h, u, c, p);
      CountIsMultiplicity(ByColumns(h, t, c), p);
      CountIsMultiplicity(ByColumns(h, u, c), p);
    }
  }
}
