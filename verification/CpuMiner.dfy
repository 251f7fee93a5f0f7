/**
 The CPU miner on one thread: for every column the sponge is seeded once and its snapshot is
 restored for every row.
 */
module CpuMiner {
  import opened ModArith
  import opened SpongeSpec
  import opened Planets
  import CpuHash

  /** One call of `mine`. */
  datatype Job = Job(f: Field, key: nat, chunk: Chunk, rarity: nat)

  /** The key and the rarity are 32-bit, the rarity divides, and coordinates (and the loop
      bounds) stay inside 64-bit integers. */
  predicate ValidJob(j: Job) {
    && j.key < U32
    && 1 <= j.rarity < U32
    && j.chunk.side < U32
    && InInt64(j.chunk.x, j.chunk.side)
    && InInt64(j.chunk.y, j.chunk.side)
  }

  predicate InInt64(c: int, side: nat) {
    -(U64 / 2) < c && c + side < U64 / 2
  }

  function Threshold(j: Job): nat
    requires j.rarity > 0
  {
    j.f.p / j.rarity
  }

  lemma ThresholdRange(j: Job)
    requires ValidJob(j)
    ensures 0 < Threshold(j) <= j.f.p
  {
    var t := Threshold(j);
    assert j.f.p == j.rarity * t + j.f.p % j.rarity;
    MulMono(1, j.rarity, t);
  }

  function Hash(f: Field, key: nat): Hasher {
    (x, y) => CellHash(x, y, key, f)
  }

  /** The planets of the job, in the order of the two nested loops. */
  function Mined(j: Job): seq<Planet>
    requires j.rarity > 0
  {
    ByColumns(Hash(j.f, j.key), Threshold(j), j.chunk)
  }

  /** The vector that collects the planets. */
  class PlanetVector {
    var items: seq<Planet>

    constructor ()
      ensures items == []
    {
      items := [];
    }

    method PushBack(p: Planet)
      modifies this
      ensures items == old(items) + [p]
    {
      items := items + [p];
    }
  }

  /** The inner loop: the snapshot of the column serves every row, whatever the sponge's live
      halves held before. */
  method MineColumn(j: Job, x: int, threshold: nat, sponge: CpuHash.Sponge, result: PlanetVector)
    requires ValidJob(j) && sponge.f == j.f
    requires j.chunk.x <= x < j.chunk.x + j.chunk.side
    modifies sponge, result
    ensures result.items
         == old(result.items) + Column(Hash(j.f, j.key), threshold, x, j.chunk.y, j.chunk.side)
  {
    hide Mixed, Injected, Wrap, Column;
    var h := Hash(j.f, j.key);
    var wrappedX := CpuHash.WrapCoordinate(x, j.f);
    sponge.Reset();
    sponge.Inject(wrappedX);
    sponge.Mix(j.key);
    sponge.Save();
    ghost var seed := Seed(x, j.key, j.f);
    assert sponge.View().snap == seed;
    var y := j.chunk.y;
    ColumnEmpty(h, threshold, x, y);
    while y < j.chunk.y + j.chunk.side
      invariant j.chunk.y <= y <= j.chunk.y + j.chunk.side
      invariant sponge.View().snap == seed
      invariant result.items
             == old(result.items) + Column(h, threshold, x, j.chunk.y, y - j.chunk.y)
    {
      var wrappedY := CpuHash.WrapCoordinate(y, j.f);
      sponge.Restore();
      sponge.Inject(wrappedY);
      sponge.Mix(j.key);
      var hash := sponge.Result();
      assert hash == h(x, y);
      if CpuHash.IsPlanet(hash, threshold) {
        result.PushBack(Planet(x, y, hash));
      }
      ColumnGrows(h, threshold, x, j.chunk.y, y - j.chunk.y);
      y := y + 1;
    }
  }

  lemma ColumnEmpty(h: Hasher, t: nat, x: int, y0: int)
    ensures Column(h, t, x, y0, 0) == []
  {
  }

  lemma ColumnGrows(h: Hasher, t: nat, x: int, y0: int, n: nat)
    ensures Column(h, t, x, y0, n + 1) == Column(h, t, x, y0, n) + Hit(h, t, x, y0 + n)
  {
  }

  method Mine(j: Job, result: PlanetVector)
    requires ValidJob(j)
    modifies result
    ensures result.items == old(result.items) + Mined(j)
    ensures ColumnMajor(result.items[|old(result.items)|..])
  {
    hide Column, ColumnMajor;
    var threshold := Threshold(j);
    var sponge := new CpuHash.Sponge(j.f);
    var x := j.chunk.x;
    while x < j.chunk.x + j.chunk.side
      invariant j.chunk.x <= x <= j.chunk.x + j.chunk.side
      invariant result.items
             == old(result.items) + Columns(Hash(j.f, j.key), threshold, j.chunk, x - j.chunk.x)
    {
      MineColumn(j, x, threshold, sponge, result);
      x := x + 1;
    }
    ColumnsAreOrdered(Hash(j.f, j.key), threshold, j.chunk, j.chunk.side);
    assert result.items[|old(result.items)|..] == Mined(j);
  }

  // ---------- what the list contains ----------

  /** One entry for each cell of the chunk whose hash lies in the first 1 / rarity of the
      residues, decided without rounding, and none for any other. */
  lemma MinedExactly(j: Job, p: Planet)
    requires j.rarity > 0
    ensures Count(Mined(j), p)
         == if && Inside(j.chunk, p.x, p.y)
               && p.hash == CellHash(p.x, p.y, j.key, j.f)
               && (p.hash + 1) * j.rarity <= j.f.p
            then 1 else 0
  {
    hide CellHash, ByColumns, Count;
    ByColumnsCount(Hash(j.f, j.key), Threshold(j), j.chunk, p);
    CpuHash.PlanetThreshold(p.hash, j.rarity, j.f.p);
  }

  /** Raising the rarity only ever removes planets. */
  lemma RarerMeansFewer(j: Job, rarity: nat)
    requires 0 < j.rarity <= rarity
    ensures multiset(Mined(j.(rarity := rarity))) <= multiset(Mined(j))
  {
    hide CellHash, ByColumns;
    LowerThreshold(j.f.p, j.rarity, rarity);
    LowerThresholdRemoves(
      Hash(j.f, j.key), j.f.p / rarity, j.f.p / j.rarity, j.chunk);
  }

  lemma LowerThreshold(p: nat, r: nat, s: nat)
    requires 0 < r <= s
    ensures p / s <= p / r
  {
    var u := p / s;
    if u > 0 {
      CpuHash.PlanetThreshold(u - 1, s, p);
      MulMono(r, s, u);
      CpuHash.PlanetThreshold(u - 1, r, p);
    }
  }
}
