/**
 The launch grid of the CUDA miner: which rows of a column the blocks and threads reach, in
 32-bit arithmetic.  The number of blocks is a ceiling over work * block rows, but a block
 starts only 1 + work rows after the previous one, so coverage is not a matter of course.
 */
module Grid {
  import opened ModArith
  import opened SpongeSpec

  /** The side of the chunk, the rows per thread and the (virtual) threads per block. */
  datatype Launch = Launch(side: nat, work: nat, block: nat)

  /** The launches whose grid size the host computes without 32-bit overflow. */
  predicate ValidLaunch(g: Launch) {
    && 1 <= g.side < 0x1_0000
    && g.work >= 1 && g.block >= 1
    && g.work * g.block + g.side <= U32
  }

  // ---------- the code's 32-bit expressions ----------

  function ItemsPerBlock(g: Launch): nat {
    Low32(g.work * g.block)
  }

  function GridSizeY(g: Launch): nat
    requires ItemsPerBlock(g) > 0
  {
    Low32(Low32(g.side + ItemsPerBlock(g)) - 1) / ItemsPerBlock(g)
  }

  function StartRow32(g: Launch, q: nat, v: nat): nat {
    Low32(Low32(q * Low32(1 + g.work)) + Low32(g.work * v))
  }

  function Row32(g: Launch, q: nat, v: nat, i: nat): nat {
    Low32(StartRow32(g, q, v) + i)
  }

  function Index32(side: nat, bx: nat, row: nat): nat {
    Low32(bx + Low32(side * row))
  }

  // ---------- the same without wrap-around ----------

  function Flat(side: nat, dx: nat, dy: nat): nat {
    dx + side * dy
  }

  /** ceil(side / (work * block)), as a count of blocks. */
  function Blocks(g: Launch): (n: nat)
    requires ValidLaunch(g)
    ensures n >= 1
    ensures (n - 1) * (g.work * g.block) < g.side <= n * (g.work * g.block)
  {
    var k := g.work * g.block;
    ItemsPositive(g);
    CeilBounds(g.side, k);
    (g.side + k - 1) / k
  }

  lemma ItemsPositive(g: Launch)
    requires g.work >= 1 && g.block >= 1
    ensures g.work * g.block >= g.work && g.work * g.block >= g.block
  {
    MulAtLeast(g.work, g.block);
    MulAtLeast(g.block, g.work);
  }

  lemma CeilBounds(s: nat, k: nat)
    requires s >= 1 && k >= 1
    ensures (s + k - 1) / k >= 1
    ensures ((s + k - 1) / k - 1) * k < s <= ((s + k - 1) / k) * k
  {
    var n, m := (s + k - 1) / k, (s + k - 1) % k;
    assert s + k - 1 == k * n + m;
    if n <= 0 {
      MulAtMostZero(k, n);
    }
    assert (n - 1) * k == k * n - k;
    assert n * k == k * n;
  }

  lemma MulAtMostZero(k: nat, n: int)
    requires n <= 0
    ensures k * n <= 0
  {
  }

  function RowAt(g: Launch, q: nat, v: nat, i: nat): nat {
    q * (1 + g.work) + g.work * v + i
  }

  predicate InGrid(g: Launch, q: nat, v: nat, i: nat)
    requires ValidLaunch(g)
  {
    q < Blocks(g) && v < g.block && i < g.work
  }

  /** Only a launch of several blocks has a block that does not start at row 0, and then all
      numbers are small. */
  lemma BlockStart(g: Launch, q: nat)
    requires ValidLaunch(g) && 1 <= q < Blocks(g)
    ensures g.work * g.block < g.side
    ensures q * (1 + g.work) <= 2 * g.side - 2
  {
    var k := g.work * g.block;
    ItemsPositive(g);
    MulMono(q, Blocks(g) - 1, k);
    MulMono(1, Blocks(g) - 1, k);
    MulMono(1 + g.work, 2 * k, q);
    assert q * (2 * k) == 2 * (q * k);
  }

  lemma ThreadStart(g: Launch, v: nat)
    requires v < g.block
    ensures g.work * v + g.work <= g.work * g.block
  {
    MulMono(v + 1, g.block, g.work);
    assert g.work * (v + 1) == g.work * v + g.work;
  }

  /** The rows of a block, and a bound below 2^32. */
  lemma RowBounds(g: Launch, q: nat, v: nat, i: nat)
    requires ValidLaunch(g) && q < Blocks(g) && v < g.block && i <= g.work
    ensures q == 0 || 1 + g.work < U32
    ensures RowAt(g, q, v, i) <= q * (1 + g.work) + g.work * g.block < U32
  {
    ItemsPositive(g);
    if q > 0 {
      BlockStart(g, q);
    }
    ThreadStart(g, v);
    hide Blocks;
  }

  lemma Fits(x: nat)
    requires x < U32
    ensures Low32(x) == x
  {
  }

  lemma CeilFits(s: nat, k: nat)
    requires 1 <= k < U32 && 1 <= s && s + k <= U32
    ensures Low32(k) == k
    ensures Low32(Low32(s + Low32(k)) - 1) == s + k - 1
  {
    Fits(k);
    Fits(s + k - 1);
  }

  /** The grid the host computes in 32 bits is the exact ceiling. */
  lemma LaunchFits(g: Launch)
    requires ValidLaunch(g)
    ensures ItemsPerBlock(g) == g.work * g.block && GridSizeY(g) == Blocks(g)
  {
    ItemsPositive(g);
    CeilFits(g.side, g.work * g.block);
    hide Low32;
  }

  /** Outside `ValidLaunch` the computed grid is empty: the condition on the product is the
      exact one. */
  lemma LaunchOverflows(g: Launch)
    requires 1 <= g.side < 0x1_0000 && 1 <= g.work * g.block < U32
    requires g.work * g.block + g.side > U32
    ensures ItemsPerBlock(g) > 0 && GridSizeY(g) == 0
  {
    var k := g.work * g.block;
    Fits(k);
    var e := Low32(Low32(g.side + k) - 1);
    assert e == g.side + k - 1 - U32 < k;
    DivModUnique(e, k, 0, e);
  }

  /** No expression of the kernel's row computation wraps around. */
  lemma NoWrapAround(g: Launch, q: nat, v: nat, i: nat)
    requires ValidLaunch(g) && q < Blocks(g) && v < g.block && i <= g.work
    ensures Row32(g, q, v, i) == RowAt(g, q, v, i)
  {
    RowBounds(g, q, v, i);
    hide Low32, Blocks, ValidLaunch;
    RowFits(q, g.work, v, i);
  }

  /** The rows of the kernel one after the other: thread 0 of block 0 starts at row 0, an
      iteration goes up one row, a thread starts right after the last row of the thread before
      it, and a block starts 1 + work rows after the start of the block before it. */
  lemma RowsInOrder(g: Launch, q: nat, v: nat, i: nat)
    requires ValidLaunch(g) && q < Blocks(g) && v < g.block && i < g.work
    ensures Row32(g, 0, 0, 0) == 0
    ensures Row32(g, q, v, i + 1) == Row32(g, q, v, i) + 1
    ensures v + 1 < g.block ==> Row32(g, q, v + 1, 0) == Row32(g, q, v, g.work - 1) + 1
    ensures q + 1 < Blocks(g) ==> Row32(g, q + 1, 0, 0) == Row32(g, q, 0, 0) + 1 + g.work
  {
    hide Row32, Blocks;
    NoWrapAround(g, 0, 0, 0);
    NoWrapAround(g, q, v, i);
    NoWrapAround(g, q, v, i + 1);
    NoWrapAround(g, q, v, g.work - 1);
    NoWrapAround(g, q, 0, 0);
    if v + 1 < g.block {
      NoWrapAround(g, q, v + 1, 0);
    }
    if q + 1 < Blocks(g) {
      NoWrapAround(g, q + 1, 0, 0);
    }
  }

  /** The kernel's row expression on plain numbers. */
  lemma RowFits(q: nat, w: nat, v: nat, i: nat)
    requires q == 0 || 1 + w < U32
    requires q * (1 + w) + w * v + i < U32
    ensures Low32(Low32(Low32(q * Low32(1 + w)) + Low32(w * v)) + i) == q * (1 + w) + w * v + i
  {
    if q > 0 {
      Fits(1 + w);
    }
    assert q * Low32(1 + w) == q * (1 + w);
    SumsFit(q * (1 + w), w * v, i);
    hide Low32;
  }

  lemma SumsFit(base: nat, inner: nat, i: nat)
    requires base + inner + i < U32
    ensures Low32(Low32(Low32(base) + Low32(inner)) + i) == base + inner + i
  {
    hide Low32;
    Fits(base);
    Fits(inner);
    Fits(base + inner);
    Fits(base + inner + i);
  }

  /** The flat index fits 32 bits, stays inside the buffer and tells the cells apart. */
  lemma FlatIndex(side: nat, dx: nat, dy: nat)
    requires dx < side && dy < side && side < 0x1_0000
    ensures Index32(side, dx, dy) == Flat(side, dx, dy) < side * side < U32
    ensures Flat(side, dx, dy) % side == dx && Flat(side, dx, dy) / side == dy
  {
    MulMono(dy + 1, side, side);
    assert side * (dy + 1) == side * dy + side;
    SquareBelow(side);
    DivModUnique(dx + side * dy, side, dy, dx);
    hide Low32;
    Fits(side * dy);
    Fits(dx + side * dy);
  }

  lemma SquareBelow(side: nat)
    requires side < 0x1_0000
    ensures side * side < U32
  {
    MulMono(side, 0xFFFF, side);
    MulMono(side, 0xFFFF, 0xFFFF);
  }

  /** The buffer size the host computes in 32 bits is the area exactly for sides below 2^16. */
  lemma AreaFitsIff(side: nat)
    ensures Low32(side * side) == side * side <==> side < 0x1_0000
  {
    if side < 0x1_0000 {
      SquareBelow(side);
    } else {
      MulMono(0x1_0000, side, side);
      MulMono(0x1_0000, side, 0x1_0000);
    }
  }

  /** Every index below side * side is the index of a cell. */
  lemma FlatIndexOnto(side: nat, idx: nat)
    requires idx < side * side
    ensures side > 0 && idx % side < side && idx / side < side
    ensures idx == Flat(side, idx % side, idx / side)
  {
    if idx / side >= side {
      MulMono(side, idx / side, side);
    }
  }

  // ---------- coverage ----------

  /** Iteration i of thread v of block row q writes the row. */
  predicate Writes(g: Launch, q: nat, v: nat, i: nat, row: nat)
    requires ValidLaunch(g)
  {
    InGrid(g, q, v, i) && RowAt(g, q, v, i) == row
  }

  /** Some thread of the grid writes the row. */
  ghost predicate Written(g: Launch, row: nat)
    requires ValidLaunch(g)
  {
    && row < g.side
    && exists q: nat, v: nat, i: nat :: Writes(g, q, v, i, row)
  }

  ghost predicate Covered(g: Launch)
    requires ValidLaunch(g)
  {
    forall row: nat | row < g.side :: Written(g, row)
  }

  /** Which thread and iteration of a block a row falls to. */
  lemma SplitRow(d: nat, w: nat, b: nat) returns (v: nat, i: nat)
    requires w >= 1 && d < w * b
    ensures v < b && i < w && d == w * v + i
  {
    v, i := d / w, d % w;
    if v >= b {
      MulMono(b, v, w);
    }
  }

  lemma WriterOf(g: Launch, q: nat, row: nat)
    requires ValidLaunch(g) && q < Blocks(g) && row < g.side
    requires q * (1 + g.work) <= row < q * (1 + g.work) + g.work * g.block
    ensures Written(g, row)
  {
    var v, i := SplitRow(row - q * (1 + g.work), g.work, g.block);
    hide Blocks;
    assert Writes(g, q, v, i, row);
  }

  /** One row past the last row any thread can write. */
  function Reach(g: Launch): nat
    requires ValidLaunch(g)
  {
    (Blocks(g) - 1) * (1 + g.work) + g.work * g.block
  }

  lemma WrittenIsBelowReach(g: Launch, row: nat)
    requires ValidLaunch(g) && Written(g, row)
    ensures row < Reach(g)
  {
    var q: nat, v: nat, i: nat :| Writes(g, q, v, i, row);
    hide Blocks;
    RowBounds(g, q, v, i);
    RowBounds(g, q, v, i + 1);
    MulMono(q, Blocks(g) - 1, 1 + g.work);
  }

  /** The block whose stretch of 1 + work rows holds the row. */
  lemma StretchOf(row: nat, stride: nat) returns (q: nat)
    requires stride > 0
    ensures q == row / stride
    ensures q * stride <= row < q * stride + stride
  {
    q := row / stride;
    assert row == stride * q + row % stride;
    assert stride * q == q * stride;
  }

  lemma BelowReachIsWritten(g: Launch, row: nat)
    requires ValidLaunch(g) && g.block >= 2 && row < g.side && row < Reach(g)
    ensures Written(g, row)
  {
    var stride := 1 + g.work;
    MulMono(2, g.block, g.work);
    var q := StretchOf(row, stride);
    if q < Blocks(g) {
      WriterOf(g, q, row);
    } else {
      MulMono(Blocks(g) - 1, q, stride);
      WriterOf(g, Blocks(g) - 1, row);
    }
  }

  /** With at least two threads per block the blocks adjoin or overlap: exactly the rows
      below `Reach` are written. */
  lemma WrittenIffBelowReach(g: Launch, row: nat)
    requires ValidLaunch(g) && g.block >= 2 && row < g.side
    ensures Written(g, row) <==> row < Reach(g)
  {
    if Written(g, row) {
      WrittenIsBelowReach(g, row);
    }
    if row < Reach(g) {
      BelowReachIsWritten(g, row);
    }
  }

  lemma WrittenIsOutsideGap(g: Launch, row: nat)
    requires ValidLaunch(g) && g.block == 1 && Written(g, row)
    ensures row % (1 + g.work) != g.work
  {
    var q: nat, v: nat, i: nat :| Writes(g, q, v, i, row);
    hide Blocks;
    var stride := 1 + g.work;
    assert v == 0 && g.work * v == 0;
    assert q * stride == stride * q;
    DivModUnique(row, stride, q, i);
  }

  lemma OutsideGapIsWritten(g: Launch, row: nat)
    requires ValidLaunch(g) && g.block == 1 && row < g.side
    requires row % (1 + g.work) != g.work
    ensures Written(g, row)
  {
    var stride := 1 + g.work;
    assert g.work * g.block == g.work;
    var q := StretchOf(row, stride);
    assert row == stride * (row / stride) + row % stride;
    assert stride * q == q * stride == q * g.work + q;
    if q >= Blocks(g) {
      MulMono(Blocks(g), q, g.work);
    }
    WriterOf(g, q, row);
  }

  /** With one thread per block each block leaves a gap: every row whose number is `work`
      modulo 1 + work is skipped, and no other. */
  lemma WrittenIffOutsideGap(g: Launch, row: nat)
    requires ValidLaunch(g) && g.block == 1 && row < g.side
    ensures Written(g, row) <==> row % (1 + g.work) != g.work
  {
    if Written(g, row) {
      WrittenIsOutsideGap(g, row);
    }
    if row % (1 + g.work) != g.work {
      OutsideGapIsWritten(g, row);
    }
  }

  /** Exactly when are all rows of every column written? */
  lemma CoveredIff(g: Launch)
    requires ValidLaunch(g)
    ensures Covered(g) <==>
            (g.block >= 2 && g.side <= Reach(g)) || (g.block == 1 && g.side <= g.work)
  {
    if g.block >= 2 {
      forall row: nat | row < g.side
        ensures Written(g, row) <==> row < Reach(g)
      {
        WrittenIffBelowReach(g, row);
      }
      if Covered(g) {
        assert Written(g, g.side - 1);
      }
    } else {
      forall row: nat | row < g.side
        ensures Written(g, row) <==> row % (1 + g.work) != g.work
      {
        WrittenIffOutsideGap(g, row);
      }
      if g.side <= g.work {
        forall row: nat | row < g.side
          ensures Written(g, row)
        {
          DivModUnique(row, 1 + g.work, 0, row);
        }
      } else {
        DivModUnique(g.work, 1 + g.work, 0, g.work);
        assert !Written(g, g.work);
      }
    }
  }

  lemma OneBlockCovers(g: Launch)
    requires ValidLaunch(g) && Blocks(g) == 1
    ensures Covered(g)
  {
    forall row: nat | row < g.side
      ensures Written(g, row)
    {
      WriterOf(g, 0, row);
    }
  }

  /** With one block every row is written, by exactly one thread in exactly one of its
      iterations. */
  lemma OneBlockWritesEachRowOnce(g: Launch, row: nat)
    requires ValidLaunch(g) && Blocks(g) == 1 && row < g.side
    ensures exists v: nat, i: nat ::
              && Writes(g, 0, v, i, row)
              && forall q': nat, v': nat, i': nat | Writes(g, q', v', i', row) ::
                   q' == 0 && v' == v && i' == i
  {
    OneBlockCovers(g);
    assert Written(g, row);
    hide Blocks;
    var q: nat, v: nat, i: nat :| Writes(g, q, v, i, row);
    assert Writes(g, 0, v, i, row);
    forall q': nat, v': nat, i': nat | Writes(g, q', v', i', row)
      ensures q' == 0 && v' == v && i' == i
    {
      QuotientsAgree(g.work, v, i, v', i');
    }
  }

  /** The default options of the command line leave rows of a 1024-chunk unwritten. */
  lemma DefaultLaunchMissesRows(row: nat)
    requires row < 1024
    ensures Blocks(Launch(1024, 16, 32)) == 2
    ensures Written(Launch(1024, 16, 32), row) <==> row < 529
  {
    WrittenIffBelowReach(Launch(1024, 16, 32), row);
  }
}
