/**
 The CUDA miner: one kernel thread as the device code runs it, the device memory that is kept
 from call to call and never cleared, and the host's scan of the buffer.
 */
module CudaMiner {
  import opened ModArith
  import opened SpongeSpec
  import opened Planets
  import opened CpuMiner
  import opened Grid
  import opened Kernel
  import opened Limbs
  import Device = DeviceSponge

  // ---------- one thread of the kernel, alone ----------

  /** One of the first n iterations of the thread writes the cell. */
  ghost predicate WrittenBy(k: Task, bx: nat, q: nat, v: nat, n: nat, idx: nat) {
    exists i: nat :: i < n && WritesAt(k, bx, q, v, i, idx)
  }

  predicate WritesAt(k: Task, bx: nat, q: nat, v: nat, i: nat, idx: nat) {
    var row := RowAt(k.grid, q, v, i);
    row < k.chunk.side && idx == Flat(k.chunk.side, bx, row)
  }

  lemma WrittenByOneMore(k: Task, bx: nat, q: nat, v: nat, n: nat, idx: nat)
    ensures WrittenBy(k, bx, q, v, n + 1, idx)
       <==> WrittenBy(k, bx, q, v, n, idx) || WritesAt(k, bx, q, v, n, idx)
  {
    hide WritesAt;
    if WritesAt(k, bx, q, v, n, idx) {
      assert WrittenBy(k, bx, q, v, n + 1, idx);
    }
  }

  /** Past the first row outside the chunk a thread has nothing to write. */
  lemma NothingAfterBreak(k: Task, bx: nat, q: nat, v: nat, i: nat, idx: nat)
    requires i <= k.grid.work && RowAt(k.grid, q, v, i) >= k.chunk.side
    ensures WrittenBy(k, bx, q, v, k.grid.work, idx) <==> WrittenBy(k, bx, q, v, i, idx)
  {
    if WrittenBy(k, bx, q, v, k.grid.work, idx) {
      var j: nat :| j < k.grid.work && WritesAt(k, bx, q, v, j, idx);
      assert j < i;
    }
  }

  /** The cells of thread v of block (bx, q): in column bx, `work` rows from its first one. */
  predicate OfThread(g: Launch, bx: nat, q: nat, v: nat, idx: nat)
    requires g.side > 0
  {
    var first := q * (1 + g.work) + g.work * v;
    idx % g.side == bx && first <= idx / g.side < first + g.work
  }

  lemma ThreadCells(k: Task, bx: nat, q: nat, v: nat, idx: nat)
    requires ValidTask(k) && idx < k.chunk.side * k.chunk.side
    ensures OfThread(k.grid, bx, q, v, idx)
       <==> bx < k.chunk.side && WrittenBy(k, bx, q, v, k.grid.work, idx)
  {
    var side := k.chunk.side;
    var first := RowAt(k.grid, q, v, 0);
    FlatIndexOnto(side, idx);
    if bx < side && WrittenBy(k, bx, q, v, k.grid.work, idx) {
      var i: nat :| i < k.grid.work && WritesAt(k, bx, q, v, i, idx);
      FlatIndex(side, bx, first + i);
    }
    if OfThread(k.grid, bx, q, v, idx) {
      assert WritesAt(k, bx, q, v, idx / side - first, idx);
    }
  }

  /** The body of the row loop: the cell becomes final. */
  method MineCell(
    k: Task, bx: nat, row: nat, sponge: Device.Sponge, result: array<Work>, ghost stale: seq<Work>)
    requires ValidTask(k) && bx < k.chunk.side && row < k.chunk.side
    requires InInt64(k.chunk.y, k.chunk.side)
    requires result.Length == |stale| == k.chunk.side * k.chunk.side
    requires sponge.View().snap == Device.DSeed(k.chunk.x + bx, k.key, k.f)
    requires Device.InRange(sponge.View().snap, k.f.p)
    requires Index32(k.chunk.side, bx, row) == Flat(k.chunk.side, bx, row) < |stale|
    requires var idx := Flat(k.chunk.side, bx, row);
             && FinalCell(k, stale, idx) == CellOf(k, stale[idx], bx, row)
             && (result[idx] == stale[idx] || result[idx] == FinalCell(k, stale, idx))
    modifies sponge, result
    ensures var idx := Flat(k.chunk.side, bx, row);
            result[..] == old(result[..])[idx := FinalCell(k, stale, idx)]
    ensures sponge.View().snap == old(sponge.View().snap)
  {
    hide Device.DMixed, Device.DInjected, Device.DWrap, FinalCell, Index32, Flat, ValidLaunch;
    var coordX, coordY := k.chunk.x + bx, k.chunk.y + row;
    sponge.Restore(k.f);
    var yi := Device.WrapCoordinate(coordY, k.f);
    sponge.Inject(yi, k.f);
    sponge.Mix(k.key, k.f);
    var hash := sponge.Result();
    assert hash == DHash(k.f, k.key)(coordX, coordY);
    var idx := Index32(k.chunk.side, bx, row);
    result[idx] := result[idx].(isPlanet := hash < k.threshold);
    if result[idx].isPlanet {
      result[idx] := result[idx].(limbs := Store(hash));
    }
    result[idx] := result[idx].(x := coordX);
    result[idx] := result[idx].(y := coordY);
  }

  /** The final contents of a written cell, found by its flat index. */
  lemma WrittenCellIs(k: Task, stale: seq<Work>, dx: nat, dy: nat)
    requires ValidTask(k) && |stale| == k.chunk.side * k.chunk.side
    requires dx < k.chunk.side && Written(k.grid, dy)
    ensures var idx := Flat(k.chunk.side, dx, dy);
            && Index32(k.chunk.side, dx, dy) == idx < |stale|
            && FinalCell(k, stale, idx) == CellOf(k, stale[idx], dx, dy)
  {
    hide CellOf, Blocks;
    FlatIndex(k.chunk.side, dx, dy);
  }

  /** `mine_batch_kernel` for thread v of block (bx, q): exactly the cells of its rows inside
      the chunk become final, all others stay. */
  method MineBatchKernel(k: Task, bx: nat, q: nat, v: nat, result: array<Work>)
    requires ValidTask(k) && result.Length == k.chunk.side * k.chunk.side
    requires q < Blocks(k.grid) && v < k.grid.block
    requires InInt64(k.chunk.x, k.chunk.side) && InInt64(k.chunk.y, k.chunk.side)
    modifies result
    ensures forall idx: nat | idx < result.Length ::
              result[idx] == if OfThread(k.grid, bx, q, v, idx)
                             then FinalCell(k, old(result[..]), idx) else old(result[idx])
  {
    hide Device.DMixed, Device.DInjected, Device.DWrap, FinalCell, CellOf, Blocks, RowAt, Row32;
    ghost var stale := result[..];
    forall idx: nat | idx < result.Length
      ensures OfThread(k.grid, bx, q, v, idx)
         <==> bx < k.chunk.side && WrittenBy(k, bx, q, v, k.grid.work, idx)
    {
      ThreadCells(k, bx, q, v, idx);
    }
    hide OfThread;
    if bx >= k.chunk.side {
      return;
    }
    var coordX := k.chunk.x + bx;
    var sponge := new Device.Sponge();
    var xi := Device.WrapCoordinate(coordX, k.f);
    sponge.Reset(k.f);
    sponge.Inject(xi, k.f);
    sponge.Mix(k.key, k.f);
    sponge.Save(k.f);
    var i := 0;
    while i < k.grid.work
      invariant i <= k.grid.work
      invariant sponge.View().snap == Device.DSeed(coordX, k.key, k.f)
      invariant Device.InRange(sponge.View().snap, k.f.p)
      invariant forall idx: nat | idx < result.Length ::
                  result[idx] == if WrittenBy(k, bx, q, v, i, idx)
                                 then FinalCell(k, stale, idx) else stale[idx]
    {
      NoWrapAround(k.grid, q, v, i);
      var row := Row32(k.grid, q, v, i);
      if row >= k.chunk.side {
        forall idx: nat
          ensures WrittenBy(k, bx, q, v, k.grid.work, idx) <==> WrittenBy(k, bx, q, v, i, idx)
        {
          NothingAfterBreak(k, bx, q, v, i, idx);
        }
        break;
      }
      assert Writes(k.grid, q, v, i, row);
      WrittenCellIs(k, stale, bx, row);
      MineCell(k, bx, row, sponge, result, stale);
      forall idx: nat
        ensures WrittenBy(k, bx, q, v, i + 1, idx)
           <==> WrittenBy(k, bx, q, v, i, idx) || WritesAt(k, bx, q, v, i, idx)
      {
        WrittenByOneMore(k, bx, q, v, i, idx);
      }
      i := i + 1;
    }
  }

  // ---------- the host's scan ----------

  function Listed(cell: Work): seq<Planet> {
    if cell.isPlanet then [Planet(cell.x, cell.y, Import(cell.limbs))] else []
  }

  function Scan(buf: seq<Work>, n: nat): seq<Planet>
    requires n <= |buf|
  {
    if n == 0 then [] else Scan(buf, n - 1) + Listed(buf[n - 1])
  }

  /** The number of flagged cells among the first n. */
  function Flagged(buf: seq<Work>, n: nat): nat
    requires n <= |buf|
  {
    if n == 0 then 0 else Flagged(buf, n - 1) + if buf[n - 1].isPlanet then 1 else 0
  }

  /** The scan has one entry for each flagged cell, and the entry of a cell stands after those
      of the flagged cells before it. */
  lemma {:induction false} ScanAt(buf: seq<Work>, n: nat, i: nat)
    requires i < n <= |buf|
    ensures |Scan(buf, n)| == Flagged(buf, n)
    ensures buf[i].isPlanet ==>
              && Flagged(buf, i) < |Scan(buf, n)|
              && Scan(buf, n)[Flagged(buf, i)]
                 == Planet(buf[i].x, buf[i].y, Import(buf[i].limbs))
  {
    hide Import;
    if i < n - 1 {
      ScanAt(buf, n - 1, i);
    } else if n > 1 {
      ScanAt(buf, n - 1, 0);
    }
  }

  method CollectPlanets(batch: array<Work>, side: nat, result: PlanetVector)
    requires side < 0x1_0000 && batch.Length == side * side
    modifies result
    ensures result.items == old(result.items) + Scan(batch[..], batch.Length)
  {
    hide Import, ToLimbs, Export;
    AreaFitsIff(side);
    var i := 0;
    while i < Low32(side * side)
      invariant i <= batch.Length
      invariant result.items == old(result.items) + Scan(batch[..], i)
    {
      if batch[i].isPlanet {
        var hash := ToMpz(batch[i].limbs);
        result.PushBack(Planet(batch[i].x, batch[i].y, hash));
      }
      i := i + 1;
    }
  }

  /** The planets of a job as the CUDA miner lists them under full coverage. */
  function CudaMined(j: Job): seq<Planet>
    requires j.rarity > 0
  {
    ByRows(DHash(j.f, j.key), Threshold(j), j.chunk)
  }

  lemma CellListed(k: Task, stale: Work, dx: nat, dy: nat)
    requires k.key < k.f.p
    ensures Listed(CellOf(k, stale, dx, dy))
         == Hit(DHash(k.f, k.key), k.threshold, k.chunk.x + dx, k.chunk.y + dy)
  {
    hide Import, DHash, Store;
    DHashFits(k.f, k.key, k.chunk.x + dx, k.chunk.y + dy);
  }

  /** What the host lists for a cell after the launch. */
  lemma FinalCellListed(k: Task, stale: seq<Work>, dx: nat, dy: nat)
    requires ValidTask(k) && |stale| == k.chunk.side * k.chunk.side
    requires dx < k.chunk.side && dy < k.chunk.side
    ensures var idx := Flat(k.chunk.side, dx, dy);
            && idx < |stale|
            && Listed(FinalBuffer(k, stale)[idx])
               == if Written(k.grid, dy)
                  then Hit(DHash(k.f, k.key), k.threshold, k.chunk.x + dx, k.chunk.y + dy)
                  else Listed(stale[idx])
  {
    hide FinalCell, CellOf, Hit, Listed, Written, Flat, ValidLaunch;
    FinalCellAt(k, stale, dx, dy);
    CellListed(k, stale[Flat(k.chunk.side, dx, dy)], dx, dy);
    assert FinalBuffer(k, stale)[Flat(k.chunk.side, dx, dy)]
        == FinalCell(k, stale, Flat(k.chunk.side, dx, dy));
  }

  lemma InBuffer(side: nat, dx: nat, dy: nat)
    requires dx <= side && dy < side
    ensures Flat(side, dx, dy) <= side * side
    ensures dx < side ==> Flat(side, dx, dy) < side * side
  {
    MulMono(dy + 1, side, side);
    assert side * (dy + 1) == side * dy + side;
  }

  /** The first n cells of a row as the host lists them. */
  function BufferRow(buf: seq<Work>, side: nat, dy: nat, n: nat): seq<Planet>
    requires |buf| == side * side && dy < side && n <= side
  {
    if n == 0 then []
    else
      InBuffer(side, n - 1, dy);
      BufferRow(buf, side, dy, n - 1) + Listed(buf[Flat(side, n - 1, dy)])
  }

  lemma BufferRowStep(buf: seq<Work>, side: nat, dy: nat, n: nat)
    requires |buf| == side * side && dy < side && n < side
    ensures Flat(side, n, dy) < |buf|
    ensures BufferRow(buf, side, dy, n + 1)
         == BufferRow(buf, side, dy, n) + Listed(buf[Flat(side, n, dy)])
  {
    hide Listed;
    InBuffer(side, n, dy);
  }

  lemma RowStep(h: Hasher, t: nat, x0: int, y: int, n: nat)
    ensures Row(h, t, x0, y, n + 1) == Row(h, t, x0, y, n) + Hit(h, t, x0 + n, y)
  {
  }

  /** What a call reports of n rows: the planets of the rows that the launch writes, and of
      any other row what stands in the stale buffer. */
  ghost function ReportedRows(
    h: Hasher, t: nat, c: Chunk, g: Launch, stale: seq<Work>, n: nat): seq<Planet>
    requires ValidLaunch(g) && g.side == c.side && |stale| == c.side * c.side && n <= c.side
  {
    if n == 0 then []
    else
      ReportedRows(h, t, c, g, stale, n - 1)
      + if Written(g, n - 1) then Row(h, t, c.x, c.y + (n - 1), c.side)
        else BufferRow(stale, c.side, n - 1, c.side)
  }

  lemma {:induction false} BufferRowIsRow(
    buf: seq<Work>, side: nat, dy: nat, n: nat, h: Hasher, t: nat, x0: int, y: int)
    requires |buf| == side * side && dy < side && n <= side
    requires forall dx: nat | dx < n ::
               && Flat(side, dx, dy) < |buf|
               && Listed(buf[Flat(side, dx, dy)]) == Hit(h, t, x0 + dx, y)
    ensures BufferRow(buf, side, dy, n) == Row(h, t, x0, y, n)
  {
    hide Listed, Hit, Flat;
    if n > 0 {
      BufferRowIsRow(buf, side, dy, n - 1, h, t, x0, y);
      BufferRowStep(buf, side, dy, n - 1);
      RowStep(h, t, x0, y, n - 1);
    }
  }

  lemma {:induction false} BufferRowAlike(a: seq<Work>, b: seq<Work>, side: nat, dy: nat, n: nat)
    requires |a| == |b| == side * side && dy < side && n <= side
    requires forall dx: nat | dx < n ::
               && Flat(side, dx, dy) < |a|
               && Listed(a[Flat(side, dx, dy)]) == Listed(b[Flat(side, dx, dy)])
    ensures BufferRow(a, side, dy, n) == BufferRow(b, side, dy, n)
  {
    hide Listed, Flat;
    if n > 0 {
      BufferRowAlike(a, b, side, dy, n - 1);
      BufferRowStep(a, side, dy, n - 1);
      BufferRowStep(b, side, dy, n - 1);
    }
  }

  /** One row of the final buffer. */
  lemma FinalRow(k: Task, stale: seq<Work>, dy: nat)
    requires ValidTask(k) && |stale| == k.chunk.side * k.chunk.side && dy < k.chunk.side
    ensures BufferRow(FinalBuffer(k, stale), k.chunk.side, dy, k.chunk.side)
         == if Written(k.grid, dy)
            then Row(DHash(k.f, k.key), k.threshold, k.chunk.x, k.chunk.y + dy, k.chunk.side)
            else BufferRow(stale, k.chunk.side, dy, k.chunk.side)
  {
    hide Listed, Hit, FinalCell, DHash, Written, ValidLaunch, Flat, Row, BufferRow;
    var h, side, final := DHash(k.f, k.key), k.chunk.side, FinalBuffer(k, stale);
    forall dx: nat | dx < side
      ensures Flat(side, dx, dy) < |stale|
      ensures Listed(final[Flat(side, dx, dy)])
           == if Written(k.grid, dy) then Hit(h, k.threshold, k.chunk.x + dx, k.chunk.y + dy)
              else Listed(stale[Flat(side, dx, dy)])
    {
      FinalCellListed(k, stale, dx, dy);
    }
    hide FinalBuffer;
    if Written(k.grid, dy) {
      BufferRowIsRow(final, side, dy, side, h, k.threshold, k.chunk.x, k.chunk.y + dy);
    } else {
      BufferRowAlike(final, stale, side, dy, side);
    }
  }

  /** Scanning the buffer is going through its rows. */
  lemma {:induction false} ScanRow(buf: seq<Work>, side: nat, dy: nat, n: nat)
    requires |buf| == side * side && dy < side && n <= side
    ensures side * dy <= |buf| && Flat(side, n, dy) <= |buf|
    ensures Scan(buf, Flat(side, n, dy)) == Scan(buf, side * dy) + BufferRow(buf, side, dy, n)
  {
    hide Listed;
    InBuffer(side, n, dy);
    if n > 0 {
      ScanRow(buf, side, dy, n - 1);
      assert Flat(side, n, dy) == Flat(side, n - 1, dy) + 1;
    } else {
      assert Flat(side, 0, dy) == side * dy;
    }
  }

  lemma {:induction false} ScanOfFinal(k: Task, stale: seq<Work>, n: nat)
    requires ValidTask(k) && |stale| == k.chunk.side * k.chunk.side && n <= k.chunk.side
    ensures k.chunk.side * n <= |stale|
    ensures Scan(FinalBuffer(k, stale), k.chunk.side * n)
         == ReportedRows(DHash(k.f, k.key), k.threshold, k.chunk, k.grid, stale, n)
  {
    hide FinalBuffer, DHash, Written, ValidLaunch, Row, BufferRow;
    if n > 0 {
      ScanOfFinal(k, stale, n - 1);
      ScanRow(FinalBuffer(k, stale), k.chunk.side, n - 1, k.chunk.side);
      FinalRow(k, stale, n - 1);
      assert Flat(k.chunk.side, k.chunk.side, n - 1) == k.chunk.side * n;
    }
  }

  /** The list of any launch, covering or not, from any stale buffer. */
  lemma ScanIsReported(k: Task, stale: seq<Work>)
    requires ValidTask(k) && |stale| == k.chunk.side * k.chunk.side
    ensures Scan(FinalBuffer(k, stale), |stale|)
         == ReportedRows(DHash(k.f, k.key), k.threshold, k.chunk, k.grid, stale, k.chunk.side)
  {
    hide FinalBuffer, DHash, ReportedRows, Scan;
    ScanOfFinal(k, stale, k.chunk.side);
  }

  lemma {:induction false} CoveredRows(
    h: Hasher, t: nat, c: Chunk, g: Launch, stale: seq<Work>, n: nat)
    requires ValidLaunch(g) && g.side == c.side && |stale| == c.side * c.side && n <= c.side
    requires Covered(g)
    ensures ReportedRows(h, t, c, g, stale, n) == Rows(h, t, c, n)
  {
    hide Row, BufferRow, Written, ValidLaunch;
    if n > 0 {
      CoveredRows(h, t, c, g, stale, n - 1);
      assert Written(g, n - 1);
      assert c.y + (n - 1) == c.y + n - 1;
    }
  }

  /** Under full coverage what is listed depends on the arguments of the launch alone. */
  lemma ScanIsByRows(k: Task, stale: seq<Work>)
    requires ValidTask(k) && Covered(k.grid) && |stale| == k.chunk.side * k.chunk.side
    ensures Scan(FinalBuffer(k, stale), |stale|)
         == ByRows(DHash(k.f, k.key), k.threshold, k.chunk)
  {
    hide FinalBuffer, DHash, Covered, ReportedRows, Rows, Scan;
    ScanIsReported(k, stale);
    CoveredRows(DHash(k.f, k.key), k.threshold, k.chunk, k.grid, stale, k.chunk.side);
  }

  // ---------- what stale contents can do ----------

  /** Setting the flag of one more cell lists one more planet. */
  lemma {:induction false} OneMoreFlag(a: seq<Work>, b: seq<Work>, idx: nat, n: nat)
    requires idx < |a| == |b| && n <= |a|
    requires b == a[idx := a[idx].(isPlanet := true)] && !a[idx].isPlanet
    ensures |Scan(b, n)| == |Scan(a, n)| + if idx < n then 1 else 0
  {
    hide Import;
    if n > 0 {
      OneMoreFlag(a, b, idx, n - 1);
    }
  }

  const BLANK: Work := Work(0, 0, false, [0, 0, 0, 0, 0, 0, 0, 0])

  function BlankBuffer(n: nat): (b: seq<Work>)
    ensures |b| == n && forall i | 0 <= i < n :: b[i] == BLANK
  {
    seq(n, _ => BLANK)
  }

  /** An unwritten row lets a stale planet through: two buffers with different lists. */
  lemma UnwrittenRowLeaks(k: Task, row: nat)
    requires ValidTask(k) && row < k.chunk.side && !Written(k.grid, row)
    ensures exists a: seq<Work>, b: seq<Work> ::
              && |a| == |b| == k.chunk.side * k.chunk.side
              && Scan(FinalBuffer(k, a), |a|) != Scan(FinalBuffer(k, b), |b|)
  {
    var side := k.chunk.side;
    var idx := Flat(side, 0, row);
    FlatIndex(side, 0, row);
    assert !CellWritten(k, idx);
    var a := BlankBuffer(side * side);
    var b := a[idx := BLANK.(isPlanet := true)];
    var fa, fb := FinalBuffer(k, a), FinalBuffer(k, b);
    assert fa[idx] == BLANK && fb[idx] == BLANK.(isPlanet := true);
    assert fb == fa[idx := fa[idx].(isPlanet := true)] by {
      hide CellWritten, CellOf, Flat;
      forall i: nat | i < |fb| && i != idx
        ensures fb[i] == fa[i]
      {
        assert a[i] == b[i];
        assert fa[i] == FinalCell(k, a, i) && fb[i] == FinalCell(k, b, i);
      }
    }
    OneMoreFlag(fa, fb, idx, |fa|);
  }

  /** The list of a call is independent of what an allocation happened to contain exactly when
      the launch covers all rows. */
  lemma AllocationIrrelevantIff(k: Task)
    requires ValidTask(k)
    ensures Covered(k.grid) <==>
            forall a: seq<Work>, b: seq<Work> |
              |a| == |b| == k.chunk.side * k.chunk.side ::
              Scan(FinalBuffer(k, a), |a|) == Scan(FinalBuffer(k, b), |b|)
  {
    hide FinalBuffer, Scan, Written;
    if Covered(k.grid) {
      forall a: seq<Work>, b: seq<Work> | |a| == |b| == k.chunk.side * k.chunk.side
        ensures Scan(FinalBuffer(k, a), |a|) == Scan(FinalBuffer(k, b), |b|)
      {
        ScanIsByRows(k, a);
        ScanIsByRows(k, b);
      }
    } else {
      var row: nat :| row < k.grid.side && !Written(k.grid, row);
      UnwrittenRowLeaks(k, row);
    }
  }

  // ---------- what earlier calls can do ----------

  /** The buffers list the same in every cell that the launch leaves alone. */
  ghost predicate SameUnwritten(g: Launch, a: seq<Work>, b: seq<Work>)
    requires ValidLaunch(g) && |a| == |b|
  {
    forall idx: nat | idx < |a| && !Written(g, idx / g.side) :: Listed(a[idx]) == Listed(b[idx])
  }

  lemma SameUnwrittenRefl(g: Launch, a: seq<Work>)
    requires ValidLaunch(g)
    ensures SameUnwritten(g, a, a)
  {
  }

  /** Only the limbs of cells that are no planets still differ after the launch. */
  lemma FinalCellListedAlike(k: Task, a: seq<Work>, b: seq<Work>, idx: nat)
    requires ValidTask(k) && |a| == |b| && SameUnwritten(k.grid, a, b) && idx < |a|
    ensures Listed(FinalCell(k, a, idx)) == Listed(FinalCell(k, b, idx))
  {
    hide Written, CellOf, Listed, Hit, DHash;
    if CellWritten(k, idx) {
      CellListed(k, a[idx], idx % k.chunk.side, idx / k.chunk.side);
      CellListed(k, b[idx], idx % k.chunk.side, idx / k.chunk.side);
    }
  }

  lemma {:induction false} ScanAlike(a: seq<Work>, b: seq<Work>, n: nat)
    requires n <= |a| == |b|
    requires forall idx: nat | idx < n :: Listed(a[idx]) == Listed(b[idx])
    ensures Scan(a, n) == Scan(b, n)
  {
    hide Listed;
    if n > 0 {
      ScanAlike(a, b, n - 1);
    }
  }

  /** The list depends on the stale buffer only through the planets of the cells that the
      launch leaves alone. */
  lemma OnlyUnwrittenCellsMatter(k: Task, a: seq<Work>, b: seq<Work>)
    requires ValidTask(k) && |a| == |b| && SameUnwritten(k.grid, a, b)
    ensures Scan(FinalBuffer(k, a), |a|) == Scan(FinalBuffer(k, b), |b|)
  {
    hide FinalCell, SameUnwritten, Listed, Scan;
    var fa, fb := FinalBuffer(k, a), FinalBuffer(k, b);
    forall idx: nat | idx < |a|
      ensures Listed(fa[idx]) == Listed(fb[idx])
    {
      FinalCellListedAlike(k, a, b, idx);
    }
    ScanAlike(fa, fb, |a|);
  }

  lemma LaunchKeepsUnwritten(k: Task, buf: seq<Work>, stale: seq<Work>)
    requires ValidTask(k) && |buf| == |stale| && SameUnwritten(k.grid, buf, stale)
    ensures SameUnwritten(k.grid, FinalBuffer(k, buf), stale)
  {
    hide Written, Listed, CellOf;
    var after := FinalBuffer(k, buf);
    forall idx: nat | idx < |after| && !Written(k.grid, idx / k.grid.side)
      ensures Listed(after[idx]) == Listed(stale[idx])
    {
      assert after[idx] == FinalCell(k, buf, idx);
    }
  }

  /** The buffer after a sequence of launches. */
  ghost function AfterLaunches(ks: seq<Task>, stale: seq<Work>): (b: seq<Work>)
    requires forall i | 0 <= i < |ks| :: ValidTask(ks[i])
    ensures |b| == |stale|
  {
    if ks == [] then stale
    else
      var k := ks[|ks| - 1];
      assert ValidTask(k);
      FinalBuffer(k, AfterLaunches(ks[..|ks| - 1], stale))
  }

  /** Launches over the same grid write the same cells.  So a call lists what it would list
      without them, covering or not: nothing of an earlier call shows up in a later one. */
  lemma {:induction false} EarlierLaunchesIrrelevant(ks: seq<Task>, k: Task, stale: seq<Work>)
    requires ValidTask(k)
    requires forall i | 0 <= i < |ks| :: ValidTask(ks[i]) && ks[i].grid == k.grid
    ensures SameUnwritten(k.grid, AfterLaunches(ks, stale), stale)
    ensures Scan(FinalBuffer(k, AfterLaunches(ks, stale)), |stale|)
         == Scan(FinalBuffer(k, stale), |stale|)
  {
    hide SameUnwritten, FinalBuffer, Scan, ValidLaunch;
    if ks == [] {
      SameUnwrittenRefl(k.grid, stale);
    } else {
      var n := |ks| - 1;
      var last := ks[n];
      EarlierLaunchesIrrelevant(ks[..n], last, stale);
      LaunchKeepsUnwritten(last, AfterLaunches(ks[..n], stale), stale);
    }
    OnlyUnwrittenCellsMatter(k, AfterLaunches(ks, stale), stale);
  }

  // ---------- the miner ----------

  /** The launch a valid job asks for. */
  function TaskOf(j: Job, g: Launch): (k: Task)
    requires ValidJob(j) && ValidLaunch(g) && g.side == j.chunk.side
    ensures ValidTask(k)
  {
    ThresholdRange(j);
    Task(j.f, j.key, j.chunk, Threshold(j), g)
  }

  /** What a job's launch leaves in the cells it writes, in terms of the job alone. */
  lemma JobCell(j: Job, g: Launch, stale: seq<Work>, dx: nat, dy: nat)
    requires ValidJob(j) && ValidLaunch(g) && g.side == j.chunk.side
    requires |stale| == j.chunk.side * j.chunk.side
    requires dx < j.chunk.side && dy < j.chunk.side && Written(g, dy)
    ensures Flat(j.chunk.side, dx, dy) < |stale|
    ensures Listed(FinalBuffer(TaskOf(j, g), stale)[Flat(j.chunk.side, dx, dy)])
         == Hit(DHash(j.f, j.key), Threshold(j), j.chunk.x + dx, j.chunk.y + dy)
  {
    hide FinalBuffer, Hit, Listed, Flat, Written, DHash, Threshold;
    FinalCellListed(TaskOf(j, g), stale, dx, dy);
  }

  /** And what the host then lists. */
  lemma JobScan(j: Job, g: Launch, stale: seq<Work>)
    requires ValidJob(j) && ValidLaunch(g) && g.side == j.chunk.side
    requires |stale| == j.chunk.side * j.chunk.side
    ensures Scan(FinalBuffer(TaskOf(j, g), stale), |stale|)
         == ReportedRows(DHash(j.f, j.key), Threshold(j), j.chunk, g, stale, j.chunk.side)
  {
    hide FinalBuffer, Scan, ReportedRows, DHash, Threshold;
    ScanIsReported(TaskOf(j, g), stale);
  }

  class CachedDeviceMemory {
    var sideLength: nat
    var batch: array<Work>

    constructor (sideLength: nat)
      ensures this.sideLength == sideLength && fresh(batch)
      ensures batch.Length == Low32(sideLength * sideLength)
    {
      this.sideLength := sideLength;
      batch := new Work[Low32(sideLength * sideLength)];
    }
  }

  /** A number the program puts into device memory: 256 bits always suffice here. */
  method ToDevice(s: nat) returns (xs: Register)
    requires s < U256
    ensures Import(xs) == s
  {
    var limbs := new nat[COUNT];
    var fits := FromMpz(s, limbs);
    xs := limbs[..];
  }

  class CudaMiner {
    const f: Field
    const work: nat
    const block: nat
    var initialized: bool
    var memP: Register
    var memC: seq<Register>
    var cache: CachedDeviceMemory?

    /** What the kernel loads from the device constants. */
    function DeviceConstants(): Params
      reads this
    {
      Params(Import(memP), seq(|memC|, i requires 0 <= i < |memC| reads this => Import(memC[i])))
    }

    predicate Valid()
      reads this, cache
    {
      && (initialized ==> DeviceConstants() == f)
      && (cache != null ==> cache.batch.Length == cache.sideLength * cache.sideLength)
    }

    /** There is a buffer, and it is for chunks of this side. */
    predicate Caches(side: nat)
      reads this, cache
    {
      cache != null && cache.sideLength == side
    }

    function Repr(): set<object>
      reads this, cache
    {
      if cache == null then {this} else {this as object, cache as object, cache.batch as object}
    }

    constructor (f: Field, work: nat, block: nat)
      ensures Valid() && fresh(Repr())
      ensures this.f == f && this.work == work && this.block == block
    {
      this.f, this.work, this.block := f, work, block;
      initialized, cache := false, null;
      memP, memC := [0, 0, 0, 0, 0, 0, 0, 0], [];
    }

    /** Copies the modulus and the constants to the device, once. */
    method Initialize()
      requires Valid()
      modifies this
      ensures Valid() && initialized
      ensures cache == old(cache)
    {
      if initialized {
        return;
      }
      initialized := true;
      memP := ToDevice(f.p);
      memC := [];
      for i := 0 to |f.c|
        invariant cache == old(cache) && initialized
        invariant Import(memP) == f.p
        invariant |memC| == i
        invariant forall m | 0 <= m < i :: Import(memC[m]) == f.c[m]
      {
        var limbs := ToDevice(f.c[i]);
        memC := memC + [limbs];
      }
      assert DeviceConstants() == f;
    }

    /** Keeps the buffer of the last call if the side is the same, else allocates a new one;
        neither clears it. */
    method PrepareCache(side: nat)
      requires Valid() && side < 0x1_0000
      modifies this, cache
      ensures Valid() && initialized == old(initialized)
      ensures DeviceConstants() == old(DeviceConstants())
      ensures Caches(side) && cache.batch.Length == side * side
      ensures if old(Caches(side)) then cache == old(cache) && cache.batch == old(cache.batch)
              else fresh(cache.batch)
      ensures fresh(Repr() - old(Repr()))
    {
      if Caches(side) {
        return;
      }
      AreaFitsIff(side);
      if cache == null {
        cache := new CachedDeviceMemory(side);
      } else {
        var batch := new Work[Low32(side * side)];
        cache.batch := batch;
        cache.sideLength := side;
      }
    }

    /** `run_mine_batch`: the kernel over the whole grid, then the scan. */
    method RunMineBatch(k: Task, result: PlanetVector)
      requires ValidTask(k) && cache != null
      requires cache.batch.Length == k.chunk.side * k.chunk.side
      modifies cache.batch, result
      ensures result.items
           == old(result.items) + Scan(FinalBuffer(k, old(cache.batch[..])), cache.batch.Length)
      ensures cache.batch[..] == FinalBuffer(k, old(cache.batch[..]))
      ensures Covered(k.grid) ==>
                result.items
                == old(result.items) + ByRows(DHash(k.f, k.key), k.threshold, k.chunk)
    {
      hide FinalBuffer, Scan, Covered, ByRows, Import;
      ghost var stale := cache.batch[..];
      LaunchKernel(k, cache.batch);
      CollectPlanets(cache.batch, k.chunk.side, result);
      if Covered(k.grid) {
        ScanIsByRows(k, stale);
      }
    }

    /** The launch that this miner makes for a chunk of the given side. */
    function LaunchOf(side: nat): Launch {
      Launch(side, work, block)
    }

    /** One call of `mine`.  The stale buffer is the one of the last call if that had the same
        side, else a new one with any contents.  Every cell that the launch writes then lists
        as its coordinates, the key and the rarity demand, and what is appended is, row by row,
        the planets of the rows written and the stale contents of the others; under full
        coverage that is a function of the arguments. */
    method Mine(j: Job, result: PlanetVector) returns (ghost stale: seq<Work>)
      requires Valid() && ValidJob(j) && j.f == f
      requires ValidLaunch(LaunchOf(j.chunk.side))
      modifies Repr(), result
      ensures Valid() && fresh(Repr() - old(Repr()))
      ensures |stale| == j.chunk.side * j.chunk.side
      ensures old(Caches(j.chunk.side)) ==> stale == old(cache.batch[..])
      ensures Caches(j.chunk.side)
      ensures cache.batch[..] == FinalBuffer(TaskOf(j, LaunchOf(j.chunk.side)), stale)
      ensures forall dx: nat, dy: nat |
                dx < j.chunk.side && dy < j.chunk.side && Written(LaunchOf(j.chunk.side), dy) ::
                && Flat(j.chunk.side, dx, dy) < cache.batch.Length
                && Listed(cache.batch[Flat(j.chunk.side, dx, dy)])
                   == Hit(DHash(j.f, j.key), Threshold(j), j.chunk.x + dx, j.chunk.y + dy)
      ensures result.items == old(result.items)
                + ReportedRows(DHash(j.f, j.key), Threshold(j), j.chunk,
                               LaunchOf(j.chunk.side), stale, j.chunk.side)
      ensures Covered(LaunchOf(j.chunk.side)) ==>
                result.items == old(result.items) + CudaMined(j)
    {
      Initialize();
      PrepareCache(j.chunk.side);
      ghost var g := LaunchOf(j.chunk.side);
      hide FinalBuffer, Scan, Covered, ByRows, Import, ToLimbs, Export, DHash;
      var threshold := Threshold(j);
      var thresholdMem := ToDevice(threshold);
      var keyMem := ToDevice(j.key);
      var k := Task(DeviceConstants(), Import(keyMem), j.chunk, Import(thresholdMem),
                    LaunchOf(j.chunk.side));
      assert k == TaskOf(j, g);
      hide Threshold, ValidTask, ValidJob, ValidLaunch;
      stale := cache.batch[..];
      RunMineBatch(k, result);
      hide TaskOf, Hit, Listed, Flat, Written, ReportedRows;
      JobScan(j, g, stale);
      forall dx: nat, dy: nat | dx < j.chunk.side && dy < j.chunk.side && Written(g, dy)
        ensures Flat(j.chunk.side, dx, dy) < cache.batch.Length
        ensures Listed(cache.batch[Flat(j.chunk.side, dx, dy)])
             == Hit(DHash(j.f, j.key), threshold, j.chunk.x + dx, j.chunk.y + dy)
      {
        JobCell(j, g, stale, dx, dy);
        assert cache.batch[..][Flat(j.chunk.side, dx, dy)]
            == FinalBuffer(TaskOf(j, g), stale)[Flat(j.chunk.side, dx, dy)];
      }
    }
  }

  // ---------- many calls ----------

  predicate JobFits(j: Job, f: Field, work: nat, block: nat) {
    ValidJob(j) && j.f == f && ValidLaunch(Launch(j.chunk.side, work, block))
  }

  predicate JobsFit(jobs: seq<Job>, f: Field, work: nat, block: nat) {
    forall i | 0 <= i < |jobs| :: JobFits(jobs[i], f, work, block)
  }

  /** The allocations behind a sequence of calls: of the right size, and a new one only when
      the side changes. */
  predicate Allocations(jobs: seq<Job>, origins: seq<seq<Work>>) {
    && |origins| == |jobs|
    && (forall i | 0 <= i < |jobs| ::
          |origins[i]| == jobs[i].chunk.side * jobs[i].chunk.side)
    && (forall i | 0 < i < |jobs| && jobs[i].chunk.side == jobs[i - 1].chunk.side ::
          origins[i] == origins[i - 1])
  }

  /** What the calls report if each had found its buffer with the given contents. */
  ghost function AllReported(
    jobs: seq<Job>, f: Field, work: nat, block: nat, origins: seq<seq<Work>>): seq<Planet>
    requires JobsFit(jobs, f, work, block) && Allocations(jobs, origins)
  {
    if jobs == [] then []
    else
      var n := |jobs| - 1;
      var j := jobs[n];
      assert JobFits(j, f, work, block);
      AllReported(jobs[..n], f, work, block, origins[..n])
      + ReportedRows(DHash(j.f, j.key), Threshold(j), j.chunk,
                     Launch(j.chunk.side, work, block), origins[n], j.chunk.side)
  }

  /** What covering calls report, from their arguments alone. */
  function AllMined(jobs: seq<Job>): seq<Planet>
    requires forall i | 0 <= i < |jobs| :: ValidJob(jobs[i])
  {
    if jobs == [] then []
    else
      var j := jobs[|jobs| - 1];
      assert ValidJob(j);
      AllMined(jobs[..|jobs| - 1]) + CudaMined(j)
  }

  /** If all launches cover their chunks, the allocations do not matter. */
  lemma {:induction false} CoveringCallsReport(
    jobs: seq<Job>, f: Field, work: nat, block: nat, origins: seq<seq<Work>>)
    requires JobsFit(jobs, f, work, block) && Allocations(jobs, origins)
    requires forall i | 0 <= i < |jobs| :: Covered(Launch(jobs[i].chunk.side, work, block))
    ensures AllReported(jobs, f, work, block, origins) == AllMined(jobs)
  {
    hide Covered, CudaMined, ReportedRows, DHash, Threshold, ValidLaunch;
    if jobs != [] {
      var n := |jobs| - 1;
      CoveringCallsReport(jobs[..n], f, work, block, origins[..n]);
      LastCallReports(jobs[n], f, work, block, origins[n]);
    }
  }

  lemma LastCallReports(j: Job, f: Field, work: nat, block: nat, origin: seq<Work>)
    requires JobFits(j, f, work, block) && Covered(Launch(j.chunk.side, work, block))
    requires |origin| == j.chunk.side * j.chunk.side
    ensures ReportedRows(DHash(j.f, j.key), Threshold(j), j.chunk,
                         Launch(j.chunk.side, work, block), origin, j.chunk.side)
         == CudaMined(j)
  {
    hide Covered, ReportedRows, Rows, DHash, Threshold, ValidLaunch;
    CoveredRows(DHash(j.f, j.key), Threshold(j), j.chunk,
                Launch(j.chunk.side, work, block), origin, j.chunk.side);
  }

  /** The miner's buffer, if any, is as it was allocated in the cells that its launches leave
      alone. */
  ghost predicate AsAllocated(miner: CudaMiner, origin: seq<Work>)
    reads miner, miner.cache, if miner.cache == null then {} else {miner.cache.batch}
  {
    miner.cache != null ==>
      var g := miner.LaunchOf(miner.cache.sideLength);
      && |origin| == miner.cache.batch.Length
      && (ValidLaunch(g) ==> SameUnwritten(g, miner.cache.batch[..], origin))
  }

  /** One more call reports what it would report on the allocated contents. */
  method MineNext(miner: CudaMiner, j: Job, ghost last: seq<Work>, result: PlanetVector)
    returns (ghost origin: seq<Work>)
    requires miner.Valid() && JobFits(j, miner.f, miner.work, miner.block)
    requires AsAllocated(miner, last)
    modifies miner.Repr(), result
    ensures miner.Valid() && fresh(miner.Repr() - old(miner.Repr()))
    ensures miner.Caches(j.chunk.side)
    ensures AsAllocated(miner, origin) && |origin| == j.chunk.side * j.chunk.side
    ensures old(miner.Caches(j.chunk.side)) ==> origin == last
    ensures result.items == old(result.items)
              + ReportedRows(DHash(j.f, j.key), Threshold(j), j.chunk,
                             miner.LaunchOf(j.chunk.side), origin, j.chunk.side)
  {
    hide Covered, CudaMined, FinalBuffer, Scan, ValidJob, ValidLaunch, SameUnwritten, Threshold,
      ReportedRows, DHash;
    ghost var k := TaskOf(j, miner.LaunchOf(j.chunk.side));
    var stale := miner.Mine(j, result);
    origin := if old(miner.Caches(j.chunk.side)) then last else stale;
    SameUnwrittenRefl(k.grid, stale);
    OnlyUnwrittenCellsMatter(k, stale, origin);
    ScanIsReported(k, stale);
    ScanIsReported(k, origin);
    LaunchKeepsUnwritten(k, stale, origin);
  }

  /** One call more in the specification. */
  lemma OneMoreCall(
    jobs: seq<Job>, i: nat, f: Field, work: nat, block: nat, origins: seq<seq<Work>>,
    origin: seq<Work>)
    requires i < |jobs| && JobsFit(jobs, f, work, block) && Allocations(jobs[..i], origins)
    requires |origin| == jobs[i].chunk.side * jobs[i].chunk.side
    requires i > 0 && jobs[i].chunk.side == jobs[i - 1].chunk.side ==> origin == origins[i - 1]
    ensures JobFits(jobs[i], f, work, block)
    ensures Allocations(jobs[..i + 1], origins + [origin])
    ensures AllReported(jobs[..i + 1], f, work, block, origins + [origin])
         == AllReported(jobs[..i], f, work, block, origins)
          + ReportedRows(DHash(jobs[i].f, jobs[i].key), Threshold(jobs[i]), jobs[i].chunk,
                         Launch(jobs[i].chunk.side, work, block), origin, jobs[i].chunk.side)
  {
    hide ReportedRows, DHash, Threshold, ValidJob, ValidLaunch;
    var next := origins + [origin];
    assert jobs[..i + 1][..i] == jobs[..i] && next[..i] == origins && next[i] == origin;
  }

  lemma AllocatedNow(miner: CudaMiner)
    ensures AsAllocated(miner, if miner.cache == null then [] else miner.cache.batch[..])
  {
  }

  /** A sequence of calls on a buffer that is as allocated except for what launches wrote. */
  method MineFrom(
    miner: CudaMiner, jobs: seq<Job>, ghost start: seq<Work>, result: PlanetVector)
    returns (ghost origins: seq<seq<Work>>)
    requires miner.Valid() && JobsFit(jobs, miner.f, miner.work, miner.block)
    requires AsAllocated(miner, start)
    modifies miner.Repr(), result
    ensures miner.Valid() && fresh(miner.Repr() - old(miner.Repr()))
    ensures Allocations(jobs, origins)
    ensures jobs != [] && old(miner.Caches(jobs[0].chunk.side)) ==> origins[0] == start
    ensures result.items == old(result.items)
              + AllReported(jobs, miner.f, miner.work, miner.block, origins)
  {
    hide ReportedRows, DHash, Threshold, AsAllocated, ValidJob, ValidLaunch;
    origins := [];
    ghost var kept := jobs != [] && miner.Caches(jobs[0].chunk.side);
    ghost var last := start;
    for i := 0 to |jobs|
      invariant miner.Valid() && fresh(miner.Repr() - old(miner.Repr()))
      invariant AsAllocated(miner, last)
      invariant i == 0 && kept ==> last == start && miner.Caches(jobs[0].chunk.side)
      invariant |origins| == i && Allocations(jobs[..i], origins)
      invariant i > 0 ==> last == origins[i - 1] && miner.Caches(jobs[i - 1].chunk.side)
      invariant i > 0 && kept ==> origins[0] == start
      invariant result.items == old(result.items)
                  + AllReported(jobs[..i], miner.f, miner.work, miner.block, origins)
    {
      hide AllReported, Allocations, JobsFit, CudaMiner.Valid;
      last := MineNext(miner, jobs[i], last, result);
      OneMoreCall(jobs, i, miner.f, miner.work, miner.block, origins, last);
      origins := origins + [last];
    }
    assert jobs[..|jobs|] == jobs;
  }

  /** Any sequence of calls with any sides, covering or not, on a miner with any past: each
      call reports what its arguments and the contents of its side's allocation determine,
      although the buffer is reused and never cleared. */
  method MineRepeatedly(miner: CudaMiner, jobs: seq<Job>, result: PlanetVector)
    returns (ghost origins: seq<seq<Work>>)
    requires miner.Valid()
    requires JobsFit(jobs, miner.f, miner.work, miner.block)
    modifies miner.Repr(), result
    ensures miner.Valid() && fresh(miner.Repr() - old(miner.Repr()))
    ensures Allocations(jobs, origins)
    ensures jobs != [] && old(miner.Caches(jobs[0].chunk.side)) ==>
              origins[0] == old(miner.cache.batch[..])
    ensures result.items == old(result.items)
              + AllReported(jobs, miner.f, miner.work, miner.block, origins)
    ensures (forall i | 0 <= i < |jobs| :: Covered(miner.LaunchOf(jobs[i].chunk.side))) ==>
              result.items == old(result.items) + AllMined(jobs)
  {
    hide Covered, AllReported, AllMined, Allocations, AsAllocated, ValidJob, ValidLaunch;
    AllocatedNow(miner);
    origins := MineFrom(
      miner, jobs, if miner.cache == null then [] else miner.cache.batch[..], result);
    if forall i | 0 <= i < |jobs| :: Covered(miner.LaunchOf(jobs[i].chunk.side)) {
      CoveringCallsReport(jobs, miner.f, miner.work, miner.block, origins);
    }
  }
}
