/**
 The two miners against each other: from a complete run of the CPU's threads and a complete
 run of the kernel's threads to the planets each of them reports.
 */
module Agreement {
  import opened ModArith
  import opened SpongeSpec
  import opened Planets
  import opened CpuMiner
  import opened Grid
  import opened CudaMiner
  import Cpu = CpuThreads
  import Kernel
  import opened SecondZero
  import Device = DeviceSponge
  import Feistel

  /** The CPU's hash of the cell is 0 without being a true zero (see `SecondZero`): a
      statement about the CPU's numbers alone. */
  predicate Dropped(j: Job, x: int, y: int) {
    CellHash(x, y, j.key, j.f) == 0 && !TrueZero(x, y, j.key, j.f)
  }

  /** The planets of the two miners differ cell by cell in this: the CPU lists, with hash 0,
      the dropped cells, and CUDA does not. */
  lemma DifferenceIsExactly(j: Job, q: Planet)
    requires ValidJob(j)
    ensures Count(Mined(j), q) == Count(CudaMined(j), q)
              + (if Inside(j.chunk, q.x, q.y) && Dropped(j, q.x, q.y) && q.hash == 0 then 1 else 0)
  {
    ThresholdRange(j);
    Device.CellHashSimulated(q.x, q.y, j.key, j.f);
    HoldsPIff(q.x, q.y, j.key, j.f);
    ByColumnsCount(Hash(j.f, j.key), Threshold(j), j.chunk, q);
    ByRowsCount(Kernel.DHash(j.f, j.key), Threshold(j), j.chunk, q);
    hide Count, ByColumns, ByRows, CellHash, Device.DCellHash, Threshold, TrueZero;
  }

  ghost predicate SomeCellDropped(j: Job) {
    exists x, y :: Inside(j.chunk, x, y) && Dropped(j, x, y)
  }

  /** The miners report the same planets exactly when every 0 among the CPU's hashes of the
      chunk is a true zero. */
  lemma MinersAgreeIff(j: Job)
    requires ValidJob(j)
    ensures multiset(CudaMined(j)) == multiset(Mined(j)) <==> !SomeCellDropped(j)
  {
    hide Count, Mined, CudaMined, Dropped;
    if SomeCellDropped(j) {
      var x, y :| Inside(j.chunk, x, y) && Dropped(j, x, y);
      var q := Planet(x, y, 0);
      DifferenceIsExactly(j, q);
      CountIsMultiplicity(Mined(j), q);
      CountIsMultiplicity(CudaMined(j), q);
    } else {
      forall q
        ensures Count(CudaMined(j), q) == Count(Mined(j), q)
      {
        DifferenceIsExactly(j, q);
      }
      EqualCounts(CudaMined(j), Mined(j));
    }
  }

  /** In particular they agree on a chunk without a CPU hash 0. */
  lemma AgreeWithoutZeroHash(j: Job)
    requires ValidJob(j)
    requires forall x, y | Inside(j.chunk, x, y) :: CellHash(x, y, j.key, j.f) != 0
    ensures multiset(CudaMined(j)) == multiset(Mined(j))
  {
    hide CellHash, Mined, CudaMined, TrueZero;
    assert !SomeCellDropped(j);
    MinersAgreeIff(j);
  }

  /** What CUDA reports is always among what the CPU reports. */
  lemma CudaReportsNoMore(j: Job)
    requires ValidJob(j)
    ensures multiset(CudaMined(j)) <= multiset(Mined(j))
  {
    hide Count, Mined, CudaMined, Dropped;
    forall q: Planet
      ensures multiset(CudaMined(j))[q] <= multiset(Mined(j))[q]
    {
      DifferenceIsExactly(j, q);
      CountIsMultiplicity(Mined(j), q);
      CountIsMultiplicity(CudaMined(j), q);
    }
  }

  /** End to end.  Any complete run of the CPU's workers and any complete run of the kernel,
      from any stale buffer, under a launch that covers the chunk: the host's list is row by
      row, and it is a permutation of the CPU's list exactly if every 0 among the CPU's hashes
      of the chunk is a true zero. */
  lemma CompleteRunsAgreeIff(
    j: Job, g: Launch, stale: seq<Kernel.Work>,
    cpuStates: seq<Cpu.State>, cpuSchedule: seq<Cpu.Choice>,
    cudaStates: seq<Kernel.State>, cudaSchedule: seq<nat>)
    requires ValidJob(j) && ValidLaunch(g) && g.side == j.chunk.side && Covered(g)
    requires Cpu.IsRun(j, cpuStates, cpuSchedule)
    requires Cpu.Complete(cpuStates[|cpuSchedule|])
    requires Kernel.IsRun(TaskOf(j, g), stale, cudaStates, cudaSchedule)
    requires Kernel.Complete(cudaStates[|cudaSchedule|])
    ensures var buf := cudaStates[|cudaSchedule|].buf;
            var reported := Scan(buf, |buf|);
            && RowMajor(reported)
            && (multiset(reported) == multiset(cpuStates[|cpuSchedule|].pushed)
                <==> !SomeCellDropped(j))
  {
    var k := TaskOf(j, g);
    var c, d := cpuStates[|cpuSchedule|], cudaStates[|cudaSchedule|];
    hide Scan, RowMajor, SomeCellDropped, ByRows, Rows, ReportedRows, Mined, Covered;
    CpuSide(j, cpuStates, cpuSchedule);
    EveryKernelRunReports(j, g, stale, cudaStates, cudaSchedule);
    CoveredRows(Kernel.DHash(j.f, j.key), Threshold(j), j.chunk, g, stale, j.chunk.side);
    RowsAreOrdered(Kernel.DHash(j.f, j.key), Threshold(j), j.chunk, j.chunk.side);
    MinersAgreeIff(j);
    ByRowsIsRows(Kernel.DHash(j.f, j.key), Threshold(j), j.chunk);
  }

  /** Such a pair of complete runs exists for every valid job, covering or not, with any number
      of workers and any stale buffer. */
  lemma CompleteRunsExist(j: Job, g: Launch, n: nat, stale: seq<Kernel.Work>)
    returns (cpuStates: seq<Cpu.State>, cpuSchedule: seq<Cpu.Choice>,
             cudaStates: seq<Kernel.State>, cudaSchedule: seq<nat>)
    requires ValidJob(j) && ValidLaunch(g) && g.side == j.chunk.side
    requires n > 0 && |stale| == j.chunk.side * j.chunk.side
    ensures Cpu.IsRun(j, cpuStates, cpuSchedule)
    ensures |cpuStates[0].workers| == n && Cpu.Complete(cpuStates[|cpuSchedule|])
    ensures Kernel.IsRun(TaskOf(j, g), stale, cudaStates, cudaSchedule)
    ensures Kernel.Complete(cudaStates[|cudaSchedule|])
  {
    var workers := seq(n, _ => Cpu.Worker(Cpu.Idle, 0, 0, ZERO, 0));
    var columns := map x | x in Cpu.Interval(j.chunk.x, j.chunk.side) :: Cpu.Unclaimed;
    var c := Cpu.State(workers, columns, Cpu.Free, []);
    assert Cpu.IsRun(j, [c], []);
    cpuStates, cpuSchedule := Cpu.RunsCanBeCompleted(j, [c], []);
    assert cpuStates[0] == c;
    var k := TaskOf(j, g);
    var threads := Kernel.GridThreads(k.chunk.side, Blocks(k.grid), k.grid.block);
    var d := Kernel.State(threads, stale);
    hide Kernel.GridThreads, Blocks, TaskOf, ValidJob, Cpu.IsRun;
    assert Kernel.IsRun(k, stale, [d], []);
    cudaStates, cudaSchedule := Kernel.RunsCanBeCompleted(k, stale, [d], []);
  }

  lemma ByRowsIsRows(h: Hasher, t: nat, c: Chunk)
    ensures ByRows(h, t, c) == Rows(h, t, c, c.side)
  {
  }

  lemma CpuSide(j: Job, states: seq<Cpu.State>, schedule: seq<Cpu.Choice>)
    requires j.rarity > 0 && Cpu.IsRun(j, states, schedule)
    requires Cpu.Complete(states[|schedule|])
    ensures multiset(states[|schedule|].pushed) == multiset(Mined(j))
  {
    hide Cpu.Inv, Mined;
    Cpu.RunInvariant(j, states, schedule, |schedule|);
    Cpu.CompleteStateIsMined(j, states[|schedule|]);
  }

  /** Any complete run of the kernel, covering or not: the host lists the planets of the rows
      written and the stale contents of the others. */
  lemma EveryKernelRunReports(
    j: Job, g: Launch, stale: seq<Kernel.Work>, states: seq<Kernel.State>, schedule: seq<nat>)
    requires ValidJob(j) && ValidLaunch(g) && g.side == j.chunk.side
    requires Kernel.IsRun(TaskOf(j, g), stale, states, schedule)
    requires Kernel.Complete(states[|schedule|])
    ensures |stale| == j.chunk.side * j.chunk.side
    ensures Scan(states[|schedule|].buf, |states[|schedule|].buf|)
         == ReportedRows(Kernel.DHash(j.f, j.key), Threshold(j), j.chunk, g, stale, j.chunk.side)
  {
    var k := TaskOf(j, g);
    Kernel.RunInvariant(k, stale, states, schedule, |schedule|);
    assert |stale| == j.chunk.side * j.chunk.side;
    hide Kernel.Inv, Scan, ReportedRows, Kernel.FinalBuffer, Threshold;
    Kernel.CompleteStateIsFinal(k, stale, states[|schedule|]);
    JobScan(j, g, stale);
  }

  // ---------- the condition is needed ----------

  /** A job on which the miners disagree: in a field without round constants the two
      coordinates 1 and -1 of its only cell add up to p. */
  const COORDINATES_ADD_TO_P: Job := Job(Params(U64, []), 0, Chunk(1, -1, 1), 1)

  /** Another one, with a round: the seed of column 1 is (1, 2), row 8191 makes the left half
      2^13, and its fifth power 2^65 is added to 2. */
  const ROUND_ADDS_TO_P: Job := Job(Params(2 * U64 + 2, [0]), 0, Chunk(1, 8191, 1), 1)

  lemma CoordinatesAddToP()
    ensures var j := COORDINATES_ADD_TO_P;
            ValidJob(j) && multiset(CudaMined(j)) != multiset(Mined(j))
  {
    var j := COORDINATES_ADD_TO_P;
    var p := j.f.p;
    hide Mod, Pow;
    ModSmall(1, p);
    ModIs(p, p, 1, 0);
    assert Inside(j.chunk, 1, -1) && Dropped(j, 1, -1);
    MinersAgreeIff(j);
  }

  lemma RoundAddsToP()
    ensures var j := ROUND_ADDS_TO_P;
            ValidJob(j) && multiset(CudaMined(j)) != multiset(Mined(j))
  {
    var j := ROUND_ADDS_TO_P;
    OneRoundSeed(j.f);
    OneRoundCell(j.f);
    hide CellHash, TrueZero, CudaMined, Mined;
    assert Inside(j.chunk, 1, 8191) && Dropped(j, 1, 8191);
    MinersAgreeIff(j);
  }

  lemma OneRound(h: Halves, f: Field)
    requires f.c == [0] && Canonical(h, f.p)
    ensures Rounds(h, 0, f.c, f.p) == Halves(Add(Pow5(h.l, f.p), h.r, f.p), h.l)
  {
    hide Mod, Pow;
    ModSmall(h.l, f.p);
    assert f.c[..0] == [];
    assert Rounds(h, 0, f.c, f.p) == Round(h, 0, 0, f.p);
  }

  lemma OneRoundSeed(f: Field)
    requires f == Params(2 * U64 + 2, [0])
    ensures Seed(1, 0, f) == Halves(1, 2)
  {
    hide Mod, Pow;
    FifthIsProduct(1);
    ModSmall(1, f.p);
    ModSmall(2, f.p);
    OneRound(Halves(1, 0), f);
  }

  lemma OneRoundCell(f: Field)
    requires f == Params(2 * U64 + 2, [0]) && Seed(1, 0, f) == Halves(1, 2)
    ensures CellHash(1, 8191, 0, f) == 0 && !TrueZero(1, 8191, 0, f)
  {
    var p, h := f.p, Halves(8192, 2);
    hide Mod, Pow, Seed, SeedMarks;
    FifthIsProduct(8192);
    ModSmall(8192, p);
    ModSmall(2 * U64, p);
    ModIs(p, p, 1, 0);
    OneRound(h, f);
    assert Injected(Seed(1, 0, f), Wrap(8191, f), f) == h;
    assert f.c[..0] == [];
    assert RoundPower(h, 0, 0, p) == 2 * U64;
  }

  /** A state from which the last swapped round adds 1 and p - 1. */
  function Witness(key: nat, f: Field): Halves
    requires f.c != []
  {
    var c := f.c[|f.c| - 1];
    Feistel.UnRounds(Halves(0, Mod(1 - key - c, f.p)), key, f.c, f.p)
  }

  /** For every key and every non-empty list of constants there is a pair of residues that
      the CPU mixes to a left half 0 and the device to a left half p. */
  lemma EveryKeyHasASecondZero(key: nat, f: Field)
    requires f.c != [] && key < f.p
    ensures Canonical(Witness(key, f), f.p)
    ensures Mixed(Witness(key, f), key, f).l == 0
    ensures Device.DMixed(Witness(key, f), key, f).l == f.p
  {
    var n, p := |f.c| - 1, f.p;
    var front, c := f.c[..n], f.c[n];
    var r := Mod(1 - key - c, p);
    var target := Halves(0, r);
    var h := Witness(key, f);
    hide Mod, Pow, Device.DFifth, Feistel.UnRounds;
    Feistel.UnRoundsCanonical(target, key, f.c, p);
    Feistel.RoundsBackAndForth(target, key, f.c, p);
    assert Device.CanonHalves(h, p) == h;
    Device.RoundsSimulated(h, key, f.c, p);
    Device.RoundsSimulated(h, key, front, p);
    var g := Device.DRounds(h, key, front, p);
    assert Device.Canon(g.l, p) == r;
    LastSumIsP(g, r, key, c, p);
  }

  lemma LastSumIsP(g: Halves, r: nat, key: nat, c: nat, p: nat)
    requires Device.InRange(g, p) && key < p && c < p && 1 < p && 2 * p < U256
    requires Device.Canon(g.l, p) == r == Mod(1 - key - c, p)
    requires Device.Canon(Device.DRound(g, key, c, p).l, p) == 0
    ensures Device.DRound(g, key, c, p).l == p
  {
    hide Mod, Pow, Device.DFifth;
    var a := Device.DAdd(key, g.l, p);
    var b := Device.DAdd(a, c, p);
    Device.AddSimulated(key, g.l, p);
    Device.AddSimulated(a, c, p);
    Device.FifthSimulated(b, p);
    ModAddTwice(key, 1 - key - c, c, p);
    assert key + (1 - key - c) + c == 1;
    ModSmall(1, p);
    assert Device.Canon(b, p) == 1;
    FifthIsProduct(1);
    assert Device.DFifth(b, p) == 1;
    Device.AddSimulated(1, g.r, p);
    SumIsZeroIff(1, g.r, p);
  }
}
