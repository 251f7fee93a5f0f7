/**
 The CUDA kernel as an interleaving of its threads.  Each write of a field of the shared
 result buffer is a step of its own, and so is the read of the planet flag.  Blocks may
 overlap, so that several threads write the same cell; the buffer is never cleared.  Every
 schedule ends in the same buffer.
 */
module Kernel {
  import opened ModArith
  import opened SpongeSpec
  import opened Planets
  import opened Grid
  import opened Scheduling
  import opened Limbs
  import Device = DeviceSponge

  /** A cell of the result buffer. */
  datatype Work = Work(x: int, y: int, isPlanet: bool, limbs: Register)

  /** The arguments of a launch. */
  datatype Task = Task(f: Field, key: nat, chunk: Chunk, threshold: nat, grid: Launch)

  predicate ValidTask(k: Task) {
    && ValidLaunch(k.grid) && k.grid.side == k.chunk.side
    && k.key < k.f.p && k.threshold <= k.f.p
  }

  function DHash(f: Field, key: nat): Hasher {
    (x, y) => Device.DCellHash(x, y, key, f)
  }

  // ---------- threads ----------

  datatype Pc = Start | Loop | WriteFlag | ReadFlag | StoreHash | WriteX | WriteY | Done

  /** Thread v of block (bx, q), about to handle its i-th row; the saved column state and the
      hash are its registers. */
  datatype Thread = Thread(bx: nat, q: nat, v: nat, i: nat, pc: Pc, snap: Halves, hash: nat)

  datatype State = State(threads: seq<Thread>, buf: seq<Work>)

  function RowOf(k: Task, th: Thread): nat {
    Row32(k.grid, th.q, th.v, th.i)
  }

  function IndexOf(k: Task, th: Thread): nat {
    Index32(k.chunk.side, th.bx, RowOf(k, th))
  }

  function XOf(k: Task, th: Thread): int {
    k.chunk.x + th.bx
  }

  function YOf(k: Task, th: Thread): int {
    k.chunk.y + RowOf(k, th)
  }

  predicate UsesMemory(th: Thread) {
    th.pc != Start && th.pc != Loop && th.pc != Done
  }

  /** A thread can step unless it is done; a buffer access must be in bounds. */
  predicate CanStep(k: Task, s: State, t: nat) {
    && t < |s.threads| && s.threads[t].pc != Done
    && (UsesMemory(s.threads[t]) ==> IndexOf(k, s.threads[t]) < |s.buf|)
  }

  /** The registers after the step; `flag` is the planet flag of the thread's cell. */
  function Advance(k: Task, th: Thread, flag: bool): Thread {
    match th.pc
    case Start => th.(pc := Loop, i := 0, snap := Device.DSeed(XOf(k, th), k.key, k.f))
    case Loop =>
      if th.i >= k.grid.work || RowOf(k, th) >= k.chunk.side then th.(pc := Done)
      else th.(pc := WriteFlag, hash := Device.DCell(th.snap, YOf(k, th), k.key, k.f).l)
    case WriteFlag => th.(pc := ReadFlag)
    case ReadFlag => th.(pc := if flag then StoreHash else WriteX)
    case StoreHash => th.(pc := WriteX)
    case WriteX => th.(pc := WriteY)
    case WriteY => th.(pc := Loop, i := th.i + 1)
    case Done => th
  }

  /** The thread's cell after the step. */
  function Touch(k: Task, th: Thread, cell: Work): Work {
    match th.pc
    case WriteFlag => cell.(isPlanet := th.hash < k.threshold)
    case StoreHash => cell.(limbs := Store(th.hash))
    case WriteX => cell.(x := XOf(k, th))
    case WriteY => cell.(y := YOf(k, th))
    case _ => cell
  }

  /** The planet flag a stepping thread sees. */
  function Flag(k: Task, s: State, t: nat): bool
    requires CanStep(k, s, t)
  {
    UsesMemory(s.threads[t]) && s.buf[IndexOf(k, s.threads[t])].isPlanet
  }

  function Next(k: Task, s: State, t: nat): State
    requires CanStep(k, s, t)
  {
    var th := s.threads[t];
    var idx := IndexOf(k, th);
    State(s.threads[t := Advance(k, th, Flag(k, s, t))],
          if UsesMemory(th) then s.buf[idx := Touch(k, th, s.buf[idx])] else s.buf)
  }

  // ---------- the launched threads ----------

  function Fresh(bx: nat, q: nat, v: nat): Thread {
    Thread(bx, q, v, 0, Start, ZERO, 0)
  }

  function BlockThreads(bx: nat, q: nat, n: nat): (ts: seq<Thread>)
    ensures forall th :: th in ts <==> th == Fresh(bx, q, th.v) && th.v < n
  {
    if n == 0 then [] else BlockThreads(bx, q, n - 1) + [Fresh(bx, q, n - 1)]
  }

  function ColumnThreads(bx: nat, blocks: nat, n: nat): (ts: seq<Thread>)
    ensures forall th :: th in ts <==> th == Fresh(bx, th.q, th.v) && th.q < blocks && th.v < n
  {
    if blocks == 0 then []
    else ColumnThreads(bx, blocks - 1, n) + BlockThreads(bx, blocks - 1, n)
  }

  function GridThreads(side: nat, blocks: nat, n: nat): (ts: seq<Thread>)
    ensures forall th :: th in ts <==>
              th == Fresh(th.bx, th.q, th.v) && th.bx < side && th.q < blocks && th.v < n
  {
    if side == 0 then []
    else GridThreads(side - 1, blocks, n) + ColumnThreads(side - 1, blocks, n)
  }

  predicate IsInit(k: Task, stale: seq<Work>, s: State)
    requires ValidTask(k)
  {
    && s.threads == GridThreads(k.chunk.side, Blocks(k.grid), k.grid.block)
    && s.buf == stale && |stale| == k.chunk.side * k.chunk.side
  }

  // ---------- the final buffer ----------

  /** What the coordinates of a cell determine.  The hash of a cell that is no planet is not
      written. */
  function CellOf(k: Task, stale: Work, dx: nat, dy: nat): Work {
    var x, y := k.chunk.x + dx, k.chunk.y + dy;
    var h := DHash(k.f, k.key)(x, y);
    Work(x, y, h < k.threshold, if h < k.threshold then Store(h) else stale.limbs)
  }

  /** Some thread writes the cell. */
  ghost predicate CellWritten(k: Task, idx: nat)
    requires ValidTask(k)
  {
    Written(k.grid, idx / k.chunk.side)
  }

  ghost function FinalCell(k: Task, stale: seq<Work>, idx: nat): Work
    requires ValidTask(k) && idx < |stale|
  {
    if CellWritten(k, idx) then
      CellOf(k, stale[idx], idx % k.chunk.side, idx / k.chunk.side)
    else stale[idx]
  }

  ghost function FinalBuffer(k: Task, stale: seq<Work>): (b: seq<Work>)
    requires ValidTask(k)
    ensures |b| == |stale|
    ensures forall idx: nat | idx < |b| :: b[idx] == FinalCell(k, stale, idx)
  {
    seq(|stale|, idx requires 0 <= idx < |stale| => FinalCell(k, stale, idx))
  }

  lemma DHashFits(f: Field, key: nat, x: int, y: int)
    requires key < f.p
    ensures DHash(f, key)(x, y) < U256
  {
    Device.CellHashSimulated(x, y, key, f);
    hide Device.DCellHash, CellHash;
  }

  lemma CellFields(k: Task, stale: Work, dx: nat, dy: nat)
    requires k.key < k.f.p
    ensures var now := CellOf(k, stale, dx, dy);
            var x, y := k.chunk.x + dx, k.chunk.y + dy;
            var hash := Device.DCellHash(x, y, k.key, k.f);
            && now.x == x && now.y == y
            && (now.isPlanet <==> hash < k.threshold)
            && (now.isPlanet ==> Import(now.limbs) == hash)
            && (!now.isPlanet ==> now.limbs == stale.limbs)
  {
    hide Device.DCellHash, Import;
    DHashFits(k.f, k.key, k.chunk.x + dx, k.chunk.y + dy);
  }

  lemma FinalCellAt(k: Task, stale: seq<Work>, dx: nat, dy: nat)
    requires ValidTask(k) && |stale| == k.chunk.side * k.chunk.side
    requires dx < k.chunk.side && dy < k.chunk.side
    ensures var idx := Flat(k.chunk.side, dx, dy);
            && idx < |stale|
            && FinalCell(k, stale, idx)
               == if Written(k.grid, dy) then CellOf(k, stale[idx], dx, dy) else stale[idx]
  {
    hide Written, CellOf;
    FlatIndex(k.chunk.side, dx, dy);
  }

  /** What the final buffer holds, field by field: the coordinates of every written cell,
      planet or not, the flag, and the limbs of the hash for a planet, the stale ones for any
      other cell; every cell that is not written is as before. */
  lemma FinalFields(k: Task, stale: seq<Work>, dx: nat, dy: nat)
    requires ValidTask(k) && |stale| == k.chunk.side * k.chunk.side
    requires dx < k.chunk.side && dy < k.chunk.side
    ensures Flat(k.chunk.side, dx, dy) < |stale|
    ensures var idx := Flat(k.chunk.side, dx, dy);
            var now := FinalBuffer(k, stale)[idx];
            var x, y := k.chunk.x + dx, k.chunk.y + dy;
            var hash := Device.DCellHash(x, y, k.key, k.f);
            if Written(k.grid, dy) then
              && now.x == x && now.y == y
              && (now.isPlanet <==> hash < k.threshold)
              && (now.isPlanet ==> Import(now.limbs) == hash)
              && (!now.isPlanet ==> now.limbs == stale[idx].limbs)
            else now == stale[idx]
  {
    hide Device.DCellHash, Import, Written, CellOf, FinalCell, Flat;
    FinalCellAt(k, stale, dx, dy);
    CellFields(k, stale[Flat(k.chunk.side, dx, dy)], dx, dy);
    assert FinalBuffer(k, stale)[Flat(k.chunk.side, dx, dy)]
        == FinalCell(k, stale, Flat(k.chunk.side, dx, dy));
  }

  // ---------- the invariant ----------

  /** Each field is still the stale one or already the final one. */
  predicate Settling(fin: Work, stale: Work, now: Work) {
    && (now.x == fin.x || now.x == stale.x)
    && (now.y == fin.y || now.y == stale.y)
    && (now.isPlanet == fin.isPlanet || now.isPlanet == stale.isPlanet)
    && (now.limbs == fin.limbs || now.limbs == stale.limbs)
  }

  /** Between two moments each field stays or becomes final. */
  predicate Closer(fin: Work, before: Work, after: Work) {
    && (after.x == fin.x || after.x == before.x)
    && (after.y == fin.y || after.y == before.y)
    && (after.isPlanet == fin.isPlanet || after.isPlanet == before.isPlanet)
    && (after.limbs == fin.limbs || after.limbs == before.limbs)
  }

  predicate ThreadInGrid(k: Task, th: Thread)
    requires ValidTask(k)
  {
    th.bx < k.chunk.side && th.q < Blocks(k.grid) && th.v < k.grid.block && th.i <= k.grid.work
  }

  /** The i-th cell of thread v of block (bx, q) is final. */
  ghost predicate RowDone(
    k: Task, stale: seq<Work>, buf: seq<Work>, bx: nat, q: nat, v: nat, i: nat)
    requires ValidTask(k) && |buf| == |stale|
  {
    var row := RowAt(k.grid, q, v, i);
    var idx := Flat(k.chunk.side, bx, row);
    row < k.chunk.side && idx < |buf| && buf[idx] == FinalCell(k, stale, idx)
  }

  ghost predicate RowsDone(
    k: Task, stale: seq<Work>, buf: seq<Work>, bx: nat, q: nat, v: nat, n: nat)
    requires ValidTask(k) && |buf| == |stale|
  {
    forall i: nat | i < n :: RowDone(k, stale, buf, bx, q, v, i)
  }

  /** Which fields of the cell at hand the thread has already dealt with. */
  predicate CellProgress(pc: Pc, fin: Work, now: Work) {
    && (pc != WriteFlag ==> now.isPlanet == fin.isPlanet)
    && (pc == StoreHash ==> fin.isPlanet)
    && (pc == WriteX || pc == WriteY ==> now.limbs == fin.limbs)
    && (pc == WriteY ==> now.x == fin.x)
  }

  ghost predicate AtCell(k: Task, stale: seq<Work>, buf: seq<Work>, th: Thread)
    requires ValidTask(k) && |buf| == |stale|
  {
    var idx := IndexOf(k, th);
    && th.i < k.grid.work && RowOf(k, th) < k.chunk.side && idx < |buf|
    && th.hash == DHash(k.f, k.key)(XOf(k, th), YOf(k, th))
    && CellProgress(th.pc, FinalCell(k, stale, idx), buf[idx])
  }

  ghost predicate ThreadOk(k: Task, stale: seq<Work>, buf: seq<Work>, th: Thread)
    requires ValidTask(k) && |buf| == |stale|
  {
    && ThreadInGrid(k, th)
    && (th.pc == Start ==> th.i == 0)
    && (th.pc != Start ==> th.snap == Device.DSeed(XOf(k, th), k.key, k.f))
    && RowsDone(k, stale, buf, th.bx, th.q, th.v, th.i)
    && (UsesMemory(th) ==> AtCell(k, stale, buf, th))
    && (th.pc == Done ==> th.i >= k.grid.work || RowOf(k, th) >= k.chunk.side)
  }

  predicate IsThread(th: Thread, bx: nat, q: nat, v: nat) {
    th.bx == bx && th.q == q && th.v == v
  }

  ghost predicate Launched(k: Task, threads: seq<Thread>)
    requires ValidTask(k)
  {
    forall bx: nat, q: nat, v: nat | bx < k.chunk.side && q < Blocks(k.grid) && v < k.grid.block ::
      HasThread(threads, bx, q, v)
  }

  ghost predicate HasThread(threads: seq<Thread>, bx: nat, q: nat, v: nat) {
    exists t: nat :: t < |threads| && IsThread(threads[t], bx, q, v)
  }

  ghost predicate BufferSettling(k: Task, stale: seq<Work>, buf: seq<Work>)
    requires ValidTask(k) && |buf| == |stale|
  {
    forall idx: nat | idx < |stale| :: Settling(FinalCell(k, stale, idx), stale[idx], buf[idx])
  }

  ghost predicate Inv(k: Task, stale: seq<Work>, s: State) {
    && ValidTask(k)
    && |s.buf| == |stale| == k.chunk.side * k.chunk.side
    && BufferSettling(k, stale, s.buf)
    && Launched(k, s.threads)
    && (forall t: nat | t < |s.threads| :: ThreadOk(k, stale, s.buf, s.threads[t]))
  }

  lemma LaunchedInitially(k: Task)
    requires ValidTask(k)
    ensures Launched(k, GridThreads(k.chunk.side, Blocks(k.grid), k.grid.block))
  {
    hide GridThreads, Blocks;
    var threads := GridThreads(k.chunk.side, Blocks(k.grid), k.grid.block);
    forall bx: nat, q: nat, v: nat | bx < k.chunk.side && q < Blocks(k.grid) && v < k.grid.block
      ensures HasThread(threads, bx, q, v)
    {
      assert Fresh(bx, q, v) in threads;
    }
  }

  lemma FreshThreadOk(k: Task, stale: seq<Work>, th: Thread)
    requires ValidTask(k)
    requires th == Fresh(th.bx, th.q, th.v)
    requires th.bx < k.chunk.side && th.q < Blocks(k.grid) && th.v < k.grid.block
    ensures ThreadOk(k, stale, stale, th)
  {
    hide Blocks, FinalCell, RowOf, RowDone, Device.DSeed;
  }

  lemma InitEstablishes(k: Task, stale: seq<Work>, s: State)
    requires ValidTask(k) && IsInit(k, stale, s)
    ensures Inv(k, stale, s)
  {
    LaunchedInitially(k);
    hide GridThreads, Blocks, FinalCell, Launched, ThreadOk, ValidTask, Fresh;
    forall t: nat | t < |s.threads|
      ensures ThreadOk(k, stale, s.buf, s.threads[t])
    {
      assert s.threads[t] in s.threads;
      FreshThreadOk(k, stale, s.threads[t]);
    }
  }

  // ---------- one step ----------

  ghost predicate BufferCloser(k: Task, stale: seq<Work>, before: seq<Work>, after: seq<Work>)
    requires ValidTask(k) && |before| == |after| == |stale|
  {
    forall idx: nat | idx < |stale| :: Closer(FinalCell(k, stale, idx), before[idx], after[idx])
  }

  lemma RowsStay(
    k: Task, stale: seq<Work>, before: seq<Work>, after: seq<Work>, bx: nat, q: nat, v: nat, n: nat)
    requires ValidTask(k) && |before| == |after| == |stale|
    requires BufferCloser(k, stale, before, after)
    requires RowsDone(k, stale, before, bx, q, v, n)
    ensures RowsDone(k, stale, after, bx, q, v, n)
  {
    hide FinalCell, RowAt, ValidTask, Flat;
    forall i: nat | i < n
      ensures RowDone(k, stale, after, bx, q, v, i)
    {
      assert RowDone(k, stale, before, bx, q, v, i);
      var idx := Flat(k.chunk.side, bx, RowAt(k.grid, q, v, i));
      assert Closer(FinalCell(k, stale, idx), before[idx], after[idx]);
    }
  }

  /** A thread that does not step keeps what it has achieved. */
  lemma OthersStable(k: Task, stale: seq<Work>, before: seq<Work>, after: seq<Work>, th: Thread)
    requires ValidTask(k) && |before| == |after| == |stale|
    requires BufferCloser(k, stale, before, after)
    requires ThreadOk(k, stale, before, th)
    ensures ThreadOk(k, stale, after, th)
  {
    RowsStay(k, stale, before, after, th.bx, th.q, th.v, th.i);
    hide FinalCell, Blocks, RowsDone, RowOf, IndexOf, DHash;
    if UsesMemory(th) {
      var idx := IndexOf(k, th);
      assert Closer(FinalCell(k, stale, idx), before[idx], after[idx]);
    }
  }

  /** The cell a thread handles: its index does not wrap and is inside the buffer, and the
      coordinates determine its final contents. */
  lemma CellOfThread(k: Task, stale: seq<Work>, th: Thread)
    requires ValidTask(k) && |stale| == k.chunk.side * k.chunk.side
    requires ThreadInGrid(k, th) && th.i < k.grid.work && RowOf(k, th) < k.chunk.side
    ensures RowOf(k, th) == RowAt(k.grid, th.q, th.v, th.i)
    ensures IndexOf(k, th) == Flat(k.chunk.side, th.bx, RowOf(k, th)) < |stale|
    ensures FinalCell(k, stale, IndexOf(k, th))
         == CellOf(k, stale[IndexOf(k, th)], th.bx, RowOf(k, th))
  {
    hide Blocks, CellOf, Index32, Row32;
    NoWrapAround(k.grid, th.q, th.v, th.i);
    FlatIndex(k.chunk.side, th.bx, RowOf(k, th));
    assert Writes(k.grid, th.q, th.v, th.i, RowOf(k, th));
  }

  /** One step seen from the cell: written fields become final, and when the thread goes on
      to the next row the cell is final. */
  lemma CellStep(k: Task, th: Thread, fin: Work, stale: Work, now: Work)
    requires UsesMemory(th)
    requires fin == CellOf(k, stale, th.bx, RowOf(k, th))
    requires th.hash == DHash(k.f, k.key)(XOf(k, th), YOf(k, th))
    requires Settling(fin, stale, now) && CellProgress(th.pc, fin, now)
    ensures Closer(fin, now, Touch(k, th, now))
    ensures var th' := Advance(k, th, now.isPlanet);
            if th.pc == WriteY then Touch(k, th, now) == fin
            else UsesMemory(th') && CellProgress(th'.pc, fin, Touch(k, th, now))
  {
    hide RowOf, Store, DHash;
  }

  lemma CellDone(k: Task, stale: seq<Work>, buf: seq<Work>, th: Thread)
    requires ValidTask(k) && |buf| == |stale|
    requires RowOf(k, th) == RowAt(k.grid, th.q, th.v, th.i) < k.chunk.side
    requires IndexOf(k, th) == Flat(k.chunk.side, th.bx, RowOf(k, th)) < |buf|
    requires buf[IndexOf(k, th)] == FinalCell(k, stale, IndexOf(k, th))
    requires RowsDone(k, stale, buf, th.bx, th.q, th.v, th.i)
    ensures RowsDone(k, stale, buf, th.bx, th.q, th.v, th.i + 1)
  {
    hide FinalCell, IndexOf, RowOf, RowAt, Flat;
    assert RowDone(k, stale, buf, th.bx, th.q, th.v, th.i);
  }

  /** The stepping thread's own promises, from what the step did to its cell. */
  lemma OwnPromises(
    k: Task, stale: seq<Work>, before: seq<Work>, after: seq<Work>, th: Thread, th': Thread)
    requires ValidTask(k) && |before| == |after| == |stale|
    requires ThreadOk(k, stale, before, th) && UsesMemory(th)
    requires BufferCloser(k, stale, before, after)
    requires th' == th.(pc := th'.pc, i := th'.i)
    requires RowOf(k, th) == RowAt(k.grid, th.q, th.v, th.i)
    requires IndexOf(k, th) == Flat(k.chunk.side, th.bx, RowOf(k, th))
    requires IndexOf(k, th) < |stale|
    requires if th.pc == WriteY then
               && th'.pc == Loop && th'.i == th.i + 1
               && after[IndexOf(k, th)] == FinalCell(k, stale, IndexOf(k, th))
             else
               && th'.i == th.i && UsesMemory(th')
               && CellProgress(th'.pc, FinalCell(k, stale, IndexOf(k, th)), after[IndexOf(k, th)])
    ensures ThreadOk(k, stale, after, th')
  {
    assert AtCell(k, stale, before, th);
    RowsStay(k, stale, before, after, th.bx, th.q, th.v, th.i);
    if th.pc == WriteY {
      CellDone(k, stale, after, th);
    }
    SameRow(k, th, th');
    hide FinalCell, DHash, Blocks, RowOf, IndexOf, XOf, YOf, CellProgress, RowsDone, BufferCloser;
  }

  lemma MemoryStep(k: Task, stale: seq<Work>, s: State, t: nat)
    requires Inv(k, stale, s) && CanStep(k, s, t) && UsesMemory(s.threads[t])
    ensures BufferCloser(k, stale, s.buf, Next(k, s, t).buf)
    ensures ThreadOk(k, stale, Next(k, s, t).buf, Next(k, s, t).threads[t])
  {
    var th, s' := s.threads[t], Next(k, s, t);
    var idx := IndexOf(k, th);
    assert ThreadOk(k, stale, s.buf, th);
    assert AtCell(k, stale, s.buf, th);
    CellOfThread(k, stale, th);
    hide Launched, RowOf, IndexOf, FinalCell, CellOf, DHash, Blocks, RowAt;
    var fin := FinalCell(k, stale, idx);
    assert Settling(fin, stale[idx], s.buf[idx]);
    CellStep(k, th, fin, stale[idx], s.buf[idx]);
    hide Settling, CellProgress, Touch, ThreadOk, BufferSettling;
    OwnPromises(k, stale, s.buf, s'.buf, th, s'.threads[t]);
  }

  lemma SameRow(k: Task, th: Thread, th': Thread)
    requires th.bx == th'.bx && th.q == th'.q && th.v == th'.v
    ensures XOf(k, th) == XOf(k, th')
    ensures th.i == th'.i ==> RowOf(k, th) == RowOf(k, th') && YOf(k, th) == YOf(k, th')
    ensures th.i == th'.i ==> IndexOf(k, th) == IndexOf(k, th')
  {
  }

  lemma RegisterStep(k: Task, stale: seq<Work>, s: State, t: nat)
    requires Inv(k, stale, s) && CanStep(k, s, t) && !UsesMemory(s.threads[t])
    ensures ThreadOk(k, stale, s.buf, Next(k, s, t).threads[t])
  {
    var th, s' := s.threads[t], Next(k, s, t);
    var th' := s'.threads[t];
    assert ThreadOk(k, stale, s.buf, th);
    SameRow(k, th, th');
    hide Launched, Blocks, FinalCell, RowDone, RowOf, IndexOf;
    if th'.pc == WriteFlag {
      CellOfThread(k, stale, th);
    }
  }

  lemma StepPreserves(k: Task, stale: seq<Work>, s: State, t: nat)
    requires Inv(k, stale, s) && CanStep(k, s, t)
    ensures Inv(k, stale, Next(k, s, t))
  {
    var s' := Next(k, s, t);
    if UsesMemory(s.threads[t]) {
      MemoryStep(k, stale, s, t);
    } else {
      RegisterStep(k, stale, s, t);
    }
    hide FinalCell, ThreadOk, Advance, Touch, IndexOf, Blocks;
    forall u: nat | u < |s'.threads|
      ensures ThreadOk(k, stale, s'.buf, s'.threads[u])
    {
      if u != t {
        OthersStable(k, stale, s.buf, s'.buf, s.threads[u]);
      }
    }
    SettlingStable(k, stale, s.buf, s'.buf);
    LaunchedStable(k, s, t);
  }

  lemma SettlingStable(k: Task, stale: seq<Work>, before: seq<Work>, after: seq<Work>)
    requires ValidTask(k) && |before| == |after| == |stale|
    requires BufferSettling(k, stale, before) && BufferCloser(k, stale, before, after)
    ensures BufferSettling(k, stale, after)
  {
    hide FinalCell;
    forall idx: nat | idx < |stale|
      ensures Settling(FinalCell(k, stale, idx), stale[idx], after[idx])
    {
      assert Settling(FinalCell(k, stale, idx), stale[idx], before[idx]);
      assert Closer(FinalCell(k, stale, idx), before[idx], after[idx]);
    }
  }

  lemma LaunchedStable(k: Task, s: State, t: nat)
    requires ValidTask(k) && CanStep(k, s, t) && Launched(k, s.threads)
    ensures Launched(k, Next(k, s, t).threads)
  {
    hide Blocks, IndexOf, Touch, RowOf;
    var threads := Next(k, s, t).threads;
    forall bx: nat, q: nat, v: nat | bx < k.chunk.side && q < Blocks(k.grid) && v < k.grid.block
      ensures HasThread(threads, bx, q, v)
    {
      assert HasThread(s.threads, bx, q, v);
      var u: nat :| u < |s.threads| && IsThread(s.threads[u], bx, q, v);
      assert IsThread(threads[u], bx, q, v);
    }
  }

  // ---------- no run is stuck, every run ends ----------

  predicate Complete(s: State) {
    forall t | 0 <= t < |s.threads| :: s.threads[t].pc == Done
  }

  /** Some thread can step exactly while some thread is not done: no access is ever out of
      bounds. */
  lemma NeverStuck(k: Task, stale: seq<Work>, s: State)
    requires Inv(k, stale, s)
    ensures forall t: nat | t < |s.threads| && s.threads[t].pc != Done :: CanStep(k, s, t)
    ensures Complete(s) <==> forall t: nat :: !CanStep(k, s, t)
  {
    forall t: nat | t < |s.threads| && s.threads[t].pc != Done
      ensures CanStep(k, s, t)
    {
      assert ThreadOk(k, stale, s.buf, s.threads[t]);
    }
    hide Inv, IndexOf;
    if !Complete(s) {
      var t: nat :| t < |s.threads| && s.threads[t].pc != Done;
      assert CanStep(k, s, t);
    }
  }

  /** A bound on the steps a thread still takes. */
  function StepsLeft(k: Task, th: Thread): int {
    var rest := 6 * (k.grid.work - th.i);
    match th.pc
    case Start => 6 * k.grid.work + 2
    case Loop => rest + 1
    case WriteFlag => rest
    case ReadFlag => rest - 1
    case StoreHash => rest - 2
    case WriteX => rest - 3
    case WriteY => rest - 4
    case Done => 0
  }

  function StepsOf(k: Task): Thread -> int {
    th => StepsLeft(k, th)
  }

  function Measure(k: Task, s: State): int {
    Sum(s.threads, StepsOf(k))
  }

  lemma MeasureNonNegative(k: Task, stale: seq<Work>, s: State)
    requires Inv(k, stale, s)
    ensures Measure(k, s) >= 0
  {
    forall t: nat | t < |s.threads|
      ensures StepsOf(k)(s.threads[t]) >= 0
    {
      assert ThreadOk(k, stale, s.buf, s.threads[t]);
    }
    SumNonNegative(s.threads, StepsOf(k));
  }

  lemma ThreadAdvances(k: Task, th: Thread, flag: bool)
    requires th.pc != Done && th.i <= k.grid.work && (UsesMemory(th) ==> th.i < k.grid.work)
    ensures StepsLeft(k, Advance(k, th, flag)) < StepsLeft(k, th)
  {
    hide RowOf, XOf, YOf, Device.DSeed, Device.DCell;
  }

  lemma StepDecreases(k: Task, stale: seq<Work>, s: State, t: nat)
    requires Inv(k, stale, s) && CanStep(k, s, t)
    ensures Measure(k, Next(k, s, t)) < Measure(k, s)
  {
    assert ThreadOk(k, stale, s.buf, s.threads[t]);
    hide Inv, IndexOf, RowOf, Touch, Sum, Advance, StepsLeft, ThreadOk;
    ThreadAdvances(k, s.threads[t], Flag(k, s, t));
    SumAfterUpdate(s.threads, StepsOf(k), t, Next(k, s, t).threads[t]);
  }

  // ---------- the final buffer is reached ----------

  /** A thread that is done has finished all its rows inside the chunk. */
  lemma DoneThreadFinished(k: Task, stale: seq<Work>, buf: seq<Work>, th: Thread, i: nat)
    requires ValidTask(k) && |buf| == |stale|
    requires ThreadOk(k, stale, buf, th) && th.pc == Done
    requires i < k.grid.work && RowAt(k.grid, th.q, th.v, i) < k.chunk.side
    ensures RowDone(k, stale, buf, th.bx, th.q, th.v, i)
  {
    NoWrapAround(k.grid, th.q, th.v, th.i);
    hide Blocks, FinalCell, Row32, RowDone;
    assert i < th.i;
  }

  /** Whoever writes a cell has finalised it when all threads are done. */
  lemma WrittenCellIsFinal(k: Task, stale: seq<Work>, s: State, dx: nat, dy: nat, idx: nat)
    requires Inv(k, stale, s) && Complete(s)
    requires dx < k.chunk.side && Written(k.grid, dy)
    requires idx == Flat(k.chunk.side, dx, dy) && idx < |stale|
    ensures s.buf[idx] == FinalCell(k, stale, idx)
  {
    var q: nat, v: nat, i: nat :| Writes(k.grid, q, v, i, dy);
    assert HasThread(s.threads, dx, q, v);
    var t: nat :| t < |s.threads| && IsThread(s.threads[t], dx, q, v);
    hide Blocks, FinalCell, RowAt, ThreadOk;
    DoneThreadFinished(k, stale, s.buf, s.threads[t], i);
  }

  lemma UnwrittenCellIsFinal(k: Task, stale: seq<Work>, s: State, idx: nat)
    requires Inv(k, stale, s) && idx < |stale|
    requires !CellWritten(k, idx)
    ensures s.buf[idx] == FinalCell(k, stale, idx)
  {
    hide Launched, ThreadOk, CellWritten;
    assert Settling(FinalCell(k, stale, idx), stale[idx], s.buf[idx]);
  }

  lemma CompleteStateIsFinal(k: Task, stale: seq<Work>, s: State)
    requires Inv(k, stale, s) && Complete(s)
    ensures s.buf == FinalBuffer(k, stale)
  {
    var side := k.chunk.side;
    assert |s.buf| == |stale| == side * side;
    hide Inv, FinalCell, Written;
    forall idx: nat | idx < |stale|
      ensures s.buf[idx] == FinalCell(k, stale, idx)
    {
      FlatIndexOnto(side, idx);
      if CellWritten(k, idx) {
        WrittenCellIsFinal(k, stale, s, idx % side, idx / side, idx);
      } else {
        UnwrittenCellIsFinal(k, stale, s, idx);
      }
    }
  }

  // ---------- runs ----------

  ghost predicate IsStep(k: Task, s: State, t: nat, s': State) {
    CanStep(k, s, t) && s' == Next(k, s, t)
  }

  /** A run is any schedule from the launch. */
  ghost predicate IsRun(k: Task, stale: seq<Work>, states: seq<State>, schedule: seq<nat>)
    requires ValidTask(k)
  {
    && |states| == |schedule| + 1
    && IsInit(k, stale, states[0])
    && forall i | 0 <= i < |schedule| :: IsStep(k, states[i], schedule[i], states[i + 1])
  }

  lemma {:induction false} RunInvariant(
    k: Task, stale: seq<Work>, states: seq<State>, schedule: seq<nat>, i: nat)
    requires ValidTask(k) && IsRun(k, stale, states, schedule) && i < |states|
    ensures Inv(k, stale, states[i])
    ensures i + Measure(k, states[i]) <= Measure(k, states[0])
  {
    hide Inv, Measure, CanStep, Next, IsInit, ValidTask;
    if i == 0 {
      InitEstablishes(k, stale, states[0]);
    } else {
      RunInvariant(k, stale, states, schedule, i - 1);
      assert IsStep(k, states[i - 1], schedule[i - 1], states[i]);
      StepPreserves(k, stale, states[i - 1], schedule[i - 1]);
      StepDecreases(k, stale, states[i - 1], schedule[i - 1]);
    }
  }

  /** In every state of every run each field of each cell is untouched or has the value
      that the cell's coordinates determine. */
  lemma FieldsSettle(
    k: Task, stale: seq<Work>, states: seq<State>, schedule: seq<nat>, i: nat, idx: nat)
    requires ValidTask(k) && IsRun(k, stale, states, schedule) && i < |states|
    requires idx < |stale|
    ensures |states[i].buf| == |stale|
    ensures Settling(FinalCell(k, stale, idx), stale[idx], states[i].buf[idx])
  {
    hide FinalCell, CanStep, Next, ThreadOk;
    RunInvariant(k, stale, states, schedule, i);
  }

  /** Every maximal run ends in the same buffer, whatever the schedule and the overlap of
      the blocks. */
  lemma EveryCompleteRunFills(k: Task, stale: seq<Work>, states: seq<State>, schedule: seq<nat>)
    requires ValidTask(k) && IsRun(k, stale, states, schedule)
    requires forall t: nat :: !CanStep(k, states[|schedule|], t)
    ensures Complete(states[|schedule|])
    ensures states[|schedule|].buf == FinalBuffer(k, stale)
  {
    hide Inv, CanStep, Next, FinalBuffer, Complete;
    RunInvariant(k, stale, states, schedule, |schedule|);
    NeverStuck(k, stale, states[|schedule|]);
    CompleteStateIsFinal(k, stale, states[|schedule|]);
  }

  lemma {:induction false} FreshSteps(k: Task, ts: seq<Thread>)
    requires forall th | th in ts :: th.pc == Start
    ensures Sum(ts, StepsOf(k)) == |ts| * (6 * k.grid.work + 2)
  {
    if ts != [] {
      var front := ts[..|ts| - 1];
      FreshSteps(k, front);
      assert ts[|ts| - 1] in ts;
      OneMore(|front|, 6 * k.grid.work + 2);
    }
  }

  function StepBound(k: Task, threads: nat): nat {
    threads * (6 * k.grid.work + 2)
  }

  /** No schedule takes more steps than 6 * work + 2 per launched thread. */
  lemma RunsAreBounded(k: Task, stale: seq<Work>, states: seq<State>, schedule: seq<nat>)
    requires ValidTask(k) && IsRun(k, stale, states, schedule)
    ensures |schedule| <= StepBound(k, |states[0].threads|)
  {
    RunInvariant(k, stale, states, schedule, |schedule|);
    MeasureNonNegative(k, stale, states[|schedule|]);
    FreshSteps(k, states[0].threads);
    hide Inv, CanStep, Next, GridThreads, StepsOf, Sum, Blocks;
  }

  lemma RunExtends(k: Task, stale: seq<Work>, states: seq<State>, schedule: seq<nat>, t: nat)
    requires ValidTask(k) && IsRun(k, stale, states, schedule)
    requires CanStep(k, states[|schedule|], t)
    ensures IsRun(k, stale, states + [Next(k, states[|schedule|], t)], schedule + [t])
  {
    var s := states[|schedule|];
    var longer, more := states + [Next(k, s, t)], schedule + [t];
    assert IsStep(k, s, t, longer[|schedule| + 1]);
    hide IsStep, IsInit, ValidTask, CanStep, Next;
  }

  lemma RunGoesOn(k: Task, stale: seq<Work>, states: seq<State>, schedule: seq<nat>)
    returns (longer: seq<State>, more: seq<nat>)
    requires ValidTask(k) && IsRun(k, stale, states, schedule)
    requires !Complete(states[|schedule|])
    ensures IsRun(k, stale, longer, more)
    ensures states <= longer && schedule <= more && |more| == |schedule| + 1
    ensures |more| <= StepBound(k, |states[0].threads|)
  {
    var s := states[|schedule|];
    assert |states| == |schedule| + 1;
    RunInvariant(k, stale, states, schedule, |schedule|);
    hide Inv, IsRun, ValidTask, StepBound, CanStep, Next;
    NeverStuck(k, stale, s);
    var t: nat :| t < |s.threads| && s.threads[t].pc != Done;
    longer, more := states + [Next(k, s, t)], schedule + [t];
    RunExtends(k, stale, states, schedule, t);
    RunsAreBounded(k, stale, longer, more);
  }

  /** Every run extends to a complete one. */
  lemma RunsCanBeCompleted(k: Task, stale: seq<Work>, states: seq<State>, schedule: seq<nat>)
    returns (states': seq<State>, schedule': seq<nat>)
    requires ValidTask(k) && IsRun(k, stale, states, schedule)
    ensures IsRun(k, stale, states', schedule')
    ensures states <= states' && schedule <= schedule'
    ensures Complete(states'[|schedule'|])
    decreases StepBound(k, |states[0].threads|) - |schedule|
  {
    hide ValidTask, StepBound, IsInit, IsStep, Complete;
    if Complete(states[|schedule|]) {
      states', schedule' := states, schedule;
    } else {
      var longer, more := RunGoesOn(k, stale, states, schedule);
      states', schedule' := RunsCanBeCompleted(k, stale, longer, more);
    }
  }

  // ---------- the launch ----------

  lemma StepOfRun(k: Task, stale: seq<Work>, s: State, t: nat)
    requires Inv(k, stale, s) && t < |s.threads| && s.threads[t].pc != Done
    ensures CanStep(k, s, t)
    ensures Inv(k, stale, Next(k, s, t))
    ensures 0 <= Measure(k, Next(k, s, t)) < Measure(k, s)
  {
    hide Inv, CanStep, Next, Measure;
    NeverStuck(k, stale, s);
    StepPreserves(k, stale, s, t);
    StepDecreases(k, stale, s, t);
    MeasureNonNegative(k, stale, Next(k, s, t));
  }

  /** The kernel under an arbitrary scheduler, in place on the device buffer. */
  method LaunchKernel(k: Task, result: array<Work>)
    requires ValidTask(k) && result.Length == k.chunk.side * k.chunk.side
    modifies result
    ensures result[..] == FinalBuffer(k, old(result[..]))
  {
    LaunchFits(k.grid);
    var threads := GridThreads(k.chunk.side, GridSizeY(k.grid), k.grid.block);
    ghost var stale := result[..];
    InitEstablishes(k, stale, State(threads, result[..]));
    MeasureNonNegative(k, stale, State(threads, result[..]));
    hide Inv, Advance, Touch, Measure, FinalBuffer, IndexOf, GridThreads;
    while exists t :: 0 <= t < |threads| && threads[t].pc != Done
      invariant Inv(k, stale, State(threads, result[..]))
      invariant Measure(k, State(threads, result[..])) >= 0
      decreases Measure(k, State(threads, result[..]))
    {
      var t: nat :| t < |threads| && threads[t].pc != Done;
      ghost var s := State(threads, result[..]);
      StepOfRun(k, stale, s, t);
      var th := threads[t];
      if UsesMemory(th) {
        var idx := IndexOf(k, th);
        var flag := result[idx].isPlanet;
        result[idx] := Touch(k, th, result[idx]);
        threads := threads[t := Advance(k, th, flag)];
      } else {
        threads := threads[t := Advance(k, th, false)];
      }
      assert State(threads, result[..]) == Next(k, s, t);
    }
    CompleteStateIsFinal(k, stale, State(threads, result[..]));
  }
}
