/**
 The CPU miner's parallel region as an interleaving of worker steps.  Columns are handed to
 workers in any way; each worker has a private sponge; pushes happen inside one critical
 section.  Every run is safe, bounded and never stuck, and every complete run appends the
 planets of the sequential loops, each column's planets in order.
 */
module CpuThreads {
  import opened SpongeSpec
  import opened Planets
  import opened CpuMiner
  import opened Scheduling

  /** Where a worker is: between columns, about to hash a row, holding a planet outside the
      critical section, inside it before the push, inside it after the push. */
  datatype Phase = Idle | Hashing | Waiting | Entered | Pushed

  datatype Worker = Worker(phase: Phase, x: int, y: int, snap: Halves, hash: nat)

  datatype Status = Unclaimed | Owned(worker: nat) | Finished

  datatype Lock = Free | HeldBy(worker: nat)

  /** `pushed` is what the run has appended to the result vector so far. */
  datatype State = State(
    workers: seq<Worker>, columns: map<int, Status>, lock: Lock, pushed: seq<Planet>)

  datatype Action = Claim(x: int) | HashRow | Enter | Push | Leave | Finish

  ghost predicate IsInit(j: Job, s: State) {
    && |s.workers| > 0
    && (forall t | 0 <= t < |s.workers| :: s.workers[t].phase == Idle)
    && (forall x :: x in s.columns <==> j.chunk.x <= x < j.chunk.x + j.chunk.side)
    && (forall x | x in s.columns :: s.columns[x] == Unclaimed)
    && s.lock == Free
    && s.pushed == []
  }

  predicate Enabled(j: Job, s: State, t: nat, a: Action)
    requires t < |s.workers|
  {
    var w := s.workers[t];
    match a
    case Claim(x) => w.phase == Idle && x in s.columns && s.columns[x] == Unclaimed
    case HashRow => w.phase == Hashing && w.y < j.chunk.y + j.chunk.side
    case Enter => w.phase == Waiting && s.lock == Free
    case Push => w.phase == Entered
    case Leave => w.phase == Pushed
    case Finish => w.phase == Hashing && w.y >= j.chunk.y + j.chunk.side
  }

  /** Hashing a row: restore, inject, mix; the worker goes on to the next row unless the
      hash is below the threshold. */
  function HashStep(j: Job, w: Worker): Worker
    requires j.rarity > 0
  {
    var hash := Cell(w.snap, w.y, j.key, j.f).l;
    if hash < Threshold(j) then w.(phase := Waiting, hash := hash)
    else w.(y := w.y + 1, hash := hash)
  }

  function Next(j: Job, s: State, t: nat, a: Action): State
    requires t < |s.workers| && j.rarity > 0
  {
    var w := s.workers[t];
    match a
    case Claim(x) =>
      s.(workers := s.workers[t := Worker(Hashing, x, j.chunk.y, Seed(x, j.key, j.f), w.hash)],
         columns := s.columns[x := Owned(t)])
    case HashRow => s.(workers := s.workers[t := HashStep(j, w)])
    case Enter => s.(workers := s.workers[t := w.(phase := Entered)], lock := HeldBy(t))
    case Push =>
      s.(workers := s.workers[t := w.(phase := Pushed)],
         pushed := s.pushed + [Planet(w.x, w.y, w.hash)])
    case Leave =>
      s.(workers := s.workers[t := w.(phase := Hashing, y := w.y + 1)], lock := Free)
    case Finish =>
      s.(workers := s.workers[t := w.(phase := Idle)], columns := s.columns[w.x := Finished])
  }

  /** The barrier at the end of the loop: no column is left. */
  predicate Complete(s: State) {
    forall x | x in s.columns :: s.columns[x] == Finished
  }

  // ---------- the invariant ----------

  /** The planets of one column, in the order they were appended. */
  function OfColumn(list: seq<Planet>, x: int): seq<Planet> {
    if list == [] then []
    else
      var p := list[|list| - 1];
      OfColumn(list[..|list| - 1], x) + (if p.x == x then [p] else [])
  }

  predicate HoldsPlanet(w: Worker) {
    w.phase == Waiting || w.phase == Entered || w.phase == Pushed
  }

  predicate InCritical(w: Worker) {
    w.phase == Entered || w.phase == Pushed
  }

  /** How many rows of the column have been dealt with. */
  function Progress(j: Job, s: State, x: int): int
    requires x in s.columns && (s.columns[x].Owned? ==> s.columns[x].worker < |s.workers|)
  {
    match s.columns[x]
    case Unclaimed => 0
    case Finished => j.chunk.side
    case Owned(t) => s.workers[t].y - j.chunk.y + (if s.workers[t].phase == Pushed then 1 else 0)
  }

  predicate WorkerOk(j: Job, s: State, t: nat)
    requires t < |s.workers| && j.rarity > 0
  {
    var w := s.workers[t];
    w.phase != Idle ==>
      && w.x in s.columns && s.columns[w.x] == Owned(t)
      && j.chunk.y <= w.y <= j.chunk.y + j.chunk.side
      && w.snap == Seed(w.x, j.key, j.f)
      && (HoldsPlanet(w) ==>
            && w.y < j.chunk.y + j.chunk.side
            && w.hash == Hash(j.f, j.key)(w.x, w.y) < Threshold(j))
  }

  predicate ColumnOk(j: Job, s: State, x: int)
    requires x in s.columns && j.rarity > 0
  {
    && (s.columns[x].Owned? ==>
          var t := s.columns[x].worker;
          t < |s.workers| && s.workers[t].phase != Idle && s.workers[t].x == x)
    && 0 <= Progress(j, s, x) <= j.chunk.side
    && OfColumn(s.pushed, x)
       == Column(Hash(j.f, j.key), Threshold(j), x, j.chunk.y, Progress(j, s, x))
  }

  /** Mutual exclusion: a worker is in the critical section exactly if it holds the lock. */
  predicate LockOk(s: State) {
    && (forall t: nat | t < |s.workers| :: InCritical(s.workers[t]) <==> s.lock == HeldBy(t))
    && (s.lock.HeldBy? ==> s.lock.worker < |s.workers|)
  }

  ghost predicate Inv(j: Job, s: State) {
    && j.rarity > 0
    && |s.workers| > 0
    && (forall x :: x in s.columns <==> j.chunk.x <= x < j.chunk.x + j.chunk.side)
    && (forall t: nat | t < |s.workers| :: WorkerOk(j, s, t))
    && (forall x | x in s.columns :: ColumnOk(j, s, x))
    && (forall i | 0 <= i < |s.pushed| :: s.pushed[i].x in s.columns)
    && LockOk(s)
  }

  lemma InitEstablishes(j: Job, s: State)
    requires j.rarity > 0 && IsInit(j, s)
    ensures Inv(j, s)
  {
  }

  lemma OfColumnPush(list: seq<Planet>, p: Planet, x: int)
    ensures OfColumn(list + [p], x) == OfColumn(list, x) + (if p.x == x then [p] else [])
  {
    assert (list + [p])[..|list|] == list;
  }

  lemma StepPreserves(j: Job, s: State, t: nat, a: Action)
    requires Inv(j, s) && t < |s.workers| && Enabled(j, s, t, a)
    ensures Inv(j, Next(j, s, t, a))
  {
    match a
    case Claim(x) => ClaimPreserves(j, s, t, x);
    case HashRow => HashPreserves(j, s, t);
    case Push => PushPreserves(j, s, t);
    case Leave => LeavePreserves(j, s, t);
    case _ => OtherPreserves(j, s, t, a);
  }

  lemma ClaimPreserves(j: Job, s: State, t: nat, x: int)
    requires Inv(j, s) && t < |s.workers| && Enabled(j, s, t, Claim(x))
    ensures Inv(j, Next(j, s, t, Claim(x)))
  {
    hide Column, OfColumn, Seed, Hash, Threshold;
    var s' := Next(j, s, t, Claim(x));
    assert ColumnOk(j, s, x);
    forall z | z in s'.columns
      ensures ColumnOk(j, s', z)
    {
      assert ColumnOk(j, s, z);
    }
    forall u: nat | u < |s'.workers|
      ensures WorkerOk(j, s', u)
    {
      assert WorkerOk(j, s, u);
    }
  }

  lemma HashPreserves(j: Job, s: State, t: nat)
    requires Inv(j, s) && t < |s.workers| && Enabled(j, s, t, HashRow)
    ensures Inv(j, Next(j, s, t, HashRow))
  {
    hide OfColumn, Seed, Cell, Threshold;
    var s', w := Next(j, s, t, HashRow), s.workers[t];
    assert WorkerOk(j, s, t);
    assert Hash(j.f, j.key)(w.x, w.y) == Cell(w.snap, w.y, j.key, j.f).l;
    forall z | z in s'.columns
      ensures ColumnOk(j, s', z)
    {
      assert ColumnOk(j, s, z);
    }
    forall u: nat | u < |s'.workers|
      ensures WorkerOk(j, s', u)
    {
      assert WorkerOk(j, s, u);
    }
  }

  lemma PushPreserves(j: Job, s: State, t: nat)
    requires Inv(j, s) && t < |s.workers| && Enabled(j, s, t, Push)
    ensures Inv(j, Next(j, s, t, Push))
  {
    hide OfColumn, Seed, Hash, Threshold;
    var s', w := Next(j, s, t, Push), s.workers[t];
    var p := Planet(w.x, w.y, w.hash);
    assert WorkerOk(j, s, t);
    forall z | z in s'.columns
      ensures ColumnOk(j, s', z)
    {
      assert ColumnOk(j, s, z);
      OfColumnPush(s.pushed, p, z);
    }
    forall u: nat | u < |s'.workers|
      ensures WorkerOk(j, s', u)
    {
      assert WorkerOk(j, s, u);
    }
  }

  lemma LeavePreserves(j: Job, s: State, t: nat)
    requires Inv(j, s) && t < |s.workers| && Enabled(j, s, t, Leave)
    ensures Inv(j, Next(j, s, t, Leave))
  {
    hide Column, OfColumn, Seed, Hash, Threshold;
    var s', w := Next(j, s, t, Leave), s.workers[t];
    assert WorkerOk(j, s, t);
    forall z | z in s'.columns
      ensures ColumnOk(j, s', z)
    {
      assert ColumnOk(j, s, z);
    }
    forall u: nat | u < |s'.workers|
      ensures WorkerOk(j, s', u)
    {
      assert WorkerOk(j, s, u);
    }
  }

  lemma OtherPreserves(j: Job, s: State, t: nat, a: Action)
    requires Inv(j, s) && t < |s.workers| && Enabled(j, s, t, a)
    requires a == Enter || a == Finish
    ensures Inv(j, Next(j, s, t, a))
  {
    hide Column, OfColumn, Seed, Hash, Threshold;
    var s', w := Next(j, s, t, a), s.workers[t];
    assert WorkerOk(j, s, t);
    forall z | z in s'.columns
      ensures ColumnOk(j, s', z)
    {
      assert ColumnOk(j, s, z);
    }
    forall u: nat | u < |s'.workers|
      ensures WorkerOk(j, s', u)
    {
      assert WorkerOk(j, s, u);
    }
  }

  // ---------- no run is stuck, every run ends ----------

  /** Some worker can step exactly while some column is not finished. */
  lemma NeverStuck(j: Job, s: State)
    requires Inv(j, s)
    ensures Complete(s) <==> forall t: nat, a | t < |s.workers| :: !Enabled(j, s, t, a)
  {
    hide Column, OfColumn, Seed, Hash, Threshold;
    if Complete(s) {
      forall t: nat, a | t < |s.workers|
        ensures !Enabled(j, s, t, a)
      {
        assert WorkerOk(j, s, t);
      }
    } else if t: nat :| t < |s.workers| && s.workers[t].phase != Idle {
      var u := BusyWorkerLeadsToStep(j, s, t);
    } else {
      var x :| x in s.columns && s.columns[x] != Finished;
      assert ColumnOk(j, s, x);
      assert Enabled(j, s, 0, Claim(x));
    }
  }

  /** While a worker is busy, it or the holder of the lock can step. */
  lemma BusyWorkerLeadsToStep(j: Job, s: State, t: nat) returns (u: nat)
    requires Inv(j, s) && t < |s.workers| && s.workers[t].phase != Idle
    ensures u < |s.workers| && s.workers[u].phase != Idle
    ensures exists a :: Enabled(j, s, u, a)
  {
    hide Column, OfColumn, Seed, Hash, Threshold;
    u := if s.workers[t].phase == Waiting && s.lock.HeldBy? then s.lock.worker else t;
    var w := s.workers[u];
    var a := match w.phase
      case Hashing => if w.y < j.chunk.y + j.chunk.side then HashRow else Finish
      case Waiting => Enter
      case Entered => Push
      case _ => Leave;
    assert Enabled(j, s, u, a);
  }

  /** A bound on the steps a worker still has to take in its column. */
  function StepsLeft(j: Job, w: Worker): int {
    var rows := j.chunk.y + j.chunk.side - w.y;
    match w.phase
    case Idle => 0
    case Hashing => 4 * rows + 1
    case Waiting => 4 * rows
    case Entered => 4 * rows - 1
    case Pushed => 4 * rows - 2
  }

  function StepsOf(j: Job): Worker -> int {
    w => StepsLeft(j, w)
  }

  function UnclaimedColumns(columns: map<int, Status>): set<int> {
    set x | x in columns && columns[x] == Unclaimed
  }

  function StepsPerColumn(j: Job): nat {
    4 * j.chunk.side + 2
  }

  function Measure(j: Job, s: State): int {
    StepsPerColumn(j) * |UnclaimedColumns(s.columns)| + Sum(s.workers, StepsOf(j))
  }

  lemma MeasureNonNegative(j: Job, s: State)
    requires Inv(j, s)
    ensures Measure(j, s) >= 0
  {
    hide ColumnOk;
    forall t: nat | t < |s.workers|
      ensures StepsLeft(j, s.workers[t]) >= 0
    {
      assert WorkerOk(j, s, t);
    }
    SumNonNegative(s.workers, StepsOf(j));
  }

  lemma WorkerAdvances(j: Job, s: State, t: nat, a: Action)
    requires Inv(j, s) && t < |s.workers| && Enabled(j, s, t, a)
    ensures var w, w' := s.workers[t], Next(j, s, t, a).workers[t];
            if a.Claim? then StepsLeft(j, w') == StepsLeft(j, w) + StepsPerColumn(j) - 1
            else StepsLeft(j, w') < StepsLeft(j, w)
    ensures Next(j, s, t, a).workers == s.workers[t := Next(j, s, t, a).workers[t]]
  {
    hide ColumnOk, LockOk, Seed, Cell, Hash, Threshold;
    assert WorkerOk(j, s, t);
  }

  lemma UnclaimedAfterUpdate(columns: map<int, Status>, x: int, to: Status)
    requires x in columns && to != Unclaimed
    ensures |UnclaimedColumns(columns[x := to])|
         == |UnclaimedColumns(columns)| - (if columns[x] == Unclaimed then 1 else 0)
  {
    if columns[x] == Unclaimed {
      assert UnclaimedColumns(columns) == UnclaimedColumns(columns[x := to]) + {x};
    } else {
      assert UnclaimedColumns(columns) == UnclaimedColumns(columns[x := to]);
    }
  }

  lemma UnclaimedAfter(j: Job, s: State, t: nat, a: Action)
    requires Inv(j, s) && t < |s.workers| && Enabled(j, s, t, a)
    ensures var u, u' := UnclaimedColumns(s.columns), UnclaimedColumns(Next(j, s, t, a).columns);
            |u'| == if a.Claim? then |u| - 1 else |u|
  {
    assert WorkerOk(j, s, t);
    hide Inv, UnclaimedColumns, Seed, HashStep;
    match a
    case Claim(x) => UnclaimedAfterUpdate(s.columns, x, Owned(t));
    case Finish => UnclaimedAfterUpdate(s.columns, s.workers[t].x, Finished);
    case _ =>
  }

  lemma OneLess(k: int, n: int)
    ensures k * (n - 1) == k * n - k
  {
  }

  lemma StepDecreases(j: Job, s: State, t: nat, a: Action)
    requires Inv(j, s) && t < |s.workers| && Enabled(j, s, t, a)
    ensures Measure(j, Next(j, s, t, a)) < Measure(j, s)
  {
    assert j.rarity > 0;
    hide Inv, Enabled, Next, StepsLeft, StepsPerColumn, UnclaimedColumns, Sum;
    var s' := Next(j, s, t, a);
    WorkerAdvances(j, s, t, a);
    UnclaimedAfter(j, s, t, a);
    SumAfterUpdate(s.workers, StepsOf(j), t, s'.workers[t]);
    OneLess(StepsPerColumn(j), |UnclaimedColumns(s.columns)|);
  }

  // ---------- runs ----------

  datatype Choice = Choice(worker: nat, action: Action)

  ghost predicate IsStep(j: Job, s: State, c: Choice, s': State)
    requires j.rarity > 0
  {
    c.worker < |s.workers| && Enabled(j, s, c.worker, c.action) && s' == Next(j, s, c.worker, c.action)
  }

  /** A run is any schedule from an initial state. */
  ghost predicate IsRun(j: Job, states: seq<State>, schedule: seq<Choice>)
    requires j.rarity > 0
  {
    && |states| == |schedule| + 1
    && IsInit(j, states[0])
    && forall i | 0 <= i < |schedule| :: IsStep(j, states[i], schedule[i], states[i + 1])
  }

  lemma {:induction false} RunInvariant(j: Job, states: seq<State>, schedule: seq<Choice>, i: nat)
    requires j.rarity > 0 && IsRun(j, states, schedule) && i < |states|
    ensures Inv(j, states[i])
    ensures i + Measure(j, states[i]) <= Measure(j, states[0])
  {
    hide Inv, Measure, Enabled, Next, IsInit;
    if i == 0 {
      InitEstablishes(j, states[0]);
    } else {
      RunInvariant(j, states, schedule, i - 1);
      var c := schedule[i - 1];
      assert IsStep(j, states[i - 1], c, states[i]);
      StepPreserves(j, states[i - 1], c.worker, c.action);
      StepDecreases(j, states[i - 1], c.worker, c.action);
    }
  }

  lemma {:induction false} IdleWorkersNeedNoSteps(j: Job, ws: seq<Worker>)
    requires forall t | 0 <= t < |ws| :: ws[t].phase == Idle
    ensures Sum(ws, StepsOf(j)) == 0
  {
    if ws != [] {
      IdleWorkersNeedNoSteps(j, ws[..|ws| - 1]);
    }
  }

  function Interval(lo: int, n: nat): (r: set<int>)
    ensures forall x :: x in r <==> lo <= x < lo + n
    ensures |r| == n
  {
    if n == 0 then {} else Interval(lo, n - 1) + {lo + n - 1}
  }

  lemma InitMeasure(j: Job, s: State)
    requires IsInit(j, s)
    ensures Measure(j, s) == StepsPerColumn(j) * j.chunk.side
  {
    IdleWorkersNeedNoSteps(j, s.workers);
    assert UnclaimedColumns(s.columns) == Interval(j.chunk.x, j.chunk.side);
  }

  /** No schedule is longer than a bound that depends on the side length alone. */
  lemma RunsAreBounded(j: Job, states: seq<State>, schedule: seq<Choice>)
    requires j.rarity > 0 && IsRun(j, states, schedule)
    ensures |schedule| <= StepsPerColumn(j) * j.chunk.side
  {
    hide Measure;
    RunInvariant(j, states, schedule, |schedule|);
    MeasureNonNegative(j, states[|schedule|]);
    InitMeasure(j, states[0]);
  }

  /** In every state of every run at most one worker is in the critical section. */
  lemma MutualExclusion(j: Job, states: seq<State>, schedule: seq<Choice>, i: nat, t: nat, u: nat)
    requires j.rarity > 0 && IsRun(j, states, schedule) && i < |states|
    requires t < |states[i].workers| && u < |states[i].workers|
    requires InCritical(states[i].workers[t]) && InCritical(states[i].workers[u])
    ensures t == u
  {
    hide Enabled, Next, WorkerOk, ColumnOk;
    RunInvariant(j, states, schedule, i);
  }

  /** Every run extends to a complete one. */
  lemma RunsCanBeCompleted(j: Job, states: seq<State>, schedule: seq<Choice>)
    returns (states': seq<State>, schedule': seq<Choice>)
    requires j.rarity > 0 && IsRun(j, states, schedule)
    ensures IsRun(j, states', schedule')
    ensures states <= states' && schedule <= schedule'
    ensures Complete(states'[|schedule'|])
    decreases StepsPerColumn(j) * j.chunk.side - |schedule|
  {
    var s := states[|schedule|];
    RunsAreBounded(j, states, schedule);
    RunInvariant(j, states, schedule, |schedule|);
    hide Inv, IsInit;
    if Complete(s) {
      states', schedule' := states, schedule;
    } else {
      NeverStuck(j, s);
      var t: nat, a :| t < |s.workers| && Enabled(j, s, t, a);
      hide Enabled, Next;
      var c := Choice(t, a);
      var longer, more := states + [Next(j, s, t, a)], schedule + [c];
      assert IsStep(j, s, c, longer[|schedule| + 1]);
      assert forall i | 0 <= i < |more| :: IsStep(j, longer[i], more[i], longer[i + 1]);
      RunsAreBounded(j, longer, more);
      states', schedule' := RunsCanBeCompleted(j, longer, more);
    }
  }

  // ---------- what a complete run has appended ----------

  lemma {:induction false} OfColumnConcat(a: seq<Planet>, b: seq<Planet>, x: int)
    ensures OfColumn(a + b, x) == OfColumn(a, x) + OfColumn(b, x)
  {
    if b == [] {
      assert a + b == a;
    } else {
      assert (a + b)[..|a + b| - 1] == a + b[..|b| - 1];
      OfColumnConcat(a, b[..|b| - 1], x);
    }
  }

  lemma {:induction false} OfColumnOfColumn(h: Hasher, t: nat, z: int, y0: int, n: nat, x: int)
    ensures OfColumn(Column(h, t, z, y0, n), x) == if z == x then Column(h, t, z, y0, n) else []
  {
    if n > 0 {
      OfColumnOfColumn(h, t, z, y0, n - 1, x);
      var front := Column(h, t, z, y0, n - 1);
      if Hit(h, t, z, y0 + n - 1) == [] {
        assert Column(h, t, z, y0, n) == front;
      } else {
        OfColumnPush(front, Hit(h, t, z, y0 + n - 1)[0], x);
      }
    }
  }

  lemma {:induction false} OfColumnOfColumns(h: Hasher, t: nat, c: Chunk, n: nat, x: int)
    ensures OfColumn(Columns(h, t, c, n), x)
         == if c.x <= x < c.x + n then Column(h, t, x, c.y, c.side) else []
  {
    hide Column, OfColumn;
    if n == 0 {
      NoneOfColumn([], x);
    } else {
      OfColumnOfColumns(h, t, c, n - 1, x);
      OfColumnOfColumn(h, t, c.x + n - 1, c.y, c.side, x);
      OfColumnConcat(Columns(h, t, c, n - 1), Column(h, t, c.x + n - 1, c.y, c.side), x);
    }
  }

  lemma {:induction false} NoneOfColumn(list: seq<Planet>, x: int)
    requires forall i | 0 <= i < |list| :: list[i].x != x
    ensures OfColumn(list, x) == []
  {
    if list != [] {
      NoneOfColumn(list[..|list| - 1], x);
    }
  }

  lemma {:induction false} CountOfColumn(list: seq<Planet>, p: Planet)
    ensures Count(OfColumn(list, p.x), p) == Count(list, p)
  {
    if list != [] {
      var front, q := list[..|list| - 1], list[|list| - 1];
      CountOfColumn(front, p);
      if q.x == p.x {
        assert (OfColumn(front, p.x) + [q])[..|OfColumn(front, p.x)|] == OfColumn(front, p.x);
      } else {
        assert OfColumn(list, p.x) == OfColumn(front, p.x);
      }
    }
  }

  /** Lists that agree column by column hold the same planets. */
  lemma ColumnsDecide(a: seq<Planet>, b: seq<Planet>)
    requires forall x :: OfColumn(a, x) == OfColumn(b, x)
    ensures multiset(a) == multiset(b)
  {
    hide Count, OfColumn;
    forall p: Planet
      ensures Count(a, p) == Count(b, p)
    {
      CountOfColumn(a, p);
      CountOfColumn(b, p);
      assert OfColumn(a, p.x) == OfColumn(b, p.x);
    }
    EqualCounts(a, b);
  }

  lemma CompleteStateIsMined(j: Job, s: State)
    requires Inv(j, s) && Complete(s)
    ensures forall x :: OfColumn(s.pushed, x) == OfColumn(Mined(j), x)
    ensures multiset(s.pushed) == multiset(Mined(j))
  {
    hide Column, OfColumn, Hash, Threshold;
    forall x
      ensures OfColumn(s.pushed, x) == OfColumn(Mined(j), x)
    {
      OfColumnOfColumns(Hash(j.f, j.key), Threshold(j), j.chunk, j.chunk.side, x);
      if x in s.columns {
        assert ColumnOk(j, s, x);
      } else {
        NoneOfColumn(s.pushed, x);
      }
    }
    ColumnsDecide(s.pushed, Mined(j));
  }

  /** Every maximal run, under any assignment of columns and any schedule, appends exactly
      the planets of the sequential loops, and within a column in the order of rising y. */
  lemma EveryCompleteRunMines(j: Job, states: seq<State>, schedule: seq<Choice>)
    requires j.rarity > 0 && IsRun(j, states, schedule)
    requires forall t: nat, a | t < |states[|schedule|].workers| ::
               !Enabled(j, states[|schedule|], t, a)
    ensures Complete(states[|schedule|])
    ensures multiset(states[|schedule|].pushed) == multiset(Mined(j))
    ensures forall x :: OfColumn(states[|schedule|].pushed, x) == OfColumn(Mined(j), x)
  {
    hide Inv, Mined, OfColumn;
    RunInvariant(j, states, schedule, |schedule|);
    NeverStuck(j, states[|schedule|]);
    CompleteStateIsMined(j, states[|schedule|]);
  }

  // ---------- the parallel region ----------

  predicate CanStep(s: State, t: nat)
    requires t < |s.workers|
  {
    match s.workers[t].phase
    case Idle => exists x | x in s.columns :: s.columns[x] == Unclaimed
    case Waiting => s.lock == Free
    case _ => true
  }

  /** The action a worker takes; an idle worker claims an arbitrary column. */
  method ChooseAction(j: Job, s: State, t: nat) returns (a: Action)
    requires t < |s.workers| && CanStep(s, t)
    ensures Enabled(j, s, t, a)
  {
    var w := s.workers[t];
    match w.phase {
      case Idle =>
        var x :| x in s.columns && s.columns[x] == Unclaimed;
        a := Claim(x);
      case Hashing => a := if w.y < j.chunk.y + j.chunk.side then HashRow else Finish;
      case Waiting => a := Enter;
      case Entered => a := Push;
      case Pushed => a := Leave;
    }
  }

  lemma SomeWorkerCanStep(j: Job, s: State)
    requires Inv(j, s) && !Complete(s)
    ensures exists t: nat :: t < |s.workers| && CanStep(s, t)
  {
    hide Inv;
    NeverStuck(j, s);
    var t: nat, a :| t < |s.workers| && Enabled(j, s, t, a);
    assert CanStep(s, t);
  }

  /** `mine` with n workers and an arbitrary scheduler. */
  method MineParallel(j: Job, n: nat, result: PlanetVector)
    requires ValidJob(j) && n > 0
    modifies result
    ensures |result.items| >= |old(result.items)|
    ensures result.items[..|old(result.items)|] == old(result.items)
    ensures multiset(result.items[|old(result.items)|..]) == multiset(Mined(j))
    ensures forall x :: OfColumn(result.items[|old(result.items)|..], x) == OfColumn(Mined(j), x)
  {
    hide Mined, OfColumn, Measure, Inv, Complete;
    var workers := seq(n, _ => Worker(Idle, 0, 0, ZERO, 0));
    var columns := map x | x in Interval(j.chunk.x, j.chunk.side) :: Unclaimed;
    var s := State(workers, columns, Free, []);
    InitEstablishes(j, s);
    MeasureNonNegative(j, s);
    while !Complete(s)
      invariant Inv(j, s) && Measure(j, s) >= 0
      invariant result.items == old(result.items) + s.pushed
      decreases Measure(j, s)
    {
      SomeWorkerCanStep(j, s);
      var t: nat :| t < |s.workers| && CanStep(s, t);
      var a := ChooseAction(j, s, t);
      StepPreserves(j, s, t, a);
      StepDecreases(j, s, t, a);
      if a == Push {
        var w := s.workers[t];
        result.PushBack(Planet(w.x, w.y, w.hash));
      }
      s := Next(j, s, t, a);
      MeasureNonNegative(j, s);
    }
    CompleteStateIsMined(j, s);
    assert result.items[|old(result.items)|..] == s.pushed;
  }
}
