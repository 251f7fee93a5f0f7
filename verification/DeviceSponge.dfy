/**
 The CUDA sponge: 256-bit registers, a subtract-while-larger reduction that leaves p itself
 unreduced, and a fifth power by two squarings and a product.  Its simulation by the CPU
 sponge reads a register that holds p as the residue 0.
 */
module DeviceSponge {
  import opened ModArith
  import opened SpongeSpec

  // ---------- 256-bit registers ----------

  function AddWrap(a: nat, b: nat): nat {
    Mod(a + b, U256)
  }

  function SubWrap(a: nat, b: nat): nat {
    Mod(a - b, U256)
  }

  /** The remainder of a 512-bit number: its high half must be below the divisor. */
  method RemWide(w: nat, p: nat) returns (r: nat)
    requires w / U256 < p < U256
    ensures r == Mod(w, p)
  {
    r := Mod(w, p);
  }

  /** What subtracting p while the value is larger than p leaves. */
  function Reduce(s: nat, p: nat): nat
    requires p > 0
  {
    if s > p then Reduce(s - p, p) else s
  }

  function DAdd(a: nat, b: nat, p: nat): nat
    requires p > 0
  {
    Reduce(AddWrap(a, b), p)
  }

  function DMul(a: nat, b: nat, p: nat): nat
    requires p > 0
  {
    Mod(a * b, p)
  }

  function DFifth(n: nat, p: nat): nat
    requires p > 0
  {
    var s := DMul(n, n, p);
    var f := DMul(s, s, p);
    DMul(f, n, p)
  }

  function DWrap(c: int, p: nat): nat {
    if c >= 0 then Low32(c) else SubWrap(p, Low32(-c))
  }

  // ---------- device functions ----------

  /** The subtraction never borrows: the result is the CPU's wrapped coordinate, and the
      residue of a coordinate of 32-bit magnitude. */
  method WrapCoordinate(c: int, f: Field) returns (out: nat)
    requires -(U64 / 2) < c < U64 / 2
    ensures out == DWrap(c, f.p) == Wrap(c, f) <= f.p
    ensures -U32 < c < U32 ==> out == Mod(c, f.p)
  {
    WrapAgrees(c, f);
    if -U32 < c < U32 {
      WrapResidue(c, f);
    }
    if c >= 0 {
      var n := Low32(c);
      out := n;
      return;
    }
    var m := Low32(-c);
    var n := SubWrap(f.p, m);
    out := n;
  }

  /** For all operands that fit a register the loop ends; for operands in [0, p] it runs at
      most once, nothing overflows, and the result is again in [0, p]. */
  method FieldAdd(a: nat, b: nat, p: nat) returns (r: nat, ghost subtractions: nat)
    requires a < U256 && b < U256 && 0 < p < U256
    ensures r == DAdd(a, b, p) <= p
    ensures r == AddWrap(a, b) - subtractions * p
    ensures r == 0 ==> subtractions == 0
    ensures a <= p && b <= p && 2 * p < U256 ==>
              subtractions <= 1 && r == a + b - subtractions * p
  {
    r := AddWrap(a, b);
    subtractions := 0;
    if a <= p && b <= p && 2 * p < U256 {
      ModSmall(a + b, U256);
    }
    hide Mod;
    while r > p
      invariant r < U256
      invariant Reduce(r, p) == DAdd(a, b, p)
      invariant r == AddWrap(a, b) - subtractions * p
      invariant r == 0 ==> subtractions == 0
      invariant a <= p && b <= p && 2 * p < U256 ==>
                  subtractions <= 1 && r == a + b - subtractions * p
    {
      ModSmall(r - p, U256);
      OneMore(subtractions, p);
      r := SubWrap(r, p);
      subtractions := subtractions + 1;
    }
  }

  /** The high half of the wide product is below p, as the wide remainder demands. */
  method FieldMul(a: nat, b: nat, p: nat) returns (r: nat)
    requires a <= p && b < U256 && 0 < p < U256
    ensures r == DMul(a, b, p) == Mod(a * b, p) < p
  {
    var w := a * b;
    HighHalfBelow(a, b, p);
    r := RemWide(w, p);
  }

  lemma HighHalfBelow(a: nat, b: nat, p: nat)
    requires a <= p && b < U256 && 0 < p
    ensures a * b / U256 < p
  {
    assert a * b <= p * b;
    assert p * b < p * U256;
  }

  method FifthPower(n: nat, p: nat) returns (r: nat, s: nat, f: nat)
    requires n <= p && 0 < p < U256
    ensures r == DFifth(n, p) < p && s == Mod(n * n, p) < p && f == Mod(s * s, p) < p
    ensures r == Pow5(Canon(n, p), p)
  {
    FifthSimulated(n, p);
    s := FieldMul(n, n, p);
    f := FieldMul(s, s, p);
    r := FieldMul(f, n, p);
  }

  // ---------- the permutation on registers ----------

  function DRound(h: Halves, key: nat, c: nat, p: nat): Halves
    requires p > 0
  {
    Halves(DAdd(DFifth(DAdd(DAdd(key, h.l, p), c, p), p), h.r, p), h.l)
  }

  function DRounds(h: Halves, key: nat, cs: seq<nat>, p: nat): Halves
    requires p > 0
  {
    if cs == [] then h
    else DRound(DRounds(h, key, cs[..|cs| - 1], p), key, cs[|cs| - 1], p)
  }

  function DLastRound(h: Halves, key: nat, p: nat): Halves
    requires p > 0
  {
    Halves(h.l, DAdd(DFifth(DAdd(key, h.l, p), p), h.r, p))
  }

  function DMixed(h: Halves, key: nat, f: Field): Halves {
    DLastRound(DRounds(h, key, f.c, f.p), key, f.p)
  }

  function DInjected(h: Halves, x: nat, f: Field): Halves {
    Halves(DAdd(h.l, x, f.p), h.r)
  }

  function DApply(m: Memory, op: Op, key: nat, f: Field): Memory {
    match op
    case Reset => m.(live := ZERO)
    case Inject(x) => m.(live := DInjected(m.live, x, f))
    case Mix => m.(live := DMixed(m.live, key, f))
    case Save => m.(snap := m.live)
    case Restore => m.(live := m.snap)
  }

  function DRun(m: Memory, ops: seq<Op>, key: nat, f: Field): Memory {
    if ops == [] then m
    else DApply(DRun(m, ops[..|ops| - 1], key, f), ops[|ops| - 1], key, f)
  }

  function DSeed(x: int, key: nat, f: Field): Halves {
    DMixed(DInjected(ZERO, DWrap(x, f.p), f), key, f)
  }

  function DCell(seed: Halves, y: int, key: nat, f: Field): Halves {
    DMixed(DInjected(seed, DWrap(y, f.p), f), key, f)
  }

  function DCellHash(x: int, y: int, key: nat, f: Field): nat {
    DCell(DSeed(x, key, f), y, key, f).l
  }

  // ---------- simulation ----------

  /** The residue a register stands for. */
  function Canon(d: nat, p: nat): nat {
    if d == p then 0 else d
  }

  predicate InRange(h: Halves, p: nat) {
    h.l <= p && h.r <= p
  }

  function CanonHalves(h: Halves, p: nat): Halves {
    Halves(Canon(h.l, p), Canon(h.r, p))
  }

  lemma AddSimulated(a: nat, b: nat, p: nat)
    requires a <= p && b <= p && 0 < p && 2 * p < U256
    ensures DAdd(a, b, p) <= p
    ensures Canon(DAdd(a, b, p), p) == Add(Canon(a, p), Canon(b, p), p)
  {
    ModSmall(a + b, U256);
    assert a + b > p ==> Reduce(a + b, p) == Reduce(a + b - p, p) == a + b - p;
    SumOfResidues(Canon(a, p), Canon(b, p), p);
  }

  /** Square, square, multiply with a reduction at each step is the fifth power, also when
      the argument is the unreduced p, and is always a residue. */
  lemma FifthSimulated(n: nat, p: nat)
    requires n <= p && 0 < p
    ensures DFifth(n, p) == Pow5(Canon(n, p), p) < p
  {
    var m := Canon(n, p);
    assert Mod(n, p) == m && Mod(m, p) == m by {
      ModSmall(m, p);
      ModIs(p, p, 1, 0);
    }
    hide Mod, Canon, Pow;
    var square := m * m;
    var fourth := square * square;
    ModMulBoth(n, n, p);
    ModMulBoth(m, m, p);
    assert DMul(n, n, p) == Mod(square, p);
    ModMulBoth(square, square, p);
    ModMulBoth(fourth, m, p);
    ModMulBoth(Mod(fourth, p), n, p);
    ModSmall(Mod(fourth, p), p);
    FifthIsProduct(m);
  }

  lemma RoundSimulated(h: Halves, key: nat, c: nat, p: nat)
    requires InRange(h, p) && key <= p && c <= p && 0 < p && 2 * p < U256
    ensures InRange(DRound(h, key, c, p), p)
    ensures CanonHalves(DRound(h, key, c, p), p)
         == Round(CanonHalves(h, p), Canon(key, p), Canon(c, p), p)
  {
    AddSimulated(key, h.l, p);
    var a := DAdd(key, h.l, p);
    AddSimulated(a, c, p);
    var b := DAdd(a, c, p);
    FifthSimulated(b, p);
    AddSimulated(DFifth(b, p), h.r, p);
  }

  lemma {:induction false} RoundsSimulated(h: Halves, key: nat, cs: seq<nat>, p: nat)
    requires InRange(h, p) && key <= p && 0 < p && 2 * p < U256
    requires forall i | 0 <= i < |cs| :: cs[i] < p
    ensures InRange(DRounds(h, key, cs, p), p)
    ensures CanonHalves(DRounds(h, key, cs, p), p)
         == Rounds(CanonHalves(h, p), Canon(key, p), cs, p)
  {
    if cs != [] {
      var front := cs[..|cs| - 1];
      RoundsSimulated(h, key, front, p);
      RoundSimulated(DRounds(h, key, front, p), key, cs[|cs| - 1], p);
    }
  }

  lemma MixSimulated(h: Halves, key: nat, f: Field)
    requires InRange(h, f.p) && key <= f.p
    ensures InRange(DMixed(h, key, f), f.p)
    ensures CanonHalves(DMixed(h, key, f), f.p)
         == Mixed(CanonHalves(h, f.p), Canon(key, f.p), f)
  {
    RoundsSimulated(h, key, f.c, f.p);
    var g := DRounds(h, key, f.c, f.p);
    AddSimulated(key, g.l, f.p);
    FifthSimulated(DAdd(key, g.l, f.p), f.p);
    AddSimulated(DFifth(DAdd(key, g.l, f.p), f.p), g.r, f.p);
  }

  predicate MemoryInRange(m: Memory, p: nat) {
    InRange(m.live, p) && InRange(m.snap, p)
  }

  function CanonMemory(m: Memory, p: nat): Memory {
    Memory(CanonHalves(m.live, p), CanonHalves(m.snap, p))
  }

  /** An operation with its argument read as a residue. */
  function CanonOp(op: Op, p: nat): Op {
    match op
    case Inject(x) => Op.Inject(Canon(x, p))
    case _ => op
  }

  predicate OpInRange(op: Op, p: nat) {
    op.Inject? ==> op.x <= p
  }

  /** After any sequence of operations with arguments in [0, p], every device half and
      snapshot lies in [0, p] and equals the CPU's value, or is p where that is 0. */
  lemma {:induction false} SpongeSimulated(m: Memory, ops: seq<Op>, key: nat, f: Field)
    requires MemoryInRange(m, f.p) && key <= f.p
    requires forall i | 0 <= i < |ops| :: OpInRange(ops[i], f.p)
    ensures MemoryInRange(DRun(m, ops, key, f), f.p)
    ensures CanonMemory(DRun(m, ops, key, f), f.p)
         == Run(CanonMemory(m, f.p), CanonOps(ops, f.p), Canon(key, f.p), f)
  {
    if ops != [] {
      var front, op := ops[..|ops| - 1], ops[|ops| - 1];
      SpongeSimulated(m, front, key, f);
      var d := DRun(m, front, key, f);
      assert OpInRange(op, f.p);
      StepSimulated(d, op, key, f);
      assert CanonOps(ops, f.p)[..|ops| - 1] == CanonOps(front, f.p);
    }
  }

  function CanonOps(ops: seq<Op>, p: nat): (r: seq<Op>)
    ensures |r| == |ops|
  {
    seq(|ops|, i requires 0 <= i < |ops| => CanonOp(ops[i], p))
  }

  lemma StepSimulated(m: Memory, op: Op, key: nat, f: Field)
    requires MemoryInRange(m, f.p) && key <= f.p && OpInRange(op, f.p)
    ensures MemoryInRange(DApply(m, op, key, f), f.p)
    ensures CanonMemory(DApply(m, op, key, f), f.p)
         == Apply(CanonMemory(m, f.p), CanonOp(op, f.p), Canon(key, f.p), f)
  {
    match op
    case Inject(x) => AddSimulated(m.live.l, x, f.p);
    case Mix => MixSimulated(m.live, key, f);
    case _ =>
  }

  // ---------- cells ----------

  lemma WrapAgrees(c: int, f: Field)
    ensures DWrap(c, f.p) == Wrap(c, f) <= f.p
  {
    WrapRange(c, f);
    if c < 0 {
      ModSmall(f.p - Low32(-c), U256);
    }
  }

  lemma InjectSimulated(h: Halves, c: int, f: Field)
    requires InRange(h, f.p)
    ensures InRange(DInjected(h, DWrap(c, f.p), f), f.p)
    ensures CanonHalves(DInjected(h, DWrap(c, f.p), f), f.p)
         == Injected(CanonHalves(h, f.p), Wrap(c, f), f)
  {
    WrapAgrees(c, f);
    var w := Wrap(c, f);
    AddSimulated(h.l, w, f.p);
    if w == f.p {
      ModShift(Canon(h.l, f.p), 1, f.p);
    }
  }

  lemma CellSimulated(seed: Halves, y: int, key: nat, f: Field)
    requires InRange(seed, f.p) && key < f.p
    ensures InRange(DCell(seed, y, key, f), f.p)
    ensures CanonHalves(DCell(seed, y, key, f), f.p)
         == Cell(CanonHalves(seed, f.p), y, key, f)
  {
    InjectSimulated(seed, y, f);
    MixSimulated(DInjected(seed, DWrap(y, f.p), f), key, f);
  }

  /** The two miners hash every signed 64-bit cell alike, up to p standing for 0. */
  lemma CellHashSimulated(x: int, y: int, key: nat, f: Field)
    requires key < f.p
    ensures DCellHash(x, y, key, f) <= f.p
    ensures CellHash(x, y, key, f) == Canon(DCellHash(x, y, key, f), f.p) < f.p
  {
    assert CanonHalves(ZERO, f.p) == ZERO;
    CellSimulated(ZERO, x, key, f);
    CellSimulated(DSeed(x, key, f), y, key, f);
  }

  // ---------- the class ----------

  class Sponge {
    var l: nat
    var r: nat
    var snapL: nat
    var snapR: nat
    var t0: nat
    var t1: nat
    var t2: nat
    var t3: nat
    var t4: nat

    function Live(): Halves
      reads this
    {
      Halves(l, r)
    }

    function View(): Memory
      reads this
    {
      Memory(Live(), Halves(snapL, snapR))
    }

    /** Registers are not initialised. */
    constructor ()
    {
    }

    method Reset(ghost f: Field)
      modifies `l, `r
      ensures View() == DApply(old(View()), Op.Reset, 0, f)
    {
      l := 0;
      r := 0;
    }

    method Inject(x: nat, f: Field)
      requires l <= f.p && x <= f.p
      modifies `l
      ensures View() == DApply(old(View()), Op.Inject(x), 0, f)
      ensures l <= f.p && Canon(l, f.p) == Add(Canon(old(l), f.p), Canon(x, f.p), f.p)
    {
      AddSimulated(l, x, f.p);
      ghost var n;
      l, n := FieldAdd(l, x, f.p);
    }

    method Mix(key: nat, f: Field)
      requires InRange(Live(), f.p) && key <= f.p
      modifies `l, `r, `t0, `t1, `t2, `t3
      ensures View() == DApply(old(View()), Op.Mix, key, f)
      ensures InRange(Live(), f.p)
      ensures CanonHalves(Live(), f.p) == Mixed(CanonHalves(old(Live()), f.p), Canon(key, f.p), f)
    {
      hide DFifth, DAdd, Mixed, Canon, CanonHalves, Mod;
      ghost var start := Live();
      ghost var n;
      for j := 0 to |f.c|
        invariant InRange(Live(), f.p)
        invariant Live() == DRounds(start, key, f.c[..j], f.p)
      {
        assert f.c[..j + 1][..j] == f.c[..j];
        t0, n := FieldAdd(key, l, f.p);
        t1, n := FieldAdd(t0, f.c[j], f.p);
        t0, t2, t3 := FifthPower(t1, f.p);
        t1, n := FieldAdd(t0, r, f.p);
        r := l;
        l := t1;
      }
      assert f.c[..|f.c|] == f.c;
      t0, n := FieldAdd(key, l, f.p);
      t1, t2, t3 := FifthPower(t0, f.p);
      t0, n := FieldAdd(t1, r, f.p);
      r := t0;
      MixSimulated(start, key, f);
    }

    method Save(ghost f: Field)
      modifies `snapL, `snapR
      ensures View() == DApply(old(View()), Op.Save, 0, f)
    {
      snapL := l;
      snapR := r;
    }

    method Restore(ghost f: Field)
      modifies `l, `r
      ensures View() == DApply(old(View()), Op.Restore, 0, f)
    {
      l := snapL;
      r := snapR;
    }

    method Result() returns (out: nat)
      ensures out == View().live.l
    {
      out := l;
    }
  }
}
