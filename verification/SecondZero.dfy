/**
 When a device register that stands for 0 holds p rather than 0.  The answer is given by
 the CPU's numbers alone: a device half is a true 0 only if it is a sum of true zeros all the
 way back, so only if every second fifth power vanishes; any other 0 is held as p.
 */
module SecondZero {
  import opened ModArith
  import opened SpongeSpec
  import opened DeviceSponge

  /** Which halves are true zeros. */
  datatype Marks = Marks(l: bool, r: bool)

  /** The fifth power that a round adds, as the CPU computes it. */
  function RoundPower(h: Halves, key: nat, c: nat, p: nat): nat
    requires p > 0
  {
    Pow5(Add(Add(key, h.l, p), c, p), p)
  }

  /** A round's new left half is a true zero if it adds 0 to a true zero. */
  function RoundsMarks(h: Halves, z: Marks, key: nat, cs: seq<nat>, p: nat): Marks
    requires p > 0
  {
    if cs == [] then z
    else
      var front, c := cs[..|cs| - 1], cs[|cs| - 1];
      var m := RoundsMarks(h, z, key, front, p);
      Marks(RoundPower(Rounds(h, key, front, p), key, c, p) == 0 && m.r, m.l)
  }

  function MixedMarks(h: Halves, z: Marks, key: nat, f: Field): Marks {
    var g, m := Rounds(h, key, f.c, f.p), RoundsMarks(h, z, key, f.c, f.p);
    Marks(m.l, Pow5(Add(key, g.l, f.p), f.p) == 0 && m.r)
  }

  /** Only a non-negative coordinate with magnitude 0 in 32 bits injects a true zero. */
  function InjectedMarks(z: Marks, c: int): Marks {
    Marks(z.l && c >= 0 && Low32(c) == 0, z.r)
  }

  function SeedMarks(x: int, key: nat, f: Field): Marks {
    MixedMarks(Injected(ZERO, Wrap(x, f), f), InjectedMarks(Marks(true, true), x), key, f)
  }

  function CellMarks(x: int, y: int, key: nat, f: Field): Marks {
    var seed := Seed(x, key, f);
    MixedMarks(Injected(seed, Wrap(y, f), f), InjectedMarks(SeedMarks(x, key, f), y), key, f)
  }

  /** The hash of the cell is a true zero on the device. */
  predicate TrueZero(x: int, y: int, key: nat, f: Field) {
    CellMarks(x, y, key, f).l
  }

  // ---------- the marks unrolled ----------

  /** The half that the rounds feeding a left half started from. */
  function StartMark(z: Marks, n: nat): bool {
    if n % 2 == 0 then z.l else z.r
  }

  lemma StartMarkPeriod(z: Marks, n: nat)
    ensures StartMark(z, n + 2) == StartMark(z, n)
    ensures StartMark(z, 0) == z.l && StartMark(z, 1) == z.r
  {
  }

  /** Written out: the left half after n rounds is a true zero exactly if the powers added in
      rounds n - 1, n - 3, ... all vanish and the half that these rounds started from, the left
      one for an even and the right one for an odd n, was a true zero. */
  lemma {:induction false} MarksUnrolled(h: Halves, z: Marks, key: nat, cs: seq<nat>, p: nat)
    requires p > 0
    ensures RoundsMarks(h, z, key, cs, p).l
       <==> EverySecondVanishes(h, key, cs, |cs|, p) && StartMark(z, |cs|)
    ensures cs != [] ==>
              (RoundsMarks(h, z, key, cs, p).r
               <==> EverySecondVanishes(h, key, cs, |cs| - 1, p) && StartMark(z, |cs| - 1))
  {
    var n := |cs|;
    if n == 0 {
      assert EverySecondVanishes(h, key, cs, 0, p);
    } else {
      var front := cs[..n - 1];
      MarksUnrolled(h, z, key, front, p);
      MarksStep(h, z, key, cs, p);
      assert n == 1 ==> RoundsMarks(h, z, key, front, p).r == z.r;
      hide RoundsMarks, EverySecondVanishes, StartMark, PowerAt;
      VanishingPrefix(h, key, cs, n - 1, p);
      VanishingStep(h, key, cs, n, p);
      if n >= 2 {
        VanishingPrefix(h, key, cs, n - 2, p);
        StartMarkPeriod(z, n - 2);
      } else {
        StartMarkPeriod(z, 0);
      }
    }
  }

  lemma MarksStep(h: Halves, z: Marks, key: nat, cs: seq<nat>, p: nat)
    requires p > 0 && cs != []
    ensures var m := RoundsMarks(h, z, key, cs[..|cs| - 1], p);
            RoundsMarks(h, z, key, cs, p) == Marks(PowerAt(h, key, cs, |cs| - 1, p) == 0 && m.r, m.l)
  {
    hide RoundPower, Rounds;
  }

  /** The powers added in rounds n - 1, n - 3, ... are 0. */
  ghost predicate EverySecondVanishes(h: Halves, key: nat, cs: seq<nat>, n: nat, p: nat)
    requires p > 0 && n <= |cs|
  {
    forall i: nat | i < n && (n - i) % 2 == 1 :: PowerAt(h, key, cs, i, p) == 0
  }

  /** The power that round i adds. */
  function PowerAt(h: Halves, key: nat, cs: seq<nat>, i: nat, p: nat): nat
    requires p > 0 && i < |cs|
  {
    RoundPower(Rounds(h, key, cs[..i], p), key, cs[i], p)
  }

  lemma VanishingPrefix(h: Halves, key: nat, cs: seq<nat>, n: nat, p: nat)
    requires p > 0 && n < |cs|
    ensures EverySecondVanishes(h, key, cs[..|cs| - 1], n, p)
       <==> EverySecondVanishes(h, key, cs, n, p)
  {
    hide RoundPower, Rounds;
    var front := cs[..|cs| - 1];
    forall i: nat | i < n
      ensures PowerAt(h, key, front, i, p) == PowerAt(h, key, cs, i, p)
    {
      assert front[..i] == cs[..i];
    }
  }

  lemma VanishingStep(h: Halves, key: nat, cs: seq<nat>, n: nat, p: nat)
    requires p > 0 && 0 < n <= |cs|
    ensures EverySecondVanishes(h, key, cs, n, p) <==>
            PowerAt(h, key, cs, n - 1, p) == 0
            && (n >= 2 ==> EverySecondVanishes(h, key, cs, n - 2, p))
  {
    hide PowerAt;
  }

  // ---------- the device's zeros are the true zeros ----------

  function MarksOf(d: Halves): Marks {
    Marks(d.l == 0, d.r == 0)
  }

  /** A device sum is 0 only as 0 + 0. */
  lemma SumIsZeroIff(a: nat, b: nat, p: nat)
    requires a <= p && b <= p && 0 < p && 2 * p < U256
    ensures DAdd(a, b, p) == 0 <==> a == 0 && b == 0
  {
    ModSmall(a + b, U256);
    assert a + b > p ==> Reduce(a + b, p) == Reduce(a + b - p, p) == a + b - p;
  }

  /** The fifth power of a device round is the CPU's. */
  lemma RoundPowerSimulated(d: Halves, key: nat, c: nat, p: nat)
    requires InRange(d, p) && key < p && c < p && 0 < p && 2 * p < U256
    ensures DFifth(DAdd(DAdd(key, d.l, p), c, p), p)
         == RoundPower(CanonHalves(d, p), key, c, p) < p
  {
    hide DAdd, DFifth, Add, Pow5;
    AddSimulated(key, d.l, p);
    AddSimulated(DAdd(key, d.l, p), c, p);
    FifthSimulated(DAdd(DAdd(key, d.l, p), c, p), p);
  }

  lemma {:induction false} RoundsZeros(d: Halves, key: nat, cs: seq<nat>, p: nat)
    requires InRange(d, p) && key < p && 0 < p && 2 * p < U256
    requires forall i | 0 <= i < |cs| :: cs[i] < p
    ensures MarksOf(DRounds(d, key, cs, p))
         == RoundsMarks(CanonHalves(d, p), MarksOf(d), key, cs, p)
  {
    hide DAdd, DFifth, RoundPower, CanonHalves;
    if cs != [] {
      var front, c := cs[..|cs| - 1], cs[|cs| - 1];
      RoundsZeros(d, key, front, p);
      RoundsSimulated(d, key, front, p);
      var g := DRounds(d, key, front, p);
      assert Canon(key, p) == key;
      RoundPowerSimulated(g, key, c, p);
      SumIsZeroIff(DFifth(DAdd(DAdd(key, g.l, p), c, p), p), g.r, p);
    }
  }

  lemma MixZeros(d: Halves, key: nat, f: Field)
    requires InRange(d, f.p) && key < f.p
    ensures MarksOf(DMixed(d, key, f))
         == MixedMarks(CanonHalves(d, f.p), MarksOf(d), key, f)
  {
    hide DAdd, DFifth, Add, Pow5, RoundsMarks, DRounds, Rounds;
    RoundsZeros(d, key, f.c, f.p);
    RoundsSimulated(d, key, f.c, f.p);
    var g := DRounds(d, key, f.c, f.p);
    assert Canon(key, f.p) == key;
    AddSimulated(key, g.l, f.p);
    FifthSimulated(DAdd(key, g.l, f.p), f.p);
    SumIsZeroIff(DFifth(DAdd(key, g.l, f.p), f.p), g.r, f.p);
  }

  lemma CellZeros(seed: Halves, c: int, key: nat, f: Field)
    requires InRange(seed, f.p) && key < f.p
    ensures MarksOf(DCell(seed, c, key, f))
         == MixedMarks(Injected(CanonHalves(seed, f.p), Wrap(c, f), f),
                       InjectedMarks(MarksOf(seed), c), key, f)
  {
    hide DMixed, MixedMarks, DAdd, Add;
    InjectSimulated(seed, c, f);
    WrapAgrees(c, f);
    SumIsZeroIff(seed.l, DWrap(c, f.p), f.p);
    MixZeros(DInjected(seed, DWrap(c, f.p), f), key, f);
  }

  /** The device register of a cell holds p exactly if the CPU's hash is 0 and is not a true
      zero. */
  lemma HoldsPIff(x: int, y: int, key: nat, f: Field)
    requires key < f.p
    ensures DCellHash(x, y, key, f) == f.p
       <==> CellHash(x, y, key, f) == 0 && !TrueZero(x, y, key, f)
  {
    hide DMixed, MixedMarks, Mixed, Injected, DInjected, Wrap;
    CellHashSimulated(x, y, key, f);
    assert CanonHalves(ZERO, f.p) == ZERO;
    CellSimulated(ZERO, x, key, f);
    CellZeros(ZERO, x, key, f);
    var seed := DSeed(x, key, f);
    assert seed == DCell(ZERO, x, key, f) && Seed(x, key, f) == Cell(ZERO, x, key, f);
    CellZeros(seed, y, key, f);
  }
}
