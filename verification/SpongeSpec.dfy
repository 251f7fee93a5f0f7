/**
 The sponge that both miners compute: a MiMC Feistel permutation over the residues modulo p.
 Field parameters are abstract here; `Constants` supplies the real ones.
 */
module SpongeSpec {
  import opened ModArith

  const U32: int := 0x1_0000_0000
  const U64: int := 0x1_0000_0000_0000_0000
  const U256: int := 0x1_0000000000000000_0000000000000000_0000000000000000_0000000000000000

  /** The modulus p and the round constants c. */
  datatype Params = Params(p: nat, c: seq<nat>)

  /** What the real constants satisfy: coordinates and keys are below p, two residues
      can be added in 256 bits, and the round constants are residues. */
  predicate ValidParams(f: Params) {
    && U64 <= f.p
    && 2 * f.p < U256
    && forall i | 0 <= i < |f.c| :: f.c[i] < f.p
  }

  type Field = f: Params | ValidParams(f) witness Params(U64, [])

  /** The two halves of the sponge state. */
  datatype Halves = Halves(l: nat, r: nat)

  /** The live halves and the snapshot. */
  datatype Memory = Memory(live: Halves, snap: Halves)

  const ZERO: Halves := Halves(0, 0)

  predicate Canonical(h: Halves, p: nat) {
    h.l < p && h.r < p
  }

  // ---------- field operations ----------

  function Add(a: nat, b: nat, p: nat): (s: nat)
    requires p > 0
  {
    Mod(a + b, p)
  }

  function Pow(n: int, e: nat): int {
    if e == 0 then 1 else n * Pow(n, e - 1)
  }

  function Pow5(n: nat, p: nat): (s: nat)
    requires p > 0
  {
    Mod(Pow(n, 5), p)
  }

  // ---------- the permutation ----------

  function Round(h: Halves, key: nat, c: nat, p: nat): Halves
    requires p > 0
  {
    Halves(Add(Pow5(Add(Add(key, h.l, p), c, p), p), h.r, p), h.l)
  }

  function Rounds(h: Halves, key: nat, cs: seq<nat>, p: nat): Halves
    requires p > 0
  {
    if cs == [] then h
    else Round(Rounds(h, key, cs[..|cs| - 1], p), key, cs[|cs| - 1], p)
  }

  /** The last round has no constant and does not swap the halves. */
  function LastRound(h: Halves, key: nat, p: nat): Halves
    requires p > 0
  {
    Halves(h.l, Add(Pow5(Add(key, h.l, p), p), h.r, p))
  }

  function Mixed(h: Halves, key: nat, f: Field): Halves {
    LastRound(Rounds(h, key, f.c, f.p), key, f.p)
  }

  function Injected(h: Halves, x: nat, f: Field): Halves {
    Halves(Add(h.l, x, f.p), h.r)
  }

  // ---------- the sponge as a machine ----------

  datatype Op = Reset | Inject(x: nat) | Mix | Save | Restore

  function Apply(m: Memory, op: Op, key: nat, f: Field): Memory {
    match op
    case Reset => m.(live := ZERO)
    case Inject(x) => m.(live := Injected(m.live, x, f))
    case Mix => m.(live := Mixed(m.live, key, f))
    case Save => m.(snap := m.live)
    case Restore => m.(live := m.snap)
  }

  function Run(m: Memory, ops: seq<Op>, key: nat, f: Field): Memory {
    if ops == [] then m
    else Apply(Run(m, ops[..|ops| - 1], key, f), ops[|ops| - 1], key, f)
  }

  // ---------- coordinates and cells ----------

  /** The low 32 bits. */
  function Low32(n: int): (r: nat)
    ensures r < U32
  {
    n % U32
  }

  /** Both `wrap_coordinate`s: the magnitude is cut to 32 bits, and a negative
      coordinate is subtracted from p. */
  function Wrap(c: int, f: Field): nat {
    if c >= 0 then Low32(c) else f.p - Low32(-c)
  }

  /** The state saved for a column. */
  function Seed(x: int, key: nat, f: Field): Halves {
    Mixed(Injected(ZERO, Wrap(x, f), f), key, f)
  }

  function Cell(seed: Halves, y: int, key: nat, f: Field): Halves {
    Mixed(Injected(seed, Wrap(y, f), f), key, f)
  }

  function CellHash(x: int, y: int, key: nat, f: Field): nat {
    Cell(Seed(x, key, f), y, key, f).l
  }

  // ---------- residues stay residues ----------

  lemma FifthIsProduct(m: int)
    ensures Pow(m, 5) == ((m * m) * (m * m)) * m
  {
    assert Pow(m, 1) == m;
    assert Pow(m, 2) == m * m;
    assert Pow(m, 3) == m * (m * m);
    assert Pow(m, 4) == (m * m) * (m * m);
    assert Pow(m, 5) == m * Pow(m, 4);
  }

  lemma RoundsCanonical(h: Halves, key: nat, cs: seq<nat>, p: nat)
    requires p > 0 && Canonical(h, p)
    ensures Canonical(Rounds(h, key, cs, p), p)
  {
    if cs != [] {
      RoundsCanonical(h, key, cs[..|cs| - 1], p);
    }
  }

  lemma MixCanonical(h: Halves, key: nat, f: Field)
    requires Canonical(h, f.p)
    ensures Canonical(Mixed(h, key, f), f.p)
  {
    RoundsCanonical(h, key, f.c, f.p);
  }

  // ---------- snapshots ----------

  /** What both miners do once per column and once per row. */
  function ColumnOps(x: int, f: Field): seq<Op> {
    [Op.Reset, Op.Inject(Wrap(x, f)), Op.Mix, Op.Save]
  }

  function RowOps(y: int, f: Field): seq<Op> {
    [Op.Restore, Op.Inject(Wrap(y, f)), Op.Mix]
  }

  /** Hashing the two coordinates as two blocks from a fresh state, without a snapshot. */
  function TwoBlockOps(x: int, y: int, f: Field): seq<Op> {
    [Op.Reset, Op.Inject(Wrap(x, f)), Op.Mix, Op.Inject(Wrap(y, f)), Op.Mix]
  }

  lemma {:induction false} RunConcat(m: Memory, a: seq<Op>, b: seq<Op>, key: nat, f: Field)
    ensures Run(m, a + b, key, f) == Run(Run(m, a, key, f), b, key, f)
  {
    hide Apply;
    if b == [] {
      assert a + b == a;
    } else {
      assert (a + b)[..|a + b| - 1] == a + b[..|b| - 1];
      RunConcat(m, a, b[..|b| - 1], key, f);
    }
  }

  /** Operations other than `Save` keep the snapshot. */
  lemma {:induction false} SnapshotStays(m: Memory, ops: seq<Op>, key: nat, f: Field)
    requires Op.Save !in ops
    ensures Run(m, ops, key, f).snap == m.snap
  {
    hide Mixed, Injected;
    if ops != [] {
      assert ops[|ops| - 1] in ops;
      SnapshotStays(m, ops[..|ops| - 1], key, f);
    }
  }

  lemma RunOne(m: Memory, op: Op, key: nat, f: Field)
    ensures Run(m, [op], key, f) == Apply(m, op, key, f)
  {
    assert [op][..0] == [];
  }

  lemma ColumnRun(m: Memory, x: int, key: nat, f: Field)
    ensures Run(m, ColumnOps(x, f), key, f) == Memory(Seed(x, key, f), Seed(x, key, f))
  {
    hide Mixed, Injected, Wrap, Run;
    var a, b, c, d := Op.Reset, Op.Inject(Wrap(x, f)), Op.Mix, Op.Save;
    assert ColumnOps(x, f) == [a] + ([b] + ([c] + [d]));
    RunConcat(m, [a], [b] + ([c] + [d]), key, f);
    RunOne(m, a, key, f);
    var m1 := Apply(m, a, key, f);
    RunConcat(m1, [b], [c] + [d], key, f);
    RunOne(m1, b, key, f);
    var m2 := Apply(m1, b, key, f);
    RunConcat(m2, [c], [d], key, f);
    RunOne(m2, c, key, f);
    RunOne(Apply(m2, c, key, f), d, key, f);
  }

  lemma RowRun(m: Memory, y: int, key: nat, f: Field)
    ensures Run(m, RowOps(y, f), key, f).live == Cell(m.snap, y, key, f)
  {
    hide Mixed, Injected, Wrap, Run;
    var a, b, c := Op.Restore, Op.Inject(Wrap(y, f)), Op.Mix;
    assert RowOps(y, f) == [a] + ([b] + [c]);
    RunConcat(m, [a], [b] + [c], key, f);
    RunOne(m, a, key, f);
    var m1 := Apply(m, a, key, f);
    RunConcat(m1, [b], [c], key, f);
    RunOne(m1, b, key, f);
    RunOne(Apply(m1, b, key, f), c, key, f);
  }

  /** Restoring the column's snapshot and hashing the row gives the hash of both coordinates
      from a fresh state, whatever was in the sponge at first and whatever operations other
      than `Save` came between. */
  lemma SnapshotReuse(
    m: Memory, other: Memory, x: int, y: int, between: seq<Op>, key: nat, f: Field)
    requires Op.Save !in between
    ensures Run(m, ColumnOps(x, f) + between + RowOps(y, f), key, f).live
         == Run(other, TwoBlockOps(x, y, f), key, f).live
    ensures Run(other, TwoBlockOps(x, y, f), key, f).live.l == CellHash(x, y, key, f)
  {
    hide Mixed, Injected, Wrap, Run, Apply;
    var column, row := ColumnOps(x, f), RowOps(y, f);
    RunConcat(m, column + between, row, key, f);
    RunConcat(m, column, between, key, f);
    ColumnRun(m, x, key, f);
    SnapshotStays(Run(m, column, key, f), between, key, f);
    RowRun(Run(m, column + between, key, f), y, key, f);
    TwoBlockRun(other, x, y, key, f);
  }

  lemma TwoBlockRun(m: Memory, x: int, y: int, key: nat, f: Field)
    ensures Run(m, TwoBlockOps(x, y, f), key, f).live == Cell(Seed(x, key, f), y, key, f)
  {
    hide Mixed, Injected, Wrap, Run;
    var a, b, c, d := Op.Reset, Op.Inject(Wrap(x, f)), Op.Mix, Op.Inject(Wrap(y, f));
    assert TwoBlockOps(x, y, f) == [a] + ([b] + ([c] + ([d] + [c])));
    RunConcat(m, [a], [b] + ([c] + ([d] + [c])), key, f);
    RunOne(m, a, key, f);
    var m1 := Apply(m, a, key, f);
    RunConcat(m1, [b], [c] + ([d] + [c]), key, f);
    RunOne(m1, b, key, f);
    var m2 := Apply(m1, b, key, f);
    RunConcat(m2, [c], [d] + [c], key, f);
    RunOne(m2, c, key, f);
    var m3 := Apply(m2, c, key, f);
    RunConcat(m3, [d], [c], key, f);
    RunOne(m3, d, key, f);
    RunOne(Apply(m3, d, key, f), c, key, f);
  }

  // ---------- an independent reference: no reduction until the very end ----------

  /** The Feistel recurrence over the integers: a pair of consecutive left halves. */
  function Unreduced(l: int, r: int, key: int, cs: seq<nat>): (int, int) {
    if cs == [] then (l, r)
    else
      var (a, b) := Unreduced(l, r, key, cs[..|cs| - 1]);
      (b + Pow(key + a + cs[|cs| - 1], 5), a)
  }

  lemma {:induction false} PowResidue(n: int, e: nat, p: nat)
    requires p > 0
    ensures Mod(Pow(Mod(n, p), e), p) == Mod(Pow(n, e), p)
  {
    hide Mod;
    if e > 0 {
      PowResidue(n, e - 1, p);
      var m := Mod(n, p);
      ModSmall(m, p);
      ModMulBoth(m, Pow(m, e - 1), p);
      ModMulBoth(n, Pow(n, e - 1), p);
    }
  }

  lemma RoundResidue(a: int, b: int, key: nat, c: nat, p: nat)
    requires p > 0
    ensures Round(Halves(Mod(a, p), Mod(b, p)), key, c, p)
         == Halves(Mod(b + Pow(key + a + c, 5), p), Mod(a, p))
  {
    hide Mod, Pow;
    var t := Pow(key + a + c, 5);
    ModAddTwice(key, a, c, p);
    PowResidue(key + a + c, 5, p);
    ModAddBoth(t, b, p);
    assert t + b == b + t;
  }

  /** Reducing after every addition and power, as the code does, gives the residues of the
      unreduced recurrence, for every key and every list of constants. */
  lemma {:induction false} RoundsAreUnreducedResidues(l: int, r: int, key: nat, cs: seq<nat>, p: nat)
    requires p > 0
    ensures var (a, b) := Unreduced(l, r, key, cs);
            Rounds(Halves(Mod(l, p), Mod(r, p)), key, cs, p) == Halves(Mod(a, p), Mod(b, p))
  {
    hide Mod, Pow, Round;
    if cs != [] {
      var front := cs[..|cs| - 1];
      RoundsAreUnreducedResidues(l, r, key, front, p);
      var (a, b) := Unreduced(l, r, key, front);
      RoundResidue(a, b, key, cs[|cs| - 1], p);
    }
  }

  /** The whole mix against the integer recurrence. */
  lemma MixIsUnreducedResidue(l: int, r: int, key: nat, f: Field)
    ensures var (a, b) := Unreduced(l, r, key, f.c);
            Mixed(Halves(Mod(l, f.p), Mod(r, f.p)), key, f)
            == Halves(Mod(a, f.p), Mod(b + Pow(key + a, 5), f.p))
  {
    var (a, b) := Unreduced(l, r, key, f.c);
    var p := f.p;
    hide Mod, Pow, Rounds, Unreduced;
    RoundsAreUnreducedResidues(l, r, key, f.c, p);
    var t := Pow(key + a, 5);
    ModAdd(a, key, p);
    assert Mod(a, p) + key == key + Mod(a, p) && a + key == key + a;
    PowResidue(key + a, 5, p);
    ModAddBoth(t, b, p);
    assert t + b == b + t;
  }

  /** The signed coordinate with its magnitude cut to 32 bits. */
  function Truncated(c: int): (t: int)
    ensures -U32 < t < U32 && (c - t) % U32 == 0
    ensures (c >= 0 ==> t >= 0) && (c <= 0 ==> t <= 0)
    ensures -U32 < c < U32 ==> t == c
  {
    if c >= 0 then c % U32 else -((-c) % U32)
  }

  lemma InjectedResidue(l: int, r: nat, c: int, f: Field)
    ensures Injected(Halves(Mod(l, f.p), r), Wrap(c, f), f)
         == Halves(Mod(l + Truncated(c), f.p), r)
  {
    var w := Wrap(c, f);
    assert w == Truncated(c) + (if c < 0 then f.p else 0);
    hide Mod, Truncated, Wrap;
    ModAdd(l, w, f.p);
    ModShift(l + Truncated(c), 1, f.p);
  }

  /** The hash of a cell from its coordinates, in integer arithmetic with one reduction at the
      very end: the recurrence from (x, 0), an unswapped round, y added to the left half, and
      the recurrence again. */
  lemma CellHashIsUnreduced(x: int, y: int, key: nat, f: Field)
    ensures var (a, b) := Unreduced(Truncated(x), 0, key, f.c);
            var (u, v) := Unreduced(a + Truncated(y), b + Pow(key + a, 5), key, f.c);
            CellHash(x, y, key, f) == Mod(u, f.p)
  {
    var p := f.p;
    var (a, b) := Unreduced(Truncated(x), 0, key, f.c);
    var r := b + Pow(key + a, 5);
    hide Mod, Pow, Unreduced, Mixed, Injected, Truncated, Wrap;
    ModSmall(0, p);
    InjectedResidue(0, 0, x, f);
    MixIsUnreducedResidue(Truncated(x), 0, key, f);
    InjectedResidue(a, Mod(r, p), y, f);
    MixIsUnreducedResidue(a + Truncated(y), r, key, f);
  }

  // ---------- coordinates ----------

  /** `wrap_coordinate` is the residue of the signed coordinate exactly when the magnitude
      fits 32 bits (for any 64-bit coordinate). */
  lemma WrapIsResidueIff(c: int, f: Field)
    requires -(U64 / 2) < c < U64 / 2
    ensures Wrap(c, f) == Mod(c, f.p) <==> -U32 < c < U32
  {
    if c >= 0 {
      ModSmall(c, f.p);
    } else {
      ModIs(c, f.p, -1, c + f.p);
    }
  }

  lemma WrapResidue(c: int, f: Field)
    requires -U32 < c < U32
    ensures Wrap(c, f) == Mod(c, f.p)
  {
    if c >= 0 {
      ModSmall(c, f.p);
    } else {
      ModIs(c, f.p, -1, c + f.p);
    }
  }

  function Magnitude(c: int): nat {
    if c >= 0 then c else -c
  }

  /** The two coordinates are cut to the same field element. */
  predicate Aliases(c: int, d: int) {
    && Low32(Magnitude(c)) == Low32(Magnitude(d))
    && (Low32(Magnitude(c)) == 0 || (c >= 0 <==> d >= 0))
  }

  lemma WrapCollidesIff(c: int, d: int, f: Field)
    ensures Mod(Wrap(c, f), f.p) == Mod(Wrap(d, f), f.p) <==> Aliases(c, d)
  {
    WrapRange(c, f);
    WrapRange(d, f);
  }

  lemma NearCoordinatesDoNotAlias(c: int, d: int)
    requires c != d && -U32 < c - d < U32
    ensures !Aliases(c, d)
  {
  }

  lemma WrapRange(c: int, f: Field)
    ensures Wrap(c, f) <= f.p
    ensures Mod(Wrap(c, f), f.p) == if c < 0 && Low32(-c) == 0 then 0 else Wrap(c, f)
  {
    if c >= 0 {
      ModSmall(Low32(c), f.p);
    } else if Low32(-c) != 0 {
      ModSmall(f.p - Low32(-c), f.p);
    } else {
      ModIs(f.p, f.p, 1, 0);
    }
  }
}
