/**
 The mix is a permutation of pairs of residues, for every key and every list of constants:
 an explicit inverse runs the rounds backwards.  Hence different rows of a chunk column
 end in different sponge states.
 */
module Feistel {
  import opened ModArith
  import opened SpongeSpec

  function Sub(a: nat, b: nat, p: nat): nat
    requires p > 0
  {
    Mod(a - b, p)
  }

  function UnRound(h: Halves, key: nat, c: nat, p: nat): Halves
    requires p > 0
  {
    Halves(h.r, Sub(h.l, Pow5(Add(Add(key, h.r, p), c, p), p), p))
  }

  function UnRounds(h: Halves, key: nat, cs: seq<nat>, p: nat): Halves
    requires p > 0
    decreases |cs|
  {
    if cs == [] then h
    else UnRounds(UnRound(h, key, cs[|cs| - 1], p), key, cs[..|cs| - 1], p)
  }

  function UnLastRound(h: Halves, key: nat, p: nat): Halves
    requires p > 0
  {
    Halves(h.l, Sub(h.r, Pow5(Add(key, h.l, p), p), p))
  }

  function Unmixed(h: Halves, key: nat, f: Field): Halves {
    UnRounds(UnLastRound(h, key, f.p), key, f.c, f.p)
  }

  // ---------- one half at a time ----------

  lemma SubUndoesAdd(t: nat, x: nat, p: nat)
    requires x < p
    ensures Sub(Add(t, x, p), t, p) == x
  {
    ModAdd(t + x, -(t as int), p);
    ModSmall(x, p);
  }

  lemma AddUndoesSub(t: nat, x: nat, p: nat)
    requires x < p
    ensures Add(t, Sub(x, t, p), p) == x
  {
    ModAdd(x - t, t, p);
    ModSmall(x, p);
  }

  // ---------- whole rounds ----------

  lemma UnRoundsCanonical(h: Halves, key: nat, cs: seq<nat>, p: nat)
    requires p > 0 && Canonical(h, p)
    ensures Canonical(UnRounds(h, key, cs, p), p)
    decreases |cs|
  {
    if cs != [] {
      UnRoundsCanonical(UnRound(h, key, cs[|cs| - 1], p), key, cs[..|cs| - 1], p);
    }
  }

  lemma {:induction false} RoundsForthAndBack(h: Halves, key: nat, cs: seq<nat>, p: nat)
    requires p > 0 && Canonical(h, p)
    ensures UnRounds(Rounds(h, key, cs, p), key, cs, p) == h
    decreases |cs|
  {
    if cs != [] {
      var front, c := cs[..|cs| - 1], cs[|cs| - 1];
      var g := Rounds(h, key, front, p);
      RoundsCanonical(h, key, front, p);
      SubUndoesAdd(Pow5(Add(Add(key, g.l, p), c, p), p), g.r, p);
      RoundsForthAndBack(h, key, front, p);
    }
  }

  lemma {:induction false} RoundsBackAndForth(h: Halves, key: nat, cs: seq<nat>, p: nat)
    requires p > 0 && Canonical(h, p)
    ensures Rounds(UnRounds(h, key, cs, p), key, cs, p) == h
    decreases |cs|
  {
    if cs != [] {
      var front, c := cs[..|cs| - 1], cs[|cs| - 1];
      var g := UnRound(h, key, c, p);
      RoundsBackAndForth(g, key, front, p);
      AddUndoesSub(Pow5(Add(Add(key, h.r, p), c, p), p), h.l, p);
    }
  }

  /** `Unmixed` is a two-sided inverse of `Mixed` on pairs of residues. */
  lemma MixIsAPermutation(h: Halves, key: nat, f: Field)
    requires Canonical(h, f.p)
    ensures Canonical(Mixed(h, key, f), f.p) && Canonical(Unmixed(h, key, f), f.p)
    ensures Unmixed(Mixed(h, key, f), key, f) == h
    ensures Mixed(Unmixed(h, key, f), key, f) == h
  {
    MixCanonical(h, key, f);
    var g := Rounds(h, key, f.c, f.p);
    RoundsCanonical(h, key, f.c, f.p);
    SubUndoesAdd(Pow5(Add(key, g.l, f.p), f.p), g.r, f.p);
    RoundsForthAndBack(h, key, f.c, f.p);

    var u := UnLastRound(h, key, f.p);
    UnRoundsCanonical(u, key, f.c, f.p);
    RoundsBackAndForth(u, key, f.c, f.p);
    AddUndoesSub(Pow5(Add(key, h.l, f.p), f.p), h.r, f.p);
  }

  /** Injecting into one state gives one result exactly for one residue. */
  lemma InjectInjective(h: Halves, x: nat, y: nat, f: Field)
    requires Canonical(h, f.p)
    ensures Injected(h, x, f) == Injected(h, y, f) <==> Mod(x, f.p) == Mod(y, f.p)
  {
    ModAdd(h.l + x, -(h.l as int), f.p);
    ModAdd(h.l + y, -(h.l as int), f.p);
    ModAdd(x, h.l, f.p);
    ModAdd(y, h.l, f.p);
  }

  /** Exactly when do two rows of one column end in the same state (both halves)?
      When their 32-bit magnitudes agree and they lie on the same side of zero or have
      magnitude zero. */
  lemma RowsCollideIff(seed: Halves, y1: int, y2: int, key: nat, f: Field)
    requires Canonical(seed, f.p)
    ensures Cell(seed, y1, key, f) == Cell(seed, y2, key, f) <==> Aliases(y1, y2)
  {
    WrapCollidesIff(y1, y2, f);
    InjectInjective(seed, Wrap(y1, f), Wrap(y2, f), f);
    MixIsAPermutation(Injected(seed, Wrap(y1, f), f), key, f);
    MixIsAPermutation(Injected(seed, Wrap(y2, f), f), key, f);
  }

  /** Two rows of one column less than 2^32 apart, as all rows of a chunk are, end in
      different final states. */
  lemma DistinctRowsDistinctStates(seed: Halves, y1: int, y2: int, key: nat, f: Field)
    requires Canonical(seed, f.p)
    requires y1 != y2 && -U32 < y1 - y2 < U32
    ensures Cell(seed, y1, key, f) != Cell(seed, y2, key, f)
  {
    RowsCollideIff(seed, y1, y2, key, f);
    NearCoordinatesDoNotAlias(y1, y2);
  }

  /** Columns too: two columns less than 2^32 apart have different seeds. */
  lemma DistinctColumnsDistinctSeeds(x1: int, x2: int, key: nat, f: Field)
    requires x1 != x2 && -U32 < x1 - x2 < U32
    ensures Seed(x1, key, f) != Seed(x2, key, f)
  {
    DistinctRowsDistinctStates(ZERO, x1, x2, key, f);
  }
}
