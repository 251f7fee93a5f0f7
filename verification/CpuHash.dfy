/**
 The CPU sponge: arbitrary-precision numbers, reduced to a residue after every operation.
 Each method is proved to perform one operation of the machine in `SpongeSpec`.
 */
module CpuHash {
  import opened ModArith
  import opened SpongeSpec

  method WrapCoordinate(c: int, f: Field) returns (w: nat)
    requires -(U64 / 2) < c < U64 / 2
    ensures w == Wrap(c, f)
    ensures -U32 < c < U32 ==> w == Mod(c, f.p)
  {
    if -U32 < c < U32 {
      WrapResidue(c, f);
    }
    if c >= 0 {
      w := Low32(c);
      return;
    }
    var magnitude := Low32(-c);
    w := f.p - magnitude;
  }

  /** The sum, and the scratch value that held it unreduced. */
  method FieldAdd(a: nat, b: nat, p: nat) returns (s: nat, t: nat)
    requires p > 0
    ensures s == Add(a, b, p) == Mod(a + b, p) && t == a + b
    ensures a < p && b < p ==> s == if a + b < p then a + b else a + b - p
  {
    if a < p && b < p {
      SumOfResidues(a, b, p);
    }
    t := a + b;
    s := Mod(t, p);
  }

  method FifthPower(n: nat, p: nat) returns (r: nat)
    requires p > 0
    ensures r == Pow5(n, p) == Mod(((n * n) * (n * n)) * n, p)
  {
    FifthIsProduct(n);
    r := Mod(Pow(n, 5), p);
  }

  class Sponge {
    const f: Field
    var l: nat
    var r: nat
    var snapL: nat
    var snapR: nat
    var t0: nat
    var t1: nat
    var t2: nat
    var t3: nat
    var t4: nat

    function Live(): Halves
      reads this
    {
      Halves(l, r)
    }

    function View(): Memory
      reads this
    {
      Memory(Live(), Halves(snapL, snapR))
    }

    constructor (f: Field)
      ensures this.f == f
    {
      this.f := f;
      l, r, snapL, snapR := 0, 0, 0, 0;
      t0, t1, t2, t3, t4 := 0, 0, 0, 0, 0;
    }

    method Reset()
      modifies `l, `r
      ensures View() == Apply(old(View()), Op.Reset, 0, f)
    {
      l := 0;
      r := 0;
    }

    method Inject(x: nat)
      modifies `l, `t0
      ensures View() == Apply(old(View()), Op.Inject(x), 0, f)
    {
      l, t0 := FieldAdd(l, x, f.p);
    }

    method Mix(key: nat)
      modifies `l, `r, `t0, `t1, `t2
      ensures View() == Apply(old(View()), Op.Mix, key, f)
    {
      ghost var start := Live();
      for j := 0 to |f.c|
        invariant Live() == Rounds(start, key, f.c[..j], f.p)
      {
        assert f.c[..j + 1][..j] == f.c[..j];
        t0, t1 := FieldAdd(key, l, f.p);
        t1, t2 := FieldAdd(t0, f.c[j], f.p);
        t0 := FifthPower(t1, f.p);
        t1, t2 := FieldAdd(t0, r, f.p);
        r := l;
        l := t1;
      }
      assert f.c[..|f.c|] == f.c;
      t0, t2 := FieldAdd(key, l, f.p);
      t1 := FifthPower(t0, f.p);
      t0, t2 := FieldAdd(t1, r, f.p);
      r := t0;
    }

    method Save()
      modifies `snapL, `snapR
      ensures View() == Apply(old(View()), Op.Save, 0, f)
    {
      snapL := l;
      snapR := r;
    }

    method Restore()
      modifies `l, `r
      ensures View() == Apply(old(View()), Op.Restore, 0, f)
    {
      l := snapL;
      r := snapR;
    }

    method Result() returns (out: nat)
      ensures out == View().live.l
    {
      out := l;
    }
  }

  predicate IsPlanet(hash: nat, threshold: nat) {
    hash < threshold
  }

  /** The comparison with the rounded-down threshold p / rarity decides, without rounding,
      whether the hash falls in the first 1 / rarity of the residues. */
  lemma PlanetThreshold(hash: nat, rarity: nat, p: nat)
    requires rarity > 0
    ensures IsPlanet(hash, p / rarity) <==> (hash + 1) * rarity <= p
  {
    var q, m := p / rarity, p % rarity;
    assert p == rarity * q + m;
    if hash < q {
      MulMono(hash + 1, q, rarity);
    } else {
      MulMono(q + 1, hash + 1, rarity);
    }
  }
}
