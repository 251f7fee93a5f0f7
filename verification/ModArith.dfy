/**
 Facts about Euclidean division by a variable modulus.  Every other module reasons about
 residues through these lemmas, so that the solver meets non-linear arithmetic only here.
 */
module ModArith {

  /** A quotient and an in-range remainder determine `/` and `%`. */
  lemma DivModUnique(n: int, p: int, q: int, r: int)
    requires 0 <= r < p
    requires n == p * q + r
    ensures n / p == q && n % p == r
  {
    var d, m := n / p, n % p;
    assert p * d + m == n && 0 <= m < p;
    QuotientsAgree(p, d, m, q, r);
  }

  lemma MulAtLeast(p: int, k: int)
    requires p > 0 && k >= 1
    ensures p * k >= p
  {
  }

  lemma MulMono(a: nat, b: nat, k: nat)
    requires a <= b
    ensures a * k <= b * k && k * a <= k * b
  {
  }

  lemma OneMore(a: nat, n: nat)
    ensures (a + 1) * n == a * n + n
  {
  }

  lemma QuotientsAgree(p: int, d: int, m: int, q: int, r: int)
    requires 0 <= r < p && 0 <= m < p
    requires p * d + m == p * q + r
    ensures d == q && m == r
  {
    var k := d - q;
    assert p * k == p * d - p * q;
    assert p * -k == -(p * k);
    if k >= 1 {
      MulAtLeast(p, k);
    } else if k <= -1 {
      MulAtLeast(p, -k);
    }
  }

  /** The residue.  Named, so that proofs by rewriting can hide the division. */
  function Mod(x: int, p: nat): (r: nat)
    requires p > 0
    ensures r < p
  {
    x % p
  }

  lemma ModIs(x: int, p: nat, q: int, r: nat)
    requires r < p && x == p * q + r
    ensures Mod(x, p) == r
  {
    DivModUnique(x, p, q, r);
  }

  lemma ModShift(x: int, k: int, p: nat)
    requires p > 0
    ensures Mod(x + p * k, p) == Mod(x, p)
  {
    var q, r := x / p, x % p;
    assert x + p * k == p * (q + k) + r;
    ModIs(x + p * k, p, q + k, r);
  }

  lemma ModSmall(x: nat, p: nat)
    requires x < p
    ensures Mod(x, p) == x
  {
    ModIs(x, p, 0, x);
  }

  /** Reducing one summand first does not change the residue of a sum. */
  lemma ModAdd(a: int, b: int, p: nat)
    requires p > 0
    ensures Mod(Mod(a, p) + b, p) == Mod(a + b, p)
  {
    var q, r := a / p, a % p;
    assert a == p * q + r;
    ModShift(r + b, q, p);
    assert r + b + p * q == a + b;
  }

  lemma ModAddBoth(a: int, b: int, p: nat)
    requires p > 0
    ensures Mod(Mod(a, p) + Mod(b, p), p) == Mod(a + b, p)
  {
    hide Mod;
    ModAdd(a, Mod(b, p), p);
    ModAdd(b, a, p);
    assert Mod(b, p) + a == a + Mod(b, p) && b + a == a + b;
  }

  lemma ModAddTwice(k: int, a: int, c: int, p: nat)
    requires p > 0
    ensures Mod(Mod(k + Mod(a, p), p) + c, p) == Mod(k + a + c, p)
  {
    hide Mod;
    ModAdd(k + Mod(a, p), c, p);
    ModAdd(a, k + c, p);
    assert k + Mod(a, p) + c == Mod(a, p) + (k + c) && a + (k + c) == k + a + c;
  }

  /** Reducing one factor first does not change the residue of a product. */
  lemma ModMul(a: int, b: int, p: nat)
    requires p > 0
    ensures Mod(Mod(a, p) * b, p) == Mod(a * b, p)
  {
    var q, r := a / p, a % p;
    assert a == p * q + r;
    Distribute(p, q, r, b);
    ModShift(r * b, q * b, p);
  }

  lemma Distribute(p: int, q: int, r: int, b: int)
    ensures (p * q + r) * b == r * b + p * (q * b)
  {
    assert (p * q) * b == p * (q * b);
  }

  lemma ModMulBoth(a: int, b: int, p: nat)
    requires p > 0
    ensures Mod(Mod(a, p) * Mod(b, p), p) == Mod(a * b, p)
  {
    hide Mod;
    ModMul(a, Mod(b, p), p);
    ModMul(b, a, p);
    assert a * Mod(b, p) == Mod(b, p) * a && a * b == b * a;
  }

  /** The residue of a sum of two residues needs at most one subtraction. */
  lemma SumOfResidues(x: nat, y: nat, p: nat)
    requires x < p && y < p
    ensures Mod(x + y, p) == if x + y < p then x + y else x + y - p
  {
    if x + y < p {
      ModIs(x + y, p, 0, x + y);
    } else {
      ModIs(x + y, p, 1, x + y - p);
    }
  }
}
