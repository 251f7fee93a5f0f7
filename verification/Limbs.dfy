/**
 Big numbers on the wire between host and device: eight little-endian 32-bit limbs.
 The host exports only the significant words and pads the rest with zeros.
 */
module Limbs {
  import opened ModArith
  import opened SpongeSpec

  const COUNT: nat := 8

  predicate IsLimbs(xs: seq<nat>) {
    forall i | 0 <= i < |xs| :: xs[i] < U32
  }

  /** A 256-bit number in memory. */
  type Register = xs: seq<nat> | |xs| == COUNT && IsLimbs(xs) witness [0, 0, 0, 0, 0, 0, 0, 0]

  function Pow32(n: nat): (r: nat)
    ensures r > 0
  {
    if n == 0 then 1 else U32 * Pow32(n - 1)
  }

  /** `mpz_import`, least significant word first. */
  function Import(xs: seq<nat>): nat {
    if xs == [] then 0 else xs[0] + U32 * Import(xs[1..])
  }

  /** `mpz_export`, least significant word first: no word for 0, no leading zero word. */
  function Export(s: nat): seq<nat> {
    if s == 0 then [] else [s % U32] + Export(s / U32)
  }

  /** `mpz_sizeinbase(s, 2)`: the bit length, and 1 for 0. */
  function SizeInBase2(s: nat): nat {
    if s < 2 then 1 else 1 + SizeInBase2(s / 2)
  }

  function Zeros(n: nat): (z: seq<nat>)
    ensures |z| == n
  {
    seq(n, _ => 0)
  }

  /** The `n` limbs of a number that fits them. */
  function ToLimbs(s: nat, n: nat): seq<nat>
    requires |Export(s)| <= n
  {
    Export(s) + Zeros(n - |Export(s)|)
  }

  // ---------- export and import ----------

  lemma {:induction false} ExportBelow(s: nat, n: nat)
    ensures IsLimbs(Export(s))
    ensures |Export(s)| <= n <==> s < Pow32(n)
  {
    if s != 0 && n > 0 {
      ExportBelow(s / U32, n - 1);
    } else if s != 0 {
      ExportBelow(s / U32, 0);
    }
  }

  lemma {:induction false} ImportPadded(s: nat, n: nat)
    ensures Import(Export(s) + Zeros(n)) == s
  {
    var xs := Export(s) + Zeros(n);
    if s == 0 {
      if n > 0 {
        assert xs[1..] == Export(0) + Zeros(n - 1);
        ImportPadded(0, n - 1);
      }
    } else {
      assert xs[1..] == Export(s / U32) + Zeros(n);
      ImportPadded(s / U32, n);
    }
  }

  lemma {:induction false} ImportBelow(xs: seq<nat>)
    requires IsLimbs(xs)
    ensures Import(xs) < Pow32(|xs|)
  {
    if xs != [] {
      assert IsLimbs(xs[1..]);
      ImportBelow(xs[1..]);
    }
  }

  /** Exporting a number that fits and importing it back gives the number. */
  lemma RoundTrip(s: nat, n: nat)
    requires s < Pow32(n)
    ensures |Export(s)| <= n && |ToLimbs(s, n)| == n && IsLimbs(ToLimbs(s, n))
    ensures Import(ToLimbs(s, n)) == s
  {
    ExportBelow(s, n);
    ImportPadded(s, n - |Export(s)|);
  }

  /** Importing any limbs and exporting them back gives the limbs. */
  lemma {:induction false} LimbsRoundTrip(xs: seq<nat>)
    requires IsLimbs(xs)
    ensures |Export(Import(xs))| <= |xs|
    ensures ToLimbs(Import(xs), |xs|) == xs
  {
    ImportBelow(xs);
    ExportBelow(Import(xs), |xs|);
    if xs != [] {
      var tail := xs[1..];
      assert IsLimbs(tail);
      LimbsRoundTrip(tail);
      var s := Import(xs);
      assert s % U32 == xs[0] && s / U32 == Import(tail);
      assert xs == [xs[0]] + tail;
      if s == 0 {
        assert Zeros(|xs|) == [0] + Zeros(|tail|);
      } else {
        assert Export(s) == [xs[0]] + Export(Import(tail));
      }
    }
  }

  // ---------- what a limb holds ----------

  lemma NestedQuotient(s: nat, a: nat, b: nat)
    requires a > 0 && b > 0
    ensures a * b > 0 && s / (a * b) == (s / a) / b
  {
    var q, m := s / a, s % a;
    var d, e := q / b, q % b;
    assert s == a * q + m && q == b * d + e;
    assert s == (a * b) * d + (a * e + m) by {
      assert a * (b * d + e) == (a * b) * d + a * e;
    }
    assert a * e + m < a * b by {
      MulMono(e + 1, b, a);
      assert a * (e + 1) == a * e + a;
    }
    DivModUnique(s, a * b, d, a * e + m);
  }

  /** Limb i of the imported number is its i-th digit in base 2^32, lowest first. */
  lemma {:induction false} LimbIsDigit(xs: seq<nat>, i: nat)
    requires IsLimbs(xs) && i < |xs|
    ensures xs[i] == Import(xs) / Pow32(i) % U32
  {
    var tail := xs[1..];
    assert IsLimbs(tail);
    assert Import(xs) % U32 == xs[0] && Import(xs) / U32 == Import(tail);
    if i == 0 {
      assert Pow32(0) == 1;
    } else {
      LimbIsDigit(tail, i - 1);
      NestedQuotient(Import(xs), U32, Pow32(i - 1));
    }
  }

  lemma LimbsAreDigits(xs: seq<nat>)
    requires IsLimbs(xs)
    ensures forall i | 0 <= i < |xs| :: xs[i] == Import(xs) / Pow32(i) % U32
  {
    forall i | 0 <= i < |xs|
      ensures xs[i] == Import(xs) / Pow32(i) % U32
    {
      LimbIsDigit(xs, i);
    }
  }

  // ---------- the size test ----------

  function Pow2(n: nat): nat {
    if n == 0 then 1 else 2 * Pow2(n - 1)
  }

  lemma {:induction false} SizeBelow(s: nat, n: nat)
    requires n >= 1
    ensures SizeInBase2(s) <= n <==> s < Pow2(n)
  {
    if s < 2 {
      Pow2AtLeast(n);
    } else if n > 1 {
      SizeBelow(s / 2, n - 1);
    }
  }

  lemma Pow2AtLeast(n: nat)
    requires n >= 1
    ensures Pow2(n) >= 2
  {
    if n > 1 {
      Pow2AtLeast(n - 1);
    }
  }

  lemma EightLimbs()
    ensures Pow32(COUNT) == U256
  {
    assert Pow32(2) == U32 * U32 * 1;
    assert Pow32(4) == U32 * U32 * Pow32(2);
    assert Pow32(6) == U32 * U32 * Pow32(4);
  }

  lemma Pow2Is(n: nat, k: nat)
    ensures Pow2(n + k) == Pow2(n) * Pow2(k)
  {
    if k > 0 {
      Pow2Is(n, k - 1);
      assert Pow2(n + k) == 2 * Pow2(n + k - 1);
    }
  }

  lemma OneWord()
    ensures Pow2(32) == U32
  {
    Pow2Is(2, 2);
    Pow2Is(4, 4);
    Pow2Is(8, 8);
    Pow2Is(16, 16);
  }

  lemma {:induction false} WordsAreBits(n: nat)
    ensures Pow2(n * 32) == Pow32(n)
  {
    if n > 0 {
      WordsAreBits(n - 1);
      Pow2Is((n - 1) * 32, 32);
      OneWord();
    }
  }

  /** What storing a 256-bit register writes. */
  function Store(h: nat): (xs: Register)
    ensures h < U256 ==> Import(xs) == h
  {
    EightLimbs();
    RoundTrip(h % U256, COUNT);
    ToLimbs(h % U256, COUNT)
  }

  // ---------- the host functions ----------

  /** `from_mpz`: refuses a number over 256 bits (the program exits), else fills the eight
      limbs; importing them gives the number back. */
  method FromMpz(s: nat, x: array<nat>) returns (ok: bool)
    requires x.Length == COUNT
    modifies x
    ensures ok <==> s < U256
    ensures ok ==> |Export(s)| <= COUNT && x[..] == ToLimbs(s, COUNT) && IsLimbs(x[..])
    ensures ok ==> Import(x[..]) == s
    ensures ok ==> forall i | 0 <= i < COUNT :: x[i] == s / Pow32(i) % U32
    ensures !ok ==> x[..] == old(x[..])
  {
    EightLimbs();
    WordsAreBits(COUNT);
    SizeBelow(s, COUNT * 32);
    ExportBelow(s, COUNT);
    if SizeInBase2(s) > COUNT * 32 {
      return false;
    }
    var written := Export(s);
    var words := |written|;
    forall i | 0 <= i < words {
      x[i] := written[i];
    }
    while words < COUNT
      invariant |written| <= words <= COUNT
      invariant x[..words] == written + Zeros(words - |written|)
    {
      x[words] := 0;
      words := words + 1;
    }
    assert x[..] == x[..words];
    RoundTrip(s, COUNT);
    LimbsAreDigits(x[..]);
    ok := true;
  }

  /** `to_mpz`. */
  method ToMpz(limbs: seq<nat>) returns (r: nat)
    requires |limbs| == COUNT && IsLimbs(limbs)
    ensures r == Import(limbs) < U256 && |Export(r)| <= COUNT
    ensures ToLimbs(r, COUNT) == limbs
    ensures forall i | 0 <= i < COUNT :: limbs[i] == r / Pow32(i) % U32
  {
    EightLimbs();
    LimbsRoundTrip(limbs);
    LimbsAreDigits(limbs);
    ImportBelow(limbs);
    r := 0;
    var i := |limbs|;
    while i > 0
      invariant 0 <= i <= |limbs|
      invariant r == Import(limbs[i..])
    {
      i := i - 1;
      assert limbs[i..][1..] == limbs[i + 1..];
      r := limbs[i] + U32 * r;
    }
    assert limbs[0..] == limbs;
  }
}
