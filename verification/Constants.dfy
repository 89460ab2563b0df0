/** FIPS 180-4 sections 4.2.2 and 5.3.3 say where the hash's constants come from:
    the first 32 bits of the fractional parts of the cube roots of the first 64
    primes, and of the square roots of the first eight.  The tables are these. */
module Constants {
  import opened Sha256Spec

  /** The first 64 primes. */
  function PrimeAt(i: nat): nat
    requires i < 64
  {
    if i < 8 then [2, 3, 5, 7, 11, 13, 17, 19][i]
    else if i < 16 then [23, 29, 31, 37, 41, 43, 47, 53][i - 8]
    else if i < 24 then [59, 61, 67, 71, 73, 79, 83, 89][i - 16]
    else if i < 32 then [97, 101, 103, 107, 109, 113, 127, 131][i - 24]
    else if i < 40 then [137, 139, 149, 151, 157, 163, 167, 173][i - 32]
    else if i < 48 then [179, 181, 191, 193, 197, 199, 211, 223][i - 40]
    else if i < 56 then [227, 229, 233, 239, 241, 251, 257, 263][i - 48]
    else [269, 271, 277, 281, 283, 293, 307, 311][i - 56]
  }

  function Square(x: nat): nat { x * x }

  function Cube(x: nat): nat { x * x * x }

  function CubeRoot(p: nat): nat {
    if p < 8 then 1 else if p < 27 then 2 else if p < 64 then 3
    else if p < 125 then 4 else if p < 216 then 5 else 6
  }

  function SquareRoot(p: nat): nat {
    if p < 4 then 1 else if p < 9 then 2 else if p < 16 then 3 else 4
  }

  /** k is the first 32 bits of the fractional part of the cube root of p. */
  predicate IsCubeRootFraction(p: nat, k: word) {
    var r := CubeRoot(p) * 0x1_0000_0000 + k as nat;
    Cube(r) <= p * 0x1_0000_0000_0000_0000_0000_0000 < Cube(r + 1)
  }

  predicate IsSquareRootFraction(p: nat, h: word) {
    var r := SquareRoot(p) * 0x1_0000_0000 + h as nat;
    Square(r) <= p * 0x1_0000_0000_0000_0000 < Square(r + 1)
  }

  /** Trial division, enough below 19 * 19. */
  predicate Passes(n: nat) {
    && n >= 2
    && (n == 2 || n % 2 != 0) && (n == 3 || n % 3 != 0) && (n == 5 || n % 5 != 0) && (n == 7 || n % 7 != 0)
    && (n == 11 || n % 11 != 0) && (n == 13 || n % 13 != 0) && (n == 17 || n % 17 != 0)
  }

  /** Before q, n is not a prime. */
  predicate Skips(n: nat, q: nat) { n < q ==> !Passes(n) }

  /** q is the next to pass after an odd p > 1, at most 14 later, or just after p. */
  predicate Follows(p: nat, q: nat) {
    && p < q <= p + 14 && ((p > 1 && p % 2 == 1) || q == p + 1) && Passes(q)
    && Skips(p + 2, q) && Skips(p + 4, q) && Skips(p + 6, q)
    && Skips(p + 8, q) && Skips(p + 10, q) && Skips(p + 12, q)
  }

  function Before(i: nat): nat
    requires i < 64
  {
    if i == 0 then 1 else PrimeAt(i - 1)
  }

  predicate Entry(p: nat, q: nat, k: word) { Follows(p, q) && IsCubeRootFraction(q, k) }

  predicate Divides(d: nat, n: nat)
    requires d > 0
  {
    n % d == 0
  }

  ghost predicate IsPrime(n: nat) {
    n >= 2 && forall d :: 2 <= d < n ==> !Divides(d, n)
  }

  lemma MultipleOf(d: nat, k: nat)
    requires d > 0
    ensures Divides(d, d * k)
  {
    var q: int, r: int := (d * k) / d, (d * k) % d;
    var x: int := k - q;
    assert d * x == r;
    assert x >= 1 ==> d * x >= d;
    assert x <= -1 ==> d * x + d <= 0;
  }

  lemma DividesThrough(p: nat, d: nat, n: nat)
    requires p > 0 && d > 0 && Divides(p, d) && Divides(d, n)
    ensures Divides(p, n)
  {
    var a, b := d / p, n / d;
    assert d == p * a && n == d * b;
    assert n == p * (a * b);
    MultipleOf(p, a * b);
  }

  /** A number below 361 with a proper divisor has one below 19. */
  lemma SmallDivisor(n: nat, d: nat) returns (e: nat)
    requires n < 361 && 2 <= d < n && Divides(d, n)
    ensures 2 <= e < 19 && e < n && Divides(e, n)
  {
    e := d;
    if d >= 19 {
      e := n / d;
      assert n == d * e;
      assert e >= 19 ==> d * e >= 19 * 19;
      assert e <= 1 ==> d * e <= d;
      MultipleOf(e, d);
    }
  }

  lemma SmallDivisorFails(n: nat, e: nat)
    requires 2 <= e < 19 && e < n && Divides(e, n)
    ensures !Passes(n)
  {
    var p := if e % 2 == 0 then 2 else if e % 3 == 0 then 3 else if e == 5 then 5
             else if e == 7 then 7 else if e == 11 then 11 else if e == 13 then 13 else 17;
    assert Divides(p, e);
    DividesThrough(p, e, n);
  }

  lemma PassesMeansPrime(n: nat)
    requires n < 361
    ensures Passes(n) <==> IsPrime(n)
  {
    forall d | 2 <= d < n && Divides(d, n)
      ensures !Passes(n)
    {
      var e := SmallDivisor(n, d);
      SmallDivisorFails(n, e);
    }
    if n >= 2 {
      FailsHasDivisor(n);
    }
  }

  lemma FailsHasDivisor(n: nat)
    requires n >= 2
    ensures !Passes(n) ==> exists d :: 2 <= d < n && Divides(d, n)
  {
    assert n > 2 && n % 2 == 0 ==> Divides(2, n);
    assert n > 3 && n % 3 == 0 ==> Divides(3, n);
    assert n > 5 && n % 5 == 0 ==> Divides(5, n);
    assert n > 7 && n % 7 == 0 ==> Divides(7, n);
    assert n > 11 && n % 11 == 0 ==> Divides(11, n);
    assert n > 13 && n % 13 == 0 ==> Divides(13, n);
    assert n > 17 && n % 17 == 0 ==> Divides(17, n);
  }

  lemma EvenFails(n: nat)
    requires n > 2 && n % 2 == 0
    ensures !Passes(n)
  {}

  lemma FollowsSkips(p: nat, q: nat, n: nat)
    requires Follows(p, q) && p < n < q
    ensures !Passes(n)
  {
    hide Passes;
    if n % 2 == 0 {
      EvenFails(n);
    } else {
      assert n - p == 2 || n - p == 4 || n - p == 6 || n - p == 8 || n - p == 10 || n - p == 12;
    }
  }

  lemma InitialHashValue(i: nat)
    requires i < 8
    ensures IsSquareRootFraction(PrimeAt(i), H0.Words()[i])
  {
    if i == 0 { assert IsSquareRootFraction(2, 0x6a09e667); }
    if i == 1 { assert IsSquareRootFraction(3, 0xbb67ae85); }
    if i == 2 { assert IsSquareRootFraction(5, 0x3c6ef372); }
    if i == 3 { assert IsSquareRootFraction(7, 0xa54ff53a); }
    if i == 4 { assert IsSquareRootFraction(11, 0x510e527f); }
    if i == 5 { assert IsSquareRootFraction(13, 0x9b05688c); }
    if i == 6 { assert IsSquareRootFraction(17, 0x1f83d9ab); }
    if i == 7 { assert IsSquareRootFraction(19, 0x5be0cd19); }
  }

  lemma CubeRoots0(i: nat)
    requires 0 <= i < 8
    ensures Entry(Before(i), PrimeAt(i), KAt(i))
  {
    assert Entry(1, 2, 0x428a2f98);
    assert Entry(2, 3, 0x71374491);
    assert Entry(3, 5, 0xb5c0fbcf);
    assert Entry(5, 7, 0xe9b5dba5);
    assert Entry(7, 11, 0x3956c25b);
    assert Entry(11, 13, 0x59f111f1);
    assert Entry(13, 17, 0x923f82a4);
    assert Entry(17, 19, 0xab1c5ed5);
    hide Entry;
  }

  lemma CubeRoots8(i: nat)
    requires 8 <= i < 16
    ensures Entry(Before(i), PrimeAt(i), KAt(i))
  {
    assert Entry(19, 23, 0xd807aa98);
    assert Entry(23, 29, 0x12835b01);
    assert Entry(29, 31, 0x243185be);
    assert Entry(31, 37, 0x550c7dc3);
    assert Entry(37, 41, 0x72be5d74);
    assert Entry(41, 43, 0x80deb1fe);
    assert Entry(43, 47, 0x9bdc06a7);
    assert Entry(47, 53, 0xc19bf174);
    hide Entry;
  }

  lemma CubeRoots16(i: nat)
    requires 16 <= i < 24
    ensures Entry(Before(i), PrimeAt(i), KAt(i))
  {
    assert Entry(53, 59, 0xe49b69c1);
    assert Entry(59, 61, 0xefbe4786);
    assert Entry(61, 67, 0x0fc19dc6);
    assert Entry(67, 71, 0x240ca1cc);
    assert Entry(71, 73, 0x2de92c6f);
    assert Entry(73, 79, 0x4a7484aa);
    assert Entry(79, 83, 0x5cb0a9dc);
    assert Entry(83, 89, 0x76f988da);
    hide Entry;
  }

  lemma CubeRoots24(i: nat)
    requires 24 <= i < 32
    ensures Entry(Before(i), PrimeAt(i), KAt(i))
  {
    assert Entry(89, 97, 0x983e5152);
    assert Entry(97, 101, 0xa831c66d);
    assert Entry(101, 103, 0xb00327c8);
    assert Entry(103, 107, 0xbf597fc7);
    assert Entry(107, 109, 0xc6e00bf3);
    assert Entry(109, 113, 0xd5a79147);
    assert Entry(113, 127, 0x06ca6351);
    assert Entry(127, 131, 0x14292967);
    hide Entry;
  }

  lemma CubeRoots32(i: nat)
    requires 32 <= i < 40
    ensures Entry(Before(i), PrimeAt(i), KAt(i))
  {
    assert Entry(131, 137, 0x27b70a85);
    assert Entry(137, 139, 0x2e1b2138);
    assert Entry(139, 149, 0x4d2c6dfc);
    assert Entry(149, 151, 0x53380d13);
    assert Entry(151, 157, 0x650a7354);
    assert Entry(157, 163, 0x766a0abb);
    assert Entry(163, 167, 0x81c2c92e);
    assert Entry(167, 173, 0x92722c85);
    hide Entry;
  }

  lemma CubeRoots40(i: nat)
    requires 40 <= i < 48
    ensures Entry(Before(i), PrimeAt(i), KAt(i))
  {
    assert Entry(173, 179, 0xa2bfe8a1);
    assert Entry(179, 181, 0xa81a664b);
    assert Entry(181, 191, 0xc24b8b70);
    assert Entry(191, 193, 0xc76c51a3);
    assert Entry(193, 197, 0xd192e819);
    assert Entry(197, 199, 0xd6990624);
    assert Entry(199, 211, 0xf40e3585);
    assert Entry(211, 223, 0x106aa070);
    hide Entry;
  }

  lemma CubeRoots48(i: nat)
    requires 48 <= i < 56
    ensures Entry(Before(i), PrimeAt(i), KAt(i))
  {
    assert Entry(223, 227, 0x19a4c116);
    assert Entry(227, 229, 0x1e376c08);
    assert Entry(229, 233, 0x2748774c);
    assert Entry(233, 239, 0x34b0bcb5);
    assert Entry(239, 241, 0x391c0cb3);
    assert Entry(241, 251, 0x4ed8aa4a);
    assert Entry(251, 257, 0x5b9cca4f);
    assert Entry(257, 263, 0x682e6ff3);
    hide Entry;
  }

  lemma CubeRoots56(i: nat)
    requires 56 <= i < 64
    ensures Entry(Before(i), PrimeAt(i), KAt(i))
  {
    assert Entry(263, 269, 0x748f82ee);
    assert Entry(269, 271, 0x78a5636f);
    assert Entry(271, 277, 0x84c87814);
    assert Entry(277, 281, 0x8cc70208);
    assert Entry(281, 283, 0x90befffa);
    assert Entry(283, 293, 0xa4506ceb);
    assert Entry(293, 307, 0xbef9a3f7);
    assert Entry(307, 311, 0xc67178f2);
    hide Entry;
  }

  lemma TableEntry(i: nat)
    requires i < 64
    ensures Entry(Before(i), PrimeAt(i), KAt(i)) && PrimeAt(i) < 361
  {
    hide Entry, KAt, Before;
    if i < 8 { CubeRoots0(i); }
    else if i < 16 { CubeRoots8(i); }
    else if i < 24 { CubeRoots16(i); }
    else if i < 32 { CubeRoots24(i); }
    else if i < 40 { CubeRoots32(i); }
    else if i < 48 { CubeRoots40(i); }
    else if i < 56 { CubeRoots48(i); }
    else { CubeRoots56(i); }
  }

  /** The round constants are cube roots, and what they are cube roots of are the
      primes from 2 on with none left out. */
  lemma RoundConstant(i: nat)
    requires i < 64
    ensures IsCubeRootFraction(PrimeAt(i), KAt(i))
    ensures IsPrime(PrimeAt(i))
    ensures forall n :: (if i == 0 then 0 else PrimeAt(i - 1)) < n < PrimeAt(i) ==> !IsPrime(n)
  {
    hide IsCubeRootFraction, KAt, PrimeAt, Passes, Follows;
    TableEntry(i);
    PassesMeansPrime(PrimeAt(i));
    FollowsPasses(Before(i), PrimeAt(i));
    forall n | Before(i) < n < PrimeAt(i)
      ensures !IsPrime(n)
    {
      FollowsSkips(Before(i), PrimeAt(i), n);
      PassesMeansPrime(n);
    }
  }

  lemma FollowsPasses(p: nat, q: nat)
    requires Follows(p, q)
    ensures Passes(q)
  {}
}
