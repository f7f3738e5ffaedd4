/**
 Where the constants of SHA-256 come from, by sections 4.2.2 and 5.3.3 of FIPS 180-4: the first 32 bits of the
 fractional parts of the cube roots of the first 64 primes, and of the square roots of the first eight.
 */
module Sha256Constants {
  import opened Sha256Spec

  // ----- the first 64 primes -----

  predicate IsPrime(n: nat) { n >= 2 && forall d | 2 <= d < n :: n % d != 0 }

  function Prime(t: nat): nat
    requires t < 64
  {
    match t
    case 0 => 2 case 1 => 3 case 2 => 5 case 3 => 7 case 4 => 11 case 5 => 13 case 6 => 17
    case 7 => 19 case 8 => 23 case 9 => 29 case 10 => 31 case 11 => 37 case 12 => 41 case 13 => 43
    case 14 => 47 case 15 => 53 case 16 => 59 case 17 => 61 case 18 => 67 case 19 => 71 case 20 => 73
    case 21 => 79 case 22 => 83 case 23 => 89 case 24 => 97 case 25 => 101 case 26 => 103 case 27 => 107
    case 28 => 109 case 29 => 113 case 30 => 127 case 31 => 131 case 32 => 137 case 33 => 139 case 34 => 149
    case 35 => 151 case 36 => 157 case 37 => 163 case 38 => 167 case 39 => 173 case 40 => 179 case 41 => 181
    case 42 => 191 case 43 => 193 case 44 => 197 case 45 => 199 case 46 => 211 case 47 => 223 case 48 => 227
    case 49 => 229 case 50 => 233 case 51 => 239 case 52 => 241 case 53 => 251 case 54 => 257 case 55 => 263
    case 56 => 269 case 57 => 271 case 58 => 277 case 59 => 281 case 60 => 283 case 61 => 293 case 62 => 307
    case _ => 311
  }

  /** No prime up to 17 divides it, unless it is that prime. */
  predicate Sieved(n: nat) {
    && n >= 2 && (n == 2 || n % 2 != 0) && (n == 3 || n % 3 != 0) && (n == 5 || n % 5 != 0) && (n == 7 || n % 7 != 0)
    && (n == 11 || n % 11 != 0) && (n == 13 || n % 13 != 0) && (n == 17 || n % 17 != 0)
  }

  /** Bounds of a product. */
  lemma Products(d: nat, e: nat)
    ensures e <= 1 ==> d * e <= d
    ensures d >= 2 ==> d * e >= 2 * e
    ensures d >= 19 && e >= 19 ==> d * e >= 361
  {
    if d >= 19 && e >= 19 { assert d * e >= 19 * e; }
  }

  lemma Factor(n: nat, d: nat)
    requires 0 < d && n % d == 0
    ensures n == d * (n / d)
  {}

  lemma Between(p: int, j: int)
    requires p > 0
    ensures j >= 1 ==> p * j >= p
    ensures j <= -1 ==> p * j <= -p
  {}

  lemma Multiple(n: nat, p: nat, k: nat)
    requires 0 < p && n == p * k
    ensures n % p == 0
  {
    var q, r := n / p, n % p;
    assert n == p * q + r;
    assert p * (k - q) == r;
    Between(p, k - q);
  }

  /** Of two factors of a number below 19 * 19 one is at most 18. */
  lemma SmallFactor(n: nat, d: nat)
    requires n < 361 && 2 <= d < n && n % d == 0
    ensures exists f, k :: 2 <= f <= 18 && f < n && n == f * k
  {
    Factor(n, d);
    var e := n / d;
    Products(d, e);
    assert if d <= 18 then 2 <= d <= 18 && d < n && n == d * e else 2 <= e <= 18 && e < n && n == e * d;
  }

  /** A number from 2 to 18 is a multiple of a prime up to 17. */
  lemma SmallMultiple(f: nat, n: nat, k: nat)
    requires 2 <= f <= 18 && f < n && n == f * k
    ensures !Sieved(n)
  {
    if f % 2 == 0 { Through(f, n, k, 2); }
    else if f % 3 == 0 { Through(f, n, k, 3); }
    else if f == 5 { Through(f, n, k, 5); }
    else if f == 7 { Through(f, n, k, 7); }
    else if f == 11 { Through(f, n, k, 11); }
    else if f == 13 { Through(f, n, k, 13); }
    else { Through(f, n, k, 17); }
  }

  lemma Through(f: nat, n: nat, k: nat, p: nat)
    requires 0 < p && f % p == 0 && n == f * k
    ensures n % p == 0
  {
    Factor(f, p);
    assert p * (f / p) * k == p * ((f / p) * k);
    Multiple(n, p, (f / p) * k);
  }

  lemma SievedPrime(n: nat)
    requires n < 361 && Sieved(n)
    ensures IsPrime(n)
  {
    forall d | 2 <= d < n ensures n % d != 0 {
      if n % d == 0 {
        SmallFactor(n, d);
        var f, k :| 2 <= f <= 18 && f < n && n == f * k;
        SmallMultiple(f, n, k);
      }
    }
  }

  lemma PrimeSieved(n: nat)
    requires IsPrime(n)
    ensures Sieved(n)
  {
    assert forall p | p == 2 || p == 3 || p == 5 || p == 7 || p == 11 || p == 13 || p == 17 :: p < n ==> n % p != 0;
  }

  /** None of these numbers passes the sieve. */
  predicate NoneSieved(lo: nat, hi: nat)
    decreases hi - lo
  {
    lo >= hi || (!Sieved(lo) && NoneSieved(lo + 1, hi))
  }

  lemma {:induction false} NoneAt(lo: nat, hi: nat, n: nat)
    requires NoneSieved(lo, hi) && lo <= n < hi
    ensures !Sieved(n)
    decreases hi - lo
  {
    hide Sieved;
    if lo < n { NoneAt(lo + 1, hi, n); }
  }

  /** Two neighbours in the list. */
  predicate Neighbours(p: nat, q: nat) { p < q < 343 && Sieved(q) && NoneSieved(p + 1, q) }

  lemma Neighbours0()
    ensures Neighbours(2, 3) && Neighbours(3, 5) && Neighbours(5, 7) && Neighbours(7, 11)
    ensures Neighbours(11, 13) && Neighbours(13, 17) && Neighbours(17, 19) && Neighbours(19, 23)
  {}

  lemma Neighbours1()
    ensures Neighbours(23, 29) && Neighbours(29, 31) && Neighbours(31, 37) && Neighbours(37, 41)
    ensures Neighbours(41, 43) && Neighbours(43, 47) && Neighbours(47, 53) && Neighbours(53, 59)
  {}

  lemma Neighbours2()
    ensures Neighbours(59, 61) && Neighbours(61, 67) && Neighbours(67, 71) && Neighbours(71, 73)
    ensures Neighbours(73, 79) && Neighbours(79, 83) && Neighbours(83, 89) && Neighbours(89, 97)
  {}

  lemma Neighbours3()
    ensures Neighbours(97, 101) && Neighbours(101, 103) && Neighbours(103, 107) && Neighbours(107, 109)
    ensures Neighbours(109, 113) && Neighbours(113, 127) && Neighbours(127, 131) && Neighbours(131, 137)
  {}

  lemma Neighbours4()
    ensures Neighbours(137, 139) && Neighbours(139, 149) && Neighbours(149, 151) && Neighbours(151, 157)
    ensures Neighbours(157, 163) && Neighbours(163, 167) && Neighbours(167, 173) && Neighbours(173, 179)
  {}

  lemma Neighbours5()
    ensures Neighbours(179, 181) && Neighbours(181, 191) && Neighbours(191, 193) && Neighbours(193, 197)
    ensures Neighbours(197, 199) && Neighbours(199, 211) && Neighbours(211, 223) && Neighbours(223, 227)
  {}

  lemma Neighbours6()
    ensures Neighbours(227, 229) && Neighbours(229, 233) && Neighbours(233, 239) && Neighbours(239, 241)
    ensures Neighbours(241, 251) && Neighbours(251, 257) && Neighbours(257, 263) && Neighbours(263, 269)
  {}

  lemma Neighbours7()
    ensures Neighbours(269, 271) && Neighbours(271, 277) && Neighbours(277, 281) && Neighbours(281, 283)
    ensures Neighbours(283, 293) && Neighbours(293, 307) && Neighbours(307, 311)
  {}

  lemma NeighboursAt(t: nat)
    requires t < 63
    ensures Neighbours(Prime(t), Prime(t + 1))
  {
    hide Neighbours;
    if t < 8 { Neighbours0(); }
    else if t < 16 { Neighbours1(); }
    else if t < 24 { Neighbours2(); }
    else if t < 32 { Neighbours3(); }
    else if t < 40 { Neighbours4(); }
    else if t < 48 { Neighbours5(); }
    else if t < 56 { Neighbours6(); }
    else { Neighbours7(); }
  }

  lemma PrimeIs(t: nat)
    requires t < 64
    ensures Prime(t) < 343 && IsPrime(Prime(t))
  {
    if t == 0 {
    } else {
      NeighboursAt(t - 1);
    }
    SievedPrime(Prime(t));
  }

  /** `Prime` lists the primes from 2 on, and none is left out. */
  lemma PrimesInOrder(t: nat)
    requires t < 63
    ensures Prime(0) == 2 && IsPrime(Prime(t)) && IsPrime(Prime(t + 1)) && Prime(t) < Prime(t + 1)
    ensures forall n: nat | Prime(t) < n < Prime(t + 1) :: !IsPrime(n)
  {
    assert Prime(0) == 2;
    hide Prime;
    PrimeIs(t);
    PrimeIs(t + 1);
    NeighboursAt(t);
    forall n: nat | Prime(t) < n < Prime(t + 1) ensures !IsPrime(n) {
      NoneAt(Prime(t) + 1, Prime(t + 1), n);
      if IsPrime(n) { PrimeSieved(n); }
    }
  }

  // ----- the roots -----

  const TWO_32: nat := 0x1_0000_0000

  function Cube(n: nat): nat { n * n * n }

  function Square(n: nat): nat { n * n }

  /** The integer part of the cube root of `p`, shifted by 32 bits, and `k` behind it are the first bits of it. */
  predicate CubeRootBits(p: nat, q: nat, k: nat) {
    Cube(q * TWO_32 + k) <= p * Cube(TWO_32) < Cube(q * TWO_32 + k + 1)
  }

  predicate SquareRootBits(p: nat, q: nat, k: nat) {
    Square(q * TWO_32 + k) <= p * Square(TWO_32) < Square(q * TWO_32 + k + 1)
  }

  function Root3(p: nat): nat {
    if p < 8 then 1 else if p < 27 then 2 else if p < 64 then 3 else if p < 125 then 4 else if p < 216 then 5 else 6
  }

  function Root2(p: nat): nat { if p < 4 then 1 else if p < 9 then 2 else if p < 16 then 3 else 4 }

  predicate KBits(p: nat, k: bv32) { CubeRootBits(p, Root3(p), k as nat) }

  lemma KBits0()
    ensures KBits(2, 0x428a2f98) && KBits(3, 0x71374491) && KBits(5, 0xb5c0fbcf) && KBits(7, 0xe9b5dba5)
    ensures KBits(11, 0x3956c25b) && KBits(13, 0x59f111f1) && KBits(17, 0x923f82a4) && KBits(19, 0xab1c5ed5)
  {}

  lemma KBitsAt0(t: nat)
    requires 0 <= t < 8
    ensures KBits(Prime(t), K(t))
  {
    hide KBits;
    KBits0();
  }

  lemma KBits1()
    ensures KBits(23, 0xd807aa98) && KBits(29, 0x12835b01) && KBits(31, 0x243185be) && KBits(37, 0x550c7dc3)
    ensures KBits(41, 0x72be5d74) && KBits(43, 0x80deb1fe) && KBits(47, 0x9bdc06a7) && KBits(53, 0xc19bf174)
  {}

  lemma KBitsAt1(t: nat)
    requires 8 <= t < 16
    ensures KBits(Prime(t), K(t))
  {
    hide KBits;
    KBits1();
  }

  lemma KBits2()
    ensures KBits(59, 0xe49b69c1) && KBits(61, 0xefbe4786) && KBits(67, 0x0fc19dc6) && KBits(71, 0x240ca1cc)
    ensures KBits(73, 0x2de92c6f) && KBits(79, 0x4a7484aa) && KBits(83, 0x5cb0a9dc) && KBits(89, 0x76f988da)
  {}

  lemma KBitsAt2(t: nat)
    requires 16 <= t < 24
    ensures KBits(Prime(t), K(t))
  {
    hide KBits;
    KBits2();
  }

  lemma KBits3()
    ensures KBits(97, 0x983e5152) && KBits(101, 0xa831c66d) && KBits(103, 0xb00327c8) && KBits(107, 0xbf597fc7)
    ensures KBits(109, 0xc6e00bf3) && KBits(113, 0xd5a79147) && KBits(127, 0x06ca6351) && KBits(131, 0x14292967)
  {}

  lemma KBitsAt3(t: nat)
    requires 24 <= t < 32
    ensures KBits(Prime(t), K(t))
  {
    hide KBits;
    KBits3();
  }

  lemma KBits4()
    ensures KBits(137, 0x27b70a85) && KBits(139, 0x2e1b2138) && KBits(149, 0x4d2c6dfc) && KBits(151, 0x53380d13)
    ensures KBits(157, 0x650a7354) && KBits(163, 0x766a0abb) && KBits(167, 0x81c2c92e) && KBits(173, 0x92722c85)
  {}

  lemma KBitsAt4(t: nat)
    requires 32 <= t < 40
    ensures KBits(Prime(t), K(t))
  {
    hide KBits;
    KBits4();
  }

  lemma KBits5()
    ensures KBits(179, 0xa2bfe8a1) && KBits(181, 0xa81a664b) && KBits(191, 0xc24b8b70) && KBits(193, 0xc76c51a3)
    ensures KBits(197, 0xd192e819) && KBits(199, 0xd6990624) && KBits(211, 0xf40e3585) && KBits(223, 0x106aa070)
  {}

  lemma KBitsAt5(t: nat)
    requires 40 <= t < 48
    ensures KBits(Prime(t), K(t))
  {
    hide KBits;
    KBits5();
  }

  lemma KBits6()
    ensures KBits(227, 0x19a4c116) && KBits(229, 0x1e376c08) && KBits(233, 0x2748774c) && KBits(239, 0x34b0bcb5)
    ensures KBits(241, 0x391c0cb3) && KBits(251, 0x4ed8aa4a) && KBits(257, 0x5b9cca4f) && KBits(263, 0x682e6ff3)
  {}

  lemma KBitsAt6(t: nat)
    requires 48 <= t < 56
    ensures KBits(Prime(t), K(t))
  {
    hide KBits;
    KBits6();
  }

  lemma KBits7()
    ensures KBits(269, 0x748f82ee) && KBits(271, 0x78a5636f) && KBits(277, 0x84c87814) && KBits(281, 0x8cc70208)
    ensures KBits(283, 0x90befffa) && KBits(293, 0xa4506ceb) && KBits(307, 0xbef9a3f7) && KBits(311, 0xc67178f2)
  {}

  lemma KBitsAt7(t: nat)
    requires 56 <= t < 64
    ensures KBits(Prime(t), K(t))
  {
    hide KBits;
    KBits7();
  }

  lemma KBitsAt(t: nat)
    requires t < 64
    ensures KBits(Prime(t), K(t))
  {
    hide KBits, Prime, K;
    if t < 8 { KBitsAt0(t); }
    else if t < 16 { KBitsAt1(t); }
    else if t < 24 { KBitsAt2(t); }
    else if t < 32 { KBitsAt3(t); }
    else if t < 40 { KBitsAt4(t); }
    else if t < 48 { KBitsAt5(t); }
    else if t < 56 { KBitsAt6(t); }
    else { KBitsAt7(t); }
  }

  lemma Powers(q: nat)
    ensures q >= 7 ==> Cube(q) >= 343
    ensures q >= 5 ==> Square(q) >= 25
  {
    if q >= 7 { assert q * q >= 49 && q * q * q >= 49 * q; }
  }

  lemma Root3Is(p: nat, q: nat)
    requires Cube(q) <= p < Cube(q + 1) && 2 <= p < 343
    ensures q == Root3(p)
  {
    Powers(q);
  }

  /** Main theorem on the round constants: with `q` the integer part of the cube root of the prime number `t`,
      constant `t` is the first 32 bits behind the point. */
  lemma KFromPrimes(t: nat, q: nat)
    requires t < 64 && Cube(q) <= Prime(t) < Cube(q + 1)
    ensures CubeRootBits(Prime(t), q, K(t) as nat)
  {
    hide K, Prime, Cube, CubeRootBits;
    KBitsAt(t);
    PrimeIs(t);
    Root3Is(Prime(t), q);
  }

  predicate HBits(t: nat)
    requires t < 8
  {
    SquareRootBits(Prime(t), Root2(Prime(t)), H0()[t] as nat)
  }

  lemma HBitsAll()
    ensures HBits(0) && HBits(1) && HBits(2) && HBits(3) && HBits(4) && HBits(5) && HBits(6) && HBits(7)
  {}

  /** The same for the initial hash value and the square roots. */
  lemma H0FromPrimes(t: nat, q: nat)
    requires t < 8 && Square(q) <= Prime(t) < Square(q + 1)
    ensures SquareRootBits(Prime(t), q, H0()[t] as nat)
  {
    hide H0, SquareRootBits, Cube;
    HBitsAll();
    Root2Is(t, q);
  }

  lemma Root2Is(t: nat, q: nat)
    requires t < 8 && Square(q) <= Prime(t) < Square(q + 1)
    ensures q == Root2(Prime(t))
  {
    Powers(q);
  }

  lemma CubeLess(a: nat, b: nat)
    requires a < b
    ensures Cube(a) < Cube(b)
  {
    assert a * a <= b * b by { assert a * a <= a * b <= b * b; }
    assert a * a * a <= b * b * a < b * b * b || b * b * b > 0 by { assert b * b > 0; }
    assert a * a * a <= b * b * a;
    assert b * b * a < b * b * b;
  }

  /** Only one number has these bits. */
  lemma CubeRootBitsUnique(p: nat, q: nat, k: nat, k': nat)
    requires CubeRootBits(p, q, k) && CubeRootBits(p, q, k')
    ensures k == k'
  {
    hide Cube;
    if k < k' && q * TWO_32 + k + 1 < q * TWO_32 + k' { CubeLess(q * TWO_32 + k + 1, q * TWO_32 + k'); }
    if k' < k && q * TWO_32 + k' + 1 < q * TWO_32 + k { CubeLess(q * TWO_32 + k' + 1, q * TWO_32 + k); }
  }
}
