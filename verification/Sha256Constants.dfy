/**
 The constants of SHA-256 and where they come from: the first thirty-two bits of the fractional parts
 of the cube roots of the first sixty-four primes, and of the square roots of the first eight
 (sections 4.2.2 and 5.3.3 of FIPS 180-4).
 */
module Sha256Constants {
  type Number32 = x: int | 0 <= x < 0x1_0000_0000

  function RoundNumber(t: nat): Number32
    requires t < 64
  {
    match t
    case 0 => 0x428a2f98 case 1 => 0x71374491 case 2 => 0xb5c0fbcf case 3 => 0xe9b5dba5
    case 4 => 0x3956c25b case 5 => 0x59f111f1 case 6 => 0x923f82a4 case 7 => 0xab1c5ed5
    case 8 => 0xd807aa98 case 9 => 0x12835b01 case 10 => 0x243185be case 11 => 0x550c7dc3
    case 12 => 0x72be5d74 case 13 => 0x80deb1fe case 14 => 0x9bdc06a7 case 15 => 0xc19bf174
    case 16 => 0xe49b69c1 case 17 => 0xefbe4786 case 18 => 0x0fc19dc6 case 19 => 0x240ca1cc
    case 20 => 0x2de92c6f case 21 => 0x4a7484aa case 22 => 0x5cb0a9dc case 23 => 0x76f988da
    case 24 => 0x983e5152 case 25 => 0xa831c66d case 26 => 0xb00327c8 case 27 => 0xbf597fc7
    case 28 => 0xc6e00bf3 case 29 => 0xd5a79147 case 30 => 0x06ca6351 case 31 => 0x14292967
    case 32 => 0x27b70a85 case 33 => 0x2e1b2138 case 34 => 0x4d2c6dfc case 35 => 0x53380d13
    case 36 => 0x650a7354 case 37 => 0x766a0abb case 38 => 0x81c2c92e case 39 => 0x92722c85
    case 40 => 0xa2bfe8a1 case 41 => 0xa81a664b case 42 => 0xc24b8b70 case 43 => 0xc76c51a3
    case 44 => 0xd192e819 case 45 => 0xd6990624 case 46 => 0xf40e3585 case 47 => 0x106aa070
    case 48 => 0x19a4c116 case 49 => 0x1e376c08 case 50 => 0x2748774c case 51 => 0x34b0bcb5
    case 52 => 0x391c0cb3 case 53 => 0x4ed8aa4a case 54 => 0x5b9cca4f case 55 => 0x682e6ff3
    case 56 => 0x748f82ee case 57 => 0x78a5636f case 58 => 0x84c87814 case 59 => 0x8cc70208
    case 60 => 0x90befffa case 61 => 0xa4506ceb case 62 => 0xbef9a3f7 case _ => 0xc67178f2
  }

  function InitialNumber(t: nat): Number32
    requires t < 8
  {
    match t
    case 0 => 0x6a09e667 case 1 => 0xbb67ae85 case 2 => 0x3c6ef372 case 3 => 0xa54ff53a
    case 4 => 0x510e527f case 5 => 0x9b05688c case 6 => 0x1f83d9ab case _ => 0x5be0cd19
  }

  // ---------------------------------------------------------------- primes

  ghost predicate IsPrime(n: nat) {
    n >= 2 && forall d :: 2 <= d < n ==> n % d != 0
  }

  ghost function PrimesBelow(n: nat): nat {
    if n == 0 then 0 else PrimesBelow(n - 1) + if IsPrime(n - 1) then 1 else 0
  }

  function Prime(t: nat): nat
    requires t < 64
  {
    match t
    case 0 => 2 case 1 => 3 case 2 => 5 case 3 => 7 case 4 => 11 case 5 => 13
    case 6 => 17 case 7 => 19 case 8 => 23 case 9 => 29 case 10 => 31 case 11 => 37
    case 12 => 41 case 13 => 43 case 14 => 47 case 15 => 53 case 16 => 59 case 17 => 61
    case 18 => 67 case 19 => 71 case 20 => 73 case 21 => 79 case 22 => 83 case 23 => 89
    case 24 => 97 case 25 => 101 case 26 => 103 case 27 => 107 case 28 => 109 case 29 => 113
    case 30 => 127 case 31 => 131 case 32 => 137 case 33 => 139 case 34 => 149 case 35 => 151
    case 36 => 157 case 37 => 163 case 38 => 167 case 39 => 173 case 40 => 179 case 41 => 181
    case 42 => 191 case 43 => 193 case 44 => 197 case 45 => 199 case 46 => 211 case 47 => 223
    case 48 => 227 case 49 => 229 case 50 => 233 case 51 => 239 case 52 => 241 case 53 => 251
    case 54 => 257 case 55 => 263 case 56 => 269 case 57 => 271 case 58 => 277 case 59 => 281
    case 60 => 283 case 61 => 293 case 62 => 307 case _ => 311
  }

  /** Not divisible by any of the primes below eighteen. */
  predicate Sieved(n: nat) {
    && n >= 2 && (n == 2 || n % 2 != 0) && (n == 3 || n % 3 != 0) && (n == 5 || n % 5 != 0) && (n == 7 || n % 7 != 0)
    && (n == 11 || n % 11 != 0) && (n == 13 || n % 13 != 0) && (n == 17 || n % 17 != 0)
  }

  lemma Quotient(n: nat, m: nat, q: nat)
    requires m > 0 && q * m <= n < (q + 1) * m
    ensures n / m == q
  {
    var k := n / m;
    assert k * m <= n < (k + 1) * m;
    if k < q {
      TimesGrows(k + 1, q, m);
    } else if k > q {
      TimesGrows(q + 1, k, m);
    }
  }

  lemma TimesGrows(a: nat, b: nat, m: nat)
    requires a <= b
    ensures a * m <= b * m
  {
  }

  lemma Multiple(q: nat, c: nat)
    requires q > 0
    ensures (q * c) % q == 0
  {
    assert c * q == q * c < (c + 1) * q;
    Quotient(q * c, q, c);
  }

  /** What a multiple divides, its factor divides. */
  lemma FactorDivides(n: nat, d: nat, q: nat, c: nat)
    requires q > 0 && c > 0 && d == q * c && n % d == 0
    ensures n % q == 0
  {
    var k := n / d;
    assert n == d * k == q * (c * k) by { assert (q * c) * k == q * (c * k); }
    Multiple(q, c * k);
  }

  /** A number with a divisor below eighteen has a prime one. */
  lemma SmallDivisor(n: nat, d: nat)
    requires 2 <= d < 18 && d < n && n % d == 0
    ensures !Sieved(n)
  {
    match d
    case 4 => FactorDivides(n, d, 2, 2);
    case 6 => FactorDivides(n, d, 2, 3);
    case 8 => FactorDivides(n, d, 2, 4);
    case 9 => FactorDivides(n, d, 3, 3);
    case 10 => FactorDivides(n, d, 2, 5);
    case 12 => FactorDivides(n, d, 2, 6);
    case 14 => FactorDivides(n, d, 2, 7);
    case 15 => FactorDivides(n, d, 3, 5);
    case 16 => FactorDivides(n, d, 2, 8);
    case _ =>
  }

  /** Below eighteen squared, that decides. */
  lemma SievedIffPrime(n: nat)
    requires n < 324
    ensures Sieved(n) <==> IsPrime(n)
  {
    if Sieved(n) {
      forall d | 2 <= d < n ensures n % d != 0 {
        if n % d == 0 { NoDivisor(n, d); }
      }
    }
    if IsPrime(n) {
      assert n > 2 ==> n % 2 != 0;
      assert n > 3 ==> n % 3 != 0;
      assert n > 5 ==> n % 5 != 0;
      assert n > 7 ==> n % 7 != 0;
      assert n > 11 ==> n % 11 != 0;
      assert n > 13 ==> n % 13 != 0;
      assert n > 17 ==> n % 17 != 0;
    }
  }

  lemma NoDivisor(n: nat, d: nat)
    requires n < 324 && 2 <= d < n && n % d == 0
    ensures !Sieved(n)
  {
    hide Sieved;
    if d < 18 {
      SmallDivisor(n, d);
    } else {
      var e := n / d;
      assert n == d * e;
      assert 1 < e < 18 by {
        if e >= 18 { TimesGrows(18, d, e); }
      }
      Multiple(e, d);
      assert e * d == n;
      SmallDivisor(n, e);
    }
  }

  /** No prime lies between. */
  predicate Gap(p: nat, q: nat)
    decreases q - p
  {
    q <= p + 1 || (!Sieved(p + 1) && Gap(p + 1, q))
  }

  predicate Next(p: nat, q: nat) {
    p < q < 324 && Sieved(q) && Gap(p, q)
  }

  lemma {:induction false} GapCounts(p: nat, q: nat)
    requires p < q < 324 && Gap(p, q)
    ensures PrimesBelow(q) == PrimesBelow(p + 1)
    decreases q - p
  {
    hide Sieved;
    if p + 1 < q {
      SievedIffPrime(p + 1);
      GapCounts(p + 1, q);
    }
  }

  lemma Successors1()
    ensures Next(2, 3) && Next(3, 5) && Next(5, 7) && Next(7, 11) && Next(11, 13) && Next(13, 17)
    ensures Next(17, 19)
  {
  }

  lemma Successors2()
    ensures Next(19, 23) && Next(23, 29) && Next(29, 31) && Next(31, 37) && Next(37, 41) && Next(41, 43)
    ensures Next(43, 47) && Next(47, 53)
  {
  }

  lemma Successors3()
    ensures Next(53, 59) && Next(59, 61) && Next(61, 67) && Next(67, 71) && Next(71, 73) && Next(73, 79)
    ensures Next(79, 83) && Next(83, 89)
  {
  }

  lemma Successors4()
    ensures Next(89, 97) && Next(97, 101) && Next(101, 103) && Next(103, 107) && Next(107, 109)
    ensures Next(109, 113) && Next(113, 127) && Next(127, 131)
  {
  }

  lemma Successors5()
    ensures Next(131, 137) && Next(137, 139) && Next(139, 149) && Next(149, 151) && Next(151, 157)
    ensures Next(157, 163) && Next(163, 167) && Next(167, 173)
  {
  }

  lemma Successors6()
    ensures Next(173, 179) && Next(179, 181) && Next(181, 191) && Next(191, 193) && Next(193, 197)
    ensures Next(197, 199) && Next(199, 211) && Next(211, 223)
  {
  }

  lemma Successors7()
    ensures Next(223, 227) && Next(227, 229) && Next(229, 233) && Next(233, 239) && Next(239, 241)
    ensures Next(241, 251) && Next(251, 257) && Next(257, 263)
  {
  }

  lemma Successors8()
    ensures Next(263, 269) && Next(269, 271) && Next(271, 277) && Next(277, 281) && Next(281, 283)
    ensures Next(283, 293) && Next(293, 307) && Next(307, 311)
  {
  }

  lemma PrimesFollow(t: nat)
    requires 1 <= t < 64
    ensures Next(Prime(t - 1), Prime(t))
  {
    hide Next;
    if t < 8 {
      Successors1();
    } else if t < 16 {
      Successors2();
    } else if t < 24 {
      Successors3();
    } else if t < 32 {
      Successors4();
    } else if t < 40 {
      Successors5();
    } else if t < 48 {
      Successors6();
    } else if t < 56 {
      Successors7();
    } else {
      Successors8();
    }
  }

  /** The table has all the primes, in order. */
  lemma {:induction false} PrimeIs(t: nat)
    requires t < 64
    ensures IsPrime(Prime(t)) && PrimesBelow(Prime(t)) == t && Prime(t) < 324
  {
    hide Sieved, Gap;
    if t == 0 {
      FirstPrime();
    } else {
      PrimesFollow(t);
      hide Prime;
      PrimeIs(t - 1);
      SievedIffPrime(Prime(t));
      GapCounts(Prime(t - 1), Prime(t));
    }
  }

  lemma FirstPrime()
    ensures IsPrime(2) && PrimesBelow(2) == 0
  {
    assert PrimesBelow(1) == 0;
  }

  // ---------------------------------------------------------------- roots

  /** `k` is the first 32 bits behind the point of the square root of `p`, whose whole part is `r`. */
  predicate SquareRoot(p: nat, r: nat, k: int) {
    && r * r <= p < (r + 1) * (r + 1)
    && (r * 0x1_0000_0000 + k) * (r * 0x1_0000_0000 + k) <= p * 0x1_0000_0000_0000_0000
    && p * 0x1_0000_0000_0000_0000 < (r * 0x1_0000_0000 + k + 1) * (r * 0x1_0000_0000 + k + 1)
  }

  /** The same of the cube root. */
  predicate CubeRoot(p: nat, r: nat, k: int) {
    && r * r * r <= p < (r + 1) * (r + 1) * (r + 1)
    && (r * 0x1_0000_0000 + k) * (r * 0x1_0000_0000 + k) * (r * 0x1_0000_0000 + k)
       <= p * 0x1_0000_0000_0000_0000_0000_0000
    && p * 0x1_0000_0000_0000_0000_0000_0000
       < (r * 0x1_0000_0000 + k + 1) * (r * 0x1_0000_0000 + k + 1) * (r * 0x1_0000_0000 + k + 1)
  }

  lemma SquareRoots()
    ensures SquareRoot(2, 1, 0x6a09e667) && SquareRoot(3, 1, 0xbb67ae85) && SquareRoot(5, 2, 0x3c6ef372)
    ensures SquareRoot(7, 2, 0xa54ff53a) && SquareRoot(11, 3, 0x510e527f) && SquareRoot(13, 3, 0x9b05688c)
    ensures SquareRoot(17, 4, 0x1f83d9ab) && SquareRoot(19, 4, 0x5be0cd19)
  {
  }

  lemma CubeRoots1()
    ensures CubeRoot(2, 1, 0x428a2f98) && CubeRoot(3, 1, 0x71374491) && CubeRoot(5, 1, 0xb5c0fbcf)
    ensures CubeRoot(7, 1, 0xe9b5dba5) && CubeRoot(11, 2, 0x3956c25b) && CubeRoot(13, 2, 0x59f111f1)
    ensures CubeRoot(17, 2, 0x923f82a4) && CubeRoot(19, 2, 0xab1c5ed5) && CubeRoot(23, 2, 0xd807aa98)
    ensures CubeRoot(29, 3, 0x12835b01) && CubeRoot(31, 3, 0x243185be) && CubeRoot(37, 3, 0x550c7dc3)
    ensures CubeRoot(41, 3, 0x72be5d74) && CubeRoot(43, 3, 0x80deb1fe) && CubeRoot(47, 3, 0x9bdc06a7)
    ensures CubeRoot(53, 3, 0xc19bf174)
  {
  }

  lemma CubeRoots2()
    ensures CubeRoot(59, 3, 0xe49b69c1) && CubeRoot(61, 3, 0xefbe4786) && CubeRoot(67, 4, 0x0fc19dc6)
    ensures CubeRoot(71, 4, 0x240ca1cc) && CubeRoot(73, 4, 0x2de92c6f) && CubeRoot(79, 4, 0x4a7484aa)
    ensures CubeRoot(83, 4, 0x5cb0a9dc) && CubeRoot(89, 4, 0x76f988da) && CubeRoot(97, 4, 0x983e5152)
    ensures CubeRoot(101, 4, 0xa831c66d) && CubeRoot(103, 4, 0xb00327c8) && CubeRoot(107, 4, 0xbf597fc7)
    ensures CubeRoot(109, 4, 0xc6e00bf3) && CubeRoot(113, 4, 0xd5a79147) && CubeRoot(127, 5, 0x06ca6351)
    ensures CubeRoot(131, 5, 0x14292967)
  {
  }

  lemma CubeRoots3()
    ensures CubeRoot(137, 5, 0x27b70a85) && CubeRoot(139, 5, 0x2e1b2138) && CubeRoot(149, 5, 0x4d2c6dfc)
    ensures CubeRoot(151, 5, 0x53380d13) && CubeRoot(157, 5, 0x650a7354) && CubeRoot(163, 5, 0x766a0abb)
    ensures CubeRoot(167, 5, 0x81c2c92e) && CubeRoot(173, 5, 0x92722c85) && CubeRoot(179, 5, 0xa2bfe8a1)
    ensures CubeRoot(181, 5, 0xa81a664b) && CubeRoot(191, 5, 0xc24b8b70) && CubeRoot(193, 5, 0xc76c51a3)
    ensures CubeRoot(197, 5, 0xd192e819) && CubeRoot(199, 5, 0xd6990624) && CubeRoot(211, 5, 0xf40e3585)
    ensures CubeRoot(223, 6, 0x106aa070)
  {
  }

  lemma CubeRoots4()
    ensures CubeRoot(227, 6, 0x19a4c116) && CubeRoot(229, 6, 0x1e376c08) && CubeRoot(233, 6, 0x2748774c)
    ensures CubeRoot(239, 6, 0x34b0bcb5) && CubeRoot(241, 6, 0x391c0cb3) && CubeRoot(251, 6, 0x4ed8aa4a)
    ensures CubeRoot(257, 6, 0x5b9cca4f) && CubeRoot(263, 6, 0x682e6ff3) && CubeRoot(269, 6, 0x748f82ee)
    ensures CubeRoot(271, 6, 0x78a5636f) && CubeRoot(277, 6, 0x84c87814) && CubeRoot(281, 6, 0x8cc70208)
    ensures CubeRoot(283, 6, 0x90befffa) && CubeRoot(293, 6, 0xa4506ceb) && CubeRoot(307, 6, 0xbef9a3f7)
    ensures CubeRoot(311, 6, 0xc67178f2)
  {
  }

  /** The whole part of the cube root, for the primes of the table. */
  function WholeCubeRoot(p: nat): nat {
    if p < 8 then 1 else if p < 27 then 2 else if p < 64 then 3 else if p < 125 then 4 else if p < 216 then 5 else 6
  }

  lemma CubeRootAt1(t: nat)
    requires 0 <= t < 16
    ensures CubeRoot(Prime(t), WholeCubeRoot(Prime(t)), RoundNumber(t))
  {
    hide CubeRoot;
    CubeRoots1();
  }

  lemma CubeRootAt2(t: nat)
    requires 16 <= t < 32
    ensures CubeRoot(Prime(t), WholeCubeRoot(Prime(t)), RoundNumber(t))
  {
    hide CubeRoot;
    CubeRoots2();
  }

  lemma CubeRootAt3(t: nat)
    requires 32 <= t < 48
    ensures CubeRoot(Prime(t), WholeCubeRoot(Prime(t)), RoundNumber(t))
  {
    hide CubeRoot;
    CubeRoots3();
  }

  lemma CubeRootAt4(t: nat)
    requires 48 <= t < 64
    ensures CubeRoot(Prime(t), WholeCubeRoot(Prime(t)), RoundNumber(t))
  {
    hide CubeRoot;
    CubeRoots4();
  }

  /** Every round constant comes from the cube root of its prime. */
  lemma RoundNumberIs(t: nat)
    requires t < 64
    ensures IsPrime(Prime(t)) && PrimesBelow(Prime(t)) == t
    ensures exists r :: CubeRoot(Prime(t), r, RoundNumber(t))
  {
    PrimeIs(t);
    hide CubeRoot, IsPrime, PrimesBelow, Prime, RoundNumber;
    if t < 16 {
      CubeRootAt1(t);
    } else if t < 32 {
      CubeRootAt2(t);
    } else if t < 48 {
      CubeRootAt3(t);
    } else {
      CubeRootAt4(t);
    }
  }

  /** And every word of the initial hash value from the square root of its prime. */
  lemma InitialNumberIs(t: nat)
    requires t < 8
    ensures IsPrime(Prime(t)) && PrimesBelow(Prime(t)) == t
    ensures exists r :: SquareRoot(Prime(t), r, InitialNumber(t))
  {
    PrimeIs(t);
    hide SquareRoot, IsPrime, PrimesBelow;
    SquareRoots();
    var p := Prime(t);
    var r := if p < 4 then 1 else if p < 9 then 2 else if p < 16 then 3 else 4;
    assert SquareRoot(p, r, InitialNumber(t));
  }
}
