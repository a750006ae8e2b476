/** What FIPS 180-4 says the tables and the logical functions of SHA-256 are. */
module Sha256Standard {
  import opened Prelude
  import opened Sha256

  // ----- Section 4.2.2: the first 64 primes -----

  const P0: seq<nat> := [2, 3, 5, 7, 11, 13, 17, 19]
  const P1: seq<nat> := [23, 29, 31, 37, 41, 43, 47, 53]
  const P2: seq<nat> := [59, 61, 67, 71, 73, 79, 83, 89]
  const P3: seq<nat> := [97, 101, 103, 107, 109, 113, 127, 131]
  const P4: seq<nat> := [137, 139, 149, 151, 157, 163, 167, 173]
  const P5: seq<nat> := [179, 181, 191, 193, 197, 199, 211, 223]
  const P6: seq<nat> := [227, 229, 233, 239, 241, 251, 257, 263]
  const P7: seq<nat> := [269, 271, 277, 281, 283, 293, 307, 311]
  const P_ROWS: seq<seq<nat>> := [P0, P1, P2, P3, P4, P5, P6, P7]

  function Prime(t: nat): nat
    requires t < 64
  {
    P_ROWS[t / 8][t % 8]
  }

  ghost predicate IsPrime(n: nat) { n >= 2 && forall d :: 2 <= d < n ==> n % d != 0 }

  /** The next prime after `p` is `q`. */
  ghost predicate NextPrime(p: nat, q: nat) {
    p < q && IsPrime(q) && forall n :: p < n < q ==> !IsPrime(n)
  }

  /** A smaller prime up to 17 divides `n`. */
  predicate Divisible(n: nat) {
    (n > 2 && n % 2 == 0) || (n > 3 && n % 3 == 0) || (n > 5 && n % 5 == 0) || (n > 7 && n % 7 == 0)
    || (n > 11 && n % 11 == 0) || (n > 13 && n % 13 == 0) || (n > 17 && n % 17 == 0)
  }

  /** Below the square of 19 that decides which numbers are prime. */
  lemma Sieve(n: nat)
    requires 2 <= n < 361
    ensures IsPrime(n) <==> !Divisible(n)
  {
    forall d | 2 <= d < n && !Divisible(n) ensures n % d != 0 {
      if n % d == 0 {
        HasSmallFactor(n, d, n / d);
      }
    }
    assert Divisible(n) ==> exists d :: 2 <= d < n && n % d == 0;
  }

  lemma HasSmallFactor(n: nat, d: nat, e: nat)
    requires 2 <= d < n < 361 && n == d * e
    ensures Divisible(n)
  {
    hide Divisible;
    assert 2 <= e < n && (d <= 18 || e <= 18);
    if d <= 18 {
      SmallFactor(n, d, e);
    } else {
      SmallFactor(n, e, d);
    }
  }

  lemma SmallFactor(n: nat, d: nat, e: nat)
    requires 2 <= d <= 18 && d < n && n == d * e
    ensures Divisible(n)
  {
    hide Divisible;
    var p, m := PrimeFactor(d);
    Regroup(d, p, m, e);
    PrimeTimes(n, p, m * e);
  }

  lemma PrimeFactor(d: nat) returns (p: nat, m: nat)
    requires 2 <= d <= 18
    ensures d == p * m && p <= d
    ensures p == 2 || p == 3 || p == 5 || p == 7 || p == 11 || p == 13 || p == 17
  {
    if d % 2 == 0 {
      p, m := 2, d / 2;
    } else if d % 3 == 0 {
      p, m := 3, d / 3;
    } else if d % 5 == 0 {
      p, m := 5, d / 5;
    } else {
      p, m := d, 1;
    }
  }

  lemma PrimeTimes(n: nat, p: nat, x: nat)
    requires n == p * x && p < n
    requires p == 2 || p == 3 || p == 5 || p == 7 || p == 11 || p == 13 || p == 17
    ensures Divisible(n)
  {
    hide Divisible;
    if x <= 1 {
      Bounded(p, x);
    }
    MultipleIsDivisible(n, x);
  }

  lemma Bounded(p: nat, x: nat)
    requires x <= 1
    ensures p * x <= p
  {
  }

  lemma MultipleIsDivisible(n: nat, x: nat)
    requires x > 1
    requires n == 2 * x || n == 3 * x || n == 5 * x || n == 7 * x || n == 11 * x || n == 13 * x || n == 17 * x
    ensures Divisible(n)
  {
    Multiples(x);
    assert n == 2 * x ==> n % 2 == 0;
  }

  lemma Multiples(x: nat)
    ensures 2 * x % 2 == 0 && 3 * x % 3 == 0 && 5 * x % 5 == 0 && 7 * x % 7 == 0
    ensures 11 * x % 11 == 0 && 13 * x % 13 == 0 && 17 * x % 17 == 0
  {
  }

  lemma Regroup(d: nat, p: nat, m: nat, e: nat)
    requires d == p * m
    ensures d * e == p * (m * e)
  {
    assert p * m * e == p * (m * e);
  }

  /** Everything strictly between `p` and `q` is divisible. */
  predicate Composites(p: nat, q: nat)
    decreases q - p
  {
    p + 1 >= q || (Divisible(p + 1) && Composites(p + 1, q))
  }

  lemma {:induction false} CompositesMeans(p: nat, q: nat)
    requires Composites(p, q)
    ensures forall n :: p < n < q ==> Divisible(n)
    decreases q - p
  {
    hide Divisible;
    if p + 1 < q {
      CompositesMeans(p + 1, q);
    }
  }

  lemma Gap(p: nat, q: nat)
    requires 2 <= p < q < 361 && !Divisible(q) && Composites(p, q)
    ensures NextPrime(p, q)
  {
    hide IsPrime, Divisible, Composites;
    Sieve(q);
    CompositesMeans(p, q);
    forall n | p < n < q ensures !IsPrime(n) {
      Sieve(n);
    }
  }

  /** The table holds the first 64 primes in order. */
  lemma PrimesInOrder()
    ensures Prime(0) == 2 && IsPrime(2)
    ensures forall t :: 0 <= t < 63 ==> NextPrime(Prime(t), Prime(t + 1))
  {
    hide NextPrime;
    Sieve(2);
    PrimesFrom0(); PrimesFrom4(); PrimesFrom8(); PrimesFrom12();
    PrimesFrom16(); PrimesFrom20(); PrimesFrom24(); PrimesFrom28();
    PrimesFrom32(); PrimesFrom36(); PrimesFrom40(); PrimesFrom44();
    PrimesFrom48(); PrimesFrom52(); PrimesFrom56(); PrimesFrom60();
  }

  lemma PrimesFrom0()
    ensures forall t :: 0 <= t < 4 ==> NextPrime(Prime(t), Prime(t + 1))
  {
    hide NextPrime, IsPrime;
    Gap(2, 3); Gap(3, 5); Gap(5, 7); Gap(7, 11);
  }

  lemma PrimesFrom4()
    ensures forall t :: 4 <= t < 8 ==> NextPrime(Prime(t), Prime(t + 1))
  {
    hide NextPrime, IsPrime;
    Gap(11, 13); Gap(13, 17); Gap(17, 19); Gap(19, 23);
  }

  lemma PrimesFrom8()
    ensures forall t :: 8 <= t < 12 ==> NextPrime(Prime(t), Prime(t + 1))
  {
    hide NextPrime, IsPrime;
    Gap(23, 29); Gap(29, 31); Gap(31, 37); Gap(37, 41);
  }

  lemma PrimesFrom12()
    ensures forall t :: 12 <= t < 16 ==> NextPrime(Prime(t), Prime(t + 1))
  {
    hide NextPrime, IsPrime;
    Gap(41, 43); Gap(43, 47); Gap(47, 53); Gap(53, 59);
  }

  lemma PrimesFrom16()
    ensures forall t :: 16 <= t < 20 ==> NextPrime(Prime(t), Prime(t + 1))
  {
    hide NextPrime, IsPrime;
    Gap(59, 61); Gap(61, 67); Gap(67, 71); Gap(71, 73);
  }

  lemma PrimesFrom20()
    ensures forall t :: 20 <= t < 24 ==> NextPrime(Prime(t), Prime(t + 1))
  {
    hide NextPrime, IsPrime;
    Gap(73, 79); Gap(79, 83); Gap(83, 89); Gap(89, 97);
  }

  lemma PrimesFrom24()
    ensures forall t :: 24 <= t < 28 ==> NextPrime(Prime(t), Prime(t + 1))
  {
    hide NextPrime, IsPrime;
    Gap(97, 101); Gap(101, 103); Gap(103, 107); Gap(107, 109);
  }

  lemma PrimesFrom28()
    ensures forall t :: 28 <= t < 32 ==> NextPrime(Prime(t), Prime(t + 1))
  {
    hide NextPrime, IsPrime;
    Gap(109, 113); Gap(113, 127); Gap(127, 131); Gap(131, 137);
  }

  lemma PrimesFrom32()
    ensures forall t :: 32 <= t < 36 ==> NextPrime(Prime(t), Prime(t + 1))
  {
    hide NextPrime, IsPrime;
    Gap(137, 139); Gap(139, 149); Gap(149, 151); Gap(151, 157);
  }

  lemma PrimesFrom36()
    ensures forall t :: 36 <= t < 40 ==> NextPrime(Prime(t), Prime(t + 1))
  {
    hide NextPrime, IsPrime;
    Gap(157, 163); Gap(163, 167); Gap(167, 173); Gap(173, 179);
  }

  lemma PrimesFrom40()
    ensures forall t :: 40 <= t < 44 ==> NextPrime(Prime(t), Prime(t + 1))
  {
    hide NextPrime, IsPrime;
    Gap(179, 181); Gap(181, 191); Gap(191, 193); Gap(193, 197);
  }

  lemma PrimesFrom44()
    ensures forall t :: 44 <= t < 48 ==> NextPrime(Prime(t), Prime(t + 1))
  {
    hide NextPrime, IsPrime;
    Gap(197, 199); Gap(199, 211); Gap(211, 223); Gap(223, 227);
  }

  lemma PrimesFrom48()
    ensures forall t :: 48 <= t < 52 ==> NextPrime(Prime(t), Prime(t + 1))
  {
    hide NextPrime, IsPrime;
    Gap(227, 229); Gap(229, 233); Gap(233, 239); Gap(239, 241);
  }

  lemma PrimesFrom52()
    ensures forall t :: 52 <= t < 56 ==> NextPrime(Prime(t), Prime(t + 1))
  {
    hide NextPrime, IsPrime;
    Gap(241, 251); Gap(251, 257); Gap(257, 263); Gap(263, 269);
  }

  lemma PrimesFrom56()
    ensures forall t :: 56 <= t < 60 ==> NextPrime(Prime(t), Prime(t + 1))
  {
    hide NextPrime, IsPrime;
    Gap(269, 271); Gap(271, 277); Gap(277, 281); Gap(281, 283);
  }

  lemma PrimesFrom60()
    ensures forall t :: 60 <= t < 63 ==> NextPrime(Prime(t), Prime(t + 1))
  {
    hide NextPrime, IsPrime;
    Gap(283, 293); Gap(293, 307); Gap(307, 311);
  }

  // ----- Section 4.2.2: the constants K -----

  function Square(x: nat): nat { x * x }

  function Cube(x: nat): nat { x * x * x }

  /** `k` is the first 32 bits of the fraction of the cube root of `p`, whose whole part is some c:
      that root is at least c + k / 2^32 and less than c + (k + 1) / 2^32. */
  ghost predicate CubeRootBits(p: nat, k: nat) {
    exists c: nat :: HasCubeRoot(p, c, k)
  }

  predicate HasCubeRoot(p: nat, c: nat, k: nat) {
    k < 0x1_0000_0000
    && Cube(c * 0x1_0000_0000 + k) <= p * 0x1_0000_0000_0000_0000_0000_0000 < Cube(c * 0x1_0000_0000 + k + 1)
  }

  /** Every K is taken from the cube root of its prime. */
  lemma ConstantsAreCubeRoots()
    ensures forall t :: 0 <= t < 64 ==> CubeRootBits(Prime(t), K(t) as int)
  {
    hide CubeRootBits, K, Prime;
    CubeRootRow0();
    CubeRootRow1();
    CubeRootRow2();
    CubeRootRow3();
    CubeRootRow4();
    CubeRootRow5();
    CubeRootRow6();
    CubeRootRow7();
  }

  lemma CubeRootRow0()
    ensures forall t :: 0 <= t < 8 ==> CubeRootBits(Prime(t), K(t) as int)
  {
    CubeRoot(2, 1, 0x428a2f98);
    CubeRoot(3, 1, 0x71374491);
    CubeRoot(5, 1, 0xb5c0fbcf);
    CubeRoot(7, 1, 0xe9b5dba5);
    CubeRoot(11, 2, 0x3956c25b);
    CubeRoot(13, 2, 0x59f111f1);
    CubeRoot(17, 2, 0x923f82a4);
    CubeRoot(19, 2, 0xab1c5ed5);
  }

  lemma CubeRootRow1()
    ensures forall t :: 8 <= t < 16 ==> CubeRootBits(Prime(t), K(t) as int)
  {
    CubeRoot(23, 2, 0xd807aa98);
    CubeRoot(29, 3, 0x12835b01);
    CubeRoot(31, 3, 0x243185be);
    CubeRoot(37, 3, 0x550c7dc3);
    CubeRoot(41, 3, 0x72be5d74);
    CubeRoot(43, 3, 0x80deb1fe);
    CubeRoot(47, 3, 0x9bdc06a7);
    CubeRoot(53, 3, 0xc19bf174);
  }

  lemma CubeRootRow2()
    ensures forall t :: 16 <= t < 24 ==> CubeRootBits(Prime(t), K(t) as int)
  {
    CubeRoot(59, 3, 0xe49b69c1);
    CubeRoot(61, 3, 0xefbe4786);
    CubeRoot(67, 4, 0x0fc19dc6);
    CubeRoot(71, 4, 0x240ca1cc);
    CubeRoot(73, 4, 0x2de92c6f);
    CubeRoot(79, 4, 0x4a7484aa);
    CubeRoot(83, 4, 0x5cb0a9dc);
    CubeRoot(89, 4, 0x76f988da);
  }

  lemma CubeRootRow3()
    ensures forall t :: 24 <= t < 32 ==> CubeRootBits(Prime(t), K(t) as int)
  {
    CubeRoot(97, 4, 0x983e5152);
    CubeRoot(101, 4, 0xa831c66d);
    CubeRoot(103, 4, 0xb00327c8);
    CubeRoot(107, 4, 0xbf597fc7);
    CubeRoot(109, 4, 0xc6e00bf3);
    CubeRoot(113, 4, 0xd5a79147);
    CubeRoot(127, 5, 0x06ca6351);
    CubeRoot(131, 5, 0x14292967);
  }

  lemma CubeRootRow4()
    ensures forall t :: 32 <= t < 40 ==> CubeRootBits(Prime(t), K(t) as int)
  {
    CubeRoot(137, 5, 0x27b70a85);
    CubeRoot(139, 5, 0x2e1b2138);
    CubeRoot(149, 5, 0x4d2c6dfc);
    CubeRoot(151, 5, 0x53380d13);
    CubeRoot(157, 5, 0x650a7354);
    CubeRoot(163, 5, 0x766a0abb);
    CubeRoot(167, 5, 0x81c2c92e);
    CubeRoot(173, 5, 0x92722c85);
  }

  lemma CubeRootRow5()
    ensures forall t :: 40 <= t < 48 ==> CubeRootBits(Prime(t), K(t) as int)
  {
    CubeRoot(179, 5, 0xa2bfe8a1);
    CubeRoot(181, 5, 0xa81a664b);
    CubeRoot(191, 5, 0xc24b8b70);
    CubeRoot(193, 5, 0xc76c51a3);
    CubeRoot(197, 5, 0xd192e819);
    CubeRoot(199, 5, 0xd6990624);
    CubeRoot(211, 5, 0xf40e3585);
    CubeRoot(223, 6, 0x106aa070);
  }

  lemma CubeRootRow6()
    ensures forall t :: 48 <= t < 56 ==> CubeRootBits(Prime(t), K(t) as int)
  {
    CubeRoot(227, 6, 0x19a4c116);
    CubeRoot(229, 6, 0x1e376c08);
    CubeRoot(233, 6, 0x2748774c);
    CubeRoot(239, 6, 0x34b0bcb5);
    CubeRoot(241, 6, 0x391c0cb3);
    CubeRoot(251, 6, 0x4ed8aa4a);
    CubeRoot(257, 6, 0x5b9cca4f);
    CubeRoot(263, 6, 0x682e6ff3);
  }

  lemma CubeRootRow7()
    ensures forall t :: 56 <= t < 64 ==> CubeRootBits(Prime(t), K(t) as int)
  {
    CubeRoot(269, 6, 0x748f82ee);
    CubeRoot(271, 6, 0x78a5636f);
    CubeRoot(277, 6, 0x84c87814);
    CubeRoot(281, 6, 0x8cc70208);
    CubeRoot(283, 6, 0x90befffa);
    CubeRoot(293, 6, 0xa4506ceb);
    CubeRoot(307, 6, 0xbef9a3f7);
    CubeRoot(311, 6, 0xc67178f2);
  }

  lemma CubeRoot(p: nat, c: nat, k: nat)
    requires HasCubeRoot(p, c, k)
    ensures CubeRootBits(p, k)
  {
  }

  // ----- Section 5.3.3: the initial hash value -----

  /** `h` is the first 32 bits of the fraction of the square root of `p`. */
  ghost predicate SquareRootBits(p: nat, h: nat) {
    exists c: nat :: HasSquareRoot(p, c, h)
  }

  predicate HasSquareRoot(p: nat, c: nat, h: nat) {
    h < 0x1_0000_0000
    && Square(c * 0x1_0000_0000 + h) <= p * 0x1_0000_0000_0000_0000 < Square(c * 0x1_0000_0000 + h + 1)
  }

  /** The initial hash value is taken from the square roots of the first eight primes. */
  lemma InitialHashIsSquareRoots()
    ensures SquareRootBits(Prime(0), H0.a as int) && SquareRootBits(Prime(1), H0.b as int)
    ensures SquareRootBits(Prime(2), H0.c as int) && SquareRootBits(Prime(3), H0.d as int)
    ensures SquareRootBits(Prime(4), H0.e as int) && SquareRootBits(Prime(5), H0.f as int)
    ensures SquareRootBits(Prime(6), H0.g as int) && SquareRootBits(Prime(7), H0.h as int)
  {
    hide SquareRootBits, Prime, H0;
    FirstFourWords();
    LastFourWords();
  }

  lemma FirstFourWords()
    ensures SquareRootBits(Prime(0), H0.a as int) && SquareRootBits(Prime(1), H0.b as int)
    ensures SquareRootBits(Prime(2), H0.c as int) && SquareRootBits(Prime(3), H0.d as int)
  {
    hide SquareRootBits;
    SquareRoot(2, 1, 0x6a09e667);
    SquareRoot(3, 1, 0xbb67ae85);
    SquareRoot(5, 2, 0x3c6ef372);
    SquareRoot(7, 2, 0xa54ff53a);
  }

  lemma LastFourWords()
    ensures SquareRootBits(Prime(4), H0.e as int) && SquareRootBits(Prime(5), H0.f as int)
    ensures SquareRootBits(Prime(6), H0.g as int) && SquareRootBits(Prime(7), H0.h as int)
  {
    hide SquareRootBits;
    SquareRoot(11, 3, 0x510e527f);
    SquareRoot(13, 3, 0x9b05688c);
    SquareRoot(17, 4, 0x1f83d9ab);
    SquareRoot(19, 4, 0x5be0cd19);
  }

  lemma SquareRoot(p: nat, c: nat, h: nat)
    requires HasSquareRoot(p, c, h)
    ensures SquareRootBits(p, h)
  {
  }

  // ----- Section 6.2: one block after another -----

  /** Each block of 64 bytes takes the hash value of the blocks before it to the next, as if it stood
      alone. */
  lemma BlocksInOrder(p: Bytes, n: nat)
    requires 64 * (n + 1) <= |p|
    ensures var h, block := HashValue(p, n), p[64 * n..64 * (n + 1)];
            HashValue(p, n + 1) == AddWords(h, Rounds(block, 0, h, 64))
  {
    hide AddWords, Rounds, H0;
    SameRounds(p, 64 * n, HashValue(p, n), 64);
  }

  lemma {:induction false} SameRounds(p: Bytes, base: nat, v: Words, n: nat)
    requires base + 64 <= |p| && n <= 64
    ensures Rounds(p, base, v, n) == Rounds(p[base..base + 64], 0, v, n)
  {
    hide W, K, Round;
    if n > 0 {
      SameRounds(p, base, v, n - 1);
      SameWord(p, base, n - 1);
    }
  }

  lemma {:induction false} SameWord(p: Bytes, base: nat, t: nat)
    requires base + 64 <= |p| && t < 64
    ensures W(p, base, t) == W(p[base..base + 64], 0, t)
  {
    hide Word, ScheduleWord;
    if t >= 16 {
      SameWord(p, base, t - 16);
      SameWord(p, base, t - 15);
      SameWord(p, base, t - 7);
      SameWord(p, base, t - 2);
    }
  }

  // ----- Section 4.1.2: the functions that choose and vote -----

  /** Ch takes each bit from y where x is set, and from z elsewhere. */
  lemma ChChooses(x: word, y: word, z: word)
    ensures Ch(x, y, z) & x == y & x
    ensures Ch(x, y, z) & !x == z & !x
  {
  }

  /** Maj sets the bits that at least two of its arguments set, and clears those that two clear. */
  lemma MajVotes(x: word, y: word, z: word)
    ensures Maj(x, y, z) & ((x & y) | (x & z) | (y & z)) == (x & y) | (x & z) | (y & z)
    ensures Maj(x, y, z) & ((!x & !y) | (!x & !z) | (!y & !z)) == 0
  {
  }
}
