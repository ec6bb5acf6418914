/**
 Where the constants of SHA-256 come from (FIPS 180-4, sections 4.2.2 and 5.3.3): the first 32 bits of the fractional
 parts of the cube roots of the first 64 primes, and of the square roots of the first eight.
 */
module Sha256Constants {
  import opened Division
  import opened Sha256Spec

  const PRIMES: seq<nat> :=
    [2, 3, 5, 7, 11, 13, 17, 19] +
    [23, 29, 31, 37, 41, 43, 47, 53] +
    [59, 61, 67, 71, 73, 79, 83, 89] +
    [97, 101, 103, 107, 109, 113, 127, 131] +
    [137, 139, 149, 151, 157, 163, 167, 173] +
    [179, 181, 191, 193, 197, 199, 211, 223] +
    [227, 229, 233, 239, 241, 251, 257, 263] +
    [269, 271, 277, 281, 283, 293, 307, 311]

  ghost predicate IsPrime(n: nat) {
    n >= 2 && forall d :: 2 <= d < n ==> n % d != 0
  }

  /** No prime lies between the two. */
  ghost predicate NextPrime(a: nat, b: nat) {
    a < b && IsPrime(b) && forall n :: a < n < b ==> !IsPrime(n)
  }

  /** The sequence starts with 2 and goes from each prime to the next. */
  ghost predicate FirstPrimes(ps: seq<nat>) {
    ps != [] && ps[0] == 2 && forall i :: 0 < i < |ps| ==> NextPrime(ps[i - 1], ps[i])
  }

  /** `r` is the cube root of `p`, in units of 2^-32, cut off. */
  predicate CubeRoot(p: nat, r: nat) {
    r * r * r <= p * 0x1_0000_0000_0000_0000_0000_0000 < (r + 1) * (r + 1) * (r + 1)
  }

  /** `r` is the square root of `p`, in units of 2^-32, cut off. */
  predicate SquareRoot(p: nat, r: nat) {
    r * r <= p * 0x1_0000_0000_0000_0000 < (r + 1) * (r + 1)
  }

  ghost predicate CubeRootFraction(p: nat, k: nat) {
    exists r: nat :: CubeRoot(p, r) && k == r % 0x1_0000_0000
  }

  ghost predicate SquareRootFraction(p: nat, k: nat) {
    exists r: nat :: SquareRoot(p, r) && k == r % 0x1_0000_0000
  }

  /** The round constants belong to the cube roots of the first 64 primes. */
  lemma RoundConstants()
    ensures |PRIMES| == |K| == 64 && FirstPrimes(PRIMES)
    ensures forall i :: 0 <= i < 64 ==> CubeRootFraction(PRIMES[i], K[i] as nat)
  {
    Primes1(); Primes5(); Primes9(); Primes13();
    Primes17(); Primes21(); Primes25(); Primes29();
    Primes33(); Primes37(); Primes41(); Primes45();
    Primes49(); Primes53(); Primes57(); Primes61();
    CubeRoots0(); CubeRoots4(); CubeRoots8(); CubeRoots12();
    CubeRoots16(); CubeRoots20(); CubeRoots24(); CubeRoots28();
    CubeRoots32(); CubeRoots36(); CubeRoots40(); CubeRoots44();
    CubeRoots48(); CubeRoots52(); CubeRoots56(); CubeRoots60();
  }

  /** The initial hash value belongs to the square roots of the first eight primes. */
  lemma InitialValue()
    ensures |INITIAL| == 8 && forall i :: 0 <= i < 8 ==> SquareRootFraction(PRIMES[i], INITIAL[i] as nat)
  {
    SquareRoots0();
    SquareRoots4();
  }

  lemma Cube(i: nat, p: nat, r: nat)
    requires i < 64 && PRIMES[i] == p && K[i] as nat == r % 0x1_0000_0000 && CubeRoot(p, r)
    ensures CubeRootFraction(PRIMES[i], K[i] as nat)
  {
  }

  lemma Square(i: nat, p: nat, r: nat)
    requires i < 8 && PRIMES[i] == p && INITIAL[i] as nat == r % 0x1_0000_0000 && SquareRoot(p, r)
    ensures SquareRootFraction(PRIMES[i], INITIAL[i] as nat)
  {
  }

  lemma SquareRoots0()
    ensures forall i :: 0 <= i < 4 ==> SquareRootFraction(PRIMES[i], INITIAL[i] as nat)
  {
    Square(0, 2, 0x1_6a09e667); Square(1, 3, 0x1_bb67ae85); Square(2, 5, 0x2_3c6ef372); Square(3, 7, 0x2_a54ff53a);
  }

  lemma SquareRoots4()
    ensures forall i :: 4 <= i < 8 ==> SquareRootFraction(PRIMES[i], INITIAL[i] as nat)
  {
    Square(4, 11, 0x3_510e527f); Square(5, 13, 0x3_9b05688c); Square(6, 17, 0x4_1f83d9ab); Square(7, 19, 0x4_5be0cd19);
  }

  lemma CubeRoots0()
    ensures forall i :: 0 <= i < 4 ==> CubeRootFraction(PRIMES[i], K[i] as nat)
  {
    Cube(0, 2, 0x1_428a2f98); Cube(1, 3, 0x1_71374491); Cube(2, 5, 0x1_b5c0fbcf); Cube(3, 7, 0x1_e9b5dba5);
  }

  lemma CubeRoots4()
    ensures forall i :: 4 <= i < 8 ==> CubeRootFraction(PRIMES[i], K[i] as nat)
  {
    Cube(4, 11, 0x2_3956c25b); Cube(5, 13, 0x2_59f111f1); Cube(6, 17, 0x2_923f82a4); Cube(7, 19, 0x2_ab1c5ed5);
  }

  lemma CubeRoots8()
    ensures forall i :: 8 <= i < 12 ==> CubeRootFraction(PRIMES[i], K[i] as nat)
  {
    Cube(8, 23, 0x2_d807aa98); Cube(9, 29, 0x3_12835b01); Cube(10, 31, 0x3_243185be); Cube(11, 37, 0x3_550c7dc3);
  }

  lemma CubeRoots12()
    ensures forall i :: 12 <= i < 16 ==> CubeRootFraction(PRIMES[i], K[i] as nat)
  {
    Cube(12, 41, 0x3_72be5d74); Cube(13, 43, 0x3_80deb1fe); Cube(14, 47, 0x3_9bdc06a7); Cube(15, 53, 0x3_c19bf174);
  }

  lemma CubeRoots16()
    ensures forall i :: 16 <= i < 20 ==> CubeRootFraction(PRIMES[i], K[i] as nat)
  {
    Cube(16, 59, 0x3_e49b69c1); Cube(17, 61, 0x3_efbe4786); Cube(18, 67, 0x4_0fc19dc6); Cube(19, 71, 0x4_240ca1cc);
  }

  lemma CubeRoots20()
    ensures forall i :: 20 <= i < 24 ==> CubeRootFraction(PRIMES[i], K[i] as nat)
  {
    Cube(20, 73, 0x4_2de92c6f); Cube(21, 79, 0x4_4a7484aa); Cube(22, 83, 0x4_5cb0a9dc); Cube(23, 89, 0x4_76f988da);
  }

  lemma CubeRoots24()
    ensures forall i :: 24 <= i < 28 ==> CubeRootFraction(PRIMES[i], K[i] as nat)
  {
    Cube(24, 97, 0x4_983e5152); Cube(25, 101, 0x4_a831c66d); Cube(26, 103, 0x4_b00327c8); Cube(27, 107, 0x4_bf597fc7);
  }

  lemma CubeRoots28()
    ensures forall i :: 28 <= i < 32 ==> CubeRootFraction(PRIMES[i], K[i] as nat)
  {
    Cube(28, 109, 0x4_c6e00bf3); Cube(29, 113, 0x4_d5a79147); Cube(30, 127, 0x5_06ca6351); Cube(31, 131, 0x5_14292967);
  }

  lemma CubeRoots32()
    ensures forall i :: 32 <= i < 36 ==> CubeRootFraction(PRIMES[i], K[i] as nat)
  {
    Cube(32, 137, 0x5_27b70a85); Cube(33, 139, 0x5_2e1b2138); Cube(34, 149, 0x5_4d2c6dfc); Cube(35, 151, 0x5_53380d13);
  }

  lemma CubeRoots36()
    ensures forall i :: 36 <= i < 40 ==> CubeRootFraction(PRIMES[i], K[i] as nat)
  {
    Cube(36, 157, 0x5_650a7354); Cube(37, 163, 0x5_766a0abb); Cube(38, 167, 0x5_81c2c92e); Cube(39, 173, 0x5_92722c85);
  }

  lemma CubeRoots40()
    ensures forall i :: 40 <= i < 44 ==> CubeRootFraction(PRIMES[i], K[i] as nat)
  {
    Cube(40, 179, 0x5_a2bfe8a1); Cube(41, 181, 0x5_a81a664b); Cube(42, 191, 0x5_c24b8b70); Cube(43, 193, 0x5_c76c51a3);
  }

  lemma CubeRoots44()
    ensures forall i :: 44 <= i < 48 ==> CubeRootFraction(PRIMES[i], K[i] as nat)
  {
    Cube(44, 197, 0x5_d192e819); Cube(45, 199, 0x5_d6990624); Cube(46, 211, 0x5_f40e3585); Cube(47, 223, 0x6_106aa070);
  }

  lemma CubeRoots48()
    ensures forall i :: 48 <= i < 52 ==> CubeRootFraction(PRIMES[i], K[i] as nat)
  {
    Cube(48, 227, 0x6_19a4c116); Cube(49, 229, 0x6_1e376c08); Cube(50, 233, 0x6_2748774c); Cube(51, 239, 0x6_34b0bcb5);
  }

  lemma CubeRoots52()
    ensures forall i :: 52 <= i < 56 ==> CubeRootFraction(PRIMES[i], K[i] as nat)
  {
    Cube(52, 241, 0x6_391c0cb3); Cube(53, 251, 0x6_4ed8aa4a); Cube(54, 257, 0x6_5b9cca4f); Cube(55, 263, 0x6_682e6ff3);
  }

  lemma CubeRoots56()
    ensures forall i :: 56 <= i < 60 ==> CubeRootFraction(PRIMES[i], K[i] as nat)
  {
    Cube(56, 269, 0x6_748f82ee); Cube(57, 271, 0x6_78a5636f); Cube(58, 277, 0x6_84c87814); Cube(59, 281, 0x6_8cc70208);
  }

  lemma CubeRoots60()
    ensures forall i :: 60 <= i < 64 ==> CubeRootFraction(PRIMES[i], K[i] as nat)
  {
    Cube(60, 283, 0x6_90befffa); Cube(61, 293, 0x6_a4506ceb); Cube(62, 307, 0x6_bef9a3f7); Cube(63, 311, 0x6_c67178f2);
  }

  // Numbers below 361 = 19 * 19 are prime if they have no prime divisor up to 17 but themselves

  predicate Trial(n: nat) {
    n > 1
    && (n % 2 != 0 || n == 2) && (n % 3 != 0 || n == 3) && (n % 5 != 0 || n == 5) && (n % 7 != 0 || n == 7)
    && (n % 11 != 0 || n == 11) && (n % 13 != 0 || n == 13) && (n % 17 != 0 || n == 17)
  }

  lemma DividesThrough(n: nat, d: nat, p: nat)
    requires p > 0 && d > 0 && n % d == 0 && d % p == 0
    ensures n % p == 0
  {
    var e, k := d / p, n / d;
    Rearrange(e, p, k);
    assert d == e * p && n == d * k;
    Quotient(n, p, e * k, 0);
  }

  lemma Rearrange(e: nat, p: nat, k: nat)
    ensures (e * p) * k == (e * k) * p
  {
  }

  lemma SmallDivisor(n: nat, d: nat)
    requires 2 <= d < 19 && d < n && n % d == 0
    ensures !Trial(n)
  {
    var p := if d % 2 == 0 then 2 else if d % 3 == 0 then 3 else d;
    DividesThrough(n, d, p);
    SmallPrime(n, p);
  }

  lemma SmallPrime(n: nat, p: nat)
    requires p in {2, 3, 5, 7, 11, 13, 17} && p < n && n % p == 0
    ensures !Trial(n)
  {
  }

  lemma Cofactor(n: nat, d: nat, k: nat)
    requires 19 <= d < n < 361 && n % d == 0 && k == n / d
    ensures 2 <= k < 19 && n % k == 0
  {
    assert n == d * k;
    Quotient(n, k, d, 0);
  }

  lemma TrialIsPrime(n: nat)
    requires n < 361
    ensures Trial(n) <==> IsPrime(n)
  {
    if n >= 2 && !IsPrime(n) {
      var d :| 2 <= d < n && n % d == 0;
      AnyDivisor(n, d);
    } else if n >= 2 {
      PrimePasses(n);
    }
  }

  lemma PrimePasses(n: nat)
    requires IsPrime(n)
    ensures Trial(n)
  {
    forall p | p in {2, 3, 5, 7, 11, 13, 17} ensures n % p != 0 || n <= p {
    }
  }

  lemma AnyDivisor(n: nat, d: nat)
    requires 2 <= d < n < 361 && n % d == 0
    ensures !Trial(n)
  {
    if d < 19 {
      SmallDivisor(n, d);
    } else {
      Cofactor(n, d, n / d);
      SmallDivisor(n, n / d);
    }
  }

  /** No number strictly between passes the trial. */
  predicate NoneBetween(a: nat, b: nat)
    decreases b - a
  {
    a + 1 >= b || (!Trial(a + 1) && NoneBetween(a + 1, b))
  }

  lemma {:induction false} NoneBetweenIs(a: nat, b: nat, n: nat)
    requires NoneBetween(a, b) && a < n < b
    ensures !Trial(n)
    decreases b - a
  {
    if a + 1 < n {
      NoneBetweenIs(a + 1, b, n);
    }
  }

  lemma Next(i: nat, a: nat, b: nat)
    requires 0 < i < 64 && PRIMES[i - 1] == a && PRIMES[i] == b
    requires a < b < 361 && Trial(b) && NoneBetween(a, b)
    ensures NextPrime(PRIMES[i - 1], PRIMES[i])
  {
    TrialIsPrime(b);
    forall n | a < n < b ensures !IsPrime(n) {
      NoneBetweenIs(a, b, n);
      TrialIsPrime(n);
    }
  }

  lemma Primes1()
    ensures forall i :: 1 <= i < 5 ==> NextPrime(PRIMES[i - 1], PRIMES[i])
  {
    Next(1, 2, 3); Next(2, 3, 5); Next(3, 5, 7); Next(4, 7, 11);
  }

  lemma Primes5()
    ensures forall i :: 5 <= i < 9 ==> NextPrime(PRIMES[i - 1], PRIMES[i])
  {
    Next(5, 11, 13); Next(6, 13, 17); Next(7, 17, 19); Next(8, 19, 23);
  }

  lemma Primes9()
    ensures forall i :: 9 <= i < 13 ==> NextPrime(PRIMES[i - 1], PRIMES[i])
  {
    Next(9, 23, 29); Next(10, 29, 31); Next(11, 31, 37); Next(12, 37, 41);
  }

  lemma Primes13()
    ensures forall i :: 13 <= i < 17 ==> NextPrime(PRIMES[i - 1], PRIMES[i])
  {
    Next(13, 41, 43); Next(14, 43, 47); Next(15, 47, 53); Next(16, 53, 59);
  }

  lemma Primes17()
    ensures forall i :: 17 <= i < 21 ==> NextPrime(PRIMES[i - 1], PRIMES[i])
  {
    Next(17, 59, 61); Next(18, 61, 67); Next(19, 67, 71); Next(20, 71, 73);
  }

  lemma Primes21()
    ensures forall i :: 21 <= i < 25 ==> NextPrime(PRIMES[i - 1], PRIMES[i])
  {
    Next(21, 73, 79); Next(22, 79, 83); Next(23, 83, 89); Next(24, 89, 97);
  }

  lemma Primes25()
    ensures forall i :: 25 <= i < 29 ==> NextPrime(PRIMES[i - 1], PRIMES[i])
  {
    Next(25, 97, 101); Next(26, 101, 103); Next(27, 103, 107); Next(28, 107, 109);
  }

  lemma Primes29()
    ensures forall i :: 29 <= i < 33 ==> NextPrime(PRIMES[i - 1], PRIMES[i])
  {
    Next(29, 109, 113); Next(30, 113, 127); Next(31, 127, 131); Next(32, 131, 137);
  }

  lemma Primes33()
    ensures forall i :: 33 <= i < 37 ==> NextPrime(PRIMES[i - 1], PRIMES[i])
  {
    Next(33, 137, 139); Next(34, 139, 149); Next(35, 149, 151); Next(36, 151, 157);
  }

  lemma Primes37()
    ensures forall i :: 37 <= i < 41 ==> NextPrime(PRIMES[i - 1], PRIMES[i])
  {
    Next(37, 157, 163); Next(38, 163, 167); Next(39, 167, 173); Next(40, 173, 179);
  }

  lemma Primes41()
    ensures forall i :: 41 <= i < 45 ==> NextPrime(PRIMES[i - 1], PRIMES[i])
  {
    Next(41, 179, 181); Next(42, 181, 191); Next(43, 191, 193); Next(44, 193, 197);
  }

  lemma Primes45()
    ensures forall i :: 45 <= i < 49 ==> NextPrime(PRIMES[i - 1], PRIMES[i])
  {
    Next(45, 197, 199); Next(46, 199, 211); Next(47, 211, 223); Next(48, 223, 227);
  }

  lemma Primes49()
    ensures forall i :: 49 <= i < 53 ==> NextPrime(PRIMES[i - 1], PRIMES[i])
  {
    Next(49, 227, 229); Next(50, 229, 233); Next(51, 233, 239); Next(52, 239, 241);
  }

  lemma Primes53()
    ensures forall i :: 53 <= i < 57 ==> NextPrime(PRIMES[i - 1], PRIMES[i])
  {
    Next(53, 241, 251); Next(54, 251, 257); Next(55, 257, 263); Next(56, 263, 269);
  }

  lemma Primes57()
    ensures forall i :: 57 <= i < 61 ==> NextPrime(PRIMES[i - 1], PRIMES[i])
  {
    Next(57, 269, 271); Next(58, 271, 277); Next(59, 277, 281); Next(60, 281, 283);
  }

  lemma Primes61()
    ensures forall i :: 61 <= i < 64 ==> NextPrime(PRIMES[i - 1], PRIMES[i])
  {
    Next(61, 283, 293); Next(62, 293, 307); Next(63, 307, 311);
  }
}
