/** Where the constants come from, as sections 4.2.2 and 5.3.3 of FIPS 180-4 say: the first thirty-two bits of the
    fractional parts of the cube roots of the first sixty-four primes, and of the square roots of the first eight. */
module Sha256Constants {
  import opened Arithmetic
  import opened Sha256Spec

  // ---------------------------------------------------------------- primes

  predicate Divides(d: nat, n: nat)
    requires d > 0
  {
    n % d == 0
  }

  ghost predicate IsPrime(n: nat) {
    n >= 2 && forall d :: 2 <= d < n ==> !Divides(d, n)
  }

  // The first sixty-four primes, eight to a row.
  const PRIMES_1: seq<nat> := [2, 3, 5, 7, 11, 13, 17, 19]
  const PRIMES_2: seq<nat> := [23, 29, 31, 37, 41, 43, 47, 53]
  const PRIMES_3: seq<nat> := [59, 61, 67, 71, 73, 79, 83, 89]
  const PRIMES_4: seq<nat> := [97, 101, 103, 107, 109, 113, 127, 131]
  const PRIMES_5: seq<nat> := [137, 139, 149, 151, 157, 163, 167, 173]
  const PRIMES_6: seq<nat> := [179, 181, 191, 193, 197, 199, 211, 223]
  const PRIMES_7: seq<nat> := [227, 229, 233, 239, 241, 251, 257, 263]
  const PRIMES_8: seq<nat> := [269, 271, 277, 281, 283, 293, 307, 311]

  function PrimeRow(n: nat): (p: seq<nat>)
    ensures |p| == 8
  {
    match n
    case 1 => PRIMES_1 case 2 => PRIMES_2 case 3 => PRIMES_3 case 4 => PRIMES_4
    case 5 => PRIMES_5 case 6 => PRIMES_6 case 7 => PRIMES_7 case _ => PRIMES_8
  }

  function Prime(t: nat): nat
    requires t < 64
  {
    PrimeRow(t / 8 + 1)[t % 8]
  }

  /** What decides primality below 361. */
  predicate Sieved(n: nat) {
    && n >= 2 && (n % 2 != 0 || n == 2) && (n % 3 != 0 || n == 3) && (n % 5 != 0 || n == 5) && (n % 7 != 0 || n == 7)
    && (n % 11 != 0 || n == 11) && (n % 13 != 0 || n == 13) && (n % 17 != 0 || n == 17)
  }

  lemma DividesOn(n: nat, e: nat, s: nat)
    requires e > 0 && s > 0 && n % e == 0 && e % s == 0
    ensures n % s == 0
  {
    DivideSplit(n, e);
    DivideSplit(e, s);
    var a, b := n / e, e / s;
    assert n == (a * b) * s;
    DivideUnique(n, s, a * b, 0);
  }

  /** No divisor up to 18 escapes the sieve: it has a factor that the sieve tries. */
  lemma SmallDivisor(n: nat, e: nat)
    requires Sieved(n) && 2 <= e <= 18 && e < n
    ensures n % e != 0
  {
    if n % e == 0 {
      DividesOn(n, e, if e % 2 == 0 then 2 else if e % 3 == 0 then 3 else e);
      assert false;
    }
  }

  lemma SievedIsPrime(n: nat)
    requires n < 361
    ensures IsPrime(n) <==> Sieved(n)
  {
    if Sieved(n) {
      forall d | 2 <= d < n ensures !Divides(d, n) {
        if Divides(d, n) {
          Cofactor(n, d);
          SmallDivisor(n, if d <= 18 then d else n / d);
        }
      }
    }
    if n >= 2 && !Sieved(n) {
      SieveDivides(n);
    }
  }

  /** Of two factors of a number below 361 one is at most 18. */
  lemma Cofactor(n: nat, d: nat)
    requires 2 <= d < n < 361 && n % d == 0
    ensures 2 <= n / d < n && n % (n / d) == 0 && (d <= 18 || n / d <= 18)
  {
    var k := n / d;
    DivideSplit(n, d);
    if k <= 1 {
      MulMonotone(k, 1, d);
    }
    if d >= 19 && k >= 19 {
      MulMonotone(19, d, k);
    }
    DivideUnique(n, k, d, 0);
    MulMonotone(2, d, k);
  }

  lemma SieveDivides(n: nat)
    requires n >= 2 && !Sieved(n)
    ensures exists d :: 2 <= d < n && Divides(d, n)
  {
    var d := if n % 2 == 0 && n != 2 then 2 else if n % 3 == 0 && n != 3 then 3 else if n % 5 == 0 && n != 5 then 5
      else if n % 7 == 0 && n != 7 then 7 else if n % 11 == 0 && n != 11 then 11 else if n % 13 == 0 && n != 13 then 13 else 17;
    assert Divides(d, n);
  }

  lemma PrimesOfRow1(n: nat)
    requires 2 <= n < 23
    ensures Sieved(n) <==> n in PRIMES_1
  {
  }

  lemma PrimesOfRow2(n: nat)
    requires 23 <= n < 59
    ensures Sieved(n) <==> n in PRIMES_2
  {
  }

  lemma PrimesOfRow3(n: nat)
    requires 59 <= n < 97
    ensures Sieved(n) <==> n in PRIMES_3
  {
  }

  lemma FirstHalfOfRow4(n: nat)
    requires 97 <= n < 109
    ensures Sieved(n) <==> n in PRIMES_4
  {
  }

  lemma SecondHalfOfRow4(n: nat)
    requires 109 <= n < 122
    ensures Sieved(n) <==> n in PRIMES_4
  {
  }

  lemma EndOfRow4(n: nat)
    requires 122 <= n < 137
    ensures Sieved(n) <==> n in PRIMES_4
  {
  }

  lemma PrimesOfRow4(n: nat)
    requires 97 <= n < 137
    ensures Sieved(n) <==> n in PRIMES_4
  {
    if n < 109 {
      FirstHalfOfRow4(n);
    } else if n < 122 {
      SecondHalfOfRow4(n);
    } else {
      EndOfRow4(n);
    }
  }

  lemma FirstHalfOfRow5(n: nat)
    requires 137 <= n < 157
    ensures Sieved(n) <==> n in PRIMES_5
  {
  }

  lemma SecondHalfOfRow5(n: nat)
    requires 157 <= n < 179
    ensures Sieved(n) <==> n in PRIMES_5
  {
  }

  lemma PrimesOfRow5(n: nat)
    requires 137 <= n < 179
    ensures Sieved(n) <==> n in PRIMES_5
  {
    if n < 157 {
      FirstHalfOfRow5(n);
    } else {
      SecondHalfOfRow5(n);
    }
  }

  lemma FirstHalfOfRow6(n: nat)
    requires 179 <= n < 197
    ensures Sieved(n) <==> n in PRIMES_6
  {
  }

  lemma SecondHalfOfRow6(n: nat)
    requires 197 <= n < 227
    ensures Sieved(n) <==> n in PRIMES_6
  {
  }

  lemma PrimesOfRow6(n: nat)
    requires 179 <= n < 227
    ensures Sieved(n) <==> n in PRIMES_6
  {
    if n < 197 {
      FirstHalfOfRow6(n);
    } else {
      SecondHalfOfRow6(n);
    }
  }

  lemma FirstHalfOfRow7(n: nat)
    requires 227 <= n < 241
    ensures Sieved(n) <==> n in PRIMES_7
  {
  }

  lemma SecondHalfOfRow7(n: nat)
    requires 241 <= n < 269
    ensures Sieved(n) <==> n in PRIMES_7
  {
  }

  lemma PrimesOfRow7(n: nat)
    requires 227 <= n < 269
    ensures Sieved(n) <==> n in PRIMES_7
  {
    if n < 241 {
      FirstHalfOfRow7(n);
    } else {
      SecondHalfOfRow7(n);
    }
  }

  lemma FirstHalfOfRow8(n: nat)
    requires 269 <= n < 283
    ensures Sieved(n) <==> n in PRIMES_8
  {
  }

  lemma SecondHalfOfRow8(n: nat)
    requires 283 <= n < 312
    ensures Sieved(n) <==> n in PRIMES_8
  {
  }

  lemma PrimesOfRow8(n: nat)
    requires 269 <= n < 312
    ensures Sieved(n) <==> n in PRIMES_8
  {
    if n < 283 {
      FirstHalfOfRow8(n);
    } else {
      SecondHalfOfRow8(n);
    }
  }

  lemma PrimeAt(t: nat)
    requires t < 64
    ensures Sieved(Prime(t)) && Prime(t) < 312 && (t > 0 ==> Prime(t - 1) < Prime(t))
  {
    var n, i := t / 8 + 1, t % 8;
    DivideSplit(t, 8);
    RowAscends(n, i);
    RowHolds(n, Prime(t));
    if t > 0 && i == 0 {
      DivideUnique(t - 1, 8, n - 2, 7);
      RowAscends(n - 1, 7);
    } else if t > 0 {
      DivideUnique(t - 1, 8, n - 1, i - 1);
    }
  }

  /** Where a row starts, and where the next one does. */
  function Start(n: nat): nat {
    if n == 1 then 2 else if n == 2 then 23 else if n == 3 then 59 else if n == 4 then 97 else if n == 5 then 137 else if n == 6 then 179 else if n == 7 then 227 else if n == 8 then 269
    else 312
  }

  lemma RowAscends(n: nat, i: nat)
    requires 1 <= n <= 8 && i < 8
    ensures Start(n) <= PrimeRow(n)[i] < Start(n + 1) && PrimeRow(n)[0] == Start(n)
    ensures i > 0 ==> PrimeRow(n)[i - 1] < PrimeRow(n)[i]
  {
  }

  lemma {:induction false} PrimesAscend(t: nat, u: nat)
    requires t < u < 64
    ensures Prime(t) < Prime(u)
  {
    PrimeAt(u);
    if t < u - 1 {
      PrimesAscend(t, u - 1);
    }
  }

  lemma RowHolds(n: nat, p: nat)
    requires 1 <= n <= 8 && Start(n) <= p < Start(n + 1)
    ensures Sieved(p) <==> p in PrimeRow(n)
  {
    match n
    case 1 => PrimesOfRow1(p);
    case 2 => PrimesOfRow2(p);
    case 3 => PrimesOfRow3(p);
    case 4 => PrimesOfRow4(p);
    case 5 => PrimesOfRow5(p);
    case 6 => PrimesOfRow6(p);
    case 7 => PrimesOfRow7(p);
    case _ => PrimesOfRow8(p);
  }

  lemma IndexOf(p: nat) returns (t: nat)
    requires p < 312 && Sieved(p)
    ensures t < 64 && Prime(t) == p
  {
    var n := if p < Start(2) then 1 else if p < Start(3) then 2 else if p < Start(4) then 3 else if p < Start(5) then 4
      else if p < Start(6) then 5 else if p < Start(7) then 6 else if p < Start(8) then 7 else 8;
    RowHolds(n, p);
    var i :| 0 <= i < 8 && PrimeRow(n)[i] == p;
    t := 8 * (n - 1) + i;
    DivideUnique(t, 8, n - 1, i);
  }

  /** The list is exactly the primes up to 311, in ascending order: `Prime(t)` is the prime with t primes below it. */
  lemma FirstPrimes(t: nat, p: nat)
    requires t < 64
    ensures IsPrime(Prime(t)) && forall u :: 0 <= u < t ==> Prime(u) < Prime(t)
    ensures p <= 311 && IsPrime(p) ==> exists u :: 0 <= u < 64 && Prime(u) == p
  {
    PrimeAt(t);
    SievedIsPrime(Prime(t));
    forall u | 0 <= u < t ensures Prime(u) < Prime(t) {
      PrimesAscend(u, t);
    }
    if p <= 311 && IsPrime(p) {
      SievedIsPrime(p);
      var u := IndexOf(p);
    }
  }

  // ---------------------------------------------------------------- roots

  const WORD := 0x1_0000_0000

  function Square(n: nat): nat { n * n }
  function Cube(n: nat): nat { n * n * n }

  /** n.k, with k a fraction of 2^32, is the cube root of p cut off there. */
  ghost predicate CubeRoot(p: nat, n: nat, k: nat) {
    Cube(n * WORD + k) <= p * Cube(WORD) < Cube(n * WORD + k + 1)
  }

  ghost predicate SquareRoot(p: nat, n: nat, k: nat) {
    Square(n * WORD + k) <= p * Square(WORD) < Square(n * WORD + k + 1)
  }

  lemma RootsOfRow1()
    ensures CubeRoot(PRIMES_1[0], 1, ROW_1[0] as nat)
    ensures CubeRoot(PRIMES_1[1], 1, ROW_1[1] as nat)
    ensures CubeRoot(PRIMES_1[2], 1, ROW_1[2] as nat)
    ensures CubeRoot(PRIMES_1[3], 1, ROW_1[3] as nat)
    ensures CubeRoot(PRIMES_1[4], 2, ROW_1[4] as nat)
    ensures CubeRoot(PRIMES_1[5], 2, ROW_1[5] as nat)
    ensures CubeRoot(PRIMES_1[6], 2, ROW_1[6] as nat)
    ensures CubeRoot(PRIMES_1[7], 2, ROW_1[7] as nat)
  {
  }

  lemma RootsOfRow2()
    ensures CubeRoot(PRIMES_2[0], 2, ROW_2[0] as nat)
    ensures CubeRoot(PRIMES_2[1], 3, ROW_2[1] as nat)
    ensures CubeRoot(PRIMES_2[2], 3, ROW_2[2] as nat)
    ensures CubeRoot(PRIMES_2[3], 3, ROW_2[3] as nat)
    ensures CubeRoot(PRIMES_2[4], 3, ROW_2[4] as nat)
    ensures CubeRoot(PRIMES_2[5], 3, ROW_2[5] as nat)
    ensures CubeRoot(PRIMES_2[6], 3, ROW_2[6] as nat)
    ensures CubeRoot(PRIMES_2[7], 3, ROW_2[7] as nat)
  {
  }

  lemma RootsOfRow3()
    ensures CubeRoot(PRIMES_3[0], 3, ROW_3[0] as nat)
    ensures CubeRoot(PRIMES_3[1], 3, ROW_3[1] as nat)
    ensures CubeRoot(PRIMES_3[2], 4, ROW_3[2] as nat)
    ensures CubeRoot(PRIMES_3[3], 4, ROW_3[3] as nat)
    ensures CubeRoot(PRIMES_3[4], 4, ROW_3[4] as nat)
    ensures CubeRoot(PRIMES_3[5], 4, ROW_3[5] as nat)
    ensures CubeRoot(PRIMES_3[6], 4, ROW_3[6] as nat)
    ensures CubeRoot(PRIMES_3[7], 4, ROW_3[7] as nat)
  {
  }

  lemma RootsOfRow4()
    ensures CubeRoot(PRIMES_4[0], 4, ROW_4[0] as nat)
    ensures CubeRoot(PRIMES_4[1], 4, ROW_4[1] as nat)
    ensures CubeRoot(PRIMES_4[2], 4, ROW_4[2] as nat)
    ensures CubeRoot(PRIMES_4[3], 4, ROW_4[3] as nat)
    ensures CubeRoot(PRIMES_4[4], 4, ROW_4[4] as nat)
    ensures CubeRoot(PRIMES_4[5], 4, ROW_4[5] as nat)
    ensures CubeRoot(PRIMES_4[6], 5, ROW_4[6] as nat)
    ensures CubeRoot(PRIMES_4[7], 5, ROW_4[7] as nat)
  {
  }

  lemma RootsOfRow5()
    ensures CubeRoot(PRIMES_5[0], 5, ROW_5[0] as nat)
    ensures CubeRoot(PRIMES_5[1], 5, ROW_5[1] as nat)
    ensures CubeRoot(PRIMES_5[2], 5, ROW_5[2] as nat)
    ensures CubeRoot(PRIMES_5[3], 5, ROW_5[3] as nat)
    ensures CubeRoot(PRIMES_5[4], 5, ROW_5[4] as nat)
    ensures CubeRoot(PRIMES_5[5], 5, ROW_5[5] as nat)
    ensures CubeRoot(PRIMES_5[6], 5, ROW_5[6] as nat)
    ensures CubeRoot(PRIMES_5[7], 5, ROW_5[7] as nat)
  {
  }

  lemma RootsOfRow6()
    ensures CubeRoot(PRIMES_6[0], 5, ROW_6[0] as nat)
    ensures CubeRoot(PRIMES_6[1], 5, ROW_6[1] as nat)
    ensures CubeRoot(PRIMES_6[2], 5, ROW_6[2] as nat)
    ensures CubeRoot(PRIMES_6[3], 5, ROW_6[3] as nat)
    ensures CubeRoot(PRIMES_6[4], 5, ROW_6[4] as nat)
    ensures CubeRoot(PRIMES_6[5], 5, ROW_6[5] as nat)
    ensures CubeRoot(PRIMES_6[6], 5, ROW_6[6] as nat)
    ensures CubeRoot(PRIMES_6[7], 6, ROW_6[7] as nat)
  {
  }

  lemma RootsOfRow7()
    ensures CubeRoot(PRIMES_7[0], 6, ROW_7[0] as nat)
    ensures CubeRoot(PRIMES_7[1], 6, ROW_7[1] as nat)
    ensures CubeRoot(PRIMES_7[2], 6, ROW_7[2] as nat)
    ensures CubeRoot(PRIMES_7[3], 6, ROW_7[3] as nat)
    ensures CubeRoot(PRIMES_7[4], 6, ROW_7[4] as nat)
    ensures CubeRoot(PRIMES_7[5], 6, ROW_7[5] as nat)
    ensures CubeRoot(PRIMES_7[6], 6, ROW_7[6] as nat)
    ensures CubeRoot(PRIMES_7[7], 6, ROW_7[7] as nat)
  {
  }

  lemma RootsOfRow8()
    ensures CubeRoot(PRIMES_8[0], 6, ROW_8[0] as nat)
    ensures CubeRoot(PRIMES_8[1], 6, ROW_8[1] as nat)
    ensures CubeRoot(PRIMES_8[2], 6, ROW_8[2] as nat)
    ensures CubeRoot(PRIMES_8[3], 6, ROW_8[3] as nat)
    ensures CubeRoot(PRIMES_8[4], 6, ROW_8[4] as nat)
    ensures CubeRoot(PRIMES_8[5], 6, ROW_8[5] as nat)
    ensures CubeRoot(PRIMES_8[6], 6, ROW_8[6] as nat)
    ensures CubeRoot(PRIMES_8[7], 6, ROW_8[7] as nat)
  {
  }

  ghost predicate IsCubeRoot(p: nat, k: nat) {
    exists n :: CubeRoot(p, n, k)
  }

  ghost predicate IsSquareRoot(p: nat, k: nat) {
    exists n :: SquareRoot(p, n, k)
  }

  lemma RootInRow(n: nat, i: nat)
    requires 1 <= n <= 8 && i < 8
    ensures IsCubeRoot(PrimeRow(n)[i], ConstantRow(n)[i] as nat)
  {
    match n
    case 1 => RootsOfRow1();
    case 2 => RootsOfRow2();
    case 3 => RootsOfRow3();
    case 4 => RootsOfRow4();
    case 5 => RootsOfRow5();
    case 6 => RootsOfRow6();
    case 7 => RootsOfRow7();
    case _ => RootsOfRow8();
  }

  /** Round constant t is the fraction of the cube root of the t-th prime. */
  lemma ConstantsAreRoots(t: nat)
    requires t < 64
    ensures IsCubeRoot(Prime(t), RoundConstant(t) as nat)
  {
    DivideSplit(t, 8);
    RootInRow(t / 8 + 1, t % 8);
  }

  /** The words of the initial hash value are the fractions of the square roots of the first eight primes. */
  lemma InitialIsRoots()
    ensures IsSquareRoot(Prime(0), INITIAL.a as nat) && IsSquareRoot(Prime(1), INITIAL.b as nat)
    ensures IsSquareRoot(Prime(2), INITIAL.c as nat) && IsSquareRoot(Prime(3), INITIAL.d as nat)
    ensures IsSquareRoot(Prime(4), INITIAL.e as nat) && IsSquareRoot(Prime(5), INITIAL.f as nat)
    ensures IsSquareRoot(Prime(6), INITIAL.g as nat) && IsSquareRoot(Prime(7), INITIAL.h as nat)
  {
    assert SquareRoot(2, 1, INITIAL.a as nat) && SquareRoot(3, 1, INITIAL.b as nat);
    assert SquareRoot(5, 2, INITIAL.c as nat) && SquareRoot(7, 2, INITIAL.d as nat);
    assert SquareRoot(11, 3, INITIAL.e as nat) && SquareRoot(13, 3, INITIAL.f as nat);
    assert SquareRoot(17, 4, INITIAL.g as nat) && SquareRoot(19, 4, INITIAL.h as nat);
  }
}
