/** Where the constants of SHA-256 come from, sections 4.2.2 and 5.3.3 of FIPS 180-4: the first 32 bits of the
    fractional parts of the cube roots of the first 64 primes, and of the square roots of the first eight.
 */
module Sha256Constants {
  import opened Sha256

  // ---------------------------------------------------------------------------
  // The first sixty-four primes
  // ---------------------------------------------------------------------------

  ghost predicate IsPrime(n: nat) {
    2 <= n && forall d, e :: 2 <= d && 2 <= e ==> d * e != n
  }

  function PrimeRow(r: nat): (row: seq<nat>)
    requires r < 8
    ensures |row| == 8
  {
    if r == 0 then [2, 3, 5, 7, 11, 13, 17, 19]
    else if r == 1 then [23, 29, 31, 37, 41, 43, 47, 53]
    else if r == 2 then [59, 61, 67, 71, 73, 79, 83, 89]
    else if r == 3 then [97, 101, 103, 107, 109, 113, 127, 131]
    else if r == 4 then [137, 139, 149, 151, 157, 163, 167, 173]
    else if r == 5 then [179, 181, 191, 193, 197, 199, 211, 223]
    else if r == 6 then [227, 229, 233, 239, 241, 251, 257, 263]
    else [269, 271, 277, 281, 283, 293, 307, 311]
  }

  function Prime(i: nat): nat
    requires i < 64
  {
    PrimeRow(i / 8)[i % 8]
  }

  /** No prime up to 17 divides `n`, unless it is `n`. */
  predicate Sieved(n: nat) {
    && (n % 2 != 0 || n == 2) && (n % 3 != 0 || n == 3) && (n % 5 != 0 || n == 5) && (n % 7 != 0 || n == 7)
    && (n % 11 != 0 || n == 11) && (n % 13 != 0 || n == 13) && (n % 17 != 0 || n == 17)
  }

  lemma Divisible(m: nat)
    ensures 2 * m % 2 == 0 && 3 * m % 3 == 0 && 5 * m % 5 == 0 && 7 * m % 7 == 0
    ensures 11 * m % 11 == 0 && 13 * m % 13 == 0 && 17 * m % 17 == 0
  {
  }

  lemma MultipleFails(n: nat, m: nat)
    requires 2 <= m
    requires n == 2 * m || n == 3 * m || n == 5 * m || n == 7 * m || n == 11 * m || n == 13 * m || n == 17 * m
    ensures !Sieved(n)
  {
    Divisible(m);
  }

  lemma Times(p: nat, k: nat, e: nat)
    requires 1 <= k && 2 <= e
    ensures p * k * e == p * (k * e) && 2 <= k * e
  {
  }

  lemma SmallFactor(n: nat, d: nat, e: nat)
    requires n == d * e && 2 <= d <= 17 && 2 <= e
    ensures !Sieved(n)
  {
    hide Sieved;
    var p := if d % 2 == 0 then 2 else if d % 3 == 0 then 3 else if d == 5 then 5 else if d == 7 then 7 else d;
    var k := d / p;
    assert d == p * k;
    Times(p, k, e);
    MultipleFails(n, k * e);
  }

  lemma Product(d: nat, e: nat)
    requires 18 <= d && 18 <= e
    ensures 324 <= d * e
  {
  }

  lemma SmallerFactor(n: nat, d: nat, e: nat)
    requires n == d * e && n < 324 && 2 <= d && 2 <= e
    ensures d <= 17 || e <= 17
  {
    if 18 <= d && 18 <= e { Product(d, e); }
  }

  lemma SieveIsPrime(n: nat)
    requires 2 <= n < 324
    ensures Sieved(n) <==> IsPrime(n)
  {
    if Sieved(n) {
      forall d, e | 2 <= d && 2 <= e && d * e == n
        ensures false
      {
        SmallerFactor(n, d, e);
        if d <= 17 { SmallFactor(n, d, e); } else { SmallFactor(n, e, d); }
      }
    } else {
      var p :| p in [2, 3, 5, 7, 11, 13, 17] && n % p == 0 && n != p;
      assert p * (n / p) == n && 2 <= n / p;
    }
  }

  /** No number in [lo, hi) passes the sieve. */
  predicate NoneIn(lo: nat, hi: nat)
    decreases hi - lo
  {
    hi <= lo || (!Sieved(lo) && NoneIn(lo + 1, hi))
  }

  predicate Follows(p: nat, next: nat) {
    p < next && Sieved(next) && NoneIn(p + 1, next)
  }

  lemma {:induction false} NoneAre(lo: nat, hi: nat, n: nat)
    requires NoneIn(lo, hi) && lo <= n < hi
    ensures !Sieved(n)
    decreases hi - lo
  {
    if lo < n { NoneAre(lo + 1, hi, n); }
  }

  /** `row` holds the eight numbers that pass the sieve after `last`. */
  ghost predicate RowOk(last: nat, row: seq<nat>)
    requires |row| == 8
  {
    && Follows(last, row[0]) && Follows(row[0], row[1]) && Follows(row[1], row[2]) && Follows(row[2], row[3])
    && Follows(row[3], row[4]) && Follows(row[4], row[5]) && Follows(row[5], row[6]) && Follows(row[6], row[7])
  }

  lemma Primes0()
    ensures RowOk(1, PrimeRow(0))
  {
  }

  lemma Primes1()
    ensures RowOk(19, PrimeRow(1))
  {
  }

  lemma Primes2()
    ensures RowOk(53, PrimeRow(2))
  {
  }

  lemma Primes3()
    ensures RowOk(89, PrimeRow(3))
  {
    assert Follows(113, 127);
  }

  lemma Primes4()
    ensures RowOk(131, PrimeRow(4))
  {
  }

  lemma Primes5()
    ensures RowOk(173, PrimeRow(5))
  {
  }

  lemma Primes6()
    ensures RowOk(223, PrimeRow(6))
  {
  }

  lemma Primes7()
    ensures RowOk(263, PrimeRow(7))
  {
    assert Follows(293, 307);
  }

  lemma RowsOk(r: nat)
    requires r < 8
    ensures RowOk(if r == 0 then 1 else PrimeRow(r - 1)[7], PrimeRow(r))
  {
    hide RowOk;
    Primes0();
    Primes1();
    Primes2();
    Primes3();
    Primes4();
    Primes5();
    Primes6();
    Primes7();
  }

  lemma PrimeFollows(i: nat)
    requires i < 64
    ensures Follows(if i == 0 then 1 else Prime(i - 1), Prime(i))
  {
    hide Follows, PrimeRow;
    RowsOk(i / 8);
  }

  lemma PrimeBelow(i: nat)
    requires i < 64
    ensures 2 <= Prime(i) < 324 && Prime(0) == 2
  {
  }

  /** `Prime` counts the primes off in order, from the first. */
  lemma PrimesInOrder(i: nat, n: nat)
    requires i < 64
    ensures IsPrime(Prime(i)) && Prime(0) == 2
    ensures 0 < i ==> Prime(i - 1) < Prime(i)
    ensures 0 < i && Prime(i - 1) < n < Prime(i) ==> !IsPrime(n)
  {
    hide IsPrime, PrimeRow, Sieved;
    PrimeFollows(i);
    PrimeBelow(i);
    SieveIsPrime(Prime(i));
    if 0 < i && Prime(i - 1) < n < Prime(i) {
      PrimeBelow(i - 1);
      NoneAre(Prime(i - 1) + 1, Prime(i), n);
      SieveIsPrime(n);
    }
  }

  // ---------------------------------------------------------------------------
  // Fractional parts of roots
  // ---------------------------------------------------------------------------

  const UNIT: nat := 0x1_0000_0000

  function Square(n: nat): nat {
    n * n
  }

  function Cube(n: nat): nat {
    n * n * n
  }

  /** The cube root of `p`, cut to 32 bits behind the point, ends in the bits `k`. */
  ghost predicate CubeRootBits(k: Word, p: nat) {
    exists q: nat :: Cube(UNIT * q + (k as nat)) <= p * Cube(UNIT) < Cube(UNIT * q + (k as nat) + 1)
  }

  ghost predicate SquareRootBits(k: Word, p: nat) {
    exists q: nat :: Square(UNIT * q + (k as nat)) <= p * Square(UNIT) < Square(UNIT * q + (k as nat) + 1)
  }

  /** The integer part of the cube root of `p`. */
  function Root(p: nat): nat {
    if p < 8 then 1 else if p < 27 then 2 else if p < 64 then 3 else if p < 125 then 4 else if p < 216 then 5 else 6
  }

  lemma Cubic(k: Word, p: nat)
    requires var n := UNIT * Root(p) + (k as nat); Cube(n) <= p * Cube(UNIT) < Cube(n + 1)
    ensures CubeRootBits(k, p)
  {
    hide Cube, Root;
  }

  ghost predicate ConstantsOk(row: seq<Word>, primes: seq<nat>)
    requires |row| == |primes| == 8
  {
    && CubeRootBits(row[0], primes[0]) && CubeRootBits(row[1], primes[1])
    && CubeRootBits(row[2], primes[2]) && CubeRootBits(row[3], primes[3])
    && CubeRootBits(row[4], primes[4]) && CubeRootBits(row[5], primes[5])
    && CubeRootBits(row[6], primes[6]) && CubeRootBits(row[7], primes[7])
  }

  lemma Constants0()
    ensures ConstantsOk(ConstantRow(0), PrimeRow(0))
  {
    hide CubeRootBits;
    Cubic(0x428a2f98, 2);
    Cubic(0x71374491, 3);
    Cubic(0xb5c0fbcf, 5);
    Cubic(0xe9b5dba5, 7);
    Cubic(0x3956c25b, 11);
    Cubic(0x59f111f1, 13);
    Cubic(0x923f82a4, 17);
    Cubic(0xab1c5ed5, 19);
  }

  lemma Constants1()
    ensures ConstantsOk(ConstantRow(1), PrimeRow(1))
  {
    hide CubeRootBits;
    Cubic(0xd807aa98, 23);
    Cubic(0x12835b01, 29);
    Cubic(0x243185be, 31);
    Cubic(0x550c7dc3, 37);
    Cubic(0x72be5d74, 41);
    Cubic(0x80deb1fe, 43);
    Cubic(0x9bdc06a7, 47);
    Cubic(0xc19bf174, 53);
  }

  lemma Constants2()
    ensures ConstantsOk(ConstantRow(2), PrimeRow(2))
  {
    hide CubeRootBits;
    Cubic(0xe49b69c1, 59);
    Cubic(0xefbe4786, 61);
    Cubic(0x0fc19dc6, 67);
    Cubic(0x240ca1cc, 71);
    Cubic(0x2de92c6f, 73);
    Cubic(0x4a7484aa, 79);
    Cubic(0x5cb0a9dc, 83);
    Cubic(0x76f988da, 89);
  }

  lemma Constants3()
    ensures ConstantsOk(ConstantRow(3), PrimeRow(3))
  {
    hide CubeRootBits;
    Cubic(0x983e5152, 97);
    Cubic(0xa831c66d, 101);
    Cubic(0xb00327c8, 103);
    Cubic(0xbf597fc7, 107);
    Cubic(0xc6e00bf3, 109);
    Cubic(0xd5a79147, 113);
    Cubic(0x06ca6351, 127);
    Cubic(0x14292967, 131);
  }

  lemma Constants4()
    ensures ConstantsOk(ConstantRow(4), PrimeRow(4))
  {
    hide CubeRootBits;
    Cubic(0x27b70a85, 137);
    Cubic(0x2e1b2138, 139);
    Cubic(0x4d2c6dfc, 149);
    Cubic(0x53380d13, 151);
    Cubic(0x650a7354, 157);
    Cubic(0x766a0abb, 163);
    Cubic(0x81c2c92e, 167);
    Cubic(0x92722c85, 173);
  }

  lemma Constants5()
    ensures ConstantsOk(ConstantRow(5), PrimeRow(5))
  {
    hide CubeRootBits;
    Cubic(0xa2bfe8a1, 179);
    Cubic(0xa81a664b, 181);
    Cubic(0xc24b8b70, 191);
    Cubic(0xc76c51a3, 193);
    Cubic(0xd192e819, 197);
    Cubic(0xd6990624, 199);
    Cubic(0xf40e3585, 211);
    Cubic(0x106aa070, 223);
  }

  lemma Constants6()
    ensures ConstantsOk(ConstantRow(6), PrimeRow(6))
  {
    hide CubeRootBits;
    Cubic(0x19a4c116, 227);
    Cubic(0x1e376c08, 229);
    Cubic(0x2748774c, 233);
    Cubic(0x34b0bcb5, 239);
    Cubic(0x391c0cb3, 241);
    Cubic(0x4ed8aa4a, 251);
    Cubic(0x5b9cca4f, 257);
    Cubic(0x682e6ff3, 263);
  }

  lemma Constants7()
    ensures ConstantsOk(ConstantRow(7), PrimeRow(7))
  {
    hide CubeRootBits;
    Cubic(0x748f82ee, 269);
    Cubic(0x78a5636f, 271);
    Cubic(0x84c87814, 277);
    Cubic(0x8cc70208, 281);
    Cubic(0x90befffa, 283);
    Cubic(0xa4506ceb, 293);
    Cubic(0xbef9a3f7, 307);
    Cubic(0xc67178f2, 311);
  }

  lemma ConstantsRow(r: nat)
    requires r < 8
    ensures ConstantsOk(ConstantRow(r), PrimeRow(r))
  {
    hide ConstantsOk;
    Constants0();
    Constants1();
    Constants2();
    Constants3();
    Constants4();
    Constants5();
    Constants6();
    Constants7();
  }

  lemma InRow(i: nat)
    requires i < 64
    ensures RoundConstants()[i] == ConstantRow(i / 8)[i % 8]
  {
    hide ConstantRow;
  }

  /** Round constant `i` is the fractional part of the cube root of prime `i`. */
  lemma RoundConstantIs(i: nat)
    requires i < 64
    ensures CubeRootBits(RoundConstants()[i], Prime(i))
  {
    hide RoundConstants, ConstantRow, PrimeRow, CubeRootBits;
    InRow(i);
    ConstantsRow(i / 8);
  }

  lemma Quadratic(k: Word, p: nat, q: nat)
    requires var n := UNIT * q + (k as nat); Square(n) <= p * Square(UNIT) < Square(n + 1)
    ensures SquareRootBits(k, p)
  {
    hide Square;
  }

  /** Initial hash word `i` is the fractional part of the square root of prime `i`. */
  lemma InitialHashIs(i: nat)
    requires i < WORDS
    ensures SquareRootBits(InitialHash()[i], Prime(i))
  {
    hide SquareRootBits;
    Quadratic(0x6a09e667, 2, 1);
    Quadratic(0xbb67ae85, 3, 1);
    Quadratic(0x3c6ef372, 5, 2);
    Quadratic(0xa54ff53a, 7, 2);
    Quadratic(0x510e527f, 11, 3);
    Quadratic(0x9b05688c, 13, 3);
    Quadratic(0x1f83d9ab, 17, 4);
    Quadratic(0x5be0cd19, 19, 4);
  }
}
