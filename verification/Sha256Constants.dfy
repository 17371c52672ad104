/** The constants of SHA-256 are what FIPS 180-4 says they are. */
module Sha256Constants {
  import opened Sha256

  // The first primes

  predicate IsPrime(p: nat) {
    p >= 2 && forall d :: 2 <= d < p ==> p % d != 0
  }

  /** How many primes are smaller than `n`. */
  function PrimesBelow(n: nat): nat {
    if n == 0 then 0 else PrimesBelow(n - 1) + if IsPrime(n - 1) then 1 else 0
  }

  /** No prime up to 17 divides `n`, except `n` itself. */
  predicate Indivisible(n: nat) {
    && (n % 2 != 0 || n == 2) && (n % 3 != 0 || n == 3) && (n % 5 != 0 || n == 5) && (n % 7 != 0 || n == 7)
    && (n % 11 != 0 || n == 11) && (n % 13 != 0 || n == 13) && (n % 17 != 0 || n == 17)
  }

  predicate IsSmall(q: nat) {
    q == 2 || q == 3 || q == 5 || q == 7 || q == 11 || q == 13 || q == 17
  }

  /** A divisor of a divisor divides. */
  lemma DividesThrough(n: nat, d: nat, k: nat, q: nat, m: nat)
    requires n == d * k && d == q * m && IsSmall(q)
    ensures n % q == 0
  {
    assert n == q * (m * k) by { assert (q * m) * k == q * (m * k); }
    RemainderZero(n, q, m * k);
  }

  lemma Multiple2(n: nat, x: nat)
    requires n == 2 * x
    ensures n % 2 == 0
  {
  }

  lemma Multiple3(n: nat, x: nat)
    requires n == 3 * x
    ensures n % 3 == 0
  {
  }

  lemma Multiple5(n: nat, x: nat)
    requires n == 5 * x
    ensures n % 5 == 0
  {
  }

  lemma Multiple7(n: nat, x: nat)
    requires n == 7 * x
    ensures n % 7 == 0
  {
  }

  lemma Multiple11(n: nat, x: nat)
    requires n == 11 * x
    ensures n % 11 == 0
  {
  }

  lemma Multiple13(n: nat, x: nat)
    requires n == 13 * x
    ensures n % 13 == 0
  {
  }

  lemma Multiple17(n: nat, x: nat)
    requires n == 17 * x
    ensures n % 17 == 0
  {
  }

  lemma RemainderZero(n: nat, q: nat, x: nat)
    requires IsSmall(q) && n == q * x
    ensures n % q == 0
  {
    if q == 2 { Multiple2(n, x); } else if q == 3 { Multiple3(n, x); } else if q == 5 { Multiple5(n, x); }
    else if q == 7 { Multiple7(n, x); } else if q == 11 { Multiple11(n, x); }
    else if q == 13 { Multiple13(n, x); } else { Multiple17(n, x); }
  }

  /** A number from 2 to 18 is a multiple of one of the seven primes. */
  lemma SmallFactor(d: nat) returns (q: nat, m: nat)
    requires 2 <= d <= 18
    ensures d == q * m && 2 <= q <= d && IsSmall(q)
  {
    if d % 2 == 0 { q := 2; } else if d % 3 == 0 { q := 3; } else if d == 5 { q := 5; }
    else if d == 7 { q := 7; } else if d == 11 { q := 11; } else if d == 13 { q := 13; } else { q := 17; }
    m := d / q;
  }

  /** A proper divisor gives one of at most 18. */
  lemma ProperDivisor(n: nat, d: nat) returns (e: nat, k: nat)
    requires n < 361 && 2 <= d < n && n % d == 0
    ensures n == e * k && 2 <= e <= 18 && e < n
  {
    e, k := d, n / d;
    assert n == d * k;
    if d > 18 {
      Product(d, k);
      e, k := k, d;
    }
  }

  lemma Product(d: nat, k: nat)
    requires d >= 19
    ensures k < 2 ==> d * k <= d
    ensures k >= 19 ==> d * k >= 361
  {
    if k >= 19 { assert d * k >= 19 * k; }
    if k < 2 { assert k == 0 || k == 1; }
  }

  lemma CompositeIsDivisible(n: nat, d: nat)
    requires n < 361 && 2 <= d < n && n % d == 0
    ensures !Indivisible(n)
  {
    var e, k := ProperDivisor(n, d);
    var q, m := SmallFactor(e);
    DividesThrough(n, e, k, q, m);
  }

  lemma PrimeIsIndivisible(n: nat)
    requires IsPrime(n)
    ensures Indivisible(n)
  {
    assert forall q :: 2 <= q < n ==> n % q != 0;
    if n > 17 {
      assert n % 2 != 0 && n % 3 != 0 && n % 5 != 0 && n % 7 != 0 && n % 11 != 0 && n % 13 != 0 && n % 17 != 0;
    }
  }

  /** Below 361 = 19 * 19, primes are the indivisible numbers. */
  lemma PrimeIff(n: nat)
    requires 2 <= n < 361
    ensures IsPrime(n) <==> Indivisible(n)
  {
    hide Indivisible;
    if IsPrime(n) {
      PrimeIsIndivisible(n);
    } else {
      var d :| 2 <= d < n && n % d == 0;
      CompositeIsDivisible(n, d);
    }
  }

  /** `p + d` is not an indivisible number below `q`. */
  predicate Skips(p: nat, q: nat, d: nat) {
    p + d >= q || !Indivisible(p + d)
  }

  /** `q` is the next indivisible number after `p`, at most 14 further on. */
  predicate Follows(p: nat, q: nat) {
    && 2 <= p < q < 361 && q <= p + 14 && Indivisible(q)
    && Skips(p, q, 1) && Skips(p, q, 2) && Skips(p, q, 3) && Skips(p, q, 4) && Skips(p, q, 5) && Skips(p, q, 6)
    && Skips(p, q, 7) && Skips(p, q, 8) && Skips(p, q, 9) && Skips(p, q, 10) && Skips(p, q, 11) && Skips(p, q, 12)
    && Skips(p, q, 13)
  }

  lemma NoneBetween(p: nat, q: nat, m: nat)
    requires Follows(p, q) && p < m < q
    ensures !Indivisible(m)
  {
    hide Indivisible;
    var d := m - p;
    assert 1 <= d <= 13 && Skips(p, q, d);
  }

  lemma {:induction false} CountToNext(p: nat, q: nat, n: nat)
    requires Follows(p, q) && Indivisible(p) && p < n <= q
    ensures PrimesBelow(n) == PrimesBelow(p) + 1
    decreases n
  {
    hide IsPrime, Indivisible, Skips;
    if n == p + 1 {
      PrimeIff(p);
    } else {
      CountToNext(p, q, n - 1);
      NoneBetween(p, q, n - 1);
      PrimeIff(n - 1);
    }
  }

  const P0: seq<nat> := [2, 3, 5, 7, 11, 13, 17, 19]
  const P1: seq<nat> := [23, 29, 31, 37, 41, 43, 47, 53]
  const P2: seq<nat> := [59, 61, 67, 71, 73, 79, 83, 89]
  const P3: seq<nat> := [97, 101, 103, 107, 109, 113, 127, 131]
  const P4: seq<nat> := [137, 139, 149, 151, 157, 163, 167, 173]
  const P5: seq<nat> := [179, 181, 191, 193, 197, 199, 211, 223]
  const P6: seq<nat> := [227, 229, 233, 239, 241, 251, 257, 263]
  const P7: seq<nat> := [269, 271, 277, 281, 283, 293, 307, 311]

  function PrimeRow(r: nat): (row: seq<nat>)
    ensures |row| == 8
  {
    if r == 0 then P0 else if r == 1 then P1 else if r == 2 then P2 else if r == 3 then P3
    else if r == 4 then P4 else if r == 5 then P5 else if r == 6 then P6 else P7
  }

  function PrimeAt(t: nat): nat
    requires t < 64
  {
    PrimeRow(t / 8)[t % 8]
  }

  /** From place `j` on, each entry of a row follows the one before it; `next` follows
      the last. */
  predicate RowFollows(row: seq<nat>, next: nat, j: nat)
    requires |row| == 8
    decreases 8 - j
  {
    j >= 8 || (Follows(row[j], if j == 7 then next else row[j + 1]) && RowFollows(row, next, j + 1))
  }

  lemma RowFollows0()
    ensures RowFollows(P0, 23, 0)
  {
  }

  lemma RowFollows1()
    ensures RowFollows(P1, 59, 0)
  {
  }

  lemma RowFollows2()
    ensures RowFollows(P2, 97, 0)
  {
  }

  lemma RowFollows3()
    ensures RowFollows(P3, 137, 0)
  {
  }

  lemma RowFollows4()
    ensures RowFollows(P4, 179, 0)
  {
  }

  lemma RowFollows5()
    ensures RowFollows(P5, 227, 0)
  {
  }

  lemma RowFollows6()
    ensures RowFollows(P6, 269, 0)
  {
  }

  lemma RowFollows7()
    ensures RowFollows(P7, 313, 0)
  {
  }

  lemma {:induction false} RowFollowsAt(row: seq<nat>, next: nat, i: nat, j: nat)
    requires |row| == 8 && i <= j < 8 && RowFollows(row, next, i)
    ensures Follows(row[j], if j == 7 then next else row[j + 1])
    decreases j - i
  {
    hide Follows;
    if i < j { RowFollowsAt(row, next, i + 1, j); }
  }

  /** The first entry of the next row, and the prime after the last row. */
  function NextRow(r: nat): nat
    requires r < 8
  {
    if r < 7 then PrimeRow(r + 1)[0] else 313
  }

  lemma RowsFollow(r: nat)
    requires r < 8
    ensures RowFollows(PrimeRow(r), NextRow(r), 0)
  {
    hide RowFollows;
    if r == 0 { RowFollows0(); } else if r == 1 { RowFollows1(); } else if r == 2 { RowFollows2(); }
    else if r == 3 { RowFollows3(); } else if r == 4 { RowFollows4(); } else if r == 5 { RowFollows5(); }
    else if r == 6 { RowFollows6(); } else { RowFollows7(); }
  }

  lemma TableFollows(t: nat)
    requires t < 63
    ensures Follows(PrimeAt(t), PrimeAt(t + 1))
  {
    hide Follows, RowFollows, PrimeRow;
    RowsFollow(t / 8);
    RowFollowsAt(PrimeRow(t / 8), NextRow(t / 8), 0, t % 8);
  }

  /** The table holds the first sixty-four primes, in order. */
  lemma {:induction false} TableIsPrimes(t: nat)
    requires t < 64
    ensures Indivisible(PrimeAt(t)) && PrimeAt(t) < 361
    ensures IsPrime(PrimeAt(t)) && PrimesBelow(PrimeAt(t)) == t
    decreases t
  {
    if t == 0 {
      assert PrimeAt(0) == 2 && IsPrime(2) && PrimesBelow(2) == 0;
    } else {
      hide PrimeAt, Indivisible, IsPrime, PrimesBelow, Skips;
      TableIsPrimes(t - 1);
      TableFollows(t - 1);
      CountToNext(PrimeAt(t - 1), PrimeAt(t), PrimeAt(t));
      PrimeIff(PrimeAt(t));
    }
  }

  // Cube roots

  /** `bits` are the first thirty-two bits of the fractional part of the cube root of
      `p`, whose integer part is `whole`. */
  predicate CubeRootBits(p: nat, whole: nat, bits: nat) {
    var c := whole * 0x1_0000_0000 + bits;
    bits < 0x1_0000_0000 && c * c * c <= p * 0x1_0000_0000_0000_0000_0000_0000 < (c + 1) * (c + 1) * (c + 1)
  }

  ghost predicate IsCubeFraction(p: nat, bits: nat) {
    exists whole: nat :: CubeRootBits(p, whole, bits)
  }

  /** The integer part of the cube root of a number below 343. */
  function CubeRoot(p: nat): nat {
    if p < 8 then 1 else if p < 27 then 2 else if p < 64 then 3 else if p < 125 then 4 else if p < 216 then 5 else 6
  }

  /** From place `j` on, the constants belong to the primes. */
  predicate RowIsCubeRoots(row: seq<nat>, constants: seq<Word>, j: nat)
    requires |row| == |constants| == 8
    decreases 8 - j
  {
    j >= 8
    || (CubeRootBits(row[j], CubeRoot(row[j]), constants[j] as nat) && RowIsCubeRoots(row, constants, j + 1))
  }

  lemma CubeRoots0()
    ensures RowIsCubeRoots(P0, K0, 0)
  {
  }

  lemma CubeRoots1()
    ensures RowIsCubeRoots(P1, K1, 0)
  {
  }

  lemma CubeRoots2()
    ensures RowIsCubeRoots(P2, K2, 0)
  {
  }

  lemma CubeRoots3()
    ensures RowIsCubeRoots(P3, K3, 0)
  {
  }

  lemma CubeRoots4()
    ensures RowIsCubeRoots(P4, K4, 0)
  {
  }

  lemma CubeRoots5()
    ensures RowIsCubeRoots(P5, K5, 0)
  {
  }

  lemma CubeRoots6()
    ensures RowIsCubeRoots(P6, K6, 0)
  {
  }

  lemma CubeRoots7()
    ensures RowIsCubeRoots(P7, K7, 0)
  {
  }

  lemma {:induction false} RowIsCubeRootsAt(row: seq<nat>, constants: seq<Word>, i: nat, j: nat)
    requires |row| == |constants| == 8 && i <= j < 8 && RowIsCubeRoots(row, constants, i)
    ensures IsCubeFraction(row[j], constants[j] as nat)
    decreases j - i
  {
    hide CubeRootBits, CubeRoot;
    if i < j { RowIsCubeRootsAt(row, constants, i + 1, j); }
  }

  lemma RowsAreCubeRoots(r: nat)
    requires r < 8
    ensures RowIsCubeRoots(PrimeRow(r), KRow(r), 0)
  {
    hide RowIsCubeRoots;
    if r == 0 { CubeRoots0(); } else if r == 1 { CubeRoots1(); } else if r == 2 { CubeRoots2(); }
    else if r == 3 { CubeRoots3(); } else if r == 4 { CubeRoots4(); } else if r == 5 { CubeRoots5(); }
    else if r == 6 { CubeRoots6(); } else { CubeRoots7(); }
  }

  /** Section 4.2.2 of FIPS 180-4: the constant of round `t` holds the first thirty-two
      bits of the fractional part of the cube root of the prime with `t` primes below
      it. */
  lemma ConstantsAreCubeRoots(t: nat)
    requires t < 64
    ensures IsPrime(PrimeAt(t)) && PrimesBelow(PrimeAt(t)) == t
    ensures IsCubeFraction(PrimeAt(t), KAt(t) as nat)
  {
    hide IsPrime, PrimesBelow, IsCubeFraction, Indivisible, RowIsCubeRoots, PrimeRow, KRow;
    TableIsPrimes(t);
    RowsAreCubeRoots(t / 8);
    RowIsCubeRootsAt(PrimeRow(t / 8), KRow(t / 8), 0, t % 8);
  }

  // Square roots

  predicate SquareRootBits(p: nat, whole: nat, bits: nat) {
    var c := whole * 0x1_0000_0000 + bits;
    bits < 0x1_0000_0000 && c * c <= p * 0x1_0000_0000_0000_0000 < (c + 1) * (c + 1)
  }

  ghost predicate IsSquareFraction(p: nat, bits: nat) {
    exists whole: nat :: SquareRootBits(p, whole, bits)
  }

  /** From place `j` on, the words belong to the first primes, whose square roots have
      the integer parts 1, 1, 2, 2, 3, 3, 4, 4. */
  predicate AreSquareRoots(row: seq<nat>, words: seq<Word>, j: nat)
    requires |row| == |words| == 8
    decreases 8 - j
  {
    j >= 8 || (SquareRootBits(row[j], 1 + j / 2, words[j] as nat) && AreSquareRoots(row, words, j + 1))
  }

  lemma InitialRoots()
    ensures AreSquareRoots(P0, INITIAL, 0)
  {
  }

  lemma {:induction false} SquareRootAt(row: seq<nat>, words: seq<Word>, i: nat, j: nat)
    requires |row| == |words| == 8 && i <= j < 8 && AreSquareRoots(row, words, i)
    ensures IsSquareFraction(row[j], words[j] as nat)
    decreases j - i
  {
    hide SquareRootBits;
    if i < j { SquareRootAt(row, words, i + 1, j); }
  }

  /** Section 5.3.3: word `t` of the initial hash value holds the first thirty-two bits
      of the fractional part of the square root of the prime with `t` primes below it. */
  lemma InitialValueIsSquareRoots(t: nat)
    requires t < 8
    ensures IsPrime(PrimeAt(t)) && PrimesBelow(PrimeAt(t)) == t
    ensures IsSquareFraction(PrimeAt(t), INITIAL[t] as nat)
  {
    hide IsPrime, PrimesBelow, IsSquareFraction, Indivisible, AreSquareRoots;
    TableIsPrimes(t);
    InitialRoots();
    SquareRootAt(P0, INITIAL, 0, t);
  }
}
