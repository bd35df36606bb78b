// Where the constants of SHA-256 come from (sections 4.2.2 and 5.3.2 of FIPS 180-2): the first 32 bits of
// the fractional parts of cube roots and square roots of the first primes.
module Sha256Constants {
  import opened Machine
  import opened Sha256Spec

  predicate Divides(d: nat, n: nat)
    requires d > 0
  {
    n % d == 0
  }

  predicate IsPrime(p: nat) {
    p >= 2 && forall d | 2 <= d < p :: !Divides(d, p)
  }

  function PrimesBelow(n: nat): nat {
    if n == 0 then 0 else PrimesBelow(n - 1) + if IsPrime(n - 1) then 1 else 0
  }

  // The t-th prime, from 0.
  predicate Nth(t: nat, p: nat) {
    IsPrime(p) && PrimesBelow(p) == t
  }

  predicate IsSquareRoot(x: int, n: nat) {
    x * x <= n < (x + 1) * (x + 1)
  }

  predicate IsCubeRoot(x: int, n: nat) {
    x * x * x <= n < (x + 1) * (x + 1) * (x + 1)
  }

  function Number(w: bv32): int {
    w as int
  }

  // The constant of round t is made of the first 32 bits behind the point of the cube root of the t-th
  // prime.
  lemma RoundConstants(t: nat, p: nat)
    requires t < 64 && Nth(t, p)
    ensures exists q: nat :: IsCubeRoot(q * TWO32 + Number(K(t)), p * TWO32 * TWO32 * TWO32)
  {
    hide Nth, IsCubeRoot, K, Number;
    match t / 4
    case 0 => Cubes0(t, p);
    case 1 => Cubes1(t, p);
    case 2 => Cubes2(t, p);
    case 3 => Cubes3(t, p);
    case 4 => Cubes4(t, p);
    case 5 => Cubes5(t, p);
    case 6 => Cubes6(t, p);
    case 7 => Cubes7(t, p);
    case 8 => Cubes8(t, p);
    case 9 => Cubes9(t, p);
    case 10 => Cubes10(t, p);
    case 11 => Cubes11(t, p);
    case 12 => Cubes12(t, p);
    case 13 => Cubes13(t, p);
    case 14 => Cubes14(t, p);
    case _ => Cubes15(t, p);
  }

  // The initial hash value is made in the same way from square roots.
  lemma InitialValue(t: nat, p: nat)
    requires t < 8 && Nth(t, p)
    ensures exists q: nat :: IsSquareRoot(q * TWO32 + Number(InitialWord(t)), p * TWO32 * TWO32)
  {
    hide Nth;
    Primes0();
    Primes1();
    if t == 0 { Square(0, p, 2, 1, 0x6a09e667); }
    else if t == 1 { Square(1, p, 3, 1, 0xbb67ae85); }
    else if t == 2 { Square(2, p, 5, 2, 0x3c6ef372); }
    else if t == 3 { Square(3, p, 7, 2, 0xa54ff53a); }
    else if t == 4 { Square(4, p, 11, 3, 0x510e527f); }
    else if t == 5 { Square(5, p, 13, 3, 0x9b05688c); }
    else if t == 6 { Square(6, p, 17, 4, 0x1f83d9ab); }
    else { Square(7, p, 19, 4, 0x5be0cd19); }
  }

  function InitialWord(t: nat): bv32
    requires t < 8
  {
    [INITIAL.a, INITIAL.b, INITIAL.c, INITIAL.d, INITIAL.e, INITIAL.f, INITIAL.g, INITIAL.h][t]
  }

  // There is a t-th prime for every round.
  lemma EnoughPrimes(t: nat) returns (p: nat)
    requires t < 64
    ensures Nth(t, p)
  {
    hide Nth;
    Primes15();
    p := Before(t, 63, 311);
  }

  lemma {:induction false} Before(t: nat, s: nat, q: nat) returns (p: nat)
    requires t <= s && Nth(s, q)
    ensures Nth(t, p)
  {
    hide IsPrime;
    p := q;
    if t < s {
      var m := Largest(q);
      p := Before(t, s - 1, m);
    }
  }

  // The largest prime below a number.
  lemma {:induction false} Largest(n: nat) returns (p: nat)
    requires PrimesBelow(n) > 0
    ensures p < n && Nth(PrimesBelow(n) - 1, p)
  {
    hide IsPrime;
    if IsPrime(n - 1) { p := n - 1; } else { p := Largest(n - 1); }
  }

  //// The first primes

  // Trial division by the primes below 19.
  predicate Sieved(n: nat) {
    || n == 2 || n == 3 || n == 5 || n == 7 || n == 11 || n == 13 || n == 17
    || (n >= 2 && n % 2 != 0 && n % 3 != 0 && n % 5 != 0 && n % 7 != 0 && n % 11 != 0 && n % 13 != 0 && n % 17 != 0)
  }

  lemma SievedIsPrime(n: nat)
    requires n < 361
    ensures Sieved(n) <==> IsPrime(n)
  {
    forall d | 2 <= d < n ensures Divides(d, n) ==> !Sieved(n) { NoDivisor(n, d); }
    if n >= 2 { Composite(n); }
  }

  lemma Composite(n: nat)
    requires n >= 2
    ensures !Sieved(n) ==> exists d :: 2 <= d < n && Divides(d, n)
  {
    assert !Sieved(n) ==>
      || Divides(2, n) || Divides(3, n) || Divides(5, n) || Divides(7, n)
      || Divides(11, n) || Divides(13, n) || Divides(17, n);
  }

  lemma NoDivisor(n: nat, d: nat)
    requires n < 361 && 2 <= d < n
    ensures Divides(d, n) ==> !Sieved(n)
  {
    if Divides(d, n) {
      var e := n / d;
      assert n == d * e;
      Cofactor(d, e);
      if d < 19 { Factor(d, e); } else { Factor(e, d); }
    }
  }

  lemma Cofactor(d: nat, e: nat)
    requires 2 <= d < d * e < 361
    ensures e >= 2 && (d < 19 || e < 19)
  {
    assert e < 2 ==> d * e <= d;
    assert d >= 19 && e >= 19 ==> (d - 19) * (e - 19) >= 0;
    assert d * e == (d - 19) * (e - 19) + 19 * d + 19 * e - 361;
  }

  // A sieved number has no small factor.
  lemma Factor(d: nat, e: nat)
    requires 2 <= d < 19 && 2 <= e
    ensures !Sieved(d * e) && !Sieved(e * d)
  {
    if d % 2 == 0 { Multiple(2, d / 2, e); }
    else if d % 3 == 0 { Multiple(3, d / 3, e); }
    else if d % 5 == 0 { Multiple(5, d / 5, e); }
    else if d == 7 { Multiple(7, 1, e); }
    else if d == 11 { Multiple(11, 1, e); }
    else if d == 13 { Multiple(13, 1, e); }
    else { Multiple(17, 1, e); }
    assert d * e == e * d;
  }

  lemma Multiple(q: nat, d: nat, e: nat)
    requires q >= 2 && d >= 1 && e >= 2
    ensures (q * d) * e % q == 0 && (q * d) * e >= 2 * q
  {
    var n := (q * d) * e;
    assert n == q * (d * e);
    RemainderUnique(n, q, d * e, 0);
    MulAtLeast(e, d);
    assert e * d == d * e;
    assert q * (d * e) == 2 * q + q * (d * e - 2);
  }

  lemma {:induction false} PrimesBelowMonotone(m: nat, n: nat)
    requires m <= n
    ensures PrimesBelow(m) <= PrimesBelow(n)
  {
    hide IsPrime;
    if m < n { PrimesBelowMonotone(m, n - 1); }
  }

  lemma {:induction false} NoneBetween(m: nat, n: nat)
    requires m <= n && forall i | m <= i < n :: !IsPrime(i)
    ensures PrimesBelow(n) == PrimesBelow(m)
  {
    hide IsPrime;
    if m < n { NoneBetween(m, n - 1); }
  }

  lemma NthUnique(t: nat, p: nat, q: nat)
    requires Nth(t, p) && Nth(t, q)
    ensures p == q
  {
    hide IsPrime;
    PrimesBelowMonotone(if p < q then p + 1 else q, q);
    PrimesBelowMonotone(if q < p then q + 1 else p, p);
  }

  // From one prime to the next.
  lemma Next(t: nat, p: nat, q: nat)
    requires Nth(t, p) && p >= 2 && p < q < 361 && Sieved(q)
    requires forall n | p < n < q && n % 2 == 1 :: !Sieved(n)
    ensures Nth(t + 1, q)
  {
    hide IsPrime, Sieved;
    SievedIsPrime(q);
    forall n | p < n < q ensures !IsPrime(n) {
      EvenNotSieved(n);
      SievedIsPrime(n);
    }
    NoneBetween(p + 1, q);
  }

  lemma EvenNotSieved(n: nat)
    ensures n > 2 && n % 2 == 0 ==> !Sieved(n)
  {}

  lemma First()
    ensures Nth(0, 2)
  {
    assert PrimesBelow(0) == 0 && PrimesBelow(1) == 0;
  }

  lemma Primes0()
    ensures Nth(0, 2) && Nth(1, 3) && Nth(2, 5) && Nth(3, 7)
  {
    hide Nth;
    First();
    Next(0, 2, 3);
    Next(1, 3, 5);
    Next(2, 5, 7);
  }

  lemma Primes1()
    ensures Nth(4, 11) && Nth(5, 13) && Nth(6, 17) && Nth(7, 19)
  {
    hide Nth;
    Primes0();
    Next(3, 7, 11);
    Next(4, 11, 13);
    Next(5, 13, 17);
    Next(6, 17, 19);
  }

  lemma Primes2()
    ensures Nth(8, 23) && Nth(9, 29) && Nth(10, 31) && Nth(11, 37)
  {
    hide Nth;
    Primes1();
    Next(7, 19, 23);
    Next(8, 23, 29);
    Next(9, 29, 31);
    Next(10, 31, 37);
  }

  lemma Primes3()
    ensures Nth(12, 41) && Nth(13, 43) && Nth(14, 47) && Nth(15, 53)
  {
    hide Nth;
    Primes2();
    Next(11, 37, 41);
    Next(12, 41, 43);
    Next(13, 43, 47);
    Next(14, 47, 53);
  }

  lemma Primes4()
    ensures Nth(16, 59) && Nth(17, 61) && Nth(18, 67) && Nth(19, 71)
  {
    hide Nth;
    Primes3();
    Next(15, 53, 59);
    Next(16, 59, 61);
    Next(17, 61, 67);
    Next(18, 67, 71);
  }

  lemma Primes5()
    ensures Nth(20, 73) && Nth(21, 79) && Nth(22, 83) && Nth(23, 89)
  {
    hide Nth;
    Primes4();
    Next(19, 71, 73);
    Next(20, 73, 79);
    Next(21, 79, 83);
    Next(22, 83, 89);
  }

  lemma Primes6()
    ensures Nth(24, 97) && Nth(25, 101) && Nth(26, 103) && Nth(27, 107)
  {
    hide Nth;
    Primes5();
    Next(23, 89, 97);
    Next(24, 97, 101);
    Next(25, 101, 103);
    Next(26, 103, 107);
  }

  lemma Primes7()
    ensures Nth(28, 109) && Nth(29, 113) && Nth(30, 127) && Nth(31, 131)
  {
    hide Nth;
    Primes6();
    Next(27, 107, 109);
    Next(28, 109, 113);
    Next(29, 113, 127);
    Next(30, 127, 131);
  }

  lemma Primes8()
    ensures Nth(32, 137) && Nth(33, 139) && Nth(34, 149) && Nth(35, 151)
  {
    hide Nth;
    Primes7();
    Next(31, 131, 137);
    Next(32, 137, 139);
    Next(33, 139, 149);
    Next(34, 149, 151);
  }

  lemma Primes9()
    ensures Nth(36, 157) && Nth(37, 163) && Nth(38, 167) && Nth(39, 173)
  {
    hide Nth;
    Primes8();
    Next(35, 151, 157);
    Next(36, 157, 163);
    Next(37, 163, 167);
    Next(38, 167, 173);
  }

  lemma Primes10()
    ensures Nth(40, 179) && Nth(41, 181) && Nth(42, 191) && Nth(43, 193)
  {
    hide Nth;
    Primes9();
    Next(39, 173, 179);
    Next(40, 179, 181);
    Next(41, 181, 191);
    Next(42, 191, 193);
  }

  lemma Primes11()
    ensures Nth(44, 197) && Nth(45, 199) && Nth(46, 211) && Nth(47, 223)
  {
    hide Nth;
    Primes10();
    Next(43, 193, 197);
    Next(44, 197, 199);
    Next(45, 199, 211);
    Next(46, 211, 223);
  }

  lemma Primes12()
    ensures Nth(48, 227) && Nth(49, 229) && Nth(50, 233) && Nth(51, 239)
  {
    hide Nth;
    Primes11();
    Next(47, 223, 227);
    Next(48, 227, 229);
    Next(49, 229, 233);
    Next(50, 233, 239);
  }

  lemma Primes13()
    ensures Nth(52, 241) && Nth(53, 251) && Nth(54, 257) && Nth(55, 263)
  {
    hide Nth;
    Primes12();
    Next(51, 239, 241);
    Next(52, 241, 251);
    Next(53, 251, 257);
    Next(54, 257, 263);
  }

  lemma Primes14()
    ensures Nth(56, 269) && Nth(57, 271) && Nth(58, 277) && Nth(59, 281)
  {
    hide Nth;
    Primes13();
    Next(55, 263, 269);
    Next(56, 269, 271);
    Next(57, 271, 277);
    Next(58, 277, 281);
  }

  lemma Primes15()
    ensures Nth(60, 283) && Nth(61, 293) && Nth(62, 307) && Nth(63, 311)
  {
    hide Nth;
    Primes14();
    Next(59, 281, 283);
    Next(60, 283, 293);
    Next(61, 293, 307);
    Next(62, 307, 311);
  }

  //// Their roots

  // q is the integer part of the root.
  predicate FromCubeRoot(t: nat, p: nat, q: nat)
    requires t < 64
  {
    IsCubeRoot(q * TWO32 + Number(K(t)), p * TWO32 * TWO32 * TWO32)
  }

  ghost predicate CubeLaw(t: nat, p: nat)
    requires t < 64
  {
    exists q: nat :: IsCubeRoot(q * TWO32 + Number(K(t)), p * TWO32 * TWO32 * TWO32)
  }

  lemma Square(t: nat, p: nat, n: nat, q: nat, w: int)
    requires t < 8 && Nth(t, p) && Nth(t, n) && Number(InitialWord(t)) == w
    requires IsSquareRoot(q * TWO32 + w, n * TWO32 * TWO32)
    ensures exists q: nat :: IsSquareRoot(q * TWO32 + Number(InitialWord(t)), p * TWO32 * TWO32)
  {
    hide IsSquareRoot;
    NthUnique(t, p, n);
  }

  lemma Cubes0(t: nat, p: nat)
    requires 0 <= t < 4 && Nth(t, p)
    ensures CubeLaw(t, p)
  {
    hide Nth;
    Primes0();
    if t == 0 { NthUnique(0, p, 2); assert FromCubeRoot(0, 2, 1); }
    else if t == 1 { NthUnique(1, p, 3); assert FromCubeRoot(1, 3, 1); }
    else if t == 2 { NthUnique(2, p, 5); assert FromCubeRoot(2, 5, 1); }
    else { NthUnique(3, p, 7); assert FromCubeRoot(3, 7, 1); }
  }

  lemma Cubes1(t: nat, p: nat)
    requires 4 <= t < 8 && Nth(t, p)
    ensures CubeLaw(t, p)
  {
    hide Nth;
    Primes1();
    if t == 4 { NthUnique(4, p, 11); assert FromCubeRoot(4, 11, 2); }
    else if t == 5 { NthUnique(5, p, 13); assert FromCubeRoot(5, 13, 2); }
    else if t == 6 { NthUnique(6, p, 17); assert FromCubeRoot(6, 17, 2); }
    else { NthUnique(7, p, 19); assert FromCubeRoot(7, 19, 2); }
  }

  lemma Cubes2(t: nat, p: nat)
    requires 8 <= t < 12 && Nth(t, p)
    ensures CubeLaw(t, p)
  {
    hide Nth;
    Primes2();
    if t == 8 { NthUnique(8, p, 23); assert FromCubeRoot(8, 23, 2); }
    else if t == 9 { NthUnique(9, p, 29); assert FromCubeRoot(9, 29, 3); }
    else if t == 10 { NthUnique(10, p, 31); assert FromCubeRoot(10, 31, 3); }
    else { NthUnique(11, p, 37); assert FromCubeRoot(11, 37, 3); }
  }

  lemma Cubes3(t: nat, p: nat)
    requires 12 <= t < 16 && Nth(t, p)
    ensures CubeLaw(t, p)
  {
    hide Nth;
    Primes3();
    if t == 12 { NthUnique(12, p, 41); assert FromCubeRoot(12, 41, 3); }
    else if t == 13 { NthUnique(13, p, 43); assert FromCubeRoot(13, 43, 3); }
    else if t == 14 { NthUnique(14, p, 47); assert FromCubeRoot(14, 47, 3); }
    else { NthUnique(15, p, 53); assert FromCubeRoot(15, 53, 3); }
  }

  lemma Cubes4(t: nat, p: nat)
    requires 16 <= t < 20 && Nth(t, p)
    ensures CubeLaw(t, p)
  {
    hide Nth;
    Primes4();
    if t == 16 { NthUnique(16, p, 59); assert FromCubeRoot(16, 59, 3); }
    else if t == 17 { NthUnique(17, p, 61); assert FromCubeRoot(17, 61, 3); }
    else if t == 18 { NthUnique(18, p, 67); assert FromCubeRoot(18, 67, 4); }
    else { NthUnique(19, p, 71); assert FromCubeRoot(19, 71, 4); }
  }

  lemma Cubes5(t: nat, p: nat)
    requires 20 <= t < 24 && Nth(t, p)
    ensures CubeLaw(t, p)
  {
    hide Nth;
    Primes5();
    if t == 20 { NthUnique(20, p, 73); assert FromCubeRoot(20, 73, 4); }
    else if t == 21 { NthUnique(21, p, 79); assert FromCubeRoot(21, 79, 4); }
    else if t == 22 { NthUnique(22, p, 83); assert FromCubeRoot(22, 83, 4); }
    else { NthUnique(23, p, 89); assert FromCubeRoot(23, 89, 4); }
  }

  lemma Cubes6(t: nat, p: nat)
    requires 24 <= t < 28 && Nth(t, p)
    ensures CubeLaw(t, p)
  {
    hide Nth;
    Primes6();
    if t == 24 { NthUnique(24, p, 97); assert FromCubeRoot(24, 97, 4); }
    else if t == 25 { NthUnique(25, p, 101); assert FromCubeRoot(25, 101, 4); }
    else if t == 26 { NthUnique(26, p, 103); assert FromCubeRoot(26, 103, 4); }
    else { NthUnique(27, p, 107); assert FromCubeRoot(27, 107, 4); }
  }

  lemma Cubes7(t: nat, p: nat)
    requires 28 <= t < 32 && Nth(t, p)
    ensures CubeLaw(t, p)
  {
    hide Nth;
    Primes7();
    if t == 28 { NthUnique(28, p, 109); assert FromCubeRoot(28, 109, 4); }
    else if t == 29 { NthUnique(29, p, 113); assert FromCubeRoot(29, 113, 4); }
    else if t == 30 { NthUnique(30, p, 127); assert FromCubeRoot(30, 127, 5); }
    else { NthUnique(31, p, 131); assert FromCubeRoot(31, 131, 5); }
  }

  lemma Cubes8(t: nat, p: nat)
    requires 32 <= t < 36 && Nth(t, p)
    ensures CubeLaw(t, p)
  {
    hide Nth;
    Primes8();
    if t == 32 { NthUnique(32, p, 137); assert FromCubeRoot(32, 137, 5); }
    else if t == 33 { NthUnique(33, p, 139); assert FromCubeRoot(33, 139, 5); }
    else if t == 34 { NthUnique(34, p, 149); assert FromCubeRoot(34, 149, 5); }
    else { NthUnique(35, p, 151); assert FromCubeRoot(35, 151, 5); }
  }

  lemma Cubes9(t: nat, p: nat)
    requires 36 <= t < 40 && Nth(t, p)
    ensures CubeLaw(t, p)
  {
    hide Nth;
    Primes9();
    if t == 36 { NthUnique(36, p, 157); assert FromCubeRoot(36, 157, 5); }
    else if t == 37 { NthUnique(37, p, 163); assert FromCubeRoot(37, 163, 5); }
    else if t == 38 { NthUnique(38, p, 167); assert FromCubeRoot(38, 167, 5); }
    else { NthUnique(39, p, 173); assert FromCubeRoot(39, 173, 5); }
  }

  lemma Cubes10(t: nat, p: nat)
    requires 40 <= t < 44 && Nth(t, p)
    ensures CubeLaw(t, p)
  {
    hide Nth;
    Primes10();
    if t == 40 { NthUnique(40, p, 179); assert FromCubeRoot(40, 179, 5); }
    else if t == 41 { NthUnique(41, p, 181); assert FromCubeRoot(41, 181, 5); }
    else if t == 42 { NthUnique(42, p, 191); assert FromCubeRoot(42, 191, 5); }
    else { NthUnique(43, p, 193); assert FromCubeRoot(43, 193, 5); }
  }

  lemma Cubes11(t: nat, p: nat)
    requires 44 <= t < 48 && Nth(t, p)
    ensures CubeLaw(t, p)
  {
    hide Nth;
    Primes11();
    if t == 44 { NthUnique(44, p, 197); assert FromCubeRoot(44, 197, 5); }
    else if t == 45 { NthUnique(45, p, 199); assert FromCubeRoot(45, 199, 5); }
    else if t == 46 { NthUnique(46, p, 211); assert FromCubeRoot(46, 211, 5); }
    else { NthUnique(47, p, 223); assert FromCubeRoot(47, 223, 6); }
  }

  lemma Cubes12(t: nat, p: nat)
    requires 48 <= t < 52 && Nth(t, p)
    ensures CubeLaw(t, p)
  {
    hide Nth;
    Primes12();
    if t == 48 { NthUnique(48, p, 227); assert FromCubeRoot(48, 227, 6); }
    else if t == 49 { NthUnique(49, p, 229); assert FromCubeRoot(49, 229, 6); }
    else if t == 50 { NthUnique(50, p, 233); assert FromCubeRoot(50, 233, 6); }
    else { NthUnique(51, p, 239); assert FromCubeRoot(51, 239, 6); }
  }

  lemma Cubes13(t: nat, p: nat)
    requires 52 <= t < 56 && Nth(t, p)
    ensures CubeLaw(t, p)
  {
    hide Nth;
    Primes13();
    if t == 52 { NthUnique(52, p, 241); assert FromCubeRoot(52, 241, 6); }
    else if t == 53 { NthUnique(53, p, 251); assert FromCubeRoot(53, 251, 6); }
    else if t == 54 { NthUnique(54, p, 257); assert FromCubeRoot(54, 257, 6); }
    else { NthUnique(55, p, 263); assert FromCubeRoot(55, 263, 6); }
  }

  lemma Cubes14(t: nat, p: nat)
    requires 56 <= t < 60 && Nth(t, p)
    ensures CubeLaw(t, p)
  {
    hide Nth;
    Primes14();
    if t == 56 { NthUnique(56, p, 269); assert FromCubeRoot(56, 269, 6); }
    else if t == 57 { NthUnique(57, p, 271); assert FromCubeRoot(57, 271, 6); }
    else if t == 58 { NthUnique(58, p, 277); assert FromCubeRoot(58, 277, 6); }
    else { NthUnique(59, p, 281); assert FromCubeRoot(59, 281, 6); }
  }

  lemma Cubes15(t: nat, p: nat)
    requires 60 <= t < 64 && Nth(t, p)
    ensures CubeLaw(t, p)
  {
    hide Nth;
    Primes15();
    if t == 60 { NthUnique(60, p, 283); assert FromCubeRoot(60, 283, 6); }
    else if t == 61 { NthUnique(61, p, 293); assert FromCubeRoot(61, 293, 6); }
    else if t == 62 { NthUnique(62, p, 307); assert FromCubeRoot(62, 307, 6); }
    else { NthUnique(63, p, 311); assert FromCubeRoot(63, 311, 6); }
  }
}
