// The 128-bit arithmetic of src/common/num.c over pairs of 64-bit words. A word is an integer below
// 2^64; where the source wraps around, the remainder modulo 2^64 is written out.
module Num {
  import opened Machine

  type Word = x: int | 0 <= x < TWO64

  // num_t.
  datatype Num = Num(hi: Word, lo: Word) {
    function Value(): (v: nat)
      ensures v < TWO128
    {
      hi * TWO64 + lo
    }
  }

  function Ii(hi: Word, lo: Word): Num {
    Num(hi, lo)
  }

  function I(x: Word): Num {
    Num(0, x)
  }

  function OfValue(v: nat): (n: Num)
    requires v < TWO128
    ensures n.Value() == v
  {
    Num(v / TWO64, v % TWO64)
  }

  lemma ValueInjective(a: Num, b: Num)
    requires a.Value() == b.Value()
    ensures a == b
  {}

  // One 64-bit addition or subtraction.
  function Wrap(x: int): (w: Word)
    requires 0 <= x + TWO64 && x < 2 * TWO64
    ensures x < 0 ==> w == x + TWO64
    ensures 0 <= x < TWO64 ==> w == x
    ensures TWO64 <= x ==> w == x - TWO64
  {
    x % TWO64
  }

  // x <<= 1.
  function Twice(x: Word): (w: Word)
    ensures x < TWO63 ==> w == 2 * x
    ensures x >= TWO63 ==> w == 2 * x - TWO64
    ensures w % 2 == 0
  {
    x * 2 % TWO64
  }

  //// Shifts and comparisons; the two halves of each word that the source joins with | are disjoint

  function LShift(a: Num): (r: Num)
    ensures r.Value() == if a.Value() < TWO128 / 2 then 2 * a.Value() else 2 * a.Value() - TWO128
  {
    Num(Twice(a.hi) + a.lo / TWO63, Twice(a.lo))
  }

  function RShift(a: Num): (r: Num)
    ensures r.Value() == a.Value() / 2
  {
    Num(a.hi / 2, a.lo / 2 + a.hi % 2 * TWO63)
  }

  function CmpI(a: Num, b: Word): (c: int)
    ensures c == (if a.Value() > b then 1 else if a.Value() == b then 0 else -1)
  {
    if a.hi != 0 || a.lo > b then 1 else if a.lo == b then 0 else -1
  }

  function Cmp(a: Num, b: Num): (c: int)
    ensures c == (if a.Value() > b.Value() then 1 else if a.Value() == b.Value() then 0 else -1)
  {
    if a.hi > b.hi then 1
    else if a.hi < b.hi then -1
    else if a.lo > b.lo then 1
    else if a.lo < b.lo then -1
    else 0
  }

  //// Conjunction

  // The bitwise and of two naturals.
  function BitAnd(x: nat, y: nat): (z: nat)
    ensures z <= x && z <= y
  {
    if x == 0 || y == 0 then 0 else 2 * BitAnd(x / 2, y / 2) + (if x % 2 == 1 && y % 2 == 1 then 1 else 0)
  }

  function And(a: Num, b: Num): Num {
    Num(BitAnd(a.hi, b.hi), BitAnd(a.lo, b.lo))
  }

  lemma AndStep(x: nat, y: nat)
    ensures BitAnd(x, y)
         == if x == 0 || y == 0 then 0 else 2 * BitAnd(x / 2, y / 2) + (if x % 2 == 1 && y % 2 == 1 then 1 else 0)
  {}

  // A mask of n low bits takes the remainder modulo 2^n.
  lemma {:induction false} AndLowMask(x: nat, n: nat)
    ensures Pow(2, n) > 0 && BitAnd(x, Pow(2, n) - 1) == Rem(x, Pow(2, n))
  {
    hide Pow, BitAnd, Rem;
    PowPositive(2, n);
    PowStep(2, n);
    if n == 0 {
      AndStep(x, 0);
    } else {
      AndLowMask(x / 2, n - 1);
      LowMaskStep(x, Pow(2, n - 1), Pow(2, n));
    }
  }

  lemma LowMaskStep(x: nat, p: nat, p2: nat)
    requires 1 <= p && p2 == 2 * p && BitAnd(x / 2, p - 1) == Rem(x / 2, p)
    ensures BitAnd(x, p2 - 1) == Rem(x, p2)
  {
    hide BitAnd, Rem;
    HalvesOfRemainder(x, p, p2);
    AndStep(x, p2 - 1);
    AndStep(0, p - 1);
  }

  lemma HalvesOfRemainder(x: nat, p: nat, p2: nat)
    requires p >= 1 && p2 == 2 * p
    ensures Rem(x, p2) == 2 * Rem(x / 2, p) + x % 2
  {
    hide Quot, Rem;
    RemSplit(x, 2, p);
    QuotRem(x, 2);
  }

  // A mask that clears the n low bits among m + n keeps the rest.
  lemma {:induction false} AndHighMask(x: nat, m: nat, n: nat)
    requires x < Pow(2, m + n)
    ensures 0 < Pow(2, n) <= Pow(2, m + n) && BitAnd(x, Pow(2, m + n) - Pow(2, n)) == x - Rem(x, Pow(2, n))
  {
    hide Pow, BitAnd, Rem;
    PowPositive(2, n);
    PowMonotone(2, n, m + n);
    PowStep(2, n);
    if n == 0 {
      AndLowMask(x, m);
      BelowItself(x, Pow(2, m));
    } else {
      PowStep(2, m + n);
      HalfBelow(x, Pow(2, m + n - 1));
      AndHighMask(x / 2, m, n - 1);
      HighMaskStep(x, Pow(2, n - 1), Pow(2, m + n - 1), Pow(2, n), Pow(2, m + n));
    }
  }

  lemma HighMaskStep(x: nat, p: nat, q: nat, p2: nat, q2: nat)
    requires 1 <= p <= q && p2 == 2 * p && q2 == 2 * q && BitAnd(x / 2, q - p) == x / 2 - Rem(x / 2, p)
    ensures BitAnd(x, q2 - p2) == x - Rem(x, p2)
  {
    hide BitAnd, Rem;
    HalvesOfRemainder(x, p, p2);
    AndStep(x, q2 - p2);
    AndStep(0, q - p);
    AndStep(x / 2, 0);
  }

  lemma HalfBelow(x: nat, q: nat)
    requires x < 2 * q
    ensures x / 2 < q
  {}

  lemma BelowItself(x: nat, p: nat)
    requires p > 0
    ensures x < p ==> Rem(x, p) == x
  {}

  lemma Powers()
    ensures Pow(2, 32) == TWO32 && Pow(2, 64) == TWO64 && Pow(2, 128) == TWO128
  {
    assert Pow(2, 8) == 0x100;
    assert Pow(2, 16) == 0x1_0000;
    assert Pow(2, 24) == 0x100_0000;
    assert Pow(2, 32) == 0x1_0000_0000;
    PowAdd(2, 32, 32);
    PowAdd(2, 64, 64);
  }

  // The masks of state_init: the salt in the upper 96 bits, the passcode number in the lower 32.
  const CODE_MASK := Num(0, 0xFFFF_FFFF)
  const SALT_MASK := Num(0xFFFF_FFFF_FFFF_FFFF, 0xFFFF_FFFF_0000_0000)

  lemma MaskCode(a: Num)
    ensures And(a, CODE_MASK).Value() == a.Value() % TWO32
  {
    hide Pow, BitAnd;
    Powers();
    AndLowMask(a.lo, 32);
    AndLowMask(a.hi, 0);
    PowStep(2, 0);
    LowWordDecides(a);
  }

  lemma MaskSalt(a: Num)
    ensures And(a, SALT_MASK).Value() == a.Value() - a.Value() % TWO32
  {
    hide Pow, BitAnd;
    Powers();
    AndHighMask(a.lo, 32, 32);
    AndLowMask(a.hi, 64);
    BelowItself(a.hi, TWO64);
    LowWordDecides(a);
  }

  lemma LowWordDecides(a: Num)
    ensures a.Value() % TWO32 == a.lo % TWO32
  {
    assert a.Value() == TWO32 * (a.hi * TWO32 + a.lo / TWO32) + a.lo % TWO32;
  }

  //// Arithmetic with the static overflow flag

  class Arithmetic {
    var overflow: bool

    constructor ()
      ensures !overflow
    {
      overflow := false;
    }

    method ClearOverflow()
      modifies this
      ensures !overflow
    {
      overflow := false;
    }

    // The flag is raised exactly on true overflow.
    method Add(a: Num, b: Num) returns (r: Num)
      modifies this
      ensures r.Value()
           == if a.Value() + b.Value() < TWO128 then a.Value() + b.Value() else a.Value() + b.Value() - TWO128
      ensures overflow == (old(overflow) || a.Value() + b.Value() >= TWO128)
    {
      hide Wrap;
      var lo, hi := Wrap(a.lo + b.lo), Wrap(a.hi + b.hi);
      if hi < a.hi { overflow := true; }
      if lo < a.lo {
        hi := Wrap(hi + 1);
        if hi < 1 { overflow := true; }
      }
      r := Num(hi, lo);
    }

    // The flag is raised exactly on true borrow.
    method Sub(a: Num, b: Num) returns (r: Num)
      modifies this
      ensures r.Value() == if a.Value() >= b.Value() then a.Value() - b.Value() else a.Value() - b.Value() + TWO128
      ensures overflow == (old(overflow) || a.Value() < b.Value())
    {
      hide Wrap;
      var lo, hi := Wrap(a.lo - b.lo), Wrap(a.hi - b.hi);
      if hi > a.hi { overflow := true; }
      if lo > a.lo {
        var tmp := Wrap(hi - 1);
        if tmp > hi { overflow := true; }
        hi := tmp;
      }
      r := Num(hi, lo);
    }

    // Binary multiplication; the flag is raised exactly when the true product needs more than 128 bits.
    method MulI(arg1: Num, arg2: Word) returns (reply: Num)
      modifies this
      ensures reply.Value() == Mod128(arg1.Value() * arg2)
      ensures overflow == (old(overflow) || arg1.Value() * arg2 >= TWO128)
    {
      hide Pow, Mod128, Num.Value, Times;
      ghost var all := Times(arg1.Value(), arg2);
      var a, r := arg1, I(arg2);
      var canOverflow := false;
      reply := I(0);
      ghost var product: nat, weight: nat := 0, arg2;
      StartMul(arg1, arg2);
      var i := 0;
      while i < 128
        invariant 0 <= i <= 128 && a.Value() < Pow(2, 128 - i)
        invariant product + Times(a.Value(), weight) == all
        invariant reply.Value() == Mod128(product) && r.Value() == Mod128(weight)
        invariant canOverflow == (weight >= TWO128)
        invariant overflow == (old(overflow) || product >= TWO128)
      {
        MulStep(a.Value(), product, weight);
        Halve(a.Value(), 128 - i);
        Bits(a);
        if a.lo % 2 == 1 {
          SumModulo(product, weight);
          if canOverflow { overflow := true; }
          reply := Add(reply, r);
          product := product + weight;
        }
        a := RShift(a);
        DoubleModulo(weight);
        Bits(r);
        if r.hi >= TWO63 { canOverflow := true; }
        r := LShift(r);
        weight := 2 * weight;
        i := i + 1;
      }
      NoBitsLeft(a.Value(), weight);
      TimesIs(arg1.Value(), arg2);
    }
  }

  //// Division

  // What one subtraction takes away: the shifted remainder has 65 bits, of which a divisor of zero
  // drops the first.
  function Taken(divby: Word): (d: nat)
    ensures d > 0 && divby <= d <= TWO64
  {
    if divby == 0 then TWO64 else divby
  }

  // Restoring division, for every divisor; the source does not refuse zero.
  method DivI(divwhat: Num, divby: Word) returns (result: Num, remainder: Word)
    ensures divby != 0 ==> result.Value() == divwhat.Value() / divby
    ensures divby != 0 ==> remainder == divwhat.Value() % divby
    ensures divby == 0 ==> result.Value() == TWO128 - 1 && remainder == divwhat.lo
  {
    hide Pow, Num.Value, Taken;
    remainder, result := 0, divwhat;
    ghost var quotient: nat, taken: nat := 0, 0;
    PowStep(2, 0);
    var i := 0;
    while i < 128
      invariant 0 <= i <= 128 && remainder < Taken(divby) && quotient < Pow(2, i)
      invariant if divby == 0 then quotient == Pow(2, i) - 1 else quotient == taken
      invariant remainder * TWO128 + result.Value() - quotient
           == divwhat.Value() * Pow(2, i) - taken * (Taken(divby) * TWO128)
    {
      ghost var bit, sub;
      PowStep(2, i + 1);
      ghost var before := remainder * TWO128 + result.Value() - quotient;
      result, remainder, bit, sub := DivStep(result, remainder, divby);
      Doubled(divwhat.Value(), Pow(2, i), taken, Taken(divby) * TWO128, sub, before);
      quotient, taken := 2 * quotient + bit, 2 * taken + sub;
      i := i + 1;
    }
    Powers();
    EndDiv(divwhat.Value(), Taken(divby), result.Value(), remainder, quotient, taken);
    EndOfZero(divwhat);
  }

  // One turn of the loop. The remainder, shifted left, may need a 65th bit, which the flag remembers.
  method DivStep(result0: Num, remainder0: Word, divby: Word) returns (result: Num, remainder: Word, ghost bit: nat,
                 ghost sub: nat)
    requires remainder0 < Taken(divby)
    ensures remainder < Taken(divby) && bit <= 1 && sub <= 1
    ensures if divby == 0 then bit == 1 else bit == sub
    ensures 2 * (remainder0 * TWO128 + result0.Value())
         == remainder * TWO128 + result.Value() - bit + (if sub == 1 then Taken(divby) else 0) * TWO128
  {
    hide Num.Value, Wrap, SetLowBit, Twice;
    result, remainder, bit, sub := result0, remainder0, 1, 1;
    var overflow := false;
    if remainder >= TWO63 { overflow := true; }
    remainder := Twice(remainder);
    Bits(result);
    if result.hi >= TWO63 { remainder := SetLowBit(remainder); }
    EvenShift(result);
    result := LShift(result);
    LowBitAdds(result);
    if overflow {
      remainder := Wrap(TWO64 - 1 - divby + 1 + remainder);
      result := Num(result.hi, SetLowBit(result.lo));
      overflow := false;
    } else if remainder >= divby {
      remainder := remainder - divby;
      result := Num(result.hi, SetLowBit(result.lo));
      sub := if divby == 0 then 0 else 1;
    } else {
      bit, sub := 0, 0;
    }
  }

  // x |= 1.
  function SetLowBit(x: Word): (w: Word)
    ensures x % 2 == 0 ==> w == x + 1
  {
    if x % 2 == 0 then x + 1 else x
  }

  lemma EvenShift(a: Num)
    ensures LShift(a).lo % 2 == 0
  {}

  lemma LowBitAdds(a: Num)
    requires a.lo % 2 == 0
    ensures Num(a.hi, SetLowBit(a.lo)).Value() == a.Value() + 1
  {}

  lemma Doubled(d: nat, p: nat, q: nat, m: nat, bit: nat, x: int)
    requires x == d * p - q * m && bit <= 1
    ensures 2 * x - (if bit == 1 then m else 0) == d * (2 * p) - (2 * q + bit) * m
  {
    assert d * (2 * p) == 2 * (d * p);
    assert (2 * q + bit) * m == 2 * (q * m) + bit * m;
  }

  lemma EndDiv(d: nat, divby: nat, result: nat, remainder: nat, quotient: nat, taken: nat)
    requires 0 < divby && remainder < divby && result < TWO128 && quotient < TWO128
    requires remainder * TWO128 + result - quotient == d * TWO128 - taken * (divby * TWO128)
    ensures result == quotient && taken == d / divby && remainder == d % divby
  {
    var x := d - divby * taken - remainder;
    assert taken * (divby * TWO128) == (divby * taken) * TWO128;
    assert result - quotient == x * TWO128;
    RemainderUnique(d, divby, taken, remainder);
  }

  lemma EndOfZero(d: Num)
    ensures d.Value() % TWO64 == d.lo && Taken(0) == TWO64
    ensures forall x: Word | x != 0 :: Taken(x) == x
  {
    RemainderUnique(d.Value(), TWO64, d.hi, d.lo);
  }

  // The remainder modulo 2^128, of negative numbers too.
  function Mod128(x: int): nat {
    x % TWO128
  }

  lemma StartMul(a: Num, b: Word)
    ensures a.Value() < Pow(2, 128) && I(0).Value() == Mod128(0) && I(b).Value() == Mod128(b) == b
  {
    Powers();
  }

  function Times(x: nat, y: nat): nat {
    x * y
  }

  lemma TimesIs(x: nat, y: nat)
    ensures Times(x, y) == x * y
  {}

  lemma MulStep(a: nat, product: nat, weight: nat)
    ensures product + Times(a, weight) == (if a % 2 == 1 then product + weight else product) + Times(a / 2, 2 * weight)
  {}

  lemma Halve(x: nat, k: nat)
    requires k > 0 && x < Pow(2, k)
    ensures x / 2 < Pow(2, k - 1)
  {}

  lemma Bits(a: Num)
    ensures a.lo % 2 == a.Value() % 2 && (a.hi >= TWO63 <==> a.Value() >= TWO128 / 2)
  {
    var q := a.hi * TWO63 + a.lo / 2;
    assert a.Value() == 2 * q + a.lo % 2;
  }

  lemma SumModulo(x: int, y: nat)
    ensures var s := Mod128(x) + Mod128(y); Mod128(x + y) == if s < TWO128 then s else s - TWO128
    ensures 0 <= x < TWO128 ==> Mod128(x) == x
    ensures y < TWO128 ==> Mod128(y) == y
  {}

  lemma DoubleModulo(x: nat)
    ensures Mod128(2 * x) == if Mod128(x) < TWO128 / 2 then 2 * Mod128(x) else 2 * Mod128(x) - TWO128
    ensures x < TWO128 ==> Mod128(x) == x
  {
    var q, r := x / TWO128, x % TWO128;
    if r < TWO128 / 2 {
      RemainderUnique(2 * x, TWO128, 2 * q, 2 * r);
    } else {
      RemainderUnique(2 * x, TWO128, 2 * q + 1, 2 * r - TWO128);
    }
  }

  lemma NoBitsLeft(a: nat, weight: nat)
    requires a < Pow(2, 0)
    ensures Times(a, weight) == 0
  {}
}
