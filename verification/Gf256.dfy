// The field GF(2^8) of section 4.2 of FIPS 197: multiplication by repeated doubling, and the
// powers of the generator {03} from which both AES implementations compute inverses.
module Gf256 {
  import opened Machine

  // Field addition. Proofs about sums hide its definition and use the four laws below it.
  function Add(x: bv8, y: bv8): bv8 {
    x ^ y
  }

  lemma AddCommutes(x: bv8, y: bv8)
    ensures Add(x, y) == Add(y, x)
  {}

  lemma AddAssociates(x: bv8, y: bv8, z: bv8)
    ensures Add(Add(x, y), z) == Add(x, Add(y, z))
  {}

  lemma AddZero(x: bv8)
    ensures Add(x, 0) == x && Add(0, x) == x
  {}

  lemma AddSelf(x: bv8, y: bv8)
    ensures Add(x, x) == 0 && Add(Add(x, y), y) == x
  {}

  lemma AddInterchange(a: bv8, b: bv8, c: bv8, d: bv8)
    ensures Add(Add(a, b), Add(c, d)) == Add(Add(a, c), Add(b, d))
  {
    hide Add;
    AddAssociates(a, b, Add(c, d));
    AddAssociates(b, c, d);
    AddCommutes(b, c);
    AddAssociates(c, b, d);
    AddAssociates(a, c, Add(b, d));
  }

  // Bytes as array indices and back.
  function Index(b: bv8): (i: nat)
    ensures i < 256 && ByteOf(i) == b
  {
    b as int
  }

  lemma ConversionRoundTrip(i: int)
    requires 0 <= i < 256
    ensures (i as bv8) as int == i
  {
    hide *;
    if i < 16 {} else if i < 32 {} else if i < 48 {} else if i < 64 {}
    else if i < 80 {} else if i < 96 {} else if i < 112 {} else if i < 128 {}
    else if i < 144 {} else if i < 160 {} else if i < 176 {} else if i < 192 {}
    else if i < 208 {} else if i < 224 {} else if i < 240 {} else {}
  }

  lemma IndexOfByte(i: nat)
    requires i < 256
    ensures Index(ByteOf(i)) == i
  {
    var b := ByteOf(i);
    ConversionRoundTrip(i);
    assert Index(b) == b as int;
  }

  lemma SomeIndices()
    ensures Index(0) == 0 && ByteOf(0) == 0 && Index(0x63) == 0x63
  {}

  // Multiplication by {02} modulo x^8 + x^4 + x^3 + x + 1.
  function XTime(x: bv8): bv8 {
    (x << 1) ^ ((x >> 7) * 0x1b)
  }

  // Multiplication by {03}.
  function Times3(x: bv8): bv8 {
    Add(x, XTime(x))
  }

  // The field product, one bit of y at a time.
  function Mul(x: bv8, y: bv8): bv8
    decreases y
  {
    if y == 0 then 0 else Add(Low(x, y), Mul(XTime(x), y >> 1))
  }

  function Low(x: bv8, y: bv8): bv8 {
    if y & 1 != 0 then x else 0
  }

  // The n-th power of the generator {03}.
  function Power(n: nat): bv8 {
    if n == 0 then 1 else Times3(Power(n - 1))
  }

  // The multiplicative inverse, extended by 0 -> 0.
  ghost function Inverse(x: bv8): (y: bv8)
    ensures x == 0 ==> y == 0
    ensures x != 0 ==> Mul(x, y) == 1
  {
    if x == 0 then 0 else
      InverseExists(x);
      var y :| Mul(x, y) == 1;
      y
  }

  //// Multiplication is linear and commutes with both doublings

  lemma XTimeAdd(x: bv8, y: bv8)
    ensures XTime(Add(x, y)) == Add(XTime(x), XTime(y))
  {}

  lemma LowAdd(x: bv8, y: bv8, z: bv8)
    ensures Low(x, Add(y, z)) == Add(Low(x, y), Low(x, z))
    ensures Add(y, z) >> 1 == Add(y >> 1, z >> 1)
  {}

  lemma XTimeLow(x: bv8, y: bv8)
    ensures XTime(Low(x, y)) == Low(XTime(x), y)
    ensures XTime(0) == 0 && Low(0, y) == 0
  {}

  lemma Unfold(x: bv8, y: bv8)
    ensures Mul(x, y) == Add(Low(x, y), Mul(XTime(x), y >> 1))
  {}

  lemma {:induction false} MulZero(x: bv8)
    ensures Mul(0, x) == 0 && Mul(x, 0) == 0
    decreases x
  {
    hide Low, Add, XTime;
    if x != 0 {
      MulZero(x >> 1);
      XTimeLow(0, x);
      AddZero(0);
    }
  }

  lemma {:induction false} MulAdd(x: bv8, y: bv8, z: bv8)
    ensures Mul(x, Add(y, z)) == Add(Mul(x, y), Mul(x, z))
    decreases y
  {
    hide XTime, Low, Add, Mul;
    if y == 0 {
      MulZero(x);
      AddZero(z);
      AddZero(Mul(x, z));
    } else {
      var x2, y2, z2 := XTime(x), y >> 1, z >> 1;
      MulAdd(x2, y2, z2);
      LowAdd(x, y, z);
      Unfold(x, y);
      Unfold(x, z);
      Unfold(x, Add(y, z));
      AddInterchange(Low(x, y), Low(x, z), Mul(x2, y2), Mul(x2, z2));
    }
  }

  lemma {:induction false} XTimeMul(x: bv8, y: bv8)
    ensures XTime(Mul(x, y)) == Mul(XTime(x), y)
    decreases y
  {
    hide XTime, Low, Add;
    XTimeLow(x, y);
    if y != 0 {
      XTimeMul(XTime(x), y >> 1);
      XTimeAdd(Low(x, y), Mul(XTime(x), y >> 1));
    }
  }

  // One bit of the second factor.
  lemma MulEven(x: bv8, y: bv8)
    requires y & 1 == 0
    ensures Mul(x, y) == Mul(XTime(x), y >> 1)
  {
    hide XTime, Mul;
    Unfold(x, y);
    AddZero(Mul(XTime(x), y >> 1));
  }

  lemma MulOdd(x: bv8, y: bv8)
    requires y & 1 == 1
    ensures Mul(x, y) == Add(x, Mul(XTime(x), y >> 1))
  {
    hide XTime, Mul;
    Unfold(x, y);
  }

  lemma MulOne(x: bv8)
    ensures Mul(x, 1) == x
  {
    hide XTime, Mul, Add;
    MulOdd(x, 1);
    MulZero(XTime(x));
    AddZero(x);
  }

  // The eighth doubling, reduced by the field polynomial.
  lemma EighthDoubling(x: bv8)
    ensures Mul(XTime(x), 0x80) == Mul(x, 0x1b)
  {
    hide XTime, Mul, Add;
    var x1 := XTime(x);
    var x2 := XTime(x1);
    var x3 := XTime(x2);
    var x4 := XTime(x3);
    var x5 := XTime(x4);
    var x6 := XTime(x5);
    var x7 := XTime(x6);
    var x8 := XTime(x7);
    MulEven(x1, 0x80);
    MulEven(x2, 0x40);
    MulEven(x3, 0x20);
    MulEven(x4, 0x10);
    MulEven(x5, 0x08);
    MulEven(x6, 0x04);
    MulEven(x7, 0x02);
    MulOne(x8);
    MulOdd(x, 0x1b);
    MulOdd(x1, 0x0d);
    MulEven(x2, 0x06);
    MulOdd(x3, 0x03);
    MulOne(x4);
    Reduction(x);
  }

  lemma Reduction(x: bv8)
    ensures
      var x1 := XTime(x);
      var x3 := XTime(XTime(x1));
      var x4 := XTime(x3);
      XTime(XTime(XTime(XTime(x4)))) == Add(x, Add(x1, Add(x3, x4)))
  {}

  lemma TopBit(y: bv8)
    ensures
      var low, high := y & 0x7f, y & 0x80;
      && y == Add(low, high)
      && high == (if y >> 7 == 0 then 0 else 0x80)
      && (low << 1) >> 1 == low && (low << 1) & 1 == 0
      && XTime(y) == Add(low << 1, if y >> 7 == 0 then 0 else 0x1b)
  {}

  lemma MulXTime(x: bv8, y: bv8)
    ensures Mul(x, XTime(y)) == XTime(Mul(x, y))
  {
    hide XTime, Mul, Add;
    var low, high := y & 0x7f, y & 0x80;
    TopBit(y);
    XTimeMul(x, y);
    MulAdd(XTime(x), low, high);
    MulAdd(x, low << 1, if y >> 7 == 0 then 0 else 0x1b);
    MulEven(x, low << 1);
    MulZero(x);
    MulZero(XTime(x));
    EighthDoubling(x);
  }

  lemma MulTimes3(x: bv8, y: bv8)
    ensures Mul(x, Times3(y)) == Times3(Mul(x, y))
  {
    hide XTime, Mul, Add;
    MulAdd(x, y, XTime(y));
    MulXTime(x, y);
  }

  // Adding exponents multiplies the powers.
  lemma {:induction false} PowerAdd(m: nat, n: nat)
    ensures Power(m + n) == Mul(Power(m), Power(n))
  {
    hide Times3, Mul;
    if n == 0 {
      MulOne(Power(m));
    } else {
      PowerAdd(m, n - 1);
      MulTimes3(Power(m), Power(n - 1));
    }
  }

  //// The generator has order 255

  lemma EightSteps(n: nat, x: bv8, y: bv8)
    requires Power(n) == x
    requires
      var x1 := Times3(x); var x2 := Times3(x1); var x3 := Times3(x2); var x4 := Times3(x3);
      var x5 := Times3(x4); var x6 := Times3(x5); var x7 := Times3(x6);
      && y == Times3(x7)
      && x1 != 1 && x2 != 1 && x3 != 1 && x4 != 1 && x5 != 1 && x6 != 1 && x7 != 1
    ensures Power(n + 8) == y
    ensures forall k | n < k < n + 8 :: Power(k) != 1
  {
    assert Power(n + 1) == Times3(x);
    assert Power(n + 2) == Times3(Power(n + 1));
    assert Power(n + 3) == Times3(Power(n + 2));
    assert Power(n + 4) == Times3(Power(n + 3));
    assert Power(n + 5) == Times3(Power(n + 4));
    assert Power(n + 6) == Times3(Power(n + 5));
    assert Power(n + 7) == Times3(Power(n + 6));
    assert Power(n + 8) == Times3(Power(n + 7));
  }

  lemma FirstQuarter()
    ensures Power(64) == 0x4c
    ensures forall k | 1 <= k < 64 :: Power(k) != 1
  {
    EightSteps(0, 0x01, 0x1a);
    EightSteps(8, 0x1a, 0x5f);
    EightSteps(16, 0x5f, 0xf7);
    EightSteps(24, 0xf7, 0xe5);
    EightSteps(32, 0xe5, 0x6a);
    EightSteps(40, 0x6a, 0x53);
    EightSteps(48, 0x53, 0x4f);
    EightSteps(56, 0x4f, 0x4c);
  }

  lemma SecondQuarter()
    ensures Power(128) == 0xfb
    ensures forall k | 64 <= k < 128 :: Power(k) != 1
  {
    FirstQuarter();
    EightSteps(64, 0x4c, 0x62);
    EightSteps(72, 0x62, 0x83);
    EightSteps(80, 0x83, 0x81);
    EightSteps(88, 0x81, 0xb5);
    EightSteps(96, 0xb5, 0x0b);
    EightSteps(104, 0x0b, 0xfe);
    EightSteps(112, 0xfe, 0x2f);
    EightSteps(120, 0x2f, 0xfb);
  }

  lemma ThirdQuarter()
    ensures Power(192) == 0xfc
    ensures forall k | 128 <= k < 192 :: Power(k) != 1
  {
    SecondQuarter();
    EightSteps(128, 0xfb, 0x5d);
    EightSteps(136, 0x5d, 0xc3);
    EightSteps(144, 0xc3, 0x5b);
    EightSteps(152, 0x5b, 0x9f);
    EightSteps(160, 0x9f, 0x82);
    EightSteps(168, 0x82, 0x9b);
    EightSteps(176, 0x9b, 0xea);
    EightSteps(184, 0xea, 0xfc);
  }

  lemma LastQuarter()
    ensures Power(248) == 0x1c
    ensures forall k | 192 <= k < 248 :: Power(k) != 1
  {
    ThirdQuarter();
    EightSteps(192, 0xfc, 0x1b);
    EightSteps(200, 0x1b, 0x45);
    EightSteps(208, 0x45, 0xa8);
    EightSteps(216, 0xa8, 0x12);
    EightSteps(224, 0x12, 0x8f);
    EightSteps(232, 0x8f, 0x39);
    EightSteps(240, 0x39, 0x1c);
  }

  // The powers 0 to 254 of the generator differ from 1 (after the first), and the 255th is 1.
  lemma GeneratorOrder()
    ensures Power(255) == 1
    ensures forall k | 0 < k < 255 :: Power(k) != 1
  {
    FirstQuarter();
    SecondQuarter();
    ThirdQuarter();
    LastQuarter();
    LastSteps();
  }

  lemma LastSteps()
    requires Power(248) == 0x1c
    ensures Power(255) == 1
    ensures forall k | 248 <= k < 255 :: Power(k) != 1
  {
    assert Power(249) == Times3(0x1c);
    assert Power(250) == Times3(Power(249));
    assert Power(251) == Times3(Power(250));
    assert Power(252) == Times3(Power(251));
    assert Power(253) == Times3(Power(252));
    assert Power(254) == Times3(Power(253));
    assert Power(255) == Times3(Power(254));
  }

  lemma Times3Injective(x: bv8, y: bv8)
    requires Times3(x) == Times3(y)
    ensures x == y
  {}

  lemma {:induction false} PowerInjective(i: nat, j: nat)
    requires i <= j < i + 255
    requires Power(i) == Power(j)
    ensures i == j
  {
    if i == 0 {
      GeneratorOrder();
    } else {
      Times3Injective(Power(i - 1), Power(j - 1));
      PowerInjective(i - 1, j - 1);
    }
  }

  lemma {:induction false} PowerPeriod(n: nat)
    ensures Power(n + 255) == Power(n)
  {
    if n == 0 {
      GeneratorOrder();
    } else {
      PowerPeriod(n - 1);
    }
  }

  lemma {:induction false} PowerNonZero(n: nat)
    ensures Power(n) != 0
  {
    if n != 0 {
      PowerNonZero(n - 1);
      assert Times3(0) == 0;
      if Power(n) == 0 { Times3Injective(Power(n - 1), 0); }
    }
  }

  //// Every non-zero element is a power of the generator

  ghost function Reached(n: nat): set<nat> {
    set k: nat | k < n :: Index(Power(k))
  }

  lemma {:induction false} ReachedSize(n: nat)
    requires n <= 255
    ensures |Reached(n)| == n
  {
    if n == 0 {
      assert Reached(0) == {};
    } else {
      ReachedSize(n - 1);
      var last := Index(Power(n - 1));
      if last in Reached(n - 1) {
        var k: nat :| k < n - 1 && Index(Power(k)) == last;
        assert Power(k) == Power(n - 1);
        PowerInjective(k, n - 1);
      }
      assert Reached(n) == Reached(n - 1) + {last};
    }
  }

  lemma {:induction false} SubsetOfRange(s: set<nat>, n: nat)
    requires forall v <- s :: 1 <= v <= n
    ensures |s| <= n
  {
    if s != {} {
      var v :| v in s;
      assert 1 <= v <= n;
      SubsetOfRange(s - {n}, n - 1);
    }
  }

  lemma PowerReaches(x: bv8) returns (k: nat)
    requires x != 0
    ensures k < 255 && Power(k) == x
  {
    var v := Index(x);
    hide Power, Index;
    SomeIndices();
    assert v != 0;
    if v !in Reached(255) {
      ReachedSize(255);
      forall w <- Reached(255) + {v} ensures 1 <= w <= 255 {
        if w != v {
          var i: nat :| i < 255 && Index(Power(i)) == w;
          PowerNonZero(i);
        }
      }
      SubsetOfRange(Reached(255) + {v}, 255);
      assert false;
    }
    k :| k < 255 && Index(Power(k)) == v;
  }

  // The inverse of 3^k is 3^(255 - k).
  lemma InverseByPower(k: nat)
    requires k <= 255
    ensures Mul(Power(k), Power(255 - k)) == 1
  {
    PowerAdd(k, 255 - k);
    GeneratorOrder();
  }

  lemma InverseExists(x: bv8)
    requires x != 0
    ensures exists y :: Mul(x, y) == 1
  {
    var k := PowerReaches(x);
    InverseByPower(k);
  }

  lemma MulCommutes(x: bv8, y: bv8)
    ensures Mul(x, y) == Mul(y, x)
  {
    hide Mul, Power;
    if x == 0 || y == 0 {
      MulZero(x);
      MulZero(y);
    } else {
      var i := PowerReaches(x);
      var j := PowerReaches(y);
      PowerAdd(i, j);
      PowerAdd(j, i);
    }
  }

  // Inverses are unique, so a value that multiplies to 1 is the inverse.
  lemma InverseUnique(x: bv8, y: bv8)
    requires Mul(x, y) == 1
    ensures x != 0 && y == Inverse(x)
  {
    hide Mul, Power;
    MulZero(y);
    MulZero(x);
    var z := Inverse(x);
    MulZero(z);
    var i := PowerReaches(x);
    var j := PowerReaches(y);
    var k := PowerReaches(z);
    PowerAdd(i, j);
    PowerAdd(i, k);
    if j <= k { PowerInjective(i + j, i + k); } else { PowerInjective(i + k, i + j); }
  }

  lemma InverseInvolution(x: bv8)
    ensures Inverse(Inverse(x)) == x
  {
    hide Mul;
    if x != 0 {
      MulCommutes(x, Inverse(x));
      InverseUnique(Inverse(x), x);
    }
  }

  lemma MulAssociates(x: bv8, y: bv8, z: bv8)
    ensures Mul(Mul(x, y), z) == Mul(x, Mul(y, z))
  {
    hide Mul, Power;
    if x == 0 || y == 0 || z == 0 {
      MulZero(x);
      MulZero(y);
      MulZero(z);
      MulZero(Mul(x, y));
      MulZero(Mul(y, z));
    } else {
      var i := PowerReaches(x);
      var j := PowerReaches(y);
      var k := PowerReaches(z);
      PowersAssociate(i, j, k);
    }
  }

  lemma PowersAssociate(i: nat, j: nat, k: nat)
    ensures Mul(Mul(Power(i), Power(j)), Power(k)) == Mul(Power(i), Mul(Power(j), Power(k)))
  {
    hide *;
    PowerAdd(i, j);
    PowerAdd(i + j, k);
    PowerAdd(j, k);
    PowerAdd(i, j + k);
    assert i + j + k == i + (j + k);
  }
}
