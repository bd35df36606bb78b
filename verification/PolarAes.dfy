// The table-driven AES of src/crypto/polarssl_aes.c for 256-bit keys. The words of the source never
// use more than 32 bits, and are bv32 here.
module PolarAes {
  import opened Machine
  import opened Gf256
  import opened Aes

  //// Words and columns

  function Byte(w: bv32, n: nat): bv8
    requires n < 4
  {
    (match n
     case 0 => w & 0xFF
     case 1 => (w >> 8) & 0xFF
     case 2 => (w >> 16) & 0xFF
     case _ => (w >> 24) & 0xFF) as bv8
  }

  function Lane(x: bv8, n: nat): bv32
    requires n < 4
  {
    match n
    case 0 => x as bv32
    case 1 => (x as bv32) << 8
    case 2 => (x as bv32) << 16
    case _ => (x as bv32) << 24
  }

  function Xor(x: bv32, y: bv32): bv32 {
    x ^ y
  }

  function Rotl8(x: bv32): bv32 {
    ((x << 8) & 0xFFFFFFFF) | (x >> 24)
  }

  function GetUlongLe(b: seq<bv8>, i: nat): bv32
    requires i + 4 <= |b|
  {
    (b[i] as bv32) | ((b[i + 1] as bv32) << 8) | ((b[i + 2] as bv32) << 16) | ((b[i + 3] as bv32) << 24)
  }

  function Unpack(w: bv32): Column {
    Column(Byte(w, 0), Byte(w, 1), Byte(w, 2), Byte(w, 3))
  }

  function Words(x0: bv32, x1: bv32, x2: bv32, x3: bv32): Block {
    Block(Unpack(x0), Unpack(x1), Unpack(x2), Unpack(x3))
  }

  lemma ByteXor(x: bv32, y: bv32, n: nat)
    requires n < 4
    ensures Byte(Xor(x, y), n) == Add(Byte(x, n), Byte(y, n))
  {
    match n
    case 0 =>
    case 1 =>
    case 2 =>
    case _ =>
  }

  lemma UnpackXor(x: bv32, y: bv32)
    ensures Unpack(Xor(x, y)) == XorColumn(Unpack(x), Unpack(y))
  {
    hide Byte, Xor, Add;
    ByteXor(x, y, 0);
    ByteXor(x, y, 1);
    ByteXor(x, y, 2);
    ByteXor(x, y, 3);
  }

  lemma UnpackLane(x: bv8)
    ensures Unpack(Lane(x, 0)) == Column(x, 0, 0, 0) && Unpack(Lane(x, 1)) == Column(0, x, 0, 0)
    ensures Unpack(Lane(x, 2)) == Column(0, 0, x, 0) && Unpack(Lane(x, 3)) == Column(0, 0, 0, x)
  {}

  lemma UnpackRotl8(x: bv32)
    ensures Unpack(Rotl8(x)) == Column(Byte(x, 3), Byte(x, 0), Byte(x, 1), Byte(x, 2))
  {}

  lemma UnpackGet(b: seq<bv8>, i: nat)
    requires i + 4 <= |b|
    ensures Unpack(GetUlongLe(b, i)) == ColumnAt(b, i)
  {
    UnpackBytes(b[i], b[i + 1], b[i + 2], b[i + 3]);
  }

  lemma UnpackBytes(b0: bv8, b1: bv8, b2: bv8, b3: bv8)
    ensures Unpack((b0 as bv32) | ((b1 as bv32) << 8) | ((b2 as bv32) << 16) | ((b3 as bv32) << 24))
         == Column(b0, b1, b2, b3)
  {}

  //// The generated tables

  // The columns that FT0 to FT3 and RT0 to RT3 hold for a byte that left the S-box.
  function Forward(x: bv8, n: nat): Column
    requires n < 4
  {
    match n
    case 0 => Column(Mul(x, 2), x, x, Mul(x, 3))
    case 1 => Column(Mul(x, 3), Mul(x, 2), x, x)
    case 2 => Column(x, Mul(x, 3), Mul(x, 2), x)
    case _ => Column(x, x, Mul(x, 3), Mul(x, 2))
  }

  function Reverse(x: bv8, n: nat): Column
    requires n < 4
  {
    match n
    case 0 => Column(Mul(x, 0x0e), Mul(x, 0x09), Mul(x, 0x0d), Mul(x, 0x0b))
    case 1 => Column(Mul(x, 0x0b), Mul(x, 0x0e), Mul(x, 0x09), Mul(x, 0x0d))
    case 2 => Column(Mul(x, 0x0d), Mul(x, 0x0b), Mul(x, 0x0e), Mul(x, 0x09))
    case _ => Column(Mul(x, 0x09), Mul(x, 0x0d), Mul(x, 0x0b), Mul(x, 0x0e))
  }

  // The sum of four table entries is a mixed column.
  lemma ForwardSum(k: Column, v: Column)
    ensures XorColumn(XorColumn(XorColumn(XorColumn(k, Forward(v.r0, 0)), Forward(v.r1, 1)), Forward(v.r2, 2)),
                      Forward(v.r3, 3))
         == XorColumn(MixColumn(v), k)
  {
    XorColumnCommutes(k, MixColumn(v));
    hide Mul, Add;
    MulOne(v.r0);
    MulOne(v.r1);
    MulOne(v.r2);
    MulOne(v.r3);
    FiveSum(k.r0, Mul(v.r0, 2), Mul(v.r1, 3), v.r2, v.r3);
    FiveSum(k.r1, v.r0, Mul(v.r1, 2), Mul(v.r2, 3), v.r3);
    FiveSum(k.r2, v.r0, v.r1, Mul(v.r2, 2), Mul(v.r3, 3));
    FiveSum(k.r3, Mul(v.r0, 3), v.r1, v.r2, Mul(v.r3, 2));
  }

  lemma ReverseSum(k: Column, v: Column)
    ensures XorColumn(XorColumn(XorColumn(XorColumn(k, Reverse(v.r0, 0)), Reverse(v.r1, 1)), Reverse(v.r2, 2)),
                      Reverse(v.r3, 3))
         == XorColumn(InvMixColumn(v), k)
  {
    XorColumnCommutes(k, InvMixColumn(v));
    hide Mul, Add;
    FiveSum(k.r0, Mul(v.r0, 0x0e), Mul(v.r1, 0x0b), Mul(v.r2, 0x0d), Mul(v.r3, 0x09));
    FiveSum(k.r1, Mul(v.r0, 0x09), Mul(v.r1, 0x0e), Mul(v.r2, 0x0b), Mul(v.r3, 0x0d));
    FiveSum(k.r2, Mul(v.r0, 0x0d), Mul(v.r1, 0x09), Mul(v.r2, 0x0e), Mul(v.r3, 0x0b));
    FiveSum(k.r3, Mul(v.r0, 0x0b), Mul(v.r1, 0x0d), Mul(v.r2, 0x09), Mul(v.r3, 0x0e));
  }

  lemma FiveSum(k: bv8, a: bv8, b: bv8, c: bv8, d: bv8)
    ensures Add(Add(Add(Add(k, a), b), c), d) == Add(k, Add(Add(a, b), Add(c, d)))
  {
    hide Add;
    AddAssociates(Add(Add(k, a), b), c, d);
    AddAssociates(k, a, b);
    AddAssociates(k, Add(a, b), Add(c, d));
  }

  ghost predicate SBoxTable(a: array<bv8>)
    reads a
  {
    a.Length == 256 && forall b: bv8 :: a[Index(b)] == SBox(b)
  }

  ghost predicate InvSBoxTable(a: array<bv8>)
    reads a
  {
    a.Length == 256 && forall b: bv8 :: a[Index(b)] == InvSBox(b)
  }

  ghost predicate ForwardTable(a: array<bv32>, n: nat)
    requires n < 4
    reads a
  {
    a.Length == 256 && forall b: bv8 :: Unpack(a[Index(b)]) == Forward(SBox(b), n)
  }

  ghost predicate ReverseTable(a: array<bv32>, n: nat)
    requires n < 4
    reads a
  {
    a.Length == 256 && forall b: bv8 :: Unpack(a[Index(b)]) == Reverse(InvSBox(b), n)
  }

  ghost predicate RconTable(a: array<bv32>)
    reads a
  {
    a.Length == 10 && forall i | 0 <= i < 10 :: Unpack(a[i]) == Column(Rcon(i + 1), 0, 0, 0)
  }

  // The static tables of the source.
  class Tables {
    const FSb: array<bv8>
    const RSb: array<bv8>
    const FT0: array<bv32>
    const FT1: array<bv32>
    const FT2: array<bv32>
    const FT3: array<bv32>
    const RT0: array<bv32>
    const RT1: array<bv32>
    const RT2: array<bv32>
    const RT3: array<bv32>
    const RCON: array<bv32>

    ghost predicate Ready()
      reads FSb, RSb, FT0, FT1, FT2, FT3, RT0, RT1, RT2, RT3, RCON
    {
      && SBoxTable(FSb) && InvSBoxTable(RSb) && RconTable(RCON)
      && ForwardTable(FT0, 0) && ForwardTable(FT1, 1) && ForwardTable(FT2, 2) && ForwardTable(FT3, 3)
      && ReverseTable(RT0, 0) && ReverseTable(RT1, 1) && ReverseTable(RT2, 2) && ReverseTable(RT3, 3)
    }

    ghost function WordTables(): set<object> {
      {FT0, FT1, FT2, FT3, RT0, RT1, RT2, RT3, RCON}
    }

    constructor (fsb: array<bv8>, rsb: array<bv8>, rcon: array<bv32>,
                 ft0: array<bv32>, ft1: array<bv32>, ft2: array<bv32>, ft3: array<bv32>,
                 rt0: array<bv32>, rt1: array<bv32>, rt2: array<bv32>, rt3: array<bv32>)
      requires SBoxTable(fsb) && InvSBoxTable(rsb) && RconTable(rcon)
      requires ForwardTable(ft0, 0) && ForwardTable(ft1, 1) && ForwardTable(ft2, 2) && ForwardTable(ft3, 3)
      requires ReverseTable(rt0, 0) && ReverseTable(rt1, 1) && ReverseTable(rt2, 2) && ReverseTable(rt3, 3)
      ensures Ready()
    {
      hide SBoxTable, InvSBoxTable, RconTable, ForwardTable, ReverseTable;
      FSb, RSb, RCON := fsb, rsb, rcon;
      FT0, FT1, FT2, FT3 := ft0, ft1, ft2, ft3;
      RT0, RT1, RT2, RT3 := rt0, rt1, rt2, rt3;
    }
  }

  // aes_gen_tables.
  method GenTables() returns (t: Tables)
    ensures t.Ready()
  {
    hide SBoxTable, InvSBoxTable, RconTable, ForwardTable, ReverseTable, Tables.Ready;
    var fsb, rsb, rt0, rt1, rt2, rt3 := FromLogarithms();
    var ft0, ft1, ft2, ft3 := FillForward(fsb);
    var rcon := FillRcon();
    t := new Tables(fsb, rsb, rcon, ft0, ft1, ft2, ft3, rt0, rt1, rt2, rt3);
  }

  //// Table generation

  ghost predicate Powers(pow: array<bv8>, log: array<nat>)
    reads pow, log
  {
    && pow.Length == log.Length == 256 && pow as object != log
    && (forall k | 0 <= k < 256 :: pow[k] == Power(k))
    && (forall k: nat {:trigger Power(k)} | 1 <= k < 256 :: log[Index(Power(k))] == k)
  }

  method FillPowers() returns (pow: array<bv8>, log: array<nat>)
    ensures Powers(pow, log)
  {
    hide Power, Times3;
    pow, log := new bv8[256], new nat[256];
    var i, x := 0, 1 as bv8;
    assert Power(0) == 1 by { PowerZero(); }
    while i < 256
      invariant 0 <= i <= 256
      invariant x == Power(i)
      invariant forall k | 0 <= k < i :: pow[k] == Power(k)
      invariant forall k: nat {:trigger Power(k)} | 1 <= k < i :: log[Index(Power(k))] == k
    {
      pow[i] := x;
      DistinctPowers(i);
      log[Index(x)] := i;
      PowerStep(i);
      x := x ^ (x << 1) ^ (if x & 0x80 != 0 then 0x1b else 0);
      i := i + 1;
    }
  }

  // What the source computes through the tables of powers and logarithms.
  method FromLogarithms()
    returns (fsb: array<bv8>, rsb: array<bv8>, rt0: array<bv32>, rt1: array<bv32>, rt2: array<bv32>, rt3: array<bv32>)
    ensures SBoxTable(fsb) && InvSBoxTable(rsb)
    ensures ReverseTable(rt0, 0) && ReverseTable(rt1, 1) && ReverseTable(rt2, 2) && ReverseTable(rt3, 3)
  {
    hide SBoxTable, InvSBoxTable, ReverseTable, Powers;
    var pow, log := FillPowers();
    fsb, rsb := FillSBoxes(pow, log);
    rt0, rt1, rt2, rt3 := FillReverse(pow, log, rsb);
  }

  lemma PowerZero()
    ensures Power(0) == 1
  {}

  lemma PowerStep(i: nat)
    ensures var x := Power(i); Power(i + 1) == x ^ (x << 1) ^ (if x & 0x80 != 0 then 0x1b else 0)
  {
    TableStep(Power(i));
  }

  lemma TableStep(x: bv8)
    ensures Times3(x) == x ^ (x << 1) ^ (if x & 0x80 != 0 then 0x1b else 0)
    ensures XTime(x) == (x << 1) ^ (if x & 0x80 != 0 then 0x1b else 0)
  {}

  lemma DistinctPowers(i: nat)
    requires i < 256
    ensures forall k: nat {:trigger Power(k)} | 1 <= k < i :: Index(Power(k)) != Index(Power(i))
  {
    hide Power;
    forall k: nat {:trigger Power(k)} | 1 <= k < i ensures Index(Power(k)) != Index(Power(i)) {
      if Index(Power(k)) == Index(Power(i)) {
        PowerInjective(k, i);
      }
    }
  }

  // Every non-zero byte has its logarithm in the table.
  lemma LogOf(pow: array<bv8>, log: array<nat>, x: bv8)
    requires Powers(pow, log) && x != 0
    ensures 1 <= log[Index(x)] <= 255 && Power(log[Index(x)]) == x
  {
    hide Power;
    var k := PowerReaches(x);
    GeneratorOrder();
    PowerZero();
    var n := if k == 0 then 255 else k;
    assert Power(n) == x && 1 <= n < 256;
  }

  method FillRcon() returns (rcon: array<bv32>)
    ensures RconTable(rcon)
  {
    hide XTime, Unpack, Lane;
    rcon := new bv32[10];
    var i, x := 0, 1 as bv8;
    while i < 10
      invariant 0 <= i <= 10
      invariant x == Rcon(i + 1)
      invariant forall k | 0 <= k < i :: Unpack(rcon[k]) == Column(Rcon(k + 1), 0, 0, 0)
    {
      rcon[i] := Lane(x, 0);
      UnpackLane(x);
      TableStep(x);
      x := (x << 1) ^ (if x & 0x80 != 0 then 0x1b else 0);
      i := i + 1;
    }
  }

  // The entries of the bytes below n, and the reverse entries of their images.
  ghost predicate SBoxesBelow(fsb: array<bv8>, rsb: array<bv8>, n: nat)
    reads fsb, rsb
  {
    && fsb.Length == rsb.Length == 256 && fsb != rsb
    && (forall b: bv8 | Index(b) < n :: fsb[Index(b)] == SBox(b))
    && (forall b: bv8 | Index(b) < n :: rsb[Index(SBox(b))] == b)
  }

  method FillSBoxes(pow: array<bv8>, log: array<nat>) returns (fsb: array<bv8>, rsb: array<bv8>)
    requires Powers(pow, log)
    ensures SBoxTable(fsb) && InvSBoxTable(rsb)
  {
    hide SBox, InvSBox, Powers, Index, ByteOf, SBoxesBelow, SBoxTable, InvSBoxTable;
    fsb, rsb := FirstSBox();
    var i := 1;
    while i < 256
      invariant 1 <= i <= 256
      invariant Powers(pow, log)
      invariant fresh(fsb) && fresh(rsb)
      invariant SBoxesBelow(fsb, rsb, i)
    {
      IndexOfByte(i);
      SomeIndices();
      var x := SBoxByLog(pow, log, ByteOf(i));
      StoreSBox(fsb, rsb, i, x);
      i := i + 1;
    }
    SBoxesDone(fsb, rsb);
  }

  method FirstSBox() returns (fsb: array<bv8>, rsb: array<bv8>)
    ensures fresh(fsb) && fresh(rsb) && SBoxesBelow(fsb, rsb, 1)
  {
    hide SBox, Index, ByteOf;
    SomeIndices();
    SBoxOfZero();
    fsb, rsb := new bv8[256], new bv8[256];
    fsb[0x00] := 0x63;
    rsb[0x63] := 0x00;
  }

  lemma SBoxesDone(fsb: array<bv8>, rsb: array<bv8>)
    requires SBoxesBelow(fsb, rsb, 256)
    ensures SBoxTable(fsb) && InvSBoxTable(rsb)
  {
    hide SBox, InvSBox, Index, ByteOf;
    forall b: bv8 ensures rsb[Index(b)] == InvSBox(b) { SBoxInverse(b); }
  }

  method StoreSBox(fsb: array<bv8>, rsb: array<bv8>, i: nat, x: bv8)
    requires i < 256 && SBoxesBelow(fsb, rsb, i) && x == SBox(ByteOf(i))
    modifies fsb, rsb
    ensures SBoxesBelow(fsb, rsb, i + 1)
  {
    hide SBox, InvSBox, Index, ByteOf;
    IndexOfByte(i);
    SBoxInjective(x);
    fsb[i] := x;
    rsb[Index(x)] := ByteOf(i);
  }

  lemma SBoxOfZero()
    ensures SBox(0) == 0x63
  {}

  // The body of the S-box loop: the inverse, its four rotations and the constant.
  method SBoxByLog(pow: array<bv8>, log: array<nat>, i: bv8) returns (x: bv8)
    requires Powers(pow, log) && i != 0
    ensures x == SBox(i)
  {
    hide Rotl, Power;
    LogOf(pow, log, i);
    x := pow[255 - log[Index(i)]];
    InverseByPower(log[Index(i)]);
    InverseUnique(i, x);
    RotationSteps(x);
    var y := x;
    y := (y << 1) | (y >> 7);
    x := x ^ y;
    y := (y << 1) | (y >> 7);
    x := x ^ y;
    y := (y << 1) | (y >> 7);
    x := x ^ y;
    y := (y << 1) | (y >> 7);
    x := x ^ (y ^ 0x63);
    LastXor(i);
  }

  lemma LastXor(i: bv8)
    ensures var v := Inverse(i);
      SBox(i) == v ^ Rotl(v, 1) ^ Rotl(v, 2) ^ Rotl(v, 3) ^ (Rotl(v, 4) ^ 0x63)
  {
    hide Rotl;
    var v := Inverse(i);
    XorLast(v ^ Rotl(v, 1) ^ Rotl(v, 2) ^ Rotl(v, 3), Rotl(v, 4));
  }

  lemma XorLast(x: bv8, y: bv8)
    ensures (x ^ y) ^ 0x63 == x ^ (y ^ 0x63)
  {}

  lemma SBoxInjective(x: bv8)
    ensures forall b: bv8 | SBox(b) == x :: b == InvSBox(x)
  {
    hide SBox, InvSBox;
    forall b: bv8 | SBox(b) == x ensures b == InvSBox(x) { SBoxInverse(b); }
  }

  method FillForward(fsb: array<bv8>) returns (ft0: array<bv32>, ft1: array<bv32>, ft2: array<bv32>, ft3: array<bv32>)
    requires SBoxTable(fsb)
    ensures ForwardTable(ft0, 0) && ForwardTable(ft1, 1) && ForwardTable(ft2, 2) && ForwardTable(ft3, 3)
  {
    hide SBox, Forward, Unpack, Rotl8, ByteOf, Index;
    ft0 := new bv32[256];
    var i := 0;
    while i < 256
      invariant 0 <= i <= 256
      invariant forall b: bv8 | Index(b) < i :: Unpack(ft0[Index(b)]) == Forward(SBox(b), 0)
    {
      var w := ForwardEntry(fsb[i]);
      ft0[i] := w;
      i := i + 1;
    }
    ft1 := RotatedTable(ft0);
    ft2 := RotatedTable(ft1);
    ft3 := RotatedTable(ft2);
    ForwardTables(ft0, ft1, ft2, ft3);
  }

  method ForwardEntry(x: bv8) returns (w: bv32)
    ensures Unpack(w) == Forward(x, 0)
  {
    hide Mul, Unpack, Times3, XTime;
    var y := (x << 1) ^ (if x & 0x80 != 0 then 0x1b else 0);
    var z := y ^ x;
    w := (y as bv32) ^ ((x as bv32) << 8) ^ ((x as bv32) << 16) ^ ((z as bv32) << 24);
    UnpackEntry(y, x, x, z);
    SmallFactors(x);
    TableStep(x);
  }

  lemma SmallFactors(x: bv8)
    ensures Mul(x, 2) == XTime(x) && Mul(x, 3) == XTime(x) ^ x
  {
    hide Mul, XTime;
    MulCommutes(x, 2);
    MulCommutes(x, 3);
    SmallProducts(x);
    AddCommutes(x, XTime(x));
  }

  lemma UnpackEntry(b0: bv8, b1: bv8, b2: bv8, b3: bv8)
    ensures Unpack((b0 as bv32) ^ ((b1 as bv32) << 8) ^ ((b2 as bv32) << 16) ^ ((b3 as bv32) << 24))
         == Column(b0, b1, b2, b3)
  {}

  // The source rotates each entry in the loop that creates it.
  method RotatedTable(t: array<bv32>) returns (r: array<bv32>)
    requires t.Length == 256
    ensures fresh(r) && r.Length == 256 && forall j | 0 <= j < 256 :: r[j] == Rotl8(t[j])
  {
    hide Rotl8;
    r := new bv32[256];
    var i := 0;
    while i < 256
      invariant 0 <= i <= 256
      invariant forall j | 0 <= j < i :: r[j] == Rotl8(t[j])
    {
      r[i] := Rotl8(t[i]);
      i := i + 1;
    }
  }

  // The other three tables are rotations of the first.
  lemma ForwardTables(t0: array<bv32>, t1: array<bv32>, t2: array<bv32>, t3: array<bv32>)
    requires ForwardTable(t0, 0) && t1.Length == t2.Length == t3.Length == 256
    requires forall j | 0 <= j < 256 :: t1[j] == Rotl8(t0[j])
    requires forall j | 0 <= j < 256 :: t2[j] == Rotl8(t1[j])
    requires forall j | 0 <= j < 256 :: t3[j] == Rotl8(t2[j])
    ensures ForwardTable(t1, 1) && ForwardTable(t2, 2) && ForwardTable(t3, 3)
  {
    hide SBox, Forward, Unpack, Rotl8, Index;
    forall b: bv8
      ensures Unpack(t1[Index(b)]) == Forward(SBox(b), 1)
      ensures Unpack(t2[Index(b)]) == Forward(SBox(b), 2)
      ensures Unpack(t3[Index(b)]) == Forward(SBox(b), 3)
    {
      ForwardRotates(SBox(b), t0[Index(b)]);
    }
  }

  lemma ForwardRotates(x: bv8, w: bv32)
    requires Unpack(w) == Forward(x, 0)
    ensures Unpack(Rotl8(w)) == Forward(x, 1)
    ensures Unpack(Rotl8(Rotl8(w))) == Forward(x, 2)
    ensures Unpack(Rotl8(Rotl8(Rotl8(w)))) == Forward(x, 3)
  {
    hide Mul, Byte, Rotl8;
    UnpackRotl8(w);
    UnpackRotl8(Rotl8(w));
    UnpackRotl8(Rotl8(Rotl8(w)));
  }

  // The other three tables are rotations of the first.
  lemma ReverseTables(t0: array<bv32>, t1: array<bv32>, t2: array<bv32>, t3: array<bv32>)
    requires ReverseTable(t0, 0) && t1.Length == t2.Length == t3.Length == 256
    requires forall j | 0 <= j < 256 :: t1[j] == Rotl8(t0[j])
    requires forall j | 0 <= j < 256 :: t2[j] == Rotl8(t1[j])
    requires forall j | 0 <= j < 256 :: t3[j] == Rotl8(t2[j])
    ensures ReverseTable(t1, 1) && ReverseTable(t2, 2) && ReverseTable(t3, 3)
  {
    hide InvSBox, Reverse, Unpack, Rotl8, Index;
    forall b: bv8
      ensures Unpack(t1[Index(b)]) == Reverse(InvSBox(b), 1)
      ensures Unpack(t2[Index(b)]) == Reverse(InvSBox(b), 2)
      ensures Unpack(t3[Index(b)]) == Reverse(InvSBox(b), 3)
    {
      ReverseRotates(InvSBox(b), t0[Index(b)]);
    }
  }

  lemma ReverseRotates(x: bv8, w: bv32)
    requires Unpack(w) == Reverse(x, 0)
    ensures Unpack(Rotl8(w)) == Reverse(x, 1)
    ensures Unpack(Rotl8(Rotl8(w))) == Reverse(x, 2)
    ensures Unpack(Rotl8(Rotl8(Rotl8(w)))) == Reverse(x, 3)
  {
    hide Mul, Byte, Rotl8;
    UnpackRotl8(w);
    UnpackRotl8(Rotl8(w));
    UnpackRotl8(Rotl8(Rotl8(w)));
  }

  method FillReverse(pow: array<bv8>, log: array<nat>, rsb: array<bv8>)
    returns (rt0: array<bv32>, rt1: array<bv32>, rt2: array<bv32>, rt3: array<bv32>)
    requires Powers(pow, log) && InvSBoxTable(rsb)
    ensures ReverseTable(rt0, 0) && ReverseTable(rt1, 1) && ReverseTable(rt2, 2) && ReverseTable(rt3, 3)
  {
    hide InvSBox, Reverse, Unpack, Rotl8, Powers, ByteOf, Index;
    rt0 := new bv32[256];
    var i := 0;
    while i < 256
      invariant 0 <= i <= 256
      invariant Powers(pow, log)
      invariant forall b: bv8 | Index(b) < i :: Unpack(rt0[Index(b)]) == Reverse(InvSBox(b), 0)
    {
      var w := ReverseEntry(pow, log, rsb[i]);
      rt0[i] := w;
      i := i + 1;
    }
    rt1 := RotatedTable(rt0);
    rt2 := RotatedTable(rt1);
    rt3 := RotatedTable(rt2);
    ReverseTables(rt0, rt1, rt2, rt3);
  }

  method ReverseEntry(pow: array<bv8>, log: array<nat>, x: bv8) returns (w: bv32)
    requires Powers(pow, log)
    ensures Unpack(w) == Reverse(x, 0)
  {
    hide Mul, Unpack, Powers;
    var e := MulByLog(pow, log, 0x0e, x);
    var n := MulByLog(pow, log, 0x09, x);
    var d := MulByLog(pow, log, 0x0d, x);
    var b := MulByLog(pow, log, 0x0b, x);
    w := (e as bv32) ^ ((n as bv32) << 8) ^ ((d as bv32) << 16) ^ ((b as bv32) << 24);
    UnpackEntry(e, n, d, b);
  }

  // The MUL macro: a product through the two tables.
  method MulByLog(pow: array<bv8>, log: array<nat>, a: bv8, x: bv8) returns (p: bv8)
    requires Powers(pow, log)
    ensures p == Mul(x, a)
  {
    hide Mul, Power;
    if a != 0 && x != 0 {
      LogOf(pow, log, a);
      LogOf(pow, log, x);
      var i, j := log[Index(x)], log[Index(a)];
      p := pow[(j + i) % 255];
      PowerAdd(i, j);
      PowerModulo(j + i);
    } else {
      p := 0;
      MulZero(a);
      MulZero(x);
    }
  }

  lemma PowerModulo(n: nat)
    requires n <= 510
    ensures Power(n % 255) == Power(n)
  {
    hide Power;
    if n >= 255 { PowerPeriod(n - 255); }
    if n >= 510 { PowerPeriod(n - 510); }
  }

  //// Rounds

  // AES_FROUND: the four words of round key, read at pos, and the forward tables.
  method AesFRound(t: Tables, rk: array<bv32>, pos: nat, y0: bv32, y1: bv32, y2: bv32, y3: bv32)
    returns (x0: bv32, x1: bv32, x2: bv32, x3: bv32)
    requires t.Ready() && pos + 4 <= rk.Length
    ensures Words(x0, x1, x2, x3) == AddRoundKey(MixColumns(ShiftRows(SubBytes(Words(y0, y1, y2, y3)))),
                                                 Words(rk[pos], rk[pos + 1], rk[pos + 2], rk[pos + 3]))
  {
    hide XorColumn, SBox, MixColumn, Byte, Tables.Ready;
    x0 := ForwardWord(t, rk[pos], y0, y1, y2, y3);
    x1 := ForwardWord(t, rk[pos + 1], y1, y2, y3, y0);
    x2 := ForwardWord(t, rk[pos + 2], y2, y3, y0, y1);
    x3 := ForwardWord(t, rk[pos + 3], y3, y0, y1, y2);
  }

  method ForwardWord(t: Tables, k: bv32, y0: bv32, y1: bv32, y2: bv32, y3: bv32) returns (x: bv32)
    requires t.Ready()
    ensures Unpack(x)
         == XorColumn(MixColumn(SubWord(Column(Byte(y0, 0), Byte(y1, 1), Byte(y2, 2), Byte(y3, 3)))), Unpack(k))
  {
    hide Byte, Xor, Index, ByteOf, SBox, XorColumn, MixColumn, Unpack;
    var b0, b1, b2, b3 := Byte(y0, 0), Byte(y1, 1), Byte(y2, 2), Byte(y3, 3);
    var f0, f1, f2, f3 := t.FT0[Index(b0)], t.FT1[Index(b1)], t.FT2[Index(b2)], t.FT3[Index(b3)];
    x := Xor(Xor(Xor(Xor(k, f0), f1), f2), f3);
    UnpackXor(k, f0);
    UnpackXor(Xor(k, f0), f1);
    UnpackXor(Xor(Xor(k, f0), f1), f2);
    UnpackXor(Xor(Xor(Xor(k, f0), f1), f2), f3);
    ForwardSum(Unpack(k), SubWord(Column(b0, b1, b2, b3)));
  }

  // AES_RROUND, with the reverse tables.
  method AesRRound(t: Tables, rk: array<bv32>, pos: nat, y0: bv32, y1: bv32, y2: bv32, y3: bv32)
    returns (x0: bv32, x1: bv32, x2: bv32, x3: bv32)
    requires t.Ready() && pos + 4 <= rk.Length
    ensures Words(x0, x1, x2, x3) == AddRoundKey(InvMixColumns(InvSubBytes(InvShiftRows(Words(y0, y1, y2, y3)))),
                                                 Words(rk[pos], rk[pos + 1], rk[pos + 2], rk[pos + 3]))
  {
    hide XorColumn, InvSBox, InvMixColumn, Byte, Tables.Ready;
    x0 := ReverseWord(t, rk[pos], y0, y3, y2, y1);
    x1 := ReverseWord(t, rk[pos + 1], y1, y0, y3, y2);
    x2 := ReverseWord(t, rk[pos + 2], y2, y1, y0, y3);
    x3 := ReverseWord(t, rk[pos + 3], y3, y2, y1, y0);
  }

  method ReverseWord(t: Tables, k: bv32, y0: bv32, y1: bv32, y2: bv32, y3: bv32) returns (x: bv32)
    requires t.Ready()
    ensures Unpack(x)
         == XorColumn(InvMixColumn(InvSubWord(Column(Byte(y0, 0), Byte(y1, 1), Byte(y2, 2), Byte(y3, 3)))), Unpack(k))
  {
    hide Byte, Xor, Index, ByteOf, InvSBox, XorColumn, InvMixColumn, Unpack;
    var b0, b1, b2, b3 := Byte(y0, 0), Byte(y1, 1), Byte(y2, 2), Byte(y3, 3);
    var f0, f1, f2, f3 := t.RT0[Index(b0)], t.RT1[Index(b1)], t.RT2[Index(b2)], t.RT3[Index(b3)];
    x := Xor(Xor(Xor(Xor(k, f0), f1), f2), f3);
    UnpackXor(k, f0);
    UnpackXor(Xor(k, f0), f1);
    UnpackXor(Xor(Xor(k, f0), f1), f2);
    UnpackXor(Xor(Xor(Xor(k, f0), f1), f2), f3);
    ReverseSum(Unpack(k), InvSubWord(Column(b0, b1, b2, b3)));
  }

  // Adds four bytes, one in each lane, to a word.
  method AddLanes(k: bv32, s0: bv8, s1: bv8, s2: bv8, s3: bv8) returns (x: bv32)
    ensures Unpack(x) == XorColumn(Column(s0, s1, s2, s3), Unpack(k))
  {
    hide Xor, Lane, XorColumn, Unpack;
    x := Xor(Xor(Xor(Xor(k, Lane(s0, 0)), Lane(s1, 1)), Lane(s2, 2)), Lane(s3, 3));
    UnpackXor(k, Lane(s0, 0));
    UnpackXor(Xor(k, Lane(s0, 0)), Lane(s1, 1));
    UnpackXor(Xor(Xor(k, Lane(s0, 0)), Lane(s1, 1)), Lane(s2, 2));
    UnpackXor(Xor(Xor(Xor(k, Lane(s0, 0)), Lane(s1, 1)), Lane(s2, 2)), Lane(s3, 3));
    UnpackLane(s0);
    UnpackLane(s1);
    UnpackLane(s2);
    UnpackLane(s3);
    LaneSum(Unpack(k), s0, s1, s2, s3);
  }

  // The last round reads one of the S-boxes, box, without mixing.
  method LastWord(box: array<bv8>, k: bv32, y0: bv32, y1: bv32, y2: bv32, y3: bv32) returns (x: bv32)
    requires box.Length == 256
    ensures Unpack(x)
         == XorColumn(Column(box[Index(Byte(y0, 0))], box[Index(Byte(y1, 1))], box[Index(Byte(y2, 2))],
                             box[Index(Byte(y3, 3))]), Unpack(k))
  {
    hide Byte, XorColumn, Unpack;
    x := AddLanes(k, box[Index(Byte(y0, 0))], box[Index(Byte(y1, 1))], box[Index(Byte(y2, 2))],
                  box[Index(Byte(y3, 3))]);
  }

  lemma LaneSum(k: Column, s0: bv8, s1: bv8, s2: bv8, s3: bv8)
    ensures XorColumn(XorColumn(XorColumn(XorColumn(k, Column(s0, 0, 0, 0)), Column(0, s1, 0, 0)),
                                Column(0, 0, s2, 0)), Column(0, 0, 0, s3))
         == XorColumn(Column(s0, s1, s2, s3), k)
  {
    hide Add;
    XorColumnCommutes(k, Column(s0, s1, s2, s3));
    AddZero(k.r1);
    AddZero(k.r2);
    AddZero(k.r3);
    AddZero(Add(k.r0, s0));
    AddZero(Add(k.r1, s1));
    AddZero(Add(k.r2, s2));
  }

  method LastEncryptRound(t: Tables, rk: array<bv32>, pos: nat, y0: bv32, y1: bv32, y2: bv32, y3: bv32)
    returns (x0: bv32, x1: bv32, x2: bv32, x3: bv32)
    requires t.Ready() && pos + 4 <= rk.Length
    ensures Words(x0, x1, x2, x3) == AddRoundKey(ShiftRows(SubBytes(Words(y0, y1, y2, y3))),
                                                 Words(rk[pos], rk[pos + 1], rk[pos + 2], rk[pos + 3]))
  {
    hide XorColumn, SBox, Byte, Index, ByteOf;
    assert SBoxTable(t.FSb);
    hide Tables.Ready;
    x0 := LastWord(t.FSb, rk[pos], y0, y1, y2, y3);
    x1 := LastWord(t.FSb, rk[pos + 1], y1, y2, y3, y0);
    x2 := LastWord(t.FSb, rk[pos + 2], y2, y3, y0, y1);
    x3 := LastWord(t.FSb, rk[pos + 3], y3, y0, y1, y2);
  }

  method LastDecryptRound(t: Tables, rk: array<bv32>, pos: nat, y0: bv32, y1: bv32, y2: bv32, y3: bv32)
    returns (x0: bv32, x1: bv32, x2: bv32, x3: bv32)
    requires t.Ready() && pos + 4 <= rk.Length
    ensures Words(x0, x1, x2, x3) == AddRoundKey(InvSubBytes(InvShiftRows(Words(y0, y1, y2, y3))),
                                                 Words(rk[pos], rk[pos + 1], rk[pos + 2], rk[pos + 3]))
  {
    hide XorColumn, InvSBox, Byte, Index, ByteOf;
    assert InvSBoxTable(t.RSb);
    hide Tables.Ready;
    x0 := LastWord(t.RSb, rk[pos], y0, y3, y2, y1);
    x1 := LastWord(t.RSb, rk[pos + 1], y1, y0, y3, y2);
    x2 := LastWord(t.RSb, rk[pos + 2], y2, y1, y0, y3);
    x3 := LastWord(t.RSb, rk[pos + 3], y3, y2, y1, y0);
  }

  lemma XorColumnCommutes(a: Column, b: Column)
    ensures XorColumn(a, b) == XorColumn(b, a)
  {
    hide Add;
    AddCommutes(a.r0, b.r0);
    AddCommutes(a.r1, b.r1);
    AddCommutes(a.r2, b.r2);
    AddCommutes(a.r3, b.r3);
  }

  //// Key schedules

  // aes_context for 256-bit keys: the round key pointer of the source always points at buf.
  class AesContext {
    const buf: array<bv32>

    constructor ()
      ensures buf.Length == 68 && fresh(buf)
    {
      buf := new bv32[68];
    }
  }

  ghost predicate EncWords(rk: array<bv32>, key: Key, n: nat)
    reads rk
  {
    n <= rk.Length && forall k | 0 <= k < n :: Unpack(rk[k]) == Word(key, k)
  }

  // One of the seven turns of the key expansion: eight more words.
  method ExpandEight(t: Tables, rk: array<bv32>, i: nat, ghost key: Key)
    requires t.Ready() && rk !in t.WordTables() && rk.Length == 68 && i < 7
    requires EncWords(rk, key, 8 * i + 8)
    modifies rk
    ensures t.Ready() && EncWords(rk, key, 8 * i + 16)
  {
    hide Tables.Ready, Xor, XorColumn, SubWord, RotWord, Unpack, Word, Rcon, EncWords;
    var p := 8 * i;
    var x := RotatedWord(t, rk, i, key);
    AppendFour(rk, p + 8, x, key);
    x := SubstitutedWord(t, rk, p + 12, key);
    AppendFour(rk, p + 12, x, key);
  }

  method RotatedWord(t: Tables, rk: array<bv32>, i: nat, ghost key: Key) returns (x: bv32)
    requires t.Ready() && i < 7 && EncWords(rk, key, 8 * i + 8)
    ensures Unpack(x) == Word(key, 8 * i + 8)
  {
    hide Tables.Ready, Xor, XorColumn, SubWord, RotWord, Unpack, Word, Rcon;
    var p := 8 * i;
    var rcon := Constant(t, i);
    UnpackXor(rk[p], rcon);
    x := SubWordOf(t, Xor(rk[p], rcon), rk[p + 7], true);
    ConstantFirst(Word(key, p), Unpack(rcon), SubWord(RotWord(Word(key, p + 7))));
    WordStep(key, p + 8);
  }

  method SubstitutedWord(t: Tables, rk: array<bv32>, p: nat, ghost key: Key) returns (x: bv32)
    requires t.Ready() && p % 8 == 4 && p >= 8 && EncWords(rk, key, p)
    ensures Unpack(x) == Word(key, p)
  {
    hide Tables.Ready, Xor, XorColumn, SubWord, RotWord, Unpack, Word, Rcon;
    x := SubWordOf(t, rk[p - 8], rk[p - 1], false);
    XorColumnCommutes(Word(key, p - 8), SubWord(Word(key, p - 1)));
    WordStep(key, p);
  }

  // Stores a word and the three words that follow from it.
  method AppendFour(rk: array<bv32>, p: nat, x: bv32, ghost key: Key)
    requires p % 4 == 0 && 8 <= p && p + 4 <= rk.Length
    requires EncWords(rk, key, p) && Unpack(x) == Word(key, p)
    modifies rk
    ensures EncWords(rk, key, p + 4)
  {
    hide Xor, XorColumn, Unpack, Word;
    rk[p] := x;
    AppendOne(rk, p + 1, key);
    AppendOne(rk, p + 2, key);
    AppendOne(rk, p + 3, key);
  }

  method AppendOne(rk: array<bv32>, p: nat, ghost key: Key)
    requires p % 4 != 0 && 8 < p < rk.Length && EncWords(rk, key, p)
    modifies rk
    ensures EncWords(rk, key, p + 1)
  {
    hide Xor, XorColumn, Unpack, Word;
    UnpackXor(rk[p - 8], rk[p - 1]);
    WordStep(key, p);
    rk[p] := Xor(rk[p - 8], rk[p - 1]);
  }

  method Constant(t: Tables, i: nat) returns (w: bv32)
    requires t.Ready() && i < 10
    ensures Unpack(w) == Column(Rcon(i + 1), 0, 0, 0)
  {
    hide Unpack, Rcon;
    w := t.RCON[i];
  }

  // The four S-box images of a word, rotated or not, added to another word.
  method SubWordOf(t: Tables, k: bv32, w: bv32, rotate: bool) returns (x: bv32)
    requires t.Ready()
    ensures Unpack(x) == XorColumn(SubWord(if rotate then RotWord(Unpack(w)) else Unpack(w)), Unpack(k))
  {
    hide Byte, SBox, XorColumn, Index, ByteOf;
    assert SBoxTable(t.FSb);
    hide Tables.Ready;
    var s0, s1 := t.FSb[Index(Byte(w, 0))], t.FSb[Index(Byte(w, 1))];
    var s2, s3 := t.FSb[Index(Byte(w, 2))], t.FSb[Index(Byte(w, 3))];
    if rotate {
      x := AddLanes(k, s1, s2, s3, s0);
    } else {
      x := AddLanes(k, s0, s1, s2, s3);
    }
  }

  lemma ConstantFirst(w: Column, rc: Column, s: Column)
    ensures XorColumn(s, XorColumn(w, rc)) == XorColumn(w, XorColumn(s, rc))
  {
    hide Add;
    AddSwap(s.r0, w.r0, rc.r0);
    AddSwap(s.r1, w.r1, rc.r1);
    AddSwap(s.r2, w.r2, rc.r2);
    AddSwap(s.r3, w.r3, rc.r3);
  }

  lemma AddSwap(x: bv8, y: bv8, z: bv8)
    ensures Add(x, Add(y, z)) == Add(y, Add(x, z))
  {
    hide Add;
    AddAssociates(x, y, z);
    AddAssociates(y, x, z);
    AddCommutes(x, y);
  }

  // aes_setkey_enc with keysize 256.
  method AesSetkeyEnc(t: Tables, ctx: AesContext, key: array<bv8>)
    requires t.Ready() && ctx.buf !in t.WordTables() && ctx.buf.Length == 68 && key.Length == 32
    modifies ctx.buf
    ensures t.Ready() && EncWords(ctx.buf, KeyAt(key[..]), 60)
  {
    hide Tables.Ready, Unpack, GetUlongLe, ColumnAt;
    var rk := ctx.buf;
    ghost var k := KeyAt(key[..]);
    var i := 0;
    while i < 8
      invariant 0 <= i <= 8
      invariant t.Ready()
      invariant EncWords(rk, k, i)
    {
      rk[i] := GetUlongLe(key[..], 4 * i);
      UnpackGet(key[..], 4 * i);
      i := i + 1;
    }
    i := 0;
    while i < 7
      invariant 0 <= i <= 7
      invariant t.Ready()
      invariant EncWords(rk, k, 8 * i + 8)
    {
      ExpandEight(t, rk, i, k);
      i := i + 1;
    }
  }

  // Words 4 * r to 4 * r + 3 of rk are the given round key.
  ghost predicate HoldsKey(rk: array<bv32>, r: nat, k: Block)
    requires 4 * r + 4 <= rk.Length
    reads rk
  {
    Words(rk[4 * r], rk[4 * r + 1], rk[4 * r + 2], rk[4 * r + 3]) == k
  }

  lemma EncRoundKey(rk: array<bv32>, key: Key, r: nat)
    requires EncWords(rk, key, 60) && r <= ROUNDS
    ensures HoldsKey(rk, r, RoundKey(key, r))
  {
    hide Unpack, Word;
  }

  // The first n of the fifteen round keys of the equivalent inverse cipher.
  ghost predicate DecKeys(rk: array<bv32>, key: Key, n: nat)
    requires rk.Length == 68 && n <= ROUNDS + 1
    reads rk
  {
    forall r | 0 <= r < n :: HoldsKey(rk, r, InvRoundKey(key, r))
  }

  // The word that the reverse tables, entered through the S-box, give for a word of the key.
  method InvMixWord(t: Tables, w: bv32) returns (x: bv32)
    requires t.Ready()
    ensures Unpack(x) == InvMixColumn(Unpack(w))
  {
    hide Byte, Xor, Index, ByteOf, SBox, InvSBox, XorColumn, InvMixColumn, Reverse;
    var b0, b1, b2, b3 := Byte(w, 0), Byte(w, 1), Byte(w, 2), Byte(w, 3);
    var f0 := ReverseOfImage(t.FSb, t.RT0, 0, b0);
    var f1 := ReverseOfImage(t.FSb, t.RT1, 1, b1);
    var f2 := ReverseOfImage(t.FSb, t.RT2, 2, b2);
    var f3 := ReverseOfImage(t.FSb, t.RT3, 3, b3);
    assert Unpack(w) == Column(b0, b1, b2, b3);
    hide Unpack, Tables.Ready, SBoxTable, InvSBoxTable, ForwardTable, ReverseTable, RconTable;
    x := Xor(Xor(Xor(f0, f1), f2), f3);
    UnpackXor(f0, f1);
    UnpackXor(Xor(f0, f1), f2);
    UnpackXor(Xor(Xor(f0, f1), f2), f3);
    ReverseSumAlone(Unpack(w));
  }

  method ReverseOfImage(fsb: array<bv8>, rt: array<bv32>, n: nat, b: bv8) returns (f: bv32)
    requires n < 4 && SBoxTable(fsb) && ReverseTable(rt, n)
    ensures Unpack(f) == Reverse(b, n)
  {
    hide Unpack, Index, ByteOf, SBox, InvSBox, Reverse;
    SBoxInverse(b);
    f := rt[Index(fsb[Index(b)])];
  }

  lemma ReverseSumAlone(v: Column)
    ensures XorColumn(XorColumn(XorColumn(Reverse(v.r0, 0), Reverse(v.r1, 1)), Reverse(v.r2, 2)), Reverse(v.r3, 3))
         == InvMixColumn(v)
  {
    hide Mul, Add;
    var m := InvMixColumn(v);
    AddAssociates(Add(Mul(v.r0, 0x0e), Mul(v.r1, 0x0b)), Mul(v.r2, 0x0d), Mul(v.r3, 0x09));
    AddAssociates(Add(Mul(v.r0, 0x09), Mul(v.r1, 0x0e)), Mul(v.r2, 0x0b), Mul(v.r3, 0x0d));
    AddAssociates(Add(Mul(v.r0, 0x0d), Mul(v.r1, 0x09)), Mul(v.r2, 0x0e), Mul(v.r3, 0x0b));
    AddAssociates(Add(Mul(v.r0, 0x0b), Mul(v.r1, 0x0d)), Mul(v.r2, 0x09), Mul(v.r3, 0x0e));
  }

  // Stores the words of the next round key.
  method StoreKey(rk: array<bv32>, r: nat, w0: bv32, w1: bv32, w2: bv32, w3: bv32, ghost key: Key)
    requires r <= ROUNDS && rk.Length == 68 && DecKeys(rk, key, r) && Words(w0, w1, w2, w3) == InvRoundKey(key, r)
    modifies rk
    ensures DecKeys(rk, key, r + 1)
  {
    hide Words, InvRoundKey;
    rk[4 * r] := w0;
    rk[4 * r + 1] := w1;
    rk[4 * r + 2] := w2;
    rk[4 * r + 3] := w3;
  }

  // Copies round key q of the encryption, for the first and the last step.
  method CopyKey(rk: array<bv32>, r: nat, sk: array<bv32>, ghost key: Key)
    requires rk != sk && rk.Length == sk.Length == 68 && (r == 0 || r == ROUNDS)
    requires EncWords(sk, key, 60) && DecKeys(rk, key, r)
    modifies rk
    ensures DecKeys(rk, key, r + 1)
  {
    hide Words, RoundKey, EncWords, InvMixColumns, DecKeys;
    var q := ROUNDS - r;
    EncRoundKey(sk, key, q);
    StoreKey(rk, r, sk[4 * q], sk[4 * q + 1], sk[4 * q + 2], sk[4 * q + 3], key);
  }

  // One turn of the loop of aes_setkey_dec: a round key through InvMixColumns.
  method MixKey(t: Tables, rk: array<bv32>, r: nat, sk: array<bv32>, ghost key: Key)
    requires t.Ready() && rk !in t.WordTables()
    requires rk != sk && rk.Length == sk.Length == 68 && 0 < r < ROUNDS
    requires EncWords(sk, key, 60) && DecKeys(rk, key, r)
    modifies rk
    ensures t.Ready() && DecKeys(rk, key, r + 1)
  {
    hide Unpack, RoundKey, EncWords, InvMixColumn, Tables.Ready, DecKeys;
    var q := ROUNDS - r;
    EncRoundKey(sk, key, q);
    var w0 := InvMixWord(t, sk[4 * q]);
    var w1 := InvMixWord(t, sk[4 * q + 1]);
    var w2 := InvMixWord(t, sk[4 * q + 2]);
    var w3 := InvMixWord(t, sk[4 * q + 3]);
    StoreKey(rk, r, w0, w1, w2, w3, key);
  }

  // aes_setkey_dec with keysize 256.
  method AesSetkeyDec(t: Tables, ctx: AesContext, key: array<bv8>)
    requires t.Ready() && ctx.buf !in t.WordTables() && ctx.buf.Length == 68 && key.Length == 32
    modifies ctx.buf
    ensures t.Ready() && DecKeys(ctx.buf, KeyAt(key[..]), 15)
  {
    hide Tables.Ready, EncWords, DecKeys, KeyAt;
    var cty := new AesContext();
    AesSetkeyEnc(t, cty, key);
    ghost var k := KeyAt(key[..]);
    var rk, sk := ctx.buf, cty.buf;
    NoKeys(rk, k);
    CopyKey(rk, 0, sk, k);
    var i := 13;
    while i > 0
      invariant 0 <= i <= 13
      invariant t.Ready() && EncWords(sk, k, 60)
      invariant DecKeys(rk, k, 14 - i)
    {
      MixKey(t, rk, 14 - i, sk, k);
      i := i - 1;
    }
    CopyKey(rk, 14, sk, k);
  }

  lemma NoKeys(rk: array<bv32>, key: Key)
    requires rk.Length == 68
    ensures DecKeys(rk, key, 0)
  {}

  //// aes_crypt_ecb

  // PUT_ULONG_LE.
  method PutUlongLe(w: bv32, b: array<bv8>, i: nat)
    requires i + 4 <= b.Length
    modifies b
    ensures ColumnAt(b[..], i) == Unpack(w)
    ensures forall k | 0 <= k < b.Length && !(i <= k < i + 4) :: b[k] == old(b[k])
  {
    hide Byte;
    b[i] := Byte(w, 0);
    b[i + 1] := Byte(w, 1);
    b[i + 2] := Byte(w, 2);
    b[i + 3] := Byte(w, 3);
  }

  method PutBlock(x0: bv32, x1: bv32, x2: bv32, x3: bv32, output: array<bv8>)
    requires output.Length == 16
    modifies output
    ensures BlockAt(output[..], 0) == Words(x0, x1, x2, x3)
  {
    hide Unpack;
    PutUlongLe(x0, output, 0);
    PutUlongLe(x1, output, 4);
    PutUlongLe(x2, output, 8);
    PutUlongLe(x3, output, 12);
  }

  // The input block with the first round key added.
  method GetBlock(rk: array<bv32>, input: array<bv8>) returns (x0: bv32, x1: bv32, x2: bv32, x3: bv32)
    requires input.Length == 16 && rk.Length == 68
    ensures Words(x0, x1, x2, x3) == AddRoundKey(BlockAt(input[..], 0), Words(rk[0], rk[1], rk[2], rk[3]))
  {
    hide Unpack, GetUlongLe, Xor, XorColumn, ColumnAt;
    UnpackGet(input[..], 0);
    UnpackGet(input[..], 4);
    UnpackGet(input[..], 8);
    UnpackGet(input[..], 12);
    x0, x1 := GetUlongLe(input[..], 0), GetUlongLe(input[..], 4);
    x2, x3 := GetUlongLe(input[..], 8), GetUlongLe(input[..], 12);
    UnpackXor(x0, rk[0]);
    UnpackXor(x1, rk[1]);
    UnpackXor(x2, rk[2]);
    UnpackXor(x3, rk[3]);
    x0, x1, x2, x3 := Xor(x0, rk[0]), Xor(x1, rk[1]), Xor(x2, rk[2]), Xor(x3, rk[3]);
  }

  // aes_crypt_ecb with mode AES_ENCRYPT.
  method CryptEcbEncrypt(t: Tables, ctx: AesContext, ghost key: Key, input: array<bv8>, output: array<bv8>)
    requires t.Ready() && output != t.FSb && output != t.RSb
    requires ctx.buf.Length == 68 && EncWords(ctx.buf, key, 60) && input.Length == output.Length == 16
    modifies output
    ensures BlockAt(output[..], 0) == Cipher(key, old(BlockAt(input[..], 0)))
  {
    hide Tables.Ready, EncWords, Words, BlockAt, RoundKey, AddRoundKey, MixColumns, ShiftRows, SubBytes;
    ghost var b := BlockAt(input[..], 0);
    var rk := ctx.buf;
    EncRoundKey(rk, key, 0);
    var x0, x1, x2, x3 := GetBlock(rk, input);
    var i := 6;
    while i > 0
      invariant 0 <= i <= 6
      invariant Words(x0, x1, x2, x3) == Rounds(key, b, 12 - 2 * i)
    {
      var y0, y1, y2, y3 := CipherRound(t, rk, key, b, 13 - 2 * i, x0, x1, x2, x3);
      x0, x1, x2, x3 := CipherRound(t, rk, key, b, 14 - 2 * i, y0, y1, y2, y3);
      i := i - 1;
    }
    var y0, y1, y2, y3 := CipherRound(t, rk, key, b, 13, x0, x1, x2, x3);
    EncRoundKey(rk, key, 14);
    x0, x1, x2, x3 := LastEncryptRound(t, rk, 56, y0, y1, y2, y3);
    PutBlock(x0, x1, x2, x3, output);
  }

  // Round r of the cipher; RK points at word 4 * r.
  method CipherRound(t: Tables, rk: array<bv32>, ghost key: Key, ghost b: Block, r: nat, y0: bv32, y1: bv32,
                     y2: bv32, y3: bv32)
    returns (x0: bv32, x1: bv32, x2: bv32, x3: bv32)
    requires t.Ready() && rk.Length == 68 && EncWords(rk, key, 60)
    requires 1 <= r < ROUNDS && Words(y0, y1, y2, y3) == Rounds(key, b, r - 1)
    ensures Words(x0, x1, x2, x3) == Rounds(key, b, r)
  {
    hide Tables.Ready, EncWords, Words, RoundKey, AddRoundKey, MixColumns, ShiftRows, SubBytes;
    EncRoundKey(rk, key, r);
    x0, x1, x2, x3 := AesFRound(t, rk, 4 * r, y0, y1, y2, y3);
  }

  // aes_crypt_ecb with mode AES_DECRYPT: the equivalent inverse cipher.
  method CryptEcbDecrypt(t: Tables, ctx: AesContext, ghost key: Key, input: array<bv8>, output: array<bv8>)
    requires t.Ready() && output != t.FSb && output != t.RSb
    requires ctx.buf.Length == 68 && DecKeys(ctx.buf, key, 15) && input.Length == output.Length == 16
    modifies output
    ensures BlockAt(output[..], 0) == InvCipher(key, old(BlockAt(input[..], 0)))
  {
    hide Tables.Ready, Words, BlockAt, InvCipher, InvRoundKey, AddRoundKey, InvMixColumns, InvShiftRows, InvSubBytes;
    ghost var b := BlockAt(input[..], 0);
    var rk := ctx.buf;
    assert HoldsKey(rk, 0, InvRoundKey(key, 0));
    var x0, x1, x2, x3 := GetBlock(rk, input);
    var i := 6;
    while i > 0
      invariant 0 <= i <= 6
      invariant Words(x0, x1, x2, x3) == EqInvRounds(key, b, 12 - 2 * i)
    {
      var y0, y1, y2, y3 := InvCipherRound(t, rk, key, b, 13 - 2 * i, x0, x1, x2, x3);
      x0, x1, x2, x3 := InvCipherRound(t, rk, key, b, 14 - 2 * i, y0, y1, y2, y3);
      i := i - 1;
    }
    var y0, y1, y2, y3 := InvCipherRound(t, rk, key, b, 13, x0, x1, x2, x3);
    assert HoldsKey(rk, 14, InvRoundKey(key, 14));
    x0, x1, x2, x3 := LastDecryptRound(t, rk, 56, y0, y1, y2, y3);
    EqInvCipherIsInvCipher(key, b);
    PutBlock(x0, x1, x2, x3, output);
  }

  method InvCipherRound(t: Tables, rk: array<bv32>, ghost key: Key, ghost b: Block, r: nat, y0: bv32, y1: bv32,
                        y2: bv32, y3: bv32)
    returns (x0: bv32, x1: bv32, x2: bv32, x3: bv32)
    requires t.Ready() && rk.Length == 68 && DecKeys(rk, key, 15)
    requires 1 <= r < ROUNDS && Words(y0, y1, y2, y3) == EqInvRounds(key, b, r - 1)
    ensures Words(x0, x1, x2, x3) == EqInvRounds(key, b, r)
  {
    hide Tables.Ready, Words, InvRoundKey, AddRoundKey, InvMixColumns, InvShiftRows, InvSubBytes;
    assert HoldsKey(rk, r, InvRoundKey(key, r));
    x0, x1, x2, x3 := AesRRound(t, rk, 4 * r, y0, y1, y2, y3);
  }

  //// crypto_aes_encrypt and crypto_aes_decrypt over this implementation

  method CryptoAesEncrypt(key: array<bv8>, plain: array<bv8>, encrypted: array<bv8>)
    requires key.Length == 32 && plain.Length == encrypted.Length == 16
    modifies encrypted
    ensures BlockAt(encrypted[..], 0) == Cipher(old(KeyAt(key[..])), old(BlockAt(plain[..], 0)))
  {
    hide Cipher, InvCipher, KeyAt, BlockAt, EncWords, DecKeys;
    var t := GenTables();
    var ctx := new AesContext();
    AesSetkeyEnc(t, ctx, key);
    CryptEcbEncrypt(t, ctx, KeyAt(key[..]), plain, encrypted);
  }

  method CryptoAesDecrypt(key: array<bv8>, encrypted: array<bv8>, decrypted: array<bv8>)
    requires key.Length == 32 && encrypted.Length == decrypted.Length == 16
    modifies decrypted
    ensures BlockAt(decrypted[..], 0) == InvCipher(old(KeyAt(key[..])), old(BlockAt(encrypted[..], 0)))
  {
    hide Cipher, InvCipher, KeyAt, BlockAt, EncWords, DecKeys;
    var t := GenTables();
    var ctx := new AesContext();
    AesSetkeyDec(t, ctx, key);
    CryptEcbDecrypt(t, ctx, KeyAt(key[..]), encrypted, decrypted);
  }
}
