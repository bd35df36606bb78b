// AES with 256-bit keys as FIPS 197 defines it: the cipher, the inverse cipher and the equivalent
// inverse cipher. The two C implementations are proved against these functions.
module Aes {
  import opened Gf256

  // A column of the state, and a word of the key schedule: the bytes of rows 0 to 3.
  datatype Column = Column(r0: bv8, r1: bv8, r2: bv8, r3: bv8)

  datatype Block = Block(c0: Column, c1: Column, c2: Column, c3: Column)

  type Key = k: seq<Column> | |k| == 8 witness seq(8, i => Column(0, 0, 0, 0))

  const ROUNDS: nat := 14

  //// S-boxes

  function Rotl(x: bv8, n: bv8): bv8
    requires 0 < n < 8
  {
    (x << n) | (x >> (8 - n))
  }

  // The affine transformation of section 5.1.1 and its inverse.
  function Affine(x: bv8): bv8 {
    x ^ Rotl(x, 1) ^ Rotl(x, 2) ^ Rotl(x, 3) ^ Rotl(x, 4) ^ 0x63
  }

  function InvAffine(x: bv8): bv8 {
    Rotl(x, 1) ^ Rotl(x, 3) ^ Rotl(x, 6) ^ 0x05
  }

  ghost function SBox(x: bv8): bv8 {
    Affine(Inverse(x))
  }

  ghost function InvSBox(x: bv8): bv8 {
    Inverse(InvAffine(x))
  }

  // Both implementations rotate one step at a time.
  lemma RotationSteps(y: bv8)
    ensures
      var y1 := (y << 1) | (y >> 7);
      var y2 := (y1 << 1) | (y1 >> 7);
      var y3 := (y2 << 1) | (y2 >> 7);
      var y4 := (y3 << 1) | (y3 >> 7);
      y1 == Rotl(y, 1) && y2 == Rotl(y, 2) && y3 == Rotl(y, 3) && y4 == Rotl(y, 4)
  {}

  lemma AffineInverse(x: bv8)
    ensures InvAffine(Affine(x)) == x && Affine(InvAffine(x)) == x
  {}

  lemma SBoxInverse(x: bv8)
    ensures InvSBox(SBox(x)) == x && SBox(InvSBox(x)) == x
  {
    hide Affine, InvAffine;
    AffineInverse(Inverse(x));
    AffineInverse(x);
    InverseInvolution(x);
    InverseInvolution(InvAffine(x));
  }

  //// Columns

  function XorColumn(a: Column, b: Column): Column {
    Column(Add(a.r0, b.r0), Add(a.r1, b.r1), Add(a.r2, b.r2), Add(a.r3, b.r3))
  }

  // The row (k0, k1, k2, k3) of a matrix times a column.
  function Dot(c: Column, k0: bv8, k1: bv8, k2: bv8, k3: bv8): bv8 {
    Add(Add(Mul(c.r0, k0), Mul(c.r1, k1)), Add(Mul(c.r2, k2), Mul(c.r3, k3)))
  }

  function RotWord(c: Column): Column {
    Column(c.r1, c.r2, c.r3, c.r0)
  }

  ghost function SubWord(c: Column): Column {
    Column(SBox(c.r0), SBox(c.r1), SBox(c.r2), SBox(c.r3))
  }

  ghost function InvSubWord(c: Column): Column {
    Column(InvSBox(c.r0), InvSBox(c.r1), InvSBox(c.r2), InvSBox(c.r3))
  }

  // The matrices of sections 5.1.3 and 5.3.3.
  function MixColumn(c: Column): Column {
    Column(Dot(c, 2, 3, 1, 1), Dot(c, 1, 2, 3, 1), Dot(c, 1, 1, 2, 3), Dot(c, 3, 1, 1, 2))
  }

  function InvMixColumn(c: Column): Column {
    Column(Dot(c, 0x0e, 0x0b, 0x0d, 0x09), Dot(c, 0x09, 0x0e, 0x0b, 0x0d),
           Dot(c, 0x0d, 0x09, 0x0e, 0x0b), Dot(c, 0x0b, 0x0d, 0x09, 0x0e))
  }

  lemma MulAddLeft(x: bv8, y: bv8, k: bv8)
    ensures Mul(Add(x, y), k) == Add(Mul(x, k), Mul(y, k))
  {
    hide Mul, Add;
    MulCommutes(x, k);
    MulCommutes(y, k);
    MulCommutes(Add(x, y), k);
    MulAdd(k, x, y);
  }

  lemma DotXor(a: Column, b: Column, k0: bv8, k1: bv8, k2: bv8, k3: bv8)
    ensures Dot(XorColumn(a, b), k0, k1, k2, k3) == Add(Dot(a, k0, k1, k2, k3), Dot(b, k0, k1, k2, k3))
  {
    hide Mul, Add;
    MulAddLeft(a.r0, b.r0, k0);
    MulAddLeft(a.r1, b.r1, k1);
    MulAddLeft(a.r2, b.r2, k2);
    MulAddLeft(a.r3, b.r3, k3);
    AddInterchange(Mul(a.r0, k0), Mul(b.r0, k0), Mul(a.r1, k1), Mul(b.r1, k1));
    AddInterchange(Mul(a.r2, k2), Mul(b.r2, k2), Mul(a.r3, k3), Mul(b.r3, k3));
    AddInterchange(Add(Mul(a.r0, k0), Mul(a.r1, k1)), Add(Mul(b.r0, k0), Mul(b.r1, k1)),
                   Add(Mul(a.r2, k2), Mul(a.r3, k3)), Add(Mul(b.r2, k2), Mul(b.r3, k3)));
  }

  // InvMixColumn is linear, which is what lets the round key move past it.
  lemma InvMixColumnXor(a: Column, b: Column)
    ensures InvMixColumn(XorColumn(a, b)) == XorColumn(InvMixColumn(a), InvMixColumn(b))
  {
    hide Dot, Add;
    DotXor(a, b, 0x0e, 0x0b, 0x0d, 0x09);
    DotXor(a, b, 0x09, 0x0e, 0x0b, 0x0d);
    DotXor(a, b, 0x0d, 0x09, 0x0e, 0x0b);
    DotXor(a, b, 0x0b, 0x0d, 0x09, 0x0e);
  }

  //// InvMixColumn inverts MixColumn: a product of two matrices over the field

  lemma DotScale(c: Column, a0: bv8, a1: bv8, a2: bv8, a3: bv8, k: bv8)
    ensures Mul(Dot(c, a0, a1, a2, a3), k) == Dot(c, Mul(a0, k), Mul(a1, k), Mul(a2, k), Mul(a3, k))
  {
    hide Mul, Add;
    MulAddLeft(Add(Mul(c.r0, a0), Mul(c.r1, a1)), Add(Mul(c.r2, a2), Mul(c.r3, a3)), k);
    MulAddLeft(Mul(c.r0, a0), Mul(c.r1, a1), k);
    MulAddLeft(Mul(c.r2, a2), Mul(c.r3, a3), k);
    MulAssociates(c.r0, a0, k);
    MulAssociates(c.r1, a1, k);
    MulAssociates(c.r2, a2, k);
    MulAssociates(c.r3, a3, k);
  }

  lemma DotAdd(c: Column, a0: bv8, a1: bv8, a2: bv8, a3: bv8, b0: bv8, b1: bv8, b2: bv8, b3: bv8)
    ensures Add(Dot(c, a0, a1, a2, a3), Dot(c, b0, b1, b2, b3))
         == Dot(c, Add(a0, b0), Add(a1, b1), Add(a2, b2), Add(a3, b3))
  {
    hide Mul, Add;
    MulAdd(c.r0, a0, b0);
    MulAdd(c.r1, a1, b1);
    MulAdd(c.r2, a2, b2);
    MulAdd(c.r3, a3, b3);
    AddInterchange(Mul(c.r0, a0), Mul(c.r1, a1), Mul(c.r0, b0), Mul(c.r1, b1));
    AddInterchange(Mul(c.r2, a2), Mul(c.r3, a3), Mul(c.r2, b2), Mul(c.r3, b3));
    AddInterchange(Add(Mul(c.r0, a0), Mul(c.r1, a1)), Add(Mul(c.r2, a2), Mul(c.r3, a3)),
                   Add(Mul(c.r0, b0), Mul(c.r1, b1)), Add(Mul(c.r2, b2), Mul(c.r3, b3)));
  }

  // An entry of the product of a row and the MixColumn matrix.
  function Entry(k0: bv8, k1: bv8, k2: bv8, k3: bv8, m0: bv8, m1: bv8, m2: bv8, m3: bv8): bv8 {
    Add(Add(Mul(m0, k0), Mul(m1, k1)), Add(Mul(m2, k2), Mul(m3, k3)))
  }

  lemma DotOfMixColumn(c: Column, k0: bv8, k1: bv8, k2: bv8, k3: bv8)
    ensures Dot(MixColumn(c), k0, k1, k2, k3)
         == Dot(c, Entry(k0, k1, k2, k3, 2, 1, 1, 3), Entry(k0, k1, k2, k3, 3, 2, 1, 1),
                   Entry(k0, k1, k2, k3, 1, 3, 2, 1), Entry(k0, k1, k2, k3, 1, 1, 3, 2))
  {
    var m := MixColumn(c);
    assert Dot(m, k0, k1, k2, k3) == Add(Add(Mul(m.r0, k0), Mul(m.r1, k1)), Add(Mul(m.r2, k2), Mul(m.r3, k3)));
    hide Mul, Add, Dot;
    DotScale(c, 2, 3, 1, 1, k0);
    DotScale(c, 1, 2, 3, 1, k1);
    DotScale(c, 1, 1, 2, 3, k2);
    DotScale(c, 3, 1, 1, 2, k3);
    DotAdd(c, Mul(2, k0), Mul(3, k0), Mul(1, k0), Mul(1, k0), Mul(1, k1), Mul(2, k1), Mul(3, k1), Mul(1, k1));
    DotAdd(c, Mul(1, k2), Mul(1, k2), Mul(2, k2), Mul(3, k2), Mul(3, k3), Mul(1, k3), Mul(1, k3), Mul(2, k3));
    DotAdd(c, Add(Mul(2, k0), Mul(1, k1)), Add(Mul(3, k0), Mul(2, k1)), Add(Mul(1, k0), Mul(3, k1)),
           Add(Mul(1, k0), Mul(1, k1)),
           Add(Mul(1, k2), Mul(3, k3)), Add(Mul(1, k2), Mul(1, k3)), Add(Mul(2, k2), Mul(1, k3)),
           Add(Mul(3, k2), Mul(2, k3)));
  }

  lemma Products()
    ensures Mul(1, 0x0e) == 0x0e && Mul(2, 0x0e) == 0x1c && Mul(3, 0x0e) == 0x12
    ensures Mul(1, 0x0b) == 0x0b && Mul(2, 0x0b) == 0x16 && Mul(3, 0x0b) == 0x1d
    ensures Mul(1, 0x0d) == 0x0d && Mul(2, 0x0d) == 0x1a && Mul(3, 0x0d) == 0x17
    ensures Mul(1, 0x09) == 0x09 && Mul(2, 0x09) == 0x12 && Mul(3, 0x09) == 0x1b
  {
    SmallProducts(0x0e);
    SmallProducts(0x0b);
    SmallProducts(0x0d);
    SmallProducts(0x09);
  }

  lemma SmallProducts(k: bv8)
    ensures Mul(1, k) == k && Mul(2, k) == XTime(k) && Mul(3, k) == Times3(k)
  {
    hide Add, XTime, Mul;
    MulCommutes(1, k);
    MulCommutes(2, k);
    MulCommutes(3, k);
    MulOne(k);
    MulEven(k, 2);
    MulOdd(k, 3);
    MulOne(XTime(k));
  }

  lemma DotUnit(c: Column)
    ensures Dot(c, 1, 0, 0, 0) == c.r0 && Dot(c, 0, 1, 0, 0) == c.r1
    ensures Dot(c, 0, 0, 1, 0) == c.r2 && Dot(c, 0, 0, 0, 1) == c.r3
  {
    hide Mul, Add;
    MulZero(c.r0);
    MulZero(c.r1);
    MulZero(c.r2);
    MulZero(c.r3);
    MulOne(c.r0);
    MulOne(c.r1);
    MulOne(c.r2);
    MulOne(c.r3);
    AddZero(c.r0);
    AddZero(c.r1);
    AddZero(c.r2);
    AddZero(c.r3);
    AddZero(0);
  }

  lemma MixColumnInverse(c: Column)
    ensures InvMixColumn(MixColumn(c)) == c
  {
    Rows();
    hide Mul, Add, Dot, Entry, MixColumn;
    DotOfMixColumn(c, 0x0e, 0x0b, 0x0d, 0x09);
    DotOfMixColumn(c, 0x09, 0x0e, 0x0b, 0x0d);
    DotOfMixColumn(c, 0x0d, 0x09, 0x0e, 0x0b);
    DotOfMixColumn(c, 0x0b, 0x0d, 0x09, 0x0e);
    DotUnit(c);
  }

  // The product of the two matrices is the identity.
  lemma Rows()
    ensures Entry(0x0e, 0x0b, 0x0d, 0x09, 2, 1, 1, 3) == 1 && Entry(0x0e, 0x0b, 0x0d, 0x09, 3, 2, 1, 1) == 0
    ensures Entry(0x0e, 0x0b, 0x0d, 0x09, 1, 3, 2, 1) == 0 && Entry(0x0e, 0x0b, 0x0d, 0x09, 1, 1, 3, 2) == 0
    ensures Entry(0x09, 0x0e, 0x0b, 0x0d, 2, 1, 1, 3) == 0 && Entry(0x09, 0x0e, 0x0b, 0x0d, 3, 2, 1, 1) == 1
    ensures Entry(0x09, 0x0e, 0x0b, 0x0d, 1, 3, 2, 1) == 0 && Entry(0x09, 0x0e, 0x0b, 0x0d, 1, 1, 3, 2) == 0
    ensures Entry(0x0d, 0x09, 0x0e, 0x0b, 2, 1, 1, 3) == 0 && Entry(0x0d, 0x09, 0x0e, 0x0b, 3, 2, 1, 1) == 0
    ensures Entry(0x0d, 0x09, 0x0e, 0x0b, 1, 3, 2, 1) == 1 && Entry(0x0d, 0x09, 0x0e, 0x0b, 1, 1, 3, 2) == 0
    ensures Entry(0x0b, 0x0d, 0x09, 0x0e, 2, 1, 1, 3) == 0 && Entry(0x0b, 0x0d, 0x09, 0x0e, 3, 2, 1, 1) == 0
    ensures Entry(0x0b, 0x0d, 0x09, 0x0e, 1, 3, 2, 1) == 0 && Entry(0x0b, 0x0d, 0x09, 0x0e, 1, 1, 3, 2) == 1
  {
    hide Mul;
    Products();
  }

  //// Blocks

  ghost function SubBytes(b: Block): Block {
    Block(SubWord(b.c0), SubWord(b.c1), SubWord(b.c2), SubWord(b.c3))
  }

  ghost function InvSubBytes(b: Block): Block {
    Block(InvSubWord(b.c0), InvSubWord(b.c1), InvSubWord(b.c2), InvSubWord(b.c3))
  }

  // Row r moves left by r columns.
  function ShiftRows(b: Block): Block {
    Block(Column(b.c0.r0, b.c1.r1, b.c2.r2, b.c3.r3), Column(b.c1.r0, b.c2.r1, b.c3.r2, b.c0.r3),
          Column(b.c2.r0, b.c3.r1, b.c0.r2, b.c1.r3), Column(b.c3.r0, b.c0.r1, b.c1.r2, b.c2.r3))
  }

  function InvShiftRows(b: Block): Block {
    Block(Column(b.c0.r0, b.c3.r1, b.c2.r2, b.c1.r3), Column(b.c1.r0, b.c0.r1, b.c3.r2, b.c2.r3),
          Column(b.c2.r0, b.c1.r1, b.c0.r2, b.c3.r3), Column(b.c3.r0, b.c2.r1, b.c1.r2, b.c0.r3))
  }

  function MixColumns(b: Block): Block {
    Block(MixColumn(b.c0), MixColumn(b.c1), MixColumn(b.c2), MixColumn(b.c3))
  }

  function InvMixColumns(b: Block): Block {
    Block(InvMixColumn(b.c0), InvMixColumn(b.c1), InvMixColumn(b.c2), InvMixColumn(b.c3))
  }

  function AddRoundKey(b: Block, k: Block): Block {
    Block(XorColumn(b.c0, k.c0), XorColumn(b.c1, k.c1), XorColumn(b.c2, k.c2), XorColumn(b.c3, k.c3))
  }

  //// Key expansion (section 5.2 with eight key words)

  function Rcon(i: nat): bv8 {
    if i <= 1 then 1 else XTime(Rcon(i - 1))
  }

  ghost function Word(key: Key, i: nat): Column {
    if i < 8 then key[i] else
      var t := Word(key, i - 1);
      XorColumn(Word(key, i - 8),
        if i % 8 == 0 then XorColumn(SubWord(RotWord(t)), Column(Rcon(i / 8), 0, 0, 0))
        else if i % 8 == 4 then SubWord(t)
        else t)
  }

  ghost function RoundKey(key: Key, r: nat): Block {
    Block(Word(key, 4 * r), Word(key, 4 * r + 1), Word(key, 4 * r + 2), Word(key, 4 * r + 3))
  }

  // How a word follows from earlier ones, by its place in a turn of eight.
  lemma WordStep(key: Key, i: nat)
    requires i >= 8
    ensures i % 8 == 0 ==>
      Word(key, i) == XorColumn(Word(key, i - 8),
                                XorColumn(SubWord(RotWord(Word(key, i - 1))), Column(Rcon(i / 8), 0, 0, 0)))
    ensures i % 8 == 4 ==> Word(key, i) == XorColumn(Word(key, i - 8), SubWord(Word(key, i - 1)))
    ensures i % 4 != 0 ==> Word(key, i) == XorColumn(Word(key, i - 8), Word(key, i - 1))
  {
    hide XorColumn, SubWord, RotWord, Rcon;
  }

  //// The cipher (section 5.1) and the inverse cipher (section 5.3)

  // The state after round r, for the rounds that mix columns.
  ghost function Rounds(key: Key, b: Block, r: nat): Block {
    if r == 0 then AddRoundKey(b, RoundKey(key, 0))
    else AddRoundKey(MixColumns(ShiftRows(SubBytes(Rounds(key, b, r - 1)))), RoundKey(key, r))
  }

  ghost function Cipher(key: Key, b: Block): Block {
    AddRoundKey(ShiftRows(SubBytes(Rounds(key, b, ROUNDS - 1))), RoundKey(key, ROUNDS))
  }

  // The state of the inverse cipher just before it adds round key r.
  ghost function InvRounds(key: Key, b: Block, r: nat): Block
    requires r < ROUNDS
    decreases ROUNDS - r
  {
    if r == ROUNDS - 1 then InvSubBytes(InvShiftRows(AddRoundKey(b, RoundKey(key, ROUNDS))))
    else InvSubBytes(InvShiftRows(InvMixColumns(AddRoundKey(InvRounds(key, b, r + 1), RoundKey(key, r + 1)))))
  }

  ghost function InvCipher(key: Key, b: Block): Block {
    AddRoundKey(InvRounds(key, b, 0), RoundKey(key, 0))
  }

  lemma AddRoundKeyTwice(b: Block, k: Block)
    ensures AddRoundKey(AddRoundKey(b, k), k) == b
  {
    XorColumnTwice(b.c0, k.c0);
    XorColumnTwice(b.c1, k.c1);
    XorColumnTwice(b.c2, k.c2);
    XorColumnTwice(b.c3, k.c3);
  }

  lemma XorColumnTwice(a: Column, b: Column)
    ensures XorColumn(XorColumn(a, b), b) == a
  {
    hide Add;
    AddSelf(a.r0, b.r0);
    AddSelf(a.r1, b.r1);
    AddSelf(a.r2, b.r2);
    AddSelf(a.r3, b.r3);
  }

  lemma SubWordInverse(c: Column)
    ensures InvSubWord(SubWord(c)) == c
  {
    hide SBox, InvSBox;
    SBoxInverse(c.r0);
    SBoxInverse(c.r1);
    SBoxInverse(c.r2);
    SBoxInverse(c.r3);
  }

  // The byte substitution and the row shift of the inverse cipher undo those of the cipher.
  lemma SubShiftInverse(b: Block)
    ensures InvSubBytes(InvShiftRows(ShiftRows(SubBytes(b)))) == b
  {
    hide SubWord, InvSubWord;
    SubWordInverse(b.c0);
    SubWordInverse(b.c1);
    SubWordInverse(b.c2);
    SubWordInverse(b.c3);
  }

  lemma MixColumnsInverse(b: Block)
    ensures InvMixColumns(MixColumns(b)) == b
  {
    hide MixColumn, InvMixColumn;
    MixColumnInverse(b.c0);
    MixColumnInverse(b.c1);
    MixColumnInverse(b.c2);
    MixColumnInverse(b.c3);
  }

  lemma {:induction false} InvRoundsUndo(key: Key, b: Block, r: nat)
    requires r < ROUNDS
    ensures InvRounds(key, Cipher(key, b), r) == Rounds(key, b, r)
    decreases ROUNDS - r
  {
    hide RoundKey, SubBytes, InvSubBytes, ShiftRows, InvShiftRows, MixColumns, InvMixColumns, AddRoundKey;
    var s := Rounds(key, b, r);
    SubShiftInverse(s);
    if r == ROUNDS - 1 {
      AddRoundKeyTwice(ShiftRows(SubBytes(s)), RoundKey(key, ROUNDS));
    } else {
      InvRoundsUndo(key, b, r + 1);
      AddRoundKeyTwice(MixColumns(ShiftRows(SubBytes(s))), RoundKey(key, r + 1));
      MixColumnsInverse(ShiftRows(SubBytes(s)));
    }
  }

  // Deciphering undoes enciphering for every key and block.
  lemma CipherInverse(key: Key, b: Block)
    ensures InvCipher(key, Cipher(key, b)) == b
  {
    hide RoundKey, AddRoundKey;
    InvRoundsUndo(key, b, 0);
    AddRoundKeyTwice(b, RoundKey(key, 0));
  }

  //// The equivalent inverse cipher (section 5.3.5)

  ghost function InvRoundKey(key: Key, r: nat): Block
    requires r <= ROUNDS
  {
    var k := RoundKey(key, ROUNDS - r);
    if r == 0 || r == ROUNDS then k else InvMixColumns(k)
  }

  // The state after round r, with round keys that have been mixed beforehand.
  ghost function EqInvRounds(key: Key, b: Block, r: nat): Block
    requires r < ROUNDS
  {
    if r == 0 then AddRoundKey(b, InvRoundKey(key, 0))
    else AddRoundKey(InvMixColumns(InvSubBytes(InvShiftRows(EqInvRounds(key, b, r - 1)))), InvRoundKey(key, r))
  }

  ghost function EqInvCipher(key: Key, b: Block): Block {
    AddRoundKey(InvSubBytes(InvShiftRows(EqInvRounds(key, b, ROUNDS - 1))), InvRoundKey(key, ROUNDS))
  }

  lemma InvMixColumnsXor(b: Block, k: Block)
    ensures InvMixColumns(AddRoundKey(b, k)) == AddRoundKey(InvMixColumns(b), InvMixColumns(k))
  {
    hide InvMixColumn, XorColumn;
    InvMixColumnXor(b.c0, k.c0);
    InvMixColumnXor(b.c1, k.c1);
    InvMixColumnXor(b.c2, k.c2);
    InvMixColumnXor(b.c3, k.c3);
  }

  lemma {:induction false} EqInvRoundsStep(key: Key, b: Block, r: nat)
    requires r < ROUNDS
    ensures InvSubBytes(InvShiftRows(EqInvRounds(key, b, r))) == InvRounds(key, b, ROUNDS - 1 - r)
  {
    hide RoundKey, InvSubBytes, InvShiftRows, InvMixColumns, AddRoundKey;
    if r != 0 {
      EqInvRoundsStep(key, b, r - 1);
      InvMixColumnsXor(InvRounds(key, b, ROUNDS - r), RoundKey(key, ROUNDS - r));
    }
  }

  lemma EqInvCipherIsInvCipher(key: Key, b: Block)
    ensures EqInvCipher(key, b) == InvCipher(key, b)
  {
    hide RoundKey, InvSubBytes, InvShiftRows, InvMixColumns, AddRoundKey;
    EqInvRoundsStep(key, b, ROUNDS - 1);
  }

  //// Bytes in memory

  function ColumnAt(s: seq<bv8>, i: nat): Column
    requires i + 4 <= |s|
  {
    Column(s[i], s[i + 1], s[i + 2], s[i + 3])
  }

  function BlockAt(s: seq<bv8>, i: nat): Block
    requires i + 16 <= |s|
  {
    Block(ColumnAt(s, i), ColumnAt(s, i + 4), ColumnAt(s, i + 8), ColumnAt(s, i + 12))
  }

  function KeyAt(s: seq<bv8>): Key
    requires |s| == 32
  {
    seq(8, i requires 0 <= i < 8 => ColumnAt(s, 4 * i))
  }

  // A block determines its sixteen bytes.
  lemma BlockDeterminesBytes(s: seq<bv8>, t: seq<bv8>)
    requires |s| == |t| == 16
    requires BlockAt(s, 0) == BlockAt(t, 0)
    ensures s == t
  {
    forall k | 0 <= k < 16 ensures s[k] == t[k] {
      OneByte(s, k);
      OneByte(t, k);
    }
  }

  function ByteIn(b: Block, k: nat): bv8
    requires k < 16
  {
    var c := if k < 4 then b.c0 else if k < 8 then b.c1 else if k < 12 then b.c2 else b.c3;
    if k % 4 == 0 then c.r0 else if k % 4 == 1 then c.r1 else if k % 4 == 2 then c.r2 else c.r3
  }

  lemma OneByte(s: seq<bv8>, k: nat)
    requires |s| == 16 && k < 16
    ensures s[k] == ByteIn(BlockAt(s, 0), k)
  {}

  //// Expressions that the byte-oriented code uses for the two matrices

  // The rows s = a + b over the constants.
  lemma DotSum(c: Column, a0: bv8, a1: bv8, a2: bv8, a3: bv8, b0: bv8, b1: bv8, b2: bv8, b3: bv8,
               s0: bv8, s1: bv8, s2: bv8, s3: bv8)
    requires s0 == a0 ^ b0 && s1 == a1 ^ b1 && s2 == a2 ^ b2 && s3 == a3 ^ b3
    ensures Add(Dot(c, a0, a1, a2, a3), Dot(c, b0, b1, b2, b3)) == Dot(c, s0, s1, s2, s3)
  {
    hide Dot;
    DotAdd(c, a0, a1, a2, a3, b0, b1, b2, b3);
  }

  lemma DotDouble(c: Column, a0: bv8, a1: bv8, a2: bv8, a3: bv8)
    ensures XTime(Dot(c, a0, a1, a2, a3)) == Dot(c, XTime(a0), XTime(a1), XTime(a2), XTime(a3))
  {
    hide Dot, Mul, XTime;
    DotScale(c, a0, a1, a2, a3, 2);
    Double(Dot(c, a0, a1, a2, a3));
    Double(a0);
    Double(a1);
    Double(a2);
    Double(a3);
  }

  lemma Double(x: bv8)
    ensures Mul(x, 2) == XTime(x)
  {
    hide Mul, XTime;
    MulEven(x, 2);
    MulOne(XTime(x));
  }

  lemma XTimeOfConstants()
    ensures XTime(0) == 0 && XTime(1) == 2 && XTime(2) == 4 && XTime(3) == 6 && XTime(4) == 8 && XTime(6) == 0x0c
  {}

  // An output byte of aes_mixColumns or aes_mixColumns_inv: the byte a, its successor b, and the
  // sum e that the rows share.
  function MixByte(e: bv8, a: bv8, b: bv8): bv8 {
    Add(a, Add(e, XTime(Add(a, b))))
  }

  function ColumnSum(v: Column): bv8 {
    Add(Add(Add(v.r0, v.r1), v.r2), v.r3)
  }

  // The shared sums of aes_mixColumns_inv for the even and for the odd rows.
  function InvSum(v: Column, p: bv8, q: bv8): bv8 {
    Add(ColumnSum(v), XTime(XTime(Add(Add(XTime(ColumnSum(v)), p), q))))
  }

  lemma ColumnSumIsDot(v: Column)
    ensures ColumnSum(v) == Dot(v, 1, 1, 1, 1)
  {
    hide Dot, Add;
    DotUnit(v);
    DotSum(v, 1, 0, 0, 0, 0, 1, 0, 0, 1, 1, 0, 0);
    DotSum(v, 1, 1, 0, 0, 0, 0, 1, 0, 1, 1, 1, 0);
    DotSum(v, 1, 1, 1, 0, 0, 0, 0, 1, 1, 1, 1, 1);
  }

  lemma InvSumIsDot(v: Column)
    ensures InvSum(v, v.r0, v.r2) == Dot(v, 0x0d, 9, 0x0d, 9)
    ensures InvSum(v, v.r1, v.r3) == Dot(v, 9, 0x0d, 9, 0x0d)
  {
    hide Dot, XTime, Add, ColumnSum;
    ColumnSumIsDot(v);
    DotUnit(v);
    XTimeOfConstants();
    DotDouble(v, 1, 1, 1, 1);
    DotSum(v, 2, 2, 2, 2, 1, 0, 0, 0, 3, 2, 2, 2);
    DotSum(v, 3, 2, 2, 2, 0, 0, 1, 0, 3, 2, 3, 2);
    DotDouble(v, 3, 2, 3, 2);
    DotDouble(v, 6, 4, 6, 4);
    DotSum(v, 1, 1, 1, 1, 0x0c, 8, 0x0c, 8, 0x0d, 9, 0x0d, 9);
    DotSum(v, 2, 2, 2, 2, 0, 1, 0, 0, 2, 3, 2, 2);
    DotSum(v, 2, 3, 2, 2, 0, 0, 0, 1, 2, 3, 2, 3);
    DotDouble(v, 2, 3, 2, 3);
    DotDouble(v, 4, 6, 4, 6);
    DotSum(v, 1, 1, 1, 1, 8, 0x0c, 8, 0x0c, 9, 0x0d, 9, 0x0d);
  }

  lemma MixByteIsDot(v: Column)
    ensures MixByte(Dot(v, 1, 1, 1, 1), v.r0, v.r1) == Dot(v, 2, 3, 1, 1)
    ensures MixByte(Dot(v, 0x0d, 9, 0x0d, 9), v.r0, v.r1) == Dot(v, 0x0e, 0x0b, 0x0d, 9)
  {
    hide Dot, XTime, Add;
    DotUnit(v);
    XTimeOfConstants();
    DotSum(v, 1, 0, 0, 0, 0, 1, 0, 0, 1, 1, 0, 0);
    DotDouble(v, 1, 1, 0, 0);
    DotSum(v, 1, 1, 1, 1, 2, 2, 0, 0, 3, 3, 1, 1);
    DotSum(v, 1, 0, 0, 0, 3, 3, 1, 1, 2, 3, 1, 1);
    DotSum(v, 0x0d, 9, 0x0d, 9, 2, 2, 0, 0, 0x0f, 0x0b, 0x0d, 9);
    DotSum(v, 1, 0, 0, 0, 0x0f, 0x0b, 0x0d, 9, 0x0e, 0x0b, 0x0d, 9);
  }

  // The other rows are the first row of a rotated column.
  lemma DotRotate(v: Column, k0: bv8, k1: bv8, k2: bv8, k3: bv8)
    ensures Dot(RotWord(v), k0, k1, k2, k3) == Dot(v, k3, k0, k1, k2)
  {
    hide Mul, Add;
    var p, q, r, s := Mul(v.r1, k0), Mul(v.r2, k1), Mul(v.r3, k2), Mul(v.r0, k3);
    AddCommutes(Add(p, q), Add(r, s));
    AddCommutes(r, s);
    AddAssociates(Add(s, r), p, q);
    AddAssociates(s, r, p);
    AddCommutes(r, p);
    AddAssociates(s, p, r);
    AddAssociates(Add(s, p), r, q);
    AddCommutes(r, q);
  }

  lemma MixColumnByBytes(v: Column)
    ensures var e := ColumnSum(v);
      MixColumn(v) == Column(MixByte(e, v.r0, v.r1), MixByte(e, v.r1, v.r2), MixByte(e, v.r2, v.r3),
                             MixByte(e, v.r3, v.r0))
  {
    hide Dot, MixByte, ColumnSum;
    ColumnSumIsDot(v);
    var w := RotWord(v);
    var x := RotWord(w);
    var y := RotWord(x);
    MixByteIsDot(v);
    MixByteIsDot(w);
    MixByteIsDot(x);
    MixByteIsDot(y);
    DotRotate(v, 1, 1, 1, 1);
    DotRotate(w, 1, 1, 1, 1);
    DotRotate(x, 1, 1, 1, 1);
    DotRotate(v, 2, 3, 1, 1);
    DotRotate(w, 2, 3, 1, 1);
    DotRotate(v, 1, 2, 3, 1);
    DotRotate(x, 2, 3, 1, 1);
    DotRotate(w, 1, 2, 3, 1);
    DotRotate(v, 1, 1, 2, 3);
  }

  lemma InvMixColumnByBytes(v: Column)
    ensures var x, y := InvSum(v, v.r0, v.r2), InvSum(v, v.r1, v.r3);
      InvMixColumn(v) == Column(MixByte(x, v.r0, v.r1), MixByte(y, v.r1, v.r2), MixByte(x, v.r2, v.r3),
                                MixByte(y, v.r3, v.r0))
  {
    hide Dot, MixByte, InvSum;
    InvSumIsDot(v);
    var w := RotWord(v);
    var x := RotWord(w);
    var y := RotWord(x);
    MixByteIsDot(v);
    MixByteIsDot(w);
    MixByteIsDot(x);
    MixByteIsDot(y);
    DotRotate(v, 0x0d, 9, 0x0d, 9);
    DotRotate(w, 0x0d, 9, 0x0d, 9);
    DotRotate(v, 9, 0x0d, 9, 0x0d);
    DotRotate(x, 0x0d, 9, 0x0d, 9);
    DotRotate(w, 9, 0x0d, 9, 0x0d);
    DotRotate(v, 0x0e, 0x0b, 0x0d, 9);
    DotRotate(w, 0x0e, 0x0b, 0x0d, 9);
    DotRotate(v, 9, 0x0e, 0x0b, 0x0d);
    DotRotate(x, 0x0e, 0x0b, 0x0d, 9);
    DotRotate(w, 9, 0x0e, 0x0b, 0x0d);
    DotRotate(v, 0x0d, 9, 0x0e, 0x0b);
  }
}
