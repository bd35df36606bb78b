// The byte-oriented AES-256 of src/crypto/slow_aes256.c: S-boxes from logarithms computed on the
// fly, round steps in place, round keys expanded forwards and backwards in a 32-byte window.
module SlowAes {
  import opened Gf256
  import opened Aes

  //// Field arithmetic by loops

  method GfAlog(x: nat) returns (atb: bv8)
    requires x < 256
    ensures atb == Power(x)
  {
    atb := 1;
    var left := x;
    while left != 0
      invariant 0 <= left <= x
      invariant atb == Power(x - left)
    {
      left := left - 1;
      var z := atb;
      atb := atb << 1;
      if z & 0x80 != 0 { atb := atb ^ 0x1b; }
      atb := atb ^ z;
      Times3Steps(z);
    }
  }

  // The shift, reduction and addition of one loop turn multiply by {03}.
  lemma Times3Steps(z: bv8)
    ensures Times3(z) == (if z & 0x80 != 0 then (z << 1) ^ 0x1b else z << 1) ^ z
  {}

  // The counter is an unsigned byte, so running past 255 ends the loop at zero.
  method GfLog(x: bv8) returns (i: nat)
    ensures x != 0 ==> i < 255 && Power(i) == x
    ensures x == 0 ==> i == 0
  {
    var atb: bv8 := 1;
    i := 0;
    while true
      invariant i < 256
      invariant atb == Power(i)
      invariant forall j | 0 <= j < i :: Power(j) != x
      decreases 256 - i
    {
      if atb == x { break; }
      var z := atb;
      atb := atb << 1;
      if z & 0x80 != 0 { atb := atb ^ 0x1b; }
      atb := atb ^ z;
      Times3Steps(z);
      if i == 255 {
        assert x == 0 by { if x != 0 { var k := PowerReaches(x); } }
      }
      i := (i + 1) % 256;
      if i == 0 { return; }
    }
    PowerNonZero(i);
    if i == 255 { 
      GeneratorOrder();
      assert Power(0) == 1;
    }
  }

  method GfMulInv(x: bv8) returns (y: bv8)
    ensures y == Inverse(x)
  {
    if x != 0 {
      var i := GfLog(x);
      y := GfAlog(255 - i);
      InverseByPower(i);
      InverseUnique(x, y);
    } else {
      y := 0;
    }
  }

  method RjSbox(x: bv8) returns (sb: bv8)
    ensures sb == SBox(x)
  {
    hide Rotl;
    var y := GfMulInv(x);
    sb := y;
    ghost var inverse := y;
    y := (y << 1) | (y >> 7);
    sb := sb ^ y;
    y := (y << 1) | (y >> 7);
    sb := sb ^ y;
    y := (y << 1) | (y >> 7);
    sb := sb ^ y;
    y := (y << 1) | (y >> 7);
    sb := sb ^ y;
    sb := sb ^ 0x63;
    RotationSteps(inverse);
  }

  method RjSboxInv(x: bv8) returns (y: bv8)
    ensures y == InvSBox(x)
  {
    y := x ^ 0x63;
    y := (y << 1) | (y >> 7);
    var sb := y;
    y := (y << 2) | (y >> 6);
    sb := sb ^ y;
    y := (y << 3) | (y >> 5);
    sb := sb ^ y;
    InvRotationSteps(x);
    y := GfMulInv(sb);
  }

  lemma InvRotationSteps(x: bv8)
    ensures
      var y := x ^ 0x63;
      var y1 := (y << 1) | (y >> 7);
      var y3 := (y1 << 2) | (y1 >> 6);
      var y6 := (y3 << 3) | (y3 >> 5);
      y1 ^ y3 ^ y6 == InvAffine(x)
  {}

  method RjXtime(x: bv8) returns (y: bv8)
    ensures y == XTime(x)
  {
    y := if x & 0x80 != 0 then (x << 1) ^ 0x1b else x << 1;
  }

  //// Round steps on a 16-byte buffer; Add is the exclusive or of the source

  method AesSubBytes(buf: array<bv8>)
    requires buf.Length == 16
    modifies buf
    ensures BlockAt(buf[..], 0) == SubBytes(old(BlockAt(buf[..], 0)))
  {
    hide SBox;
    var i := 16;
    while i > 0
      invariant 0 <= i <= 16
      invariant forall k | i <= k < 16 :: buf[k] == SBox(old(buf[k]))
      invariant forall k | 0 <= k < i :: buf[k] == old(buf[k])
    {
      i := i - 1;
      buf[i] := RjSbox(buf[i]);
    }
  }

  method AesSubBytesInv(buf: array<bv8>)
    requires buf.Length == 16
    modifies buf
    ensures BlockAt(buf[..], 0) == InvSubBytes(old(BlockAt(buf[..], 0)))
  {
    hide InvSBox;
    var i := 16;
    while i > 0
      invariant 0 <= i <= 16
      invariant forall k | i <= k < 16 :: buf[k] == InvSBox(old(buf[k]))
      invariant forall k | 0 <= k < i :: buf[k] == old(buf[k])
    {
      i := i - 1;
      buf[i] := RjSboxInv(buf[i]);
    }
  }

  // The key pointer of the source is an array and an offset here.
  method AesAddRoundKey(buf: array<bv8>, key: array<bv8>, offset: nat)
    requires buf.Length == 16 && key != buf && offset + 16 <= key.Length
    modifies buf
    ensures BlockAt(buf[..], 0) == AddRoundKey(old(BlockAt(buf[..], 0)), BlockAt(key[..], offset))
  {
    hide Add;
    var i := 16;
    while i > 0
      invariant 0 <= i <= 16
      invariant forall k | i <= k < 16 :: buf[k] == Add(old(buf[k]), key[offset + k])
      invariant forall k | 0 <= k < i :: buf[k] == old(buf[k])
    {
      i := i - 1;
      buf[i] := Add(buf[i], key[offset + i]);
    }
  }

  method AesAddRoundKeyCpy(buf: array<bv8>, key: array<bv8>, cpk: array<bv8>)
    requires buf.Length == 16 && key.Length == cpk.Length == 32
    requires buf != key && buf != cpk && key != cpk
    modifies buf, cpk
    ensures cpk[..] == key[..]
    ensures BlockAt(buf[..], 0) == AddRoundKey(old(BlockAt(buf[..], 0)), BlockAt(key[..], 0))
  {
    hide Add;
    var i := 16;
    while i > 0
      invariant 0 <= i <= 16
      invariant forall k | i <= k < 16 :: buf[k] == Add(old(buf[k]), key[k])
      invariant forall k | i <= k < 16 :: cpk[k] == key[k]
      invariant forall k | 16 + i <= k < 32 :: cpk[k] == key[k]
      invariant forall k | 0 <= k < i :: buf[k] == old(buf[k])
    {
      i := i - 1;
      cpk[i] := key[i];
      buf[i] := Add(buf[i], cpk[i]);
      cpk[16 + i] := key[16 + i];
    }
  }

  method AesShiftRows(buf: array<bv8>)
    requires buf.Length == 16
    modifies buf
    ensures BlockAt(buf[..], 0) == ShiftRows(old(BlockAt(buf[..], 0)))
  {
    var i := buf[1];
    buf[1] := buf[5];
    buf[5] := buf[9];
    buf[9] := buf[13];
    buf[13] := i;
    i := buf[10];
    buf[10] := buf[2];
    buf[2] := i;
    var j := buf[3];
    buf[3] := buf[15];
    buf[15] := buf[11];
    buf[11] := buf[7];
    buf[7] := j;
    j := buf[14];
    buf[14] := buf[6];
    buf[6] := j;
  }

  method AesShiftRowsInv(buf: array<bv8>)
    requires buf.Length == 16
    modifies buf
    ensures BlockAt(buf[..], 0) == InvShiftRows(old(BlockAt(buf[..], 0)))
  {
    var i := buf[1];
    buf[1] := buf[13];
    buf[13] := buf[9];
    buf[9] := buf[5];
    buf[5] := i;
    i := buf[2];
    buf[2] := buf[10];
    buf[10] := i;
    var j := buf[3];
    buf[3] := buf[7];
    buf[7] := buf[11];
    buf[11] := buf[15];
    buf[15] := j;
    j := buf[6];
    buf[6] := buf[14];
    buf[14] := j;
  }

  // One turn of the loops of aes_mixColumns and aes_mixColumns_inv.
  method MixColumnInPlace(buf: array<bv8>, i: nat)
    requires i + 4 <= buf.Length
    modifies buf
    ensures ColumnAt(buf[..], i) == MixColumn(old(ColumnAt(buf[..], i)))
    ensures forall k | 0 <= k < buf.Length && !(i <= k < i + 4) :: buf[k] == old(buf[k])
  {
    hide XTime, Add;
    var a, b, c, d := buf[i], buf[i + 1], buf[i + 2], buf[i + 3];
    MixColumnByBytes(Column(a, b, c, d));
    var e := Add(Add(Add(a, b), c), d);
    var t := RjXtime(Add(a, b));
    buf[i] := Add(buf[i], Add(e, t));
    t := RjXtime(Add(b, c));
    buf[i + 1] := Add(buf[i + 1], Add(e, t));
    t := RjXtime(Add(c, d));
    buf[i + 2] := Add(buf[i + 2], Add(e, t));
    t := RjXtime(Add(d, a));
    buf[i + 3] := Add(buf[i + 3], Add(e, t));
  }

  method InvMixColumnInPlace(buf: array<bv8>, i: nat)
    requires i + 4 <= buf.Length
    modifies buf
    ensures ColumnAt(buf[..], i) == InvMixColumn(old(ColumnAt(buf[..], i)))
    ensures forall k | 0 <= k < buf.Length && !(i <= k < i + 4) :: buf[k] == old(buf[k])
  {
    hide XTime, Add;
    var a, b, c, d := buf[i], buf[i + 1], buf[i + 2], buf[i + 3];
    InvMixColumnByBytes(Column(a, b, c, d));
    var e := Add(Add(Add(a, b), c), d);
    var z := RjXtime(e);
    var x := RjXtime(Add(Add(z, a), c));
    x := RjXtime(x);
    x := Add(e, x);
    var y := RjXtime(Add(Add(z, b), d));
    y := RjXtime(y);
    y := Add(e, y);
    var t := RjXtime(Add(a, b));
    buf[i] := Add(buf[i], Add(x, t));
    t := RjXtime(Add(b, c));
    buf[i + 1] := Add(buf[i + 1], Add(y, t));
    t := RjXtime(Add(c, d));
    buf[i + 2] := Add(buf[i + 2], Add(x, t));
    t := RjXtime(Add(d, a));
    buf[i + 3] := Add(buf[i + 3], Add(y, t));
  }

  method AesMixColumns(buf: array<bv8>)
    requires buf.Length == 16
    modifies buf
    ensures BlockAt(buf[..], 0) == MixColumns(old(BlockAt(buf[..], 0)))
  {
    hide MixColumn;
    var i := 0;
    while i < 16
      invariant 0 <= i <= 16 && i % 4 == 0
      invariant forall k | 0 <= k < 16 && k % 4 == 0 ::
        ColumnAt(buf[..], k) == if k < i then MixColumn(old(ColumnAt(buf[..], k))) else old(ColumnAt(buf[..], k))
    {
      MixColumnInPlace(buf, i);
      i := i + 4;
    }
  }

  method AesMixColumnsInv(buf: array<bv8>)
    requires buf.Length == 16
    modifies buf
    ensures BlockAt(buf[..], 0) == InvMixColumns(old(BlockAt(buf[..], 0)))
  {
    hide InvMixColumn;
    var i := 0;
    while i < 16
      invariant 0 <= i <= 16 && i % 4 == 0
      invariant forall k | 0 <= k < 16 && k % 4 == 0 ::
        ColumnAt(buf[..], k) == if k < i then InvMixColumn(old(ColumnAt(buf[..], k))) else old(ColumnAt(buf[..], k))
    {
      InvMixColumnInPlace(buf, i);
      i := i + 4;
    }
  }

  //// Key expansion in a window of eight words

  datatype Window = Window(lo: Block, hi: Block)

  function WindowAt(s: seq<bv8>): Window
    requires |s| == 32
  {
    Window(BlockAt(s, 0), BlockAt(s, 16))
  }

  // Words 8j to 8j + 7 of the key schedule, which are round keys 2j and 2j + 1.
  ghost function KeyWindow(key: Key, j: nat): Window {
    Window(RoundKey(key, 2 * j), RoundKey(key, 2 * j + 1))
  }

  // Four words that follow, when the first of them absorbs t.
  function Chain(b: Block, t: Column): Block {
    var c0 := XorColumn(b.c0, t);
    var c1 := XorColumn(b.c1, c0);
    var c2 := XorColumn(b.c2, c1);
    Block(c0, c1, c2, XorColumn(b.c3, c2))
  }

  ghost function NextWindow(w: Window, rc: bv8): Window {
    var lo := Chain(w.lo, XorColumn(SubWord(RotWord(w.hi.c3)), Column(rc, 0, 0, 0)));
    Window(lo, Chain(w.hi, SubWord(lo.c3)))
  }

  lemma NextKeyWindow(key: Key, j: nat)
    ensures NextWindow(KeyWindow(key, j), Rcon(j + 1)) == KeyWindow(key, j + 1)
  {
    hide Chain, SubWord, XorColumn, RotWord, Word;
    NextLowKey(key, j);
    NextHighKey(key, j);
  }

  lemma NextLowKey(key: Key, j: nat)
    ensures RoundKey(key, 2 * j + 2) == Chain(RoundKey(key, 2 * j),
      XorColumn(SubWord(RotWord(RoundKey(key, 2 * j + 1).c3)), Column(Rcon(j + 1), 0, 0, 0)))
  {
    hide XorColumn, SubWord, RotWord, Word, Rcon;
    var i := 8 * j + 8;
    assert i / 8 == j + 1;
    WordStep(key, i);
    WordStep(key, i + 1);
    WordStep(key, i + 2);
    WordStep(key, i + 3);
  }

  lemma NextHighKey(key: Key, j: nat)
    ensures RoundKey(key, 2 * j + 3) == Chain(RoundKey(key, 2 * j + 1), SubWord(RoundKey(key, 2 * j + 2).c3))
  {
    hide XorColumn, SubWord, RotWord, Word, Rcon;
    var i := 8 * j + 8;
    WordStep(key, i + 4);
    WordStep(key, i + 5);
    WordStep(key, i + 6);
    WordStep(key, i + 7);
  }

  // A window has at most one predecessor.
  lemma NextWindowInjective(v: Window, w: Window, rc: bv8)
    requires NextWindow(v, rc) == NextWindow(w, rc)
    ensures v == w
  {
    hide SubWord, XorColumn, RotWord;
    var n := NextWindow(v, rc);
    ChainInjective(v.hi, w.hi, SubWord(n.lo.c3));
    ChainInjective(v.lo, w.lo, XorColumn(SubWord(RotWord(v.hi.c3)), Column(rc, 0, 0, 0)));
  }

  lemma ChainInjective(a: Block, b: Block, t: Column)
    requires Chain(a, t) == Chain(b, t)
    ensures a == b
  {
    hide XorColumn;
    var n := Chain(a, t);
    XorColumnTwice(a.c0, t);
    XorColumnTwice(b.c0, t);
    XorColumnTwice(a.c1, n.c0);
    XorColumnTwice(b.c1, n.c0);
    XorColumnTwice(a.c2, n.c1);
    XorColumnTwice(b.c2, n.c1);
    XorColumnTwice(a.c3, n.c2);
    XorColumnTwice(b.c3, n.c2);
  }

  //// The two key expansions in place

  // One turn of the loops of the two key expansions.
  method XorWordInPlace(k: array<bv8>, i: nat)
    requires 4 <= i && i + 4 <= k.Length
    modifies k
    ensures ColumnAt(k[..], i) == XorColumn(old(ColumnAt(k[..], i)), old(ColumnAt(k[..], i - 4)))
    ensures forall n | 0 <= n < k.Length && !(i <= n < i + 4) :: k[n] == old(k[n])
  {
    hide Add;
    k[i] := Add(k[i], k[i - 4]);
    k[i + 1] := Add(k[i + 1], k[i - 3]);
    k[i + 2] := Add(k[i + 2], k[i - 2]);
    k[i + 3] := Add(k[i + 3], k[i - 1]);
  }

  // The loop that both key expansions of the encryption run from a word that is already new.
  method ChainInPlace(k: array<bv8>, from: nat)
    requires from + 16 <= k.Length
    modifies k
    ensures BlockAt(k[..], from) == ChainRest(old(BlockAt(k[..], from)))
    ensures forall n | 0 <= n < k.Length && !(from <= n < from + 16) :: k[n] == old(k[n])
  {
    hide XorColumn;
    ghost var b := BlockAt(k[..], from);
    var i := from + 4;
    while i < from + 16
      invariant i == from + 4 || i == from + 8 || i == from + 12 || i == from + 16
      invariant ColumnAt(k[..], from) == b.c0
      invariant ColumnAt(k[..], from + 4) == if i > from + 4 then ChainRest(b).c1 else b.c1
      invariant ColumnAt(k[..], from + 8) == if i > from + 8 then ChainRest(b).c2 else b.c2
      invariant ColumnAt(k[..], from + 12) == if i > from + 12 then ChainRest(b).c3 else b.c3
      invariant forall n | 0 <= n < k.Length && !(from <= n < from + 16) :: k[n] == old(k[n])
    {
      XorWordInPlace(k, i);
      i := i + 4;
    }
  }

  function ChainRest(b: Block): Block {
    var c1 := XorColumn(b.c1, b.c0);
    var c2 := XorColumn(b.c2, c1);
    Block(b.c0, c1, c2, XorColumn(b.c3, c2))
  }

  // Adds the S-box images of the word at j, rotated or not, to the word at i.
  method SubWordInPlace(k: array<bv8>, i: nat, j: nat, rotate: bool)
    requires i + 4 <= k.Length && j + 4 <= k.Length && (i + 4 <= j || j + 4 <= i)
    modifies k
    ensures var w := old(ColumnAt(k[..], j));
      ColumnAt(k[..], i) == XorColumn(old(ColumnAt(k[..], i)), SubWord(if rotate then RotWord(w) else w))
    ensures forall n | 0 <= n < k.Length && !(i <= n < i + 4) :: k[n] == old(k[n])
  {
    hide Add, SBox;
    var t := RjSbox(if rotate then k[j + 1] else k[j]);
    k[i] := Add(k[i], t);
    t := RjSbox(if rotate then k[j + 2] else k[j + 1]);
    k[i + 1] := Add(k[i + 1], t);
    t := RjSbox(if rotate then k[j + 3] else k[j + 2]);
    k[i + 2] := Add(k[i + 2], t);
    t := RjSbox(if rotate then k[j] else k[j + 3]);
    k[i + 3] := Add(k[i + 3], t);
  }

  method AesExpandEncKey(k: array<bv8>, rc: bv8) returns (rc': bv8)
    requires k.Length == 32
    modifies k
    ensures WindowAt(k[..]) == NextWindow(old(WindowAt(k[..])), rc)
    ensures rc' == XTime(rc)
  {
    hide XorColumn, SubWord, XTime, Add;
    ghost var w := WindowAt(k[..]);
    SubWordInPlace(k, 0, 28, true);
    k[0] := Add(k[0], rc);
    rc' := XTime(rc);
    RconLast(w.lo.c0, SubWord(RotWord(w.hi.c3)), rc);
    assert BlockAt(k[..], 16) == w.hi;
    ChainInPlace(k, 0);
    assert BlockAt(k[..], 0) == NextWindow(w, rc).lo;
    SubWordInPlace(k, 16, 12, false);
    ChainInPlace(k, 16);
  }

  // The round constant is added after the S-box images.
  lemma RconLast(a: Column, s: Column, rc: bv8)
    ensures var c := XorColumn(a, s);
      Column(Add(c.r0, rc), c.r1, c.r2, c.r3) == XorColumn(a, XorColumn(s, Column(rc, 0, 0, 0)))
  {
    hide Add;
    AddAssociates(a.r0, s.r0, rc);
    AddZero(s.r1);
    AddZero(s.r2);
    AddZero(s.r3);
  }

  // The backward loop: every word takes away the old value of the word before it.
  method UnchainInPlace(k: array<bv8>, from: nat)
    requires from + 16 <= k.Length
    modifies k
    ensures ChainRest(BlockAt(k[..], from)) == old(BlockAt(k[..], from))
    ensures forall n | 0 <= n < k.Length && !(from <= n < from + 16) :: k[n] == old(k[n])
  {
    hide XorColumn;
    ghost var b := BlockAt(k[..], from);
    var i := from + 12;
    while i > from
      invariant i == from || i == from + 4 || i == from + 8 || i == from + 12
      invariant ColumnAt(k[..], from) == b.c0
      invariant ColumnAt(k[..], from + 4) == if i < from + 4 then XorColumn(b.c1, b.c0) else b.c1
      invariant ColumnAt(k[..], from + 8) == if i < from + 8 then XorColumn(b.c2, b.c1) else b.c2
      invariant ColumnAt(k[..], from + 12) == if i < from + 12 then XorColumn(b.c3, b.c2) else b.c3
      invariant forall n | 0 <= n < k.Length && !(from <= n < from + 16) :: k[n] == old(k[n])
    {
      XorWordInPlace(k, i);
      i := i - 4;
    }
    XorColumnTwice(b.c1, b.c0);
    XorColumnTwice(b.c2, b.c1);
    XorColumnTwice(b.c3, b.c2);
  }

  // Division by {02}.
  function HalfTime(x: bv8): bv8 {
    (x >> 1) ^ (if x & 1 != 0 then 0x8d else 0)
  }

  lemma HalfTimeInverse(x: bv8)
    ensures XTime(HalfTime(x)) == x && HalfTime(XTime(x)) == x
  {}

  // Leaves the window from which aes_expandEncKey would produce the given one.
  method AesExpandDecKey(k: array<bv8>, rc: bv8) returns (rc': bv8)
    requires k.Length == 32
    modifies k
    ensures NextWindow(WindowAt(k[..]), rc') == old(WindowAt(k[..]))
    ensures rc' == HalfTime(rc)
  {
    hide XorColumn, SubWord, HalfTime, Add;
    ghost var w := WindowAt(k[..]);
    UnchainInPlace(k, 16);
    assert BlockAt(k[..], 0) == w.lo;
    SubWordInPlace(k, 16, 12, false);
    ghost var hi := BlockAt(k[..], 16);
    XorColumnTwice(BlockAt(old(k[..]), 16).c0, SubWord(w.lo.c3));
    assert Chain(hi, SubWord(w.lo.c3)) == w.hi;
    UnchainInPlace(k, 0);
    rc' := HalfTime(rc);
    SubWordInPlace(k, 0, 28, true);
    k[0] := Add(k[0], rc');
    ghost var t := SubWord(RotWord(hi.c3));
    RconLast(w.lo.c0, t, rc');
    XorColumnTwice(w.lo.c0, XorColumn(t, Column(rc', 0, 0, 0)));
    assert BlockAt(k[..], 16) == hi;
  }

  //// The cipher

  class Aes256Context {
    var key: array<bv8>
    var enckey: array<bv8>
    var deckey: array<bv8>

    ghost predicate Allocated()
      reads this
    {
      && key.Length == enckey.Length == deckey.Length == 32
      && key != enckey && key != deckey && enckey != deckey
    }

    // The decryption key is the last window of the schedule of the encryption key.
    ghost predicate Valid()
      reads this, enckey, deckey
    {
      && Allocated()
      && WindowAt(deckey[..]) == KeyWindow(KeyAt(enckey[..]), 7)
    }

    constructor ()
      ensures Allocated() && fresh(key) && fresh(enckey) && fresh(deckey)
    {
      key := new bv8[32];
      enckey := new bv8[32];
      deckey := new bv8[32];
    }

    method Init(k: array<bv8>)
      requires Allocated() && k.Length == 32 && k != enckey && k != deckey
      modifies enckey, deckey
      ensures Valid() && KeyAt(enckey[..]) == KeyAt(k[..])
    {
      hide NextWindow, XTime;
      var rcon: bv8 := 1;
      var i := 0;
      while i < 32
        invariant 0 <= i <= 32
        invariant forall n | 0 <= n < i :: enckey[n] == k[n] && deckey[n] == k[n]
      {
        deckey[i] := k[i];
        enckey[i] := deckey[i];
        i := i + 1;
      }
      assert enckey[..] == deckey[..] == k[..];
      ghost var schedule := KeyAt(k[..]);
      FirstWindow(k[..]);
      i := 8;
      i := i - 1;
      while i != 0
        invariant 0 <= i <= 7
        invariant enckey[..] == k[..]
        invariant WindowAt(deckey[..]) == KeyWindow(schedule, 7 - i)
        invariant rcon == Rcon(8 - i)
      {
        NextKeyWindow(schedule, 7 - i);
        rcon := AesExpandEncKey(deckey, rcon);
        i := i - 1;
      }
    }
  }

  lemma FirstWindow(s: seq<bv8>)
    requires |s| == 32
    ensures WindowAt(s) == KeyWindow(KeyAt(s), 0)
  {
    var key := KeyAt(s);
    assert Word(key, 0) == ColumnAt(s, 0);
    assert Word(key, 1) == ColumnAt(s, 4);
    assert Word(key, 2) == ColumnAt(s, 8);
    assert Word(key, 3) == ColumnAt(s, 12);
    assert Word(key, 4) == ColumnAt(s, 16);
    assert Word(key, 5) == ColumnAt(s, 20);
    assert Word(key, 6) == ColumnAt(s, 24);
    assert Word(key, 7) == ColumnAt(s, 28);
  }

  // One turn of the loop of aes256_encrypt_ecb; the window moves on before the even rounds.
  method EncryptRound(k: array<bv8>, buf: array<bv8>, i: nat, rcon: bv8, ghost key: Key) returns (rcon': bv8)
    requires k.Length == 32 && buf.Length == 16 && k != buf && 1 <= i
    requires WindowAt(k[..]) == KeyWindow(key, (i - 1) / 2) && rcon == Rcon((i - 1) / 2 + 1)
    modifies k, buf
    ensures WindowAt(k[..]) == KeyWindow(key, i / 2) && rcon' == Rcon(i / 2 + 1)
    ensures BlockAt(buf[..], 0)
         == AddRoundKey(MixColumns(ShiftRows(SubBytes(old(BlockAt(buf[..], 0))))), RoundKey(key, i))
  {
    hide NextWindow, XTime, SubBytes, ShiftRows, MixColumns, AddRoundKey, RoundKey, BlockAt;
    rcon' := rcon;
    AesSubBytes(buf);
    AesShiftRows(buf);
    AesMixColumns(buf);
    if i % 2 == 1 {
      AesAddRoundKey(buf, k, 16);
    } else {
      NextKeyWindow(key, (i - 1) / 2);
      rcon' := AesExpandEncKey(k, rcon);
      AesAddRoundKey(buf, k, 0);
    }
  }

  method Aes256EncryptEcb(ctx: Aes256Context, buf: array<bv8>)
    requires ctx.Valid() && buf.Length == 16 && buf !in {ctx.key, ctx.enckey, ctx.deckey}
    modifies buf, ctx.key
    ensures ctx.Valid()
    ensures BlockAt(buf[..], 0) == Cipher(KeyAt(ctx.enckey[..]), old(BlockAt(buf[..], 0)))
  {
    hide NextWindow, XTime, SubBytes, ShiftRows, MixColumns, AddRoundKey, RoundKey, BlockAt;
    ghost var key := KeyAt(ctx.enckey[..]);
    ghost var block := BlockAt(buf[..], 0);
    FirstWindow(ctx.enckey[..]);
    var k := ctx.key;
    AesAddRoundKeyCpy(buf, ctx.enckey, k);
    var i, rcon: bv8 := 1, 1;
    while i < 14
      invariant 1 <= i <= 14
      invariant BlockAt(buf[..], 0) == Rounds(key, block, i - 1)
      invariant WindowAt(k[..]) == KeyWindow(key, (i - 1) / 2)
      invariant rcon == Rcon((i - 1) / 2 + 1)
    {
      rcon := EncryptRound(k, buf, i, rcon, key);
      i := i + 1;
    }
    AesSubBytes(buf);
    AesShiftRows(buf);
    NextKeyWindow(key, 6);
    rcon := AesExpandEncKey(k, rcon);
    AesAddRoundKey(buf, k, 0);
  }

  // One turn of the loop of aes256_decrypt_ecb; the window moves back before the odd rounds.
  method DecryptRound(k: array<bv8>, buf: array<bv8>, i: nat, rcon: bv8, ghost key: Key) returns (rcon': bv8)
    requires k.Length == 32 && buf.Length == 16 && k != buf && 1 <= i
    requires WindowAt(k[..]) == KeyWindow(key, (i + 1) / 2) && rcon == Rcon((i + 1) / 2 + 1)
    modifies k, buf
    ensures WindowAt(k[..]) == KeyWindow(key, i / 2) && rcon' == Rcon(i / 2 + 1)
    ensures BlockAt(buf[..], 0)
         == InvSubBytes(InvShiftRows(InvMixColumns(AddRoundKey(old(BlockAt(buf[..], 0)), RoundKey(key, i)))))
  {
    hide NextWindow, HalfTime, XTime, InvSubBytes, InvShiftRows, InvMixColumns, AddRoundKey, RoundKey, BlockAt;
    rcon' := rcon;
    if i % 2 == 1 {
      HalfTimeInverse(Rcon(i / 2 + 1));
      rcon' := AesExpandDecKey(k, rcon);
      NextKeyWindow(key, i / 2);
      NextWindowInjective(WindowAt(k[..]), KeyWindow(key, i / 2), rcon');
      AesAddRoundKey(buf, k, 16);
    } else {
      AesAddRoundKey(buf, k, 0);
    }
    AesMixColumnsInv(buf);
    AesShiftRowsInv(buf);
    AesSubBytesInv(buf);
  }

  lemma LastRcon()
    ensures Rcon(8) == 0x80
  {
    assert Rcon(1) == 1 && Rcon(2) == 2 && Rcon(3) == 4 && Rcon(4) == 8;
    assert Rcon(5) == 0x10 && Rcon(6) == 0x20 && Rcon(7) == 0x40;
  }

  method Aes256DecryptEcb(ctx: Aes256Context, buf: array<bv8>)
    requires ctx.Valid() && buf.Length == 16 && buf !in {ctx.key, ctx.enckey, ctx.deckey}
    modifies buf, ctx.key
    ensures ctx.Valid()
    ensures BlockAt(buf[..], 0) == InvCipher(KeyAt(ctx.enckey[..]), old(BlockAt(buf[..], 0)))
  {
    hide NextWindow, XTime, InvSubBytes, InvShiftRows, InvMixColumns, AddRoundKey, RoundKey, BlockAt;
    ghost var key := KeyAt(ctx.enckey[..]);
    ghost var block := BlockAt(buf[..], 0);
    var k := ctx.key;
    AesAddRoundKeyCpy(buf, ctx.deckey, k);
    AesShiftRowsInv(buf);
    AesSubBytesInv(buf);
    LastRcon();
    var i, rcon: bv8 := 14, 0x80;
    i := i - 1;
    while i != 0
      invariant 0 <= i <= 13
      invariant BlockAt(buf[..], 0) == InvRounds(key, block, i)
      invariant WindowAt(k[..]) == KeyWindow(key, (i + 1) / 2)
      invariant rcon == Rcon((i + 1) / 2 + 1)
    {
      rcon := DecryptRound(k, buf, i, rcon, key);
      i := i - 1;
    }
    AesAddRoundKey(buf, k, 0);
  }

  //// crypto_aes_encrypt and crypto_aes_decrypt over this implementation

  method CryptoAesEncrypt(key: array<bv8>, plain: array<bv8>, encrypted: array<bv8>)
    requires key.Length == 32 && plain.Length == encrypted.Length == 16 && key != encrypted
    modifies encrypted
    ensures BlockAt(encrypted[..], 0) == Cipher(KeyAt(key[..]), old(BlockAt(plain[..], 0)))
  {
    hide Cipher, InvCipher, KeyAt, BlockAt, WindowAt, KeyWindow;
    var ctx := new Aes256Context();
    ctx.Init(key);
    ghost var k := ctx.enckey[..];
    forall i | 0 <= i < 16 { encrypted[i] := plain[i]; }
    assert encrypted[..] == old(plain[..]);
    Aes256EncryptEcb(ctx, encrypted);
    assert ctx.enckey[..] == k && key[..] == old(key[..]);
  }

  method CryptoAesDecrypt(key: array<bv8>, encrypted: array<bv8>, decrypted: array<bv8>)
    requires key.Length == 32 && encrypted.Length == decrypted.Length == 16 && key != decrypted
    modifies decrypted
    ensures BlockAt(decrypted[..], 0) == InvCipher(KeyAt(key[..]), old(BlockAt(encrypted[..], 0)))
  {
    hide Cipher, InvCipher, KeyAt, BlockAt, WindowAt, KeyWindow;
    var ctx := new Aes256Context();
    ctx.Init(key);
    ghost var k := ctx.enckey[..];
    forall i | 0 <= i < 16 { decrypted[i] := encrypted[i]; }
    assert decrypted[..] == old(encrypted[..]);
    Aes256DecryptEcb(ctx, decrypted);
    assert ctx.enckey[..] == k && key[..] == old(key[..]);
  }
}
