// SHA-256 of src/crypto/coreutils_sha256.c: a context that buffers incomplete blocks, a circular
// schedule of sixteen words, and rounds that rotate the names of the eight variables.
module Sha256 {
  import opened Sequences
  import opened Machine
  import opened Sha256Spec

  //// Word functions as the macros write them

  function Rol(x: bv32, n: bv32): bv32
    requires 0 < n < 32
  {
    (x << n) | (x >> (32 - n))
  }

  function S0(x: bv32): bv32 {
    Xor3(Rol(x, 25), Rol(x, 14), x >> 3)
  }

  function S1(x: bv32): bv32 {
    Xor3(Rol(x, 15), Rol(x, 13), x >> 10)
  }

  function SS0(x: bv32): bv32 {
    Xor3(Rol(x, 30), Rol(x, 19), Rol(x, 10))
  }

  function SS1(x: bv32): bv32 {
    Xor3(Rol(x, 26), Rol(x, 21), Rol(x, 7))
  }

  function F1(e: bv32, f: bv32, g: bv32): bv32 {
    g ^ (e & (f ^ g))
  }

  function F2(a: bv32, b: bv32, c: bv32): bv32 {
    (a & b) | (c & (a | b))
  }

  function Swap(n: bv32): bv32 {
    (n << 24) | ((n & 0xff00) << 8) | ((n >> 8) & 0xff00) | (n >> 24)
  }

  function LittleEndian(b0: bv8, b1: bv8, b2: bv8, b3: bv8): bv32 {
    (b0 as bv32) | ((b1 as bv32) << 8) | ((b2 as bv32) << 16) | ((b3 as bv32) << 24)
  }

  lemma RolIsRotr(x: bv32, n: bv32)
    requires 0 < n < 32
    ensures Rol(x, 32 - n) == Rotr(x, n)
  {
    OrCommutes(x << (32 - n), x >> n);
  }

  lemma OrCommutes(x: bv32, y: bv32)
    ensures x | y == y | x
  {}

  lemma MacrosAreSigmas(x: bv32)
    ensures S0(x) == SmallSigma0(x) && S1(x) == SmallSigma1(x) && SS0(x) == BigSigma0(x) && SS1(x) == BigSigma1(x)
  {
    hide Rol, Rotr, Xor3;
    RolIsRotr(x, 7);
    RolIsRotr(x, 18);
    RolIsRotr(x, 17);
    RolIsRotr(x, 19);
    RolIsRotr(x, 2);
    RolIsRotr(x, 13);
    RolIsRotr(x, 22);
    RolIsRotr(x, 6);
    RolIsRotr(x, 11);
    RolIsRotr(x, 25);
  }

  lemma F1IsCh(e: bv32, f: bv32, g: bv32)
    ensures F1(e, f, g) == Ch(e, f, g)
  {
    Choice(e, f, g);
  }

  lemma Choice(e: bv32, f: bv32, g: bv32)
    ensures g ^ (e & (f ^ g)) == (e & f) ^ (!e & g)
  {
    hide *;
  }

  lemma F2IsMaj(a: bv32, b: bv32, c: bv32)
    ensures F2(a, b, c) == Maj(a, b, c)
  {
    Majority(a, b, c);
  }

  lemma Majority(a: bv32, b: bv32, c: bv32)
    ensures (a & b) | (c & (a | b)) == (a & b) ^ (a & c) ^ (b & c)
  {
    hide *;
  }

  lemma SwapLoads(b0: bv8, b1: bv8, b2: bv8, b3: bv8)
    ensures Swap(LittleEndian(b0, b1, b2, b3)) == BigEndian(b0, b1, b2, b3)
  {}

  lemma SumCommutes(x: bv32, y: bv32)
    ensures Sum(x, y) == Sum(y, x)
  {}

  //// One block

  // Word j of the schedule is in x[j & 15] for the sixteen words before t.
  ghost predicate Circular(x: array<bv32>, m: seq<bv8>, t: nat)
    requires x.Length == 16 && |m| == 64
    reads x
  {
    forall j: nat | t <= j + 16 < t + 16 :: x[j % 16] == W(m, j)
  }

  // The M macro: the next word of the schedule replaces the oldest.
  method NextWord(x: array<bv32>, i: nat, ghost m: seq<bv8>) returns (tm: bv32)
    requires x.Length == 16 && |m| == 64 && 16 <= i && Circular(x, m, i)
    modifies x
    ensures tm == W(m, i) && Circular(x, m, i + 1)
  {
    hide S0, S1, SmallSigma0, SmallSigma1, Sum, W;
    MacrosAreSigmas(x[(i - 2) % 16]);
    MacrosAreSigmas(x[(i - 15) % 16]);
    ghost var old2, old7, old15, old16 := x[(i - 2) % 16], x[(i - 7) % 16], x[(i - 15) % 16], x[i % 16];
    Slot(x, m, i, i - 2);
    Slot(x, m, i, i - 7);
    Slot(x, m, i, i - 15);
    Slot(x, m, i, i - 16);
    SlotReused(i);
    tm := Sum(Sum(Sum(S1(x[(i - 2) % 16]), x[(i - 7) % 16]), S0(x[(i - 15) % 16])), x[i % 16]);
    ScheduleStep(m, i);
    SlotsDiffer(i);
    x[i % 16] := tm;
  }

  lemma Slot(x: array<bv32>, m: seq<bv8>, t: nat, j: nat)
    requires x.Length == 16 && |m| == 64 && t <= j + 16 < t + 16 && Circular(x, m, t)
    ensures x[j % 16] == W(m, j)
  {
    hide W;
  }

  lemma SlotReused(i: nat)
    requires 16 <= i
    ensures (i - 16) % 16 == i % 16
  {}

  lemma SlotsDiffer(t: nat)
    ensures forall j: nat | t < j + 16 && j < t :: j % 16 != t % 16
  {}

  lemma ScheduleStep(m: seq<bv8>, t: nat)
    requires |m| == 64 && 16 <= t
    ensures W(m, t) == Sum(Sum(Sum(SmallSigma1(W(m, t - 2)), W(m, t - 7)), SmallSigma0(W(m, t - 15))), W(m, t - 16))
  {
    hide SmallSigma0, SmallSigma1, Sum, MessageWord;
  }

  // The R macro changes d and h alone; the round shifts the names of all eight.
  method R(a: bv32, b: bv32, c: bv32, d: bv32, e: bv32, f: bv32, g: bv32, h: bv32, k: bv32,
           w: bv32) returns (d': bv32, h': bv32)
    ensures Hash(h', a, b, c, d', e, f, g) == Round(Hash(a, b, c, d, e, f, g, h), k, w)
  {
    hide SS0, SS1, F1, F2, BigSigma0, BigSigma1, Ch, Maj, Sum;
    MacrosAreSigmas(a);
    MacrosAreSigmas(e);
    F1IsCh(e, f, g);
    F2IsMaj(a, b, c);
    var t0 := Sum(SS0(a), F2(a, b, c));
    var t1 := Sum(Sum(Sum(Sum(h, SS1(e)), F1(e, f, g)), k), w);
    SumCommutes(t0, t1);
    d', h' := Sum(d, t1), Sum(t0, t1);
  }

  // One of the 64 uses of R, with the word from x directly or through M.
  method Step(x: array<bv32>, t: nat, a: bv32, b: bv32, c: bv32, d: bv32, e: bv32, f: bv32, g: bv32, h: bv32,
              ghost m: seq<bv8>, ghost s: Hash)
    returns (d': bv32, h': bv32)
    requires x.Length == 16 && |m| == 64 && t < 64 && Circular(x, m, if t < 16 then 16 else t)
    requires Hash(a, b, c, d, e, f, g, h) == Rounds(s, m, t)
    modifies x
    ensures Circular(x, m, if t < 15 then 16 else t + 1)
    ensures Hash(h', a, b, c, d', e, f, g) == Rounds(s, m, t + 1)
  {
    hide Round, K, W, Circular;
    var w;
    if t < 16 { 
      w := LoadedWord(x, t, m);
    } else {
      w := NextWord(x, t, m);
    }
    d', h' := R(a, b, c, d, e, f, g, h, K(t), w);
  }

  method LoadedWord(x: array<bv32>, t: nat, ghost m: seq<bv8>) returns (w: bv32)
    requires x.Length == 16 && |m| == 64 && t < 16 && Circular(x, m, 16)
    ensures w == W(m, t)
  {
    hide W;
    w := x[t];
    assert t % 16 == t;
  }

  // Eight of the 64 lines, after which the names are back in place.
  method EightSteps(x: array<bv32>, t: nat, a0: bv32, b0: bv32, c0: bv32, d0: bv32, e0: bv32, f0: bv32, g0: bv32,
                    h0: bv32, ghost m: seq<bv8>, ghost s: Hash)
    returns (a: bv32, b: bv32, c: bv32, d: bv32, e: bv32, f: bv32, g: bv32, h: bv32)
    requires x.Length == 16 && |m| == 64 && t % 8 == 0 && t + 8 <= 64 && Circular(x, m, if t < 16 then 16 else t)
    requires Hash(a0, b0, c0, d0, e0, f0, g0, h0) == Rounds(s, m, t)
    modifies x
    ensures Circular(x, m, if t < 15 then 16 else t + 8)
    ensures Hash(a, b, c, d, e, f, g, h) == Rounds(s, m, t + 8)
  {
    hide Rounds, Circular;
    a, b, c, d, e, f, g, h := a0, b0, c0, d0, e0, f0, g0, h0;
    d, h := Step(x, t, a, b, c, d, e, f, g, h, m, s);
    c, g := Step(x, t + 1, h, a, b, c, d, e, f, g, m, s);
    b, f := Step(x, t + 2, g, h, a, b, c, d, e, f, m, s);
    a, e := Step(x, t + 3, f, g, h, a, b, c, d, e, m, s);
    h, d := Step(x, t + 4, e, f, g, h, a, b, c, d, m, s);
    g, c := Step(x, t + 5, d, e, f, g, h, a, b, c, m, s);
    f, b := Step(x, t + 6, c, d, e, f, g, h, a, b, m, s);
    e, a := Step(x, t + 7, b, c, d, e, f, g, h, a, m, s);
  }

  method LoadWords(x: array<bv32>, buffer: array<bv8>, pos: nat)
    requires x.Length == 16 && pos + 64 <= buffer.Length && x as object != buffer
    modifies x
    ensures Circular(x, buffer[pos..pos + 64], 16)
  {
    hide LittleEndian, BigEndian, Swap;
    ghost var m := buffer[pos..pos + 64];
    var t := 0;
    while t < 16
      invariant 0 <= t <= 16
      invariant forall j | 0 <= j < t :: x[j] == MessageWord(m, j)
    {
      var p := pos + 4 * t;
      SwapLoads(buffer[p], buffer[p + 1], buffer[p + 2], buffer[p + 3]);
      x[t] := Swap(LittleEndian(buffer[p], buffer[p + 1], buffer[p + 2], buffer[p + 3]));
      t := t + 1;
    }
  }

  // The 64 lines of R, written as eight times eight.
  method AllSteps(x: array<bv32>, a0: bv32, b0: bv32, c0: bv32, d0: bv32, e0: bv32, f0: bv32, g0: bv32, h0: bv32,
                  ghost m: seq<bv8>)
    returns (a: bv32, b: bv32, c: bv32, d: bv32, e: bv32, f: bv32, g: bv32, h: bv32)
    requires x.Length == 16 && |m| == 64 && Circular(x, m, 16)
    modifies x
    ensures Hash(a, b, c, d, e, f, g, h) == Rounds(Hash(a0, b0, c0, d0, e0, f0, g0, h0), m, 64)
  {
    ghost var s := Hash(a0, b0, c0, d0, e0, f0, g0, h0);
    hide Rounds, Circular;
    NoRounds(s, m);
    a, b, c, d, e, f, g, h := a0, b0, c0, d0, e0, f0, g0, h0;
    var t := 0;
    while t < 64
      invariant 0 <= t <= 64 && t % 8 == 0
      invariant Circular(x, m, if t < 16 then 16 else t)
      invariant Hash(a, b, c, d, e, f, g, h) == Rounds(s, m, t)
    {
      a, b, c, d, e, f, g, h := EightSteps(x, t, a, b, c, d, e, f, g, h, m, s);
      t := t + 8;
    }
  }

  lemma NoRounds(s: Hash, m: seq<bv8>)
    requires |m| == 64
    ensures Rounds(s, m, 0) == s
  {
    hide K, W;
  }

  //// The context

  class Sha256Ctx {
    const state: array<bv32>
    var total0: nat
    var total1: nat
    var buflen: nat
    const buffer: array<bv8>

    ghost predicate Allocated()
      reads `total0, `total1
    {
      state.Length == 8 && buffer.Length == 128 && total0 < TWO32 && total1 < TWO32 && state as object != buffer
    }

    ghost function Value(): Hash
      requires state.Length == 8
      reads state
    {
      Hash(state[0], state[1], state[2], state[3], state[4], state[5], state[6], state[7])
    }

    ghost function Total(): nat
      reads `total0, `total1
    {
      total0 + TWO32 * total1
    }

    // The first k bytes of m are in the hash value, and counted, but for an error of off.
    ghost predicate Hashed(m: seq<bv8>, k: nat, off: nat)
      reads `total0, `total1, state
    {
      && Allocated() && k <= |m| && k % 64 == 0
      && Value() == Fold(INITIAL, m[..k]) && Total() == Mod64(k + off) && off < TWO64
    }

    // The first n bytes of m have been taken: all but the last buflen are hashed, and these, at most
    // one block, are in the buffer.
    ghost predicate At(m: seq<bv8>, n: nat, off: nat)
      reads this, state, buffer
    {
      && Allocated() && buflen <= 64 && buflen <= n <= |m|
      && Hashed(m, n - buflen, off)
      && buffer[..buflen] == m[n - buflen..n]
    }

    lemma Taken(m: seq<bv8>, n: nat, off: nat)
      requires At(m, n, off)
      ensures Allocated() && buflen <= 64 && buflen <= n <= |m| && (n - buflen) % 64 == 0 && Hashed(m, n - buflen, off)
      ensures Value() == Fold(INITIAL, m[..n - buflen]) && Total() == Mod64(n - buflen + off) && off < TWO64
      ensures buffer[..buflen] == m[n - buflen..n]
    {
      hide Fold, Value, Total;
    }

    // The context stands for the message m; its count is wrong by off.
    ghost predicate Stands(m: seq<bv8>, off: nat)
      reads this, state, buffer
    {
      At(m, |m|, off)
    }

    ghost predicate Represents(m: seq<bv8>)
      reads this, state, buffer
    {
      Stands(m, 0)
    }

    // sha256_init_ctx.
    constructor ()
      ensures Represents([]) && buflen == 0 && fresh(state) && fresh(buffer)
    {
      var s := new bv32[8];
      s[0], s[1], s[2], s[3] := 0x6a09e667, 0xbb67ae85, 0x3c6ef372, 0xa54ff53a;
      s[4], s[5], s[6], s[7] := 0x510e527f, 0x9b05688c, 0x1f83d9ab, 0x5be0cd19;
      state := s;
      total0, total1, buflen := 0, 0, 0;
      buffer := new bv8[128];
    }

    // Counts len more bytes, a size_t, in two 32-bit words. The one carry is right for 2^32 bytes and
    // more only if the sum with the lower word stays below 2^33.
    method Count(len: nat)
      requires Allocated() && len < TWO64
      modifies this`total0, this`total1
      ensures Allocated() && Total() == Mod64(old(Total()) + len + Miscount(old(total0), len))
      ensures Total() == Mod64(old(Total()) + len) <==> len < TWO32 || old(total0) + len < 2 * TWO32
    {
      hide Miscount;
      TwoWords(total0, total1, len);
      MiscountZero(total0, len);
      SumAgrees(Total() + len, Miscount(total0, len));
      total0 := (total0 + len) % TWO32;
      if total0 < len { total1 := (total1 + 1) % TWO32; }
    }

    method ProcessBlock(buf: array<bv8>, pos: nat, len: nat)
      requires Allocated() && len % 64 == 0 && len < TWO64 && pos + len <= buf.Length && state as object != buf
      modifies this`total0, this`total1, state
      ensures Allocated() && Value() == Fold(old(Value()), buf[pos..pos + len])
      ensures Total() == Mod64(old(Total()) + len + Miscount(old(total0), len))
      ensures Total() == Mod64(old(Total()) + len) <==> len < TWO32 || old(total0) + len < 2 * TWO32
    {
      hide Fold, Compress, Value, Total, Miscount, Mod64;
      Count(len);
      AllBlocks(buf, pos, len);
    }

    // The loop of sha256_process_block.
    method AllBlocks(buf: array<bv8>, pos: nat, len: nat)
      requires Allocated() && len % 64 == 0 && pos + len <= buf.Length && state as object != buf
      modifies state
      ensures Allocated() && Value() == Fold(old(Value()), buf[pos..pos + len])
    {
      hide Fold, Compress, Value;
      ghost var start, input := Value(), buf[..];
      var x := new bv32[16];
      var words := pos;
      FoldNothing(start);
      assert input[pos..pos] == [];
      while words < pos + len
        invariant pos <= words <= pos + len && (words - pos) % 64 == 0
        invariant Allocated() && buf[..] == input && Value() == Fold(start, input[pos..words])
      {
        FoldSlice(start, input, pos, words);
        OneBlock(x, buf, words);
        words := words + 64;
      }
    }

    // One turn of the loop of sha256_process_block.
    method OneBlock(x: array<bv32>, buf: array<bv8>, pos: nat)
      requires Allocated() && x.Length == 16 && pos + 64 <= buf.Length && x != state && x as object != buf
      requires state as object != buf
      modifies x, state
      ensures Allocated() && Value() == Compress(old(Value()), buf[pos..pos + 64])
    {
      hide Rounds, Circular, Sum, AddHash;
      var a, b, c, d := state[0], state[1], state[2], state[3];
      var e, f, g, h := state[4], state[5], state[6], state[7];
      ghost var m := buf[pos..pos + 64];
      LoadWords(x, buf, pos);
      a, b, c, d, e, f, g, h := AllSteps(x, a, b, c, d, e, f, g, h, m);
      AddToState(a, b, c, d, e, f, g, h);
    }

    method AddToState(a: bv32, b: bv32, c: bv32, d: bv32, e: bv32, f: bv32, g: bv32, h: bv32)
      requires state.Length == 8
      modifies state
      ensures Value() == AddHash(old(Value()), Hash(a, b, c, d, e, f, g, h))
    {
      hide Sum;
      state[0] := Sum(state[0], a);
      state[1] := Sum(state[1], b);
      state[2] := Sum(state[2], c);
      state[3] := Sum(state[3], d);
      state[4] := Sum(state[4], e);
      state[5] := Sum(state[5], f);
      state[6] := Sum(state[6], g);
      state[7] := Sum(state[7], h);
    }

    // ProcessBlock on bytes k to k + len of m.
    method HashBlocks(buf: array<bv8>, pos: nat, len: nat, ghost m: seq<bv8>, ghost k: nat,
                      ghost off: nat) returns (ghost off': nat)
      requires len % 64 == 0 && len < TWO64 && pos + len <= buf.Length && state as object != buf
      requires Hashed(m, k, off) && k + len <= |m| && buf[pos..pos + len] == m[k..k + len]
      modifies this`total0, this`total1, state
      ensures Allocated() && Hashed(m, k + len, off')
      ensures off' == off <==> len < TWO32 || old(total0) + len < 2 * TWO32
    {
      hide Fold, Value, Total, Miscount, Mod64, Hashed;
      HashedMeans(m, k, off);
      FoldExtend(m, k, len);
      MiscountZero(total0, len);
      ghost var before, miscount := Total(), Miscount(total0, len);
      off' := AddOff(k, len, off, miscount);
      ProcessBlock(buf, pos, len);
      assert Total() == Mod64(before + len + miscount);
      HashedNow(m, k + len, off');
    }

    lemma HashedMeans(m: seq<bv8>, k: nat, off: nat)
      requires Hashed(m, k, off)
      ensures Allocated() && k <= |m| && k % 64 == 0 && Value() == Fold(INITIAL, m[..k]) && Total() == Mod64(k + off)
      ensures off < TWO64
    {}

    lemma HashedNow(m: seq<bv8>, k: nat, off: nat)
      requires Allocated() && k <= |m| && k % 64 == 0 && Value() == Fold(INITIAL, m[..k]) && Total() == Mod64(k + off)
      requires off < TWO64
      ensures Hashed(m, k, off)
    {}

    // The part of sha256_process_bytes that completes what is in the buffer.
    method FillBuffer(data: array<bv8>, len: nat, ghost m: seq<bv8>, ghost n: nat, ghost off: nat) returns (add: nat)
      requires At(m, n, off) && buflen != 0 && data != buffer && state as object != data
      requires len <= data.Length && n + len <= |m| && data[..len] == m[n..n + len]
      modifies this`total0, this`total1, this`buflen, state, buffer
      ensures Allocated() && add == FirstPart(old(buflen), len) && At(m, n + add, off) && (add == len || buflen == 0)
    {
      hide Fold, Value, Total, At, Hashed;
      Taken(m, n, off);
      var leftOver := buflen;
      add := if 128 - leftOver > len then len else 128 - leftOver;
      Copy(buffer, leftOver, data, 0, add);
      buflen := buflen + add;
      Extended(buffer[..], data[..], m, n, leftOver, len, add);
      FlushBuffer(m, n - leftOver, off);
    }

    // Hashes the full blocks in the buffer, unless there is exactly one.
    method FlushBuffer(ghost m: seq<bv8>, ghost k: nat, ghost off: nat)
      requires Allocated() && Hashed(m, k, off) && buflen <= 128 && k + buflen <= |m|
      requires buffer[..buflen] == m[k..k + buflen]
      modifies this`total0, this`total1, this`buflen, state, buffer
      ensures Allocated() && At(m, k + old(buflen), off) && (old(buflen) == 128 ==> buflen == 0)
    {
      hide Fold, Value, Hashed, Total;
      if buflen > 64 {
        var total, whole := buflen, buflen - buflen % 64;
        ghost var b := buffer[..];
        assert b[0..0 + total] == buffer[..buflen];
        SubSlice(b, 0, m, k, total, 0, whole);
        SubSlice(b, 0, m, k, total, whole, total);
        ghost var off' := HashBlocks(buffer, 0, whole, m, k, off);
        buflen := buflen % 64;
        Copy(buffer, 0, buffer, whole, buflen);
      }
    }

    // The complete blocks of the input. Where the words of a misaligned buffer may not be read, each
    // block goes through the buffer of the context, and the last one stays behind.
    method WholeBlocks(data: array<bv8>, pos: nat, len: nat, unaligned: bool, ghost m: seq<bv8>, ghost n: nat,
                       ghost off: nat)
      returns (pos': nat, len': nat, ghost off': nat)
      requires Allocated() && At(m, n, off) && buflen == 0 && data != buffer && state as object != data
      requires len < TWO64 && pos + len <= data.Length && n + len == |m| && data[pos..pos + len] == m[n..]
      modifies this`total0, this`total1, state, buffer
      ensures pos <= pos' && pos' + len' == pos + len && len' <= 64
      ensures Allocated() && At(m, n + (pos' - pos), off') && buflen == 0
      ensures off' == off <==> unaligned || BlocksCount(old(total0), len)
    {
      hide At, Stands, Represents;
      pos', len', off' := pos, len, off;
      if len >= 64 {
        ghost var input := data[..];
        if unaligned {
          while len' > 64
            invariant pos <= pos' && pos' + len' == pos + len
            invariant Allocated() && buflen == 0 && At(m, n + (pos' - pos), off) && data[..] == input
          {
            SubSlice(input, pos, m, n, len, pos' - pos, pos' - pos + 64);
            BlockThroughBuffer(data, pos', m, n + (pos' - pos), off);
            pos', len' := pos' + 64, len' - 64;
          }
        } else {
          var whole := len - len % 64;
          SubSlice(input, pos, m, n, len, 0, whole);
          off' := BlocksInPlace(data, pos, whole, m, n, off);
          pos', len' := pos + whole, len % 64;
        }
      }
    }

    method BlocksInPlace(data: array<bv8>, pos: nat, len: nat, ghost m: seq<bv8>, ghost n: nat,
                         ghost off: nat) returns (ghost off': nat)
      requires At(m, n, off) && buflen == 0 && state as object != data && len % 64 == 0 && len < TWO64
      requires pos + len <= data.Length && n + len <= |m| && data[pos..pos + len] == m[n..n + len]
      modifies this`total0, this`total1, state
      ensures Allocated() && At(m, n + len, off')
      ensures off' == off <==> len < TWO32 || old(total0) + len < 2 * TWO32
    {
      hide Fold, Value;
      off' := HashBlocks(data, pos, len, m, n, off);
    }

    method BlockThroughBuffer(data: array<bv8>, pos: nat, ghost m: seq<bv8>, ghost n: nat, ghost off: nat)
      requires At(m, n, off) && buflen == 0 && data != buffer && state as object != data
      requires pos + 64 <= data.Length && n + 64 <= |m| && data[pos..pos + 64] == m[n..n + 64]
      modifies this`total0, this`total1, state, buffer
      ensures Allocated() && At(m, n + 64, off) && buflen == 0
    {
      hide Fold, Value;
      Copy(buffer, 0, data, pos, 64);
      assert buffer[0..64] == data[pos..pos + 64];
      ghost var off' := HashBlocks(buffer, 0, 64, m, n, off);
    }

    method KeepTail(data: array<bv8>, pos: nat, len: nat, ghost m: seq<bv8>, ghost n: nat, ghost off: nat)
      requires At(m, n, off) && buflen == 0 && data != buffer && state as object != data
      requires len <= 64 && pos + len <= data.Length && n + len == |m| && data[pos..pos + len] == m[n..]
      modifies this`total0, this`total1, this`buflen, state, buffer
      ensures Stands(m, off)
    {
      hide Fold, Value, Hashed, Total;
      if len > 0 {
        Taken(m, n, off);
        var leftOver := buflen;
        Copy(buffer, leftOver, data, pos, len);
        assert data[pos..pos + len] == m[n..n + len];
        leftOver := leftOver + len;
        if leftOver >= 64 {
          assert buffer[0..0 + 64] == m[n..n + 64];
          ghost var off' := HashBlocks(buffer, 0, 64, m, n, off);
          leftOver := leftOver - 64;
          Copy(buffer, 0, buffer, 64, leftOver);
        }
        buflen := leftOver;
      }
    }

    // sha256_process_bytes on the first len bytes of data, which begins at the given address; m is the
    // message so far, counted with an error of off. The context then stands for the message with the data
    // behind it, and counts it right exactly under a condition on the length and the alignment, which holds
    // for all lengths below 2^32.
    method ProcessBytes(data: array<bv8>, len: nat, address: nat, strictAlignment: bool, ghost m: seq<bv8>,
                        ghost off: nat)
      returns (ghost off': nat)
      requires Stands(m, off) && len <= data.Length && len < TWO64 && data != buffer && state as object != data
      modifies this`total0, this`total1, this`buflen, state, buffer
      ensures Stands(m + data[..len], off')
      ensures off' == off <==> CountsRight(|m| + off, old(buflen), len, address, strictAlignment)
    {
      hide Fold, Value, At, Hashed, Total, BlocksCount;
      Taken(m, |m|, off);
      Prepend(m, data[..len], off);
      ghost var input, whole := data[..], m + data[..len];
      off' := off;
      var pos, rest := 0, len;
      InSum(m, input, len, 0);
      if buflen != 0 {
        var add := FillBuffer(data, len, whole, |m|, off);
        pos, rest := add, len - add;
      }
      var unaligned := strictAlignment && (address + pos) % 4 != 0;
      if rest > 0 {
        InSum(m, input, len, pos);
        LowWord(whole, |m| + pos, off);
        off' := BlocksAndTail(data, pos, rest, unaligned, whole, |m| + pos, off);
      } else {
        NoBlocks((|m| + off + pos) % TWO32);
      }
    }

    lemma LowWord(m: seq<bv8>, n: nat, off: nat)
      requires At(m, n, off) && buflen == 0
      ensures total0 == (n + off) % TWO32
    {
      hide Fold, Value;
      LowOfTotal(total0, total1, n + off);
    }

    // The rest of sha256_process_bytes, with an empty buffer.
    method BlocksAndTail(data: array<bv8>, pos: nat, len: nat, unaligned: bool, ghost m: seq<bv8>, ghost n: nat,
                         ghost off: nat)
      returns (ghost off': nat)
      requires Allocated() && At(m, n, off) && buflen == 0 && data != buffer && state as object != data
      requires len < TWO64 && pos + len <= data.Length && n + len == |m| && data[pos..pos + len] == m[n..]
      modifies this`total0, this`total1, this`buflen, state, buffer
      ensures Stands(m, off')
      ensures off' == off <==> unaligned || BlocksCount(old(total0), len)
    {
      hide At, BlocksCount;
      ghost var input := data[..];
      var pos', len';
      pos', len', off' := WholeBlocks(data, pos, len, unaligned, m, n, off);
      SubSlice(input, pos, m, n, len, pos' - pos, len);
      KeepTail(data, pos', len', m, n + (pos' - pos), off');
    }

    // sha256_conclude_ctx: the length that was counted and the padding follow the unprocessed bytes in
    // the buffer.
    method ConcludeCtx(ghost m: seq<bv8>, ghost off: nat)
      requires Stands(m, off)
      modifies this`total0, this`total1, state, buffer
      ensures Allocated() && Value() == Fold(INITIAL, PadCounting(m, |m| + off))
    {
      hide Fold, Value, PadCounting, Padding, At, Hashed, Total, Miscount, Mod64;
      var bytes := buflen;
      Taken(m, |m|, off);
      var size := if bytes < 56 then 64 else 128;
      WholeCount(|m| - bytes + off, bytes);
      Count(bytes);
      PadBuffer(bytes, size, m, |m| + off);
      PaddedBlocks(m, bytes, size, |m| + off);
      ProcessBlock(buffer, 0, size);
    }

    method PadBuffer(bytes: nat, size: nat, ghost m: seq<bv8>, ghost counted: nat)
      requires Allocated() && Total() == Mod64(counted) && bytes <= 64 && bytes <= |m|
      requires size == if bytes < 56 then 64 else 128
      requires buffer[..bytes] == m[|m| - bytes..]
      modifies buffer
      ensures buffer[0..size] == m[|m| - bytes..] + Padding(counted, size - 9 - bytes)
    {
      hide NumberBytes, Zeros, Total;
      ghost var before := buffer[..];
      SetLength(size, counted);
      ghost var between := buffer[..];
      CopyPadding(bytes, size);
      ghost var after := buffer[..];
      SameSlice(before, after, 0, bytes);
      SameSlice(between, after, size - 8, size - 4);
      SameSlice(between, after, size - 4, size);
      Parts(after, bytes, size);
    }

    // The bit that ends the message, and the zeros behind it.
    method CopyPadding(bytes: nat, size: nat)
      requires Allocated() && bytes <= 64 && size == if bytes < 56 then 64 else 128
      modifies buffer
      ensures buffer[bytes..size - 8] == [0x80] + Zeros(size - 9 - bytes)
      ensures forall k | 0 <= k < 128 && !(bytes <= k < size - 8) :: buffer[k] == old(buffer[k])
    {
      hide Zeros;
      var fillbuf := new bv8[64](i => if i == 0 then 0x80 else 0);
      Fill(fillbuf[..], size - 9 - bytes);
      ghost var padding := fillbuf[0..size - 8 - bytes];
      assert padding == fillbuf[..][0..size - 8 - bytes];
      Copy(buffer, bytes, fillbuf, 0, size - 8 - bytes);
    }

    // The length in bits in the last two words.
    method SetLength(size: nat, ghost counted: nat)
      requires Allocated() && Total() == Mod64(counted) && 8 <= size <= 128
      modifies buffer
      ensures buffer[size - 8..size - 4] == NumberBytes(8 * counted % TWO64 / TWO32)
      ensures buffer[size - 4..size] == NumberBytes(8 * counted % TWO32)
      ensures forall k | 0 <= k < size - 8 :: buffer[k] == old(buffer[k])
    {
      hide NumberBytes;
      LengthWords(counted, total0, total1);
      SetNumber(buffer, size - 8, (total1 * 8) % TWO32 + total0 / 0x2000_0000);
      SetNumber(buffer, size - 4, (total0 * 8) % TWO32);
    }

    // sha256_read_ctx.
    method ReadCtx(resbuf: array<bv8>)
      requires Allocated() && resbuf.Length == 32 && state as object != resbuf
      modifies resbuf
      ensures resbuf[..] == Digest(Value())
    {
      hide WordBytes, Swap, Value, Nth;
      ghost var h := Value();
      var i := 0;
      while i < 8
        invariant 0 <= i <= 8 && Value() == h
        invariant resbuf[..4 * i] == DigestFront(h, i)
      {
        ReadWord(resbuf, i);
        i := i + 1;
      }
      DigestFrontIsDigest(h);
      assert resbuf[..] == resbuf[..32];
    }

    method ReadWord(resbuf: array<bv8>, i: nat)
      requires Allocated() && i < 8 && resbuf.Length == 32 && state as object != resbuf
      requires resbuf[..4 * i] == DigestFront(Value(), i)
      modifies resbuf
      ensures resbuf[..4 * (i + 1)] == DigestFront(Value(), i + 1)
    {
      hide WordBytes, Swap, Value, Nth;
      ghost var before := resbuf[..4 * i];
      NthWord(i);
      SwapStores(state[i]);
      SetUint32(resbuf, 4 * i, Swap(state[i]));
      Grown(before, resbuf[..], 4 * i, 4 * i + 4);
    }

    lemma NthWord(i: nat)
      requires Allocated() && i < 8
      ensures state[i] == Nth(Value(), i)
    {}

    // sha256_finish_ctx.
    method FinishCtx(resbuf: array<bv8>, ghost m: seq<bv8>, ghost off: nat)
      requires Stands(m, off) && resbuf.Length == 32 && state as object != resbuf
      modifies this`total0, this`total1, state, buffer, resbuf
      ensures resbuf[..] == DigestCounting(m, |m| + off)
      ensures off == 0 && |m| < MAX_BYTES ==> resbuf[..] == Sha256(m)
    {
      hide Value, Fold, Pad, PadCounting, Digest;
      ConcludeCtx(m, off);
      ReadCtx(resbuf);
      if off == 0 && |m| < MAX_BYTES { PadIsCounting(m); }
    }

    lemma Empty()
      requires Represents([])
      ensures Stands([], 0)
    {}

    lemma Bounds(m: seq<bv8>, off: nat)
      requires Stands(m, off)
      ensures buflen <= 64 && off < TWO64
    {
      hide Fold, Value, Total;
    }

    // What a context stands for is the beginning of any longer message.
    lemma Prepend(m: seq<bv8>, tail: seq<bv8>, off: nat)
      requires Stands(m, off)
      ensures At(m + tail, |m|, off)
    {
      hide Fold, Value;
      assert (m + tail)[..|m| - buflen] == m[..|m| - buflen];
    }
  }

  // How many of len bytes go to what is in the buffer already.
  function FirstPart(buflen: nat, len: nat): (add: nat)
    requires buflen <= 64
    ensures add <= len
  {
    if buflen == 0 then 0 else if 128 - buflen > len then len else 128 - buflen
  }

  // The complete blocks of len bytes are counted right, in one step.
  predicate BlocksCount(low: nat, len: nat) {
    len - len % 64 < TWO32 || low + (len - len % 64) < 2 * TWO32
  }

  lemma NoBlocks(low: nat)
    ensures BlocksCount(low, 0)
  {}

  // The condition on a call of sha256_process_bytes under which it counts right, from what was counted.
  predicate CountsRight(counted: nat, buflen: nat, len: nat, address: nat, strictAlignment: bool)
    requires buflen <= 64
  {
    var add := FirstPart(buflen, len);
    (strictAlignment && (address + add) % 4 != 0) || BlocksCount((counted + add) % TWO32, len - add)
  }

  lemma ShortCounts(counted: nat, buflen: nat, len: nat, address: nat, strictAlignment: bool)
    requires buflen <= 64 && (len < TWO32 || counted + len < 2 * TWO32)
    ensures CountsRight(counted, buflen, len, address, strictAlignment)
  {
    var add := FirstPart(buflen, len);
    assert (counted + add) % TWO32 <= counted + add;
  }

  // An aligned piece of 2^33 bytes or more is counted wrong.
  lemma LongPieceMiscounted(len: nat, address: nat, strictAlignment: bool)
    requires 2 * TWO32 <= len && address % 4 == 0
    ensures !CountsRight(0, 0, len, address, strictAlignment)
  {
    assert len - len % 64 >= 2 * TWO32;
  }

  lemma FoldNothing(s: Hash)
    ensures Fold(s, []) == s
  {}

  lemma FoldMore(s: Hash, m: seq<bv8>, block: seq<bv8>)
    requires |m| % 64 == 0 && |block| == 64
    ensures Fold(s, m + block) == Compress(Fold(s, m), block)
  {
    hide Compress;
    assert (m + block)[..|m|] == m && (m + block)[|m|..] == block;
  }

  lemma FoldSlice(s: Hash, m: seq<bv8>, i: nat, j: nat)
    requires i <= j <= j + 64 <= |m| && (j - i) % 64 == 0
    ensures Fold(s, m[i..j + 64]) == Compress(Fold(s, m[i..j]), m[j..j + 64])
  {
    hide Compress, Fold;
    var a, b := m[i..j], m[j..j + 64];
    assert m[i..j + 64] == a + b;
    FoldMore(s, a, b);
  }

  lemma FoldExtend(m: seq<bv8>, k: nat, len: nat)
    requires k % 64 == 0 && len % 64 == 0 && k + len <= |m|
    ensures (k + len) % 64 == 0 && Fold(INITIAL, m[..k + len]) == Fold(Fold(INITIAL, m[..k]), m[k..k + len])
  {
    hide Fold;
    assert m[..k + len] == m[..k] + m[k..k + len];
    FoldAppend(INITIAL, m[..k], m[k..k + len]);
  }

  // memcpy.
  method Copy(dst: array<bv8>, i: nat, src: array<bv8>, j: nat, n: nat)
    requires i + n <= dst.Length && j + n <= src.Length && (dst != src || i + n <= j || j + n <= i)
    modifies dst
    ensures dst[i..i + n] == old(src[j..j + n])
    ensures forall k | 0 <= k < dst.Length && !(i <= k < i + n) :: dst[k] == old(dst[k])
  {
    forall k | 0 <= k < n { dst[i + k] := src[j + k]; }
  }

  lemma FoldRest(m: seq<bv8>, k: nat)
    requires k <= |m| && k % 64 == 0 && |m| % 64 == 0 && (|m| - k) % 64 == 0
    ensures Fold(INITIAL, m) == Fold(Fold(INITIAL, m[..k]), m[k..])
  {
    hide Fold;
    assert m == m[..k] + m[k..];
    FoldAppend(INITIAL, m[..k], m[k..]);
  }

  // A stretch of m in the buffer, extended by the beginning of the next input.
  lemma Extended<T>(b: seq<T>, d: seq<T>, m: seq<T>, n: nat, left: nat, len: nat, add: nat)
    requires left <= n && n + len <= |m| && add <= len <= |d| && left + add <= |b|
    requires b[..left] == m[n - left..n] && d[..len] == m[n..n + len] && b[left..left + add] == d[0..0 + add]
    ensures b[..left + add] == m[n - left..n + add]
  {
    SubSlice(d, 0, m, n, len, 0, add);
    assert b[..left + add] == b[..left] + b[left..left + add];
    assert m[n - left..n + add] == m[n - left..n] + m[n..n + add];
  }

  // Equal stretches have equal parts.
  lemma SubSlice<T>(b: seq<T>, p: nat, m: seq<T>, k: nat, n: nat, i: nat, j: nat)
    requires p + n <= |b| && k + n <= |m| && b[p..p + n] == m[k..k + n] && i <= j <= n
    ensures b[p + i..p + j] == m[k + i..k + j]
  {
    SliceOfSlice(b, p, n, i, j);
    SliceOfSlice(m, k, n, i, j);
  }

  // The remainder modulo 2^64.
  function Mod64(n: nat): nat {
    n % TWO64
  }

  lemma WholeCount(k: nat, n: nat)
    ensures Mod64(Mod64(k) + n) == Mod64(k + n)
  {}

  // The error after another step.
  ghost method AddOff(k: nat, len: nat, off: nat, miscount: nat) returns (off': nat)
    requires off < TWO64 && miscount < TWO64
    ensures off' < TWO64 && Mod64(Mod64(k + off) + len + miscount) == Mod64(k + len + off')
    ensures off' == off <==> miscount == 0
  {
    off' := if off + miscount < TWO64 then off + miscount else off + miscount - TWO64;
    WholeCount(k + off, len + miscount);
    if off + miscount >= TWO64 { OneTurn(k + len + off'); }
  }

  lemma OneTurn(n: nat)
    ensures (n + TWO64) % TWO64 == n % TWO64
  {}

  lemma SumAgrees(n: nat, x: nat)
    requires x < TWO64
    ensures Mod64(n + x) == Mod64(n) <==> x == 0
  {}

  // By how much the one carry of the count is wrong, modulo 2^64.
  function Miscount(low: nat, len: nat): nat {
    TWO32 * ((if (low + len) % TWO32 < len then 1 else 0) - (low + len) / TWO32) % TWO64
  }

  lemma MiscountZero(low: nat, len: nat)
    requires low < TWO32 && len < TWO64
    ensures Miscount(low, len) < TWO64
    ensures Miscount(low, len) == 0 <==> len < TWO32 || low + len < 2 * TWO32
  {
    var q, l := (low + len) / TWO32, (low + len) % TWO32;
    if len < TWO32 {
      var c := if low + len < TWO32 then 0 else 1;
      RemainderUnique(low + len, TWO32, c, low + len - TWO32 * c);
    } else {
      assert l < len && 1 <= q <= TWO32;
      RemainderUnique(TWO32 * (TWO32 + 1 - q), TWO64, if q == 1 then 1 else 0,
                      if q == 1 then 0 else TWO32 * (TWO32 + 1 - q));
      OneMoreTurn(TWO32 * (1 - q));
    }
  }

  lemma OneMoreTurn(n: int)
    ensures (n + TWO64) % TWO64 == n % TWO64
  {}

  // The two words of the byte count.
  lemma TwoWords(low: nat, high: nat, len: nat)
    requires low < TWO32 && high < TWO32
    ensures
      var l := (low + len) % TWO32;
      l + TWO32 * (if l < len then (high + 1) % TWO32 else high)
      == (low + TWO32 * high + len + Miscount(low, len)) % TWO64
  {
    var q, l := (low + len) / TWO32, (low + len) % TWO32;
    var c := if l < len then 1 else 0;
    var sum := l + TWO32 * (high + c);
    assert low + TWO32 * high + len + TWO32 * (c - q) == sum;
    SumModulo(low + TWO32 * high + len, TWO32 * (c - q));
    if high + c < TWO32 { RemainderUnique(sum, TWO64, 0, sum); } else { RemainderUnique(sum, TWO64, 1, l); }
  }

  lemma SumModulo(n: int, x: int)
    ensures (n + x % TWO64) % TWO64 == (n + x) % TWO64
  {}

  lemma LowOfTotal(low: nat, high: nat, n: nat)
    requires low < TWO32 && low + TWO32 * high == n % TWO64
    ensures low == n % TWO32
  {
    RemainderUnique(n, TWO32, high + TWO32 * (n / TWO64), low);
  }

  // The two words of the bit length, from the two words of the byte count.
  lemma LengthWords(n: nat, low: nat, high: nat)
    requires low < TWO32 && high < TWO32 && n % TWO64 == low + TWO32 * high
    ensures (high * 8) % TWO32 + low / 0x2000_0000 == 8 * n % TWO64 / TWO32
    ensures (low * 8) % TWO32 == 8 * n % TWO32
  {
    var a, b := low / 0x2000_0000, low % 0x2000_0000;
    var c, d := high / 0x2000_0000, high % 0x2000_0000;
    var bits := TWO32 * (8 * d + a) + 8 * b;
    RemainderUnique(8 * low, TWO32, a, 8 * b);
    RemainderUnique(8 * high, TWO32, c, 8 * d);
    assert 8 * n == TWO64 * (8 * (n / TWO64) + c) + bits;
    RemainderUnique(8 * n, TWO64, 8 * (n / TWO64) + c, bits);
    RemainderUnique(bits, TWO32, 8 * d + a, 8 * b);
    RemainderUnique(8 * n, TWO32, TWO32 * (8 * (n / TWO64) + c) + 8 * d + a, 8 * b);
  }

  // set_uint32 of a swapped word: four bytes, most significant first.
  method SetNumber(dst: array<bv8>, i: nat, n: nat)
    requires i + 4 <= dst.Length && n < TWO32
    modifies dst
    ensures dst[i..i + 4] == NumberBytes(n)
    ensures forall k | 0 <= k < dst.Length && !(i <= k < i + 4) :: dst[k] == old(dst[k])
  {
    hide ByteOf;
    dst[i] := ByteOf(n / 0x100_0000);
    dst[i + 1] := ByteOf(n / 0x1_0000 % 256);
    dst[i + 2] := ByteOf(n / 0x100 % 256);
    dst[i + 3] := ByteOf(n % 256);
  }

  lemma Fill(fillbuf: seq<bv8>, zeros: nat)
    requires zeros < |fillbuf| && fillbuf[0] == 0x80 && forall k | 1 <= k < |fillbuf| :: fillbuf[k] == 0
    ensures fillbuf[0..zeros + 1] == [0x80] + Zeros(zeros)
  {}

  lemma Parts<T>(s: seq<T>, bytes: nat, size: nat)
    requires bytes + 8 <= size <= |s|
    ensures s[0..size] == s[..bytes] + (s[bytes..size - 8] + s[size - 8..size - 4] + s[size - 4..size])
  {}

  lemma SameSlice<T>(s: seq<T>, t: seq<T>, i: nat, j: nat)
    requires i <= j <= |s| == |t| && forall k | i <= k < j :: s[k] == t[k]
    ensures s[i..j] == t[i..j]
  {}

  lemma Reassociate<T>(a: seq<T>, b: seq<T>, c: seq<T>, d: seq<T>, e: seq<T>)
    ensures a + b + c + d + e == a + (b + c + d + e)
  {}

  lemma Grown<T>(before: seq<T>, after: seq<T>, i: nat, j: nat)
    requires i <= j <= |after| && |before| == i && forall k | 0 <= k < i :: after[k] == before[k]
    ensures after[..j] == before + after[i..j]
  {}

  lemma InSum<T>(m: seq<T>, d: seq<T>, len: nat, i: nat)
    requires i <= len <= |d|
    ensures d[i..i + (len - i)] == (m + d[..len])[|m| + i..]
  {}

  lemma TailOfSum<T>(a: seq<T>, b: seq<T>, k: nat)
    requires k <= |a|
    ensures (a + b)[..k] == a[..k] && (a + b)[k..] == a[k..] + b
  {}

  // What follows the message in its padded form.
  function Padding(counted: nat, zeros: nat): seq<bv8> {
    [0x80] + Zeros(zeros) + NumberBytes(8 * counted % TWO64 / TWO32) + NumberBytes(8 * counted % TWO32)
  }

  // The last blocks, on top of those that were hashed.
  lemma PaddedBlocks(m: seq<bv8>, bytes: nat, size: nat, counted: nat)
    requires bytes <= 64 && bytes <= |m| && (|m| - bytes) % 64 == 0 && size == if bytes < 56 then 64 else 128
    ensures
      var k, tail := |m| - bytes, m[|m| - bytes..] + Padding(counted, size - 9 - bytes);
      |tail| == size && Fold(INITIAL, PadCounting(m, counted)) == Fold(Fold(INITIAL, m[..k]), tail)
  {
    hide NumberBytes, Zeros, Fold;
    var k, n, zeros, p := |m| - bytes, |m|, size - 9 - bytes, PadCounting(m, counted);
    ZerosNeeded(n, bytes, size);
    Reassociate(m, [0x80], Zeros(zeros), NumberBytes(8 * counted % TWO64 / TWO32), NumberBytes(8 * counted % TWO32));
    hide PadCounting;
    TailOfSum(m, Padding(counted, zeros), k);
    hide Padding;
    FoldRest(p, k);
  }

  lemma ZerosNeeded(n: nat, bytes: nat, size: nat)
    requires bytes <= 64 && bytes <= n && (n - bytes) % 64 == 0 && size == if bytes < 56 then 64 else 128
    ensures (55 - n) % 64 == size - 9 - bytes
  {}

  //// Reading the digest

  function LittleEndianBytes(w: bv32): seq<bv8> {
    [(w & 0xFF) as bv8, ((w >> 8) & 0xFF) as bv8, ((w >> 16) & 0xFF) as bv8, (w >> 24) as bv8]
  }

  lemma SwapStores(w: bv32)
    ensures LittleEndianBytes(Swap(w)) == WordBytes(w)
  {}

  // set_uint32 on a little-endian machine.
  method SetUint32(r: array<bv8>, i: nat, v: bv32)
    requires i + 4 <= r.Length
    modifies r
    ensures r[i..i + 4] == LittleEndianBytes(v)
    ensures forall k | 0 <= k < r.Length && !(i <= k < i + 4) :: r[k] == old(r[k])
  {
    r[i], r[i + 1] := (v & 0xFF) as bv8, ((v >> 8) & 0xFF) as bv8;
    r[i + 2], r[i + 3] := ((v >> 16) & 0xFF) as bv8, (v >> 24) as bv8;
  }

  function Nth(s: Hash, i: nat): bv32
    requires i < 8
  {
    [s.a, s.b, s.c, s.d, s.e, s.f, s.g, s.h][i]
  }

  ghost function DigestFront(s: Hash, i: nat): seq<bv8>
    requires i <= 8
  {
    if i == 0 then [] else DigestFront(s, i - 1) + WordBytes(Nth(s, i - 1))
  }

  lemma DigestFrontIsDigest(s: Hash)
    ensures DigestFront(s, 8) == Digest(s)
  {
    hide WordBytes;
    assert DigestFront(s, 1) == WordBytes(s.a);
    assert DigestFront(s, 2) == DigestFront(s, 1) + WordBytes(s.b);
    assert DigestFront(s, 3) == DigestFront(s, 2) + WordBytes(s.c);
    assert DigestFront(s, 4) == DigestFront(s, 3) + WordBytes(s.d);
    assert DigestFront(s, 5) == DigestFront(s, 4) + WordBytes(s.e);
    assert DigestFront(s, 6) == DigestFront(s, 5) + WordBytes(s.f);
    assert DigestFront(s, 7) == DigestFront(s, 6) + WordBytes(s.g);
  }

  //// Whole messages

  // sha256_buffer. The digest is that of the data exactly as far as the bytes are counted right.
  method Sha256Buffer(data: array<bv8>, len: nat, address: nat, strictAlignment: bool,
                      resbuf: array<bv8>) returns (ghost off: nat)
    requires len <= data.Length && len < TWO64 && resbuf.Length == 32
    modifies resbuf
    ensures resbuf[..] == DigestCounting(old(data[..len]), len + off)
    ensures off == 0 <==> CountsRight(0, 0, len, address, strictAlignment)
    ensures off == 0 && len < MAX_BYTES ==> resbuf[..] == Sha256(old(data[..len]))
  {
    hide Sha256Spec.Sha256, DigestCounting, Sha256Ctx.Stands, CountsRight;
    var ctx := new Sha256Ctx();
    ctx.Empty();
    off := ctx.ProcessBytes(data, len, address, strictAlignment, [], 0);
    assert [] + data[..len] == data[..len];
    ctx.FinishCtx(resbuf, data[..len], off);
  }

  // crypto_sha256, whose length is an unsigned int.
  method CryptoSha256(data: array<bv8>, length: nat, address: nat, strictAlignment: bool,
                      hash: array<bv8>) returns (ret: int)
    requires length <= data.Length && length < TWO32 && hash.Length == 32
    modifies hash
    ensures ret == 0 && hash[..] == Sha256(old(data[..length]))
  {
    ShortCounts(0, 0, length, address, strictAlignment);
    ghost var off := Sha256Buffer(data, length, address, strictAlignment, hash);
    return 0;
  }

  // The bytes of the pieces, in order.
  ghost function Joined(pieces: seq<seq<bv8>>): seq<bv8> {
    if |pieces| == 0 then [] else Joined(pieces[..|pieces| - 1]) + pieces[|pieces| - 1]
  }

  // However a message is cut into pieces, wherever each piece lies in memory, and whether or not the
  // machine demands alignment, the digest is that of the whole message, padded with the length that was
  // counted: the right one if the pieces are shorter than 2^32 bytes, or the whole than 2^33.
  method DigestOfPieces(pieces: seq<seq<bv8>>, addresses: seq<nat>,
                        strictAlignment: bool) returns (resbuf: array<bv8>, ghost off: nat)
    requires |pieces| == |addresses| && forall i | 0 <= i < |pieces| :: |pieces[i]| < TWO64
    ensures resbuf.Length == 32 && resbuf[..] == DigestCounting(Joined(pieces), |Joined(pieces)| + off)
    ensures off == 0 && |Joined(pieces)| < MAX_BYTES ==> resbuf[..] == Sha256(Joined(pieces))
    ensures (forall i | 0 <= i < |pieces| :: |pieces[i]| < TWO32) || |Joined(pieces)| < 2 * TWO32 ==> off == 0
  {
    hide Sha256Spec.Sha256, DigestCounting, Sha256Ctx.Stands, CountsRight;
    resbuf := new bv8[32];
    var ctx := new Sha256Ctx();
    ctx.Empty();
    off := 0;
    var i := 0;
    while i < |pieces|
      invariant 0 <= i <= |pieces|
      invariant fresh(ctx) && fresh(ctx.state) && fresh(ctx.buffer) && fresh(resbuf) && ctx.state as object != resbuf
      invariant ctx.Stands(Joined(pieces[..i]), off)
      invariant (forall j | 0 <= j < |pieces| :: |pieces[j]| < TWO32) || |Joined(pieces)| < 2 * TWO32 ==> off == 0
    {
      var piece := pieces[i];
      var data := new bv8[|piece|](k requires 0 <= k < |piece| => piece[k]);
      assert data[..|piece|] == piece;
      assert pieces[..i + 1][..i] == pieces[..i];
      ctx.Bounds(Joined(pieces[..i]), off);
      JoinedBefore(pieces, i + 1);
      if off == 0 && (|piece| < TWO32 || |Joined(pieces)| < 2 * TWO32) {
        ShortCounts(|Joined(pieces[..i])|, ctx.buflen, |piece|, addresses[i], strictAlignment);
      }
      off := ctx.ProcessBytes(data, |piece|, addresses[i], strictAlignment, Joined(pieces[..i]), off);
      i := i + 1;
    }
    assert pieces[..i] == pieces;
    ctx.FinishCtx(resbuf, Joined(pieces), off);
  }

  lemma {:induction false} JoinedBefore(pieces: seq<seq<bv8>>, i: nat)
    requires i <= |pieces|
    ensures |Joined(pieces[..i])| <= |Joined(pieces)|
  {
    if i < |pieces| {
      JoinedBefore(pieces[..|pieces| - 1], i);
      assert pieces[..|pieces| - 1][..i] == pieces[..i];
    } else {
      assert pieces[..i] == pieces;
    }
  }
}
