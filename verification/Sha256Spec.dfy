// SHA-256 as FIPS 180-2 defines it: padding (section 5.1.1), the 64-word message schedule and the 64
// rounds that shift eight working variables (section 6.2.2).
module Sha256Spec {
  import opened Machine

  // The working variables, and the hash value between blocks.
  datatype Hash = Hash(a: bv32, b: bv32, c: bv32, d: bv32, e: bv32, f: bv32, g: bv32, h: bv32)

  // Addition modulo 2^32. Proofs about rounds hide its definition.
  function Sum(x: bv32, y: bv32): bv32 {
    x + y
  }

  function Rotr(x: bv32, n: bv32): bv32
    requires 0 < n < 32
  {
    (x >> n) | (x << (32 - n))
  }

  function Xor3(x: bv32, y: bv32, z: bv32): bv32 {
    x ^ y ^ z
  }

  function Ch(x: bv32, y: bv32, z: bv32): bv32 {
    (x & y) ^ (!x & z)
  }

  function Maj(x: bv32, y: bv32, z: bv32): bv32 {
    (x & y) ^ (x & z) ^ (y & z)
  }

  function BigSigma0(x: bv32): bv32 {
    Xor3(Rotr(x, 2), Rotr(x, 13), Rotr(x, 22))
  }

  function BigSigma1(x: bv32): bv32 {
    Xor3(Rotr(x, 6), Rotr(x, 11), Rotr(x, 25))
  }

  function SmallSigma0(x: bv32): bv32 {
    Xor3(Rotr(x, 7), Rotr(x, 18), x >> 3)
  }

  function SmallSigma1(x: bv32): bv32 {
    Xor3(Rotr(x, 17), Rotr(x, 19), x >> 10)
  }

  function K(t: nat): bv32
    requires t < 64
  {
    match t / 8
    case 0 => [0x428a2f98, 0x71374491, 0xb5c0fbcf, 0xe9b5dba5, 0x3956c25b, 0x59f111f1, 0x923f82a4, 0xab1c5ed5][t % 8]
    case 1 => [0xd807aa98, 0x12835b01, 0x243185be, 0x550c7dc3, 0x72be5d74, 0x80deb1fe, 0x9bdc06a7, 0xc19bf174][t % 8]
    case 2 => [0xe49b69c1, 0xefbe4786, 0x0fc19dc6, 0x240ca1cc, 0x2de92c6f, 0x4a7484aa, 0x5cb0a9dc, 0x76f988da][t % 8]
    case 3 => [0x983e5152, 0xa831c66d, 0xb00327c8, 0xbf597fc7, 0xc6e00bf3, 0xd5a79147, 0x06ca6351, 0x14292967][t % 8]
    case 4 => [0x27b70a85, 0x2e1b2138, 0x4d2c6dfc, 0x53380d13, 0x650a7354, 0x766a0abb, 0x81c2c92e, 0x92722c85][t % 8]
    case 5 => [0xa2bfe8a1, 0xa81a664b, 0xc24b8b70, 0xc76c51a3, 0xd192e819, 0xd6990624, 0xf40e3585, 0x106aa070][t % 8]
    case 6 => [0x19a4c116, 0x1e376c08, 0x2748774c, 0x34b0bcb5, 0x391c0cb3, 0x4ed8aa4a, 0x5b9cca4f, 0x682e6ff3][t % 8]
    case _ => [0x748f82ee, 0x78a5636f, 0x84c87814, 0x8cc70208, 0x90befffa, 0xa4506ceb, 0xbef9a3f7, 0xc67178f2][t % 8]
  }

  const INITIAL := Hash(0x6a09e667, 0xbb67ae85, 0x3c6ef372, 0xa54ff53a, 0x510e527f, 0x9b05688c, 0x1f83d9ab, 0x5be0cd19)

  // The sixteen words of a block, most significant byte first.
  function MessageWord(m: seq<bv8>, t: nat): bv32
    requires |m| == 64 && t < 16
  {
    BigEndian(m[4 * t], m[4 * t + 1], m[4 * t + 2], m[4 * t + 3])
  }

  function BigEndian(b0: bv8, b1: bv8, b2: bv8, b3: bv8): bv32 {
    ((b0 as bv32) << 24) | ((b1 as bv32) << 16) | ((b2 as bv32) << 8) | (b3 as bv32)
  }

  // The message schedule.
  function W(m: seq<bv8>, t: nat): bv32
    requires |m| == 64
  {
    if t < 16 then MessageWord(m, t)
    else Sum(Sum(Sum(SmallSigma1(W(m, t - 2)), W(m, t - 7)), SmallSigma0(W(m, t - 15))), W(m, t - 16))
  }

  function Round(s: Hash, k: bv32, w: bv32): Hash {
    var t1 := Sum(Sum(Sum(Sum(s.h, BigSigma1(s.e)), Ch(s.e, s.f, s.g)), k), w);
    var t2 := Sum(BigSigma0(s.a), Maj(s.a, s.b, s.c));
    Hash(Sum(t1, t2), s.a, s.b, s.c, Sum(s.d, t1), s.e, s.f, s.g)
  }

  // The working variables after t rounds.
  function Rounds(s: Hash, m: seq<bv8>, t: nat): Hash
    requires |m| == 64 && t <= 64
  {
    if t == 0 then s else Round(Rounds(s, m, t - 1), K(t - 1), W(m, t - 1))
  }

  function Compress(s: Hash, m: seq<bv8>): Hash
    requires |m| == 64
  {
    AddHash(s, Rounds(s, m, 64))
  }

  function AddHash(s: Hash, r: Hash): Hash {
    Hash(Sum(s.a, r.a), Sum(s.b, r.b), Sum(s.c, r.c), Sum(s.d, r.d),
         Sum(s.e, r.e), Sum(s.f, r.f), Sum(s.g, r.g), Sum(s.h, r.h))
  }

  // Whole blocks, one after the other.
  function Fold(s: Hash, m: seq<bv8>): Hash
    requires |m| % 64 == 0
  {
    if |m| == 0 then s else Compress(Fold(s, m[..|m| - 64]), m[|m| - 64..])
  }

  lemma {:induction false} FoldAppend(s: Hash, m: seq<bv8>, n: seq<bv8>)
    requires |m| % 64 == 0 && |n| % 64 == 0
    ensures Fold(s, m + n) == Fold(Fold(s, m), n)
  {
    hide Compress;
    if |n| == 0 {
      assert m + n == m;
    } else {
      var front, last := n[..|n| - 64], n[|n| - 64..];
      FoldAppend(s, m, front);
      assert (m + n)[..|m + n| - 64] == m + front;
      assert (m + n)[|m + n| - 64..] == last;
    }
  }

  // A 32-bit number as four bytes, most significant first.
  function NumberBytes(n: nat): (b: seq<bv8>)
    requires n < TWO32
    ensures |b| == 4
  {
    [ByteOf(n / 0x100_0000), ByteOf(n / 0x1_0000 % 256), ByteOf(n / 0x100 % 256), ByteOf(n % 256)]
  }

  // The longest message the standard defines: below 2^64 bits.
  const MAX_BYTES: nat := 0x2000_0000_0000_0000

  function Zeros(n: nat): (z: seq<bv8>)
    ensures |z| == n
  {
    seq(n, i => 0)
  }

  lemma PadLength(n: nat)
    ensures (n + 1 + (55 - n) % 64 + 4 + 4) % 64 == 0
  {}

  // A one bit, the fewest zero bits that reach 64 bits short of a block, and the length in bits, of as
  // many bytes as were counted, modulo 2^64.
  function PadCounting(m: seq<bv8>, counted: nat): (p: seq<bv8>)
    ensures |p| % 64 == 0
  {
    PadLength(|m|);
    m + [0x80] + Zeros((55 - |m|) % 64) + NumberBytes(8 * counted % TWO64 / TWO32) + NumberBytes(8 * counted % TWO32)
  }

  // The padding of the standard.
  function Pad(m: seq<bv8>): (p: seq<bv8>)
    requires |m| < MAX_BYTES
    ensures |p| % 64 == 0
  {
    PadLength(|m|);
    m + [0x80] + Zeros((55 - |m|) % 64) + NumberBytes(8 * |m| / TWO32) + NumberBytes(8 * |m| % TWO32)
  }

  lemma PadIsCounting(m: seq<bv8>)
    requires |m| < MAX_BYTES
    ensures Pad(m) == PadCounting(m, |m|)
  {
    hide Zeros, NumberBytes;
    RemainderUnique(8 * |m|, TWO64, 0, 8 * |m|);
  }

  function WordBytes(w: bv32): seq<bv8> {
    [(w >> 24) as bv8, ((w >> 16) & 0xFF) as bv8, ((w >> 8) & 0xFF) as bv8, (w & 0xFF) as bv8]
  }

  function Digest(s: Hash): seq<bv8> {
    WordBytes(s.a) + WordBytes(s.b) + WordBytes(s.c) + WordBytes(s.d)
    + WordBytes(s.e) + WordBytes(s.f) + WordBytes(s.g) + WordBytes(s.h)
  }

  function Sha256(m: seq<bv8>): seq<bv8>
    requires |m| < MAX_BYTES
  {
    Digest(Fold(INITIAL, Pad(m)))
  }

  // What comes out when the count is wrong.
  function DigestCounting(m: seq<bv8>, counted: nat): seq<bv8> {
    Digest(Fold(INITIAL, PadCounting(m, counted)))
  }
}
