// Digits, and the hexadecimal helpers of src/common/crypto.c.
module Hex {
  type Byte = b: int | 0 <= b < 256

  function DigitChar(d: nat): char
    requires d < 16
  {
    if d <= 9 then d as char + '0' else (d - 10) as char + 'A'
  }

  // The value of a character as a digit, or -1. Upper and lower case letters are digits 10 to 15.
  function DigitOf(c: char): (d: int)
    ensures -1 <= d < 16
  {
    if '0' <= c <= '9' then c as int - '0' as int
    else if 'A' <= c <= 'F' then 10 + c as int - 'A' as int
    else if 'a' <= c <= 'f' then 10 + c as int - 'a' as int
    else -1
  }

  lemma DigitRoundTrip(d: nat)
    requires d < 16
    ensures DigitOf(DigitChar(d)) == d
  {}

  // The digits in their order; small letters are read like capitals.
  lemma DigitsInOrder(c: char)
    ensures DigitOf(c) >= 0 <==> c in "0123456789ABCDEF" || c in "abcdef"
    ensures c in "0123456789ABCDEF" ==> "0123456789ABCDEF"[DigitOf(c)] == DigitChar(DigitOf(c)) == c
    ensures c in "abcdef" ==> "abcdef"[DigitOf(c) - 10] == c
  {}

  // Two digits for each byte.
  function HexOf(b: seq<Byte>): (s: string)
    ensures |s| == 2 * |b|
  {
    if b == [] then "" else HexOf(b[..|b| - 1]) + [DigitChar(b[|b| - 1] / 16), DigitChar(b[|b| - 1] % 16)]
  }

  predicate IsHex(s: string) {
    forall c <- s :: 0 <= DigitOf(c)
  }

  // The bytes that an even number of digits stands for.
  function Unhex(s: string): (b: seq<Byte>)
    requires IsHex(s) && |s| % 2 == 0
    ensures |b| == |s| / 2
  {
    if s == "" then [] else Unhex(s[..|s| - 2]) + [DigitOf(s[|s| - 2]) * 16 + DigitOf(s[|s| - 1])]
  }

  lemma IsHexMore(s: string, c: char)
    requires IsHex(s) && 0 <= DigitOf(c)
    ensures IsHex(s + [c])
  {
    hide DigitOf;
  }

  lemma TwoMore<T>(s: seq<T>, c: T, d: T)
    ensures var t := s + [c] + [d]; |t| == |s| + 2 && t[..|t| - 2] == s && t[|t| - 2] == c && t[|t| - 1] == d
  {}

  lemma UnhexStep(t: string, s: string, c: char, d: char)
    requires |t| == |s| + 2 && t[..|t| - 2] == s && t[|t| - 2] == c && t[|t| - 1] == d
    requires |s| % 2 == 0 && IsHex(s) && IsHex(t) && 0 <= DigitOf(c) && 0 <= DigitOf(d)
    ensures Unhex(t) == Unhex(s) + [DigitOf(c) * 16 + DigitOf(d)]
  {
    hide DigitOf, IsHex;
  }

  lemma UnhexMore(s: string, c: char, d: char)
    requires IsHex(s) && |s| % 2 == 0 && 0 <= DigitOf(c) && 0 <= DigitOf(d)
    ensures IsHex(s + [c] + [d]) && Unhex(s + [c] + [d]) == Unhex(s) + [DigitOf(c) * 16 + DigitOf(d)]
  {
    hide DigitOf, IsHex, Unhex;
    IsHexMore(s, c);
    IsHexMore(s + [c], d);
    TwoMore(s, c, d);
    UnhexStep(s + [c] + [d], s, c, d);
  }

  lemma {:induction false} UnhexHexOf(b: seq<Byte>)
    ensures IsHex(HexOf(b)) && Unhex(HexOf(b)) == b
  {
    hide DigitOf, DigitChar, IsHex, Unhex;
    if b == [] {
      EmptyHex();
    } else {
      var front, last := b[..|b| - 1], b[|b| - 1];
      UnhexHexOf(front);
      DigitRoundTrip(last / 16);
      DigitRoundTrip(last % 16);
      var c, d := DigitChar(last / 16), DigitChar(last % 16);
      UnhexMore(HexOf(front), c, d);
      assert HexOf(b) == HexOf(front) + [c] + [d];
      assert b == front + [last];
    }
  }

  lemma EmptyHex()
    ensures IsHex("") && Unhex("") == []
  {}

  // crypto_binary_to_hex.
  method BinaryToHex(binary: array<Byte>) returns (hex: string)
    ensures hex == HexOf(binary[..])
  {
    hex := "";
    var i := 0;
    while i < binary.Length
      invariant 0 <= i <= binary.Length && hex == HexOf(binary[..i])
    {
      assert binary[..i + 1][..i] == binary[..i];
      hex := hex + [DigitChar(binary[i] / 16), DigitChar(binary[i] % 16)];
      i := i + 1;
    }
    assert binary[..i] == binary[..];
  }

  // crypto_hex_to_binary: 0 when the first length characters are digits and there are as many, or
  // more. One byte is assembled from two digits.
  method HexToBinary(hex: string, length: nat, binary: array<Byte>) returns (ret: int)
    requires length % 2 == 0 && binary.Length == length / 2
    modifies binary
    ensures ret == 0 <==> length <= |hex| && IsHex(hex[..length])
    ensures ret == 0 ==> binary[..] == Unhex(hex[..length])
    ensures ret == 0 || ret == 1
  {
    hide DigitOf, IsHex, Unhex;
    var byte: Byte := 0;
    var i := 0;
    EmptyHex();
    while i < length && i < |hex|
      invariant 0 <= i <= length && i <= |hex| && IsHex(hex[..i])
      invariant i % 2 == 0 ==> byte == 0 && binary[..i / 2] == Unhex(hex[..i])
      invariant i % 2 == 1 ==> IsHex(hex[..i - 1]) && 0 <= DigitOf(hex[i - 1]) && byte == DigitOf(hex[i - 1]) * 16
      invariant i % 2 == 1 ==> binary[..i / 2] == Unhex(hex[..i - 1])
    {
      var d := DigitOf(hex[i]);
      if d == -1 {
        NotHex(hex, i, length);
        return 1;
      }
      IsHexMore(hex[..i], hex[i]);
      assert hex[..i + 1] == hex[..i] + [hex[i]];
      byte := byte + d;
      if i % 2 == 0 {
        byte := byte * 16;
      } else {
        ghost var before := binary[..i / 2];
        UnhexMore(hex[..i - 1], hex[i - 1], hex[i]);
        assert hex[..i + 1] == hex[..i - 1] + [hex[i - 1]] + [hex[i]];
        binary[i / 2] := byte;
        assert binary[..(i + 1) / 2] == before + [byte];
        byte := 0;
      }
      i := i + 1;
    }
    if i != length { return 1; }
    assert binary[..i / 2] == binary[..];
    return 0;
  }

  lemma NotHex(s: string, i: nat, n: nat)
    requires i < |s| && i < n && DigitOf(s[i]) == -1
    ensures n <= |s| ==> !IsHex(s[..n])
  {
    hide DigitOf;
    if n <= |s| { assert s[..n][i] == s[i]; }
  }
}
