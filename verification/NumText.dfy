// Numbers as text and as bytes: num_export and num_import of src/common/num.c. A C string is the
// sequence of its characters before the terminator.
module NumText {
  import opened Machine
  import opened Num
  import opened Hex

  //// Numerals

  // The two bases that the source supports.
  type Base = b: nat | b == 10 || b == 16 witness 10

  predicate IsNumeral(s: string, base: nat) {
    forall c <- s :: 0 <= DigitOf(c) < base
  }

  // The number a numeral denotes.
  function Denotes(s: string, base: nat): nat
    requires IsNumeral(s, base)
  {
    if s == "" then 0 else Denotes(s[..|s| - 1], base) * base + DigitOf(s[|s| - 1])
  }

  // The shortest numeral of a number.
  function Numeral(v: nat, base: Base): (s: string)
    ensures s != "" && IsNumeral(s, base)
    decreases v
  {
    hide Quot, Rem;
    LastDigit(v, base);
    DigitRoundTrip(Rem(v, base));
    if v < base then [DigitChar(v)] else Numeral(Quot(v, base), base) + [DigitChar(Rem(v, base))]
  }

  lemma LastDigit(v: nat, base: Base)
    ensures v == Quot(v, base) * base + Rem(v, base)
    ensures Quot(v, base) == v / base && Rem(v, base) == v % base
    ensures if v < base then Quot(v, base) == 0 && Rem(v, base) == v else 0 < Quot(v, base) < v
  {
    if base == 10 {} else {}
  }

  lemma {:induction false} NumeralDenotes(v: nat, base: Base)
    ensures Denotes(Numeral(v, base), base) == v
    decreases v
  {
    hide DigitOf, DigitChar, Quot, Rem;
    DigitRoundTrip(Rem(v, base));
    LastDigit(v, base);
    var s := Numeral(v, base);
    if v >= base {
      NumeralDenotes(Quot(v, base), base);
      assert s[..|s| - 1] == Numeral(Quot(v, base), base);
    } else {
      assert s[..0] == "";
    }
  }

  lemma {:induction false} NumeralLength(v: nat, base: Base, n: nat)
    requires 1 <= n && v < Pow(base, n)
    ensures |Numeral(v, base)| <= n
  {
    hide DigitOf, DigitChar;
    if n == 1 {
      assert Pow(base, 1) == base * Pow(base, 0);
    } else if v >= base {
      NumeralLength(Quot(v, base), base, n - 1);
    }
  }

  // No number of 128 bits has more than 39 decimal or 32 hexadecimal digits.
  lemma PowerBounds()
    ensures TWO128 < Pow(10, 39) && Pow(16, 32) == TWO128
  {
    assert Pow(10, 8) == 100_000_000;
    assert Pow(10, 16) == 10_000_000_000_000_000;
    assert Pow(10, 24) == 1_000_000_000_000_000_000_000_000;
    assert Pow(10, 32) == 100_000_000_000_000_000_000_000_000_000_000;
    assert Pow(10, 39) == 1_000_000_000_000_000_000_000_000_000_000_000_000_000;
    assert Pow(16, 8) == 0x1_0000_0000;
    assert Pow(16, 16) == TWO64;
    assert Pow(16, 24) == 0x1_0000_0000_0000_0000_0000_0000;
  }

  //// Printing

  // strcpy from a position in a buffer.
  method StrCpy(a: array<char>, pos: nat, ghost t: string) returns (s: string)
    requires pos + |t| < a.Length && a[pos..pos + |t|] == t && a[pos + |t|] == '\0' && '\0' !in t
    ensures s == t
  {
    s := "";
    var i := pos;
    forall k | pos <= k < pos + |t| ensures a[k] != '\0' { assert a[k] == t[k - pos]; }
    while a[i] != '\0'
      invariant pos <= i <= pos + |t| && s == t[..i - pos]
      decreases pos + |t| - i
    {
      assert a[i] == t[i - pos];
      s := s + [a[i]];
      i := i + 1;
    }
  }

  // What is left to print in front of the digits that are already in the buffer.
  ghost function Rest(v: nat, base: Base): string {
    if v == 0 then "" else Numeral(v, base)
  }

  lemma RestStep(v: nat, base: Base)
    requires v != 0
    ensures Rest(v, base) == Rest(Quot(v, base), base) + [DigitChar(Rem(v, base))]
  {
    hide DigitOf, DigitChar;
  }

  lemma NoTerminator(s: string, base: Base)
    requires IsNumeral(s, base)
    ensures '\0' !in s
  {
    assert DigitOf('\0') == -1;
  }

  // _num_get_str: digits from the right into a zeroed buffer of 55 characters.
  method NumGetStr(arg: Num, base: Base) returns (buff: string)
    ensures buff == Numeral(arg.Value(), base)
  {
    hide DigitOf, DigitChar, Numeral, Num.Value, IsNumeral, Pow, Quot, Rem;
    var value := arg;
    var bufTmp := new char[55](i => '\0');
    var bufPos := 53;
    ghost var all := Numeral(arg.Value(), base);
    PowerBounds();
    NumeralLength(arg.Value(), base, if base == 10 then 39 else 32);
    NoTerminator(all, base);
    if CmpI(value, 0) == 0 {
      ZeroNumeral(base);
      return "0";
    }
    while CmpI(value, 0) != 0
      invariant 0 <= bufPos <= 53 && bufTmp[53] == '\0'
      invariant all == Rest(value.Value(), base) + bufTmp[bufPos..53]
      decreases value.Value()
    {
      RestStep(value.Value(), base);
      value := PrintLast(bufTmp, bufPos, value, base);
      bufPos := bufPos - 1;
    }
    buff := StrCpy(bufTmp, bufPos, all);
  }

  // Moves the last digit of a number in front of what is printed already.
  method PrintLast(bufTmp: array<char>, bufPos: nat, value0: Num, base: Base) returns (value: Num)
    requires bufTmp.Length == 55 && 0 < bufPos <= 53 && value0.Value() != 0
    modifies bufTmp
    ensures value.Value() < value0.Value() && bufTmp[53] == old(bufTmp[53])
    ensures Rest(value.Value(), base) + bufTmp[bufPos - 1..53] == Rest(value0.Value(), base) + old(bufTmp[bufPos..53])
  {
    hide DigitOf, DigitChar, Numeral, Num.Value, IsNumeral, Quot, Rem, Rest;
    ghost var printed, v := bufTmp[bufPos..53], value0.Value();
    RestStep(v, base);
    LastDigit(v, base);
    var rest;
    value, rest := DivI(value0, base);
    PutDigit(bufTmp, bufPos - 1, rest, base);
    InFront(Rest(Quot(v, base), base), DigitChar(rest), printed);
  }

  // Stores a digit in front of those up to position 53.
  method PutDigit(bufTmp: array<char>, bufPos: nat, rest: nat, base: Base)
    requires bufTmp.Length == 55 && bufPos < 53 && rest < base
    modifies bufTmp
    ensures bufTmp[bufPos..53] == [DigitChar(rest)] + old(bufTmp[bufPos + 1..53]) && bufTmp[53] == old(bufTmp[53])
  {
    hide DigitChar;
    DigitCharacter(rest);
    if base == 10 {
      bufTmp[bufPos] := rest as char + '0';
    } else {
      bufTmp[bufPos] := if rest <= 9 then rest as char + '0' else (rest - 10) as char + 'A';
    }
  }

  lemma InFront(s: string, c: char, t: string)
    ensures s + [c] + t == s + ([c] + t)
  {}

  lemma DigitCharacter(d: nat)
    requires d < 16
    ensures DigitChar(d) == if d <= 9 then d as char + '0' else (d - 10) as char + 'A'
  {}

  lemma ZeroNumeral(base: Base)
    ensures Numeral(0, base) == "0"
  {}

  //// Parsing

  lemma DenotesMore(s: string, c: char, base: Base)
    requires IsNumeral(s, base) && 0 <= DigitOf(c) < base
    ensures IsNumeral(s + [c], base) && Denotes(s + [c], base) == Denotes(s, base) * base + DigitOf(c)
  {
    hide DigitOf;
    assert (s + [c])[..|s|] == s;
  }

  lemma {:induction false} PrefixDenotesLess(s: string, n: nat, base: Base)
    requires n <= |s| && IsNumeral(s, base)
    ensures IsNumeral(s[..n], base) && Denotes(s[..n], base) <= Denotes(s, base)
  {
    hide DigitOf;
    if n == |s| {
      assert s[..n] == s;
    } else {
      var t := s[..|s| - 1];
      PrefixDenotesLess(t, n, base);
      assert t[..n] == s[..n];
    }
  }

  lemma {:induction false} DenotesBound(s: string, base: Base)
    requires IsNumeral(s, base)
    ensures Denotes(s, base) < Pow(base, |s|)
  {
    hide DigitOf;
    if s != "" { DenotesBound(s[..|s| - 1], base); }
  }

  lemma PrefixStep(str: string, i: nat)
    requires i < |str|
    ensures str[..i + 1] == str[..i] + [str[i]]
  {}

  lemma NotNumeral(str: string, i: nat, base: Base)
    requires i < |str| && !(0 <= DigitOf(str[i]) < base)
    ensures !IsNumeral(str, base)
  {
    hide DigitOf;
  }

  // _num_set_str in base 10: at most 39 digits, and no overflow on the way.
  method NumSetStrDec(ar: Arithmetic, str: string) returns (ret: int, arg: Num)
    modifies ar
    ensures ret == 0 <==> 1 <= |str| <= 39 && IsNumeral(str, 10) && Denotes(str, 10) < TWO128
    ensures ret == 0 ==> arg.Value() == Denotes(str, 10)
    ensures ret == 0 || ret == 1
  {
    hide DigitOf, Num.Value, IsNumeral, Denotes;
    arg := I(0);
    ar.ClearOverflow();
    NothingRead(10);
    var i := 0;
    while i < 39 && i < |str|
      invariant 0 <= i <= 39 && i <= |str| && !ar.overflow
      invariant IsNumeral(str[..i], 10) && arg.Value() == Denotes(str[..i], 10)
    {
      DecimalDigit(str[i]);
      if str[i] < '0' || str[i] > '9' {
        NotNumeral(str, i, 10);
        return 1, arg;
      }
      PrefixStep(str, i);
      DenotesMore(str[..i], str[i], 10);
      var digit := str[i] as int - '0' as int;
      DigitValue(digit);
      arg := TimesTenPlus(ar, arg, digit);
      if ar.overflow {
        if IsNumeral(str, 10) { PrefixDenotesLess(str, i + 1, 10); }
        return 1, arg;
      }
      i := i + 1;
    }
    if i < |str| || i > 39 || i < 1 { return 1, arg; }
    assert str[..i] == str;
    return 0, arg;
  }

  // One turn of the decimal loop. From a clear flag, the flag tells whether the result is exact.
  method TimesTenPlus(ar: Arithmetic, arg0: Num, digit: Word) returns (arg: Num)
    requires digit < 10 && !ar.overflow
    modifies ar
    ensures ar.overflow <==> arg0.Value() * 10 + digit >= TWO128
    ensures !ar.overflow ==> arg.Value() == arg0.Value() * 10 + digit
  {
    arg := ar.MulI(arg0, 10);
    arg := ar.Add(arg, I(digit));
  }

  lemma NothingRead(base: Base)
    ensures IsNumeral("", base) && Denotes("", base) == 0 == I(0).Value()
  {}

  lemma DecimalDigit(c: char)
    ensures (c < '0' || c > '9') <==> !(0 <= DigitOf(c) < 10)
    ensures '0' <= c <= '9' ==> DigitOf(c) == c as int - '0' as int
  {}

  lemma DigitValue(d: nat)
    requires d < 10
    ensures I(d).Value() == d
  {}

  // _num_set_str in base 16.
  method NumSetStrHex(ar: Arithmetic, str: string) returns (ret: int, arg: Num)
    modifies ar
    ensures ret == 0 <==> 1 <= |str| <= 32 && IsNumeral(str, 16)
    ensures ret == 0 ==> arg.Value() == Denotes(str, 16)
    ensures ret == 0 || ret == 1
    ensures ar.overflow == old(ar.overflow)
  {
    hide DigitOf, Num.Value, IsNumeral, Denotes, Pow;
    arg := I(0);
    NothingRead(16);
    var i := 0;
    while i < 32 && i < |str|
      invariant 0 <= i <= 32 && i <= |str| && ar.overflow == old(ar.overflow)
      invariant IsNumeral(str[..i], 16) && arg.Value() == Denotes(str[..i], 16)
    {
      FitsBelow(str[..i]);
      arg := LShift(LShift(LShift(LShift(arg))));
      var byte := DigitOf(str[i]);
      if byte == -1 {
        NotNumeral(str, i, 16);
        return 1, arg;
      }
      PrefixStep(str, i);
      DenotesMore(str[..i], str[i], 16);
      WordValue(byte);
      arg := ar.Add(arg, I(byte));
      i := i + 1;
    }
    if i < |str| || i > 32 || i < 1 { return 1, arg; }
    assert str[..i] == str;
    return 0, arg;
  }

  lemma WordValue(d: Word)
    ensures I(d).Value() == d
  {}

  // Thirty-one digits leave room for one more.
  lemma FitsBelow(s: string)
    requires IsNumeral(s, 16) && |s| < 32
    ensures 16 * Denotes(s, 16) <= TWO128 - 16
  {
    hide DigitOf, IsNumeral, Denotes;
    DenotesBound(s, 16);
    PowerBounds();
    PowMonotone(16, |s|, 31);
  }

  // Importing what decimal export printed gives the number back.
  lemma DecimalRoundTrip(n: Num)
    ensures var s := Numeral(n.Value(), 10); 1 <= |s| <= 39 && IsNumeral(s, 10) && Denotes(s, 10) == n.Value()
  {
    hide IsNumeral, Denotes;
    PowerBounds();
    NumeralLength(n.Value(), 10, 39);
    NumeralDenotes(n.Value(), 10);
  }

  //// Bytes and hexadecimal export

  // n bytes of a number, least significant first.
  function LittleBytes(v: nat, n: nat): (b: seq<Byte>)
    ensures |b| == n
  {
    if n == 0 then [] else [v % 256] + LittleBytes(v / 256, n - 1)
  }

  function LittleValue(b: seq<Byte>): nat {
    if b == [] then 0 else b[0] + 256 * LittleValue(b[1..])
  }

  // The same bytes, most significant first.
  function BigValue(b: seq<Byte>): nat {
    if b == [] then 0 else BigValue(b[..|b| - 1]) * 256 + b[|b| - 1]
  }

  function Reverse<T>(s: seq<T>): (r: seq<T>)
    ensures |r| == |s|
  {
    if s == [] then [] else Reverse(s[1..]) + [s[0]]
  }

  lemma {:induction false} ReverseAt<T>(s: seq<T>, i: nat)
    requires i < |s|
    ensures Reverse(s)[i] == s[|s| - 1 - i]
  {
    if i < |s| - 1 { ReverseAt(s[1..], i); }
  }

  lemma {:induction false} BigOfReverse(b: seq<Byte>)
    ensures BigValue(Reverse(b)) == LittleValue(b)
  {
    if b != [] {
      BigOfReverse(b[1..]);
      assert Reverse(b)[..|b| - 1] == Reverse(b[1..]);
    }
  }

  lemma ReverseTwice<T>(s: seq<T>)
    ensures Reverse(Reverse(s)) == s
  {
    forall i | 0 <= i < |s| ensures Reverse(Reverse(s))[i] == s[i] {
      ReverseAt(Reverse(s), i);
      ReverseAt(s, |s| - 1 - i);
    }
  }

  lemma {:induction false} LittleRoundTrip(v: nat, n: nat)
    requires v < Pow(256, n)
    ensures LittleValue(LittleBytes(v, n)) == v
  {
    if n != 0 {
      LittleRoundTrip(v / 256, n - 1);
      assert LittleBytes(v, n)[1..] == LittleBytes(v / 256, n - 1);
    }
  }

  lemma {:induction false} BytesRoundTrip(b: seq<Byte>)
    ensures LittleBytes(LittleValue(b), |b|) == b && LittleValue(b) < Pow(256, |b|)
  {
    if b != [] {
      BytesRoundTrip(b[1..]);
      assert (b[0] + 256 * LittleValue(b[1..])) % 256 == b[0];
      assert (b[0] + 256 * LittleValue(b[1..])) / 256 == LittleValue(b[1..]);
      assert b == [b[0]] + b[1..];
    }
  }

  lemma {:induction false} LittleOfSum(b: seq<Byte>, c: seq<Byte>)
    ensures LittleValue(b + c) == LittleValue(b) + Pow(256, |b|) * LittleValue(c)
  {
    if b == [] {
      assert b + c == c;
    } else {
      LittleOfSum(b[1..], c);
      assert (b + c)[1..] == b[1..] + c;
      Times256(Pow(256, |b| - 1), LittleValue(c));
    }
  }

  lemma Times256(p: nat, x: nat)
    ensures (256 * p) * x == 256 * (p * x)
  {}

  lemma ByteBounds()
    ensures Pow(256, 8) == TWO64 && Pow(256, 16) == TWO128
  {
    assert Pow(256, 4) == 0x1_0000_0000;
    assert Pow(256, 12) == 0x1_0000_0000_0000_0000_0000_0000;
  }

  // num_export to NUM_FORMAT_BIN copies the low and then the high word on a little-endian machine.
  function ExportBin(n: Num): (b: seq<Byte>)
    ensures |b| == 16
  {
    LittleBytes(n.lo, 8) + LittleBytes(n.hi, 8)
  }

  // num_import from NUM_FORMAT_BIN.
  function ImportBin(b: seq<Byte>): Num
    requires |b| == 16
  {
    ByteBounds();
    BytesRoundTrip(b[..8]);
    BytesRoundTrip(b[8..]);
    Num(LittleValue(b[8..]), LittleValue(b[..8]))
  }

  lemma ImportBinValue(b: seq<Byte>)
    requires |b| == 16
    ensures ImportBin(b).Value() == LittleValue(b)
  {
    hide LittleValue, Pow;
    ByteBounds();
    LittleOfSum(b[..8], b[8..]);
    assert b == b[..8] + b[8..];
  }

  // The two binary forms undo each other.
  lemma BinRoundTrip(n: Num)
    ensures ImportBin(ExportBin(n)) == n
  {
    hide LittleValue, LittleBytes, Pow;
    ByteBounds();
    LittleRoundTrip(n.lo, 8);
    LittleRoundTrip(n.hi, 8);
    assert ExportBin(n)[..8] == LittleBytes(n.lo, 8) && ExportBin(n)[8..] == LittleBytes(n.hi, 8);
  }

  // Byte i of the binary form is that of weight 256^i.
  lemma ExportBinAt(n: Num, i: nat)
    requires i < 16
    ensures Pow(256, i) > 0 && ExportBin(n)[i] == n.Value() / Pow(256, i) % 256
  {
    hide LittleValue, LittleBytes, Pow, ExportBin, ImportBin;
    BinRoundTrip(n);
    ImportBinValue(ExportBin(n));
    BytesRoundTrip(ExportBin(n));
    LittleAt(n.Value(), 16, i);
  }

  lemma {:induction false} LittleAt(v: nat, n: nat, i: nat)
    requires i < n
    ensures Pow(256, i) > 0 && LittleBytes(v, n)[i] == v / Pow(256, i) % 256
  {
    PowPositive(256, i);
    if i != 0 {
      var p := Pow(256, i - 1);
      PowPositive(256, i - 1);
      LittleAt(v / 256, n - 1, i - 1);
      RemSplit(v, 256, p);
      assert v / (256 * p) == Quot(v, 256 * p) && v / 256 == Quot(v, 256) && Quot(v, 256) / p == Quot(Quot(v, 256), p);
    }
  }

  lemma BytesImportExport(b: seq<Byte>)
    requires |b| == 16
    ensures ExportBin(ImportBin(b)) == b
  {
    hide LittleValue, LittleBytes, Pow;
    BytesRoundTrip(b[..8]);
    BytesRoundTrip(b[8..]);
    assert b == b[..8] + b[8..];
  }

  // num_export to NUM_FORMAT_HEX.
  method ExportHex(n: Num) returns (buff: string)
    ensures buff == HexOf(Reverse(ExportBin(n)))
  {
    hide ExportBin, DigitChar;
    var bin := ExportBin(n);
    buff := "";
    var i := 0;
    while i < 16
      invariant 0 <= i <= 16 && buff == HexOf(Reverse(bin)[..i])
    {
      ReverseAt(bin, i);
      assert Reverse(bin)[..i + 1][..i] == Reverse(bin)[..i];
      buff := buff + [DigitChar(bin[15 - i] / 16), DigitChar(bin[15 - i] % 16)];
      i := i + 1;
    }
    assert Reverse(bin)[..16] == Reverse(bin);
  }

  // num_export to NUM_FORMAT_PPP_HEX: the least significant byte first.
  method ExportPppHex(n: Num) returns (buff: string)
    ensures buff == HexOf(ExportBin(n))
  {
    hide ExportBin, DigitChar;
    var bin := ExportBin(n);
    buff := "";
    var i := 0;
    while i < 16
      invariant 0 <= i <= 16 && buff == HexOf(bin[..i])
    {
      assert bin[..i + 1][..i] == bin[..i];
      buff := buff + [DigitChar(bin[i] / 16), DigitChar(bin[i] % 16)];
      i := i + 1;
    }
    assert bin[..16] == bin;
  }

  // The digits of the bytes denote the bytes, most significant first.
  lemma {:induction false} HexDenotes(b: seq<Byte>)
    ensures IsNumeral(HexOf(b), 16) && Denotes(HexOf(b), 16) == BigValue(b)
  {
    hide DigitOf, DigitChar, IsNumeral, Denotes;
    if b == [] {
      NothingRead(16);
    } else {
      var front, last := b[..|b| - 1], b[|b| - 1];
      HexDenotes(front);
      DigitRoundTrip(last / 16);
      DigitRoundTrip(last % 16);
      var s, c, d := HexOf(front), DigitChar(last / 16), DigitChar(last % 16);
      DenotesMore(s, c, 16);
      DenotesMore(s + [c], d, 16);
      assert HexOf(b) == s + [c] + [d];
    }
  }

  // Importing what plain hexadecimal export printed gives the number back.
  lemma HexRoundTrip(n: Num)
    ensures var s := HexOf(Reverse(ExportBin(n))); |s| == 32 && IsNumeral(s, 16) && Denotes(s, 16) == n.Value()
  {
    hide IsNumeral, Denotes, HexOf, Reverse, ExportBin, ImportBin;
    var b := ExportBin(n);
    HexDenotes(Reverse(b));
    BigOfReverse(b);
    BinRoundTrip(n);
    ImportBinValue(b);
  }

  // Importing the other hexadecimal form gives the number of the reversed bytes.
  lemma PppHexImport(n: Num)
    ensures
      var s := HexOf(ExportBin(n));
      |s| == 32 && IsNumeral(s, 16) && Denotes(s, 16) == ImportBin(Reverse(ExportBin(n))).Value()
  {
    hide IsNumeral, Denotes, HexOf, Reverse, ExportBin, ImportBin;
    var b := ExportBin(n);
    HexDenotes(b);
    BigOfReverse(Reverse(b));
    ReverseTwice(b);
    ImportBinValue(Reverse(b));
  }

  // So that form comes back unchanged exactly when the sixteen bytes read the same both ways.
  lemma PppHexRoundTrip(n: Num)
    ensures IsNumeral(HexOf(ExportBin(n)), 16)
    ensures Denotes(HexOf(ExportBin(n)), 16) == n.Value() <==> ExportBin(n) == Reverse(ExportBin(n))
  {
    hide IsNumeral, Denotes, HexOf, Reverse, ExportBin, ImportBin;
    PppHexImport(n);
    var b := ExportBin(n);
    BinRoundTrip(n);
    if Denotes(HexOf(b), 16) == n.Value() {
      ValueInjective(ImportBin(Reverse(b)), n);
      BytesImportExport(Reverse(b));
    }
  }

  // It does not for the number one.
  lemma PppHexOfOne()
    ensures IsNumeral(HexOf(ExportBin(I(1))), 16) && Denotes(HexOf(ExportBin(I(1))), 16) != 1
  {
    var b := ExportBin(I(1));
    OneBytes();
    hide ExportBin, HexOf, Reverse, Denotes, IsNumeral;
    ReverseAt(b, 0);
    PppHexRoundTrip(I(1));
    ValueOfOne();
  }

  lemma OneBytes()
    ensures ExportBin(I(1))[0] == 1 && ExportBin(I(1))[15] == 0
  {
    hide Pow;
    LittleAt(0, 8, 7);
    ZeroQuotient(Pow(256, 7));
  }

  lemma ZeroQuotient(d: nat)
    requires d > 0
    ensures 0 / d == 0
  {}

  lemma ValueOfOne()
    ensures I(1).Value() == 1
  {}
}
