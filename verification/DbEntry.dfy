// One line of the state database: the printer and the parser of src/libotp/db_file.c.
module DbEntry {
  import opened ErrorCodes
  import opened Wrappers
  import opened Machine
  import opened Num
  import opened Hex
  import opened NumText

  const VERSION: nat := 1
  const FIELDS: nat := 15
  const LABEL_SIZE: nat := 30
  const CONTACT_SIZE: nat := 60
  const SPASS_SIZE: nat := 40
  const MAX_FIELD_SIZE: nat := 80
  const ENTRY_SIZE: nat := 512

  type U32 = n: int | 0 <= n < TWO32
  type Time = n: int | 0 <= n + TWO63 < TWO64 // intmax_t

  // The fields of a state that are stored; strings are C strings.
  datatype Entry = Entry(username: string, key: seq<Byte>, counter: Num, latestCard: Num, failures: U32,
                         recentFailures: U32, channelTime: Time, codeLength: U32, alphabet: U32, flags: U32,
                         spass: Option<seq<Byte>>, spassTime: Time, title: string, contact: string)

  //// Splitting lines: strsep with the delimiter ':'

  function Split(s: string): (f: seq<string>)
    ensures |f| >= 1
  {
    if s == "" then [""]
    else
      var f := Split(s[1..]);
      if s[0] == ':' then [""] + f else [[s[0]] + f[0]] + f[1..]
  }

  function Join(f: seq<string>): string
    requires |f| >= 1
  {
    if |f| == 1 then f[0] else f[0] + ":" + Join(f[1..])
  }

  predicate Plain(s: string) {
    ':' !in s && '\n' !in s
  }

  lemma {:induction false} SplitPlain(s: string, rest: string)
    requires ':' !in s
    ensures Split(s + rest) == [s + Split(rest)[0]] + Split(rest)[1..]
  {
    var f := Split(rest);
    if s == "" {
      assert s + rest == rest && s + f[0] == f[0] && f == [f[0]] + f[1..];
    } else {
      SplitPlain(s[1..], rest);
      assert (s + rest)[1..] == s[1..] + rest;
      SplitStep(s + rest);
      hide Split;
      assert [s[0]] + (s[1..] + f[0]) == s + f[0];
    }
  }

  lemma SplitStep(s: string)
    requires s != "" && s[0] != ':'
    ensures Split(s) == [[s[0]] + Split(s[1..])[0]] + Split(s[1..])[1..]
  {}

  lemma {:induction false} FirstSeparator(s: string) returns (i: nat)
    requires ':' in s
    ensures i < |s| && s[i] == ':' && ':' !in s[..i]
  {
    i := 0;
    if s[0] != ':' {
      var j := FirstSeparator(s[1..]);
      i := j + 1;
      assert s[..i] == [s[0]] + s[1..][..j];
    }
  }

  // Joined fields come apart as they were.
  lemma {:induction false} SplitJoin(f: seq<string>)
    requires |f| >= 1 && forall i | 0 <= i < |f| :: ':' !in f[i]
    ensures Split(Join(f)) == f
  {
    if |f| == 1 {
      SplitPlain(f[0], "");
      assert f[0] + "" == f[0];
    } else {
      SplitJoin(f[1..]);
      var rest := ":" + Join(f[1..]);
      assert rest[1..] == Join(f[1..]);
      SplitPlain(f[0], rest);
      assert f[0] + ":" + Join(f[1..]) == f[0] + rest;
      assert f[0] + "" == f[0];
    }
  }

  // A token ends at the first line end.
  function Cut(s: string): (t: string)
    ensures '\n' !in t && (forall c <- t :: c in s)
    ensures '\n' !in s ==> t == s
  {
    if s == "" || s[0] == '\n' then "" else [s[0]] + Cut(s[1..])
  }

  function CutAll(f: seq<string>): (g: seq<string>)
    ensures |g| == |f| && forall i | 0 <= i < |f| :: g[i] == Cut(f[i])
  {
    seq(|f|, i requires 0 <= i < |f| => Cut(f[i]))
  }

  //// Scanning numbers: the conversions %u, %x and %ju of sscanf

  predicate IsSpace(c: char) {
    c == ' ' || '\t' <= c <= '\r'
  }

  function SkipSpace(s: string): string {
    if s != "" && IsSpace(s[0]) then SkipSpace(s[1..]) else s
  }

  // The digits at the beginning.
  function Leading(s: string, base: Base): (t: string)
    ensures IsNumeral(t, base)
  {
    if s != "" && 0 <= DigitOf(s[0]) < base then [s[0]] + Leading(s[1..], base) else ""
  }

  // An optional sign, an optional 0x before hexadecimal digits, and the digits; the value is limited
  // to 64 bits and a minus negates it modulo 2^64. Nothing is required of what follows.
  function Scan(s: string, base: Base, width: Option<nat>): (v: Option<nat>)
    ensures v.Some? ==> v.value < TWO64
  {
    var t := SkipSpace(s);
    var field := if width.Some? && width.value < |t| then t[..width.value] else t;
    var signed := field != "" && (field[0] == '-' || field[0] == '+');
    var body := if signed then field[1..] else field;
    var prefixed := base == 16 && |body| >= 2 && body[0] == '0' && (body[1] == 'x' || body[1] == 'X');
    var digits := Leading(if prefixed then body[2..] else body, base);
    if digits == "" && !prefixed then None
    else
      var n := Denotes(digits, base);
      var limited := if n < TWO64 then n else TWO64 - 1;
      Some(if signed && field[0] == '-' && limited != 0 && n < TWO64 then TWO64 - limited else limited)
  }

  function ScanUnsigned(s: string): Option<U32> {
    var v := Scan(s, 10, None);
    if v.None? then None else Some(v.value % TWO32)
  }

  function ScanHex(s: string): Option<U32> {
    var v := Scan(s, 16, None);
    if v.None? then None else Some(v.value % TWO32)
  }

  // PRIuMAX into a signed variable: the bit pattern is kept.
  function ScanTime(s: string): Option<Time> {
    var v := Scan(s, 10, None);
    if v.None? then None else Some(if v.value < TWO63 then v.value else v.value - TWO64)
  }

  function TimeBits(t: Time): (n: nat)
    ensures n < TWO64
  {
    if t >= 0 then t else t + TWO64
  }

  lemma {:induction false} LeadingAll(s: string, base: Base)
    requires IsNumeral(s, base)
    ensures Leading(s, base) == s
  {
    hide DigitOf;
    if s != "" { LeadingAll(s[1..], base); }
  }

  // A numeral is scanned as its value.
  lemma ScanNumeral(s: string, base: Base)
    requires s != "" && IsNumeral(s, base) && Denotes(s, base) < TWO64
    ensures Scan(s, base, None) == Some(Denotes(s, base))
  {
    hide Denotes, Leading, DigitOf;
    NotSpace(s[0], base);
    if |s| > 1 { NotSpace(s[1], base); }
    assert SkipSpace(s) == s;
    LeadingAll(s, base);
    hide IsNumeral, SkipSpace;
  }

  lemma NotSpace(c: char, base: Base)
    requires 0 <= DigitOf(c) < base
    ensures !IsSpace(c) && c != '-' && c != '+' && c != 'x' && c != 'X' && c != ':' && c != '\n'
  {}

  //// Characters of labels and contacts

  predicate Allowed(c: char) {
    || 'a' <= c <= 'z' || 'A' <= c <= 'Z' || '0' <= c <= '9'
    || c == ' ' || c == '+' || c == '@' || c == '-' || c == '.' || c == '_' || c == '*'
  }

  // state_validate_str.
  method ValidateStr(str: string) returns (ok: bool)
    ensures ok <==> forall c <- str :: Allowed(c)
  {
    var i := 0;
    while i < |str|
      invariant 0 <= i <= |str| && forall k | 0 <= k < i :: Allowed(str[k])
    {
      var c := str[i];
      var alnum := '0' <= c <= '9' || 'A' <= c <= 'Z' || 'a' <= c <= 'z';
      if !alnum && c !in " +@-._*" {
        assert c in str;
        return false;
      }
      i := i + 1;
    }
    return true;
  }

  //// Printing

  function Small(c: char): char {
    if 'A' <= c <= 'F' then c - 'A' + 'a' else c
  }

  function LowerHex(v: nat): string {
    var s := Numeral(v, 16);
    seq(|s|, i requires 0 <= i < |s| => Small(s[i]))
  }

  // Every number, not only the small ones that flags can be, is printed in small digits that denote it.
  lemma LowerHexDenotes(v: nat)
    ensures (forall c <- LowerHex(v) :: c in "0123456789abcdef")
    ensures IsNumeral(LowerHex(v), 16) && Denotes(LowerHex(v), 16) == v
  {
    NumeralDenotes(v, 16);
    CapitalDigits(v);
    LowerDenotes(Numeral(v, 16), LowerHex(v));
  }

  lemma {:induction false} CapitalDigits(v: nat)
    ensures forall c <- Numeral(v, 16) :: c in "0123456789ABCDEF"
    decreases v
  {
    LastDigit(v, 16);
    hide Quot, Rem;
    DigitsInOrder(DigitChar(Rem(v, 16)));
    DigitRoundTrip(Rem(v, 16));
    if v >= 16 { CapitalDigits(Quot(v, 16)); }
  }

  lemma {:induction false} LowerDenotes(s: string, t: string)
    requires |s| == |t| && (forall c <- s :: c in "0123456789ABCDEF") && IsNumeral(s, 16)
    requires forall i | 0 <= i < |s| :: t[i] == Small(s[i])
    ensures (forall c <- t :: c in "0123456789abcdef") && IsNumeral(t, 16) && Denotes(t, 16) == Denotes(s, 16)
  {
    hide Small, DigitOf;
    if s != "" {
      var n := |s| - 1;
      SmallDigit(s[n]);
      LowerDenotes(s[..n], t[..n]);
      assert t == t[..n] + [t[n]];
      hide IsNumeral, Denotes;
      DenotesMore(t[..n], t[n], 16);
      DenotesMore(s[..n], s[n], 16);
      assert s == s[..n] + [s[n]];
    }
  }

  lemma SmallDigit(c: char)
    requires c in "0123456789ABCDEF"
    ensures Small(c) in "0123456789abcdef" && 0 <= DigitOf(Small(c)) == DigitOf(c) < 16
  {}

  function HexNum(n: Num): (s: string)
    ensures |s| == 32
  {
    HexOf(Reverse(ExportBin(n)))
  }

  function Fields(e: Entry): (f: seq<string>)
    ensures |f| == FIELDS
  {
    [e.username, Numeral(VERSION, 10), HexOf(e.key), HexNum(e.counter), HexNum(e.latestCard), Numeral(e.failures, 10),
     Numeral(e.recentFailures, 10), Numeral(TimeBits(e.channelTime), 10), Numeral(e.codeLength, 10),
     Numeral(e.alphabet, 10), LowerHex(e.flags), if e.spass.Some? then HexOf(e.spass.value) else "",
     Numeral(TimeBits(e.spassTime), 10), e.title, e.contact]
  }

  function Line(e: Entry): string {
    Join(Fields(e)) + "\n"
  }

  // What snprintf leaves of a line in a buffer.
  function Buffered(line: string, buffLength: nat): string
    requires buffLength > 0
  {
    if |line| < buffLength then line else line[..buffLength - 1]
  }

  // _db_generate_user_entry into a buffer: a line that does not fit is cut, and an error is reported
  // only for the one length that equals the size of the buffer.
  method GenerateUserEntry(e: Entry, buffLength: nat) returns (ret: int, buffer: string)
    requires buffLength > 0
    ensures ret == 0 <==> 10 <= |Line(e)| && |Line(e)| != buffLength
    ensures buffer == Buffered(Line(e), buffLength)
    ensures ret == 0 || ret == 1
  {
    hide HexOf, Numeral, LowerHex, Num.Value;
    var key := new Byte[|e.key|](i requires 0 <= i < |e.key| => e.key[i]);
    var sequenceKey := BinaryToHex(key);
    assert key[..] == e.key;
    var counter := ExportHex(e.counter);
    var latestCard := ExportHex(e.latestCard);
    var spass := "";
    if e.spass.Some? {
      var bytes := new Byte[|e.spass.value|](i requires 0 <= i < |e.spass.value| => e.spass.value[i]);
      spass := BinaryToHex(bytes);
      assert bytes[..] == e.spass.value;
    }
    var text := Join([e.username, Numeral(VERSION, 10), sequenceKey, counter, latestCard, Numeral(e.failures, 10),
                      Numeral(e.recentFailures, 10), Numeral(TimeBits(e.channelTime), 10),
                      Numeral(e.codeLength, 10), Numeral(e.alphabet, 10), LowerHex(e.flags), spass,
                      Numeral(TimeBits(e.spassTime), 10), e.title, e.contact]) + "\n";
    hide Join;
    assert text == Line(e);
    buffer := Buffered(text, buffLength);
    ret := if |text| < 10 || |text| == buffLength then 1 else 0;
  }

  // A line without line ends inside is whole in the buffer exactly if it is shorter than the buffer: a
  // longer one is cut, and accepted all the same.
  lemma CutLine(e: Entry, buffLength: nat)
    requires buffLength > 0 && '\n' !in Join(Fields(e))
    ensures var b := Buffered(Line(e), buffLength); (b != "" && b[|b| - 1] == '\n') <==> |Line(e)| < buffLength
  {
    hide Join, Fields;
  }

  //// Parsing

  // What the key field gives for byte i, from two of its characters.
  function KeyByte(field: string, i: nat): Option<Byte> {
    if |field| < 2 * i + 2 then None
    else
      var v := Scan(field[2 * i..], 16, Some(2));
      if v.None? then None else Some(v.value % 256)
  }

  predicate KeyReads(field: string, n: nat) {
    forall i | 0 <= i < n :: KeyByte(field, i).Some?
  }

  function KeyOf(field: string): seq<Byte>
    requires KeyReads(field, 32)
  {
    seq(32, i requires 0 <= i < 32 => KeyByte(field, i).value)
  }

  // num_import of a hexadecimal field.
  function ImportHex(s: string): Option<Num> {
    if 1 <= |s| <= 32 && IsNumeral(s, 16) then
      HexFits(s);
      Some(OfValue(Denotes(s, 16)))
    else None
  }

  lemma HexFits(s: string)
    requires |s| <= 32 && IsNumeral(s, 16)
    ensures Denotes(s, 16) < TWO128
  {
    hide Denotes, IsNumeral, Pow;
    DenotesBound(s, 16);
    PowerBounds();
    PowMonotone(16, |s|, 32);
  }

  function CopyString(s: string, size: nat): string {
    if |s| > size then s[..size] else s
  }

  // The tokens of a line with their lengths and the version checked: _db_parse_user_entry.
  predicate WellFormed(f: seq<string>) {
    |f| == FIELDS && (forall i | 0 <= i < FIELDS :: |f[i]| <= MAX_FIELD_SIZE) && ScanUnsigned(f[1]) == Some(VERSION)
  }

  // The parsing part of db_file_load, into a state that holds prior.
  function ParseFields(f: seq<string>, prior: Entry): Option<Entry>
    requires |f| == FIELDS
  {
    hide ImportHex, ScanUnsigned, ScanTime, ScanHex, CopyString, Allowed, IsHex, Unhex, KeyReads, KeyOf;
    var counter, latestCard := ImportHex(f[3]), ImportHex(f[4]);
    var failures, recentFailures, channelTime := ScanUnsigned(f[5]), ScanUnsigned(f[6]), ScanTime(f[7]);
    var codeLength, alphabet, flags := ScanUnsigned(f[8]), ScanUnsigned(f[9]), ScanHex(f[10]);
    var spassTime := if f[11] == "" then Some(prior.spassTime) else ScanTime(f[12]);
    var title, contact := CopyString(f[13], LABEL_SIZE - 1), CopyString(f[14], CONTACT_SIZE - 1);
    if !KeyReads(f[2], 32) || counter.None? || latestCard.None? then None
    else if failures.None? || recentFailures.None? || channelTime.None? then None
    else if codeLength.None? || alphabet.None? || flags.None? then None
    else if f[11] != "" && (|f[11]| < 2 * SPASS_SIZE || !IsHex(f[11][..2 * SPASS_SIZE]) || spassTime.None?) then None
    else if !(forall c <- title :: Allowed(c)) || !(forall c <- contact :: Allowed(c)) then None
    else if codeLength.value < 2 || codeLength.value > 16 || flags.value > 7 then None
    else
      Some(Entry(prior.username, KeyOf(f[2]), counter.value, latestCard.value, failures.value, recentFailures.value,
                 channelTime.value, codeLength.value, alphabet.value, flags.value,
                 if f[11] == "" then None else Some(Unhex(f[11][..2 * SPASS_SIZE])), spassTime.value, title, contact))
  }

  function ParseLine(buff: string, prior: Entry): Option<Entry> {
    var f := CutAll(Split(buff));
    if WellFormed(f) then ParseFields(f, prior) else None
  }

  //// A printed entry is recovered

  // What the setters of the source guarantee of a state, and the limits of its types.
  predicate Storable(e: Entry) {
    && Plain(e.username) && |e.username| <= MAX_FIELD_SIZE
    && |e.key| == 32 && (e.spass.Some? ==> |e.spass.value| == SPASS_SIZE)
    && 2 <= e.codeLength <= 16 && e.flags <= 7
    && |e.title| < LABEL_SIZE && (forall c <- e.title :: Allowed(c))
    && |e.contact| < CONTACT_SIZE && (forall c <- e.contact :: Allowed(c))
  }

  lemma NumeralPlain(s: string, base: Base)
    requires IsNumeral(s, base)
    ensures Plain(s)
  {
    hide DigitOf, IsSpace;
    assert DigitOf(':') == -1 && DigitOf('\n') == -1 by { NoDigits(); }
  }

  lemma NoDigits()
    ensures DigitOf(':') == -1 && DigitOf('\n') == -1
  {}

  lemma UnsignedField(v: nat)
    requires v < TWO64
    ensures
      var s := Numeral(v, 10);
      Plain(s) && 1 <= |s| <= 20 && Scan(s, 10, None) == Some(v) && (v < TWO32 ==> |s| <= 10)
  {
    hide Numeral, Denotes, IsNumeral, Scan, Pow, Plain;
    NumeralDenotes(v, 10);
    ScanNumeral(Numeral(v, 10), 10);
    NumeralPlain(Numeral(v, 10), 10);
    DecimalPowers();
    NumeralLength(v, 10, 20);
    if v < TWO32 { NumeralLength(v, 10, 10); }
  }

  lemma DecimalPowers()
    ensures Pow(10, 20) > TWO64 && Pow(10, 10) > TWO32
  {
    assert Pow(10, 5) == 100_000;
    assert Pow(10, 10) == 10_000_000_000;
    assert Pow(10, 15) == 1_000_000_000_000_000;
  }

  lemma FlagsField(v: U32)
    requires v <= 7
    ensures var s := LowerHex(v); Plain(s) && |s| == 1 && ScanHex(s) == Some(v)
  {
    hide *;
    OneHexDigit(v);
    SmallHex(LowerHex(v));
    NumeralPlain(LowerHex(v), 16);
  }

  lemma SmallHex(s: string)
    requires s != "" && IsNumeral(s, 16) && Denotes(s, 16) <= 7
    ensures ScanHex(s) == Some(Denotes(s, 16) as U32)
  {
    hide Scan, Denotes, IsNumeral;
    ScanNumeral(s, 16);
  }

  lemma OneHexDigit(v: nat)
    requires v <= 7
    ensures LowerHex(v) == [DigitChar(v)] && IsNumeral(LowerHex(v), 16) && Denotes(LowerHex(v), 16) == v
  {
    assert Numeral(v, 16) == [DigitChar(v)];
    DigitRoundTrip(v);
    assert LowerHex(v) == [DigitChar(v)];
    hide Numeral, LowerHex, DigitChar, DigitOf;
    DenotesOne(DigitChar(v), 16);
  }

  lemma DenotesOne(c: char, base: Base)
    requires 0 <= DigitOf(c) < base
    ensures IsNumeral([c], base) && Denotes([c], base) == DigitOf(c)
  {
    hide DigitOf;
    assert [c][..0] == "";
  }

  lemma HexField(b: seq<Byte>)
    ensures Plain(HexOf(b))
  {
    HexDenotes(b);
    NumeralPlain(HexOf(b), 16);
  }

  lemma NumField(n: Num)
    ensures Plain(HexNum(n)) && ImportHex(HexNum(n)) == Some(n)
  {
    hide IsNumeral, Denotes, Num.Value, ExportBin;
    HexRoundTrip(n);
    HexField(Reverse(ExportBin(n)));
    ValueInjective(OfValue(n.Value()), n);
  }

  lemma {:induction false} HexAt(b: seq<Byte>, i: nat)
    requires i < |b|
    ensures HexOf(b)[2 * i] == DigitChar(b[i] / 16) && HexOf(b)[2 * i + 1] == DigitChar(b[i] % 16)
  {
    hide DigitChar;
    if i < |b| - 1 { HexAt(b[..|b| - 1], i); }
  }

  // Two digits are scanned as a byte.
  lemma ScanPair(s: string, v: Byte)
    requires |s| >= 2 && s[0] == DigitChar(v / 16) && s[1] == DigitChar(v % 16)
    ensures Scan(s, 16, Some(2)) == Some(v as nat)
  {
    DigitRoundTrip(v / 16);
    DigitRoundTrip(v % 16);
    NotSpace(s[0], 16);
    NotSpace(s[1], 16);
    hide DigitChar, DigitOf;
    assert SkipSpace(s) == s;
    var field := if 2 < |s| then s[..2] else s;
    assert field == [s[0], s[1]] && field[1..] == [s[1]] && field[..1] == [s[0]];
    assert IsNumeral(field, 16);
    LeadingAll(field, 16);
    assert Denotes(field[..1], 16) == v / 16 by { assert field[..1][..0] == ""; }
    assert Denotes(field, 16) == v;
  }

  lemma KeyField(key: seq<Byte>)
    requires |key| == 32
    ensures Plain(HexOf(key)) && KeyReads(HexOf(key), 32) && KeyOf(HexOf(key)) == key
  {
    HexField(key);
    hide HexOf, DigitChar, Scan, Plain;
    forall i | 0 <= i < 32 ensures KeyByte(HexOf(key), i) == Some(key[i]) {
      HexAt(key, i);
      ScanPair(HexOf(key)[2 * i..], key[i]);
    }
  }

  lemma AllowedPlain(s: string)
    requires forall c <- s :: Allowed(c)
    ensures Plain(s)
  {}

  lemma JoinMore(s: string, f: seq<string>)
    requires |f| >= 1
    ensures |Join([s] + f)| == |s| + 1 + |Join(f)|
  {
    assert ([s] + f)[1..] == f;
  }

  // Every printed field is plain and short.
  lemma FieldsPlain(e: Entry)
    requires Storable(e)
    ensures var f := Fields(e); (forall i | 0 <= i < FIELDS :: Plain(f[i]) && |f[i]| <= MAX_FIELD_SIZE)
    ensures
      var f := Fields(e);
      && |f[1]| == 1 && |f[5]| <= 10 && |f[6]| <= 10 && |f[7]| <= 20 && |f[8]| <= 10 && |f[9]| <= 10
      && |f[10]| == 1 && |f[12]| <= 20
  {
    hide HexOf, Numeral, LowerHex, HexNum, KeyOf, KeyReads, ImportHex, Scan, ScanHex, Plain, Allowed, TimeBits;
    UnsignedField(VERSION);
    DigitCount(VERSION);
    KeyField(e.key);
    NumField(e.counter);
    NumField(e.latestCard);
    UnsignedField(e.failures);
    UnsignedField(e.recentFailures);
    UnsignedField(TimeBits(e.channelTime));
    UnsignedField(e.codeLength);
    UnsignedField(e.alphabet);
    FlagsField(e.flags);
    if e.spass.Some? { HexField(e.spass.value); }
    EmptyPlain();
    UnsignedField(TimeBits(e.spassTime));
    AllowedPlain(e.title);
    AllowedPlain(e.contact);
  }

  // And scanned as what was printed.
  lemma FieldsRead(e: Entry, prior: Entry)
    requires Storable(e)
    ensures ScanUnsigned(Fields(e)[1]) == Some(VERSION)
    ensures ParseFields(Fields(e), prior)
         == Some(e.(username := prior.username, spassTime := if e.spass.Some? then e.spassTime else prior.spassTime))
  {
    hide Fields, HexOf, Numeral, LowerHex, HexNum, KeyOf, KeyReads, ImportHex, ScanHex, ScanUnsigned, ScanTime,
      Plain, TimeBits, Allowed, IsHex, Unhex;
    FieldsAre(e);
    UnsignedRead(VERSION);
    KeyField(e.key);
    NumField(e.counter);
    NumField(e.latestCard);
    UnsignedRead(e.failures);
    UnsignedRead(e.recentFailures);
    TimeRead(e.channelTime);
    UnsignedRead(e.codeLength);
    UnsignedRead(e.alphabet);
    FlagsField(e.flags);
    if e.spass.Some? { SpassField(e.spass.value); }
    TimeRead(e.spassTime);
  }

  lemma FieldsAre(e: Entry)
    ensures var f := Fields(e);
      && f[0] == e.username && f[1] == Numeral(VERSION, 10) && f[2] == HexOf(e.key) && f[3] == HexNum(e.counter)
      && f[4] == HexNum(e.latestCard)
      && f[5] == Numeral(e.failures, 10) && f[6] == Numeral(e.recentFailures, 10)
      && f[7] == Numeral(TimeBits(e.channelTime), 10)
      && f[8] == Numeral(e.codeLength, 10) && f[9] == Numeral(e.alphabet, 10) && f[10] == LowerHex(e.flags)
      && f[11] == (if e.spass.Some? then HexOf(e.spass.value) else "") && f[12] == Numeral(TimeBits(e.spassTime), 10)
      && f[13] == e.title && f[14] == e.contact
  {
    hide Numeral, HexOf, HexNum, LowerHex, TimeBits;
  }

  lemma UnsignedRead(v: U32)
    ensures ScanUnsigned(Numeral(v, 10)) == Some(v)
  {
    hide Numeral, Scan;
    UnsignedField(v);
  }

  lemma TimeRead(t: Time)
    ensures ScanTime(Numeral(TimeBits(t), 10)) == Some(t)
  {
    hide Numeral, Scan;
    UnsignedField(TimeBits(t));
  }

  lemma SpassField(b: seq<Byte>)
    requires |b| == SPASS_SIZE
    ensures
      var s := HexOf(b);
      s != "" && |s| == 2 * SPASS_SIZE && IsHex(s[..2 * SPASS_SIZE]) && Unhex(s[..2 * SPASS_SIZE]) == b
  {
    hide HexOf, IsHex, Unhex;
    UnhexHexOf(b);
    assert HexOf(b)[..2 * SPASS_SIZE] == HexOf(b);
  }

  lemma EmptyPlain()
    ensures Plain("")
  {}

  lemma DigitCount(v: nat)
    ensures |Numeral(v, 10)| >= 1 && (v < 10 ==> |Numeral(v, 10)| == 1)
  {}

  //// The parser as the source runs it

  // _strtok, with its static position: what strsep has not yet given.
  class Tokenizer {
    var position: Option<string>

    constructor ()
      ensures position == None
    {
      position := None;
    }

    static ghost function Left(p: Option<string>): seq<string> {
      if p.None? then [] else Split(p.value)
    }

    method StrTok(input: Option<string>) returns (token: Option<string>)
      modifies this
      ensures
        var left := Left(if input.Some? then input else old(position));
        if left == [] then token == None && Left(position) == []
        else token == Some(Cut(left[0])) && Left(position) == left[1..]
    {
      if input.Some? { position := input; }
      if position.None? { return None; }
      var p := position.value;
      var i := 0;
      while i < |p| && p[i] != ':'
        invariant 0 <= i <= |p| && ':' !in p[..i]
      {
        assert p[..i + 1] == p[..i] + [p[i]];
        i := i + 1;
      }
      SplitPlain(p[..i], p[i..]);
      assert p[..i] + p[i..] == p;
      if i == |p| {
        position := None;
        assert p[i..] == "" && p[..i] + "" == p[..i];
      } else {
        position := Some(p[i + 1..]);
        assert p[i..][1..] == p[i + 1..] && p[..i] + "" == p[..i];
      }
      token := Some(Cut(p[..i]));
    }
  }

  // _db_parse_user_entry.
  method ParseUserEntry(tok: Tokenizer, buff: string) returns (ret: int, field: seq<string>)
    modifies tok
    ensures ret == 0 <==> WellFormed(CutAll(Split(buff)))
    ensures ret == 0 ==> field == CutAll(Split(buff))
    ensures ret == 0 || ret == STATE_PARSE_ERROR
  {
    hide Split, Cut, ScanUnsigned;
    ghost var all := Split(buff);
    field := [];
    var i := 0;
    while i < FIELDS
      invariant 0 <= i <= FIELDS && |field| == i <= |all|
      invariant i == 0 || Tokenizer.Left(tok.position) == all[i..]
      invariant forall k | 0 <= k < i :: field[k] == Cut(all[k]) && |field[k]| <= MAX_FIELD_SIZE
      invariant i > 1 ==> ScanUnsigned(field[1]) == Some(VERSION)
    {
      var token := tok.StrTok(if i == 0 then Some(buff) else None);
      if token.None? { return STATE_PARSE_ERROR, field; }
      field := field + [token.value];
      assert field[i] == Cut(all[i]);
      if |field[i]| > MAX_FIELD_SIZE { return STATE_PARSE_ERROR, field; }
      if i == 1 && ScanUnsigned(field[i]) != Some(VERSION) { return STATE_PARSE_ERROR, field; }
      i := i + 1;
    }
    var more := tok.StrTok(None);
    if more != None { return STATE_PARSE_ERROR, field; }
    assert field == CutAll(all);
    return 0, field;
  }

  // The loop that reads the key.
  method ParseKey(field: string) returns (ok: bool, key: seq<Byte>)
    ensures ok <==> KeyReads(field, 32)
    ensures ok ==> key == KeyOf(field)
  {
    hide Scan;
    key := [];
    var i := 0;
    while i < 32
      invariant 0 <= i <= 32 && KeyReads(field, i) && |key| == i
      invariant forall k | 0 <= k < i :: key[k] == KeyByte(field, k).value
    {
      if |field| <= 2 * i || |field| <= 2 * i + 1 {
        assert KeyByte(field, i) == None;
        return false, key;
      }
      var tmp := Scan(field[2 * i..], 16, Some(2));
      if tmp.None? {
        assert KeyByte(field, i) == None;
        return false, key;
      }
      assert KeyByte(field, i) == Some(tmp.value % 256);
      key := key + [tmp.value % 256];
      i := i + 1;
    }
    return true, key;
  }

  // The parsing part of db_file_load.
  method LoadEntry(ar: Arithmetic, tok: Tokenizer, buff: string, prior: Entry) returns (ret: int, e: Entry)
    modifies ar, tok
    ensures ret == 0 <==> ParseLine(buff, prior).Some?
    ensures ret == 0 ==> Some(e) == ParseLine(buff, prior)
    ensures ret == 0 || ret == STATE_PARSE_ERROR
  {
    hide WellFormed, Split, CutAll, KeyReads, KeyOf, ScanUnsigned, ScanHex, ScanTime, ImportHex, IsHex, Unhex;
    e := prior;
    var field;
    ret, field := ParseUserEntry(tok, buff);
    if ret != 0 { return; }
    ret := STATE_PARSE_ERROR;
    FieldCount(buff);
    assert ParseLine(buff, prior) == ParseFields(field, prior);
    var ok, key := ParseKey(field[2]);
    if !ok { return; }
    e := e.(key := key);
    var counter := NumImportHex(ar, field[3]);
    if counter.None? { return; }
    var latestCard := NumImportHex(ar, field[4]);
    if latestCard.None? { return; }
    e := e.(counter := counter.value, latestCard := latestCard.value);
    var failures, recentFailures, channelTime := ScanUnsigned(field[5]), ScanUnsigned(field[6]), ScanTime(field[7]);
    if failures.None? || recentFailures.None? || channelTime.None? { return; }
    e := e.(failures := failures.value, recentFailures := recentFailures.value, channelTime := channelTime.value);
    var codeLength, alphabet, flags := ScanUnsigned(field[8]), ScanUnsigned(field[9]), ScanHex(field[10]);
    if codeLength.None? || alphabet.None? || flags.None? { return; }
    e := e.(codeLength := codeLength.value, alphabet := alphabet.value, flags := flags.value);
    if field[11] == "" {
      e := e.(spass := None);
    } else {
      var spass := new Byte[SPASS_SIZE];
      var bad := HexToBinary(field[11], 2 * SPASS_SIZE, spass);
      if bad != 0 { return; }
      var spassTime := ScanTime(field[12]);
      if spassTime.None? { return; }
      e := e.(spass := Some(spass[..]), spassTime := spassTime.value);
    }
    e := e.(title := CopyString(field[13], LABEL_SIZE - 1), contact := CopyString(field[14], CONTACT_SIZE - 1));
    var valid := ValidateStr(e.title);
    if !valid { return; }
    valid := ValidateStr(e.contact);
    if !valid { return; }
    if e.codeLength < 2 || e.codeLength > 16 { return; }
    if e.flags > 7 { return; }
    ret := 0;
  }

  lemma FieldCount(buff: string)
    ensures WellFormed(CutAll(Split(buff))) ==> |CutAll(Split(buff))| == FIELDS
  {}

  method NumImportHex(ar: Arithmetic, s: string) returns (n: Option<Num>)
    modifies ar
    ensures n == ImportHex(s)
  {
    hide Num.Value, IsNumeral, Denotes;
    var ret, arg := NumSetStrHex(ar, s);
    if ret == 0 {
      ValueInjective(arg, OfValue(arg.Value()));
      return Some(arg);
    } else {
      return None;
    }
  }

  // The longest line leaves room in the buffer of 512 characters.
  lemma LineLength(e: Entry)
    requires Storable(e)
    ensures 10 <= |Line(e)| <= 473 && Line(e)[|Line(e)| - 1] == '\n'
  {
    FieldsPlain(e);
    HexLengths(e);
    LineSum(e);
    hide Fields, Join, Plain;
  }

  // A name of 362 characters or more gives a line that is cut, whatever the other fields.
  lemma LongNameCut(e: Entry)
    requires |e.key| == 32 && |e.username| >= 362
    ensures |Line(e)| > ENTRY_SIZE
  {
    LineSum(e);
    FieldsAre(e);
    DigitCounts(e);
    hide Fields, Join, Numeral, HexOf, HexNum, LowerHex, Line;
  }

  // With the shortest other fields, none that is shorter does.
  lemma ShortestCut(e: Entry)
    requires |e.key| == 32 && e.failures < 10 && e.recentFailures < 10 && 0 <= e.channelTime < 10 && e.codeLength < 10
    requires e.alphabet < 10 && e.flags <= 7 && e.spass == None && 0 <= e.spassTime < 10 && e.title == ""
    requires e.contact == ""
    ensures |Line(e)| == |e.username| + 151
    ensures |Line(e)| > ENTRY_SIZE <==> |e.username| >= 362
  {
    LineSum(e);
    FieldsAre(e);
    DigitCounts(e);
    OneHexDigit(e.flags);
    hide Fields, Join, Numeral, HexOf, HexNum, LowerHex, Line;
  }

  lemma LowerNotEmpty(v: nat)
    ensures |LowerHex(v)| >= 1
  {}

  lemma DigitCounts(e: Entry)
    ensures
      var f := Fields(e);
      && |f[1]| == 1 && |f[5]| >= 1 && |f[6]| >= 1 && |f[7]| >= 1 && |f[8]| >= 1 && |f[9]| >= 1 && |f[10]| >= 1
      && |f[12]| >= 1
      && (e.failures < 10 ==> |f[5]| == 1) && (e.recentFailures < 10 ==> |f[6]| == 1)
      && (0 <= e.channelTime < 10 ==> |f[7]| == 1)
      && (e.codeLength < 10 ==> |f[8]| == 1) && (e.alphabet < 10 ==> |f[9]| == 1)
      && (0 <= e.spassTime < 10 ==> |f[12]| == 1)
  {
    FieldsAre(e);
    hide Fields, Numeral, HexOf, HexNum, LowerHex;
    DigitCount(VERSION);
    DigitCount(e.failures);
    DigitCount(e.recentFailures);
    DigitCount(TimeBits(e.channelTime));
    DigitCount(e.codeLength);
    DigitCount(e.alphabet);
    DigitCount(TimeBits(e.spassTime));
    LowerNotEmpty(e.flags);
  }

  lemma LineSum(e: Entry)
    ensures
      var f := Fields(e);
      |Line(e)| == |f[0]| + |f[1]| + |f[2]| + |f[3]| + |f[4]| + |f[5]| + |f[6]| + |f[7]|
                   + |f[8]| + |f[9]| + |f[10]| + |f[11]| + |f[12]| + |f[13]| + |f[14]| + 15
    ensures Line(e)[|Line(e)| - 1] == '\n'
  {
    var f := Fields(e);
    hide Fields, Join;
    var last := [f[14]];
    JoinOne(f[14]);
    JoinSeven(f[7], f[8], f[9], f[10], f[11], f[12], f[13], last);
    var back := [f[7], f[8], f[9], f[10], f[11], f[12], f[13]] + last;
    JoinSeven(f[0], f[1], f[2], f[3], f[4], f[5], f[6], back);
    assert [f[0], f[1], f[2], f[3], f[4], f[5], f[6]] + back == f;
  }

  lemma JoinSeven(a: string, b: string, c: string, d: string, e: string, f: string, g: string, rest: seq<string>)
    requires |rest| >= 1
    ensures |Join([a, b, c, d, e, f, g] + rest)| == |a| + |b| + |c| + |d| + |e| + |f| + |g| + 7 + |Join(rest)|
  {
    hide Join;
    JoinMore(g, rest);
    JoinMore(f, [g] + rest);
    JoinMore(e, [f] + ([g] + rest));
    assert [e] + ([f] + ([g] + rest)) == [e, f, g] + rest;
    JoinMore(d, [e, f, g] + rest);
    JoinMore(c, [d] + ([e, f, g] + rest));
    JoinMore(b, [c] + ([d] + ([e, f, g] + rest)));
    assert [b] + ([c] + ([d] + ([e, f, g] + rest))) == [b, c, d, e, f, g] + rest;
    JoinMore(a, [b, c, d, e, f, g] + rest);
    assert [a] + ([b, c, d, e, f, g] + rest) == [a, b, c, d, e, f, g] + rest;
  }

  lemma HexLengths(e: Entry)
    requires Storable(e)
    ensures
      var f := Fields(e);
      && |f[0]| <= 80 && |f[2]| == 64 && |f[3]| == 32 && |f[4]| == 32 && |f[11]| <= 80
      && |f[13]| <= 29 && |f[14]| <= 59
  {
    FieldsAre(e);
    hide HexOf, HexNum, Numeral, LowerHex;
  }

  lemma JoinOne(s: string)
    ensures Join([s]) == s
  {}

  lemma {:induction false} JoinLast(f: seq<string>, end: string)
    requires |f| >= 1
    ensures Join(f) + end == Join(f[..|f| - 1] + [f[|f| - 1] + end])
  {
    var g := f[..|f| - 1] + [f[|f| - 1] + end];
    if |f| == 1 {
      assert g == [f[0] + end];
    } else {
      JoinLast(f[1..], end);
      assert g[1..] == f[1..][..|f| - 2] + [f[1..][|f| - 2] + end];
      assert Join(f) + end == f[0] + ":" + (Join(f[1..]) + end);
    }
  }

  // The tokens of a printed line are its fields.
  lemma TokensOfLine(e: Entry)
    requires Storable(e)
    ensures CutAll(Split(Line(e))) == Fields(e)
  {
    FieldsPlain(e);
    var f := Fields(e);
    hide Fields, Split, Join, Cut;
    JoinLast(f, "\n");
    var g := f[..14] + [f[14] + "\n"];
    forall i | 0 <= i < |g| ensures ':' !in g[i] {
      if i < 14 { assert g[i] == f[i]; } else { assert g[i] == f[14] + "\n"; }
    }
    SplitJoin(g);
    CutEnd(f[14]);
    forall i | 0 <= i < FIELDS ensures Cut(g[i]) == f[i] { if i < 14 { assert g[i] == f[i]; } }
    assert CutAll(g) == f;
  }

  lemma {:induction false} CutEnd(s: string)
    requires '\n' !in s
    ensures Cut(s + "\n") == s
  {
    if s != "" {
      CutEnd(s[1..]);
      assert (s + "\n")[1..] == s[1..] + "\n";
    }
  }

  // A state that the setters admit is printed completely, and recovered from its line; the time of
  // the static password is stored but read only when a static password is set.
  lemma EntryRoundTrip(e: Entry, prior: Entry)
    requires Storable(e) && prior.username == e.username
    ensures 10 <= |Line(e)| < ENTRY_SIZE
    ensures ParseLine(Line(e), prior) == Some(e.(spassTime := if e.spass.Some? then e.spassTime else prior.spassTime))
  {
    hide Fields, Split, Join, CutAll, Line, ParseFields, ScanUnsigned, Plain;
    LineLength(e);
    TokensOfLine(e);
    FieldsPlain(e);
    FieldsRead(e, prior);
  }
}
