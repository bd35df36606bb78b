// Alphabets, and numbers written over them: the tables of src/libotp/ppp.c, the check of custom
// alphabets in src/libotp/config.c, and the digits that become a passcode.
module Alphabet {
  import opened Machine

  const SIMPLE := "!#%+23456789:=?@" + "ABCDEFGHJKLMNPRSTUVWXYZ" + "abcdefghijkmnopqrstuvwxyz"
  const EXTENDED := "!\"#$%&'()*+,-./" + "23456789:;<=>?@" + "ABCDEFGHJKLMNO" + "PRSTUVWXYZ[\\]^_"
                    + "abcdefghijkmnopqrstuvwxyz{|}~"
  const SIMPLE_NO_VOWELS := "!#%+23456789:=?@" + "BCDFGHJKLMNPRSTVWXZ" + "bcdfghjkmnpqrstvwxz"
  const EXTENDED_NO_VOWELS := "!\"#$%&'()*+,-./" + "23456789:;<=>?@" + "BCDFGHJKLMNPRSTVWXZ[\\]^_"
                              + "bcdfghjkmnpqrstvwxz{|}~"
  const ALPHA := "23456789" + "ABCDEFGHJKLMNPRSTUVWXYZ" + "abcdefghijkmnopqrstuvwxyz"

  const COUNT: nat := 6

  // Alphabet 0 is the custom one.
  function Builtin(id: nat): string
    requires 0 < id < COUNT
  {
    match id
    case 1 => SIMPLE
    case 2 => EXTENDED
    case 3 => SIMPLE_NO_VOWELS
    case 4 => EXTENDED_NO_VOWELS
    case _ => ALPHA
  }

  predicate Distinct(s: string) {
    forall i, j | 0 <= i < j < |s| :: s[i] != s[j]
  }

  predicate Ascending(s: string) {
    s != "" && forall i | 0 <= i < |s| - 1 :: s[i] < s[i + 1]
  }

  lemma Glue(s: string, t: string)
    requires Ascending(s) && Ascending(t) && s != "" && t != "" && s[|s| - 1] < t[0]
    ensures Ascending(s + t) && (s + t)[|s + t| - 1] == t[|t| - 1]
  {}

  lemma {:induction false} AscendingBelow(s: string, i: nat, j: nat)
    requires Ascending(s) && i < j < |s|
    ensures s[i] < s[j]
  {
    if i < j - 1 { AscendingBelow(s, i, j - 1); }
  }

  lemma AscendingDistinct(s: string)
    requires Ascending(s)
    ensures Distinct(s) && s != "" && (s[0] > '\0' ==> '\0' !in s)
  {
    forall i | 0 < i < |s| ensures s[i] > s[0] { AscendingBelow(s, 0, i); }
    forall i, j | 0 <= i < j < |s| ensures s[i] != s[j] { AscendingBelow(s, i, j); }
  }

  lemma SignParts()
    ensures Ascending("!#%+23456789:=?@") && Ascending("!\"#$%&'()*+,-./")
  {}

  lemma DigitParts()
    ensures Ascending("23456789:;<=>?@") && Ascending("23456789")
  {}

  lemma LetterParts()
    ensures Ascending("ABCDEFGHJKLMNO") && Ascending("PRSTUVWXYZ[\\]^_") && Ascending("BCDFGHJKLMNPRSTVWXZ")
  {}

  lemma LongParts()
    ensures Ascending("ABCDEFGHJKLMNPRSTUVWXYZ") && Ascending("abcdefghijkmnopqrstuvwxyz")
    ensures Ascending("bcdfghjkmnpqrstvwxz")
  {}

  lemma BracketParts()
    ensures Ascending("BCDFGHJKLMNPRSTVWXZ[\\]^_") && Ascending("abcdefghijkmnopqrstuvwxyz{|}~")
    ensures Ascending("bcdfghjkmnpqrstvwxz{|}~")
  {}

  lemma SimpleAscending()
    ensures Ascending(SIMPLE) && Ascending(SIMPLE_NO_VOWELS) && Ascending(ALPHA)
  {
    hide Ascending;
    SignParts();
    DigitParts();
    LetterParts();
    LongParts();
    var sign, consonants := "!#%+23456789:=?@", "BCDFGHJKLMNPRSTVWXZ";
    var upper, lower := "ABCDEFGHJKLMNPRSTUVWXYZ", "abcdefghijkmnopqrstuvwxyz";
    Glue(sign, upper);
    Glue(sign + upper, lower);
    Glue(sign, consonants);
    Glue(sign + consonants, "bcdfghjkmnpqrstvwxz");
    Glue("23456789", upper);
    Glue("23456789" + upper, lower);
  }

  lemma ExtendedAscending()
    ensures Ascending(EXTENDED) && Ascending(EXTENDED_NO_VOWELS)
  {
    hide Ascending;
    SignParts();
    DigitParts();
    LetterParts();
    BracketParts();
    var sign, digits, upper, rest := "!\"#$%&'()*+,-./", "23456789:;<=>?@", "ABCDEFGHJKLMNO", "PRSTUVWXYZ[\\]^_";
    Glue(sign, digits);
    Glue(sign + digits, upper);
    Glue(sign + digits + upper, rest);
    Glue(sign + digits + upper + rest, "abcdefghijkmnopqrstuvwxyz{|}~");
    Glue(sign + digits, "BCDFGHJKLMNPRSTVWXZ[\\]^_");
    Glue(sign + digits + "BCDFGHJKLMNPRSTVWXZ[\\]^_", "bcdfghjkmnpqrstvwxz{|}~");
  }

  // No character occurs twice in an alphabet of the table.
  lemma BuiltinDistinct(id: nat)
    requires 0 < id < COUNT
    ensures Distinct(Builtin(id)) && Builtin(id) != "" && '\0' !in Builtin(id)
  {
    hide Ascending, Distinct;
    SimpleAscending();
    ExtendedAscending();
    AscendingDistinct(Builtin(id));
  }

  // The characters of the alphabets: of the whole range, or of some signs, digits and letters, without
  // those that look alike, and without vowels.
  predicate Belongs(id: nat, c: char) {
    match id
    case 1 => c in "!#%+:=?@" || '2' <= c <= '9' || (IsLetter(c) && c !in "IOQl")
    case 2 => IsGraph(c) && c !in "01IQ`l"
    case 3 => c in "!#%+:=?@" || '2' <= c <= '9' || (IsLetter(c) && c !in "AEIOUYQaeiouyl")
    case 4 => IsGraph(c) && c !in "01`AEIOUYQaeiouyl"
    case 5 => '2' <= c <= '9' || (IsLetter(c) && c !in "IOQl")
    case _ => false
  }

  predicate IsLetter(c: char) {
    'A' <= c <= 'Z' || 'a' <= c <= 'z'
  }

  lemma SignMembers(c: char)
    ensures c in "!#%+23456789:=?@" <==> c in "!#%+:=?@" || '2' <= c <= '9'
    ensures c in "!\"#$%&'()*+,-./" <==> '!' <= c <= '/'
  {}

  lemma DigitMembers(c: char)
    ensures c in "23456789:;<=>?@" <==> '2' <= c <= '@'
    ensures c in "23456789" <==> '2' <= c <= '9'
  {}

  lemma UpperMembers(c: char)
    ensures c in "ABCDEFGHJKLMNPRSTUVWXYZ" <==> 'A' <= c <= 'Z' && c !in "IOQ"
    ensures c in "ABCDEFGHJKLMNO" <==> 'A' <= c <= 'O' && c != 'I'
    ensures c in "PRSTUVWXYZ[\\]^_" <==> 'P' <= c <= '_' && c != 'Q'
  {}

  lemma LowerMembers(c: char)
    ensures c in "abcdefghijkmnopqrstuvwxyz" <==> 'a' <= c <= 'z' && c != 'l'
    ensures c in "abcdefghijkmnopqrstuvwxyz{|}~" <==> 'a' <= c <= '~' && c != 'l'
  {}

  lemma ConsonantMembers(c: char)
    ensures c in "BCDFGHJKLMNPRSTVWXZ" <==> 'A' <= c <= 'Z' && c !in "AEIOUYQ"
    ensures c in "BCDFGHJKLMNPRSTVWXZ[\\]^_" <==> 'A' <= c <= '_' && c !in "AEIOUYQ"
  {}

  lemma LowerConsonantMembers(c: char)
    ensures c in "bcdfghjkmnpqrstvwxz" <==> 'a' <= c <= 'z' && c !in "aeiouyl"
    ensures c in "bcdfghjkmnpqrstvwxz{|}~" <==> 'a' <= c <= '~' && c !in "aeiouyl"
  {}

  lemma InTwo(s: string, t: string, c: char)
    ensures c in s + t <==> c in s || c in t
  {}

  lemma InThree(s: string, t: string, u: string, c: char)
    ensures c in s + t + u <==> c in s || c in t || c in u
  {
    InTwo(s + t, u, c);
    InTwo(s, t, c);
  }

  lemma SimpleMembers(c: char)
    ensures c in SIMPLE <==> Belongs(1, c)
  {
    SignMembers(c);
    UpperMembers(c);
    LowerMembers(c);
    InThree("!#%+23456789:=?@", "ABCDEFGHJKLMNPRSTUVWXYZ", "abcdefghijkmnopqrstuvwxyz", c);
  }

  lemma ExtendedMembers(c: char)
    ensures c in EXTENDED <==> Belongs(2, c)
  {
    SignMembers(c);
    DigitMembers(c);
    UpperMembers(c);
    LowerMembers(c);
    var sign, digits, upper, rest := "!\"#$%&'()*+,-./", "23456789:;<=>?@", "ABCDEFGHJKLMNO", "PRSTUVWXYZ[\\]^_";
    InThree(sign, digits, upper, c);
    InThree(sign + digits + upper, rest, "abcdefghijkmnopqrstuvwxyz{|}~", c);
  }

  lemma SimpleNoVowelsMembers(c: char)
    ensures c in SIMPLE_NO_VOWELS <==> Belongs(3, c)
  {
    SignMembers(c);
    ConsonantMembers(c);
    LowerConsonantMembers(c);
    InThree("!#%+23456789:=?@", "BCDFGHJKLMNPRSTVWXZ", "bcdfghjkmnpqrstvwxz", c);
  }

  lemma ExtendedNoVowelsMembers(c: char)
    ensures c in EXTENDED_NO_VOWELS <==> Belongs(4, c)
  {
    SignMembers(c);
    DigitMembers(c);
    ConsonantMembers(c);
    LowerConsonantMembers(c);
    var sign, digits := "!\"#$%&'()*+,-./", "23456789:;<=>?@";
    InTwo(sign, digits, c);
    InThree(sign + digits, "BCDFGHJKLMNPRSTVWXZ[\\]^_", "bcdfghjkmnpqrstvwxz{|}~", c);
  }

  lemma AlphaMembers(c: char)
    ensures c in ALPHA <==> Belongs(5, c)
  {
    DigitMembers(c);
    UpperMembers(c);
    LowerMembers(c);
    InThree("23456789", "ABCDEFGHJKLMNPRSTUVWXYZ", "abcdefghijkmnopqrstuvwxyz", c);
  }

  // Each alphabet of the table holds these characters in ascending order, and no others.
  lemma BuiltinMembers(id: nat, c: char)
    requires 0 < id < COUNT
    ensures Ascending(Builtin(id)) && (c in Builtin(id) <==> Belongs(id, c))
  {
    hide Ascending, Belongs;
    SimpleAscending();
    ExtendedAscending();
    match id
    case 1 => SimpleMembers(c);
    case 2 => ExtendedMembers(c);
    case 3 => SimpleNoVowelsMembers(c);
    case 4 => ExtendedNoVowelsMembers(c);
    case _ => AlphaMembers(c);
  }

  // The comments in the table give these lengths, except for the fourth alphabet, which they call one
  // longer.
  lemma BuiltinLengths()
    ensures |SIMPLE| == 64 && |EXTENDED| == 88 && |SIMPLE_NO_VOWELS| == 54 && |EXTENDED_NO_VOWELS| == 77
    ensures |ALPHA| == 56
  {}

  predicate IsGraph(c: char) {
    '!' <= c <= '~'
  }

  // _alphabet_check: accepts exactly the strings of distinct printing ASCII characters.
  method AlphabetCheck(alphabet: string) returns (ret: int)
    ensures ret == 0 <==> Distinct(alphabet) && forall c <- alphabet :: IsGraph(c)
    ensures ret == 0 || ret == 1
  {
    var count := new nat[128](_ => 0);
    var ptr := 0;
    while ptr < |alphabet|
      invariant 0 <= ptr <= |alphabet|
      invariant forall i | 0 <= i < ptr :: IsGraph(alphabet[i]) && count[alphabet[i] as int] == 1
      invariant forall n | 0 <= n < 128 && count[n] != 0 :: exists i :: 0 <= i < ptr && alphabet[i] as int == n
      invariant forall i, j | 0 <= i < j < ptr :: alphabet[i] != alphabet[j]
    {
      var tmp := alphabet[ptr] as int;
      if tmp >= 128 {
        assert alphabet[ptr] in alphabet;
        return 1;
      }
      if !IsGraph(alphabet[ptr]) {
        assert alphabet[ptr] in alphabet;
        return 1;
      }
      if count[tmp] != 0 { return 1; }
      count[tmp] := count[tmp] + 1;
      ptr := ptr + 1;
    }
    return 0;
  }

  //// Numbers over an alphabet, least significant digit first

  function Digits(v: nat, alphabet: string, n: nat): (s: string)
    requires alphabet != ""
    ensures |s| == n
    decreases n
  {
    hide Rem, Quot;
    if n == 0 then "" else [alphabet[Rem(v, |alphabet|)]] + Digits(Quot(v, |alphabet|), alphabet, n - 1)
  }

  // Digit i is that of weight |alphabet|^i.
  lemma {:induction false} DigitAt(v: nat, alphabet: string, n: nat, i: nat)
    requires alphabet != "" && i < n
    ensures Pow(|alphabet|, i) > 0
    ensures Digits(v, alphabet, n)[i] == alphabet[v / Pow(|alphabet|, i) % |alphabet|]
  {
    DigitOfWeight(v, alphabet, n, i);
    var q := v / Pow(|alphabet|, i);
    assert q == Quot(v, Pow(|alphabet|, i)) && q % |alphabet| == Rem(q, |alphabet|);
  }

  lemma {:induction false} DigitOfWeight(v: nat, alphabet: string, n: nat, i: nat)
    requires alphabet != "" && i < n
    ensures Pow(|alphabet|, i) > 0
    ensures Digits(v, alphabet, n)[i] == alphabet[Rem(Quot(v, Pow(|alphabet|, i)), |alphabet|)]
    decreases i
  {
    hide Quot, Rem;
    var b := |alphabet|;
    PowPositive(b, i);
    if i == 0 {
      RemainderUnique(v, 1, v, 0);
    } else {
      PowPositive(b, i - 1);
      DigitOfWeight(Quot(v, b), alphabet, n - 1, i - 1);
      RemSplit(v, b, Pow(b, i - 1));
    }
  }

  function IndexOf(alphabet: string, c: char): (i: nat)
    requires c in alphabet
    ensures i < |alphabet| && alphabet[i] == c
  {
    if alphabet[0] == c then 0 else 1 + IndexOf(alphabet[1..], c)
  }

  predicate Over(s: string, alphabet: string) {
    forall c <- s :: c in alphabet
  }

  // The number that a string of digits denotes.
  function Decode(s: string, alphabet: string): nat
    requires Over(s, alphabet)
  {
    if s == "" then 0 else IndexOf(alphabet, s[0]) + |alphabet| * Decode(s[1..], alphabet)
  }

  lemma OverMore(c: char, s: string, alphabet: string)
    requires c in alphabet && Over(s, alphabet)
    ensures Over([c] + s, alphabet) && ([c] + s)[1..] == s
  {}

  // The digits denote the number modulo the size of the alphabet to the length.
  lemma {:induction false} DecodeDigits(v: nat, alphabet: string, n: nat)
    requires alphabet != "" && Distinct(alphabet)
    ensures Over(Digits(v, alphabet, n), alphabet) && Pow(|alphabet|, n) > 0
    ensures Decode(Digits(v, alphabet, n), alphabet) == Rem(v, Pow(|alphabet|, n))
    decreases n
  {
    hide Over, Quot, Rem, Distinct;
    var b := |alphabet|;
    if n == 0 {
      NoDigits(alphabet);
      RemainderUnique(v, 1, v, 0);
    } else {
      var c, rest := alphabet[Rem(v, b)], Digits(Quot(v, b), alphabet, n - 1);
      DecodeDigits(Quot(v, b), alphabet, n - 1);
      OverMore(c, rest, alphabet);
      PowPositive(b, n - 1);
      RemSplit(v, b, Pow(b, n - 1));
      UniqueIndex(alphabet, Rem(v, b));
    }
  }

  lemma NoDigits(alphabet: string)
    ensures Over("", alphabet) && Decode("", alphabet) == 0
  {}

  lemma UniqueIndex(alphabet: string, i: nat)
    requires Distinct(alphabet) && i < |alphabet|
    ensures alphabet[i] in alphabet && IndexOf(alphabet, alphabet[i]) == i
  {
    var j := IndexOf(alphabet, alphabet[i]);
    assert alphabet[j] == alphabet[i];
  }

  // Two numbers have the same digits exactly when they are equal modulo that power.
  lemma {:induction false} SameDigits(v: nat, w: nat, alphabet: string, n: nat)
    requires alphabet != "" && Distinct(alphabet)
    ensures Pow(|alphabet|, n) > 0
    ensures Digits(v, alphabet, n) == Digits(w, alphabet, n) <==> v % Pow(|alphabet|, n) == w % Pow(|alphabet|, n)
  {
    PowPositive(|alphabet|, n);
    var p := Pow(|alphabet|, n);
    assert v % p == Rem(v, p) && w % p == Rem(w, p);
    hide Over, Distinct, Digits, Decode, Quot, Rem;
    DecodeDigits(v, alphabet, n);
    DecodeDigits(w, alphabet, n);
    DigitsOfRemainder(v, alphabet, n);
    DigitsOfRemainder(w, alphabet, n);
  }

  lemma {:induction false} DigitsOfRemainder(v: nat, alphabet: string, n: nat)
    requires alphabet != ""
    ensures Pow(|alphabet|, n) > 0 && Digits(Rem(v, Pow(|alphabet|, n)), alphabet, n) == Digits(v, alphabet, n)
    decreases n
  {
    hide Quot, Rem;
    var b := |alphabet|;
    PowPositive(b, n);
    if n != 0 {
      var p := Pow(b, n - 1);
      PowPositive(b, n - 1);
      RemSplit(v, b, p);
      RemainderUnique(Rem(v, b * p), b, Rem(Quot(v, b), p), Rem(v, b));
      DigitsOfRemainder(Quot(v, b), alphabet, n - 1);
    }
  }
}
