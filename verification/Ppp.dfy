// The passcode pipeline of src/libotp/ppp.c: the geometry of cards, the limits of the counter, the
// salt, and the passcode of a counter. The block cipher is any function of a key and a block.
module Ppp {
  import opened ErrorCodes
  import opened Wrappers
  import opened Machine
  import opened Num
  import opened Hex
  import opened NumText
  import Alphabet

  const ROWS_PER_CARD: nat := 10
  const MIN_LENGTH: nat := 2
  const MAX_LENGTH: nat := 16

  type Length = n: nat | MIN_LENGTH <= n <= MAX_LENGTH witness 4

  // ppp_get_codes_per_row.
  function CodesPerRow(length: Length): (n: nat)
    ensures 2 <= n <= 11
    ensures n * (length + 1) <= 35 < (n + 1) * (length + 1)
  {
    [0, 0, 11, 8, 7, 5, 5, 4, 3, 3, 3, 2, 2, 2, 2, 2, 2][length]
  }

  function CodesOnCard(length: Length): (n: nat)
    ensures 20 <= n <= 110
  {
    CodesPerRow(length) * ROWS_PER_CARD
  }

  //// The number of a passcode and its place on the cards

  // Card, row and column as the prompt names them, counted from 1, 1 and 'A'.
  datatype Place = Place(card: nat, row: nat, column: char)

  function PlaceOf(number: nat, length: Length): Place {
    var r := number % CodesOnCard(length);
    Place(1 + number / CodesOnCard(length), 1 + r / CodesPerRow(length), (r % CodesPerRow(length)) as char + 'A')
  }

  // The number of passcodes before a place; negative for a card zero.
  function NumberOf(p: Place, length: Length): int
    requires p.row >= 1 && p.column >= 'A'
  {
    (p.card - 1) * CodesOnCard(length) + (p.row - 1) * CodesPerRow(length) + (p.column as int - 'A' as int)
  }

  predicate OnCard(p: Place, length: Length) {
    p.card >= 1 && InGrid(p.row, p.column, length)
  }

  predicate InGrid(row: int, column: char, length: Length) {
    1 <= row <= ROWS_PER_CARD && 'A' <= column && column as int < 'A' as int + CodesPerRow(length)
  }

  // Numbers and places correspond one to one.
  lemma PlaceRoundTrip(number: nat, length: Length)
    ensures OnCard(PlaceOf(number, length), length) && NumberOf(PlaceOf(number, length), length) == number
  {
    hide CodesPerRow;
    InDigits(number, CodesPerRow(length));
  }

  lemma InDigits(x: nat, n: nat)
    requires 0 < n
    ensures var m := n * ROWS_PER_CARD; m > 0 && x == x / m * m + x % m / n * n + x % m % n && x % m / n < ROWS_PER_CARD
  {
    var m := n * ROWS_PER_CARD;
    var r := x % m;
    assert x == x / m * m + r;
    assert r == r / n * n + r % n;
    QuotientBound(r, n, ROWS_PER_CARD);
  }

  lemma QuotientBound(r: nat, n: nat, k: nat)
    requires 0 < n && r < n * k
    ensures r / n < k
  {
    assert r == n * (r / n) + r % n;
    if r / n >= k { ProductApart(n, k - 1, r / n); }
  }

  lemma NumberRoundTrip(p: Place, length: Length)
    requires OnCard(p, length)
    ensures NumberOf(p, length) >= 0 && PlaceOf(NumberOf(p, length), length) == p
  {
    hide CodesPerRow;
    TwoDigits(p.card - 1, p.row - 1, p.column as int - 'A' as int, CodesPerRow(length));
  }

  // The place after another: the next column, or the first column of the next row or card.
  function After(p: Place, length: Length): Place {
    if p.column as int + 1 < 'A' as int + CodesPerRow(length) then Place(p.card, p.row, (p.column as int + 1) as char)
    else if p.row < ROWS_PER_CARD then Place(p.card, p.row + 1, 'A')
    else Place(p.card + 1, 1, 'A')
  }

  // Passcodes run along the rows, from the first row of the first card on.
  lemma PlacesInOrder(number: nat, length: Length)
    ensures PlaceOf(0, length) == Place(1, 1, 'A')
    ensures PlaceOf(number + 1, length) == After(PlaceOf(number, length), length)
  {
    hide CodesPerRow, PlaceOf;
    NumberRoundTrip(Place(1, 1, 'A'), length);
    PlaceRoundTrip(number, length);
    var p := PlaceOf(number, length);
    var q := After(p, length);
    NextNumber(p, length);
    NumberRoundTrip(q, length);
  }

  lemma NextNumber(p: Place, length: Length)
    requires OnCard(p, length)
    ensures OnCard(After(p, length), length) && NumberOf(After(p, length), length) == NumberOf(p, length) + 1
  {
    hide CodesPerRow;
    NextLine(p.card, p.row, CodesPerRow(length));
  }

  lemma NextLine(card: nat, row: nat, n: nat)
    ensures row * n == (row - 1) * n + n && (ROWS_PER_CARD - 1) * n + n == n * ROWS_PER_CARD
    ensures card * (n * ROWS_PER_CARD) == (card - 1) * (n * ROWS_PER_CARD) + n * ROWS_PER_CARD
  {}

  lemma TwoDigits(card: nat, row: nat, c: nat, n: nat)
    requires row < ROWS_PER_CARD && c < n
    ensures
      var m, x := n * ROWS_PER_CARD, card * (n * ROWS_PER_CARD) + row * n + c;
      x / m == card && x % m / n == row && x % m % n == c
  {
    var m, r := n * ROWS_PER_CARD, row * n + c;
    MulBound(row, ROWS_PER_CARD - 1, n);
    RemainderUnique(card * m + row * n + c, m, card, r);
    RemainderUnique(r, n, row, c);
  }

  lemma MulBound(x: nat, y: nat, n: nat)
    requires x <= y
    ensures x * n <= y * n
  {}

  //// Limits of the counter

  const FLAG_SHOW: nat := 1
  const FLAG_DISABLED: nat := 2
  const FLAG_SALTED: nat := 4

  predicate HasFlag(flags: nat, flag: nat)
    requires flag > 0
  {
    flags / flag % 2 == 1
  }

  // flags | flag and flags & ~flag.
  function With(flags: nat, flag: nat): nat
    requires flag > 0
  {
    if HasFlag(flags, flag) then flags else flags + flag
  }

  function Without(flags: nat, flag: nat): nat
    requires flag > 0
  {
    if HasFlag(flags, flag) && flags >= flag then flags - flag else flags
  }

  // Setting and clearing one of the flags changes no other.
  lemma FlagLaws(flags: nat, f: nat, g: nat)
    requires f in {FLAG_SHOW, FLAG_DISABLED, FLAG_SALTED} && g in {FLAG_SHOW, FLAG_DISABLED, FLAG_SALTED}
    ensures HasFlag(With(flags, f), g) <==> g == f || HasFlag(flags, g)
    ensures HasFlag(Without(flags, f), g) <==> g != f && HasFlag(flags, g)
  {
    var q, r := flags / 8, flags % 8;
    LowBits(q, r, f);
    LowBits(q, r, g);
    SmallFlags(r, f, g);
    var more, less := With(r, f), Without(r, f);
    LowBits(q, more, g);
    LowBits(q, less, g);
    assert flags == 8 * q + r;
    hide HasFlag;
  }

  lemma LowBits(q: nat, r: nat, f: nat)
    requires r < 8 && f in {FLAG_SHOW, FLAG_DISABLED, FLAG_SALTED}
    ensures HasFlag(8 * q + r, f) <==> HasFlag(r, f)
  {
    RemainderUnique(8 * q + r, f, 8 / f * q + r / f, r % f);
    RemainderUnique(8 / f * q + r / f, 2, 4 / f * q + r / f / 2, r / f % 2);
  }

  lemma SmallFlags(r: nat, f: nat, g: nat)
    requires r < 8 && f in {FLAG_SHOW, FLAG_DISABLED, FLAG_SALTED} && g in {FLAG_SHOW, FLAG_DISABLED, FLAG_SALTED}
    ensures With(r, f) < 8 && Without(r, f) < 8
    ensures HasFlag(With(r, f), g) <==> g == f || HasFlag(r, g)
    ensures HasFlag(Without(r, f), g) <==> g != f && HasFlag(r, g)
  {
    assert r == 0 || r == 1 || r == 2 || r == 3 || r == 4 || r == 5 || r == 6 || r == 7;
  }

  // The passcode number in a counter.
  function Number(salted: bool, counter: nat): (n: nat)
    ensures n <= counter
  {
    if salted then counter % TWO32 else counter
  }

  function Salt(salted: bool, counter: nat): nat {
    if salted then counter - counter % TWO32 else 0
  }

  // The counter of a passcode number, which takes the salt of another counter.
  function CounterOf(salted: bool, counter: nat, number: nat): (c: nat)
    ensures counter < TWO128 && number < TWO128 ==> c < TWO128
  {
    if salted then Salt(true, counter) + number % TWO32 else number
  }

  function Largest(salted: bool): nat {
    if salted then TWO32 - 1 else 0x100_0000_0000_0000_0000_0000_0000_0000 - 1
  }

  function MaxCard(salted: bool, length: Length): nat {
    Largest(salted) / CodesOnCard(length) - 1
  }

  function MaxCode(salted: bool, length: Length): nat {
    MaxCard(salted, length) * CodesOnCard(length)
  }

  // The cards never use up the number space: a whole card is left over.
  lemma MaxCodeLeavesRoom(salted: bool, length: Length)
    ensures MaxCode(salted, length) + CodesOnCard(length) <= Largest(salted)
  {
    hide CodesOnCard;
    var m := CodesOnCard(length);
    assert Largest(salted) == (Largest(salted) / m) * m + Largest(salted) % m;
    assert (Largest(salted) / m - 1) * m + m == (Largest(salted) / m) * m;
  }

  // The condition under which ppp_verify_range accepts a counter.
  predicate InRange(salted: bool, counter: nat, length: Length) {
    counter <= MAX_COUNTER && Number(salted, counter) < MaxCode(salted, length)
  }

  const MAX_COUNTER: nat := 0xFFFF_FFFF_FFFF_FFFF_0FFF_FFFF_FFFF_FFFF

  // Adding one to a counter in range takes the next number, leaves the salt alone and stays below 2^128.
  lemma IncrementInRange(salted: bool, counter: nat, length: Length)
    requires InRange(salted, counter, length)
    ensures Number(salted, counter + 1) == Number(salted, counter) + 1
    ensures Salt(salted, counter + 1) == Salt(salted, counter)
    ensures counter + 1 < TWO128
  {
    hide MaxCode, CodesOnCard;
    MaxCodeLeavesRoom(salted, length);
  }

  //// Masks

  // The two strings from which state_init imports the masks.
  const SALT_STRING := "FFFFFFFFFFFFFFFFFFFFFFFF00000000"
  const CODE_STRING := "000000000000000000000000FFFFFFFF"

  function Repeat(c: char, n: nat): (s: string)
    ensures |s| == n && forall i | 0 <= i < n :: s[i] == c
  {
    if n == 0 then "" else Repeat(c, n - 1) + [c]
  }

  lemma {:induction false} DenotesRepeat(s: string, c: char, n: nat)
    requires IsNumeral(s, 16) && (c == '0' || c == 'F')
    ensures IsNumeral(s + Repeat(c, n), 16)
    ensures Denotes(s + Repeat(c, n), 16) == Denotes(s, 16) * Pow(16, n) + (if c == '0' then 0 else Pow(16, n) - 1)
  {
    hide IsNumeral, Denotes;
    if n == 0 {
      assert s + Repeat(c, 0) == s;
    } else {
      DenotesRepeat(s, c, n - 1);
      DenotesMore(s + Repeat(c, n - 1), c, 16);
      assert s + Repeat(c, n) == s + Repeat(c, n - 1) + [c];
      TimesSixteen(Denotes(s, 16), Pow(16, n - 1));
    }
  }

  lemma TimesSixteen(d: nat, p: nat)
    ensures d * p * 16 == d * (16 * p)
  {}

  lemma MaskStrings()
    ensures IsNumeral(SALT_STRING, 16) && Denotes(SALT_STRING, 16) == SALT_MASK.Value() && |SALT_STRING| == 32
    ensures IsNumeral(CODE_STRING, 16) && Denotes(CODE_STRING, 16) == CODE_MASK.Value() && |CODE_STRING| == 32
  {
    hide IsNumeral, Denotes, Pow, Repeat;
    NothingRead(16);
    SixteenPowers();
    DenotesRepeat("", 'F', 24);
    DenotesRepeat("", '0', 24);
    var f, z := Repeat('F', 24), Repeat('0', 24);
    assert "" + f == f && "" + z == z;
    DenotesRepeat(f, '0', 8);
    DenotesRepeat(z, 'F', 8);
    SaltString(f, Repeat('0', 8));
    CodeString(z, Repeat('F', 8));
  }

  lemma SaltString(f: string, z: string)
    requires |f| == 24 && |z| == 8 && (forall i | 0 <= i < 24 :: f[i] == 'F') && (forall i | 0 <= i < 8 :: z[i] == '0')
    ensures f + z == SALT_STRING
  {}

  lemma CodeString(z: string, f: string)
    requires |z| == 24 && |f| == 8 && (forall i | 0 <= i < 24 :: z[i] == '0') && (forall i | 0 <= i < 8 :: f[i] == 'F')
    ensures z + f == CODE_STRING
  {}

  lemma SixteenPowers()
    ensures Pow(16, 8) == TWO32 && Pow(16, 24) == TWO64 * TWO32
  {
    assert Pow(16, 4) == 0x1_0000;
    assert Pow(16, 12) == 0x1_0000_0000_0000;
    assert Pow(16, 16) == TWO64;
    assert Pow(16, 20) == TWO64 * 0x1_0000;
  }

  //// Policy

  datatype Setting = Disallow | Allow | Enforce

  // The options of the configuration that decide about states; alphabetCustom is a C string.
  datatype Config = Config(show: Setting, salt: Setting, alphabetChange: Setting, alphabetDef: nat, alphabetMin: int,
                           alphabetMax: int, alphabetCustom: string, lengthMin: int, lengthMax: int)

  function VerifyCodeLength(cfg: Config, length: int): int {
    if length < MIN_LENGTH || length > MAX_LENGTH then PPP_ERROR_RANGE
    else if length < cfg.lengthMin || length > cfg.lengthMax then PPP_ERROR_POLICY
    else 0
  }

  function AlphabetOf(cfg: Config, id: nat): string
    requires id < Alphabet.COUNT
  {
    if id == 0 then cfg.alphabetCustom else Alphabet.Builtin(id)
  }

  function VerifyAlphabet(cfg: Config, id: nat): int {
    if id >= Alphabet.COUNT then PPP_ERROR_RANGE
    else if cfg.alphabetChange == Disallow && cfg.alphabetDef != id then PPP_ERROR_POLICY
    else if |AlphabetOf(cfg, id)| < cfg.alphabetMin || |AlphabetOf(cfg, id)| > cfg.alphabetMax then PPP_ERROR_POLICY
    else 0
  }

  function VerifyFlags(cfg: Config, flags: nat): int {
    if HasFlag(flags, FLAG_SHOW) && cfg.show == Disallow then PPP_ERROR_POLICY
    else if !HasFlag(flags, FLAG_SHOW) && cfg.show == Enforce then PPP_ERROR_POLICY
    else if HasFlag(flags, FLAG_SALTED) && cfg.salt == Disallow then PPP_ERROR_POLICY
    else if !HasFlag(flags, FLAG_SALTED) && cfg.salt == Enforce then PPP_ERROR_POLICY
    else 0
  }

  // What policy permits: each flag as it is set, one of the alphabets, of a size and a code length within
  // the limits.
  predicate Permits(cfg: Config, flags: nat, alphabet: nat, length: int) {
    && (if HasFlag(flags, FLAG_SHOW) then cfg.show != Disallow else cfg.show != Enforce)
    && (if HasFlag(flags, FLAG_SALTED) then cfg.salt != Disallow else cfg.salt != Enforce)
    && alphabet < Alphabet.COUNT && (cfg.alphabetChange == Disallow ==> alphabet == cfg.alphabetDef)
    && cfg.alphabetMin <= |AlphabetOf(cfg, alphabet)| <= cfg.alphabetMax
    && MIN_LENGTH <= length <= MAX_LENGTH && cfg.lengthMin <= length <= cfg.lengthMax
  }

  lemma PolicyPermits(cfg: Config, flags: nat, alphabet: nat, length: int)
    ensures VerifyFlags(cfg, flags) == 0 && VerifyAlphabet(cfg, alphabet) == 0 && VerifyCodeLength(cfg, length) == 0
      <==> Permits(cfg, flags, alphabet, length)
  {
    hide HasFlag, AlphabetOf;
  }

  // What the configuration parser guarantees; a custom alphabet has passed _alphabet_check.
  predicate ValidConfig(cfg: Config) {
    && 5 <= cfg.alphabetMin <= 88 && 5 <= cfg.alphabetMax <= 88
    && 2 <= cfg.lengthMin <= 16 && 2 <= cfg.lengthMax <= 16
    && Alphabet.Distinct(cfg.alphabetCustom) && forall c <- cfg.alphabetCustom :: Alphabet.IsGraph(c)
  }

  lemma AcceptedAlphabet(cfg: Config, id: nat)
    requires ValidConfig(cfg) && VerifyAlphabet(cfg, id) == 0
    ensures id < Alphabet.COUNT
    ensures var a := AlphabetOf(cfg, id); a != "" && |a| <= 88 && Alphabet.Distinct(a) && '\0' !in a
  {
    hide Alphabet.Distinct, Alphabet.Builtin;
    if id != 0 { Alphabet.BuiltinDistinct(id); }
  }

  //// The passcode of a counter

  type BlockCipher = (seq<Byte>, seq<Byte>) -> seq<Byte>

  ghost predicate KeepsBlocks(encrypt: BlockCipher) {
    forall key: seq<Byte>, b: seq<Byte> | |b| == 16 :: |encrypt(key, b)| == 16
  }

  // The encrypted counter as a number.
  ghost function CipherValue(encrypt: BlockCipher, key: seq<Byte>, counter: Num): nat
    requires KeepsBlocks(encrypt)
  {
    ImportBin(encrypt(key, ExportBin(counter))).Value()
  }

  ghost function Passcode(encrypt: BlockCipher, key: seq<Byte>, counter: Num, alphabet: string,
                          length: nat): (s: string)
    requires KeepsBlocks(encrypt) && alphabet != ""
    ensures |s| == length
  {
    Alphabet.Digits(CipherValue(encrypt, key, counter), alphabet, length)
  }

  // Decoding a passcode gives the encrypted counter modulo A^L; two counters share a passcode only
  // if their encryptions agree modulo A^L.
  lemma PasscodeDecodes(encrypt: BlockCipher, key: seq<Byte>, c: Num, d: Num, cfg: Config, id: nat, length: nat)
    requires KeepsBlocks(encrypt) && ValidConfig(cfg) && VerifyAlphabet(cfg, id) == 0
    ensures id < Alphabet.COUNT && AlphabetOf(cfg, id) != ""
    ensures
      var a := AlphabetOf(cfg, id);
      var p := Pow(|a|, length);
      var s := Passcode(encrypt, key, c, a, length);
      && p > 0 && Alphabet.Over(s, a)
      && Alphabet.Decode(s, a) == CipherValue(encrypt, key, c) % p
      && (s == Passcode(encrypt, key, d, a, length) <==>
          CipherValue(encrypt, key, c) % p == CipherValue(encrypt, key, d) % p)
  {
    AcceptedAlphabet(cfg, id);
    var a := AlphabetOf(cfg, id);
    hide Alphabet.Distinct, Alphabet.Digits, Alphabet.Over, Alphabet.Decode, Pow, AlphabetOf, CipherValue,
      VerifyAlphabet, ValidConfig, KeepsBlocks;
    Alphabet.DecodeDigits(CipherValue(encrypt, key, c), a, length);
    Alphabet.SameDigits(CipherValue(encrypt, key, c), CipherValue(encrypt, key, d), a, length);
  }

  //// The state

  type HashFunction = seq<Byte> -> seq<Byte>

  ghost predicate GivesDigests(sha256: HashFunction) {
    forall b: seq<Byte> :: |sha256(b)| == 32
  }

  // The salt that a new key has from a digest.
  function SaltOf(digest: seq<Byte>): nat
    requires |digest| == 32
  {
    Salt(true, ImportBin(digest[..16]).Value())
  }

  // The flags after state_init, which assigns them only if they show passcodes by default.
  function InitialFlags(showDef: bool, saltDef: bool, memory: nat): nat {
    var shown := if showDef then FLAG_SHOW else memory;
    if saltDef then With(shown, FLAG_SALTED) else shown
  }

  // They do not depend on what the memory held exactly if passcodes are shown by default.
  lemma FlagsInitialised(showDef: bool, saltDef: bool)
    ensures (forall m, n :: InitialFlags(showDef, saltDef, m) == InitialFlags(showDef, saltDef, n)) <==> showDef
  {
    assert InitialFlags(false, saltDef, 0) != InitialFlags(false, saltDef, 1);
  }

  class State {
    var counter: Num
    var sequenceKey: seq<Byte>
    var latestCard: Num
    var codeLength: nat
    var alphabet: nat
    var flags: nat
    var saltMask: Num
    var codeMask: Num
    var currentCard: Num
    var maxCard: Num
    var maxCode: Num
    var newKey: bool
    var codesOnCard: nat
    var codesInRow: nat
    var currentRow: nat
    var currentColumn: char

    predicate Salted()
      reads `flags
    {
      HasFlag(flags, FLAG_SALTED)
    }

    // What state_init establishes, and the assertions on the code length.
    ghost predicate Valid()
      reads `saltMask, `codeMask, `codeLength
    {
      saltMask == SALT_MASK && codeMask == CODE_MASK && MIN_LENGTH <= codeLength <= MAX_LENGTH
    }

    // What ppp_calculate establishes.
    ghost predicate Calculated()
      reads this
    {
      && Valid() && codesInRow == CodesPerRow(codeLength) && codesOnCard == CodesOnCard(codeLength)
      && Place(currentCard.Value(), currentRow, currentColumn) == PlaceOf(Number(Salted(), counter.Value()), codeLength)
      && maxCard.Value() == MaxCard(Salted(), codeLength)
      && maxCode.Value() == MaxCode(Salted(), codeLength)
    }

    // The part of state_init that concerns passcodes. memory is what the flags held before.
    constructor (ar: Arithmetic, defaultLength: nat, defaultAlphabet: nat, showDef: bool, saltDef: bool, memory: nat)
      requires MIN_LENGTH <= defaultLength <= MAX_LENGTH
      modifies ar
      ensures Valid() && counter == I(0) && latestCard == I(0) && codesOnCard == 0 && !newKey
      ensures codeLength == defaultLength && alphabet == defaultAlphabet
      ensures flags == InitialFlags(showDef, saltDef, memory)
    {
      counter, latestCard, currentCard, maxCard, maxCode := I(0), I(0), I(0), I(0), I(0);
      sequenceKey := seq(32, _ => 0);
      var initial := memory;
      if showDef { initial := FLAG_SHOW; }
      if saltDef { initial := With(initial, FLAG_SALTED); }
      codeLength, alphabet, flags, newKey := defaultLength, defaultAlphabet, initial, false;
      codesOnCard, codesInRow, currentRow, currentColumn := 0, 0, 0, '\0';
      var ret, salt, code;
      ret, salt := NumSetStrHex(ar, SALT_STRING);
      MaskStrings();
      ValueInjective(salt, SALT_MASK);
      ret, code := NumSetStrHex(ar, CODE_STRING);
      ValueInjective(code, CODE_MASK);
      saltMask, codeMask := salt, code;
    }

    method Calculate(ar: Arithmetic)
      requires Valid()
      modifies `currentCard, `maxCard, `maxCode, `codesOnCard, `codesInRow, `currentRow, `currentColumn, ar
      ensures Calculated()
    {
      hide Num.Value, And, CodesPerRow;
      codesInRow := CodesPerRow(codeLength);
      codesOnCard := codesInRow * ROWS_PER_CARD;
      var unsalted := counter;
      if Salted() {
        MaskCode(counter);
        unsalted := And(unsalted, codeMask);
      }
      currentCard, currentRow, currentColumn := CurrentPlace(ar, unsalted, codesInRow);
      LargestNumbers();
      maxCard, maxCode := Limits(ar, if Salted() then codeMask else Ii(0xFF_FFFF_FFFF_FFFF, 0xFFFF_FFFF_FFFF_FFFF),
                                 codesOnCard);
    }

    // state_key_generate. The pool is what the random sources give, unless they fail. Without a salt all
    // of it goes into the key; with one, its second half becomes the salt, and the first passcode comes
    // first behind it.
    method GenerateKey(pool: Option<seq<Byte>>, sha256: HashFunction) returns (ret: int)
      requires Valid() && GivesDigests(sha256) && (pool.Some? ==> |pool.value| == 1024)
      modifies `counter, `latestCard, `flags, `sequenceKey, `newKey
      ensures ret == 0 <==> pool.Some?
      ensures ret != 0 ==>
        && counter == old(counter) && sequenceKey == old(sequenceKey) && latestCard == old(latestCard)
        && newKey == old(newKey) && flags == old(flags)
      ensures ret == 0 ==> newKey && latestCard == I(0) && Number(Salted(), counter.Value()) == 0
      ensures ret == 0 ==> sequenceKey == sha256(if Salted() then pool.value[..512] else pool.value)
      ensures ret == 0 && !Salted() ==> counter == I(0)
      ensures ret == 0 && Salted() ==> counter.Value() == SaltOf(sha256(pool.value[512..]))
      ensures Salted() == old(Salted())
    {
      if pool.None? { return 1; }
      if !Salted() {
        sequenceKey := sha256(pool.value);
        counter := I(0);
        latestCard := I(0);
        flags := Without(flags, FLAG_SALTED);
      } else {
        sequenceKey := sha256(pool.value[..512]);
        var cntBin := sha256(pool.value[512..]);
        counter := ImportBin(cntBin[..16]);
        MaskSalt(counter);
        FreshNumber(counter.Value());
        counter := And(counter, saltMask);
        latestCard := I(0);
        flags := With(flags, FLAG_SALTED);
      }
      newKey := true;
      return 0;
    }

    // ppp_verify_range.
    function VerifyRange(): (ret: int)
      requires Calculated()
      reads this
      ensures ret == 0 <==> InRange(Salted(), counter.Value(), codeLength)
      ensures counter.Value() > MAX_COUNTER ==> ret == STATE_PARSE_ERROR
      ensures counter.Value() <= MAX_COUNTER && ret != 0 ==> ret == STATE_NUMSPACE
    {
      MaskCode(counter);
      if Cmp(counter, Ii(0xFFFF_FFFF_FFFF_FFFF, 0x0FFF_FFFF_FFFF_FFFF)) > 0 then STATE_PARSE_ERROR
      else
        var justCounter := if Salted() then And(counter, codeMask) else counter;
        if Cmp(justCounter, maxCode) >= 0 then STATE_NUMSPACE else 0
    }

    // ppp_state_verify.
    function Verify(cfg: Config): (ret: int)
      requires Calculated()
      reads this
      ensures ret == 0 || ret == PPP_ERROR_POLICY
      ensures ret == 0 <==>
        && VerifyFlags(cfg, flags) == 0 && VerifyAlphabet(cfg, alphabet) == 0 && VerifyCodeLength(cfg, codeLength) == 0
        && InRange(Salted(), counter.Value(), codeLength)
    {
      if VerifyFlags(cfg, flags) != 0 then PPP_ERROR_POLICY
      else if VerifyAlphabet(cfg, alphabet) != 0 then PPP_ERROR_POLICY
      else if VerifyCodeLength(cfg, codeLength) != 0 then PPP_ERROR_POLICY
      else if VerifyRange() != 0 then PPP_ERROR_POLICY
      else 0
    }

    // The counter that ppp_add_salt makes of a passcode number.
    ghost function SaltedCounter(number: nat): (c: nat)
      requires number < TWO128
      reads `flags, `counter
      ensures c < TWO128
    {
      CounterOf(Salted(), counter.Value(), number)
    }

    method AddSalt(ar: Arithmetic, passcode: Num) returns (r: Num)
      requires Valid()
      modifies ar
      ensures r.Value() == SaltedCounter(passcode.Value())
    {
      hide Num.Value, And;
      r := passcode;
      if Salted() {
        MaskSalt(counter);
        MaskCode(passcode);
        r := And(passcode, codeMask);
        r := ar.Add(r, And(counter, saltMask));
      }
    }

    // ppp_skip, between loading and storing. The counter is overwritten before the salt is taken from it,
    // so that a counter with a salt loses it; the target may also lie before the counter.
    method Skip(ar: Arithmetic, cfg: Config, skipTo: Num) returns (ret: int)
      requires Calculated()
      modifies `counter, ar
      ensures ret == 0 <==>
        && old(Verify(cfg)) == 0 && !HasFlag(flags, FLAG_DISABLED)
        && skipTo.Value() < MaxCode(Salted(), codeLength)
      ensures ret != 0 ==> counter == old(counter)
      ensures ret == 0 ==>
        && Number(Salted(), counter.Value()) == skipTo.Value() && Salt(Salted(), counter.Value()) == 0
    {
      hide Num.Value, MaxCode, CodesOnCard, PlaceOf, CodesPerRow, HasFlag;
      ret := Verify(cfg);
      if ret != 0 { return; }
      if HasFlag(flags, FLAG_DISABLED) { return PPP_ERROR_DISABLED; }
      if Cmp(skipTo, maxCode) >= 0 { return PPP_ERROR_RANGE; }
      MaxCodeLeavesRoom(Salted(), codeLength);
      SmallCounter(skipTo.Value());
      counter := skipTo;
      counter := AddSalt(ar, counter);
      return 0;
    }

    // ppp_get_passcode. The alphabet is checked after encryption; when policy refuses it the code of
    // the encryption, zero, is returned and the buffer stays as it was.
    method GetPasscode(ar: Arithmetic, cfg: Config, encrypt: BlockCipher, number: Num,
                       passcode: array<char>) returns (ret: int)
      requires Valid() && ValidConfig(cfg) && KeepsBlocks(encrypt) && passcode.Length > codeLength
      modifies ar, passcode
      ensures ret == 0
      ensures VerifyAlphabet(cfg, alphabet) != 0 ==> passcode[..] == old(passcode[..])
      ensures VerifyAlphabet(cfg, alphabet) == 0 ==> AlphabetOf(cfg, alphabet) != "" && passcode[codeLength] == '\0'
      ensures VerifyAlphabet(cfg, alphabet) == 0 ==>
        passcode[..codeLength] == Passcode(encrypt, sequenceKey, OfValue(SaltedCounter(number.Value())),
                                           AlphabetOf(cfg, alphabet), codeLength)
    {
      hide Num.Value, ValidConfig, VerifyAlphabet, KeepsBlocks, ExportBin, ImportBin;
      var salted := AddSalt(ar, number);
      OnlyNumber(salted);
      var cntBin := ExportBin(salted);
      CipherBlock(encrypt, sequenceKey, cntBin);
      var cipherBin := encrypt(sequenceKey, cntBin);
      var cipher := ImportBin(cipherBin);
      if VerifyAlphabet(cfg, alphabet) != 0 { return 0; }
      AcceptedAlphabet(cfg, alphabet);
      WriteDigits(cipher, AlphabetOf(cfg, alphabet), codeLength, passcode);
      return 0;
    }

    // ppp_authenticate.
    method Authenticate(ar: Arithmetic, cfg: Config, encrypt: BlockCipher, passcode: string) returns (ret: int)
      requires Calculated() && ValidConfig(cfg) && KeepsBlocks(encrypt) && '\0' !in passcode
      modifies ar
      ensures ret == 0 ==> VerifyAlphabet(cfg, alphabet) == 0 && AlphabetOf(cfg, alphabet) != ""
      ensures ret == 0 <==>
        && !HasFlag(flags, FLAG_DISABLED) && Verify(cfg) == 0
        && passcode == Passcode(encrypt, sequenceKey, counter, AlphabetOf(cfg, alphabet), codeLength)
    {
      hide Num.Value, ValidConfig, VerifyAlphabet, KeepsBlocks, Alphabet.Digits, AlphabetOf, CipherValue, HasFlag,
        OfValue, Alphabet.Distinct;
      if HasFlag(flags, FLAG_DISABLED) { return PPP_ERROR_DISABLED; }
      ret := Verify(cfg);
      if ret != 0 { return; }
      var current := new char[17];
      ret := GetPasscode(ar, cfg, encrypt, counter, current);
      SaltTwice(counter.Value());
      OnlyNumber(counter);
      AcceptedAlphabet(cfg, alphabet);
      ghost var p := Passcode(encrypt, sequenceKey, counter, AlphabetOf(cfg, alphabet), codeLength);
      DigitsIn(CipherValue(encrypt, sequenceKey, counter), AlphabetOf(cfg, alphabet), codeLength);
      var s := StrCpy(current, 0, p);
      if passcode != s { return 3; }
      return 0;
    }
  }

  // After a skip, which leaves no salt, a passcode number keeps its counter, and with it its passcode, exactly
  // if there was none before.
  lemma SkipKeepsCards(salted: bool, before: nat, after: nat)
    requires Salt(salted, after) == 0 && before < TWO128
    ensures (forall n | 0 <= n < TWO128 :: CounterOf(salted, after, n) == CounterOf(salted, before, n)) <==>
      Salt(salted, before) == 0
  {
    assert CounterOf(salted, before, 0) == Salt(salted, before) && CounterOf(salted, after, 0) == 0;
  }

  lemma SmallCounter(c: nat)
    ensures c < TWO32 ==> c % TWO32 == c && Salt(true, c) == 0
  {}

  lemma FreshNumber(c: nat)
    ensures (c - c % TWO32) % TWO32 == 0
  {}

  // A new key is in range for every code length unless its salt lies above the largest counter that
  // ppp_verify_range admits.
  lemma FreshKeyInRange(salted: bool, counter: nat, length: Length)
    requires Number(salted, counter) == 0
    ensures InRange(salted, counter, length) <==> counter <= MAX_COUNTER
  {
    hide CodesOnCard;
    var m := CodesOnCard(length);
    LargestOfTwoCards(Largest(salted), m);
    MulAtLeast(MaxCard(salted, length), m);
  }

  // Such a salt: a digest of ones gives a new key that ppp_verify_range refuses for every code length.
  lemma HighSaltRefused(digest: seq<Byte>, length: Length)
    requires |digest| == 32 && forall i | 0 <= i < 32 :: digest[i] == 0xFF
    ensures SaltOf(digest) == 0xFFFF_FFFF_FFFF_FFFF_FFFF_FFFF_0000_0000
    ensures Number(true, SaltOf(digest)) == 0 && !InRange(true, SaltOf(digest), length)
  {
    hide CodesOnCard;
    var b := digest[..16];
    ImportBinValue(b);
    OnesValue(b);
    ByteBounds();
  }

  lemma {:induction false} OnesValue(b: seq<Byte>)
    requires forall i | 0 <= i < |b| :: b[i] == 0xFF
    ensures LittleValue(b) == Pow(256, |b|) - 1
  {
    if b != [] { OnesValue(b[1..]); }
  }

  lemma LargestOfTwoCards(n: nat, m: nat)
    requires 20 <= m <= 110 && n >= 1000
    ensures n / m - 1 >= 1
  {
    var q := n / m;
    assert n == m * q + n % m;
    assert q <= 1 ==> m * q <= m;
  }

  lemma OnlyNumber(n: Num)
    ensures OfValue(n.Value()) == n
  {
    ValueInjective(OfValue(n.Value()), n);
  }

  lemma CipherBlock(encrypt: BlockCipher, key: seq<Byte>, b: seq<Byte>)
    requires KeepsBlocks(encrypt) && |b| == 16
    ensures |encrypt(key, b)| == 16
  {}

  // The loop of ppp_get_passcode.
  method WriteDigits(cipher0: Num, alphabet: string, codeLength: nat, passcode: array<char>)
    requires 1 <= |alphabet| <= 88 && passcode.Length > codeLength
    modifies passcode
    ensures passcode[..codeLength] == Alphabet.Digits(cipher0.Value(), alphabet, codeLength)
    ensures passcode[codeLength] == '\0'
  {
    hide Num.Value, Quot, Rem;
    var cipher := cipher0;
    ghost var all := Alphabet.Digits(cipher0.Value(), alphabet, codeLength);
    var i := 0;
    while i < codeLength
      invariant 0 <= i <= codeLength
      invariant all == passcode[..i] + Alphabet.Digits(cipher.Value(), alphabet, codeLength - i)
    {
      ghost var v, written := cipher.Value(), passcode[..i];
      var alphabetLen := |alphabet|;
      var r;
      cipher, r := DivI(cipher, alphabetLen);
      QuotRemOf(v, alphabetLen);
      passcode[i] := alphabet[r];
      i := i + 1;
      assert passcode[..i] == written + [alphabet[r]];
    }
    passcode[i] := '\0';
  }

  lemma QuotRemOf(v: nat, d: nat)
    requires 0 < d
    ensures Quot(v, d) == v / d && Rem(v, d) == v % d
  {}

  // The counter of a state is salted already.
  lemma SaltTwice(c: nat)
    ensures Salt(true, c) + c % TWO32 == c
  {}

  lemma {:induction false} DigitsIn(v: nat, alphabet: string, n: nat)
    requires alphabet != ""
    ensures forall c <- Alphabet.Digits(v, alphabet, n) :: c in alphabet
    decreases n
  {
    if n != 0 { DigitsIn(Quot(v, |alphabet|), alphabet, n - 1); }
  }

  // The part of ppp_calculate that finds the current card, row and column.
  method CurrentPlace(ar: Arithmetic, unsalted: Num, codesInRow: nat) returns (card: Num, row: nat, column: char)
    requires 2 <= codesInRow <= 11
    modifies ar
    ensures
      var u, m := unsalted.Value(), codesInRow * ROWS_PER_CARD;
      && card.Value() == 1 + u / m && row == 1 + u % m / codesInRow
      && column == (u % m % codesInRow) as char + 'A'
  {
    hide Num.Value;
    var columns := "ABCDEFGHIJKL";
    var r;
    card, r := DivI(unsalted, codesInRow * ROWS_PER_CARD);
    SmallQuotient(unsalted.Value(), codesInRow * ROWS_PER_CARD);
    LargestNumbers();
    card := ar.Add(card, I(1));
    var c := r % codesInRow;
    RowOf(r, codesInRow);
    r := r - c;
    row := 1 + r / codesInRow;
    column := columns[c];
  }

  // The part of ppp_calculate that finds the last card and the last passcode.
  method Limits(ar: Arithmetic, largest: Num, codesOnCard: nat) returns (maxCard: Num, maxCode: Num)
    requires 20 <= codesOnCard <= 110 <= largest.Value()
    modifies ar
    ensures maxCard.Value() == largest.Value() / codesOnCard - 1
    ensures maxCode.Value() == (largest.Value() / codesOnCard - 1) * codesOnCard
  {
    hide Num.Value, Mod128;
    var rest;
    maxCard, rest := DivI(largest, codesOnCard);
    ghost var q := maxCard.Value();
    LargestNumbers();
    WholeCards(largest.Value(), codesOnCard, q);
    maxCard := ar.Sub(maxCard, I(1));
    maxCode := ar.MulI(maxCard, codesOnCard);
    DoubleModulo((q - 1) * codesOnCard);
  }

  lemma WholeCards(v: nat, d: nat, q: nat)
    requires 20 <= d <= v < TWO128 && q == v / d
    ensures q >= 1 && (q - 1) * d < TWO128
  {
    assert v == d * q + v % d;
    assert (q - 1) * d == d * q - d;
  }

  lemma LargestNumbers()
    ensures CODE_MASK.Value() == Largest(true)
    ensures Ii(0xFF_FFFF_FFFF_FFFF, 0xFFFF_FFFF_FFFF_FFFF).Value() == Largest(false)
    ensures I(1).Value() == 1
  {}

  lemma SmallQuotient(v: nat, d: nat)
    requires v < TWO128 && d >= 2
    ensures v / d + 1 < TWO128
  {}

  // The source subtracts the column before it divides.
  lemma RowOf(r: nat, n: nat)
    requires 0 < n
    ensures r % n <= r && (r - r % n) / n == r / n
  {
    RemainderUnique(r - r % n, n, r / n, 0);
  }
}
