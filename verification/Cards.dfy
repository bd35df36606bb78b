// Passcards: which passcode card_ascii prints in which cell (src/utility/cards.c), and the number
// that a cell stands for (src/utility/actions_helpers.c).
module Cards {
  import opened Sequences
  import opened Hex
  import opened Machine
  import opened Num
  import opened NumText
  import opened Ppp

  //// The text of a card, line by line

  function Width(length: Length): nat {
    (1 + length) * CodesPerRow(length) + 3
  }

  // Where piece n begins in a text of pieces of the same size.
  function Offset(n: nat, size: nat): nat {
    n * size
  }

  lemma OffsetStep(n: nat, size: nat)
    ensures Offset(0, size) == 0 && Offset(n + 1, size) == Offset(n, size) + size
  {}

  lemma OffsetOrder(m: nat, n: nat, size: nat)
    requires m < n
    ensures Offset(m, size) + size <= Offset(n, size)
  {
    OffsetStep(m, size);
    MulBound(m + 1, n, size);
  }

  function Spaces(n: nat): (s: string)
    ensures |s| == n
  {
    seq(n, _ => ' ')
  }

  // The label on the left, the number in brackets on the right.
  function Header(title: string, num: string, width: nat): (s: string)
    requires |title| + |num| + 2 <= width
    ensures |s| == width + 1
  {
    title + Spaces(width - |num| - 2 - |title|) + "[" + num + "]\n"
  }

  // The letters of the first n columns, each with the space below which its passcode goes.
  function Letters(n: nat, length: nat): (s: string)
    requires n <= 16
    ensures |s| == 4 + Offset(n, length + 1)
  {
    if n == 0 then Spaces(4) else Letters(n - 1, length) + ['A' + (n - 1) as char] + Spaces(length)
  }

  function ColumnsLine(length: Length): (s: string)
    ensures |s| == Width(length) + 1
  {
    Letters(CodesPerRow(length), length)[..Width(length)] + "\n"
  }

  // "%2d: " of a row number.
  function RowLabel(i: nat): (s: string)
    ensures |s| == 4
  {
    if i < 10 then [' ', (i as char) + '0', ':', ' '] else ['1', '0', ':', ' ']
  }

  // The passcodes of a card, in the order of their numbers.
  predicate CardCodes(codes: seq<string>, length: Length) {
    |codes| == CodesOnCard(length) && forall i | 0 <= i < |codes| :: |codes[i]| == length
  }

  // The label of row i and its first y passcodes, each with the space or line end after it.
  function Row(i: nat, y: nat, codes: seq<string>, length: Length): (s: string)
    requires i < ROWS_PER_CARD && y <= CodesPerRow(length) && CardCodes(codes, length)
    ensures |s| == 4 + Offset(y, length + 1)
  {
    if y == 0 then RowLabel(i + 1)
    else
      CellIndex(i, y - 1, CodesPerRow(length));
      Row(i, y - 1, codes, length) + codes[Offset(i, CodesPerRow(length)) + (y - 1)]
      + (if y == CodesPerRow(length) then "\n" else " ")
  }

  lemma CellIndex(i: nat, y: nat, n: nat)
    requires i < ROWS_PER_CARD && y < n
    ensures Offset(i, n) + y < n * ROWS_PER_CARD
  {}

  function Rows(i: nat, codes: seq<string>, length: Length): (s: string)
    requires i <= ROWS_PER_CARD && CardCodes(codes, length)
    ensures |s| == Offset(i, Width(length) + 1)
  {
    if i == 0 then "" else Rows(i - 1, codes, length) + Row(i - 1, CodesPerRow(length), codes, length)
  }

  function CardText(title: string, num: string, codes: seq<string>, length: Length): (s: string)
    requires |title| + |num| + 2 <= Width(length)
    requires CardCodes(codes, length)
    ensures |s| == Offset(12, Width(length) + 1)
  {
    Header(title, num, Width(length)) + ColumnsLine(length) + Rows(ROWS_PER_CARD, codes, length)
  }

  // Where the cell of a row and a column, both from 0, begins in the text.
  function CellPosition(k: nat, y: nat, length: Length): nat {
    Offset(k + 2, Width(length) + 1) + 4 + Offset(y, length + 1)
  }

  lemma {:induction false} RowCell(i: nat, y: nat, k: nat, codes: seq<string>, length: Length)
    requires i < ROWS_PER_CARD && k < y <= CodesPerRow(length) && CardCodes(codes, length)
    ensures 4 + Offset(k, length + 1) + length <= 4 + Offset(y, length + 1)
    ensures Offset(i, CodesPerRow(length)) + k < |codes|
    ensures Row(i, y, codes, length)[4 + Offset(k, length + 1)..4 + Offset(k, length + 1) + length]
         == codes[Offset(i, CodesPerRow(length)) + k]
  {
    CellIndex(i, k, CodesPerRow(length));
    CellIndex(i, y - 1, CodesPerRow(length));
    RowStep(i, y, codes, length);
    OneCode(codes, length, Offset(i, CodesPerRow(length)) + (y - 1));
    hide CodesPerRow, CodesOnCard, Offset, Row, CardCodes;
    var p, front, row := 4 + Offset(k, length + 1), Row(i, y - 1, codes, length), Row(i, y, codes, length);
    var cell, end := codes[Offset(i, CodesPerRow(length)) + (y - 1)], if y == CodesPerRow(length) then "\n" else " ";
    OffsetOrder(k, y, length + 1);
    if k < y - 1 {
      RowCell(i, y - 1, k, codes, length);
      SliceOfFront(row, front, cell, end, p, p + length);
    } else {
      SliceOfMiddle(row, front, cell, end, p, p + length);
    }
  }

  lemma OneCode(codes: seq<string>, length: Length, j: nat)
    requires CardCodes(codes, length) && j < CodesOnCard(length)
    ensures |codes| == CodesOnCard(length) && |codes[j]| == length
  {}

  lemma SliceOfFront<T>(s: seq<T>, a: seq<T>, b: seq<T>, c: seq<T>, i: nat, j: nat)
    requires i <= j <= |a| && s == a + b + c
    ensures j <= |s| && s[i..j] == a[i..j]
  {}

  lemma SliceOfMiddle<T>(s: seq<T>, a: seq<T>, b: seq<T>, c: seq<T>, i: nat, j: nat)
    requires s == a + b + c && i == |a| && j == |a| + |b|
    ensures j <= |s| && s[i..j] == b
  {}

  lemma {:induction false} RowsRow(i: nat, k: nat, codes: seq<string>, length: Length)
    requires k < i <= ROWS_PER_CARD && CardCodes(codes, length)
    ensures Offset(k, Width(length) + 1) + Width(length) + 1 <= Offset(i, Width(length) + 1)
    ensures Rows(i, codes, length)[Offset(k, Width(length) + 1)..Offset(k, Width(length) + 1) + Width(length) + 1]
         == Row(k, CodesPerRow(length), codes, length)
  {
    hide CodesPerRow, CodesOnCard, Width, Row, Offset;
    var w, p := Width(length) + 1, Offset(k, Width(length) + 1);
    OffsetOrder(k, i, w);
    OffsetStep(i - 1, w);
    RowWidth(length);
    var front, row := Rows(i - 1, codes, length), Row(i - 1, CodesPerRow(length), codes, length);
    assert Rows(i, codes, length) == front + row;
    if k < i - 1 {
      RowsRow(i - 1, k, codes, length);
      OffsetOrder(k, i - 1, w);
      assert front + row == front + row + "";
      SliceOfFront(front + row, front, row, "", p, p + w);
    }
  }

  // The cell of a row and column holds the passcode with that row and column.
  lemma CellHolds(title: string, num: string, codes: seq<string>, length: Length, k: nat, y: nat)
    requires |title| + |num| + 2 <= Width(length) && CardCodes(codes, length)
    requires k < ROWS_PER_CARD && y < CodesPerRow(length)
    ensures Offset(k, CodesPerRow(length)) + y < |codes|
    ensures CellPosition(k, y, length) + length <= |CardText(title, num, codes, length)|
    ensures
      var p := CellPosition(k, y, length);
      CardText(title, num, codes, length)[p..p + length] == codes[Offset(k, CodesPerRow(length)) + y]
  {
    hide CodesPerRow, CodesOnCard, Width, CardText, Header, ColumnsLine, CardCodes, Rows, Offset, CellPosition;
    CellInRows(k, y, codes, length);
    CellBelowHead(k, y, length);
    var head, rows := Header(title, num, Width(length)) + ColumnsLine(length), Rows(ROWS_PER_CARD, codes, length);
    TextParts(title, num, codes, length);
    var p := Offset(k, Width(length) + 1) + 4 + Offset(y, length + 1);
    SliceOfBack(head, rows, p, p + length);
  }

  lemma TextParts(title: string, num: string, codes: seq<string>, length: Length)
    requires |title| + |num| + 2 <= Width(length) && CardCodes(codes, length)
    ensures CardText(title, num, codes, length)
         == Header(title, num, Width(length)) + ColumnsLine(length) + Rows(ROWS_PER_CARD, codes, length)
  {}

  lemma CellBelowHead(k: nat, y: nat, length: Length)
    ensures CellPosition(k, y, length)
         == 2 * (Width(length) + 1) + (Offset(k, Width(length) + 1) + 4 + Offset(y, length + 1))
  {
    hide Width, Offset;
    OffsetStep(k, Width(length) + 1);
    OffsetStep(k + 1, Width(length) + 1);
  }

  lemma CellInRows(k: nat, y: nat, codes: seq<string>, length: Length)
    requires k < ROWS_PER_CARD && y < CodesPerRow(length) && CardCodes(codes, length)
    ensures Offset(k, CodesPerRow(length)) + y < |codes|
    ensures
      var p := Offset(k, Width(length) + 1) + 4 + Offset(y, length + 1);
      var rows := Rows(ROWS_PER_CARD, codes, length);
      p + length <= |rows| && rows[p..p + length] == codes[Offset(k, CodesPerRow(length)) + y]
  {
    hide CodesPerRow, CodesOnCard, Width, Row, Rows, Offset;
    var w, q := Width(length) + 1, 4 + Offset(y, length + 1);
    RowCell(k, CodesPerRow(length), y, codes, length);
    RowsRow(ROWS_PER_CARD, k, codes, length);
    RowWidth(length);
    SliceOfSlice(Rows(ROWS_PER_CARD, codes, length), Offset(k, w), w, q, q + length);
  }

  lemma RowWidth(length: Length)
    ensures 4 + Offset(CodesPerRow(length), length + 1) == Width(length) + 1
  {}

  lemma SliceOfBack<T>(a: seq<T>, b: seq<T>, i: nat, j: nat)
    requires i <= j <= |b|
    ensures (a + b)[|a| + i..|a| + j] == b[i..j]
  {}

  //// What a reader finds a cell by

  // A number, right-aligned in two places.
  function TwoPlaces(v: nat): (s: string)
    requires v < 100
    ensures |s| == 2
  {
    ShortNumeral(v);
    Spaces(2 - |Numeral(v, 10)|) + Numeral(v, 10)
  }

  lemma ShortNumeral(v: nat)
    requires v < 100
    ensures |Numeral(v, 10)| <= 2
  {
    hide Numeral;
    assert Pow(10, 2) == 10 * Pow(10, 1) && Pow(10, 1) == 10 * Pow(10, 0);
    NumeralLength(v, 10, 2);
  }

  // In the text of a card, the line of row k begins with the number of the row, from 1, and a colon;
  // in the line of the columns the letter of column y stands above where its passcodes begin.
  lemma LabelsHold(title: string, num: string, codes: seq<string>, length: Length, k: nat, y: nat)
    requires |title| + |num| + 2 <= Width(length) && CardCodes(codes, length)
    requires k < ROWS_PER_CARD && y < CodesPerRow(length)
    ensures Offset(k + 2, Width(length) + 1) + 4 <= CellPosition(k, y, length) < |CardText(title, num, codes, length)|
    ensures
      var p := Offset(k + 2, Width(length) + 1);
      CardText(title, num, codes, length)[p..p + 4] == TwoPlaces(k + 1) + ": "
    ensures
      var p := Offset(1, Width(length) + 1) + (CellPosition(k, y, length) - Offset(k + 2, Width(length) + 1));
      p < |CardText(title, num, codes, length)| && CardText(title, num, codes, length)[p] == 'A' + y as char
  {
    hide CodesPerRow, CodesOnCard, Width, CardText, Header, ColumnsLine, CardCodes, Rows, Row, RowLabel, Offset,
      Letters, TwoPlaces, CellPosition;
    var w, n := Width(length) + 1, CodesPerRow(length);
    TextParts(title, num, codes, length);
    CellHolds(title, num, codes, length, k, y);
    CellBelowHead(k, y, length);
    CellBelowHead(k, 0, length);
    OffsetStep(0, w);
    LabelStart(k, y, length);
    var header, columns := Header(title, num, Width(length)), ColumnsLine(length);
    var rows := Rows(ROWS_PER_CARD, codes, length);
    var p := Offset(k, w);
    RowsRow(ROWS_PER_CARD, k, codes, length);
    RowBegins(k, n, codes, length);
    RowWidth(length);
    LabelNumber(k + 1);
    SliceOfSlice(rows, p, w, 0, 4);
    SliceOfBack(header + columns, rows, p, p + 4);
    LetterAt(y, length);
    var q := 4 + Offset(y, length + 1);
    assert (header + columns + rows)[|header| + q] == columns[q];
  }

  // A space stands behind each passcode but the last of a row, a line end behind that and behind the letters.
  lemma LinesEnd(title: string, num: string, codes: seq<string>, length: Length, k: nat, y: nat)
    requires |title| + |num| + 2 <= Width(length) && CardCodes(codes, length)
    requires k < ROWS_PER_CARD && y < CodesPerRow(length)
    ensures
      var text, p := CardText(title, num, codes, length), CellPosition(k, y, length) + length;
      && p < |text| && text[p] == (if y + 1 == CodesPerRow(length) then '\n' else ' ')
      && (y + 1 == CodesPerRow(length) ==> p + 1 == Offset(k + 3, Width(length) + 1))
      && text[Offset(2, Width(length) + 1) - 1] == '\n'
  {
    hide CodesPerRow, CodesOnCard, Width, CardText, Header, CardCodes, Rows, Row, Offset, Letters, CellPosition;
    var w, n := Width(length) + 1, CodesPerRow(length);
    TextParts(title, num, codes, length);
    LabelStart(k, y, length);
    OffsetStep(k, w);
    OffsetStep(k + 2, w);
    OffsetStep(0, w);
    OffsetStep(1, w);
    RowWidth(length);
    OffsetStep(y, length + 1);
    var header, columns := Header(title, num, Width(length)), ColumnsLine(length);
    var rows := Rows(ROWS_PER_CARD, codes, length);
    RowsRow(ROWS_PER_CARD, k, codes, length);
    CellEnds(k, n, y, codes, length);
    var p := Offset(k, w) + 4 + Offset(y, length + 1) + length;
    if y + 1 < n { OffsetOrder(y + 1, n, length + 1); }
    assert rows[Offset(k, w)..Offset(k, w) + w][p - Offset(k, w)] == rows[p];
    assert (header + columns + rows)[2 * w + p] == rows[p];
    assert (header + columns + rows)[w + w - 1] == columns[w - 1];
  }

  lemma {:induction false} CellEnds(i: nat, y: nat, k: nat, codes: seq<string>, length: Length)
    requires i < ROWS_PER_CARD && k < y <= CodesPerRow(length) && CardCodes(codes, length)
    ensures 4 + Offset(k, length + 1) + length < 4 + Offset(y, length + 1)
    ensures Row(i, y, codes, length)[4 + Offset(k, length + 1) + length]
         == if k + 1 == CodesPerRow(length) then '\n' else ' '
  {
    CellIndex(i, y - 1, CodesPerRow(length));
    OneCode(codes, length, Offset(i, CodesPerRow(length)) + (y - 1));
    hide CodesPerRow, CodesOnCard, Offset;
    RowStep(i, y, codes, length);
    hide Row, CardCodes;
    OffsetStep(k, length + 1);
    if k < y - 1 {
      OffsetOrder(k, y - 1, length + 1);
      OffsetStep(y - 1, length + 1);
      CellEnds(i, y - 1, k, codes, length);
    }
  }

  lemma LabelStart(k: nat, y: nat, length: Length)
    ensures CellPosition(k, y, length) == Offset(k + 2, Width(length) + 1) + 4 + Offset(y, length + 1)
    ensures Offset(k + 2, Width(length) + 1) == 2 * (Width(length) + 1) + Offset(k, Width(length) + 1)
  {
    hide Width, Offset;
    OffsetStep(k, Width(length) + 1);
    OffsetStep(k + 1, Width(length) + 1);
  }

  lemma LabelNumber(i: nat)
    requires 1 <= i <= 10
    ensures RowLabel(i) == TwoPlaces(i) + ": "
  {
    ShortNumeral(i);
    LastDigit(i, 10);
    LastDigit(1, 10);
    if i == 10 {
      assert Numeral(1, 10) == [DigitChar(1)] == "1";
      assert Numeral(10, 10) == Numeral(1, 10) + [DigitChar(0)] == "10";
    } else {
      assert Numeral(i, 10) == [DigitChar(i)];
    }
  }

  lemma {:induction false} RowBegins(i: nat, y: nat, codes: seq<string>, length: Length)
    requires i < ROWS_PER_CARD && y <= CodesPerRow(length) && CardCodes(codes, length)
    ensures Row(i, y, codes, length)[..4] == RowLabel(i + 1)
  {
    if y > 0 {
      CellIndex(i, y - 1, CodesPerRow(length));
      OneCode(codes, length, Offset(i, CodesPerRow(length)) + (y - 1));
      hide CodesPerRow, CodesOnCard, Offset, RowLabel;
      RowStep(i, y, codes, length);
      RowBegins(i, y - 1, codes, length);
    }
  }

  lemma LetterAt(y: nat, length: Length)
    requires y < CodesPerRow(length)
    ensures 4 + Offset(y, length + 1) < Width(length)
    ensures ColumnsLine(length)[4 + Offset(y, length + 1)] == 'A' + y as char
  {
    LetterIn(CodesPerRow(length), y, length);
    RowWidth(length);
    hide Letters, Width, Offset;
    OffsetOrder(y, CodesPerRow(length), length + 1);
  }

  lemma {:induction false} LetterIn(n: nat, y: nat, length: nat)
    requires y < n <= 16
    ensures 4 + Offset(y, length + 1) < |Letters(n, length)|
    ensures Letters(n, length)[4 + Offset(y, length + 1)] == 'A' + y as char
  {
    hide Offset;
    OffsetOrder(y, n, length + 1);
    if y < n - 1 {
      OffsetOrder(y, n - 1, length + 1);
      LetterIn(n - 1, y, length);
    }
  }

  // The first line: the title on the left, the number in brackets on the right, spaces between them.
  lemma HeaderHolds(title: string, num: string, codes: seq<string>, length: Length)
    requires |title| + |num| + 2 <= Width(length) && CardCodes(codes, length)
    ensures
      var w, text := Width(length), CardText(title, num, codes, length);
      && w + 1 <= |text| && title <= text && text[w - 2 - |num|..w + 1] == "[" + num + "]\n"
      && forall p | |title| <= p < w - 2 - |num| :: text[p] == ' '
  {
    hide Width, ColumnsLine, CardCodes, Rows, Offset;
    TextParts(title, num, codes, length);
    var w, text := Width(length), CardText(title, num, codes, length);
    var header := Header(title, num, w);
    assert text[..w + 1] == header;
    assert text[w - 2 - |num|..w + 1] == header[w - 2 - |num|..] == "[" + num + "]\n";
  }

  //// The passcode the agent gives for a number

  // Its text in a cell; when policy refuses the alphabet the reply is an empty string, and the cell
  // is filled with terminators.
  ghost function CodeText(s: State, cfg: Config, encrypt: BlockCipher, number: nat): (t: string)
    requires s.Valid() && ValidConfig(cfg) && KeepsBlocks(encrypt) && number < TWO128
    reads s
    ensures |t| == s.codeLength
  {
    if VerifyAlphabet(cfg, s.alphabet) != 0 then Repeat('\0', s.codeLength) else
      AcceptedAlphabet(cfg, s.alphabet);
      Passcode(encrypt, s.sequenceKey, OfValue(s.SaltedCounter(number)), AlphabetOf(cfg, s.alphabet), s.codeLength)
  }

  // AGENT_REQ_GET_PASSCODE and agent_get_passcode: the passcode passes through a zeroed buffer, and
  // sixteen characters of it are copied.
  method AgentGetPasscode(s: State, ar: Arithmetic, cfg: Config, encrypt: BlockCipher,
                          number: Num) returns (reply: array<char>)
    requires s.Valid() && ValidConfig(cfg) && KeepsBlocks(encrypt)
    modifies ar
    ensures fresh(reply) && reply.Length == 17 && reply[..s.codeLength] == CodeText(s, cfg, encrypt, number.Value())
  {
    hide Num.Value, ValidConfig, VerifyAlphabet, KeepsBlocks, Passcode, AlphabetOf, OfValue;
    var passcode := new char[20](_ => '\0');
    var ret := s.GetPasscode(ar, cfg, encrypt, number, passcode);
    reply := new char[17](_ => '\0');
    ghost var text := CodeText(s, cfg, encrypt, number.Value());
    TextCharacters(s, cfg, encrypt, number.Value());
    hide CodeText;
    assert forall k | 0 <= k < s.codeLength :: passcode[k] == text[k];
    var i := 0;
    while i < 16 && passcode[i] != '\0'
      modifies reply
      invariant 0 <= i <= 16
      invariant forall k | 0 <= k < i :: reply[k] == passcode[k]
      invariant forall k | i <= k < 17 :: reply[k] == '\0'
    {
      reply[i] := passcode[i];
      i := i + 1;
    }
    forall k | 0 <= k < s.codeLength ensures reply[k] == text[k] {
      if i <= k { assert text[i] == passcode[i] == '\0'; }
    }
    assert reply[..s.codeLength] == text;
  }

  // The text of a cell has no terminator, or nothing else.
  lemma TextCharacters(s: State, cfg: Config, encrypt: BlockCipher, number: nat)
    requires s.Valid() && ValidConfig(cfg) && KeepsBlocks(encrypt) && number < TWO128
    ensures
      var t := CodeText(s, cfg, encrypt, number);
      if VerifyAlphabet(cfg, s.alphabet) == 0 then forall k | 0 <= k < |t| :: t[k] != '\0'
      else t == Repeat('\0', s.codeLength)
  {
    hide ValidConfig, VerifyAlphabet, KeepsBlocks, AlphabetOf, OfValue, CipherValue;
    if VerifyAlphabet(cfg, s.alphabet) == 0 {
      AcceptedAlphabet(cfg, s.alphabet);
      var c := OfValue(s.SaltedCounter(number));
      DigitsIn(CipherValue(encrypt, s.sequenceKey, c), AlphabetOf(cfg, s.alphabet), s.codeLength);
    }
  }

  //// Writing the card into a buffer of spaces

  // The text so far, and spaces behind it.
  ghost predicate Written(card: array<char>, text: string)
    reads card
  {
    |text| <= card.Length && card[..|text|] == text && forall k | |text| <= k < card.Length :: card[k] == ' '
  }

  // memcpy of a string; what lies behind it may be anything for as long as the string.
  method Put(card: array<char>, pos: nat, t: string, ghost text: string)
    requires pos == |text| && pos + |t| <= card.Length && card[..pos] == text
    requires forall k | pos + |t| <= k < card.Length :: card[k] == ' '
    modifies card
    ensures Written(card, text + t)
  {
    forall i | 0 <= i < |t| { card[pos + i] := t[i]; }
    assert card[..pos + |t|] == text + t;
  }

  // Moving the pointer over spaces makes them part of the text.
  lemma Skip(card: array<char>, text: string, n: nat)
    requires Written(card, text) && |text| + n <= card.Length
    ensures Written(card, text + Spaces(n))
  {
    assert card[..|text| + n] == text + Spaces(n);
  }

  // The label, or the first thirty characters of the host name.
  function Label(title: string, hostname: string): string {
    if title != "" then title else if |hostname| > 30 then hostname[..30] else hostname
  }

  // It is shortened so that eight characters remain for the number.
  function Title(title: string, hostname: string, width: nat): (t: string)
    requires width >= 11
    ensures |Label(title, hostname)| <= width - 8 ==> t == Label(title, hostname)
    ensures |Label(title, hostname)| > width - 8 ==>
      |t| == width - 8 && t[|t| - 3..] == "..." && t[..|t| - 3] <= Label(title, hostname)
  {
    var l := Label(title, hostname);
    if |l| > width - 8 then l[..width - 11] + "..." else l
  }

  // The number of the card, or its last digits behind an asterisk.
  function ShownNumber(num: string, title: string, width: nat): (n: string)
    requires |title| + 8 <= width
    ensures |title| + |n| + 3 <= width && (|title| + |num| + 3 <= width ==> n == num)
    ensures n != num ==> |title| + |n| + 3 == width && n[0] == '*' && |n| <= |num| && n[1..] == num[|num| - |n| + 1..]
  {
    if |num| + 3 + |title| > width then
      var place := width - 3 - |title|;
      "*" + num[|num| - place + 1..]
    else num
  }

  method WriteHeader(card: array<char>, title: string, num: string, width: nat) returns (pos: nat)
    requires |title| + |num| + 3 <= width && width + 1 <= card.Length && Written(card, "")
    modifies card
    ensures pos == width + 1 && Written(card, Header(title, num, width))
  {
    Put(card, 0, title, "");
    assert "" + title == title;
    pos := width - |num| - 2;
    ghost var text := title + Spaces(width - |num| - 2 - |title|);
    Skip(card, title, width - |num| - 2 - |title|);
    Put(card, pos, "[", text);
    Put(card, pos + 1, num, text + "[");
    Put(card, pos + 1 + |num|, "]", text + "[" + num);
    Put(card, pos + 2 + |num|, "\n", text + "[" + num + "]");
    assert text + "[" + num + "]" + "\n" == Header(title, num, width);
    pos := pos + 3 + |num|;
  }

  method WriteColumns(card: array<char>, pos0: nat, length: Length, ghost text: string) returns (pos: nat)
    requires pos0 == |text| && Written(card, text) && pos0 + Width(length) + 1 <= card.Length
    modifies card
    ensures pos == pos0 + Width(length) + 1 && Written(card, text + ColumnsLine(length))
  {
    var columns := "ABCDEFGHIJKLMNOP";
    var n := CodesPerRow(length);
    RowWidth(length);
    hide CodesPerRow, Width, Offset, Letters, Written;
    OffsetStep(0, length + 1);
    Skip(card, text, 4);
    pos := pos0 + 4;
    var i := 0;
    ghost var letters := Spaces(4);
    NoLetters(length);
    while i < n
      invariant 0 <= i <= n && letters == Letters(i, length) && pos == pos0 + |letters|
      invariant Written(card, text + letters)
    {
      OffsetStep(i, length + 1);
      OffsetOrder(i, n, length + 1);
      MoreLetters(i, length);
      PutLetter(card, pos, columns[i], length, text + letters);
      Regrouped(text, letters, [columns[i]], Spaces(length));
      letters := letters + [columns[i]] + Spaces(length);
      i := i + 1;
      pos := pos + length + 1;
    }
    EndLine(card, pos - 1, text + letters);
    assert (text + letters)[..|text + letters| - 1] + "\n" == text + (letters[..Width(length)] + "\n");
  }

  lemma NoLetters(length: nat)
    ensures Letters(0, length) == Spaces(4)
  {}

  lemma MoreLetters(i: nat, length: nat)
    requires i < 16
    ensures Letters(i + 1, length) == Letters(i, length) + ['A' + i as char] + Spaces(length)
  {}

  method PutLetter(card: array<char>, pos: nat, c: char, n: nat, ghost text: string)
    requires pos == |text| && Written(card, text) && pos + 1 + n <= card.Length
    modifies card
    ensures Written(card, text + [c] + Spaces(n))
  {
    Put(card, pos, [c], text);
    Skip(card, text + [c], n);
  }

  // The space after the last letter becomes the line end.
  method EndLine(card: array<char>, pos: nat, ghost text: string)
    requires pos + 1 == |text| && Written(card, text)
    modifies card
    ensures Written(card, text[..pos] + "\n")
  {
    card[pos] := '\n';
    assert card[..pos + 1] == text[..pos] + "\n";
  }

  // The number of the k-th passcode of a card, in 128-bit arithmetic.
  function CodeNumber(card: nat, k: nat, length: Length): (n: nat)
    ensures n < TWO128
  {
    Mod128((card - 1) * CodesOnCard(length) + k)
  }

  lemma NextCode(card: nat, k: nat, length: Length, v: nat, w: nat)
    requires v == CodeNumber(card, k, length) && w == if v + 1 < TWO128 then v + 1 else v + 1 - TWO128
    ensures w == CodeNumber(card, k + 1, length)
  {
    hide CodesOnCard, Mod128;
    SumModulo((card - 1) * CodesOnCard(length) + k, 1);
  }

  ghost function Codes(s: State, cfg: Config, encrypt: BlockCipher, card: nat): (codes: seq<string>)
    requires s.Valid() && ValidConfig(cfg) && KeepsBlocks(encrypt)
    reads s
    ensures CardCodes(codes, s.codeLength)
  {
    seq(CodesOnCard(s.codeLength),
        k requires 0 <= k reads s requires s.Valid() && ValidConfig(cfg) && KeepsBlocks(encrypt) =>
      CodeText(s, cfg, encrypt, CodeNumber(card, k, s.codeLength)))
  }

  // One of the ten rows.
  method WriteRow(s: State, ar: Arithmetic, cfg: Config, encrypt: BlockCipher, card: array<char>, pos0: nat, i: nat,
                  codeNum0: Num,
                  ghost text: string, ghost number: nat) returns (pos: nat, codeNum: Num)
    requires s.Valid() && ValidConfig(cfg) && KeepsBlocks(encrypt) && i < ROWS_PER_CARD
    requires pos0 == |text| && Written(card, text) && pos0 + Width(s.codeLength) + 2 <= card.Length
    requires codeNum0.Value() == CodeNumber(number, Offset(i, CodesPerRow(s.codeLength)), s.codeLength)
    modifies card, ar
    ensures pos == pos0 + Width(s.codeLength) + 1
    ensures Written(card, text + Row(i, CodesPerRow(s.codeLength), Codes(s, cfg, encrypt, number), s.codeLength))
    ensures codeNum.Value() == CodeNumber(number, Offset(i + 1, CodesPerRow(s.codeLength)), s.codeLength)
  {
    hide CodesPerRow, Width, Offset, Codes, Num.Value, ValidConfig, KeepsBlocks, CodeNumber, CodeText, Row;
    var length: Length := s.codeLength;
    ghost var codes := Codes(s, cfg, encrypt, number);
    var n := CodesPerRow(length);
    RowWidth(length);
    OffsetStep(i, n);
    RowStart(i, codes, length);
    SprintfLabel(card, pos0, i + 1, text);
    pos, codeNum := WriteCells(s, ar, cfg, encrypt, card, pos0 + 4, i, codeNum0, text, number, codes);
  }

  method WriteCells(s: State, ar: Arithmetic, cfg: Config, encrypt: BlockCipher, card: array<char>, pos0: nat,
                    i: nat, codeNum0: Num,
                    ghost text: string, ghost number: nat, ghost codes: seq<string>) returns (pos: nat, codeNum: Num)
    requires s.Valid() && ValidConfig(cfg) && KeepsBlocks(encrypt) && i < ROWS_PER_CARD
    requires codes == Codes(s, cfg, encrypt, number) && |text| + Width(s.codeLength) + 2 <= card.Length
    requires pos0 == |text| + 4 && RowWritten(card, text + Row(i, 0, codes, s.codeLength), 0)
    requires codeNum0.Value() == CodeNumber(number, Offset(i, CodesPerRow(s.codeLength)), s.codeLength)
    modifies card, ar
    ensures pos == |text| + Width(s.codeLength) + 1
    ensures RowWritten(card, text + Row(i, CodesPerRow(s.codeLength), codes, s.codeLength), 1)
    ensures codeNum.Value()
         == CodeNumber(number, Offset(i, CodesPerRow(s.codeLength)) + CodesPerRow(s.codeLength), s.codeLength)
  {
    hide CodesPerRow, Width, Offset, Codes, Num.Value, ValidConfig, KeepsBlocks, CodeNumber, CodeText, Row, RowWritten;
    var length: Length := s.codeLength;
    var n := CodesPerRow(length);
    RowWidth(length);
    OffsetStep(0, length + 1);
    pos, codeNum := pos0, codeNum0;
    var y := 0;
    ghost var k, row := Offset(i, n), Row(i, 0, codes, length);
    while y < n
      invariant 0 <= y <= n && k == Offset(i, n) + y && row == Row(i, y, codes, length) && pos == |text| + |row|
      invariant RowWritten(card, text + row, if y == 0 then 0 else 1)
      invariant codeNum.Value() == CodeNumber(number, k, length)
    {
      OffsetOrder(y, n, length + 1);
      CellIndex(i, y, n);
      CodeAt(s, cfg, encrypt, number, k);
      RowStep(i, y + 1, codes, length);
      ghost var before := codeNum.Value();
      Regrouped(text, row, codes[k], if y + 1 != n then " " else "\n");
      pos, codeNum := WriteCell(s, ar, cfg, encrypt, card, pos, y, codeNum, text + row);
      row := row + codes[k] + (if y + 1 != n then " " else "\n");
      NextCode(number, k, length, before, codeNum.Value());
      k, y := k + 1, y + 1;
    }
  }

  // After sprintf, the terminator behind the row label is still there.
  ghost predicate RowWritten(card: array<char>, text: string, y: nat)
    reads card
  {
    && |text| <= card.Length && card[..|text|] == text
    && (forall k | |text| < k < card.Length :: card[k] == ' ')
    && (y > 0 && |text| < card.Length ==> card[|text|] == ' ')
  }

  // The passcode of a cell and what separates it from the next.
  method WriteCell(s: State, ar: Arithmetic, cfg: Config, encrypt: BlockCipher, card: array<char>, pos0: nat, y: nat,
                   codeNum0: Num,
                   ghost text: string) returns (pos: nat, codeNum: Num)
    requires s.Valid() && ValidConfig(cfg) && KeepsBlocks(encrypt) && y < CodesPerRow(s.codeLength)
    requires pos0 == |text| && RowWritten(card, text, if y == 0 then 0 else 1) && pos0 + s.codeLength + 1 < card.Length
    modifies card, ar
    ensures
      var t := text + CodeText(s, cfg, encrypt, codeNum0.Value())
               + (if y + 1 != CodesPerRow(s.codeLength) then " " else "\n");
      pos == |t| && Written(card, t) && RowWritten(card, t, 1)
    ensures codeNum.Value()
         == if codeNum0.Value() + 1 < TWO128 then codeNum0.Value() + 1 else codeNum0.Value() + 1 - TWO128
  {
    OneValue();
    hide CodesPerRow, Num.Value, ValidConfig, KeepsBlocks, CodeText;
    var passcode := AgentGetPasscode(s, ar, cfg, encrypt, codeNum0);
    var t := passcode[..s.codeLength];
    Put(card, pos0, t, text);
    if y + 1 != CodesPerRow(s.codeLength) {
      Skip(card, text + t, 1);
      assert Spaces(1) == " ";
      pos := pos0 + s.codeLength + 1;
    } else {
      pos := pos0 + s.codeLength;
      Put(card, pos, "\n", text + t);
      pos := pos + 1;
    }
    codeNum := ar.Add(codeNum0, I(1));
  }

  lemma OneValue()
    ensures I(1).Value() == 1
  {}

  lemma Regrouped<T>(a: seq<T>, b: seq<T>, c: seq<T>, d: seq<T>)
    ensures a + b + c + d == a + (b + c + d)
  {}

  lemma RowStart(i: nat, codes: seq<string>, length: Length)
    requires i < ROWS_PER_CARD && CardCodes(codes, length)
    ensures Row(i, 0, codes, length) == RowLabel(i + 1)
  {}

  lemma RowStep(i: nat, y: nat, codes: seq<string>, length: Length)
    requires i < ROWS_PER_CARD && 0 < y <= CodesPerRow(length) && CardCodes(codes, length)
    requires Offset(i, CodesPerRow(length)) + (y - 1) < |codes|
    ensures Row(i, y, codes, length)
         == Row(i, y - 1, codes, length) + codes[Offset(i, CodesPerRow(length)) + (y - 1)]
            + (if y == CodesPerRow(length) then "\n" else " ")
  {
    hide CodesPerRow, Offset;
  }

  lemma CodeAt(s: State, cfg: Config, encrypt: BlockCipher, card: nat, k: nat)
    requires s.Valid() && ValidConfig(cfg) && KeepsBlocks(encrypt) && k < CodesOnCard(s.codeLength)
    ensures Codes(s, cfg, encrypt, card)[k] == CodeText(s, cfg, encrypt, CodeNumber(card, k, s.codeLength))
  {
    hide CodeText, CodeNumber, CodesOnCard;
  }

  // sprintf of "%2d: ", with its terminator.
  method SprintfLabel(card: array<char>, pos: nat, i: nat, ghost text: string)
    requires 1 <= i <= 10 && pos == |text| && Written(card, text) && pos + 5 <= card.Length
    modifies card
    ensures |text + RowLabel(i)| == pos + 4 && RowWritten(card, text + RowLabel(i), 0)
  {
    if i < 10 {
      Put(card, pos, [' ', (i as char) + '0', ':', ' '], text);
    } else {
      Put(card, pos, ['1', '0', ':', ' '], text);
    }
    card[pos + 4] := '\0';
  }

  // The number of passcodes on the cards before; modulo 2^128, also for a card zero.
  method CodesBefore(ar: Arithmetic, passcard: Num, codesOnCard: Word) returns (n: Num)
    modifies ar
    ensures n.Value() == Mod128((passcard.Value() - 1) * codesOnCard)
  {
    hide Num.Value, Mod128;
    OneValue();
    n := ar.Sub(passcard, I(1));
    if passcard.Value() == 0 { Borrowed(codesOnCard); }
    n := ar.MulI(n, codesOnCard);
  }

  lemma Borrowed(n: nat)
    ensures Mod128((TWO128 - 1) * n) == Mod128(0 - n)
  {
    var q: int, r := (0 - n) / TWO128, (0 - n) % TWO128;
    RemainderUnique((TWO128 - 1) * n, TWO128, q + n, r);
  }

  // The ten rows, from the first passcode of the card on.
  method WriteRows(s: State, ar: Arithmetic, cfg: Config, encrypt: BlockCipher, card: array<char>, passcard: Num,
                   ghost head: string) returns (pos: nat)
    requires s.Valid() && ValidConfig(cfg) && KeepsBlocks(encrypt)
    requires |head| == 2 * (Width(s.codeLength) + 1) && Written(card, head)
    requires card.Length == Offset(12, Width(s.codeLength) + 1) + 1
    modifies card, ar
    ensures Written(card, head + Rows(ROWS_PER_CARD, Codes(s, cfg, encrypt, passcard.Value()), s.codeLength))
  {
    hide CodesPerRow, CodesOnCard, Width, Offset, Codes, Num.Value, ValidConfig, KeepsBlocks, CodeNumber, Row,
      Written, Mod128;
    var length: Length := s.codeLength;
    var n, w := CodesPerRow(length), Width(length) + 1;
    ghost var number := passcard.Value();
    ghost var codes := Codes(s, cfg, encrypt, number);
    TwelveLines(w);
    FirstCode(number, length);
    OneValue();
    var codeNum := CodesBefore(ar, passcard, CodesOnCard(length));
    pos := 2 * w;
    var i := 0;
    ghost var rows := "";
    assert head + rows == head;
    while i < ROWS_PER_CARD
      invariant 0 <= i <= ROWS_PER_CARD && rows == Rows(i, codes, length) && pos == |head| + |rows|
      invariant Written(card, head + rows)
      invariant codeNum.Value() == CodeNumber(number, Offset(i, n), length)
    {
      OffsetOrder(i, ROWS_PER_CARD, w);
      Associate(head, rows, Row(i, n, codes, length));
      pos, codeNum := WriteRow(s, ar, cfg, encrypt, card, pos, i, codeNum, head + rows, number);
      rows := rows + Row(i, n, codes, length);
      i := i + 1;
      OffsetStep(i - 1, w);
    }
  }

  lemma TwelveLines(w: nat)
    ensures Offset(12, w) == 2 * w + Offset(10, w) && Offset(0, w) == 0
  {}

  lemma FirstCode(card: nat, length: Length)
    ensures CodeNumber(card, Offset(0, CodesPerRow(length)), length) == Mod128((card - 1) * CodesOnCard(length))
  {
    hide CodesPerRow, Mod128;
  }

  // card_ascii. mayPrint is the answer of the agent's policy.
  method CardAscii(s: State, ar: Arithmetic, cfg: Config, encrypt: BlockCipher, mayPrint: bool, passcard: Num,
                   title: string, hostname: string)
    returns (card: array?<char>)
    requires s.Valid() && ValidConfig(cfg) && KeepsBlocks(encrypt)
    modifies ar
    ensures card == null <==> !mayPrint
    ensures mayPrint ==>
      var w := Width(s.codeLength);
      w >= 11 && card[..] == CardText(Title(title, hostname, w),
                                      ShownNumber(Numeral(passcard.Value(), 10), Title(title, hostname, w), w),
                                      Codes(s, cfg, encrypt, passcard.Value()), s.codeLength) + "\0"
  {
    hide CodesPerRow, Codes, Num.Value, ValidConfig, KeepsBlocks, CodeNumber, Row, Numeral, Title, ShownNumber, Mod128;
    var length: Length := s.codeLength;
    var width := Width(length);
    var size := (width + 1) * (ROWS_PER_CARD + 2) + 1;
    var whole := new char[size](_ => ' ');
    WidthBound(length);
    var shown := Title(title, hostname, width);
    var num := NumGetStr(passcard, 10);
    num := ShownNumber(num, shown, width);
    var pos := WriteHeader(whole, shown, num, width);
    ghost var head := Header(shown, num, width) + ColumnsLine(length);
    pos := WriteColumns(whole, pos, length, Header(shown, num, width));
    if !mayPrint { return null; }
    pos := WriteRows(s, ar, cfg, encrypt, whole, passcard, head);
    ghost var rows := Rows(ROWS_PER_CARD, Codes(s, cfg, encrypt, passcard.Value()), length);
    assert whole[..size - 1] == head + rows;
    whole[size - 1] := '\0';
    card := whole;
    assert whole[..] == whole[..size - 1] + [whole[size - 1]];
  }

  lemma WidthBound(length: Length)
    ensures Width(length) >= 25 && (Width(length) + 1) * 12 == Offset(12, Width(length) + 1)
  {
    MulAtLeast(1 + length, CodesPerRow(length));
    if length <= 10 {
      assert length == 2 || length == 3 || length == 4 || length == 5 || length == 6
             || length == 7 || length == 8 || length == 9 || length == 10;
    }
  }

  //// From the prompt to the cell and back

  // What the prompt of a state names, as a row and a column from 0.
  predicate SameKey(s: State, t: State)
    reads s, t
  {
    && s.sequenceKey == t.sequenceKey && s.codeLength == t.codeLength && s.alphabet == t.alphabet && s.flags == t.flags
    && Salt(s.Salted(), s.counter.Value()) == Salt(t.Salted(), t.counter.Value())
  }

  // A passcode stands in a line that begins with the row of a place, below the letter of its column.
  predicate CellShows(text: string, place: Place, length: Length, code: string) {
    && OnCard(place, length)
    && var w := Width(length) + 1;
       var line, p := Offset(place.row + 1, w), CellPosition(place.row - 1, place.column as int - 'A' as int, length);
       && line + 4 <= p <= p + length <= |text| && Offset(1, w) + (p - line) < |text|
       && text[p..p + length] == code
       && text[line..line + 4] == TwoPlaces(place.row) + ": "
       && text[Offset(1, w) + (p - line)] == place.column
  }

  // The place that ppp_calculate has found, and that the prompt names.
  function PromptPlace(s: State): Place
    reads s
  {
    Place(s.currentCard.Value(), s.currentRow, s.currentColumn)
  }

  // The passcode that ppp_authenticate compares with.
  ghost function Expected(s: State, cfg: Config, encrypt: BlockCipher): string
    requires s.Valid() && ValidConfig(cfg) && KeepsBlocks(encrypt) && VerifyAlphabet(cfg, s.alphabet) == 0
    reads s
  {
    AcceptedAlphabet(cfg, s.alphabet);
    Passcode(encrypt, s.sequenceKey, s.counter, AlphabetOf(cfg, s.alphabet), s.codeLength)
  }

  // The cell that the prompt of a state names, on the card of that number printed at any time with
  // the same key, holds the passcode of the counter of the state.
  lemma PromptCell(printed: State, s: State, cfg: Config, encrypt: BlockCipher, title: string, num: string)
    requires s.Valid() && printed.Valid() && SameKey(printed, s)
    requires ValidConfig(cfg) && KeepsBlocks(encrypt) && VerifyAlphabet(cfg, s.alphabet) == 0
    requires |title| + |num| + 2 <= Width(s.codeLength)
    requires s.Calculated()
    ensures CellShows(CardText(title, num, Codes(printed, cfg, encrypt, s.currentCard.Value()), s.codeLength),
                      PromptPlace(s), s.codeLength,
                      Expected(s, cfg, encrypt))
  {
    hide CodesPerRow, CodesOnCard, Width, CardText, Codes, CellPosition, Offset, NumberOf, CodeNumber, CodeText,
      Num.Value, AlphabetOf, VerifyAlphabet, ValidConfig, KeepsBlocks, Expected, PlaceOf;
    var length: Length := s.codeLength;
    var card, k, y := s.currentCard.Value(), s.currentRow - 1, s.currentColumn as int - 'A' as int;
    var number := Number(s.Salted(), s.counter.Value());
    PlaceRoundTrip(number, length);
    SameText(printed, s, cfg, encrypt);
    CodeOfPlace(Place(card, s.currentRow, s.currentColumn), number, length);
    var codes := Codes(printed, cfg, encrypt, card);
    CellHolds(title, num, codes, length, k, y);
    LabelsHold(title, num, codes, length, k, y);
    CodeAt(printed, cfg, encrypt, card, Offset(k, CodesPerRow(length)) + y);
  }

  lemma CodeOfPlace(p: Place, number: nat, length: Length)
    requires OnCard(p, length) && number == NumberOf(p, length) < TWO128
    ensures CodeNumber(p.card, Offset(p.row - 1, CodesPerRow(length)) + (p.column as int - 'A' as int), length)
         == number
  {}

  // The card was printed with the salt that the counter still has.
  lemma SameText(printed: State, s: State, cfg: Config, encrypt: BlockCipher)
    requires s.Valid() && printed.Valid() && SameKey(printed, s)
    requires ValidConfig(cfg) && KeepsBlocks(encrypt) && VerifyAlphabet(cfg, s.alphabet) == 0
    ensures Number(s.Salted(), s.counter.Value()) < TWO128
    ensures CodeText(printed, cfg, encrypt, Number(s.Salted(), s.counter.Value())) == Expected(s, cfg, encrypt)
  {
    hide ValidConfig, KeepsBlocks, VerifyAlphabet, AlphabetOf, Passcode;
    AcceptedAlphabet(cfg, s.alphabet);
    OnlyNumber(s.counter);
    assert printed.SaltedCounter(Number(s.Salted(), s.counter.Value())) == s.counter.Value();
  }

  // ah_get_passcode_number; zero means that the number was found.
  method GetPasscodeNumber(ar: Arithmetic, length: Length, passcard: Num, column: char, row: int) returns (ret: int,
                           passcode: Num)
    modifies ar
    ensures ret == 0 <==> InGrid(row, column, length)
    ensures ret == 0 ==> passcode.Value() == Mod128(NumberOf(Place(passcard.Value(), row, column), length))
  {
    var codesInRow, codesOnCard := CodesPerRow(length), CodesOnCard(length);
    hide CodesPerRow, CodesOnCard, NumberOf, Num.Value, Mod128;
    passcode := I(0);
    if column < 'A' || column as int >= 'A' as int + codesInRow { return 1, passcode; }
    if row < 1 || row > 10 { return 1, passcode; }
    passcode := CodesBefore(ar, passcard, codesOnCard);
    ghost var start := (passcard.Value() - 1) * codesOnCard;
    SumOfPlace(Place(passcard.Value(), row, column), length);
    var a, b := (row - 1) * codesInRow, column as int - 'A' as int;
    passcode := AddSmall(ar, passcode, a, start);
    passcode := AddSmall(ar, passcode, b, start + a);
    return 0, passcode;
  }

  lemma SumOfPlace(p: Place, length: Length)
    requires InGrid(p.row, p.column, length)
    ensures (p.row - 1) * CodesPerRow(length) <= 9 * CodesPerRow(length)
    ensures NumberOf(p, length)
         == (p.card - 1) * CodesOnCard(length) + (p.row - 1) * CodesPerRow(length) + (p.column as int - 'A' as int)
  {
    MulBound(p.row - 1, 9, CodesPerRow(length));
  }

  method AddSmall(ar: Arithmetic, n: Num, x: Word, ghost before: int) returns (m: Num)
    requires n.Value() == Mod128(before)
    modifies ar
    ensures m.Value() == Mod128(before + x)
  {
    hide Num.Value, Mod128;
    SmallValue(x);
    SumModulo(before, x);
    m := ar.Add(n, I(x));
  }

  lemma SmallValue(x: Word)
    ensures I(x).Value() == x
  {}

  // The columns that the parser of passcode specifications admits.
  predicate SpecColumn(column: char) {
    'A' <= column <= 'J'
  }

  // It admits every column of a card exactly if the card has at most ten, so unless passcodes have two
  // characters: then column K cannot be named.
  lemma SpecColumns(length: Length)
    ensures (forall c: char | 'A' <= c && c as int < 'A' as int + CodesPerRow(length) :: SpecColumn(c)) <==>
      CodesPerRow(length) <= 10
    ensures CodesPerRow(length) <= 10 <==> length > 2
    ensures InGrid(1, 'K', 2) && !SpecColumn('K')
  {
    if length == 2 { assert 'K' as int < 'A' as int + CodesPerRow(length) && !SpecColumn('K'); }
  }

  // The cell that the prompt names is read back as the number of the counter.
  lemma PromptNumber(s: State)
    requires s.Calculated()
    ensures OnCard(PromptPlace(s), s.codeLength)
    ensures Mod128(NumberOf(PromptPlace(s), s.codeLength)) == Number(s.Salted(), s.counter.Value())
  {
    hide CodesPerRow, CodesOnCard, NumberOf, PlaceOf, Num.Value, Number;
    PlaceRoundTrip(Number(s.Salted(), s.counter.Value()), s.codeLength);
  }
}
