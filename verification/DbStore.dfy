// The rewrite of the state database in src/libotp/db_file.c. A file is the sequence of what fgets reads
// from it, whole lines with their line ends; every operation on files may fail.
module DbStore {
  import opened Sequences
  import opened ErrorCodes
  import opened Wrappers
  import Num
  import DbEntry

  //// Lines and their users

  // What stands before the first separator.
  function UserOf(line: string): Option<string> {
    if ':' in line then Some(DbEntry.Split(line)[0]) else None
  }

  predicate Owns(user: string, line: string) {
    UserOf(line) == Some(user)
  }

  // A line that fits the buffer and may hold a state.
  predicate Whole(line: string) {
    10 <= |line| && line[|line| - 1] == '\n'
  }

  // The index of the first line of a user, or the number of lines.
  function First(user: string, lines: seq<string>): (i: nat)
    ensures i <= |lines| && (i < |lines| ==> Owns(user, lines[i]))
    ensures forall k | 0 <= k < i :: !Owns(user, lines[k])
  {
    if lines == [] || Owns(user, lines[0]) then 0 else 1 + First(user, lines[1..])
  }

  function Others(user: string, lines: seq<string>): seq<string> {
    if lines == [] then [] else (if Owns(user, lines[0]) then [] else [lines[0]]) + Others(user, lines[1..])
  }

  predicate UniqueUsers(lines: seq<string>) {
    forall i, j | 0 <= i < j < |lines| && UserOf(lines[i]).Some? :: UserOf(lines[i]) != UserOf(lines[j])
  }

  //// Reading and writing

  // The outcome of an operation on files, which may be an error unless they are reliable.
  method Outcome(reliable: bool) returns (ok: bool)
    ensures reliable ==> ok
  {
    ok := *;
    ok := ok || reliable;
  }

  class InFile {
    const lines: seq<string>
    const reliable: bool
    var pos: nat

    constructor (lines: seq<string>, reliable: bool)
      ensures this.lines == lines && this.reliable == reliable && pos == 0
    {
      this.lines, this.reliable, pos := lines, reliable, 0;
    }
  }

  class OutFile {
    const reliable: bool
    var written: seq<string>

    constructor (reliable: bool)
      ensures this.reliable == reliable && written == []
    {
      this.reliable, written := reliable, [];
    }

    method Fputs(line: string) returns (ok: bool)
      modifies this
      ensures ok ==> written == old(written) + [line]
      ensures !ok ==> written == old(written)
      ensures reliable ==> ok
    {
      ok := Outcome(reliable);
      if ok { written := written + [line]; }
    }
  }

  // _db_find_user_entry. Lines without a match are copied; the line that matches is left in buff.
  method FindUserEntry(username: string, f: InFile, out: OutFile) returns (ret: int, buff: string)
    requires f.pos <= |f.lines|
    modifies f, out
    ensures old(f.pos) <= f.pos <= |f.lines|
    ensures ret in {0, STATE_NO_USER_ENTRY, STATE_PARSE_ERROR, STATE_IO_ERROR}
    ensures ret == 0 ==>
      var rest := f.lines[old(f.pos)..];
      var m := First(username, rest);
      m < |rest| && buff == rest[m] && f.pos == old(f.pos) + m + 1 && out.written == old(out.written) + rest[..m]
    ensures ret == STATE_NO_USER_ENTRY ==>
      var rest := f.lines[old(f.pos)..];
      First(username, rest) == |rest| && f.pos == |f.lines| && out.written == old(out.written) + rest
    ensures ret == 0 || ret == STATE_NO_USER_ENTRY ==> forall i | old(f.pos) <= i < f.pos :: Whole(f.lines[i])
    ensures f.reliable && out.reliable ==> ret != STATE_IO_ERROR
    ensures ret == STATE_PARSE_ERROR ==> exists i :: old(f.pos) <= i < f.pos && !Whole(f.lines[i])
  {
    hide First, Owns;
    ghost var start, rest, n := f.pos, f.lines[f.pos..], 0;
    buff := "";
    while true
      invariant 0 <= n <= |rest| && f.pos == start + n
      invariant out.written == old(out.written) + rest[..n]
      invariant forall k | 0 <= k < n :: !Owns(username, rest[k]) && Whole(rest[k])
      decreases |f.lines| - f.pos
    {
      var ok := Outcome(f.reliable);
      if !ok { return STATE_IO_ERROR, buff; }
      if f.pos == |f.lines| {
        NoMatch(username, rest);
        WholeLines(f.lines, start, rest, n);
        assert rest[..n] == rest;
        return STATE_NO_USER_ENTRY, buff;
      }
      buff := f.lines[f.pos];
      f.pos := f.pos + 1;
      if buff == "" || buff[|buff| - 1] != '\n' || |buff| < 10 {
        assert !Whole(f.lines[f.pos - 1]);
        return STATE_PARSE_ERROR, buff;
      }
      if Owns(username, buff) {
        FirstMatch(username, rest, n);
        WholeLines(f.lines, start, rest, n + 1);
        return 0, buff;
      }
      ok := out.Fputs(buff);
      if !ok { return STATE_IO_ERROR, buff; }
      assert rest[..n + 1] == rest[..n] + [buff];
      n := n + 1;
    }
  }

  lemma WholeLines(lines: seq<string>, start: nat, rest: seq<string>, n: nat)
    requires start <= |lines| && rest == lines[start..] && n <= |rest| && forall k | 0 <= k < n :: Whole(rest[k])
    ensures forall i | start <= i < start + n :: Whole(lines[i])
  {
    forall i | start <= i < start + n ensures Whole(lines[i]) { assert lines[i] == rest[i - start]; }
  }

  lemma NoMatch(user: string, lines: seq<string>)
    requires forall k | 0 <= k < |lines| :: !Owns(user, lines[k])
    ensures First(user, lines) == |lines|
  {}

  lemma FirstMatch(user: string, lines: seq<string>, m: nat)
    requires m < |lines| && Owns(user, lines[m]) && forall k | 0 <= k < m :: !Owns(user, lines[k])
    ensures First(user, lines) == m
  {}

  //// The rewrite

  // What a store that reports success leaves: the lines before the first of the user, the new line if
  // there is one, and the lines after it up to a second one of the same user.
  function Rewritten(user: string, lines: seq<string>, entry: seq<string>): seq<string> {
    var rest := Behind(user, lines);
    lines[..First(user, lines)] + entry + rest[..First(user, rest)]
  }

  // A file that is cut off somewhere, perhaps inside a line.
  predicate Begins(left: seq<string>, lines: seq<string>) {
    && |left| <= |lines|
    && (left != [] ==> left[..|left| - 1] == lines[..|left| - 1] && left[|left| - 1] <= lines[|left| - 1])
  }

  predicate Duplicate(user: string, lines: seq<string>) {
    var rest := Behind(user, lines);
    First(user, rest) < |rest|
  }

  // The line that is stored, if any.
  function NewLines(e: DbEntry.Entry, remove: bool): seq<string> {
    if remove then [] else [DbEntry.Buffered(DbEntry.Line(e), DbEntry.ENTRY_SIZE)]
  }

  // The lines behind the first one of the user.
  function Behind(user: string, lines: seq<string>): seq<string> {
    var m := First(user, lines);
    if m < |lines| then lines[m + 1..] else []
  }

  class Database {
    // The database file and the temporary file; None when there is no such file.
    var db: Option<seq<string>>
    var tmp: Option<seq<string>>
    const perUser: bool // CONFIG_DB_USER

    constructor (db: Option<seq<string>>, perUser: bool)
      ensures this.db == db && this.perUser == perUser
    {
      this.db, this.tmp, this.perUser := db, None, perUser;
    }

    ghost function Lines(): seq<string>
      reads this
    {
      if db.Some? then db.value else []
    }

    // db_file_store, under the lock. Unless an operation on files fails, or the file is malformed, or
    // the line of the user does not fit, the store succeeds. Where the user has two lines, the result of
    // the last flush is ignored, and the file may be cut off.
    method Store(e: DbEntry.Entry, remove: bool, reliable: bool) returns (ret: int)
      modifies this
      ensures ret != 0 ==> db == old(db)
      ensures ret == 0 && perUser && remove ==> db == None
      ensures ret == 0 && !(perUser && remove) ==>
        var after := Rewritten(e.username, old(Lines()), NewLines(e, remove));
        db.Some? && Begins(Lines(), after) && (reliable || !Duplicate(e.username, old(Lines())) ==> Lines() == after)
      ensures reliable && (if perUser && remove then old(db).Some? else Sound(old(Lines())) && (remove || Fits(e))) ==>
        ret == 0
      ensures ret == 0 && !(perUser && remove) && !Duplicate(e.username, old(Lines())) ==> Sound(old(Lines()))
      // the line of the user is replaced, added behind the others, or taken away
      ensures ret == 0 && !(perUser && remove) && UniqueUsers(old(Lines())) && (remove || DbEntry.Storable(e)) ==>
        var lines, m := old(Lines()), First(e.username, old(Lines()));
        Lines() == if m == |lines| then (if remove then lines else lines + [DbEntry.Line(e)])
                   else if remove then lines[..m] + lines[m + 1..]
                   else lines[m := DbEntry.Line(e)]
      ensures ret == 0 && !(perUser && remove) && UniqueUsers(old(Lines())) && (remove || DbEntry.Storable(e)) ==>
        && Others(e.username, Lines()) == Others(e.username, old(Lines())) && UniqueUsers(Lines())
        && forall l <- Lines() :: Owns(e.username, l) ==> !remove && l == DbEntry.Line(e)
    {
      hide DbEntry.Line, DbEntry.Storable, Sound, Fits, UniqueUsers, Others, Owns, Rewritten, Duplicate, NewLines;
      StoreKept(e, remove, Lines());
      StorePlaces(e, remove, Lines());
      var ok := Outcome(reliable);
      if perUser && remove {
        if !ok || db == None { return STATE_IO_ERROR; }
        db := None;
        return 0;
      }
      if db.Some? && !ok { return STATE_IO_ERROR; }
      ok := Outcome(reliable);
      if !ok { return STATE_IO_ERROR; }
      tmp := Some([]);
      ok := Outcome(reliable);
      var out := new OutFile(reliable);
      var flushed := true;
      if ok {
        ret, flushed := WriteEntries(e, remove, out);
      } else {
        ret := STATE_IO_ERROR;
      }
      if ret == 0 {
        ok := Outcome(reliable);
        if ok {
          var written := out.written;
          if !flushed { written := CutOff(written); }
          db, tmp := Some(written), None;
        } else {
          ret := STATE_IO_ERROR;
        }
      } else {
        tmp := None;
      }
    }

    // The copying between the two files, up to the cleanup.
    method WriteEntries(e: DbEntry.Entry, remove: bool, out: OutFile) returns (ret: int, flushed: bool)
      requires out.written == []
      modifies out
      ensures ret == 0 ==> out.written == Rewritten(e.username, Lines(), NewLines(e, remove))
      ensures ret == 0 && (out.reliable || !Duplicate(e.username, Lines())) ==> flushed
      ensures ret == 0 && !Duplicate(e.username, Lines()) ==> Sound(Lines())
      ensures out.reliable && Sound(Lines()) && (remove || Fits(e)) ==> ret == 0
    {
      hide DbEntry.Line, DbEntry.Buffered, Owns, First, Rewritten, Sound, Fits, Behind, Duplicate, NewLines, Whole;
      OneNewLine(e, remove);
      DuplicateMeans(e.username, Lines());
      flushed := true;
      Parts(e.username, Lines(), NewLines(e, remove));
      var f := new InFile(if db.Some? then db.value else [], out.reliable);
      ghost var lines, user := Lines(), e.username;
      ghost var front, rest, entry := lines[..First(user, lines)], Behind(user, lines), NewLines(e, remove);
      ret := CopyBefore(e.username, db.Some?, f, out);
      if ret != 0 { return; }
      ghost var pos := f.pos;
      assert f.lines == lines && out.written == front && f.lines[pos..] == rest;
      if !remove {
        ret := WriteEntry(e, out);
        if ret != 0 { return; }
      }
      assert out.written == front + entry;
      ret, flushed := CopyRest(e.username, db.Some?, f, out);
      if ret == 0 && First(user, rest) == |rest| { AllWhole(lines, pos); }
    }

    // The part of db_file_load that looks for the line of the user and parses it.
    method Load(username: string, prior: DbEntry.Entry, ar: Num.Arithmetic, tok: DbEntry.Tokenizer, reliable: bool)
      returns (ret: int, e: DbEntry.Entry)
      modifies ar, tok
      ensures ret == 0 ==>
        var m := First(username, Lines());
        m < |Lines()| && DbEntry.ParseLine(Lines()[m], prior) == Some(e)
      ensures reliable && db.Some? && Sound(Lines()) ==>
        var m := First(username, Lines());
        ret == 0 <==> m < |Lines()| && DbEntry.ParseLine(Lines()[m], prior).Some?
    {
      hide First, Owns, DbEntry.ParseLine;
      e := prior;
      var ok := Outcome(reliable);
      if db == None { return STATE_NON_EXISTENT, e; }
      if !ok { return STATE_IO_ERROR, e; }
      var f := new InFile(db.value, reliable);
      var none := new OutFile(true);
      assert f.lines[0..] == f.lines == Lines();
      var buff;
      ret, buff := FindUserEntry(username, f, none);
      if ret != 0 { return; }
      ret, e := DbEntry.LoadEntry(ar, tok, buff, prior);
    }
  }

  // What was stored is loaded again, as it was.
  method StoreAndLoad(d: Database, e: DbEntry.Entry, prior: DbEntry.Entry, ar: Num.Arithmetic, tok: DbEntry.Tokenizer)
    returns (stored: int, ret: int, loaded: DbEntry.Entry)
    requires DbEntry.Storable(e) && prior.username == e.username && UniqueUsers(d.Lines())
    modifies d, ar, tok
    ensures stored == 0 ==>
      ret == 0 && loaded == e.(spassTime := if e.spass.Some? then e.spassTime else prior.spassTime)
    ensures Sound(old(d.Lines())) && Fits(e) ==> stored == 0
  {
    hide First, Owns, Sound, Fits, UniqueUsers, DbEntry.Line, DbEntry.ParseLine, DbEntry.Storable;
    ghost var lines := d.Lines();
    stored := StoreNew(d, e);
    if stored != 0 { return stored, stored, prior; }
    ghost var after := d.Lines();
    StoredLine(e, lines, after);
    DbEntry.EntryRoundTrip(e, prior);
    ret, loaded := d.Load(e.username, prior, ar, tok, true);
  }

  // A store where every operation on files succeeds.
  method StoreNew(d: Database, e: DbEntry.Entry) returns (ret: int)
    requires DbEntry.Storable(e) && UniqueUsers(d.Lines())
    modifies d
    ensures Sound(old(d.Lines())) && Fits(e) ==> ret == 0
    ensures ret == 0 ==> d.db.Some? && Sound(old(d.Lines()))
    ensures ret == 0 ==>
      var lines, m := old(d.Lines()), First(e.username, old(d.Lines()));
      d.Lines() == if m == |lines| then lines + [DbEntry.Line(e)] else lines[m := DbEntry.Line(e)]
  {
    hide First, Owns, Sound, Fits, UniqueUsers, Others, Rewritten, Duplicate, NewLines, Begins, DbEntry.Line,
      DbEntry.Storable;
    UniqueSingle(e.username, d.Lines());
    ret := d.Store(e, false, true);
  }

  lemma UniqueSingle(user: string, lines: seq<string>)
    requires UniqueUsers(lines)
    ensures !Duplicate(user, lines)
  {
    UniqueRewrite(user, lines, []);
  }

  // The new line is the first of its user, in a sound file.
  lemma StoredLine(e: DbEntry.Entry, lines: seq<string>, after: seq<string>)
    requires DbEntry.Storable(e) && Sound(lines)
    requires
      var m := First(e.username, lines);
      after == if m == |lines| then lines + [DbEntry.Line(e)] else lines[m := DbEntry.Line(e)]
    ensures
      var m := First(e.username, after);
      m == First(e.username, lines) && m < |after| && after[m] == DbEntry.Line(e) && Sound(after)
  {
    OwnEntry(e);
    hide Owns, First, DbEntry.Line, DbEntry.Storable, Whole;
    FirstMatch(e.username, after, First(e.username, lines));
  }

  lemma DuplicateMeans(user: string, lines: seq<string>)
    ensures Duplicate(user, lines) <==> First(user, Behind(user, lines)) < |Behind(user, lines)|
  {}

  lemma OneNewLine(e: DbEntry.Entry, remove: bool)
    ensures NewLines(e, remove) == if remove then [] else [DbEntry.Buffered(DbEntry.Line(e), DbEntry.ENTRY_SIZE)]
  {}

  lemma AllWhole(lines: seq<string>, pos: nat)
    requires pos <= |lines| && forall i | 0 <= i < pos :: Whole(lines[i])
    requires forall i | pos <= i < |lines| :: Whole(lines[i])
    ensures Sound(lines)
  {}

  // The lines before that of the user; it is no error when there is none.
  method CopyBefore(username: string, present: bool, f: InFile, out: OutFile) returns (ret: int)
    requires f.pos == 0 && out.written == [] && (!present ==> f.lines == [])
    modifies f, out
    ensures f.pos <= |f.lines|
    ensures ret == 0 ==>
      out.written == f.lines[..First(username, f.lines)] && f.lines[f.pos..] == Behind(username, f.lines)
    ensures ret == 0 ==> forall i | 0 <= i < f.pos :: Whole(f.lines[i])
    ensures f.reliable && out.reliable && Sound(f.lines) ==> ret == 0
  {
    hide Owns, Whole;
    ret := 0;
    assert f.lines[0..] == f.lines;
    if present {
      var buff;
      ret, buff := FindUserEntry(username, f, out);
      if ret == STATE_NO_USER_ENTRY {
        assert f.lines[..|f.lines|] == f.lines;
        ret := 0;
      }
    }
  }

  predicate Sound(lines: seq<string>) {
    forall i | 0 <= i < |lines| :: Whole(lines[i])
  }

  predicate Fits(e: DbEntry.Entry) {
    10 <= |DbEntry.Line(e)| && |DbEntry.Line(e)| != DbEntry.ENTRY_SIZE
  }

  // The lines behind, then the flush; a second line of the user ends the copying with success, whatever
  // the flush.
  method CopyRest(username: string, present: bool, f: InFile, out: OutFile) returns (ret: int, flushed: bool)
    requires f.pos <= |f.lines| && (!present ==> f.lines == [])
    modifies f, out
    ensures ret == 0 ==>
      var rest := f.lines[old(f.pos)..];
      out.written == old(out.written) + rest[..First(username, rest)]
    ensures ret == 0 && !flushed ==>
      var rest := f.lines[old(f.pos)..];
      !out.reliable && First(username, rest) < |rest|
    ensures ret == 0 && First(username, f.lines[old(f.pos)..]) == |f.lines[old(f.pos)..]| ==>
      forall i | old(f.pos) <= i < |f.lines| :: Whole(f.lines[i])
    ensures f.reliable && out.reliable && Sound(f.lines) ==> ret == 0
  {
    hide Owns, Whole;
    ghost var rest := f.lines[f.pos..];
    flushed := Outcome(out.reliable);
    if present {
      var buff;
      ret, buff := FindUserEntry(username, f, out);
      if ret == 0 { return; }
      if ret != STATE_NO_USER_ENTRY { return STATE_PARSE_ERROR, flushed; }
      assert rest[..First(username, rest)] == rest;
    }
    ret := if flushed then 0 else STATE_IO_ERROR;
  }

  // What a flush that fails leaves of what was written, which need not end with a whole line.
  method CutOff(written: seq<string>) returns (left: seq<string>)
    ensures Begins(left, written)
  {
    var k: nat, j: nat := *, *;
    if k >= |written| { return written; }
    left := written[..k];
    if 0 < j <= |written[k]| { left := left + [written[k][..j]]; }
  }

  method WriteEntry(e: DbEntry.Entry, out: OutFile) returns (ret: int)
    modifies out
    ensures ret == 0 ==> out.written == old(out.written) + [DbEntry.Buffered(DbEntry.Line(e), DbEntry.ENTRY_SIZE)]
    ensures out.reliable && Fits(e) ==> ret == 0
  {
    hide DbEntry.Line, DbEntry.Buffered;
    var buff;
    ret, buff := DbEntry.GenerateUserEntry(e, DbEntry.ENTRY_SIZE);
    if ret != 0 { return; }
    var ok := out.Fputs(buff);
    if !ok { return STATE_IO_ERROR; }
  }

  lemma Parts(user: string, lines: seq<string>, entry: seq<string>)
    ensures
      var rest := Behind(user, lines);
      Rewritten(user, lines, entry) == lines[..First(user, lines)] + entry + rest[..First(user, rest)]
    ensures lines == [] ==> First(user, lines) == 0 && Behind(user, lines) == []
    ensures First(user, lines) == |lines| ==> lines[..First(user, lines)] == lines
  {}

  //// What the rewrite keeps

  lemma {:induction false} OthersOfSum(user: string, a: seq<string>, b: seq<string>)
    ensures Others(user, a + b) == Others(user, a) + Others(user, b)
  {
    hide Owns;
    if a == [] {
      assert a + b == b;
    } else {
      var rest, first := a[1..], if Owns(user, a[0]) then [] else [a[0]];
      OthersOfSum(user, rest, b);
      assert (a + b)[1..] == rest + b && (a + b)[0] == a[0];
      Associate(first, Others(user, rest), Others(user, b));
    }
  }

  lemma {:induction false} OthersAll(user: string, lines: seq<string>)
    requires forall k | 0 <= k < |lines| :: !Owns(user, lines[k])
    ensures Others(user, lines) == lines
  {
    hide Owns;
    if lines != [] { OthersAll(user, lines[1..]); }
  }

  // The lines of other users are all kept, in order, exactly when none of them stands behind a second
  // line of the user.
  lemma OthersKept(user: string, lines: seq<string>, entry: seq<string>)
    requires forall l <- entry :: Owns(user, l)
    ensures
      var rest := Behind(user, lines);
      Others(user, Rewritten(user, lines, entry)) == Others(user, lines) <==>
        Others(user, rest[First(user, rest)..]) == []
  {
    hide Owns, Others, First, Behind, Rewritten;
    var rest := Behind(user, lines);
    OthersOfLines(user, lines);
    OthersOfRewritten(user, lines, entry);
    OthersFrom(user, rest, First(user, rest));
    Cancels(lines[..First(user, lines)], rest[..First(user, rest)], Others(user, rest[First(user, rest)..]));
  }

  lemma OthersFrom(user: string, lines: seq<string>, k: nat)
    requires k <= |lines| && forall i | 0 <= i < k :: !Owns(user, lines[i])
    ensures Others(user, lines) == lines[..k] + Others(user, lines[k..])
  {
    hide Owns, Others;
    OthersAll(user, lines[..k]);
    OthersOfSum(user, lines[..k], lines[k..]);
    assert lines == lines[..k] + lines[k..];
  }

  lemma OthersOfLines(user: string, lines: seq<string>)
    ensures Others(user, lines) == lines[..First(user, lines)] + Others(user, Behind(user, lines))
  {
    hide Owns, First, Others;
    var m := First(user, lines);
    OthersFrom(user, lines, m);
    OthersStep(user, lines[m..]);
    assert m < |lines| ==> lines[m..][1..] == lines[m + 1..];
  }

  lemma OthersStep(user: string, lines: seq<string>)
    ensures lines == [] ==> Others(user, lines) == []
    ensures lines != [] && Owns(user, lines[0]) ==> Others(user, lines) == Others(user, lines[1..])
  {
    hide Owns;
  }

  lemma OthersOfRewritten(user: string, lines: seq<string>, entry: seq<string>)
    requires forall l <- entry :: Owns(user, l)
    ensures
      var rest := Behind(user, lines);
      Others(user, Rewritten(user, lines, entry)) == lines[..First(user, lines)] + rest[..First(user, rest)]
  {
    hide Owns, First, Others, Behind;
    var front, rest := lines[..First(user, lines)], Behind(user, lines);
    var kept := rest[..First(user, rest)];
    OthersAll(user, front);
    OthersAll(user, kept);
    OwnLines(user, entry);
    OthersOfSum(user, front, entry);
    OthersOfSum(user, front + entry, kept);
    assert front + [] == front;
  }

  lemma Cancels<T>(front: seq<T>, a: seq<T>, b: seq<T>)
    ensures front + a == front + (a + b) <==> b == []
  {
    if b != [] { assert |front + (a + b)| > |front + a|; } else { assert a + b == a; }
  }

  lemma {:induction false} OwnLines(user: string, lines: seq<string>)
    requires forall l <- lines :: Owns(user, l)
    ensures Others(user, lines) == []
  {
    hide Owns;
    if lines != [] { OwnLines(user, lines[1..]); }
  }

  // With one line for each user, the new line takes the place of the old one, or comes last; the user
  // has no other line.
  lemma UniqueRewrite(user: string, lines: seq<string>, entry: seq<string>)
    requires UniqueUsers(lines)
    ensures
      Rewritten(user, lines, entry) == lines[..First(user, lines)] + entry + Behind(user, lines)
    ensures !Duplicate(user, lines)
  {
    var m := First(user, lines);
    if m < |lines| {
      var rest := lines[m + 1..];
      forall k | 0 <= k < |rest| ensures !Owns(user, rest[k]) { assert rest[k] == lines[m + 1 + k]; }
      NoMatch(user, rest);
      assert rest[..First(user, rest)] == rest;
    }
  }

  // The user's line alone changes: other users keep their lines in order, and nobody gets a second one.
  lemma StoreKeepsOthers(user: string, lines: seq<string>, entry: seq<string>)
    requires UniqueUsers(lines) && |entry| <= 1 && forall l <- entry :: Owns(user, l)
    ensures Others(user, Rewritten(user, lines, entry)) == Others(user, lines)
    ensures UniqueUsers(Rewritten(user, lines, entry))
    ensures forall l <- Rewritten(user, lines, entry) :: Owns(user, l) ==> entry == [l]
  {
    UniqueRewrite(user, lines, entry);
    OthersKept(user, lines, entry);
    var m := First(user, lines);
    var rest := if m < |lines| then lines[m + 1..] else [];
    forall k | 0 <= k < |rest| ensures !Owns(user, rest[k]) { assert rest[k] == lines[m + 1 + k]; }
    NoMatch(user, rest);
    var after := lines[..m] + entry + rest;
    UniqueAfter(user, lines, entry, m, rest, after);
  }

  // Where a line of the rewritten file comes from.
  lemma LineAfter(lines: seq<string>, entry: seq<string>, m: nat, rest: seq<string>, after: seq<string>, i: nat)
    requires m <= |lines| && rest == (if m < |lines| then lines[m + 1..] else [])
    requires after == lines[..m] + entry + rest && i < |after|
    ensures
      if i < m then after[i] == lines[i]
      else if i < m + |entry| then after[i] in entry
      else m < |lines| && after[i] == rest[i - m - |entry|] == lines[i - |entry| + 1]
  {}

  lemma UniqueAfter(user: string, lines: seq<string>, entry: seq<string>, m: nat, rest: seq<string>, after: seq<string>)
    requires UniqueUsers(lines) && |entry| <= 1 && (forall l <- entry :: Owns(user, l)) && m <= |lines|
    requires rest == (if m < |lines| then lines[m + 1..] else []) && after == lines[..m] + entry + rest
    requires (forall k | 0 <= k < m :: !Owns(user, lines[k])) && (forall k | 0 <= k < |rest| :: !Owns(user, rest[k]))
    ensures UniqueUsers(after) && forall l <- after :: Owns(user, l) ==> entry == [l]
  {
    forall i, j | 0 <= i < j < |after| && UserOf(after[i]).Some? ensures UserOf(after[i]) != UserOf(after[j]) {
      var e := |entry|;
      var i', j' := if i < m then i else i - e + 1, if j < m then j else j - e + 1;
      LineAfter(lines, entry, m, rest, after, i);
      LineAfter(lines, entry, m, rest, after, j);
    }
  }

  // What a store of an admitted state keeps, or any removal.
  lemma StoreKept(e: DbEntry.Entry, remove: bool, lines: seq<string>)
    ensures UniqueUsers(lines) ==> !Duplicate(e.username, lines)
    ensures
      var after := Rewritten(e.username, lines, NewLines(e, remove));
      UniqueUsers(lines) && (remove || DbEntry.Storable(e)) ==>
        && Others(e.username, after) == Others(e.username, lines) && UniqueUsers(after)
        && forall l <- after :: Owns(e.username, l) ==> !remove && l == DbEntry.Line(e)
  {
    if UniqueUsers(lines) {
      UniqueRewrite(e.username, lines, []);
      if remove || DbEntry.Storable(e) {
        if !remove { OwnEntry(e); }
        hide DbEntry.Storable, DbEntry.Line, DbEntry.Buffered, UniqueUsers, Others, Owns, Rewritten, Duplicate;
        StoreKeepsOthers(e.username, lines, if remove then [] else [DbEntry.Line(e)]);
      }
    }
  }

  // Where the line of an admitted state goes.
  lemma StorePlaces(e: DbEntry.Entry, remove: bool, lines: seq<string>)
    ensures UniqueUsers(lines) && (remove || DbEntry.Storable(e)) ==>
      var m := First(e.username, lines);
      Rewritten(e.username, lines, NewLines(e, remove))
      == if m == |lines| then (if remove then lines else lines + [DbEntry.Line(e)])
         else if remove then lines[..m] + lines[m + 1..]
         else lines[m := DbEntry.Line(e)]
  {
    if UniqueUsers(lines) && (remove || DbEntry.Storable(e)) {
      UniqueRewrite(e.username, lines, NewLines(e, remove));
      if !remove { OwnEntry(e); }
      Spliced(lines, First(e.username, lines), DbEntry.Line(e));
      hide First, Rewritten, UniqueUsers, DbEntry.Line, DbEntry.Buffered, DbEntry.Storable;
    }
  }

  lemma Spliced<T>(s: seq<T>, m: nat, x: T)
    requires m <= |s|
    ensures m == |s| ==> s[..m] + [] + [] == s && s[..m] + [x] + [] == s + [x]
    ensures m < |s| ==> s[..m] + [] + s[m + 1..] == s[..m] + s[m + 1..] && s[..m] + [x] + s[m + 1..] == s[m := x]
  {}

  // A printed entry belongs to its user: its name stands before the first separator.
  lemma OwnsPrefix(user: string, line: string)
    ensures Owns(user, line) <==> ':' !in user && user + ":" <= line
  {
    if ':' !in user && user + ":" <= line {
      var rest := line[|user|..];
      assert line == user + rest && rest[0] == ':';
      DbEntry.SplitPlain(user, rest);
      assert user + "" == user;
    }
    if ':' in line {
      var i := DbEntry.FirstSeparator(line);
      DbEntry.SplitPlain(line[..i], line[i..]);
      assert line == line[..i] + line[i..] && line[..i] + "" == line[..i];
    }
  }

  // A printed entry belongs to its user.
  lemma OwnEntry(e: DbEntry.Entry)
    requires DbEntry.Storable(e)
    ensures Owns(e.username, DbEntry.Line(e)) && Whole(DbEntry.Line(e))
    ensures DbEntry.Buffered(DbEntry.Line(e), DbEntry.ENTRY_SIZE) == DbEntry.Line(e)
  {
    DbEntry.LineLength(e);
    var rest := ":" + DbEntry.Join(DbEntry.Fields(e)[1..]) + "\n";
    FirstField(e, rest);
    DbEntry.SplitPlain(e.username, rest);
    assert e.username + "" == e.username;
  }

  lemma FirstField(e: DbEntry.Entry, rest: string)
    requires rest == ":" + DbEntry.Join(DbEntry.Fields(e)[1..]) + "\n"
    ensures DbEntry.Line(e) == e.username + rest && rest[0] == ':' && DbEntry.Split(rest)[0] == ""
  {
  }

  // A file with two lines of a user and a line of somebody else behind them loses that line.
  lemma DuplicateLosesLine(user: string, x: string, y: string)
    requires Owns(user, x) && !Owns(user, y)
    ensures Rewritten(user, [x, x, y], [x]) == [x] && Others(user, [x, x, y]) == [y]
  {
    hide Owns;
    var t := [x, x, y];
    assert t[1..] == [x, y] && t[1..][1..] == [y] && t[1..][1..][1..] == [];
    assert First(user, t) == 0 && First(user, t[1..]) == 0;
    assert Others(user, [y]) == [y];
    assert Others(user, t[1..]) == [y];
    assert t[..0] + [x] + t[1..][..0] == [x];
  }

  // What a store has written is found again, and read back as the entry.
  lemma StoreThenLoad(e: DbEntry.Entry, prior: DbEntry.Entry, lines: seq<string>)
    requires DbEntry.Storable(e) && prior.username == e.username
    ensures
      var after := Rewritten(e.username, lines, [DbEntry.Line(e)]);
      var m := First(e.username, after);
      && m < |after| && m == First(e.username, lines)
      && DbEntry.ParseLine(after[m], prior)
         == Some(e.(spassTime := if e.spass.Some? then e.spassTime else prior.spassTime))
  {
    hide Owns, First, DbEntry.Line, DbEntry.Buffered, DbEntry.ParseLine, DbEntry.Storable, Whole;
    OwnEntry(e);
    DbEntry.EntryRoundTrip(e, prior);
    var m := First(e.username, lines);
    var after := Rewritten(e.username, lines, [DbEntry.Line(e)]);
    assert forall k | 0 <= k < m :: after[k] == lines[k];
    FirstMatch(e.username, after, m);
  }
}
