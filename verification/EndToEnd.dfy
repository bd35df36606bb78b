// From a printed card to a login: the card is printed, any number of sessions run, and the counter
// that a session reserves names a cell of that card.
module EndToEnd {
  import opened Sequences
  import opened Machine
  import opened Num
  import opened Ppp
  import opened Cards
  import Reservation
  import Pam

  // The session holds the reserved counter with its card, row and column; the card was printed from
  // the record that the run began with, and key, code length, alphabet and flags are the same. The named
  // cell holds the passcode that ppp_authenticate compares with, and the cell is read back as the number
  // of that passcode.
  lemma ReservedCell(cfg: Config, start: Reservation.Record, n: nat, steps: seq<Reservation.Step>,
                     printed: State, s: State, encrypt: BlockCipher, title: string, num: string)
    requires start.counter < TWO128 && start.failures < TWO32
    requires s.counter.Value() in Reservation.Run(cfg, Reservation.Initial(start, n), steps).reserved
    requires printed.Valid() && printed.counter.Value() == start.counter && printed.flags == start.flags
    requires s.Valid() && s.sequenceKey == printed.sequenceKey && s.codeLength == printed.codeLength
    requires s.alphabet == printed.alphabet && s.flags == printed.flags
    requires ValidConfig(cfg) && KeepsBlocks(encrypt) && VerifyAlphabet(cfg, s.alphabet) == 0
    requires |title| + |num| + 2 <= Width(s.codeLength)
    requires s.Calculated()
    ensures CellShows(CardText(title, num, Codes(printed, cfg, encrypt, s.currentCard.Value()), s.codeLength),
                      PromptPlace(s), s.codeLength,
                      Expected(s, cfg, encrypt))
    ensures OnCard(PromptPlace(s), s.codeLength)
    ensures Mod128(NumberOf(PromptPlace(s), s.codeLength)) == Number(s.Salted(), s.counter.Value())
  {
    hide Reservation.Run, Reservation.Initial, Salt, Number, ValidConfig, KeepsBlocks, VerifyAlphabet, Expected,
      Codes, CardText, Width, CellShows, NumberOf, Mod128;
    Reservation.ReservedOnce(cfg, start, n, steps);
    assert Reservation.Salted(start) == s.Salted() == printed.Salted();
    assert SameKey(printed, s);
    PromptCell(printed, s, cfg, encrypt, title, num);
    PromptNumber(s);
  }

  // A login that has come to its end, with any answers.
  ghost predicate Happened(l: Pam.Login, trace: seq<Pam.Event>) {
    exists answers, retval, consumed :: Pam.Ended(l, answers, retval, trace, consumed)
  }

  // The counters of session i of a run.
  function CountersOf(w: Reservation.World, i: nat): seq<nat>
    requires |w.owners| == |w.reserved|
  {
    Reservation.ReservedBy(w.reserved, w.owners, i)
  }

  // The counters of a login: some of those of its session, one after the other.
  datatype Share = Share(session: nat, from: nat, to: nat)

  predicate Takes(l: Pam.Login, w: Reservation.World, a: Share) {
    && |w.owners| == |w.reserved| && a.from <= a.to <= |CountersOf(w, a.session)|
    && l.counters == CountersOf(w, a.session)[a.from..a.to]
  }

  predicate Apart(a: Share, b: Share) {
    a.session != b.session || a.to <= b.from || b.to <= a.from
  }

  // Sessions log in at the same time, each any number of times, with the counters that the run reserved
  // for it, while any others go on. The counters are fit for the login loop; no counter is checked in two
  // logins, and none is accepted twice.
  lemma AcceptedOnce(cfg: Config, start: Reservation.Record, n: nat, steps: seq<Reservation.Step>, a: Share, b: Share,
                     l: Pam.Login, m: Pam.Login, t: seq<Pam.Event>, u: seq<Pam.Event>, x: nat, y: nat)
    requires start.counter < TWO128 && start.failures < TWO32
    ensures
      var w := Reservation.Run(cfg, Reservation.Initial(start, n), steps);
      && (Takes(l, w, a) ==> Ascending(l.counters))
      && (Takes(l, w, a) && Takes(m, w, b) && Happened(l, t) && Happened(m, u)
          && x < |t| && y < |u| && t[x].Check? && u[y].Check? && t[x].counter == u[y].counter
          ==> !Apart(a, b) && (t == u && t[x].accepted && u[y].accepted ==> x == y))
  {
    hide Reservation.Run, Reservation.Initial, Salt, Number, Pam.Reserved, Pam.Ended;
    Reservation.ReservedOnce(cfg, start, n, steps);
    var w := Reservation.Run(cfg, Reservation.Initial(start, n), steps);
    if Takes(l, w, a) { Reservation.ReservedByPlaces(w.reserved, w.owners, a.session); }
    if Takes(l, w, a) && Takes(m, w, b) && Happened(l, t) && Happened(m, u)
       && x < |t| && y < |u| && t[x].Check? && u[y].Check? && t[x].counter == u[y].counter {
      FromCounters(l, t, x);
      FromCounters(m, u, y);
      Shared(w, a, b, t[x].counter);
    }
  }

  // A counter in two shares is in one that they have in common.
  lemma Shared(w: Reservation.World, a: Share, b: Share, c: nat)
    requires |w.owners| == |w.reserved| && Ascending(w.reserved)
    requires a.from <= a.to <= |CountersOf(w, a.session)| && b.from <= b.to <= |CountersOf(w, b.session)|
    requires c in CountersOf(w, a.session)[a.from..a.to] && c in CountersOf(w, b.session)[b.from..b.to]
    ensures !Apart(a, b)
  {
    Reservation.ReservedApart(w.reserved, w.owners, a.session, b.session, c);
    Reservation.ReservedByPlaces(w.reserved, w.owners, a.session);
    var all := CountersOf(w, a.session);
    var i :| a.from <= i < a.to && all[i] == c;
    var j :| b.from <= j < b.to && all[j] == c;
    assert i == j;
  }

  lemma FromCounters(l: Pam.Login, t: seq<Pam.Event>, x: nat)
    requires Happened(l, t) && x < |t| && t[x].Check?
    ensures t[x].counter in l.counters && (t[x].accepted ==> x == |t| - 1)
  {
    var answers, retval, consumed :| Pam.Ended(l, answers, retval, t, consumed);
    if t[x].accepted { Pam.AcceptedLast(l, answers, retval, t, consumed, x); }
    hide Pam.Reserved;
    Pam.CheckedWasReserved(l, t, x);
  }
}
