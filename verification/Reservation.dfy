// The reservation protocol of src/libotp/ppp.c, src/libotp/state.c and src/agent/request.c: any number of
// sessions lock, load, check, store and unlock the record of one user, their steps interleaved at will.
// The state lock is taken to be a mutex. Every operation on files may fail.
module Reservation {
  import opened Sequences
  import opened ErrorCodes
  import opened Wrappers
  import opened Machine
  import opened Num
  import opened Ppp

  // The stored fields that the operations read or write. The key does not change during a run.
  datatype Record = Record(counter: nat, failures: nat, recentFailures: nat, channelTime: int, codeLength: Length,
                           alphabet: nat, flags: nat)

  datatype Op =
    | Increment              // ppp_increment
    | Failures(zero: bool)   // ppp_failures
    | OobTime(now: int)      // ppp_oob_time
    | SetLength(length: int) // AGENT_REQ_SET_INT of the code length
    | StoreUnlocked          // AGENT_REQ_STATE_LOAD, then AGENT_REQ_STATE_STORE

  datatype Phase =
    | Idle
    | Starting
    | Locked
    | Loaded
    | Releasing(code: int) // holds the return code that the operation has reached
    | Done(code: int)

  // A session: the state structure it works on, and where it stands.
  datatype Session = Session(op: Op, phase: Phase, locked: bool, copy: Record)

  // reserved lists the counters of the successful ppp_increment calls, in order of return, and owners the
  // sessions that made them; log lists the operations that were stored, in order.
  datatype World = World(db: Record, lock: Option<nat>, sessions: seq<Session>, reserved: seq<nat>, owners: seq<nat>,
                         log: seq<Op>)

  // What state_unlock can do: succeed, report an error after letting the lock go, or fail before.
  datatype Release = Released | ReleasedWithError | NotReleased

  // A step of session i, with the outcome of its file operation.
  datatype Step =
    | Begin(i: nat, op: Op)
    | Lock(i: nat, ok: bool)
    | Load(i: nat, ok: bool)
    | Store(i: nat, ok: bool)
    | Unlock(i: nat, release: Release)
    | Fini(i: nat, release: Release)

  function Salted(r: Record): bool {
    HasFlag(r.flags, FLAG_SALTED)
  }

  // ppp_state_verify and the check of the disabled flag in ppp_increment.
  function IncrementCheck(cfg: Config, r: Record): int {
    if VerifyFlags(cfg, r.flags) != 0 || VerifyAlphabet(cfg, r.alphabet) != 0 then PPP_ERROR_POLICY
    else if VerifyCodeLength(cfg, r.codeLength) != 0 then PPP_ERROR_POLICY
    else if HasFlag(r.flags, FLAG_DISABLED) then PPP_ERROR_DISABLED
    else 0
  }

  // ppp_verify_range.
  function RangeCheck(r: Record): (code: int)
    ensures code == 0 <==> InRange(Salted(r), r.counter, r.codeLength)
  {
    if r.counter > MAX_COUNTER then STATE_PARSE_ERROR
    else if Number(Salted(r), r.counter) >= MaxCode(Salted(r), r.codeLength) then STATE_NUMSPACE
    else 0
  }

  // The return code of an operation that ends before it stores, or zero. The agent goes on with an
  // exhausted record, but without the lock, so that its store is refused with code 2.
  function Refusal(cfg: Config, op: Op, r: Record): int {
    match op
    case Increment => if RangeCheck(r) != 0 then RangeCheck(r) else IncrementCheck(cfg, r)
    case Failures(_) => RangeCheck(r)
    case OobTime(_) => RangeCheck(r)
    case SetLength(n) =>
      if RangeCheck(r) == STATE_PARSE_ERROR then STATE_PARSE_ERROR
      else if VerifyCodeLength(cfg, n) != 0 then VerifyCodeLength(cfg, n)
      else if RangeCheck(r) != 0 then 2
      else 0
    case StoreUnlocked => 0
  }

  // The record that an operation stores. Counts are unsigned 32-bit numbers.
  function Changed(cfg: Config, op: Op, r: Record): Record
    requires Refusal(cfg, op, r) == 0
  {
    match op
    case Increment => r.(counter := (r.counter + 1) % TWO128)
    case Failures(zero) =>
      if zero then r.(recentFailures := 0)
      else r.(failures := (r.failures + 1) % TWO32, recentFailures := (r.recentFailures + 1) % TWO32)
    case OobTime(now) => r.(channelTime := now)
    case SetLength(n) => r.(codeLength := n)
    case StoreUnlocked => r
  }

  //// Steps

  function Put(w: World, i: nat, s: Session): World
    requires i < |w.sessions|
  {
    w.(sessions := w.sessions[i := s])
  }

  function TryLock(w: World, i: nat, ok: bool): World
    requires i < |w.sessions|
  {
    var s := w.sessions[i];
    if s.op == StoreUnlocked then Put(w, i, s.(phase := Locked))
    else if ok && w.lock == None then Put(w, i, s.(phase := Locked, locked := true)).(lock := Some(i))
    else Put(w, i, s.(phase := Done(STATE_LOCK_ERROR)))
  }

  // ppp_state_load after the lock, and the checks before anything is changed.
  function TryLoad(cfg: Config, w: World, i: nat, ok: bool): World
    requires i < |w.sessions|
  {
    var s := w.sessions[i];
    if !ok then Put(w, i, s.(phase := Releasing(STATE_PARSE_ERROR)))
    else
      var code := Refusal(cfg, s.op, w.db);
      Put(w, i, s.(copy := w.db, phase := if code == 0 then Loaded else Releasing(code)))
  }

  // state_store: refused without the lock, otherwise all or nothing.
  function TryStore(cfg: Config, w: World, i: nat, ok: bool): World
    requires i < |w.sessions|
  {
    var s := w.sessions[i];
    if !s.locked then Put(w, i, s.(phase := Releasing(2)))
    else if !ok || Refusal(cfg, s.op, s.copy) != 0 then Put(w, i, s.(phase := Releasing(1)))
    else
      Put(w, i, s.(phase := Releasing(0)))
        .(db := Changed(cfg, s.op, s.copy), log := w.log + [s.op])
  }

  // state_unlock, and the return to the caller.
  function TryUnlock(w: World, i: nat, release: Release): World
    requires i < |w.sessions| && w.sessions[i].phase.Releasing?
  {
    var s := w.sessions[i];
    var code := if s.phase.code != 0 || release == Released then s.phase.code else STATE_LOCK_ERROR;
    var kept := s.locked && release == NotReleased;
    var done := Put(w, i, s.(phase := Done(code), locked := kept));
    done.(lock := if s.locked && !kept then None else w.lock,
          reserved := if s.op == Increment && code == 0 then w.reserved + [s.copy.counter] else w.reserved,
          owners := if s.op == Increment && code == 0 then w.owners + [i] else w.owners)
  }

  // state_fini unlocks once more what an operation could not.
  function TryFini(w: World, i: nat, release: Release): World
    requires i < |w.sessions|
  {
    var s := w.sessions[i];
    if !s.locked || release == NotReleased then w else Put(w, i, s.(locked := false)).(lock := None)
  }

  // A step that is not possible changes nothing.
  function Apply(cfg: Config, w: World, step: Step): World {
    if step.i >= |w.sessions| then w else
      var s := w.sessions[step.i];
      match step
      case Begin(i, op) =>
        if (s.phase.Idle? || s.phase.Done?) && !s.locked then Put(w, i, s.(op := op, phase := Starting)) else w
      case Lock(i, ok) => if s.phase.Starting? then TryLock(w, i, ok) else w
      case Load(i, ok) => if s.phase.Locked? then TryLoad(cfg, w, i, ok) else w
      case Store(i, ok) => if s.phase.Loaded? then TryStore(cfg, w, i, ok) else w
      case Unlock(i, release) => if s.phase.Releasing? then TryUnlock(w, i, release) else w
      case Fini(i, release) => if s.phase.Done? then TryFini(w, i, release) else w
  }

  function Run(cfg: Config, w: World, steps: seq<Step>): World {
    if steps == [] then w else Apply(cfg, Run(cfg, w, steps[..|steps| - 1]), steps[|steps| - 1])
  }

  function Initial(db: Record, n: nat): World {
    World(db, None, seq(n, _ => Session(Increment, Idle, false, db)), [], [], [])
  }

  //// Invariants

  // How often an operation was stored.
  function Count(log: seq<Op>, op: Op): nat {
    if log == [] then 0 else Count(log[..|log| - 1], op) + if log[|log| - 1] == op then 1 else 0
  }

  lemma CountMore(log: seq<Op>, last: Op, op: Op)
    ensures Count(log + [last], op) == Count(log, op) + if last == op then 1 else 0
  {
    assert (log + [last])[..|log|] == log;
  }

  // The lock belongs to the one session that believes to hold it.
  predicate Mutex(w: World) {
    && (forall i | 0 <= i < |w.sessions| :: w.sessions[i].locked <==> w.lock == Some(i))
    && (forall i | 0 <= i < |w.sessions| :: w.sessions[i].locked ==> w.sessions[i].op != StoreUnlocked)
    && (forall i | 0 <= i < |w.sessions| :: w.sessions[i].locked ==>
      || w.sessions[i].phase.Locked? || w.sessions[i].phase.Loaded?
      || w.sessions[i].phase.Releasing? || w.sessions[i].phase.Done?)
  }

  // Whoever holds the lock and has loaded works on what is stored.
  predicate Fresh(cfg: Config, w: World) {
    forall i | 0 <= i < |w.sessions| && w.sessions[i].phase.Loaded? && w.sessions[i].locked ::
      w.sessions[i].copy == w.db && Refusal(cfg, w.sessions[i].op, w.db) == 0
  }

  // A session that has stored an increment and not yet returned has the counter before the stored one.
  predicate Pending(w: World, start: Record) {
    forall i | 0 <= i < |w.sessions| && w.sessions[i].op == Increment && w.sessions[i].phase == Releasing(0) ::
      && w.sessions[i].locked && w.sessions[i].copy.counter + 1 == w.db.counter
      && start.counter <= w.sessions[i].copy.counter
      && Salt(Salted(start), w.sessions[i].copy.counter) == Salt(Salted(start), start.counter)
      && forall c <- w.reserved :: c < w.sessions[i].copy.counter
  }

  // Reserved counters ascend, lie below the stored one, and have the salt and flags of the beginning;
  // the stored counts are those of the beginning plus the stores.
  predicate Counted(w: World, start: Record) {
    && Ascending(w.reserved) && |w.owners| == |w.reserved|
    && (forall c <- w.reserved ::
          start.counter <= c < w.db.counter && Salt(Salted(start), c) == Salt(Salted(start), start.counter))
    && w.db.flags == start.flags && w.db.alphabet == start.alphabet
    && w.db.counter == start.counter + Count(w.log, Increment) < TWO128
    && Salt(Salted(start), w.db.counter) == Salt(Salted(start), start.counter)
    && Number(Salted(start), w.db.counter) == Number(Salted(start), start.counter) + Count(w.log, Increment)
    && w.db.failures == (start.failures + Count(w.log, Failures(false))) % TWO32
  }

  predicate Inv(cfg: Config, w: World, start: Record) {
    Mutex(w) && Fresh(cfg, w) && Pending(w, start) && Counted(w, start)
  }

  //// Every step keeps the invariants

  lemma InitialInv(cfg: Config, start: Record, n: nat)
    requires start.counter < TWO128 && start.failures < TWO32
    ensures Inv(cfg, Initial(start, n), start)
  {}

  lemma BeginKeeps(cfg: Config, w: World, start: Record, i: nat, op: Op)
    requires Inv(cfg, w, start) && i < |w.sessions|
    ensures Inv(cfg, Apply(cfg, w, Begin(i, op)), start)
  {
    hide Refusal, Changed, Salt, Number, HasFlag, Count;
  }

  lemma LockKeeps(cfg: Config, w: World, start: Record, i: nat, ok: bool)
    requires Inv(cfg, w, start) && i < |w.sessions|
    ensures Inv(cfg, Apply(cfg, w, Lock(i, ok)), start)
  {
    hide Refusal, Changed, Salt, Number, HasFlag, Count;
  }

  lemma LoadKeeps(cfg: Config, w: World, start: Record, i: nat, ok: bool)
    requires Inv(cfg, w, start) && i < |w.sessions|
    ensures Inv(cfg, Apply(cfg, w, Load(i, ok)), start)
  {
    hide Refusal, Changed, Salt, Number, HasFlag, Count;
  }

  lemma UnlockKeeps(cfg: Config, w: World, start: Record, i: nat, release: Release)
    requires Inv(cfg, w, start) && i < |w.sessions|
    ensures Inv(cfg, Apply(cfg, w, Unlock(i, release)), start)
  {
    UnlockCounts(cfg, w, start, i, release);
    hide Refusal, Changed, Salt, Number, HasFlag, Count, Counted;
  }

  lemma UnlockCounts(cfg: Config, w: World, start: Record, i: nat, release: Release)
    requires Pending(w, start) && Counted(w, start) && i < |w.sessions|
    ensures Counted(Apply(cfg, w, Unlock(i, release)), start)
  {
    hide Refusal, Changed, Salt, Number, HasFlag, Count;
    var w', s := Apply(cfg, w, Unlock(i, release)), w.sessions[i];
    if s.op == Increment && s.phase == Releasing(0) { Appended(w.reserved, s.copy.counter); }
    assert Ascending(w'.reserved);
  }

  lemma FiniKeeps(cfg: Config, w: World, start: Record, i: nat, release: Release)
    requires Inv(cfg, w, start) && i < |w.sessions|
    ensures Inv(cfg, Apply(cfg, w, Fini(i, release)), start)
  {
    hide Refusal, Changed, Salt, Number, HasFlag, Count;
  }

  // A store writes what the operation makes of the record as it is stored, never of a stale copy;
  // without the lock it writes nothing.
  lemma StoreIsFresh(cfg: Config, w: World, start: Record, i: nat, ok: bool)
    requires Inv(cfg, w, start) && i < |w.sessions|
    ensures
      var s, db := w.sessions[i], Apply(cfg, w, Store(i, ok)).db;
      || db == w.db
      || (s.locked && s.op != StoreUnlocked && Refusal(cfg, s.op, w.db) == 0 && db == Changed(cfg, s.op, w.db))
  {
    hide Refusal, Changed, Salt, Number, HasFlag, Count;
  }

  // What a store does to the record and the counts.
  function Stored(cfg: Config, w: World, op: Op): World
    requires Refusal(cfg, op, w.db) == 0
  {
    w.(db := Changed(cfg, op, w.db), log := w.log + [op])
  }

  lemma StoredCounted(cfg: Config, w: World, start: Record, op: Op)
    requires Counted(w, start) && Refusal(cfg, op, w.db) == 0
    ensures Counted(Stored(cfg, w, op), start)
    ensures op == Increment ==> Stored(cfg, w, op).db.counter == w.db.counter + 1
  {
    if op == Increment { IncrementCounted(cfg, w, start); } else { OtherCounted(cfg, w, start, op); }
  }

  lemma IncrementCounted(cfg: Config, w: World, start: Record)
    requires Counted(w, start) && Refusal(cfg, Increment, w.db) == 0
    ensures Counted(Stored(cfg, w, Increment), start)
    ensures Stored(cfg, w, Increment).db.counter == w.db.counter + 1
  {
    CountMore(w.log, Increment, Increment);
    CountMore(w.log, Increment, Failures(false));
    IncrementChanges(cfg, w.db);
    var w' := Stored(cfg, w, Increment);
    hide Refusal, Changed, Stored;
    CountedMore(w, w', start);
  }

  lemma CountedMore(w: World, w': World, start: Record)
    requires Counted(w, start) && w' == w.(db := w.db.(counter := w.db.counter + 1), log := w'.log)
    requires Count(w'.log, Increment) == Count(w.log, Increment) + 1
    requires Count(w'.log, Failures(false)) == Count(w.log, Failures(false))
    requires w.db.counter + 1 < TWO128
    requires Number(Salted(w.db), w.db.counter + 1) == Number(Salted(w.db), w.db.counter) + 1
    requires Salt(Salted(w.db), w.db.counter + 1) == Salt(Salted(w.db), w.db.counter)
    ensures Counted(w', start)
  {
    hide Salt, Number, HasFlag, Count;
  }

  lemma IncrementChanges(cfg: Config, r: Record)
    requires Refusal(cfg, Increment, r) == 0
    ensures Changed(cfg, Increment, r) == r.(counter := r.counter + 1) && r.counter + 1 < TWO128
    ensures Number(Salted(r), r.counter + 1) == Number(Salted(r), r.counter) + 1
    ensures Salt(Salted(r), r.counter + 1) == Salt(Salted(r), r.counter)
  {
    IncrementInRange(Salted(r), r.counter, r.codeLength);
    hide InRange, IncrementCheck, Salt, Number, HasFlag;
    SmallSum(r.counter);
  }

  lemma OtherCounted(cfg: Config, w: World, start: Record, op: Op)
    requires Counted(w, start) && Refusal(cfg, op, w.db) == 0 && op != Increment
    ensures Counted(Stored(cfg, w, op), start)
  {
    CountMore(w.log, op, Increment);
    CountMore(w.log, op, Failures(false));
    hide InRange, IncrementCheck, Salt, Number, HasFlag, Count;
    OneMore(start.failures + Count(w.log, Failures(false)));
  }

  lemma SmallSum(n: nat)
    ensures n + 1 < TWO128 ==> (n + 1) % TWO128 == n + 1
  {}

  lemma OneMore(n: nat)
    ensures (n % TWO32 + 1) % TWO32 == (n + 1) % TWO32
  {}

  lemma SameCounts(w: World, w': World, start: Record)
    requires w.db == w'.db && w.log == w'.log && w.reserved == w'.reserved && w.owners == w'.owners
    requires Counted(w', start)
    ensures Counted(w, start)
  {
    hide Salt, Number, HasFlag, Count;
  }

  lemma StoreKeeps(cfg: Config, w: World, start: Record, i: nat, ok: bool)
    requires Inv(cfg, w, start) && i < |w.sessions|
    ensures Inv(cfg, Apply(cfg, w, Store(i, ok)), start)
  {
    hide Inv, Apply;
    var s := w.sessions[i];
    if s.phase.Loaded? && s.locked && ok {
      StoredKeeps(cfg, w, start, i);
    } else {
      RefusedKeeps(cfg, w, start, i, ok);
    }
  }

  lemma StoredKeeps(cfg: Config, w: World, start: Record, i: nat)
    requires Inv(cfg, w, start) && i < |w.sessions| && w.sessions[i].phase.Loaded? && w.sessions[i].locked
    ensures Inv(cfg, Apply(cfg, w, Store(i, true)), start)
  {
    var s := w.sessions[i];
    StoredCounted(cfg, w, start, s.op);
    Unstored(cfg, w, i);
    SameCounts(Apply(cfg, w, Store(i, true)), Stored(cfg, w, s.op), start);
    hide Refusal, Changed, Salt, Number, HasFlag, Count, Counted;
  }

  lemma RefusedKeeps(cfg: Config, w: World, start: Record, i: nat, ok: bool)
    requires Inv(cfg, w, start) && i < |w.sessions|
    requires !(w.sessions[i].phase.Loaded? && w.sessions[i].locked && ok)
    ensures Inv(cfg, Apply(cfg, w, Store(i, ok)), start)
  {
    hide Refusal, Changed, Salt, Number, HasFlag, Count;
  }

  lemma ApplyKeeps(cfg: Config, w: World, start: Record, step: Step)
    requires Inv(cfg, w, start)
    ensures Inv(cfg, Apply(cfg, w, step), start)
  {
    if step.i < |w.sessions| {
      match step
      case Begin(i, op) => BeginKeeps(cfg, w, start, i, op);
      case Lock(i, ok) => LockKeeps(cfg, w, start, i, ok);
      case Load(i, ok) => LoadKeeps(cfg, w, start, i, ok);
      case Store(i, ok) => StoreKeeps(cfg, w, start, i, ok);
      case Unlock(i, release) => UnlockKeeps(cfg, w, start, i, release);
      case Fini(i, release) => FiniKeeps(cfg, w, start, i, release);
    }
  }

  //// Over every run

  lemma {:induction false} RunKeeps(cfg: Config, start: Record, n: nat, steps: seq<Step>)
    requires start.counter < TWO128 && start.failures < TWO32
    ensures Inv(cfg, Run(cfg, Initial(start, n), steps), start)
  {
    hide Inv, Apply, Initial;
    if steps == [] {
      InitialInv(cfg, start, n);
    } else {
      RunKeeps(cfg, start, n, steps[..|steps| - 1]);
      ApplyKeeps(cfg, Run(cfg, Initial(start, n), steps[..|steps| - 1]), start, steps[|steps| - 1]);
    }
  }

  // No two successful calls of ppp_increment return with the same counter, whatever else goes on, and
  // the stored counter is above all of them. The salt is that of the beginning, and the passcode number
  // counts the increments: adding one never carried out of it.
  lemma ReservedOnce(cfg: Config, start: Record, n: nat, steps: seq<Step>)
    requires start.counter < TWO128 && start.failures < TWO32
    ensures
      var w := Run(cfg, Initial(start, n), steps);
      && |w.owners| == |w.reserved| && (forall i, j | 0 <= i < j < |w.reserved| :: w.reserved[i] < w.reserved[j])
      && (forall c <- w.reserved ::
            start.counter <= c < w.db.counter && Salt(Salted(start), c) == Salt(Salted(start), start.counter))
      && w.db.counter == start.counter + Count(w.log, Increment) < TWO128
      && Number(Salted(start), w.db.counter) == Number(Salted(start), start.counter) + Count(w.log, Increment)
      && w.db.failures == (start.failures + Count(w.log, Failures(false))) % TWO32
  {
    hide Run, Initial, Salt, Number;
    RunKeeps(cfg, start, n, steps);
  }

  // The counters that calls of session i returned with.
  function ReservedBy(reserved: seq<nat>, owners: seq<nat>, i: nat): seq<nat>
    requires |owners| == |reserved|
  {
    if reserved == [] then []
    else
      var n := |reserved| - 1;
      ReservedBy(reserved[..n], owners[..n], i) + if owners[n] == i then [reserved[n]] else []
  }

  // They are those of all the reserved counters at places that belong to the session, and they ascend.
  lemma {:induction false} ReservedByPlaces(reserved: seq<nat>, owners: seq<nat>, i: nat)
    requires |owners| == |reserved| && Ascending(reserved)
    ensures Ascending(ReservedBy(reserved, owners, i))
    ensures forall c <- ReservedBy(reserved, owners, i) ::
      exists k :: 0 <= k < |reserved| && owners[k] == i && reserved[k] == c
    ensures forall k | 0 <= k < |reserved| && owners[k] == i :: reserved[k] in ReservedBy(reserved, owners, i)
  {
    if reserved != [] {
      var n := |reserved| - 1;
      var rest := ReservedBy(reserved[..n], owners[..n], i);
      ReservedByPlaces(reserved[..n], owners[..n], i);
      forall c | c in rest
        ensures c < reserved[n] && exists k :: 0 <= k < |reserved| && owners[k] == i && reserved[k] == c
      {
        var k :| 0 <= k < n && owners[..n][k] == i && reserved[..n][k] == c;
        assert owners[k] == i && reserved[k] == c;
      }
      Appended(rest, reserved[n]);
      forall k | 0 <= k < |reserved| && owners[k] == i ensures reserved[k] in ReservedBy(reserved, owners, i) {
        if k < n { assert reserved[k] == reserved[..n][k] && owners[k] == owners[..n][k]; }
      }
    }
  }

  // No counter belongs to two sessions.
  lemma ReservedApart(reserved: seq<nat>, owners: seq<nat>, i: nat, j: nat, c: nat)
    requires |owners| == |reserved| && Ascending(reserved)
    requires c in ReservedBy(reserved, owners, i) && c in ReservedBy(reserved, owners, j)
    ensures i == j
  {
    ReservedByPlaces(reserved, owners, i);
    ReservedByPlaces(reserved, owners, j);
    var k :| 0 <= k < |reserved| && owners[k] == i && reserved[k] == c;
    var m :| 0 <= m < |reserved| && owners[m] == j && reserved[m] == c;
    assert k == m;
  }

  // In every run, a store leaves the record alone or writes what its operation makes of it, under the
  // lock; a session without the lock never changes it.
  lemma NoStaleStore(cfg: Config, start: Record, n: nat, steps: seq<Step>, i: nat, ok: bool)
    requires start.counter < TWO128 && start.failures < TWO32 && i < n
    ensures |Run(cfg, Initial(start, n), steps).sessions| == n
    ensures
      var w := Run(cfg, Initial(start, n), steps);
      var s, db := w.sessions[i], Apply(cfg, w, Store(i, ok)).db;
      || db == w.db
      || (s.locked && s.op != StoreUnlocked && Refusal(cfg, s.op, w.db) == 0 && db == Changed(cfg, s.op, w.db))
  {
    hide Refusal, Changed, Inv;
    RunKeeps(cfg, start, n, steps);
    SessionCount(cfg, Initial(start, n), steps);
    StoreIsFresh(cfg, Run(cfg, Initial(start, n), steps), start, i, ok);
  }

  lemma {:induction false} SessionCount(cfg: Config, w: World, steps: seq<Step>)
    ensures |Run(cfg, w, steps).sessions| == |w.sessions|
  {
    hide Refusal, Changed;
    if steps != [] { SessionCount(cfg, w, steps[..|steps| - 1]); }
  }

  //// What a call achieves

  // A call without others in between, with the outcomes of its file operations.
  datatype Outcomes = Outcomes(lock: bool, load: bool, store: bool, release: Release)

  function Call(i: nat, op: Op, o: Outcomes): seq<Step> {
    [Begin(i, op), Lock(i, o.lock), Load(i, o.load), Store(i, o.store), Unlock(i, o.release)]
  }

  lemma RunOfCall(cfg: Config, w: World, i: nat, op: Op, o: Outcomes)
    ensures
      var w1 := Apply(cfg, w, Begin(i, op));
      var w2 := Apply(cfg, w1, Lock(i, o.lock));
      var w3 := Apply(cfg, w2, Load(i, o.load));
      var w4 := Apply(cfg, w3, Store(i, o.store));
      Run(cfg, w, Call(i, op, o)) == Apply(cfg, w4, Unlock(i, o.release))
  {
    hide Apply;
    var c := Call(i, op, o);
    assert c[..0] == [] && c[..5] == c;
    LastStep(cfg, w, c, 0);
    LastStep(cfg, w, c, 1);
    LastStep(cfg, w, c, 2);
    LastStep(cfg, w, c, 3);
    LastStep(cfg, w, c, 4);
  }

  lemma LastStep(cfg: Config, w: World, steps: seq<Step>, k: nat)
    requires k < |steps|
    ensures Run(cfg, w, steps[..k + 1]) == Apply(cfg, Run(cfg, w, steps[..k]), steps[k])
  {
    hide Apply;
    assert steps[..k + 1][..k] == steps[..k];
  }

  // A session that may begin, while nobody holds the lock.
  predicate Free(w: World, i: nat) {
    && i < |w.sessions| && w.lock == None && !w.sessions[i].locked
    && (w.sessions[i].phase.Idle? || w.sessions[i].phase.Done?)
  }

  // A call has stored a record and returned, or returned the code of what went wrong.
  predicate Achieved(w: World, w': World, i: nat, db: Record, stored: bool, o: Outcomes, code: int) {
    && |w'.sessions| == |w.sessions| && i < |w.sessions| && w'.db == db
    && (forall j | 0 <= j < |w.sessions| && j != i :: w'.sessions[j] == w.sessions[j])
    && w'.sessions[i].phase == Done(if !stored then code else if o.release == Released then 0 else STATE_LOCK_ERROR)
    && w'.lock == (if o.lock && o.release == NotReleased then Some(i) else None)
  }

  // The code of a failure before anything is changed: the lock, the file, or the range of the counter;
  // zero if there is none.
  function EarlyCode(o: Outcomes, r: Record): int {
    if !o.lock then STATE_LOCK_ERROR
    else if !o.load || r.counter > MAX_COUNTER then STATE_PARSE_ERROR
    else if !InRange(HasFlag(r.flags, FLAG_SALTED), r.counter, r.codeLength) then STATE_NUMSPACE
    else 0
  }

  predicate PolicyAccepts(cfg: Config, r: Record) {
    Permits(cfg, r.flags, r.alphabet, r.codeLength)
  }

  // ppp_increment stores the next counter and returns with the old one, exactly when the counter is in
  // range, policy accepts the record, it is not disabled, and the file operations succeed.
  lemma IncrementAchieves(cfg: Config, w: World, i: nat, o: Outcomes)
    requires Free(w, i)
    ensures
      var w', r := Run(cfg, w, Call(i, Increment, o)), w.db;
      var good := EarlyCode(o, r) == 0 && PolicyAccepts(cfg, r) && !HasFlag(r.flags, FLAG_DISABLED);
      var code := if EarlyCode(o, r) != 0 then EarlyCode(o, r)
                  else if !PolicyAccepts(cfg, r) then PPP_ERROR_POLICY
                  else if HasFlag(r.flags, FLAG_DISABLED) then PPP_ERROR_DISABLED
                  else 1;
      var stored := good && o.store;
      && Achieved(w, w', i, if stored then r.(counter := r.counter + 1) else r, stored, o, code)
      && w'.reserved == w.reserved + (if stored && o.release == Released then [r.counter] else [])
      && w'.owners == w.owners + (if stored && o.release == Released then [i] else [])
      && w'.log == w.log + (if stored then [Increment] else [])
  {
    RunOfCall(cfg, w, i, Increment, o);
    IncrementInRangeFits(w.db);
    PolicyPermits(cfg, w.db.flags, w.db.alphabet, w.db.codeLength);
    hide Run, Call, InRange, Number, Salt, HasFlag, VerifyFlags, VerifyAlphabet, VerifyCodeLength, Permits;
  }

  lemma IncrementInRangeFits(r: Record)
    ensures InRange(Salted(r), r.counter, r.codeLength) ==> (r.counter + 1) % TWO128 == r.counter + 1
  {
    hide MaxCode;
    if InRange(Salted(r), r.counter, r.codeLength) {
      IncrementInRange(Salted(r), r.counter, r.codeLength);
      SmallSum(r.counter);
    }
  }

  // ppp_failures counts, or clears the recent count, exactly when the counter is in range and the file
  // operations succeed.
  lemma FailuresAchieves(cfg: Config, w: World, i: nat, zero: bool, o: Outcomes)
    requires Free(w, i)
    ensures
      var w', r := Run(cfg, w, Call(i, Failures(zero), o)), w.db;
      var next := if zero then r.(recentFailures := 0)
                  else r.(failures := (r.failures + 1) % TWO32, recentFailures := (r.recentFailures + 1) % TWO32);
      var stored := EarlyCode(o, r) == 0 && o.store;
      && Achieved(w, w', i, if stored then next else r, stored, o, if EarlyCode(o, r) != 0 then EarlyCode(o, r) else 1)
      && w'.reserved == w.reserved && w'.log == w.log + (if stored then [Failures(zero)] else [])
  {
    RunOfCall(cfg, w, i, Failures(zero), o);
    hide Run, Call, InRange, HasFlag;
  }

  lemma OobTimeAchieves(cfg: Config, w: World, i: nat, now: int, o: Outcomes)
    requires Free(w, i)
    ensures
      var w', r := Run(cfg, w, Call(i, OobTime(now), o)), w.db;
      var stored := EarlyCode(o, r) == 0 && o.store;
      && Achieved(w, w', i, if stored then r.(channelTime := now) else r, stored, o,
                  if EarlyCode(o, r) != 0 then EarlyCode(o, r) else 1)
      && w'.reserved == w.reserved && w'.log == w.log + (if stored then [OobTime(now)] else [])
  {
    RunOfCall(cfg, w, i, OobTime(now), o);
    hide Run, Call, InRange, HasFlag;
  }

  // The agent sets the code length exactly when the length is accepted, the counter is in range and the
  // file operations succeed. It goes on with an exhausted record, and is refused only where it stores.
  lemma SetLengthAchieves(cfg: Config, w: World, i: nat, n: int, o: Outcomes)
    requires Free(w, i)
    ensures
      var w', r := Run(cfg, w, Call(i, SetLength(n), o)), w.db;
      var early := EarlyCode(o, r);
      var code := if early != 0 && early != STATE_NUMSPACE then early
                  else if n < MIN_LENGTH || n > MAX_LENGTH then PPP_ERROR_RANGE
                  else if n < cfg.lengthMin || n > cfg.lengthMax then PPP_ERROR_POLICY
                  else if early != 0 then 2
                  else 1;
      var accepted := MIN_LENGTH <= n <= MAX_LENGTH && cfg.lengthMin <= n <= cfg.lengthMax;
      var stored := early == 0 && accepted && o.store;
      && Achieved(w, w', i, if stored then r.(codeLength := n) else r, stored, o, code)
      && w'.reserved == w.reserved && w'.log == w.log + (if stored then [SetLength(n)] else [])
  {
    RunOfCall(cfg, w, i, SetLength(n), o);
    hide Run, Call, InRange, HasFlag;
  }

  // A record that was loaded without the lock is never written; the store is refused with code 2.
  lemma UnlockedAchievesNothing(cfg: Config, w: World, i: nat, o: Outcomes)
    requires Free(w, i)
    ensures
      var w' := Run(cfg, w, Call(i, StoreUnlocked, o));
      && w'.db == w.db && w'.log == w.log && w'.reserved == w.reserved && w'.lock == None
      && |w'.sessions| == |w.sessions|
      && w'.sessions[i].phase == Done(if o.load then 2 else STATE_PARSE_ERROR)
  {
    RunOfCall(cfg, w, i, StoreUnlocked, o);
    hide Run, Call;
  }

  // A store that failed writes nothing, and the call that made it never returns zero.
  lemma FailedStore(cfg: Config, w: World, i: nat, release: Release)
    requires i < |w.sessions| && w.sessions[i].phase.Loaded?
    ensures
      var w1 := Apply(cfg, w, Store(i, false));
      var w2 := Apply(cfg, w1, Unlock(i, release));
      && w1.db == w.db && w2.db == w.db && w2.reserved == w.reserved && w2.log == w.log
      && w2.sessions[i].phase.Done? && w2.sessions[i].phase.code != 0
  {
    hide Refusal, Changed;
  }

  // Only a store that succeeded writes, and only under the lock; only a return reserves.
  lemma OnlyStoresWrite(cfg: Config, w: World, step: Step)
    ensures
      var w' := Apply(cfg, w, step);
      && (w'.db != w.db || w'.log != w.log ==>
          step.Store? && step.ok && step.i < |w.sessions| && w.sessions[step.i].locked)
      && (w'.reserved != w.reserved ==> step.Unlock? && step.release == Released)
  {
    hide Refusal, Changed;
  }

  // While a session holds the lock, no other gets it; it is let go when unlocking reports no error, and
  // by the end of the session at the latest.
  lemma LockHeld(cfg: Config, w: World, i: nat, ok: bool, release: Release)
    requires i < |w.sessions| && Mutex(w)
    ensures
      var s := w.sessions[i];
      && (s.phase.Starting? && s.op != StoreUnlocked && w.lock != None ==>
          Apply(cfg, w, Lock(i, ok)) == Put(w, i, s.(phase := Done(STATE_LOCK_ERROR))))
      && (s.phase.Releasing? && release != NotReleased ==> Apply(cfg, w, Unlock(i, release)).lock != Some(i))
      && (s.phase.Done? && release != NotReleased ==> Apply(cfg, w, Fini(i, release)).lock != Some(i))
      && (w.lock != Some(i) ==>
          Apply(cfg, w, Unlock(i, release)).lock == Apply(cfg, w, Fini(i, release)).lock == w.lock)
  {}

  // In every interleaving, a session returns zero only from an unlocking that followed its own store, and
  // an increment that does so reserves the counter it had loaded.
  lemma ZeroMeansStored(cfg: Config, w: World, step: Step, i: nat)
    requires i < |w.sessions|
    ensures |Apply(cfg, w, step).sessions| == |w.sessions|
    ensures
      var w' := Apply(cfg, w, step);
      var s, s' := w.sessions[i], w'.sessions[i];
      && (s'.phase == Releasing(0) && s != s' ==>
          step == Store(i, true) && s.phase.Loaded? && s.locked && w'.log == w.log + [s.op])
      && (s'.phase == Done(0) && s != s' && !step.Fini? ==>
          && step == Unlock(i, Released) && s.phase == Releasing(0)
          && w'.reserved == w.reserved + (if s.op == Increment then [s.copy.counter] else [])
          && w'.owners == w.owners + (if s.op == Increment then [i] else []))
  {
    hide Changed;
  }

  //// What the record says about the past

  // The failures counted since the recent ones were cleared last.
  function Recent(log: seq<Op>): nat {
    if log == [] || log[|log| - 1] == Failures(true) then 0
    else Recent(log[..|log| - 1]) + if log[|log| - 1] == Failures(false) then 1 else 0
  }

  function LastTime(log: seq<Op>, before: int): int {
    if log == [] then before
    else if log[|log| - 1].OobTime? then log[|log| - 1].now
    else LastTime(log[..|log| - 1], before)
  }

  function LastLength(log: seq<Op>, before: int): int {
    if log == [] then before
    else if log[|log| - 1].SetLength? then log[|log| - 1].length
    else LastLength(log[..|log| - 1], before)
  }

  predicate Recorded(w: World, start: Record) {
    && w.db.recentFailures == (Recent(w.log) + if Failures(true) in w.log then 0 else start.recentFailures) % TWO32
    && w.db.channelTime == LastTime(w.log, start.channelTime)
    && w.db.codeLength == LastLength(w.log, start.codeLength)
  }

  lemma StoredRecorded(cfg: Config, w: World, start: Record, op: Op)
    requires Recorded(w, start) && Refusal(cfg, op, w.db) == 0
    ensures Recorded(Stored(cfg, w, op), start)
  {
    hide InRange, IncrementCheck, RangeCheck, Number, HasFlag;
    RecentMore(w.log, op);
    LastMore(w.log, op, start);
    hide Recent, LastTime, LastLength;
    OneMore(Recent(w.log) + if Failures(true) in w.log then 0 else start.recentFailures);
  }

  lemma RecentMore(log: seq<Op>, op: Op)
    ensures Recent(log + [op])
         == if op == Failures(true) then 0 else Recent(log) + if op == Failures(false) then 1 else 0
    ensures Failures(true) in log + [op] <==> Failures(true) in log || op == Failures(true)
  {
    assert (log + [op])[..|log|] == log;
  }

  lemma LastMore(log: seq<Op>, op: Op, start: Record)
    ensures LastTime(log + [op], start.channelTime) == if op.OobTime? then op.now else LastTime(log, start.channelTime)
    ensures LastLength(log + [op], start.codeLength)
         == if op.SetLength? then op.length else LastLength(log, start.codeLength)
  {
    assert (log + [op])[..|log|] == log;
  }

  lemma ApplyRecords(cfg: Config, w: World, start: Record, step: Step)
    requires Inv(cfg, w, start) && Recorded(w, start)
    ensures Recorded(Apply(cfg, w, step), start)
  {
    OnlyStoresWrite(cfg, w, step);
    if step.Store? && step.i < |w.sessions| {
      var s := w.sessions[step.i];
      if s.phase.Loaded? && s.locked && step.ok {
        StoredRecorded(cfg, w, start, s.op);
        hide Refusal, Changed, Recorded;
        Unstored(cfg, w, step.i);
        SameRecord(Apply(cfg, w, step), Stored(cfg, w, s.op), start);
      }
    }
  }

  lemma SameRecord(w: World, w': World, start: Record)
    requires w.db == w'.db && w.log == w'.log && Recorded(w', start)
    ensures Recorded(w, start)
  {}

  lemma Unstored(cfg: Config, w: World, i: nat)
    requires i < |w.sessions|
    requires var s := w.sessions[i]; s.phase.Loaded? && s.locked && s.copy == w.db && Refusal(cfg, s.op, w.db) == 0
    ensures
      var w' := Apply(cfg, w, Store(i, true));
      && w'.db == Stored(cfg, w, w.sessions[i].op).db && w'.log == Stored(cfg, w, w.sessions[i].op).log
      && w'.reserved == w.reserved && w'.owners == w.owners
  {
    hide Refusal, Changed;
  }

  // In every run, the recent failures are those stored since they were cleared last, and the time of the
  // last message and the code length are those of the last store of their operation.
  lemma {:induction false} RunRecords(cfg: Config, start: Record, n: nat, steps: seq<Step>)
    requires start.counter < TWO128 && start.failures < TWO32 && start.recentFailures < TWO32
    ensures Recorded(Run(cfg, Initial(start, n), steps), start)
  {
    hide Inv, Apply, Recorded;
    if steps == [] {
      NothingRecorded(start, n);
    } else {
      var front := steps[..|steps| - 1];
      RunRecords(cfg, start, n, front);
      RunKeeps(cfg, start, n, front);
      ApplyRecords(cfg, Run(cfg, Initial(start, n), front), start, steps[|steps| - 1]);
    }
  }

  lemma NothingRecorded(start: Record, n: nat)
    requires start.recentFailures < TWO32
    ensures Recorded(Initial(start, n), start)
  {}
}
