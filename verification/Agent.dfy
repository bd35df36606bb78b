// The agent of src/agent/request.c as a machine over its requests: which state it holds, whether that
// state is locked, how often it has been written, and what it replies. What the library returns is
// arbitrary. The lock is released by every call of state_unlock. Where an assertion of the source fails,
// the run ends.
module Agent {
  import opened ErrorCodes
  import opened Ppp

  const AGENT_ERR: int := 5000
  const AGENT_ERR_REQ: int := 5001
  const AGENT_ERR_REQ_ARG: int := 5002
  const AGENT_ERR_INIT_USER: int := 5005
  const AGENT_ERR_POLICY: int := 5012
  const AGENT_ERR_POLICY_REGENERATION: int := 5013
  const AGENT_ERR_POLICY_GENERATION: int := 5014
  const AGENT_ERR_POLICY_DISABLED: int := 5015
  const AGENT_ERR_POLICY_SALT: int := 5016
  const AGENT_ERR_POLICY_SHOW: int := 5017
  const AGENT_ERR_MUST_CREATE_STATE: int := 5018
  const AGENT_ERR_MUST_DROP_STATE: int := 5019
  const AGENT_ERR_NO_STATE: int := 5020
  const GRACEFUL: int := -1 // AGENT_REQ_DISCONNECT as a return value

  // The fields of a state, as the requests name them.
  const FIELD_FAILURES: int := 1
  const FIELD_FLAGS: int := 5
  const FIELD_CODES_ON_CARD: int := 6
  const FIELD_CODES_IN_ROW: int := 7
  const FIELD_SPASS_SET: int := 8
  const FIELD_KEY: int := 9
  const FIELD_COUNTER: int := 10
  const FIELD_CHANNEL_TIME: int := 17
  const FIELD_USERNAME: int := 18
  const FIELD_PROMPT: int := 19
  const FIELD_CONTACT: int := 20
  const FIELD_LABEL: int := 21

  datatype Request =
    | Disconnect | UserSet(known: bool)
    | StateNew | StateLoad | StateStore | StateDrop
    | KeyGenerate | KeyRemove
    | FlagAdd(flags: nat) | FlagClear(flags: nat) | FlagGet
    | GetNum(field: int) | GetInt(field: int) | GetStr(field: int) | GetPasscode | GetPrompt | GetWarnings | GetAlphabet
    | SetNum | SetInt(field: int) | SetStr(field: int)
    | SetSpass(remove: bool, errors: Errors) // with the errors that _verify_spass finds
    | UpdateLatest | Skip | Authenticate | ClearRecentFailures
    | Unknown

  //// Assertions

  // A field that the getter or setter of the request knows.
  predicate KnownField(r: Request) {
    match r
    case GetInt(f) => FIELD_FAILURES <= f <= FIELD_SPASS_SET
    case GetNum(f) => FIELD_COUNTER <= f <= FIELD_CHANNEL_TIME
    case GetStr(f) => f == FIELD_KEY || FIELD_USERNAME <= f <= FIELD_LABEL
    case SetInt(f) => FIELD_FAILURES <= f <= FIELD_FLAGS
    case SetStr(f) => f == FIELD_CONTACT || f == FIELD_LABEL
    case _ => true
  }

  // The answer is there only after ppp_calculate.
  predicate NeedsCalculation(r: Request) {
    || r.GetWarnings?
    || (r.GetInt? && (r.field == FIELD_CODES_ON_CARD || r.field == FIELD_CODES_IN_ROW))
    || (r.GetStr? && r.field == FIELD_PROMPT)
  }

  predicate Reserves(r: Request) {
    r.Skip? || r.Authenticate?
  }

  // When an assertion of the source fails. reached: a setter has found or loaded its state, a reservation
  // has loaded and checked it.
  predicate Fails(r: Request, before: Before, reached: bool) {
    && (before.s != null || r.SetInt? || r.SetStr?)
    && (|| (!KnownField(r) && (r.SetInt? || r.SetStr? ==> reached))
        || (NeedsCalculation(r) && !before.calculated)
        || (Reserves(r) && before.newKey && reached))
  }

  //// Policy

  // The options that decide about requests.
  datatype Policy = Policy(keyGeneration: bool, keyRegeneration: bool, keyRemoval: bool, keyPrint: bool,
                           passcodePrint: bool, shellAuth: bool, skipping: bool, disabling: bool, spassChange: bool,
                           salt: Setting, show: Setting)

  // What the configuration grants to whom. Whether a new state may be made depends on the old one.
  predicate Permitted(p: Policy, privileged: bool, r: Request) {
    && !r.Unknown?
    && (r.FlagAdd? && HasFlag(r.flags, FLAG_SALTED) ==> p.salt != Disallow)
    && (r.FlagClear? && HasFlag(r.flags, FLAG_SALTED) ==> p.salt != Enforce)
    && (privileged
      || (&& !r.UserSet?
          && (r.KeyGenerate? ==> p.keyGeneration)
          && (r.KeyRemove? ==> p.keyRemoval)
          && (r.Authenticate? ==> p.shellAuth)
          && (r.GetStr? && (r.field == FIELD_KEY || r.field == FIELD_COUNTER) ==> p.keyPrint)
          && (r.GetPasscode? ==> p.passcodePrint)
          && (r.Skip? ==> p.skipping)
          && ((r.FlagAdd? || r.FlagClear?) && HasFlag(r.flags, FLAG_DISABLED) ==> p.disabling)
          && (r.FlagAdd? && HasFlag(r.flags, FLAG_SHOW) ==> p.show != Disallow)
          && (r.FlagClear? && HasFlag(r.flags, FLAG_SHOW) ==> p.show != Enforce)))
  }

  // The code for a new state, given whether there is an old one and whether that is disabled.
  function NewRefusal(p: Policy, existing: bool, disabled: bool): int {
    if !existing then (if p.keyGeneration then 0 else AGENT_ERR_POLICY_GENERATION)
    else if disabled && !p.disabling then AGENT_ERR_POLICY
    else if !p.keyRegeneration then AGENT_ERR_POLICY_REGENERATION
    else 0
  }

  //// Static passwords

  type Errors = n: int | 0 <= n < 64

  // ppp_set_spass; checked means that policy is to be kept.
  function SetSpassResult(p: Policy, remove: bool, errors: Errors, checked: bool): (ret: int)
    ensures ret != 0
  {
    if checked && !p.spassChange then PPP_ERROR_SPASS_POLICY
    else if remove then PPP_ERROR_SPASS_UNSET
    else if checked && errors != 0 then errors
    else errors + PPP_ERROR_SPASS_SET
  }

  // The state is left as it was.
  predicate SpassRefused(result: int) {
    result < PPP_ERROR_SPASS_SET
  }

  // Policy refuses a static password exactly when it is kept and forbids the change, or finds errors. What is
  // answered tells the two apart, and whether a password was set, with its errors, or removed.
  lemma SpassRefusedWhen(p: Policy, remove: bool, errors: Errors, checked: bool)
    ensures
      var result := SetSpassResult(p, remove, errors, checked);
      && (SpassRefused(result) <==> checked && (!p.spassChange || (!remove && errors != 0)))
      && (SpassRefused(result) ==> result == if p.spassChange then errors else PPP_ERROR_SPASS_POLICY)
      && (!SpassRefused(result) ==>
          result == if remove then PPP_ERROR_SPASS_UNSET else PPP_ERROR_SPASS_SET + errors)
  {}

  // The state of the library: the lock, whether a new key waits to be stored, how often the database was
  // asked to write the state, whether it was asked to remove it, and whether ppp_calculate has run.
  class State {
    var locked: bool
    var newKey: bool
    var stores: nat
    var removed: bool
    var calculated: bool

    constructor ()
      ensures !locked && !newKey && stores == 0 && !removed && !calculated
    {
      locked, newKey, stores, removed, calculated := false, false, 0, false, false;
    }

    // ppp_state_load. A failure after the lock releases it again; the range is verified after the
    // calculation.
    method Load(lock: bool) returns (ret: int)
      requires !locked
      modifies `locked, `calculated
      ensures locked <==> lock && ret == 0
      ensures (ret == 0 || ret == STATE_NUMSPACE || old(calculated)) ==> calculated
    {
      if lock {
        ret :| ret != STATE_NUMSPACE;
        if ret != 0 { return; }
        locked := true;
      }
      ret :| ret != STATE_NUMSPACE;
      if ret == 0 {
        calculated := true;
        ret :| ret == 0 || ret == STATE_PARSE_ERROR || ret == STATE_NUMSPACE;
      }
      if ret != 0 { locked := false; }
    }

    // state_store. Without the lock it is refused with code 2, unless a new key is to be stored: then the
    // lock is taken here, and must not be held already.
    method Store(remove: bool) returns (ret: int)
      requires !(newKey && remove) && !(newKey && locked)
      modifies `locked, `newKey, `stores, `removed
      ensures removed <==> old(removed) || (remove && old(locked))
      ensures locked == old(locked) && (newKey ==> old(newKey))
      ensures stores == old(stores) + if old(locked) || (old(newKey) && !newKey) then 1 else 0
      ensures !old(newKey) && !old(locked) ==> ret == 2
      ensures newKey ==> ret == STATE_LOCK_ERROR
    {
      var mine := false;
      if newKey {
        ret := *;
        if ret != 0 { return STATE_LOCK_ERROR; }
        locked := true;
        mine := true;
      }
      if !locked { return 2; }
      newKey := false;
      stores, removed := stores + 1, removed || remove;
      ret := *;
      if mine { locked := false; }
    }

    method Unlock() returns (ret: int)
      modifies `locked
      ensures !locked
    {
      locked := false;
      ret := *;
    }

    // ppp_state_release: the error of the store goes before that of the unlock.
    method Release(store: bool, remove: bool, unlock: bool) returns (ret: int, ret1: int, ret2: int)
      requires !(store && remove) && !(newKey && remove) && !(newKey && locked && store)
      modifies `locked, `newKey, `stores, `removed
      ensures removed <==> old(removed) || (remove && old(locked))
      ensures locked == (old(locked) && !unlock) && (newKey ==> old(newKey))
      ensures ret == if ret1 != 0 then ret1 else ret2
      ensures if store || remove then Attempted(old(locked), old(newKey), old(stores), ret1)
              else ret1 == 0 && stores == old(stores) && newKey == old(newKey)
      ensures !unlock ==> ret2 == 0
    {
      ret1, ret2 := 0, 0;
      if remove {
        ret1 := Store(true);
      } else if store {
        ret1 := Store(false);
      }
      if unlock { ret2 := Unlock(); }
      ret := if ret1 != 0 then ret1 else ret2;
    }

    // After a store that returned ret: the database was asked exactly if the lock was held, or could be
    // taken for a new key.
    predicate Attempted(wasLocked: bool, hadKey: bool, priorStores: nat, ret: int)
      reads this
    {
      && stores == priorStores + (if wasLocked || (hadKey && !newKey) then 1 else 0)
      && (!hadKey && !wasLocked ==> ret == 2)
      && (newKey ==> ret == STATE_LOCK_ERROR)
    }

    // ppp_key_generate.
    method GenerateKey() returns (ret: int)
      requires !locked
      modifies `newKey
      ensures newKey <==> old(newKey) || ret == 0
    {
      ret := *;
      if ret == 0 { newKey := true; }
    }

    // ppp_increment and ppp_skip; reached means that loading and checking succeeded. With a new key not
    // yet stored, the store under the lock then fails the assertion of state_store.
    method Atomical() returns (ret: int, reached: bool, aborted: bool)
      requires !locked
      modifies this
      ensures aborted <==> old(newKey) && reached
      ensures !aborted ==> !locked && newKey == old(newKey) && removed == old(removed)
      ensures !aborted ==> if reached then stores == old(stores) + 1 else stores == old(stores) && ret != 0
      ensures reached || old(calculated) ==> calculated
    {
      reached, aborted := false, false;
      ret := Load(true);
      if ret != 0 { return; }
      var ret1, ret2;
      var refused: int := *;
      if refused != 0 {
        ret, ret1, ret2 := Release(false, false, true);
        return refused, false, false;
      }
      reached := true;
      if newKey { return 0, true, true; }
      ret, ret1, ret2 := Release(true, false, true);
    }
  }

  class Agent {
    var s: State?
    var newState: bool
    var replies: nat
    var status: int // of the last reply
    var aborted: bool
    var removals: nat // how often the database was asked to remove the record

    constructor ()
      ensures Idle() && !aborted && s == null && !newState
    {
      s, newState, replies, status, aborted, removals := null, false, 0, 0, false, 0;
    }

    // Between requests: no lock is held, and new_state goes with a state.
    predicate Idle()
      reads this, s
    {
      (s != null ==> !s.locked) && (newState ==> s != null)
    }

    // Any state there is was loaded, and has its old key.
    predicate Loaded()
      reads this, s
    {
      s == null || (s.calculated && !s.newKey)
    }

    // _send_reply. The check of agent_hdr_send that no lock is held is a precondition here.
    method SendReply(code: int)
      requires s != null ==> !s.locked
      modifies `replies, `status
      ensures replies == old(replies) + 1 && status == code
    {
      replies, status := replies + 1, code;
    }

    // _state_init; it asserts that there is no state. exhausted: the record was loaded, but its counter is
    // out of range, so that the lock is not kept.
    method StateInit(load: bool, lock: bool) returns (ret: int, exhausted: bool)
      requires s == null
      modifies `s, `newState
      ensures ret == 0 ==> s != null && fresh(s) && !s.newKey && s.stores == 0 && !s.removed
      ensures ret == 0 ==> (s.locked <==> load && lock && !exhausted) && (exhausted ==> load)
      ensures ret == 0 ==> newState == !load && s.calculated == load
      ensures ret != 0 ==> s == null && (newState ==> old(newState))
    {
      ret, exhausted := *, false;
      if ret != 0 { return; }
      var t := new State();
      s := t;
      if !load {
        newState := true;
        return 0, false;
      }
      newState := false;
      ret := t.Load(lock);
      if ret == STATE_NUMSPACE { ret, exhausted := 0, true; }
      if ret != 0 { s := null; }
    }

    // _state_fini.
    method StateFini(store: bool, remove: bool, keep: bool) returns (ret: int)
      requires !(store && remove)
      requires s != null ==> !(s.newKey && remove) && !(s.newKey && s.locked && store)
      modifies this, s
      ensures replies == old(replies) && aborted == old(aborted)
      ensures old(s) == null ==> ret == AGENT_ERR_NO_STATE && s == null && newState == old(newState)
      ensures old(s) != null ==> !newState
      ensures old(s) != null ==> if keep then s == old(s) && !s.locked && (s.newKey ==> old(s.newKey)) else s == null
      ensures old(s) != null ==>
        if store || remove then old(s).Attempted(old(s.locked), old(s.newKey), old(s.stores), ret)
        else old(s).stores == old(s.stores) && old(s).newKey == old(s.newKey)
      ensures old(s) != null && !store && !remove && !keep ==> ret == 0
      ensures old(s) != null ==> old(s).calculated == old(s.calculated)
      ensures old(s) != null ==> (old(s).removed <==> old(s.removed) || (remove && old(s.locked)))
      ensures removals == old(removals) + if remove && old(s) != null && old(s.locked) then 1 else 0
    {
      if s == null { return AGENT_ERR_NO_STATE; }
      if remove && s.locked { removals := removals + 1; }
      var ret1, ret2;
      ret, ret1, ret2 := s.Release(store, remove, keep);
      newState := false;
      if !keep {
        // ppp_state_fini
        if s.locked { var ignored := s.Unlock(); }
        s := null;
      }
    }

    // _state_init_atomical.
    method StateInitAtomical() returns (ret: int, exhausted: bool)
      requires Idle()
      modifies this, s
      ensures replies == old(replies) && aborted == old(aborted) && newState == old(newState)
      ensures removals == old(removals)
      ensures newState ==> ret == 0 && s == old(s) && Snapshot() == old(Snapshot()) && !s.locked
      ensures !newState && ret == 0 ==> s != null && fresh(s) && !s.newKey && s.stores == 0 && !s.removed
      ensures !newState && ret == 0 ==> s.calculated && s.locked == !exhausted
      ensures ret != 0 ==> s == null
    {
      exhausted := false;
      if newState { return 0, false; }
      if s != null {
        ret := StateFini(false, false, false);
        if ret != 0 { return; }
      }
      ret, exhausted := StateInit(true, true);
    }

    // _state_fini_atomical.
    method StateFiniAtomical(prevRet: int) returns (ret: int)
      requires s != null && (newState ==> !s.locked) && (!newState ==> !s.newKey)
      modifies this, s
      ensures s == old(s) && newState == old(newState) && s.newKey == old(s.newKey) && s.calculated == old(s.calculated)
      ensures s.removed == old(s.removed) && removals == old(removals)
      ensures Idle() && replies == old(replies) && aborted == old(aborted)
      ensures newState || prevRet != 0 ==> ret == prevRet && s.stores == old(s.stores)
      ensures !newState && prevRet == 0 ==> s.stores == old(s.stores) + if old(s.locked) then 1 else 0
      ensures !newState && prevRet == 0 && !old(s.locked) ==> ret == 2
    {
      if newState { return prevRet; }
      if prevRet == 0 {
        ret := StateFini(true, false, true);
      } else {
        ret := StateFini(false, false, true);
        ret := prevRet;
      }
    }

    // request_verify_policy: zero, or the code of the refusal. For a new state, existing and disabled
    // are what the old one showed.
    method VerifyPolicy(p: Policy, r: Request, privileged: bool) returns (ret: int, existing: bool, disabled: bool)
      requires Idle() && !aborted
      modifies this, s
      ensures Idle() && replies == old(replies) && !aborted && Snapshot() == old(Snapshot())
      ensures !r.StateNew? ==> (ret == 0 <==> Permitted(p, privileged, r))
      ensures r.StateNew? ==>
        ret == if s != null then AGENT_ERR_MUST_DROP_STATE
               else if privileged then 0
               else NewRefusal(p, existing, disabled)
      ensures ret == AGENT_ERR_POLICY_SALT <==>
        || (r.FlagAdd? && HasFlag(r.flags, FLAG_SALTED) && p.salt == Disallow)
        || (r.FlagClear? && HasFlag(r.flags, FLAG_SALTED) && p.salt == Enforce)
      ensures ret == AGENT_ERR_POLICY_DISABLED ==>
        (r.FlagAdd? || r.FlagClear?) && HasFlag(r.flags, FLAG_DISABLED) && !p.disabling
      ensures ret == AGENT_ERR <==> r.Unknown?
      ensures ret != 0 && !r.StateNew? && !r.FlagAdd? && !r.FlagClear? && !r.Unknown? ==> ret == AGENT_ERR_POLICY
      ensures (r.FlagAdd? || r.FlagClear?) ==> ret != AGENT_ERR_POLICY
    {
      existing, disabled := false, false;
      ret := 0;
      match r
      case UserSet(_) => if !privileged { ret := AGENT_ERR_POLICY; }
      case KeyGenerate => if !privileged && !p.keyGeneration { ret := AGENT_ERR_POLICY; }
      case KeyRemove => if !privileged && !p.keyRemoval { ret := AGENT_ERR_POLICY; }
      case Authenticate => if !privileged && !p.shellAuth { ret := AGENT_ERR_POLICY; }
      case StateNew =>
        if s != null { return AGENT_ERR_MUST_DROP_STATE, existing, disabled; }
        if !privileged { ret, existing, disabled := VerifyNew(p); }
      case GetStr(field) =>
        if (field == FIELD_KEY || field == FIELD_COUNTER) && !p.keyPrint && !privileged { ret := AGENT_ERR_POLICY; }
      case GetPasscode => if !privileged && !p.passcodePrint { ret := AGENT_ERR_POLICY; }
      case Skip => if !privileged && !p.skipping { ret := AGENT_ERR_POLICY; }
      case FlagAdd(flags) =>
        if HasFlag(flags, FLAG_SALTED) && p.salt == Disallow { ret := AGENT_ERR_POLICY_SALT; }
        else if privileged {}
        else if HasFlag(flags, FLAG_DISABLED) && !p.disabling { ret := AGENT_ERR_POLICY_DISABLED; }
        else if HasFlag(flags, FLAG_SHOW) && p.show == Disallow { ret := AGENT_ERR_POLICY_SHOW; }
      case FlagClear(flags) =>
        if HasFlag(flags, FLAG_SALTED) && p.salt == Enforce { ret := AGENT_ERR_POLICY_SALT; }
        else if privileged {}
        else if HasFlag(flags, FLAG_DISABLED) && !p.disabling { ret := AGENT_ERR_POLICY_DISABLED; }
        else if HasFlag(flags, FLAG_SHOW) && p.show == Enforce { ret := AGENT_ERR_POLICY_SHOW; }
      case Unknown => ret := AGENT_ERR;
      case _ =>
    }

    // The part for a new state, which looks at the old one.
    method VerifyNew(p: Policy) returns (ret: int, existing: bool, disabled: bool)
      requires s == null && !newState
      modifies this
      ensures s == null && !newState && replies == old(replies) && aborted == old(aborted) && removals == old(removals)
      ensures ret == NewRefusal(p, existing, disabled)
    {
      existing, disabled := false, false;
      var exhausted;
      ret, exhausted := StateInit(true, false);
      if ret != 0 {
        ret := if p.keyGeneration then 0 else AGENT_ERR_POLICY_GENERATION;
        return;
      }
      existing := true;
      disabled := *;
      if disabled && !p.disabling {
        ret := StateFini(false, false, false);
        return AGENT_ERR_POLICY, existing, disabled;
      }
      if !p.keyRegeneration {
        ret := StateFini(false, false, false);
        return AGENT_ERR_POLICY_REGENERATION, existing, disabled;
      }
      ret := StateFini(false, false, false);
      if ret != 0 { ret := AGENT_ERR; }
    }

    // A setter of the library, which returns result, between _state_init_atomical and
    // _state_fini_atomical. exhausted tells that the record was loaded, but not with the lock. The record
    // is written exactly if it is not, and the setter succeeded; for the static password, whose condition in
    // the source is always true, even if it was refused. A state that is new is not written. A field that
    // the setter does not know fails an assertion, be the lock held or not.
    method ExecuteSet(spass: bool, known: bool, result: int) returns (ret: int, exhausted: bool)
      requires Idle() && !aborted
      modifies this, s
      ensures replies == old(replies) && newState == old(newState) && (newState ==> s == old(s))
      ensures removals == old(removals)
      ensures s == old(s) || s == null || fresh(s)
      ensures aborted <==> s != null && !known
      ensures !aborted ==> Idle()
      ensures !aborted && newState ==> Snapshot() == old(Snapshot()) && ret == result
      ensures !aborted && !newState && s != null ==>
        && fresh(s) && !s.newKey && !s.removed && s.calculated
        && s.stores == if !exhausted && (spass || result == 0) then 1 else 0
      ensures !aborted && !newState && s != null && exhausted && (spass || result == 0) ==> ret == 2
      ensures !aborted && !newState && s != null && !spass && result != 0 ==> ret == result
      ensures s == null || (!aborted && result != 0) ==> ret != 0
    {
      ret, exhausted := StateInitAtomical();
      if ret == 0 {
        if !known {
          aborted := true;
          return;
        }
        if spass {
          ret := StateFiniAtomical(0);
          if ret == 0 { ret := result; }
        } else {
          ret := StateFiniAtomical(result);
        }
      }
    }

    // KEY_REMOVE. The record of an exhausted key is loaded without keeping the lock, so that it cannot
    // be removed; any other is, and nothing else is written. t is the state that was loaded.
    method ExecuteRemove() returns (ret: int, exhausted: bool, t: State?)
      requires s == null && !newState
      modifies this
      ensures s == null && !newState && replies == old(replies) && aborted == old(aborted)
      ensures t == null ==> ret != 0
      ensures t != null ==> fresh(t) && t.removed == !exhausted && t.stores == if exhausted then 0 else 1
      ensures t != null && exhausted ==> ret == 2
      ensures removals == old(removals) + if t != null && !exhausted then 1 else 0
    {
      ret, exhausted := StateInit(true, true);
      t := if ret == 0 then s else null;
      if ret == 0 { ret := StateFini(false, true, false); }
    }

    // ppp_increment or ppp_skip on the state at hand.
    method ExecuteAtomical() returns (ret: int, reached: bool)
      requires Idle() && !aborted
      modifies this, s
      ensures s == old(s) && newState == old(newState) && replies == old(replies) && removals == old(removals)
      ensures s == null ==> ret == AGENT_ERR_NO_STATE && !reached
      ensures aborted <==> s != null && old(s.newKey) && reached
      ensures !aborted ==> Idle()
      ensures !aborted && s != null ==>
        && s.newKey == old(s.newKey) && s.removed == old(s.removed)
        && if reached then s.stores == old(s.stores) + 1 else s.stores == old(s.stores) && ret != 0
      ensures s != null && (reached || old(s.calculated)) ==> s.calculated
    {
      if s == null { return AGENT_ERR_NO_STATE, false; }
      ret, reached, aborted := s.Atomical();
    }

    // What a request finds.
    function Snapshot(): Before
      reads this, s
    {
      if s == null then Before(null, false, newState, 0, false, false, removals)
      else Before(s, s.newKey, newState, s.stores, s.removed, s.calculated, removals)
    }

    // What a request does to the state and what it answers. A state that is kept has as many stores as
    // before, except for requests that store.
    predicate Expected(p: Policy, privileged: bool, r: Request, ret: int, before: Before)
      reads this, s, before.s
    {
      var prior := before.s;
      && (!r.KeyRemove? ==> removals == before.removals)
      && match r
      case Disconnect => ret == GRACEFUL && s == null
      case UserSet(_) => s == null || (Snapshot() == before && status in {AGENT_ERR_REQ, AGENT_ERR_INIT_USER})
      case StateNew =>
        if prior != null then ret == AGENT_ERR_MUST_DROP_STATE && Snapshot() == before
        else ret == 0 ==>
          status == 0 && s != null && newState && !s.newKey && !s.calculated && s.stores == 0 && !s.removed
      case StateLoad =>
        if prior != null then ret == AGENT_ERR_MUST_DROP_STATE && Snapshot() == before
        else if status == 0 then s != null && !newState && !s.newKey && s.calculated && s.stores == 0
        else s == null
      // a state without a new key is never written by this request
      case StateStore =>
        && s == null && (prior != null ==> prior.removed == before.removed)
        && if prior == null then status == AGENT_ERR_NO_STATE
           else if !before.newKey then status == 2 && prior.stores == before.stores
           else if prior.newKey then status == STATE_LOCK_ERROR && prior.stores == before.stores
           else prior.stores == before.stores + 1
      case StateDrop =>
        && s == null
        && if prior == null then status == AGENT_ERR_NO_STATE
           else prior.stores == before.stores && prior.removed == before.removed
      case KeyGenerate =>
        if prior == null then Snapshot() == before && status == AGENT_ERR_MUST_CREATE_STATE
        else Snapshot() == before.(newKey := before.newKey || status == 0)
      case KeyRemove =>
        && s == prior
        && if prior != null then Snapshot() == before && status == AGENT_ERR_MUST_DROP_STATE
           else removals <= before.removals + 1 && (status == 0 ==> removals == before.removals + 1)
      case FlagAdd(_) => Settled(before)
      case FlagClear(_) => Settled(before)
      case SetInt(_) => Settled(before)
      case SetStr(_) => Settled(before)
      case UpdateLatest => Settled(before) || (Snapshot() == before && status == AGENT_ERR_REQ_ARG)
      case SetSpass(remove, errors) =>
        && Settled(before) && status != 0
        && (before.newState ==> status == SetSpassResult(p, remove, errors, !privileged))
      // no success without a store
      case Skip => Reserving(before)
      case Authenticate => Reserving(before)
      case GetAlphabet => Snapshot() == before
      case SetNum => Snapshot() == before && status == AGENT_ERR
      case Unknown => Snapshot() == before && ret == 1
      case GetPrompt =>
        && Snapshot().(calculated := before.calculated) == before
        && if s == null then status == AGENT_ERR_NO_STATE else s.calculated
      case GetPasscode => Snapshot() == before && (prior == null ==> status == AGENT_ERR_NO_STATE)
      case ClearRecentFailures => Snapshot() == before && (prior == null ==> status == AGENT_ERR_NO_STATE)
      // FLAG_GET, GET_NUM, GET_INT, GET_STR and GET_WARNINGS never fail, unless an assertion does
      case _ => Snapshot() == before && status == if prior == null then AGENT_ERR_NO_STATE else 0
    }

    // A new state keeps its new key and is not written; any other is loaded afresh, and written at most once,
    // if that succeeds, once.
    predicate Settled(before: Before)
      reads this, s
    {
      && newState == before.newState
      && if newState then Snapshot() == before
         else if s != null then
           !s.newKey && !s.removed && s.calculated && if status == 0 then s.stores == 1 else s.stores <= 1
         else status != 0
    }

    predicate Reserving(before: Before)
      reads this, s
    {
      && s == before.s && newState == before.newState
      && if s == null then status == AGENT_ERR_NO_STATE
         else
           && s.newKey == before.newKey && s.removed == before.removed && (before.calculated ==> s.calculated)
           && (status == 0 ==> s.stores == before.stores + 1 && s.calculated)
    }

    // The requests after which the agent may end.
    predicate MayEnd(r: Request, before: Before) {
      r.Disconnect? || r.StateNew? || (r.StateLoad? && before.s != null) || r.Unknown?
    }

    // request_execute: the return value is that of the loop of the agent.
    method Execute(p: Policy, r: Request, privileged: bool) returns (ret: int, reached: bool)
      requires Idle() && !aborted
      modifies this, s
      ensures s == old(s) || s == null || fresh(s)
      ensures aborted <==> Fails(r, old(Snapshot()), reached)
      ensures (r.SetInt? || r.SetStr?) && old(newState) ==> reached
      ensures !aborted ==> Idle() && Expected(p, privileged, r, ret, old(Snapshot()))
      ensures ret == 0 && !aborted ==> replies == old(replies) + 1
      ensures replies <= old(replies) + 1
      ensures ret != 0 && !aborted ==> MayEnd(r, old(Snapshot()))
    {
      reached := false;
      hide Expected, Fails, KnownField, NeedsCalculation;
      if r.Disconnect? {
        ret := ExecuteDisconnect(p, privileged);
      } else if AboutState(r) {
        ret := ExecuteState(p, r, privileged);
      } else if Setter(r) {
        ret, reached := ExecuteSetter(p, r, privileged);
      } else if Reserves(r) {
        ret, reached := ExecuteReserving(p, r, privileged);
      } else if Getter(r) {
        ret := ExecuteGetter(p, r, privileged);
      } else {
        ret := Refuse(p, privileged);
      }
    }

    method ExecuteDisconnect(p: Policy, privileged: bool) returns (ret: int)
      requires Idle() && !aborted
      modifies this, s
      ensures Idle() && !aborted && ret != 0 && replies == old(replies) && s == null
      ensures !Fails(Disconnect, old(Snapshot()), false)
      ensures Expected(p, privileged, Disconnect, ret, old(Snapshot()))
    {
      if s != null { var ignored := StateFini(false, false, false); }
      return GRACEFUL;
    }

    // An unknown request ends the agent.
    method Refuse(p: Policy, privileged: bool) returns (ret: int)
      ensures ret != 0 && Expected(p, privileged, Unknown, ret, Snapshot()) && !Fails(Unknown, Snapshot(), false)
    {
      return 1;
    }

    predicate AboutState(r: Request) {
      r.UserSet? || r.StateNew? || r.StateLoad? || r.StateStore? || r.StateDrop? || r.KeyGenerate? || r.KeyRemove?
    }

    // The requests about the state as a whole.
    method ExecuteState(p: Policy, r: Request, privileged: bool) returns (ret: int)
      requires Idle() && !aborted && AboutState(r)
      modifies this, s
      ensures s == old(s) || s == null || fresh(s)
      ensures Idle() && !aborted && replies == old(replies) + (if ret == 0 then 1 else 0)
      ensures ret != 0 ==> r.StateNew? || (r.StateLoad? && old(s) != null)
      ensures Expected(p, privileged, r, ret, old(Snapshot())) && !Fails(r, old(Snapshot()), false)
    {
      var result: int;
      var exhausted;
      match r
      case UserSet(known) =>
        if !known {
          SendReply(AGENT_ERR_REQ);
          return 0;
        }
        var parsed: bool := *;
        if !parsed {
          SendReply(AGENT_ERR_INIT_USER);
          return 0;
        }
        if s != null { result := StateFini(false, false, false); }
        SendReply(0);
        return 0;
      case StateNew =>
        if s != null { return AGENT_ERR_MUST_DROP_STATE; }
        result, exhausted := StateInit(false, false);
        if result != 0 { return result; }
        SendReply(result);
        return 0;
      case StateLoad =>
        if s != null { return AGENT_ERR_MUST_DROP_STATE; }
        result, exhausted := StateInit(true, false);
        SendReply(result);
        return 0;
      case StateStore =>
        result := StateFini(true, false, false);
        SendReply(result);
        return 0;
      case StateDrop =>
        result := AGENT_ERR_NO_STATE;
        if s != null { result := StateFini(false, false, false); }
        SendReply(result);
        return 0;
      case KeyGenerate =>
        if s == null {
          SendReply(AGENT_ERR_MUST_CREATE_STATE);
          return 0;
        }
        result := s.GenerateKey();
        SendReply(result);
        return 0;
      case KeyRemove =>
        if s != null {
          SendReply(AGENT_ERR_MUST_DROP_STATE);
          return 0;
        }
        var t;
        result, exhausted, t := ExecuteRemove();
        SendReply(result);
        return 0;
    }

    // Reserves or skips, and checks the passcode if it is asked to.
    method ExecuteReserving(p: Policy, r: Request, privileged: bool) returns (ret: int, reached: bool)
      requires Idle() && !aborted && Reserves(r)
      modifies this, s
      ensures s == old(s) && ret == 0
      ensures aborted <==> Fails(r, old(Snapshot()), reached)
      ensures replies == old(replies) + if aborted then 0 else 1
      ensures !aborted ==> Idle() && Expected(p, privileged, r, ret, old(Snapshot()))
    {
      ret := 0;
      var result;
      result, reached := ExecuteAtomical();
      if aborted { return; }
      if r.Authenticate? && result == 0 { result := *; }
      SendReply(result);
    }

    predicate Setter(r: Request) {
      r.FlagAdd? || r.FlagClear? || r.SetInt? || r.SetStr? || r.SetSpass? || r.UpdateLatest?
    }

    // A setter, with any result of the library where that is not modelled.
    method ExecuteSetter(p: Policy, r: Request, privileged: bool) returns (ret: int, reached: bool)
      requires Idle() && !aborted && Setter(r)
      modifies this, s
      ensures s == old(s) || s == null || fresh(s)
      ensures ret == 0 && (old(newState) && (r.SetInt? || r.SetStr?) ==> reached)
      ensures aborted <==> Fails(r, old(Snapshot()), reached)
      ensures replies == old(replies) + if aborted then 0 else 1
      ensures !aborted ==> Idle() && Expected(p, privileged, r, ret, old(Snapshot()))
    {
      ret, reached := 0, false;
      var result: int := *;
      var adjacent: bool := *;
      if r.UpdateLatest? && s != null && !adjacent {
        SendReply(AGENT_ERR_REQ_ARG);
        return;
      }
      if r.SetSpass? { result := SetSpassResult(p, r.remove, r.errors, !privileged); }
      var exhausted;
      result, exhausted := ExecuteSet(r.SetSpass?, KnownField(r), result);
      reached := s != null;
      if aborted { return; }
      SendReply(result);
    }

    predicate Getter(r: Request) {
      || r.FlagGet? || r.GetNum? || r.GetInt? || r.GetStr? || r.GetPasscode? || r.GetPrompt? || r.GetWarnings?
      || r.GetAlphabet? || r.SetNum? || r.ClearRecentFailures?
    }

    // The getters; CLEAR_RECENT_FAILURES, which works on a state of its own; GET_ALPHABET and SET_NUM, which
    // need none. GET_PROMPT calculates.
    method ExecuteGetter(p: Policy, r: Request, privileged: bool) returns (ret: int)
      requires Idle() && !aborted && Getter(r)
      modifies this, s
      ensures s == old(s) && ret == 0
      ensures aborted <==> Fails(r, old(Snapshot()), false)
      ensures replies == old(replies) + if aborted then 0 else 1
      ensures !aborted ==> Idle() && Expected(p, privileged, r, ret, old(Snapshot()))
    {
      ret := 0;
      var result: int := 0;
      if r.SetNum? {
        result := AGENT_ERR;
      } else if r.GetAlphabet? {
        result := *;
      } else if s == null {
        result := AGENT_ERR_NO_STATE;
      } else if !KnownField(r) || (NeedsCalculation(r) && !s.calculated) {
        aborted := true;
        return;
      } else if r.GetPrompt? {
        s.calculated := true;
        result := *;
      } else if r.GetPasscode? || r.ClearRecentFailures? {
        result := *;
      }
      SendReply(result);
    }

    // request_handle.
    method Handle(p: Policy, r: Request, privileged: bool) returns (ret: int, reached: bool)
      requires Idle() && !aborted
      modifies this, s
      ensures s == old(s) || s == null || fresh(s)
      ensures !aborted ==> Idle()
      ensures aborted <==> Permitted(p, privileged, r) && Fails(r, old(Snapshot()), reached)
      ensures (r.SetInt? || r.SetStr?) && old(newState) ==> reached
      ensures ret == 0 && !aborted ==> replies == old(replies) + 1
      ensures replies <= old(replies) + 1
      ensures ret != 0 && !aborted ==> !Permitted(p, privileged, r) || MayEnd(r, old(Snapshot()))
      // a request that policy does not permit gets a reply and has no effect
      ensures !r.StateNew? && !Permitted(p, privileged, r) ==>
        && Snapshot() == old(Snapshot()) && replies == old(replies) + 1
        && status != 0 && (ret == 0 <==> status == AGENT_ERR_POLICY)
      ensures !r.StateNew? && Permitted(p, privileged, r) && !aborted ==>
        Expected(p, privileged, r, ret, old(Snapshot()))
      ensures r.StateNew? && ret == 0 ==>
        if status == AGENT_ERR_POLICY then !privileged && Snapshot() == old(Snapshot())
        else status == 0 && s != null && newState && !s.newKey && !s.calculated && s.stores == 0
    {
      reached := r.SetInt? || r.SetStr?;
      var existing, disabled;
      ret, existing, disabled := VerifyPolicy(p, r, privileged);
      if ret == AGENT_ERR_POLICY {
        SendReply(ret);
        return 0, reached;
      }
      if ret != 0 {
        SendReply(ret);
        return;
      }
      ret, reached := Execute(p, r, privileged);
    }
  }

  datatype Before = Before(s: State?, newKey: bool, newState: bool, stores: nat, removed: bool, calculated: bool,
                           removals: nat)

  // A static password that is refused, here by policy, is followed by a store.
  method RefusedSpassStored(p: Policy, errors: Errors) returns (a: Agent, exhausted: bool)
    requires !p.spassChange
    ensures SpassRefused(SetSpassResult(p, false, errors, true))
    ensures fresh(a) && (a.s != null && !exhausted ==> a.s.stores == 1)
  {
    a := new Agent();
    var ret;
    ret, exhausted := a.ExecuteSet(true, true, SetSpassResult(p, false, errors, true));
  }

  // A state that is new has not been calculated: asking for its warnings fails an assertion, although no
  // key has been generated.
  method NewThenWarnings(p: Policy) returns (a: Agent, ret: int)
    ensures fresh(a) && (ret == 0 ==> a.aborted)
  {
    a := new Agent();
    var reached;
    ret, reached := a.Handle(p, StateNew, true);
    if ret == 0 && a.status == 0 {
      ret, reached := a.Handle(p, GetWarnings, true);
    }
  }

  // A state that is made, given a key and stored, all with success, is written exactly once.
  method NewKeyStored(a: Agent, p: Policy, privileged: bool) returns (done: bool, t: State?)
    requires a.Idle() && !a.aborted && a.s == null
    modifies a
    ensures done ==> !a.aborted && a.s == null && t != null && fresh(t) && t.stores == 1 && !t.newKey
  {
    var ret, reached;
    done, t := false, null;
    ret, reached := a.Handle(p, StateNew, privileged);
    if ret != 0 || a.status != 0 { return; }
    t := a.s;
    ret, reached := a.Handle(p, KeyGenerate, privileged);
    if ret != 0 || a.status != 0 { return; }
    assert a.s == t && t.newKey && t.stores == 0;
    ret, reached := a.Handle(p, StateStore, privileged);
    done := ret == 0 && a.status == 0;
  }

  predicate MayFail(r: Request) {
    !KnownField(r) || NeedsCalculation(r) || Reserves(r)
  }

  predicate Ends(r: Request) {
    r.Disconnect? || r.StateNew? || r.StateLoad? || r.Unknown?
  }

  // A request that can do no harm to a state that was loaded.
  predicate Careful(r: Request) {
    KnownField(r) && !r.StateNew? && !r.KeyGenerate?
  }

  // The loop of src/agent/agent.c over any requests: as long as it goes on, every request has had exactly
  // one reply, no lock is held, and new_state goes with a state. It ends before only by an assertion, or
  // after a request that policy does not permit or that may end it. Where no state and no key is made anew
  // and all fields are known, no assertion fails.
  method Serve(a: Agent, p: Policy, requests: seq<Request>, privileged: bool) returns (ret: int, handled: nat)
    requires a.Idle() && !a.aborted
    modifies a, a.s
    ensures handled <= |requests|
    ensures (ret == 0 && !a.aborted ==> handled == |requests| && a.replies == old(a.replies) + handled)
    ensures !a.aborted ==> a.Idle()
    ensures a.aborted ==>
      handled > 0 && Permitted(p, privileged, requests[handled - 1]) && MayFail(requests[handled - 1])
    ensures ret != 0 && !a.aborted ==>
      handled > 0 && (!Permitted(p, privileged, requests[handled - 1]) || Ends(requests[handled - 1]))
    ensures (forall i | 0 <= i < |requests| :: Careful(requests[i])) && old(a.Loaded()) ==> !a.aborted
  {
    ghost var careful := (forall i | 0 <= i < |requests| :: Careful(requests[i])) && a.Loaded();
    ret, handled := 0, 0;
    while handled < |requests|
      invariant handled <= |requests| && ret == 0 && a.Idle() && !a.aborted
      invariant a.replies == old(a.replies) + handled
      invariant a.s == old(a.s) || a.s == null || fresh(a.s)
      invariant careful ==> a.Loaded()
    {
      handled := handled + 1;
      var reached;
      ret, reached := a.Handle(p, requests[handled - 1], privileged);
      if a.aborted || ret != 0 { return; }
    }
  }
}
