// The login loop of src/pam/pam_otpasswd.c. The user's answers are a sequence; when it ends there is no
// response. What the library and the PAM conversation return is arbitrary, except that the increments
// that succeed return with given counters, which ascend, as Reservation proves for any other sessions.
module Pam {
  import opened Sequences
  import opened Wrappers

  const PAM_SUCCESS: int := 0
  const PAM_AUTH_ERR: int := 7

  datatype Oob = Disabled | Request | SecureRequest | Always

  // The parser admits 0 to 3 for pam_retry and 2 to 5 for pam_retries.
  datatype Config = Config(spassRequire: bool, retry: nat, retries: nat, oob: Oob)

  predicate ValidConfig(cfg: Config) {
    cfg.retry <= 3 && 2 <= cfg.retries <= 5
  }

  // A login: what ppp_authenticate compares with for each counter, the counters that successful
  // increments of this login return with, and whether everything else goes well, so that initialization,
  // increments, prompts and static passwords succeed and the state is accepted.
  datatype Login = Login(cfg: Config, passcode: nat -> string, counters: seq<nat>, smooth: bool)

  predicate ValidLogin(l: Login) {
    ValidConfig(l.cfg) && Ascending(l.counters)
  }

  // The counter that passcode answer i is checked against: with pam_retry 1 each has its own.
  function Turn(l: Login, i: nat): nat {
    if l.cfg.retry == 1 then i else 0
  }

  // What a session does to the state: it checks a static password, reserves a counter, checks an answer
  // against the passcode of a counter, counts a failure, or sends an out-of-band message.
  datatype Event =
    | Static(valid: bool)
    | Reserve(counter: nat)
    | Check(counter: nat, answer: string, accepted: bool)
    | Failure
    | Send

  // The counter reserved last.
  function Latest(trace: seq<Event>): Option<nat> {
    if trace == [] then None
    else
      var last := trace[|trace| - 1];
      if last.Reserve? then Some(last.counter) else Latest(trace[..|trace| - 1])
  }

  // The counters of the checks with their answers, and the counters reserved.
  function Checked(trace: seq<Event>): seq<nat> {
    if trace == [] then []
    else
      var last := trace[|trace| - 1];
      Checked(trace[..|trace| - 1]) + if last.Check? then [last.counter] else []
  }

  function Answers(trace: seq<Event>): seq<string> {
    if trace == [] then []
    else
      var last := trace[|trace| - 1];
      Answers(trace[..|trace| - 1]) + if last.Check? then [last.answer] else []
  }

  function Reserved(trace: seq<Event>): seq<nat> {
    if trace == [] then []
    else
      var last := trace[|trace| - 1];
      Reserved(trace[..|trace| - 1]) + if last.Reserve? then [last.counter] else []
  }

  // How many messages were sent, static passwords refused, failures counted.
  function Sends(trace: seq<Event>): nat {
    if trace == [] then 0 else Sends(trace[..|trace| - 1]) + if trace[|trace| - 1].Send? then 1 else 0
  }

  function Wrong(trace: seq<Event>): nat {
    if trace == [] then 0 else Wrong(trace[..|trace| - 1]) + if trace[|trace| - 1] == Static(false) then 1 else 0
  }

  function Failures(trace: seq<Event>): nat {
    if trace == [] then 0 else Failures(trace[..|trace| - 1]) + if trace[|trace| - 1].Failure? then 1 else 0
  }

  // The answers that do not ask for a message.
  function Passcodes(answers: seq<string>): seq<string> {
    if answers == [] then []
    else
      var last := answers[|answers| - 1];
      Passcodes(answers[..|answers| - 1]) + if last == "." then [] else [last]
  }

  lemma OneMore(trace: seq<Event>, e: Event)
    ensures Latest(trace + [e]) == if e.Reserve? then Some(e.counter) else Latest(trace)
    ensures Checked(trace + [e]) == Checked(trace) + if e.Check? then [e.counter] else []
    ensures Answers(trace + [e]) == Answers(trace) + if e.Check? then [e.answer] else []
    ensures Reserved(trace + [e]) == Reserved(trace) + if e.Reserve? then [e.counter] else []
    ensures Sends(trace + [e]) == Sends(trace) + if e.Send? then 1 else 0
    ensures Wrong(trace + [e]) == Wrong(trace) + if e == Static(false) then 1 else 0
    ensures Failures(trace + [e]) == Failures(trace) + if e.Failure? then 1 else 0
  {
    assert (trace + [e])[..|trace|] == trace;
  }

  lemma OneAnswer(answers: seq<string>, pos: nat)
    requires pos < |answers|
    ensures Passcodes(answers[..pos + 1])
         == Passcodes(answers[..pos]) + if answers[pos] == "." then [] else [answers[pos]]
  {
    assert answers[..pos + 1][..pos] == answers[..pos];
  }

  //// What a login never breaks

  // What may come after a trace. A static password is asked for first, where it is required, or before a
  // message that is to be secured. A reservation takes the next counter, after the required static password;
  // with pam_retry 1 it comes only after the one before has been checked, and otherwise only once. A check is
  // of the counter reserved last, with pam_retry 1 for the first time; it accepts only the passcode of its
  // counter, and always does when nothing else refuses it. A failure is counted after a check that refuses.
  // A message is about a reserved counter, and none that is asked for is sent twice.
  predicate Allowed(l: Login, trace: seq<Event>, e: Event) {
    match e
    case Static(valid) =>
      && (l.smooth ==> valid)
      && if trace == [] then l.cfg.spassRequire
         else l.cfg.oob == SecureRequest && Reserved(trace) != [] && Sends(trace) == 0
    case Reserve(c) =>
      && (l.cfg.spassRequire ==> Admitted(trace))
      && |Reserved(trace)| < |l.counters| && c == l.counters[|Reserved(trace)|]
      && if l.cfg.retry == 1 then |Reserved(trace)| == |Checked(trace)| else Reserved(trace) == []
    case Check(c, answer, accepted) =>
      && Latest(trace) == Some(c) && (l.cfg.retry == 1 ==> |Reserved(trace)| == |Checked(trace)| + 1)
      && (accepted ==> answer == l.passcode(c)) && (l.smooth && answer == l.passcode(c) ==> accepted)
    case Failure =>
      trace != [] && trace[|trace| - 1].Check? && !trace[|trace| - 1].accepted
    case Send =>
      && Reserved(trace) != [] && l.cfg.oob != Disabled && (l.cfg.oob != Always ==> Sends(trace) == 0)
      && (l.cfg.oob == SecureRequest ==> trace != [] && trace[|trace| - 1] == Static(true))
  }

  // The static password was right in the beginning.
  predicate Admitted(trace: seq<Event>) {
    trace != [] && trace[0] == Static(true)
  }

  predicate Faithful(l: Login, trace: seq<Event>) {
    forall k | 0 <= k < |trace| :: Allowed(l, trace[..k], trace[k])
  }

  predicate NoneAccepted(trace: seq<Event>) {
    forall k | 0 <= k < |trace| && trace[k].Check? :: !trace[k].accepted
  }

  lemma FaithfulMore(l: Login, trace: seq<Event>, e: Event)
    requires Faithful(l, trace) && Allowed(l, trace, e)
    ensures Faithful(l, trace + [e])
  {
    hide Allowed;
    var t := trace + [e];
    forall k | 0 <= k < |t| ensures Allowed(l, t[..k], t[k]) {
      if k < |trace| {
        assert t[k] == trace[k] && t[..k] == trace[..k];
      } else {
        assert t[..k] == trace;
      }
    }
  }

  // The messages: none, one where it was asked for and all goes well, or one before every answer.
  predicate Messages(l: Login, trace: seq<Event>, taken: seq<string>, more: nat) {
    match l.cfg.oob
    case Disabled => Sends(trace) == 0
    case Always => Sends(trace) == |taken| + more
    case _ =>
      && Sends(trace) <= 1 && (Sends(trace) == 1 ==> "." in taken)
      && (l.smooth && "." in taken ==> Sends(trace) == 1)
  }

  // Every answer taken that does not ask for a message is checked, in order, answer i against the counter
  // of its turn, whatever messages are asked for in between; checks and wrong static passwords together are
  // at most pam_retries, or one.
  predicate Outcome(l: Login, trace: seq<Event>, taken: seq<string>) {
    && Faithful(l, trace) && Answers(trace) == Passcodes(taken) && Reserved(trace) <= l.counters
    && |Checked(trace)| == |Answers(trace)|
    && |Checked(trace)| + Wrong(trace) <= (if l.cfg.retry == 0 then 1 else l.cfg.retries)
    && (forall i | 0 <= i < |Checked(trace)| ::
          Turn(l, i) < |l.counters| && Checked(trace)[i] == l.counters[Turn(l, i)])
    && |Reserved(trace)| <= (if l.cfg.retry == 1 then |Checked(trace)| + 1 else 1)
    && exists more :: 0 <= more <= 1 && Messages(l, trace, taken, more)
  }

  // The last event is the acceptance of the last answer taken, and nothing was accepted before.
  predicate Accepted(trace: seq<Event>, taken: seq<string>) {
    && |trace| > 0 && |taken| > 0 && NoneAccepted(trace[..|trace| - 1])
    && trace[|trace| - 1].Check? && trace[|trace| - 1].accepted && trace[|trace| - 1].answer == taken[|taken| - 1]
  }

  // How a login ends: a failure is counted for every check but the accepted one. When all goes well, it
  // fails only because the answers, the tries or the counters are used up, or a message was asked for that
  // is not configured.
  predicate Ended(l: Login, answers: seq<string>, retval: int, trace: seq<Event>, consumed: nat) {
    && consumed <= |answers| && Outcome(l, trace, answers[..consumed])
    && (if retval == PAM_SUCCESS
        then Accepted(trace, answers[..consumed]) && (l.cfg.spassRequire ==> Admitted(trace))
        else NoneAccepted(trace))
    && Failures(trace) + (if retval == PAM_SUCCESS then 1 else 0) == |Checked(trace)|
    && (l.smooth && retval != PAM_SUCCESS ==>
      || consumed == |answers| || |Checked(trace)| == (if l.cfg.retry == 0 then 1 else l.cfg.retries)
      || (if l.cfg.retry == 1 then |Checked(trace)| == |l.counters| else l.counters == [])
      || (consumed > 0 && answers[consumed - 1] == "." && (l.cfg.oob == Disabled || l.cfg.oob == Always)))
  }

  //// The loop

  // pam_sm_authenticate. consumed is the number of answers taken.
  method SmAuthenticate(l: Login, answers: seq<string>) returns (retval: int, trace: seq<Event>, consumed: nat)
    requires ValidLogin(l)
    ensures Ended(l, answers, retval, trace, consumed)
  {
    consumed := 0;
    assert answers[..0] == [];
    retval, trace := Start(l);
    NothingYet(l, trace);
    hide Progress, Outcome, NoneAccepted, Failures, Checked;
    if retval != 0 { return; }
    retval, trace, consumed := AskPasscodes(l, answers, trace);
  }

  // Its loop.
  method AskPasscodes(l: Login, answers: seq<string>, begun: seq<Event>)
    returns (retval: int, trace: seq<Event>, consumed: nat)
    requires ValidLogin(l) && Progress(l, begun, [], Stage(true, true, 0, false, 0))
    ensures Ended(l, answers, retval, trace, consumed)
  {
    hide *;
    retval, trace, consumed := PAM_AUTH_ERR, begun, 0;
    assert answers[..0] == [];
    var firstTry, dontIncrement, oobSent := true, false, false;
    var tries: nat := 0;
    while tries < if l.cfg.retry == 0 then 1 else l.cfg.retries
      invariant consumed <= |answers| && retval == PAM_AUTH_ERR && (firstTry ==> !dontIncrement)
      invariant tries <= if l.cfg.retry == 0 then 1 else l.cfg.retries
      invariant Progress(l, trace, answers[..consumed], Stage(firstTry, firstTry || dontIncrement, tries, oobSent, 0))
      decreases |answers| - consumed
    {
      var ret;
      ret, trace, dontIncrement :=
        PreparePasscode(l, trace, answers[..consumed], firstTry, dontIncrement, tries, oobSent);
      if ret != 0 {
        FailedEarly(l, answers, ret, trace, consumed);
        return ret, trace, consumed;
      }
      firstTry := false;
      if l.cfg.oob == Always {
        trace := SendAlways(l, trace, answers[..consumed], tries, oobSent);
      } else {
        NoneBetween(l, trace, answers[..consumed], Stage(false, true, tries, oobSent, 0));
      }
      if consumed == |answers| {
        UsedUp(l, answers, trace, consumed, Stage(false, true, tries, oobSent, 1));
        return;
      }
      consumed := consumed + 1;
      var done, asked;
      done, retval, trace, tries, oobSent, asked := TakeAnswer(l, answers, trace, consumed, tries, oobSent);
      if done { return; }
      if asked {
        dontIncrement := true;
      } else if l.cfg.retry != 1 {
        SameCounter(l, trace, answers[..consumed], Stage(false, false, tries, oobSent, 0));
      }
    }
    UsedUp(l, answers, trace, consumed, Stage(firstTry, firstTry || dontIncrement, tries, oobSent, 0));
  }

  // What is done with an answer; asked: it asks for a message.
  method TakeAnswer(l: Login, answers: seq<string>, trace: seq<Event>, consumed: nat, tries: nat, oobSent: bool)
    returns (done: bool, retval: int, t: seq<Event>, tries': nat, oobSent': bool, asked: bool)
    requires 0 < consumed <= |answers| && tries < if l.cfg.retry == 0 then 1 else l.cfg.retries
    requires Progress(l, trace, answers[..consumed - 1], Stage(false, true, tries, oobSent, 1))
    ensures done ==> Ended(l, answers, retval, t, consumed)
    ensures !done ==>
      retval == PAM_AUTH_ERR && Progress(l, t, answers[..consumed], Stage(false, asked, tries', oobSent', 0))
    ensures tries' <= if l.cfg.retry == 0 then 1 else l.cfg.retries
  {
    hide Progress, Ended;
    retval := PAM_AUTH_ERR;
    asked := answers[consumed - 1] == ".";
    if asked {
      done, t, tries', oobSent' := AnswerDot(l, answers, trace, consumed, tries, oobSent);
    } else {
      tries', oobSent' := tries + 1, oobSent;
      done, t := CheckAnswer(l, answers, trace, consumed, tries, oobSent);
      if done { retval := PAM_SUCCESS; }
    }
  }

  // Where the loop stands: whether a counter was reserved, whether the one reserved last is still to be
  // checked, the tries, whether a message was asked for, and the messages sent before the next answer.
  datatype Stage = Stage(firstTry: bool, unchecked: bool, tries: nat, oobSent: bool, more: nat)

  // What holds between the events.
  predicate Progress(l: Login, trace: seq<Event>, taken: seq<string>, g: Stage) {
    && Faithful(l, trace) && NoneAccepted(trace) && Answers(trace) == Passcodes(taken) && Reserved(trace) <= l.counters
    && |Answers(trace)| == |Checked(trace)| == Failures(trace) && |Checked(trace)| + Wrong(trace) == g.tries
    && (l.smooth ==> Wrong(trace) == 0) && (l.cfg.spassRequire ==> Admitted(trace)) && (g.firstTry ==> |trace| <= 1)
    && |Reserved(trace)| == Due(l, |Checked(trace)|, g)
    && (g.firstTry ==> Checked(trace) == [])
    && (!g.firstTry ==> |Reserved(trace)| > 0 && Latest(trace) == Some(Reserved(trace)[|Reserved(trace)| - 1]))
    && (forall i | 0 <= i < |Checked(trace)| ::
          Turn(l, i) < |l.counters| && Checked(trace)[i] == l.counters[Turn(l, i)])
    && Messages(l, trace, taken, if l.cfg.oob == Always then g.more else 0)
    && (g.oobSent <==> (l.cfg.oob == Request || l.cfg.oob == SecureRequest) && Sends(trace) == 1)
  }

  // How many counters have been reserved.
  function Due(l: Login, checked: nat, g: Stage): (n: nat)
    ensures !g.firstTry && (l.cfg.retry != 1 || g.unchecked) ==> n > 0
  {
    if g.firstTry then 0
    else if l.cfg.retry != 1 then 1
    else if g.unchecked then checked + 1
    else checked
  }

  lemma ProgressGives(l: Login, trace: seq<Event>, taken: seq<string>, g: Stage)
    requires Progress(l, trace, taken, g) && g.more <= 1
    ensures g.tries <= (if l.cfg.retry == 0 then 1 else l.cfg.retries) ==> Outcome(l, trace, taken)
    ensures NoneAccepted(trace) && (l.smooth ==> |Checked(trace)| == g.tries) && Failures(trace) == |Checked(trace)|
  {
    assert Messages(l, trace, taken, if l.cfg.oob == Always then g.more else 0);
    hide Messages, Faithful, NoneAccepted, Latest, Checked, Reserved, Answers, Passcodes, Sends, Wrong, Failures;
  }

  lemma FailedEarly(l: Login, answers: seq<string>, ret: int, trace: seq<Event>, consumed: nat)
    requires consumed <= |answers| && ret != 0 && Outcome(l, trace, answers[..consumed]) && NoneAccepted(trace)
    requires Failures(trace) == |Checked(trace)|
    requires l.smooth ==> if l.cfg.retry == 1 then |Checked(trace)| == |l.counters| else l.counters == []
    ensures Ended(l, answers, ret, trace, consumed)
  {
    hide Outcome, NoneAccepted, Reserved;
  }

  // No answers are left, or no tries.
  lemma UsedUp(l: Login, answers: seq<string>, trace: seq<Event>, consumed: nat, g: Stage)
    requires consumed <= |answers| && g.tries <= (if l.cfg.retry == 0 then 1 else l.cfg.retries) && g.more <= 1
    requires consumed == |answers| || g.tries == if l.cfg.retry == 0 then 1 else l.cfg.retries
    requires Progress(l, trace, answers[..consumed], g)
    ensures Ended(l, answers, PAM_AUTH_ERR, trace, consumed)
  {
    ProgressGives(l, trace, answers[..consumed], g);
    hide Progress, Outcome, NoneAccepted, Checked, Reserved;
  }

  // ph_init, and the static password that may be asked for first.
  method Start(l: Login) returns (retval: int, trace: seq<Event>)
    requires ValidLogin(l)
    ensures retval == 0 ==> Begun(l, trace)
    ensures retval != 0 ==> !l.smooth && RefusedAtOnce(l, trace)
  {
    trace := [];
    retval := *;
    if l.smooth { retval := 0; }
    if retval == 0 && l.cfg.spassRequire {
      var valid := Either(l);
      trace := [Static(valid)];
      if !valid { retval := PAM_AUTH_ERR; }
    }
  }

  // After the required static password nothing else has happened.
  predicate Begun(l: Login, trace: seq<Event>) {
    trace == if l.cfg.spassRequire then [Static(true)] else []
  }

  lemma NothingYet(l: Login, trace: seq<Event>)
    requires ValidLogin(l) && (Begun(l, trace) || (!l.smooth && RefusedAtOnce(l, trace)))
    ensures Begun(l, trace) ==> Progress(l, trace, [], Stage(true, true, 0, false, 0))
    ensures Outcome(l, trace, []) && NoneAccepted(trace) && Failures(trace) == |Checked(trace)| == 0
  {
    BeginsWith(l, trace);
    assert Passcodes([]) == [] && Messages(l, trace, [], 0);
    hide Faithful, NoneAccepted, Answers, Checked, Reserved, Sends, Wrong, Failures, Latest, Passcodes, Messages;
  }

  lemma BeginsWith(l: Login, trace: seq<Event>)
    requires Begun(l, trace) || (!l.smooth && RefusedAtOnce(l, trace))
    ensures Faithful(l, trace) && NoneAccepted(trace) && Wrong(trace) <= 1 && (Begun(l, trace) ==> Wrong(trace) == 0)
    ensures Answers(trace) == [] && Checked(trace) == [] && Reserved(trace) == []
    ensures Sends(trace) == Failures(trace) == 0
    ensures Begun(l, trace) && l.cfg.spassRequire ==> Admitted(trace)
  {
    if trace != [] {
      assert trace == [] + [trace[0]] && trace[0].Static?;
      OneMore([], trace[0]);
      FaithfulMore(l, [], trace[0]);
      hide Faithful, Answers, Checked, Reserved, Sends, Latest;
    }
  }

  predicate RefusedAtOnce(l: Login, trace: seq<Event>) {
    trace == [] || (l.cfg.spassRequire && trace == [Static(false)])
  }

  // An outcome that is good when all goes well.
  method Either(l: Login) returns (good: bool)
    ensures l.smooth ==> good
  {
    good := *;
    good := good || l.smooth;
  }

  // The beginning of a turn: ph_increment and the prompt, unless the passcode stays.
  method PreparePasscode(l: Login, trace: seq<Event>, taken: seq<string>, firstTry: bool, dontIncrement: bool,
                         tries: nat, oobSent: bool)
    returns (ret: int, t: seq<Event>, dontIncrement': bool)
    requires Progress(l, trace, taken, Stage(firstTry, firstTry || dontIncrement, tries, oobSent, 0))
    requires ValidLogin(l) && tries < (if l.cfg.retry == 0 then 1 else l.cfg.retries) && (firstTry ==> !dontIncrement)
    ensures ret == 0 ==> Progress(l, t, taken, Stage(false, true, tries, oobSent, 0))
    ensures ret == 0 && l.cfg.retry == 1 ==> !dontIncrement'
    ensures ret != 0 ==> Outcome(l, t, taken) && NoneAccepted(t) && Failures(t) == |Checked(t)|
    ensures l.smooth && ret != 0 ==> if l.cfg.retry == 1 then |Checked(t)| == |l.counters| else l.counters == []
  {
    hide Progress, Outcome, NoneAccepted, Checked, Reserved;
    ret, t, dontIncrement' := 0, trace, dontIncrement;
    ghost var g := Stage(firstTry, firstTry || dontIncrement, tries, oobSent, 0);
    if firstTry || l.cfg.retry == 1 {
      if dontIncrement {
        dontIncrement' := false;
      } else {
        ret := *;
        if l.smooth { ret := 0; }
        var k := |Reserved(trace)|;
        ProgressGives(l, trace, taken, g);
        NextCounter(l, trace, taken, g);
        if k == |l.counters| && ret == 0 { ret := PAM_AUTH_ERR; }
        if ret != 0 { return; }
        t := AddReserve(l, trace, taken, g, l.counters[k]);
        var prompt := Either(l);
        if !prompt {
          ProgressGives(l, t, taken, Stage(false, true, tries, oobSent, 0));
          ret := PAM_AUTH_ERR;
        }
      }
    } else {
      SameCounter(l, trace, taken, g);
    }
  }

  // A new turn has checked all counters reserved before.
  lemma NextCounter(l: Login, trace: seq<Event>, taken: seq<string>, g: Stage)
    requires Progress(l, trace, taken, g) && (g.firstTry || (l.cfg.retry == 1 && !g.unchecked))
    ensures |Reserved(trace)| <= |l.counters|
    ensures |Reserved(trace)| == |l.counters| ==>
      if l.cfg.retry == 1 then |Checked(trace)| == |l.counters| else l.counters == []
  {
    hide Faithful, NoneAccepted, Latest, Answers, Passcodes, Messages, Sends, Wrong, Failures;
  }

  // Without pam_retry 1 the counter stays, checked or not.
  lemma SameCounter(l: Login, trace: seq<Event>, taken: seq<string>, g: Stage)
    requires Progress(l, trace, taken, g) && !g.firstTry && l.cfg.retry != 1
    ensures Progress(l, trace, taken, g.(unchecked := true)) && Progress(l, trace, taken, g.(unchecked := false))
  {
    hide Faithful, NoneAccepted, Latest, Checked, Reserved, Answers, Passcodes, Messages, Sends, Wrong, Failures;
  }

  // Unless messages are always sent, there is none before an answer.
  lemma NoneBetween(l: Login, trace: seq<Event>, taken: seq<string>, g: Stage)
    requires Progress(l, trace, taken, g) && l.cfg.oob != Always
    ensures Progress(l, trace, taken, g.(more := 1))
  {
    hide Faithful, NoneAccepted, Latest, Checked, Reserved, Answers, Passcodes, Messages, Sends, Wrong, Failures;
  }

  method AddReserve(l: Login, trace: seq<Event>, taken: seq<string>, ghost g: Stage, reserved: nat)
    returns (t: seq<Event>)
    requires Progress(l, trace, taken, g) && (g.firstTry || (l.cfg.retry == 1 && !g.unchecked))
    requires |Reserved(trace)| < |l.counters| && reserved == l.counters[|Reserved(trace)|]
    ensures Progress(l, t, taken, g.(firstTry := false, unchecked := true))
  {
    hide Latest, Checked, Answers, Reserved, Faithful, Sends, Wrong, Failures;
    t := Add(l, trace, Reserve(reserved));
    assert Checked(t) == Checked(trace) && Answers(t) == Answers(trace);
  }

  // The message before every answer.
  method SendAlways(l: Login, trace: seq<Event>, taken: seq<string>, tries: nat, oobSent: bool) returns (t: seq<Event>)
    requires Progress(l, trace, taken, Stage(false, true, tries, oobSent, 0)) && l.cfg.oob == Always
    ensures Progress(l, t, taken, Stage(false, true, tries, oobSent, 1))
  {
    hide Latest, Checked, Answers, Reserved, Faithful, Sends, Wrong, Failures;
    t := Add(l, trace, Send);
    assert Checked(t) == Checked(trace) && Answers(t) == Answers(trace) && Reserved(t) == Reserved(trace);
  }

  // The message that was asked for.
  method SendOnce(l: Login, trace: seq<Event>, answers: seq<string>, consumed: nat, tries: nat) returns (t: seq<Event>)
    requires 0 < consumed <= |answers| && answers[consumed - 1] == "."
    requires Progress(l, trace, answers[..consumed - 1], Stage(false, true, tries, false, 1))
    requires l.cfg.oob == Request || (l.cfg.oob == SecureRequest && trace != [] && trace[|trace| - 1] == Static(true))
    ensures Progress(l, t, answers[..consumed], Stage(false, true, tries, true, 0))
  {
    hide Latest, Checked, Answers, Reserved, Faithful, Sends, Passcodes, Wrong, Failures;
    OneAnswer(answers, consumed - 1);
    assert answers[..consumed][consumed - 1] == ".";
    t := Add(l, trace, Send);
    assert Checked(t) == Checked(trace) && Answers(t) == Answers(trace) && Reserved(t) == Reserved(trace);
  }

  // ppp_authenticate with the last answer taken, and ppp_failures when it refuses.
  method CheckAnswer(l: Login, answers: seq<string>, trace: seq<Event>, consumed: nat, tries: nat, oobSent: bool)
    returns (accepted: bool, t: seq<Event>)
    requires 0 < consumed <= |answers| && answers[consumed - 1] != "."
    requires Progress(l, trace, answers[..consumed - 1], Stage(false, true, tries, oobSent, 1))
    requires tries < if l.cfg.retry == 0 then 1 else l.cfg.retries
    ensures !accepted ==> Progress(l, t, answers[..consumed], Stage(false, false, tries + 1, oobSent, 0))
    ensures accepted ==> Ended(l, answers, PAM_SUCCESS, t, consumed)
  {
    hide Latest, Checked, Answers, Reserved, Faithful, Passcodes, Sends, Wrong, Failures;
    OneAnswer(answers, consumed - 1);
    SameAsk(answers, consumed);
    var k := |Reserved(trace)| - 1;
    var counter := Reserved(trace)[k];
    var answer := answers[consumed - 1];
    var verified := Either(l);
    accepted := verified && answer == l.passcode(counter);
    assert counter == l.counters[k] && k == Turn(l, |Checked(trace)|);
    if accepted {
      t := Add(l, trace, Check(counter, answer, true));
      assert Reserved(t) == Reserved(trace) && t[..|t| - 1] == trace;
      assert Messages(l, t, answers[..consumed], 0);
    } else {
      t := AddRefused(l, trace, counter, answer);
      assert Messages(l, t, answers[..consumed], 0);
    }
  }

  // A check that refuses, and its failure.
  method AddRefused(l: Login, trace: seq<Event>, c: nat, answer: string) returns (t: seq<Event>)
    requires Faithful(l, trace) && Allowed(l, trace, Check(c, answer, false)) && NoneAccepted(trace)
    ensures Faithful(l, t) && NoneAccepted(t) && trace <= t && (l.cfg.spassRequire && Admitted(trace) ==> Admitted(t))
    ensures Checked(t) == Checked(trace) + [c] && Answers(t) == Answers(trace) + [answer]
    ensures Reserved(t) == Reserved(trace) && Latest(t) == Latest(trace) && Sends(t) == Sends(trace)
    ensures Wrong(t) == Wrong(trace) && Failures(t) == Failures(trace) + 1
  {
    hide Latest, Checked, Answers, Reserved, Faithful, Passcodes, Sends, Wrong, Failures;
    t := Add(l, trace, Check(c, answer, false));
    t := Add(l, t, Failure);
  }

  // Whether a message was asked for does not change with a passcode.
  lemma SameAsk(answers: seq<string>, consumed: nat)
    requires 0 < consumed <= |answers|
    ensures "." in answers[..consumed] <==> "." in answers[..consumed - 1] || answers[consumed - 1] == "."
  {
    assert answers[..consumed] == answers[..consumed - 1] + [answers[consumed - 1]];
  }

  // The answer that asks for an out-of-band message.
  method AnswerDot(l: Login, answers: seq<string>, trace: seq<Event>, consumed: nat, tries: nat, oobSent: bool)
    returns (stop: bool, t: seq<Event>, tries': nat, oobSent': bool)
    requires 0 < consumed <= |answers| && answers[consumed - 1] == "."
    requires Progress(l, trace, answers[..consumed - 1], Stage(false, true, tries, oobSent, 1))
    requires tries < if l.cfg.retry == 0 then 1 else l.cfg.retries
    ensures !stop ==> Progress(l, t, answers[..consumed], Stage(false, true, tries', oobSent', 0))
    ensures tries <= tries' <= if l.cfg.retry == 0 then 1 else l.cfg.retries
    ensures stop ==> Ended(l, answers, PAM_AUTH_ERR, t, consumed)
  {
    hide Progress, Ended;
    stop, t, tries', oobSent' := false, trace, tries, oobSent;
    if oobSent {
      AskedAgain(l, answers, trace, consumed, tries);
      return;
    }
    match l.cfg.oob
    case Request =>
      var sent := Either(l);
      if sent {
        t := SendOnce(l, trace, answers, consumed, tries);
        oobSent' := true;
      } else {
        NotSent(l, answers, trace, consumed, tries);
      }
    case SecureRequest =>
      var valid := Either(l);
      t := AskStatic(l, trace, answers[..consumed - 1], tries, valid);
      if valid {
        var sent := Either(l);
        if sent {
          t := SendOnce(l, t, answers, consumed, tries);
          oobSent' := true;
        } else {
          NotSent(l, answers, t, consumed, tries);
        }
      } else {
        tries' := tries + 1;
        NotSent(l, answers, t, consumed, tries + 1);
      }
    case _ =>
      // the assertion of the source ends the run here
      NotConfigured(l, answers, trace, consumed, tries);
      stop := true;
  }

  // An answer that asks for a message, where one was sent before.
  lemma AskedAgain(l: Login, answers: seq<string>, trace: seq<Event>, consumed: nat, tries: nat)
    requires 0 < consumed <= |answers| && answers[consumed - 1] == "."
    requires Progress(l, trace, answers[..consumed - 1], Stage(false, true, tries, true, 1))
    ensures Progress(l, trace, answers[..consumed], Stage(false, true, tries, true, 0))
  {
    hide Latest, Checked, Answers, Reserved, Faithful, Sends, Passcodes, Wrong, Failures;
    OneAnswer(answers, consumed - 1);
    assert answers[..consumed][consumed - 1] == ".";
  }

  // The static password that secures a message.
  method AskStatic(l: Login, trace: seq<Event>, taken: seq<string>, tries: nat, valid: bool) returns (t: seq<Event>)
    requires Progress(l, trace, taken, Stage(false, true, tries, false, 1)) && l.cfg.oob == SecureRequest
    requires l.smooth ==> valid
    ensures Progress(l, t, taken, Stage(false, true, if valid then tries else tries + 1, false, 1))
    ensures t != [] && t[|t| - 1] == Static(valid)
  {
    hide Latest, Checked, Answers, Faithful, Sends, Passcodes, Wrong, Failures;
    t := Add(l, trace, Static(valid));
    assert Checked(t) == Checked(trace) && Answers(t) == Answers(trace) && Reserved(t) == Reserved(trace);
  }

  // An answer that asks for a message, which could not be sent.
  lemma NotSent(l: Login, answers: seq<string>, trace: seq<Event>, consumed: nat, tries: nat)
    requires 0 < consumed <= |answers| && answers[consumed - 1] == "." && !l.smooth
    requires Progress(l, trace, answers[..consumed - 1], Stage(false, true, tries, false, 1))
    requires l.cfg.oob == Request || l.cfg.oob == SecureRequest
    ensures Progress(l, trace, answers[..consumed], Stage(false, true, tries, false, 0))
  {
    hide Latest, Checked, Answers, Reserved, Faithful, Sends, Passcodes, Wrong, Failures;
    OneAnswer(answers, consumed - 1);
    SameAsk(answers, consumed);
  }

  // An answer that asks for a message, which is not configured or is always sent.
  lemma NotConfigured(l: Login, answers: seq<string>, trace: seq<Event>, consumed: nat, tries: nat)
    requires 0 < consumed <= |answers| && answers[consumed - 1] == "." && (l.cfg.oob == Disabled || l.cfg.oob == Always)
    requires Progress(l, trace, answers[..consumed - 1], Stage(false, true, tries, false, 1))
    requires tries < if l.cfg.retry == 0 then 1 else l.cfg.retries
    ensures Ended(l, answers, PAM_AUTH_ERR, trace, consumed)
  {
    hide Latest, Checked, Answers, Reserved, Faithful, Sends, Passcodes, Wrong, Failures;
    OneAnswer(answers, consumed - 1);
    assert Messages(l, trace, answers[..consumed], 0);
  }

  //// What a login means for the user

  // A counter that was checked had been reserved.
  lemma CheckedWasReserved(l: Login, trace: seq<Event>, k: nat)
    requires Faithful(l, trace) && k < |trace| && trace[k].Check?
    ensures trace[k].counter in Reserved(trace)
  {
    LatestReserved(trace[..k]);
    ReservedBefore(trace, k);
  }

  lemma {:induction false} LatestReserved(trace: seq<Event>)
    ensures Latest(trace).Some? ==> Latest(trace).value in Reserved(trace)
  {
    if trace != [] { LatestReserved(trace[..|trace| - 1]); }
  }

  lemma {:induction false} ReservedBefore(trace: seq<Event>, k: nat)
    requires k <= |trace|
    ensures forall c <- Reserved(trace[..k]) :: c in Reserved(trace)
  {
    if k < |trace| {
      ReservedBefore(trace[..|trace| - 1], k);
      assert trace[..|trace| - 1][..k] == trace[..k];
    } else {
      assert trace[..k] == trace;
    }
  }

  lemma NoneBefore(trace: seq<Event>, taken: seq<string>)
    requires Accepted(trace, taken)
    ensures forall k | 0 <= k < |trace| - 1 && trace[k].Check? :: !trace[k].accepted
  {
    var front := trace[..|trace| - 1];
    assert forall k | 0 <= k < |front| :: front[k] == trace[k];
  }

  // At most one answer of a login is accepted.
  lemma AcceptedLast(l: Login, answers: seq<string>, retval: int, trace: seq<Event>, consumed: nat, k: nat)
    requires Ended(l, answers, retval, trace, consumed) && k < |trace| && trace[k].Check? && trace[k].accepted
    ensures retval == PAM_SUCCESS && k == |trace| - 1 && trace[k].answer == l.passcode(trace[k].counter)
  {
    hide Latest, Checked, Answers, Reserved, Passcodes, Sends;
    if retval == PAM_SUCCESS { NoneBefore(trace, answers[..consumed]); }
  }

  // The check of passcode answer i.
  lemma {:induction false} CheckAt(trace: seq<Event>, i: nat) returns (k: nat)
    requires i < |Checked(trace)| && |Answers(trace)| == |Checked(trace)|
    ensures k < |trace| && trace[k].Check?
    ensures trace[k].counter == Checked(trace)[i] && trace[k].answer == Answers(trace)[i]
    ensures |Checked(trace[..k])| == i
  {
    var front := trace[..|trace| - 1];
    SameNumber(front);
    if i < |Checked(front)| {
      k := CheckAt(front, i);
      assert front[..k] == trace[..k];
    } else {
      k := |trace| - 1;
    }
  }

  lemma {:induction false} SameNumber(trace: seq<Event>)
    ensures |Answers(trace)| == |Checked(trace)|
  {
    if trace != [] { SameNumber(trace[..|trace| - 1]); }
  }

  lemma {:induction false} PasscodesPrefix(answers: seq<string>, n: nat)
    requires n <= |answers|
    ensures Passcodes(answers[..n]) <= Passcodes(answers)
  {
    if n < |answers| {
      PasscodesPrefix(answers[..|answers| - 1], n);
      assert answers[..|answers| - 1][..n] == answers[..n];
    } else {
      assert answers[..n] == answers;
    }
  }

  // A login that succeeds does so on a passcode answer that is right for the counter of its turn, and no
  // answer before it was.
  lemma SuccessIsRight(l: Login, answers: seq<string>, trace: seq<Event>, consumed: nat) returns (n: nat)
    requires Ended(l, answers, PAM_SUCCESS, trace, consumed)
    ensures n < |Passcodes(answers)| && n < (if l.cfg.retry == 0 then 1 else l.cfg.retries) && Turn(l, n) < |l.counters|
    ensures Passcodes(answers)[n] == l.passcode(l.counters[Turn(l, n)]) && n + 1 == |Checked(trace)|
    ensures l.smooth ==> forall i | 0 <= i < n :: Passcodes(answers)[i] != l.passcode(l.counters[Turn(l, i)])
  {
    var last := |trace| - 1;
    LastCheck(trace);
    hide Latest, Sends, Messages, Wrong, Failures;
    n := |Checked(trace)| - 1;
    PasscodesPrefix(answers, consumed);
    var k := CheckAt(trace, n);
    hide Passcodes, Checked, Answers, Reserved;
    AllowedAt(l, trace, last);
    forall i | 0 <= i < n && l.smooth ensures Passcodes(answers)[i] != l.passcode(l.counters[Turn(l, i)]) {
      EarlierRefused(l, answers, trace, consumed, i);
    }
  }

  lemma AllowedAt(l: Login, trace: seq<Event>, k: nat)
    requires Faithful(l, trace) && k < |trace|
    ensures Allowed(l, trace[..k], trace[k])
  {}

  // When all goes well, an answer that was checked without being accepted was wrong.
  lemma Refused(l: Login, trace: seq<Event>, i: nat)
    requires Faithful(l, trace) && i < |Checked(trace)| == |Answers(trace)| && l.smooth
    ensures (exists k :: 0 <= k < |trace| && trace[k].Check? && trace[k].accepted && |Checked(trace[..k])| == i)
         || Answers(trace)[i] != l.passcode(Checked(trace)[i])
  {
    var k := CheckAt(trace, i);
    AllowedAt(l, trace, k);
  }

  lemma EarlierRefused(l: Login, answers: seq<string>, trace: seq<Event>, consumed: nat, i: nat)
    requires Ended(l, answers, PAM_SUCCESS, trace, consumed) && l.smooth && i + 1 < |Checked(trace)|
    ensures i < |Passcodes(answers)| && Turn(l, i) < |l.counters|
    ensures Passcodes(answers)[i] != l.passcode(l.counters[Turn(l, i)])
  {
    Refused(l, trace, i);
    PasscodesPrefix(answers, consumed);
    NoneBefore(trace, answers[..consumed]);
    LastCheck(trace);
    hide Passcodes, Answers, Reserved, Sends, Messages, Latest, Wrong, Failures, Faithful, Checked;
  }

  lemma LastCheck(trace: seq<Event>)
    requires trace != [] && trace[|trace| - 1].Check?
    ensures |Checked(trace)| == |Checked(trace[..|trace| - 1])| + 1
  {}

  // When all goes well, and messages can be asked for, the first right passcode answer within the tries
  // lets the user in, whatever messages are asked for in between.
  lemma RightSucceeds(l: Login, answers: seq<string>, retval: int, trace: seq<Event>, consumed: nat, n: nat)
    requires Ended(l, answers, retval, trace, consumed) && l.smooth
    requires l.cfg.oob == Request || l.cfg.oob == SecureRequest || "." !in answers
    requires n < |Passcodes(answers)| && n < (if l.cfg.retry == 0 then 1 else l.cfg.retries)
    requires Turn(l, n) < |l.counters|
    requires Passcodes(answers)[n] == l.passcode(l.counters[Turn(l, n)])
    ensures retval == PAM_SUCCESS && |Checked(trace)| <= n + 1
  {
    PasscodesPrefix(answers, consumed);
    if retval == PAM_SUCCESS {
      if n + 1 < |Checked(trace)| { EarlierRefused(l, answers, trace, consumed, n); }
    } else {
      assert consumed == |answers| ==> answers[..consumed] == answers;
      hide Passcodes, Checked, Answers, Reserved, Sends, Messages, Latest, Wrong, Failures;
      Refused(l, trace, n);
    }
  }

  // One more event.
  method Add(l: Login, trace: seq<Event>, e: Event) returns (t: seq<Event>)
    requires Faithful(l, trace) && Allowed(l, trace, e)
    ensures t == trace + [e] && Faithful(l, t)
    ensures Latest(t) == if e.Reserve? then Some(e.counter) else Latest(trace)
    ensures Checked(t) == Checked(trace) + if e.Check? then [e.counter] else []
    ensures Answers(t) == Answers(trace) + if e.Check? then [e.answer] else []
    ensures Reserved(t) == Reserved(trace) + if e.Reserve? then [e.counter] else []
    ensures Sends(t) == Sends(trace) + if e.Send? then 1 else 0
    ensures Wrong(t) == Wrong(trace) + if e == Static(false) then 1 else 0
    ensures Failures(t) == Failures(trace) + if e.Failure? then 1 else 0
  {
    hide Latest, Checked, Answers, Reserved, Faithful, Sends, Wrong, Failures, Allowed;
    OneMore(trace, e);
    FaithfulMore(l, trace, e);
    t := trace + [e];
  }
}
