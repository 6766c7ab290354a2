/** What holds over every run of the sender, whatever the network does. */
module TelegramSafety {
  import opened Prelude
  import opened Telegram
  import opened TelegramHistory

  // ----- sends

  lemma SendOnceKeeps(env: Environment, s: State, text: Text)
    requires Invariant(s) && Quiet(s, text)
    ensures var (r, o) := SendOnce(env, s, text);
      Invariant(r) && Later(s, r, s.now) && r.buffer == s.buffer && (o.Failure? ==> Quiet(r, text))
  {
    hide Invariant, Quiet, Later, Transmit, RecordSuccess, RecordFailure;
    TransmitKeeps(env, s);
    var s1 := Transmit(env, s);
    LaterNow(s, s1);
    AfterReply(s, s1, text);
    if ReplyTo(env, s).Caught? {
      TransmitKeeps(env, s1);
      var s2 := Transmit(env, s1);
      LaterNow(s1, s2);
      LaterTrans(s, s1, s2, s.now, s1.now);
      AfterReply(s, s2, text);
    }
  }

  lemma LaterNow(s: State, r: State)
    ensures forall t :: Later(s, r, t) ==> s.now <= r.now
  {
  }

  /** Recording either end of a request keeps everything, seen from the start of the call. */
  lemma AfterReply(s: State, m: State, text: Text)
    requires Invariant(m) && Quiet(m, text) && Later(s, m, s.now)
    ensures Invariant(RecordSuccess(m, text)) && Later(s, RecordSuccess(m, text), s.now)
    ensures RecordSuccess(m, text).buffer == m.buffer
    ensures forall wait :: (
      && Invariant(RecordFailure(m, wait)) && Later(s, RecordFailure(m, wait), s.now)
      && Quiet(RecordFailure(m, wait), text) && RecordFailure(m, wait).buffer == m.buffer)
  {
    hide Invariant, Quiet, RecordSuccess, RecordFailure;
    SuccessKeeps(m, text);
    LaterTrans(s, m, RecordSuccess(m, text), s.now, m.now);
    forall wait: nat
      ensures Invariant(RecordFailure(m, wait)) && Later(s, RecordFailure(m, wait), s.now)
        && Quiet(RecordFailure(m, wait), text) && RecordFailure(m, wait).buffer == m.buffer
    {
      FailureKeeps(m, wait);
      LaterTrans(s, m, RecordFailure(m, wait), s.now, m.now);
    }
  }

  lemma {:induction false} SendKeeps(env: Environment, s: State, text: Text, attempts: nat)
    requires Invariant(s) && Quiet(s, text) && attempts >= 1
    ensures var (r, o) := SendImmediate(env, s, text, attempts);
      Invariant(r) && Later(s, r, s.now) && r.buffer == s.buffer
    decreases attempts
  {
    hide Invariant, Quiet, Later, SendOnce;
    SendOnceKeeps(env, s, text);
    var (s1, o) := SendOnce(env, s, text);
    if Retries(env, o) && attempts > 1 {
      SendKeeps(env, s1, text, attempts - 1);
      LaterNow(s, s1);
      LaterTrans(s, s1, SendImmediate(env, s1, text, attempts - 1).0, s.now, s1.now);
    }
  }

  /** A send neither reads nor writes the buffer. */
  lemma {:induction false} SendIgnoresBuffer(env: Environment, s: State, text: Text, attempts: nat, buffer: seq<Text>)
    requires attempts >= 1
    ensures var (r, o) := SendImmediate(env, s, text, attempts);
      SendImmediate(env, s.(buffer := buffer), text, attempts) == (r.(buffer := buffer), o)
    decreases attempts
  {
    SendOnceIgnoresBuffer(env, s, text, buffer);
    hide SendOnce;
    var (s1, o) := SendOnce(env, s, text);
    if Retries(env, o) && attempts > 1 {
      SendIgnoresBuffer(env, s1, text, attempts - 1, buffer);
    }
  }

  lemma SendOnceIgnoresBuffer(env: Environment, s: State, text: Text, buffer: seq<Text>)
    ensures SendOnce(env, s.(buffer := buffer), text)
      == (SendOnce(env, s, text).0.(buffer := buffer), SendOnce(env, s, text).1)
  {
    var s1 := Transmit(env, s);
    assert Transmit(env, s.(buffer := buffer)) == s1.(buffer := buffer);
    assert Transmit(env, s1.(buffer := buffer)) == Transmit(env, s1).(buffer := buffer);
    hide Transmit;
    RecordsIgnoreBuffer(s1, text, buffer);
    RecordsIgnoreBuffer(Transmit(env, s1), text, buffer);
    hide RecordSuccess, RecordFailure;
  }

  lemma RecordsIgnoreBuffer(s: State, text: Text, buffer: seq<Text>)
    ensures RecordSuccess(s.(buffer := buffer), text) == RecordSuccess(s, text).(buffer := buffer)
    ensures forall wait :: RecordFailure(s.(buffer := buffer), wait) == RecordFailure(s, wait).(buffer := buffer)
  {
  }

  /** The last thing recorded is this end: the text's success and a clean slate, a counted failure, or the end of flood control. */
  ghost predicate Recorded(r: State, text: Text, o: Outcome) {
    && r.log != []
    && (o == Success ==> r.log[|r.log| - 1] == Sent(text, r.now) && r.failures == 0 && r.circuit == Closed)
    && (o == Success ==> r.reset == None && r.rateLimitUntil == None)
    && (o == Failure(true, 0) ==> r.log[|r.log| - 1] == CountedFailure(r.now))
    && (o.Failure? && o.caught && o.retryAfter > 0 ==> r.rateLimitUntil == Some(r.now + o.retryAfter * SECOND))
    && (o.Failure? && !o.caught ==> r.log[|r.log| - 1].Attempt?)
  }

  lemma {:induction false} ResultIsRecorded(env: Environment, s: State, text: Text, attempts: nat)
    requires attempts >= 1
    ensures var (r, o) := SendImmediate(env, s, text, attempts);
      Recorded(r, text, o) && (o == Success ==> WasSent(r.log, text))
    decreases attempts
  {
    hide SendOnce;
    OneIsRecorded(env, s, text);
    if attempts == 1 {
    } else {
      ResultIsRecorded(env, SendOnce(env, s, text).0, text, attempts - 1);
    }
  }

  lemma OneIsRecorded(env: Environment, s: State, text: Text)
    ensures Recorded(SendOnce(env, s, text).0, text, SendOnce(env, s, text).1)
  {
    var s1 := Transmit(env, s);
    EndIsRecorded(s1, text);
    EndIsRecorded(Transmit(env, s1), text);
    hide RecordSuccess, RecordFailure;
  }

  lemma EndIsRecorded(s: State, text: Text)
    requires s.log != []
    ensures Recorded(RecordSuccess(s, text), text, Success)
    ensures forall wait :: Recorded(RecordFailure(s, wait), text, Failure(true, wait))
  {
  }

  lemma {:induction false} FlushKeeps(env: Environment, s: State)
    requires Invariant(s)
    ensures Invariant(Flush(env, s).0) && Later(s, Flush(env, s).0, s.now)
    decreases |s.buffer|
  {
    hide Invariant, Quiet, Later, SendImmediate;
    LaterNoLog(s, s);
    if s.buffer == [] {
    } else {
      var text, popped := s.buffer[0], PopFront(s);
      if text in s.recent {
        var next := Logged(popped, Left(text, Duplicate));
        RecentWasSent(s, text);
        LeaveKeeps(s, Duplicate);
        FlushKeeps(env, next);
        LaterNow(s, next);
        LaterTrans(s, next, Flush(env, next).0, s.now, next.now);
      } else {
        QuietUnlessRecent(s, text);
        SendKeeps(env, s, text, MAX_ATTEMPTS);
        SendIgnoresBuffer(env, s, text, MAX_ATTEMPTS, popped.buffer);
        var (r, o) := SendImmediate(env, s, text, MAX_ATTEMPTS);
        LaterNow(s, r);
        if o == Success {
          var next := Logged(PopFront(r), Left(text, Flushed));
          ResultIsRecorded(env, s, text, MAX_ATTEMPTS);
          LeaveKeeps(r, Flushed);
          LaterNow(r, next);
          LaterTrans(s, r, next, s.now, r.now);
          FlushKeeps(env, next);
          LaterTrans(s, next, Flush(env, next).0, s.now, next.now);
        } else if o.caught {
          assert PushFront(PopFront(r), text) == r;
        } else {
          LeaveKeeps(r, Lost);
          LaterTrans(s, r, Logged(PopFront(r), Left(text, Lost)), s.now, r.now);
        }
      }
    }
  }

  /** A message is suppressed exactly when the call is let through and the text succeeded inside the window. */
  lemma SuppressedIff(env: Environment, s: State, text: Text)
    requires Invariant(s)
    ensures var pause := RespectRateLimit(env, s);
      SendHtml(env, s, text).1 == SuppressedDuplicate <==> !Refuses(pause) && !Quiet(pause, text)
  {
    hide Invariant, Quiet, SendImmediate, Flush, Append, PruneRecent;
    var pause := RespectRateLimit(env, s);
    PauseKeeps(env, s);
    ProbeKeeps(pause);
    PruneKeeps(ProbeIfOpen(pause));
    SameHistory(pause, ProbeIfOpen(pause));
  }

  /** Before anything else a call waits out flood control; no attempt comes earlier. */
  lemma SendHtmlKeeps(env: Environment, s: State, text: Text)
    requires Invariant(s)
    ensures Invariant(SendHtml(env, s, text).0)
    ensures Later(s, SendHtml(env, s, text).0, RespectRateLimit(env, s).now)
    ensures RespectRateLimit(env, s).now <= SendHtml(env, s, text).0.now
  {
    hide Invariant, Quiet, Later, SendImmediate, Flush, Append;
    var s1 := RespectRateLimit(env, s);
    PauseKeeps(env, s);
    PauseMakesNoAttempt(env, s);
    if Refuses(s1) {
      AppendKeeps(s1, text);
      LaterNow(s1, Append(s1, text));
      LaterTrans(s, s1, Append(s1, text), s1.now, s1.now);
    } else {
      var s2 := PruneRecent(ProbeIfOpen(s1));
      ProbeKeeps(s1);
      PruneKeeps(ProbeIfOpen(s1));
      LaterNoLog(s1, s2);
      LaterTrans(s, s1, s2, s1.now, s1.now);
      if text !in s2.recent {
        QuietUnlessRecent(s2, text);
        SendKeeps(env, s2, text, MAX_ATTEMPTS);
        var (s3, o) := SendImmediate(env, s2, text, MAX_ATTEMPTS);
        LaterNow(s2, s3);
        LaterTrans(s, s2, s3, s1.now, s2.now);
        FlushKeeps(env, s3);
        LaterNow(s3, Flush(env, s3).0);
        LaterTrans(s, s3, Flush(env, s3).0, s1.now, s3.now);
      }
    }
  }

  lemma PauseMakesNoAttempt(env: Environment, s: State)
    ensures var r := RespectRateLimit(env, s);
      Later(s, r, r.now) && (s.rateLimitUntil.Some? ==> r.now >= s.rateLimitUntil.value)
  {
  }

  lemma LaterNoLog(s: State, r: State)
    ensures s.log == r.log && s.now == r.now ==> Later(s, r, s.now)
  {
  }

  // ----- edits

  lemma EditOnceKeeps(env: Environment, s: State)
    requires Invariant(s)
    ensures Invariant(EditOnce(env, s).0) && Later(s, EditOnce(env, s).0, s.now)
  {
    hide Invariant, Quiet, Later, Transmit;
    TransmitKeeps(env, s);
    var s1 := Transmit(env, s);
    LaterNow(s, s1);
    TransmitKeeps(env, s1);
    LaterTrans(s, s1, Transmit(env, s1), s.now, s1.now);
  }

  lemma {:induction false} EditImmediateKeeps(env: Environment, s: State, attempts: nat)
    requires Invariant(s) && attempts >= 1
    ensures Invariant(EditImmediate(env, s, attempts).0) && Later(s, EditImmediate(env, s, attempts).0, s.now)
    decreases attempts
  {
    hide Invariant, Later, EditOnce;
    EditOnceKeeps(env, s);
    var (s1, o) := EditOnce(env, s);
    if Retries(env, o) && attempts > 1 {
      EditImmediateKeeps(env, s1, attempts - 1);
      LaterNow(s, s1);
      LaterTrans(s, s1, EditImmediate(env, s1, attempts - 1).0, s.now, s1.now);
    }
  }

  lemma {:induction false} EditHtmlKeeps(env: Environment, s: State, rateRetries: nat)
    requires Invariant(s) && rateRetries <= MAX_RATE_RETRIES
    ensures Invariant(EditHtml(env, s, rateRetries).0)
    ensures Later(s, EditHtml(env, s, rateRetries).0, RespectRateLimit(env, s).now)
    ensures RespectRateLimit(env, s).now <= EditHtml(env, s, rateRetries).0.now
    decreases MAX_RATE_RETRIES - rateRetries
  {
    hide Invariant, Quiet, Later, EditImmediate, CloseCircuit, RecordFailure, SleepOff, RespectRateLimit;
    var s1 := RespectRateLimit(env, s);
    PauseKeeps(env, s);
    PauseMakesNoAttempt(env, s);
    if !Refuses(s1) {
      var probe := ProbeIfOpen(s1);
      ProbeKeeps(s1);
      LaterNoLog(s1, probe);
      LaterTrans(s, s1, probe, s1.now, s1.now);
      EditImmediateKeeps(env, probe, MAX_ATTEMPTS);
      var (s2, o) := EditImmediate(env, probe, MAX_ATTEMPTS);
      LaterTrans(s, probe, s2, s1.now, s1.now);
      LaterNow(probe, s2);
      var wait := if o.Failure? then o.retryAfter else 0;
      EndsKeep(s2, wait);
      LaterNow(s2, CloseCircuit(s2));
      LaterNow(s2, RecordFailure(s2, wait));
      LaterTrans(s, s2, CloseCircuit(s2), s1.now, s2.now);
      FailureKeeps(s2, wait);
      LaterTrans(s, s2, RecordFailure(s2, wait), s1.now, s2.now);
      if o.Failure? && !o.caught && wait > 0 && rateRetries < MAX_RATE_RETRIES {
        var s3 := SleepOff(s2, wait);
        LaterNow(s2, s3);
        LaterTrans(s, s2, s3, s1.now, s2.now);
        EditHtmlKeeps(env, s3, rateRetries + 1);
        PauseMakesNoAttempt(env, s3);
        PauseIsForward(env, s3);
        LaterTrans(s, s3, EditHtml(env, s3, rateRetries + 1).0, s1.now, RespectRateLimit(env, s3).now);
      }
    }
  }

  lemma PauseIsForward(env: Environment, s: State)
    ensures RespectRateLimit(env, s).now >= s.now
  {
  }

  // ----- runs

  lemma StepKeeps(env: Environment, s: State, c: Command)
    requires Invariant(s)
    ensures var pause := RespectRateLimit(env, s.(now := s.now + c.gap));
      Invariant(Step(env, s, c)) && Later(s, Step(env, s, c), pause.now) && pause.now <= Step(env, s, c).now
  {
    hide Invariant, Quiet, SendHtml, EditHtml, RespectRateLimit;
    var s1 := s.(now := s.now + c.gap);
    TimePasses(s, s1.now);
    match c
    case Send(text, _) => SendHtmlKeeps(env, s1, text);
    case Edit(_) => EditHtmlKeeps(env, s1, 0);
  }

  lemma {:induction false} RunKeeps(env: Environment, s: State, cs: seq<Command>)
    requires Invariant(s)
    ensures Invariant(Run(env, s, cs)) && Later(s, Run(env, s, cs), s.now)
    decreases |cs|
  {
    hide Invariant, Step, Later;
    LaterNoLog(s, s);
    if cs == [] {
    } else {
      var next := Step(env, s, cs[0]);
      StepKeeps(env, s, cs[0]);
      PauseIsForward(env, s.(now := s.now + cs[0].gap));
      RunKeeps(env, next, cs[1..]);
      Weaken(s, next, RespectRateLimit(env, s.(now := s.now + cs[0].gap)).now, s.now);
      LaterNow(s, next);
      LaterTrans(s, next, Run(env, next, cs[1..]), s.now, next.now);
    }
  }

  lemma Weaken(s: State, r: State, t: int, u: int)
    requires Later(s, r, t) && u <= t
    ensures Later(s, r, u)
  {
  }

  /** Whatever is sent, edited and answered, a sender that started fresh keeps all of these. */
  lemma EveryRunIsSafe(env: Environment, start: int, cs: seq<Command>)
    ensures var s := Run(env, Initial(start), cs);
      && (s.circuit != Closed <==> FailuresSinceSuccess(s.log) >= 5)
      && (s.circuit == Open ==> s.reset == Some(LastFailure(s.log) + 300 * 1000000))
      && |s.buffer| <= 50
      && Arrivals(s.log) == Texts(Departures(s.log)) + s.buffer
      && EvictsLate(Departures(s.log), |Arrivals(s.log)|)
      && (forall i, j :: 0 <= i < j < |s.log| && s.log[i].Sent? && s.log[j].Sent? && s.log[i].text == s.log[j].text ==>
            s.log[j].at - s.log[i].at >= 180 * 1000000)
      && Honest(s.log)
  {
    hide Run;
    FreshIsSafe(start);
    RunKeeps(env, Initial(start), cs);
  }

  // ----- pauses are kept

  /** The circuit is open until `reset`, or that time has come. */
  ghost predicate Gated(s: State, reset: int) {
    (s.circuit == Open && s.reset == Some(reset)) || s.now >= reset
  }

  lemma StepIsGated(env: Environment, s: State, c: Command, reset: int)
    requires Invariant(s) && Gated(s, reset)
    ensures Gated(Step(env, s, c), reset) && Later(s, Step(env, s, c), reset)
  {
    hide Invariant, SendImmediate, EditImmediate, Flush, PruneRecent, Later;
    var s1 := s.(now := s.now + c.gap);
    var pause := RespectRateLimit(env, s1);
    StepKeeps(env, s, c);
    if pause.now >= reset {
      Weaken(s, Step(env, s, c), pause.now, reset);
    } else {
      assert Refuses(pause);
      NoAttempt(s, pause, reset);
      if c.Send? {
        NoAttempt(s, Append(pause, c.text), reset);
      }
    }
  }

  lemma NoAttempt(s: State, r: State, t: int)
    requires s.log <= r.log && s.now <= r.now
    requires forall i :: |s.log| <= i < |r.log| ==> !r.log[i].Attempt?
    ensures Later(s, r, t)
  {
  }

  lemma {:induction false} RunIsGated(env: Environment, s: State, cs: seq<Command>, reset: int)
    requires Invariant(s) && Gated(s, reset)
    ensures Later(s, Run(env, s, cs), reset)
    decreases |cs|
  {
    hide Invariant, Step, Gated;
    NoAttempt(s, s, reset);
    if cs == [] {
    } else {
      StepKeeps(env, s, cs[0]);
      StepIsGated(env, s, cs[0], reset);
      RunIsGated(env, Step(env, s, cs[0]), cs[1..], reset);
      LaterTrans(s, Step(env, s, cs[0]), Run(env, Step(env, s, cs[0]), cs[1..]), reset, reset);
    }
  }

  /** Once a call has ended with the circuit open, no later call makes a request before the reset time. */
  lemma OpenCircuitIsRespected(env: Environment, start: int, before: seq<Command>, after: seq<Command>)
    ensures var s := Run(env, Initial(start), before);
      var r := Run(env, s, after);
      s.circuit == Open ==>
        && s.reset.Some? && s.log <= r.log
        && forall i :: |s.log| <= i < |r.log| && r.log[i].Attempt? ==> r.log[i].at >= s.reset.value
  {
    hide Run;
    FreshIsSafe(start);
    RunKeeps(env, Initial(start), before);
    var s := Run(env, Initial(start), before);
    if s.circuit == Open {
      RunIsGated(env, s, after, s.reset.value);
    }
  }

  /** Nor before flood control ends, if the last call left one running. */
  lemma FloodControlIsRespected(env: Environment, s: State, cs: seq<Command>)
    requires Invariant(s) && s.rateLimitUntil.Some?
    ensures Later(s, Run(env, s, cs), s.rateLimitUntil.value)
  {
    hide Invariant, Step, Later;
    NoAttempt(s, s, s.rateLimitUntil.value);
    if cs != [] {
      var s1, next := s.(now := s.now + cs[0].gap), Step(env, s, cs[0]);
      StepKeeps(env, s, cs[0]);
      PauseMakesNoAttempt(env, s1);
      Weaken(s, next, RespectRateLimit(env, s1).now, s.rateLimitUntil.value);
      RunKeeps(env, next, cs[1..]);
      LaterTrans(s, next, Run(env, next, cs[1..]), s.rateLimitUntil.value, next.now);
    }
  }

  /** No deadlock: five minutes after any run, a message is tried on the network unless it is a duplicate. */
  lemma CircuitHeals(env: Environment, start: int, before: seq<Command>, text: Text, gap: nat)
    requires gap >= CIRCUIT_PAUSE
    ensures var s := Run(env, Initial(start), before);
      var waited := s.(now := s.now + gap);
      var (r, d) := SendHtml(env, waited, text);
      d == SuppressedDuplicate || (|s.log| < |r.log| && r.log[|s.log|].Attempt?)
  {
    hide Run, SendHtml, Ledger, Deduplicated;
    assert Invariant(Initial(start)) by { FreshIsSafe(start); }
    RunKeeps(env, Initial(start), before);
    var s := Run(env, Initial(start), before);
    TimePasses(s, s.now + gap);
    DueCallAttempts(env, s.(now := s.now + gap), text);
  }

  lemma FreshIsSafe(start: int)
    ensures Invariant(Initial(start))
  {
  }

  /** When the circuit is not waiting, a message that is not a duplicate goes to the network. */
  lemma DueCallAttempts(env: Environment, s: State, text: Text)
    requires Invariant(s) && (s.circuit == Open ==> s.reset.Some? && s.reset.value <= s.now)
    ensures var (r, d) := SendHtml(env, s, text);
      d == SuppressedDuplicate || (|s.log| < |r.log| && r.log[|s.log|].Attempt?)
  {
    hide Invariant, SendImmediate, Flush, Append;
    var s1 := RespectRateLimit(env, s);
    PauseKeeps(env, s);
    var s2 := PruneRecent(ProbeIfOpen(s1));
    ProbeKeeps(s1);
    PruneKeeps(ProbeIfOpen(s1));
    if text !in s2.recent {
      SendAttempts(env, s2, text, MAX_ATTEMPTS);
      QuietUnlessRecent(s2, text);
      SendKeeps(env, s2, text, MAX_ATTEMPTS);
      FlushKeeps(env, SendImmediate(env, s2, text, MAX_ATTEMPTS).0);
    }
  }

  lemma {:induction false} SendAttempts(env: Environment, s: State, text: Text, attempts: nat)
    requires attempts >= 1
    ensures var r := SendImmediate(env, s, text, attempts).0;
      s.log < r.log && r.log[|s.log|].Attempt?
    decreases attempts
  {
    var s1 := SendOnce(env, s, text).0;
    assert s.log < s1.log && s1.log[|s.log|].Attempt?;
    hide SendOnce;
    if attempts == 1 {
    } else {
      SendAttempts(env, s1, text, attempts - 1);
    }
  }
}
