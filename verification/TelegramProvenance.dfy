/** A message that leaves the buffer as flushed or as a duplicate was delivered while it was in the buffer. */
module TelegramProvenance {
  import opened Prelude
  import opened Telegram
  import opened TelegramHistory
  import opened TelegramSafety

  // ----- the law

  /**
   * The message that departs at p arrived at a, being the same in number, and
   * its text succeeded at i, in between.
   */
  ghost predicate DeliveredInside(log: seq<Event>, p: int, a: int, i: int) {
    && 0 <= a < i < p < |log| && log[p].Left?
    && log[a] == Arrived(log[p].text)
    && |Arrivals(log[..a])| == |Departures(log[..p])|
    && log[i].Sent? && log[i].text == log[p].text
  }

  ghost predicate Provenance(log: seq<Event>) {
    forall p :: 0 <= p < |log| && log[p].Left? && log[p].how in {Flushed, Duplicate} ==>
      exists a, i :: DeliveredInside(log, p, a, i)
  }

  // ----- successes before and after the last arrival

  /** Where the last arrival ends. */
  function LastArrival(log: seq<Event>): (n: nat)
    ensures n <= |log|
  {
    if log == [] then 0 else if log[|log| - 1].Arrived? then |log| else LastArrival(log[..|log| - 1])
  }

  /** Every success before the last arrival is at least as old as the circuit breaker's pause. */
  ghost predicate AllOld(s: State) {
    forall i :: 0 <= i < LastArrival(s.log) && s.log[i].Sent? ==> s.log[i].at + CIRCUIT_PAUSE <= s.now
  }

  /** What is remembered succeeded after the last arrival. */
  ghost predicate AllRecent(s: State) {
    forall t :: t in s.recent ==>
      exists i :: LastArrival(s.log) <= i < |s.log| && s.log[i] == Sent(t, s.recent[t])
  }

  ghost predicate Kept(s: State) {
    Provenance(s.log) && (s.circuit != Open ==> AllOld(s))
  }

  /** Nothing arrives or departs, and what is newly remembered is newly sent. */
  ghost predicate Quietly(s: State, r: State) {
    && s.log <= r.log && s.now <= r.now
    && (forall i :: |s.log| <= i < |r.log| ==> !r.log[i].Arrived? && !r.log[i].Left?)
    && forall t :: t in r.recent ==>
      (t in s.recent && s.recent[t] == r.recent[t]) || exists i :: |s.log| <= i < |r.log| && r.log[i] == Sent(t, r.recent[t])
  }

  lemma QuietlyTrans(s: State, m: State, r: State)
    requires Quietly(s, m) && Quietly(m, r)
    ensures Quietly(s, r)
  {
    forall i | |s.log| <= i < |r.log| ensures !r.log[i].Arrived? && !r.log[i].Left? {
      if i < |m.log| {
        assert m.log[i] == r.log[i];
      }
    }
    forall t | t in r.recent && !(t in s.recent && s.recent[t] == r.recent[t])
      ensures exists i :: |s.log| <= i < |r.log| && r.log[i] == Sent(t, r.recent[t])
    {
      if t in m.recent && m.recent[t] == r.recent[t] {
        var i :| |s.log| <= i < |m.log| && m.log[i] == Sent(t, m.recent[t]);
        assert r.log[i] == m.log[i];
      }
    }
  }

  lemma {:induction false} LastArrivalStays(log: seq<Event>, more: seq<Event>)
    requires log <= more && forall i :: |log| <= i < |more| ==> !more[i].Arrived?
    ensures LastArrival(more) == LastArrival(log)
    decreases |more|
  {
    if |more| == |log| {
      assert more == log;
    } else {
      assert more[..|more| - 1][..|log|] == log;
      LastArrivalStays(log, more[..|more| - 1]);
    }
  }

  lemma ProvenanceStays(log: seq<Event>, more: seq<Event>)
    requires Provenance(log) && log <= more
    requires forall p :: |log| <= p < |more| && more[p].Left? && more[p].how in {Flushed, Duplicate} ==>
      exists a, i :: DeliveredInside(more, p, a, i)
    ensures Provenance(more)
  {
    hide Arrivals, Departures;
    forall p | 0 <= p < |log| && log[p].Left? && log[p].how in {Flushed, Duplicate}
      ensures exists a, i :: DeliveredInside(more, p, a, i)
    {
      var a, i :| DeliveredInside(log, p, a, i);
      assert more[..a] == log[..a] && more[..p] == log[..p];
      assert DeliveredInside(more, p, a, i);
    }
  }

  lemma QuietlyKeeps(s: State, r: State)
    requires Quietly(s, r)
    ensures AllOld(s) ==> AllOld(r)
    ensures AllRecent(s) ==> AllRecent(r)
    ensures Provenance(s.log) ==> Provenance(r.log)
  {
    hide DeliveredInside;
    LastArrivalStays(s.log, r.log);
    if Provenance(s.log) {
      ProvenanceStays(s.log, r.log);
    }
    if AllOld(s) {
      assert forall i :: 0 <= i < LastArrival(s.log) ==> r.log[i] == s.log[i];
    }
    if AllRecent(s) {
      forall t | t in r.recent ensures exists i :: LastArrival(r.log) <= i < |r.log| && r.log[i] == Sent(t, r.recent[t]) {
        if t in s.recent && s.recent[t] == r.recent[t] {
          var i :| LastArrival(s.log) <= i < |s.log| && s.log[i] == Sent(t, s.recent[t]);
          assert r.log[i] == s.log[i];
        }
      }
    }
  }

  // ----- requests are quiet

  lemma TransmitIsQuiet(env: Environment, s: State)
    ensures Quietly(s, Transmit(env, s))
  {
  }

  lemma EndsAreQuiet(s: State, text: Text)
    ensures Quietly(s, RecordSuccess(s, text)) && Quietly(s, CloseCircuit(s)) && Quietly(s, ProbeIfOpen(s))
    ensures Quietly(s, PruneRecent(s))
    ensures forall wait :: Quietly(s, RecordFailure(s, wait)) && Quietly(s, SleepOff(s, wait))
  {
    var r := RecordSuccess(s, text);
    assert r.log[|s.log|] == Sent(text, s.now);
  }

  lemma PauseIsQuiet(env: Environment, s: State)
    ensures Quietly(s, RespectRateLimit(env, s))
  {
  }

  lemma SendOnceIsQuiet(env: Environment, s: State, text: Text)
    ensures Quietly(s, SendOnce(env, s, text).0)
  {
    hide Quietly, Transmit, RecordSuccess, RecordFailure;
    var s1 := Transmit(env, s);
    var s2 := Transmit(env, s1);
    TransmitIsQuiet(env, s);
    TransmitIsQuiet(env, s1);
    QuietlyTrans(s, s1, s2);
    EndsAreQuiet(s1, text);
    EndsAreQuiet(s2, text);
    var r := SendOnce(env, s, text).0;
    if Quietly(s1, r) {
      QuietlyTrans(s, s1, r);
    }
    if Quietly(s2, r) {
      QuietlyTrans(s, s2, r);
    }
  }

  lemma {:induction false} SendIsQuiet(env: Environment, s: State, text: Text, attempts: nat)
    requires attempts >= 1
    ensures Quietly(s, SendImmediate(env, s, text, attempts).0)
    decreases attempts
  {
    hide Quietly, SendOnce;
    SendOnceIsQuiet(env, s, text);
    var (s1, o) := SendOnce(env, s, text);
    if attempts == 1 || !Retries(env, o) {
    } else {
      SendIsQuiet(env, s1, text, attempts - 1);
      QuietlyTrans(s, s1, SendImmediate(env, s1, text, attempts - 1).0);
    }
  }

  lemma {:induction false} EditIsQuiet(env: Environment, s: State, attempts: nat)
    requires attempts >= 1
    ensures Quietly(s, EditImmediate(env, s, attempts).0)
    decreases attempts
  {
    hide Quietly, Transmit;
    var s1 := Transmit(env, s);
    TransmitIsQuiet(env, s);
    TransmitIsQuiet(env, s1);
    QuietlyTrans(s, s1, Transmit(env, s1));
    if attempts == 1 {
    } else {
      var next := EditOnce(env, s).0;
      EditIsQuiet(env, next, attempts - 1);
      QuietlyTrans(s, next, EditImmediate(env, next, attempts - 1).0);
    }
  }

  // ----- the oldest message leaves

  lemma {:induction false} ArrivalOf(log: seq<Event>, d: nat)
    requires d < |Arrivals(log)|
    ensures exists a :: 0 <= a < LastArrival(log) && log[a] == Arrived(Arrivals(log)[d]) && |Arrivals(log[..a])| == d
    decreases |log|
  {
    var init, e := log[..|log| - 1], log[|log| - 1];
    if e.Arrived? && d == |Arrivals(init)| {
      assert log[|log| - 1] == Arrived(Arrivals(log)[d]);
    } else {
      ArrivalOf(init, d);
      var a :| 0 <= a < LastArrival(init) && init[a] == Arrived(Arrivals(init)[d]) && |Arrivals(init[..a])| == d;
      assert log[a] == init[a] && log[..a] == init[..a] && LastArrival(init) <= LastArrival(log);
    }
  }

  lemma LeaveIsProven(s: State, how: Departure)
    requires Ledger(s) && s.buffer != [] && Provenance(s.log)
    requires how in {Flushed, Duplicate} ==> SentSinceArrival(s.log, s.buffer[0])
    ensures var r := Logged(PopFront(s), Left(s.buffer[0], how));
      && Provenance(r.log)
      && (AllOld(s) ==> AllOld(r)) && (AllRecent(s) ==> AllRecent(r))
  {
    var text := s.buffer[0];
    var e := Left(text, how);
    var r := Logged(PopFront(s), e);
    LeaveKeepsOthers(s, r, e);
    if how in {Flushed, Duplicate} {
      FirstArrival(s);
      var a :| 0 <= a < LastArrival(s.log) && s.log[a] == Arrived(text) && |Arrivals(s.log[..a])| == |Departures(s.log)|;
      var i :| LastArrival(s.log) <= i < |s.log| && s.log[i].Sent? && s.log[i].text == text;
      assert r.log[..a] == s.log[..a] && r.log[..|s.log|] == s.log && r.log[i] == s.log[i];
      hide Arrivals, Departures;
      assert DeliveredInside(r.log, |s.log|, a, i);
    }
    hide DeliveredInside;
    ProvenanceStays(s.log, r.log);
  }

  ghost predicate SentSinceArrival(log: seq<Event>, text: Text) {
    exists i :: LastArrival(log) <= i < |log| && log[i].Sent? && log[i].text == text
  }

  lemma FirstArrival(s: State)
    requires Ledger(s) && s.buffer != []
    ensures exists a ::
      0 <= a < LastArrival(s.log) && s.log[a] == Arrived(s.buffer[0]) && |Arrivals(s.log[..a])| == |Departures(s.log)|
  {
    TextsLength(Departures(s.log));
    ArrivalOf(s.log, |Departures(s.log)|);
    assert Arrivals(s.log)[|Departures(s.log)|] == s.buffer[0];
  }

  lemma LeaveKeepsOthers(s: State, r: State, e: Event)
    requires r.log == s.log + [e] && !e.Arrived? && r.now == s.now && r.recent == s.recent
    ensures (AllOld(s) ==> AllOld(r)) && (AllRecent(s) ==> AllRecent(r))
  {
    LastArrivalStays(s.log, r.log);
    if AllRecent(s) {
      forall t | t in r.recent ensures exists i :: LastArrival(r.log) <= i < |r.log| && r.log[i] == Sent(t, r.recent[t]) {
        var i :| LastArrival(s.log) <= i < |s.log| && s.log[i] == Sent(t, s.recent[t]);
        assert r.log[i] == s.log[i];
      }
    }
  }

  lemma RememberedIsSent(s: State, text: Text)
    requires AllRecent(s) && text in s.recent
    ensures SentSinceArrival(s.log, text)
  {
    hide LastArrival;
    var i :| LastArrival(s.log) <= i < |s.log| && s.log[i] == Sent(text, s.recent[text]);
  }

  lemma LastIsSent(s: State, r: State, text: Text)
    requires Quietly(s, r) && |s.log| < |r.log| && r.log[|r.log| - 1] == Sent(text, r.now)
    ensures SentSinceArrival(r.log, text)
  {
    LastArrivalStays(s.log, r.log);
  }

  // ----- flushes

  lemma {:induction false} FlushIsProven(env: Environment, s: State)
    requires Invariant(s) && Provenance(s.log) && AllOld(s) && AllRecent(s)
    ensures Provenance(Flush(env, s).0.log) && AllOld(Flush(env, s).0)
    decreases |s.buffer|
  {
    hide Invariant, Quiet, Later, SendImmediate, Provenance, AllOld, AllRecent, Quietly, SentSinceArrival;
    if s.buffer == [] {
    } else {
      var text, popped := s.buffer[0], PopFront(s);
      LedgerOf(s);
      if text in s.recent {
        RememberedIsSent(s, text);
        RecentWasSent(s, text);
        LeaveIsProven(s, Duplicate);
        LeaveKeeps(s, Duplicate);
        FlushIsProven(env, Logged(popped, Left(text, Duplicate)));
      } else {
        QuietUnlessRecent(s, text);
        SendKeeps(env, s, text, MAX_ATTEMPTS);
        SendIsQuiet(env, s, text, MAX_ATTEMPTS);
        SendIgnoresBuffer(env, s, text, MAX_ATTEMPTS, popped.buffer);
        var (r, o) := SendImmediate(env, s, text, MAX_ATTEMPTS);
        QuietlyKeeps(s, r);
        LedgerOf(r);
        if o == Success {
          SuccessIsLast(env, s, text);
          LeaveIsProven(r, Flushed);
          LeaveKeeps(r, Flushed);
          FlushIsProven(env, Logged(PopFront(r), Left(text, Flushed)));
        } else if o.caught {
          assert PushFront(PopFront(r), text) == r;
        } else {
          LeaveIsProven(r, Lost);
        }
      }
    }
  }

  lemma LedgerOf(s: State)
    requires Invariant(s)
    ensures Ledger(s)
  {
    hide Breaker, Ledger, Deduplicated, FailedSince;
  }

  lemma SuccessIsLast(env: Environment, s: State, text: Text)
    ensures var (r, o) := SendImmediate(env, s, text, MAX_ATTEMPTS);
      o == Success ==> SentSinceArrival(r.log, text) && WasSent(r.log, text)
  {
    hide SendImmediate, Quietly, SentSinceArrival;
    ResultIsRecorded(env, s, text, MAX_ATTEMPTS);
    SendIsQuiet(env, s, text, MAX_ATTEMPTS);
    SendAttempts(env, s, text, MAX_ATTEMPTS);
    var (r, o) := SendImmediate(env, s, text, MAX_ATTEMPTS);
    if o == Success {
      LastIsSent(s, r, text);
    }
  }

  // ----- calls

  /** Whoever is let through finds every success before the last arrival outdated. */
  lemma OldWhenLetThrough(s: State)
    requires Invariant(s) && Kept(s) && !Refuses(s)
    ensures AllOld(s)
  {
    hide LastFailure, FailuresSinceSuccess, LastArrival, Provenance, Ledger, Deduplicated;
  }

  lemma PruneLeavesRecent(s: State)
    requires Invariant(s) && AllOld(s)
    ensures AllRecent(PruneRecent(s))
  {
    hide Breaker, Ledger, FailedSince, Spaced, Remembered, Honest, LastArrival;
    var r := PruneRecent(s);
    forall t | t in r.recent ensures exists i :: LastArrival(r.log) <= i < |r.log| && r.log[i] == Sent(t, r.recent[t]) {
      var i :| 0 <= i < |s.log| && s.log[i] == Sent(t, s.recent[t]);
      assert i >= LastArrival(s.log);
    }
  }

  lemma AppendIsKept(s: State, text: Text)
    requires Provenance(s.log)
    ensures Provenance(Append(s, text).log)
  {
    hide DeliveredInside;
    ProvenanceStays(s.log, Append(s, text).log);
  }

  lemma SendHtmlIsKept(env: Environment, s: State, text: Text)
    requires Invariant(s) && Kept(s)
    ensures Kept(SendHtml(env, s, text).0)
  {
    hide Invariant, Quiet, SendImmediate, Flush, RespectRateLimit, PruneRecent, Provenance, AllOld, AllRecent, Quietly;
    var s1 := RespectRateLimit(env, s);
    PauseKeeps(env, s);
    PauseIsQuiet(env, s);
    PauseKeepsCircuit(env, s);
    QuietlyKeeps(s, s1);
    if Refuses(s1) {
      AppendIsKept(s1, text);
    } else {
      OldWhenLetThrough(s1);
      var probe := ProbeIfOpen(s1);
      var s2 := PruneRecent(probe);
      ProbeKeeps(s1);
      PruneKeeps(probe);
      EndsAreQuiet(s1, text);
      EndsAreQuiet(probe, text);
      QuietlyKeeps(s1, probe);
      QuietlyKeeps(probe, s2);
      PruneLeavesRecent(probe);
      if text in s2.recent {
      } else {
        QuietUnlessRecent(s2, text);
        SendKeeps(env, s2, text, MAX_ATTEMPTS);
        SendIsQuiet(env, s2, text, MAX_ATTEMPTS);
        var s3 := SendImmediate(env, s2, text, MAX_ATTEMPTS).0;
        QuietlyKeeps(s2, s3);
        FlushIsProven(env, s3);
      }
    }
  }

  lemma PauseKeepsCircuit(env: Environment, s: State)
    ensures RespectRateLimit(env, s).circuit == s.circuit
  {
  }

  lemma {:induction false} EditHtmlIsKept(env: Environment, s: State, rateRetries: nat)
    requires Invariant(s) && Kept(s) && rateRetries <= MAX_RATE_RETRIES
    ensures Kept(EditHtml(env, s, rateRetries).0)
    decreases MAX_RATE_RETRIES - rateRetries
  {
    hide Invariant, EditImmediate, RespectRateLimit, Provenance, AllOld, AllRecent, Quietly, RecordFailure, CloseCircuit, SleepOff;
    var s1 := RespectRateLimit(env, s);
    PauseKeeps(env, s);
    PauseIsQuiet(env, s);
    PauseKeepsCircuit(env, s);
    QuietlyKeeps(s, s1);
    if Refuses(s1) {
    } else {
      OldWhenLetThrough(s1);
      var probe := ProbeIfOpen(s1);
      ProbeKeeps(s1);
      EndsAreQuiet(s1, "");
      QuietlyKeeps(s1, probe);
      EditIsQuiet(env, probe, MAX_ATTEMPTS);
      EditImmediateKeeps(env, probe, MAX_ATTEMPTS);
      var (s2, o) := EditImmediate(env, probe, MAX_ATTEMPTS);
      QuietlyKeeps(probe, s2);
      var wait := if o.Failure? then o.retryAfter else 0;
      EndsAreQuiet(s2, "");
      QuietlyKeeps(s2, CloseCircuit(s2));
      QuietlyKeeps(s2, RecordFailure(s2, wait));
      if o.Failure? && !o.caught && wait > 0 && rateRetries < MAX_RATE_RETRIES {
        QuietlyKeeps(s2, SleepOff(s2, wait));
        EndsKeep(s2, wait);
        EditHtmlIsKept(env, SleepOff(s2, wait), rateRetries + 1);
      }
    }
  }

  // ----- runs

  lemma StepIsKept(env: Environment, s: State, c: Command)
    requires Invariant(s) && Kept(s)
    ensures Kept(Step(env, s, c))
  {
    hide Invariant, SendHtml, EditHtml, Provenance, AllOld, Quietly;
    var s1 := s.(now := s.now + c.gap);
    TimePasses(s, s1.now);
    TimeIsQuiet(s, s1.now);
    QuietlyKeeps(s, s1);
    match c
    case Send(text, _) => SendHtmlIsKept(env, s1, text);
    case Edit(_) => EditHtmlIsKept(env, s1, 0);
  }

  lemma TimeIsQuiet(s: State, now: int)
    requires now >= s.now
    ensures Quietly(s, s.(now := now))
  {
  }

  lemma {:induction false} RunIsKept(env: Environment, s: State, cs: seq<Command>)
    requires Invariant(s) && Kept(s)
    ensures Kept(Run(env, s, cs))
    decreases |cs|
  {
    hide Invariant, Kept, Step;
    if cs == [] {
    } else {
      StepKeeps(env, s, cs[0]);
      StepIsKept(env, s, cs[0]);
      RunIsKept(env, Step(env, s, cs[0]), cs[1..]);
    }
  }

  /**
   * Over every run, each message that left the buffer as flushed or as a
   * duplicate was delivered after it arrived and before it left.
   */
  lemma EveryDepartureWasDelivered(env: Environment, start: int, cs: seq<Command>)
    ensures Provenance(Run(env, Initial(start), cs).log)
  {
    hide Run, Invariant;
    FreshIsSafe(start);
    RunIsKept(env, Initial(start), cs);
  }
}
