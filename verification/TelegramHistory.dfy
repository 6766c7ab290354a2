/** The invariants of the sender's state and log, and that every single step keeps them. */
module TelegramHistory {
  import opened Prelude
  import opened Telegram

  // ----- circuit breaker

  /** How many failures were counted since the last success. */
  function FailuresSinceSuccess(log: seq<Event>): nat {
    if log == [] then 0
    else
      match log[|log| - 1]
      case Sent(_, _) => 0
      case EditDone => 0
      case CountedFailure(_) => 1 + FailuresSinceSuccess(log[..|log| - 1])
      case _ => FailuresSinceSuccess(log[..|log| - 1])
  }

  /** When a failure was last counted. */
  function LastFailure(log: seq<Event>): int {
    if log == [] then 0
    else if log[|log| - 1].CountedFailure? then log[|log| - 1].at
    else LastFailure(log[..|log| - 1])
  }

  /** Closed exactly up to four failures in a row; an open circuit waits five minutes from the last of them. */
  predicate Breaker(s: State) {
    && s.failures == FailuresSinceSuccess(s.log)
    && (s.circuit != Closed <==> s.failures >= FAILURE_LIMIT)
    && (s.circuit == Open ==> s.reset == Some(LastFailure(s.log) + CIRCUIT_PAUSE) && LastFailure(s.log) <= s.now)
  }

  // ----- retry buffer

  /** All that was ever put into the buffer, in order of arrival. */
  function Arrivals(log: seq<Event>): seq<Text> {
    if log == [] then []
    else
      var e := log[|log| - 1];
      Arrivals(log[..|log| - 1]) + if e.Arrived? then [e.text] else []
  }

  /** All that left the buffer for good, in order of departure, with how it left. */
  function Departures(log: seq<Event>): seq<(Text, Departure)> {
    if log == [] then []
    else
      var e := log[|log| - 1];
      Departures(log[..|log| - 1]) + if e.Left? then [(e.text, e.how)] else []
  }

  function Texts(ds: seq<(Text, Departure)>): seq<Text> {
    seq(|ds|, i requires 0 <= i < |ds| => ds[i].0)
  }

  /** The k-th message is evicted only when the buffer's limit of newer ones has arrived. */
  ghost predicate EvictsLate(ds: seq<(Text, Departure)>, arrived: int) {
    forall k :: 0 <= k < |ds| && ds[k].1 == Evicted ==> k + BUFFER_LIMIT < arrived
  }

  /** First in, first out: the arrivals are the departures followed by what is still buffered. */
  ghost predicate Ledger(s: State) {
    && |s.buffer| <= BUFFER_LIMIT
    && Arrivals(s.log) == Texts(Departures(s.log)) + s.buffer
    && EvictsLate(Departures(s.log), |Arrivals(s.log)|)
  }

  // ----- duplicates

  /** Two successes of one text are a whole window apart, in the order of the log. */
  ghost predicate Spaced(log: seq<Event>) {
    forall i, j :: 0 <= i < j < |log| && log[i].Sent? && log[j].Sent? && log[i].text == log[j].text ==>
      log[j].at - log[i].at >= DUPLICATE_WINDOW
  }

  /** Every success that is not older than the window is remembered. */
  ghost predicate Remembered(s: State) {
    forall i :: 0 <= i < |s.log| && s.log[i].Sent? ==>
      && s.log[i].at <= s.now
      && (s.now - s.log[i].at < DUPLICATE_WINDOW ==>
            s.log[i].text in s.recent && s.recent[s.log[i].text] >= s.log[i].at)
  }

  /** What is remembered did succeed. */
  ghost predicate Backed(s: State) {
    forall t :: t in s.recent ==> exists i :: 0 <= i < |s.log| && s.log[i] == Sent(t, s.recent[t])
  }

  ghost predicate WasSent(log: seq<Event>, text: Text) {
    exists i :: 0 <= i < |log| && log[i].Sent? && log[i].text == text
  }

  /** A message that left as flushed or as a duplicate was delivered at some time. */
  ghost predicate Honest(log: seq<Event>) {
    forall i :: 0 <= i < |log| && log[i].Left? && log[i].how in {Flushed, Duplicate} ==> WasSent(log, log[i].text)
  }

  ghost predicate Deduplicated(s: State) {
    Spaced(s.log) && Remembered(s) && Backed(s) && Honest(s.log)
  }

  /** No success of this text lies inside the window. */
  ghost predicate Quiet(s: State, text: Text) {
    forall i :: 0 <= i < |s.log| && s.log[i].Sent? && s.log[i].text == text ==>
      s.now - s.log[i].at >= DUPLICATE_WINDOW
  }

  // ----- all of it, and time

  /** While failures are being counted, no success is later than the last of them. */
  ghost predicate FailedSince(s: State) {
    s.failures > 0 ==> forall i :: 0 <= i < |s.log| && s.log[i].Sent? ==> s.log[i].at <= LastFailure(s.log)
  }

  ghost predicate Invariant(s: State) {
    Breaker(s) && Ledger(s) && Deduplicated(s) && FailedSince(s)
  }

  /** The log only grows, time does not go back, and every new attempt is made at `t` or later. */
  ghost predicate Later(s: State, r: State, t: int) {
    && s.log <= r.log && s.now <= r.now
    && forall i :: |s.log| <= i < |r.log| && r.log[i].Attempt? ==> r.log[i].at >= t
  }

  lemma LaterTrans(s: State, m: State, r: State, t: int, u: int)
    requires Later(s, m, t) && Later(m, r, u) && t <= u
    ensures Later(s, r, t)
  {
    forall i | |s.log| <= i < |r.log| && r.log[i].Attempt? ensures r.log[i].at >= t {
      if i < |m.log| {
        assert m.log[i] == r.log[i];
      }
    }
  }

  // ----- one event

  lemma LogOne(s: State, e: Event)
    ensures var r := Logged(s, e);
      && Arrivals(r.log) == (if e.Arrived? then Arrivals(s.log) + [e.text] else Arrivals(s.log))
      && Departures(r.log) == (if e.Left? then Departures(s.log) + [(e.text, e.how)] else Departures(s.log))
      && (e.Left? ==> Texts(Departures(r.log)) == Texts(Departures(s.log)) + [e.text])
      && FailuresSinceSuccess(r.log) ==
           (if e.CountedFailure? then 1 + FailuresSinceSuccess(s.log)
            else if e.Sent? || e.EditDone? then 0 else FailuresSinceSuccess(s.log))
      && LastFailure(r.log) == (if e.CountedFailure? then e.at else LastFailure(s.log))
  {
    assert (s.log + [e])[..|s.log|] == s.log;
    assert Arrivals(s.log) + [] == Arrivals(s.log) && Departures(s.log) + [] == Departures(s.log);
  }

  lemma WasSentGrows(log: seq<Event>, e: Event)
    ensures forall text :: WasSent(log, text) ==> WasSent(log + [e], text)
  {
    forall text | WasSent(log, text) ensures WasSent(log + [e], text) {
      var i :| 0 <= i < |log| && log[i].Sent? && log[i].text == text;
      assert (log + [e])[i] == log[i];
    }
  }

  lemma BackedGrows(s: State, e: Event)
    requires Backed(s)
    ensures Backed(Logged(s, e))
  {
    forall t | t in s.recent ensures exists i :: 0 <= i < |s.log| + 1 && (s.log + [e])[i] == Sent(t, s.recent[t]) {
      var i :| 0 <= i < |s.log| && s.log[i] == Sent(t, s.recent[t]);
      assert (s.log + [e])[i] == Sent(t, s.recent[t]);
    }
  }

  lemma HonestGrows(log: seq<Event>, e: Event)
    requires Honest(log) && (e.Left? && e.how in {Flushed, Duplicate} ==> WasSent(log, e.text))
    ensures Honest(log + [e])
  {
    hide WasSent;
    WasSentGrows(log, e);
    forall i | 0 <= i < |log| + 1 && (log + [e])[i].Left? && (log + [e])[i].how in {Flushed, Duplicate}
      ensures WasSent(log + [e], (log + [e])[i].text)
    {
      if i < |log| {
        assert WasSent(log, log[i].text);
      }
    }
  }

  lemma LogKeepsDedup(s: State, e: Event)
    requires !e.Sent? && (e.Left? && e.how in {Flushed, Duplicate} ==> WasSent(s.log, e.text))
    ensures Deduplicated(s) ==> Deduplicated(Logged(s, e))
    ensures forall text :: Quiet(s, text) ==> Quiet(Logged(s, e), text)
  {
    hide Backed, Honest, WasSent;
    if Deduplicated(s) {
      BackedGrows(s, e);
      HonestGrows(s.log, e);
    }
  }

  lemma SameHistory(s: State, r: State)
    requires s.log == r.log && s.now == r.now && s.recent == r.recent
    ensures Deduplicated(s) == Deduplicated(r) && forall text :: Quiet(s, text) == Quiet(r, text)
  {
    hide Spaced, Honest;
    assert Backed(s) == Backed(r) && Remembered(s) == Remembered(r);
  }

  // ----- single steps

  lemma TimePasses(s: State, now: int)
    requires now >= s.now && Invariant(s)
    ensures Invariant(s.(now := now)) && forall text :: Quiet(s, text) ==> Quiet(s.(now := now), text)
  {
    hide Arrivals, Departures, Texts, FailuresSinceSuccess, LastFailure, EvictsLate, Spaced, Honest;
    var r := s.(now := now);
    assert Backed(r) by { hide Remembered; assert Backed(s); }
    hide Backed;
  }

  lemma TransmitKeeps(env: Environment, s: State)
    requires Invariant(s)
    ensures Invariant(Transmit(env, s)) && forall text :: Quiet(s, text) ==> Quiet(Transmit(env, s), text)
    ensures Later(s, Transmit(env, s), s.now) && Transmit(env, s).buffer == s.buffer
  {
    hide Arrivals, Departures, Texts, FailuresSinceSuccess, LastFailure, EvictsLate, Deduplicated, Quiet;
    var c := env.call(s.calls);
    var moved := s.(now := s.now + c.wait + c.took);
    var e := Attempt(s.now + c.wait);
    TimePasses(s, moved.now);
    LogOne(moved, e);
    LogKeepsDedup(moved, e);
    SameHistory(Logged(moved, e), Transmit(env, s));
  }

  lemma SuccessKeeps(s: State, text: Text)
    requires Invariant(s) && Quiet(s, text)
    ensures Invariant(RecordSuccess(s, text)) && Later(s, RecordSuccess(s, text), s.now)
    ensures RecordSuccess(s, text).buffer == s.buffer
  {
    hide Arrivals, Departures, Texts, FailuresSinceSuccess, LastFailure, EvictsLate, Deduplicated, Quiet;
    LogOne(s, Sent(text, s.now));
    SuccessIsDeduplicated(s, text);
  }

  lemma SuccessIsDeduplicated(s: State, text: Text)
    requires Deduplicated(s) && Quiet(s, text)
    ensures Deduplicated(RecordSuccess(s, text))
  {
    var r, e := RecordSuccess(s, text), Sent(text, s.now);
    assert r.log == s.log + [e];
    HonestGrows(s.log, e);
    assert Backed(r) by {
      BackedGrows(s, e);
      assert r.log[|s.log|] == e;
      forall t | t in r.recent ensures exists i :: 0 <= i < |r.log| && r.log[i] == Sent(t, r.recent[t]) {
        if t != text {
          var i :| 0 <= i < |s.log| && s.log[i] == Sent(t, s.recent[t]);
          assert r.log[i] == Sent(t, r.recent[t]);
        }
      }
    }
    hide Backed, Honest;
    assert Remembered(r) && Spaced(r.log);
  }

  lemma RememberedOf(s: State)
    requires Deduplicated(s)
    ensures Remembered(s)
  {
    hide Remembered, Spaced, Backed, Honest;
  }

  lemma CountedAfterAll(s: State)
    requires Remembered(s)
    ensures FailedSince(Logged(s.(failures := s.failures + 1), CountedFailure(s.now)))
  {
    hide LastFailure, FailuresSinceSuccess;
    LogOne(s, CountedFailure(s.now));
  }

  lemma FailureKeeps(s: State, retryAfter: nat)
    requires Invariant(s)
    ensures Invariant(RecordFailure(s, retryAfter)) && Later(s, RecordFailure(s, retryAfter), s.now)
    ensures RecordFailure(s, retryAfter).buffer == s.buffer
    ensures forall text :: Quiet(s, text) ==> Quiet(RecordFailure(s, retryAfter), text)
  {
    hide Arrivals, Departures, Texts, FailuresSinceSuccess, LastFailure, EvictsLate, Deduplicated, Quiet;
    var e := CountedFailure(s.now);
    RememberedOf(s);
    CountedAfterAll(s);
    hide FailedSince;
    LogOne(s, e);
    LogKeepsDedup(s, e);
    SameHistory(if retryAfter > 0 then s else Logged(s, e), RecordFailure(s, retryAfter));
  }

  lemma AppendKeeps(s: State, text: Text)
    requires Invariant(s)
    ensures Invariant(Append(s, text)) && Later(s, Append(s, text), s.now)
  {
    hide Arrivals, Departures, Texts, FailuresSinceSuccess, LastFailure, Deduplicated;
    var room := s;
    if |s.buffer| >= BUFFER_LIMIT {
      var popped, e := s.(buffer := s.buffer[1..]), Left(s.buffer[0], Evicted);
      room := Logged(popped, e);
      LogOne(popped, e);
      SameHistory(s, popped);
      LogKeepsDedup(popped, e);
      assert Texts(Departures(s.log)) + s.buffer == (Texts(Departures(s.log)) + [s.buffer[0]]) + s.buffer[1..];
      assert |Arrivals(s.log)| == |Departures(s.log)| + BUFFER_LIMIT by { TextsLength(Departures(s.log)); }
    }
    var full := room.(buffer := room.buffer + [text]);
    LogOne(full, Arrived(text));
    SameHistory(room, full);
    LogKeepsDedup(full, Arrived(text));
    assert Arrivals(room.log) + [text] == Texts(Departures(room.log)) + (room.buffer + [text]);
  }

  lemma TextsLength(ds: seq<(Text, Departure)>)
    ensures |Texts(ds)| == |ds|
  {
  }

  /** The oldest message leaves for good. */
  lemma LeaveKeeps(s: State, how: Departure)
    requires Invariant(s) && s.buffer != [] && how != Evicted
    requires how in {Flushed, Duplicate} ==> WasSent(s.log, s.buffer[0])
    ensures Invariant(Logged(PopFront(s), Left(s.buffer[0], how)))
    ensures Later(s, Logged(PopFront(s), Left(s.buffer[0], how)), s.now)
  {
    hide Arrivals, Departures, Texts, FailuresSinceSuccess, LastFailure, Deduplicated, WasSent;
    var popped, e := PopFront(s), Left(s.buffer[0], how);
    LogOne(popped, e);
    SameHistory(s, popped);
    LogKeepsDedup(popped, e);
    assert Texts(Departures(s.log)) + s.buffer == (Texts(Departures(s.log)) + [s.buffer[0]]) + s.buffer[1..];
  }

  lemma PauseKeeps(env: Environment, s: State)
    requires Invariant(s)
    ensures Invariant(RespectRateLimit(env, s)) && Later(s, RespectRateLimit(env, s), s.now)
  {
    hide Arrivals, Departures, Texts, FailuresSinceSuccess, LastFailure, EvictsLate, Deduplicated;
    var r := RespectRateLimit(env, s);
    TimePasses(s, r.now);
    SameHistory(s.(now := r.now), r);
  }

  lemma ProbeKeeps(s: State)
    requires Invariant(s)
    ensures Invariant(ProbeIfOpen(s))
  {
    hide Arrivals, Departures, Texts, FailuresSinceSuccess, LastFailure, EvictsLate, Deduplicated;
    SameHistory(s, ProbeIfOpen(s));
  }

  /** Pruning forgets nothing that still matters; afterwards a text is remembered exactly if it succeeded in the window. */
  lemma PruneKeeps(s: State)
    requires Invariant(s)
    ensures Invariant(PruneRecent(s))
    ensures forall text :: text in PruneRecent(s).recent <==> !Quiet(s, text)
  {
    hide Arrivals, Departures, Texts, FailuresSinceSuccess, LastFailure, EvictsLate, Spaced, Honest;
    var r := PruneRecent(s);
    assert Remembered(r) by { hide Backed; }
    assert Backed(r) by { hide Remembered; }
    forall text ensures text in r.recent <==> !Quiet(s, text) {
      if text in r.recent {
        var i :| 0 <= i < |r.log| && r.log[i] == Sent(text, r.recent[text]);
        assert s.log[i] == r.log[i];
      }
    }
  }

  lemma EndsKeep(s: State, seconds: nat)
    requires Invariant(s)
    ensures Invariant(CloseCircuit(s)) && Later(s, CloseCircuit(s), s.now)
    ensures Invariant(SleepOff(s, seconds)) && Later(s, SleepOff(s, seconds), s.now)
  {
    hide Arrivals, Departures, Texts, FailuresSinceSuccess, LastFailure, EvictsLate, Deduplicated;
    LogOne(s, EditDone);
    LogKeepsDedup(s, EditDone);
    SameHistory(Logged(s, EditDone), CloseCircuit(s));
    var r := SleepOff(s, seconds);
    TimePasses(s, r.now);
    SameHistory(s.(now := r.now), r);
  }

  lemma QuietUnlessRecent(s: State, text: Text)
    requires Invariant(s) && text !in s.recent
    ensures Quiet(s, text)
  {
    hide Arrivals, Departures, Texts, FailuresSinceSuccess, LastFailure, EvictsLate, Spaced, Honest, Backed;
  }

  lemma RecentWasSent(s: State, text: Text)
    requires Invariant(s) && text in s.recent
    ensures WasSent(s.log, text)
  {
    hide Arrivals, Departures, Texts, FailuresSinceSuccess, LastFailure, EvictsLate, Spaced, Honest, Remembered;
    var i :| 0 <= i < |s.log| && s.log[i] == Sent(text, s.recent[text]);
  }
}
