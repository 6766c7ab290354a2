/** What becomes of messages: what the sender's answer means, and exactly when a buffered message is lost. */
module TelegramDelivery {
  import opened Telegram
  import opened TelegramHistory

  // ----- how a range of requests ended

  /** Some request of the range was delivered. */
  ghost predicate Delivers(env: Environment, from: nat, to: nat) {
    exists n :: from <= n < to && env.call(n).reply == Delivered
  }

  /** The last request of the range ended with an exception the code does not catch. */
  ghost predicate EndsUncaught(env: Environment, from: nat, to: nat) {
    from < to && env.call(to - 1).reply.Uncaught?
  }

  ghost predicate LosesMessage(env: Environment, from: nat, to: nat) {
    Delivers(env, from, to) && EndsUncaught(env, from, to)
  }

  ghost predicate NothingSent(before: seq<Event>, after: seq<Event>) {
    before <= after && forall i :: |before| <= i < |after| ==> !after[i].Sent?
  }

  /** This text's success was logged in between. */
  ghost predicate SentSince(before: seq<Event>, after: seq<Event>, text: Text) {
    before <= after && exists i :: |before| <= i < |after| && after[i].Sent? && after[i].text == text
  }

  // ----- one send: its outcome is the end of its last request

  ghost predicate EndsAsItsLast(env: Environment, s: State, r: State, text: Text, o: Outcome) {
    && s.calls < r.calls
    && (o == Success <==> env.call(r.calls - 1).reply == Delivered)
    && (o.Failure? && !o.caught <==> env.call(r.calls - 1).reply.Uncaught?)
    && (o == Success <==> Delivers(env, s.calls, r.calls))
    && (o == Success ==> SentSince(s.log, r.log, text))
    && (o.Failure? ==> NothingSent(s.log, r.log))
    && Departures(r.log) == Departures(s.log)
  }

  lemma {:induction false} SendEnds(env: Environment, s: State, text: Text, attempts: nat)
    requires attempts >= 1
    ensures var (r, o) := SendImmediate(env, s, text, attempts);
      EndsAsItsLast(env, s, r, text, o)
    decreases attempts
  {
    SendOnceEnds(env, s, text);
    hide SendOnce, EndsAsItsLast;
    var (s1, o) := SendOnce(env, s, text);
    if Retries(env, o) && attempts > 1 {
      SendEnds(env, s1, text, attempts - 1);
      var (r, o1) := SendImmediate(env, s1, text, attempts - 1);
      EndsLater(env, s, s1, r, text, o, o1);
    }
  }

  lemma EndsLater(env: Environment, s: State, m: State, r: State, text: Text, o: Outcome, o1: Outcome)
    requires EndsAsItsLast(env, s, m, text, o) && o.Failure? && EndsAsItsLast(env, m, r, text, o1)
    ensures EndsAsItsLast(env, s, r, text, o1)
  {
    hide Departures;
    assert forall i :: 0 <= i < |m.log| ==> r.log[i] == m.log[i];
    forall n | s.calls <= n < r.calls && env.call(n).reply == Delivered ensures Delivers(env, m.calls, r.calls) {
      assert n < m.calls ==> Delivers(env, s.calls, m.calls);
    }
  }

  lemma SendOnceEnds(env: Environment, s: State, text: Text)
    ensures var (r, o) := SendOnce(env, s, text);
      EndsAsItsLast(env, s, r, text, o)
  {
    hide Departures;
    var s1 := Transmit(env, s);
    var s2 := Transmit(env, s1);
    TransmitDepartsNothing(env, s);
    TransmitDepartsNothing(env, s1);
    RecordDepartsNothing(s1, text);
    RecordDepartsNothing(s2, text);
    var (r, o) := SendOnce(env, s, text);
    assert o == Success ==> r.log[|r.log| - 1] == Sent(text, r.now);
    assert env.call(r.calls - 1).reply == Delivered ==> Delivers(env, s.calls, r.calls);
  }

  lemma TransmitDepartsNothing(env: Environment, s: State)
    ensures Departures(Transmit(env, s).log) == Departures(s.log)
  {
    hide Departures;
    LogOne(s, Attempt(s.now + env.call(s.calls).wait));
  }

  lemma RecordDepartsNothing(s: State, text: Text)
    ensures Departures(RecordSuccess(s, text).log) == Departures(s.log)
    ensures forall wait :: Departures(RecordFailure(s, wait).log) == Departures(s.log)
    ensures Departures(CloseCircuit(s).log) == Departures(s.log)
  {
    hide Departures;
    LogOne(s, Sent(text, s.now));
    LogOne(s, CountedFailure(s.now));
    LogOne(s, EditDone);
  }

  // ----- flushes

  /** What is added to the departures holds a loss only as its last one, and only if there is one. */
  ghost predicate LosesOnlyLast(before: seq<(Text, Departure)>, after: seq<(Text, Departure)>, loses: bool) {
    && before <= after
    && (loses ==> |before| < |after|)
    && forall i :: |before| <= i < |after| ==> (after[i].1 == Lost <==> loses && i == |after| - 1)
  }

  lemma LossStaysLast(before: seq<(Text, Departure)>, d: (Text, Departure), after: seq<(Text, Departure)>, loses: bool)
    requires LosesOnlyLast(before + [d], after, loses) && d.1 != Lost
    ensures LosesOnlyLast(before, after, loses)
  {
    assert after[..|before|] == (before + [d])[..|before|] == before;
    assert after[|before|] == (before + [d])[|before|];
  }

  lemma NothingLost(ds: seq<(Text, Departure)>, lost: Text)
    ensures LosesOnlyLast(ds, ds, false) && LosesOnlyLast(ds, ds + [(lost, Lost)], true)
  {
  }

  lemma {:induction false} FlushRaisesIff(env: Environment, s: State)
    ensures var (r, raised) := Flush(env, s);
      s.log <= r.log && s.calls <= r.calls && (raised <==> EndsUncaught(env, s.calls, r.calls))
    decreases |s.buffer|
  {
    hide Departures, SendImmediate;
    if s.buffer == [] {
    } else {
      var text, popped := s.buffer[0], PopFront(s);
      if text in s.recent {
        FlushRaisesIff(env, Logged(popped, Left(text, Duplicate)));
      } else {
        SendEnds(env, popped, text, MAX_ATTEMPTS);
        SendKeepsBuffer(env, popped, text, MAX_ATTEMPTS);
        var (s1, o) := SendImmediate(env, popped, text, MAX_ATTEMPTS);
        if o == Success {
          FlushRaisesIff(env, Logged(s1, Left(text, Flushed)));
        }
      }
    }
  }

  lemma {:induction false} FlushLosesOnRaise(env: Environment, s: State)
    ensures var (r, raised) := Flush(env, s);
      LosesOnlyLast(Departures(s.log), Departures(r.log), raised)
    decreases |s.buffer|
  {
    hide Departures, SendImmediate, LosesOnlyLast, Delivers, EndsUncaught, SentSince, NothingSent;
    var before := Departures(s.log);
    var (r, raised) := Flush(env, s);
    NothingLost(before, if s.buffer == [] then "" else s.buffer[0]);
    if s.buffer == [] {
    } else {
      var text, popped := s.buffer[0], PopFront(s);
      if text in s.recent {
        LogOne(popped, Left(text, Duplicate));
        FlushLosesOnRaise(env, Logged(popped, Left(text, Duplicate)));
        LossStaysLast(before, (text, Duplicate), Departures(r.log), raised);
      } else {
        SendEnds(env, popped, text, MAX_ATTEMPTS);
        SendKeepsBuffer(env, popped, text, MAX_ATTEMPTS);
        var (s1, o) := SendImmediate(env, popped, text, MAX_ATTEMPTS);
        if o == Success {
          LogOne(s1, Left(text, Flushed));
          FlushLosesOnRaise(env, Logged(s1, Left(text, Flushed)));
          LossStaysLast(before, (text, Flushed), Departures(r.log), raised);
        } else {
          LogOne(s1, Left(text, Lost));
        }
      }
    }
  }

  /** A flush loses a message, its last one, exactly when its last request ends with an exception the code does not catch. */
  lemma FlushLosesIff(env: Environment, s: State)
    ensures var r := Flush(env, s).0;
      LosesOnlyLast(Departures(s.log), Departures(r.log), EndsUncaught(env, s.calls, r.calls))
  {
    hide Departures, Flush;
    FlushRaisesIff(env, s);
    FlushLosesOnRaise(env, s);
  }

  ghost predicate EndsCaught(env: Environment, from: nat, to: nat) {
    from < to && env.call(to - 1).reply.Caught?
  }

  /** The last request of a send, as far as a flush depends on it. */
  lemma SendStops(env: Environment, s: State, text: Text)
    ensures var (r, o) := SendImmediate(env, s, text, MAX_ATTEMPTS);
      && s.calls < r.calls && r.buffer == s.buffer && Departures(r.log) == Departures(s.log)
      && (o == Success <==> env.call(r.calls - 1).reply == Delivered)
      && (o.Failure? && o.caught <==> env.call(r.calls - 1).reply.Caught?)
  {
    hide Departures, SendImmediate, Delivers, SentSince, NothingSent;
    SendEnds(env, s, text, MAX_ATTEMPTS);
    SendKeepsBuffer(env, s, text, MAX_ATTEMPTS);
  }

  /** A flush takes from the front, one departure for each message that is gone. */
  lemma {:induction false} FlushTakesFromFront(env: Environment, s: State)
    ensures var r := Flush(env, s).0;
      && |r.buffer| <= |s.buffer| && r.buffer == s.buffer[|s.buffer| - |r.buffer|..]
      && |Departures(r.log)| - |Departures(s.log)| == |s.buffer| - |r.buffer|
    decreases |s.buffer|
  {
    hide Departures, SendImmediate;
    if s.buffer == [] {
    } else {
      var text, popped := s.buffer[0], PopFront(s);
      if text in s.recent {
        LogOne(popped, Left(text, Duplicate));
        FlushTakesFromFront(env, Logged(popped, Left(text, Duplicate)));
      } else {
        SendStops(env, popped, text);
        var (s1, o) := SendImmediate(env, popped, text, MAX_ATTEMPTS);
        if o == Success {
          LogOne(s1, Left(text, Flushed));
          FlushTakesFromFront(env, Logged(s1, Left(text, Flushed)));
        } else {
          LogOne(s1, Left(text, Lost));
        }
      }
    }
  }

  /** A flush that does not raise goes on to the end of the buffer unless its last request ended with a failure. */
  lemma {:induction false} FlushEmptiesUnless(env: Environment, s: State)
    ensures var (r, raised) := Flush(env, s);
      && s.calls <= r.calls
      && (!raised ==> (r.buffer != [] <==> EndsCaught(env, s.calls, r.calls)))
    decreases |s.buffer|
  {
    hide Departures, SendImmediate;
    if s.buffer == [] {
    } else {
      var text, popped := s.buffer[0], PopFront(s);
      if text in s.recent {
        FlushEmptiesUnless(env, Logged(popped, Left(text, Duplicate)));
      } else {
        SendStops(env, popped, text);
        var (s1, o) := SendImmediate(env, popped, text, MAX_ATTEMPTS);
        if o == Success {
          FlushEmptiesUnless(env, Logged(s1, Left(text, Flushed)));
        }
      }
    }
  }

  // ----- calls

  lemma PruneIsSilent(s: State)
    ensures PruneRecent(s).log == s.log && PruneRecent(s).calls == s.calls
  {
  }

  lemma AppendLosesNothing(s: State, text: Text)
    ensures NothingSent(s.log, Append(s, text).log) && Append(s, text).calls == s.calls
    ensures LosesOnlyLast(Departures(s.log), Departures(Append(s, text).log), false)
  {
    hide Departures;
    var room := s;
    if |s.buffer| >= BUFFER_LIMIT {
      room := Logged(s.(buffer := s.buffer[1..]), Left(s.buffer[0], Evicted));
      LogOne(s.(buffer := s.buffer[1..]), Left(s.buffer[0], Evicted));
    }
    LogOne(room.(buffer := room.buffer + [text]), Arrived(text));
  }

  /**
   * What `send_html` answers and what it does to this text and to the buffer
   * are decided by how its requests ended.
   */
  lemma AnswerMeans(env: Environment, s: State, text: Text)
    ensures var (r, d) := SendHtml(env, s, text);
      var delivered, uncaught := Delivers(env, s.calls, r.calls), EndsUncaught(env, s.calls, r.calls);
      && (d == SentNow <==> delivered && !uncaught)
      && (d == Raised <==> uncaught)
      && (d == Failed <==> s.calls < r.calls && !delivered && !uncaught)
      && (d in {BufferedCircuitOpen, SuppressedDuplicate} <==> r.calls == s.calls)
      && (delivered ==> SentSince(s.log, r.log, text))
      && (!delivered ==> NothingSent(s.log, r.log))
      && LosesOnlyLast(Departures(s.log), Departures(r.log), LosesMessage(env, s.calls, r.calls))
  {
    hide Departures, SendImmediate, Flush, LosesOnlyLast, PruneRecent, Append;
    var s1 := RespectRateLimit(env, s);
    var s2 := PruneRecent(ProbeIfOpen(s1));
    PruneIsSilent(ProbeIfOpen(s1));
    NothingLost(Departures(s.log), text);
    if Refuses(s1) {
      AppendLosesNothing(s1, text);
    } else if text !in s2.recent {
      SendEnds(env, s2, text, MAX_ATTEMPTS);
      var (s3, o) := SendImmediate(env, s2, text, MAX_ATTEMPTS);
      if o == Success {
        FlushRaisesIff(env, s3);
        FlushLosesIff(env, s3);
        var r := Flush(env, s3).0;
        assert env.call(s3.calls - 1).reply == Delivered && s3.calls <= r.calls;
        assert Delivers(env, s.calls, r.calls);
        var i :| |s.log| <= i < |s3.log| && s3.log[i].Sent? && s3.log[i].text == text;
        assert r.log[i] == s3.log[i];
      }
    }
  }

  /** A send that reports success has emptied the buffer exactly when its last request was delivered. */
  lemma SentEmptiesIff(env: Environment, s: State, text: Text)
    ensures var (r, d) := SendHtml(env, s, text);
      d == SentNow ==> r.calls > 0 && (r.buffer == [] <==> env.call(r.calls - 1).reply == Delivered)
  {
    hide Departures, SendImmediate, Flush, PruneRecent, Append, Delivers, SentSince, NothingSent;
    var s1 := RespectRateLimit(env, s);
    var s2 := PruneRecent(ProbeIfOpen(s1));
    PruneIsSilent(ProbeIfOpen(s1));
    if Refuses(s1) || text in s2.recent {
    } else {
      SendEnds(env, s2, text, MAX_ATTEMPTS);
      var s3 := SendImmediate(env, s2, text, MAX_ATTEMPTS).0;
      FlushEmptiesUnless(env, s3);
      FlushRaisesIff(env, s3);
    }
  }

  lemma {:induction false} EditDepartsNothing(env: Environment, s: State, attempts: nat)
    requires attempts >= 1
    ensures Departures(EditImmediate(env, s, attempts).0.log) == Departures(s.log)
    decreases attempts
  {
    hide Departures, Transmit;
    var s1 := Transmit(env, s);
    TransmitDepartsNothing(env, s);
    TransmitDepartsNothing(env, s1);
    if attempts == 1 {
    } else {
      EditDepartsNothing(env, EditOnce(env, s).0, attempts - 1);
    }
  }

  lemma {:induction false} EditHtmlDepartsNothing(env: Environment, s: State, rateRetries: nat)
    requires rateRetries <= MAX_RATE_RETRIES
    ensures Departures(EditHtml(env, s, rateRetries).0.log) == Departures(s.log)
    decreases MAX_RATE_RETRIES - rateRetries
  {
    hide Departures, EditImmediate, RecordFailure;
    var probe := ProbeIfOpen(RespectRateLimit(env, s));
    EditDepartsNothing(env, probe, MAX_ATTEMPTS);
    var (s2, o) := EditImmediate(env, probe, MAX_ATTEMPTS);
    RecordDepartsNothing(s2, "");
    if o.Failure? && rateRetries < MAX_RATE_RETRIES {
      EditHtmlDepartsNothing(env, SleepOff(s2, o.retryAfter), rateRetries + 1);
    }
  }

  // ----- runs

  ghost predicate NoLoss(s: State) {
    forall d :: d in Departures(s.log) ==> d.1 != Lost
  }

  /** The call is a send, one of its requests was delivered, and its last one ended with an exception not caught. */
  ghost predicate StepLoses(env: Environment, s: State, c: Command) {
    c.Send? && LosesMessage(env, s.calls, Step(env, s, c).calls)
  }

  lemma StepLosesIff(env: Environment, s: State, c: Command)
    ensures NoLoss(Step(env, s, c)) <==> NoLoss(s) && !StepLoses(env, s, c)
  {
    hide Departures, SendHtml, EditHtml, LosesMessage;
    var s1 := s.(now := s.now + c.gap);
    match c
    case Edit(_) => EditHtmlDepartsNothing(env, s1, 0);
    case Send(text, _) =>
      AnswerMeans(env, s1, text);
      LossShows(Departures(s.log), Departures(Step(env, s, c).log), StepLoses(env, s, c));
  }

  lemma LossShows(before: seq<(Text, Departure)>, after: seq<(Text, Departure)>, loses: bool)
    requires LosesOnlyLast(before, after, loses)
    ensures (forall d :: d in after ==> d.1 != Lost) <==> (forall d :: d in before ==> d.1 != Lost) && !loses
  {
    assert after[..|before|] == before;
    assert forall d :: d in before ==> d in after;
    if loses {
      assert after[|after| - 1] in after;
    }
  }

  /** A run loses a message exactly when one of its calls does. */
  lemma {:induction false} RunLosesIff(env: Environment, s: State, cs: seq<Command>)
    ensures NoLoss(Run(env, s, cs)) <==>
      NoLoss(s) && forall k :: 0 <= k < |cs| ==> !StepLoses(env, Run(env, s, cs[..k]), cs[k])
    decreases |cs|
  {
    hide NoLoss, StepLoses, Step;
    if cs == [] {
    } else {
      var next := Step(env, s, cs[0]);
      StepLosesIff(env, s, cs[0]);
      RunLosesIff(env, next, cs[1..]);
      assert cs[..0] == [];
      forall k | 0 < k < |cs| ensures Run(env, s, cs[..k]) == Run(env, next, cs[1..][..k - 1]) {
        assert cs[..k][1..] == cs[1..][..k - 1];
      }
      forall k | 0 <= k < |cs| - 1
        ensures StepLoses(env, Run(env, next, cs[1..][..k]), cs[1..][k]) == StepLoses(env, Run(env, s, cs[..k + 1]), cs[k + 1])
      {
      }
    }
  }

  /** Every failure is one the code catches. */
  ghost predicate Catches(env: Environment) {
    forall n :: !env.call(n).reply.Uncaught?
  }

  /** If the code catches every failure, each message that left the buffer was sent, a duplicate, or evicted. */
  lemma NothingIsLost(env: Environment, s: State, cs: seq<Command>)
    requires Catches(env) && NoLoss(s)
    ensures NoLoss(Run(env, s, cs))
  {
    hide NoLoss, Run, Step;
    RunLosesIff(env, s, cs);
  }
}
