/** A run in which a buffered message is lost: flood control, which the code does not catch, answers its flush. */
module TelegramLoss {
  import opened Prelude
  import opened Telegram
  import opened TelegramHistory
  import opened TelegramSafety
  import opened TelegramDelivery

  /** Six failures that open the circuit, then one delivery, then flood control. */
  const STORM := Environment(
    (n: nat) => Call(0, 0, if n < 6 then Caught(0, false, false) else if n == 6 then Delivered else Uncaught(30)),
    (n: nat) => 0,
    true)

  const RUN: seq<Command> := [Send("a", 0), Send("b", 0), Send("c", 0), Send("d", CIRCUIT_PAUSE)]

  /** A message whose three attempts all fail plainly. */
  lemma ThreeFailures(s: State, text: Text)
    requires s.calls + 2 < 6 && s.circuit == Closed && s.rateLimitUntil == None
    ensures var (r, o) := SendImmediate(STORM, s, text, MAX_ATTEMPTS);
      && o == Failure(true, 0) && r.now == s.now && r.calls == s.calls + 3 && r.failures == s.failures + 3
      && (s.failures == 0 ==> r.circuit == Closed && r.reset == s.reset)
      && (s.failures == 3 ==> r.circuit == Open && r.reset == Some(s.now + CIRCUIT_PAUSE))
      && r.recent == s.recent && r.buffer == s.buffer && r.rateLimitUntil == None
      && Departures(r.log) == Departures(s.log)
  {
    hide Departures, Delivers, SentSince, NothingSent;
    SendEnds(STORM, s, text, MAX_ATTEMPTS);
    var s1 := SendOnce(STORM, s, text).0;
    var s2 := SendOnce(STORM, s1, text).0;
    var s3 := SendOnce(STORM, s2, text).0;
    assert SendImmediate(STORM, s2, text, 1) == (s3, Failure(true, 0));
    assert SendImmediate(STORM, s1, text, 2) == (s3, Failure(true, 0));
  }

  lemma FirstTwoOpenTheCircuit() returns (s: State)
    ensures s == SendHtml(STORM, SendHtml(STORM, Initial(0), "a").0, "b").0
    ensures s.now == 0 && s.calls == 6 && s.circuit == Open && s.reset == Some(CIRCUIT_PAUSE) && s.rateLimitUntil == None
    ensures s.recent == map[] && s.buffer == [] && Departures(s.log) == []
  {
    hide SendImmediate;
    var s0 := PruneRecent(RespectRateLimit(STORM, Initial(0)));
    assert s0.recent == map[];
    ThreeFailures(s0, "a");
    var s1 := SendHtml(STORM, Initial(0), "a").0;
    var s2 := PruneRecent(RespectRateLimit(STORM, s1));
    assert s2.recent == map[];
    ThreeFailures(s2, "b");
    s := SendHtml(STORM, s1, "b").0;
  }

  lemma ThirdIsBuffered(s: State) returns (r: State)
    requires s.now == 0 && s.calls == 6 && s.circuit == Open && s.reset == Some(CIRCUIT_PAUSE) && s.rateLimitUntil == None
    requires s.recent == map[] && s.buffer == [] && Departures(s.log) == []
    ensures r == SendHtml(STORM, s, "c").0
    ensures r == s.(buffer := ["c"], log := r.log) && Departures(r.log) == []
  {
    hide Departures, Arrivals, Texts;
    r := SendHtml(STORM, s, "c").0;
    LogOne(s.(buffer := ["c"]), Arrived("c"));
  }

  lemma FourthFlushesInVain(s: State)
    requires s.now == CIRCUIT_PAUSE && s.calls == 6 && s.circuit == Open && s.reset == Some(CIRCUIT_PAUSE)
    requires s.rateLimitUntil == None && s.recent == map[] && s.buffer == ["c"] && Departures(s.log) == []
    ensures var (r, d) := SendHtml(STORM, s, "d");
      d == Raised && r.buffer == [] && Departures(r.log) == [("c", Lost)]
  {
    hide Departures, Arrivals, Texts, Delivers, SentSince, NothingSent;
    var probe := PruneRecent(ProbeIfOpen(RespectRateLimit(STORM, s)));
    assert probe.recent == map[];
    var sent := SendImmediate(STORM, probe, "d", MAX_ATTEMPTS).0;
    assert sent == SendOnce(STORM, probe, "d").0;
    SendEnds(STORM, probe, "d", MAX_ATTEMPTS);
    var popped := PopFront(sent);
    SendEnds(STORM, popped, "c", MAX_ATTEMPTS);
    var (failed, o) := SendImmediate(STORM, popped, "c", MAX_ATTEMPTS);
    assert o == Failure(false, 30) && failed.buffer == [];
    LogOne(failed, Left("c", Lost));
    assert "c" !in sent.recent;
    assert Flush(STORM, sent) == (Logged(failed, Left("c", Lost)), true);
  }

  /** That call raises although its own message was delivered. */
  lemma FourthIsDeliveredAllTheSame(s: State)
    requires s.now == CIRCUIT_PAUSE && s.calls == 6 && s.circuit == Open && s.reset == Some(CIRCUIT_PAUSE)
    requires s.rateLimitUntil == None && s.recent == map[] && s.buffer == ["c"] && Departures(s.log) == []
    ensures var (r, d) := SendHtml(STORM, s, "d");
      d == Raised && SentSince(s.log, r.log, "d")
  {
    hide SendHtml, SentSince, NothingSent, Departures, Delivers;
    AnswerMeans(STORM, s, "d");
    FourthFlushesInVain(s);
    assert Departures(SendHtml(STORM, s, "d").0.log)[0].1 == Lost;
  }

  /** The message "c" was accepted into the buffer, was never delivered, and is gone. */
  lemma FloodControlLosesMessage()
    ensures var s := Run(STORM, Initial(0), RUN);
      s.buffer == [] && Departures(s.log) == [("c", Lost)] && Arrivals(s.log) == ["c"]
  {
    hide Departures, Arrivals, SendHtml, SendImmediate;
    var s2 := FirstTwoOpenTheCircuit();
    var s3 := ThirdIsBuffered(s2);
    FourthFlushesInVain(s3.(now := s3.now + CIRCUIT_PAUSE));
    var one, two, three: seq<Command> := [Send("d", CIRCUIT_PAUSE)], [Send("c", 0), Send("d", CIRCUIT_PAUSE)],
      [Send("b", 0), Send("c", 0), Send("d", CIRCUIT_PAUSE)];
    assert RUN[1..] == three && three[1..] == two && two[1..] == one && one[1..] == [];
    var s1 := SendHtml(STORM, Initial(0), "a").0;
    assert Initial(0).(now := 0) == Initial(0) && s1.(now := s1.now + 0) == s1;
    assert s2.(now := s2.now + 0) == s2;
    assert Run(STORM, s3, one) == SendHtml(STORM, s3.(now := s3.now + CIRCUIT_PAUSE), "d").0;
    assert Run(STORM, s2, two) == Run(STORM, s3, one);
    assert Run(STORM, s1, three) == Run(STORM, s2, two);
    assert Run(STORM, Initial(0), RUN) == Run(STORM, s1, three);
    EveryRunIsSafe(STORM, 0, RUN);
  }
}
