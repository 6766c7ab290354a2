/** Which requests a call makes, and what `edit_html` answers, in terms of how each request ended. */
module TelegramRequests {
  import opened Prelude
  import opened Telegram

  // ----- attempts

  /** A markup error for which there is plain text to send instead. */
  predicate AsksForPlain(reply: Reply) {
    reply.Caught? && reply.plainWorthTrying
  }

  /** A failure after which another attempt may follow: with tenacity, not one that names a time to retry. */
  predicate AllowsRetry(env: Environment, reply: Reply) {
    !reply.Delivered? && (reply.retryAfter == 0 || !env.hasTenacity)
  }

  function ReplyOf(env: Environment, n: nat): Reply {
    env.call(n).reply
  }

  /** Every request but the last failed, and was followed by the plain text or by another attempt. */
  ghost predicate FollowedRightly(env: Environment, from: nat, until: nat) {
    forall n :: from <= n < until - 1 ==> AsksForPlain(ReplyOf(env, n)) || AllowsRetry(env, ReplyOf(env, n))
  }

  lemma OneSendRequests(env: Environment, s: State, text: Text)
    ensures var (r, o) := SendOnce(env, s, text);
      && r.calls == s.calls + (if AsksForPlain(ReplyOf(env, s.calls)) then 2 else 1)
      && (Retries(env, o) <==> AllowsRetry(env, ReplyOf(env, r.calls - 1)))
  {
  }

  /**
   * The plain text follows a markup error and nothing else; all attempts are
   * used unless one succeeds or, with tenacity, names a time to retry.
   */
  lemma {:induction false} SendRequests(env: Environment, s: State, text: Text, attempts: nat)
    requires attempts >= 1
    ensures var (r, o) := SendImmediate(env, s, text, attempts);
      && s.calls < r.calls <= s.calls + 2 * attempts
      && FollowedRightly(env, s.calls, r.calls)
      && (AllowsRetry(env, ReplyOf(env, r.calls - 1)) ==> r.calls >= s.calls + attempts)
    decreases attempts
  {
    OneSendRequests(env, s, text);
    hide SendOnce, Retries;
    if attempts == 1 {
    } else {
      SendRequests(env, SendOnce(env, s, text).0, text, attempts - 1);
    }
  }

  lemma OneEditRequests(env: Environment, s: State)
    ensures var (r, o) := EditOnce(env, s);
      && r.calls == s.calls + (if AsksForPlain(ReplyOf(env, s.calls)) && !Accepted(ReplyOf(env, s.calls)) then 2 else 1)
      && EndsAs(env, s, r, o)
  {
  }

  /** The edit went through, or there was nothing to change. */
  predicate Accepted(reply: Reply) {
    reply.Delivered? || (reply.Caught? && reply.notModified)
  }

  /** Attempts to edit take time and leave everything else alone; the last request decides their outcome. */
  ghost predicate EndsAs(env: Environment, s: State, r: State, o: Outcome) {
    && s.calls < r.calls && s.now <= r.now
    && r == s.(now := r.now, calls := r.calls, log := r.log)
    && var last := ReplyOf(env, r.calls - 1);
       o == if Accepted(last) then Success else Failure(last.Caught?, last.retryAfter)
  }

  lemma {:induction false} EditRequests(env: Environment, s: State, attempts: nat)
    requires attempts >= 1
    ensures var (r, o) := EditImmediate(env, s, attempts);
      && EndsAs(env, s, r, o)
      && r.calls <= s.calls + 2 * attempts
      && FollowedRightly(env, s.calls, r.calls)
      && (Retries(env, o) ==> r.calls >= s.calls + attempts)
    decreases attempts
  {
    OneEditRequests(env, s);
    hide EditOnce;
    if attempts == 1 {
    } else {
      EditRequests(env, EditOnce(env, s).0, attempts - 1);
    }
  }

  // ----- what an edit answers

  /** A failure the breaker counts: one the code catches that names no time to retry. */
  predicate IsCounted(reply: Reply) {
    reply.Caught? && !reply.notModified && reply.retryAfter == 0
  }

  predicate IsFlood(reply: Reply) {
    reply.Uncaught? && reply.retryAfter > 0
  }

  /** What an edit answers and changes, by whether it made requests and how the last of them ended. */
  ghost predicate EditAnswers(env: Environment, s: State, r: State, d: Delivery) {
    if r.calls <= s.calls then
      d == Skipped && r.calls == s.calls && r.failures == s.failures && r.circuit == Open
    else
      var last := ReplyOf(env, r.calls - 1);
      && (d == Edited <==> Accepted(last))
      && (d == Skipped <==> IsFlood(last))
      && (d == Raised <==> !Accepted(last) && !IsFlood(last))
      && (d == Edited ==> r.failures == 0 && r.circuit == Closed && r.reset == None)
      && (IsCounted(last) ==> r.failures == s.failures + 1 && r.log != [] && r.log[|r.log| - 1] == CountedFailure(r.now))
      && (!IsCounted(last) && d != Edited ==> r.failures == s.failures)
      && (d == Raised && last.Caught? && last.retryAfter > 0 ==> r.rateLimitUntil == Some(r.now + last.retryAfter * SECOND))
  }

  lemma {:induction false} EditAnswerMeans(env: Environment, s: State, rateRetries: nat)
    requires rateRetries <= MAX_RATE_RETRIES
    ensures var (r, d) := EditHtml(env, s, rateRetries);
      && EditAnswers(env, s, r, d)
      && (r.calls == s.calls <==> Refuses(RespectRateLimit(env, s)))
      && r.buffer == s.buffer && r.recent == s.recent
    decreases MAX_RATE_RETRIES - rateRetries
  {
    hide EditImmediate, FollowedRightly;
    var s1 := RespectRateLimit(env, s);
    if Refuses(s1) {
    } else {
      var probe := ProbeIfOpen(s1);
      EditRequests(env, probe, MAX_ATTEMPTS);
      var (s2, o) := EditImmediate(env, probe, MAX_ATTEMPTS);
      if o.Failure? && !o.caught && o.retryAfter > 0 && rateRetries < MAX_RATE_RETRIES {
        var s3 := SleepOff(s2, o.retryAfter);
        assert s3.circuit != Open && !Refuses(RespectRateLimit(env, s3));
        EditAnswerMeans(env, s3, rateRetries + 1);
      }
    }
  }

  // ----- how long an edit keeps trying

  /** How many requests of a range flood control answered, past the code's handler. */
  function Floods(env: Environment, from: nat, until: nat): nat
    decreases until
  {
    if until <= from then 0 else Floods(env, from, until - 1) + if IsFlood(ReplyOf(env, until - 1)) then 1 else 0
  }

  /** How long those asked to wait, and a second more each. */
  function FloodWaits(env: Environment, from: nat, until: nat): nat
    decreases until
  {
    if until <= from then 0
    else
      var reply := ReplyOf(env, until - 1);
      FloodWaits(env, from, until - 1) + if IsFlood(reply) then (reply.retryAfter + 1) * SECOND else 0
  }

  lemma {:induction false} FloodsSplit(env: Environment, from: nat, mid: nat, until: nat)
    requires from <= mid <= until
    ensures Floods(env, from, until) == Floods(env, from, mid) + Floods(env, mid, until)
    ensures FloodWaits(env, from, until) == FloodWaits(env, from, mid) + FloodWaits(env, mid, until)
    decreases until
  {
    if mid == until {
    } else {
      FloodsSplit(env, from, mid, until - 1);
    }
  }

  lemma {:induction false} NoFloods(env: Environment, from: nat, until: nat)
    requires forall n :: from <= n < until ==> !IsFlood(ReplyOf(env, n))
    ensures Floods(env, from, until) == 0 && FloodWaits(env, from, until) == 0
    decreases until
  {
    if until <= from {
    } else {
      NoFloods(env, from, until - 1);
    }
  }

  predicate GaveFlood(o: Outcome) {
    o.Failure? && !o.caught && o.retryAfter > 0
  }

  /** A round of attempts that is let through meets flood control at most in its last request. */
  lemma RoundFloods(env: Environment, s: State)
    requires env.hasTenacity && !Refuses(RespectRateLimit(env, s))
    ensures var (r, o) := EditImmediate(env, ProbeIfOpen(RespectRateLimit(env, s)), MAX_ATTEMPTS);
      && s.calls < r.calls && s.now <= r.now && r.circuit != Open
      && Floods(env, s.calls, r.calls) == (if GaveFlood(o) then 1 else 0)
      && FloodWaits(env, s.calls, r.calls - 1) == 0
      && FloodWaits(env, s.calls, r.calls) == (if GaveFlood(o) then (o.retryAfter + 1) * SECOND else 0)
  {
    hide EditImmediate;
    var probe := ProbeIfOpen(RespectRateLimit(env, s));
    EditRequests(env, probe, MAX_ATTEMPTS);
    NoFloods(env, s.calls, EditImmediate(env, probe, MAX_ATTEMPTS).0.calls - 1);
  }

  /** One round of an edit: it stops there, or sleeps and goes on with the next. */
  lemma EditUnfolds(env: Environment, s: State, rateRetries: nat)
    requires rateRetries <= MAX_RATE_RETRIES
    ensures Refuses(RespectRateLimit(env, s)) ==> EditHtml(env, s, rateRetries) == (RespectRateLimit(env, s), Skipped)
    ensures !Refuses(RespectRateLimit(env, s)) ==>
      var (s2, o) := EditImmediate(env, ProbeIfOpen(RespectRateLimit(env, s)), MAX_ATTEMPTS);
      if GaveFlood(o) && rateRetries < MAX_RATE_RETRIES then
        EditHtml(env, s, rateRetries) == EditHtml(env, SleepOff(s2, o.retryAfter), rateRetries + 1)
      else
        var (r, d) := EditHtml(env, s, rateRetries);
        r.calls == s2.calls && r.now == s2.now && (d == Skipped <==> GaveFlood(o))
  {
    hide EditImmediate, RespectRateLimit, Refuses;
    var s1 := RespectRateLimit(env, s);
    var (s2, o) := EditImmediate(env, ProbeIfOpen(s1), MAX_ATTEMPTS);
    if Refuses(s1) {
    } else if o == Success {
      assert EditHtml(env, s, rateRetries) == (CloseCircuit(s2), Edited);
    } else if o.caught {
      assert EditHtml(env, s, rateRetries) == (RecordFailure(s2, o.retryAfter), Raised);
    } else if GaveFlood(o) && rateRetries < MAX_RATE_RETRIES {
    } else {
      assert EditHtml(env, s, rateRetries) == (s2, if GaveFlood(o) then Skipped else Raised);
    }
  }

  lemma SleepPasses(s: State, wait: nat)
    ensures SleepOff(s, wait).calls == s.calls && SleepOff(s, wait).now == s.now + (wait + 1) * SECOND
    ensures SleepOff(s, wait).circuit == s.circuit
  {
  }

  lemma PauseMakesNoRequest(env: Environment, s: State)
    ensures RespectRateLimit(env, s).calls == s.calls && RespectRateLimit(env, s).now >= s.now
    ensures s.circuit != Open ==> !Refuses(RespectRateLimit(env, s))
  {
  }

  /** An edit whose circuit is not open makes a request. */
  lemma EditGoesOn(env: Environment, s: State, rateRetries: nat)
    requires rateRetries <= MAX_RATE_RETRIES && s.circuit != Open
    ensures EditHtml(env, s, rateRetries).0.calls > s.calls
  {
    hide EditHtml, Refuses, RespectRateLimit;
    EditAnswerMeans(env, s, rateRetries);
    PauseMakesNoRequest(env, s);
  }

  /**
   * With tenacity, an edit gives up exactly when flood control has answered it
   * once and at each of its further rounds.
   */
  lemma {:induction false} EditPersists(env: Environment, s: State, rateRetries: nat)
    requires rateRetries <= MAX_RATE_RETRIES && env.hasTenacity
    ensures var (r, d) := EditHtml(env, s, rateRetries);
      && s.calls <= r.calls
      && Floods(env, s.calls, r.calls) <= 1 + MAX_RATE_RETRIES - rateRetries
      && (d == Skipped && s.calls < r.calls <==> Floods(env, s.calls, r.calls) == 1 + MAX_RATE_RETRIES - rateRetries)
    decreases MAX_RATE_RETRIES - rateRetries
  {
    hide EditHtml, EditImmediate, Floods, FloodWaits, RespectRateLimit, Refuses, SleepOff, ProbeIfOpen;
    NoFloods(env, s.calls, s.calls);
    PauseMakesNoRequest(env, s);
    EditUnfolds(env, s, rateRetries);
    if Refuses(RespectRateLimit(env, s)) {
    } else {
      RoundFloods(env, s);
      var (s2, o) := EditImmediate(env, ProbeIfOpen(RespectRateLimit(env, s)), MAX_ATTEMPTS);
      if GaveFlood(o) && rateRetries < MAX_RATE_RETRIES {
        var s3 := SleepOff(s2, o.retryAfter);
        SleepPasses(s2, o.retryAfter);
        EditPersists(env, s3, rateRetries + 1);
        EditGoesOn(env, s3, rateRetries + 1);
        FloodsSplit(env, s.calls, s2.calls, EditHtml(env, s3, rateRetries + 1).0.calls);
      }
    }
  }

  /** With tenacity, an edit waits out flood control, and a second more, before each further round. */
  lemma {:induction false} EditWaits(env: Environment, s: State, rateRetries: nat)
    requires rateRetries <= MAX_RATE_RETRIES && env.hasTenacity
    ensures var r := EditHtml(env, s, rateRetries).0;
      && s.now <= r.now && s.calls <= r.calls
      && (s.calls < r.calls ==> r.now - s.now >= FloodWaits(env, s.calls, r.calls - 1))
    decreases MAX_RATE_RETRIES - rateRetries
  {
    hide EditHtml, EditImmediate, Floods, FloodWaits, RespectRateLimit, Refuses, SleepOff, ProbeIfOpen;
    PauseMakesNoRequest(env, s);
    EditUnfolds(env, s, rateRetries);
    if Refuses(RespectRateLimit(env, s)) {
    } else {
      RoundFloods(env, s);
      var (s2, o) := EditImmediate(env, ProbeIfOpen(RespectRateLimit(env, s)), MAX_ATTEMPTS);
      if GaveFlood(o) && rateRetries < MAX_RATE_RETRIES {
        var s3 := SleepOff(s2, o.retryAfter);
        SleepPasses(s2, o.retryAfter);
        EditWaits(env, s3, rateRetries + 1);
        EditGoesOn(env, s3, rateRetries + 1);
        FloodsSplit(env, s.calls, s2.calls, EditHtml(env, s3, rateRetries + 1).0.calls - 1);
      }
    }
  }
}
