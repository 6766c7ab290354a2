/** The sender as the class it is: methods that update fields in place, refining the functions of `Telegram`. */
module TelegramBroadcaster {
  import opened Prelude
  import opened Telegram

  class Broadcaster {
    const env: Environment
    /** The environment's side: the clock and the number of requests made so far. */
    var now: int
    var calls: nat
    var failureCount: nat
    var circuitState: Circuit
    var circuitResetTime: Option<int>
    var recentMessageHashes: map<Text, int>
    var sendBuffer: seq<Text>
    var rateLimitUntil: Option<int>
    ghost var log: seq<Event>

    constructor (env: Environment, now: int)
      ensures this.env == env && Snapshot() == Initial(now)
    {
      this.env := env;
      this.now, calls := now, 0;
      failureCount, circuitState, circuitResetTime := 0, Closed, None;
      recentMessageHashes, sendBuffer, rateLimitUntil, log := map[], [], None, [];
    }

    ghost function Snapshot(): State
      reads this
    {
      State(now, calls, failureCount, circuitState, circuitResetTime, recentMessageHashes, sendBuffer, rateLimitUntil, log)
    }

    /** One request to the network. */
    method Request() returns (reply: Reply)
      modifies this
      ensures Snapshot() == Transmit(env, old(Snapshot())) && reply == ReplyTo(env, old(Snapshot()))
    {
      var c := env.call(calls);
      log := log + [Attempt(now + c.wait)];
      now := now + c.wait + c.took;
      calls := calls + 1;
      reply := c.reply;
    }

    method RecordSendSuccess(hash: Text)
      modifies this
      ensures Snapshot() == RecordSuccess(old(Snapshot()), hash)
    {
      failureCount := 0;
      circuitState := Closed;
      circuitResetTime := None;
      rateLimitUntil := None;
      recentMessageHashes := recentMessageHashes[hash := now];
      log := log + [Sent(hash, now)];
    }

    method RecordSendFailure(retryAfter: nat)
      modifies this
      ensures Snapshot() == RecordFailure(old(Snapshot()), retryAfter)
    {
      if retryAfter > 0 {
        rateLimitUntil := Some(now + retryAfter * SECOND);
        return;
      }
      failureCount := failureCount + 1;
      log := log + [CountedFailure(now)];
      if circuitState == HalfOpen || failureCount >= FAILURE_LIMIT {
        circuitState := Open;
        circuitResetTime := Some(now + CIRCUIT_PAUSE);
      }
    }

    method WaitForRateLimit()
      modifies this
      ensures Snapshot() == RespectRateLimit(env, old(Snapshot()))
    {
      if rateLimitUntil.Some? && rateLimitUntil.value - now > 0 {
        now := rateLimitUntil.value;
      }
      now := now + env.slack(calls);
      rateLimitUntil := None;
    }

    method PruneRecentHashes()
      modifies this
      ensures Snapshot() == PruneRecent(old(Snapshot()))
    {
      recentMessageHashes :=
        map t | t in recentMessageHashes && now - recentMessageHashes[t] < DUPLICATE_WINDOW :: recentMessageHashes[t];
    }

    method BufferAppend(text: Text)
      modifies this
      ensures Snapshot() == Append(old(Snapshot()), text)
    {
      if |sendBuffer| >= BUFFER_LIMIT {
        log := log + [Left(sendBuffer[0], Evicted)];
        sendBuffer := sendBuffer[1..];
      }
      sendBuffer := sendBuffer + [text];
      log := log + [Arrived(text)];
    }

    method TrySend(text: Text) returns (o: Outcome)
      modifies this
      ensures (Snapshot(), o) == SendOnce(env, old(Snapshot()), text)
    {
      var reply := Request();
      if reply.Caught? && reply.plainWorthTrying {
        reply := Request();
      }
      match reply
      case Delivered =>
        RecordSendSuccess(text);
        o := Success;
      case Caught(wait, _, _) =>
        RecordSendFailure(wait);
        o := Failure(true, wait);
      case Uncaught(wait) =>
        o := Failure(false, wait);
    }

    /** Up to three attempts. */
    method SendWithRetries(text: Text) returns (o: Outcome)
      modifies this
      ensures (Snapshot(), o) == SendImmediate(env, old(Snapshot()), text, MAX_ATTEMPTS)
    {
      hide SendOnce;
      var left := MAX_ATTEMPTS;
      ghost var whole := SendImmediate(env, Snapshot(), text, MAX_ATTEMPTS);
      o := TrySend(text);
      while Retries(env, o) && left > 1
        invariant 1 <= left <= MAX_ATTEMPTS
        invariant whole == if Retries(env, o) && left > 1
          then SendImmediate(env, Snapshot(), text, left - 1) else (Snapshot(), o)
        decreases left
      {
        o := TrySend(text);
        left := left - 1;
      }
    }

    /** Send what is buffered, oldest first; true when an exception escapes. */
    method FlushBuffer() returns (raised: bool)
      modifies this
      ensures (Snapshot(), raised) == Flush(env, old(Snapshot()))
    {
      hide SendImmediate;
      ghost var whole := Flush(env, Snapshot());
      while sendBuffer != []
        invariant Flush(env, Snapshot()) == whole
        decreases |sendBuffer|
      {
        ghost var s := Snapshot();
        var buffered := sendBuffer[0];
        sendBuffer := sendBuffer[1..];
        assert Snapshot() == PopFront(s);
        if buffered in recentMessageHashes {
          log := log + [Left(buffered, Duplicate)];
          continue;
        }
        SendKeepsBuffer(env, Snapshot(), buffered, MAX_ATTEMPTS);
        var o := SendWithRetries(buffered);
        if o.Failure? {
          if o.caught {
            sendBuffer := [buffered] + sendBuffer;
            return false;
          }
          log := log + [Left(buffered, Lost)];
          return true;
        }
        log := log + [Left(buffered, Flushed)];
      }
      raised := false;
    }

    method Send(text: Text) returns (d: Delivery)
      modifies this
      ensures (Snapshot(), d) == SendHtml(env, old(Snapshot()), text)
    {
      hide SendImmediate, Flush, RespectRateLimit, PruneRecent, Append;
      WaitForRateLimit();
      if circuitState == Open {
        if circuitResetTime.Some? && now < circuitResetTime.value {
          BufferAppend(text);
          return BufferedCircuitOpen;
        }
        circuitState := HalfOpen;
      }
      PruneRecentHashes();
      if text in recentMessageHashes {
        return SuppressedDuplicate;
      }
      var o := SendWithRetries(text);
      if o.Failure? {
        return if o.caught then Failed else Raised;
      }
      var raised := FlushBuffer();
      d := if raised then Raised else SentNow;
    }

    method TryEdit() returns (o: Outcome)
      modifies this
      ensures (Snapshot(), o) == EditOnce(env, old(Snapshot()))
    {
      var reply := Request();
      if reply.Caught? && !reply.notModified && reply.plainWorthTrying {
        reply := Request();
      }
      match reply
      case Delivered => o := Success;
      case Caught(wait, _, same) => o := if same then Success else Failure(true, wait);
      case Uncaught(wait) => o := Failure(false, wait);
    }

    method EditWithRetries() returns (o: Outcome)
      modifies this
      ensures (Snapshot(), o) == EditImmediate(env, old(Snapshot()), MAX_ATTEMPTS)
    {
      hide EditOnce;
      var left := MAX_ATTEMPTS;
      ghost var whole := EditImmediate(env, Snapshot(), MAX_ATTEMPTS);
      o := TryEdit();
      while Retries(env, o) && left > 1
        invariant 1 <= left <= MAX_ATTEMPTS
        invariant whole == if Retries(env, o) && left > 1
          then EditImmediate(env, Snapshot(), left - 1) else (Snapshot(), o)
        decreases left
      {
        o := TryEdit();
        left := left - 1;
      }
    }

    method Edit() returns (d: Delivery)
      modifies this
      ensures (Snapshot(), d) == EditHtml(env, old(Snapshot()), 0)
    {
      hide EditImmediate, RespectRateLimit;
      var rateRetries := 0;
      ghost var whole := EditHtml(env, Snapshot(), 0);
      while true
        invariant rateRetries <= MAX_RATE_RETRIES
        invariant EditHtml(env, Snapshot(), rateRetries) == whole
        decreases MAX_RATE_RETRIES - rateRetries
      {
        WaitForRateLimit();
        if circuitState == Open {
          if circuitResetTime.Some? && now < circuitResetTime.value {
            return Skipped;
          }
          circuitState := HalfOpen;
        }
        var o := EditWithRetries();
        if o == Success {
          failureCount, circuitState, circuitResetTime := 0, Closed, None;
          log := log + [EditDone];
          return Edited;
        }
        if o.caught {
          RecordSendFailure(o.retryAfter);
          return Raised;
        }
        if o.retryAfter == 0 {
          return Raised;
        }
        if rateRetries == MAX_RATE_RETRIES {
          return Skipped;
        }
        rateRetries := rateRetries + 1;
        rateLimitUntil := Some(now + o.retryAfter * SECOND);
        now := now + (o.retryAfter + 1) * SECOND;
      }
    }
  }
}
