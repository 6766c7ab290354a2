/**
 * The Telegram sender (engine/telegram.py) as a function of its state and of
 * an arbitrary environment: how long every pause and request takes and how
 * every request ends. The state carries the history the properties speak of.
 */
module Telegram {
  import opened Prelude

  /** Times are in microseconds. */
  const SECOND := 1000000
  const DUPLICATE_WINDOW := 180 * SECOND
  const CIRCUIT_PAUSE := 300 * SECOND
  const FAILURE_LIMIT := 5
  const BUFFER_LIMIT := 50
  const MAX_ATTEMPTS := 3
  const MAX_RATE_RETRIES := 4

  type Text = string

  /**
   * How one request ends: delivered, with an exception the code catches, or
   * with one it does not. `retryAfter` is 0 unless it is a flood-control
   * answer; `plainWorthTrying` is a markup error with plain text to send instead.
   */
  datatype Reply =
    | Delivered
    | Caught(retryAfter: nat, plainWorthTrying: bool, notModified: bool)
    | Uncaught(retryAfter: nat)

  /** One request: the pause before it, the time it takes, its end. */
  datatype Call = Call(wait: nat, took: nat, reply: Reply)

  /** The n-th request, and how much longer than asked the pause before it lasts. */
  datatype Environment = Environment(call: nat -> Call, slack: nat -> nat, hasTenacity: bool)

  datatype Circuit = Closed | Open | HalfOpen

  datatype Departure = Flushed | Duplicate | Evicted | Lost

  datatype Event =
    | Attempt(at: int)
    | Sent(text: Text, at: int)
    | EditDone
    | CountedFailure(at: int)
    | Arrived(text: Text)
    | Left(text: Text, how: Departure)

  datatype State = State(
    now: int, calls: nat,
    failures: nat, circuit: Circuit, reset: Option<int>,
    recent: map<Text, int>, buffer: seq<Text>, rateLimitUntil: Option<int>,
    log: seq<Event>)

  datatype Outcome = Success | Failure(caught: bool, retryAfter: nat)

  datatype Delivery = SentNow | Failed | BufferedCircuitOpen | SuppressedDuplicate | Edited | Skipped | Raised

  // ----- single steps

  function Logged(s: State, e: Event): State {
    s.(log := s.log + [e])
  }

  /** The request is issued after the pause, and only then counts as an attempt. */
  function Transmit(env: Environment, s: State): State {
    var c := env.call(s.calls);
    Logged(s.(now := s.now + c.wait + c.took, calls := s.calls + 1), Attempt(s.now + c.wait))
  }

  function ReplyTo(env: Environment, s: State): Reply {
    env.call(s.calls).reply
  }

  function RecordSuccess(s: State, text: Text): State {
    Logged(
      s.(failures := 0, circuit := Closed, reset := None, rateLimitUntil := None, recent := s.recent[text := s.now]),
      Sent(text, s.now))
  }

  function RecordFailure(s: State, retryAfter: nat): State {
    if retryAfter > 0 then
      s.(rateLimitUntil := Some(s.now + retryAfter * SECOND))
    else
      var failed := Logged(s.(failures := s.failures + 1), CountedFailure(s.now));
      if s.circuit == HalfOpen || failed.failures >= FAILURE_LIMIT then
        failed.(circuit := Open, reset := Some(s.now + CIRCUIT_PAUSE))
      else failed
  }

  function RespectRateLimit(env: Environment, s: State): State {
    var wake := if s.rateLimitUntil.Some? && s.rateLimitUntil.value > s.now then s.rateLimitUntil.value else s.now;
    s.(now := wake + env.slack(s.calls), rateLimitUntil := None)
  }

  predicate Refuses(s: State) {
    s.circuit == Open && s.reset.Some? && s.now < s.reset.value
  }

  function ProbeIfOpen(s: State): State {
    if s.circuit == Open then s.(circuit := HalfOpen) else s
  }

  function PruneRecent(s: State): State {
    s.(recent := map t | t in s.recent && s.now - s.recent[t] < DUPLICATE_WINDOW :: s.recent[t])
  }

  /** Appending to a full buffer pushes its oldest message out. */
  function Append(s: State, text: Text): State {
    var room := if |s.buffer| >= BUFFER_LIMIT
                then Logged(s.(buffer := s.buffer[1..]), Left(s.buffer[0], Evicted)) else s;
    Logged(room.(buffer := room.buffer + [text]), Arrived(text))
  }

  predicate Retries(env: Environment, o: Outcome) {
    o.Failure? && (o.retryAfter == 0 || !env.hasTenacity)
  }

  // ----- sending

  function SendOnce(env: Environment, s: State, text: Text): (State, Outcome) {
    var s1 := Transmit(env, s);
    match ReplyTo(env, s)
    case Delivered => (RecordSuccess(s1, text), Success)
    case Uncaught(wait) => (s1, Failure(false, wait))
    case Caught(wait, plain, _) =>
      if !plain then (RecordFailure(s1, wait), Failure(true, wait))
      else
        var s2 := Transmit(env, s1);
        match ReplyTo(env, s1)
        case Delivered => (RecordSuccess(s2, text), Success)
        case Uncaught(wait2) => (s2, Failure(false, wait2))
        case Caught(wait2, _, _) => (RecordFailure(s2, wait2), Failure(true, wait2))
  }

  function SendImmediate(env: Environment, s: State, text: Text, attempts: nat): (State, Outcome)
    requires attempts >= 1
    decreases attempts
  {
    var (s1, o) := SendOnce(env, s, text);
    if Retries(env, o) && attempts > 1 then SendImmediate(env, s1, text, attempts - 1) else (s1, o)
  }

  function PopFront(s: State): State
    requires s.buffer != []
  {
    s.(buffer := s.buffer[1..])
  }

  /** Put a message back at the front of a buffer that is not full. */
  function PushFront(s: State, text: Text): State {
    s.(buffer := [text] + s.buffer)
  }

  /** Send what is buffered, oldest first, until it is empty or a send fails; true if an exception escapes. */
  function Flush(env: Environment, s: State): (State, bool)
    decreases |s.buffer|
  {
    if s.buffer == [] then (s, false)
    else
      var text, popped := s.buffer[0], PopFront(s);
      if text in s.recent then Flush(env, Logged(popped, Left(text, Duplicate)))
      else
        SendKeepsBuffer(env, popped, text, MAX_ATTEMPTS);
        var (s1, o) := SendImmediate(env, popped, text, MAX_ATTEMPTS);
        match o
        case Success => Flush(env, Logged(s1, Left(text, Flushed)))
        case Failure(caught, _) =>
          if caught then (PushFront(s1, text), false) else (Logged(s1, Left(text, Lost)), true)
  }

  lemma {:induction false} SendKeepsBuffer(env: Environment, s: State, text: Text, attempts: nat)
    requires attempts >= 1
    ensures SendImmediate(env, s, text, attempts).0.buffer == s.buffer
    decreases attempts
  {
    if attempts == 1 {
    } else {
      SendKeepsBuffer(env, SendOnce(env, s, text).0, text, attempts - 1);
    }
  }

  function SendHtml(env: Environment, s: State, text: Text): (State, Delivery) {
    var s1 := RespectRateLimit(env, s);
    if Refuses(s1) then (Append(s1, text), BufferedCircuitOpen)
    else
      var s2 := PruneRecent(ProbeIfOpen(s1));
      if text in s2.recent then (s2, SuppressedDuplicate)
      else
        var (s3, o) := SendImmediate(env, s2, text, MAX_ATTEMPTS);
        match o
        case Failure(caught, _) => (s3, if caught then Failed else Raised)
        case Success =>
          var (s4, raised) := Flush(env, s3);
          (s4, if raised then Raised else SentNow)
  }

  // ----- editing

  function EditOnce(env: Environment, s: State): (State, Outcome) {
    var s1 := Transmit(env, s);
    match ReplyTo(env, s)
    case Delivered => (s1, Success)
    case Uncaught(wait) => (s1, Failure(false, wait))
    case Caught(wait, plain, same) =>
      if same then (s1, Success)
      else if !plain then (s1, Failure(true, wait))
      else
        var s2 := Transmit(env, s1);
        match ReplyTo(env, s1)
        case Delivered => (s2, Success)
        case Uncaught(wait2) => (s2, Failure(false, wait2))
        case Caught(wait2, _, same2) => (s2, if same2 then Success else Failure(true, wait2))
  }

  function EditImmediate(env: Environment, s: State, attempts: nat): (State, Outcome)
    requires attempts >= 1
    decreases attempts
  {
    var (s1, o) := EditOnce(env, s);
    if Retries(env, o) && attempts > 1 then EditImmediate(env, s1, attempts - 1) else (s1, o)
  }

  function CloseCircuit(s: State): State {
    Logged(s.(failures := 0, circuit := Closed, reset := None), EditDone)
  }

  /** Flood control on an edit: note when it ends and sleep a second longer than that. */
  function SleepOff(s: State, seconds: nat): State {
    s.(rateLimitUntil := Some(s.now + seconds * SECOND), now := s.now + (seconds + 1) * SECOND)
  }

  function EditHtml(env: Environment, s: State, rateRetries: nat): (State, Delivery)
    requires rateRetries <= MAX_RATE_RETRIES
    decreases MAX_RATE_RETRIES - rateRetries
  {
    var s1 := RespectRateLimit(env, s);
    if Refuses(s1) then (s1, Skipped)
    else
      var (s2, o) := EditImmediate(env, ProbeIfOpen(s1), MAX_ATTEMPTS);
      match o
      case Success => (CloseCircuit(s2), Edited)
      case Failure(caught, wait) =>
        if caught then (RecordFailure(s2, wait), Raised)
        else if wait > 0 && rateRetries < MAX_RATE_RETRIES then EditHtml(env, SleepOff(s2, wait), rateRetries + 1)
        else (s2, if wait > 0 then Skipped else Raised)
  }

  // ----- runs

  /** A caller's next call, some time after the previous one returned. */
  datatype Command = Send(text: Text, gap: nat) | Edit(gap: nat)

  function Step(env: Environment, s: State, c: Command): State {
    var s1 := s.(now := s.now + c.gap);
    match c
    case Send(text, _) => SendHtml(env, s1, text).0
    case Edit(_) => EditHtml(env, s1, 0).0
  }

  function Run(env: Environment, s: State, cs: seq<Command>): State
    decreases |cs|
  {
    if cs == [] then s else Run(env, Step(env, s, cs[0]), cs[1..])
  }

  function Initial(now: int): State {
    State(now, 0, 0, Closed, None, map[], [], None, [])
  }
}
