/**
 * The dashboard's sliding-window limiter (bot/dashboard/access_audit.py). The
 * class keeps one evicting deque a client; the specification scans the whole
 * history of requests and never forgets anything.
 */
module RateLimit {
  datatype Request = Request(ip: string, at: real)

  const WINDOW := 60.0

  // ----- the full scan

  /** How many of the times lie in the window that ends at `now`. */
  function CountWithin(times: seq<real>, now: real): nat {
    if times == [] then 0
    else CountWithin(times[..|times| - 1], now) + if now - times[|times| - 1] <= WINDOW then 1 else 0
  }

  /** The times at which requests of `ip` were admitted. */
  function Admitted(limit: nat, history: seq<Request>, ip: string): seq<real> {
    if history == [] then []
    else
      var earlier, last := Admitted(limit, history[..|history| - 1], ip), history[|history| - 1];
      earlier + if last.ip == ip && CountWithin(earlier, last.at) < limit then [last.at] else []
  }

  /** Whether a request is let through after this history. */
  predicate Admits(limit: nat, history: seq<Request>, r: Request) {
    CountWithin(Admitted(limit, history, r.ip), r.at) < limit
  }

  ghost predicate Chronological(history: seq<Request>) {
    forall i, j :: 0 <= i <= j < |history| ==> history[i].at <= history[j].at
  }

  // ----- the limiter

  class DashboardAccessAuditor {
    const limit: nat
    var hits: map<string, seq<real>>
    ghost var history: seq<Request>

    constructor (limitPerMinute: int)
      ensures Valid() && history == [] && limit == (if limitPerMinute > 1 then limitPerMinute else 1)
    {
      limit := if limitPerMinute > 1 then limitPerMinute else 1;
      hits := map[];
      history := [];
    }

    ghost predicate Valid()
      reads this
    {
      limit >= 1 && Chronological(history) && Tracks(limit, hits, history)
    }

    method CheckRateLimit(clientIp: string, now: real) returns (allowed: bool)
      requires Valid()
      requires history != [] ==> Latest(history) <= now
      modifies this
      ensures Valid() && history == old(history) + [Request(clientIp, now)]
      ensures allowed == Admits(limit, old(history), Request(clientIp, now))
      ensures clientIp in hits && hits == old(hits)[clientIp := hits[clientIp]]
    {
      hide Admitted, CountWithin, Admits;
      ghost var before, r := history, Request(clientIp, now);
      var window := if clientIp in hits then hits[clientIp] else [];
      assert WindowOf(hits, clientIp) == window;
      AdmittedAscend(limit, before, clientIp);
      window := EvictOld(window, Admitted(limit, before, clientIp), Latest(before), now);
      WindowDecides(limit, before, r, window);
      KeepsTracking(limit, hits, before, r, window);
      hits := hits[clientIp := if |window| < limit then window + [now] else window];
      history := before + [r];
      allowed := |window| < limit;
    }
  }

  method EvictOld(entries: seq<real>, ghost all: seq<real>, ghost past: real, now: real) returns (window: seq<real>)
    requires IsWindow(entries, all, past) && (all == [] || past <= now)
    ensures IsWindow(window, all, now)
    ensures window != [] ==> now - window[0] <= WINDOW
  {
    window := entries;
    while window != [] && now - window[0] > WINDOW
      invariant IsWindow(window, all, now)
    {
      window := window[1..];
    }
  }

  /** The deque of a client, empty for one not seen before. */
  ghost function WindowOf(hits: map<string, seq<real>>, ip: string): seq<real> {
    if ip in hits then hits[ip] else []
  }

  ghost function Latest(history: seq<Request>): real {
    if history == [] then 0.0 else history[|history| - 1].at
  }

  /** The window is what is left of all admissions after dropping old ones from the front. */
  ghost predicate IsWindow(window: seq<real>, all: seq<real>, now: real) {
    && |window| <= |all|
    && window == all[|all| - |window|..]
    && forall i :: 0 <= i < |all| - |window| ==> now - all[i] > WINDOW
  }

  ghost predicate Tracks(limit: nat, hits: map<string, seq<real>>, history: seq<Request>) {
    forall ip :: IsWindow(WindowOf(hits, ip), Admitted(limit, history, ip), Latest(history))
  }

  lemma KeepsTracking(limit: nat, hits: map<string, seq<real>>, history: seq<Request>, r: Request, window: seq<real>)
    requires Tracks(limit, hits, history) && (history != [] ==> Latest(history) <= r.at)
    requires IsWindow(window, Admitted(limit, history, r.ip), r.at)
    ensures Tracks(limit, hits[r.ip := if Admits(limit, history, r) then window + [r.at] else window], history + [r])
  {
    hide Admitted, CountWithin, Admits;
    var hits' := hits[r.ip := if Admits(limit, history, r) then window + [r.at] else window];
    forall ip ensures IsWindow(WindowOf(hits', ip), Admitted(limit, history + [r], ip), Latest(history + [r])) {
      if ip == r.ip {
        OwnWindowAfter(limit, history, r, window);
      } else {
        assert IsWindow(WindowOf(hits, ip), Admitted(limit, history, ip), Latest(history));
        OtherWindowAfter(limit, history, r, ip, WindowOf(hits, ip));
      }
    }
  }

  lemma OwnWindowAfter(limit: nat, history: seq<Request>, r: Request, window: seq<real>)
    requires IsWindow(window, Admitted(limit, history, r.ip), r.at)
    ensures IsWindow(if Admits(limit, history, r) then window + [r.at] else window,
      Admitted(limit, history + [r], r.ip), r.at)
  {
    AdmittedOneMore(limit, history, r, r.ip);
    WindowGrows(window, Admitted(limit, history, r.ip), r.at);
  }

  lemma OtherWindowAfter(limit: nat, history: seq<Request>, r: Request, ip: string, window: seq<real>)
    requires ip != r.ip && (history != [] ==> Latest(history) <= r.at)
    requires IsWindow(window, Admitted(limit, history, ip), Latest(history))
    ensures IsWindow(window, Admitted(limit, history + [r], ip), r.at)
  {
    var all := Admitted(limit, history, ip);
    AdmittedOneMore(limit, history, r, ip);
    assert all + [] == all;
    WindowAges(window, all, Latest(history), r.at);
  }

  /** After evicting what is too old, the deque's length is the full scan's count. */
  lemma WindowDecides(limit: nat, history: seq<Request>, r: Request, window: seq<real>)
    requires Chronological(history) && (history != [] ==> Latest(history) <= r.at)
    requires IsWindow(window, Admitted(limit, history, r.ip), r.at)
    requires window != [] ==> r.at - window[0] <= WINDOW
    ensures Admits(limit, history, r) <==> |window| < limit
    ensures Chronological(history + [r])
  {
    var all := Admitted(limit, history, r.ip);
    AdmittedAscend(limit, history, r.ip);
    CountSuffix(all, |all| - |window|, r.at);
  }

  lemma WindowAges(window: seq<real>, all: seq<real>, past: real, now: real)
    requires IsWindow(window, all, past) && (all == [] || past <= now)
    ensures IsWindow(window, all, now)
  {
  }

  lemma WindowGrows(window: seq<real>, all: seq<real>, now: real)
    requires IsWindow(window, all, now)
    ensures IsWindow(window + [now], all + [now], now)
    ensures IsWindow(window, all + [], now)
  {
    assert all + [] == all;
    assert (all + [now])[|all| - |window|..] == all[|all| - |window|..] + [now];
  }

  // ----- lemmas about the scan

  lemma AdmittedOneMore(limit: nat, history: seq<Request>, r: Request, ip: string)
    ensures Admitted(limit, history + [r], ip)
      == Admitted(limit, history, ip) + if r.ip == ip && Admits(limit, history, r) then [r.at] else []
  {
    assert (history + [r])[..|history|] == history;
  }

  ghost predicate Ascending(times: seq<real>) {
    forall i, j :: 0 <= i <= j < |times| ==> times[i] <= times[j]
  }

  lemma {:induction false} AdmittedAscend(limit: nat, history: seq<Request>, ip: string)
    requires Chronological(history)
    ensures Ascending(Admitted(limit, history, ip))
    ensures NoLaterThan(Admitted(limit, history, ip), Latest(history))
    ensures history == [] ==> Admitted(limit, history, ip) == []
  {
    if history == [] {
    } else {
      var before, last := history[..|history| - 1], history[|history| - 1];
      AdmittedAscend(limit, before, ip);
      assert before != [] ==> Latest(before) <= last.at;
    }
  }

  ghost predicate NoLaterThan(times: seq<real>, now: real) {
    forall i :: 0 <= i < |times| ==> times[i] <= now
  }

  /** Of ascending times, the window holds all from the first that is young enough. */
  lemma {:induction false} CountSuffix(times: seq<real>, k: nat, now: real)
    requires k <= |times| && Ascending(times)
    requires forall i :: 0 <= i < k ==> now - times[i] > WINDOW
    requires k < |times| ==> now - times[k] <= WINDOW
    ensures CountWithin(times, now) == |times| - k
  {
    if times == [] {
    } else {
      var init := times[..|times| - 1];
      if k == |times| {
        NoneWithin(times, now);
      } else {
        CountSuffix(init, k, now);
      }
    }
  }

  lemma {:induction false} NoneWithin(times: seq<real>, now: real)
    requires forall i :: 0 <= i < |times| ==> now - times[i] > WINDOW
    ensures CountWithin(times, now) == 0
  {
    if times == [] {
    } else {
      NoneWithin(times[..|times| - 1], now);
    }
  }

  /** How many of the times lie in the closed minute that starts at `from`. */
  function CountFrom(times: seq<real>, from: real): nat {
    if times == [] then 0
    else
      var t := times[|times| - 1];
      CountFrom(times[..|times| - 1], from) + if from <= t <= from + 60.0 then 1 else 0
  }

  /** No closed minute, wherever it starts, holds more than `limit` admissions of one client. */
  lemma {:induction false} AnyMinuteIsBounded(limit: nat, history: seq<Request>, ip: string, from: real)
    requires limit >= 1 && Chronological(history)
    ensures CountFrom(Admitted(limit, history, ip), from) <= limit
  {
    if history == [] {
    } else {
      var before, last := history[..|history| - 1], history[|history| - 1];
      AnyMinuteIsBounded(limit, before, ip, from);
      var times := Admitted(limit, before, ip);
      if last.ip == ip && Admits(limit, before, last) {
        assert (times + [last.at])[..|times|] == times;
        if from <= last.at <= from + WINDOW {
          MinuteInsideWindow(times, from, last.at);
        }
      } else {
        assert times + [] == times;
      }
    }
  }

  lemma {:induction false} MinuteInsideWindow(times: seq<real>, from: real, now: real)
    requires now <= from + WINDOW
    ensures CountFrom(times, from) <= CountWithin(times, now)
  {
    if times == [] {
    } else {
      MinuteInsideWindow(times[..|times| - 1], from, now);
    }
  }

  function OnlyFrom(history: seq<Request>, ip: string): seq<Request> {
    if history == [] then []
    else
      var last := history[|history| - 1];
      OnlyFrom(history[..|history| - 1], ip) + if last.ip == ip then [last] else []
  }

  /** A client's answers are those it would get if nobody else had called. */
  lemma {:induction false} ClientsAreIndependent(limit: nat, history: seq<Request>, r: Request)
    ensures Admitted(limit, history, r.ip) == Admitted(limit, OnlyFrom(history, r.ip), r.ip)
    ensures Admits(limit, history, r) == Admits(limit, OnlyFrom(history, r.ip), r)
  {
    if history == [] {
    } else {
      var before, last := history[..|history| - 1], history[|history| - 1];
      ClientsAreIndependent(limit, before, r);
      if last.ip == r.ip {
        var own := OnlyFrom(before, r.ip);
        assert (own + [last])[..|own|] == own;
        ClientsAreIndependent(limit, before, last);
      } else {
        assert OnlyFrom(before, r.ip) + [] == OnlyFrom(before, r.ip);
        assert Admitted(limit, before, r.ip) + [] == Admitted(limit, before, r.ip);
      }
    }
  }

  /** The scan is the rule itself: refused exactly when `limit` admissions lie in the last minute. */
  lemma RefusedIffWindowFull(limit: nat, history: seq<Request>, r: Request)
    requires limit >= 1 && Chronological(history) && (history != [] ==> Latest(history) <= r.at)
    ensures !Admits(limit, history, r) <==> CountFrom(Admitted(limit, history, r.ip), r.at - 60.0) == limit
  {
    var times, from := Admitted(limit, history, r.ip), r.at - WINDOW;
    AnyMinuteIsBounded(limit, history, r.ip, from);
    AdmittedAscend(limit, history, r.ip);
    SameCount(times, from, r.at);
  }

  lemma {:induction false} SameCount(times: seq<real>, from: real, now: real)
    requires from == now - WINDOW
    requires NoLaterThan(times, now)
    ensures CountFrom(times, from) == CountWithin(times, now)
  {
    if times == [] {
    } else {
      SameCount(times[..|times| - 1], from, now);
    }
  }
}
