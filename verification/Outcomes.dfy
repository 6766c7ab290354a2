/** Replaying a signal against the bars that followed it (scripts/historical_strategy_audit.py, `_outcome_for_signal`). */
module Outcomes {
  import opened Prelude

  /** High and low of one bar; 0 stands for a value that could not be read. */
  datatype Candle = Candle(high: real, low: real)

  datatype Trade = Trade(isLong: bool, entryA: real, entryB: real, stop: real, tp1: real)

  datatype Outcome = NoFuture | EntryNotTouched | EntryNoExit | SlHit | Tp1Hit

  predicate Usable(c: Candle) {
    c.high > 0.0 && c.low > 0.0
  }

  predicate TouchesEntry(t: Trade, c: Candle) {
    Usable(c) && c.low <= Max(t.entryA, t.entryB) && c.high >= Min(t.entryA, t.entryB)
  }

  predicate TouchesStop(t: Trade, c: Candle) {
    if t.isLong then c.low <= t.stop else c.high >= t.stop
  }

  predicate TouchesTarget(t: Trade, c: Candle) {
    if t.isLong then c.high >= t.tp1 else c.low <= t.tp1
  }

  /** The first n bars, at least one. */
  function Horizon(future: seq<Candle>, horizonBars: int): seq<Candle> {
    var n := if horizonBars < 1 then 1 else horizonBars;
    if n < |future| then future[..n] else future
  }

  // ----- the rule, stated over events

  /** Bar i is the first to touch the entry zone. */
  ghost predicate EntersAt(t: Trade, cs: seq<Candle>, i: int) {
    0 <= i < |cs| && TouchesEntry(t, cs[i]) && forall k :: 0 <= k < i ==> !TouchesEntry(t, cs[k])
  }

  predicate Exits(t: Trade, c: Candle) {
    Usable(c) && (TouchesStop(t, c) || TouchesTarget(t, c))
  }

  /** Bar j is the first from the entry bar on to touch stop or target. */
  ghost predicate ExitsAt(t: Trade, cs: seq<Candle>, j: int) {
    exists i :: 0 <= i <= j && EntersAt(t, cs, i) && j < |cs| && Exits(t, cs[j])
      && forall k :: i <= k < j ==> !Exits(t, cs[k])
  }

  /** First event wins; on one bar the stop wins over the target. */
  ghost predicate FirstEvent(t: Trade, cs: seq<Candle>, o: Outcome) {
    match o
    case NoFuture => cs == []
    case EntryNotTouched => cs != [] && forall i :: 0 <= i < |cs| ==> !TouchesEntry(t, cs[i])
    case EntryNoExit => (exists i :: EntersAt(t, cs, i)) && !(exists j :: ExitsAt(t, cs, j))
    case SlHit => exists j :: ExitsAt(t, cs, j) && TouchesStop(t, cs[j])
    case Tp1Hit => exists j :: ExitsAt(t, cs, j) && !TouchesStop(t, cs[j])
  }

  // ----- the scan

  /** The loop from bar i on. */
  function Scan(t: Trade, cs: seq<Candle>, i: nat, entered: bool): Outcome
    requires i <= |cs|
    decreases |cs| - i
  {
    if i == |cs| then (if entered then EntryNoExit else EntryNotTouched)
    else
      var seen := entered || TouchesEntry(t, cs[i]);
      if Usable(cs[i]) && seen && TouchesStop(t, cs[i]) then SlHit
      else if Usable(cs[i]) && seen && TouchesTarget(t, cs[i]) then Tp1Hit
      else Scan(t, cs, i + 1, seen)
  }

  function OutcomeOf(t: Trade, future: seq<Candle>, horizonBars: int): Outcome {
    if future == [] then NoFuture else Scan(t, Horizon(future, horizonBars), 0, false)
  }

  method OutcomeForSignal(t: Trade, future: seq<Candle>, horizonBars: int) returns (o: Outcome)
    ensures o == OutcomeOf(t, future, horizonBars)
    ensures FirstEvent(t, Horizon(future, horizonBars), o)
  {
    FirstEventRule(t, future, horizonBars);
    if future == [] {
      return NoFuture;
    }
    var rows := Horizon(future, horizonBars);
    var entryLow, entryHigh := Min(t.entryA, t.entryB), Max(t.entryA, t.entryB);
    var entrySeen := false;
    for i := 0 to |rows|
      invariant Scan(t, rows, i, entrySeen) == OutcomeOf(t, future, horizonBars)
    {
      var high, low := rows[i].high, rows[i].low;
      if high <= 0.0 || low <= 0.0 {
        continue;
      }
      if !entrySeen {
        entrySeen := low <= entryHigh && high >= entryLow;
        if !entrySeen {
          continue;
        }
      }
      if t.isLong {
        if low <= t.stop {
          return SlHit;
        }
        if high >= t.tp1 {
          return Tp1Hit;
        }
      } else {
        if high >= t.stop {
          return SlHit;
        }
        if low <= t.tp1 {
          return Tp1Hit;
        }
      }
    }
    o := if entrySeen then EntryNoExit else EntryNotTouched;
  }

  // ----- the scan follows the rule

  lemma EntryIsUnique(t: Trade, cs: seq<Candle>, i: int, j: int)
    requires EntersAt(t, cs, i) && EntersAt(t, cs, j)
    ensures i == j
  {
  }

  lemma NoExitAtAll(t: Trade, cs: seq<Candle>, entry: int)
    requires EntersAt(t, cs, entry) && forall k :: entry <= k < |cs| ==> !Exits(t, cs[k])
    ensures forall j :: !ExitsAt(t, cs, j)
  {
    forall e | EntersAt(t, cs, e) ensures e == entry {
      EntryIsUnique(t, cs, e, entry);
    }
  }

  lemma {:induction false} ScanBeforeEntry(t: Trade, cs: seq<Candle>, i: nat)
    requires i <= |cs| && cs != [] && forall k :: 0 <= k < i ==> !TouchesEntry(t, cs[k])
    ensures FirstEvent(t, cs, Scan(t, cs, i, false))
    decreases |cs| - i
  {
    if i == |cs| {
    } else {
      if TouchesEntry(t, cs[i]) {
        assert EntersAt(t, cs, i);
        ScanAfterEntry(t, cs, i, i);
        assert Scan(t, cs, i, false) == Scan(t, cs, i, true);
      } else {
        ScanBeforeEntry(t, cs, i + 1);
      }
    }
  }

  lemma {:induction false} ScanAfterEntry(t: Trade, cs: seq<Candle>, entry: int, i: nat)
    requires i <= |cs| && EntersAt(t, cs, entry) && entry <= i && forall k :: entry <= k < i ==> !Exits(t, cs[k])
    ensures FirstEvent(t, cs, Scan(t, cs, i, true))
    decreases |cs| - i
  {
    if i == |cs| {
      NoExitAtAll(t, cs, entry);
    } else if Exits(t, cs[i]) {
      assert ExitsAt(t, cs, i);
    } else {
      ScanAfterEntry(t, cs, entry, i + 1);
    }
  }

  lemma FirstEventRule(t: Trade, future: seq<Candle>, horizonBars: int)
    ensures FirstEvent(t, Horizon(future, horizonBars), OutcomeOf(t, future, horizonBars))
  {
    if future != [] {
      ScanBeforeEntry(t, Horizon(future, horizonBars), 0);
    }
  }

  // ----- the same in prices

  /** As many of the first bars as the horizon says, at least one, at most all. */
  lemma HorizonIsPrefix(future: seq<Candle>, horizonBars: int)
    ensures var rows := Horizon(future, horizonBars);
      && rows <= future
      && |rows| <= (if horizonBars < 1 then 1 else horizonBars)
      && (rows == future || |rows| == if horizonBars < 1 then 1 else horizonBars)
  {
  }

  /** The bar can be read and its range meets the zone, whichever way round its edges are given. */
  predicate MeetsZone(t: Trade, c: Candle) {
    && c.high > 0.0 && c.low > 0.0
    && (c.low <= t.entryA || c.low <= t.entryB) && (c.high >= t.entryA || c.high >= t.entryB)
  }

  /** The bar can be read and stays short of both levels. */
  predicate Undecided(t: Trade, c: Candle) {
    c.high > 0.0 && c.low > 0.0 ==>
      if t.isLong then c.low > t.stop && c.high < t.tp1 else c.high < t.stop && c.low > t.tp1
  }

  /** The zone is first met at e, and from there j is the first readable bar to reach a level. */
  ghost predicate DecidedAt(t: Trade, rows: seq<Candle>, e: int, j: int) {
    && 0 <= e <= j < |rows|
    && MeetsZone(t, rows[e]) && (forall k :: 0 <= k < e ==> !MeetsZone(t, rows[k]))
    && !Undecided(t, rows[j]) && (forall k :: e <= k < j ==> Undecided(t, rows[k]))
  }

  predicate ReachesStop(t: Trade, c: Candle) {
    (t.isLong && c.low <= t.stop) || (!t.isLong && c.high >= t.stop)
  }

  /** Some first deciding bar does, or does not, reach the stop. */
  ghost predicate Decides(t: Trade, rows: seq<Candle>, atStop: bool) {
    exists e, j :: DecidedAt(t, rows, e, j) && ReachesStop(t, rows[j]) == atStop
  }

  /** The outcome, in prices: which level the first deciding bar reached, the stop first. */
  lemma OutcomeInPrices(t: Trade, future: seq<Candle>, horizonBars: int)
    ensures var rows, o := Horizon(future, horizonBars), OutcomeOf(t, future, horizonBars);
      && (o == SlHit <==> Decides(t, rows, true))
      && (o == Tp1Hit <==> Decides(t, rows, false))
      && (o == NoFuture <==> future == [])
      && (o == EntryNotTouched <==> future != [] && forall k :: 0 <= k < |rows| ==> !MeetsZone(t, rows[k]))
  {
    hide FirstEvent, Decides, MeetsZone;
    FirstEventRule(t, future, horizonBars);
    InPrices(t, Horizon(future, horizonBars), OutcomeOf(t, future, horizonBars));
  }

  lemma InPrices(t: Trade, rows: seq<Candle>, o: Outcome)
    requires FirstEvent(t, rows, o)
    ensures (o == SlHit <==> Decides(t, rows, true)) && (o == Tp1Hit <==> Decides(t, rows, false))
    ensures o == NoFuture ==> rows == []
    ensures o == EntryNotTouched <==> o != NoFuture && forall k :: 0 <= k < |rows| ==> !MeetsZone(t, rows[k])
  {
    NeverMeets(t, rows, o);
    DecidesAtExit(t, rows, true);
    DecidesAtExit(t, rows, false);
    forall i, j | ExitsAt(t, rows, i) && ExitsAt(t, rows, j) ensures i == j {
      ExitIsUnique(t, rows, i, j);
    }
    hide Decides, ExitsAt, EntersAt, MeetsZone, TouchesEntry;
  }

  lemma DecidesAtExit(t: Trade, rows: seq<Candle>, atStop: bool)
    ensures Decides(t, rows, atStop) <==> exists j :: ExitsAt(t, rows, j) && TouchesStop(t, rows[j]) == atStop
  {
    if Decides(t, rows, atStop) {
      var e, j :| DecidedAt(t, rows, e, j) && ReachesStop(t, rows[j]) == atStop;
      DecidedIsExit(t, rows, j);
    }
    if j :| ExitsAt(t, rows, j) && TouchesStop(t, rows[j]) == atStop {
      DecidedIsExit(t, rows, j);
      var e :| DecidedAt(t, rows, e, j);
    }
  }

  lemma NeverMeets(t: Trade, rows: seq<Candle>, o: Outcome)
    requires FirstEvent(t, rows, o)
    ensures o == EntryNotTouched <==> o != NoFuture && forall k :: 0 <= k < |rows| ==> !MeetsZone(t, rows[k])
    ensures o in {NoFuture, EntryNotTouched, EntryNoExit} ==> forall j :: !ExitsAt(t, rows, j)
  {
    forall c: Candle ensures MeetsZone(t, c) <==> TouchesEntry(t, c) {
    }
    hide TouchesEntry, MeetsZone, Exits;
    if o in {SlHit, Tp1Hit} {
      var j :| ExitsAt(t, rows, j);
      var i :| 0 <= i <= j && EntersAt(t, rows, i);
      assert TouchesEntry(t, rows[i]);
    } else if o == EntryNoExit {
      var i :| EntersAt(t, rows, i);
      assert TouchesEntry(t, rows[i]);
    }
  }

  lemma DecidedIsExit(t: Trade, rows: seq<Candle>, j: int)
    ensures ExitsAt(t, rows, j) <==> exists e :: DecidedAt(t, rows, e, j)
  {
    forall c: Candle ensures (MeetsZone(t, c) <==> TouchesEntry(t, c)) && (Undecided(t, c) <==> !Exits(t, c)) {
    }
    hide TouchesEntry, MeetsZone, Undecided, Exits;
    if ExitsAt(t, rows, j) {
      var i :| 0 <= i <= j && EntersAt(t, rows, i) && j < |rows| && Exits(t, rows[j])
        && forall k :: i <= k < j ==> !Exits(t, rows[k]);
      assert DecidedAt(t, rows, i, j);
    }
    if e :| DecidedAt(t, rows, e, j) {
      assert EntersAt(t, rows, e);
    }
  }

  lemma ExitIsUnique(t: Trade, rows: seq<Candle>, i: int, j: int)
    requires ExitsAt(t, rows, i) && ExitsAt(t, rows, j)
    ensures i == j
  {
    hide TouchesEntry, Exits;
    var e :| 0 <= e <= i && EntersAt(t, rows, e) && forall k :: e <= k < i ==> !Exits(t, rows[k]);
    var f :| 0 <= f <= j && EntersAt(t, rows, f) && forall k :: f <= k < j ==> !Exits(t, rows[k]);
    EntryIsUnique(t, rows, e, f);
  }

  // ----- looking further, and looser levels

  lemma {:induction false} ScanOfLonger(t: Trade, short: seq<Candle>, long: seq<Candle>, i: nat, entered: bool)
    requires i <= |short| && short <= long
    ensures Scan(t, short, i, entered) in {SlHit, Tp1Hit} ==> Scan(t, long, i, entered) == Scan(t, short, i, entered)
    decreases |short| - i
  {
    if i == |short| {
    } else {
      ScanOfLonger(t, short, long, i + 1, entered || TouchesEntry(t, short[i]));
    }
  }

  /** A decided outcome does not change when more bars are looked at. */
  lemma LongerHorizonKeepsDecision(t: Trade, future: seq<Candle>, h: int, h': int)
    requires h <= h' && OutcomeOf(t, future, h) in {SlHit, Tp1Hit}
    ensures OutcomeOf(t, future, h') == OutcomeOf(t, future, h)
  {
    ScanOfLonger(t, Horizon(future, h), Horizon(future, h'), 0, false);
  }

  /** Same side and zone, stop no nearer, target no farther. */
  predicate Looser(t: Trade, u: Trade) {
    && u.isLong == t.isLong && u.entryA == t.entryA && u.entryB == t.entryB
    && if t.isLong then u.stop <= t.stop && u.tp1 <= t.tp1 else u.stop >= t.stop && u.tp1 >= t.tp1
  }

  lemma {:induction false} ScanOfLooser(t: Trade, u: Trade, cs: seq<Candle>, i: nat, entered: bool)
    requires i <= |cs| && Looser(t, u)
    ensures Scan(t, cs, i, entered) == Tp1Hit ==> Scan(u, cs, i, entered) == Tp1Hit
    decreases |cs| - i
  {
    if i == |cs| {
    } else {
      ScanOfLooser(t, u, cs, i + 1, entered || TouchesEntry(t, cs[i]));
    }
  }

  /** A stop moved away or a target moved nearer never takes a win back. */
  lemma LooserKeepsWins(t: Trade, u: Trade, future: seq<Candle>, horizonBars: int)
    requires Looser(t, u) && OutcomeOf(t, future, horizonBars) == Tp1Hit
    ensures OutcomeOf(u, future, horizonBars) == Tp1Hit
  {
    ScanOfLooser(t, u, Horizon(future, horizonBars), 0, false);
  }
}
