/** Paging through an exchange's price bars (scripts/historical_strategy_audit.py, `_fetch_klines_range`). */
module Klines {
  datatype OpenTime = OpenTime(ms: int)

  /** One entry of a page; only well-formed ones are rows the code keeps. */
  datatype Bar = Bar(open: OpenTime, wellFormed: bool)

  const LIMIT := 1500

  /** The exchange lists its bars by open time, at least one interval apart. */
  ghost predicate Spaced(bars: seq<Bar>, step: int) {
    step > 0 && forall i, j :: 0 <= i < j < |bars| ==> bars[i].open.ms + step <= bars[j].open.ms
  }

  predicate InRange(b: Bar, from: int, to: int) {
    from <= b.open.ms <= to
  }

  /** The answer to one request: the first `limit` bars that open in the closed range. */
  function Page(bars: seq<Bar>, from: int, to: int, limit: nat): (p: seq<Bar>)
    ensures |p| <= limit
    ensures forall b :: b in p ==> b in bars && InRange(b, from, to)
  {
    if bars == [] || limit == 0 then []
    else if InRange(bars[0], from, to) then [bars[0]] + Page(bars[1..], from, to, limit - 1)
    else Page(bars[1..], from, to, limit)
  }

  function Rows(p: seq<Bar>): (r: seq<Bar>)
    ensures |r| <= |p|
    ensures forall b :: b in r <==> b in p && b.wellFormed
  {
    if p == [] then [] else (if p[0].wellFormed then [p[0]] else []) + Rows(p[1..])
  }

  ghost predicate Ascending(bars: seq<Bar>) {
    forall i, j :: 0 <= i < j < |bars| ==> bars[i].open.ms < bars[j].open.ms
  }

  lemma TailIsLater(bars: seq<Bar>, step: int)
    requires bars != [] && Spaced(bars, step)
    ensures Spaced(bars[1..], step) && forall b :: b in bars[1..] ==> bars[0].open.ms < b.open.ms
  {
    forall b | b in bars[1..] ensures bars[0].open.ms < b.open.ms {
      var i :| 0 <= i < |bars| - 1 && bars[1..][i] == b;
      assert bars[i + 1] == b;
    }
  }

  lemma {:induction false} PageAscends(bars: seq<Bar>, step: int, from: int, to: int, limit: nat)
    requires Spaced(bars, step)
    ensures Ascending(Page(bars, from, to, limit))
  {
    if bars == [] || limit == 0 {
    } else {
      TailIsLater(bars, step);
      var rest := bars[1..];
      if InRange(bars[0], from, to) {
        PageAscends(rest, step, from, to, limit - 1);
        ConsAscends(bars[0], Page(rest, from, to, limit - 1));
      } else {
        PageAscends(rest, step, from, to, limit);
      }
    }
  }

  lemma ConsAscends(first: Bar, tail: seq<Bar>)
    requires Ascending(tail) && forall b :: b in tail ==> first.open.ms < b.open.ms
    ensures Ascending([first] + tail)
  {
    forall i | 0 <= i < |tail| ensures first.open.ms < tail[i].open.ms {
      assert tail[i] in tail;
    }
  }

  /** A page leaves out an eligible bar only if it is full, and then only bars after its last one. */
  lemma {:induction false} PageIsPrefix(bars: seq<Bar>, step: int, from: int, to: int, limit: nat, b: Bar)
    requires Spaced(bars, step) && b in bars && InRange(b, from, to) && b !in Page(bars, from, to, limit)
    ensures var p := Page(bars, from, to, limit);
      |p| == limit && forall x :: x in p ==> x.open.ms < b.open.ms
  {
    if limit == 0 {
    } else {
      TailIsLater(bars, step);
      var rest := bars[1..];
      if InRange(bars[0], from, to) {
        assert b in rest;
        PageIsPrefix(rest, step, from, to, limit - 1, b);
      } else {
        PageIsPrefix(rest, step, from, to, limit, b);
      }
    }
  }

  lemma {:induction false} RowsAscend(p: seq<Bar>)
    requires Ascending(p)
    ensures Ascending(Rows(p))
  {
    if p == [] {
    } else {
      RowsAscend(p[1..]);
      if p[0].wellFormed {
        forall b | b in p[1..] ensures p[0].open.ms < b.open.ms {
          var i :| 0 <= i < |p| - 1 && p[1..][i] == b;
          assert p[i + 1] == b;
        }
        ConsAscends(p[0], Rows(p[1..]));
      }
    }
  }

  /** Bars an interval apart: what opens before last + step opens no later than last. */
  lemma NoneBetween(bars: seq<Bar>, step: int, last: Bar, b: Bar)
    requires Spaced(bars, step) && last in bars && b in bars && b.open.ms < last.open.ms + step
    ensures b.open.ms <= last.open.ms
  {
    var i :| 0 <= i < |bars| && bars[i] == last;
    var j :| 0 <= j < |bars| && bars[j] == b;
  }

  /** What has been collected once the cursor stands at `cursor`. */
  ghost predicate Collected(bars: seq<Bar>, rows: seq<Bar>, start: int, end: int, cursor: int) {
    && Ascending(rows)
    && (forall b :: b in rows ==> b in bars && b.wellFormed && InRange(b, start, end) && b.open.ms < cursor)
    && (forall b :: b in bars && b.wellFormed && InRange(b, start, end) && b.open.ms < cursor ==> b in rows)
  }

  lemma CollectPage(bars: seq<Bar>, step: int, rows: seq<Bar>, start: int, end: int, cursor: int, good: seq<Bar>, next: int)
    requires Spaced(bars, step) && start <= cursor && Collected(bars, rows, start, end, cursor)
    requires good == Rows(Page(bars, cursor, end, LIMIT)) != [] && next == good[|good| - 1].open.ms + step
    ensures next > cursor && Collected(bars, rows + good, start, end, next)
  {
    var last := good[|good| - 1];
    assert last in good;
    PageAscends(bars, step, cursor, end, LIMIT);
    RowsAscend(Page(bars, cursor, end, LIMIT));
    JoinAscends(rows, good, cursor);
    LastIsLatest(good);
    forall b | b in bars && b.wellFormed && InRange(b, start, end) && b.open.ms < next ensures b in rows + good {
      NoneBetween(bars, step, last, b);
      if b.open.ms >= cursor && b !in good {
        PageIsPrefix(bars, step, cursor, end, LIMIT, b);
      }
    }
  }

  lemma JoinAscends(rows: seq<Bar>, good: seq<Bar>, cursor: int)
    requires Ascending(rows) && Ascending(good)
    requires forall b :: b in rows ==> b.open.ms < cursor
    requires forall b :: b in good ==> b.open.ms >= cursor
    ensures Ascending(rows + good)
  {
    forall i, j | 0 <= i < |rows| && 0 <= j < |good| ensures rows[i].open.ms < good[j].open.ms {
      assert rows[i] in rows && good[j] in good;
    }
  }

  lemma LastIsLatest(good: seq<Bar>)
    requires good != [] && Ascending(good)
    ensures forall b :: b in good ==> b.open.ms <= good[|good| - 1].open.ms
  {
  }

  /** Every well-formed bar of the range that opens before a returned one is returned too. */
  ghost predicate GapFree(bars: seq<Bar>, rows: seq<Bar>, start: int, end: int) {
    forall b, r :: b in bars && b.wellFormed && InRange(b, start, end) && r in rows && b.open.ms <= r.open.ms ==> b in rows
  }

  ghost predicate AllWellFormed(bars: seq<Bar>, start: int, end: int) {
    forall b :: b in bars && InRange(b, start, end) ==> b.wellFormed
  }

  /** What the caller gets: rows of the range in ascending order, without gaps, and all of them if none is malformed. */
  ghost predicate Answers(bars: seq<Bar>, start: int, end: int, rows: seq<Bar>) {
    && Ascending(rows)
    && (forall b :: b in rows ==> b in bars && b.wellFormed && InRange(b, start, end))
    && GapFree(bars, rows, start, end)
    && (AllWellFormed(bars, start, end) ==> forall b :: b in bars && start <= b.open.ms < end ==> b in rows)
  }

  method FetchPages(bars: seq<Bar>, step: int, start: int, end: int) returns (rows: seq<Bar>)
    requires Spaced(bars, step)
    ensures Answers(bars, start, end, rows)
  {
    rows := [];
    var cursor := start;
    while cursor < end
      invariant start <= cursor && Collected(bars, rows, start, end, cursor)
      decreases end - cursor
    {
      var payload := Page(bars, cursor, end, LIMIT);
      ShortPageIsAll(bars, step, cursor, end);
      if payload == [] {
        break;
      }
      var pageRows := Rows(payload);
      WellFormedPage(payload);
      if pageRows == [] {
        break;
      }
      var lastOpen := pageRows[|pageRows| - 1].open.ms;
      var nextCursor := lastOpen + step;
      CollectPage(bars, step, rows, start, end, cursor, pageRows, nextCursor);
      rows := rows + pageRows;
      if nextCursor <= cursor {
        break;
      }
      cursor := nextCursor;
      if |pageRows| < LIMIT {
        break;
      }
    }
  }

  lemma ShortPageIsAll(bars: seq<Bar>, step: int, from: int, to: int)
    requires Spaced(bars, step)
    ensures var p := Page(bars, from, to, LIMIT);
      |p| < LIMIT ==> forall b :: b in bars && InRange(b, from, to) ==> b in p
  {
    var p := Page(bars, from, to, LIMIT);
    forall b | b in bars && InRange(b, from, to) && b !in p ensures |p| == LIMIT {
      PageIsPrefix(bars, step, from, to, LIMIT, b);
    }
  }

  /** A page none of whose entries is malformed loses none of them. */
  lemma {:induction false} WellFormedPage(p: seq<Bar>)
    ensures (forall b :: b in p ==> b.wellFormed) ==> |Rows(p)| == |p|
  {
    if p == [] {
    } else {
      assert forall b :: b in p[1..] ==> b in p;
      WellFormedPage(p[1..]);
    }
  }

  // ----- deduplication and sorting

  predicate IsEarliest(k: OpenTime, keys: set<OpenTime>) {
    k in keys && forall other :: other in keys ==> k.ms <= other.ms
  }

  lemma {:induction false} EarliestExists(keys: set<OpenTime>)
    requires keys != {}
    ensures exists k :: IsEarliest(k, keys)
    decreases keys
  {
    var a :| a in keys;
    var rest := keys - {a};
    assert keys == rest + {a};
    if rest == {} {
      assert IsEarliest(a, keys);
    } else {
      EarliestExists(rest);
      var k :| IsEarliest(k, rest);
      assert IsEarliest(if a.ms < k.ms then a else k, keys);
    }
  }

  lemma SmallestRemoved(k: OpenTime, keys: set<OpenTime>)
    requires IsEarliest(k, keys)
    ensures forall other :: other in keys - {k} ==> k.ms < other.ms
    ensures forall other :: IsEarliest(other, keys) ==> other == k
  {
  }

  /** Python's `sorted` on the keys of the dictionary. */
  function SortedKeys(keys: set<OpenTime>): (r: seq<OpenTime>)
    ensures forall k :: k in r <==> k in keys
    ensures forall i, j :: 0 <= i < j < |r| ==> r[i].ms < r[j].ms
    decreases keys
  {
    if keys == {} then []
    else
      EarliestExists(keys);
      var k :| k in keys && IsEarliest(k, keys);
      SmallestRemoved(k, keys);
      [k] + SortedKeys(keys - {k})
  }

  method FetchKlinesRange(bars: seq<Bar>, step: int, start: int, end: int) returns (ordered: seq<Bar>)
    requires Spaced(bars, step)
    ensures Answers(bars, start, end, ordered)
  {
    hide Answers;
    var rows := FetchPages(bars, step, start, end);
    var dedup := Deduplicate(rows);
    ordered := InKeyOrder(dedup);
    SameAnswer(bars, start, end, rows, ordered, dedup);
  }

  /** Keyed by open time, the last row of each winning. */
  method Deduplicate(rows: seq<Bar>) returns (dedup: map<OpenTime, Bar>)
    ensures forall k :: k in dedup ==> dedup[k] in rows && dedup[k].open == k
    ensures forall b :: b in rows ==> b.open in dedup
  {
    dedup := map[];
    for i := 0 to |rows|
      invariant forall k :: k in dedup ==> dedup[k] in rows && dedup[k].open == k
      invariant forall j :: 0 <= j < i ==> rows[j].open in dedup
    {
      dedup := dedup[rows[i].open := rows[i]];
    }
  }

  method InKeyOrder(dedup: map<OpenTime, Bar>) returns (ordered: seq<Bar>)
    requires forall k :: k in dedup ==> dedup[k].open == k
    ensures Ascending(ordered) && forall b :: b in ordered <==> b.open in dedup && dedup[b.open] == b
  {
    var keys := SortedKeys(dedup.Keys);
    ordered := [];
    for i := 0 to |keys|
      invariant |ordered| == i && forall j :: 0 <= j < i ==> ordered[j].open == keys[j]
      invariant forall j :: 0 <= j < i ==> ordered[j].open in dedup && dedup[ordered[j].open] == ordered[j]
    {
      assert keys[i] in keys;
      ordered := ordered + [dedup[keys[i]]];
    }
    forall b: Bar | b.open in dedup && dedup[b.open] == b ensures b in ordered {
      assert b.open in keys;
      var j :| 0 <= j < |keys| && keys[j] == b.open;
      assert ordered[j] == b;
    }
  }

  lemma SameAnswer(bars: seq<Bar>, start: int, end: int, rows: seq<Bar>, ordered: seq<Bar>, dedup: map<OpenTime, Bar>)
    requires Answers(bars, start, end, rows) && Ascending(ordered)
    requires forall b :: b in ordered <==> b.open in dedup && dedup[b.open] == b
    requires forall k :: k in dedup ==> dedup[k] in rows && dedup[k].open == k
    requires forall b :: b in rows ==> b.open in dedup
    ensures Answers(bars, start, end, ordered)
  {
    forall b: Bar ensures b in ordered <==> b in rows {
      if b in rows {
        OneRowATime(rows, b, dedup[b.open]);
      }
    }
  }

  lemma OneRowATime(rows: seq<Bar>, b: Bar, c: Bar)
    requires Ascending(rows) && b in rows && c in rows && b.open == c.open
    ensures b == c
  {
    var i :| 0 <= i < |rows| && rows[i] == b;
    var j :| 0 <= j < |rows| && rows[j] == c;
  }
}
