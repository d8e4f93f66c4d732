/** Queries over a database: which rows are replayed for a tick range, and what comes back for requested ticks. */
module Retriever {
  import opened Bytes
  import opened Records
  import opened Wire
  import opened Chain
  import opened Runs
  import opened Database
  import opened Lookback
  import opened Viewer
  import opened BlobIterator

  ghost predicate RowsIncrease(rows: seq<Row>)
  {
    forall i, j :: 0 <= i < j < |rows| ==> rows[i].time < rows[j].time
  }

  ghost predicate TicksIncrease(samples: seq<Sample>)
  {
    forall i, j :: 0 <= i < j < |samples| ==> samples[i].tick < samples[j].tick
  }

  /** bisect_right on the rows' times. */
  function UpTo(rows: seq<Row>, t: nat): (n: nat)
    ensures n <= |rows|
    ensures n > 0 ==> rows[n - 1].time <= t
    ensures forall i :: n <= i < |rows| ==> rows[i].time > t
  {
    var times := seq(|rows|, i requires 0 <= i < |rows| => rows[i].time);
    assert forall i :: 0 <= i < |rows| ==> rows[i].time == times[i];
    Bisect(times, t)
  }

  /** bisect_right on samples. */
  function SamplesUpTo(s: seq<Sample>, t: nat): (n: nat)
    ensures n <= |s|
    ensures n > 0 ==> s[n - 1].tick <= t
    ensures forall i :: n <= i < |s| ==> s[i].tick > t
  {
    var times := seq(|s|, i requires 0 <= i < |s| => s[i].tick);
    assert forall i :: 0 <= i < |s| ==> s[i].tick == times[i];
    Bisect(times, t)
  }

  // ----- row selection -----

  /** SELECT Id ... WHERE Timestamp <= t: IDs count the rows in the order of insertion. */
  function IdsUpTo(rows: seq<Row>, t: nat): (ids: seq<nat>)
    ensures |ids| <= |rows| && forall k :: 0 <= k < |ids| ==> ids[k] < |rows|
  {
    if rows == [] then []
    else IdsUpTo(Init(rows), t) + if Last(rows).time <= t then [|rows| - 1] else []
  }

  function RowsUpTo(rows: seq<Row>, t: nat): seq<Row>
  {
    if rows == [] then []
    else RowsUpTo(Init(rows), t) + if Last(rows).time <= t then [Last(rows)] else []
  }

  /** _fetch_lookback_rows: warm up with the last hb rows at or before lo, then go on up to hi. */
  function FetchLookback(rows: seq<Row>, lo: nat, hi: nat, hb: nat): seq<Row>
    requires hb >= 1
  {
    var ids := IdsUpTo(rows, lo);
    if ids == [] then [] else RowsUpTo(rows[ids[WarmupStart(|ids|, hb)]..], hi)
  }

  lemma {:induction false} IdsAreFirst(rows: seq<Row>, t: nat)
    requires RowsIncrease(rows)
    ensures var ids := IdsUpTo(rows, t); |ids| == UpTo(rows, t) && forall k :: 0 <= k < |ids| ==> ids[k] == k
  {
    if rows != [] {
      IdsAreFirst(Init(rows), t);
      if Last(rows).time <= t {
        assert forall i :: 0 <= i < |rows| ==> rows[i].time <= t;
      }
    }
  }

  lemma InitIncreases(rows: seq<Row>)
    requires RowsIncrease(rows) && rows != []
    ensures RowsIncrease(Init(rows))
    ensures Init(rows) != [] ==> Last(Init(rows)).time < Last(rows).time
  {
  }

  lemma {:induction false} RowsAreFirst(rows: seq<Row>, t: nat)
    requires RowsIncrease(rows)
    ensures RowsUpTo(rows, t) == rows[..UpTo(rows, t)]
  {
    if rows != [] {
      hide UpTo, RowsIncrease;
      var pre, n := Init(rows), UpTo(rows, t);
      InitIncreases(rows);
      RowsAreFirst(pre, t);
      if Last(rows).time <= t {
        UniqueUpTo(pre, t, |pre|);
        UniqueUpTo(rows, t, |rows|);
        Whole(pre);
        Whole(rows);
      } else {
        UniqueUpTo(pre, t, n);
        assert rows[..n] == pre[..n];
      }
    }
  }

  lemma Whole(rows: seq<Row>)
    ensures rows[..|rows|] == rows
    ensures rows != [] ==> Init(rows) + [Last(rows)] == rows
  {
  }

  lemma FetchIsWarmup(rows: seq<Row>, lo: nat, hi: nat, hb: nat)
    requires RowsIncrease(rows) && hb >= 1 && lo <= hi
    ensures UpTo(rows, lo) <= UpTo(rows, hi)
    ensures FetchLookback(rows, lo, hi, hb) ==
            if UpTo(rows, lo) == 0 then [] else rows[WarmupStart(UpTo(rows, lo), hb)..UpTo(rows, hi)]
  {
    hide UpTo, IdsUpTo, RowsUpTo;
    IdsAreFirst(rows, lo);
    var p, q := UpTo(rows, lo), UpTo(rows, hi);
    if p > 0 { SliceUpTo(rows, WarmupStart(p, hb), hi); }
  }

  /** The row selection, as a slice of the table: with p rows at or before lo and q at or before hi, the newest hb of
      the p rows, or all if there are fewer, and every row after them up to the q-th; nothing if p is 0. */
  lemma FetchIsSlice(rows: seq<Row>, lo: nat, hi: nat, hb: nat, p: nat, q: nat)
    requires RowsIncrease(rows) && hb >= 1 && lo <= hi && p <= |rows| && q <= |rows|
    requires forall i :: 0 <= i < |rows| ==> (rows[i].time <= lo <==> i < p) && (rows[i].time <= hi <==> i < q)
    ensures p <= q
    ensures FetchLookback(rows, lo, hi, hb) == if p == 0 then [] else rows[if p >= hb then p - hb else 0..q]
  {
    hide FetchLookback, UpTo, RowsIncrease;
    FetchIsWarmup(rows, lo, hi, hb);
    UniqueUpTo(rows, lo, p);
    UniqueUpTo(rows, hi, q);
  }

  lemma SliceUpTo(rows: seq<Row>, j: nat, t: nat)
    requires RowsIncrease(rows) && j <= UpTo(rows, t)
    ensures RowsUpTo(rows[j..], t) == rows[j..UpTo(rows, t)]
  {
    hide UpTo, RowsUpTo;
    var n := UpTo(rows, t);
    RowsAreFirst(rows[j..], t);
    UniqueUpTo(rows[j..], t, n - j);
    assert rows[j..][..n - j] == rows[j..n];
  }

  lemma UniqueUpTo(rows: seq<Row>, t: nat, n: nat)
    requires RowsIncrease(rows) && n <= |rows|
    requires n > 0 ==> rows[n - 1].time <= t
    requires n < |rows| ==> rows[n].time > t
    ensures UpTo(rows, t) == n
  {
  }

  // ----- samples -----

  /** The sample that is current at tick t. */
  ghost predicate Current(s: seq<Sample>, t: nat, x: Sample)
  {
    x in s && x.tick <= t && forall y :: y in s && y.tick <= t ==> y.tick <= x.tick
  }

  lemma CurrentIsBisected(s: seq<Sample>, t: nat, x: Sample)
    requires TicksIncrease(s) && Current(s, t, x)
    ensures SamplesUpTo(s, t) > 0 && s[SamplesUpTo(s, t) - 1] == x
  {
    hide SamplesUpTo;
    var n := SamplesUpTo(s, t);
    var i :| 0 <= i < |s| && s[i] == x;
    assert i < n;
    assert s[n - 1] in s;
  }

  function AfterRows(env: Env, rows: seq<Row>, i: nat, cid: u16): Cell
    requires i <= |rows|
  {
    match ReplayRows(env, map[], rows[..i])
    case None => Absent
    case Some(vals) => CellOf(vals, cid)
  }

  ghost predicate SampleAt(env: Env, rows: seq<Row>, cid: u16, s: Sample, i: nat)
    requires i < |rows|
  {
    !AfterRows(env, rows, i + 1, cid).Absent? && s == Sample(rows[i].time, AfterRows(env, rows, i + 1, cid))
  }

  lemma AfterPrefix(env: Env, rows: seq<Row>, m: nat, i: nat, cid: u16)
    requires i <= m <= |rows|
    ensures AfterRows(env, rows[..m], i, cid) == AfterRows(env, rows, i, cid)
  {
    assert rows[..m][..i] == rows[..i];
  }

  lemma HistoryStep(env: Env, rows: seq<Row>, cid: u16)
    requires rows != []
    ensures var c := AfterRows(env, rows, |rows|, cid);
            History(env, map[], rows, cid) ==
            History(env, map[], rows[..|rows| - 1], cid) + if c.Absent? then [] else [Sample(Last(rows).time, c)]
  {
    hide ReplayRows, CellOf;
    assert rows[..|rows|] == rows;
  }

  /** Every sample was taken after some row ... */
  lemma {:induction false} HistoryFrom(env: Env, rows: seq<Row>, cid: u16, s: Sample) returns (i: nat)
    requires s in History(env, map[], rows, cid)
    ensures i < |rows| && SampleAt(env, rows, cid, s, i)
    decreases |rows|
  {
    hide AfterRows;
    var m := |rows| - 1;
    HistoryStep(env, rows, cid);
    if s in History(env, map[], rows[..m], cid) {
      hide History;
      i := HistoryFrom(env, rows[..m], cid, s);
      AfterPrefix(env, rows, m, i + 1, cid);
    } else {
      i := m;
    }
  }

  /** ... and after every row that leaves the collectable known, one was. */
  lemma {:induction false} HistoryHas(env: Env, rows: seq<Row>, cid: u16, s: Sample, i: nat)
    requires i < |rows| && SampleAt(env, rows, cid, s, i)
    ensures s in History(env, map[], rows, cid)
    decreases |rows|
  {
    hide AfterRows, History;
    var m := |rows| - 1;
    HistoryStep(env, rows, cid);
    if i < m {
      AfterPrefix(env, rows, m, i + 1, cid);
      HistoryHas(env, rows[..m], cid, s, i);
    }
  }

  lemma {:induction false} HistoryIncreases(env: Env, rows: seq<Row>, cid: u16)
    requires RowsIncrease(rows)
    ensures TicksIncrease(History(env, map[], rows, cid))
    ensures forall s :: s in History(env, map[], rows, cid) ==> rows != [] && s.tick <= Last(rows).time
    decreases |rows|
  {
    if rows != [] {
      hide ReplayRows, CellOf;
      HistoryIncreases(env, rows[..|rows| - 1], cid);
      var pre := History(env, map[], rows[..|rows| - 1], cid);
      assert forall i :: 0 <= i < |pre| ==> pre[i] in pre;
    }
  }

  // ----- once known, a collectable stays known -----

  lemma {:induction false} StillKnown(env: Env, vals: Values, ts: seq<Tagged>, cid: u16)
    requires ApplyAll(env, vals, ts).Some? && !CellOf(vals, cid).Absent?
    ensures !CellOf(ApplyAll(env, vals, ts).value, cid).Absent?
    decreases |ts|
  {
    if ts != [] {
      hide Apply;
      var t := ts[0];
      if t.cid in env { KnownStaysKnown(env[t.cid], CellOf(vals, t.cid), t.rec); }
      StillKnown(env, ApplyTagged(env, vals, t).value, ts[1..], cid);
    }
  }

  lemma {:induction false} KnownLater(env: Env, rows: seq<Row>, i: nat, j: nat, cid: u16)
    requires i <= j <= |rows| && ReplayRows(env, map[], rows[..j]).Some? && !AfterRows(env, rows, i, cid).Absent?
    ensures !AfterRows(env, rows, j, cid).Absent?
    decreases j
  {
    if i < j {
      hide ApplyAll, ReadAll, CellOf;
      assert Init(rows[..j]) == rows[..j - 1];
      KnownLater(env, rows, i, j - 1, cid);
      StillKnown(env, ReplayRows(env, map[], rows[..j - 1]).value, ReadAll(env, Last(rows[..j]).blob).value, cid);
    }
  }

  /** What the samples say at tick t is what the viewer holds after the last row at or before t. */
  lemma HistoryCurrent(env: Env, rows: seq<Row>, cid: u16, t: nat)
    requires RowsIncrease(rows) && UpTo(rows, t) > 0 && ReplayRows(env, map[], rows[..UpTo(rows, t)]).Some?
    ensures var h, n := History(env, map[], rows, cid), UpTo(rows, t);
            var c := AfterRows(env, rows, n, cid);
            if c.Absent? then forall s :: s in h ==> s.tick > t else Current(h, t, Sample(rows[n - 1].time, c))
  {
    hide UpTo, ReplayRows, History, AfterRows;
    var h, n := History(env, map[], rows, cid), UpTo(rows, t);
    var c := AfterRows(env, rows, n, cid);
    forall s | s in h && s.tick <= t ensures !c.Absent? && s.tick <= rows[n - 1].time {
      var i := HistoryFrom(env, rows, cid, s);
      KnownLater(env, rows, i + 1, n, cid);
    }
    if !c.Absent? {
      var s := Sample(rows[n - 1].time, c);
      assert SampleAt(env, rows, cid, s, n - 1);
      HistoryHas(env, rows, cid, s, n - 1);
    }
  }

  // ----- the queries -----

  function Between(s: seq<Sample>, lo: nat, hi: nat): seq<Sample>
  {
    if s == [] then []
    else Between(Init(s), lo, hi) + if lo <= Last(s).tick <= hi then [Last(s)] else []
  }

  /** UnpackRange for one collectable; a point query carries the last value forward. */
  function RangeOf(s: seq<Sample>, lo: nat, hi: nat): seq<Sample>
  {
    if lo == hi then (if SamplesUpTo(s, hi) == 0 then [] else [s[SamplesUpTo(s, hi) - 1]])
    else Between(s, lo, hi)
  }

  lemma {:induction false} BetweenHolds(s: seq<Sample>, lo: nat, hi: nat)
    ensures forall x :: x in Between(s, lo, hi) <==> x in s && lo <= x.tick <= hi
    ensures TicksIncrease(s) ==> TicksIncrease(Between(s, lo, hi))
  {
    if s != [] {
      BetweenHolds(Init(s), lo, hi);
      assert s == Init(s) + [Last(s)];
      if TicksIncrease(s) {
        forall x | x in Between(Init(s), lo, hi) ensures x.tick < Last(s).tick {
          var i :| 0 <= i < |Init(s)| && Init(s)[i] == x;
          assert s[i] == x;
        }
      }
    }
  }

  /** A range holds exactly the samples of the replay in it, in order; a point holds the newest one at or before it. */
  lemma RangeHolds(s: seq<Sample>, lo: nat, hi: nat)
    requires TicksIncrease(s)
    ensures TicksIncrease(RangeOf(s, lo, hi))
    ensures lo != hi ==> forall x :: x in RangeOf(s, lo, hi) <==> x in s && lo <= x.tick <= hi
    ensures lo == hi ==> |RangeOf(s, lo, hi)| <= 1
    ensures lo == hi ==>
              forall x :: x in RangeOf(s, lo, hi) <==>
                && x in s && x.tick <= hi
                && forall y :: y in s && y.tick <= hi ==> y.tick <= x.tick
  {
    BetweenHolds(s, lo, hi);
    if lo == hi {
      var n := SamplesUpTo(s, hi);
      forall y | y in s && y.tick <= hi
        ensures n > 0 && y.tick <= s[n - 1].tick && (y.tick == s[n - 1].tick ==> y == s[n - 1])
      {
        var i :| 0 <= i < |s| && s[i] == y;
        assert i < n;
      }
      if n > 0 { assert s[n - 1] in s; }
    }
  }

  /** The value current at each requested tick that has one. */
  function CarryForward(found: seq<Sample>, ticks: seq<nat>): seq<Sample>
  {
    if ticks == [] then []
    else
      var n := SamplesUpTo(found, Last(ticks));
      CarryForward(found, Init(ticks)) + if n == 0 then [] else [Sample(Last(ticks), found[n - 1].value)]
  }

  /** GetTickAnchor with one clock. */
  function Anchor(rows: seq<Row>, t: nat): nat
  {
    if UpTo(rows, t) == 0 then t else rows[UpTo(rows, t) - 1].time
  }

  function RangeSamples(env: Env, rows: seq<Row>, hb: nat, lo: nat, hi: nat, cid: u16): seq<Sample>
    requires hb >= 1
  {
    RangeOf(History(env, map[], FetchLookback(rows, lo, hi, hb), cid), lo, hi)
  }

  /** UnpackTicks for one collectable. */
  function TickSamples(env: Env, rows: seq<Row>, hb: nat, ticks: seq<nat>, cid: u16): seq<Sample>
    requires hb >= 1 && ticks != []
  {
    CarryForward(RangeSamples(env, rows, hb, Anchor(rows, ticks[0]), Last(ticks), cid), ticks)
  }

  ghost predicate Increasing(ticks: seq<nat>)
  {
    forall i, j :: 0 <= i < j < |ticks| ==> ticks[i] < ticks[j]
  }

  // ----- what the queries mean -----

  /** Number of windows at or before t. */
  function WindowsUpTo(db: seq<Tick>, t: nat): (n: nat)
    ensures n <= |db|
    ensures n > 0 ==> db[n - 1].time <= t
    ensures forall i :: n <= i < |db| ==> db[i].time > t
  {
    var times := seq(|db|, i requires 0 <= i < |db| => db[i].time);
    assert forall i :: 0 <= i < |db| ==> db[i].time == times[i];
    Bisect(times, t)
  }

  /** The collectable's value at time t. */
  function ValueAt(kind: Kind, db: seq<Tick>, cid: u16, t: nat): Cell
  {
    TruthCell(kind, TruthOf(RunOf(db[..WindowsUpTo(db, t)], cid)))
  }

  function Expected(kind: Kind, db: seq<Tick>, cid: u16, ticks: seq<nat>): seq<Sample>
  {
    if ticks == [] then []
    else
      Expected(kind, db, cid, Init(ticks)) +
      if ValueAt(kind, db, cid, Last(ticks)).Absent? then []
          else [Sample(Last(ticks), ValueAt(kind, db, cid, Last(ticks)))]
  }

  ghost predicate TimesIncrease(db: seq<Tick>)
  {
    forall i, j :: 0 <= i < j < |db| ==> db[i].time < db[j].time
  }

  lemma AppendIncreases(pre: seq<Row>, more: seq<Row>, t: nat)
    requires RowsIncrease(pre) && |more| <= 1 && (more != [] ==> more[0].time == t)
    requires pre != [] ==> Last(pre).time < t
    ensures RowsIncrease(pre + more)
    ensures pre + more != [] ==> Last(pre + more).time <= t
    ensures more == [] ==> pre + more == pre
  {
    var rows := pre + more;
    forall i, j | 0 <= i < j < |rows| ensures rows[i].time < rows[j].time {
      assert i < |pre| && pre[i].time <= Last(pre).time;
    }
  }

  lemma {:induction false} RowTimes(hb: nat, db: seq<Tick>)
    requires TimesIncrease(db)
    ensures RowsIncrease(Rows(hb, db))
    ensures Rows(hb, db) != [] ==> db != [] && Last(Rows(hb, db)).time <= Last(db).time
  {
    if db != [] {
      hide NewRows, RowsIncrease;
      RowTimes(hb, Init(db));
      AppendIncreases(Rows(hb, Init(db)), NewRows(hb, db), Last(db).time);
    }
  }

  lemma UpToPrefix(pre: seq<Row>, more: seq<Row>, t: nat)
    requires RowsIncrease(pre) && RowsIncrease(pre + more) && forall i :: 0 <= i < |more| ==> more[i].time > t
    ensures UpTo(pre + more, t) == UpTo(pre, t) && (pre + more)[..UpTo(pre, t)] == pre[..UpTo(pre, t)]
  {
    UniqueUpTo(pre + more, t, UpTo(pre, t));
  }

  lemma InitTimes(db: seq<Tick>)
    requires TimesIncrease(db)
    ensures db != [] ==> TimesIncrease(Init(db))
  {
  }

  lemma SkipLast(db: seq<Tick>, t: nat)
    requires db != [] && Last(db).time > t
    ensures Init(db)[..WindowsUpTo(Init(db), t)] == db[..WindowsUpTo(db, t)]
  {
  }

  /** The rows up to a time are the rows of the windows up to it. */
  lemma {:induction false} RowsOfWindows(hb: nat, db: seq<Tick>, t: nat)
    requires TimesIncrease(db)
    ensures Rows(hb, db[..WindowsUpTo(db, t)]) == Rows(hb, db)[..UpTo(Rows(hb, db), t)]
    decreases |db|
  {
    hide NewRows, RowsIncrease, UpTo, TimesIncrease, WindowsUpTo;
    RowTimes(hb, db);
    var rows := Rows(hb, db);
    assert db != [] ==> TimesIncrease(Init(db)) by { InitTimes(db); }
    if db == [] || Last(db).time <= t {
      assert WindowsUpTo(db, t) == |db| && db[..|db|] == db && rows[..|rows|] == rows;
      UniqueUpTo(rows, t, |rows|);
    } else {
      RowsOfWindows(hb, Init(db), t);
      RowTimes(hb, Init(db));
      UpToPrefix(Rows(hb, Init(db)), NewRows(hb, db), t);
      SkipLast(db, t);
    }
  }

  /** After warming up from the last hb rows at or before lo, the viewer holds the right value at every later time. */
  lemma WarmedUp(env: Env, hb: nat, db: seq<Tick>, cid: u16, lo: nat, t: nat)
    requires ValidDb(env, hb, db) && cid in env && lo <= t && UpTo(Rows(hb, db), lo) > 0
    ensures var rows := Rows(hb, db);
            var j, r := WarmupStart(UpTo(rows, lo), hb), UpTo(rows, t);
            && j < UpTo(rows, lo) <= r
            && ReplayRows(env, map[], rows[j..r]).Some?
            && CellOf(ReplayRows(env, map[], rows[j..r]).value, cid) == ValueAt(env[cid], db, cid, t)
  {
    hide Rows, ReplayRows, TruthCell, TruthOf, RunOf, CellOf;
    var rows := Rows(hb, db);
    RowTimes(hb, db);
    FetchIsWarmup(rows, lo, t, hb);
    RowsOfWindows(hb, db, t);
    ValidPrefix(env, hb, db, WindowsUpTo(db, t));
    var j, r := WarmupStart(UpTo(rows, lo), hb), UpTo(rows, t);
    LookbackSuffices(env, hb, db[..WindowsUpTo(db, t)], j);
    assert rows[..r][j..] == rows[j..r];
  }

  lemma {:induction false} BetweenFacts(s: seq<Sample>, lo: nat, hi: nat)
    requires TicksIncrease(s)
    ensures TicksIncrease(Between(s, lo, hi))
    ensures forall x :: x in Between(s, lo, hi) <==> x in s && lo <= x.tick <= hi
  {
    if s != [] {
      BetweenFacts(Init(s), lo, hi);
      assert s == Init(s) + [Last(s)];
      var pre := Between(Init(s), lo, hi);
      forall i | 0 <= i < |pre| ensures pre[i].tick < Last(s).tick {
        assert pre[i] in pre;
      }
    }
  }

  /** The range keeps the sample that is current at any tick in it, if that sample is in it. */
  lemma RangeCurrent(s: seq<Sample>, lo: nat, hi: nat, t: nat, x: Sample)
    requires TicksIncrease(s) && Current(s, t, x) && lo <= x.tick && t <= hi && lo <= t
    ensures var found := RangeOf(s, lo, hi); SamplesUpTo(found, t) > 0 && found[SamplesUpTo(found, t) - 1] == x
  {
    hide SamplesUpTo, Between;
    CurrentIsBisected(s, t, x);
    var found := RangeOf(s, lo, hi);
    if lo != hi { BetweenFacts(s, lo, hi); }
    assert Current(found, t, x);
    CurrentIsBisected(found, t, x);
  }

  lemma LastIsIn(s: seq<Sample>, n: nat)
    requires 0 < n <= |s|
    ensures exists x :: x in s && x == s[n - 1]
  {
    assert s[n - 1] in s;
  }

  lemma RangeEmpty(s: seq<Sample>, lo: nat, hi: nat, t: nat)
    requires TicksIncrease(s) && (forall x :: x in s ==> x.tick > t) && t <= hi && lo <= t
    ensures SamplesUpTo(RangeOf(s, lo, hi), t) == 0
  {
    hide SamplesUpTo, Between;
    var found, n := RangeOf(s, lo, hi), SamplesUpTo(s, hi);
    if lo != hi {
      BetweenFacts(s, lo, hi);
    } else if n > 0 {
      LastIsIn(s, n);
    }
    if SamplesUpTo(found, t) > 0 { LastIsIn(found, SamplesUpTo(found, t)); }
  }

  /** At every tick of the range, bisecting what UnpackRange found gives the collectable's value. */
  ghost predicate Answers(found: seq<Sample>, kind: Kind, db: seq<Tick>, cid: u16, t: nat)
  {
    var n := SamplesUpTo(found, t);
    if ValueAt(kind, db, cid, t).Absent? then n == 0 else n > 0 && found[n - 1].value == ValueAt(kind, db, cid, t)
  }

  /** Among the fetched rows, the last one at or before t leaves the viewer with the value at t. */
  lemma FetchedRows(env: Env, hb: nat, db: seq<Tick>, cid: u16, t0: nat, t: nat, hi: nat)
    requires ValidDb(env, hb, db) && cid in env && t0 <= t <= hi && UpTo(Rows(hb, db), t0) > 0
    ensures var lo := Anchor(Rows(hb, db), t0);
            var fetched := FetchLookback(Rows(hb, db), lo, hi, hb);
            var n := UpTo(fetched, t);
            && lo <= t && RowsIncrease(fetched) && n > 0 && fetched[n - 1].time >= lo
            && ReplayRows(env, map[], fetched[..n]).Some?
            && AfterRows(env, fetched, n, cid) == ValueAt(env[cid], db, cid, t)
  {
    hide Rows, ReplayRows, CellOf, UpTo, ValueAt, FetchLookback, RowsIncrease;
    var rows := Rows(hb, db);
    RowTimes(hb, db);
    var p, lo := UpTo(rows, t0), Anchor(rows, t0);
    UniqueUpTo(rows, lo, p);
    FetchIsWarmup(rows, lo, hi, hb);
    WarmedUp(env, hb, db, cid, lo, t);
    FetchIsWarmup(rows, t, hi, hb);
    SliceFacts(rows, WarmupStart(p, hb), p, UpTo(rows, hi), t);
  }

  lemma SliceIncreases(rows: seq<Row>, j: nat, q: nat, a: nat, b: nat)
    requires RowsIncrease(rows) && j <= q <= |rows| && a <= b < |rows|
    ensures RowsIncrease(rows[j..q]) && rows[a].time <= rows[b].time
  {
  }

  lemma SliceFacts(rows: seq<Row>, j: nat, p: nat, q: nat, t: nat)
    requires RowsIncrease(rows) && j < p <= UpTo(rows, t) <= q <= |rows|
    ensures var n := UpTo(rows[j..q], t);
            && RowsIncrease(rows[j..q]) && n == UpTo(rows, t) - j
            && rows[j..q][..n] == rows[j..UpTo(rows, t)]
            && rows[j..q][n - 1].time >= rows[p - 1].time
  {
    hide UpTo, RowsIncrease;
    var r := UpTo(rows, t);
    SliceIncreases(rows, j, q, p - 1, r - 1);
    UniqueUpTo(rows[j..q], t, r - j);
    assert rows[j..q][..r - j] == rows[j..r];
  }

  /** All that is fetched for a range replays without a failed assertion. */
  lemma FetchedAll(env: Env, hb: nat, db: seq<Tick>, cid: u16, t0: nat, hi: nat)
    requires ValidDb(env, hb, db) && cid in env && t0 <= hi && UpTo(Rows(hb, db), t0) > 0
    ensures ReplayRows(env, map[], FetchLookback(Rows(hb, db), Anchor(Rows(hb, db), t0), hi, hb)).Some?
  {
    hide Rows, ReplayRows, AfterRows, UpTo, ValueAt, Anchor;
    FetchedRows(env, hb, db, cid, t0, hi, hi);
    var fetched := FetchLookback(Rows(hb, db), Anchor(Rows(hb, db), t0), hi, hb);
    FetchedUpTo(Rows(hb, db), Anchor(Rows(hb, db), t0), hi, hb);
    UniqueUpTo(fetched, hi, |fetched|);
    Whole(fetched);
  }

  lemma {:induction false} NoneLater(rows: seq<Row>, t: nat)
    ensures forall i :: 0 <= i < |RowsUpTo(rows, t)| ==> RowsUpTo(rows, t)[i].time <= t
  {
    if rows != [] { NoneLater(Init(rows), t); }
  }

  lemma FetchedUpTo(rows: seq<Row>, lo: nat, hi: nat, hb: nat)
    requires hb >= 1
    ensures var fetched := FetchLookback(rows, lo, hi, hb); forall i :: 0 <= i < |fetched| ==> fetched[i].time <= hi
  {
    hide RowsUpTo;
    var ids := IdsUpTo(rows, lo);
    if ids != [] { NoneLater(rows[ids[WarmupStart(|ids|, hb)]..], hi); }
  }

  lemma RangeAnswers(env: Env, hb: nat, db: seq<Tick>, cid: u16, t0: nat, t: nat, hi: nat)
    requires ValidDb(env, hb, db) && cid in env && t0 <= t <= hi && UpTo(Rows(hb, db), t0) > 0
    ensures Answers(RangeSamples(env, Rows(hb, db), hb, Anchor(Rows(hb, db), t0), hi, cid), env[cid], db, cid, t)
  {
    hide Rows, ReplayRows, AfterRows, UpTo, RangeOf, History, ValueAt, SamplesUpTo, FetchLookback, Anchor;
    FetchedRows(env, hb, db, cid, t0, t, hi);
    var lo := Anchor(Rows(hb, db), t0);
    var fetched := FetchLookback(Rows(hb, db), lo, hi, hb);
    HistoryCurrent(env, fetched, cid, t);
    HistoryIncreases(env, fetched, cid);
    var h, c := History(env, map[], fetched, cid), ValueAt(env[cid], db, cid, t);
    if c.Absent? {
      RangeEmpty(h, lo, hi, t);
    } else {
      RangeCurrent(h, lo, hi, t, Sample(fetched[UpTo(fetched, t) - 1].time, c));
    }
  }

  lemma {:induction false} CarriedAnswers(found: seq<Sample>, kind: Kind, db: seq<Tick>, cid: u16, ticks: seq<nat>)
    requires forall i :: 0 <= i < |ticks| ==> Answers(found, kind, db, cid, ticks[i])
    ensures CarryForward(found, ticks) == Expected(kind, db, cid, ticks)
  {
    hide SamplesUpTo, ValueAt;
    if ticks != [] {
      CarriedAnswers(found, kind, db, cid, Init(ticks));
      assert Answers(found, kind, db, cid, ticks[|ticks| - 1]);
    }
  }

  /** From the first row on, UnpackTicks gives every requested tick the collectable's value at that tick,
      and leaves out exactly the ticks at which there is none. */
  lemma UnpackTicksCorrect(env: Env, hb: nat, db: seq<Tick>, cid: u16, ticks: seq<nat>)
    requires ValidDb(env, hb, db) && cid in env && ticks != [] && Increasing(ticks)
    requires UpTo(Rows(hb, db), ticks[0]) > 0
    ensures TickSamples(env, Rows(hb, db), hb, ticks, cid) == Expected(env[cid], db, cid, ticks)
  {
    hide Rows, Answers, UpTo, RangeSamples, Anchor;
    var rows := Rows(hb, db);
    forall i | 0 <= i < |ticks|
      ensures Answers(RangeSamples(env, rows, hb, Anchor(rows, ticks[0]), Last(ticks), cid), env[cid], db, cid,
                ticks[i])
    {
      RangeAnswers(env, hb, db, cid, ticks[0], ticks[i], Last(ticks));
    }
    CarriedAnswers(RangeSamples(env, rows, hb, Anchor(rows, ticks[0]), Last(ticks), cid), env[cid], db, cid, ticks);
  }

  // ----- starting before the first row -----

  lemma {:induction false} ValueStays(kind: Kind, db: seq<Tick>, cid: u16, m: nat)
    requires m <= |db| && !TruthCell(kind, TruthOf(RunOf(db[..m], cid))).Absent?
    ensures !TruthCell(kind, TruthOf(RunOf(db, cid))).Absent?
    decreases |db|
  {
    if m == |db| {
      assert db[..m] == db;
    } else {
      assert Init(db)[..m] == db[..m];
      ValueStays(kind, Init(db), cid, m);
      RunOfInit(db, cid);
    }
  }

  lemma {:induction false} NothingExpected(kind: Kind, db: seq<Tick>, cid: u16, ticks: seq<nat>, t: nat)
    requires ValueAt(kind, db, cid, t).Absent? && TimesIncrease(db) && forall i :: 0 <= i < |ticks| ==> ticks[i] <= t
    ensures Expected(kind, db, cid, ticks) == []
  {
    if ticks != [] {
      hide TruthCell, TruthOf;
      NothingExpected(kind, db, cid, Init(ticks), t);
      var m, n := WindowsUpTo(db, Last(ticks)), WindowsUpTo(db, t);
      assert m <= n;
      assert db[..n][..m] == db[..m];
      if !ValueAt(kind, db, cid, Last(ticks)).Absent? { ValueStays(kind, db[..n], cid, m); }
    }
  }

  lemma {:induction false} NothingCarried(ticks: seq<nat>)
    ensures CarryForward([], ticks) == []
  {
    if ticks != [] { NothingCarried(Init(ticks)); }
  }

  /** A first tick before the first row finds no row to warm up with, and nothing comes back at all. */
  lemma TooEarlyIsEmpty(env: Env, rows: seq<Row>, hb: nat, ticks: seq<nat>, cid: u16)
    requires hb >= 1 && ticks != [] && RowsIncrease(rows) && UpTo(rows, ticks[0]) == 0 && ticks[0] <= Last(ticks)
    ensures TickSamples(env, rows, hb, ticks, cid) == []
  {
    FetchIsWarmup(rows, ticks[0], Last(ticks), hb);
    NothingCarried(ticks);
  }

  /** UnpackTicks is right exactly when the first tick is not before the first row, or when the collectable
      has no value up to the last tick anyway. */
  lemma UnpackTicksExact(env: Env, hb: nat, db: seq<Tick>, cid: u16, ticks: seq<nat>)
    requires ValidDb(env, hb, db) && cid in env && ticks != [] && Increasing(ticks)
    ensures TickSamples(env, Rows(hb, db), hb, ticks, cid) == Expected(env[cid], db, cid, ticks)
            <==> UpTo(Rows(hb, db), ticks[0]) > 0 || ValueAt(env[cid], db, cid, Last(ticks)).Absent?
  {
    hide Rows, UpTo, TickSamples, ValueAt;
    if UpTo(Rows(hb, db), ticks[0]) > 0 {
      UnpackTicksCorrect(env, hb, db, cid, ticks);
    } else {
      RowTimes(hb, db);
      TooEarlyIsEmpty(env, Rows(hb, db), hb, ticks, cid);
      if ValueAt(env[cid], db, cid, Last(ticks)).Absent? { NothingExpected(env[cid], db, cid, ticks, Last(ticks)); }
    }
  }

  /** One value, at time 5, and a query for the times 0 and 5: the value is there, and nothing comes back. */
  lemma EarlyTickFails(kind: Kind, hb: nat, s: Snapshot)
    requires 1 <= hb && ValidCid(hb, kind, [Window(5, Stage([s]))])
    ensures var env, db := map[1 := kind], [Tick(5, map[1 := Stage([s])], [1])];
            && ValidDb(env, hb, db)
            && TickSamples(env, Rows(hb, db), hb, [0, 5], 1) == []
            && Expected(kind, db, 1, [0, 5]) == [Sample(5, View(kind, s))]
  {
    hide View, Rows, TickSamples, Expected, ValidCid;
    var env, db := map[1 := kind], [Tick(5, map[1 := Stage([s])], [1])];
    assert RunOf(db, 1) == [Window(5, Stage([s]))];
    assert Covers(env, db[0]);
    RowTimes(hb, db);
    OneWindow(hb, db[0]);
    assert UpTo(Rows(hb, db), 0) == 0;
    TooEarlyIsEmpty(env, Rows(hb, db), hb, [0, 5], 1);
    EarlyExpected(kind, s);
  }

  lemma OneWindow(hb: nat, x: Tick)
    ensures forall i :: 0 <= i < |Rows(hb, [x])| ==> Rows(hb, [x])[i].time == x.time
  {
    hide TickRecords, PrintAll;
    assert Init([x]) == [] && Last([x]) == x;
    assert Rows(hb, []) == [];
  }

  lemma EarlyExpected(kind: Kind, s: Snapshot)
    ensures Expected(kind, [Tick(5, map[1 := Stage([s])], [1])], 1, [0, 5]) == [Sample(5, View(kind, s))]
  {
    hide View;
    var db := [Tick(5, map[1 := Stage([s])], [1])];
    var run := [Window(5, Stage([s]))];
    assert RunOf(db, 1) == run && Init(run) == [] && db[..1] == db;
    assert WindowsUpTo(db, 0) == 0 && WindowsUpTo(db, 5) == 1;
    assert ValueAt(kind, db, 1, 0) == Absent by { assert RunOf(db[..0], 1) == []; }
    assert ValueAt(kind, db, 1, 5) == View(kind, s) by { assert TruthOf(run) == Open(s); }
    hide ValueAt;
    assert Init([0, 5]) == [0] && Init([0]) == [] && Last([0, 5]) == 5 && Last([0]) == 0;
    assert Expected(kind, db, 1, []) == [];
    assert Expected(kind, db, 1, [0]) == [];
  }

  // ----- the queries, as they are written -----

  /** UnpackRange; None when an assertion of the viewer fails. */
  method UnpackRange(env: Env, rows: seq<Row>, hb: nat, startTick: nat, endTick: nat, cids: seq<u16>)
    returns (unpacked: Option<map<u16, seq<Sample>>>)
    requires RowsIncrease(rows) && hb >= 1 && Distinct(cids)
    ensures unpacked.Some? <==> ReplayRows(env, map[], FetchLookback(rows, startTick, endTick, hb)).Some?
    ensures unpacked.Some? ==> forall cid :: cid in cids ==>
              cid in unpacked.value && unpacked.value[cid] == RangeSamples(env, rows, hb, startTick, endTick, cid)
  {
    hide FetchLookback, ReplayRows, History, RangeOf;
    var handler := new DataExtractionHandler(env, cids);
    var fetched := FetchLookback(rows, startTick, endTick, hb);
    var ok := Iterate(fetched, handler);
    if !ok { return None; }
    var samples := handler.samples;
    var result: map<u16, seq<Sample>> := map[];
    var i := 0;
    while i < |cids|
      invariant i <= |cids|
      invariant forall k :: 0 <= k < i ==>
                  cids[k] in result && result[cids[k]] ==
                      RangeOf(History(env, map[], fetched, cids[k]), startTick, endTick)
    {
      var valuesByTick := SamplesOf(samples, cids[i]);
      assert valuesByTick == History(env, map[], fetched, cids[i]);
      FetchedIncreases(rows, startTick, endTick, hb);
      HistoryIncreases(env, fetched, cids[i]);
      var found := SelectRange(valuesByTick, startTick, endTick);
      result := result[cids[i] := found];
      i := i + 1;
    }
    unpacked := Some(result);
  }

  lemma {:induction false} FilterIncreases(rows: seq<Row>, t: nat)
    requires RowsIncrease(rows)
    ensures RowsIncrease(RowsUpTo(rows, t))
  {
    hide UpTo;
    RowsAreFirst(rows, t);
  }

  lemma FetchedIncreases(rows: seq<Row>, lo: nat, hi: nat, hb: nat)
    requires RowsIncrease(rows) && hb >= 1
    ensures RowsIncrease(FetchLookback(rows, lo, hi, hb))
  {
    hide RowsUpTo;
    var ids := IdsUpTo(rows, lo);
    if ids != [] { FilterIncreases(rows[ids[WarmupStart(|ids|, hb)]..], hi); }
  }

  /** One more sample, for a point query. */
  lemma PointStep(s: seq<Sample>, i: nat, t: nat)
    requires TicksIncrease(s) && i < |s|
    ensures RangeOf(s[..i + 1], t, t) == if s[i].tick <= t then [s[i]] else RangeOf(s[..i], t, t)
    ensures RangeOf(s[..i], t, t) != [] ==> RangeOf(s[..i], t, t)[0].tick < s[i].tick
  {
    hide SamplesUpTo;
    var a, b := s[..i], s[..i + 1];
    var n := SamplesUpTo(a, t);
    assert forall k :: 0 <= k < i ==> b[k] == a[k];
    if s[i].tick <= t {
      UniqueSamples(b, t, i + 1);
    } else {
      forall k | 0 <= k < n ensures b[k].tick <= t {
        assert a[k].tick <= a[n - 1].tick;
      }
      UniqueSamples(b, t, n);
    }
  }

  lemma UniqueSamples(s: seq<Sample>, t: nat, n: nat)
    requires n <= |s| && (forall k :: 0 <= k < n ==> s[k].tick <= t) && (forall k :: n <= k < |s| ==> s[k].tick > t)
    ensures SamplesUpTo(s, t) == n
  {
    BisectIs(seq(|s|, i requires 0 <= i < |s| => s[i].tick), t, n);
  }

  /** The loop over one collectable's samples; a point query takes the largest tick at or before it. */
  method SelectRange(valuesByTick: seq<Sample>, startTick: nat, endTick: nat) returns (found: seq<Sample>)
    requires TicksIncrease(valuesByTick)
    ensures found == RangeOf(valuesByTick, startTick, endTick)
  {
    hide SamplesUpTo;
    found := [];
    var i := 0;
    if startTick == endTick {
      assert RangeOf([], endTick, endTick) == [];
      while i < |valuesByTick|
        invariant i <= |valuesByTick|
        invariant found == RangeOf(valuesByTick[..i], endTick, endTick)
      {
        PointStep(valuesByTick, i, endTick);
        if valuesByTick[i].tick <= endTick && (found == [] || found[0].tick < valuesByTick[i].tick) {
          found := [valuesByTick[i]];
        }
        i := i + 1;
      }
    } else {
      while i < |valuesByTick|
        invariant i <= |valuesByTick|
        invariant found == Between(valuesByTick[..i], startTick, endTick)
      {
        assert valuesByTick[..i + 1][..i] == valuesByTick[..i];
        if startTick <= valuesByTick[i].tick <= endTick { found := found + [valuesByTick[i]]; }
        i := i + 1;
      }
    }
    assert valuesByTick[..|valuesByTick|] == valuesByTick;
  }

  /** The assertion that ticks strictly increase. */
  method CheckTicks(ticks: seq<nat>) returns (ok: bool)
    ensures ok <==> ticks != [] && Increasing(ticks)
  {
    if ticks == [] { return false; }
    var i := 0;
    while i + 1 < |ticks|
      invariant i < |ticks|
      invariant forall a, b :: 0 <= a < b <= i ==> ticks[a] < ticks[b]
    {
      if ticks[i] >= ticks[i + 1] { return false; }
      i := i + 1;
    }
    ok := true;
  }

  /** The loop over the requested ticks: the last value at or before each of them. */
  method CarryEach(found: seq<Sample>, ticks: seq<nat>) returns (carried: seq<Sample>)
    ensures carried == CarryForward(found, ticks)
  {
    carried := [];
    var k := 0;
    while k < |ticks|
      invariant k <= |ticks| && carried == CarryForward(found, ticks[..k])
    {
      assert ticks[..k + 1][..k] == ticks[..k];
      var idx := SamplesUpTo(found, ticks[k]);
      if idx > 0 { carried := carried + [Sample(ticks[k], found[idx - 1].value)]; }
      k := k + 1;
    }
    assert ticks[..|ticks|] == ticks;
  }

  /** UnpackTicks; None when one of its own or the viewer's assertions fails. */
  method UnpackTicks(env: Env, rows: seq<Row>, hb: nat, ticks: seq<nat>, cids: seq<u16>)
    returns (unpacked: Option<map<u16, seq<Sample>>>)
    requires RowsIncrease(rows) && hb >= 1 && Distinct(cids)
    ensures unpacked.Some? <==>
              && ticks != [] && Increasing(ticks)
              && ReplayRows(env, map[], FetchLookback(rows, Anchor(rows, ticks[0]), Last(ticks), hb)).Some?
    ensures unpacked.Some? ==> forall cid :: cid in cids ==>
              cid in unpacked.value && unpacked.value[cid] == TickSamples(env, rows, hb, ticks, cid)
  {
    hide FetchLookback, ReplayRows, RangeSamples, Anchor;
    var valid := CheckTicks(ticks);
    if !valid { return None; }
    var anchor := Anchor(rows, ticks[0]);
    var range := UnpackRange(env, rows, hb, anchor, Last(ticks), cids);
    if range.None? { return None; }
    var result: map<u16, seq<Sample>> := map[];
    var i := 0;
    while i < |cids|
      invariant i <= |cids|
      invariant forall k :: 0 <= k < i ==>
                  cids[k] in result && result[cids[k]] == TickSamples(env, rows, hb, ticks, cids[k])
    {
      var carried := CarryEach(range.value[cids[i]], ticks);
      result := result[cids[i] := carried];
      i := i + 1;
    }
    unpacked := Some(result);
  }
}
