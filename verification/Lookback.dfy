/** Starting in the middle of a database: the last `heartbeat` rows are enough. */
module Lookback {
  import opened Bytes
  import opened Records
  import opened Wire
  import opened Chain
  import opened Runs
  import opened Heartbeat
  import opened Sendable
  import opened Database

  /** Each window encodes every collectable once; one clock, so none is skipped. */
  ghost predicate Covers(env: Env, x: Tick)
  {
    Distinct(x.order) && (forall cid :: cid in x.order <==> cid in env) && x.events.Keys <= env.Keys
  }

  ghost predicate ValidCid(hb: nat, kind: Kind, run: seq<Window>)
  {
    ValidRun(kind, run) && (hb == 1 || (SingleStage(run) && Narrow(kind)))
  }

  ghost predicate ValidDb(env: Env, hb: nat, ticks: seq<Tick>)
  {
    && 1 <= hb
    && (forall i, j :: 0 <= i < j < |ticks| ==> ticks[i].time < ticks[j].time)
    && (forall i :: 0 <= i < |ticks| ==> Covers(env, ticks[i]))
    && (forall cid :: cid in env ==> ValidCid(hb, env[cid], RunOf(ticks, cid)))
  }

  lemma RunOfInit(ticks: seq<Tick>, cid: u16)
    requires ticks != []
    ensures Init(RunOf(ticks, cid)) == RunOf(Init(ticks), cid)
    ensures Last(RunOf(ticks, cid)).time == Last(ticks).time
  {
  }

  lemma ValidPrefix(env: Env, hb: nat, ticks: seq<Tick>, n: nat)
    requires ValidDb(env, hb, ticks) && n <= |ticks|
    ensures ValidDb(env, hb, ticks[..n])
  {
    forall cid | cid in env ensures ValidCid(hb, env[cid], RunOf(ticks[..n], cid)) {
      var run := RunOf(ticks, cid);
      assert ValidCid(hb, env[cid], run) && run[..n] == RunOf(ticks[..n], cid);
    }
  }

  ghost predicate TagsFit(env: Env, ts: seq<Tagged>)
  {
    forall i :: 0 <= i < |ts| ==> FitsEnv(env, ts[i])
  }

  lemma TagAllFits(env: Env, cid: u16, rs: seq<Record>)
    requires cid in env && AllFit(env[cid], rs)
    ensures TagsFit(env, TagAll(cid, rs))
  {
    hide Fits;
  }

  lemma {:induction false} GatherFits(env: Env, hb: nat, ticks: seq<Tick>, order: seq<u16>)
    requires ticks != []
    requires forall cid :: cid in order ==> cid in env && AllFit(env[cid], Sends(hb, RunOf(ticks, cid)))
    ensures TagsFit(env, Gather(hb, ticks, order))
  {
    hide FitsEnv, Sends, AllFit, RunOf;
    if order != [] {
      assert order[0] in order;
      TagAllFits(env, order[0], Sends(hb, RunOf(ticks, order[0])));
      GatherFits(env, hb, ticks, order[1..]);
    }
  }

  /** A window's row is parsed back into the window's records. */
  lemma RowReads(env: Env, hb: nat, ticks: seq<Tick>)
    requires ValidDb(env, hb, ticks) && ticks != []
    ensures ReadAll(env, PrintAll(TickRecords(hb, ticks))) == Some(TickRecords(hb, ticks))
  {
    hide Sends, FitsEnv, AllFit, ReadAll, PrintAll, Gather;
    var x := Last(ticks);
    assert Covers(env, x);
    forall cid | cid in env ensures AllFit(env[cid], Sends(hb, RunOf(ticks, cid))) {
      assert ValidCid(hb, env[cid], RunOf(ticks, cid));
      SendsFit(env[cid], hb, RunOf(ticks, cid));
    }
    GatherFits(env, hb, ticks, x.order);
    ReadAllPrinted(env, TickRecords(hb, ticks));
  }

  /** Of a collectable's records in a window, the row holds exactly those. */
  lemma RowHolds(env: Env, hb: nat, ticks: seq<Tick>, cid: u16)
    requires ValidDb(env, hb, ticks) && ticks != [] && cid in env
    ensures Only(TickRecords(hb, ticks), cid) == Sends(hb, RunOf(ticks, cid))
  {
    hide Sends, Only, Gather;
    assert Covers(env, Last(ticks));
    OnlyGathered(hb, ticks, Last(ticks).order, cid);
  }

  // ----- what one collectable contributes to the rows from j on -----

  function StreamBefore(hb: nat, ticks: seq<Tick>, cid: u16, j: nat): seq<Record>
  {
    if ticks == [] then []
    else
      StreamBefore(hb, Init(ticks), cid, j) + if |Rows(hb, Init(ticks))| < j then Sends(hb, RunOf(ticks, cid)) else []
  }

  function StreamSince(hb: nat, ticks: seq<Tick>, cid: u16, j: nat): seq<Record>
  {
    if ticks == [] then []
    else StreamSince(hb, Init(ticks), cid, j) + if |Rows(hb, Init(ticks))| < j then [] else Sends(hb, RunOf(ticks, cid))
  }

  lemma {:induction false} NothingSince(hb: nat, ticks: seq<Tick>, cid: u16, j: nat)
    requires |Rows(hb, ticks)| < j
    ensures StreamSince(hb, ticks, cid, j) == []
  {
    if ticks != [] { NothingSince(hb, Init(ticks), cid, j); }
  }

  lemma StreamStep(hb: nat, ticks: seq<Tick>, cid: u16)
    requires ticks != []
    ensures Stream(hb, RunOf(ticks, cid)) == Stream(hb, RunOf(Init(ticks), cid)) + Sends(hb, RunOf(ticks, cid))
  {
    RunOfInit(ticks, cid);
  }

  lemma AppendToEither(a: seq<Record>, b: seq<Record>, x: seq<Record>)
    ensures a + b + x == (a + []) + (b + x)
    ensures b == [] ==> a + b + x == (a + x) + (b + [])
  {
  }

  lemma {:induction false} StreamSplits(hb: nat, ticks: seq<Tick>, cid: u16, j: nat)
    ensures Stream(hb, RunOf(ticks, cid)) == StreamBefore(hb, ticks, cid, j) + StreamSince(hb, ticks, cid, j)
  {
    if ticks != [] {
      hide Sends, Rows, RunOf, Stream;
      var pre := Init(ticks);
      StreamStep(hb, ticks, cid);
      StreamSplits(hb, pre, cid, j);
      if |Rows(hb, pre)| < j { NothingSince(hb, pre, cid, j); }
      AppendToEither(StreamBefore(hb, pre, cid, j), StreamSince(hb, pre, cid, j), Sends(hb, RunOf(ticks, cid)));
    } else {
      assert RunOf(ticks, cid) == [];
    }
  }

  /** What a viewer that starts at row j shows of one collectable: nothing yet, or its value; its value once a
      reset has gone by. */
  lemma SinceReplays(env: Env, hb: nat, ticks: seq<Tick>, cid: u16, j: nat)
    requires ValidDb(env, hb, ticks) && cid in env
    ensures var since := StreamSince(hb, ticks, cid, j);
            var shown := Replay(env[cid], Absent, since);
            var truth := TruthCell(env[cid], TruthOf(RunOf(ticks, cid)));
            && shown.Some?
            && shown.value in {Absent, truth}
            && ((exists i :: 0 <= i < |since| && Resets(env[cid], since[i])) ==> shown.value == truth)
  {
    hide TruthCell, Stream, StreamBefore, StreamSince, Replay;
    var kind, run := env[cid], RunOf(ticks, cid);
    assert ValidCid(hb, kind, run);
    var before, since := StreamBefore(hb, ticks, cid, j), StreamSince(hb, ticks, cid, j);
    StreamSplits(hb, ticks, cid, j);
    WholeRunRoundTrip(kind, hb, run);
    assert run[..|run|] == run;
    ReplayConcat(kind, Absent, before, since);
    LateStart(kind, Replay(kind, Absent, before).value, since);
  }

  ghost predicate Shows(env: Env, vals: Values, hb: nat, ticks: seq<Tick>, j: nat)
  {
    forall cid :: cid in env ==> Some(CellOf(vals, cid)) == Replay(env[cid], Absent, StreamSince(hb, ticks, cid, j))
  }

  lemma ShowRow(env: Env, vals: Values, hb: nat, ticks: seq<Tick>, j: nat)
    requires ValidDb(env, hb, ticks) && ticks != [] && |Rows(hb, Init(ticks))| >= j
    requires Shows(env, vals, hb, Init(ticks), j)
    ensures ApplyAll(env, vals, TickRecords(hb, ticks)).Some?
    ensures Shows(env, ApplyAll(env, vals, TickRecords(hb, ticks)).value, hb, ticks, j)
  {
    hide Sends, Rows, ApplyAll, Replay, TickRecords;
    var ts := TickRecords(hb, ticks);
    forall cid | cid in env
      ensures Replay(env[cid], CellOf(vals, cid), Only(ts, cid)).Some?
      ensures Replay(env[cid], CellOf(vals, cid), Only(ts, cid)) ==
                Replay(env[cid], Absent, StreamSince(hb, ticks, cid, j))
    {
      RowHolds(env, hb, ticks, cid);
      SinceReplays(env, hb, ticks, cid, j);
      ReplayConcat(env[cid], Absent, StreamSince(hb, Init(ticks), cid, j), Sends(hb, RunOf(ticks, cid)));
    }
    ApplyAllProjects(env, vals, ts);
  }

  /** The window's row, if it has one, takes the values from before the window to after it. */
  lemma ReplayLastRow(env: Env, hb: nat, ticks: seq<Tick>, j: nat)
    requires ValidDb(env, hb, ticks) && ticks != [] && j <= |Rows(hb, Init(ticks))|
    requires ReplayRows(env, map[], Rows(hb, Init(ticks))[j..]).Some?
    ensures j <= |Rows(hb, ticks)|
    ensures ReplayRows(env, map[], Rows(hb, ticks)[j..])
            == ApplyAll(env, ReplayRows(env, map[], Rows(hb, Init(ticks))[j..]).value, TickRecords(hb, ticks))
  {
    hide ReadAll, PrintAll, TickRecords, ValidDb;
    var before, rows := Rows(hb, Init(ticks)), Rows(hb, ticks);
    RowReads(env, hb, ticks);
    if TickRecords(hb, ticks) == [] {
      assert rows == before;
    } else {
      assert Init(rows[j..]) == before[j..] && Last(rows[j..]) == Last(rows);
    }
  }

  lemma NothingReplayed(env: Env, hb: nat, ticks: seq<Tick>, j: nat)
    requires ticks != [] && |Rows(hb, Init(ticks))| < j <= |Rows(hb, ticks)|
    ensures ReplayRows(env, map[], Rows(hb, ticks)[j..]).Some?
    ensures Shows(env, ReplayRows(env, map[], Rows(hb, ticks)[j..]).value, hb, ticks, j)
  {
    hide TickRecords, Sends;
    assert Rows(hb, ticks)[j..] == [];
    forall cid | cid in env ensures StreamSince(hb, ticks, cid, j) == [] {
      NothingSince(hb, Init(ticks), cid, j);
    }
  }

  /** Replaying the rows from j on shows, for every collectable, what its own records from there on say. */
  lemma {:induction false} RowsReplay(env: Env, hb: nat, ticks: seq<Tick>, j: nat)
    requires ValidDb(env, hb, ticks) && j <= |Rows(hb, ticks)|
    ensures ReplayRows(env, map[], Rows(hb, ticks)[j..]).Some?
    ensures Shows(env, ReplayRows(env, map[], Rows(hb, ticks)[j..]).value, hb, ticks, j)
  {
    if ticks == [] {
    } else if |Rows(hb, Init(ticks))| < j {
      NothingReplayed(env, hb, ticks, j);
    } else {
      hide Shows, TickRecords, Rows, ValidDb, ReplayRows;
      assert ValidDb(env, hb, Init(ticks)) by { ValidPrefix(env, hb, ticks, |ticks| - 1); }
      RowsReplay(env, hb, Init(ticks), j);
      ReplayLastRow(env, hb, ticks, j);
      ShowRow(env, ReplayRows(env, map[], Rows(hb, Init(ticks))[j..]).value, hb, ticks, j);
    }
  }

  // ----- how many rows the last heartbeat can hold -----

  lemma {:induction false} RowsSinceTick(hb: nat, ticks: seq<Tick>, i: nat)
    requires i <= |ticks|
    ensures |Rows(hb, ticks[..i])| <= |Rows(hb, ticks)| <= |Rows(hb, ticks[..i])| + |ticks| - i
    decreases |ticks|
  {
    if i < |ticks| {
      hide NewRows;
      RowsSinceTick(hb, Init(ticks), i);
      assert Init(ticks)[..i] == ticks[..i];
    } else {
      assert ticks[..i] == ticks;
    }
  }

  lemma {:induction false} TimesSpread(ticks: seq<Tick>, i: nat)
    requires i < |ticks|
    requires forall a, b :: 0 <= a < b < |ticks| ==> ticks[a].time < ticks[b].time
    ensures |ticks| - i <= Last(ticks).time - ticks[i].time + 1
    decreases |ticks|
  {
    if i < |ticks| - 1 { TimesSpread(Init(ticks), i); }
  }

  /** A record that window i sent is still there for a viewer that starts at row j, if that is early enough. */
  lemma {:induction false} SentSince(hb: nat, ticks: seq<Tick>, cid: u16, j: nat, i: nat, r: Record)
    requires i < |ticks| && j <= |Rows(hb, ticks[..i])| && r in Sends(hb, RunOf(ticks, cid)[..i + 1])
    ensures r in StreamSince(hb, ticks, cid, j)
    decreases |ticks|
  {
    hide Sends, Rows, TickRecords;
    var run := RunOf(ticks, cid);
    if i == |ticks| - 1 {
      assert run[..i + 1] == run && ticks[..i] == Init(ticks);
    } else {
      assert RunOf(Init(ticks), cid)[..i + 1] == run[..i + 1] && Init(ticks)[..i] == ticks[..i];
      SentSince(hb, Init(ticks), cid, j, i, r);
    }
  }

  /** Where the last heartbeat's rows begin. */
  function WarmupStart(rows: nat, hb: nat): nat
  {
    if rows >= hb then rows - hb else 0
  }

  /** A reset sent within the current heartbeat window is in the last hb rows. */
  lemma ResetInReach(env: Env, hb: nat, ticks: seq<Tick>, cid: u16, j: nat, f: nat, full: bool)
    requires ValidDb(env, hb, ticks) && ticks != [] && j <= WarmupStart(|Rows(hb, ticks)|, hb)
    requires SentAt(hb, RunOf(ticks, cid), f, full) && WindowLo(hb, Last(ticks).time) <= f
    ensures exists r :: r in StreamSince(hb, ticks, cid, j) && if full then r.IsFull() else r.Closed?
  {
    hide Sends, Rows, StreamSince;
    var run := RunOf(ticks, cid);
    var i :| 0 <= i < |run| && run[i].time == f && SendsSort(hb, run[..i + 1], full);
    var r :| r in Sends(hb, run[..i + 1]) && if full then r.IsFull() else r.Closed?;
    RowsSinceTick(hb, ticks, i);
    TimesSpread(ticks, i);
    SentSince(hb, ticks, cid, j, i, r);
  }

  /** Whatever a collectable has to show, the reset that shows it is in the last hb rows. */
  lemma ResetSince(env: Env, hb: nat, ticks: seq<Tick>, cid: u16, j: nat)
    requires ValidDb(env, hb, ticks) && cid in env && j <= WarmupStart(|Rows(hb, ticks)|, hb)
    requires !TruthCell(env[cid], TruthOf(RunOf(ticks, cid))).Absent?
    ensures exists i :: 0 <= i < |StreamSince(hb, ticks, cid, j)| && Resets(env[cid], StreamSince(hb, ticks, cid, j)[i])
  {
    hide StreamSince, Rows, SentAt, View, Sends, WarmupStart;
    var kind, run := env[cid], RunOf(ticks, cid);
    assert ValidCid(hb, kind, run);
    assert run != [];
    var st := RunState(hb, run);
    RunInv(kind, hb, run);
    HeartbeatInvariant(kind, hb, run);
    RecordedTimesAreSent(hb, run);
    var full := HasData(st);
    if full {
      ResetInReach(env, hb, ticks, cid, j, st.lastFull.value, true);
    } else {
      ResetInReach(env, hb, ticks, cid, j, st.lastClosed.value, false);
    }
    var r :| r in StreamSince(hb, ticks, cid, j) && if full then r.IsFull() else r.Closed?;
    var i :| 0 <= i < |StreamSince(hb, ticks, cid, j)| && StreamSince(hb, ticks, cid, j)[i] == r;
    assert Resets(kind, StreamSince(hb, ticks, cid, j)[i]);
  }

  /** Replaying only the last hb rows (or more) gives every collectable the value that a replay from the
      beginning gives it, which is its value; no assertion of the viewer fails on the way. */
  lemma LookbackSuffices(env: Env, hb: nat, ticks: seq<Tick>, j: nat)
    requires ValidDb(env, hb, ticks) && (j == 0 || j + hb <= |Rows(hb, ticks)|)
    ensures var rows := Rows(hb, ticks);
            var late, whole := ReplayRows(env, map[], rows[j..]), ReplayRows(env, map[], rows);
            && late.Some? && whole.Some?
            && forall cid :: cid in env ==>
                 CellOf(late.value, cid) == CellOf(whole.value, cid) == TruthCell(env[cid], TruthOf(RunOf(ticks, cid)))
  {
    hide ValidDb, ReplayRows, Rows, StreamSince, TruthCell, TruthOf, Stream, CellOf;
    var rows := Rows(hb, ticks);
    assert j <= WarmupStart(|rows|, hb);
    assert rows[0..] == rows;
    RowsReplay(env, hb, ticks, j);
    RowsReplay(env, hb, ticks, 0);
    forall cid | cid in env
      ensures Replay(env[cid], Absent, StreamSince(hb, ticks, cid, j)) ==
                Some(TruthCell(env[cid], TruthOf(RunOf(ticks, cid))))
      ensures Replay(env[cid], Absent, StreamSince(hb, ticks, cid, 0)) ==
                Some(TruthCell(env[cid], TruthOf(RunOf(ticks, cid))))
    {
      SinceReplays(env, hb, ticks, cid, j);
      SinceReplays(env, hb, ticks, cid, 0);
      if !TruthCell(env[cid], TruthOf(RunOf(ticks, cid))).Absent? {
        ResetSince(env, hb, ticks, cid, j);
        ResetSince(env, hb, ticks, cid, 0);
      }
    }
  }
}
