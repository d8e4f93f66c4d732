/** From the calls on entry points to the answers of a query. */
module EndToEnd {
  import opened Bytes
  import opened Records
  import opened Wire
  import opened Chain
  import opened Runs
  import opened Sendable
  import opened Database
  import opened Lookback
  import opened Collector
  import opened Stager
  import opened Viewer
  import R = Retriever
  import C = ContigDeltas
  import opened Checkpointer
  import opened Refinement

  /** Every call is on a known collectable, with a value of its type. */
  ghost predicate WellTyped(env: Env, calls: seq<Call>)
  {
    forall i :: 0 <= i < |calls| ==>
      calls[i].cid in env && (Means(calls[i]).Set? ==> SnapFits(env[calls[i].cid], Means(calls[i]).snap))
  }

  /** No collectable is set twice at one time. */
  ghost predicate OncePerTime(calls: seq<Call>)
  {
    forall i, j ::
      0 <= i < j < |calls| && calls[i].cid == calls[j].cid && Means(calls[i]).Set? && Means(calls[j]).Set? ==>
      calls[i].time != calls[j].time
  }

  /** Number of calls at or before t. */
  function CallsUpTo(calls: seq<Call>, t: nat): (n: nat)
    ensures n <= |calls|
    ensures n > 0 ==> calls[n - 1].time <= t
    ensures forall i :: n <= i < |calls| ==> calls[i].time > t
  {
    var times := seq(|calls|, i requires 0 <= i < |calls| => calls[i].time);
    assert forall i :: 0 <= i < |calls| ==> calls[i].time == times[i];
    Bisect(times, t)
  }

  // ----- what one call does to the ledgers -----

  /** Older ledgers are left alone; the one changed or added is of the call's time. */
  lemma CallTouches(f: Front, c: Call)
    requires WellKept(f) && (f.stageTime.Some? ==> f.stageTime.value <= c.time)
    ensures Do(f, c).Some?
    ensures var a, b := Ledgers(f), Ledgers(Do(f, c).value);
            && |a| <= |b| <= |a| + 1
            && (forall i :: 0 <= i < |a| && a[i].time < c.time ==> b[i] == a[i])
            && (forall i :: 0 <= i < |b| && (i >= |a| || a[i].time >= c.time) ==> b[i].time >= c.time)
  {
    hide Numbered, Means, AtTime;
    DoKeeps(f, c);
    AdvanceKeeps(f, c.time);
    var a, g, b := Ledgers(f), Ledgers(AtTime(f, c.time).value), Ledgers(Do(f, c).value);
    assert forall i :: 0 <= i < |a| ==> g[i] == a[i];
    assert Means(c).Set? || c.cid in f.open ==> |b| == |g| && forall i :: 0 <= i < |g| - 1 ==> b[i] == g[i];
  }

  /** The older ledgers are the ones up to t, the newer ones are past it. */
  ghost predicate Splits(a: seq<Ledger>, b: seq<Ledger>, t: nat)
  {
    && |a| <= |b| && b[..|a|] == a
    && (forall i :: 0 <= i < |a| ==> a[i].time <= t)
    && (forall i :: |a| <= i < |b| ==> b[i].time > t)
  }

  lemma CallSplits(a: seq<Ledger>, f: Front, c: Call, t: nat)
    requires WellKept(f) && (f.stageTime.Some? ==> f.stageTime.value <= c.time) && c.time > t
    requires Splits(a, Ledgers(f), t)
    ensures Do(f, c).Some? && Splits(a, Ledgers(Do(f, c).value), t)
  {
    hide WellKept, Do, Ledgers;
    CallTouches(f, c);
    var b, b' := Ledgers(f), Ledgers(Do(f, c).value);
    forall i | 0 <= i < |a| ensures b'[i] == a[i] {
      assert b[..|a|][i] == b[i];
    }
  }

  /** The calls up to a time leave exactly the ledgers up to it. */
  lemma {:induction false} LedgersUpTo(calls: seq<Call>, t: nat)
    requires InOrder(calls)
    ensures DoAll(calls).Some? && DoAll(calls[..CallsUpTo(calls, t)]).Some?
    ensures Splits(Ledgers(DoAll(calls[..CallsUpTo(calls, t)]).value), Ledgers(DoAll(calls).value), t)
    decreases |calls|
  {
    hide WellKept, Do, Ledgers;
    LedgersInOrder(calls);
    if calls == [] || Last(calls).time <= t {
      assert calls[..|calls|] == calls;
      AllBefore(DoAll(calls).value, t);
      assert Ledgers(DoAll(calls).value)[..|Ledgers(DoAll(calls).value)|] == Ledgers(DoAll(calls).value);
    } else {
      hide Splits;
      var pre := Init(calls);
      LedgersInOrder(pre);
      LedgersUpTo(pre, t);
      assert pre[..CallsUpTo(pre, t)] == calls[..CallsUpTo(calls, t)];
      CallSplits(Ledgers(DoAll(pre[..CallsUpTo(pre, t)]).value), DoAll(pre).value, Last(calls), t);
    }
  }

  lemma AllBefore(f: Front, t: nat)
    requires WellKept(f) && (f.stageTime.Some? ==> f.stageTime.value <= t)
    ensures forall i :: 0 <= i < |Ledgers(f)| ==> Ledgers(f)[i].time <= t
  {
    var ls := Ledgers(f);
    if ls != [] {
      assert forall i :: 0 <= i < |ls| ==> ls[i].time <= ls[|ls| - 1].time;
    }
  }

  // ----- the database is a valid one -----

  ghost predicate LedgerFits(env: Env, l: Ledger)
  {
    && (forall i :: 0 <= i < |l.records| ==> l.records[i].0 in env && SnapFits(env[l.records[i].0], l.records[i].1))
    && (forall cid :: cid in l.closed ==> cid in env)
  }

  ghost predicate LedgersFit(env: Env, ls: seq<Ledger>)
  {
    forall i :: 0 <= i < |ls| ==> LedgerFits(env, ls[i])
  }

  lemma CallFits(env: Env, f: Front, c: Call)
    requires LedgersFit(env, Ledgers(f)) && Do(f, c).Some?
    requires c.cid in env && (Means(c).Set? ==> SnapFits(env[c.cid], Means(c).snap))
    ensures LedgersFit(env, Ledgers(Do(f, c).value))
  {
    hide SnapFits;
    assert f.ledger.Some? ==> Ledgers(f)[|f.sent|] == f.ledger.value;
    assert forall i :: 0 <= i < |f.sent| ==> Ledgers(f)[i] == f.sent[i];
  }

  lemma {:induction false} AllFitEnv(env: Env, calls: seq<Call>)
    requires InOrder(calls) && WellTyped(env, calls)
    ensures DoAll(calls).Some? && LedgersFit(env, Ledgers(DoAll(calls).value))
    decreases |calls|
  {
    LedgersInOrder(calls);
    if calls != [] {
      hide SnapFits, LedgersFit, Do;
      AllFitEnv(env, Init(calls));
      CallFits(env, DoAll(Init(calls)).value, Last(calls));
    }
  }

  lemma {:induction false} SnapsTyped(kind: Kind, records: seq<(u16, Snapshot)>, cid: u16)
    requires forall i :: 0 <= i < |records| && records[i].0 == cid ==> SnapFits(kind, records[i].1)
    ensures forall i :: 0 <= i < |SnapsOf(records, cid)| ==> SnapFits(kind, SnapsOf(records, cid)[i])
  {
    hide SnapFits;
    if records != [] { SnapsTyped(kind, Init(records), cid); }
  }

  /** No ledger holds two records of a collectable that is set once a time. */
  ghost predicate Single(ls: seq<Ledger>, cid: u16)
  {
    forall i :: 0 <= i < |ls| ==> |SnapsOf(ls[i].records, cid)| <= 1
  }

  lemma CallSingle(f: Front, calls: seq<Call>, c: Call, cid: u16)
    requires WellKept(f) && Tracks(f, calls, cid) && Single(Ledgers(f), cid)
    requires f.stageTime.Some? ==> f.stageTime.value <= c.time
    requires c.cid == cid && Means(c).Set? ==> SetTime(calls, cid) != Some(c.time)
    ensures Do(f, c).Some? && Single(Ledgers(Do(f, c).value), cid)
  {
    hide SnapsOf, SetTime, LostClose, Reached, Numbered;
    NoSnaps(cid);
    AdvanceKeeps(f, c.time);
    AdvanceTracks(f, calls, cid, c.time);
    var g, h := AtTime(f, c.time).value, Do(f, c).value;
    assert Ledgers(g)[|g.sent|] == g.ledger.value;
    if Means(c).Set? { SnapsOn(g.ledger.value.records, c.cid, Means(c).snap, cid); }
    if h != f {
      forall i | 0 <= i < |Ledgers(h)| ensures |SnapsOf(Ledgers(h)[i].records, cid)| <= 1 {
        assert i < |g.sent| ==> Ledgers(h)[i] == Ledgers(g)[i];
      }
    }
  }

  lemma {:induction false} SetBefore(calls: seq<Call>, cid: u16, t: nat)
    requires SetTime(calls, cid) == Some(t)
    ensures exists i :: 0 <= i < |calls| && calls[i].cid == cid && Means(calls[i]).Set? && calls[i].time == t
  {
    if !(Last(calls).cid == cid && Means(Last(calls)).Set?) {
      SetBefore(Init(calls), cid, t);
      var i :| 0 <= i < |Init(calls)| && Init(calls)[i].cid == cid && Means(Init(calls)[i]).Set?
          && Init(calls)[i].time == t;
      assert calls[i] == Init(calls)[i];
    }
  }

  lemma NotSetTwice(calls: seq<Call>, cid: u16)
    requires OncePerTime(calls) && calls != [] && Last(calls).cid == cid && Means(Last(calls)).Set?
    ensures SetTime(Init(calls), cid) != Some(Last(calls).time)
  {
    if SetTime(Init(calls), cid) == Some(Last(calls).time) { SetBefore(Init(calls), cid, Last(calls).time); }
  }

  lemma {:induction false} AllSingle(calls: seq<Call>, cid: u16)
    requires InOrder(calls) && OncePerTime(calls)
    ensures DoAll(calls).Some? && Single(Ledgers(DoAll(calls).value), cid)
    decreases |calls|
  {
    LedgersInOrder(calls);
    if calls != [] {
      hide Single, Do, Tracks, WellKept;
      var pre, c := Init(calls), Last(calls);
      AllSingle(pre, cid);
      AllTrack(pre, cid);
      LedgersInOrder(pre);
      if c.cid == cid && Means(c).Set? { NotSetTwice(calls, cid); }
      CallSingle(DoAll(pre).value, pre, c, cid);
    } else {
      assert Ledgers(START) == [];
    }
  }

  /** The database that the pipeline writes for a run of calls. */
  function DbOf(calls: seq<Call>, cids: seq<u16>): seq<Tick>
    requires DoAll(calls).Some?
  {
    TicksOf(Ledgers(DoAll(calls).value), cids)
  }

  /** What the delta codec needs: heartbeat 1, or one value a time and small containers. */
  ghost predicate CodecReady(env: Env, hb: nat, calls: seq<Call>)
  {
    hb == 1 || (OncePerTime(calls) && forall cid :: cid in env ==> Narrow(env[cid]))
  }

  lemma RunValid(env: Env, hb: nat, ls: seq<Ledger>, cids: seq<u16>, cid: u16)
    requires cid in env && cid in cids && LedgersFit(env, ls) && Numbered(ls)
    requires hb == 1 || (Single(ls, cid) && Narrow(env[cid]))
    ensures ValidCid(hb, env[cid], RunOf(TicksOf(ls, cids), cid))
  {
    hide SnapFits, Narrow, SnapsOf;
    SameRun(ls, cids, cid);
    var run := LedgerRun(ls, cid);
    forall i | 0 <= i < |run| ensures EventFits(env[cid], run[i].event) {
      assert LedgerFits(env, ls[i]);
      SnapsTyped(env[cid], ls[i].records, cid);
    }
  }

  lemma DatabaseValid(env: Env, hb: nat, calls: seq<Call>, cids: seq<u16>)
    requires InOrder(calls) && WellTyped(env, calls) && 1 <= hb && CodecReady(env, hb, calls)
    requires Distinct(cids) && forall cid :: cid in cids <==> cid in env
    ensures DoAll(calls).Some? && ValidDb(env, hb, DbOf(calls, cids))
  {
    hide LedgersFit, Single, ValidCid, OncePerTime, EventIn;
    LedgersInOrder(calls);
    AllFitEnv(env, calls);
    var ls := Ledgers(DoAll(calls).value);
    assert Numbered(ls);
    forall cid | cid in env ensures ValidCid(hb, env[cid], RunOf(DbOf(calls, cids), cid)) {
      if hb != 1 { AllSingle(calls, cid); }
      RunValid(env, hb, ls, cids, cid);
    }
  }

  lemma UniqueWindows(db: seq<Tick>, t: nat, n: nat)
    requires n <= |db| && (forall i :: 0 <= i < n ==> db[i].time <= t) && (forall i :: n <= i < |db| ==> db[i].time > t)
    ensures R.WindowsUpTo(db, t) == n
  {
    BisectIs(seq(|db|, i requires 0 <= i < |db| => db[i].time), t, n);
  }

  /** The value at t is what the calls up to t left in the pipeline. */
  lemma ValueIsReached(kind: Kind, calls: seq<Call>, cids: seq<u16>, cid: u16, t: nat)
    requires InOrder(calls) && cid in cids
    ensures DoAll(calls).Some? && DoAll(calls[..CallsUpTo(calls, t)]).Some?
    ensures R.ValueAt(kind, DbOf(calls, cids), cid, t) ==
            TruthCell(kind, Reached(DoAll(calls[..CallsUpTo(calls, t)]).value, cid))
  {
    hide TruthCell, TruthOf, Ledgers, EventIn;
    LedgersUpTo(calls, t);
    var a, b := Ledgers(DoAll(calls[..CallsUpTo(calls, t)]).value), Ledgers(DoAll(calls).value);
    var db := DbOf(calls, cids);
    var n := R.WindowsUpTo(db, t);
    forall i | 0 <= i < |a| ensures db[i].time <= t {
      assert b[..|a|][i] == b[i];
    }
    UniqueWindows(db, t, |a|);
    assert db[..n] == TicksOf(a, cids) by {
      assert forall i :: 0 <= i < n ==> b[i] == b[..|a|][i];
    }
    SameRun(a, cids, cid);
  }

  /** What the caller of the entry points meant a query to return. */
  function Answer(kind: Kind, calls: seq<Call>, cid: u16, ticks: seq<nat>): seq<Sample>
  {
    if ticks == [] then []
    else
      var c := TruthCell(kind, Meant(calls[..CallsUpTo(calls, Last(ticks))], cid));
      Answer(kind, calls, cid, Init(ticks)) + SampleOf(Last(ticks), c)
  }

  /** A close that never reached the pipeline does not show exactly if what stayed open is an empty queue. */
  predicate ShowsMeant(calls: seq<Call>, cid: u16)
  {
    LostClose(calls, cid) ==> EmptyQueue(SetSnap(calls, cid))
  }

  predicate EmptyQueue(s: Option<Snapshot>)
  {
    s.Some? && s.value.Contig? && C.Occupied(s.value.bins) == 0
  }

  lemma {:induction false} LastSetTyped(env: Env, calls: seq<Call>, cid: u16)
    requires WellTyped(env, calls) && SetSnap(calls, cid).Some?
    ensures cid in env && SnapFits(env[cid], SetSnap(calls, cid).value)
  {
    hide SnapFits;
    if !(Last(calls).cid == cid && Means(Last(calls)).Set?) { LastSetTyped(env, Init(calls), cid); }
  }

  /** The value in the pipeline against the value meant. */
  lemma ReachedAgainstMeant(env: Env, calls: seq<Call>, cid: u16)
    requires InOrder(calls) && WellTyped(env, calls) && cid in env
    ensures DoAll(calls).Some?
    ensures var r, m := TruthCell(env[cid], Reached(DoAll(calls).value, cid)), TruthCell(env[cid], Meant(calls, cid));
            (r == m <==> ShowsMeant(calls, cid)) && (r.Absent? <==> m.Absent?)
  {
    hide Reached, SetTime, SetSnap, CloseTime, DoAll;
    CloseExact(calls, cid);
    AllTrack(calls, cid);
    if LostClose(calls, cid) {
      LastSetTyped(env, calls, cid);
      MeantAfterData(calls, cid);
    }
  }

  lemma {:induction false} MeantAfterData(calls: seq<Call>, cid: u16)
    ensures Meant(calls, cid).Ended? ==> Meant(calls, cid).hadData
  {
    if calls != [] { MeantAfterData(Init(calls), cid); }
  }

  lemma ValueAgainstMeant(env: Env, calls: seq<Call>, cids: seq<u16>, cid: u16, t: nat)
    requires InOrder(calls) && WellTyped(env, calls) && cid in env && cid in cids
    ensures DoAll(calls).Some?
    ensures var before := calls[..CallsUpTo(calls, t)];
            var r, m := R.ValueAt(env[cid], DbOf(calls, cids), cid, t), TruthCell(env[cid], Meant(before, cid));
            (r == m <==> ShowsMeant(before, cid)) && (r.Absent? <==> m.Absent?)
  {
    hide TruthCell, DbOf, R.ValueAt, ShowsMeant, Reached, DoAll, Meant;
    ValueIsReached(env[cid], calls, cids, cid, t);
    ReachedAgainstMeant(env, calls[..CallsUpTo(calls, t)], cid);
  }

  lemma {:induction false} ExpectedIsMeant(env: Env, calls: seq<Call>, cids: seq<u16>, cid: u16, ticks: seq<nat>)
    requires InOrder(calls) && WellTyped(env, calls) && cid in env && cid in cids
    ensures DoAll(calls).Some?
    ensures R.Expected(env[cid], DbOf(calls, cids), cid, ticks) == Answer(env[cid], calls, cid, ticks)
            <==> AllShow(calls, cid, ticks)
    ensures |R.Expected(env[cid], DbOf(calls, cids), cid, ticks)| == |Answer(env[cid], calls, cid, ticks)|
  {
    LedgersInOrder(calls);
    if ticks != [] {
      hide TruthCell, DbOf, R.ValueAt, ShowsMeant, DoAll, Meant, WellTyped, InOrder, AllShow;
      var pre, t := Init(ticks), Last(ticks);
      ExpectedIsMeant(env, calls, cids, cid, pre);
      ValueAgainstMeant(env, calls, cids, cid, t);
      AllShowOn(calls, cid, ticks);
      SameAppended(R.Expected(env[cid], DbOf(calls, cids), cid, pre), Answer(env[cid], calls, cid, pre),
                   SampleOf(t, R.ValueAt(env[cid], DbOf(calls, cids), cid, t)),
                   SampleOf(t, TruthCell(env[cid], Meant(calls[..CallsUpTo(calls, t)], cid))));
    }
  }

  function SampleOf(t: nat, c: Cell): seq<Sample>
  {
    if c.Absent? then [] else [Sample(t, c)]
  }

  lemma SameAppended(a: seq<Sample>, b: seq<Sample>, x: seq<Sample>, y: seq<Sample>)
    requires |x| == |y|
    ensures a + x == b + y <==> a == b && x == y
  {
    if a + x == b + y {
      assert a == (a + x)[..|a|] && b == (b + y)[..|a|];
      assert x == (a + x)[|a|..] && y == (b + y)[|a|..];
    }
  }

  /** Nothing lost shows at any of the ticks. */
  ghost predicate AllShow(calls: seq<Call>, cid: u16, ticks: seq<nat>)
  {
    forall i :: 0 <= i < |ticks| ==> ShowsMeant(calls[..CallsUpTo(calls, ticks[i])], cid)
  }

  lemma AllShowOn(calls: seq<Call>, cid: u16, ticks: seq<nat>)
    requires ticks != []
    ensures AllShow(calls, cid, ticks) <==>
              AllShow(calls, cid, Init(ticks)) && ShowsMeant(calls[..CallsUpTo(calls, Last(ticks))], cid)
  {
    hide ShowsMeant;
    assert forall i :: 0 <= i < |ticks| - 1 ==> Init(ticks)[i] == ticks[i];
  }

  /** Up to the last tick there was never a value. */
  predicate NoValueYet(kind: Kind, calls: seq<Call>, cid: u16, ticks: seq<nat>)
    requires ticks != []
  {
    TruthCell(kind, Meant(calls[..CallsUpTo(calls, Last(ticks))], cid)).Absent?
  }

  /** When the query answers what the caller meant: a row to start from and nothing lost that shows, or nothing to
      show. */
  ghost predicate Answers(env: Env, rows: seq<Row>, calls: seq<Call>, cid: u16, ticks: seq<nat>)
    requires ticks != [] && cid in env
  {
    if R.UpTo(rows, ticks[0]) > 0 then AllShow(calls, cid, ticks) else NoValueYet(env[cid], calls, cid, ticks)
  }

  lemma NothingToAnswer(env: Env, hb: nat, calls: seq<Call>, cids: seq<u16>, cid: u16, ticks: seq<nat>)
    requires InOrder(calls) && WellTyped(env, calls) && cid in env && cid in cids
    requires ticks != [] && R.Increasing(ticks) && DoAll(calls).Some? && R.TimesIncrease(DbOf(calls, cids))
    ensures Answer(env[cid], calls, cid, ticks) == [] <==> NoValueYet(env[cid], calls, cid, ticks)
  {
    hide TruthCell, DbOf, R.ValueAt, DoAll, Meant, WellTyped, InOrder, AllShow, R.Expected;
    var t := Last(ticks);
    ValueAgainstMeant(env, calls, cids, cid, t);
    ExpectedIsMeant(env, calls, cids, cid, ticks);
    if NoValueYet(env[cid], calls, cid, ticks) {
      R.NothingExpected(env[cid], DbOf(calls, cids), cid, ticks, t);
    }
  }

  /** From call to query: for any calls on the entry points in time order, any collectable, and any increasing
      ticks, UnpackTicks on the rows that the stager writes gives at every tick the value that was set last, nothing
      shown before the first, and the closed value after a close - exactly if there is a row at or before the first
      tick and at none of the ticks a close of anything but an empty queue is lost, or if up to the last tick there is
      no value anyway. */
  lemma QueriesAnswerCalls(env: Env, hb: nat, calls: seq<Call>, cids: seq<u16>, cid: u16, ticks: seq<nat>)
    requires InOrder(calls) && WellTyped(env, calls) && 1 <= hb && CodecReady(env, hb, calls)
    requires Distinct(cids) && (forall c :: c in cids <==> c in env) && cid in env
    requires ticks != [] && R.Increasing(ticks)
    ensures DoAll(calls).Some?
    ensures var rows := Rows(hb, DbOf(calls, cids));
            R.TickSamples(env, rows, hb, ticks, cid) == Answer(env[cid], calls, cid, ticks)
            <==> Answers(env, rows, calls, cid, ticks)
  {
    hide ValidDb, DbOf, Rows, R.TickSamples, R.UpTo, R.Expected, Answer, ShowsMeant, AllShow, NoValueYet;
    DatabaseValid(env, hb, calls, cids);
    var db := DbOf(calls, cids);
    if R.UpTo(Rows(hb, db), ticks[0]) > 0 {
      ExpectedIsMeant(env, calls, cids, cid, ticks);
      R.UnpackTicksCorrect(env, hb, db, cid, ticks);
    } else {
      TimesOf(env, hb, db);
      R.RowTimes(hb, db);
      R.TooEarlyIsEmpty(env, Rows(hb, db), hb, ticks, cid);
      NothingToAnswer(env, hb, calls, cids, cid, ticks);
    }
  }

  lemma TimesOf(env: Env, hb: nat, db: seq<Tick>)
    requires ValidDb(env, hb, db)
    ensures R.TimesIncrease(db)
  {
  }

  /** An answer has at most one sample a tick, and it is of the value meant then. */
  lemma {:induction false} AnswerHolds(kind: Kind, calls: seq<Call>, cid: u16, ticks: seq<nat>, i: nat)
    requires R.Increasing(ticks) && i < |ticks|
    ensures var c := TruthCell(kind, Meant(calls[..CallsUpTo(calls, ticks[i])], cid));
            && (!c.Absent? ==> Sample(ticks[i], c) in Answer(kind, calls, cid, ticks))
            && forall s :: s in Answer(kind, calls, cid, ticks) && s.tick == ticks[i] ==>
                 s == Sample(ticks[i], c) && !c.Absent?
    decreases |ticks|
  {
    hide TruthCell, Meant, CallsUpTo;
    var pre := Init(ticks);
    TicksOfAnswer(kind, calls, cid, pre);
    if i < |pre| { AnswerHolds(kind, calls, cid, pre, i); }
  }

  lemma {:induction false} TicksOfAnswer(kind: Kind, calls: seq<Call>, cid: u16, ticks: seq<nat>)
    ensures forall s :: s in Answer(kind, calls, cid, ticks) ==> s.tick in ticks
  {
    hide TruthCell, Meant, CallsUpTo;
    if ticks != [] { TicksOfAnswer(kind, calls, cid, Init(ticks)); }
  }

  /** The last call on the collectable at or before a tick set a value with bytes: that value is in the answer. */
  lemma SetIsAnswered(kind: Kind, calls: seq<Call>, cid: u16, ticks: seq<nat>, i: nat, k: nat, s: Snapshot)
    requires R.Increasing(ticks) && i < |ticks| && InOrder(calls)
    requires k < |calls| && calls[k].time <= ticks[i] && calls[k].cid == cid && calls[k].act == Set(s)
    requires s != Scalar([]) && s != Contig([]) && s != Sparse(map[])
    requires forall m :: k < m < |calls| && calls[m].cid == cid ==> calls[m].time > ticks[i]
    ensures Sample(ticks[i], View(kind, s)) in Answer(kind, calls, cid, ticks)
  {
    hide View, Meant;
    var n := CallsUpTo(calls, ticks[i]);
    assert k < n;
    assert n > 0 ==> calls[n - 1].time <= ticks[i];
    forall m | k < m < n ensures calls[..n][m].cid != cid {
      assert calls[m].time <= calls[n - 1].time;
    }
    LastCallDecides(calls[..n], cid, k);
    AnswerHolds(kind, calls, cid, ticks, i);
  }

  // ----- all of it as it is written -----

  /** What the calls leave for one collectable is a run of its type. */
  lemma RunTyped(env: Env, ls: seq<Ledger>, cid: u16)
    requires cid in env && LedgersFit(env, ls) && Numbered(ls)
    ensures ValidRun(env[cid], LedgerRun(ls, cid))
  {
    hide SnapFits, SnapsOf;
    var run := LedgerRun(ls, cid);
    forall i | 0 <= i < |run| ensures EventFits(env[cid], run[i].event) {
      assert LedgerFits(env, ls[i]);
      SnapsTyped(env[cid], ls[i].records, cid);
    }
  }

  lemma AssertsHoldOn(env: Env, hb: nat, ls: seq<Ledger>, cid: u16, n: nat)
    requires cid in env && LedgersFit(env, ls) && Numbered(ls) && n < |ls|
    ensures EncodeAsserts(Staged(RunState(hb, LedgerRun(ls[..n], cid)), n + 1, EventIn(ls[n], cid)), hb, n + 1,
              ls[n].time)
  {
    hide Staged, RunState, EncodeAsserts, EventIn;
    var run := LedgerRun(ls, cid)[..n + 1];
    RunTyped(env, ls, cid);
    PrefixValid(env[cid], LedgerRun(ls, cid), n + 1);
    WindowAccepted(env[cid], hb, run);
    assert Init(run) == LedgerRun(ls[..n], cid) && Last(run) == Window(ls[n].time, EventIn(ls[n], cid));
  }

  /** No assertion of the stager fails on what well-typed calls leave. */
  lemma AllGoThrough(env: Env, stager: PipelineStager, ls: seq<Ledger>, n: nat)
    requires LedgersFit(env, ls) && Numbered(ls) && n < |ls| && stager.Sized(env)
    ensures stager.Known(ls[n]) && stager.GoesThrough(ls, n)
  {
    hide Staged, RunState, EncodeAsserts, EventIn, LedgersFit, SizeFits, SnapFits;
    var l := ls[n];
    assert LedgerFits(env, l) by { FitsAt(env, ls, n); }
    forall i | 0 <= i < |l.records| ensures SizeFits(stager.checkpointers[l.records[i].0].capacity, l.records[i].1) {
      StagedSizeFits(env[l.records[i].0], l.records[i].1);
    }
    forall cid | cid in stager.cids
      ensures EncodeAsserts(Staged(RunState(stager.heartbeat, LedgerRun(ls[..n], cid)), l.window, EventIn(l, cid)),
                            stager.heartbeat, l.window, l.time)
    {
      AssertsHoldOn(env, stager.heartbeat, ls, cid, n);
    }
  }

  lemma FitsAt(env: Env, ls: seq<Ledger>, n: nat)
    requires LedgersFit(env, ls) && n < |ls|
    ensures LedgerFits(env, ls[n])
  {
  }

  /** The scans end on the runs of all collectables. */
  ghost predicate AllEnd(env: Env, hb: nat, ls: seq<Ledger>)
  {
    forall cid :: cid in env ==> RunEnds(hb, LedgerRun(ls, cid))
  }

  /** With heartbeat 1 there is no scan, and small queues are scanned to the end. */
  lemma ReadyEnds(env: Env, hb: nat, calls: seq<Call>)
    requires InOrder(calls) && WellTyped(env, calls) && CodecReady(env, hb, calls)
    ensures DoAll(calls).Some? && AllEnd(env, hb, Ledgers(DoAll(calls).value))
  {
    hide StepEnds, LedgersFit, Numbered, ValidRun, EventIn, OncePerTime;
    LedgersInOrder(calls);
    AllFitEnv(env, calls);
    var ls := Ledgers(DoAll(calls).value);
    forall cid, n | cid in env && 0 < n <= |ls| ensures StepEnds(hb, LedgerRun(ls, cid)[..n]) {
      RunTyped(env, ls, cid);
      PrefixValid(env[cid], LedgerRun(ls, cid), n);
      NoAssertionFails(env[cid], hb, LedgerRun(ls, cid)[..n]);
    }
  }

  lemma LedgersEnd(env: Env, stager: PipelineStager, ls: seq<Ledger>, n: nat)
    requires AllEnd(env, stager.heartbeat, ls) && n < |ls| && stager.Sized(env)
    ensures stager.LedgerEnds(ls, n)
  {
    hide StepEnds, EventIn;
    forall cid | cid in stager.cids ensures StepEnds(stager.heartbeat, LedgerRun(ls[..n + 1], cid)) {
      assert LedgerRun(ls, cid)[..n + 1] == LedgerRun(ls[..n + 1], cid);
    }
  }

  /** The pipeline on the ledgers of well-typed calls: it gets through, and writes the table. */
  method RunPipeline(env: Env, hb: nat, cids: seq<u16>, ls: seq<Ledger>) returns (rows: seq<Row>)
    requires LedgersFit(env, ls) && Numbered(ls) && AllEnd(env, hb, ls)
    requires Distinct(cids) && forall cid :: cid in cids <==> cid in env
    ensures rows == Rows(hb, TicksOf(ls, cids))
  {
    hide LedgersFit, Rows, TicksOf, LedgerRun, RunState, PipelineStager.LedgerEnds, PipelineStager.GoesThrough;
    hide PipelineStager.Separate, PipelineStager.States, PipelineStager.Known, PipelineStager.Valid, AllEnd;
    var stager := new PipelineStager(hb, env, cids);
    forall n | 0 <= n < |ls|
      ensures stager.Known(ls[n]) && stager.GoesThrough(ls, n) && stager.LedgerEnds(ls, n) && ls[n].window == n + 1
    {
      AllGoThrough(env, stager, ls, n);
      LedgersEnd(env, stager, ls, n);
    }
    stager.Enqueue(ls);
    assert stager.done + stager.mainInputQueue == ls;
    var ok := stager.Run();
    rows := stager.output;
    stager.Written();
  }

  /** The entry points' open flags, together. */
  ghost function OpenOf(entries: map<u16, EntryPoint>): (open: set<u16>)
    reads entries.Values
    ensures forall cid :: cid in open <==> cid in entries && !entries[cid].closed
  {
    set cid | cid in entries && !entries[cid].closed
  }

  ghost predicate Wired(entries: map<u16, EntryPoint>, collector: ArgosCollector)
  {
    && (forall cid :: cid in entries ==> entries[cid].cid == cid && entries[cid].stagerInterface == collector)
    && (forall c, d :: c in entries && d in entries && c != d ==> entries[c] != entries[d])
  }

  /** One call on an entry point. */
  method MakeCall(entries: map<u16, EntryPoint>, collector: ArgosCollector, c: Call) returns (ok: bool)
    requires Wired(entries, collector) && c.cid in entries
    modifies collector, entries.Values
    ensures ok <==> Do(old(collector.Model(OpenOf(entries))), c).Some?
    ensures ok ==> Do(old(collector.Model(OpenOf(entries))), c) == Some(collector.Model(OpenOf(entries)))
  {
    hide Do;
    ghost var open := OpenOf(entries);
    var entry := entries[c.cid];
    assert open - {c.cid} + (if entry.closed then {} else {c.cid}) == open;
    assert entry.Model(open) == collector.Model(open);
    match c.act {
      case CloseIt => ok := entry.CloseRecord(c.time);
      case Set(snap) => ok := entry.SetValueBytes(snap, c.time);
    }
    assert c == Call(c.time, entry.cid, c.act);
    assert ok <==> Do(old(entry.Model(open)), c).Some?;
    assert ok ==> Do(old(entry.Model(open)), c) == Some(entry.Model(open));
    assert OpenOf(entries) == open - {c.cid} + (if entry.closed then {} else {c.cid});
    assert entry.Model(open) == collector.Model(OpenOf(entries));
  }

  lemma {:induction false} LastLedgerHolds(calls: seq<Call>)
    ensures var f := DoAll(calls);
            f.Some? && f.value.ledger.Some? ==> f.value.ledger.value.records != [] || f.value.ledger.value.closed != {}
    decreases |calls|
  {
    if calls != [] {
      LastLedgerHolds(Init(calls));
      if Means(Last(calls)).CloseIt? && DoAll(calls).Some? && DoAll(calls) != DoAll(Init(calls)) {
        assert Last(calls).cid in DoAll(calls).value.ledger.value.closed;
      }
    }
  }

  /** All calls, and the end of the simulation: the pipeline is handed all ledgers. */
  method MakeCalls(entries: map<u16, EntryPoint>, collector: ArgosCollector, calls: seq<Call>)
    requires Wired(entries, collector) && collector.Model(OpenOf(entries)) == START
    requires InOrder(calls) && forall i :: 0 <= i < |calls| ==> calls[i].cid in entries
    modifies collector, entries.Values
    ensures DoAll(calls).Some? && collector.pipelineHead == Ledgers(DoAll(calls).value)
  {
    hide Do, WellKept;
    for i := 0 to |calls|
      invariant DoAll(calls[..i]) == Some(collector.Model(OpenOf(entries)))
    {
      assert Init(calls[..i + 1]) == calls[..i] && Last(calls[..i + 1]) == calls[i];
      LedgersInOrder(calls[..i + 1]);
      var ok := MakeCall(entries, collector, calls[i]);
    }
    assert calls[..|calls|] == calls;
    LastLedgerHolds(calls);
    ghost var f := collector.Model(OpenOf(entries));
    assert Ledgers(f) == Ledgers(collector.Model({}));
    collector.PreTeardown();
  }

  method MakeEntries(cids: seq<u16>, collector: ArgosCollector) returns (entries: map<u16, EntryPoint>)
    requires Distinct(cids)
    ensures Wired(entries, collector) && forall cid :: cid in entries <==> cid in cids
    ensures forall cid :: cid in entries ==> fresh(entries[cid]) && entries[cid].closed
  {
    entries := map[];
    for i := 0 to |cids|
      invariant Wired(entries, collector) && forall cid :: cid in entries <==> cid in cids[..i]
      invariant forall cid :: cid in entries ==> fresh(entries[cid]) && entries[cid].closed
    {
      assert cids[..i + 1] == cids[..i] + [cids[i]];
      var entry := new EntryPoint(cids[i], collector);
      entries := entries[cids[i] := entry];
    }
    assert cids[..|cids|] == cids;
  }

  /** From call to query through the code as it is written: entry points, collector, stager, linked checkpointers,
      encoders, parser, handler and queries. None of them fails an assertion, and the query answers what the caller
      meant exactly if nothing lost shows at its ticks. */
  method Serve(env: Env, hb: nat, calls: seq<Call>, cids: seq<u16>, ticks: seq<nat>)
    returns (rows: seq<Row>, answers: Option<map<u16, seq<Sample>>>)
    requires InOrder(calls) && WellTyped(env, calls) && 1 <= hb && CodecReady(env, hb, calls)
    requires Distinct(cids) && forall cid :: cid in cids <==> cid in env
    requires ticks != [] && R.Increasing(ticks)
    ensures DoAll(calls).Some? && rows == Rows(hb, DbOf(calls, cids))
    ensures forall cid :: cid in env ==>
              && answers.Some? && cid in answers.value
              && (answers.value[cid] == Answer(env[cid], calls, cid, ticks) <==> Answers(env, rows, calls, cid, ticks))
  {
    hide LedgersFit, AllEnd, Ledgers, DbOf, Answer, Answers, CodecReady, R.TickSamples, R.UpTo, Rows;
    LedgersInOrder(calls);
    AllFitEnv(env, calls);
    ReadyEnds(env, hb, calls);
    var collector := new ArgosCollector();
    var entries := MakeEntries(cids, collector);
    assert OpenOf(entries) == {};
    MakeCalls(entries, collector, calls);
    rows := RunPipeline(env, hb, cids, collector.pipelineHead);
    RowsInOrder(env, hb, calls, cids);
    answers := R.UnpackTicks(env, rows, hb, ticks, cids);
    forall cid | cid in env
      ensures && answers.Some? && cid in answers.value
              && (answers.value[cid] == Answer(env[cid], calls, cid, ticks) <==> Answers(env, rows, calls, cid, ticks))
    {
      QueriesAnswerCalls(env, hb, calls, cids, cid, ticks);
      QueryPasses(env, hb, calls, cids, cid, ticks);
    }
  }

  lemma RowsInOrder(env: Env, hb: nat, calls: seq<Call>, cids: seq<u16>)
    requires InOrder(calls) && WellTyped(env, calls) && 1 <= hb && CodecReady(env, hb, calls)
    requires Distinct(cids) && forall cid :: cid in cids <==> cid in env
    ensures DoAll(calls).Some? && R.RowsIncrease(Rows(hb, DbOf(calls, cids)))
    ensures DbOf(calls, cids) == TicksOf(Ledgers(DoAll(calls).value), cids)
  {
    hide Rows, DbOf;
    DatabaseValid(env, hb, calls, cids);
    R.RowTimes(hb, DbOf(calls, cids));
    DbIs(calls, cids);
  }

  lemma DbIs(calls: seq<Call>, cids: seq<u16>)
    requires DoAll(calls).Some?
    ensures DbOf(calls, cids) == TicksOf(Ledgers(DoAll(calls).value), cids)
  {
  }

  /** The viewer's own assertions hold on what it fetches. */
  lemma QueryPasses(env: Env, hb: nat, calls: seq<Call>, cids: seq<u16>, cid: u16, ticks: seq<nat>)
    requires InOrder(calls) && WellTyped(env, calls) && 1 <= hb && CodecReady(env, hb, calls)
    requires Distinct(cids) && (forall c :: c in cids <==> c in env) && cid in env
    requires ticks != [] && R.Increasing(ticks)
    ensures DoAll(calls).Some?
    ensures var rows := Rows(hb, DbOf(calls, cids));
            ReplayRows(env, map[], R.FetchLookback(rows, R.Anchor(rows, ticks[0]), Last(ticks), hb)).Some?
  {
    hide ValidDb, DbOf, Rows, R.UpTo, R.FetchLookback, R.RowsIncrease;
    DatabaseValid(env, hb, calls, cids);
    var rows := Rows(hb, DbOf(calls, cids));
    if R.UpTo(rows, ticks[0]) > 0 {
      R.FetchedAll(env, hb, DbOf(calls, cids), cid, ticks[0], Last(ticks));
    } else {
      TimesOf(env, hb, DbOf(calls, cids));
      R.RowTimes(hb, DbOf(calls, cids));
      R.FetchIsWarmup(rows, ticks[0], Last(ticks), hb);
    }
  }
}
