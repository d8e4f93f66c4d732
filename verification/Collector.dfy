/** The collection front end: entry points, the ledger of the current time, and the ledgers handed to the pipeline. */
module Collector {
  import opened Bytes
  import opened Records
  import opened Chain
  import opened Runs

  /** Everything staged and closed at one simulation time. A collectable has one type, so the three typed record
      lists of the source are one list here. */
  datatype Ledger = Ledger(window: nat, time: nat, records: seq<(u16, Snapshot)>, closed: set<u16>)

  function SnapsOf(records: seq<(u16, Snapshot)>, cid: u16): seq<Snapshot>
  {
    if records == [] then []
    else SnapsOf(Init(records), cid) + if Last(records).0 == cid then [Last(records).1] else []
  }

  /** What the stager makes of a ledger: a close is skipped for a collectable with data in the same ledger. */
  function EventIn(l: Ledger, cid: u16): Event
  {
    var snaps := SnapsOf(l.records, cid);
    if snaps != [] then Stage(snaps) else if cid in l.closed then Shut else Idle
  }

  function LedgerRun(ledgers: seq<Ledger>, cid: u16): (run: seq<Window>)
    ensures |run| == |ledgers|
  {
    seq(|ledgers|, i requires 0 <= i < |ledgers| => Window(ledgers[i].time, EventIn(ledgers[i], cid)))
  }

  // ----- the collector's state -----

  /** open: the collectables whose entry point is not closed. */
  datatype Front = Front(stageTime: Option<nat>, nextWindow: nat, ledger: Option<Ledger>, sent: seq<Ledger>,
      open: set<u16>)

  const START := Front(None, 1, None, [], {})

  datatype Act = Set(snap: Snapshot) | CloseIt

  /** One entry-point call. */
  datatype Call = Call(time: nat, cid: u16, act: Act)

  /** Setting a value without any bytes is a close. */
  function ActOf(snap: Snapshot): Act
  {
    match snap
    case Scalar(v) => if v == [] then CloseIt else Set(snap)
    case Contig(bins) => if bins == [] then CloseIt else Set(snap)
    case Sparse(m) => if m == map[] then CloseIt else Set(snap)
  }

  /** What the entry point makes of a call. */
  function Means(c: Call): Act
  {
    if c.act.Set? then ActOf(c.act.snap) else CloseIt
  }

  /** checkTimeAdvanced_; None is the failed assertion that time does not go back. */
  function AtTime(f: Front, now: nat): Option<Front>
  {
    var next := Ledger(f.nextWindow, now, [], {});
    if f.stageTime.None? then Some(f.(stageTime := Some(now), ledger := Some(next), nextWindow := f.nextWindow + 1))
    else if now < f.stageTime.value then None
    else if now == f.stageTime.value then Some(f)
    else if f.ledger.Some? then
      Some(Front(Some(now), f.nextWindow + 1, Some(next), f.sent + [f.ledger.value], f.open))
    else Some(f.(stageTime := Some(now)))
  }

  /** The collector on one value to stage or collectable to close. */
  function Enter(f: Front, now: nat, cid: u16, act: Act): Option<Front>
  {
    match AtTime(f, now)
    case None => None
    case Some(g) =>
      if g.ledger.None? then None
      else
        var l := g.ledger.value;
        match act
        case Set(s) => Some(g.(ledger := Some(l.(records := l.records + [(cid, s)])), open := g.open + {cid}))
        case CloseIt => Some(g.(ledger := Some(l.(closed := l.closed + {cid})), open := g.open - {cid}))
  }

  /** One call: a close of what is not open is ignored. */
  function Do(f: Front, c: Call): Option<Front>
  {
    if Means(c).CloseIt? && c.cid !in f.open then Some(f) else Enter(f, c.time, c.cid, Means(c))
  }

  function DoAll(calls: seq<Call>): Option<Front>
  {
    if calls == [] then Some(START)
    else
      match DoAll(Init(calls))
      case None => None
      case Some(f) => Do(f, Last(calls))
  }

  /** All ledgers: those sent and the one that preTeardown sends. */
  function Ledgers(f: Front): seq<Ledger>
  {
    f.sent + if f.ledger.Some? then [f.ledger.value] else []
  }

  // ----- what the caller meant -----

  function Meant(calls: seq<Call>, cid: u16): Truth
  {
    if calls == [] then Never
    else
      var before, c := Meant(Init(calls), cid), Last(calls);
      if c.cid != cid then before
      else
        match Means(c)
        case Set(s) => Open(s)
        case CloseIt => if before.Open? then Ended(true) else before
  }

  /** Time of the last Set. */
  function SetTime(calls: seq<Call>, cid: u16): Option<nat>
  {
    if calls == [] then None
    else if Last(calls).cid == cid && Means(Last(calls)).Set? then Some(Last(calls).time)
    else SetTime(Init(calls), cid)
  }

  /** What the last Set set. */
  function SetSnap(calls: seq<Call>, cid: u16): Option<Snapshot>
  {
    if calls == [] then None
    else if Last(calls).cid == cid && Means(Last(calls)).Set? then Some(Means(Last(calls)).snap)
    else SetSnap(Init(calls), cid)
  }

  /** Time of the last close of an open collectable. */
  function CloseTime(calls: seq<Call>, cid: u16): Option<nat>
  {
    if calls == [] then None
    else if Last(calls).cid == cid && Means(Last(calls)).CloseIt? && Meant(Init(calls), cid).Open? then
      Some(Last(calls).time)
    else CloseTime(Init(calls), cid)
  }

  /** The collectable was last closed at the very time it was last set. */
  predicate LostClose(calls: seq<Call>, cid: u16)
  {
    Meant(calls, cid).Ended? && CloseTime(calls, cid) == SetTime(calls, cid)
  }

  predicate InOrder(calls: seq<Call>)
  {
    forall i, j :: 0 <= i < j < |calls| ==> calls[i].time <= calls[j].time
  }

  // ----- what was meant, from the calls themselves -----

  /** A collectable has been given a value with bytes. */
  ghost predicate EverSet(calls: seq<Call>, cid: u16)
  {
    exists i :: 0 <= i < |calls| && Gives(calls[i], cid)
  }

  /** A call that gives the collectable a value with bytes. */
  predicate Gives(c: Call, cid: u16)
  {
    c.cid == cid && c.act.Set? && c.act.snap != Scalar([]) && c.act.snap != Contig([]) && c.act.snap != Sparse(map[])
  }

  lemma MeansGives(c: Call)
    ensures Means(c) == if Gives(c, c.cid) then c.act else CloseIt
  {
  }

  /** The last call on a collectable decides: a value with bytes is what it is meant to be from then on, and anything
      else closes it, which is to be seen if it ever had a value. */
  lemma {:induction false} LastCallDecides(calls: seq<Call>, cid: u16, k: nat)
    requires k < |calls| && calls[k].cid == cid && forall i :: k < i < |calls| ==> calls[i].cid != cid
    ensures Meant(calls, cid) == if Gives(calls[k], cid) then Open(calls[k].act.snap)
                                 else if EverSet(calls, cid) then Ended(true) else Never
    decreases |calls|
  {
    hide Means, Gives;
    var pre := Init(calls);
    EverMeans(pre, cid);
    MeansGives(Last(calls));
    OthersGive(Last(calls), cid);
    if k < |pre| {
      LastCallDecides(pre, cid, k);
      EverSetOn(calls, cid);
    } else {
      EverSetOn(calls, cid);
    }
  }

  lemma EverSetOn(calls: seq<Call>, cid: u16)
    requires calls != []
    ensures EverSet(calls, cid) <==> EverSet(Init(calls), cid) || Gives(Last(calls), cid)
  {
    if EverSet(Init(calls), cid) {
      var i :| 0 <= i < |Init(calls)| && Gives(Init(calls)[i], cid);
      assert Gives(calls[i], cid);
    }
    if Gives(Last(calls), cid) { assert Gives(calls[|calls| - 1], cid); }
    if EverSet(calls, cid) {
      var i :| 0 <= i < |calls| && Gives(calls[i], cid);
      assert i < |calls| - 1 ==> Init(calls)[i] == calls[i];
    }
  }

  lemma {:induction false} EverMeans(calls: seq<Call>, cid: u16)
    ensures EverSet(calls, cid) <==> !Meant(calls, cid).Never?
    ensures Meant(calls, cid).Ended? ==> Meant(calls, cid).hadData
    decreases |calls|
  {
    if calls != [] {
      hide Means, Gives, EverSet;
      EverMeans(Init(calls), cid);
      EverSetOn(calls, cid);
      MeansGives(Last(calls));
      OthersGive(Last(calls), cid);
    } else {
      assert !EverSet(calls, cid);
    }
  }

  lemma OthersGive(c: Call, cid: u16)
    ensures c.cid != cid ==> !Gives(c, cid)
    ensures Gives(c, cid) ==> c.act.Set?
  {
  }

  /** Without any call on it nothing is meant. */
  lemma {:induction false} NoCallNothing(calls: seq<Call>, cid: u16)
    requires forall i :: 0 <= i < |calls| ==> calls[i].cid != cid
    ensures Meant(calls, cid) == Never
    decreases |calls|
  {
    if calls != [] { NoCallNothing(Init(calls), cid); }
  }

  // ----- the ledgers -----

  ghost predicate Numbered(ls: seq<Ledger>)
  {
    && (forall i :: 0 <= i < |ls| ==> ls[i].window == i + 1)
    && (forall i, j :: 0 <= i < j < |ls| ==> ls[i].time < ls[j].time)
  }

  /** Windows are numbered in order, times strictly increase, and the current ledger is the one of the stage time. */
  ghost predicate WellKept(f: Front)
  {
    && Numbered(Ledgers(f))
    && f.nextWindow == |Ledgers(f)| + 1
    && (f.stageTime.Some? <==> f.ledger.Some?) && (f.stageTime.None? ==> f.sent == [])
    && (f.ledger.Some? ==> f.ledger.value.time == f.stageTime.value)
  }

  lemma NumberedOn(ls: seq<Ledger>, l: Ledger)
    requires Numbered(ls) && l.window == |ls| + 1 && (ls != [] ==> Last(ls).time < l.time)
    ensures Numbered(ls + [l])
  {
    forall i | 0 <= i < |ls| ensures ls[i].time < l.time {
      assert ls[i].time <= Last(ls).time;
    }
  }

  /** What checkTimeAdvanced_ does to the ledgers: nothing, or one more, empty and newer. */
  lemma AdvanceKeeps(f: Front, now: nat)
    requires WellKept(f) && (f.stageTime.Some? ==> f.stageTime.value <= now)
    ensures AtTime(f, now).Some?
    ensures var g := AtTime(f, now).value;
            && WellKept(g) && g.ledger.Some? && g.stageTime == Some(now) && g.open == f.open
            && (if f.stageTime == Some(now) then g == f
                else Ledgers(g) == Ledgers(f) + [Ledger(f.nextWindow, now, [], {})])
  {
    if f.stageTime != Some(now) {
      hide Numbered;
      NumberedOn(Ledgers(f), Ledger(f.nextWindow, now, [], {}));
      assert Ledgers(AtTime(f, now).value) == Ledgers(f) + [Ledger(f.nextWindow, now, [], {})];
    }
  }

  lemma SameShape(sent: seq<Ledger>, l: Ledger, l': Ledger)
    requires Numbered(sent + [l]) && l'.window == l.window && l'.time == l.time
    ensures Numbered(sent + [l'])
  {
    var a, b := sent + [l], sent + [l'];
    assert forall i :: 0 <= i < |a| ==> a[i].window == b[i].window && a[i].time == b[i].time;
  }

  /** A run of calls in time order never fails, and the ledgers it leaves are numbered and ordered. */
  lemma {:induction false} LedgersInOrder(calls: seq<Call>)
    requires InOrder(calls)
    ensures DoAll(calls).Some? && WellKept(DoAll(calls).value)
    ensures var f := DoAll(calls).value; f.stageTime.Some? ==> calls != [] && f.stageTime.value <= Last(calls).time
    decreases |calls|
  {
    if calls != [] {
      hide WellKept;
      LedgersInOrder(Init(calls));
      DoKeeps(DoAll(Init(calls)).value, Last(calls));
    } else {
      assert WellKept(START);
    }
  }

  lemma DoKeeps(f: Front, c: Call)
    requires WellKept(f) && (f.stageTime.Some? ==> f.stageTime.value <= c.time)
    ensures Do(f, c).Some? && WellKept(Do(f, c).value)
    ensures Do(f, c).value.stageTime.Some? ==> Do(f, c).value.stageTime.value <= c.time
  {
    hide Numbered;
    AdvanceKeeps(f, c.time);
    var g, h := AtTime(f, c.time).value, Do(f, c).value;
    if h != f { SameShape(g.sent, g.ledger.value, h.ledger.value); }
  }

  // ----- what reaches the pipeline -----

  lemma TruthOn(sent: seq<Ledger>, l: Ledger, cid: u16)
    ensures TruthOf(LedgerRun(sent + [l], cid)) == Advance(TruthOf(LedgerRun(sent, cid)), EventIn(l, cid))
  {
    var run := LedgerRun(sent + [l], cid);
    assert Init(run) == LedgerRun(sent, cid) && Last(run).event == EventIn(l, cid);
  }

  function Reached(f: Front, cid: u16): Truth
  {
    TruthOf(LedgerRun(Ledgers(f), cid))
  }

  /** How the pipeline's view of a collectable follows what was meant. */
  ghost predicate Tracks(f: Front, calls: seq<Call>, cid: u16)
  {
    && (cid in f.open <==> Meant(calls, cid).Open?)
    && (Meant(calls, cid).Open? ==> SetSnap(calls, cid) == Some(Meant(calls, cid).snap))
    && (if LostClose(calls, cid) then SetSnap(calls, cid).Some? && Reached(f, cid) == Open(SetSnap(calls, cid).value)
        else Reached(f, cid) == Meant(calls, cid))
    && (f.ledger.Some? ==> (SnapsOf(f.ledger.value.records, cid) != [] <==>
        SetTime(calls, cid) == Some(f.ledger.value.time)))
    && (SetTime(calls, cid).Some? ==> f.stageTime.Some? && SetTime(calls, cid).value <= f.stageTime.value)
  }

  lemma AdvanceTracks(f: Front, calls: seq<Call>, cid: u16, now: nat)
    requires WellKept(f) && Tracks(f, calls, cid) && (f.stageTime.Some? ==> f.stageTime.value <= now)
    ensures AtTime(f, now).Some? && Tracks(AtTime(f, now).value, calls, cid)
  {
    hide WellKept, TruthOf, Meant, SetTime, SetSnap, CloseTime, Ledgers, LedgerRun;
    AdvanceKeeps(f, now);
    if f.stageTime != Some(now) {
      TruthOn(Ledgers(f), Ledger(f.nextWindow, now, [], {}), cid);
      NewLedger(f, now);
    }
  }

  lemma NewLedger(f: Front, now: nat)
    requires AtTime(f, now).Some? && f.stageTime != Some(now) && WellKept(f)
    ensures AtTime(f, now).value.ledger.value == Ledger(f.nextWindow, now, [], {})
    ensures AtTime(f, now).value.stageTime == Some(now)
  {
  }

  lemma SnapsOn(records: seq<(u16, Snapshot)>, cid: u16, s: Snapshot, other: u16)
    ensures SnapsOf(records + [(cid, s)], other) == if cid == other then SnapsOf(records, other) + [s]
              else SnapsOf(records, other)
  {
    assert Init(records + [(cid, s)]) == records;
    assert SnapsOf(records, other) + [] == SnapsOf(records, other);
  }

  lemma MeantOn(calls: seq<Call>, c: Call, cid: u16)
    ensures Meant(calls + [c], cid) ==
            if c.cid != cid then Meant(calls, cid)
            else match Means(c)
                 case Set(s) => Open(s)
                 case CloseIt => if Meant(calls, cid).Open? then Ended(true) else Meant(calls, cid)
    ensures SetTime(calls + [c], cid) == if c.cid == cid && Means(c).Set? then Some(c.time) else SetTime(calls, cid)
    ensures SetSnap(calls + [c], cid) ==
            if c.cid == cid && Means(c).Set? then Some(Means(c).snap) else SetSnap(calls, cid)
    ensures CloseTime(calls + [c], cid) ==
            if c.cid == cid && Means(c).CloseIt? && Meant(calls, cid).Open? then Some(c.time) else CloseTime(calls, cid)
  {
    assert Init(calls + [c]) == calls;
  }

  lemma ReachedIs(g: Front, cid: u16)
    requires g.ledger.Some?
    ensures Reached(g, cid) == Advance(TruthOf(LedgerRun(g.sent, cid)), EventIn(g.ledger.value, cid))
  {
    TruthOn(g.sent, g.ledger.value, cid);
  }

  /** One call, at the current time. */
  lemma CallTracks(g: Front, calls: seq<Call>, c: Call, cid: u16)
    requires Tracks(g, calls, cid) && g.stageTime == Some(c.time) && g.ledger.Some? && g.ledger.value.time == c.time
    requires Means(c).CloseIt? ==> c.cid in g.open
    ensures Do(g, c).Some? && Tracks(Do(g, c).value, calls + [c], cid)
  {
    hide TruthOf, LedgerRun, Meant, SetTime, SetSnap, CloseTime, Reached, SnapsOf;
    var h := Do(g, c).value;
    MeantOn(calls, c, cid);
    ReachedIs(g, cid);
    ReachedIs(h, cid);
    if Means(c).Set? { SnapsOn(g.ledger.value.records, c.cid, Means(c).snap, cid); }
  }

  lemma {:induction false} AllTrack(calls: seq<Call>, cid: u16)
    requires InOrder(calls)
    ensures DoAll(calls).Some? && WellKept(DoAll(calls).value) && Tracks(DoAll(calls).value, calls, cid)
    decreases |calls|
  {
    LedgersInOrder(calls);
    if calls == [] {
      assert LedgerRun(Ledgers(START), cid) == [];
    } else {
      hide WellKept, Tracks, Do, AtTime, Means;
      var before, c := Init(calls), Last(calls);
      AllTrack(before, cid);
      LedgersInOrder(before);
      var f := DoAll(before).value;
      assert calls == before + [c];
      if Means(c).CloseIt? && c.cid !in f.open {
        IgnoredClose(f, before, c, cid);
        assert Do(f, c) == Some(f) by { Ignored(f, c); }
      } else {
        AdvanceTracks(f, before, cid, c.time);
        AdvanceKeeps(f, c.time);
        var g := AtTime(f, c.time).value;
        assert g.ledger.value.time == c.time by { Current(g); }
        CallTracks(g, before, c, cid);
        assert Do(f, c) == Do(g, c) by { AtOwnTime(f, c); }
      }
    }
  }

  lemma Ignored(f: Front, c: Call)
    requires Means(c).CloseIt? && c.cid !in f.open
    ensures Do(f, c) == Some(f)
  {
  }

  /** A call does the same once its time has been entered. */
  lemma AtOwnTime(f: Front, c: Call)
    requires WellKept(f) && AtTime(f, c.time).Some? && (Means(c).Set? || c.cid in f.open)
    ensures Do(f, c) == Do(AtTime(f, c.time).value, c)
  {
    hide WellKept, Means;
  }

  lemma Current(g: Front)
    requires WellKept(g) && g.ledger.Some?
    ensures g.stageTime == Some(g.ledger.value.time)
  {
  }

  /** A close of a closed collectable changes nothing, and nothing was to change. */
  lemma IgnoredClose(f: Front, calls: seq<Call>, c: Call, cid: u16)
    requires WellKept(f) && Tracks(f, calls, cid) && Means(c).CloseIt? && c.cid !in f.open
    ensures Tracks(f, calls + [c], cid)
  {
    hide TruthOf, LedgerRun, Meant, SetTime, SetSnap, CloseTime, Reached, SnapsOf;
    MeantOn(calls, c, cid);
  }

  /** After any calls in time order, the pipeline holds what the caller meant, except exactly when the collectable was
      last closed at the very time it was last set: then the close was dropped, and it stays open for the pipeline,
      with what was last set, however often it is closed again. */
  lemma CloseExact(calls: seq<Call>, cid: u16)
    requires InOrder(calls)
    ensures DoAll(calls).Some?
    ensures Reached(DoAll(calls).value, cid) == Meant(calls, cid) <==> !LostClose(calls, cid)
    ensures LostClose(calls, cid) ==>
              SetSnap(calls, cid).Some? && Reached(DoAll(calls).value, cid) == Open(SetSnap(calls, cid).value)
  {
    hide Reached, SetTime, SetSnap, CloseTime;
    AllTrack(calls, cid);
  }

  /** Set and closed at one time, be it by a value without bytes: the pipeline never hears of the close. */
  lemma CloseIsLost(cid: u16, s: Snapshot, second: Act)
    requires ActOf(s).Set? && Means(Call(0, cid, second)).CloseIt?
    ensures var calls := [Call(0, cid, Set(s)), Call(0, cid, second)];
            && InOrder(calls) && DoAll(calls).Some? && LostClose(calls, cid)
            && Meant(calls, cid) == Ended(true) && Reached(DoAll(calls).value, cid) == Open(s)
  {
    var first, calls := [Call(0, cid, Set(s))], [Call(0, cid, Set(s)), Call(0, cid, second)];
    assert Init(calls) == first && Init(first) == [];
    var l := Ledger(1, 0, [(cid, s)], {cid});
    var nobody: set<u16>, nothing: seq<(u16, Snapshot)> := {}, [];
    assert nothing + [(cid, s)] == [(cid, s)] && nobody + {cid} == {cid} && {cid} - {cid} == nobody;
    assert ActOf(s) == Set(s);
    var open := Front(Some(0), 2, Some(l.(closed := {})), [], {cid});
    assert Enter(START, 0, cid, Set(s)) == Some(open);
    assert DoAll([]) == Some(START);
    assert DoAll(first) == Some(open);
    assert Enter(open, 0, cid, CloseIt) == Some(Front(Some(0), 2, Some(l), [], {}));
    assert DoAll(calls) == Some(Front(Some(0), 2, Some(l), [], {}));
    LostAgain(cid, l, s);
  }

  lemma LostAgain(cid: u16, l: Ledger, s: Snapshot)
    requires l == Ledger(1, 0, [(cid, s)], {cid})
    ensures Reached(Front(Some(0), 2, Some(l), [], {}), cid) == Open(s)
  {
    var nothing: seq<Ledger> := [];
    assert nothing + [l] == [l] && Init([(cid, s)]) == [];
    TruthOn([], l, cid);
    assert LedgerRun([], cid) == [];
  }

  /** Setting a container to one without any bin closes it: a sparse container that is meant to be empty shows as None
      from then on, and not as slots without bins. */
  lemma EmptySetCloses(cid: u16, s: Snapshot, capacity: nat, width: nat)
    requires ActOf(s).Set? && s.Sparse?
    ensures var calls := [Call(0, cid, Set(s)), Call(1, cid, Set(Sparse(map[])))];
            var kind := SparseKind(width, capacity);
            && Meant(calls, cid) == Ended(true) && !LostClose(calls, cid)
            && TruthCell(kind, Meant(calls, cid)) == NoneValue != View(kind, Sparse(map[]))
  {
    var calls := [Call(0, cid, Set(s)), Call(1, cid, Set(Sparse(map[])))];
    assert Init(calls) == [calls[0]] && Init([calls[0]]) == [];
    assert ActOf(s) == Set(s);
    assert SetTime([calls[0]], cid) == Some(0);
  }

  // ----- the front end, as it is written -----

  class ArgosCollector {
    var currentStageTime: Option<nat>
    var currentWindowId: nat
    var ledger: Option<Ledger>
    var pipelineHead: seq<Ledger>

    ghost function Model(open: set<u16>): Front
      reads this
    {
      Front(currentStageTime, currentWindowId, ledger, pipelineHead, open)
    }

    /** What the ledger of that time holds already. */
    ghost function RecordsAt(now: nat): seq<(u16, Snapshot)>
      reads this
    {
      if currentStageTime == Some(now) && ledger.Some? then ledger.value.records else []
    }

    ghost function ClosedAt(now: nat): set<u16>
      reads this
    {
      if currentStageTime == Some(now) && ledger.Some? then ledger.value.closed else {}
    }

    /** Time does not go back, and the collector has not been torn down. */
    ghost predicate Accepts(now: nat)
      reads this
    {
      currentStageTime.None? || (currentStageTime.value <= now && ledger.Some?)
    }

    constructor ()
      ensures Model({}) == START
    {
      currentStageTime, currentWindowId, ledger, pipelineHead := None, 1, None, [];
    }

    /** checkTimeAdvanced_. */
    method CheckTimeAdvanced(now: nat) returns (ok: bool)
      modifies this
      ensures forall open :: ok <==> AtTime(old(Model(open)), now).Some?
      ensures forall open :: ok ==> AtTime(old(Model(open)), now) == Some(Model(open))
      ensures ok && ledger.Some? <==> old(Accepts(now))
      ensures ok && ledger.Some? ==>
                && currentStageTime == Some(now)
                && ledger.value.records == old(RecordsAt(now)) && ledger.value.closed == old(ClosedAt(now))
                && ledger.value.time == if old(currentStageTime) == Some(now) then old(ledger).value.time else now
    {
      if currentStageTime.None? {
        currentStageTime := Some(now);
        ledger := Some(Ledger(currentWindowId, now, [], {}));
        currentWindowId := currentWindowId + 1;
      } else if now < currentStageTime.value {
        return false;
      } else if now > currentStageTime.value {
        if ledger.Some? {
          pipelineHead := pipelineHead + [ledger.value];
          ledger := Some(Ledger(currentWindowId, now, [], {}));
          currentWindowId := currentWindowId + 1;
        }
        currentStageTime := Some(now);
      }
      ok := true;
    }

    method Stage(cid: u16, snap: Snapshot, now: nat) returns (ok: bool)
      modifies this
      ensures ok <==> old(Accepts(now))
      ensures ok ==>
                && currentStageTime == Some(now) && ledger.Some?
                && ledger.value.records == old(RecordsAt(now)) + [(cid, snap)]
      ensures forall open :: ok <==> Enter(old(Model(open)), now, cid, Set(snap)).Some?
      ensures forall open :: ok ==> Enter(old(Model(open)), now, cid, Set(snap)) == Some(Model(open + {cid}))
    {
      ok := CheckTimeAdvanced(now);
      if !ok || ledger.None? { return false; }
      ledger := Some(ledger.value.(records := ledger.value.records + [(cid, snap)]));
    }

    method CloseRecord(cid: u16, now: nat) returns (ok: bool)
      modifies this
      ensures ok <==> old(Accepts(now))
      ensures ok ==>
                && ledger.Some? && ledger.value.closed == old(ClosedAt(now)) + {cid}
                && ledger.value.records == old(RecordsAt(now))
      ensures forall open :: ok <==> Enter(old(Model(open)), now, cid, CloseIt).Some?
      ensures forall open :: ok ==> Enter(old(Model(open)), now, cid, CloseIt) == Some(Model(open - {cid}))
    {
      ok := CheckTimeAdvanced(now);
      if !ok || ledger.None? { return false; }
      ledger := Some(ledger.value.(closed := ledger.value.closed + {cid}));
    }

    /** preTeardown: the last ledger goes to the pipeline too. */
    method PreTeardown()
      modifies this
      ensures pipelineHead == if ledger.None? && old(ledger).Some? then Ledgers(old(Model({}))) else old(pipelineHead)
      ensures old(ledger).Some? && (old(ledger).value.records != [] || old(ledger).value.closed != {}) ==> ledger.None?
    {
      if ledger.Some? && (ledger.value.records != [] || ledger.value.closed != {}) {
        pipelineHead := pipelineHead + [ledger.value];
        ledger := None;
      }
    }
  }

  class EntryPoint {
    const cid: u16
    const stagerInterface: ArgosCollector
    var closed: bool

    constructor (cid: u16, stagerInterface: ArgosCollector)
      ensures this.cid == cid && this.stagerInterface == stagerInterface && closed
    {
      this.cid := cid;
      this.stagerInterface := stagerInterface;
      closed := true;
    }

    /** The collector, with this entry point's flag among those of the others. */
    ghost function Model(others: set<u16>): Front
      reads this, stagerInterface
    {
      stagerInterface.Model(others - {cid} + if closed then {} else {cid})
    }

    method CloseRecord(now: nat) returns (ok: bool)
      modifies this, stagerInterface
      ensures closed && (old(closed) ==> ok && unchanged(stagerInterface))
      ensures !old(closed) ==> (ok <==> old(stagerInterface.Accepts(now)))
      ensures !old(closed) && ok ==>
                && stagerInterface.ledger.Some?
                && stagerInterface.ledger.value.closed == old(stagerInterface.ClosedAt(now)) + {cid}
                && stagerInterface.ledger.value.records == old(stagerInterface.RecordsAt(now))
      ensures forall others :: ok <==> Do(old(Model(others)), Call(now, cid, CloseIt)).Some?
      ensures forall others :: ok ==> Do(old(Model(others)), Call(now, cid, CloseIt)) == Some(Model(others))
    {
      ok := true;
      if !closed {
        closed := true;
        label marked:
        ok := stagerInterface.CloseRecord(cid, now);
        assert forall others :: (others - {cid} + {cid}) - {cid} == others - {cid} + {};
        forall others ensures ok <==> Do(old(Model(others)), Call(now, cid, CloseIt)).Some? {
          var open := others - {cid} + {cid};
          assert old(Model(others)) == old(stagerInterface.Model(open)) == old@marked(stagerInterface.Model(open));
          assert ok <==> Enter(old@marked(stagerInterface.Model(open)), now, cid, CloseIt).Some?;
          assert cid in open;
        }
      }
    }

    /** setScalarValueBytes, setContigContainerBinBytes and setSparseContainerBinBytes. */
    method SetValueBytes(snap: Snapshot, now: nat) returns (ok: bool)
      modifies this, stagerInterface
      ensures forall others :: ok <==> Do(old(Model(others)), Call(now, cid, Set(snap))).Some?
      ensures forall others :: ok ==> Do(old(Model(others)), Call(now, cid, Set(snap))) == Some(Model(others))
      ensures closed <==> snap == Scalar([]) || snap == Contig([]) || snap == Sparse(map[])
      ensures closed && old(closed) ==> ok && unchanged(stagerInterface)
      ensures closed && !old(closed) && ok ==>
                && stagerInterface.ledger.Some?
                && stagerInterface.ledger.value.closed == old(stagerInterface.ClosedAt(now)) + {cid}
                && stagerInterface.ledger.value.records == old(stagerInterface.RecordsAt(now))
      ensures !closed && ok ==>
                && stagerInterface.currentStageTime == Some(now) && stagerInterface.ledger.Some?
                && stagerInterface.ledger.value.records == old(stagerInterface.RecordsAt(now)) + [(cid, snap)]
      ensures !closed ==> (ok <==> old(stagerInterface.Accepts(now)))
    {
      var empty :=
        match snap
        case Scalar(v) => v == []
        case Contig(bins) => bins == []
        case Sparse(m) => m == map[];
      if empty {
        ok := CloseRecord(now);
        return;
      }
      ghost var wasClosed := closed;
      closed := false;
      ok := stagerInterface.Stage(cid, snap, now);
      forall others ensures ok <==> Do(old(Model(others)), Call(now, cid, Set(snap))).Some? {
        var open := others - {cid} + if wasClosed then {} else {cid};
        assert old(Model(others)) == old(stagerInterface.Model(open));
      }
      assert forall others :: (others - {cid} + if wasClosed then {} else {cid}) + {cid} == others - {cid} + {cid};
    }
  }
}
