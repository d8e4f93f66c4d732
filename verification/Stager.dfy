/** The first pipeline stage: ledgers are turned into checkpoints, and checkpoints into rows. */
module Stager {
  import opened Bytes
  import opened Records
  import opened Wire
  import opened Chain
  import opened Runs
  import opened Database
  import opened Collector
  import opened Checkpointer
  import opened Refinement
  import opened Sendable
  import Encoder

  /** A ledger as a window of the database. */
  function TickOf(l: Ledger, order: seq<u16>): Tick
  {
    Tick(l.time, map cid | cid in order :: EventIn(l, cid), order)
  }

  function TicksOf(ledgers: seq<Ledger>, order: seq<u16>): (ticks: seq<Tick>)
    ensures |ticks| == |ledgers|
    ensures forall i :: 0 <= i < |ticks| ==> ticks[i] == TickOf(ledgers[i], order)
  {
    seq(|ledgers|, i requires 0 <= i < |ledgers| => TickOf(ledgers[i], order))
  }

  lemma TicksOn(ledgers: seq<Ledger>, order: seq<u16>)
    requires ledgers != []
    ensures Init(TicksOf(ledgers, order)) == TicksOf(Init(ledgers), order)
    ensures Last(TicksOf(ledgers, order)) == TickOf(Last(ledgers), order)
  {
  }

  /** A collectable's run in the database is its run in the ledgers. */
  lemma SameRun(ledgers: seq<Ledger>, order: seq<u16>, cid: u16)
    requires cid in order
    ensures RunOf(TicksOf(ledgers, order), cid) == LedgerRun(ledgers, cid)
  {
  }

  method MakeCheckpointers(heartbeat: nat, env: Env, cids: seq<u16>) returns (made: map<u16, CollectableCheckpointer>)
    requires Distinct(cids) && forall cid :: cid in cids <==> cid in env
    ensures forall cid :: cid in made <==> cid in cids
    ensures forall cid :: cid in made ==>
              && fresh(made[cid]) && made[cid].Valid() && made[cid].Model() == INITIAL && made[cid].chain == []
              && made[cid].heartbeat == heartbeat && made[cid].capacity == CapacityOf(env[cid])
    ensures forall c, d :: c in made && d in made && c != d ==> made[c] != made[d]
  {
    hide CollectableCheckpointer.Valid, CollectableCheckpointer.Model;
    made := map[];
    for i := 0 to |cids|
      invariant forall cid :: cid in made <==> cid in cids[..i]
      invariant forall cid :: cid in made ==>
                  && fresh(made[cid]) && made[cid].Valid() && made[cid].Model() == INITIAL && made[cid].chain == []
                  && made[cid].heartbeat == heartbeat && made[cid].capacity == CapacityOf(env[cid])
      invariant forall c, d :: c in made && d in made && c != d ==> made[c] != made[d]
    {
      var cid := cids[i];
      assert cid in cids && cids[..i + 1] == cids[..i] + [cid];
      var added := new CollectableCheckpointer(heartbeat, CapacityOf(env[cid]));
      assert added.chain == [] by { Unused(added); }
      made := made[cid := added];
    }
    assert cids[..|cids|] == cids;
  }

  lemma NothingDone(hb: nat, cids: seq<u16>)
    ensures forall cid :: RunState(hb, LedgerRun([], cid)) == INITIAL
    ensures Rows(hb, TicksOf([], cids)) == []
  {
    assert forall cid :: LedgerRun([], cid) == [];
  }

  function SetOf(chain: seq<Checkpoint>): (nodes: set<object>)
    ensures forall k :: 0 <= k < |chain| ==> chain[k] in nodes
  {
    set n | n in chain
  }

  ghost predicate Apart(a: seq<Checkpoint>, b: seq<Checkpoint>)
  {
    forall i, j :: 0 <= i < |a| && 0 <= j < |b| ==> a[i] != b[j]
  }

  class PipelineStager {
    const heartbeat: nat
    /** The collectables in the order of the checkpointer map. */
    const cids: seq<u16>
    const checkpointers: map<u16, CollectableCheckpointer>
    var mainInputQueue: seq<Ledger>
    /** What the later stages make of the output queue: one row an entry. */
    var output: seq<Row>
    ghost var done: seq<Ledger>
    /** The checkpointers and all their checkpoints. */
    ghost var Repr: set<object>

    ghost predicate Known(l: Ledger)
    {
      (forall i :: 0 <= i < |l.records| ==> l.records[i].0 in cids) && (forall cid :: cid in l.closed ==> cid in cids)
    }

    /** A checkpointer for every collectable, and no two share anything. */
    ghost predicate Separate()
      reads this, Repr
    {
      && this !in Repr && Distinct(cids) && (forall cid :: cid in cids <==> cid in checkpointers)
      && (forall cid :: cid in checkpointers ==> checkpointers[cid] in Repr)
      && (forall cid, k :: cid in checkpointers && 0 <= k < |checkpointers[cid].chain| ==>
          checkpointers[cid].chain[k] in Repr)
      && (forall cid :: cid in checkpointers ==>
          checkpointers[cid].Valid() && checkpointers[cid].heartbeat == heartbeat)
      && (forall c, d :: c in checkpointers && d in checkpointers && c != d ==>
            checkpointers[c] != checkpointers[d] && Apart(checkpointers[c].chain, checkpointers[d].chain))
    }

    ghost function States(): (states: map<u16, State>)
      reads this, Repr
      requires Separate()
    {
      map cid | cid in checkpointers :: checkpointers[cid].Model()
    }

    ghost predicate Valid()
      reads this, Repr
    {
      && Separate()
      && (forall cid :: cid in cids ==> States()[cid] == RunState(heartbeat, LedgerRun(done, cid)))
      && output == Rows(heartbeat, TicksOf(done, cids))
      && (forall i :: 0 <= i < |mainInputQueue| ==>
          Known(mainInputQueue[i]) && mainInputQueue[i].window == |done| + i + 1)
    }

    /** The kinds tell how large the containers may get. */
    constructor (heartbeat: nat, env: Env, cids: seq<u16>)
      requires Distinct(cids) && forall cid :: cid in cids <==> cid in env
      ensures Valid() && this.heartbeat == heartbeat && this.cids == cids && done == [] && mainInputQueue == []
      ensures Sized(env) && fresh(Repr)
    {
      hide CollectableCheckpointer.Valid, CollectableCheckpointer.Model, Separate, States;
      hide RunState, Rows, LedgerRun, TicksOf, CapacityOf;
      var made := MakeCheckpointers(heartbeat, env, cids);
      this.heartbeat := heartbeat;
      this.cids := cids;
      checkpointers := made;
      mainInputQueue, output, done := [], [], [];
      Repr := made.Values;
      new;
      StartsSeparate();
      NothingDone(heartbeat, cids);
    }

    lemma StartsSeparate()
      requires this !in Repr && Repr == checkpointers.Values && Distinct(cids)
      requires forall cid :: cid in cids <==> cid in checkpointers
      requires forall cid :: cid in checkpointers ==>
                 && checkpointers[cid].Valid() && checkpointers[cid].Model() == INITIAL
                     && checkpointers[cid].chain == []
                 && checkpointers[cid].heartbeat == heartbeat
      requires forall c, d :: c in checkpointers && d in checkpointers && c != d ==>
                 checkpointers[c] != checkpointers[d]
      ensures Separate() && forall cid :: cid in cids ==> cid in States() && States()[cid] == INITIAL
    {
      hide CollectableCheckpointer.Valid, CollectableCheckpointer.Model;
    }

    /** Ledgers arrive from the collector. */
    method Enqueue(ledgers: seq<Ledger>)
      requires Valid() && mainInputQueue == []
      requires forall i :: 0 <= i < |ledgers| ==> Known(ledgers[i]) && ledgers[i].window == |done| + i + 1
      modifies `mainInputQueue
      ensures Valid() && mainInputQueue == ledgers
    {
      hide RunState, Rows, LedgerRun, TicksOf, Separate, States, Known;
      Keys();
      mainInputQueue := ledgers;
      StaysSeparate();
    }

    lemma Written()
      requires Valid()
      ensures output == Rows(heartbeat, TicksOf(done, cids))
    {
    }

    ghost predicate Sized(env: Env)
    {
      (forall cid :: cid in cids <==> cid in env) && (forall cid :: cid in cids <==> cid in checkpointers)
      && forall cid :: cid in checkpointers ==> checkpointers[cid].capacity == CapacityOf(env[cid])
    }

    // ----- one checkpointer among all -----

    /** When only one checkpointer worked, and on nodes of its own or new ones, all are still separate. */
    twostate lemma StillSeparate(cid: u16)
      requires old(Separate()) && cid in checkpointers && checkpointers[cid].Valid()
                 && Repr == old(Repr) + SetOf(checkpointers[cid].chain)
      requires forall d :: d in checkpointers && d != cid ==>
                 unchanged(checkpointers[d]) && forall k :: 0 <= k < |checkpointers[d].chain| ==>
                     unchanged(checkpointers[d].chain[k])
      requires forall k :: 0 <= k < |checkpointers[cid].chain| ==>
                 checkpointers[cid].chain[k] in old(checkpointers[cid].chain) || fresh(checkpointers[cid].chain[k])
      ensures Separate() && fresh(Repr - old(Repr))
      ensures States() == old(States())[cid := checkpointers[cid].Model()]
    {
      hide CollectableCheckpointer.Valid, CollectableCheckpointer.Model;
      forall d | d in checkpointers && d != cid
        ensures Apart(checkpointers[cid].chain, checkpointers[d].chain)
                  && Apart(checkpointers[d].chain, checkpointers[cid].chain)
      {
        var mine, was, theirs := checkpointers[cid].chain, old(checkpointers[cid].chain), checkpointers[d].chain;
        assert Apart(was, theirs);
        forall i, j | 0 <= i < |mine| && 0 <= j < |theirs| ensures mine[i] != theirs[j] {
          if mine[i] in was {
            var k :| 0 <= k < |was| && was[k] == mine[i];
          }
        }
      }
      assert Separate();
    }

    method CreateCheckpoint(cid: u16, windowId: nat, snap: Snapshot) returns (ok: bool)
      requires Separate() && cid in checkpointers
      modifies `Repr, Repr
      ensures Separate() && fresh(Repr - old(Repr))
      ensures ok <==> SizeFits(checkpointers[cid].capacity, snap)
      ensures ok ==> States() == old(States())[cid := Push(old(States())[cid], Data(windowId, snap))]
    {
      hide CollectableCheckpointer.Valid, CollectableCheckpointer.Model, SizeFits, Encode, EncodeAsserts, WindowEnds;
      ok := checkpointers[cid].CreateCheckpoint(windowId, snap);
      Repr := Repr + SetOf(checkpointers[cid].chain);
      StillSeparate(cid);
    }

    method CloseRecord(cid: u16, windowId: nat)
      requires Separate() && cid in checkpointers
      modifies `Repr, Repr
      ensures Separate() && fresh(Repr - old(Repr))
      ensures States() == old(States())[cid := Push(old(States())[cid], Close(windowId))]
    {
      hide CollectableCheckpointer.Valid, CollectableCheckpointer.Model, SizeFits, Encode, EncodeAsserts, WindowEnds;
      checkpointers[cid].CloseRecord(windowId);
      Repr := Repr + SetOf(checkpointers[cid].chain);
      StillSeparate(cid);
    }

    method EncodeForPipeline(cid: u16, windowId: nat, simTime: nat) returns (out: Option<seq<Record>>)
      requires Separate() && cid in checkpointers && WindowEnds(States()[cid], heartbeat, windowId, simTime)
      modifies `Repr, Repr
      ensures Separate() && fresh(Repr - old(Repr))
      ensures out.Some? <==> EncodeAsserts(old(States())[cid], heartbeat, windowId, simTime)
      ensures out.Some? ==>
                var (st, records) := Encode(old(States())[cid], heartbeat, windowId, simTime);
                States() == old(States())[cid := st] && out.value == records
    {
      hide CollectableCheckpointer.Valid, CollectableCheckpointer.Model, SizeFits, Encode, EncodeAsserts, WindowEnds;
      out := checkpointers[cid].EncodeForPipeline(windowId, simTime);
      Repr := Repr + SetOf(checkpointers[cid].chain);
      StillSeparate(cid);
    }

    // ----- a ledger -----

    /** createCheckpoint for every record; false is a failed size assertion. */
    method StageRecords(l: Ledger) returns (ok: bool, chkptCids: set<u16>)
      requires Separate() && Known(l)
      modifies `Repr, Repr
      ensures Separate() && fresh(Repr - old(Repr))
      ensures ok <==> RecordsFit(l)
      ensures ok ==> forall cid :: cid in cids ==>
                States()[cid] == StageAll(old(States())[cid], l.window, SnapsOf(l.records, cid))
      ensures ok ==> forall cid :: cid in chkptCids <==> SnapsOf(l.records, cid) != []
    {
      hide StageAll, SnapsOf, SizeFits, Separate, States, Push, StagedUpTo;
      ghost var before := States();
      chkptCids := {};
      ok := true;
      Keys();
      StagedNone(before, l);
      var i := 0;
      while i < |l.records|
        invariant i <= |l.records| && Separate() && fresh(Repr - old(Repr)) && States() == StagedUpTo(before, l, i)
        invariant forall k :: 0 <= k < i ==> SizeFits(checkpointers[l.records[k].0].capacity, l.records[k].1)
        invariant chkptCids == CidsUpTo(l, i)
      {
        var (cid, snap) := l.records[i];
        StagedOne(before, l, i);
        ok := CreateCheckpoint(cid, l.window, snap);
        if !ok { return; }
        chkptCids := chkptCids + {cid};
        i := i + 1;
      }
      StagedEnd(before, l);
    }

    ghost predicate RecordsFit(l: Ledger)
      requires Known(l) && forall cid :: cid in cids <==> cid in checkpointers
    {
      forall i :: 0 <= i < |l.records| ==> SizeFits(checkpointers[l.records[i].0].capacity, l.records[i].1)
    }

    lemma Keys()
      requires Separate()
      ensures States().Keys == checkpointers.Keys && (forall cid :: cid in cids <==> cid in checkpointers)
                && Distinct(cids)
      ensures this !in Repr
    {
    }

    /** closeRecord for every closed collectable without a checkpoint in this ledger. */
    method CloseRecords(l: Ledger, chkptCids: set<u16>)
      requires Separate() && Known(l)
      modifies `Repr, Repr
      ensures Separate() && fresh(Repr - old(Repr))
      ensures forall cid :: cid in cids ==>
                States()[cid] == if cid in l.closed && cid !in chkptCids then Push(old(States())[cid], Close(l.window))
                                 else old(States())[cid]
    {
      hide Separate, States, Push, ClosedBut;
      ghost var before := States();
      Keys();
      ClosedNone(before, l, chkptCids);
      var rest := l.closed;
      while rest != {}
        invariant rest <= l.closed && Separate() && fresh(Repr - old(Repr))
        invariant States() == ClosedBut(before, l, chkptCids, rest)
        decreases |rest|
      {
        var cid :| cid in rest;
        ClosedOne(before, l, chkptCids, rest, cid);
        rest := rest - {cid};
        if cid !in chkptCids { CloseRecord(cid, l.window); }
      }
      ClosedEnd(before, l, chkptCids);
    }

    method StageLedger(l: Ledger) returns (ok: bool)
      requires Separate() && Known(l)
      modifies `Repr, Repr
      ensures Separate() && fresh(Repr - old(Repr))
      ensures ok <==> RecordsFit(l)
      ensures ok ==> forall cid :: cid in cids ==>
                States()[cid] == Staged(old(States())[cid], l.window, EventIn(l, cid))
    {
      hide StageAll, SnapsOf, SizeFits, Separate, States, Push;
      ghost var before := States();
      Keys();
      var chkptCids;
      ok, chkptCids := StageRecords(l);
      if !ok { return; }
      CloseRecords(l, chkptCids);
      forall cid | cid in cids ensures StageAll(before[cid], l.window, []) == before[cid] {
        NothingStaged(before[cid], l.window);
      }
    }

    /** The ledger's window, staged and not yet encoded. */
    ghost predicate Ready(l: Ledger)
      reads this, Repr
    {
      && Separate() && l.window == |done| + 1
      && (forall cid :: cid in cids ==>
            States()[cid] == Staged(RunState(heartbeat, LedgerRun(done, cid)), l.window, EventIn(l, cid)))
      && (forall cid :: cid in cids ==> StepEnds(heartbeat, LedgerRun(done + [l], cid)))
    }

    ghost predicate AssertsPass(done: seq<Ledger>, l: Ledger)
    {
      forall cid :: cid in cids ==>
        EncodeAsserts(Staged(RunState(heartbeat, LedgerRun(done, cid)), l.window, EventIn(l, cid)), heartbeat,
            l.window, l.time)
    }

    /** encodeForPipeline for every collectable; the bytes go into one blob in that order. false is a failed assertion
        on what is to be sent. */
    method EncodeWindow(l: Ledger) returns (ok: bool, blob: Bytes)
      requires Ready(l)
      modifies `Repr, Repr
      ensures Separate() && fresh(Repr - old(Repr))
      ensures ok <==> AssertsPass(done, l)
      ensures ok ==> forall cid :: cid in cids ==> States()[cid] == RunState(heartbeat, LedgerRun(done + [l], cid))
      ensures ok ==> blob == PrintAll(TickRecords(heartbeat, TicksOf(done + [l], cids)))
    {
      hide Encode, Staged, RunState, Sends, Gather, LedgerRun, RunOf, PrintAll, EventIn, EncodeAsserts, WindowEnds,
          Separate, States;
      hide EncodedUpTo;
      ghost var ticks, before := TicksOf(done + [l], cids), States();
      ghost var whole := PrintAll(Gather(heartbeat, ticks, cids));
      Keys();
      blob, ok := [], true;
      var i := 0;
      assert cids[0..] == cids && [] + whole == whole;
      EncodedNone(heartbeat, before, done + [l], cids);
      while i < |cids|
        invariant i <= |cids| && Separate() && fresh(Repr - old(Repr))
        invariant States() == EncodedUpTo(heartbeat, before, done + [l], cids[..i])
        invariant forall k :: 0 <= k < i ==> EncodeAsserts(before[cids[k]], heartbeat, l.window, l.time)
        invariant blob + PrintAll(Gather(heartbeat, ticks, cids[i..])) == whole
      {
        var cid := cids[i];
        StepIs(heartbeat, done, l, cids, cid);
        EncodedOne(heartbeat, before, done + [l], cids, i);
        var records := EncodeForPipeline(cid, l.window, l.time);
        if records.None? { return false, []; }
        blob := Send(cids, i, records.value, blob, ticks, heartbeat);
        i := i + 1;
      }
      GatheredAll(heartbeat, ticks, cids[i..], blob);
      EncodedEnd(heartbeat, before, done + [l], cids);
    }

    /** No assertion fails on the n-th ledger. */
    ghost predicate GoesThrough(ledgers: seq<Ledger>, n: nat)
      requires n < |ledgers| && Known(ledgers[n]) && forall cid :: cid in cids <==> cid in checkpointers
    {
      RecordsFit(ledgers[n]) && AssertsPass(ledgers[..n], ledgers[n])
    }

    /** Encoding the n-th ledger's window ends. */
    ghost predicate LedgerEnds(ledgers: seq<Ledger>, n: nat)
      requires n < |ledgers|
    {
      forall cid :: cid in cids ==> StepEnds(heartbeat, LedgerRun(ledgers[..n + 1], cid))
    }

    /** One ledger; false is a failed assertion. */
    method RunOne() returns (ok: bool)
      requires Valid() && mainInputQueue != []
      requires LedgerEnds(done + mainInputQueue, |done|)
      modifies this, Repr
      ensures fresh(Repr - old(Repr))
      ensures ok <==> old(GoesThrough(done + mainInputQueue, |done|))
      ensures ok ==> Valid()
      ensures ok ==> mainInputQueue == old(mainInputQueue)[1..] && done == old(done) + [old(mainInputQueue)[0]]
    {
      hide RunState, Rows, TickRecords, Staged, LedgerRun, TicksOf, EventIn, PrintAll, EncodeAsserts, StepEnds,
          SizeFits, Separate, States;
      var l := mainInputQueue[0];
      assert (done + mainInputQueue)[..|done|] == done && (done + mainInputQueue)[..|done| + 1] == done + [l];
      Keys();
      ok := StageLedger(l);
      if !ok { return; }
      var blob;
      ok, blob := EncodeWindow(l);
      if !ok { return; }
      Finish(blob);
    }

    /** run_: until the input queue is empty, or an assertion fails. */
    method Run() returns (ok: bool)
      requires Valid() && forall n :: |done| <= n < |done + mainInputQueue| ==> LedgerEnds(done + mainInputQueue, n)
      modifies this, Repr
      ensures fresh(Repr - old(Repr))
      ensures ok ==> Valid() && mainInputQueue == [] && done == old(done + mainInputQueue)
      ensures old(forall n :: |done| <= n < |done + mainInputQueue| ==> GoesThrough(done + mainInputQueue, n)) ==> ok
    {
      hide GoesThrough, LedgerEnds, Known, Rows, RunState, LedgerRun, TicksOf;
      ghost var all := done + mainInputQueue;
      ok := true;
      while mainInputQueue != []
        invariant Valid() && done + mainInputQueue == all && |old(done)| <= |done| && fresh(Repr - old(Repr))
        decreases |mainInputQueue|
      {
        ok := RunOne();
        if !ok { return; }
      }
    }

    /** The blob becomes an entry of the output queue, unless it is empty. */
    method Finish(blob: Bytes)
      requires Separate() && mainInputQueue != []
      requires var l := mainInputQueue[0];
               && (forall cid :: cid in cids ==> States()[cid] == RunState(heartbeat, LedgerRun(done + [l], cid)))
               && blob == PrintAll(TickRecords(heartbeat, TicksOf(done + [l], cids)))
      requires output == Rows(heartbeat, TicksOf(done, cids))
      requires forall i :: 0 <= i < |mainInputQueue| ==>
                 Known(mainInputQueue[i]) && mainInputQueue[i].window == |done| + i + 1
      modifies `output, `done, `mainInputQueue
      ensures Valid() && mainInputQueue == old(mainInputQueue)[1..] && done == old(done) + [old(mainInputQueue)[0]]
    {
      hide RunState, Rows, TickRecords, LedgerRun, TicksOf, PrintAll, Separate, States;
      var l := mainInputQueue[0];
      Keys();
      RowsOn(heartbeat, done, l, cids);
      PrintsSomething(TickRecords(heartbeat, TicksOf(done + [l], cids)));
      if blob != [] { output := output + [Row(l.time, blob)]; }
      done := done + [l];
      mainInputQueue := mainInputQueue[1..];
      StaysSeparate();
    }

    twostate lemma StaysSeparate()
      requires old(Separate()) && Repr == old(Repr) && forall o :: o in Repr ==> unchanged(o)
      ensures Separate() && States() == old(States())
    {
      hide CollectableCheckpointer.Valid, CollectableCheckpointer.Model;
    }
  }

  lemma NoSnaps(cid: u16)
    ensures SnapsOf([], cid) == []
  {
  }

  /** The states after the first n records of a ledger. */
  ghost function StagedUpTo(before: map<u16, State>, l: Ledger, n: nat): (states: map<u16, State>)
    requires n <= |l.records|
    ensures states.Keys == before.Keys
  {
    map cid | cid in before :: StageAll(before[cid], l.window, SnapsOf(l.records[..n], cid))
  }

  ghost function CidsUpTo(l: Ledger, n: nat): set<u16>
    requires n <= |l.records|
  {
    if n == 0 then {} else CidsUpTo(l, n - 1) + {l.records[n - 1].0}
  }

  lemma StagedNone(before: map<u16, State>, l: Ledger)
    ensures StagedUpTo(before, l, 0) == before
  {
    hide StageAll, SnapsOf;
    assert l.records[..0] == [];
    forall cid | cid in before ensures StageAll(before[cid], l.window, SnapsOf(l.records[..0], cid)) == before[cid] {
      NoSnaps(cid);
      NothingStaged(before[cid], l.window);
    }
  }

  lemma StagedOne(before: map<u16, State>, l: Ledger, i: nat)
    requires i < |l.records| && l.records[i].0 in before
    ensures var (cid, snap) := l.records[i];
            StagedUpTo(before, l, i + 1) ==
            StagedUpTo(before, l, i)[cid := Push(StagedUpTo(before, l, i)[cid], Data(l.window, snap))]
  {
    hide StageAll, SnapsOf, Push;
    RecordOn(before, l, i);
  }

  lemma {:induction false} CidsAre(l: Ledger, n: nat, cid: u16)
    requires n <= |l.records|
    ensures cid in CidsUpTo(l, n) <==> SnapsOf(l.records[..n], cid) != []
  {
    if n > 0 {
      CidsAre(l, n - 1, cid);
      assert l.records[..n] == l.records[..n - 1] + [l.records[n - 1]];
      SnapsOn(l.records[..n - 1], l.records[n - 1].0, l.records[n - 1].1, cid);
    } else {
      NoSnaps(cid);
      assert l.records[..0] == [];
    }
  }

  lemma StagedEnd(before: map<u16, State>, l: Ledger)
    ensures forall cid :: cid in before ==>
              StagedUpTo(before, l, |l.records|)[cid] == StageAll(before[cid], l.window, SnapsOf(l.records, cid))
    ensures forall cid :: cid in CidsUpTo(l, |l.records|) <==> SnapsOf(l.records, cid) != []
  {
    assert l.records[..|l.records|] == l.records;
    forall cid ensures cid in CidsUpTo(l, |l.records|) <==> SnapsOf(l.records, cid) != [] {
      CidsAre(l, |l.records|, cid);
    }
  }

  /** The states after closing all but the rest of a ledger's closed collectables. */
  ghost function ClosedBut(before: map<u16, State>, l: Ledger, chkptCids: set<u16>, rest: set<u16>)
    : (states: map<u16, State>)
    ensures states.Keys == before.Keys
  {
    map cid | cid in before ::
      if cid in l.closed && cid !in rest && cid !in chkptCids then Push(before[cid], Close(l.window)) else before[cid]
  }

  lemma ClosedNone(before: map<u16, State>, l: Ledger, chkptCids: set<u16>)
    ensures ClosedBut(before, l, chkptCids, l.closed) == before
  {
  }

  lemma ClosedOne(before: map<u16, State>, l: Ledger, chkptCids: set<u16>, rest: set<u16>, cid: u16)
    requires cid in before && cid in rest && rest <= l.closed
    ensures ClosedBut(before, l, chkptCids, rest - {cid}) ==
            var states := ClosedBut(before, l, chkptCids, rest);
            if cid in chkptCids then states else states[cid := Push(states[cid], Close(l.window))]
  {
    hide Push;
  }

  lemma ClosedEnd(before: map<u16, State>, l: Ledger, chkptCids: set<u16>)
    ensures forall cid :: cid in before ==>
              ClosedBut(before, l, chkptCids, {})[cid] ==
              if cid in l.closed && cid !in chkptCids then Push(before[cid], Close(l.window)) else before[cid]
  {
    hide Push;
  }

  /** The states after encoding the window for some collectables. */
  ghost function EncodedUpTo(hb: nat, before: map<u16, State>, ledgers: seq<Ledger>,
      sent: seq<u16>): (states: map<u16, State>)
    ensures states.Keys == before.Keys
  {
    map cid | cid in before :: if cid in sent then RunState(hb, LedgerRun(ledgers, cid)) else before[cid]
  }

  lemma EncodedNone(hb: nat, before: map<u16, State>, ledgers: seq<Ledger>, cids: seq<u16>)
    ensures EncodedUpTo(hb, before, ledgers, cids[..0]) == before
  {
  }

  lemma EncodedOne(hb: nat, before: map<u16, State>, ledgers: seq<Ledger>, cids: seq<u16>, i: nat)
    requires i < |cids| && Distinct(cids) && cids[i] in before
    ensures EncodedUpTo(hb, before, ledgers, cids[..i + 1]) ==
            EncodedUpTo(hb, before, ledgers, cids[..i])[cids[i] := RunState(hb, LedgerRun(ledgers, cids[i]))]
    ensures EncodedUpTo(hb, before, ledgers, cids[..i])[cids[i]] == before[cids[i]]
  {
    hide RunState, LedgerRun;
    assert cids[..i + 1] == cids[..i] + [cids[i]];
    assert cids[i] !in cids[..i];
  }

  lemma EncodedEnd(hb: nat, before: map<u16, State>, ledgers: seq<Ledger>, cids: seq<u16>)
    ensures forall cid :: cid in cids && cid in before ==>
              EncodedUpTo(hb, before, ledgers, cids[..|cids|])[cid] == RunState(hb, LedgerRun(ledgers, cid))
  {
    assert cids[..|cids|] == cids;
  }

  /** The i-th collectable's records go behind those of the earlier ones. */
  method Send(cids: seq<u16>, i: nat, records: seq<Record>, blob: Bytes, ghost ticks: seq<Tick>, ghost hb: nat)
      returns (blob': Bytes)
    requires ticks != [] && i < |cids| && records == Sends(hb, RunOf(ticks, cids[i]))
    ensures blob' + PrintAll(Gather(hb, ticks, cids[i + 1..])) == blob + PrintAll(Gather(hb, ticks, cids[i..]))
  {
    hide Sends, Gather, RunOf, PrintAll;
    GatherStep(hb, ticks, cids, i);
    Join(blob, PrintAll(TagAll(cids[i], records)), PrintAll(Gather(hb, ticks, cids[i + 1..])));
    blob' := AppendAll(cids[i], records, blob);
  }

  /** One more record of a ledger. */
  lemma RecordOn(before: map<u16, State>, l: Ledger, i: nat)
    requires i < |l.records|
    ensures var (cid, snap) := l.records[i];
            && (forall other :: SnapsOf(l.records[..i + 1], other) ==
                                if cid == other then SnapsOf(l.records[..i], other) + [snap]
                                    else SnapsOf(l.records[..i], other))
            && (cid in before ==> StageAll(before[cid], l.window, SnapsOf(l.records[..i + 1], cid)) ==
                                  Push(StageAll(before[cid], l.window, SnapsOf(l.records[..i], cid)),
                                      Data(l.window, snap)))
  {
    hide SnapsOf, StageAll;
    var (cid, snap) := l.records[i];
    assert l.records[..i + 1] == l.records[..i] + [(cid, snap)];
    forall other
      ensures SnapsOf(l.records[..i + 1], other) ==
              if cid == other then SnapsOf(l.records[..i], other) + [snap] else SnapsOf(l.records[..i], other)
    {
      SnapsOn(l.records[..i], cid, snap, other);
    }
    if cid in before { StageAllOn(before[cid], l.window, SnapsOf(l.records[..i], cid), snap); }
  }

  lemma GatherStep(hb: nat, ticks: seq<Tick>, cids: seq<u16>, i: nat)
    requires ticks != [] && i < |cids|
    ensures PrintAll(Gather(hb, ticks, cids[i..])) ==
            PrintAll(TagAll(cids[i], Sends(hb, RunOf(ticks, cids[i])))) + PrintAll(Gather(hb, ticks, cids[i + 1..]))
  {
    hide Sends, PrintAll;
    assert cids[i..][0] == cids[i] && cids[i..][1..] == cids[i + 1..];
    PrintAllOn(TagAll(cids[i], Sends(hb, RunOf(ticks, cids[i]))), Gather(hb, ticks, cids[i + 1..]));
  }

  lemma GatheredAll(hb: nat, ticks: seq<Tick>, rest: seq<u16>, blob: Bytes)
    requires ticks != [] && rest == []
    ensures blob + PrintAll(Gather(hb, ticks, rest)) == blob
  {
  }

  /** One collectable's encoding is the next step of its run. */
  lemma StepIs(hb: nat, done: seq<Ledger>, l: Ledger, order: seq<u16>, cid: u16)
    requires cid in order && l.window == |done| + 1
    ensures var out := Encode(Staged(RunState(hb, LedgerRun(done, cid)), l.window, EventIn(l, cid)), hb, l.window,
              l.time);
            && out.0 == RunState(hb, LedgerRun(done + [l], cid))
            && out.1 == Sends(hb, RunOf(TicksOf(done + [l], order), cid))
    ensures StepEnds(hb, LedgerRun(done + [l], cid)) <==>
              WindowEnds(Staged(RunState(hb, LedgerRun(done, cid)), l.window, EventIn(l, cid)), hb, l.window, l.time)
  {
    hide Encode, Staged;
    var run := LedgerRun(done + [l], cid);
    assert Init(run) == LedgerRun(done, cid) && Last(run) == Window(l.time, EventIn(l, cid));
    SameRun(done + [l], order, cid);
  }

  lemma RowsOn(hb: nat, done: seq<Ledger>, l: Ledger, order: seq<u16>)
    ensures var ts := TickRecords(hb, TicksOf(done + [l], order));
            Rows(hb, TicksOf(done + [l], order)) ==
            Rows(hb, TicksOf(done, order)) + if ts == [] then [] else [Row(l.time, PrintAll(ts))]
  {
    hide TickRecords, PrintAll;
    assert Init(done + [l]) == done;
    TicksOn(done + [l], order);
  }

  lemma {:induction false} PrintAllOn(a: seq<Tagged>, b: seq<Tagged>)
    ensures PrintAll(a + b) == PrintAll(a) + PrintAll(b)
  {
    hide Print;
    if a == [] {
      assert a + b == b;
    } else {
      PrintAllOn(a[1..], b);
      assert (a + b)[0] == a[0] && (a + b)[1..] == a[1..] + b;
      assert PrintAll(a + b) == Print(a[0]) + PrintAll(a[1..] + b);
      Join(Print(a[0]), PrintAll(a[1..]), PrintAll(b));
    }
  }

  lemma PrintsSomething(ts: seq<Tagged>)
    ensures PrintAll(ts) == [] <==> ts == []
  {
    if ts != [] { assert |Print(ts[0])| > 2; }
  }

  /** The records of one collectable, each in a buffer of its own, concatenated. */
  method AppendAll(cid: u16, records: seq<Record>, start: Bytes) returns (blob: Bytes)
    ensures blob == start + PrintAll(TagAll(cid, records))
  {
    hide Print;
    blob := start;
    var i := 0;
    assert TagAll(cid, records[..0]) == [] && start + [] == start;
    while i < |records|
      invariant i <= |records| && blob == start + PrintAll(TagAll(cid, records[..i]))
    {
      var bytes := Encoder.EncodeRecord(cid, records[i]);
      ghost var sofar, t := TagAll(cid, records[..i]), Tagged(cid, records[i]);
      assert TagAll(cid, records[..i + 1]) == sofar + [t];
      PrintAllOn(sofar, [t]);
      assert PrintAll([t]) == Print(t) + PrintAll([]) == Print(t) by { assert [t][1..] == []; }
      Join(start, PrintAll(sofar), bytes);
      blob := blob + bytes;
      i := i + 1;
    }
    assert records[..|records|] == records;
  }
}
