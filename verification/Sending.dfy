/** What a window sends, told from outside the checkpointer: by what happened to the collectable and by the records
    that went out before. */
module Sending {
  import opened Bytes
  import opened Records
  import opened Chain
  import opened Runs
  import C = ContigDeltas
  import S = SparseDeltas

  /** A record last sent at the given time has left the heartbeat window that ends at t. */
  predicate Aged(last: Option<nat>, hb: nat, t: nat)
  {
    last.Some? && last.value + hb <= t
  }

  predicate HasFull(rs: seq<Record>)
  {
    exists i :: 0 <= i < |rs| && rs[i].IsFull()
  }

  /** Time of the last window that sent a FULL. */
  function FullAt(hb: nat, run: seq<Window>): Option<nat>
  {
    if run == [] then None
    else if HasFull(Sends(hb, run)) then Some(Last(run).time)
    else FullAt(hb, Init(run))
  }

  /** Time of the last window that sent CLOSED. */
  function ClosedAt(hb: nat, run: seq<Window>): Option<nat>
  {
    if run == [] then None
    else if Closed in Sends(hb, run) then Some(Last(run).time)
    else ClosedAt(hb, Init(run))
  }

  /** Number of records after the last FULL. */
  function SinceFull(rs: seq<Record>): nat
  {
    if rs == [] || Last(rs).IsFull() then 0 else SinceFull(Init(rs)) + 1
  }

  /** The snapshot staged last, closed since or not. */
  function Newest(run: seq<Window>): Option<Snapshot>
  {
    if run == [] then None
    else if Last(run).event.Stage? && Last(run).event.snaps != [] then Some(Last(Last(run).event.snaps))
    else Newest(Init(run))
  }

  /** The snapshot staged just before the last one of a window, if nothing was closed in between. */
  function Baseline(truth: Truth, snaps: seq<Snapshot>): Option<Snapshot>
  {
    if |snaps| > 1 then Some(snaps[|snaps| - 2]) else if truth.Open? then Some(truth.snap) else None
  }

  /** The records of a window at time t: truth, newest, full, closed and since say what was before it. */
  function Due(
    hb: nat, x: Window, truth: Truth, newest: Option<Snapshot>, full: Option<nat>, closed: Option<nat>, since: nat
  ): seq<Record>
  {
    match x.event
    case Idle =>
      if truth.Open? then if Aged(full, hb, x.time) then [FullRecord(truth.snap)] else []
      else if truth.Ended? && (Aged(full, hb, x.time) || Aged(closed, hb, x.time)) then Ending(hb, x.time, newest, full)
      else []
    case Stage(snaps) =>
      if snaps == [] then [] else
      var base := Baseline(truth, snaps);
      if base.Some? && since + 1 < hb && !Aged(full, hb, x.time) && DeltaRecord(base.value, Last(snaps)).Some?
      then [DeltaRecord(base.value, Last(snaps)).value]
      else [FullRecord(Last(snaps))]
    case Shut => Ending(hb, x.time, newest, full)
  }

  /** CLOSED, behind a FULL of the newest snapshot if none is left in the heartbeat window. */
  function Ending(hb: nat, t: nat, newest: Option<Snapshot>, full: Option<nat>): seq<Record>
  {
    if newest.Some? && (full.None? || Aged(full, hb, t)) then [FullRecord(newest.value), Closed] else [Closed]
  }

  // ----- what the fields of the checkpointer stand for -----

  function NewestOf(nodes: seq<Node>): Option<Snapshot>
  {
    match LatestData(nodes, |nodes|)
    case None => None
    case Some(j) => Some(nodes[j].snap)
  }

  /** A step that keeps account of what it sends. */
  ghost predicate Books(st: State, out: (State, seq<Record>), t: nat)
  {
    && out.0.lastFull == (if HasFull(out.1) then Some(t) else st.lastFull)
    && out.0.lastClosed == (if Closed in out.1 then Some(t) else st.lastClosed)
    && forall rs: seq<Record> :: SinceFull(rs) == st.distance ==> SinceFull(rs + out.1) == out.0.distance
  }

  lemma BooksNothing(st: State, t: nat)
    ensures Books(st, (st, []), t)
  {
    forall rs: seq<Record> | SinceFull(rs) == st.distance ensures SinceFull(rs + []) == st.distance {
      assert rs + [] == rs;
    }
  }

  lemma BooksOne(st: State, r: Record, t: nat)
    ensures Books(st, (Sent(st, r, t), [r]), t)
  {
    assert [r][0] == r;
    forall rs: seq<Record> | SinceFull(rs) == st.distance
      ensures SinceFull(rs + [r]) == Sent(st, r, t).distance
    {
      assert Init(rs + [r]) == rs;
    }
  }

  lemma BooksEnding(st: State, hb: nat, t: nat)
    ensures Books(st, EmitClosed(st, hb, t), t)
  {
    hide FullRecord, Books;
    BooksOne(st, Closed, t);
    var latest := LatestData(st.nodes, |st.nodes|);
    if NeedsPriming(st, hb, t) && latest.Some? {
      BooksTwo(st, FullRecord(st.nodes[latest.value].snap), t);
    }
  }

  lemma BooksTwo(st: State, r: Record, t: nat)
    requires r.IsFull()
    ensures Books(st, (Sent(Sent(st, r, t), Closed, t), [r, Closed]), t)
  {
    assert [r, Closed][0] == r && [r, Closed][1] == Closed;
    forall rs: seq<Record> | SinceFull(rs) == st.distance ensures SinceFull(rs + [r, Closed]) == 1 {
      assert Init(rs + [r, Closed]) == rs + [r];
      assert SinceFull(rs + [r]) == 0;
    }
  }

  // ----- one window -----

  lemma StaleIsAged(last: Option<nat>, hb: nat, t: nat)
    requires 1 <= hb
    ensures Stale(last, hb, t) <==> Aged(last, hb, t)
  {
  }

  lemma EndingIs(st: State, hb: nat, t: nat)
    requires 1 <= hb
    ensures EmitClosed(st, hb, t).1 == Ending(hb, t, NewestOf(st.nodes), st.lastFull)
    ensures EmitClosed(st, hb, t).0.nodes == st.nodes
  {
    hide FullRecord;
  }

  /** What one window does to a checkpointer in the state that the run before it has led to. */
  ghost predicate Exact(st: State, truth: Truth, hb: nat, x: Window, out: (State, seq<Record>))
  {
    && out.1 == Due(hb, x, truth, NewestOf(st.nodes), st.lastFull, st.lastClosed, st.distance)
    && Books(st, out, x.time)
    && NewestOf(out.0.nodes) ==
         if x.event.Stage? && x.event.snaps != [] then Some(Last(x.event.snaps)) else NewestOf(st.nodes)
  }

  lemma IdleExact(kind: Kind, st: State, truth: Truth, w0: nat, hb: nat, w: nat, x: Window)
    requires Inv(kind, st, truth, w0) && w0 < w && 1 <= hb && x.event.Idle?
    ensures Exact(st, truth, hb, x, Step(hb, st, w, x))
  {
    hide FullRecord, SnapFits, EmitClosed, Ending, Books;
    var t := x.time;
    if st.nodes != [] { AnchorIsLast(st.nodes, st.tail, w); }
    assert Step(hb, st, w, x) == EncodeAbsent(st, hb, t);
    StaleIsAged(st.lastFull, hb, t);
    StaleIsAged(st.lastClosed, hb, t);
    BooksNothing(st, t);
    BooksEnding(st, hb, t);
    EndingIs(st, hb, t);
    if truth.Open? { BooksOne(st, FullRecord(truth.snap), t); }
  }

  lemma ShutExact(kind: Kind, st: State, truth: Truth, w0: nat, hb: nat, w: nat, x: Window)
    requires Inv(kind, st, truth, w0) && w0 < w && 1 <= hb && x.event.Shut?
    ensures Exact(st, truth, hb, x, Step(hb, st, w, x))
  {
    hide FullRecord, SnapFits, EmitClosed, Ending, Books, Encode, Ordered;
    var st' := Push(st, Close(w));
    ShutChain(kind, st, w0, w);
    ShutEncodes(kind, st', hb, w, x.time);
    LatestDataPrefix(st.nodes, [Close(w)], |st.nodes|);
    var trimmed := st'.(tail := |st.nodes|);
    BooksEnding(trimmed, hb, x.time);
    EndingIs(trimmed, hb, x.time);
    BooksDepends(st, trimmed, EmitClosed(trimmed, hb, x.time), x.time);
  }

  lemma BooksDepends(a: State, b: State, out: (State, seq<Record>), t: nat)
    requires a.lastFull == b.lastFull && a.lastClosed == b.lastClosed && a.distance == b.distance && Books(b, out, t)
    ensures Books(a, out, t)
  {
  }

  lemma {:induction false} NoCloseAfter(nodes: seq<Node>, n: nat)
    requires 0 < n <= |nodes| && nodes[n - 1].Data?
    ensures LatestData(nodes, n) == Some(n - 1)
  {
  }

  lemma StagedBaseline(kind: Kind, st: State, truth: Truth, w0: nat, w: nat, snaps: seq<Snapshot>)
    requires Inv(kind, st, truth, w0) && snaps != []
    ensures var nodes := StageAll(st, w, snaps).nodes;
            var i := |nodes| - 1;
            && |nodes| == |st.nodes| + |snaps|
            && nodes[i] == Data(w, Last(snaps))
            && var latest := LatestData(nodes, i);
               Baseline(truth, snaps) ==
                 if latest.Some? && !ClosedBetween(nodes, latest.value, i) then Some(nodes[latest.value].snap) else None
  {
    hide SnapFits, Ordered, StageAll;
    StageAllFacts(st, w, snaps);
    var nodes, m := StageAll(st, w, snaps).nodes, |st.nodes|;
    var i := |nodes| - 1;
    assert nodes[m + (|snaps| - 1)] == Data(w, Last(snaps));
    if |snaps| > 1 {
      assert nodes[m + (|snaps| - 2)] == Data(w, snaps[|snaps| - 2]);
      NoCloseAfter(nodes, i);
    } else {
      assert nodes == st.nodes + [nodes[i]];
      BaselineIsTruth(kind, st, truth, w0, nodes[i]);
      if truth.Open? { NoCloseAfter(nodes, i); }
    }
  }

  /** The record of a staging window, from what the checkpointer holds before it. */
  lemma StageRecord(kind: Kind, st: State, truth: Truth, w0: nat, hb: nat, w: nat, x: Window)
    requires Inv(kind, st, truth, w0) && 1 <= hb && x.event.Stage? && x.event.snaps != []
    ensures var st' := StageAll(st, w, x.event.snaps);
            && st'.nodes != []
            && Due(hb, x, truth, NewestOf(st.nodes), st.lastFull, st.lastClosed, st.distance) ==
                 [RecordOf(st'.nodes, |st'.nodes| - 1, ForceFull(st', hb, x.time))]
  {
    hide FullRecord, DeltaRecord, Inv, ClosedBetween, LatestData, Baseline, StageAll, NewestOf, Aged, Stale;
    StagedBaseline(kind, st, truth, w0, w, x.event.snaps);
    StageAllFacts(st, w, x.event.snaps);
    StaleIsAged(st.lastFull, hb, x.time);
  }

  lemma StageBooks(st: State, st': State, i: nat, r: Record, t: nat)
    requires i < |st'.nodes|
    requires st.lastFull == st'.lastFull && st.lastClosed == st'.lastClosed && st.distance == st'.distance
    ensures Books(st, (Trim(Sent(st', r, t), i, r), [r]), t)
  {
    hide HasFull, SinceFull;
    BooksOne(st', r, t);
  }

  lemma TrimNewest(st: State, r: Record)
    requires st.nodes != [] && Last(st.nodes).Data?
    ensures NewestOf(Trim(st, |st.nodes| - 1, r).nodes) == Some(Last(st.nodes).snap)
  {
  }

  lemma StageExact(kind: Kind, st: State, truth: Truth, w0: nat, hb: nat, w: nat, x: Window)
    requires Inv(kind, st, truth, w0) && w0 < w && 1 <= hb && x.event.Stage? && EventFits(kind, x.event)
    ensures Exact(st, truth, hb, x, Step(hb, st, w, x))
  {
    hide RecordOf, SnapFits, ChainInv, Books, Encode, Agrees, Due, Trim, Sent, StageAll, ForceFull, NewestOf;
    var snaps, t := x.event.snaps, x.time;
    var st' := StageAll(st, w, snaps);
    StagedChain(kind, st, w0, w, snaps);
    StageAllFacts(st, w, snaps);
    StageRecord(kind, st, truth, w0, hb, w, x);
    EncodesLast(kind, st', hb, w, t);
    var i := |st'.nodes| - 1;
    var r := RecordOf(st'.nodes, i, ForceFull(st', hb, t));
    StageBooks(st, st', i, r, t);
    SentKeeps(kind, st', w, r, t);
    TrimNewest(Sent(st', r, t), r);
  }

  // ----- every window of every run -----

  /** The fields of the checkpointer after a run, from what was staged and what was sent. */
  ghost predicate Kept(st: State, hb: nat, run: seq<Window>)
  {
    && st.lastFull == FullAt(hb, run)
    && st.lastClosed == ClosedAt(hb, run)
    && st.distance == SinceFull(Stream(hb, run))
    && NewestOf(st.nodes) == Newest(run)
  }

  lemma WindowExact(kind: Kind, hb: nat, run: seq<Window>)
    requires 1 <= hb && run != [] && ValidRun(kind, run)
    ensures var pre := Init(run);
            Exact(RunState(hb, pre), TruthOf(pre), hb, Last(run), (RunState(hb, run), Sends(hb, run)))
  {
    hide Step, Inv, Exact;
    var pre, x := Init(run), Last(run);
    RunInv(kind, hb, pre);
    assert EventFits(kind, x.event);
    var st, truth := RunState(hb, pre), TruthOf(pre);
    match x.event {
      case Idle => IdleExact(kind, st, truth, |pre|, hb, |run|, x);
      case Stage(_) => StageExact(kind, st, truth, |pre|, hb, |run|, x);
      case Shut => ShutExact(kind, st, truth, |pre|, hb, |run|, x);
    }
  }

  lemma {:induction false} FieldsKept(kind: Kind, hb: nat, run: seq<Window>)
    requires 1 <= hb && ValidRun(kind, run)
    ensures Kept(RunState(hb, run), hb, run)
    decreases |run|
  {
    if run != [] {
      hide Sends, RunState, Due, HasFull, SinceFull, NewestOf;
      FieldsKept(kind, hb, Init(run));
      WindowExact(kind, hb, run);
    }
  }

  /** In every valid run, each window sends exactly the records that are due. */
  lemma SendsExact(kind: Kind, hb: nat, run: seq<Window>)
    requires 1 <= hb && run != [] && ValidRun(kind, run)
    ensures var pre := Init(run);
            Sends(hb, run) == Due(hb, Last(run), TruthOf(pre), Newest(pre), FullAt(hb, pre), ClosedAt(hb, pre),
                                  SinceFull(Stream(hb, pre)))
  {
    hide Sends, RunState, Due;
    FieldsKept(kind, hb, Init(run));
    WindowExact(kind, hb, run);
  }

  /** When a delta exists at all: for a scalar, between equal values; for a queue of at most 255 bins, unless the
      baseline had no bin; for a sparse container without empty bins, as its differences have it. */
  lemma DeltaExists(p: Snapshot, s: Snapshot)
    ensures p.Scalar? && s.Scalar? ==> DeltaRecord(p, s) == if p == s then Some(Carry) else None
    ensures p.Contig? && s.Contig? && C.Occupied(p.bins) <= 0xFFFF && C.Occupied(s.bins) <= 0xFF ==>
              (DeltaRecord(p, s).None? <==> p.bins == [])
    ensures p.Sparse? && s.Sparse? && p.held == map[] ==> DeltaRecord(p, s) == None
    ensures p.Sparse? && s.Sparse? && p.held != map[] && S.NoEmptyBin(p.held) && S.NoEmptyBin(s.held) ==>
              DeltaRecord(p, s) ==
                S.ByDifference(s.held, S.Difference(S.Gone, p.held, s.held), S.Difference(S.New, p.held, s.held),
                               S.Difference(S.Altered, p.held, s.held))
  {
    hide C.ContigDelta, S.ByDifference;
    if p.Contig? && s.Contig? && C.Occupied(p.bins) <= 0xFFFF && C.Occupied(s.bins) <= 0xFF {
      C.ContigDeltaTotal(p.bins, s.bins);
    }
    if p.Sparse? && s.Sparse? && p.held != map[] && S.NoEmptyBin(p.held) && S.NoEmptyBin(s.held) {
      hide S.SparseDelta;
      S.SparseDeltaByDifference(p.held, s.held);
    }
  }
}
