/** Whole runs of one collectable: what is staged in each window, what the collector sends, what the viewer shows. */
module Runs {
  import opened Bytes
  import opened Records
  import opened Chain
  import C = ContigDeltas
  import S = SparseDeltas

  /** What happens to a collectable in one collection window. */
  datatype Event =
    | Idle
    | Stage(snaps: seq<Snapshot>)
    | Shut

  datatype Window = Window(time: nat, event: Event)

  // ----- the collector's side -----

  function StageAll(st: State, w: nat, snaps: seq<Snapshot>): State
    decreases |snaps|
  {
    if snaps == [] then st else StageAll(Push(st, Data(w, snaps[0])), w, snaps[1..])
  }

  function Staged(st: State, w: nat, e: Event): State
  {
    match e
    case Idle => st
    case Stage(snaps) => StageAll(st, w, snaps)
    case Shut => Push(st, Close(w))
  }

  function Step(hb: nat, st: State, w: nat, x: Window): (State, seq<Record>)
  {
    Encode(Staged(st, w, x.event), hb, w, x.time)
  }

  function Init<T>(s: seq<T>): seq<T>
    requires s != []
  {
    s[..|s| - 1]
  }

  /** The state after a run; window IDs count from 1. */
  function RunState(hb: nat, run: seq<Window>): State
  {
    if run == [] then INITIAL else Step(hb, RunState(hb, Init(run)), |run|, Last(run)).0
  }

  /** What the last window of a run sends. */
  function Sends(hb: nat, run: seq<Window>): seq<Record>
    requires run != []
  {
    Step(hb, RunState(hb, Init(run)), |run|, Last(run)).1
  }

  /** Everything a run sends. */
  function Stream(hb: nat, run: seq<Window>): seq<Record>
  {
    if run == [] then [] else Stream(hb, Init(run)) + Sends(hb, run)
  }

  // ----- what the viewer ought to show -----

  /** The collectable's own state: never touched, holding a snapshot, or closed (after data or not). */
  datatype Truth = Never | Open(snap: Snapshot) | Ended(hadData: bool)

  function Advance(truth: Truth, e: Event): Truth
  {
    match e
    case Idle => truth
    case Stage(snaps) => if snaps == [] then truth else Open(Last(snaps))
    case Shut => Ended(truth.Open? || (truth.Ended? && truth.hadData))
  }

  function TruthOf(run: seq<Window>): Truth
  {
    if run == [] then Never else Advance(TruthOf(Init(run)), Last(run).event)
  }

  function View(kind: Kind, s: Snapshot): (c: Cell)
    ensures !c.Absent?
  {
    match s
    case Scalar(v) => ScalarValue(v)
    case Contig(bins) => ListValue(C.Front(bins))
    case Sparse(m) => SlotsValue(S.Slots(m, if kind.SparseKind? then kind.capacity else 0))
  }

  /** A closed container of the contiguous kind shows as empty even if it never held data; the other kinds
      show nothing until they have held data, and None from their closing on. */
  function TruthCell(kind: Kind, truth: Truth): Cell
  {
    match truth
    case Never => Absent
    case Open(s) => View(kind, s)
    case Ended(had) => if kind.ContigKind? then ListValue([]) else if had then NoneValue else Absent
  }

  // ----- inputs -----

  ghost predicate SnapFits(kind: Kind, s: Snapshot)
  {
    match (kind, s)
    case (ScalarKind(w), Scalar(v)) => |v| == w > 0
    case (ContigKind(w, capacity), Contig(bins)) =>
      C.Occupied(bins) <= capacity <= 0xFFFF && forall b :: b in C.Front(bins) ==> |b| == w
    case (SparseKind(w, capacity), Sparse(m)) =>
      w > 0 && capacity <= 0xFFFF && S.KeysBelow(m, capacity) && forall k :: k in m ==> |m[k]| == w
    case _ => false
  }

  ghost predicate EventFits(kind: Kind, e: Event)
  {
    e.Stage? ==> e.snaps != [] && forall i :: 0 <= i < |e.snaps| ==> SnapFits(kind, e.snaps[i])
  }

  /** Sim times strictly increase and everything staged is of the collectable's type. */
  ghost predicate ValidRun(kind: Kind, run: seq<Window>)
  {
    && (forall i, j :: 0 <= i < j < |run| ==> run[i].time < run[j].time)
    && (forall i :: 0 <= i < |run| ==> EventFits(kind, run[i].event))
  }

  lemma PrefixValid(kind: Kind, run: seq<Window>, n: nat)
    requires ValidRun(kind, run) && n <= |run|
    ensures ValidRun(kind, run[..n])
  {
  }

  ghost predicate OncePerWindow(e: Event)
  {
    e.Stage? ==> |e.snaps| == 1
  }

  /** At most one data checkpoint a window. */
  ghost predicate SingleStage(run: seq<Window>)
  {
    forall i :: 0 <= i < |run| ==> OncePerWindow(run[i].event)
  }

  /** Every departure count fits a byte. */
  predicate NarrowQueue(kind: Kind)
  {
    kind.ContigKind? ==> kind.capacity <= 0xFF
  }

  // ----- one window -----

  /** The chain is in window order, nothing in it is newer than window w, and its snapshots have the right type. */
  ghost predicate ChainInv(kind: Kind, st: State, w: nat)
  {
    && WellFormed(st)
    && Ordered(st.nodes)
    && (forall i :: 0 <= i < |st.nodes| ==> st.nodes[i].window <= w && NodeFits(kind, st.nodes[i]))
  }

  ghost predicate NodeFits(kind: Kind, n: Node)
  {
    n.Data? ==> SnapFits(kind, n.snap)
  }

  /** The newest node tells the collectable's state. */
  ghost predicate Agrees(st: State, truth: Truth)
  {
    match truth
    case Never => st.nodes == []
    case Open(s) => st.nodes != [] && Last(st.nodes).Data? && Last(st.nodes).snap == s
    case Ended(had) => st.nodes != [] && Last(st.nodes).Close? && (had <==> LatestData(st.nodes, |st.nodes|).Some?)
  }

  ghost predicate Inv(kind: Kind, st: State, truth: Truth, w: nat)
  {
    ChainInv(kind, st, w) && Agrees(st, truth)
  }

  lemma {:induction false} AnchorIsLast(nodes: seq<Node>, i: nat, w: nat)
    requires i < |nodes| && forall k :: 0 <= k < |nodes| ==> nodes[k].window <= w
    ensures AnchorFrom(nodes, i, w) == Some(|nodes| - 1)
    decreases |nodes| - i
  {
    if i < |nodes| - 1 { AnchorIsLast(nodes, i + 1, w); }
  }

  lemma {:induction false} LatestDataPrefix(a: seq<Node>, b: seq<Node>, n: nat)
    requires n <= |a|
    ensures LatestData(a + b, n) == LatestData(a, n)
  {
    if n > 0 { LatestDataPrefix(a, b, n - 1); }
  }

  lemma FullShowsSnapshot(kind: Kind, c: Cell, s: Snapshot)
    requires SnapFits(kind, s)
    ensures Apply(kind, c, FullRecord(s)) == Some(View(kind, s))
  {
    if kind.SparseKind? { S.FullSparseCorrect(s.held, kind.width, kind.capacity, c); }
  }

  lemma DeltaShowsSnapshot(kind: Kind, p: Snapshot, s: Snapshot)
    requires SnapFits(kind, p) && SnapFits(kind, s) && NarrowQueue(kind) && DeltaRecord(p, s).Some?
    ensures Apply(kind, View(kind, p), DeltaRecord(p, s).value) == Some(View(kind, s))
  {
    match kind {
      case ScalarKind(_) =>
      case ContigKind(w, capacity) => C.ContigDeltaCorrect(p.bins, s.bins, w, capacity);
      case SparseKind(w, capacity) => S.SparseDeltaCorrect(p.held, s.held, w, capacity);
    }
  }

  lemma ReplayTwo(kind: Kind, c: Cell, r: Record, q: Record)
    requires Apply(kind, c, r).Some?
    ensures Replay(kind, c, [r, q]) == Apply(kind, Apply(kind, c, r).value, q)
  {
    assert [r, q][1..] == [q];
    ReplayOne(kind, Apply(kind, c, r).value, q);
  }

  /** CLOSED, primed or not, leaves the viewer on the closed value. */
  lemma EmitClosedCorrect(kind: Kind, st: State, hb: nat, t: nat, c: Cell)
    requires forall i :: 0 <= i < |st.nodes| ==> NodeFits(kind, st.nodes[i])
    requires c.Absent? ==> LatestData(st.nodes, |st.nodes|).None?
    requires !c.Absent? ==> kind.ContigKind? || LatestData(st.nodes, |st.nodes|).Some?
    ensures Replay(kind, c, EmitClosed(st, hb, t).1)
            == Some(TruthCell(kind, Ended(LatestData(st.nodes, |st.nodes|).Some?)))
    ensures EmitClosed(st, hb, t).0.nodes == st.nodes && EmitClosed(st, hb, t).0.tail == st.tail
  {
    var latest := LatestData(st.nodes, |st.nodes|);
    ReplayOne(kind, c, Closed);
    if latest.Some? {
      var s := st.nodes[latest.value].snap;
      FullShowsSnapshot(kind, c, s);
      ReplayTwo(kind, c, FullRecord(s), Closed);
    }
  }

  lemma {:induction false} StageAllOn(st: State, w: nat, snaps: seq<Snapshot>, s: Snapshot)
    ensures StageAll(st, w, snaps + [s]) == Push(StageAll(st, w, snaps), Data(w, s))
    decreases |snaps|
  {
    if snaps == [] {
      assert [s][1..] == [];
    } else {
      assert (snaps + [s])[1..] == snaps[1..] + [s];
      StageAllOn(Push(st, Data(w, snaps[0])), w, snaps[1..], s);
    }
  }

  lemma NothingStaged(st: State, w: nat)
    ensures StageAll(st, w, []) == st
  {
  }

  lemma {:induction false} StageAllFacts(st: State, w: nat, snaps: seq<Snapshot>)
    ensures var st' := StageAll(st, w, snaps);
            && st' == st.(nodes := st'.nodes)
            && |st'.nodes| == |st.nodes| + |snaps|
            && (forall i :: 0 <= i < |st.nodes| ==> st'.nodes[i] == st.nodes[i])
            && (forall i :: 0 <= i < |snaps| ==> st'.nodes[|st.nodes| + i] == Data(w, snaps[i]))
    decreases |snaps|
  {
    if snaps != [] { StageAllFacts(Push(st, Data(w, snaps[0])), w, snaps[1..]); }
  }

  /** Appending data checkpoints of a later window keeps the chain in order and well typed. */
  lemma AppendedChain(kind: Kind, before: seq<Node>, nodes: seq<Node>, w0: nat, w: nat)
    requires Ordered(before) && w0 <= w && |before| <= |nodes|
    requires forall i :: 0 <= i < |before| ==>
               nodes[i] == before[i] && before[i].window <= w0 && NodeFits(kind, before[i])
    requires forall i :: |before| <= i < |nodes| ==> nodes[i].window == w && NodeFits(kind, nodes[i])
    ensures Ordered(nodes)
    ensures forall i :: 0 <= i < |nodes| ==> nodes[i].window <= w && NodeFits(kind, nodes[i])
  {
    hide NodeFits;
  }

  lemma StagedChain(kind: Kind, st: State, w0: nat, w: nat, snaps: seq<Snapshot>)
    requires ChainInv(kind, st, w0) && w0 < w && snaps != [] && EventFits(kind, Stage(snaps))
    ensures var st' := StageAll(st, w, snaps);
            ChainInv(kind, st', w) && st'.nodes != [] && Last(st'.nodes) == Data(w, Last(snaps))
  {
    hide SnapFits, StageAll, Ordered;
    StageAllFacts(st, w, snaps);
    var nodes, m := StageAll(st, w, snaps).nodes, |st.nodes|;
    forall i | m <= i < |nodes| ensures nodes[i] == Data(w, snaps[i - m]) {
      assert nodes[m + (i - m)] == Data(w, snaps[i - m]);
    }
    AppendedChain(kind, st.nodes, nodes, w0, w);
  }

  lemma ShutChain(kind: Kind, st: State, w0: nat, w: nat)
    requires ChainInv(kind, st, w0) && w0 < w
    ensures ChainInv(kind, Push(st, Close(w)), w)
    ensures LatestData(st.nodes + [Close(w)], |st.nodes| + 1).Some? <==> LatestData(st.nodes, |st.nodes|).Some?
  {
    LatestDataPrefix(st.nodes, [Close(w)], |st.nodes|);
  }

  /** With the current window's node at the end of the chain, that node is what gets encoded. */
  lemma EncodesLast(kind: Kind, st: State, hb: nat, w: nat, t: nat)
    requires ChainInv(kind, st, w) && st.nodes != [] && Last(st.nodes).window == w
    ensures Encode(st, hb, w, t) == EncodeAnchor(st, |st.nodes| - 1, hb, t)
  {
    hide EncodeAnchor, EncodeAbsent, SnapFits;
    AnchorIsLast(st.nodes, st.tail, w);
  }

  lemma TrimKeeps(kind: Kind, st: State, w: nat, r: Record)
    requires ChainInv(kind, st, w) && st.nodes != []
    ensures var st' := Trim(st, |st.nodes| - 1, r);
            ChainInv(kind, st', w) && st'.nodes != [] && Last(st'.nodes) == Last(st.nodes)
  {
  }

  /** After a data checkpoint, a delta is only ever taken against the snapshot that the viewer holds. */
  lemma BaselineIsTruth(kind: Kind, st: State, truth: Truth, w0: nat, n: Node)
    requires Inv(kind, st, truth, w0)
    ensures var nodes, m := st.nodes + [n], |st.nodes|;
            var latest := LatestData(nodes, m);
            latest.Some? && !ClosedBetween(nodes, latest.value, m) ==> truth == Open(nodes[latest.value].snap)
  {
    hide SnapFits, Ordered;
    var nodes, m := st.nodes + [n], |st.nodes|;
    LatestDataPrefix(st.nodes, [n], m);
    if truth.Ended? {
      assert nodes[m - 1].Close?;
    }
  }

  /** The record for a freshly staged checkpoint brings the viewer from the old truth to the new snapshot. */
  lemma StagedRecordCorrect(kind: Kind, st: State, truth: Truth, w0: nat, w: nat, s: Snapshot)
    requires Inv(kind, st, truth, w0) && SnapFits(kind, s) && NarrowQueue(kind)
    ensures var nodes := st.nodes + [Data(w, s)];
            Apply(kind, TruthCell(kind, truth), RecordOf(nodes, |st.nodes|, false)) == Some(View(kind, s))
  {
    hide DeltaRecord, FullRecord, Apply, View, SnapFits, NarrowQueue, ClosedBetween, Ordered;
    var nodes, m := st.nodes + [Data(w, s)], |st.nodes|;
    FullShowsSnapshot(kind, TruthCell(kind, truth), s);
    BaselineIsTruth(kind, st, truth, w0, Data(w, s));
    LatestDataPrefix(st.nodes, [Data(w, s)], m);
    var latest := LatestData(nodes, m);
    if latest.Some? && !ClosedBetween(nodes, latest.value, m) && DeltaRecord(truth.snap, s).Some? {
      DeltaShowsSnapshot(kind, truth.snap, s);
    }
  }

  lemma StageInv(kind: Kind, st: State, truth: Truth, w0: nat, hb: nat, w: nat, t: nat, snaps: seq<Snapshot>)
    requires Inv(kind, st, truth, w0) && w0 < w && EventFits(kind, Stage(snaps)) && snaps != []
    ensures Inv(kind, Encode(StageAll(st, w, snaps), hb, w, t).0, Open(Last(snaps)), w)
  {
    hide Encode, DeltaRecord, FullRecord, SnapFits, ChainInv, Trim;
    var st' := StageAll(st, w, snaps);
    StagedChain(kind, st, w0, w, snaps);
    EncodesLast(kind, st', hb, w, t);
    var r := RecordOf(st'.nodes, |st'.nodes| - 1, ForceFull(st', hb, t));
    SentKeeps(kind, st', w, r, t);
    TrimKeeps(kind, Sent(st', r, t), w, r);
  }

  lemma StageCorrect(kind: Kind, st: State, truth: Truth, w0: nat, hb: nat, w: nat, t: nat, snaps: seq<Snapshot>)
    requires Inv(kind, st, truth, w0) && w0 < w && 1 <= hb
    requires EventFits(kind, Stage(snaps)) && snaps != []
    requires hb == 1 || (|snaps| == 1 && NarrowQueue(kind))
    ensures Replay(kind, TruthCell(kind, truth), Encode(StageAll(st, w, snaps), hb, w, t).1) ==
              Some(View(kind, Last(snaps)))
  {
    hide Encode, DeltaRecord, FullRecord, Apply, View, SnapFits, TruthCell, ChainInv, Trim, Replay;
    var st', s := StageAll(st, w, snaps), Last(snaps);
    StagedChain(kind, st, w0, w, snaps);
    EncodesLast(kind, st', hb, w, t);
    var i, force := |st'.nodes| - 1, ForceFull(st', hb, t);
    if force {
      FullShowsSnapshot(kind, TruthCell(kind, truth), s);
    } else {
      assert st'.nodes == st.nodes + [Data(w, s)] by { StageAllFacts(st, w, snaps); }
      StagedRecordCorrect(kind, st, truth, w0, w, s);
    }
    ReplayOne(kind, TruthCell(kind, truth), RecordOf(st'.nodes, i, force));
  }

  lemma SentKeeps(kind: Kind, st: State, w: nat, r: Record, t: nat)
    requires ChainInv(kind, st, w)
    ensures ChainInv(kind, Sent(st, r, t), w) && Sent(st, r, t).nodes == st.nodes
  {
    hide SnapFits, Ordered;
  }

  lemma ShutCorrect(kind: Kind, st: State, truth: Truth, w0: nat, hb: nat, w: nat, t: nat)
    requires Inv(kind, st, truth, w0) && w0 < w
    ensures var out := Encode(Push(st, Close(w)), hb, w, t);
            && Inv(kind, out.0, Advance(truth, Shut), w)
            && Replay(kind, TruthCell(kind, truth), out.1) == Some(TruthCell(kind, Advance(truth, Shut)))
  {
    hide Encode, Apply, View, SnapFits, EmitClosed, Replay, Ordered, RecordOf, FullRecord;
    var st' := Push(st, Close(w));
    ShutChain(kind, st, w0, w);
    ShutEncodes(kind, st', hb, w, t);
    EmitClosedCorrect(kind, st'.(tail := |st.nodes|), hb, t, TruthCell(kind, truth));
  }

  lemma ShutEncodes(kind: Kind, st: State, hb: nat, w: nat, t: nat)
    requires ChainInv(kind, st, w) && st.nodes != [] && Last(st.nodes) == Close(w)
    ensures Encode(st, hb, w, t) == EmitClosed(st.(tail := |st.nodes| - 1), hb, t)
  {
    hide Encode, EmitClosed, SnapFits, Ordered;
    EncodesLast(kind, st, hb, w, t);
  }

  lemma IdleCorrect(kind: Kind, st: State, truth: Truth, w0: nat, hb: nat, w: nat, t: nat)
    requires Inv(kind, st, truth, w0) && w0 < w
    ensures var out := Encode(st, hb, w, t);
            && Inv(kind, out.0, truth, w)
            && Replay(kind, TruthCell(kind, truth), out.1) == Some(TruthCell(kind, truth))
  {
    hide Apply, View, SnapFits, EmitClosed, Ordered, FullRecord;
    var c := TruthCell(kind, truth);
    if st.nodes != [] { AnchorIsLast(st.nodes, st.tail, w); }
    assert Encode(st, hb, w, t) == EncodeAbsent(st, hb, t);
    if RefreshAbsent(st, hb, t, TipClosed(st)) && st.nodes != [] {
      if TipClosed(st) {
        EmitClosedCorrect(kind, st, hb, t, c);
      } else {
        FullShowsSnapshot(kind, c, truth.snap);
        ReplayOne(kind, c, FullRecord(truth.snap));
      }
    }
  }

  // ----- whole runs -----

  lemma {:induction false} RunInv(kind: Kind, hb: nat, run: seq<Window>)
    requires ValidRun(kind, run)
    ensures Inv(kind, RunState(hb, run), TruthOf(run), |run|)
    decreases |run|
  {
    if run != [] {
      var pre, x := Init(run), Last(run);
      RunInv(kind, hb, pre);
      var st, truth := RunState(hb, pre), TruthOf(pre);
      assert EventFits(kind, x.event);
      match x.event {
        case Idle => IdleCorrect(kind, st, truth, |pre|, hb, |run|, x.time);
        case Stage(snaps) => StageInv(kind, st, truth, |pre|, hb, |run|, x.time, snaps);
        case Shut => ShutCorrect(kind, st, truth, |pre|, hb, |run|, x.time);
      }
    }
  }

  /** The runs on which the codec promises to be right. */
  ghost predicate GoodInput(hb: nat, kind: Kind, run: seq<Window>)
  {
    hb == 1 || (SingleStage(run) && NarrowQueue(kind))
  }

  /** One window: what it sends takes the viewer from the truth before it to the truth after it. */
  lemma WindowCorrect(kind: Kind, hb: nat, run: seq<Window>)
    requires run != [] && 1 <= hb && ValidRun(kind, run) && GoodInput(hb, kind, run)
    ensures Replay(kind, TruthCell(kind, TruthOf(Init(run))), Sends(hb, run)) == Some(TruthCell(kind, TruthOf(run)))
  {
    var pre, x := Init(run), Last(run);
    RunInv(kind, hb, pre);
    var st, truth := RunState(hb, pre), TruthOf(pre);
    assert EventFits(kind, x.event) && (hb != 1 ==> OncePerWindow(x.event));
    match x.event {
      case Idle => IdleCorrect(kind, st, truth, |pre|, hb, |run|, x.time);
      case Stage(snaps) => StageCorrect(kind, st, truth, |pre|, hb, |run|, x.time, snaps);
      case Shut => ShutCorrect(kind, st, truth, |pre|, hb, |run|, x.time);
    }
  }

  lemma StreamCorrect(kind: Kind, hb: nat, run: seq<Window>)
    requires run != [] && 1 <= hb && ValidRun(kind, run) && GoodInput(hb, kind, run)
    requires Replay(kind, Absent, Stream(hb, Init(run))) == Some(TruthCell(kind, TruthOf(Init(run))))
    ensures Replay(kind, Absent, Stream(hb, run)) == Some(TruthCell(kind, TruthOf(run)))
  {
    hide Replay, TruthCell, TruthOf, Sends, ValidRun;
    WindowCorrect(kind, hb, run);
    ReplayConcat(kind, Absent, Stream(hb, Init(run)), Sends(hb, run));
  }

  lemma PrefixGood(kind: Kind, hb: nat, run: seq<Window>, n: nat)
    requires n <= |run| && ValidRun(kind, run) && GoodInput(hb, kind, run)
    ensures ValidRun(kind, run[..n]) && GoodInput(hb, kind, run[..n])
  {
    hide EventFits, OncePerWindow;
    PrefixValid(kind, run, n);
  }

  lemma {:induction false} EndCorrect(kind: Kind, hb: nat, run: seq<Window>)
    requires 1 <= hb && ValidRun(kind, run) && GoodInput(hb, kind, run)
    ensures Replay(kind, Absent, Stream(hb, run)) == Some(TruthCell(kind, TruthOf(run)))
    decreases |run|
  {
    if run != [] {
      hide Replay, TruthCell, TruthOf, Stream, ValidRun, GoodInput;
      PrefixGood(kind, hb, run, |run| - 1);
      EndCorrect(kind, hb, Init(run));
      StreamCorrect(kind, hb, run);
    }
  }

  /** After every window of a run, a viewer that has read everything sent so far holds exactly the
      collectable's value, and none of its assertions has failed. */
  lemma WholeRunRoundTrip(kind: Kind, hb: nat, run: seq<Window>)
    requires 1 <= hb && ValidRun(kind, run) && GoodInput(hb, kind, run)
    ensures forall n :: 0 <= n <= |run| ==>
              Replay(kind, Absent, Stream(hb, run[..n])) == Some(TruthCell(kind, TruthOf(run[..n])))
  {
    hide Replay, TruthCell, TruthOf, Stream, ValidRun, GoodInput;
    forall n | 0 <= n <= |run|
      ensures Replay(kind, Absent, Stream(hb, run[..n])) == Some(TruthCell(kind, TruthOf(run[..n])))
    {
      PrefixGood(kind, hb, run, n);
      EndCorrect(kind, hb, run[..n]);
    }
  }
}
