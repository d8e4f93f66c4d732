/** The checkpointer as it is written: heap nodes linked both ways, walked with pointers, trimmed in place.
    Its abstract state is a Chain.State, and every method does to it what the function of that name does. */
module Checkpointer {
  import opened Bytes
  import opened Records
  import opened Chain
  import C = ContigDeltas
  import S = SparseDeltas

  class Checkpoint {
    var prev: Checkpoint?
    var next: Checkpoint?
    const windowId: nat
    /** None records a close. */
    const snapshot: Option<Snapshot>

    constructor (prev: Checkpoint?, windowId: nat, snapshot: Option<Snapshot>)
      modifies if prev == null then {} else {prev}
      ensures this.prev == prev && next == null && this.windowId == windowId && this.snapshot == snapshot
      ensures prev != null ==> prev.next == this && prev.prev == old(prev.prev)
    {
      this.prev := prev;
      this.next := null;
      this.windowId := windowId;
      this.snapshot := snapshot;
      new;
      if prev != null { prev.next := this; }
    }
  }

  function NodeOf(c: Checkpoint): (n: Node)
    ensures n.window == c.windowId && (n.Data? <==> c.snapshot.Some?)
    ensures n.Data? ==> n.snap == c.snapshot.value
  {
    if c.snapshot.Some? then Data(c.windowId, c.snapshot.value) else Close(c.windowId)
  }

  ghost function NodesOf(chain: seq<Checkpoint>): (nodes: seq<Node>)
    ensures |nodes| == |chain| && forall i :: 0 <= i < |chain| ==> nodes[i] == NodeOf(chain[i])
  {
    seq(|chain|, i requires 0 <= i < |chain| => NodeOf(chain[i]))
  }

  /** Distinct nodes, each next to its neighbours, and none after the last. */
  ghost predicate Neighbours(chain: seq<Checkpoint>)
    reads chain
  {
    && (forall i, j :: 0 <= i < j < |chain| ==> chain[i] != chain[j])
    && (forall i, j :: 0 <= i < j < |chain| && j == i + 1 ==> chain[i].next == chain[j] && chain[j].prev == chain[i])
    && (chain != [] ==> chain[|chain| - 1].next == null)
  }

  /** A whole doubly linked list. */
  ghost predicate Linked(chain: seq<Checkpoint>)
    reads chain
  {
    Neighbours(chain) && (chain != [] ==> chain[0].prev == null)
  }

  lemma SuffixNeighbours(chain: seq<Checkpoint>, i: nat)
    requires Linked(chain) && i < |chain|
    ensures Neighbours(chain[i..])
    ensures i == 0 ==> chain[i].prev == null
    ensures i > 0 ==> chain[i].prev == chain[i - 1] && chain[i - 1] !in chain[i..]
  {
    assert i > 0 ==> chain[i - 1].next == chain[i];
  }

  /** detachPrev: the list from this node on is whole again. */
  method DetachPrev(sp: Checkpoint, ghost rest: seq<Checkpoint>)
    requires Neighbours(rest) && rest != [] && sp == rest[0] && (sp.prev != null ==> sp.prev !in rest)
    modifies sp`prev, (if sp.prev == null then {} else {sp.prev})`next
    ensures Linked(rest) && sp.prev == null
    ensures old(sp.prev) != null ==> old(sp.prev).next == null && old(sp.prev).prev == old(sp.prev.prev)
  {
    if sp.prev != null { sp.prev.next := null; }
    sp.prev := null;
  }

  lemma LinkedFacts(chain: seq<Checkpoint>)
    requires Linked(chain)
    ensures forall i, j :: 0 <= i < j < |chain| ==> chain[i] != chain[j]
    ensures forall i :: 0 <= i < |chain| ==> chain[i].prev == if i == 0 then null else chain[i - 1]
  {
    forall i | 0 < i < |chain| ensures chain[i].prev == chain[i - 1] {
      assert chain[i - 1].next == chain[i];
    }
  }

  twostate lemma LinkedAppend(chain: seq<Checkpoint>, new node: Checkpoint)
    requires old(Linked(chain)) && node !in chain && node.next == null
    requires node.prev == if chain == [] then null else chain[|chain| - 1]
    requires chain != [] ==> chain[|chain| - 1].next == node && chain[|chain| - 1].prev == old(chain[|chain| - 1].prev)
    requires forall i :: 0 <= i < |chain| - 1 ==> unchanged(chain[i])
    ensures Linked(chain + [node])
  {
  }

  /** The classifier ends on two snapshots. */
  ghost predicate ScanEnds(prev: Snapshot, curr: Snapshot)
  {
    prev.Contig? && curr.Contig? ==> C.ClassifierStops(prev.bins, curr.bins)
  }

  /** Encoding the checkpoint at index i ends: it is sent whole, or the classifier ends on its baseline and itself. */
  ghost predicate EncodeEnds(nodes: seq<Node>, i: nat, force: bool)
    requires i < |nodes|
  {
    var latest := LatestData(nodes, i);
    nodes[i].Data? && !force && latest.Some? && !ClosedBetween(nodes, latest.value, i) ==>
      ScanEnds(nodes[latest.value].snap, nodes[i].snap)
  }

  /** encodeForPipeline ends. */
  ghost predicate WindowEnds(st: State, hb: nat, w: nat, t: nat)
  {
    match AnchorFrom(st.nodes, st.tail, w)
    case None => true
    case Some(i) => st.nodes[i].window == w ==> EncodeEnds(st.nodes, i, ForceFull(st, hb, t))
  }

  /** The assertions that an encoder makes on the bytes it is about to send. */
  predicate AssertsHold(n: Node, r: Record)
  {
    match r
    case FullScalar(v) => v != []
    case Carry => n.Data? && n.snap.Scalar? ==> n.snap.value != []
    case Swap(e) => e.bin != []
    case Add(e) => e.bin != []
    case Arrive(b) => b != []
    case Bookends(b) => b != []
    case _ => true
  }

  /** What encodeForPipeline asserts: nothing for a collectable that skipped the window. */
  predicate EncodeAsserts(st: State, hb: nat, w: nat, t: nat)
  {
    match AnchorFrom(st.nodes, st.tail, w)
    case None => true
    case Some(i) => st.nodes[i].window == w ==> AssertsHold(st.nodes[i], RecordOf(st.nodes, i, ForceFull(st, hb, t)))
  }

  /** The size assertions of createCheckpoint. */
  predicate SizeFits(capacity: nat, s: Snapshot)
  {
    match s
    case Scalar(_) => true
    case Contig(bins) => C.Occupied(bins) <= 0xFFFF && C.Occupied(bins) <= capacity
    case Sparse(m) => S.Count(m, S.KEYS) <= 0xFFFF && S.Count(m, S.KEYS) <= capacity
  }

  ghost predicate AllFit(capacity: nat, chain: seq<Checkpoint>)
  {
    forall i :: 0 <= i < |chain| && chain[i].snapshot.Some? ==> SizeFits(capacity, chain[i].snapshot.value)
  }

  lemma SuffixFits(capacity: nat, chain: seq<Checkpoint>, i: nat)
    requires AllFit(capacity, chain) && i < |chain|
    ensures AllFit(capacity, chain[i..])
    ensures NodesOf(chain[i..]) == NodesOf(chain)[i..] && Last(chain[i..]) == Last(chain)
  {
    hide SizeFits;
  }

  class CollectableCheckpointer {
    const heartbeat: nat
    const capacity: nat
    var head: Checkpoint?
    var tail: Checkpoint?
    var distanceToSnapshot: nat
    var lastSnapshotSimTime: Option<nat>
    var lastRecordClosedSimTime: Option<nat>
    ghost var chain: seq<Checkpoint>
    ghost var tailIndex: nat

    ghost predicate Valid()
      reads this, chain
    {
      && Linked(chain)
      && head == (if chain == [] then null else Last(chain))
      && (if chain == [] then tail == null && tailIndex == 0 else tailIndex < |chain| && tail == chain[tailIndex])
      && AllFit(capacity, chain)
    }

    ghost function Model(): State
      reads this
    {
      State(NodesOf(chain), tailIndex, distanceToSnapshot, lastSnapshotSimTime, lastRecordClosedSimTime)
    }

    constructor (heartbeat: nat, capacity: nat)
      ensures Valid() && Model() == INITIAL && this.heartbeat == heartbeat && this.capacity == capacity
    {
      this.heartbeat := heartbeat;
      this.capacity := capacity;
      head, tail, distanceToSnapshot, lastSnapshotSimTime, lastRecordClosedSimTime := null, null, 0, None, None;
      chain, tailIndex := [], 0;
    }

    method Append(windowId: nat, snapshot: Option<Snapshot>)
      requires Valid() && (snapshot.Some? ==> SizeFits(capacity, snapshot.value))
      modifies this, chain
      ensures Valid()
      ensures |chain| == |old(chain)| + 1 && chain[..|old(chain)|] == old(chain) && fresh(chain[|old(chain)|])
      ensures Model() == Push(old(Model()), if snapshot.Some? then Data(windowId, snapshot.value) else Close(windowId))
    {
      hide SizeFits, Linked;
      ghost var before := chain;
      assert forall i :: 0 <= i < |before| - 1 ==> before[i] != head by { LinkedFacts(before); }
      var node := new Checkpoint(head, windowId, snapshot);
      LinkedAppend(before, node);
      head := node;
      if tail == null { tail := head; }
      chain := before + [node];
    }

    /** createCheckpoint; false is a failed size assertion. */
    method CreateCheckpoint(windowId: nat, snapshot: Snapshot) returns (ok: bool)
      requires Valid()
      modifies this, chain
      ensures Valid()
      ensures ok <==> SizeFits(capacity, snapshot)
      ensures Model() == if ok then Push(old(Model()), Data(windowId, snapshot)) else old(Model())
      ensures forall k :: 0 <= k < |chain| ==> (k < |old(chain)| && chain[k] == old(chain)[k]) || fresh(chain[k])
    {
      match snapshot {
        case Scalar(_) =>
        case Contig(bins) =>
          var size := C.CountElements(bins);
          if size.None? || size.value > capacity { return false; }
        case Sparse(m) =>
          var size := S.CountElements(m);
          if size.None? || size.value > capacity { return false; }
      }
      Append(windowId, Some(snapshot));
      ok := true;
    }

    method CloseRecord(windowId: nat)
      requires Valid()
      modifies this, chain
      ensures Valid()
      ensures Model() == Push(old(Model()), Close(windowId))
      ensures forall k :: 0 <= k < |chain| ==> (k < |old(chain)| && chain[k] == old(chain)[k]) || fresh(chain[k])
    {
      Append(windowId, None);
    }

    // ----- walks -----

    ghost function NodeAt(index: Option<nat>): Checkpoint?
      reads this
      requires index.Some? ==> index.value < |chain|
    {
      if index.None? then null else chain[index.value]
    }

    /** getAnchorForWindow_. */
    method GetAnchorForWindow(windowId: nat) returns (best: Checkpoint?)
      requires Valid()
      ensures best == NodeAt(AnchorFrom(NodesOf(chain), tailIndex, windowId))
    {
      hide SizeFits;
      ghost var nodes, i := NodesOf(chain), tailIndex;
      ghost var index: Option<nat> := None;
      var anchor := tail;
      best := null;
      while anchor != null
        invariant tailIndex <= i <= |chain| && anchor == if i < |chain| then chain[i] else null
        invariant if index.None? then best == null else index.value < |chain| && best == chain[index.value]
        invariant AnchorFrom(nodes, tailIndex, windowId) ==
                  if AnchorFrom(nodes, i, windowId).None? then index else AnchorFrom(nodes, i, windowId)
        decreases |chain| - i
      {
        if anchor.windowId > windowId { break; }
        best, index := anchor, Some(i);
        anchor := anchor.next;
        i := i + 1;
        assert i < |chain| ==> anchor == chain[i];
      }
    }

    /** Backward to the nearest data checkpoint below index n: latestDataCheckpoint_ from the head,
        prevDataCheckpoint_ from a node's predecessor. */
    method WalkToData(from: Checkpoint?, ghost n: nat) returns (checkpoint: Checkpoint?)
      requires Valid() && n <= |chain| && from == if n == 0 then null else chain[n - 1]
      ensures checkpoint == NodeAt(LatestData(NodesOf(chain), n))
    {
      hide SizeFits;
      ghost var nodes, i := NodesOf(chain), n;
      checkpoint := from;
      while checkpoint != null && checkpoint.snapshot.None?
        invariant 0 <= i <= n && checkpoint == if i == 0 then null else chain[i - 1]
        invariant LatestData(nodes, n) == LatestData(nodes, i)
        decreases i
      {
        assert i > 1 ==> chain[i - 2].next == chain[i - 1] && chain[i - 1].prev == chain[i - 2];
        checkpoint := checkpoint.prev;
        i := i - 1;
      }
    }

    /** closedSincePrevDataCheckpoint_. */
    method ClosedSince(self: Checkpoint, dataPrev: Checkpoint, ghost i: nat, ghost j: nat) returns (closed: bool)
      requires Valid() && j < i < |chain| && self == chain[i] && dataPrev == chain[j]
      ensures closed <==> ClosedBetween(NodesOf(chain), j, i)
    {
      hide SizeFits;
      ghost var nodes, k := NodesOf(chain), i;
      assert chain[i - 1].next == chain[i] && chain[i].prev == chain[i - 1];
      var checkpoint := self.prev;
      while checkpoint != null && checkpoint != dataPrev
        invariant j < k <= i && checkpoint == chain[k - 1]
        invariant forall m :: k <= m < i ==> !nodes[m].Close?
        decreases k
      {
        if checkpoint.snapshot.None? {
          assert nodes[k - 1].Close?;
          return true;
        }
        assert chain[k - 2].next == chain[k - 1] && chain[k - 1].prev == chain[k - 2];
        checkpoint := checkpoint.prev;
        k := k - 1;
      }
      closed := false;
    }

    /** getSharedCheckpoint_: from the head back to the given node, which is found because it is in the chain. */
    method GetSharedCheckpoint(raw: Checkpoint, ghost i: nat) returns (sp: Checkpoint?)
      requires Valid() && i < |chain| && raw == chain[i]
      ensures sp == raw
    {
      hide SizeFits;
      ghost var k := |chain|;
      sp := head;
      while sp != raw
        invariant i < k <= |chain| && sp == chain[k - 1]
        decreases k
      {
        assert chain[k - 2].next == chain[k - 1] && chain[k - 1].prev == chain[k - 2];
        sp := sp.prev;
        k := k - 1;
      }
    }

    // ----- bookkeeping -----

    /** recordCidSent_. */
    method RecordCidSent(r: Record, simTime: nat)
      requires Valid()
      modifies `distanceToSnapshot, `lastSnapshotSimTime, `lastRecordClosedSimTime
      ensures Valid() && Model() == Sent(old(Model()), r, simTime)
    {
      hide SizeFits;
      if r.IsFull() { distanceToSnapshot := 0; } else { distanceToSnapshot := distanceToSnapshot + 1; }
      if r.IsFull() {
        lastSnapshotSimTime := Some(simTime);
      } else if r.Closed? {
        lastRecordClosedSimTime := Some(simTime);
      }
    }

    /** cleanupThrough_. */
    method CleanupThrough(anchor: Checkpoint, ghost i: nat, r: Record)
      requires Valid() && i < |chain| && anchor == chain[i]
      modifies `tail, `tailIndex, `chain, chain
      ensures Valid() && Model() == Trim(old(Model()), i, r)
      ensures chain == if r.IsFull() then old(chain)[i..] else old(chain)
    {
      hide Linked, Neighbours, AllFit, NodesOf;
      var sp := GetSharedCheckpoint(anchor, i);
      tail, tailIndex := sp, i;
      if r.IsFull() {
        SuffixNeighbours(chain, i);
        SuffixFits(capacity, chain, i);
        DetachPrev(sp, chain[i..]);
        chain := chain[i..];
        tailIndex := 0;
      }
    }

    // ----- encoding -----

    /** encodeSnapshotForPipeline. */
    method EncodeSnapshot(s: Snapshot) returns (r: Record)
      ensures r == FullRecord(s)
    {
      r := FullRecord(s);
    }

    /** The classifiers, on two snapshots of one type. */
    method Classify(prev: Snapshot, curr: Snapshot) returns (d: Option<Record>)
      requires SizeFits(capacity, prev) && SizeFits(capacity, curr) && ScanEnds(prev, curr)
      ensures d == DeltaRecord(prev, curr)
    {
      hide C.ContigDelta, S.SparseDelta;
      match (prev, curr) {
        case (Scalar(a), Scalar(b)) => d := if a == b then Some(Carry) else None;
        case (Contig(a), Contig(b)) =>
          var c := C.ClassifyContigChange(a, b);
          NoBaseline(a, b);
          d := c.value;
        case (Sparse(a), Sparse(b)) =>
          var c := S.ClassifySparseChange(a, b);
          d := c.value;
        case _ => d := None;
      }
    }

    /** A checkpoint's encodeForPipeline. */
    method EncodeCheckpoint(anchor: Checkpoint, ghost i: nat, forceSnapshot: bool) returns (r: Record)
      requires Valid() && i < |chain| && anchor == chain[i] && EncodeEnds(NodesOf(chain), i, forceSnapshot)
      ensures r == RecordOf(NodesOf(chain), i, forceSnapshot)
    {
      hide FullRecord, DeltaRecord, SizeFits, ScanEnds;
      if anchor.snapshot.None? { return Closed; }
      var full := EncodeSnapshot(anchor.snapshot.value);
      if forceSnapshot { return full; }
      PrevOf(chain, i);
      ghost var j := LatestData(NodesOf(chain), i);
      var dataPrev := WalkToData(anchor.prev, i);
      if dataPrev == null { return full; }
      var closed := ClosedSince(anchor, dataPrev, i, j.value);
      if closed { return full; }
      var delta := Classify(dataPrev.snapshot.value, anchor.snapshot.value);
      r := if delta.None? then full else delta.value;
    }

    /** emitRecordClosed_. */
    method EmitRecordClosed(simTime: nat) returns (out: seq<Record>)
      requires Valid()
      modifies `distanceToSnapshot, `lastSnapshotSimTime, `lastRecordClosedSimTime
      ensures Valid() && (Model(), out) == EmitClosed(old(Model()), heartbeat, simTime)
    {
      hide FullRecord, AllFit, Linked;
      ghost var st := Model();
      var windowLo := if simTime >= heartbeat then simTime - heartbeat + 1 else 0;
      if lastSnapshotSimTime.None? || lastSnapshotSimTime.value < windowLo {
        assert NeedsPriming(st, heartbeat, simTime);
        ghost var j := LatestData(st.nodes, |chain|);
        var latest := WalkToData(head, |chain|);
        if latest != null {
          var full := EncodeSnapshot(latest.snapshot.value);
          assert full == FullRecord(st.nodes[j.value].snap);
          RecordCidSent(full, simTime);
          RecordCidSent(Closed, simTime);
          return [full, Closed];
        }
      }
      RecordCidSent(Closed, simTime);
      out := [Closed];
    }

    /** A collectable without a checkpoint in this window: refreshed when its last record is too old. */
    method EncodeSkipped(simTime: nat) returns (out: seq<Record>)
      requires Valid()
      modifies `distanceToSnapshot, `lastSnapshotSimTime, `lastRecordClosedSimTime
      ensures Valid() && (Model(), out) == EncodeAbsent(old(Model()), heartbeat, simTime)
    {
      hide FullRecord, AllFit, Linked;
      var tipClosed := head != null && head.snapshot.None?;
      var refresh := Stale(lastSnapshotSimTime, heartbeat, simTime)
        || (tipClosed && Stale(lastRecordClosedSimTime, heartbeat, simTime));
      if !refresh { return []; }
      if tipClosed {
        out := EmitRecordClosed(simTime);
        return;
      }
      var latest := WalkToData(head, |chain|);
      if latest == null { return []; }
      var full := EncodeSnapshot(latest.snapshot.value);
      RecordCidSent(full, simTime);
      out := [full];
    }

    /** encodeForPipeline_: the anchor is of this window. */
    method EncodeAnchored(anchor: Checkpoint, ghost i: nat, simTime: nat) returns (out: Option<seq<Record>>)
      requires Valid() && i < |chain| && anchor == chain[i]
      requires EncodeEnds(NodesOf(chain), i, ForceFull(Model(), heartbeat, simTime))
      modifies this, chain
      ensures Valid() && (chain == old(chain) || chain == old(chain)[i..])
      ensures out.Some? <==>
                AssertsHold(NodeOf(anchor),
                    RecordOf(old(Model()).nodes, i, ForceFull(old(Model()), heartbeat, simTime)))
      ensures out.Some? ==> (Model(), out.value) == EncodeAnchor(old(Model()), i, heartbeat, simTime)
    {
      hide FullRecord, AllFit, Linked, EncodeEnds, RecordOf, AssertsHold, EmitClosed, NodesOf;
      var force := distanceToSnapshot + 1 >= heartbeat || Stale(lastSnapshotSimTime, heartbeat, simTime);
      var r := EncodeCheckpoint(anchor, i, force);
      if !AssertsHold(NodeOf(anchor), r) { return None; }
      if r.Closed? {
        CleanupThrough(anchor, i, r);
        var emitted := EmitRecordClosed(simTime);
        return Some(emitted);
      }
      RecordCidSent(r, simTime);
      CleanupThrough(anchor, i, r);
      out := Some([r]);
    }

    /** encodeForPipeline; None when an assertion on the bytes fails. */
    method EncodeForPipeline(windowId: nat, simTime: nat) returns (out: Option<seq<Record>>)
      requires Valid() && WindowEnds(Model(), heartbeat, windowId, simTime)
      modifies this, chain
      ensures Valid()
      ensures out.Some? <==> EncodeAsserts(old(Model()), heartbeat, windowId, simTime)
      ensures out.Some? ==> (Model(), out.value) == Encode(old(Model()), heartbeat, windowId, simTime)
      ensures |chain| <= |old(chain)| && chain == old(chain)[|old(chain)| - |chain|..]
    {
      hide FullRecord, AllFit, Linked, EncodeEnds, RecordOf, AssertsHold, EncodeAnchor, EncodeAbsent;
      ghost var i := AnchorFrom(NodesOf(chain), tailIndex, windowId);
      var anchor := GetAnchorForWindow(windowId);
      if anchor == null || anchor.windowId != windowId {
        var refreshed := EncodeSkipped(simTime);
        return Some(refreshed);
      }
      out := EncodeAnchored(anchor, i.value, simTime);
    }
  }

  lemma NoBaseline(a: C.Bins, b: C.Bins)
    requires C.Occupied(a) <= 0xFFFF && C.Occupied(b) <= 0xFFFF
    ensures a == [] ==> C.ContigDelta(a, b) == None
  {
  }

  lemma PrevOf(chain: seq<Checkpoint>, i: nat)
    requires Linked(chain) && i < |chain|
    ensures chain[i].prev == if i == 0 then null else chain[i - 1]
  {
    assert i > 0 ==> chain[i - 1].next == chain[i];
  }
}
