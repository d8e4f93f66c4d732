/** The checkpoint chain and the heartbeat rules of one collectable, on values: what the linked checkpointer of
    module Checkpointer refines, and what the whole-run theorems speak about. */
module Chain {
  import opened Bytes
  import opened Records
  import C = ContigDeltas
  import S = SparseDeltas

  datatype Snapshot =
    | Scalar(value: Bytes)
    | Contig(bins: seq<Bytes>)
    | Sparse(held: map<u16, Bytes>)

  datatype Node =
    | Data(window: nat, snap: Snapshot)
    | Close(window: nat)

  /** nodes: oldest first; tail: index of the node that the anchor search starts from. */
  datatype State = State(nodes: seq<Node>, tail: nat, distance: nat, lastFull: Option<nat>, lastClosed: Option<nat>)

  const INITIAL := State([], 0, 0, None, None)

  // ----- records for checkpoints -----

  function FullRecord(s: Snapshot): (r: Record)
    ensures r.IsFull()
  {
    match s
    case Scalar(v) => FullScalar(v)
    case Contig(bins) => FullContig(C.Front(bins))
    case Sparse(m) => FullSparse(S.Held(m, S.KEYS))
  }

  /** The delta between two snapshots of one collectable, if there is one. */
  function DeltaRecord(prev: Snapshot, curr: Snapshot): (r: Option<Record>)
    ensures r.Some? ==> !r.value.IsFull() && !r.value.Closed?
  {
    match (prev, curr)
    case (Scalar(a), Scalar(b)) => if a == b then Some(Carry) else None
    case (Contig(a), Contig(b)) =>
      if C.Occupied(a) <= 0xFFFF && C.Occupied(b) <= 0xFFFF then C.ContigDelta(a, b) else None
    case (Sparse(a), Sparse(b)) => S.SparseDelta(a, b)
    case _ => None
  }

  /** Index of the newest data checkpoint below n. */
  function LatestData(nodes: seq<Node>, n: nat): (r: Option<nat>)
    requires n <= |nodes|
    ensures r.Some? ==> r.value < n && nodes[r.value].Data?
    ensures forall k :: (if r.Some? then r.value + 1 else 0) <= k < n ==> nodes[k].Close?
  {
    if n == 0 then None
    else if nodes[n - 1].Data? then Some(n - 1)
    else LatestData(nodes, n - 1)
  }

  predicate ClosedBetween(nodes: seq<Node>, lo: nat, hi: nat)
    requires hi <= |nodes|
  {
    exists k :: lo < k < hi && nodes[k].Close?
  }

  /** The record for the checkpoint at index i. */
  function RecordOf(nodes: seq<Node>, i: nat, force: bool): (r: Record)
    requires i < |nodes|
    ensures r.Closed? <==> nodes[i].Close?
  {
    match nodes[i]
    case Close(_) => Closed
    case Data(_, s) =>
      if force then FullRecord(s)
      else
        match LatestData(nodes, i)
        case None => FullRecord(s)
        case Some(j) =>
          if ClosedBetween(nodes, j, i) then FullRecord(s)
          else
            match DeltaRecord(nodes[j].snap, s)
            case None => FullRecord(s)
            case Some(d) => d
  }

  // ----- staging -----

  function Push(st: State, n: Node): State
  {
    st.(nodes := st.nodes + [n])
  }

  // ----- heartbeat -----

  /** First sim time of the heartbeat window that ends at t. */
  function WindowLo(hb: nat, t: nat): nat
  {
    if t >= hb then t - hb + 1 else 0
  }

  predicate Stale(last: Option<nat>, hb: nat, t: nat)
  {
    last.Some? && last.value < t && last.value < WindowLo(hb, t)
  }

  predicate ForceFull(st: State, hb: nat, t: nat)
  {
    st.distance + 1 >= hb || Stale(st.lastFull, hb, t)
  }

  predicate RefreshAbsent(st: State, hb: nat, t: nat, tipClosed: bool)
  {
    Stale(st.lastFull, hb, t) || (tipClosed && Stale(st.lastClosed, hb, t))
  }

  predicate NeedsPriming(st: State, hb: nat, t: nat)
  {
    st.lastFull.None? || st.lastFull.value < WindowLo(hb, t)
  }

  /** recordCidSent_. */
  function Sent(st: State, r: Record, t: nat): State
  {
    if r.IsFull() then st.(distance := 0, lastFull := Some(t))
    else if r.Closed? then st.(distance := st.distance + 1, lastClosed := Some(t))
    else st.(distance := st.distance + 1)
  }

  // ----- encoding -----

  /** The newest node from i on, walking forward while the windows are not past w. */
  function AnchorFrom(nodes: seq<Node>, i: nat, w: nat): (r: Option<nat>)
    ensures r.Some? ==> i <= r.value < |nodes| && nodes[r.value].window <= w
    decreases |nodes| - i
  {
    if i >= |nodes| || nodes[i].window > w then None
    else
      match AnchorFrom(nodes, i + 1, w)
      case None => Some(i)
      case Some(j) => Some(j)
  }

  /** cleanupThrough_: the tail moves to the anchor; a FULL drops everything before it. */
  function Trim(st: State, i: nat, r: Record): State
    requires i < |st.nodes|
  {
    if r.IsFull() then st.(nodes := st.nodes[i..], tail := 0) else st.(tail := i)
  }

  predicate TipClosed(st: State)
  {
    st.nodes != [] && Last(st.nodes).Close?
  }

  function EmitClosed(st: State, hb: nat, t: nat): (State, seq<Record>)
  {
    var latest := LatestData(st.nodes, |st.nodes|);
    if NeedsPriming(st, hb, t) && latest.Some? then
      var r := FullRecord(st.nodes[latest.value].snap);
      (Sent(Sent(st, r, t), Closed, t), [r, Closed])
    else (Sent(st, Closed, t), [Closed])
  }

  function EncodeAnchor(st: State, i: nat, hb: nat, t: nat): (State, seq<Record>)
    requires i < |st.nodes|
  {
    var r := RecordOf(st.nodes, i, ForceFull(st, hb, t));
    if r.Closed? then EmitClosed(Trim(st, i, r), hb, t)
    else (Trim(Sent(st, r, t), i, r), [r])
  }

  function EncodeAbsent(st: State, hb: nat, t: nat): (State, seq<Record>)
  {
    if !RefreshAbsent(st, hb, t, TipClosed(st)) then (st, [])
    else if TipClosed(st) then EmitClosed(st, hb, t)
    else
      match LatestData(st.nodes, |st.nodes|)
      case None => (st, [])
      case Some(j) =>
        var r := FullRecord(st.nodes[j].snap);
        (Sent(st, r, t), [r])
  }

  /** encodeForPipeline. */
  function Encode(st: State, hb: nat, w: nat, t: nat): (State, seq<Record>)
  {
    match AnchorFrom(st.nodes, st.tail, w)
    case Some(i) => if st.nodes[i].window == w then EncodeAnchor(st, i, hb, t) else EncodeAbsent(st, hb, t)
    case None => EncodeAbsent(st, hb, t)
  }

  // ----- the chain -----

  ghost predicate Ordered(nodes: seq<Node>)
  {
    forall i, j :: 0 <= i <= j < |nodes| ==> nodes[i].window <= nodes[j].window
  }

  /** With windows in order, the walk stops exactly at the newest node at or before the window. */
  lemma {:induction false} AnchorIsNewest(nodes: seq<Node>, i: nat, w: nat)
    requires Ordered(nodes)
    ensures match AnchorFrom(nodes, i, w)
            case None => forall k :: i <= k < |nodes| ==> nodes[k].window > w
            case Some(a) =>
              && (forall k :: i <= k <= a ==> nodes[k].window <= w)
              && (forall k :: a < k < |nodes| ==> nodes[k].window > w)
    decreases |nodes| - i
  {
    if i < |nodes| && nodes[i].window <= w {
      AnchorIsNewest(nodes, i + 1, w);
    }
  }

  predicate WellFormed(st: State)
  {
    if st.nodes == [] then st.tail == 0 else st.tail < |st.nodes|
  }
}
