/** Dropping old checkpoints is unobservable: whatever is still needed stays in the chain. */
module Trimming {
  import opened Bytes
  import opened Records
  import opened Chain
  import opened Runs

  /** The calls that one collectable's checkpointer receives. */
  datatype Call =
    | Create(window: nat, snap: Snapshot)
    | CloseRecord(window: nat)
    | EncodeAt(window: nat, time: nat)

  /** Encode, with cleanupThrough_ never detaching a node. */
  function EncodeKeeping(st: State, hb: nat, w: nat, t: nat): (State, seq<Record>)
  {
    match AnchorFrom(st.nodes, st.tail, w)
    case None => EncodeAbsent(st, hb, t)
    case Some(i) =>
      if st.nodes[i].window != w then EncodeAbsent(st, hb, t)
      else
        var r := RecordOf(st.nodes, i, ForceFull(st, hb, t));
        if r.Closed? then EmitClosed(st.(tail := i), hb, t) else (Sent(st, r, t).(tail := i), [r])
  }

  function Receive(hb: nat, keep: bool, st: State, c: Call): (State, seq<Record>)
  {
    match c
    case Create(w, s) => (Push(st, Data(w, s)), [])
    case CloseRecord(w) => (Push(st, Close(w)), [])
    case EncodeAt(w, t) => if keep then EncodeKeeping(st, hb, w, t) else Encode(st, hb, w, t)
  }

  /** State and everything sent after a sequence of calls. */
  function After(hb: nat, keep: bool, calls: seq<Call>): (State, seq<Record>)
  {
    if calls == [] then (INITIAL, [])
    else
      var (st, sent) := After(hb, keep, Init(calls));
      var (st', more) := Receive(hb, keep, st, Last(calls));
      (st', sent + more)
  }

  ghost predicate EncodesInOrder(calls: seq<Call>)
  {
    forall i, j :: 0 <= i < j < |calls| && calls[i].EncodeAt? && calls[j].EncodeAt? ==>
        calls[i].window < calls[j].window
  }

  /** A state as it would be with the dropped nodes still in front of its chain. */
  function Whole(dropped: seq<Node>, st: State): State
  {
    st.(nodes := dropped + st.nodes, tail := |dropped| + st.tail)
  }

  /** If anything was dropped, what is left starts with a data checkpoint from a window already encoded. */
  ghost predicate Clean(dropped: seq<Node>, st: State, w: nat)
  {
    st.tail <= |st.nodes| && (dropped != [] ==> st.nodes != [] && st.nodes[0].Data? && st.nodes[0].window < w)
  }

  function Shift(r: Option<nat>, k: nat): Option<nat>
  {
    if r.Some? then Some(r.value + k) else None
  }

  lemma {:induction false} AnchorShifts(d: seq<Node>, nodes: seq<Node>, i: nat, w: nat)
    requires i <= |nodes|
    ensures AnchorFrom(d + nodes, |d| + i, w) == Shift(AnchorFrom(nodes, i, w), |d|)
    decreases |nodes| - i
  {
    if i < |nodes| { AnchorShifts(d, nodes, i + 1, w); }
  }

  /** Where a data checkpoint is left, the newest one is the same. */
  lemma {:induction false} LatestShifts(d: seq<Node>, nodes: seq<Node>, n: nat)
    requires n <= |nodes| && (d != [] ==> n > 0 && nodes[0].Data?)
    ensures LatestData(d + nodes, |d| + n) == Shift(LatestData(nodes, n), |d|)
    decreases n
  {
    if n > 0 && nodes[n - 1].Close? { LatestShifts(d, nodes, n - 1); }
  }

  lemma ClosedShifts(d: seq<Node>, nodes: seq<Node>, j: nat, i: nat)
    requires i <= |nodes|
    ensures ClosedBetween(d + nodes, |d| + j, |d| + i) <==> ClosedBetween(nodes, j, i)
  {
    if ClosedBetween(nodes, j, i) {
      var m :| j < m < i && nodes[m].Close?;
      assert (d + nodes)[|d| + m].Close?;
    }
    if ClosedBetween(d + nodes, |d| + j, |d| + i) {
      var m :| |d| + j < m < |d| + i && (d + nodes)[m].Close?;
      assert nodes[m - |d|] == (d + nodes)[m];
    }
  }

  /** A checkpoint's record depends on nothing that was dropped, unless it is the first one left. */
  lemma RecordShifts(d: seq<Node>, nodes: seq<Node>, i: nat, force: bool)
    requires i < |nodes| && (d != [] ==> i > 0 && nodes[0].Data?)
    ensures RecordOf(d + nodes, |d| + i, force) == RecordOf(nodes, i, force)
  {
    hide FullRecord, DeltaRecord, ClosedBetween, LatestData;
    assert (d + nodes)[|d| + i] == nodes[i];
    LatestShifts(d, nodes, i);
    var latest := LatestData(nodes, i);
    if latest.Some? {
      assert (d + nodes)[|d| + latest.value] == nodes[latest.value];
      ClosedShifts(d, nodes, latest.value, i);
    }
  }

  lemma SameNewest(d: seq<Node>, st: State, w: nat)
    requires Clean(d, st, w)
    ensures var a, b := LatestData(st.nodes, |st.nodes|), LatestData(d + st.nodes, |d + st.nodes|);
            a.Some? == b.Some? && (a.Some? ==> (d + st.nodes)[b.value] == st.nodes[a.value])
    ensures TipClosed(Whole(d, st)) == TipClosed(st)
  {
    hide LatestData;
    LatestShifts(d, st.nodes, |st.nodes|);
  }

  lemma SameEmit(d: seq<Node>, st: State, w: nat, hb: nat, t: nat)
    requires Clean(d, st, w)
    ensures var a, b := EmitClosed(st, hb, t), EmitClosed(Whole(d, st), hb, t);
            a.1 == b.1 && b.0 == Whole(d, a.0) && Clean(d, a.0, w)
  {
    hide FullRecord, LatestData;
    SameNewest(d, st, w);
  }

  lemma SameAbsent(d: seq<Node>, st: State, w: nat, hb: nat, t: nat)
    requires Clean(d, st, w)
    ensures var a, b := EncodeAbsent(st, hb, t), EncodeAbsent(Whole(d, st), hb, t);
            a.1 == b.1 && b.0 == Whole(d, a.0) && Clean(d, a.0, w)
  {
    hide FullRecord, LatestData, EmitClosed;
    SameNewest(d, st, w);
    SameEmit(d, st, w, hb, t);
  }

  /** Trimming at node i moves what it drops in front. */
  lemma TrimMoves(d: seq<Node>, st: State, i: nat, r: Record, w: nat) returns (d': seq<Node>)
    requires Clean(d, st, w) && i < |st.nodes| && st.nodes[i].window == w && (r.IsFull() ==> st.nodes[i].Data?)
    ensures Whole(d', Trim(st, i, r)) == Whole(d, st).(tail := |d| + i) && Clean(d', Trim(st, i, r), w + 1)
  {
    d' := if r.IsFull() then d + st.nodes[..i] else d;
    assert d + st.nodes[..i] + st.nodes[i..] == d + st.nodes;
  }

  lemma SameAtAnchor(d: seq<Node>, st: State, i: nat, hb: nat, w: nat, t: nat) returns (d': seq<Node>)
    requires Clean(d, st, w) && i < |st.nodes| && st.nodes[i].window == w
    ensures var r := RecordOf(st.nodes, i, ForceFull(st, hb, t));
            && RecordOf(d + st.nodes, |d| + i, ForceFull(Whole(d, st), hb, t)) == r
            && Whole(d', Trim(st, i, r)) == Whole(d, st).(tail := |d| + i) && Clean(d', Trim(st, i, r), w + 1)
  {
    hide FullRecord, RecordOf;
    RecordShifts(d, st.nodes, i, ForceFull(st, hb, t));
    d' := TrimMoves(d, st, i, RecordOf(st.nodes, i, ForceFull(st, hb, t)), w);
  }

  lemma SameEncode(d: seq<Node>, st: State, hb: nat, w: nat, t: nat) returns (d': seq<Node>)
    requires Clean(d, st, w)
    ensures var a, b := Encode(st, hb, w, t), EncodeKeeping(Whole(d, st), hb, w, t);
            a.1 == b.1 && b.0 == Whole(d', a.0) && Clean(d', a.0, w + 1)
  {
    hide RecordOf, EncodeAbsent, EmitClosed, AnchorFrom, ForceFull;
    AnchorShifts(d, st.nodes, st.tail, w);
    var anchor := AnchorFrom(st.nodes, st.tail, w);
    if anchor.Some? && st.nodes[anchor.value].window == w {
      var i := anchor.value;
      d' := SameAtAnchor(d, st, i, hb, w, t);
      var r := RecordOf(st.nodes, i, ForceFull(st, hb, t));
      if r.Closed? { SameEmit(d', Trim(st, i, r), w + 1, hb, t); }
    } else {
      d' := d;
      SameAbsent(d, st, w, hb, t);
    }
  }

  /** The first window that a call sequence has not yet encoded. */
  function NextWindow(calls: seq<Call>): nat
  {
    if calls == [] then 0
    else if Last(calls).EncodeAt? then Last(calls).window + 1
    else NextWindow(Init(calls))
  }

  lemma {:induction false} NextIsAbove(calls: seq<Call>)
    requires EncodesInOrder(calls)
    ensures calls != [] && Last(calls).EncodeAt? ==> NextWindow(Init(calls)) <= Last(calls).window
    decreases |calls|
  {
    if |calls| > 1 && Last(calls).EncodeAt? && !Last(Init(calls)).EncodeAt? {
      var shorter := Init(Init(calls)) + [Last(calls)];
      assert Init(shorter) == Init(Init(calls));
      NextIsAbove(shorter);
    }
  }

  lemma {:induction false} SameAfter(hb: nat, calls: seq<Call>) returns (d: seq<Node>)
    requires EncodesInOrder(calls)
    ensures var a, b := After(hb, false, calls), After(hb, true, calls);
            a.1 == b.1 && b.0 == Whole(d, a.0) && Clean(d, a.0, NextWindow(calls))
    decreases |calls|
  {
    if calls == [] {
      d := [];
    } else {
      hide Encode, EncodeKeeping;
      var c := Last(calls);
      d := SameAfter(hb, Init(calls));
      var st := After(hb, false, Init(calls)).0;
      if c.EncodeAt? {
        NextIsAbove(calls);
        d := SameEncode(d, st, hb, c.window, c.time);
      } else {
        var n := if c.Create? then Data(c.window, c.snap) else Close(c.window);
        assert d + (st.nodes + [n]) == d + st.nodes + [n];
      }
    }
  }

  /** Under any sequence of creates, closes and encodes, the encodes at increasing windows, trimming the chain
      changes nothing that is sent. */
  lemma TrimmingIsUnobservable(hb: nat, calls: seq<Call>)
    requires EncodesInOrder(calls)
    ensures After(hb, false, calls).1 == After(hb, true, calls).1
  {
    var dropped := SameAfter(hb, calls);
  }
}
