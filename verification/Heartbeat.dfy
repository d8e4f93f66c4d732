/** The heartbeat invariant: how old the last full snapshot of a collectable can be, in time and in deltas. */
module Heartbeat {
  import opened Bytes
  import opened Records
  import opened Chain
  import opened Runs

  /** Either no delta is ever sent, or each window stages at most one snapshot. */
  ghost predicate Paced(hb: nat, run: seq<Window>)
  {
    hb == 1 || SingleStage(run)
  }

  predicate Within(last: Option<nat>, hb: nat, t: nat)
  {
    last.Some? && WindowLo(hb, t) <= last.value <= t
  }

  predicate HasData(st: State)
  {
    LatestData(st.nodes, |st.nodes|).Some?
  }

  /** What every encoding step establishes at its sim time t. */
  ghost predicate Fresh(st: State, hb: nat, t: nat)
  {
    && (HasData(st) ==> Within(st.lastFull, hb, t))
    && (TipClosed(st) ==> Within(st.lastClosed, hb, t))
    && (st.lastFull.Some? ==> st.lastFull.value <= t)
    && (st.lastClosed.Some? ==> st.lastClosed.value <= t)
  }

  /** What a step may rely on: everything sent so far was sent before t. */
  ghost predicate Before(st: State, t: nat)
  {
    && (st.lastFull.Some? ==> st.lastFull.value < t)
    && (st.lastClosed.Some? ==> st.lastClosed.value < t)
  }

  /** Number of data deltas since the last full snapshot in a stream. */
  function TrailingDeltas(rs: seq<Record>): nat
  {
    if rs == [] then 0
    else if Last(rs).IsFull() then 0
    else TrailingDeltas(Init(rs)) + if Last(rs).Closed? then 0 else 1
  }

  /** A step records what it sends: the times change only by a record of that sort at time t. */
  ghost predicate Accounts(st: State, out: (State, seq<Record>), t: nat)
  {
    && (out.0.lastFull == st.lastFull || (out.0.lastFull == Some(t) && exists r :: r in out.1 && r.IsFull()))
    && (out.0.lastClosed == st.lastClosed || (out.0.lastClosed == Some(t) && Closed in out.1))
  }

  lemma EmitClosedFresh(st: State, hb: nat, t: nat)
    requires Before(st, t) && 1 <= hb
    requires HasData(st) ==> st.lastFull.Some?
    ensures var out := EmitClosed(st, hb, t);
            && out.0.nodes == st.nodes && out.0.tail == st.tail
            && (HasData(st) ==> Within(out.0.lastFull, hb, t))
            && out.0.lastClosed == Some(t)
            && (out.0.lastFull.Some? ==> out.0.lastFull.value <= t)
  {
    hide FullRecord;
  }

  lemma AnchorFresh(kind: Kind, st: State, w: nat, hb: nat, t: nat)
    requires ChainInv(kind, st, w) && st.nodes != [] && Last(st.nodes).window == w
    requires Before(st, t) && 1 <= hb
    requires LatestData(st.nodes, |st.nodes| - 1).Some? ==> st.lastFull.Some? || (hb == 1 && Last(st.nodes).Data?)
    ensures var out := Encode(st, hb, w, t); Fresh(out.0, hb, t)
  {
    hide FullRecord, DeltaRecord, ChainInv, SnapFits, Encode;
    EncodesLast(kind, st, hb, w, t);
    var i, force := |st.nodes| - 1, ForceFull(st, hb, t);
    var r := RecordOf(st.nodes, i, force);
    if r.Closed? {
      EmitClosedFresh(Trim(st, i, r), hb, t);
    } else if r.IsFull() {
      assert st.nodes[i..] == [st.nodes[i]];
    }
  }

  lemma AbsentFresh(st: State, hb: nat, t0: nat, t: nat)
    requires 1 <= hb && t0 < t && Fresh(st, hb, t0)
    ensures var out := EncodeAbsent(st, hb, t); Fresh(out.0, hb, t)
  {
    hide FullRecord;
    if RefreshAbsent(st, hb, t, TipClosed(st)) && TipClosed(st) { EmitClosedFresh(st, hb, t); }
  }

  lemma StagedHasNoOlderData(st: State, w: nat, e: Event, hb: nat)
    requires (e.Stage? ==> e.snaps != []) && !e.Idle? && (hb == 1 || OncePerWindow(e))
    requires HasData(st) ==> st.lastFull.Some?
    ensures var st' := Staged(st, w, e);
            && st'.nodes != []
            && st'.lastFull == st.lastFull && st'.lastClosed == st.lastClosed && st'.distance == st.distance
            && (LatestData(st'.nodes, |st'.nodes| - 1).Some? ==>
                st'.lastFull.Some? || (hb == 1 && Last(st'.nodes).Data?))
  {
    if e.Stage? {
      StageAllFacts(st, w, e.snaps);
      var m := |st.nodes| + |e.snaps|;
      assert StageAll(st, w, e.snaps).nodes[|st.nodes| + (|e.snaps| - 1)] == Data(w, Last(e.snaps));
      if |e.snaps| == 1 {
        var nodes := StageAll(st, w, e.snaps).nodes;
        assert nodes == st.nodes + [nodes[m - 1]];
        LatestDataPrefix(st.nodes, [nodes[m - 1]], |st.nodes|);
      }
    } else {
      LatestDataPrefix(st.nodes, [Close(w)], |st.nodes|);
    }
  }

  lemma StepFresh(kind: Kind, st: State, truth: Truth, w0: nat, t0: nat, hb: nat, w: nat, x: Window)
    requires Inv(kind, st, truth, w0) && w0 < w && 1 <= hb && EventFits(kind, x.event)
    requires st == INITIAL || (t0 < x.time && Fresh(st, hb, t0))
    requires hb == 1 || OncePerWindow(x.event)
    ensures var out := Step(hb, st, w, x); Fresh(out.0, hb, x.time)
  {
    hide Encode, SnapFits;
    if x.event.Idle? {
      if st.nodes != [] { AnchorIsLast(st.nodes, st.tail, w); }
      assert Encode(st, hb, w, x.time) == EncodeAbsent(st, hb, x.time) by {
        IdleIsAbsent(kind, st, truth, w0, hb, w, x.time);
      }
      if st != INITIAL { AbsentFresh(st, hb, t0, x.time); }
    } else {
      StagedHasNoOlderData(st, w, x.event, hb);
      var st' := Staged(st, w, x.event);
      if x.event.Stage? { StagedChain(kind, st, w0, w, x.event.snaps); } else { ShutChain(kind, st, w0, w); }
      AnchorFresh(kind, st', w, hb, x.time);
    }
  }

  lemma IdleIsAbsent(kind: Kind, st: State, truth: Truth, w0: nat, hb: nat, w: nat, t: nat)
    requires Inv(kind, st, truth, w0) && w0 < w
    ensures Encode(st, hb, w, t) == EncodeAbsent(st, hb, t)
  {
    hide EncodeAbsent, SnapFits;
    if st.nodes != [] { AnchorIsLast(st.nodes, st.tail, w); }
  }

  /** A record of the given sort was sent in the window at time f. */
  ghost predicate SentAt(hb: nat, run: seq<Window>, f: nat, full: bool)
  {
    exists i :: 0 <= i < |run| && run[i].time == f && SendsSort(hb, run[..i + 1], full)
  }

  /** The last window sends a record of the given sort. */
  ghost predicate SendsSort(hb: nat, run: seq<Window>, full: bool)
    requires run != []
  {
    exists r :: r in Sends(hb, run) && if full then r.IsFull() else r.Closed?
  }

  lemma SentAtExtends(hb: nat, run: seq<Window>, f: nat, full: bool)
    requires run != [] && SentAt(hb, Init(run), f, full)
    ensures SentAt(hb, run, f, full)
  {
    hide SendsSort;
    var pre := Init(run);
    var i :| 0 <= i < |pre| && pre[i].time == f && SendsSort(hb, pre[..i + 1], full);
    assert pre[..i + 1] == run[..i + 1] && run[i] == pre[i];
  }

  lemma SentNow(hb: nat, run: seq<Window>, full: bool)
    requires run != [] && exists r :: r in Sends(hb, run) && if full then r.IsFull() else r.Closed?
    ensures SentAt(hb, run, Last(run).time, full)
  {
    assert run[..|run| - 1 + 1] == run && run[|run| - 1] == Last(run);
  }

  /** After every window, a collectable that has held data was sent a full snapshot within the current heartbeat
      window, and a closed one was sent CLOSED within it. */
  lemma {:induction false} HeartbeatInvariant(kind: Kind, hb: nat, run: seq<Window>)
    requires 1 <= hb && ValidRun(kind, run) && Paced(hb, run)
    ensures run != [] ==> Fresh(RunState(hb, run), hb, Last(run).time)
    decreases |run|
  {
    if run != [] {
      hide Step, Inv, Fresh;
      var pre, x := Init(run), Last(run);
      HeartbeatInvariant(kind, hb, pre);
      RunInv(kind, hb, pre);
      assert EventFits(kind, x.event) && (hb != 1 ==> OncePerWindow(x.event));
      StepFresh(kind, RunState(hb, pre), TruthOf(pre), |pre|, if pre == [] then 0 else Last(pre).time, hb, |run|, x);
    }
  }

  // ----- what the rules go by -----

  lemma EmitClosedAccounts(st: State, hb: nat, t: nat)
    ensures Accounts(st, EmitClosed(st, hb, t), t)
  {
    hide FullRecord;
    var latest := LatestData(st.nodes, |st.nodes|);
    if NeedsPriming(st, hb, t) && latest.Some? {
      var r := FullRecord(st.nodes[latest.value].snap);
      assert [r, Closed][0] == r && [r, Closed][1] == Closed;
    }
  }

  lemma EncodeAccounts(st: State, hb: nat, w: nat, t: nat)
    ensures Accounts(st, Encode(st, hb, w, t), t)
  {
    hide FullRecord, DeltaRecord, LatestData, EmitClosed;
    EmitClosedAccounts(st, hb, t);
    var anchor := AnchorFrom(st.nodes, st.tail, w);
    if anchor.Some? && st.nodes[anchor.value].window == w {
      var r := RecordOf(st.nodes, anchor.value, ForceFull(st, hb, t));
      EmitClosedAccounts(Trim(st, anchor.value, r), hb, t);
      assert r in [r];
    } else if LatestData(st.nodes, |st.nodes|).Some? {
      var r := FullRecord(st.nodes[LatestData(st.nodes, |st.nodes|).value].snap);
      assert r in [r];
    }
  }

  /** The times that the heartbeat rules go by are those of records that were really sent, in every run. */
  lemma {:induction false} RecordedTimesAreSent(hb: nat, run: seq<Window>)
    ensures RunState(hb, run).lastFull.Some? ==> SentAt(hb, run, RunState(hb, run).lastFull.value, true)
    ensures RunState(hb, run).lastClosed.Some? ==> SentAt(hb, run, RunState(hb, run).lastClosed.value, false)
    decreases |run|
  {
    if run != [] {
      hide Encode, SentAt;
      var pre, x := Init(run), Last(run);
      RecordedTimesAreSent(hb, pre);
      var st, st' := RunState(hb, pre), RunState(hb, run);
      StageKeepsTimes(st, |run|, x.event);
      EncodeAccounts(Staged(st, |run|, x.event), hb, |run|, x.time);
      if st'.lastFull.Some? {
        if st'.lastFull == st.lastFull {
          SentAtExtends(hb, run, st.lastFull.value, true);
        } else {
          SentNow(hb, run, true);
        }
      }
      if st'.lastClosed.Some? {
        if st'.lastClosed == st.lastClosed {
          SentAtExtends(hb, run, st.lastClosed.value, false);
        } else {
          SentNow(hb, run, false);
        }
      }
    }
  }

  lemma StageKeepsTimes(st: State, w: nat, e: Event)
    ensures Staged(st, w, e).lastFull == st.lastFull && Staged(st, w, e).lastClosed == st.lastClosed
  {
    if e.Stage? { StageAllFacts(st, w, e.snaps); }
  }

  // ----- between two full snapshots -----

  lemma {:induction false} TrailingAppend(a: seq<Record>, r: Record)
    ensures TrailingDeltas(a + [r]) == if r.IsFull() then 0 else TrailingDeltas(a) + if r.Closed? then 0 else 1
  {
    assert Init(a + [r]) == a && Last(a + [r]) == r;
  }

  ghost predicate Counted(rs: seq<Record>, distance: nat, hb: nat)
  {
    TrailingDeltas(rs) <= distance && TrailingDeltas(rs) <= hb - 1
  }

  lemma SendCounts(st: State, rs: seq<Record>, r: Record, hb: nat, t: nat)
    requires 1 <= hb && Counted(rs, st.distance, hb)
    requires !r.IsFull() && !r.Closed? ==> st.distance + 1 < hb
    ensures Counted(rs + [r], Sent(st, r, t).distance, hb)
  {
    TrailingAppend(rs, r);
  }

  lemma EmitClosedCounts(st: State, rs: seq<Record>, hb: nat, t: nat)
    requires 1 <= hb && Counted(rs, st.distance, hb)
    ensures Counted(rs + EmitClosed(st, hb, t).1, EmitClosed(st, hb, t).0.distance, hb)
  {
    hide FullRecord, Counted;
    var latest := LatestData(st.nodes, |st.nodes|);
    if NeedsPriming(st, hb, t) && latest.Some? {
      var r := FullRecord(st.nodes[latest.value].snap);
      SendCounts(st, rs, r, hb, t);
      SendCounts(Sent(st, r, t), rs + [r], Closed, hb, t);
      assert rs + [r, Closed] == rs + [r] + [Closed];
    } else {
      SendCounts(st, rs, Closed, hb, t);
    }
  }

  /** A step sends a data delta only while fewer than hb - 1 of them have gone out since the last full snapshot. */
  lemma EncodeCounts(st: State, rs: seq<Record>, hb: nat, w: nat, t: nat)
    requires 1 <= hb && Counted(rs, st.distance, hb)
    ensures Counted(rs + Encode(st, hb, w, t).1, Encode(st, hb, w, t).0.distance, hb)
  {
    hide FullRecord, DeltaRecord, LatestData, EmitClosed, Counted;
    assert rs + [] == rs;
    var anchor := AnchorFrom(st.nodes, st.tail, w);
    if anchor.Some? && st.nodes[anchor.value].window == w {
      var r := RecordOf(st.nodes, anchor.value, ForceFull(st, hb, t));
      if r.Closed? {
        EmitClosedCounts(Trim(st, anchor.value, r), rs, hb, t);
      } else {
        SendCounts(st, rs, r, hb, t);
      }
    } else if TipClosed(st) {
      EmitClosedCounts(st, rs, hb, t);
    } else {
      var latest := LatestData(st.nodes, |st.nodes|);
      if latest.Some? { SendCounts(st, rs, FullRecord(st.nodes[latest.value].snap), hb, t); }
    }
  }

  lemma StageKeepsDistance(st: State, w: nat, e: Event)
    ensures Staged(st, w, e).distance == st.distance
  {
    if e.Stage? { StageAllFacts(st, w, e.snaps); }
  }

  /** In every run, whatever is staged, at most hb - 1 data deltas are sent between two full snapshots. */
  lemma {:induction false} DeltaChainBounded(hb: nat, run: seq<Window>)
    requires 1 <= hb
    ensures Counted(Stream(hb, run), RunState(hb, run).distance, hb)
    decreases |run|
  {
    if run == [] {
    } else {
      hide Encode, Counted;
      var pre, x := Init(run), Last(run);
      DeltaChainBounded(hb, pre);
      StageKeepsDistance(RunState(hb, pre), |run|, x.event);
      EncodeCounts(Staged(RunState(hb, pre), |run|, x.event), Stream(hb, pre), hb, |run|, x.time);
    }
  }
}
