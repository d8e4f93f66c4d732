/** Whatever the collector sends is something the byte format can carry. */
module Sendable {
  import opened Bytes
  import opened Records
  import opened Chain
  import opened Runs
  import opened Wire
  import C = ContigDeltas
  import S = SparseDeltas
  import K = Checkpointer

  /** Containers small enough for every one-byte count. */
  predicate Narrow(kind: Kind)
  {
    !kind.ScalarKind? ==> kind.capacity <= 0xFF
  }

  lemma {:induction false} CountBelow(m: S.SparseMap, capacity: nat, n: nat)
    requires S.KeysBelow(m, capacity) && n <= S.KEYS
    ensures S.Count(m, n) <= capacity
  {
    if n > capacity { CountBelow(m, capacity, n - 1); }
  }

  lemma {:induction false} PickBelow(ch: S.Change, p: S.SparseMap, c: S.SparseMap, capacity: nat, n: nat)
    requires S.KeysBelow(p, capacity) && S.KeysBelow(c, capacity) && n <= S.KEYS
    ensures |S.Pick(ch, p, c, n)| <= capacity
  {
    if n > capacity { PickBelow(ch, p, c, capacity, n - 1); }
  }

  lemma FullFits(kind: Kind, s: Snapshot)
    requires SnapFits(kind, s)
    ensures Fits(kind, FullRecord(s))
  {
    match s {
      case Scalar(_) =>
      case Contig(bins) =>
      case Sparse(m) => CountBelow(m, kind.capacity, S.KEYS);
    }
  }

  lemma SameSizeFits(width: nat, capacity: nat, p: C.Bins, c: C.Bins)
    requires |p| == |c| <= 0xFF && BinsFit(width, c)
    ensures Fits(ContigKind(width, capacity), C.SameSize(p, c))
  {
    C.ChangedFacts(p, c, |c|);
  }

  lemma ResizedFits(width: nat, capacity: nat, p: C.Bins, c: C.Bins)
    requires |p| != |c| && BinsFit(width, c) && C.Resized(p, c).Some?
    ensures Fits(ContigKind(width, capacity), C.Resized(p, c).value)
  {
    hide C.Scan, C.Overlaps;
  }

  lemma ContigDeltaFits(kind: Kind, p: C.Bins, c: C.Bins)
    requires kind.ContigKind? && Narrow(kind) && SnapFits(kind, Contig(p)) && SnapFits(kind, Contig(c))
    requires C.ContigDelta(p, c).Some?
    ensures Fits(kind, C.ContigDelta(p, c).value)
  {
    hide C.SameSize, C.Resized, Fits;
    var fp, fc := C.Front(p), C.Front(c);
    assert forall i :: 0 <= i < |fc| ==> fc[i] in fc && |fc[i]| == kind.width;
    if |fp| == |fc| {
      SameSizeFits(kind.width, kind.capacity, fp, fc);
    } else {
      ResizedFits(kind.width, kind.capacity, fp, fc);
    }
  }

  lemma ChoiceFits(kind: Kind, p: S.SparseMap, c: S.SparseMap, ps: nat, cs: nat,
                   gone: seq<u16>, added: seq<u16>, altered: seq<u16>)
    requires kind.SparseKind? && SnapFits(kind, Sparse(c))
    requires |gone| <= 0xFF && |altered| <= 0xFF
    requires forall i :: 0 <= i < |added| ==> added[i] in c
    requires forall i :: 0 <= i < |altered| ==> altered[i] in c
    requires S.Choose(p, c, ps, cs, gone, added, altered).Some?
    ensures Fits(kind, S.Choose(p, c, ps, cs, gone, added, altered).value)
  {
  }

  lemma DeltaFits(kind: Kind, p: Snapshot, s: Snapshot)
    requires Narrow(kind) && SnapFits(kind, p) && SnapFits(kind, s) && DeltaRecord(p, s).Some?
    ensures Fits(kind, DeltaRecord(p, s).value)
  {
    match kind {
      case ScalarKind(_) =>
      case ContigKind(_, _) => ContigDeltaFits(kind, p.bins, s.bins);
      case SparseKind(_, capacity) =>
        hide S.Choose;
        var (a, b) := (p.held, s.held);
        PickBelow(S.Gone, a, b, capacity, S.KEYS);
        PickBelow(S.Altered, a, b, capacity, S.KEYS);
        ChoiceFits(kind, a, b, S.Count(a, S.KEYS), S.Count(b, S.KEYS),
                   S.Difference(S.Gone, a, b), S.Difference(S.New, a, b), S.Difference(S.Altered, a, b));
    }
  }

  ghost predicate AllFit(kind: Kind, rs: seq<Record>)
  {
    forall i :: 0 <= i < |rs| ==> Fits(kind, rs[i])
  }

  ghost predicate NodesFit(kind: Kind, nodes: seq<Node>)
  {
    forall i :: 0 <= i < |nodes| ==> NodeFits(kind, nodes[i])
  }

  lemma EmitClosedFits(kind: Kind, st: State, hb: nat, t: nat)
    requires NodesFit(kind, st.nodes)
    ensures AllFit(kind, EmitClosed(st, hb, t).1)
  {
    hide FullRecord, Fits, SnapFits;
    ClosedFits(kind);
    var latest := LatestData(st.nodes, |st.nodes|);
    if latest.Some? { FullFits(kind, st.nodes[latest.value].snap); }
  }

  lemma ClosedFits(kind: Kind)
    ensures Fits(kind, Closed)
  {
  }

  lemma RecordFits(kind: Kind, nodes: seq<Node>, i: nat, force: bool)
    requires i < |nodes| && NodesFit(kind, nodes) && (force || Narrow(kind))
    ensures Fits(kind, RecordOf(nodes, i, force))
  {
    hide FullRecord, DeltaRecord, Fits, SnapFits, Narrow;
    ClosedFits(kind);
    if nodes[i].Data? {
      FullFits(kind, nodes[i].snap);
      var latest := LatestData(nodes, i);
      if !force && latest.Some? && DeltaRecord(nodes[latest.value].snap, nodes[i].snap).Some? {
        DeltaFits(kind, nodes[latest.value].snap, nodes[i].snap);
      }
    }
  }

  lemma EncodeFits(kind: Kind, st: State, hb: nat, w: nat, t: nat)
    requires NodesFit(kind, st.nodes) && (hb <= 1 || Narrow(kind))
    ensures AllFit(kind, Encode(st, hb, w, t).1)
  {
    hide FullRecord, RecordOf, Fits, SnapFits, Narrow, EmitClosed;
    var anchor := AnchorFrom(st.nodes, st.tail, w);
    if anchor.Some? && st.nodes[anchor.value].window == w {
      var force := ForceFull(st, hb, t);
      RecordFits(kind, st.nodes, anchor.value, force);
      EmitClosedFits(kind, st.(tail := anchor.value), hb, t);
    } else {
      EmitClosedFits(kind, st, hb, t);
      var latest := LatestData(st.nodes, |st.nodes|);
      if latest.Some? { FullFits(kind, st.nodes[latest.value].snap); }
    }
  }

  lemma StagedFits(kind: Kind, st: State, w: nat, e: Event)
    requires NodesFit(kind, st.nodes) && EventFits(kind, e)
    ensures NodesFit(kind, Staged(st, w, e).nodes)
  {
    hide SnapFits;
    if e.Stage? {
      StageAllFacts(st, w, e.snaps);
      var nodes, m := Staged(st, w, e).nodes, |st.nodes|;
      forall i | 0 <= i < |nodes| ensures NodeFits(kind, nodes[i]) {
        assert i >= m ==> nodes[m + (i - m)] == Data(w, e.snaps[i - m]);
      }
    }
  }

  /** Every record of every run can be carried, when no count exceeds its byte or no delta is ever sent. */
  lemma SendsFit(kind: Kind, hb: nat, run: seq<Window>)
    requires run != [] && ValidRun(kind, run) && (hb <= 1 || Narrow(kind))
    ensures AllFit(kind, Sends(hb, run))
  {
    hide Encode, SnapFits, Fits, Narrow;
    var pre, x := Init(run), Last(run);
    RunInv(kind, hb, pre);
    assert EventFits(kind, x.event);
    StagedFits(kind, RunState(hb, pre), |run|, x.event);
    EncodeFits(kind, Staged(RunState(hb, pre), |run|, x.event), hb, |run|, x.time);
  }

  // ----- the encoder's own assertions -----

  lemma ContigDeltaAsserts(n: Node, p: C.Bins, c: C.Bins)
    requires n.Data? && n.snap.Contig? && C.Occupied(p) <= 0xFFFF && C.Occupied(c) <= 0xFFFF
               && C.ContigDelta(p, c).Some?
    ensures K.AssertsHold(n, C.ContigDelta(p, c).value)
  {
    hide C.Scan, C.Overlaps;
    var fp, fc := C.Front(p), C.Front(c);
    assert forall i :: 0 <= i < |fc| ==> fc[i] != [];
    if |fp| == |fc| && fc != [] { C.ChangedFacts(fp, fc, |fc|); }
  }

  lemma SparseDeltaAsserts(n: Node, p: S.SparseMap, c: S.SparseMap)
    requires n.Data? && n.snap.Sparse? && S.NoEmptyBin(c) && S.SparseDelta(p, c).Some?
    ensures K.AssertsHold(n, S.SparseDelta(p, c).value)
  {
  }

  lemma EmptyChoiceFate(n: Node, width: nat, capacity: nat, p: S.SparseMap, c: S.SparseMap, ps: nat, cs: nat,
                        gone: seq<u16>, added: seq<u16>, altered: seq<u16>, k: u16)
    requires n.Data? && n.snap.Sparse? && width > 0 && (k in added || k in altered) && k in c && c[k] == [] && p != c
    requires forall i :: 0 <= i < |added| ==> added[i] in c
    requires forall i :: 0 <= i < |altered| ==> altered[i] in c
    requires S.Choose(p, c, ps, cs, gone, added, altered).Some?
    ensures var r := S.Choose(p, c, ps, cs, gone, added, altered).value;
            if r.MultiSwap? then K.AssertsHold(n, r) && !Fits(SparseKind(width, capacity), r)
            else (r.Add? || r.Swap?) && !K.AssertsHold(n, r)
  {
    var r := S.Choose(p, c, ps, cs, gone, added, altered).value;
    if r.MultiSwap? {
      var i :| 0 <= i < |altered| && altered[i] == k;
      assert r.entries[i].bin == [];
    }
  }

  /** What becomes of a delta that would have to tell the viewer of a bin without bytes: an assertion of the encoder
      fails on an ADD or SWAP, and a MULTI_SWAP is sent but cannot be read back. */
  lemma EmptyBinFate(n: Node, width: nat, capacity: nat, prev: S.SparseMap, curr: S.SparseMap)
    requires n.Data? && n.snap.Sparse? && width > 0
    requires S.SparseDelta(prev, curr).Some? && !S.ChangesHoldBytes(prev, curr)
    ensures var r := S.SparseDelta(prev, curr).value;
            if r.MultiSwap? then K.AssertsHold(n, r) && !Fits(SparseKind(width, capacity), r)
            else (r.Add? || r.Swap?) && !K.AssertsHold(n, r)
  {
    var k := EmptyBinOf(prev, curr);
    hide S.Choose, S.Pick, S.Count, S.ChangesHoldBytes, K.AssertsHold, Fits;
    EmptyChoiceFate(n, width, capacity, prev, curr, S.Count(prev, S.KEYS), S.Count(curr, S.KEYS),
                    S.Difference(S.Gone, prev, curr), S.Difference(S.New, prev, curr),
                    S.Difference(S.Altered, prev, curr), k);
  }

  lemma EmptyBinOf(prev: S.SparseMap, curr: S.SparseMap) returns (k: u16)
    requires !S.ChangesHoldBytes(prev, curr)
    ensures k in S.Difference(S.New, prev, curr) || k in S.Difference(S.Altered, prev, curr)
    ensures k in curr && curr[k] == [] && prev != curr
  {
    k :| (S.Is(S.Altered, prev, curr, k) || S.Is(S.New, prev, curr, k)) && curr[k] == [];
    S.DifferenceLists(S.New, prev, curr);
    S.DifferenceLists(S.Altered, prev, curr);
  }

  lemma RecordAsserts(kind: Kind, nodes: seq<Node>, i: nat, force: bool)
    requires i < |nodes| && NodesFit(kind, nodes)
    ensures K.AssertsHold(nodes[i], RecordOf(nodes, i, force))
  {
    hide C.ContigDelta, S.SparseDelta, LatestData, ClosedBetween;
    assert NodeFits(kind, nodes[i]);
    if nodes[i].Data? && !force {
      var latest := LatestData(nodes, i);
      if latest.Some? {
        var n, p := nodes[i], nodes[latest.value].snap;
        assert NodeFits(kind, nodes[latest.value]);
        match n.snap {
          case Scalar(_) =>
          case Contig(bins) => if C.ContigDelta(p.bins, bins).Some? { ContigDeltaAsserts(n, p.bins, bins); }
          case Sparse(m) => if S.SparseDelta(p.held, m).Some? { SparseDeltaAsserts(n, p.held, m); }
        }
      }
    }
  }

  /** Encoding the last window of a run ends. */
  ghost predicate StepEnds(hb: nat, run: seq<Window>)
    requires run != []
  {
    K.WindowEnds(Staged(RunState(hb, Init(run)), |run|, Last(run).event), hb, |run|, Last(run).time)
  }

  ghost predicate RunEnds(hb: nat, run: seq<Window>)
  {
    forall n :: 0 < n <= |run| ==> StepEnds(hb, run[..n])
  }

  /** No scan, or none on 65535 bins. */
  predicate Endable(kind: Kind, hb: nat)
  {
    hb <= 1 || !kind.ContigKind? || kind.capacity < 0xFFFF
  }

  /** In a valid run the checkpointer accepts everything that is staged, none of its assertions on what it sends
      fails, and its scans end if no queue can hold 65535 bins or no delta is ever sent. */
  lemma NoAssertionFails(kind: Kind, hb: nat, run: seq<Window>)
    requires run != [] && ValidRun(kind, run)
    ensures var st := Staged(RunState(hb, Init(run)), |run|, Last(run).event);
            && K.EncodeAsserts(st, hb, |run|, Last(run).time)
            && (forall i :: 0 <= i < |st.nodes| && st.nodes[i].Data? && !kind.ScalarKind? ==>
                  K.SizeFits(kind.capacity, st.nodes[i].snap))
            && (Endable(kind, hb) ==> StepEnds(hb, run))
  {
    hide SnapFits, RecordOf, K.AssertsHold, K.EncodeEnds, AnchorFrom;
    var pre, x := Init(run), Last(run);
    RunInv(kind, hb, pre);
    assert EventFits(kind, x.event);
    StagedFits(kind, RunState(hb, pre), |run|, x.event);
    var st := Staged(RunState(hb, pre), |run|, x.event);
    var anchor := AnchorFrom(st.nodes, st.tail, |run|);
    if anchor.Some? {
      RecordAsserts(kind, st.nodes, anchor.value, ForceFull(st, hb, x.time));
      if Endable(kind, hb) { CheckpointEnds(kind, hb, st.nodes, anchor.value, ForceFull(st, hb, x.time)); }
    }
    forall i | 0 <= i < |st.nodes| && st.nodes[i].Data? ensures Sizes(kind, st.nodes[i].snap) {
      assert NodeFits(kind, st.nodes[i]);
      SizesFit(kind, st.nodes[i].snap);
    }
  }

  lemma CheckpointEnds(kind: Kind, hb: nat, nodes: seq<Node>, i: nat, force: bool)
    requires i < |nodes| && NodesFit(kind, nodes) && Endable(kind, hb) && (hb <= 1 ==> force)
    ensures K.EncodeEnds(nodes, i, force)
  {
    hide SnapFits, C.ClassifierStops;
    var latest := LatestData(nodes, i);
    if nodes[i].Data? && latest.Some? {
      var p, s := nodes[latest.value].snap, nodes[i].snap;
      assert NodeFits(kind, nodes[latest.value]) && NodeFits(kind, nodes[i]);
      SizesFit(kind, p);
      SizesFit(kind, s);
      if p.Contig? && s.Contig? { C.ClassifierStopsExact(p.bins, s.bins); }
    }
  }

  ghost predicate Sizes(kind: Kind, s: Snapshot)
  {
    && (!kind.ScalarKind? ==> K.SizeFits(kind.capacity, s))
    && (kind.ContigKind? <==> s.Contig?)
    && (s.Contig? ==> C.Occupied(s.bins) <= kind.capacity)
  }

  lemma SizesFit(kind: Kind, s: Snapshot)
    requires SnapFits(kind, s)
    ensures Sizes(kind, s)
  {
    if s.Sparse? { CountBelow(s.held, kind.capacity, S.KEYS); }
  }
}
