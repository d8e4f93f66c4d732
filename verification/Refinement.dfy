/** The linked checkpointer, driven through a whole run as the stager drives it. */
module Refinement {
  import opened Bytes
  import opened Records
  import opened Chain
  import opened Runs
  import opened Checkpointer
  import S = Sendable

  method StageSnaps(cp: CollectableCheckpointer, windowId: nat, snaps: seq<Snapshot>) returns (ok: bool)
    requires cp.Valid()
    modifies cp, cp.chain
    ensures cp.Valid()
    ensures forall k :: 0 <= k < |cp.chain| ==>
              (k < |old(cp.chain)| && cp.chain[k] == old(cp.chain)[k]) || fresh(cp.chain[k])
    ensures ok <==> forall i :: 0 <= i < |snaps| ==> SizeFits(cp.capacity, snaps[i])
    ensures ok ==> cp.Model() == StageAll(old(cp.Model()), windowId, snaps)
  {
    hide SizeFits, Linked, AllFit, NodesOf, StageAll;
    ghost var before := cp.Model();
    var i := 0;
    assert snaps[..0] == [];
    NothingStaged(before, windowId);
    while i < |snaps|
      invariant i <= |snaps| && cp.Valid()
      invariant forall k :: 0 <= k < |cp.chain| ==>
                  (k < |old(cp.chain)| && cp.chain[k] == old(cp.chain)[k]) || fresh(cp.chain[k])
      invariant forall k :: 0 <= k < i ==> SizeFits(cp.capacity, snaps[k])
      invariant cp.Model() == StageAll(before, windowId, snaps[..i])
    {
      StageAllOn(before, windowId, snaps[..i], snaps[i]);
      assert snaps[..i + 1] == snaps[..i] + [snaps[i]];
      ok := cp.CreateCheckpoint(windowId, snaps[i]);
      if !ok { return; }
      i := i + 1;
    }
    assert snaps[..|snaps|] == snaps;
    ok := true;
  }

  /** One window's createCheckpoint and closeRecord calls; false is a failed size assertion. */
  method StageEvent(cp: CollectableCheckpointer, windowId: nat, e: Event) returns (ok: bool)
    requires cp.Valid()
    modifies cp, cp.chain
    ensures cp.Valid()
    ensures forall k :: 0 <= k < |cp.chain| ==>
              (k < |old(cp.chain)| && cp.chain[k] == old(cp.chain)[k]) || fresh(cp.chain[k])
    ensures ok <==> (e.Stage? ==> forall i :: 0 <= i < |e.snaps| ==> SizeFits(cp.capacity, e.snaps[i]))
    ensures ok ==> cp.Model() == Staged(old(cp.Model()), windowId, e)
  {
    hide SizeFits, Linked, AllFit, NodesOf, StageAll;
    ok := true;
    match e {
      case Idle =>
      case Shut => cp.CloseRecord(windowId);
      case Stage(snaps) => ok := StageSnaps(cp, windowId, snaps);
    }
  }

  function CapacityOf(kind: Kind): nat
  {
    if kind.ScalarKind? then 0 else kind.capacity
  }

  /** What a valid run asks of the checkpointer in its next window, it accepts. */
  lemma WindowAccepted(kind: Kind, hb: nat, run: seq<Window>)
    requires run != [] && ValidRun(kind, run)
    ensures var e := Last(run).event; var st := Staged(RunState(hb, Init(run)), |run|, e);
            && (e.Stage? ==> forall i :: 0 <= i < |e.snaps| ==> SizeFits(CapacityOf(kind), e.snaps[i]))
            && EncodeAsserts(st, hb, |run|, Last(run).time)
  {
    hide SizeFits, EncodeAsserts, Staged, SnapFits;
    S.NoAssertionFails(kind, hb, run);
    var e := Last(run).event;
    assert EventFits(kind, e);
    if e.Stage? {
      forall i | 0 <= i < |e.snaps| ensures SizeFits(CapacityOf(kind), e.snaps[i]) {
        StagedSizeFits(kind, e.snaps[i]);
      }
    }
  }

  lemma StagedSizeFits(kind: Kind, s: Snapshot)
    requires SnapFits(kind, s)
    ensures SizeFits(CapacityOf(kind), s)
  {
    S.SizesFit(kind, s);
  }

  /** The linked checkpointer accepts every valid run on which its scans end, none of its assertions fails, it sends
      exactly the stream that the whole-run theorems speak about, and so leaves the viewer on the collectable's value.
      Limits.ScansEndExact tells on which collectables and heartbeats all runs end. */
  method DriveRun(kind: Kind, hb: nat, run: seq<Window>) returns (sent: seq<Record>)
    requires ValidRun(kind, run) && S.RunEnds(hb, run)
    ensures sent == Stream(hb, run)
    ensures 1 <= hb && GoodInput(hb, kind, run) ==> Replay(kind, Absent, sent) == Some(TruthCell(kind, TruthOf(run)))
  {
    hide GoodInput, Replay, TruthCell, ValidRun, CollectableCheckpointer.Valid, CollectableCheckpointer.Model, Sends;
    var cp := new CollectableCheckpointer(hb, CapacityOf(kind));
    sent := [];
    var i := 0;
    assert cp.chain == [] by { Unused(cp); }
    while i < |run|
      invariant i <= |run| && cp.Valid() && fresh(cp)
      invariant forall k :: 0 <= k < |cp.chain| ==> fresh(cp.chain[k])
      invariant cp.heartbeat == hb && cp.capacity == CapacityOf(kind)
      invariant cp.Model() == RunState(hb, run[..i]) && sent == Stream(hb, run[..i])
    {
      assert Init(run[..i + 1]) == run[..i];
      PrefixValid(kind, run, i + 1);
      var out := DriveWindow(cp, kind, run[..i + 1]);
      sent := sent + out;
      i := i + 1;
    }
    assert run[..|run|] == run;
    if 1 <= hb && GoodInput(hb, kind, run) { WholeRunRoundTrip(kind, hb, run); }
  }

  lemma Unused(cp: CollectableCheckpointer)
    requires cp.Model() == INITIAL
    ensures cp.chain == []
  {
  }

  /** The last window of a run. */
  method DriveWindow(cp: CollectableCheckpointer, kind: Kind, run: seq<Window>) returns (sent: seq<Record>)
    requires cp.Valid() && cp.capacity == CapacityOf(kind) && run != [] && ValidRun(kind, run)
    requires cp.Model() == RunState(cp.heartbeat, Init(run)) && S.StepEnds(cp.heartbeat, run)
    modifies cp, cp.chain
    ensures cp.Valid() && cp.Model() == RunState(cp.heartbeat, run) && sent == Sends(cp.heartbeat, run)
    ensures forall k :: 0 <= k < |cp.chain| ==> cp.chain[k] in old(cp.chain) || fresh(cp.chain[k])
  {
    hide ValidRun, SizeFits, Linked, AllFit, Staged, Encode, EncodeAsserts, WindowEnds;
    WindowAccepted(kind, cp.heartbeat, run);
    var w, x := |run|, Last(run);
    var ok := StageEvent(cp, w, x.event);
    var out := cp.EncodeForPipeline(w, x.time);
    sent := out.value;
  }
}
