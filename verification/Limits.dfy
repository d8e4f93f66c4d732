/** Exactly which inputs the codec is right on, from snapshots through bytes to the viewer. */
module Limits {
  import opened Bytes
  import opened Records
  import opened Chain
  import opened Runs
  import opened Wire
  import opened Database
  import opened Sendable
  import C = ContigDeltas
  import S = SparseDeltas
  import K = Checkpointer
  import H = Heartbeat

  /** The viewer ends a run on the collectable's value. */
  ghost predicate Correct(kind: Kind, hb: nat, run: seq<Window>)
  {
    Replay(kind, Absent, Stream(hb, run)) == Some(TruthCell(kind, TruthOf(run)))
  }

  predicate Usable(kind: Kind)
  {
    kind.width > 0 && (kind.ScalarKind? || 1 <= kind.capacity <= 0xFFFF)
  }

  function Fill(b: u8, width: nat): Bytes
  {
    seq(width, _ => b)
  }

  /** A snapshot with one bin (or the value) filled with b. */
  function Sample(kind: Kind, b: u8): Snapshot
  {
    match kind
    case ScalarKind(w) => Scalar(Fill(b, w))
    case ContigKind(w, _) => Contig([Fill(b, w)])
    case SparseKind(w, _) => Sparse(map[0 := Fill(b, w)])
  }

  lemma SampleFacts(kind: Kind, b: u8, c: u8)
    requires Usable(kind) && b != c
    ensures SnapFits(kind, Sample(kind, b))
    ensures View(kind, Sample(kind, b)) != View(kind, Sample(kind, c))
    ensures DeltaRecord(Sample(kind, b), Sample(kind, b)) == Some(Carry)
  {
    assert Fill(b, kind.width)[0] != Fill(c, kind.width)[0];
    match kind {
      case ScalarKind(w) =>
      case ContigKind(w, _) =>
        assert C.Front([Fill(b, w)]) == [Fill(b, w)] && C.Front([Fill(c, w)]) == [Fill(c, w)];
        assert [Fill(b, w)][0] != [Fill(c, w)][0];
        assert C.Changed([Fill(b, w)], [Fill(b, w)], 1) == C.Changed([Fill(b, w)], [Fill(b, w)], 0);
      case SparseKind(w, cap) =>
        assert S.Slots(map[0 := Fill(b, w)], cap)[0] == Some(Fill(b, w));
        assert S.Slots(map[0 := Fill(c, w)], cap)[0] == Some(Fill(c, w));
    }
  }

  // ----- on the wire -----

  /** The viewer's values after a run of one collectable, one blob a window. */
  function ShowRun(kind: Kind, cid: u16, hb: nat, run: seq<Window>): Option<Values>
  {
    if run == [] then Some(map[])
    else
      match ShowRun(kind, cid, hb, Init(run))
      case None => None
      case Some(vals) => ShowBlob(map[cid := kind], vals, PrintAll(TagAll(cid, Sends(hb, run))))
  }

  /** The viewer gets through every byte and ends a run on the collectable's value. */
  ghost predicate Right(kind: Kind, cid: u16, hb: nat, run: seq<Window>)
  {
    var shown := ShowRun(kind, cid, hb, run);
    shown.Some? && CellOf(shown.value, cid) == TruthCell(kind, TruthOf(run))
  }

  ghost predicate Carried(kind: Kind, hb: nat, run: seq<Window>)
  {
    run == [] || (Carried(kind, hb, Init(run)) && AllFit(kind, Sends(hb, run)))
  }

  function OneCell(cid: u16, c: Option<Cell>): Option<Values>
  {
    if c.Some? then Some(PutCell(map[], cid, c.value)) else None
  }

  lemma OneStep(kind: Kind, cid: u16, c: Cell, r: Record)
    ensures ApplyTagged(map[cid := kind], PutCell(map[], cid, c), Tagged(cid, r)) == OneCell(cid, Apply(kind, c, r))
  {
    hide Apply;
    if Apply(kind, c, r).Some? {
      var c' := Apply(kind, c, r).value;
      KnownStaysKnown(kind, c, r);
      assert !c.Absent? ==> map[cid := c][cid := c'] == map[cid := c'];
    }
  }

  lemma {:induction false} ApplyOwn(kind: Kind, cid: u16, c: Cell, rs: seq<Record>)
    ensures ApplyAll(map[cid := kind], PutCell(map[], cid, c), TagAll(cid, rs)) == OneCell(cid, Replay(kind, c, rs))
    decreases |rs|
  {
    if rs != [] {
      hide Apply, ApplyTagged, PutCell;
      assert TagAll(cid, rs)[1..] == TagAll(cid, rs[1..]);
      OneStep(kind, cid, c, rs[0]);
      if Apply(kind, c, rs[0]).Some? { ApplyOwn(kind, cid, Apply(kind, c, rs[0]).value, rs[1..]); }
    }
  }

  lemma TagsFit(kind: Kind, cid: u16, rs: seq<Record>)
    requires AllFit(kind, rs)
    ensures ReadAll(map[cid := kind], PrintAll(TagAll(cid, rs))) == Some(TagAll(cid, rs))
  {
    hide Fits;
    ReadAllPrinted(map[cid := kind], TagAll(cid, rs));
  }

  /** What the format can carry, it carries: on such runs the bytes show what the records say. */
  lemma {:induction false} BytesShowRecords(kind: Kind, cid: u16, hb: nat, run: seq<Window>)
    requires Carried(kind, hb, run)
    ensures ShowRun(kind, cid, hb, run) == OneCell(cid, Replay(kind, Absent, Stream(hb, run)))
    decreases |run|
  {
    if run != [] {
      hide Replay, Sends, ReadAll, PrintAll, ApplyAll, AllFit;
      var pre, rs := Init(run), Sends(hb, run);
      BytesShowRecords(kind, cid, hb, pre);
      ReplayConcat(kind, Absent, Stream(hb, pre), rs);
      TagsFit(kind, cid, rs);
      var c := Replay(kind, Absent, Stream(hb, pre));
      if c.Some? { ApplyOwn(kind, cid, c.value, rs); }
    } else {
      assert Replay(kind, Absent, []) == Some(Absent);
    }
  }

  lemma RightIsCorrect(kind: Kind, cid: u16, hb: nat, run: seq<Window>)
    requires Carried(kind, hb, run)
    ensures Right(kind, cid, hb, run) <==> Correct(kind, hb, run)
  {
    hide Replay, Stream, TruthCell;
    BytesShowRecords(kind, cid, hb, run);
  }

  lemma {:induction false} ValidIsCarried(kind: Kind, hb: nat, run: seq<Window>)
    requires ValidRun(kind, run) && (hb <= 1 || Narrow(kind))
    ensures Carried(kind, hb, run)
    decreases |run|
  {
    if run != [] {
      hide EventFits, Sends;
      ValidIsCarried(kind, hb, Init(run));
      SendsFit(kind, hb, run);
    }
  }

  /** Right on a valid run: no delta at all, or one snapshot a window and counts that fit their byte. */
  lemma GoodIsRight(kind: Kind, cid: u16, hb: nat, run: seq<Window>)
    requires 1 <= hb && ValidRun(kind, run) && (hb == 1 || (SingleStage(run) && Narrow(kind)))
    ensures Right(kind, cid, hb, run)
  {
    hide Right, Carried, ValidRun;
    WholeRunRoundTrip(kind, hb, run);
    assert run[..|run|] == run;
    ValidIsCarried(kind, hb, run);
    RightIsCorrect(kind, cid, hb, run);
  }

  lemma OneRecordWindows(kind: Kind, hb: nat, run: seq<Window>, a: Snapshot, r: Record)
    requires |run| == 2 && SnapFits(kind, a) && Fits(kind, r)
    requires Sends(hb, Init(run)) == [FullRecord(a)] && Sends(hb, run) == [r]
    ensures Carried(kind, hb, run)
  {
    hide FullRecord, Sends, Fits, SnapFits;
    FullFits(kind, a);
    assert Carried(kind, hb, Init(Init(run)));
    assert Carried(kind, hb, Init(run));
  }

  // ----- several snapshots in one window -----

  /** One window that stages a, one that stages b twice. */
  function TwiceInAWindow(a: Snapshot, b: Snapshot): seq<Window>
  {
    [Window(0, Stage([a])), Window(1, Stage([b, b]))]
  }

  lemma FirstWindow(hb: nat, a: Snapshot)
    requires hb >= 2
    ensures var run := [Window(0, Stage([a]))];
            RunState(hb, run) == State([Data(1, a)], 0, 0, Some(0), None) && Stream(hb, run) == [FullRecord(a)]
  {
    hide FullRecord;
    var run := [Window(0, Stage([a]))];
    assert Init(run) == [];
    var st := INITIAL;
    assert StageAll(st, 1, [a]) == Push(st, Data(1, a)) by {
      assert [a][1..] == [];
    }
    var st' := Push(st, Data(1, a));
    assert st'.nodes == [Data(1, a)];
    AnchorIsLast(st'.nodes, 0, 1);
    assert LatestData(st'.nodes, 0) == None;
    assert st'.nodes[0..] == st'.nodes;
    assert Sends(hb, run) == [FullRecord(a)];
  }

  /** The second b is sent as a delta against the first b, which was never sent: the viewer keeps showing a. */
  lemma TwiceInAWindowFails(kind: Kind, hb: nat)
    requires Usable(kind) && hb >= 2
    ensures var run := TwiceInAWindow(Sample(kind, 0), Sample(kind, 1));
            ValidRun(kind, run) && Carried(kind, hb, run) && !Correct(kind, hb, run)
  {
    hide FullRecord, DeltaRecord, View, SnapFits, Sample, Apply, Step;
    var a, b := Sample(kind, 0), Sample(kind, 1);
    SampleFacts(kind, 0, 1);
    SampleFacts(kind, 1, 0);
    var run := TwiceInAWindow(a, b);
    var pre := [Window(0, Stage([a]))];
    assert Init(run) == pre && Last(run) == Window(1, Stage([b, b]));
    FirstWindow(hb, a);
    var st := RunState(hb, pre);
    SecondSends(st, hb, a, b);
    assert Stream(hb, pre) == Sends(hb, pre);
    OneRecordWindows(kind, hb, run, a, Carry);
    assert Stream(hb, run) == [FullRecord(a)] + [Carry];
    FullShowsSnapshot(kind, Absent, a);
    ReplayTwo(kind, Absent, FullRecord(a), Carry);
    CarryKeeps(kind, View(kind, a));
    assert [FullRecord(a)] + [Carry] == [FullRecord(a), Carry];
    assert TruthOf(run) == Open(b);
  }

  lemma CarryKeeps(kind: Kind, c: Cell)
    ensures Apply(kind, c, Carry) == Some(c)
  {
  }

  lemma SecondSends(st: State, hb: nat, a: Snapshot, b: Snapshot)
    requires st == State([Data(1, a)], 0, 0, Some(0), None) && hb >= 2 && DeltaRecord(b, b) == Some(Carry)
    ensures Step(hb, st, 2, Window(1, Stage([b, b]))).1 == [Carry]
  {
    hide FullRecord, DeltaRecord;
    var nodes := [Data(1, a), Data(2, b), Data(2, b)];
    assert StageAll(st, 2, [b, b]).nodes == nodes && StageAll(st, 2, [b, b]) == st.(nodes := nodes) by {
      StageAllFacts(st, 2, [b, b]);
    }
    AnchorIsLast(nodes, 0, 2);
    assert LatestData(nodes, 2) == Some(1);
    assert !ClosedBetween(nodes, 1, 2);
    assert RecordOf(nodes, 2, false) == Carry;
  }

  /** A queue of 256 bins replaced by a single other one. */
  function ManyLeave(kind: Kind): seq<Window>
  {
    [Window(0, Stage([Contig(seq(0x100, _ => Fill(0, kind.width)))])),
        Window(1, Stage([Contig([Fill(1, kind.width)])]))]
  }

  lemma {:induction false} OccupiedAll(bins: seq<Bytes>)
    requires forall i :: 0 <= i < |bins| ==> bins[i] != []
    ensures C.Occupied(bins) == |bins| && C.Front(bins) == bins
  {
    if bins != [] { OccupiedAll(bins[1..]); }
  }

  lemma ManyLeaveFails(kind: Kind, hb: nat)
    requires Usable(kind) && !NarrowQueue(kind) && hb >= 2
    ensures ValidRun(kind, ManyLeave(kind)) && SingleStage(ManyLeave(kind))
    ensures Carried(kind, hb, ManyLeave(kind)) && !Correct(kind, hb, ManyLeave(kind))
  {
    hide C.Delta, Correct, Apply, C.Changed;
    var x, y := Fill(0, kind.width), Fill(1, kind.width);
    assert x[0] != y[0];
    var p, c := seq(0x100, _ => x), [y];
    OccupiedAll(p);
    OccupiedAll(c);
    C.DepartOverflow(x, y);
    C.ContigDeltaCorrect(p, c, kind.width, kind.capacity);
    DeltaThenWrong(kind, hb, Contig(p), Contig(c));
  }

  /** Two windows, a delta between them, and the delta does not take the viewer from a to b. */
  lemma DeltaThenWrong(kind: Kind, hb: nat, a: Snapshot, b: Snapshot)
    requires hb >= 2 && SnapFits(kind, a) && SnapFits(kind, b) && DeltaRecord(a, b).Some?
    requires Apply(kind, View(kind, a), DeltaRecord(a, b).value) != Some(View(kind, b))
    ensures var run := [Window(0, Stage([a])), Window(1, Stage([b]))];
            && !Correct(kind, hb, run)
            && (Fits(kind, DeltaRecord(a, b).value) ==> Carried(kind, hb, run))
  {
    hide FullRecord, DeltaRecord, View, SnapFits, Apply;
    var run := [Window(0, Stage([a])), Window(1, Stage([b]))];
    var pre := [Window(0, Stage([a]))];
    assert Init(run) == pre && Last(run) == Window(1, Stage([b]));
    FirstWindow(hb, a);
    SecondSendsDelta(RunState(hb, pre), hb, a, b);
    var r := DeltaRecord(a, b).value;
    assert Stream(hb, pre) == Sends(hb, pre) && Sends(hb, run) == [r];
    if Fits(kind, r) { OneRecordWindows(kind, hb, run, a, r); }
    assert Stream(hb, run) == [FullRecord(a), r];
    FullShowsSnapshot(kind, Absent, a);
    ReplayTwo(kind, Absent, FullRecord(a), r);
    assert TruthOf(run) == Open(b);
  }

  lemma SecondSendsDelta(st: State, hb: nat, a: Snapshot, b: Snapshot)
    requires st == State([Data(1, a)], 0, 0, Some(0), None) && hb >= 2 && DeltaRecord(a, b).Some?
    ensures Step(hb, st, 2, Window(1, Stage([b]))).1 == [DeltaRecord(a, b).value]
  {
    hide FullRecord, DeltaRecord;
    var nodes := [Data(1, a), Data(2, b)];
    assert StageAll(st, 2, [b]) == st.(nodes := nodes) by {
      StageAllFacts(st, 2, [b]);
      assert StageAll(st, 2, [b]).nodes == nodes;
    }
    AnchorIsLast(nodes, 0, 2);
    assert LatestData(nodes, 1) == Some(0);
    assert !ClosedBetween(nodes, 0, 1);
  }

  // ----- 256 changed bins -----

  /** The first n bins of a sparse container, all alike. */
  function Many(b: u8, width: nat, n: nat): (m: S.SparseMap)
    requires n <= 0x100
    ensures forall k: u16 :: k in m <==> k < n
    ensures forall k: u16 :: k in m ==> m[k] == Fill(b, width)
  {
    if n == 0 then map[] else Many(b, width, n - 1)[n - 1 := Fill(b, width)]
  }

  /** A sparse container with 256 bins whose bytes all change. */
  function ManyChange(kind: Kind): seq<Window>
  {
    [Window(0, Stage([Sparse(Many(0, kind.width, 0x100))])), Window(1, Stage([Sparse(Many(1, kind.width, 0x100))]))]
  }

  lemma {:induction false} AllAltered(p: S.SparseMap, c: S.SparseMap, n: nat)
    requires n <= S.KEYS && forall k: u16 :: S.Is(S.Altered, p, c, k) <==> k < 0x100
    ensures var s := S.Pick(S.Altered, p, c, n);
            |s| == (if n < 0x100 then n else 0x100) && (n > 0 ==> s[0] == 0)
  {
    if n > 0 { AllAltered(p, c, n - 1); }
  }

  lemma ManyChangeDelta(width: nat)
    requires width > 0
    ensures var d := S.SparseDelta(Many(0, width, 0x100), Many(1, width, 0x100));
            d.Some? && d.value.MultiSwap? && |d.value.entries| == 0x100
                && d.value.entries[0] == Entry(0, Fill(1, width))
  {
    hide S.SparseDelta, Many;
    var p, c := Many(0, width, 0x100), Many(1, width, 0x100);
    assert Fill(0, width)[0] != Fill(1, width)[0];
    assert 0 in p;
    S.SparseDeltaByDifference(p, c);
    S.NonePicked(S.Gone, p, c, S.KEYS);
    S.NonePicked(S.New, p, c, S.KEYS);
    AllAltered(p, c, S.KEYS);
  }

  lemma FirstEntryBytes(width: nat, es: seq<Entry>) returns (after: Bytes)
    requires width > 0 && es != [] && es[0] == Entry(0, Fill(1, width))
    ensures PrintEntries(es) == PutU16(0) + ([1] + after)
  {
    var y, rest := Fill(1, width), PrintEntries(es[1..]);
    after := y[1..] + rest;
    assert y == [1] + y[1..];
  }

  /** FULL for a collectable that does not exist. */
  lemma StrangerUnreadable(env: Env, after: Bytes)
    requires 0 !in env
    ensures ReadRecord(env, PutU16(0) + ([1] + after)).Bad?
  {
    hide ReadU16, ReadU8, PutU16, ReadBytes;
    ReadU16Printed(0, [1] + after);
    ReadU8Printed(1, after);
  }

  /** The bytes of 256 entries are those of none, followed by the entries. */
  lemma CountWraps(cid: u16, es: seq<Entry>)
    requires |es| == 0x100
    ensures PrintAll([Tagged(cid, MultiSwap(es))]) == Print(Tagged(cid, MultiSwap([]))) + PrintEntries(es)
  {
    hide PrintEntries, PutU16;
    var t := Tagged(cid, MultiSwap(es));
    assert PrintAll([t]) == Print(t) by {
      assert [t][1..] == [];
    }
    assert PrintEntries([]) == [] by { NoEntries(); }
  }

  lemma NoEntries()
    ensures PrintEntries([]) == []
  {
  }

  lemma ReadAllStep(env: Env, s: Bytes, t: Tagged, rest: Bytes)
    requires s != [] && ReadRecord(env, s) == Got(t, rest)
    ensures |rest| < |s| && (ReadAll(env, rest).None? ==> ReadAll(env, s).None?)
  {
    hide ReadRecord;
    BodyShrinksWhole(env, s);
  }

  lemma BodyShrinksWhole(env: Env, s: Bytes)
    ensures ReadRecord(env, s).Got? ==> |ReadRecord(env, s).rest| < |s|
  {
    if ReadRecord(env, s).Got? { BodyShrinks(KindOf(env, ReadRecord(env, s).value.cid), s[2], s[3..]); }
  }

  /** The count byte of 256 entries is 0; the parser takes the first entry for a record of collectable 0,
      which does not exist, and stops on it. */
  lemma ManyEntriesUnreadable(kind: Kind, cid: u16, es: seq<Entry>)
    requires kind.SparseKind? && kind.width > 0 && cid > 0
    requires |es| == 0x100 && es[0] == Entry(0, Fill(1, kind.width))
    ensures ReadAll(map[cid := kind], PrintAll([Tagged(cid, MultiSwap(es))])).None?
  {
    hide PrintEntries, ReadRecord, Print, PrintAll;
    var env, t := map[cid := kind], Tagged(cid, MultiSwap([]));
    CountWraps(cid, es);
    ReadRecordPrinted(env, t, PrintEntries(es));
    assert Print(t) != [] by { NotEmpty(t); }
    ReadAllStep(env, Print(t) + PrintEntries(es), t, PrintEntries(es));
    var after := FirstEntryBytes(kind.width, es);
    StrangerUnreadable(env, after);
  }

  lemma NotEmpty(t: Tagged)
    ensures |Print(t)| > 2
  {
  }

  lemma ManyChangeFails(kind: Kind, cid: u16, hb: nat)
    requires Usable(kind) && kind.SparseKind? && !Narrow(kind) && hb >= 2 && cid > 0
    ensures ValidRun(kind, ManyChange(kind)) && SingleStage(ManyChange(kind)) && !Right(kind, cid, hb, ManyChange(kind))
  {
    hide S.SparseDelta, ReadAll, PrintAll, ApplyAll;
    var a, b := Sparse(Many(0, kind.width, 0x100)), Sparse(Many(1, kind.width, 0x100));
    var run, pre := ManyChange(kind), [Window(0, Stage([a]))];
    assert Init(run) == pre && Last(run) == Window(1, Stage([b]));
    assert SnapFits(kind, a) && SnapFits(kind, b);
    assert ValidRun(kind, run);
    hide SnapFits, ValidRun, Encode;
    ManyChangeDelta(kind.width);
    var r := DeltaRecord(a, b).value;
    FirstWindow(hb, a);
    SecondSendsDelta(RunState(hb, pre), hb, a, b);
    assert Sends(hb, run) == [r];
    assert TagAll(cid, [r]) == [Tagged(cid, r)];
    ManyEntriesUnreadable(kind, cid, r.entries);
  }

  // ----- exactly when the codec is right -----

  /** With several data checkpoints in one window allowed, the codec is right on all runs only at heartbeat 1. */
  lemma RestagingExact(kind: Kind, cid: u16, hb: nat)
    requires Usable(kind) && hb >= 1
    ensures (forall run :: ValidRun(kind, run) ==> Right(kind, cid, hb, run)) <==> hb == 1
  {
    hide ValidRun, Right;
    if hb == 1 {
      forall run | ValidRun(kind, run) ensures Right(kind, cid, hb, run) {
        GoodIsRight(kind, cid, hb, run);
      }
    } else {
      TwiceInAWindowFails(kind, hb);
      RightIsCorrect(kind, cid, hb, TwiceInAWindow(Sample(kind, 0), Sample(kind, 1)));
    }
  }

  /** With one data checkpoint a window, the codec is right on all runs of a collectable exactly when no delta is
      ever sent, or the collectable is a scalar, or its capacity fits the one-byte counts. */
  lemma SingleStageExact(kind: Kind, cid: u16, hb: nat)
    requires Usable(kind) && hb >= 1 && cid > 0
    ensures (forall run :: ValidRun(kind, run) && SingleStage(run) ==> Right(kind, cid, hb, run)) <==>
              hb == 1 || Narrow(kind)
  {
    hide ValidRun, Right, SingleStage, ManyLeave, ManyChange;
    if hb == 1 || Narrow(kind) {
      forall run | ValidRun(kind, run) && SingleStage(run) ensures Right(kind, cid, hb, run) {
        GoodIsRight(kind, cid, hb, run);
      }
    } else if kind.ContigKind? {
      ManyLeaveFails(kind, hb);
      RightIsCorrect(kind, cid, hb, ManyLeave(kind));
    } else {
      ManyChangeFails(kind, cid, hb);
    }
  }

  // ----- exactly when the heartbeat is kept -----

  /** Two equal snapshots in the first window: the second is sent as CARRY, and no full snapshot ever was. */
  lemma FirstSentAsCarry(hb: nat, b: Snapshot)
    requires hb >= 2 && DeltaRecord(b, b) == Some(Carry)
    ensures var run := [Window(0, Stage([b, b]))];
            Stream(hb, run) == [Carry] && !H.Fresh(RunState(hb, run), hb, 0)
  {
    hide FullRecord, DeltaRecord;
    var run, nodes := [Window(0, Stage([b, b]))], [Data(1, b), Data(1, b)];
    assert Init(run) == [];
    StageAllFacts(INITIAL, 1, [b, b]);
    assert StageAll(INITIAL, 1, [b, b]).nodes == nodes && StageAll(INITIAL, 1, [b, b]) == INITIAL.(nodes := nodes);
    AnchorIsLast(nodes, 0, 1);
    assert LatestData(nodes, 1) == Some(0);
    assert !ClosedBetween(nodes, 0, 1);
    assert RecordOf(nodes, 1, false) == Carry;
    assert LatestData(nodes, 2) == Some(1);
    assert Stream(hb, []) == [] && Sends(hb, run) == [Carry];
  }

  /** The heartbeat invariant holds after every valid run exactly at heartbeat 1; at larger ones it holds of the runs
      that stage once a window, as Heartbeat.HeartbeatInvariant has it. */
  lemma HeartbeatExact(kind: Kind, hb: nat)
    requires Usable(kind) && hb >= 1
    ensures (forall run :: ValidRun(kind, run) && run != [] ==> H.Fresh(RunState(hb, run), hb, Last(run).time)) <==>
              hb == 1
  {
    hide H.Fresh, Stream, DeltaRecord, SnapFits;
    if hb == 1 {
      forall run | ValidRun(kind, run) && run != [] ensures H.Fresh(RunState(hb, run), hb, Last(run).time) {
        H.HeartbeatInvariant(kind, hb, run);
      }
    } else {
      SampleFacts(kind, 0, 1);
      FirstSentAsCarry(hb, Sample(kind, 0));
      var run := [Window(0, Stage([Sample(kind, 0), Sample(kind, 0)]))];
      assert ValidRun(kind, run) && Last(run).time == 0;
    }
  }

  // ----- scans that do not end -----

  /** A full queue of 65535 bins, of which 256 other ones are left. */
  function FullQueueReplaced(kind: Kind): seq<Window>
  {
    [Window(0, Stage([Contig(seq(0xFFFF, _ => Fill(0, kind.width)))])),
     Window(1, Stage([Contig(seq(0x100, _ => Fill(1, kind.width)))]))]
  }

  lemma ReplacedNeverStops(width: nat)
    requires width > 0
    ensures !C.ClassifierStops(seq(0xFFFF, _ => Fill(0, width)), seq(0x100, _ => Fill(1, width)))
  {
    hide C.Scan, C.Accepts, C.ScanStops;
    var x, y := Fill(0, width), Fill(1, width);
    assert x[0] != y[0];
    var p, c := seq(0xFFFF, _ => x), seq(0x100, _ => y);
    OccupiedAll(p);
    OccupiedAll(c);
    C.ScanNeverStops(x, y);
  }

  lemma SecondNeverEnds(st: State, hb: nat, a: Snapshot, b: Snapshot, t: nat)
    requires st == State([Data(1, a)], 0, 0, Some(0), None) && hb >= 2 && t == 1
    requires a.Contig? && b.Contig? && !C.ClassifierStops(a.bins, b.bins)
    ensures !K.WindowEnds(Staged(st, 2, Stage([b])), hb, 2, t)
  {
    hide C.ClassifierStops;
    var nodes := [Data(1, a), Data(2, b)];
    assert StageAll(st, 2, [b]) == st.(nodes := nodes) by {
      StageAllFacts(st, 2, [b]);
      assert StageAll(st, 2, [b]).nodes == nodes;
    }
    AnchorIsLast(nodes, 0, 2);
    assert LatestData(nodes, 1) == Some(0);
    assert !ClosedBetween(nodes, 0, 1);
  }

  lemma FullQueueNeverEnds(kind: Kind, hb: nat)
    requires Usable(kind) && !Endable(kind, hb)
    ensures var run := FullQueueReplaced(kind); ValidRun(kind, run) && SingleStage(run) && !RunEnds(hb, run)
  {
    hide C.ClassifierStops, K.WindowEnds;
    var p, c := seq(0xFFFF, _ => Fill(0, kind.width)), seq(0x100, _ => Fill(1, kind.width));
    var run, pre := FullQueueReplaced(kind), [Window(0, Stage([Contig(p)]))];
    OccupiedAll(p);
    OccupiedAll(c);
    assert Init(run) == pre && Last(run) == Window(1, Stage([Contig(c)]));
    FirstWindow(hb, Contig(p));
    ReplacedNeverStops(kind.width);
    SecondNeverEnds(RunState(hb, pre), hb, Contig(p), Contig(c), 1);
    assert run[..2] == run;
    assert !StepEnds(hb, run[..2]);
  }

  /** The checkpointer gets through all runs of a collectable exactly if no delta is ever sent, or it is no queue, or
      the queue holds fewer than 65535 bins; staging once a window does not help. */
  lemma ScansEndExact(kind: Kind, hb: nat)
    requires Usable(kind)
    ensures (forall run :: ValidRun(kind, run) ==> RunEnds(hb, run)) <==> Endable(kind, hb)
    ensures (forall run :: ValidRun(kind, run) && SingleStage(run) ==> RunEnds(hb, run)) <==> Endable(kind, hb)
  {
    hide ValidRun, SingleStage, StepEnds, FullQueueReplaced;
    if Endable(kind, hb) {
      forall run, n | ValidRun(kind, run) && 0 < n <= |run| ensures StepEnds(hb, run[..n]) {
        PrefixValid(kind, run, n);
        NoAssertionFails(kind, hb, run[..n]);
      }
    } else {
      FullQueueNeverEnds(kind, hb);
    }
  }
}
