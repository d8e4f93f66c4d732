/** The viewer as it is written: a read cursor, a dictionary of values changed in place, one handler call per step. */
module Viewer {
  import opened Bytes
  import opened Records
  import opened Units
  import opened Wire
  import opened Database

  /** A byte string with a read cursor. */
  class ByteBuffer {
    const data: Bytes
    var readIdx: nat

    ghost predicate Valid()
      reads this
    {
      readIdx <= |data|
    }

    ghost function Rest(): Bytes
      reads this
      requires Valid()
    {
      data[readIdx..]
    }

    constructor (data: Bytes)
      ensures Valid() && Rest() == data
    {
      this.data := data;
      readIdx := 0;
    }

    method Done() returns (done: bool)
      requires Valid()
      ensures done <==> Rest() == []
    {
      done := readIdx == |data|;
    }

    /** Read('B'). */
    method ReadByte() returns (v: Option<u8>)
      requires Valid()
      modifies this
      ensures Valid()
      ensures ReadU8(old(Rest())) == if v.Some? then Got(v.value, Rest()) else Bad
    {
      if readIdx + 1 > |data| { return None; }
      v := Some(data[readIdx]);
      readIdx := readIdx + 1;
    }

    /** Read('H'). */
    method ReadShort() returns (v: Option<u16>)
      requires Valid()
      modifies this
      ensures Valid()
      ensures ReadU16(old(Rest())) == if v.Some? then Got(v.value, Rest()) else Bad
    {
      if readIdx + 2 > |data| { return None; }
      v := Some(GetU16(data[readIdx], data[readIdx + 1]));
      readIdx := readIdx + 2;
    }

    /** A type deserializer, which consumes the fixed width of its type. */
    method Deserialize(width: nat) returns (v: Option<Bytes>)
      requires Valid()
      modifies this
      ensures Valid()
      ensures ReadBytes(width, old(Rest())) == if v.Some? then Got(v.value, Rest()) else Bad
    {
      if readIdx + width > |data| { return None; }
      v := Some(data[readIdx..readIdx + width]);
      assert Rest()[..width] == v.value && Rest()[width..] == data[readIdx + width..];
      readIdx := readIdx + width;
    }
  }

  // ----- what a loop of single steps does, reading as it goes -----

  function OnCell(kind: Kind, c: Cell, r: Record, rest: Bytes): (run: Read<Cell>)
    ensures run.Got? && run.value.Absent? ==> c.Absent?
  {
    match Apply(kind, c, r)
    case None => Bad
    case Some(c') =>
      KnownStaysKnown(kind, c, r);
      Got(c', rest)
  }

  function SwapStep(kind: Kind, c: Cell, s: Bytes): (run: Read<Cell>)
    ensures run.Got? && run.value.Absent? ==> c.Absent?
  {
    var (e, s') :- ReadEntry(kind.width, s);
    OnCell(kind, c, Swap(e), s')
  }

  function SwapRun(kind: Kind, n: nat, c: Cell, s: Bytes): Read<Cell>
  {
    if n == 0 then Got(c, s)
    else
      var (c', s') :- SwapStep(kind, c, s);
      SwapRun(kind, n - 1, c', s')
  }

  function ArrivalStep(kind: Kind, c: Cell, s: Bytes): (run: Read<Cell>)
    ensures run.Got? && run.value.Absent? ==> c.Absent?
  {
    var (b, s') :- ReadBytes(kind.width, s);
    OnCell(kind, c, Arrive(b), s')
  }

  function ArrivalRun(kind: Kind, n: nat, c: Cell, s: Bytes): Read<Cell>
  {
    if n == 0 then Got(c, s)
    else
      var (c', s') :- ArrivalStep(kind, c, s);
      ArrivalRun(kind, n - 1, c', s')
  }

  function RemovalStep(kind: Kind, c: Cell, s: Bytes): (run: Read<Cell>)
    ensures run.Got? && run.value.Absent? ==> c.Absent?
  {
    var (i, s') :- ReadU16(s);
    OnCell(kind, c, Remove(i), s')
  }

  function RemovalRun(kind: Kind, n: nat, c: Cell, s: Bytes): Read<Cell>
  {
    if n == 0 then Got(c, s)
    else
      var (c', s') :- RemovalStep(kind, c, s);
      RemovalRun(kind, n - 1, c', s')
  }

  function Finish(c: Option<Cell>, rest: Bytes): Read<Cell>
  {
    if c.Some? then Got(c.value, rest) else Bad
  }

  lemma SwapsFirst(kind: Kind, c: Cell, e: Entry, es: seq<Entry>)
    ensures Replay(kind, c, Swaps([])) == Some(c)
    ensures Replay(kind, c, Swaps([e] + es)) ==
            match Apply(kind, c, Swap(e)) { case None => None case Some(c') => Replay(kind, c', Swaps(es)) }
  {
    hide Apply;
    assert ([e] + es)[1..] == es;
    First(kind, c, Swap(e), Swaps(es));
  }

  lemma ArrivalsFirst(kind: Kind, c: Cell, b: Bytes, bs: seq<Bytes>)
    ensures Replay(kind, c, Arrivals([])) == Some(c)
    ensures Replay(kind, c, Arrivals([b] + bs)) ==
            match Apply(kind, c, Arrive(b)) { case None => None case Some(c') => Replay(kind, c', Arrivals(bs)) }
  {
    hide Apply;
    assert ([b] + bs)[1..] == bs;
    First(kind, c, Arrive(b), Arrivals(bs));
  }

  lemma RemovalsFirst(kind: Kind, c: Cell, i: u16, idxs: seq<u16>)
    ensures Replay(kind, c, Removals([])) == Some(c)
    ensures Replay(kind, c, Removals([i] + idxs)) ==
            match Apply(kind, c, Remove(i)) { case None => None case Some(c') => Replay(kind, c', Removals(idxs)) }
  {
    hide Apply;
    assert ([i] + idxs)[1..] == idxs;
    First(kind, c, Remove(i), Removals(idxs));
  }

  lemma {:induction false} SwapRunIsSwaps(kind: Kind, n: nat, c: Cell, s: Bytes)
    ensures ReadEntries(n, kind.width, s).Got? ==>
              SwapRun(kind, n, c, s) == Finish(Replay(kind, c, Swaps(ReadEntries(n, kind.width, s).value)),
                  ReadEntries(n, kind.width, s).rest)
    ensures ReadEntries(n, kind.width, s).Bad? ==> SwapRun(kind, n, c, s).Bad?
    decreases n
  {
    hide Apply, ReadEntry, Replay, Swaps;
    if n == 0 {
      SwapsFirst(kind, c, Entry(0, []), []);
    } else if ReadEntry(kind.width, s).Got? {
      var Got(e, s') := ReadEntry(kind.width, s);
      if Apply(kind, c, Swap(e)).Some? { SwapRunIsSwaps(kind, n - 1, Apply(kind, c, Swap(e)).value, s'); }
      if ReadEntries(n - 1, kind.width, s').Got? { SwapsFirst(kind, c, e, ReadEntries(n - 1, kind.width, s').value); }
    }
  }

  lemma {:induction false} ArrivalRunIsArrivals(kind: Kind, n: nat, c: Cell, s: Bytes)
    ensures ReadBins(n, kind.width, s).Got? ==>
              ArrivalRun(kind, n, c, s) ==
                  Finish(Replay(kind, c, Arrivals(ReadBins(n, kind.width, s).value)), ReadBins(n, kind.width, s).rest)
    ensures ReadBins(n, kind.width, s).Bad? ==> ArrivalRun(kind, n, c, s).Bad?
    decreases n
  {
    hide Apply, ReadBytes, Replay, Arrivals;
    if n == 0 {
      ArrivalsFirst(kind, c, [], []);
    } else if ReadBytes(kind.width, s).Got? {
      var Got(b, s') := ReadBytes(kind.width, s);
      if Apply(kind, c, Arrive(b)).Some? { ArrivalRunIsArrivals(kind, n - 1, Apply(kind, c, Arrive(b)).value, s'); }
      if ReadBins(n - 1, kind.width, s').Got? { ArrivalsFirst(kind, c, b, ReadBins(n - 1, kind.width, s').value); }
    }
  }

  lemma {:induction false} RemovalRunIsRemovals(kind: Kind, n: nat, c: Cell, s: Bytes)
    ensures ReadIdxs(n, s).Got? ==>
              RemovalRun(kind, n, c, s) == Finish(Replay(kind, c, Removals(ReadIdxs(n, s).value)), ReadIdxs(n, s).rest)
    ensures ReadIdxs(n, s).Bad? ==> RemovalRun(kind, n, c, s).Bad?
    decreases n
  {
    hide Apply, ReadU16, Replay, Removals;
    if n == 0 {
      RemovalsFirst(kind, c, 0, []);
    } else if ReadU16(s).Got? {
      var Got(i, s') := ReadU16(s);
      if Apply(kind, c, Remove(i)).Some? { RemovalRunIsRemovals(kind, n - 1, Apply(kind, c, Remove(i)).value, s'); }
      if ReadIdxs(n - 1, s').Got? { RemovalsFirst(kind, c, i, ReadIdxs(n - 1, s').value); }
    }
  }

  // ----- the handler -----

  lemma PutTwice(vals: Values, cid: u16, c: Cell, d: Cell)
    requires d.Absent? ==> c.Absent?
    ensures PutCell(PutCell(vals, cid, c), cid, d) == PutCell(vals, cid, d)
    ensures !d.Absent? ==> CellOf(PutCell(vals, cid, d), cid) == d
  {
  }

  /** The value of one tracked collectable after one row. */
  datatype Sample = Sample(tick: nat, value: Cell)

  class DataExtractionHandler {
    const env: Env
    const snapshotCids: seq<u16>
    var values: Values
    var samples: map<u16, seq<Sample>>

    ghost predicate Valid()
      reads this
    {
      values.Keys <= env.Keys && forall cid :: cid in values ==> !values[cid].Absent?
    }

    constructor (env: Env, snapshotCids: seq<u16>)
      ensures Valid() && values == map[] && samples == map[]
      ensures this.env == env && this.snapshotCids == snapshotCids
    {
      this.env := env;
      this.snapshotCids := snapshotCids;
      values := map[];
      samples := map[];
    }

    /** A handler call changed the values as record r says, or failed an assertion where r has no effect. */
    ghost predicate Handled(before: Values, cid: u16, r: Record, ok: bool)
      reads this
    {
      && Valid()
      && (ok <==> ApplyTagged(env, before, Tagged(cid, r)).Some?)
      && (ok ==> ApplyTagged(env, before, Tagged(cid, r)) == Some(values))
    }

    ghost predicate Scalar(cid: u16) { cid in env ==> env[cid].ScalarKind? }
    ghost predicate Contig(cid: u16) { cid in env && env[cid].ContigKind? }
    ghost predicate Sparse(cid: u16) { cid in env && env[cid].SparseKind? }

    /** HandleScalarClosed and HandleSparseContainerClosed. */
    method HandleClosed(cid: u16)
      requires Valid() && (Scalar(cid) || Sparse(cid))
      modifies `values
      ensures Handled(old(values), cid, Closed, true)
    {
      if cid in values { values := values[cid := NoneValue]; }
    }

    method HandleScalarFullDump(cid: u16, deserialized: Bytes)
      requires Valid() && Scalar(cid) && cid in env
      modifies `values
      ensures Handled(old(values), cid, FullScalar(deserialized), true)
    {
      values := values[cid := ScalarValue(deserialized)];
    }

    method HandleContigContainerClosed(cid: u16)
      requires Valid() && Contig(cid)
      modifies `values
      ensures Handled(old(values), cid, Closed, true)
    {
      values := values[cid := ListValue([])];
    }

    method HandleContigContainerFullDump(cid: u16, deserialized: seq<Bytes>) returns (ok: bool)
      requires Valid() && Contig(cid)
      modifies `values
      ensures Handled(old(values), cid, FullContig(deserialized), ok)
    {
      if |deserialized| > env[cid].capacity { return false; }
      values := values[cid := ListValue(deserialized)];
      ok := true;
    }

    method HandleContigContainerSwap(cid: u16, binIdx: u16, deserialized: Bytes) returns (ok: bool)
      requires Valid() && Contig(cid)
      modifies `values
      ensures Handled(old(values), cid, Swap(Entry(binIdx, deserialized)), ok)
    {
      if cid in values {
        if !values[cid].ListValue? || binIdx >= env[cid].capacity { return false; }
        var l := values[cid].bins;
        if binIdx >= |l| { return false; }
        values := values[cid := ListValue(l[binIdx := deserialized])];
      }
      ok := true;
    }

    method HandleContigContainerArrival(cid: u16, deserialized: Bytes) returns (ok: bool)
      requires Valid() && Contig(cid)
      modifies `values
      ensures Handled(old(values), cid, Arrive(deserialized), ok)
    {
      if cid in values {
        if !values[cid].ListValue? { return false; }
        OneArrival(values[cid].bins, env[cid].capacity, deserialized);
        var l := values[cid].bins + [deserialized];
        if |l| > env[cid].capacity { return false; }
        values := values[cid := ListValue(l)];
      }
      ok := true;
    }

    method HandleContigContainerDeparture(cid: u16) returns (ok: bool)
      requires Valid() && Contig(cid)
      modifies `values
      ensures Handled(old(values), cid, Depart, ok)
    {
      if cid in values {
        if !values[cid].ListValue? || |values[cid].bins| == 0 { return false; }
        assert PopFront(values[cid].bins, 1) == Some(values[cid].bins[1..]);
        values := values[cid := ListValue(values[cid].bins[1..])];
      }
      ok := true;
    }

    method HandleContigContainerBookends(cid: u16, deserialized: Bytes) returns (ok: bool)
      requires Valid() && Contig(cid)
      modifies `values
      ensures Handled(old(values), cid, Bookends(deserialized), ok)
    {
      ghost var kind, c := env[cid], CellOf(values, cid);
      CompoundIsUnits(kind, c, Bookends(deserialized));
      First(kind, c, Depart, [Arrive(deserialized)]);
      assert [Depart] + [Arrive(deserialized)] == [Depart, Arrive(deserialized)];
      ok := HandleContigContainerDeparture(cid);
      if !ok { return; }
      ghost var c1 := CellOf(values, cid);
      ReplayOne(kind, c1, Arrive(deserialized));
      ok := HandleContigContainerArrival(cid, deserialized);
      if ok { PutTwice(old(values), cid, c1, CellOf(values, cid)); }
    }

    /** Also HandleSparseContainerAddedBin; with None, HandleSparseContainerRemovedBin. */
    method HandleSparseContainerExchangedBin(cid: u16, binIdx: u16, deserialized: Option<Bytes>) returns (ok: bool)
      requires Valid() && Sparse(cid)
      modifies `values
      ensures deserialized.Some? ==> Handled(old(values), cid, Swap(Entry(binIdx, deserialized.value)), ok)
      ensures deserialized.Some? ==> Handled(old(values), cid, Add(Entry(binIdx, deserialized.value)), ok)
      ensures deserialized.None? ==> Handled(old(values), cid, Remove(binIdx), ok)
    {
      if cid in values {
        if !values[cid].SlotsValue? { return false; }
        var slots := values[cid].slots;
        if binIdx >= |slots| { return false; }
        values := values[cid := SlotsValue(slots[binIdx := deserialized])];
      }
      ok := true;
    }

    /** HandleSparseContainerFullDump: _ResetSparseContainer, one assignment a bin. */
    method HandleSparseContainerFullDump(cid: u16, deserialized: seq<Entry>) returns (ok: bool)
      requires Valid() && Sparse(cid)
      modifies `values
      ensures Handled(old(values), cid, FullSparse(deserialized), ok)
    {
      ghost var before := values;
      values := values[cid := SlotsValue(EmptySlots(env[cid].capacity))];
      var i := 0;
      while i < |deserialized|
        invariant i <= |deserialized|
        invariant Valid() && cid in values && values[cid].SlotsValue? && values == before[cid := values[cid]]
        invariant SetSlots(EmptySlots(env[cid].capacity), deserialized) ==
                    SetSlots(values[cid].slots, deserialized[i..])
      {
        var slots := values[cid].slots;
        if deserialized[i].idx >= |slots| { return false; }
        values := values[cid := SlotsValue(slots[deserialized[i].idx := Some(deserialized[i].bin)])];
        assert deserialized[i..][1..] == deserialized[i + 1..];
        i := i + 1;
      }
      ok := true;
    }
  }
}
