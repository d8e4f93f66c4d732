/** The record parser and the walk over rows, as the loops they are written with. */
module BlobIterator {
  import opened Bytes
  import opened Records
  import opened Units
  import opened Wire
  import opened Database
  import opened Viewer

  /** After a loop of single steps: either it failed where `run` does, or cursor and value are where `run` ends. */
  ghost predicate Ran(run: Read<Cell>, before: Values, buf: ByteBuffer, handler: DataExtractionHandler, cid: u16,
      ok: bool)
    requires buf.Valid()
    reads buf, handler
  {
    && handler.Valid()
    && (ok <==> run.Got?)
    && (ok ==> run == Got(CellOf(handler.values, cid), buf.Rest()) && handler.values == PutCell(before, cid, run.value))
  }

  /** After parsing and handling a record: failed where either would, or cursor and values are past it. */
  ghost predicate Acted(read: Read<Record>, before: Values, buf: ByteBuffer, handler: DataExtractionHandler, cid: u16,
      ok: bool)
    requires buf.Valid()
    reads buf, handler
  {
    && handler.Valid()
    && (ok ==> read.Got? && read.rest == buf.Rest())
    && (read.Got? ==> (ok <==> ApplyTagged(handler.env, before, Tagged(cid, read.value)).Some?))
    && (ok ==> ApplyTagged(handler.env, before, Tagged(cid, read.value)) == Some(handler.values))
  }

  lemma PutSame(vals: Values, cid: u16)
    ensures PutCell(vals, cid, CellOf(vals, cid)) == vals
  {
  }

  /** Parsing a record and applying it to a cell. */
  function Whole(kind: Kind, c: Cell, read: Read<Record>): Read<Cell>
  {
    var (r, rest) :- read;
    OnCell(kind, c, r, rest)
  }

  lemma RanIsActed(read: Read<Record>, before: Values, buf: ByteBuffer, handler: DataExtractionHandler, cid: u16,
      ok: bool)
    requires buf.Valid() && cid in handler.env
    requires Ran(Whole(handler.env[cid], CellOf(before, cid), read), before, buf, handler, cid, ok)
    ensures Acted(read, before, buf, handler, cid, ok)
  {
    hide Apply;
  }

  method SwapOne(buf: ByteBuffer, handler: DataExtractionHandler, cid: u16) returns (ok: bool)
    requires buf.Valid() && handler.Valid() && (handler.Contig(cid) || handler.Sparse(cid))
    modifies buf, handler`values
    ensures buf.Valid()
    ensures Ran(SwapStep(handler.env[cid], CellOf(old(handler.values), cid), old(buf.Rest())),
                old(handler.values), buf, handler, cid, ok)
  {
    hide Apply, ReadBytes, ReadU16;
    var binIdx := buf.ReadShort();
    if binIdx.None? { return false; }
    var deserialized := buf.Deserialize(handler.env[cid].width);
    if deserialized.None? { return false; }
    if handler.env[cid].ContigKind? {
      ok := handler.HandleContigContainerSwap(cid, binIdx.value, deserialized.value);
    } else {
      ok := handler.HandleSparseContainerExchangedBin(cid, binIdx.value, deserialized);
    }
  }

  method SwapLoop(buf: ByteBuffer, handler: DataExtractionHandler, cid: u16, count: nat) returns (ok: bool)
    requires buf.Valid() && handler.Valid() && (handler.Contig(cid) || handler.Sparse(cid))
    modifies buf, handler`values
    ensures buf.Valid()
    ensures Ran(SwapRun(handler.env[cid], count, CellOf(old(handler.values), cid), old(buf.Rest())),
                old(handler.values), buf, handler, cid, ok)
  {
    hide SwapStep, PutCell;
    ghost var kind, before := handler.env[cid], handler.values;
    ghost var run := SwapRun(kind, count, CellOf(before, cid), buf.Rest());
    PutSame(before, cid);
    var i := 0;
    while i < count
      invariant i <= count && buf.Valid() && handler.Valid()
      invariant run == SwapRun(kind, count - i, CellOf(handler.values, cid), buf.Rest())
      invariant handler.values == PutCell(before, cid, CellOf(handler.values, cid))
    {
      ghost var c := CellOf(handler.values, cid);
      ok := SwapOne(buf, handler, cid);
      if !ok { return; }
      PutTwice(before, cid, c, CellOf(handler.values, cid));
      i := i + 1;
    }
    ok := true;
  }

  method ArriveOne(buf: ByteBuffer, handler: DataExtractionHandler, cid: u16) returns (ok: bool)
    requires buf.Valid() && handler.Valid() && handler.Contig(cid)
    modifies buf, handler`values
    ensures buf.Valid()
    ensures Ran(ArrivalStep(handler.env[cid], CellOf(old(handler.values), cid), old(buf.Rest())),
                old(handler.values), buf, handler, cid, ok)
  {
    hide Apply, ReadBytes, ReadU16;
    var deserialized := buf.Deserialize(handler.env[cid].width);
    if deserialized.None? { return false; }
    ok := handler.HandleContigContainerArrival(cid, deserialized.value);
  }

  method ArrivalLoop(buf: ByteBuffer, handler: DataExtractionHandler, cid: u16, count: nat) returns (ok: bool)
    requires buf.Valid() && handler.Valid() && handler.Contig(cid)
    modifies buf, handler`values
    ensures buf.Valid()
    ensures Ran(ArrivalRun(handler.env[cid], count, CellOf(old(handler.values), cid), old(buf.Rest())),
                old(handler.values), buf, handler, cid, ok)
  {
    hide ArrivalStep, PutCell;
    ghost var kind, before := handler.env[cid], handler.values;
    ghost var run := ArrivalRun(kind, count, CellOf(before, cid), buf.Rest());
    PutSame(before, cid);
    var i := 0;
    while i < count
      invariant i <= count && buf.Valid() && handler.Valid()
      invariant run == ArrivalRun(kind, count - i, CellOf(handler.values, cid), buf.Rest())
      invariant handler.values == PutCell(before, cid, CellOf(handler.values, cid))
    {
      ghost var c := CellOf(handler.values, cid);
      ok := ArriveOne(buf, handler, cid);
      if !ok { return; }
      PutTwice(before, cid, c, CellOf(handler.values, cid));
      i := i + 1;
    }
    ok := true;
  }

  method RemoveOne(buf: ByteBuffer, handler: DataExtractionHandler, cid: u16) returns (ok: bool)
    requires buf.Valid() && handler.Valid() && handler.Sparse(cid)
    modifies buf, handler`values
    ensures buf.Valid()
    ensures Ran(RemovalStep(handler.env[cid], CellOf(old(handler.values), cid), old(buf.Rest())),
                old(handler.values), buf, handler, cid, ok)
  {
    hide Apply, ReadBytes, ReadU16;
    var binIdx := buf.ReadShort();
    if binIdx.None? { return false; }
    ok := handler.HandleSparseContainerExchangedBin(cid, binIdx.value, None);
  }

  method RemovalLoop(buf: ByteBuffer, handler: DataExtractionHandler, cid: u16, count: nat) returns (ok: bool)
    requires buf.Valid() && handler.Valid() && handler.Sparse(cid)
    modifies buf, handler`values
    ensures buf.Valid()
    ensures Ran(RemovalRun(handler.env[cid], count, CellOf(old(handler.values), cid), old(buf.Rest())),
                old(handler.values), buf, handler, cid, ok)
  {
    hide RemovalStep, PutCell;
    ghost var kind, before := handler.env[cid], handler.values;
    ghost var run := RemovalRun(kind, count, CellOf(before, cid), buf.Rest());
    PutSame(before, cid);
    var i := 0;
    while i < count
      invariant i <= count && buf.Valid() && handler.Valid()
      invariant run == RemovalRun(kind, count - i, CellOf(handler.values, cid), buf.Rest())
      invariant handler.values == PutCell(before, cid, CellOf(handler.values, cid))
    {
      ghost var c := CellOf(handler.values, cid);
      ok := RemoveOne(buf, handler, cid);
      if !ok { return; }
      PutTwice(before, cid, c, CellOf(handler.values, cid));
      i := i + 1;
    }
    ok := true;
  }

  method DepartureLoop(handler: DataExtractionHandler, cid: u16, count: nat) returns (ok: bool)
    requires handler.Valid() && handler.Contig(cid)
    modifies handler`values
    ensures handler.Valid()
    ensures ok <==> Replay(handler.env[cid], CellOf(old(handler.values), cid), Departures(count)).Some?
    ensures ok ==>
              Replay(handler.env[cid], CellOf(old(handler.values), cid), Departures(count))
              == Some(CellOf(handler.values, cid))
    ensures ok ==> handler.values == PutCell(old(handler.values), cid, CellOf(handler.values, cid))
  {
    hide Apply, Replay, PutCell;
    ghost var kind, before := handler.env[cid], handler.values;
    ghost var all := Replay(kind, CellOf(before, cid), Departures(count));
    PutSame(before, cid);
    var i := 0;
    while i < count
      invariant i <= count && handler.Valid()
      invariant all == Replay(kind, CellOf(handler.values, cid), Departures(count - i))
      invariant handler.values == PutCell(before, cid, CellOf(handler.values, cid))
    {
      ghost var c := CellOf(handler.values, cid);
      First(kind, c, Depart, Departures(count - i - 1));
      ok := handler.HandleContigContainerDeparture(cid);
      if !ok { return; }
      KnownStaysKnown(kind, c, Depart);
      PutOnce(before, cid, c, handler.values, Apply(kind, c, Depart).value);
      i := i + 1;
    }
    NothingMore(kind, CellOf(handler.values, cid));
    ok := true;
  }

  lemma PutOnce(before: Values, cid: u16, c: Cell, after: Values, d: Cell)
    requires after == PutCell(PutCell(before, cid, c), cid, d) && (d.Absent? ==> c.Absent?)
    requires CellOf(PutCell(before, cid, c), cid) == c
    ensures CellOf(after, cid) == d && after == PutCell(before, cid, d)
  {
  }

  lemma NothingMore(kind: Kind, c: Cell)
    ensures Replay(kind, c, Departures(0)) == Some(c)
  {
  }

  // ----- compound records -----

  lemma MultiSwapRun(kind: Kind, c: Cell, n: u8, s: Bytes)
    requires !kind.ScalarKind?
    ensures Whole(kind, c, ReadBody(Some(kind), 0x11, [n] + s)) == SwapRun(kind, n, c, s)
  {
    hide Apply, Replay, SwapRun, ReadEntries, Swaps;
    assert ([n] + s)[1..] == s;
    SwapRunIsSwaps(kind, n, c, s);
    if ReadEntries(n, kind.width, s).Got? {
      var r := MultiSwap(ReadEntries(n, kind.width, s).value);
      CompoundIsUnits(kind, c, r);
    }
  }

  lemma MultiRemoveRun(kind: Kind, c: Cell, n: u8, s: Bytes)
    requires kind.SparseKind?
    ensures Whole(kind, c, ReadBody(Some(kind), 0x32, [n] + s)) == RemovalRun(kind, n, c, s)
  {
    hide Apply, Replay, RemovalRun, ReadIdxs, Removals;
    assert ([n] + s)[1..] == s;
    RemovalRunIsRemovals(kind, n, c, s);
    if ReadIdxs(n, s).Got? {
      var r := MultiRemove(ReadIdxs(n, s).value);
      CompoundIsUnits(kind, c, r);
    }
  }

  /** Departures first, then arrivals. */
  lemma MimoRun(kind: Kind, c: Cell, d: u8, n: u8, s: Bytes)
    requires kind.ContigKind?
    ensures Whole(kind, c, ReadBody(Some(kind), 0x23, [d, n] + s)) ==
            match Replay(kind, c, Departures(d)) { case None => Bad case Some(c') => ArrivalRun(kind, n, c', s) }
  {
    hide Apply, Replay, ArrivalRun, ReadBins, Arrivals, Departures;
    assert ([d, n] + s)[1..] == [n] + s && ([n] + s)[1..] == s;
    var bins := ReadBins(n, kind.width, s);
    var gone := Replay(kind, c, Departures(d));
    if gone.Some? { ArrivalRunIsArrivals(kind, n, gone.value, s); }
    if bins.Got? {
      CompoundIsUnits(kind, c, Mimo(d, bins.value));
      ReplayConcat(kind, c, Departures(d), Arrivals(bins.value));
    }
  }

  method HandleMultiSwap(buf: ByteBuffer, handler: DataExtractionHandler, cid: u16) returns (ok: bool)
    requires buf.Valid() && handler.Valid() && (handler.Contig(cid) || handler.Sparse(cid))
    modifies buf, handler`values
    ensures buf.Valid()
    ensures Ran(Whole(handler.env[cid], CellOf(old(handler.values), cid),
              ReadBody(Some(handler.env[cid]), 0x11, old(buf.Rest()))),
                old(handler.values), buf, handler, cid, ok)
  {
    hide Apply, ReadEntries, SwapRun;
    var count := buf.ReadByte();
    if count.None? { return false; }
    MultiSwapRun(handler.env[cid], CellOf(handler.values, cid), count.value, buf.Rest());
    ok := SwapLoop(buf, handler, cid, count.value);
  }

  method HandleMultiRemove(buf: ByteBuffer, handler: DataExtractionHandler, cid: u16) returns (ok: bool)
    requires buf.Valid() && handler.Valid() && handler.Sparse(cid)
    modifies buf, handler`values
    ensures buf.Valid()
    ensures Ran(Whole(handler.env[cid], CellOf(old(handler.values), cid),
              ReadBody(Some(handler.env[cid]), 0x32, old(buf.Rest()))),
                old(handler.values), buf, handler, cid, ok)
  {
    hide Apply, ReadIdxs, RemovalRun;
    var count := buf.ReadByte();
    if count.None? { return false; }
    MultiRemoveRun(handler.env[cid], CellOf(handler.values, cid), count.value, buf.Rest());
    ok := RemovalLoop(buf, handler, cid, count.value);
  }

  method HandleMimo(buf: ByteBuffer, handler: DataExtractionHandler, cid: u16) returns (ok: bool)
    requires buf.Valid() && handler.Valid() && handler.Contig(cid)
    modifies buf, handler`values
    ensures buf.Valid()
    ensures Ran(Whole(handler.env[cid], CellOf(old(handler.values), cid),
              ReadBody(Some(handler.env[cid]), 0x23, old(buf.Rest()))),
                old(handler.values), buf, handler, cid, ok)
  {
    hide Apply, ReadBins, ArrivalRun, Replay, Departures, PutCell;
    ghost var before, c := handler.values, CellOf(handler.values, cid);
    var departCount := buf.ReadByte();
    if departCount.None? { return false; }
    ghost var s1 := buf.Rest();
    var arriveCount := buf.ReadByte();
    if arriveCount.None? { return false; }
    assert [departCount.value] + s1 == [departCount.value, arriveCount.value] + buf.Rest();
    MimoRun(handler.env[cid], c, departCount.value, arriveCount.value, buf.Rest());
    ok := DepartureLoop(handler, cid, departCount.value);
    if !ok { return; }
    ghost var c' := CellOf(handler.values, cid);
    ok := ArrivalLoop(buf, handler, cid, arriveCount.value);
    if ok {
      ArrivalsKeep(handler.env[cid], arriveCount.value, c', s1[1..]);
      PutTwice(before, cid, c', CellOf(handler.values, cid));
    }
  }

  lemma {:induction false} ArrivalsKeep(kind: Kind, n: nat, c: Cell, s: Bytes)
    ensures ArrivalRun(kind, n, c, s).Got? && ArrivalRun(kind, n, c, s).value.Absent? ==> c.Absent?
    decreases n
  {
    hide ArrivalStep;
    if n > 0 && ArrivalStep(kind, c, s).Got? {
      ArrivalsKeep(kind, n - 1, ArrivalStep(kind, c, s).value, ArrivalStep(kind, c, s).rest);
    }
  }

  // ----- full snapshots -----

  method DeserializeBins(buf: ByteBuffer, width: nat, size: nat) returns (deserialized: Option<seq<Bytes>>)
    requires buf.Valid()
    modifies buf
    ensures buf.Valid()
    ensures ReadBins(size, width, old(buf.Rest())) == if deserialized.Some? then Got(deserialized.value, buf.Rest())
              else Bad
  {
    hide ReadBytes;
    ghost var s := buf.Rest();
    var bins: seq<Bytes> := [];
    ghost var all := ReadBins(size, width, s);
    assert all.Got? ==> bins + all.value == all.value;
    var i := 0;
    while i < size
      invariant i <= size && buf.Valid()
      invariant ReadBins(size, width, s) ==
                match ReadBins(size - i, width, buf.Rest()) {
                  case Bad => Bad
                  case Got(more, rest) => Got(bins + more, rest)
                }
    {
      var bin := buf.Deserialize(width);
      if bin.None? { return None; }
      assert forall more: seq<Bytes> :: bins + ([bin.value] + more) == bins + [bin.value] + more;
      bins := bins + [bin.value];
      i := i + 1;
    }
    assert bins + [] == bins;
    deserialized := Some(bins);
  }

  method DeserializeEntries(buf: ByteBuffer, width: nat, size: nat) returns (deserialized: Option<seq<Entry>>)
    requires buf.Valid()
    modifies buf
    ensures buf.Valid()
    ensures ReadEntries(size, width, old(buf.Rest())) == if deserialized.Some?
              then Got(deserialized.value, buf.Rest()) else Bad
  {
    hide ReadBytes, ReadU16;
    ghost var s := buf.Rest();
    var entries: seq<Entry> := [];
    ghost var all := ReadEntries(size, width, s);
    assert all.Got? ==> entries + all.value == all.value;
    var i := 0;
    while i < size
      invariant i <= size && buf.Valid()
      invariant ReadEntries(size, width, s) ==
                match ReadEntries(size - i, width, buf.Rest()) {
                  case Bad => Bad
                  case Got(more, rest) => Got(entries + more, rest)
                }
    {
      var binIdx := buf.ReadShort();
      if binIdx.None? { return None; }
      var bin := buf.Deserialize(width);
      if bin.None? { return None; }
      var e := Entry(binIdx.value, bin.value);
      assert forall more: seq<Entry> :: entries + ([e] + more) == entries + [e] + more;
      entries := entries + [e];
      i := i + 1;
    }
    assert entries + [] == entries;
    deserialized := Some(entries);
  }

  method HandleFull(buf: ByteBuffer, handler: DataExtractionHandler, cid: u16) returns (ok: bool)
    requires buf.Valid() && handler.Valid() && cid in handler.env
    modifies buf, handler`values
    ensures buf.Valid()
    ensures Ran(Whole(handler.env[cid], CellOf(old(handler.values), cid),
              ReadBody(Some(handler.env[cid]), 0x01, old(buf.Rest()))),
                old(handler.values), buf, handler, cid, ok)
  {
    hide ReadBytes, ReadU16, ReadBins, ReadEntries;
    match handler.env[cid] {
      case ScalarKind(width) =>
        var value := buf.Deserialize(width);
        if value.None? { return false; }
        handler.HandleScalarFullDump(cid, value.value);
        ok := true;
      case ContigKind(width, _) =>
        var size := buf.ReadShort();
        if size.None? { return false; }
        var bins := DeserializeBins(buf, width, size.value);
        if bins.None? { return false; }
        ok := handler.HandleContigContainerFullDump(cid, bins.value);
      case SparseKind(width, _) =>
        var size := buf.ReadShort();
        if size.None? { return false; }
        var entries := DeserializeEntries(buf, width, size.value);
        if entries.None? { return false; }
        ok := handler.HandleSparseContainerFullDump(cid, entries.value);
    }
  }

  // ----- actions -----

  method HandleScalarAction(buf: ByteBuffer, handler: DataExtractionHandler, cid: u16, action: u8) returns (ok: bool)
    requires buf.Valid() && handler.Valid() && handler.Scalar(cid)
    modifies buf, handler`values
    ensures buf.Valid()
    ensures Acted(ReadBody(KindOf(handler.env, cid), action, old(buf.Rest())), old(handler.values), buf, handler, cid,
              ok)
  {
    ghost var s, before := buf.Rest(), handler.values;
    if action !in {0x00, 0x01, 0x02} { return false; }
    if action == 0x00 {
      handler.HandleClosed(cid);
      ok := true;
    } else if action == 0x02 {
      ok := true;
      Carried(handler.env, before, cid);
    } else if cid !in handler.env {
      ok := false;
    } else {
      ok := HandleFull(buf, handler, cid);
      RanIsActed(ReadBody(KindOf(handler.env, cid), action, s), before, buf, handler, cid, ok);
    }
  }

  lemma Carried(env: Env, vals: Values, cid: u16)
    ensures ApplyTagged(env, vals, Tagged(cid, Carry)) == Some(vals)
  {
    PutSame(vals, cid);
  }

  /** Actions with one bin or none. */
  method HandleContigStep(buf: ByteBuffer, handler: DataExtractionHandler, cid: u16, action: u8) returns (ok: bool)
    requires buf.Valid() && handler.Valid() && handler.Contig(cid) && action in {0x10, 0x20, 0x21, 0x22}
    modifies buf, handler`values
    ensures buf.Valid()
    ensures Ran(Whole(handler.env[cid], CellOf(old(handler.values), cid),
              ReadBody(Some(handler.env[cid]), action, old(buf.Rest()))),
                old(handler.values), buf, handler, cid, ok)
  {
    hide Apply, ReadBytes, ReadU16;
    if action == 0x10 {
      ok := SwapOne(buf, handler, cid);
    } else if action == 0x20 {
      ok := ArriveOne(buf, handler, cid);
    } else if action == 0x21 {
      ok := handler.HandleContigContainerDeparture(cid);
    } else {
      var deserialized := buf.Deserialize(handler.env[cid].width);
      if deserialized.None? { return false; }
      ok := handler.HandleContigContainerBookends(cid, deserialized.value);
    }
  }

  method HandleContigContainerAction(buf: ByteBuffer, handler: DataExtractionHandler, cid: u16, action: u8)
      returns (ok: bool)
    requires buf.Valid() && handler.Valid() && handler.Contig(cid)
    modifies buf, handler`values
    ensures buf.Valid()
    ensures Acted(ReadBody(KindOf(handler.env, cid), action, old(buf.Rest())), old(handler.values), buf, handler, cid,
              ok)
  {
    ghost var s, before := buf.Rest(), handler.values;
    ghost var read := ReadBody(KindOf(handler.env, cid), action, s);
    hide Apply, ReadBytes, ReadU16, ReadBins16, ReadEntries8, ReadMimo, Whole;
    if action !in {0x00, 0x01, 0x02, 0x10, 0x11, 0x20, 0x21, 0x22, 0x23} { return false; }
    if action == 0x00 {
      handler.HandleContigContainerClosed(cid);
      return true;
    }
    if action == 0x02 {
      Carried(handler.env, before, cid);
      return true;
    }
    if action == 0x01 {
      ok := HandleFull(buf, handler, cid);
    } else if action == 0x11 {
      ok := HandleMultiSwap(buf, handler, cid);
    } else if action == 0x23 {
      ok := HandleMimo(buf, handler, cid);
    } else {
      ok := HandleContigStep(buf, handler, cid, action);
    }
    RanIsActed(read, before, buf, handler, cid, ok);
  }

  method HandleSparseStep(buf: ByteBuffer, handler: DataExtractionHandler, cid: u16, action: u8) returns (ok: bool)
    requires buf.Valid() && handler.Valid() && handler.Sparse(cid) && action in {0x10, 0x30, 0x31}
    modifies buf, handler`values
    ensures buf.Valid()
    ensures Ran(Whole(handler.env[cid], CellOf(old(handler.values), cid),
              ReadBody(Some(handler.env[cid]), action, old(buf.Rest()))),
                old(handler.values), buf, handler, cid, ok)
  {
    hide Apply, ReadBytes, ReadU16;
    if action == 0x10 {
      ok := SwapOne(buf, handler, cid);
    } else if action == 0x30 {
      ok := RemoveOne(buf, handler, cid);
    } else {
      var binIdx := buf.ReadShort();
      if binIdx.None? { return false; }
      var deserialized := buf.Deserialize(handler.env[cid].width);
      if deserialized.None? { return false; }
      ok := handler.HandleSparseContainerExchangedBin(cid, binIdx.value, deserialized);
    }
  }

  method HandleSparseContainerAction(buf: ByteBuffer, handler: DataExtractionHandler, cid: u16, action: u8)
      returns (ok: bool)
    requires buf.Valid() && handler.Valid() && handler.Sparse(cid)
    modifies buf, handler`values
    ensures buf.Valid()
    ensures Acted(ReadBody(KindOf(handler.env, cid), action, old(buf.Rest())), old(handler.values), buf, handler, cid,
              ok)
  {
    ghost var s, before := buf.Rest(), handler.values;
    ghost var read := ReadBody(KindOf(handler.env, cid), action, s);
    hide Apply, ReadBytes, ReadU16, ReadEntries16, ReadEntries8, ReadIdxs8, Whole;
    if action !in {0x00, 0x01, 0x02, 0x10, 0x11, 0x30, 0x31, 0x32} { return false; }
    if action == 0x00 {
      handler.HandleClosed(cid);
      return true;
    }
    if action == 0x02 {
      Carried(handler.env, before, cid);
      return true;
    }
    if action == 0x01 {
      ok := HandleFull(buf, handler, cid);
    } else if action == 0x11 {
      ok := HandleMultiSwap(buf, handler, cid);
    } else if action == 0x32 {
      ok := HandleMultiRemove(buf, handler, cid);
    } else {
      ok := HandleSparseStep(buf, handler, cid, action);
    }
    RanIsActed(read, before, buf, handler, cid, ok);
  }

  /** HandleCID and HandleAction on a buffer that is not done. */
  method HandleRecord(buf: ByteBuffer, handler: DataExtractionHandler) returns (ok: bool)
    requires buf.Valid() && handler.Valid()
    modifies buf, handler`values
    ensures buf.Valid() && handler.Valid()
    ensures var read := ReadRecord(handler.env, old(buf.Rest()));
            && (ok <==> read.Got? && ApplyTagged(handler.env, old(handler.values), read.value).Some?)
            && (ok ==> read.rest == buf.Rest())
            && (ok ==> ApplyTagged(handler.env, old(handler.values), read.value) == Some(handler.values))
  {
    hide Apply, ReadU8, ReadU16, ReadBody, ApplyTagged;
    var cid := buf.ReadShort();
    if cid.None? { return false; }
    var action := buf.ReadByte();
    if action.None? { return false; }
    if cid.value !in handler.env || handler.env[cid.value].ScalarKind? {
      ok := HandleScalarAction(buf, handler, cid.value, action.value);
    } else if handler.env[cid.value].SparseKind? {
      ok := HandleSparseContainerAction(buf, handler, cid.value, action.value);
    } else {
      ok := HandleContigContainerAction(buf, handler, cid.value, action.value);
    }
  }

  // ----- blobs and rows -----

  /** One record more. */
  lemma ShowStep(env: Env, vals: Values, s: Bytes)
    requires s != []
    ensures ShowBlob(env, vals, s) ==
            match ReadRecord(env, s)
            case Bad => None
            case Got(t, rest) =>
              match ApplyTagged(env, vals, t) { case None => None case Some(vals') => ShowBlob(env, vals', rest) }
    ensures ReadRecord(env, s).Got? ==> |ReadRecord(env, s).rest| < |s|
  {
    hide ApplyTagged;
    if ReadRecord(env, s).Got? {
      var Got(t, rest) := ReadRecord(env, s);
      BodyShrinks(KindOf(env, t.cid), s[2], s[3..]);
      if ReadAll(env, rest).Some? {
        var ts := ReadAll(env, rest).value;
        assert ([t] + ts)[1..] == ts;
      }
    }
  }

  lemma ShowNothing(env: Env, vals: Values)
    ensures ShowBlob(env, vals, []) == Some(vals)
  {
  }

  method HandleBlob(blob: Bytes, handler: DataExtractionHandler) returns (ok: bool)
    requires handler.Valid()
    modifies handler`values
    ensures handler.Valid()
    ensures ok <==> ShowBlob(handler.env, old(handler.values), blob).Some?
    ensures ok ==> ShowBlob(handler.env, old(handler.values), blob) == Some(handler.values)
  {
    hide ShowBlob, ReadRecord, ApplyTagged;
    ghost var whole := ShowBlob(handler.env, handler.values, blob);
    var buf := new ByteBuffer(blob);
    var done := buf.Done();
    while !done
      invariant buf.Valid() && handler.Valid() && fresh(buf)
      invariant whole == ShowBlob(handler.env, handler.values, buf.Rest())
      invariant done <==> buf.Rest() == []
      decreases |buf.Rest()|
    {
      ShowStep(handler.env, handler.values, buf.Rest());
      ok := HandleRecord(buf, handler);
      if !ok { return; }
      done := buf.Done();
    }
    ShowNothing(handler.env, handler.values);
    ok := true;
  }

  /** The samples that replaying rows from given values records of one collectable. */
  function History(env: Env, start: Values, rows: seq<Row>, cid: u16): seq<Sample>
  {
    if rows == [] then []
    else
      History(env, start, rows[..|rows| - 1], cid) +
      match ReplayRows(env, start, rows)
      case None => []
      case Some(vals) => if CellOf(vals, cid).Absent? then [] else [Sample(Last(rows).time, CellOf(vals, cid))]
  }

  function SamplesOf(samples: map<u16, seq<Sample>>, cid: u16): seq<Sample>
  {
    if cid in samples then samples[cid] else []
  }

  /** SnapshotTick. The values are immutable here, so the deep copy is a plain copy. */
  method SnapshotTick(handler: DataExtractionHandler, tick: nat)
    requires handler.Valid() && Distinct(handler.snapshotCids)
    modifies handler`samples
    ensures forall cid :: cid in handler.snapshotCids ==>
              SamplesOf(handler.samples, cid) == SamplesOf(old(handler.samples), cid) +
                if CellOf(handler.values, cid).Absent? then [] else [Sample(tick, CellOf(handler.values, cid))]
  {
    var i := 0;
    var cids := handler.snapshotCids;
    while i < |cids|
      invariant i <= |cids|
      invariant forall k :: 0 <= k < i ==>
                  SamplesOf(handler.samples, cids[k]) == SamplesOf(old(handler.samples), cids[k]) +
                    if CellOf(handler.values, cids[k]).Absent? then []
                        else [Sample(tick, CellOf(handler.values, cids[k]))]
      invariant forall k :: i <= k < |cids| ==>
                  SamplesOf(handler.samples, cids[k]) == SamplesOf(old(handler.samples), cids[k])
    {
      var cid := cids[i];
      if cid in handler.values {
        var before := if cid in handler.samples then handler.samples[cid] else [];
        handler.samples := handler.samples[cid := before + [Sample(tick, handler.values[cid])]];
      }
      i := i + 1;
    }
  }

  /** Iterate: every row's records, then the row's samples. */
  method Iterate(rows: seq<Row>, handler: DataExtractionHandler) returns (ok: bool)
    requires handler.Valid() && Distinct(handler.snapshotCids) && handler.samples == map[]
    modifies handler
    ensures handler.Valid()
    ensures ok <==> ReplayRows(handler.env, old(handler.values), rows).Some?
    ensures ok ==> ReplayRows(handler.env, old(handler.values), rows) == Some(handler.values)
    ensures ok ==> forall cid :: cid in handler.snapshotCids ==>
                     SamplesOf(handler.samples, cid) == History(handler.env, old(handler.values), rows, cid)
  {
    hide ShowBlob, SamplesOf, CellOf;
    ghost var start := handler.values;
    NoSamples(handler.samples);
    var i := 0;
    while i < |rows|
      invariant i <= |rows| && handler.Valid()
      invariant ReplayRows(handler.env, start, rows[..i]) == Some(handler.values)
      invariant forall cid :: cid in handler.snapshotCids ==>
                  SamplesOf(handler.samples, cid) == History(handler.env, start, rows[..i], cid)
    {
      var row := rows[i];
      assert rows[..i + 1][..i] == rows[..i];
      ok := HandleBlob(row.blob, handler);
      if !ok {
        FailsLater(handler.env, start, rows, i + 1);
        return;
      }
      SnapshotTick(handler, row.time);
      i := i + 1;
    }
    assert rows[..|rows|] == rows;
    ok := true;
  }

  lemma NoSamples(samples: map<u16, seq<Sample>>)
    requires samples == map[]
    ensures forall cid :: SamplesOf(samples, cid) == []
  {
  }

  lemma {:induction false} FailsLater(env: Env, start: Values, rows: seq<Row>, i: nat)
    requires i <= |rows| && ReplayRows(env, start, rows[..i]).None?
    ensures ReplayRows(env, start, rows).None?
    decreases |rows|
  {
    if i == |rows| {
      assert rows[..i] == rows;
    } else {
      assert rows[..|rows| - 1][..i] == rows[..i];
      FailsLater(env, start, rows[..|rows| - 1], i);
    }
  }
}
