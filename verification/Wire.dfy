/** The byte format: [cid][action][payload], printed by the collector and parsed by the viewer.
    Both ends use the machine's byte order; the model fixes little-endian. */
module Wire {
  import opened Bytes
  import opened Records

  /** A record with its collectable ID. */
  datatype Tagged = Tagged(cid: u16, rec: Record)

  /** What the viewer knows about the collectables. */
  type Env = map<u16, Kind>

  // ----- printing -----

  function ActionByte(r: Record): u8
  {
    match r
    case Closed => 0x00
    case FullScalar(_) => 0x01
    case FullContig(_) => 0x01
    case FullSparse(_) => 0x01
    case Carry => 0x02
    case Swap(_) => 0x10
    case MultiSwap(_) => 0x11
    case Arrive(_) => 0x20
    case Depart => 0x21
    case Bookends(_) => 0x22
    case Mimo(_, _) => 0x23
    case Remove(_) => 0x30
    case Add(_) => 0x31
    case MultiRemove(_) => 0x32
  }

  function PrintEntry(e: Entry): Bytes
  {
    PutU16(e.idx) + e.bin
  }

  function PrintBins(bins: seq<Bytes>): Bytes
  {
    if bins == [] then [] else bins[0] + PrintBins(bins[1..])
  }

  function PrintEntries(es: seq<Entry>): Bytes
  {
    if es == [] then [] else PrintEntry(es[0]) + PrintEntries(es[1..])
  }

  function PrintIdxs(idxs: seq<u16>): Bytes
  {
    if idxs == [] then [] else PutU16(idxs[0]) + PrintIdxs(idxs[1..])
  }

  // Counts are cast to the width of their field.

  function PrintBins16(bins: seq<Bytes>): Bytes { PutU16(|bins| % 0x1_0000) + PrintBins(bins) }

  function PrintEntries16(es: seq<Entry>): Bytes { PutU16(|es| % 0x1_0000) + PrintEntries(es) }

  function PrintEntries8(es: seq<Entry>): Bytes { [|es| % 0x100] + PrintEntries(es) }

  function PrintIdxs8(idxs: seq<u16>): Bytes { [|idxs| % 0x100] + PrintIdxs(idxs) }

  function PrintMimo(d: u8, bs: seq<Bytes>): Bytes { [d] + ([|bs| % 0x100] + PrintBins(bs)) }

  function Payload(r: Record): Bytes
  {
    match r
    case FullScalar(v) => v
    case FullContig(bins) => PrintBins16(bins)
    case FullSparse(es) => PrintEntries16(es)
    case Swap(e) => PrintEntry(e)
    case MultiSwap(es) => PrintEntries8(es)
    case Arrive(b) => b
    case Bookends(b) => b
    case Mimo(d, bs) => PrintMimo(d, bs)
    case Remove(i) => PutU16(i)
    case Add(e) => PrintEntry(e)
    case MultiRemove(idxs) => PrintIdxs8(idxs)
    case _ => []
  }

  function Print(t: Tagged): Bytes
  {
    PutU16(t.cid) + [ActionByte(t.rec)] + Payload(t.rec)
  }

  function PrintAll(ts: seq<Tagged>): Bytes
  {
    if ts == [] then [] else Print(ts[0]) + PrintAll(ts[1..])
  }

  // ----- parsing -----

  predicate BinsFit(width: nat, bins: seq<Bytes>)
  {
    forall i :: 0 <= i < |bins| ==> |bins[i]| == width
  }

  predicate EntriesFit(width: nat, es: seq<Entry>)
  {
    forall i :: 0 <= i < |es| ==> |es[i].bin| == width
  }

  /** The outcome of reading from the front of a byte string; Bad is a failed Python assertion. */
  datatype Read<+T> = Bad | Got(value: T, rest: Bytes) {
    predicate IsFailure() { Bad? }
    function PropagateFailure<U>(): Read<U> requires Bad? { Bad }
    function Extract(): (T, Bytes) requires Got? { (value, rest) }
  }

  function ReadBytes(n: nat, s: Bytes): (r: Read<Bytes>)
    ensures r.Got? ==> |r.value| == n && s == r.value + r.rest
  {
    if n <= |s| then Got(s[..n], s[n..]) else Bad
  }

  function ReadU8(s: Bytes): (r: Read<u8>)
    ensures r.Got? ==> s == [r.value] + r.rest
  {
    if s == [] then Bad else Got(s[0], s[1..])
  }

  function ReadU16(s: Bytes): (r: Read<u16>)
    ensures r.Got? ==> s == PutU16(r.value) + r.rest
  {
    if |s| < 2 then Bad else Got(GetU16(s[0], s[1]), s[2..])
  }

  function ReadBins(n: nat, width: nat, s: Bytes): (r: Read<seq<Bytes>>)
    ensures r.Got? ==> |r.value| == n && |r.rest| <= |s| && forall i :: 0 <= i < n ==> |r.value[i]| == width
  {
    if n == 0 then Got([], s)
    else
      var (b, s1) :- ReadBytes(width, s);
      var (bs, s2) :- ReadBins(n - 1, width, s1);
      Got([b] + bs, s2)
  }

  function ReadEntry(width: nat, s: Bytes): (r: Read<Entry>)
    ensures r.Got? ==> |r.rest| <= |s| && |r.value.bin| == width
  {
    var (i, s1) :- ReadU16(s);
    var (b, s2) :- ReadBytes(width, s1);
    Got(Entry(i, b), s2)
  }

  function ReadEntries(n: nat, width: nat, s: Bytes): (r: Read<seq<Entry>>)
    ensures r.Got? ==> |r.value| == n && |r.rest| <= |s| && forall i :: 0 <= i < n ==> |r.value[i].bin| == width
  {
    if n == 0 then Got([], s)
    else
      var (e, s1) :- ReadEntry(width, s);
      var (es, s2) :- ReadEntries(n - 1, width, s1);
      Got([e] + es, s2)
  }

  function ReadIdxs(n: nat, s: Bytes): (r: Read<seq<u16>>)
    ensures r.Got? ==> |r.value| == n && |r.rest| <= |s|
  {
    if n == 0 then Got([], s)
    else
      var (i, s1) :- ReadU16(s);
      var (idxs, s2) :- ReadIdxs(n - 1, s1);
      Got([i] + idxs, s2)
  }

  function ReadBins16(width: nat, s: Bytes): (r: Read<seq<Bytes>>)
    ensures r.Got? ==> |r.rest| <= |s| && |r.value| <= 0xFFFF && BinsFit(width, r.value)
  {
    var (n, s1) :- ReadU16(s);
    ReadBins(n, width, s1)
  }

  function ReadEntries16(width: nat, s: Bytes): (r: Read<seq<Entry>>)
    ensures r.Got? ==> |r.rest| <= |s| && |r.value| <= 0xFFFF && EntriesFit(width, r.value)
  {
    var (n, s1) :- ReadU16(s);
    ReadEntries(n, width, s1)
  }

  function ReadEntries8(width: nat, s: Bytes): (r: Read<seq<Entry>>)
    ensures r.Got? ==> |r.rest| <= |s| && |r.value| <= 0xFF && EntriesFit(width, r.value)
  {
    var (n, s1) :- ReadU8(s);
    ReadEntries(n, width, s1)
  }

  function ReadIdxs8(s: Bytes): (r: Read<seq<u16>>)
    ensures r.Got? ==> |r.rest| <= |s| && |r.value| <= 0xFF
  {
    var (n, s1) :- ReadU8(s);
    ReadIdxs(n, s1)
  }

  function ReadMimo(width: nat, s: Bytes): (r: Read<(u8, seq<Bytes>)>)
    ensures r.Got? ==> |r.rest| <= |s| && |r.value.1| <= 0xFF && BinsFit(width, r.value.1)
  {
    var (d, s1) :- ReadU8(s);
    var (n, s2) :- ReadU8(s1);
    var (bs, s3) :- ReadBins(n, width, s2);
    Got((d, bs), s3)
  }

  /** HandleScalarAction; without a kind the collectable is unknown and has no deserializer. */
  function ReadScalar(kind: Option<Kind>, action: u8, s: Bytes): (r: Read<Record>)
    requires kind.Some? ==> kind.value.ScalarKind?
  {
    if action == 0x00 then Got(Closed, s)
    else if action == 0x02 then Got(Carry, s)
    else if action == 0x01 && kind.Some? then
      var (v, s1) :- ReadBytes(kind.value.width, s);
      Got(FullScalar(v), s1)
    else Bad
  }

  /** HandleContigContainerAction. */
  function ReadContig(width: nat, action: u8, s: Bytes): (r: Read<Record>)
  {
    if action == 0x00 then Got(Closed, s)
    else if action == 0x02 then Got(Carry, s)
    else if action == 0x01 then
      var (bins, s1) :- ReadBins16(width, s);
      Got(FullContig(bins), s1)
    else if action == 0x10 then
      var (e, s1) :- ReadEntry(width, s);
      Got(Swap(e), s1)
    else if action == 0x11 then
      var (es, s1) :- ReadEntries8(width, s);
      Got(MultiSwap(es), s1)
    else if action == 0x20 then
      var (b, s1) :- ReadBytes(width, s);
      Got(Arrive(b), s1)
    else if action == 0x21 then Got(Depart, s)
    else if action == 0x22 then
      var (b, s1) :- ReadBytes(width, s);
      Got(Bookends(b), s1)
    else if action == 0x23 then
      var (m, s1) :- ReadMimo(width, s);
      Got(Mimo(m.0, m.1), s1)
    else Bad
  }

  /** HandleSparseContainerAction. */
  function ReadSparse(width: nat, action: u8, s: Bytes): (r: Read<Record>)
  {
    if action == 0x00 then Got(Closed, s)
    else if action == 0x02 then Got(Carry, s)
    else if action == 0x01 then
      var (es, s1) :- ReadEntries16(width, s);
      Got(FullSparse(es), s1)
    else if action == 0x10 then
      var (e, s1) :- ReadEntry(width, s);
      Got(Swap(e), s1)
    else if action == 0x11 then
      var (es, s1) :- ReadEntries8(width, s);
      Got(MultiSwap(es), s1)
    else if action == 0x30 then
      var (i, s1) :- ReadU16(s);
      Got(Remove(i), s1)
    else if action == 0x31 then
      var (e, s1) :- ReadEntry(width, s);
      Got(Add(e), s1)
    else if action == 0x32 then
      var (idxs, s1) :- ReadIdxs8(s);
      Got(MultiRemove(idxs), s1)
    else Bad
  }

  function KindOf(env: Env, cid: u16): Option<Kind>
  {
    if cid in env then Some(env[cid]) else None
  }

  /** HandleAction. */
  function ReadBody(kind: Option<Kind>, action: u8, s: Bytes): Read<Record>
  {
    match kind
    case Some(ContigKind(w, _)) => ReadContig(w, action, s)
    case Some(SparseKind(w, _)) => ReadSparse(w, action, s)
    case _ => ReadScalar(kind, action, s)
  }

  /** HandleCID and HandleAction. */
  function ReadRecord(env: Env, s: Bytes): (r: Read<Tagged>)
  {
    var (cid, s1) :- ReadU16(s);
    var (action, s2) :- ReadU8(s1);
    var (rec, s3) :- ReadBody(KindOf(env, cid), action, s2);
    Got(Tagged(cid, rec), s3)
  }

  lemma BodyShrinks(kind: Option<Kind>, action: u8, s: Bytes)
    ensures ReadBody(kind, action, s).Got? ==> |ReadBody(kind, action, s).rest| <= |s|
  {
  }

  /** One blob: records until the buffer is done; None when an assertion fails. */
  function ReadAll(env: Env, s: Bytes): Option<seq<Tagged>>
    decreases |s|
  {
    if s == [] then Some([])
    else
      match ReadRecord(env, s)
      case Bad => None
      case Got(t, rest) =>
        BodyShrinks(KindOf(env, t.cid), s[2], s[3..]);
        match ReadAll(env, rest)
        case None => None
        case Some(ts) => Some([t] + ts)
  }

  // ----- the parser undoes the printer -----

  /** What the format can carry: the actions of the kind, bins of its width, counts that fit their field. */
  predicate Fits(kind: Kind, r: Record)
  {
    && Allowed(kind, r)
    && match r
       case FullScalar(v) => |v| == kind.width
       case FullContig(bins) => |bins| <= 0xFFFF && BinsFit(kind.width, bins)
       case FullSparse(es) => |es| <= 0xFFFF && EntriesFit(kind.width, es)
       case Swap(e) => |e.bin| == kind.width
       case MultiSwap(es) => |es| <= 0xFF && EntriesFit(kind.width, es)
       case Arrive(b) => |b| == kind.width
       case Bookends(b) => |b| == kind.width
       case Mimo(_, bs) => |bs| <= 0xFF && BinsFit(kind.width, bs)
       case Add(e) => |e.bin| == kind.width
       case MultiRemove(idxs) => |idxs| <= 0xFF
       case _ => true
  }

  predicate FitsEnv(env: Env, t: Tagged)
  {
    match KindOf(env, t.cid)
    case None => t.rec.Closed? || t.rec.Carry?
    case Some(kind) => Fits(kind, t.rec)
  }

  lemma Join(a: Bytes, b: Bytes, c: Bytes)
    ensures (a + b) + c == a + (b + c)
  {
  }

  lemma ReadBytesPrinted(b: Bytes, rest: Bytes)
    ensures ReadBytes(|b|, b + rest) == Got(b, rest)
  {
    assert (b + rest)[..|b|] == b && (b + rest)[|b|..] == rest;
  }

  lemma ReadU16Printed(v: u16, rest: Bytes)
    ensures ReadU16(PutU16(v) + rest) == Got(v, rest)
  {
    U16RoundTrip(v);
    assert (PutU16(v) + rest)[2..] == rest;
  }

  lemma ReadU8Printed(v: u8, rest: Bytes)
    ensures ReadU8([v] + rest) == Got(v, rest)
  {
    assert ([v] + rest)[1..] == rest;
  }

  lemma {:induction false} ReadBinsPrinted(width: nat, bins: seq<Bytes>, rest: Bytes)
    requires BinsFit(width, bins)
    ensures ReadBins(|bins|, width, PrintBins(bins) + rest) == Got(bins, rest)
  {
    if bins == [] {
      assert [] + rest == rest;
    } else {
      Join(bins[0], PrintBins(bins[1..]), rest);
      ReadBytesPrinted(bins[0], PrintBins(bins[1..]) + rest);
      ReadBinsPrinted(width, bins[1..], rest);
      assert [bins[0]] + bins[1..] == bins;
    }
  }

  lemma ReadEntryPrinted(width: nat, e: Entry, rest: Bytes)
    requires |e.bin| == width
    ensures ReadEntry(width, PrintEntry(e) + rest) == Got(e, rest)
  {
    Join(PutU16(e.idx), e.bin, rest);
    ReadU16Printed(e.idx, e.bin + rest);
    ReadBytesPrinted(e.bin, rest);
  }

  lemma {:induction false} ReadEntriesPrinted(width: nat, es: seq<Entry>, rest: Bytes)
    requires EntriesFit(width, es)
    ensures ReadEntries(|es|, width, PrintEntries(es) + rest) == Got(es, rest)
  {
    if es == [] {
      assert [] + rest == rest;
    } else {
      Join(PrintEntry(es[0]), PrintEntries(es[1..]), rest);
      ReadEntryPrinted(width, es[0], PrintEntries(es[1..]) + rest);
      ReadEntriesPrinted(width, es[1..], rest);
      assert [es[0]] + es[1..] == es;
    }
  }

  lemma {:induction false} ReadIdxsPrinted(idxs: seq<u16>, rest: Bytes)
    ensures ReadIdxs(|idxs|, PrintIdxs(idxs) + rest) == Got(idxs, rest)
  {
    if idxs == [] {
      assert [] + rest == rest;
    } else {
      Join(PutU16(idxs[0]), PrintIdxs(idxs[1..]), rest);
      ReadU16Printed(idxs[0], PrintIdxs(idxs[1..]) + rest);
      ReadIdxsPrinted(idxs[1..], rest);
      assert [idxs[0]] + idxs[1..] == idxs;
    }
  }

  lemma ReadU16Then(n: u16, body: Bytes, rest: Bytes)
    ensures ReadU16(PutU16(n) + body + rest) == Got(n, body + rest)
  {
    Join(PutU16(n), body, rest);
    ReadU16Printed(n, body + rest);
  }

  lemma ReadU8Then(n: u8, body: Bytes, rest: Bytes)
    ensures ReadU8([n] + body + rest) == Got(n, body + rest)
  {
    Join([n], body, rest);
    ReadU8Printed(n, body + rest);
  }

  lemma ReadBins16Printed(width: nat, bins: seq<Bytes>, rest: Bytes)
    requires |bins| <= 0xFFFF && BinsFit(width, bins)
    ensures ReadBins16(width, PrintBins16(bins) + rest) == Got(bins, rest)
  {
    hide PrintBins, ReadBins, ReadU16, PutU16;
    ReadU16Then(|bins|, PrintBins(bins), rest);
    ReadBinsPrinted(width, bins, rest);
  }

  lemma ReadEntries16Printed(width: nat, es: seq<Entry>, rest: Bytes)
    requires |es| <= 0xFFFF && EntriesFit(width, es)
    ensures ReadEntries16(width, PrintEntries16(es) + rest) == Got(es, rest)
  {
    hide PrintEntries, ReadEntries, ReadU16, PutU16;
    ReadU16Then(|es|, PrintEntries(es), rest);
    ReadEntriesPrinted(width, es, rest);
  }

  lemma ReadEntries8Printed(width: nat, es: seq<Entry>, rest: Bytes)
    requires |es| <= 0xFF && EntriesFit(width, es)
    ensures ReadEntries8(width, PrintEntries8(es) + rest) == Got(es, rest)
  {
    hide PrintEntries, ReadEntries, ReadU8;
    ReadU8Then(|es|, PrintEntries(es), rest);
    ReadEntriesPrinted(width, es, rest);
  }

  lemma ReadIdxs8Printed(idxs: seq<u16>, rest: Bytes)
    requires |idxs| <= 0xFF
    ensures ReadIdxs8(PrintIdxs8(idxs) + rest) == Got(idxs, rest)
  {
    hide PrintIdxs, ReadIdxs, ReadU8;
    ReadU8Then(|idxs|, PrintIdxs(idxs), rest);
    ReadIdxsPrinted(idxs, rest);
  }

  lemma ReadMimoPrinted(width: nat, d: u8, bs: seq<Bytes>, rest: Bytes)
    requires |bs| <= 0xFF && BinsFit(width, bs)
    ensures ReadMimo(width, PrintMimo(d, bs) + rest) == Got((d, bs), rest)
  {
    Join([d], [|bs|] + PrintBins(bs), rest);
    Join([|bs|], PrintBins(bs), rest);
    ReadU8Printed(d, [|bs|] + PrintBins(bs) + rest);
    ReadU8Printed(|bs|, PrintBins(bs) + rest);
    ReadBinsPrinted(width, bs, rest);
  }

  lemma ReadContigPrinted(width: nat, capacity: nat, r: Record, rest: Bytes)
    requires Fits(ContigKind(width, capacity), r)
    ensures ReadContig(width, ActionByte(r), Payload(r) + rest) == Got(r, rest)
  {
    hide PrintBins16, ReadBins16, PrintEntry, ReadEntry, PrintEntries8, ReadEntries8, PrintMimo, ReadMimo, ReadBytes;
    assert [] + rest == rest;
    match r {
      case FullContig(bins) => ReadBins16Printed(width, bins, rest);
      case Swap(e) => ReadEntryPrinted(width, e, rest);
      case MultiSwap(es) => ReadEntries8Printed(width, es, rest);
      case Arrive(b) => ReadBytesPrinted(b, rest);
      case Bookends(b) => ReadBytesPrinted(b, rest);
      case Mimo(d, bs) => ReadMimoPrinted(width, d, bs, rest);
      case _ =>
    }
  }

  lemma ReadSparsePrinted(width: nat, capacity: nat, r: Record, rest: Bytes)
    requires Fits(SparseKind(width, capacity), r)
    ensures ReadSparse(width, ActionByte(r), Payload(r) + rest) == Got(r, rest)
  {
    hide PrintEntries16, ReadEntries16, PrintEntry, ReadEntry, PrintEntries8, ReadEntries8, PrintIdxs8, ReadIdxs8,
        ReadU16;
    assert [] + rest == rest;
    match r {
      case FullSparse(es) => ReadEntries16Printed(width, es, rest);
      case Swap(e) => ReadEntryPrinted(width, e, rest);
      case Add(e) => ReadEntryPrinted(width, e, rest);
      case MultiSwap(es) => ReadEntries8Printed(width, es, rest);
      case Remove(i) => ReadU16Printed(i, rest);
      case MultiRemove(idxs) => ReadIdxs8Printed(idxs, rest);
      case _ =>
    }
  }

  lemma ReadBodyPrinted(kind: Kind, r: Record, rest: Bytes)
    requires Fits(kind, r)
    ensures ReadBody(Some(kind), ActionByte(r), Payload(r) + rest) == Got(r, rest)
  {
    match kind {
      case ContigKind(w, capacity) => ReadContigPrinted(w, capacity, r, rest);
      case SparseKind(w, capacity) => ReadSparsePrinted(w, capacity, r, rest);
      case ScalarKind(w) =>
        if r.FullScalar? { ReadBytesPrinted(r.value, rest); }
        assert [] + rest == rest;
    }
  }

  lemma ReadContigFits(width: nat, capacity: nat, action: u8, s: Bytes)
    requires ReadContig(width, action, s).Got?
    ensures Fits(ContigKind(width, capacity), ReadContig(width, action, s).value)
  {
  }

  lemma ReadSparseFits(width: nat, capacity: nat, action: u8, s: Bytes)
    requires ReadSparse(width, action, s).Got?
    ensures Fits(SparseKind(width, capacity), ReadSparse(width, action, s).value)
  {
  }

  lemma ReadBodyFits(kind: Kind, action: u8, s: Bytes)
    requires ReadBody(Some(kind), action, s).Got?
    ensures Fits(kind, ReadBody(Some(kind), action, s).value)
  {
    match kind {
      case ContigKind(w, capacity) => ReadContigFits(w, capacity, action, s);
      case SparseKind(w, capacity) => ReadSparseFits(w, capacity, action, s);
      case ScalarKind(w) =>
    }
  }

  /** Whatever the parser accepts is something the format can carry. */
  lemma ReadRecordFits(env: Env, s: Bytes)
    requires ReadRecord(env, s).Got?
    ensures FitsEnv(env, ReadRecord(env, s).value)
  {
    var cid := ReadU16(s).value;
    if cid in env {
      ReadBodyFits(env[cid], s[2], s[3..]);
    }
  }

  lemma ReadRecordPrinted(env: Env, t: Tagged, rest: Bytes)
    requires FitsEnv(env, t)
    ensures ReadRecord(env, Print(t) + rest) == Got(t, rest)
  {
    Join(PutU16(t.cid) + [ActionByte(t.rec)], Payload(t.rec), rest);
    Join(PutU16(t.cid), [ActionByte(t.rec)], Payload(t.rec) + rest);
    ReadU16Printed(t.cid, [ActionByte(t.rec)] + (Payload(t.rec) + rest));
    ReadU8Printed(ActionByte(t.rec), Payload(t.rec) + rest);
    if t.cid in env {
      ReadBodyPrinted(env[t.cid], t.rec, rest);
    } else {
      assert [] + rest == rest;
    }
  }

  /** A record survives the wire exactly when the format can carry it. */
  lemma RecordRoundTrip(env: Env, t: Tagged, rest: Bytes)
    ensures ReadRecord(env, Print(t) + rest) == Got(t, rest) <==> FitsEnv(env, t)
  {
    if FitsEnv(env, t) {
      ReadRecordPrinted(env, t, rest);
    } else if ReadRecord(env, Print(t) + rest) == Got(t, rest) {
      ReadRecordFits(env, Print(t) + rest);
    }
  }

  lemma {:induction false} ReadAllFits(env: Env, s: Bytes)
    requires ReadAll(env, s).Some?
    ensures forall i :: 0 <= i < |ReadAll(env, s).value| ==> FitsEnv(env, ReadAll(env, s).value[i])
    decreases |s|
  {
    if s != [] {
      var r := ReadRecord(env, s);
      ReadRecordFits(env, s);
      BodyShrinks(KindOf(env, r.value.cid), s[2], s[3..]);
      ReadAllFits(env, r.rest);
    }
  }

  lemma {:induction false} ReadAllPrinted(env: Env, ts: seq<Tagged>)
    requires forall i :: 0 <= i < |ts| ==> FitsEnv(env, ts[i])
    ensures ReadAll(env, PrintAll(ts)) == Some(ts)
  {
    if ts != [] {
      ReadRecordPrinted(env, ts[0], PrintAll(ts[1..]));
      ReadAllPrinted(env, ts[1..]);
      assert [ts[0]] + ts[1..] == ts;
    }
  }

  /** A blob is parsed back into exactly the records that were printed, all input consumed, if and only if
      every record is one that the format can carry. */
  lemma BlobRoundTrip(env: Env, ts: seq<Tagged>)
    ensures ReadAll(env, PrintAll(ts)) == Some(ts) <==> forall i :: 0 <= i < |ts| ==> FitsEnv(env, ts[i])
  {
    if ReadAll(env, PrintAll(ts)) == Some(ts) {
      ReadAllFits(env, PrintAll(ts));
    } else if forall i :: 0 <= i < |ts| ==> FitsEnv(env, ts[i]) {
      ReadAllPrinted(env, ts);
    }
  }
}
