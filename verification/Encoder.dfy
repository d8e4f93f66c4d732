/** Writing a record: a byte buffer that only grows, filled by appends. */
module Encoder {
  import opened Bytes
  import opened Records
  import opened Wire

  /** The bytes of one record, with its collectable ID in front. */
  class CollectedData {
    const cid: u16
    var data: Bytes

    constructor (cid: u16)
      ensures this.cid == cid && data == PutU16(cid)
    {
      this.cid := cid;
      data := PutU16(cid);
    }

    method AppendByte(b: u8)
      modifies this
      ensures data == old(data) + [b]
    {
      data := data + [b];
    }

    method AppendShort(v: u16)
      modifies this
      ensures data == old(data) + PutU16(v)
    {
      data := data + PutU16(v);
    }

    method AppendBytes(bs: Bytes)
      modifies this
      ensures data == old(data) + bs
    {
      data := data + bs;
    }

    method AppendEntry(e: Entry)
      modifies this
      ensures data == old(data) + PrintEntry(e)
    {
      AppendShort(e.idx);
      AppendBytes(e.bin);
      Join(old(data), PutU16(e.idx), e.bin);
    }

    method AppendBins(bins: seq<Bytes>)
      modifies this
      ensures data == old(data) + PrintBins(bins)
    {
      ghost var start := data;
      assert start + [] == start;
      var i := 0;
      while i < |bins|
        invariant i <= |bins| && data == start + PrintBins(bins[..i])
      {
        PrintBinsOn(bins[..i], bins[i]);
        assert bins[..i + 1] == bins[..i] + [bins[i]];
        Join(start, PrintBins(bins[..i]), bins[i]);
        AppendBytes(bins[i]);
        i := i + 1;
      }
      assert bins[..|bins|] == bins;
    }

    method AppendEntries(es: seq<Entry>)
      modifies this
      ensures data == old(data) + PrintEntries(es)
    {
      ghost var start := data;
      assert start + [] == start;
      var i := 0;
      while i < |es|
        invariant i <= |es| && data == start + PrintEntries(es[..i])
      {
        PrintEntriesOn(es[..i], es[i]);
        assert es[..i + 1] == es[..i] + [es[i]];
        Join(start, PrintEntries(es[..i]), PrintEntry(es[i]));
        AppendEntry(es[i]);
        i := i + 1;
      }
      assert es[..|es|] == es;
    }

    method AppendIdxs(idxs: seq<u16>)
      modifies this
      ensures data == old(data) + PrintIdxs(idxs)
    {
      ghost var start := data;
      assert start + [] == start;
      var i := 0;
      while i < |idxs|
        invariant i <= |idxs| && data == start + PrintIdxs(idxs[..i])
      {
        PrintIdxsOn(idxs[..i], idxs[i]);
        assert idxs[..i + 1] == idxs[..i] + [idxs[i]];
        Join(start, PrintIdxs(idxs[..i]), PutU16(idxs[i]));
        AppendShort(idxs[i]);
        i := i + 1;
      }
      assert idxs[..|idxs|] == idxs;
    }

    /** The payload of a record; counts are cast to the width of their field. */
    method AppendPayload(r: Record)
      modifies this
      ensures data == old(data) + Payload(r)
    {
      hide PrintBins, PrintEntries, PrintIdxs, PrintEntry, PutU16;
      ghost var start := data;
      match r {
        case FullScalar(v) => AppendBytes(v);
        case FullContig(bins) =>
          AppendShort(|bins| % 0x1_0000);
          AppendBins(bins);
          Join(start, PutU16(|bins| % 0x1_0000), PrintBins(bins));
        case FullSparse(es) =>
          AppendShort(|es| % 0x1_0000);
          AppendEntries(es);
          Join(start, PutU16(|es| % 0x1_0000), PrintEntries(es));
        case Swap(e) => AppendEntry(e);
        case MultiSwap(es) =>
          AppendByte(|es| % 0x100);
          AppendEntries(es);
          Join(start, [|es| % 0x100], PrintEntries(es));
        case Arrive(b) => AppendBytes(b);
        case Bookends(b) => AppendBytes(b);
        case Mimo(d, bs) =>
          AppendByte(d);
          AppendByte(|bs| % 0x100);
          AppendBins(bs);
          Join(start + [d], [|bs| % 0x100], PrintBins(bs));
          Join(start, [d], [|bs| % 0x100] + PrintBins(bs));
        case Remove(i) => AppendShort(i);
        case Add(e) => AppendEntry(e);
        case MultiRemove(idxs) =>
          AppendByte(|idxs| % 0x100);
          AppendIdxs(idxs);
          Join(start, [|idxs| % 0x100], PrintIdxs(idxs));
        case _ => assert start + [] == start;
      }
    }
  }

  lemma {:induction false} PrintBinsOn(bins: seq<Bytes>, b: Bytes)
    ensures PrintBins(bins + [b]) == PrintBins(bins) + b
  {
    if bins == [] {
      assert [b] == [] + [b] && b + [] == b;
    } else {
      PrintBinsOn(bins[1..], b);
      assert (bins + [b])[1..] == bins[1..] + [b];
      Join(bins[0], PrintBins(bins[1..]), b);
    }
  }

  lemma {:induction false} PrintEntriesOn(es: seq<Entry>, e: Entry)
    ensures PrintEntries(es + [e]) == PrintEntries(es) + PrintEntry(e)
  {
    if es == [] {
      assert PrintEntry(e) + [] == PrintEntry(e);
    } else {
      PrintEntriesOn(es[1..], e);
      assert (es + [e])[1..] == es[1..] + [e];
      Join(PrintEntry(es[0]), PrintEntries(es[1..]), PrintEntry(e));
    }
  }

  lemma {:induction false} PrintIdxsOn(idxs: seq<u16>, i: u16)
    ensures PrintIdxs(idxs + [i]) == PrintIdxs(idxs) + PutU16(i)
  {
    if idxs == [] {
      assert PutU16(i) + [] == PutU16(i);
    } else {
      PrintIdxsOn(idxs[1..], i);
      assert (idxs + [i])[1..] == idxs[1..] + [i];
      Join(PutU16(idxs[0]), PrintIdxs(idxs[1..]), PutU16(i));
    }
  }

  /** One record's bytes, appended as the encoders do. */
  method EncodeRecord(cid: u16, r: Record) returns (bytes: Bytes)
    ensures bytes == Print(Tagged(cid, r))
  {
    var encoded := new CollectedData(cid);
    encoded.AppendByte(ActionByte(r));
    encoded.AppendPayload(r);
    bytes := encoded.data;
  }
}
