/** A compound record means the sequence of the single steps that the viewer's handler calls make of it. */
module Units {
  import opened Bytes
  import opened Records

  function Swaps(es: seq<Entry>): seq<Record>
  {
    if es == [] then [] else [Swap(es[0])] + Swaps(es[1..])
  }

  function Departures(n: nat): seq<Record>
  {
    if n == 0 then [] else [Depart] + Departures(n - 1)
  }

  function Arrivals(bs: seq<Bytes>): seq<Record>
  {
    if bs == [] then [] else [Arrive(bs[0])] + Arrivals(bs[1..])
  }

  function Removals(idxs: seq<u16>): seq<Record>
  {
    if idxs == [] then [] else [Remove(idxs[0])] + Removals(idxs[1..])
  }

  function UnitsOf(r: Record): seq<Record>
  {
    match r
    case MultiSwap(es) => Swaps(es)
    case Bookends(b) => [Depart, Arrive(b)]
    case Mimo(d, bs) => Departures(d) + Arrivals(bs)
    case MultiRemove(idxs) => Removals(idxs)
    case _ => [r]
  }

  lemma First(kind: Kind, c: Cell, r: Record, rs: seq<Record>)
    ensures Replay(kind, c, [r] + rs) ==
            match Apply(kind, c, r) { case None => None case Some(c') => Replay(kind, c', rs) }
  {
    assert ([r] + rs)[1..] == rs;
  }

  lemma {:induction false} ContigSwaps(width: nat, capacity: nat, c: Cell, es: seq<Entry>)
    ensures Apply(ContigKind(width, capacity), c, MultiSwap(es)) == Replay(ContigKind(width, capacity), c, Swaps(es))
    decreases |es|
  {
    if es == [] {
      assert Swaps(es) == [];
    } else {
      var kind := ContigKind(width, capacity);
      First(kind, c, Swap(es[0]), Swaps(es[1..]));
      if Apply(kind, c, Swap(es[0])).Some? {
        var c' := Apply(kind, c, Swap(es[0])).value;
        ContigSwaps(width, capacity, c', es[1..]);
        assert c.ListValue? ==> Apply(kind, c', MultiSwap(es[1..])) == WrapList(SwapBins(c'.bins, capacity, es[1..]));
      }
    }
  }

  lemma {:induction false} SparseSwaps(width: nat, capacity: nat, c: Cell, es: seq<Entry>)
    ensures Apply(SparseKind(width, capacity), c, MultiSwap(es)) == Replay(SparseKind(width, capacity), c, Swaps(es))
    decreases |es|
  {
    if es == [] {
      assert Swaps(es) == [];
    } else {
      var kind := SparseKind(width, capacity);
      First(kind, c, Swap(es[0]), Swaps(es[1..]));
      if Apply(kind, c, Swap(es[0])).Some? {
        var c' := Apply(kind, c, Swap(es[0])).value;
        SparseSwaps(width, capacity, c', es[1..]);
        assert c.SlotsValue? ==> Apply(kind, c', MultiSwap(es[1..])) == WrapSlots(SetSlots(c'.slots, es[1..]));
      }
    }
  }

  lemma {:induction false} SparseRemovals(width: nat, capacity: nat, c: Cell, idxs: seq<u16>)
    ensures Apply(SparseKind(width, capacity), c, MultiRemove(idxs)) ==
              Replay(SparseKind(width, capacity), c, Removals(idxs))
    decreases |idxs|
  {
    if idxs == [] {
      assert Removals(idxs) == [];
    } else {
      var kind := SparseKind(width, capacity);
      First(kind, c, Remove(idxs[0]), Removals(idxs[1..]));
      if Apply(kind, c, Remove(idxs[0])).Some? {
        var c' := Apply(kind, c, Remove(idxs[0])).value;
        SparseRemovals(width, capacity, c', idxs[1..]);
        hide Replay, Removals;
        assert c.SlotsValue? ==> Apply(kind, c', MultiRemove(idxs[1..])) == WrapSlots(ClearSlots(c'.slots, idxs[1..]));
      }
    }
  }

  lemma OneArrival(l: seq<Bytes>, capacity: nat, b: Bytes)
    ensures Append(l, capacity, [b]) == if |l| < capacity then Some(l + [b]) else None
  {
    var rest: seq<Bytes> := [b][1..];
    assert rest == [];
  }

  lemma {:induction false} ContigArrivals(width: nat, capacity: nat, l: seq<Bytes>, bs: seq<Bytes>)
    ensures WrapList(Append(l, capacity, bs)) == Replay(ContigKind(width, capacity), ListValue(l), Arrivals(bs))
    decreases |bs|
  {
    if bs == [] {
      assert Arrivals(bs) == [];
    } else {
      var kind := ContigKind(width, capacity);
      First(kind, ListValue(l), Arrive(bs[0]), Arrivals(bs[1..]));
      OneArrival(l, capacity, bs[0]);
      if |l| < capacity { ContigArrivals(width, capacity, l + [bs[0]], bs[1..]); }
    }
  }

  lemma {:induction false} ContigDepartures(width: nat, capacity: nat, l: seq<Bytes>, n: nat)
    ensures WrapList(PopFront(l, n)) == Replay(ContigKind(width, capacity), ListValue(l), Departures(n))
    decreases n
  {
    if n == 0 {
      assert Departures(n) == [];
    } else {
      First(ContigKind(width, capacity), ListValue(l), Depart, Departures(n - 1));
      if l != [] {
        assert PopFront(l, 1) == Some(l[1..]);
        ContigDepartures(width, capacity, l[1..], n - 1);
      }
    }
  }

  /** A cell of no list makes the first single step of a shift fail; an unknown one ignores them all. */
  lemma {:induction false} OffList(width: nat, capacity: nat, c: Cell, rs: seq<Record>)
    requires !c.ListValue? && forall i :: 0 <= i < |rs| ==> rs[i].Depart? || rs[i].Arrive?
    ensures Replay(ContigKind(width, capacity), c, rs) == if c.Absent? || rs == [] then Some(c) else None
    decreases |rs|
  {
    if rs != [] && c.Absent? { OffList(width, capacity, c, rs[1..]); }
  }

  lemma {:induction false} DeparturesShape(n: nat)
    ensures |Departures(n)| == n && forall i :: 0 <= i < n ==> Departures(n)[i] == Depart
  {
    if n > 0 { DeparturesShape(n - 1); }
  }

  lemma {:induction false} ArrivalsShape(bs: seq<Bytes>)
    ensures |Arrivals(bs)| == |bs| && forall i :: 0 <= i < |bs| ==> Arrivals(bs)[i] == Arrive(bs[i])
  {
    if bs != [] { ArrivalsShape(bs[1..]); }
  }

  lemma Shift(width: nat, capacity: nat, l: seq<Bytes>, d: nat, bs: seq<Bytes>)
    ensures WrapList(PopThenAppend(capacity, l, d, bs))
            == Replay(ContigKind(width, capacity), ListValue(l), Departures(d) + Arrivals(bs))
  {
    ContigDepartures(width, capacity, l, d);
    ReplayConcat(ContigKind(width, capacity), ListValue(l), Departures(d), Arrivals(bs));
    if PopFront(l, d).Some? { ContigArrivals(width, capacity, PopFront(l, d).value, bs); }
  }

  lemma ContigShift(width: nat, capacity: nat, c: Cell, r: Record)
    requires r.Mimo? || r.Bookends?
    ensures Apply(ContigKind(width, capacity), c, r) == Replay(ContigKind(width, capacity), c, UnitsOf(r))
  {
    hide PopThenAppend, Replay;
    var d := if r.Mimo? then r.departs else 1;
    var bs := if r.Mimo? then r.arrivals else [r.bin];
    DeparturesShape(d);
    ArrivalsShape(bs);
    var units := Departures(d) + Arrivals(bs);
    if r.Bookends? {
      assert units == [Depart, Arrive(r.bin)];
    }
    if c.ListValue? {
      Shift(width, capacity, c.bins, d, bs);
      if d == 0 && bs == [] { NoShift(capacity, c.bins); }
    } else {
      OffList(width, capacity, c, units);
    }
  }

  lemma NoShift(capacity: nat, l: seq<Bytes>)
    ensures PopThenAppend(capacity, l, 0, []) == Some(l)
  {
  }

  /** Every record does to a cell exactly what its single steps do one after the other, failures included. */
  lemma CompoundIsUnits(kind: Kind, c: Cell, r: Record)
    requires Allowed(kind, r)
    ensures Apply(kind, c, r) == Replay(kind, c, UnitsOf(r))
  {
    hide Apply, Replay;
    match kind {
      case ScalarKind(_) => ReplayOne(kind, c, r);
      case ContigKind(w, capacity) =>
        if r.MultiSwap? {
          ContigSwaps(w, capacity, c, r.entries);
        } else if r.Mimo? || r.Bookends? {
          ContigShift(w, capacity, c, r);
        } else {
          ReplayOne(kind, c, r);
        }
      case SparseKind(w, capacity) =>
        if r.MultiSwap? {
          SparseSwaps(w, capacity, c, r.entries);
        } else if r.MultiRemove? {
          SparseRemovals(w, capacity, c, r.idxs);
        } else {
          ReplayOne(kind, c, r);
        }
    }
  }
}
