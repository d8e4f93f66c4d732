/** The wire records of the Argos codec and what the viewer does with each of them. */
module Records {
  import opened Bytes

  /** The three kinds of collectable; every bin of a collectable is `width` bytes. */
  datatype Kind =
    | ScalarKind(width: nat)
    | ContigKind(width: nat, capacity: nat)
    | SparseKind(width: nat, capacity: nat)

  datatype Entry = Entry(idx: u16, bin: Bytes)

  /** One wire record, without its collectable ID. */
  datatype Record =
    | Closed
    | Carry
    | FullScalar(value: Bytes)
    | FullContig(bins: seq<Bytes>)
    | FullSparse(entries: seq<Entry>)
    | Swap(entry: Entry)
    | MultiSwap(entries: seq<Entry>)
    | Arrive(bin: Bytes)
    | Depart
    | Bookends(bin: Bytes)
    | Mimo(departs: u8, arrivals: seq<Bytes>)
    | Remove(idx: u16)
    | Add(entry: Entry)
    | MultiRemove(idxs: seq<u16>)
  {
    predicate IsFull() { FullScalar? || FullContig? || FullSparse? }
  }

  /** What the viewer holds for one collectable; Absent means that its ID is not in the dictionary. */
  datatype Cell =
    | Absent
    | NoneValue
    | ScalarValue(value: Bytes)
    | ListValue(bins: seq<Bytes>)
    | SlotsValue(slots: seq<Option<Bytes>>)

  /** The action sets that the parser asserts on. */
  predicate Allowed(kind: Kind, r: Record)
  {
    match kind
    case ScalarKind(_) => r.Closed? || r.Carry? || r.FullScalar?
    case ContigKind(_, _) =>
      r.Closed? || r.Carry? || r.FullContig? || r.Swap? || r.MultiSwap? || r.Arrive? || r.Depart? || r.Bookends?
          || r.Mimo?
    case SparseKind(_, _) =>
      r.Closed? || r.Carry? || r.FullSparse? || r.Swap? || r.MultiSwap? || r.Remove? || r.Add? || r.MultiRemove?
  }

  // ----- container updates; None is a failed Python assertion -----

  function SwapBin(l: seq<Bytes>, capacity: nat, e: Entry): Option<seq<Bytes>>
  {
    if e.idx < capacity && e.idx < |l| then Some(l[e.idx := e.bin]) else None
  }

  function SwapBins(l: seq<Bytes>, capacity: nat, es: seq<Entry>): Option<seq<Bytes>>
    decreases |es|
  {
    if es == [] then Some(l)
    else
      match SwapBin(l, capacity, es[0])
      case None => None
      case Some(l') => SwapBins(l', capacity, es[1..])
  }

  function PopFront(l: seq<Bytes>, n: nat): Option<seq<Bytes>>
  {
    if n == 0 then Some(l) else if l == [] then None else PopFront(l[1..], n - 1)
  }

  function Append(l: seq<Bytes>, capacity: nat, bins: seq<Bytes>): Option<seq<Bytes>>
    decreases |bins|
  {
    if bins == [] then Some(l)
    else if |l| < capacity then Append(l + [bins[0]], capacity, bins[1..])
    else None
  }

  function SetSlot(s: seq<Option<Bytes>>, idx: nat, v: Option<Bytes>): Option<seq<Option<Bytes>>>
  {
    if idx < |s| then Some(s[idx := v]) else None
  }

  function SetSlots(s: seq<Option<Bytes>>, es: seq<Entry>): Option<seq<Option<Bytes>>>
    decreases |es|
  {
    if es == [] then Some(s)
    else
      match SetSlot(s, es[0].idx, Some(es[0].bin))
      case None => None
      case Some(s') => SetSlots(s', es[1..])
  }

  function ClearSlots(s: seq<Option<Bytes>>, idxs: seq<u16>): Option<seq<Option<Bytes>>>
    decreases |idxs|
  {
    if idxs == [] then Some(s)
    else
      match SetSlot(s, idxs[0], None)
      case None => None
      case Some(s') => ClearSlots(s', idxs[1..])
  }

  function EmptySlots(capacity: nat): (s: seq<Option<Bytes>>)
    ensures |s| == capacity && forall i :: 0 <= i < capacity ==> s[i] == None
  {
    seq(capacity, _ => None)
  }

  function WrapList(l: Option<seq<Bytes>>): Option<Cell>
  {
    if l.Some? then Some(ListValue(l.value)) else None
  }

  function WrapSlots(s: Option<seq<Option<Bytes>>>): Option<Cell>
  {
    if s.Some? then Some(SlotsValue(s.value)) else None
  }

  // ----- one record -----

  function ApplyScalar(c: Cell, r: Record): Option<Cell>
    requires r.Closed? || r.Carry? || r.FullScalar?
  {
    match r
    case Closed => Some(if c.Absent? then Absent else NoneValue)
    case Carry => Some(c)
    case FullScalar(v) => Some(ScalarValue(v))
  }

  /** A count of zero: the parser's loop calls no handler. */
  predicate Vacuous(r: Record)
  {
    match r
    case MultiSwap(es) => es == []
    case MultiRemove(idxs) => idxs == []
    case Mimo(d, bs) => d == 0 && bs == []
    case _ => false
  }

  function ApplyContig(capacity: nat, c: Cell, r: Record): Option<Cell>
  {
    match r
    case Closed => Some(ListValue([]))
    case Carry => Some(c)
    case FullContig(bins) => if |bins| <= capacity then Some(ListValue(bins)) else None
    case _ =>
      if c.Absent? || Vacuous(r) then Some(c)
      else if c.ListValue? then WrapList(UpdateList(capacity, c.bins, r))
      else None
  }

  function UpdateList(capacity: nat, l: seq<Bytes>, r: Record): Option<seq<Bytes>>
  {
    match r
    case Swap(e) => SwapBin(l, capacity, e)
    case MultiSwap(es) => SwapBins(l, capacity, es)
    case Arrive(b) => Append(l, capacity, [b])
    case Depart => PopFront(l, 1)
    case Bookends(b) => PopThenAppend(capacity, l, 1, [b])
    case Mimo(d, bs) => PopThenAppend(capacity, l, d, bs)
    case _ => None
  }

  function PopThenAppend(capacity: nat, l: seq<Bytes>, n: nat, bs: seq<Bytes>): Option<seq<Bytes>>
  {
    match PopFront(l, n)
    case None => None
    case Some(l') => Append(l', capacity, bs)
  }

  function ApplySparse(capacity: nat, c: Cell, r: Record): Option<Cell>
  {
    match r
    case Closed => Some(if c.Absent? then Absent else NoneValue)
    case Carry => Some(c)
    case FullSparse(es) => WrapSlots(SetSlots(EmptySlots(capacity), es))
    case _ =>
      if c.Absent? || Vacuous(r) then Some(c)
      else if c.SlotsValue? then WrapSlots(UpdateSlots(c.slots, r))
      else None
  }

  function UpdateSlots(s: seq<Option<Bytes>>, r: Record): Option<seq<Option<Bytes>>>
  {
    match r
    case Swap(e) => SetSlot(s, e.idx, Some(e.bin))
    case Add(e) => SetSlot(s, e.idx, Some(e.bin))
    case MultiSwap(es) => SetSlots(s, es)
    case Remove(i) => SetSlot(s, i, None)
    case MultiRemove(idxs) => ClearSlots(s, idxs)
    case _ => None
  }

  /** DataExtractionHandler on one record; None when an assertion (or index or type error) stops the viewer. */
  function Apply(kind: Kind, c: Cell, r: Record): Option<Cell>
  {
    if !Allowed(kind, r) then None
    else
      match kind
      case ScalarKind(_) => ApplyScalar(c, r)
      case ContigKind(_, capacity) => ApplyContig(capacity, c, r)
      case SparseKind(_, capacity) => ApplySparse(capacity, c, r)
  }

  /** The records of one collectable, in order. */
  function Replay(kind: Kind, c: Cell, rs: seq<Record>): Option<Cell>
    decreases |rs|
  {
    if rs == [] then Some(c)
    else
      match Apply(kind, c, rs[0])
      case None => None
      case Some(c') => Replay(kind, c', rs[1..])
  }

  lemma ReplayOne(kind: Kind, c: Cell, r: Record)
    ensures Replay(kind, c, [r]) == Apply(kind, c, r)
  {
    assert [r][1..] == [];
  }

  lemma {:induction false} ReplayConcat(kind: Kind, c: Cell, a: seq<Record>, b: seq<Record>)
    ensures Replay(kind, c, a + b) ==
            match Replay(kind, c, a) { case None => None case Some(c') => Replay(kind, c', b) }
    decreases |a|
  {
    if a == [] {
      assert a + b == b;
    } else {
      assert (a + b)[0] == a[0] && (a + b)[1..] == a[1..] + b;
      match Apply(kind, c, a[0]) {
        case None =>
        case Some(c') => ReplayConcat(kind, c', a[1..], b);
      }
    }
  }

  // ----- starting late -----

  /** A record after which the viewer's value does not depend on what it held before. */
  predicate Resets(kind: Kind, r: Record)
  {
    r.IsFull() || (r.Closed? && kind.ContigKind?)
  }

  /** One record: an unknown cell stays unknown or catches up, and it catches up on a reset. */
  lemma LateRecord(kind: Kind, c: Cell, r: Record)
    requires Apply(kind, c, r).Some?
    ensures Apply(kind, Absent, r).Some?
    ensures Apply(kind, Absent, r).value in {Absent, Apply(kind, c, r).value}
    ensures Resets(kind, r) ==> !Apply(kind, c, r).value.Absent? && Apply(kind, Absent, r) == Apply(kind, c, r)
    ensures !c.Absent? ==> !Apply(kind, c, r).value.Absent?
    ensures c.Absent? && !Resets(kind, r) ==> Apply(kind, c, r).value.Absent?
  {
  }

  /** A viewer that starts in the middle, knowing nothing, never fails where a viewer that saw everything
      does not; it either still knows nothing or holds the same value, and holds it once a reset has passed. */
  lemma {:induction false} LateStart(kind: Kind, c: Cell, rs: seq<Record>)
    requires Replay(kind, c, rs).Some?
    ensures Replay(kind, Absent, rs).Some?
    ensures Replay(kind, Absent, rs).value in {Absent, Replay(kind, c, rs).value}
    ensures (exists i :: 0 <= i < |rs| && Resets(kind, rs[i])) <==> !Replay(kind, Absent, rs).value.Absent?
    ensures (exists i :: 0 <= i < |rs| && Resets(kind, rs[i])) ==> Replay(kind, Absent, rs) == Replay(kind, c, rs)
    decreases |rs|
  {
    if rs != [] {
      LateRecord(kind, c, rs[0]);
      var c' := Apply(kind, c, rs[0]).value;
      var a' := Apply(kind, Absent, rs[0]).value;
      LateStart(kind, c', rs[1..]);
      if a' == c' {
        if Resets(kind, rs[0]) {
          StaysKnown(kind, c', rs[1..]);
        } else {
          LateRecord(kind, Absent, rs[0]);
        }
      }
      if i :| 0 <= i < |rs| && Resets(kind, rs[i]) {
        assert i > 0 ==> rs[1..][i - 1] == rs[i];
      }
      if exists i :: 0 <= i < |rs[1..]| && Resets(kind, rs[1..][i]) {
        var i :| 0 <= i < |rs[1..]| && Resets(kind, rs[1..][i]);
        assert rs[i + 1] == rs[1..][i];
      }
    }
  }

  lemma {:induction false} StaysKnown(kind: Kind, c: Cell, rs: seq<Record>)
    requires Replay(kind, c, rs).Some? && !c.Absent?
    ensures !Replay(kind, c, rs).value.Absent?
    decreases |rs|
  {
    if rs != [] {
      LateRecord(kind, c, rs[0]);
      StaysKnown(kind, Apply(kind, c, rs[0]).value, rs[1..]);
    }
  }
}
