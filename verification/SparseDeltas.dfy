/** Change classification for sparse containers. A std::map is walked in ascending key order. */
module SparseDeltas {
  import opened Bytes
  import opened Records

  type SparseMap = map<u16, Bytes>

  const KEYS := 0x1_0000

  /** How a bin index differs between two snapshots. */
  datatype Change = Gone | New | Altered

  predicate Is(ch: Change, prev: SparseMap, curr: SparseMap, i: u16)
  {
    match ch
    case Gone => i in prev && i !in curr
    case New => i in curr && i !in prev
    case Altered => i in prev && i in curr && prev[i] != curr[i]
  }

  /** The indices below n that changed in the given way, ascending. */
  function Pick(ch: Change, prev: SparseMap, curr: SparseMap, n: nat): (s: seq<u16>)
    requires n <= KEYS
    ensures |s| <= n
    ensures forall i :: 0 <= i < |s| ==> s[i] < n && Is(ch, prev, curr, s[i])
  {
    if n == 0 then []
    else Pick(ch, prev, curr, n - 1) + if Is(ch, prev, curr, n - 1) then [n - 1] else []
  }

  /** Number of bins below n that hold bytes. */
  function Count(m: SparseMap, n: nat): (c: nat)
    requires n <= KEYS
    ensures c <= n
  {
    if n == 0 then 0 else Count(m, n - 1) + if n - 1 in m && m[n - 1] != [] then 1 else 0
  }

  function Entries(m: SparseMap, idxs: seq<u16>): (es: seq<Entry>)
    requires forall i :: 0 <= i < |idxs| ==> idxs[i] in m
    ensures |es| == |idxs| && forall i :: 0 <= i < |es| ==> es[i] == Entry(idxs[i], m[idxs[i]])
  {
    seq(|idxs|, i requires 0 <= i < |idxs| => Entry(idxs[i], m[idxs[i]]))
  }

  function Difference(ch: Change, prev: SparseMap, curr: SparseMap): seq<u16>
  {
    Pick(ch, prev, curr, KEYS)
  }

  /** The branch for equally many occupied bins. */
  function SameCount(curr: SparseMap, gone: seq<u16>, added: seq<u16>, altered: seq<u16>): (r: Option<Record>)
    requires forall i :: 0 <= i < |added| ==> added[i] in curr
    requires forall i :: 0 <= i < |altered| ==> altered[i] in curr
    ensures r.Some? ==> !r.value.IsFull() && !r.value.Closed?
  {
    if added != [] || gone != [] then
      if |added| == 1 && gone == [] && altered == [] then Some(Add(Entry(added[0], curr[added[0]])))
      else if |gone| == 1 && added == [] && altered == [] then Some(Remove(gone[0]))
      else if |gone| >= 2 && added == [] && altered == [] then Some(MultiRemove(gone))
      else None
    else if |altered| == 1 then Some(Swap(Entry(altered[0], curr[altered[0]])))
    else if |altered| >= 2 then Some(MultiSwap(Entries(curr, altered)))
    else None
  }

  /** The choice, given the occupied counts and the three lists of changes. */
  function Choose(prev: SparseMap, curr: SparseMap, ps: nat, cs: nat, gone: seq<u16>, added: seq<u16>,
      altered: seq<u16>): (r: Option<Record>)
    requires forall i :: 0 <= i < |added| ==> added[i] in curr
    requires forall i :: 0 <= i < |altered| ==> altered[i] in curr
    ensures r.Some? ==> !r.value.IsFull() && !r.value.Closed?
  {
    if prev == map[] then None
    else if curr == prev then Some(Carry)
    else if cs + 1 == ps && |gone| == 1 && added == [] && altered == [] then Some(Remove(gone[0]))
    else if cs == ps + 1 && |added| == 1 && gone == [] && altered == [] then Some(Add(Entry(added[0], curr[added[0]])))
    else if cs + 1 <= ps && |gone| >= 2 && |gone| == ps - cs && added == [] && altered == [] then
      Some(MultiRemove(gone))
    else if cs != ps then None
    else SameCount(curr, gone, added, altered)
  }

  /** classifySparseChange; None stands for kind FULL. */
  function SparseDelta(prev: SparseMap, curr: SparseMap): (r: Option<Record>)
    ensures r.Some? ==> !r.value.IsFull() && !r.value.Closed?
  {
    Choose(prev, curr, Count(prev, KEYS), Count(curr, KEYS),
           Difference(Gone, prev, curr), Difference(New, prev, curr), Difference(Altered, prev, curr))
  }

  lemma {:induction false} PickFacts(ch: Change, prev: SparseMap, curr: SparseMap, n: nat)
    requires n <= KEYS
    ensures var s := Pick(ch, prev, curr, n);
            && (forall i, j :: 0 <= i < j < |s| ==> s[i] < s[j])
            && (forall k: u16 :: k < n && Is(ch, prev, curr, k) ==> k in s)
  {
    if n > 0 { PickFacts(ch, prev, curr, n - 1); }
  }

  // ----- the classifier, as the loops it is written with -----

  /** countSparseElements; None is the failed range assertion. */
  method CountElements(m: SparseMap) returns (n: Option<u16>)
    ensures n == if Count(m, KEYS) <= 0xFFFF then Some(Count(m, KEYS)) else None
  {
    var count := 0;
    for i := 0 to KEYS
      invariant count == Count(m, i)
    {
      if i in m && m[i] != [] { count := count + 1; }
    }
    n := if count <= 0xFFFF then Some(count) else None;
  }

  /** Walks `a`, collecting the keys missing from b; gives up (None) at the first shared key whose bytes differ. */
  method MissingKeys(a: SparseMap, b: SparseMap) returns (idxs: Option<seq<u16>>)
    ensures idxs == if Difference(Altered, a, b) == [] then Some(Difference(Gone, a, b)) else None
  {
    var found: seq<u16> := [];
    var i := 0;
    while i < KEYS
      invariant i <= KEYS && found == Pick(Gone, a, b, i) && Pick(Altered, a, b, i) == []
    {
      if i in a {
        if i !in b {
          found := found + [i];
        } else if a[i] != b[i] {
          PickFacts(Altered, a, b, KEYS);
          assert i in Pick(Altered, a, b, KEYS);
          return None;
        }
      }
      i := i + 1;
    }
    return Some(found);
  }

  /** True when every key of `a` is a key of b. */
  method Covered(a: SparseMap, b: SparseMap) returns (ok: bool)
    ensures ok <==> Difference(Gone, a, b) == []
  {
    var i := 0;
    while i < KEYS
      invariant i <= KEYS && Pick(Gone, a, b, i) == []
    {
      if i in a && i !in b {
        PickFacts(Gone, a, b, KEYS);
        assert i in Pick(Gone, a, b, KEYS);
        return false;
      }
      i := i + 1;
    }
    return true;
  }

  lemma {:induction false} Mirror(prev: SparseMap, curr: SparseMap, n: nat)
    requires n <= KEYS
    ensures Pick(Gone, curr, prev, n) == Pick(New, prev, curr, n)
    ensures Pick(Altered, curr, prev, n) == [] <==> Pick(Altered, prev, curr, n) == []
  {
    if n > 0 { Mirror(prev, curr, n - 1); }
  }

  method Differences(prev: SparseMap, curr: SparseMap) returns (changed: seq<u16>, removed: seq<u16>, added: seq<u16>)
    ensures changed == Difference(Altered, prev, curr)
    ensures removed == Difference(Gone, prev, curr)
    ensures added == Difference(New, prev, curr)
  {
    changed, removed, added := [], [], [];
    for i := 0 to KEYS
      invariant changed == Pick(Altered, prev, curr, i) && removed == Pick(Gone, prev, curr, i)
    {
      if i in prev {
        if i in curr {
          if prev[i] != curr[i] { changed := changed + [i]; }
        } else {
          removed := removed + [i];
        }
      }
    }
    for i := 0 to KEYS
      invariant added == Pick(New, prev, curr, i)
    {
      if i in curr && i !in prev { added := added + [i]; }
    }
  }

  method ClassifySameCount(prev: SparseMap, curr: SparseMap) returns (r: Option<Record>)
    ensures r == SameCount(curr, Difference(Gone, prev, curr), Difference(New, prev, curr),
              Difference(Altered, prev, curr))
  {
    var changed, removed, added := Differences(prev, curr);
    if added != [] || removed != [] {
      if |added| == 1 && removed == [] && changed == [] { return Some(Add(Entry(added[0], curr[added[0]]))); }
      if |removed| == 1 && added == [] && changed == [] { return Some(Remove(removed[0])); }
      if |removed| >= 2 && added == [] && changed == [] { return Some(MultiRemove(removed)); }
      return None;
    }
    if |changed| == 1 { return Some(Swap(Entry(changed[0], curr[changed[0]]))); }
    if |changed| >= 2 { return Some(MultiSwap(Entries(curr, changed))); }
    return None;
  }

  /** The REMOVE and MULTI_REMOVE tests: the keys of prev that curr lost, if nothing else changed. */
  method OnlyRemoved(prev: SparseMap, curr: SparseMap) returns (idxs: Option<seq<u16>>)
    ensures idxs == if Difference(Altered, prev, curr) == [] && Difference(New, prev, curr) == []
                    then Some(Difference(Gone, prev, curr)) else None
  {
    Mirror(prev, curr, KEYS);
    idxs := MissingKeys(prev, curr);
    if idxs.Some? {
      var ok := Covered(curr, prev);
      if !ok { idxs := None; }
    }
  }

  /** The ADD test: the keys that curr gained, if nothing else changed. */
  method OnlyAdded(prev: SparseMap, curr: SparseMap) returns (idxs: Option<seq<u16>>)
    ensures idxs == if Difference(Altered, prev, curr) == [] && Difference(Gone, prev, curr) == []
                    then Some(Difference(New, prev, curr)) else None
  {
    Mirror(prev, curr, KEYS);
    idxs := MissingKeys(curr, prev);
    if idxs.Some? {
      var ok := Covered(prev, curr);
      if !ok { idxs := None; }
    }
  }

  /** classifySparseChange. None is a failed size assertion, Some(None) is kind FULL. */
  method ClassifySparseChange(prev: SparseMap, curr: SparseMap) returns (r: Option<Option<Record>>)
    ensures r.None? <==> prev != map[] && (Count(prev, KEYS) > 0xFFFF || Count(curr, KEYS) > 0xFFFF)
    ensures r.Some? ==> r.value == SparseDelta(prev, curr)
  {
    if prev == map[] { return Some(None); }
    var n := CountElements(curr);
    if n.None? { return None; }
    var m := CountElements(prev);
    if m.None? { return None; }
    var currSize: int, prevSize: int := n.value, m.value;
    if curr == prev { return Some(Some(Carry)); }
    if currSize + 1 == prevSize {
      var removed := OnlyRemoved(prev, curr);
      if removed.Some? && |removed.value| == 1 { return Some(Some(Remove(removed.value[0]))); }
    }
    if currSize == prevSize + 1 {
      var added := OnlyAdded(prev, curr);
      if added.Some? && |added.value| == 1 {
        return Some(Some(Add(Entry(added.value[0], curr[added.value[0]]))));
      }
    }
    if currSize + 1 <= prevSize {
      var removed := OnlyRemoved(prev, curr);
      if removed.Some? && |removed.value| >= 2 && |removed.value| == prevSize - currSize {
        return Some(Some(MultiRemove(removed.value)));
      }
    }
    if currSize != prevSize { return Some(None); }
    var same := ClassifySameCount(prev, curr);
    return Some(same);
  }

  // ----- what the deltas mean -----

  /** What the viewer shows for a snapshot: one slot a bin, None where nothing is held. */
  function Slots(m: SparseMap, capacity: nat): (s: seq<Option<Bytes>>)
    ensures |s| == capacity
  {
    seq(capacity, i requires 0 <= i < capacity => if i in m && m[i] != [] then Some(m[i]) else None)
  }

  ghost predicate KeysBelow(m: SparseMap, capacity: nat)
  {
    forall k :: k in m ==> k < capacity
  }

  ghost predicate NoEmptyBin(m: SparseMap)
  {
    forall k :: k in m ==> m[k] != []
  }

  /** Slots of prev with exactly the changed indices overwritten. */
  function Target(prev: SparseMap, curr: SparseMap, capacity: nat): (s: seq<Option<Bytes>>)
    ensures |s| == capacity
  {
    seq(capacity, i requires 0 <= i < capacity =>
      if i >= KEYS then None
      else if Is(Altered, prev, curr, i) || Is(New, prev, curr, i) then Some(curr[i])
      else if Is(Gone, prev, curr, i) then None
      else Slots(prev, capacity)[i])
  }

  lemma {:induction false} SetSlotsFacts(s: seq<Option<Bytes>>, es: seq<Entry>, t: seq<Option<Bytes>>)
    requires |s| == |t|
    requires forall i :: 0 <= i < |es| ==> es[i].idx < |t| && t[es[i].idx] == Some(es[i].bin)
    requires forall k :: 0 <= k < |s| && s[k] != t[k] ==> exists i :: 0 <= i < |es| && es[i].idx == k
    ensures SetSlots(s, es) == Some(t)
    decreases |es|
  {
    if es == [] {
      assert s == t;
    } else {
      var s' := s[es[0].idx := Some(es[0].bin)];
      forall k | 0 <= k < |s'| && s'[k] != t[k] ensures exists i :: 0 <= i < |es[1..]| && es[1..][i].idx == k {
        assert s[k] != t[k];
        var i :| 0 <= i < |es| && es[i].idx == k;
        assert es[1..][i - 1] == es[i];
      }
      SetSlotsFacts(s', es[1..], t);
    }
  }

  lemma {:induction false} ClearSlotsFacts(s: seq<Option<Bytes>>, idxs: seq<u16>, t: seq<Option<Bytes>>)
    requires |s| == |t|
    requires forall i :: 0 <= i < |idxs| ==> idxs[i] < |t| && t[idxs[i]] == None
    requires forall k :: 0 <= k < |s| && s[k] != t[k] ==> exists i :: 0 <= i < |idxs| && idxs[i] == k
    ensures ClearSlots(s, idxs) == Some(t)
    decreases |idxs|
  {
    if idxs == [] {
      assert s == t;
    } else {
      var s' := s[idxs[0] := None];
      forall k | 0 <= k < |s'| && s'[k] != t[k] ensures exists i :: 0 <= i < |idxs[1..]| && idxs[1..][i] == k {
        assert s[k] != t[k];
        var i :| 0 <= i < |idxs| && idxs[i] == k;
        assert idxs[1..][i - 1] == idxs[i];
      }
      ClearSlotsFacts(s', idxs[1..], t);
    }
  }

  lemma OneSlot(s: seq<Option<Bytes>>, e: Entry, i: u16)
    ensures SetSlots(s, [e]) == SetSlot(s, e.idx, Some(e.bin))
    ensures ClearSlots(s, [i]) == SetSlot(s, i, None)
  {
    assert [e][1..] == [] && [i][1..] == [];
  }

  /** s lists exactly the indices that changed in the given way. */
  ghost predicate Lists(ch: Change, prev: SparseMap, curr: SparseMap, s: seq<u16>)
  {
    forall k: u16 :: Is(ch, prev, curr, k) <==> k in s
  }

  lemma DifferenceLists(ch: Change, prev: SparseMap, curr: SparseMap)
    ensures Lists(ch, prev, curr, Difference(ch, prev, curr))
  {
    PickFacts(ch, prev, curr, KEYS);
  }

  /** Putting the changed bins of curr into the old slots yields the target. */
  lemma PutReachesTarget(prev: SparseMap, curr: SparseMap, capacity: nat, ch: Change, idxs: seq<u16>)
    requires KeysBelow(prev, capacity) && KeysBelow(curr, capacity)
    requires ch != Gone && Lists(ch, prev, curr, idxs) && (forall i :: 0 <= i < |idxs| ==> idxs[i] in curr)
    requires forall other :: other != ch ==> Lists(other, prev, curr, [])
    ensures SetSlots(Slots(prev, capacity), Entries(curr, idxs)) == Some(Target(prev, curr, capacity))
  {
    var s, t, es := Slots(prev, capacity), Target(prev, curr, capacity), Entries(curr, idxs);
    assert Lists(Gone, prev, curr, []);
    forall k | 0 <= k < |s| && s[k] != t[k] ensures exists i :: 0 <= i < |es| && es[i].idx == k {
      assert ch == New ==> Lists(Altered, prev, curr, []);
      assert ch == Altered ==> Lists(New, prev, curr, []);
      assert k in idxs;
      var i :| 0 <= i < |idxs| && idxs[i] == k;
      assert es[i].idx == k;
    }
    SetSlotsFacts(s, es, t);
  }

  lemma ClearReachesTarget(prev: SparseMap, curr: SparseMap, capacity: nat, idxs: seq<u16>)
    requires KeysBelow(prev, capacity)
    requires Lists(Gone, prev, curr, idxs) && Lists(New, prev, curr, []) && Lists(Altered, prev, curr, [])
    ensures ClearSlots(Slots(prev, capacity), idxs) == Some(Target(prev, curr, capacity))
  {
    var s, t := Slots(prev, capacity), Target(prev, curr, capacity);
    forall k | 0 <= k < |s| && s[k] != t[k] ensures exists i :: 0 <= i < |idxs| && idxs[i] == k {
      assert k in idxs;
    }
    forall i | 0 <= i < |idxs| ensures idxs[i] < |t| && t[idxs[i]] == None {
      assert idxs[i] in idxs;
      assert Is(Gone, prev, curr, idxs[i]);
      assert !Is(New, prev, curr, idxs[i]) && !Is(Altered, prev, curr, idxs[i]);
    }
    ClearSlotsFacts(s, idxs, t);
  }

  /** Every bin that changed or arrived holds bytes: the viewer cannot be told about an empty one. */
  ghost predicate ChangesHoldBytes(prev: SparseMap, curr: SparseMap)
  {
    forall k: u16 :: Is(Altered, prev, curr, k) || Is(New, prev, curr, k) ==> curr[k] != []
  }

  lemma TargetIsCurrent(prev: SparseMap, curr: SparseMap, capacity: nat)
    requires KeysBelow(prev, capacity) && KeysBelow(curr, capacity)
    ensures Target(prev, curr, capacity) == Slots(curr, capacity) <==> ChangesHoldBytes(prev, curr)
  {
    var t, c := Target(prev, curr, capacity), Slots(curr, capacity);
    if ChangesHoldBytes(prev, curr) {
      assert forall i :: 0 <= i < capacity ==> t[i] == c[i];
    } else {
      var k: u16 :| (Is(Altered, prev, curr, k) || Is(New, prev, curr, k)) && curr[k] == [];
      assert t[k] == Some([]) && c[k] == None;
    }
  }

  lemma ChoiceReachesTarget(prev: SparseMap, curr: SparseMap, capacity: nat,
                            ps: nat, cs: nat, gone: seq<u16>, added: seq<u16>, altered: seq<u16>)
    requires KeysBelow(prev, capacity) && KeysBelow(curr, capacity) && curr != prev
    requires Lists(Gone, prev, curr, gone) && Lists(New, prev, curr, added) && Lists(Altered, prev, curr, altered)
    requires forall i :: 0 <= i < |added| ==> added[i] in curr
    requires forall i :: 0 <= i < |altered| ==> altered[i] in curr
    requires Choose(prev, curr, ps, cs, gone, added, altered).Some?
    ensures UpdateSlots(Slots(prev, capacity), Choose(prev, curr, ps, cs, gone, added, altered).value)
            == Some(Target(prev, curr, capacity))
  {
    var s := Slots(prev, capacity);
    var r := Choose(prev, curr, ps, cs, gone, added, altered).value;
    if r.Remove? {
      ClearReachesTarget(prev, curr, capacity, gone);
      OneSlot(s, Entry(r.idx, []), r.idx);
      assert gone == [r.idx];
    } else if r.MultiRemove? {
      ClearReachesTarget(prev, curr, capacity, gone);
    } else if r.Add? {
      PutReachesTarget(prev, curr, capacity, New, added);
      OneSlot(s, r.entry, 0);
      assert Entries(curr, added) == [r.entry];
    } else {
      PutReachesTarget(prev, curr, capacity, Altered, altered);
      if r.Swap? {
        OneSlot(s, r.entry, 0);
        assert Entries(curr, altered) == [r.entry];
      }
    }
  }

  lemma DeltaReachesTarget(prev: SparseMap, curr: SparseMap, capacity: nat)
    requires KeysBelow(prev, capacity) && KeysBelow(curr, capacity)
    requires curr != prev && SparseDelta(prev, curr).Some?
    ensures UpdateSlots(Slots(prev, capacity), SparseDelta(prev, curr).value) == Some(Target(prev, curr, capacity))
    ensures !SparseDelta(prev, curr).value.Carry? && Allowed(SparseKind(0, 0), SparseDelta(prev, curr).value)
    ensures !SparseDelta(prev, curr).value.IsFull() && !SparseDelta(prev, curr).value.Closed?
  {
    DifferenceLists(Gone, prev, curr);
    DifferenceLists(New, prev, curr);
    DifferenceLists(Altered, prev, curr);
    ChoiceReachesTarget(prev, curr, capacity, Count(prev, KEYS), Count(curr, KEYS),
                        Difference(Gone, prev, curr), Difference(New, prev, curr), Difference(Altered, prev, curr));
  }

  /** Applying the classified delta to the old slots gives the new ones, exactly when every bin that
      changed or arrived holds bytes; in particular whenever curr has no empty bin. */
  lemma SparseDeltaCorrect(prev: SparseMap, curr: SparseMap, width: nat, capacity: nat)
    requires KeysBelow(prev, capacity) && KeysBelow(curr, capacity)
    requires SparseDelta(prev, curr).Some?
    ensures Apply(SparseKind(width, capacity), SlotsValue(Slots(prev, capacity)), SparseDelta(prev, curr).value)
            == Some(SlotsValue(Slots(curr, capacity)))
            <==> ChangesHoldBytes(prev, curr)
    ensures NoEmptyBin(curr) ==> ChangesHoldBytes(prev, curr)
  {
    if curr != prev {
      DeltaReachesTarget(prev, curr, capacity);
      TargetIsCurrent(prev, curr, capacity);
    }
  }

  lemma {:induction false} NonePicked(ch: Change, p: SparseMap, c: SparseMap, n: nat)
    requires n <= KEYS && forall k: u16 :: !Is(ch, p, c, k)
    ensures Pick(ch, p, c, n) == []
  {
    if n > 0 { NonePicked(ch, p, c, n - 1); }
  }

  lemma {:induction false} OnePicked(ch: Change, p: SparseMap, c: SparseMap, k: u16, n: nat)
    requires n <= KEYS && forall j: u16 :: Is(ch, p, c, j) <==> j == k
    ensures Pick(ch, p, c, n) == if k < n then [k] else []
  {
    if n > 0 { OnePicked(ch, p, c, k, n - 1); }
  }

  lemma {:induction false} SameBinsCount(p: SparseMap, c: SparseMap, n: nat)
    requires n <= KEYS && forall k: u16 :: (k in p && p[k] != []) <==> (k in c && c[k] != [])
    ensures Count(p, n) == Count(c, n)
  {
    if n > 0 { SameBinsCount(p, c, n - 1); }
  }

  /** A bin without bytes that appears beside another one: the classifier says ADD, with nothing to add. */
  lemma EmptyBinAdded(x: Bytes)
    requires x != []
    ensures var p, c := map[0 := x], map[0 := x, 1 := []];
            SparseDelta(p, c) == Some(Add(Entry(1, []))) && !ChangesHoldBytes(p, c)
  {
    var p, c := map[0 := x], map[0 := x, 1 := []];
    hide Pick, Count, Choose;
    NoOtherChange(p, c, 1);
    assert 0 in p;
    OnlyOneNew(p, c, Count(p, KEYS), 1);
    assert Is(New, p, c, 1);
  }

  lemma OnlyOneNew(p: SparseMap, c: SparseMap, n: nat, k: u16)
    requires k in c && k !in p && p != map[]
    ensures Choose(p, c, n, n, [], [k], []) == Some(Add(Entry(k, c[k])))
  {
  }

  lemma NoOtherChange(p: SparseMap, c: SparseMap, k: u16)
    requires k !in p && c == p[k := []]
    ensures Count(c, KEYS) == Count(p, KEYS)
    ensures Difference(Gone, p, c) == [] && Difference(Altered, p, c) == [] && Difference(New, p, c) == [k]
  {
    hide Pick, Count;
    NonePicked(Gone, p, c, KEYS);
    NonePicked(Altered, p, c, KEYS);
    OnePicked(New, p, c, k, KEYS);
    SameBinsCount(p, c, KEYS);
  }

  // ----- which branches are live -----

  lemma {:induction false} CountBalance(prev: SparseMap, curr: SparseMap, n: nat)
    requires n <= KEYS && NoEmptyBin(prev) && NoEmptyBin(curr)
    ensures Count(prev, n) + |Pick(New, prev, curr, n)| == Count(curr, n) + |Pick(Gone, prev, curr, n)|
  {
    if n > 0 { CountBalance(prev, curr, n - 1); }
  }

  lemma NoDifference(prev: SparseMap, curr: SparseMap)
    requires Lists(Gone, prev, curr, []) && Lists(New, prev, curr, []) && Lists(Altered, prev, curr, [])
    ensures curr == prev
  {
    forall k | k in prev ensures k in curr && prev[k] == curr[k] {
      assert !Is(Gone, prev, curr, k) && !Is(Altered, prev, curr, k);
    }
    forall k | k in curr ensures k in prev {
      assert !Is(New, prev, curr, k);
    }
  }

  /** The classification by what changed alone, without any counting. */
  function ByDifference(curr: SparseMap, gone: seq<u16>, added: seq<u16>, altered: seq<u16>): Option<Record>
    requires forall i :: 0 <= i < |added| ==> added[i] in curr
    requires forall i :: 0 <= i < |altered| ==> altered[i] in curr
  {
    if gone == [] && added == [] then
      if altered == [] then Some(Carry)
      else if |altered| == 1 then Some(Swap(Entry(altered[0], curr[altered[0]])))
      else Some(MultiSwap(Entries(curr, altered)))
    else if added == [] && altered == [] then Some(if |gone| == 1 then Remove(gone[0]) else MultiRemove(gone))
    else if gone == [] && altered == [] && |added| == 1 then Some(Add(Entry(added[0], curr[added[0]])))
    else None
  }

  lemma ChoiceByDifference(prev: SparseMap, curr: SparseMap, ps: nat, cs: nat,
                           gone: seq<u16>, added: seq<u16>, altered: seq<u16>)
    requires prev != map[] && ps + |added| == cs + |gone|
    requires Lists(Gone, prev, curr, gone) && Lists(New, prev, curr, added) && Lists(Altered, prev, curr, altered)
    requires forall i :: 0 <= i < |added| ==> added[i] in curr
    requires forall i :: 0 <= i < |altered| ==> altered[i] in curr
    ensures Choose(prev, curr, ps, cs, gone, added, altered) == ByDifference(curr, gone, added, altered)
  {
    if curr == prev {
      assert gone != [] ==> Is(Gone, prev, curr, gone[0]);
      assert added != [] ==> Is(New, prev, curr, added[0]);
      assert altered != [] ==> Is(Altered, prev, curr, altered[0]);
    } else if gone == [] && added == [] && altered == [] {
      NoDifference(prev, curr);
    }
  }

  /** When every bin holds bytes, the counts decide nothing: equally many bins before and after means as many
      new as gone ones, so the ADD, REMOVE and MULTI_REMOVE tests of that branch and its last FULL are dead. */
  lemma SparseDeltaByDifference(prev: SparseMap, curr: SparseMap)
    requires NoEmptyBin(prev) && NoEmptyBin(curr) && prev != map[]
    ensures SparseDelta(prev, curr) ==
            ByDifference(curr, Difference(Gone, prev, curr), Difference(New, prev, curr),
                Difference(Altered, prev, curr))
    ensures Count(prev, KEYS) == Count(curr, KEYS) <==> |Difference(New, prev, curr)| == |Difference(Gone, prev, curr)|
  {
    CountBalance(prev, curr, KEYS);
    DifferenceLists(Gone, prev, curr);
    DifferenceLists(New, prev, curr);
    DifferenceLists(Altered, prev, curr);
    ChoiceByDifference(prev, curr, Count(prev, KEYS), Count(curr, KEYS),
                       Difference(Gone, prev, curr), Difference(New, prev, curr), Difference(Altered, prev, curr));
  }

  // ----- full snapshots -----

  /** What appendSparseBins_ writes: the bins below n that hold bytes. */
  function Held(m: SparseMap, n: nat): (es: seq<Entry>)
    requires n <= KEYS
    ensures |es| == Count(m, n)
    ensures forall i :: 0 <= i < |es| ==> es[i].idx < n && es[i].idx in m && m[es[i].idx] == es[i].bin != []
  {
    if n == 0 then []
    else Held(m, n - 1) + if n - 1 in m && m[n - 1] != [] then [Entry(n - 1, m[n - 1])] else []
  }

  lemma {:induction false} HeldFacts(m: SparseMap, n: nat)
    requires n <= KEYS
    ensures forall k: u16 :: k < n && k in m && m[k] != [] ==> Entry(k, m[k]) in Held(m, n)
  {
    if n > 0 { HeldFacts(m, n - 1); }
  }

  lemma HeldFillsSlots(m: SparseMap, capacity: nat)
    requires KeysBelow(m, capacity)
    ensures SetSlots(EmptySlots(capacity), Held(m, KEYS)) == Some(Slots(m, capacity))
  {
    hide SetSlots, Held;
    var s, t, es := EmptySlots(capacity), Slots(m, capacity), Held(m, KEYS);
    HeldFacts(m, KEYS);
    forall k | 0 <= k < |s| && s[k] != t[k] ensures exists i :: 0 <= i < |es| && es[i].idx == k {
      assert Entry(k, m[k]) in es;
    }
    SetSlotsFacts(s, es, t);
  }

  /** A full snapshot rebuilds the slots, whatever the viewer held. */
  lemma FullSparseCorrect(m: SparseMap, width: nat, capacity: nat, c: Cell)
    requires KeysBelow(m, capacity)
    ensures Apply(SparseKind(width, capacity), c, FullSparse(Held(m, KEYS))) == Some(SlotsValue(Slots(m, capacity)))
  {
    hide SetSlots, Held, Slots, EmptySlots;
    HeldFillsSlots(m, capacity);
  }
}
