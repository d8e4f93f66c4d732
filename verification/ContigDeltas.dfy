/** Change classification for contiguous containers. */
module ContigDeltas {
  import opened Bytes
  import opened Records

  type Bins = seq<Bytes>

  /** Number of occupied bins: bins are packed at the front and an empty one ends the queue. */
  function Occupied(bins: Bins): (n: nat)
    ensures n <= |bins|
    ensures forall i :: 0 <= i < n ==> bins[i] != []
    ensures n < |bins| ==> bins[n] == []
  {
    if bins == [] || bins[0] == [] then 0 else 1 + Occupied(bins[1..])
  }

  /** The occupied bins, which is all that the viewer ever shows. */
  function Front(bins: Bins): Bins
  {
    bins[..Occupied(bins)]
  }

  // ----- specification of the classifier -----

  /** Indices below n at which p and c differ, in ascending order. */
  function Changed(p: Bins, c: Bins, n: nat): (s: seq<u16>)
    requires n <= |p| && n <= |c| && n <= 0xFFFF
    ensures forall i :: 0 <= i < |s| ==> s[i] < n
  {
    if n == 0 then []
    else Changed(p, c, n - 1) + if p[n - 1] != c[n - 1] then [n - 1] else []
  }

  function Pairs(c: Bins, idxs: seq<u16>): (es: seq<Entry>)
    requires forall i :: 0 <= i < |idxs| ==> idxs[i] < |c|
    ensures |es| == |idxs| && forall i :: 0 <= i < |es| ==> es[i] == Entry(idxs[i], c[idxs[i]])
  {
    seq(|idxs|, i requires 0 <= i < |idxs| => Entry(idxs[i], c[idxs[i]]))
  }

  /** Dropping the first d bins of p leaves a prefix of c. */
  predicate Overlaps(p: Bins, c: Bins, d: nat)
  {
    d <= |p| && p[d..] <= c
  }

  function Arrivals(p: Bins, c: Bins, d: nat): int
  {
    |c| - |p| + d
  }

  /** What the scan over departure counts accepts. */
  predicate Accepts(p: Bins, c: Bins, d: nat)
    requires d <= |p|
  {
    var a := Arrivals(p, c, d);
    0 <= a <= 0xFF && d + a > 1 && !(d == 1 && a == 1 && |c| == |p|) && Overlaps(p, c, d)
  }

  /** The first departure count from d on that the scan accepts. */
  function Scan(p: Bins, c: Bins, d: nat): (r: Option<nat>)
    ensures r.Some? ==> d <= r.value <= |p| && Accepts(p, c, r.value)
    ensures forall k :: d <= k <= |p| && (r.Some? ==> k < r.value) ==> !Accepts(p, c, k)
    decreases |p| + 1 - d
  {
    if d > |p| then None
    else if Accepts(p, c, d) then Some(d)
    else Scan(p, c, d + 1)
  }

  function MimoFrom(p: Bins, c: Bins, d: nat): Record
    requires d <= |p| <= |c| + d
  {
    Mimo(d % 0x100, c[|p| - d..])
  }

  /** The delta between two snapshots with equally many occupied bins. */
  function SameSize(p: Bins, c: Bins): Record
    requires |p| == |c| <= 0xFFFF
  {
    var idxs := Changed(p, c, |c|);
    if |idxs| == 0 then Carry
    else if |idxs| == 1 then Swap(Entry(idxs[0], c[idxs[0]]))
    else if Overlaps(p, c, 1) then Bookends(Last(c))
    else MultiSwap(Pairs(c, idxs))
  }

  predicate OneArrives(p: Bins, c: Bins)
  {
    |c| == |p| + 1 && p <= c
  }

  predicate OneDeparts(p: Bins, c: Bins)
  {
    |p| == |c| + 1 && p[1..] == c
  }

  function Mimoed(p: Bins, c: Bins): Option<Record>
  {
    match Scan(p, c, 0)
    case None => None
    case Some(d) => Some(MimoFrom(p, c, d))
  }

  /** The delta when the number of occupied bins changed; None stands for kind FULL. */
  function Resized(p: Bins, c: Bins): (r: Option<Record>)
    requires |p| != |c|
    ensures r.Some? ==> r.value.Arrive? || r.value.Depart? || r.value.Mimo?
  {
    if OneArrives(p, c) then Some(Arrive(Last(c)))
    else if OneDeparts(p, c) then Some(Depart)
    else Mimoed(p, c)
  }

  function Delta(p: Bins, c: Bins): Option<Record>
    requires |p| <= 0xFFFF && |c| <= 0xFFFF
  {
    if |c| == |p| then Some(SameSize(p, c)) else Resized(p, c)
  }

  /** classifyContigChange; a snapshot without any bin at all is no baseline. */
  function ContigDelta(prev: Bins, curr: Bins): (r: Option<Record>)
    requires Occupied(prev) <= 0xFFFF && Occupied(curr) <= 0xFFFF
    ensures r.Some? ==> !r.value.IsFull() && !r.value.Closed?
  {
    if prev == [] then None else Delta(Front(prev), Front(curr))
  }

  lemma {:induction false} ChangedFacts(p: Bins, c: Bins, n: nat)
    requires n <= |p| && n <= |c| && n <= 0xFFFF
    ensures var s := Changed(p, c, n);
            && |s| <= n
            && (forall i :: 0 <= i < |s| ==> s[i] < n && p[s[i]] != c[s[i]])
            && (forall i, j :: 0 <= i < j < |s| ==> s[i] < s[j])
            && (forall k :: 0 <= k < n && p[k] != c[k] ==> k in s)
  {
    if n > 0 { ChangedFacts(p, c, n - 1); }
  }

  /** Bin i changed and no other. */
  predicate OnlyAt(p: Bins, c: Bins, i: nat)
    requires |p| == |c|
  {
    i < |c| && p[i] != c[i] && forall k :: 0 <= k < |c| && k != i ==> p[k] == c[k]
  }

  lemma CarryExact(p: Bins, c: Bins)
    requires |p| == |c| <= 0xFFFF
    ensures SameSize(p, c) == Carry <==> p == c
  {
    hide Overlaps;
    ChangedFacts(p, c, |c|);
  }

  lemma OneChanged(p: Bins, c: Bins, i: nat)
    requires |p| == |c| <= 0xFFFF && OnlyAt(p, c, i)
    ensures Changed(p, c, |c|) == [i]
  {
    hide Changed;
    ChangedFacts(p, c, |c|);
    var s := Changed(p, c, |c|);
    assert i in s;
    assert s[0] == i && s[|s| - 1] == i;
  }

  lemma OnlyOneChanged(p: Bins, c: Bins)
    requires |p| == |c| <= 0xFFFF && |Changed(p, c, |c|)| == 1
    ensures OnlyAt(p, c, Changed(p, c, |c|)[0])
  {
    hide Changed;
    ChangedFacts(p, c, |c|);
  }

  /** SWAP exactly if one bin changed, and of that bin. */
  lemma SwapExact(p: Bins, c: Bins)
    requires |p| == |c| <= 0xFFFF
    ensures forall i :: 0 <= i < |c| && OnlyAt(p, c, i) ==> SameSize(p, c) == Swap(Entry(i, c[i]))
    ensures SameSize(p, c).Swap? ==> OnlyAt(p, c, SameSize(p, c).entry.idx)
  {
    hide Changed, Overlaps, OnlyAt, Pairs;
    if |Changed(p, c, |c|)| == 1 { OnlyOneChanged(p, c); }
    forall i | 0 <= i < |c| && OnlyAt(p, c, i) ensures SameSize(p, c) == Swap(Entry(i, c[i])) {
      OneChanged(p, c, i);
    }
  }

  lemma TwoChanged(p: Bins, c: Bins, i: nat, j: nat)
    requires |p| == |c| <= 0xFFFF && i < j < |c| && p[i] != c[i] && p[j] != c[j]
    ensures |Changed(p, c, |c|)| >= 2
  {
    ChangedFacts(p, c, |c|);
    var s := Changed(p, c, |c|);
    assert i in s && j in s;
  }

  /** With more than one change, BOOKENDS exactly if the queue moved on by one, and otherwise MULTI_SWAP of exactly the
      bins that changed, in order. */
  lemma ShiftExact(p: Bins, c: Bins, i: nat, j: nat)
    requires |p| == |c| <= 0xFFFF && i < j < |c| && p[i] != c[i] && p[j] != c[j]
    ensures p[1..] == c[..|c| - 1] ==> SameSize(p, c) == Bookends(c[|c| - 1])
    ensures p[1..] != c[..|c| - 1] ==>
              && SameSize(p, c).MultiSwap?
              && var es := SameSize(p, c).entries;
                 && (forall m :: 0 <= m < |es| ==> es[m].idx < |c| && es[m].bin == c[es[m].idx] != p[es[m].idx])
                 && (forall m, n :: 0 <= m < n < |es| ==> es[m].idx < es[n].idx)
                 && (forall k :: 0 <= k < |c| && p[k] != c[k] ==> exists m :: 0 <= m < |es| && es[m].idx == k)
  {
    hide Changed, Overlaps;
    TwoChanged(p, c, i, j);
    ShiftIs(p, c);
    var s := Changed(p, c, |c|);
    ChangedFacts(p, c, |c|);
    if p[1..] != c[..|c| - 1] {
      var es := Pairs(c, s);
      forall k | 0 <= k < |c| && p[k] != c[k] ensures exists m :: 0 <= m < |es| && es[m].idx == k {
        assert k in s;
        var m :| 0 <= m < |s| && s[m] == k;
        assert es[m].idx == k;
      }
    }
  }

  lemma ShiftIs(p: Bins, c: Bins)
    requires |p| == |c| > 0
    ensures Overlaps(p, c, 1) <==> p[1..] == c[..|c| - 1]
  {
  }

  // ----- the classifier, as the loops it is written with -----

  /** countContigElements: counts up to the first empty bin; None is the failed range assertion. */
  method CountElements(bins: Bins) returns (n: Option<u16>)
    ensures n == if Occupied(bins) <= 0xFFFF then Some(Occupied(bins)) else None
  {
    var count := 0;
    while count < |bins| && bins[count] != []
      invariant count <= |bins| && Occupied(bins) == count + Occupied(bins[count..])
    {
      assert bins[count..][1..] == bins[count + 1..];
      count := count + 1;
    }
    n := if count <= 0xFFFF then Some(count) else None;
  }

  method PrefixMatchesAfterDepart(prev: Bins, curr: Bins, prevSize: u16, currSize: u16, depart: u16) returns (ok: bool)
    requires prevSize == Occupied(prev) && currSize == Occupied(curr) && depart <= prevSize
    ensures ok <==> Overlaps(Front(prev), Front(curr), depart)
  {
    var overlap := prevSize - depart;
    var p, c := Front(prev), Front(curr);
    if overlap + (currSize - overlap) % 0x1_0000 != currSize { return false; }
    var i := 0;
    while i < overlap
      invariant i <= overlap
      invariant forall k :: 0 <= k < i ==> c[k] == p[depart..][k]
    {
      if curr[i] != prev[i + depart] {
        assert c[i] != p[depart..][i];
        return false;
      }
      i := i + 1;
    }
    assert p[depart..] == c[..overlap];
    return true;
  }

  method ChangedIndices(prev: Bins, curr: Bins, size: u16) returns (idxs: seq<u16>)
    requires size == Occupied(prev) == Occupied(curr)
    ensures idxs == Changed(Front(prev), Front(curr), size)
  {
    ghost var p, c := Front(prev), Front(curr);
    idxs := [];
    var i := 0;
    while i < size
      invariant i <= size && idxs == Changed(p, c, i)
    {
      if curr[i] != prev[i] { idxs := idxs + [i]; }
      i := i + 1;
    }
  }

  /** The BOOKENDS test. */
  method IsShiftedByOne(prev: Bins, curr: Bins, size: u16) returns (ok: bool)
    requires size == Occupied(prev) == Occupied(curr) && size > 0
    ensures ok <==> Overlaps(Front(prev), Front(curr), 1)
  {
    ghost var p, c := Front(prev), Front(curr);
    var i := 0;
    while i + 1 < size
      invariant i < size
      invariant forall k :: 0 <= k < i ==> c[k] == p[1..][k]
    {
      if curr[i] != prev[i + 1] {
        assert c[i] != p[1..][i];
        return false;
      }
      i := i + 1;
    }
    assert p[1..] == c[..size - 1];
    return true;
  }

  method SameSizeDelta(prev: Bins, curr: Bins, size: u16) returns (r: Record)
    requires size == Occupied(prev) == Occupied(curr)
    ensures r == SameSize(Front(prev), Front(curr))
  {
    var idxs := ChangedIndices(prev, curr, size);
    if |idxs| == 0 { return Carry; }
    if |idxs| == 1 { return Swap(Entry(idxs[0], curr[idxs[0]])); }
    assert idxs[0] < size;
    var bookends := IsShiftedByOne(prev, curr, size);
    if bookends { return Bookends(curr[size - 1]); }
    assert Pairs(curr, idxs) == Pairs(Front(curr), idxs);
    return MultiSwap(Pairs(curr, idxs));
  }

  /** Whether iteration n of the scan is its last; the counter is 16 bits wide, so it is back at 0 after 65535. */
  predicate StopsAt(p: Bins, c: Bins, n: nat)
  {
    var d := n % 0x1_0000;
    d > |p| || Accepts(p, c, d)
  }

  ghost predicate ScanStops(p: Bins, c: Bins)
  {
    exists n: nat :: StopsAt(p, c, n)
  }

  /** The scan ends exactly if the counter can pass the number of old bins, or something is found. */
  lemma ScanStopsExact(p: Bins, c: Bins)
    requires |p| <= 0xFFFF
    ensures ScanStops(p, c) <==> |p| < 0xFFFF || Scan(p, c, 0).Some?
  {
    if |p| < 0xFFFF {
      assert StopsAt(p, c, |p| + 1);
    } else if Scan(p, c, 0).Some? {
      assert StopsAt(p, c, Scan(p, c, 0).value);
    } else {
      forall n: nat ensures !StopsAt(p, c, n) {
        assert 0 <= n % 0x1_0000 <= |p|;
      }
    }
  }

  /** A full queue of 65535 bins against 256 other ones: the scan goes round for ever. */
  lemma ScanNeverStops(x: Bytes, y: Bytes)
    requires x != y
    ensures !ScanStops(seq(0xFFFF, _ => x), seq(0x100, _ => y))
  {
    var p, c := seq(0xFFFF, _ => x), seq(0x100, _ => y);
    forall d | 0 <= d <= |p| ensures !Accepts(p, c, d) {
      if d < |p| { assert p[d..][0] == x && c[0] == y; }
    }
    assert Scan(p, c, 0).None?;
    ScanStopsExact(p, c);
  }

  method ScanDepartures(prev: Bins, curr: Bins, prevSize: u16, currSize: u16) returns (r: Option<Record>)
    requires prevSize == Occupied(prev) && currSize == Occupied(curr)
    requires ScanStops(Front(prev), Front(curr))
    ensures r == Mimoed(Front(prev), Front(curr))
  {
    hide Occupied, Overlaps;
    ghost var p, c := Front(prev), Front(curr);
    ScanStopsExact(p, c);
    var d: u16 := 0;
    while d <= prevSize
      invariant d <= prevSize + 1 && Scan(p, c, 0) == Scan(p, c, d)
      decreases prevSize + 1 - d
    {
      var arrivals := currSize - prevSize + d;
      if 0 <= arrivals <= 0xFF && d + arrivals > 1 && !(d == 1 && arrivals == 1 && currSize == prevSize) {
        var fits := PrefixMatchesAfterDepart(prev, curr, prevSize, currSize, d);
        if fits {
          assert curr[prevSize - d..currSize] == c[prevSize - d..];
          return Some(Mimo(d % 0x100, curr[prevSize - d..currSize]));
        }
      }
      assert d < 0xFFFF;
      d := (d + 1) % 0x1_0000;
    }
    return None;
  }

  /** The classifier gets to the scan, as none of the quicker tests applies. */
  predicate Scans(prev: Bins, curr: Bins)
  {
    && prev != [] && Occupied(prev) <= 0xFFFF && Occupied(curr) <= 0xFFFF && Occupied(prev) != Occupied(curr)
    && !OneArrives(Front(prev), Front(curr)) && !OneDeparts(Front(prev), Front(curr))
  }

  ghost predicate ClassifierStops(prev: Bins, curr: Bins)
  {
    Scans(prev, curr) ==> ScanStops(Front(prev), Front(curr))
  }

  /** The classifier ends exactly if the old queue does not have 65535 bins of which no delta leads to the new one. */
  lemma ClassifierStopsExact(prev: Bins, curr: Bins)
    ensures ClassifierStops(prev, curr) <==>
              !(Occupied(prev) == 0xFFFF && Occupied(curr) <= 0xFFFF && ContigDelta(prev, curr).None?)
  {
    if Occupied(prev) <= 0xFFFF { ScanStopsExact(Front(prev), Front(curr)); }
  }

  /** classifyContigChange. None is a failed size assertion, Some(None) is kind FULL. */
  method ClassifyContigChange(prev: Bins, curr: Bins) returns (r: Option<Option<Record>>)
    requires ClassifierStops(prev, curr)
    ensures r.None? <==> prev != [] && (Occupied(prev) > 0xFFFF || Occupied(curr) > 0xFFFF)
    ensures r.Some? && prev != [] ==> r.value == ContigDelta(prev, curr)
    ensures prev == [] ==> r == Some(None)
  {
    if prev == [] { return Some(None); }
    var n := CountElements(curr);
    if n.None? { return None; }
    var m := CountElements(prev);
    if m.None? { return None; }
    var currSize, prevSize := n.value, m.value;
    if currSize == prevSize {
      var same := SameSizeDelta(prev, curr, currSize);
      return Some(Some(same));
    }
    var simple := OneStep(prev, curr, prevSize, currSize);
    if simple.Some? { return Some(simple); }
    var scanned := ScanDepartures(prev, curr, prevSize, currSize);
    return Some(scanned);
  }

  /** The ARRIVE and DEPART tests. */
  method OneStep(prev: Bins, curr: Bins, prevSize: u16, currSize: u16) returns (r: Option<Record>)
    requires prevSize == Occupied(prev) && currSize == Occupied(curr) && prevSize != currSize
    ensures r.Some? ==> r == Resized(Front(prev), Front(curr))
    ensures r.None? <==> !OneArrives(Front(prev), Front(curr)) && !OneDeparts(Front(prev), Front(curr))
  {
    ghost var p, c := Front(prev), Front(curr);
    r := None;
    if currSize == prevSize + 1 {
      var arrive := PrefixMatchesAfterDepart(prev, curr, prevSize, currSize, 0);
      assert p[0..] == p;
      if arrive { r := Some(Arrive(curr[currSize - 1])); }
    } else if prevSize == currSize + 1 {
      var depart := PrefixMatchesAfterDepart(prev, curr, prevSize, currSize, 1);
      assert Overlaps(p, c, 1) <==> p[1..] == c;
      if depart { r := Some(Depart); }
    }
  }

  // ----- what the deltas mean -----

  lemma {:induction false} PopFrontFacts(l: Bins, n: nat)
    ensures PopFront(l, n) == if n <= |l| then Some(l[n..]) else None
    decreases n
  {
    if n > 0 && l != [] {
      PopFrontFacts(l[1..], n - 1);
      assert n <= |l| ==> l[1..][n - 1..] == l[n..];
    }
  }

  lemma {:induction false} AppendFacts(l: Bins, capacity: nat, bs: Bins)
    ensures Append(l, capacity, bs) == if bs == [] || |l| + |bs| <= capacity then Some(l + bs) else None
    decreases |bs|
  {
    if bs == [] {
      assert l + bs == l;
    } else if |l| < capacity {
      AppendFacts(l + [bs[0]], capacity, bs[1..]);
      assert l + [bs[0]] + bs[1..] == l + bs;
    }
  }

  lemma {:induction false} SwapBinsFacts(l: Bins, capacity: nat, es: seq<Entry>, c: Bins)
    requires |l| == |c| <= capacity
    requires forall i :: 0 <= i < |es| ==> es[i].idx < |c| && es[i].bin == c[es[i].idx]
    requires forall k :: 0 <= k < |l| && l[k] != c[k] ==> exists i :: 0 <= i < |es| && es[i].idx == k
    ensures SwapBins(l, capacity, es) == Some(c)
    decreases |es|
  {
    if es == [] {
      assert l == c;
    } else {
      var l' := l[es[0].idx := es[0].bin];
      forall k | 0 <= k < |l'| && l'[k] != c[k] ensures exists i :: 0 <= i < |es[1..]| && es[1..][i].idx == k {
        assert l[k] != c[k];
        var i :| 0 <= i < |es| && es[i].idx == k;
        assert es[1..][i - 1] == es[i];
      }
      SwapBinsFacts(l', capacity, es[1..], c);
    }
  }

  /** The guard that the encoder lacks: the departure count has to fit the byte it is stored in. */
  predicate DepartFitsByte(p: Bins, c: Bins)
    requires |p| <= 0xFFFF && |c| <= 0xFFFF
  {
    Delta(p, c).Some? && Delta(p, c).value.Mimo? ==> Scan(p, c, 0).value <= 0xFF
  }

  lemma ShiftFacts(p: Bins, capacity: nat, d: nat, bs: Bins)
    requires d <= |p| <= capacity
    ensures |p| - d + |bs| <= capacity ==> PopThenAppend(capacity, p, d, bs) == Some(p[d..] + bs)
    ensures |p| - d + |bs| > capacity ==> PopThenAppend(capacity, p, d, bs) == None
  {
    PopFrontFacts(p, d);
    AppendFacts(p[d..], capacity, bs);
    assert bs == [] ==> p[d..] + bs == p[d..];
  }

  lemma ChangedSwaps(p: Bins, c: Bins, capacity: nat)
    requires |p| == |c| <= 0xFFFF && |p| <= capacity
    ensures SwapBins(p, capacity, Pairs(c, Changed(p, c, |c|))) == Some(c)
  {
    ChangedFacts(p, c, |c|);
    var idxs := Changed(p, c, |c|);
    var es := Pairs(c, idxs);
    forall k | 0 <= k < |p| && p[k] != c[k] ensures exists i :: 0 <= i < |es| && es[i].idx == k {
      var i :| 0 <= i < |idxs| && idxs[i] == k;
      assert es[i].idx == k;
    }
    SwapBinsFacts(p, capacity, es, c);
  }

  lemma NoChange(p: Bins, c: Bins)
    requires |p| == |c| <= 0xFFFF && Changed(p, c, |c|) == []
    ensures p == c
  {
    ChangedFacts(p, c, |c|);
  }

  lemma OneSwap(p: Bins, c: Bins, capacity: nat)
    requires |p| == |c| <= 0xFFFF && |p| <= capacity && |Changed(p, c, |c|)| == 1
    ensures var i := Changed(p, c, |c|)[0]; SwapBin(p, capacity, Entry(i, c[i])) == Some(c)
  {
    ChangedSwaps(p, c, capacity);
    var es := Pairs(c, Changed(p, c, |c|));
    assert |es| == 1 && es[1..] == [];
  }

  lemma BookendsCorrect(p: Bins, c: Bins, capacity: nat)
    requires 0 < |p| == |c| <= capacity && Overlaps(p, c, 1)
    ensures PopThenAppend(capacity, p, 1, [Last(c)]) == Some(c)
  {
    ShiftFacts(p, capacity, 1, [Last(c)]);
    assert c == p[1..] + [Last(c)];
  }

  lemma SameSizeCorrect(p: Bins, c: Bins, capacity: nat)
    requires |p| == |c| <= 0xFFFF && |p| <= capacity
    ensures UpdateOrKeep(capacity, p, SameSize(p, c)) == Some(c)
  {
    var idxs := Changed(p, c, |c|);
    if |idxs| == 0 {
      NoChange(p, c);
    } else if |idxs| == 1 {
      OneSwap(p, c, capacity);
    } else if Overlaps(p, c, 1) {
      assert idxs[0] < |c|;
      BookendsCorrect(p, c, capacity);
    } else {
      ChangedSwaps(p, c, capacity);
    }
  }

  /** The viewer's update, with CARRY as the identity. */
  function UpdateOrKeep(capacity: nat, l: Bins, r: Record): Option<Bins>
  {
    if r.Carry? then Some(l) else UpdateList(capacity, l, r)
  }

  /** Applying the classified delta to the old bins gives the new ones, exactly when the departure count fits. */
  lemma DeltaCorrect(p: Bins, c: Bins, capacity: nat)
    requires |p| <= 0xFFFF && |c| <= 0xFFFF && |p| <= capacity && |c| <= capacity
    requires Delta(p, c).Some?
    ensures UpdateOrKeep(capacity, p, Delta(p, c).value) == Some(c) <==> DepartFitsByte(p, c)
  {
    if |p| == |c| {
      SameSizeCorrect(p, c, capacity);
    } else {
      ResizeCorrect(p, c, capacity);
    }
  }

  lemma ArriveCorrect(p: Bins, c: Bins, capacity: nat)
    requires |c| == |p| + 1 <= capacity && p <= c
    ensures Append(p, capacity, [Last(c)]) == Some(c)
  {
    AppendFacts(p, capacity, [Last(c)]);
    assert c == p + [Last(c)];
  }

  lemma MimoCorrect(p: Bins, c: Bins, d: nat, capacity: nat)
    requires |p| <= capacity && |c| <= capacity && Overlaps(p, c, d)
    ensures var r := MimoFrom(p, c, d);
            PopThenAppend(capacity, p, r.departs, r.arrivals) == Some(c) <==> d <= 0xFF
  {
    var bs := c[|p| - d..];
    ShiftFacts(p, capacity, d % 0x100, bs);
    assert c == p[d..] + bs;
    assert d > 0xFF ==> |p[d % 0x100..] + bs| > |c|;
  }

  lemma ResizeCorrect(p: Bins, c: Bins, capacity: nat)
    requires |p| != |c| && |p| <= 0xFFFF && |c| <= 0xFFFF && |p| <= capacity && |c| <= capacity
    requires Resized(p, c).Some?
    ensures UpdateOrKeep(capacity, p, Resized(p, c).value) == Some(c) <==> DepartFitsByte(p, c)
  {
    if |c| == |p| + 1 && p <= c {
      ArriveCorrect(p, c, capacity);
    } else if |p| == |c| + 1 && p[1..] == c {
      PopFrontFacts(p, 1);
    } else {
      MimoCorrect(p, c, Scan(p, c, 0).value, capacity);
    }
  }

  /** ContigDeltaCorrect: DeltaCorrect on whole snapshots and on the viewer's cell. */
  lemma ContigDeltaCorrect(prev: Bins, curr: Bins, width: nat, capacity: nat)
    requires Occupied(prev) <= 0xFFFF && Occupied(curr) <= 0xFFFF
    requires Occupied(prev) <= capacity && Occupied(curr) <= capacity
    requires ContigDelta(prev, curr).Some?
    ensures Apply(ContigKind(width, capacity), ListValue(Front(prev)), ContigDelta(prev, curr).value)
            == Some(ListValue(Front(curr)))
            <==> DepartFitsByte(Front(prev), Front(curr))
    ensures Occupied(prev) <= 0xFF ==> DepartFitsByte(Front(prev), Front(curr))
  {
    DeltaCorrect(Front(prev), Front(curr), capacity);
  }

  /** With at most 255 occupied bins now, FULL is chosen exactly if the baseline vector has no bin at all. */
  lemma ContigDeltaTotal(prev: Bins, curr: Bins)
    requires Occupied(prev) <= 0xFFFF && Occupied(curr) <= 0xFF
    ensures ContigDelta(prev, curr).None? <==> prev == []
  {
    var p, c := Front(prev), Front(curr);
    if |p| != |c| && |p| + |c| > 1 {
      assert p[|p|..] == [];
      assert Accepts(p, c, |p|);
    }
  }

  /** A MIMO transmits as few bins as any shift can: no longer tail of the old bins is a head of the new ones,
      and the combinations that the scan skips hide none. */
  lemma MimoIsOptimal(p: Bins, c: Bins)
    requires |p| <= 0xFFFF && |c| <= 0xFFFF
    requires Delta(p, c).Some? && Delta(p, c).value.Mimo?
    ensures var kept := |c| - |Delta(p, c).value.arrivals|;
            && 0 <= kept <= |p| && c[..kept] == p[|p| - kept..]
            && forall k :: kept < k <= |p| && k <= |c| ==> c[..k] != p[|p| - k..]
  {
    var d := Scan(p, c, 0).value;
    var kept := |p| - d;
    assert c[..kept] == p[d..];
    assert p[0..] == p;
    forall k | kept < k <= |p| && k <= |c| ensures c[..k] != p[|p| - k..] {
      assert !Accepts(p, c, |p| - k);
      assert 0 <= Arrivals(p, c, |p| - k) <= Arrivals(p, c, d) <= 0xFF;
    }
  }

  /** Without the byte guard the viewer ends up with a different queue: 256 bins replaced by one. */
  lemma DepartOverflow(x: Bytes, y: Bytes)
    requires x != y && x != [] && y != []
    ensures var p := seq(0x100, _ => x); var c := [y];
            !DepartFitsByte(p, c) && Delta(p, c) == Some(Mimo(0, [y]))
  {
    var p, c := seq(0x100, _ => x), [y];
    assert forall d :: 0 <= d < 0x100 ==> p[d..] != [] && p[d..][0] == x;
    assert forall d :: 0 <= d < 0x100 ==> !Accepts(p, c, d);
    assert p[0x100..] == [];
    assert Accepts(p, c, 0x100);
    assert Scan(p, c, 0) == Some(0x100);
  }
}
