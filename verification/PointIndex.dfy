/**
  Virtual point indices of an outstation: how a .NET database template picks the index mode,
  and how the database finds a point under each mode.
 */
module PointIndex {
  import opened Words

  /** The virtual indices of one measurement type, by raw position. */
  type Indices = seq<Uint16>

  ghost predicate Increasing(ix: Indices) {
    forall i, j :: 0 <= i < j < |ix| ==> ix[i] < ix[j]
  }

  ghost predicate Identity(ix: Indices) {
    forall i :: 0 <= i < |ix| ==> ix[i] == i
  }

  // ------------------------------ binary search ------------------------------

  datatype Result = Result(found: bool, index: Uint16)

  function Midpoint(lower: int, upper: int): (m: int)
    requires lower <= upper
    ensures lower <= m <= upper
  {
    (upper - lower) / 2 + lower
  }

  /** The rest of a search of `[lower, upper]`, whose last probe was at `last`. */
  function Search(view: Indices, v: Uint16, lower: int, upper: int, last: Uint16): (r: Result)
    requires 0 <= lower <= upper + 1 <= |view| <= 0xFFFF
    ensures r.found ==> lower <= r.index <= upper && view[r.index] == v
    ensures last < |view| ==> r.index < |view|
    decreases upper - lower
  {
    if lower > upper then Result(false, last)
    else
      var midpoint := Midpoint(lower, upper);
      if view[midpoint] == v then Result(true, midpoint)
      else if view[midpoint] < v then Search(view, v, midpoint + 1, upper, midpoint)
      else Search(view, v, lower, midpoint - 1, midpoint)
  }

  function Closest(view: Indices, v: Uint16): Result
    requires |view| <= 0xFFFF
  {
    Search(view, v, 0, |view| - 1, 0)
  }

  /** The search as the database runs it; its bounds never leave 16 bits. */
  method FindClosestRawIndex(view: Indices, vIndex: Uint16) returns (r: Result)
    requires |view| <= 0xFFFF
    ensures r == Closest(view, vIndex)
  {
    if |view| == 0 {
      return Result(false, 0);
    }
    var lower: Uint16, upper: Uint16, midpoint: Uint16 := 0, |view| - 1, 0;
    while lower <= upper
      invariant lower <= upper + 1 <= |view|
      invariant Closest(view, vIndex) == Search(view, vIndex, lower, upper, midpoint)
      decreases upper - lower
    {
      midpoint := Midpoint(lower, upper);
      if view[midpoint] == vIndex {
        return Result(true, midpoint);
      }
      if view[midpoint] < vIndex {
        lower := midpoint + 1;
      } else if upper > 0 && midpoint > 0 {
        upper := midpoint - 1;
      } else {
        return Result(false, midpoint);
      }
    }
    r := Result(false, midpoint);
  }

  /** `p` is a place where `v` is, or next to where it would be. */
  ghost predicate Near(view: Indices, v: Uint16, p: int) {
    && 0 <= p < |view|
    && (forall j :: 0 <= j < p ==> view[j] < v)
    && (forall j :: p < j < |view| ==> view[j] > v)
  }

  /** Near, seen from the two neighbours only. */
  predicate Beside(view: Indices, v: Uint16, p: int)
    requires 0 <= p < |view|
  {
    || (view[p] < v && (p == |view| - 1 || view[p + 1] > v))
    || (view[p] > v && (p == 0 || view[p - 1] < v))
  }

  lemma {:induction false} SearchNarrows(view: Indices, v: Uint16, lower: int, upper: int, last: Uint16)
    requires |view| <= 0xFFFF
    requires 0 <= lower <= upper + 1 <= |view| && last < |view|
    requires lower == 0 || view[lower - 1] < v
    requires upper == |view| - 1 || view[upper + 1] > v
    requires lower <= upper || last == lower || last == lower - 1
    ensures var r := Search(view, v, lower, upper, last); r.found || Beside(view, v, r.index)
    decreases upper - lower
  {
    if lower <= upper {
      var midpoint := Midpoint(lower, upper);
      if view[midpoint] < v {
        SearchNarrows(view, v, midpoint + 1, upper, midpoint);
      } else if view[midpoint] > v {
        SearchNarrows(view, v, lower, midpoint - 1, midpoint);
      }
    }
  }

  /** Over increasing indices the search finds a point iff there is one, and stops beside it if not. */
  lemma ClosestIsNear(view: Indices, v: Uint16)
    requires 0 < |view| <= 0xFFFF && Increasing(view)
    ensures var r := Closest(view, v); Near(view, v, r.index) && (r.found <==> v in view)
  {
    SearchNarrows(view, v, 0, |view| - 1, 0);
    var p := Closest(view, v).index;
    assert forall j :: 0 <= j < p ==> view[j] <= view[p - 1];
    assert forall j :: p < j < |view| ==> view[p + 1] <= view[j];
  }

  /** A search that ends at `k` went the way of `k` at its first probe. */
  lemma SearchWentTowards(view: Indices, k: int, lower: int, upper: int, last: Uint16)
    requires 0 <= lower <= k <= upper < |view| <= 0xFFFF
    requires Search(view, view[k], lower, upper, last) == Result(true, k)
    ensures var m := Midpoint(lower, upper);
            && (k < m ==> view[k] < view[m] && Search(view, view[k], lower, m - 1, m) == Result(true, k))
            && (k > m ==> view[k] > view[m] && Search(view, view[k], m + 1, upper, m) == Result(true, k))
  {}

  lemma {:induction false} FoundInOrder(view: Indices, i: int, j: int, lower: int, upper: int, last: Uint16)
    requires 0 <= lower <= i < j <= upper < |view| <= 0xFFFF
    requires Search(view, view[i], lower, upper, last) == Result(true, i)
    requires Search(view, view[j], lower, upper, last) == Result(true, j)
    ensures view[i] < view[j]
    decreases upper - lower
  {
    var m := Midpoint(lower, upper);
    SearchWentTowards(view, i, lower, upper, last);
    SearchWentTowards(view, j, lower, upper, last);
    if j < m {
      FoundInOrder(view, i, j, lower, m - 1, m);
    } else if m < i {
      FoundInOrder(view, i, j, m + 1, upper, m);
    }
  }

  /** Whether the search takes every point's own index to that point. */
  ghost predicate Findable(view: Indices)
    requires |view| <= 0xFFFF
  {
    forall k :: 0 <= k < |view| ==> Closest(view, view[k]) == Result(true, k)
  }

  /** The search can reach all the points exactly when their indices increase. */
  lemma FindableIffIncreasing(view: Indices)
    requires |view| <= 0xFFFF
    ensures Findable(view) <==> Increasing(view)
  {
    if Findable(view) {
      forall i, j | 0 <= i < j < |view| ensures view[i] < view[j] {
        assert Closest(view, view[i]) == Result(true, i);
        assert Closest(view, view[j]) == Result(true, j);
        FoundInOrder(view, i, j, 0, |view| - 1, 0);
      }
    }
    if Increasing(view) {
      forall k | 0 <= k < |view| ensures Closest(view, view[k]) == Result(true, k) {
        ClosestIsNear(view, view[k]);
      }
    }
  }

  // ------------------------------ index mode ------------------------------

  datatype IndexMode = Contiguous | Discontiguous

  /** What scanning one list of records does: answer, or throw, naming an index and a raw position. */
  datatype Scan = Answer(contiguous: bool) | NonIncreasing(index: Uint16, rawIndex: Uint16)

  ghost predicate FirstFault(ix: Indices, at: int) {
    && 0 < at < |ix|
    && Increasing(ix[..at])
    && ix[at] <= ix[at - 1]
  }

  /** The exception names the index at the first fault, and its position in 16 bits. */
  ghost predicate FaultOf(ix: Indices, index: Uint16, rawIndex: Uint16) {
    exists at: nat :: FirstFault(ix, at) && index == ix[at] && rawIndex == NarrowToUint16(at)
  }

  lemma FaultAt(ix: Indices, at: nat)
    requires FirstFault(ix, at)
    ensures FaultOf(ix, ix[at], NarrowToUint16(at)) && !Increasing(ix)
  {
  }

  /** One more index keeps a list increasing, or the identity, exactly when it fits behind the last. */
  lemma NextIndex(ix: Indices, n: nat)
    requires n < |ix| && Increasing(ix[..n])
    ensures var last := if n == 0 then -1 else ix[n - 1] as int;
            && (ix[n] > last ==> Increasing(ix[..n + 1]))
            && (Identity(ix[..n + 1]) <==> Identity(ix[..n]) && ix[n] == n)
  {
    var before, after := ix[..n], ix[..n + 1];
    assert forall i :: 0 <= i < n ==> after[i] == before[i];
  }

  method IsContiguous(records: Indices) returns (r: Scan)
    ensures r.Answer? ==> Increasing(records) && (r.contiguous <==> Identity(records))
    ensures r.NonIncreasing? ==> FaultOf(records, r.index, r.rawIndex)
  {
    var lastIndex: int, contiguous := -1, true;
    var rawIndex: Uint16 := 0;
    for n := 0 to |records|
      invariant lastIndex == if n == 0 then -1 else records[n - 1]
      invariant Increasing(records[..n])
      invariant contiguous <==> Identity(records[..n])
      invariant contiguous ==> lastIndex == n - 1
      invariant rawIndex == NarrowToUint16(n)
    {
      var rec := records[n];
      NextIndex(records, n);
      if rec <= lastIndex {
        FaultAt(records, n);
        return NonIncreasing(rec, rawIndex);
      }
      if rec != lastIndex + 1 {
        contiguous := false;
      }
      lastIndex := rec;
      rawIndex := NarrowToUint16(rawIndex + 1);
    }
    assert records[..|records|] == records;
    r := Answer(contiguous);
  }

  /** The first list that is not 0, 1, 2, ..., or the number of lists. */
  function FirstOdd(lists: seq<Indices>): (d: nat)
    ensures d <= |lists|
    ensures forall j :: 0 <= j < d ==> Identity(lists[j])
    ensures d < |lists| ==> !Identity(lists[d])
  {
    if lists == [] || exists i :: 0 <= i < |lists[0]| && lists[0][i] != i then 0 else 1 + FirstOdd(lists[1..])
  }

  datatype ModeResult = Mode(mode: IndexMode) | Throws(list: nat, index: Uint16, rawIndex: Uint16)

  ghost predicate Decides(lists: seq<Indices>, r: ModeResult) {
    && (r == Mode(Contiguous) <==> FirstOdd(lists) == |lists|)
    && (r == Mode(Discontiguous) <==> Accepted(lists) && FirstOdd(lists) < |lists|)
    && (r.Throws? ==> r.list == FirstOdd(lists) < |lists| && FaultOf(lists[r.list], r.index, r.rawIndex))
  }

  /**
    The mode of a template.  The lists are visited in order, and the first one that is not
    0, 1, 2, ... decides: the aggregate's `&&` never scans a list behind it.
   */
  method GetIndexMode(lists: seq<Indices>) returns (r: ModeResult)
    ensures Decides(lists, r)
  {
    var sum, n := true, 0;
    while n < |lists|
      invariant 0 <= n <= |lists|
      invariant sum ==> n <= FirstOdd(lists)
      invariant !sum ==> FirstOdd(lists) < n && Increasing(lists[FirstOdd(lists)])
    {
      if sum {
        var scan := IsContiguous(lists[n]);
        assert n < FirstOdd(lists) ==> Identity(lists[n]);
        if scan.NonIncreasing? {
          assert !Increasing(lists[n]);
          return Throws(n, scan.index, scan.rawIndex);
        }
        sum := scan.contiguous;
      }
      n := n + 1;
    }
    r := Mode(if sum then Contiguous else Discontiguous);
  }

  /** The templates that `GetIndexMode` does not refuse. */
  ghost predicate Accepted(lists: seq<Indices>) {
    var d := FirstOdd(lists);
    d < |lists| ==> Increasing(lists[d])
  }

  function ModeOf(lists: seq<Indices>): IndexMode {
    if FirstOdd(lists) == |lists| then Contiguous else Discontiguous
  }

  /** `Database::GetRawIndex`. */
  function RawIndex(mode: IndexMode, view: Indices, index: Uint16): Uint16
    requires |view| <= 0xFFFF
  {
    if mode == Contiguous then index
    else
      var r := Closest(view, index);
      if r.found then r.index else 0xFFFF
  }

  /** The cell an update of point `index` changes, if any. */
  function Updated(mode: IndexMode, view: Indices, index: Uint16): Option<nat>
    requires |view| <= 0xFFFF
  {
    var raw := RawIndex(mode, view, index);
    if raw < |view| then Some(raw) else None
  }

  ghost predicate Fits(lists: seq<Indices>) {
    forall n :: 0 <= n < |lists| ==> |lists[n]| <= 0xFFFF
  }

  /** Every update reaches the point it names, and an index that names no point is refused. */
  ghost predicate Serves(mode: IndexMode, view: Indices)
    requires |view| <= 0xFFFF
  {
    && (forall k :: 0 <= k < |view| ==> Updated(mode, view, view[k]) == Some(k))
    && (forall v: Uint16 :: v !in view ==> Updated(mode, view, v) == None)
  }

  lemma ServesIff(mode: IndexMode, view: Indices)
    requires |view| <= 0xFFFF
    ensures Serves(mode, view) <==> if mode == Contiguous then Identity(view) else Increasing(view)
  {
    if mode == Discontiguous {
      FindableIffIncreasing(view);
      if Serves(mode, view) {
        forall k | 0 <= k < |view| ensures Closest(view, view[k]) == Result(true, k) {
          assert Updated(mode, view, view[k]) == Some(k);
        }
      }
    } else if Identity(view) {
      assert forall v: Uint16 :: v < |view| ==> view[v] == v;
    }
  }

  /**
    The source says the scan throws if any list has bad indices.  It does not: of the lists
    of a template it accepts, some point stays out of reach exactly when a list that does not
    increase comes behind one that has gaps.
   */
  lemma AcceptedServesIff(lists: seq<Indices>)
    requires Fits(lists) && Accepted(lists)
    ensures (forall n :: 0 <= n < |lists| ==> Serves(ModeOf(lists), lists[n]))
       <==> (forall n :: FirstOdd(lists) < n < |lists| ==> Increasing(lists[n]))
  {
    var mode := ModeOf(lists);
    forall n | 0 <= n < |lists|
      ensures Serves(mode, lists[n]) <==> if mode == Contiguous then Identity(lists[n]) else Increasing(lists[n])
      ensures n <= FirstOdd(lists) ==> Increasing(lists[n])
    {
      ServesIff(mode, lists[n]);
    }
    if mode == Discontiguous && forall n :: FirstOdd(lists) < n < |lists| ==> Increasing(lists[n]) {
      assert forall n :: 0 <= n < |lists| ==> Increasing(lists[n]);
    }
  }

  // ------------------------------ range selection ------------------------------

  datatype Range = Range(start: Uint16, stop: Uint16) {
    predicate IsValid() { start <= stop }

    function Count(): int { if IsValid() then stop - start + 1 else 0 }

    predicate Has(v: int) { start <= v <= stop }

    function Intersection(other: Range): Range {
      Range(
        if start < other.start then other.start else start,
        if stop < other.stop then stop else other.stop)
    }
  }

  const INVALID := Range(1, 0)

  function RangeOf(size: Uint16): Range {
    if size > 0 then Range(0, size - 1) else INVALID
  }

  /** The raw positions of a range of virtual indices. */
  function FindRawRange(view: Indices, range: Range): Range
    requires |view| <= 0xFFFF
  {
    if !range.IsValid() || view == [] then INVALID
    else
      var first, last := Closest(view, range.start).index, Closest(view, range.stop).index;
      if view[last] > range.stop && last == 0 then INVALID
      else
        var start := if view[first] < range.start then first + 1 else first;
        var stop := if view[last] > range.stop then last - 1 else last;
        if start < |view| && stop < |view| then Range(start, stop) else INVALID
  }

  /** Over increasing indices a raw range holds exactly the points of the requested range. */
  lemma RawRangeIsExact(view: Indices, range: Range)
    requires |view| <= 0xFFFF && Increasing(view)
    ensures forall k :: 0 <= k < |view| ==> (FindRawRange(view, range).Has(k) <==> range.Has(view[k]))
    ensures FindRawRange(view, range).IsValid() ==> FindRawRange(view, range).stop < |view|
  {
    if view != [] {
      ClosestIsNear(view, range.start);
      ClosestIsNear(view, range.stop);
    }
  }

  /** The raw positions a request for `range` is about. */
  function RawRange(mode: IndexMode, view: Indices, range: Range): Range
    requires |view| <= 0xFFFF
  {
    if mode == Discontiguous then FindRawRange(view, range) else range.Intersection(RangeOf(|view|))
  }

  /** Whether the raw range is shorter than the range asked for. */
  function Clipped(mode: IndexMode, view: Indices, range: Range): bool
    requires |view| <= 0xFFFF
  {
    var raw := RawRange(mode, view, range);
    if mode == Discontiguous then raw.Count() != range.Count() else raw != range
  }

  /** Selects the cells of `range`; true is the parameter error. */
  method GenericSelect(range: Range, selected: array<bool>) returns (error: bool)
    requires selected.Length <= 0xFFFF
    modifies selected
    ensures var allowed := range.Intersection(RangeOf(selected.Length));
            && (forall k :: 0 <= k < selected.Length ==> selected[k] == (old(selected[k]) || allowed.Has(k)))
            && (error <==>
                && range.IsValid()
                && (allowed != range || exists k :: 0 <= k < selected.Length && allowed.Has(k) && old(selected[k])))
  {
    var allowed := range.Intersection(RangeOf(selected.Length));
    if !range.IsValid() {
      return false;
    }
    if !allowed.IsValid() {
      return true;
    }
    error := allowed != range;
    for i := allowed.start as int to allowed.stop + 1
      invariant forall k ::
        0 <= k < selected.Length ==> selected[k] == (old(selected[k]) || allowed.start <= k < i)
      invariant error <==> allowed != range || exists k :: allowed.start <= k < i && old(selected[k])
    {
      if selected[i] {
        error := true;
      } else {
        selected[i] := true;
      }
    }
  }

  /** Selects a range of virtual indices; true is the parameter error. */
  method SelectVirtualRange(mode: IndexMode, view: Indices, range: Range, selected: array<bool>)
    returns (error: bool)
    requires selected.Length == |view| <= 0xFFFF
    modifies selected
    ensures forall k ::
      0 <= k < |view| ==> selected[k] == (old(selected[k]) || RawRange(mode, view, range).Has(k))
    ensures range.IsValid()
      ==> (error <==>
           || Clipped(mode, view, range)
           || exists k :: 0 <= k < |view| && RawRange(mode, view, range).Has(k) && old(selected[k]))
    ensures !range.IsValid() ==> (error <==> mode == Discontiguous)
  {
    if mode == Discontiguous {
      var mapped := FindRawRange(view, range);
      if mapped.IsValid() {
        var clipped := range.Count() != mapped.Count();
        var taken := GenericSelect(mapped, selected);
        error := clipped || taken;
      } else {
        error := true;
      }
    } else {
      error := GenericSelect(range, selected);
    }
  }

  /** In either mode a request is about exactly the points whose indices it names. */
  lemma SelectsExactly(mode: IndexMode, view: Indices, range: Range)
    requires |view| <= 0xFFFF && Serves(mode, view)
    ensures forall k :: 0 <= k < |view| ==> (RawRange(mode, view, range).Has(k) <==> range.Has(view[k]))
  {
    ServesIff(mode, view);
    if mode == Discontiguous {
      RawRangeIsExact(view, range);
    }
  }

  /** Increasing indices gain at least one per position. */
  lemma {:induction false} Spread(view: Indices, i: int, j: int)
    requires Increasing(view) && 0 <= i <= j < |view|
    ensures view[j] - view[i] >= j - i
    decreases j
  {
    if i < j {
      Spread(view, i, j - 1);
    }
  }

  /** In either mode a request is clipped exactly when it names an index that no point has. */
  lemma ClippedIff(mode: IndexMode, view: Indices, range: Range)
    requires |view| <= 0xFFFF && Serves(mode, view) && range.IsValid()
    ensures Clipped(mode, view, range) <==> exists v: Uint16 :: range.Has(v) && v !in view
  {
    ServesIff(mode, view);
    SelectsExactly(mode, view, range);
    if mode == Contiguous {
      assert forall v: Uint16 :: v < |view| ==> view[v] == v;
      assert Clipped(mode, view, range) ==> range.stop !in view;
    } else {
      ClippedByGap(view, range);
    }
  }

  lemma ClippedByGap(view: Indices, range: Range)
    requires |view| <= 0xFFFF && Increasing(view) && range.IsValid()
    ensures FindRawRange(view, range).Count() != range.Count() <==> exists v: Uint16 :: range.Has(v) && v !in view
  {
    var raw := FindRawRange(view, range);
    RawRangeIsExact(view, range);
    if raw.IsValid() && raw.Count() == range.Count() {
      forall v: Uint16 | range.Has(v) ensures v in view {
        var k := raw.start + (v - range.start);
        Spread(view, raw.start, k);
        Spread(view, k, raw.stop);
        assert range.Has(view[raw.start]) && range.Has(view[raw.stop]);
        assert view[k] == v;
      }
    }
    if forall v: Uint16 :: range.Has(v) ==> v in view {
      assert range.start in view && range.stop in view;
      var first :| 0 <= first < |view| && view[first] == range.start;
      NoGap(view, range, first, range.stop);
      assert raw.Has(first) && raw.Has(first + (range.stop - range.start));
      assert range.Has(view[raw.start]) && range.Has(view[raw.stop]);
      Spread(view, raw.start, raw.stop);
    }
  }

  /** Consecutive indices that all have points have them side by side. */
  lemma {:induction false} NoGap(view: Indices, range: Range, first: int, v: Uint16)
    requires Increasing(view) && 0 <= first < |view| && view[first] == range.start && range.Has(v)
    requires forall u: Uint16 :: range.Has(u) ==> u in view
    ensures first + (v - range.start) < |view| && view[first + (v - range.start)] == v
    decreases v
  {
    if v > range.start {
      NoGap(view, range, first, v - 1);
      var before := first + (v - 1 - range.start);
      assert v in view;
      var at :| 0 <= at < |view| && view[at] == v;
      assert at > before;
      Spread(view, before, at);
    }
  }
}
