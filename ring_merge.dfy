/** The ring simplification of the GeoJSON optimizer, on values.

    `ScanFrom` follows `merge_points` node by node: `store[j]` is the point
    list held by the j-th node of the ring as it was when the call began, and
    `kept` lists the nodes still linked. When the head shares its point list
    with the last node (`tied`), rewriting the head's list in place rewrites
    the last node's too. `MergePairs` is the same scan stated on the list of
    points alone; the lemmas below connect the two. */
module RingMerge {
  import opened Text

  /** A point: the Python list of its coordinates. */
  type Pt = seq<real>

  type Close = (Pt, Pt) -> bool

  /** The midpoint written back by a merge: `(a[0] + b[0]) / 2, (a[1] + b[1]) / 2`. */
  function Mid(a: Pt, b: Pt): (m: Pt)
    requires |a| >= 2 && |b| >= 2
    ensures |m| == 2
  {
    [(a[0] + b[0]) / 2.0, (a[1] + b[1]) / 2.0]
  }

  /** A scan's result: the point list each original node holds, and the nodes
      still linked, in list order. */
  datatype Scan = Scan(store: seq<Pt>, kept: seq<nat>)

  predicate Below(kept: seq<nat>, bound: nat)
  {
    forall j :: 0 <= j < |kept| ==> kept[j] < bound
  }

  predicate Increasing(kept: seq<nat>)
  {
    forall a, b :: 0 <= a < b < |kept| ==> kept[a] < kept[b]
  }

  /** The scan of `merge_points` from the node at index `i`. A node whose
      successor is `close` absorbs it: it takes the midpoint, its successor is
      unlinked and the scan moves to the node after. `None` is an exception:
      the ValueError of `math.dist` on points of different dimension, or the
      IndexError of a merged point with fewer than two coordinates. */
  function ScanFrom(store: seq<Pt>, i: nat, kept: seq<nat>, tied: bool, close: Close): (r: Option<Scan>)
    requires i <= |store| && Below(kept, i) && Increasing(kept)
    ensures r.Some? ==> |r.value.store| == |store| && Below(r.value.kept, |store|) && Increasing(r.value.kept)
    ensures r.Some? ==> |kept| <= |r.value.kept| && r.value.kept[..|kept|] == kept
    ensures r.Some? ==> 2 * ((|store| - i) - (|r.value.kept| - |kept|)) <= |store| - i
    ensures r.Some? ==> |r.value.kept| - |kept| <= |store| - i
    ensures r.Some? && i < |store| ==> |r.value.kept| > |kept| && r.value.kept[|kept|] == i
    decreases |store| - i
  {
    if i == |store| then Some(Scan(store, kept))
    else if i + 1 < |store| && |store[i]| != |store[i + 1]| then None
    else if i + 1 < |store| && close(store[i], store[i + 1]) then
      if |store[i]| < 2 || |store[i + 1]| < 2 then None
      else
        var m := Mid(store[i], store[i + 1]);
        var s1 := store[i := m];
        var s2 := if tied && i == 0 then s1[|store| - 1 := m] else s1;
        ScanFrom(s2, i + 2, kept + [i], tied, close)
    else ScanFrom(store, i + 1, kept + [i], tied, close)
  }

  /** The points held by the kept nodes, in list order. */
  function Pick(store: seq<Pt>, kept: seq<nat>): (vs: seq<Pt>)
    requires Below(kept, |store|)
    ensures |vs| == |kept|
  {
    seq(|kept|, j requires 0 <= j < |kept| => store[kept[j]])
  }

  /** The list of points a ring holds, whether `ring_end` is still its last
      node, and whether the head shares its point list with the last node. */
  datatype RingState = RingState(values: seq<Pt>, endLinked: bool, tied: bool)

  /** A freshly read ring: every node has its own list, `ring_end` is last. */
  function InitialRing(vs: seq<Pt>): RingState
  {
    RingState(vs, true, |vs| == 1)
  }

  /** The states `merge_points` can meet: a shared list belongs to the head and
      to the last node, which is then `ring_end`. */
  predicate Coherent(r: RingState)
  {
    (r.tied && |r.values| >= 2 ==> r.endLinked && r.values[0] == r.values[|r.values| - 1])
    && (|r.values| == 1 ==> r.tied)
  }

  /** One call of `merge_points`: the scan, then `ring_end.data = ring_start.data`
      when the two lists differ. The second component is the returned count. */
  function MergeRound(r: RingState, close: Close): Option<(RingState, nat)>
  {
    var n := |r.values|;
    match ScanFrom(r.values, 0, [], r.tied, close)
    case None => None
    case Some(sc) =>
      var vals := Pick(sc.store, sc.kept);
      var merged := n - |vals|;
      if r.endLinked && n > 0 && sc.kept[|sc.kept| - 1] == n - 1 then
        if sc.store[0] != sc.store[n - 1] then
          Some((RingState(vals[|vals| - 1 := sc.store[0]], true, true), merged))
        else Some((RingState(vals, true, r.tied), merged))
      else Some((RingState(vals, false, |vals| == 1), merged))
  }

  /** `for _ in range(merge_rounds): if ring_length >= 8: ring_length -= merge_points(...)`. */
  function MergeRounds(r: RingState, length: int, rounds: nat, close: Close): Option<(RingState, int)>
    decreases rounds
  {
    if rounds == 0 then Some((r, length))
    else if length >= 8 then
      match MergeRound(r, close)
      case None => None
      case Some((r', merged)) => MergeRounds(r', length - merged, rounds - 1, close)
    else MergeRounds(r, length, rounds - 1, close)
  }

  /** Reference definition: the pairwise merge on the list of points alone. */
  function MergePairs(vs: seq<Pt>, close: Close): Option<seq<Pt>>
  {
    if |vs| < 2 then Some(vs)
    else if |vs[0]| != |vs[1]| then None
    else if close(vs[0], vs[1]) then
      if |vs[0]| < 2 || |vs[1]| < 2 then None
      else match MergePairs(vs[2..], close)
        case None => None
        case Some(t) => Some([Mid(vs[0], vs[1])] + t)
    else match MergePairs(vs[1..], close)
      case None => None
      case Some(t) => Some([vs[0]] + t)
  }

  /** What one pairwise merge keeps: at least half the points (the pairs are
      disjoint), the first point or the midpoint of the first pair, and the
      first point untouched when its successor is not close. */
  lemma {:induction false} MergePairsShape(vs: seq<Pt>, close: Close)
    requires MergePairs(vs, close).Some?
    ensures var t := MergePairs(vs, close).value;
      |vs| - |vs| / 2 <= |t| <= |vs|
      && (|vs| >= 1 ==> |t| >= 1)
      && (|vs| >= 2 && !close(vs[0], vs[1]) ==> t[0] == vs[0])
      && (|vs| >= 2 && close(vs[0], vs[1]) ==> t[0] == Mid(vs[0], vs[1]))
  {
    if |vs| >= 2 && |vs[0]| == |vs[1]| {
      if close(vs[0], vs[1]) {
        MergePairsShape(vs[2..], close);
      } else {
        MergePairsShape(vs[1..], close);
      }
    }
  }

  /** The points a scan leaves linked, or `None` when it fails. */
  function ScanPoints(store: seq<Pt>, i: nat, kept: seq<nat>, tied: bool, close: Close): Option<seq<Pt>>
    requires i <= |store| && Below(kept, i) && Increasing(kept)
  {
    match ScanFrom(store, i, kept, tied, close)
    case None => None
    case Some(sc) => Some(Pick(sc.store, sc.kept))
  }

  function Prefixed(prefix: seq<Pt>, o: Option<seq<Pt>>): Option<seq<Pt>>
  {
    match o
    case None => None
    case Some(t) => Some(prefix + t)
  }

  lemma PrefixedAppend(a: seq<Pt>, b: seq<Pt>, o: Option<seq<Pt>>)
    ensures Prefixed(a, Prefixed(b, o)) == Prefixed(a + b, o)
  {
    match o
    case None =>
    case Some(t) => assert a + (b + t) == (a + b) + t;
  }

  /** Past the head (or with no shared list) the node scan is the pairwise
      merge of the points not yet visited. */
  lemma {:induction false} ScanFromIsMergePairs(store: seq<Pt>, i: nat, kept: seq<nat>, tied: bool, close: Close)
    requires i <= |store| && Below(kept, i) && Increasing(kept)
    requires tied ==> i >= 1
    ensures ScanPoints(store, i, kept, tied, close) == Prefixed(Pick(store, kept), MergePairs(store[i..], close))
    decreases |store| - i
  {
    var rest := store[i..];
    if i == |store| {
      assert rest == [];
      assert ScanFrom(store, i, kept, tied, close) == Some(Scan(store, kept));
      assert Pick(store, kept) + [] == Pick(store, kept);
    } else if i + 1 < |store| && |store[i]| != |store[i + 1]| {
      assert store[i..][0] == store[i] && store[i..][1] == store[i + 1];
      assert ScanFrom(store, i, kept, tied, close) == None;
    } else if i + 1 < |store| && close(store[i], store[i + 1]) {
      MergeStep(store, i, kept, tied, close);
    } else {
      KeepStep(store, i, kept, tied, close);
    }
  }

  lemma {:induction false} MergeStep(store: seq<Pt>, i: nat, kept: seq<nat>, tied: bool, close: Close)
    requires i + 1 < |store| && Below(kept, i) && Increasing(kept)
    requires tied ==> i >= 1
    requires |store[i]| == |store[i + 1]| && close(store[i], store[i + 1])
    ensures ScanPoints(store, i, kept, tied, close) == Prefixed(Pick(store, kept), MergePairs(store[i..], close))
    decreases |store| - i, 0
  {
    var rest := store[i..];
    assert rest[0] == store[i] && rest[1] == store[i + 1];
    if |store[i]| >= 2 && |store[i + 1]| >= 2 {
      var m := Mid(store[i], store[i + 1]);
      var s2 := store[i := m];
      assert ScanFrom(store, i, kept, tied, close) == ScanFrom(s2, i + 2, kept + [i], tied, close);
      assert s2[i + 2..] == rest[2..];
      ScanFromIsMergePairs(s2, i + 2, kept + [i], tied, close);
      assert Pick(s2, kept + [i]) == Pick(store, kept) + [m];
      assert MergePairs(rest, close) == Prefixed([m], MergePairs(rest[2..], close));
      PrefixedAppend(Pick(store, kept), [m], MergePairs(rest[2..], close));
    } else {
      assert ScanFrom(store, i, kept, tied, close) == None;
      assert MergePairs(rest, close) == None;
    }
  }

  lemma {:induction false} KeepStep(store: seq<Pt>, i: nat, kept: seq<nat>, tied: bool, close: Close)
    requires i < |store| && Below(kept, i) && Increasing(kept)
    requires tied ==> i >= 1
    requires i + 1 < |store| ==> |store[i]| == |store[i + 1]| && !close(store[i], store[i + 1])
    ensures ScanPoints(store, i, kept, tied, close) == Prefixed(Pick(store, kept), MergePairs(store[i..], close))
    decreases |store| - i, 0
  {
    var rest := store[i..];
    assert ScanFrom(store, i, kept, tied, close) == ScanFrom(store, i + 1, kept + [i], tied, close);
    assert rest[1..] == store[i + 1..];
    ScanFromIsMergePairs(store, i + 1, kept + [i], tied, close);
    assert Pick(store, kept + [i]) == Pick(store, kept) + [store[i]];
    if |rest| < 2 {
      assert MergePairs(rest, close) == Some(rest);
      assert store[i + 1..] == [];
      assert MergePairs(store[i + 1..], close) == Some([]);
      assert rest == [store[i]];
    } else {
      assert MergePairs(rest, close) == Prefixed([store[i]], MergePairs(rest[1..], close));
      PrefixedAppend(Pick(store, kept), [store[i]], MergePairs(rest[1..], close));
    }
  }

  /** With no shared list, one call of `merge_points` leaves exactly the
      pairwise merge of the ring's points. */
  lemma UntiedScan(vs: seq<Pt>, close: Close)
    ensures ScanPoints(vs, 0, [], false, close) == MergePairs(vs, close)
  {
    ScanFromIsMergePairs(vs, 0, [], false, close);
    assert vs[0..] == vs;
    assert Pick(vs, []) == [];
    match MergePairs(vs, close)
    case None =>
    case Some(t) => assert [] + t == t;
  }

  /** With the head's list shared by the last node (three nodes or more), the
      scan sees the last node already holding the head's new value: it is the
      pairwise merge of the ring with its last point replaced. */
  lemma TiedScan(vs: seq<Pt>, close: Close)
    requires |vs| >= 3 && vs[0] == vs[|vs| - 1] && |vs[0]| == |vs[1]|
    requires close(vs[0], vs[1]) ==> |vs[0]| >= 2 && |vs[1]| >= 2
    ensures var head := if close(vs[0], vs[1]) then Mid(vs[0], vs[1]) else vs[0];
      ScanPoints(vs, 0, [], true, close) == MergePairs(vs[|vs| - 1 := head], close)
  {
    if close(vs[0], vs[1]) {
      TiedScanMerged(vs, close);
    } else {
      TiedScanKept(vs, close);
      assert vs[|vs| - 1 := vs[0]] == vs;
    }
  }

  lemma TiedScanMerged(vs: seq<Pt>, close: Close)
    requires |vs| >= 3 && vs[0] == vs[|vs| - 1] && |vs[0]| == |vs[1]| >= 2
    requires close(vs[0], vs[1])
    ensures ScanPoints(vs, 0, [], true, close) == MergePairs(vs[|vs| - 1 := Mid(vs[0], vs[1])], close)
  {
    var n := |vs|;
    var head := Mid(vs[0], vs[1]);
    var seen := vs[n - 1 := head];
    var s2 := vs[0 := head][n - 1 := head];
    assert [] + [0] == [0];
    assert ScanFrom(vs, 0, [], true, close) == ScanFrom(s2, 2, [0], true, close);
    ScanFromIsMergePairs(s2, 2, [0], true, close);
    assert s2[2..] == seen[2..];
    assert Pick(s2, [0]) == [head];
    assert seen[0] == vs[0] && seen[1] == vs[1];
    assert MergePairs(seen, close) == Prefixed([head], MergePairs(seen[2..], close));
  }

  lemma TiedScanKept(vs: seq<Pt>, close: Close)
    requires |vs| >= 3 && vs[0] == vs[|vs| - 1] && |vs[0]| == |vs[1]|
    requires !close(vs[0], vs[1])
    ensures ScanPoints(vs, 0, [], true, close) == MergePairs(vs, close)
  {
    assert [] + [0] == [0];
    assert ScanFrom(vs, 0, [], true, close) == ScanFrom(vs, 1, [0], true, close);
    ScanFromIsMergePairs(vs, 1, [0], true, close);
    assert Pick(vs, [0]) == [vs[0]];
    assert MergePairs(vs, close) == Prefixed([vs[0]], MergePairs(vs[1..], close));
  }

  /** `merge_points` returns the number of nodes it unlinked, at most half of
      them; the head stays; when `ring_end` is still the last node afterwards
      it holds the head's list. */
  lemma MergeRoundFacts(r: RingState, close: Close)
    requires |r.values| >= 1 && MergeRound(r, close).Some?
    ensures var (r', merged) := MergeRound(r, close).value;
      |r'.values| == |r.values| - merged
      && 2 * merged <= |r.values|
      && |r'.values| >= 1
      && (r'.endLinked ==> r'.values[0] == r'.values[|r'.values| - 1])
      && (r'.endLinked ==> r.endLinked)
  {
    var sc := ScanFrom(r.values, 0, [], r.tied, close).value;
    assert sc.kept[0] == 0;
  }

  /** A ring whose state is coherent stays coherent through a call. */
  lemma MergeRoundCoherent(r: RingState, close: Close)
    requires Coherent(r) && |r.values| >= 1 && MergeRound(r, close).Some?
    ensures Coherent(MergeRound(r, close).value.0)
  {
    MergeRoundFacts(r, close);
  }

  /** The head is never unlinked, and a head whose successor is not close
      keeps its own point. */
  lemma MergeRoundHead(r: RingState, close: Close)
    requires |r.values| >= 2 && MergeRound(r, close).Some?
    ensures var (r', _) := MergeRound(r, close).value;
      r'.values[0] == if close(r.values[0], r.values[1]) then Mid(r.values[0], r.values[1]) else r.values[0]
  {
    ScanHead(r.values, r.tied, close);
    var sc := ScanFrom(r.values, 0, [], r.tied, close).value;
    assert Pick(sc.store, sc.kept)[0] == sc.store[0];
  }

  lemma {:induction false} ScanHead(vs: seq<Pt>, tied: bool, close: Close)
    requires |vs| >= 2 && ScanFrom(vs, 0, [], tied, close).Some?
    ensures var sc := ScanFrom(vs, 0, [], tied, close).value;
      sc.kept[0] == 0
      && sc.store[0] == if close(vs[0], vs[1]) then Mid(vs[0], vs[1]) else vs[0]
  {
    ScanSameDimension(vs, 0, [], tied, close);
    assert [] + [0] == [0];
    if close(vs[0], vs[1]) {
      var m := Mid(vs[0], vs[1]);
      var s1 := vs[0 := m];
      var s2 := if tied then s1[|vs| - 1 := m] else s1;
      assert ScanFrom(vs, 0, [], tied, close) == ScanFrom(s2, 2, [0], tied, close);
      HeadUntouchedLater(s2, 2, [0], tied, close);
    } else {
      assert ScanFrom(vs, 0, [], tied, close) == ScanFrom(vs, 1, [0], tied, close);
      HeadUntouchedLater(vs, 1, [0], tied, close);
    }
  }

  /** A scan that succeeds compared points of equal dimension. */
  lemma ScanSameDimension(store: seq<Pt>, i: nat, kept: seq<nat>, tied: bool, close: Close)
    requires i + 1 < |store| && Below(kept, i) && Increasing(kept)
    requires ScanFrom(store, i, kept, tied, close).Some?
    ensures |store[i]| == |store[i + 1]|
  {
  }

  /** Once the scan has left the head, the head's slot is never rewritten. */
  lemma {:induction false} HeadUntouchedLater(store: seq<Pt>, i: nat, kept: seq<nat>, tied: bool, close: Close)
    requires 1 <= i <= |store| && Below(kept, i) && Increasing(kept) && |kept| >= 1 && kept[0] == 0
    requires ScanFrom(store, i, kept, tied, close).Some?
    ensures var sc := ScanFrom(store, i, kept, tied, close).value;
      sc.store[0] == store[0] && sc.kept[0] == 0
    decreases |store| - i
  {
    if i < |store| {
      var kept' := kept + [i];
      ExtendKept(kept, i);
      if i + 1 < |store| && |store[i]| != |store[i + 1]| {
      } else if i + 1 < |store| && close(store[i], store[i + 1]) {
        var s1 := store[i := Mid(store[i], store[i + 1])];
        assert ScanFrom(store, i, kept, tied, close) == ScanFrom(s1, i + 2, kept', tied, close);
        HeadUntouchedLater(s1, i + 2, kept', tied, close);
      } else {
        assert ScanFrom(store, i, kept, tied, close) == ScanFrom(store, i + 1, kept', tied, close);
        HeadUntouchedLater(store, i + 1, kept', tied, close);
      }
    }
  }

  /** Keeping node `i` after nodes all before it keeps the list increasing. */
  lemma ExtendKept(kept: seq<nat>, i: nat)
    requires Below(kept, i) && Increasing(kept)
    ensures Below(kept + [i], i + 1) && Below(kept + [i], i + 2) && Increasing(kept + [i])
    ensures |kept| > 0 ==> (kept + [i])[0] == kept[0]
  {
  }

  /** With fewer than eight points no round merges: the ring is written back
      with the same points. */
  lemma {:induction false} ShortRingUnchanged(r: RingState, rounds: nat, close: Close)
    requires |r.values| < 8
    ensures MergeRounds(r, |r.values|, rounds, close) == Some((r, |r.values|))
    decreases rounds
  {
    if rounds > 0 {
      ShortRingUnchanged(r, rounds - 1, close);
    }
  }

  /** The count the caller keeps is the length of the list, every round. */
  lemma {:induction false} MergeRoundsLength(r: RingState, rounds: nat, close: Close)
    requires |r.values| >= 1
    requires MergeRounds(r, |r.values|, rounds, close).Some?
    ensures var (r', length) := MergeRounds(r, |r.values|, rounds, close).value;
      length == |r'.values| >= 1 && |r'.values| <= |r.values|
    decreases rounds
  {
    if rounds > 0 && |r.values| >= 8 {
      MergeRoundFacts(r, close);
      var (r', merged) := MergeRound(r, close).value;
      MergeRoundsLength(r', rounds - 1, close);
    } else if rounds > 0 {
      MergeRoundsLength(r, rounds - 1, close);
    }
  }
}
