/** The ring of `polygon_reader` as the heap structure it is: `LinkedPoint`
    nodes whose `data` is a Python list object, `Coords` here. Two nodes can
    hold the same list object, so rewriting one node's point in place rewrites
    the other's. `MergePoints` is `merge_points`, proved to leave exactly the
    ring that `RingMerge.MergeRound` describes. */
module LinkedRing {
  import opened Text
  import opened RingMerge

  /** A Python list holding one point's coordinates. */
  class Coords {
    var vals: seq<real>

    constructor (vs: seq<real>)
      ensures vals == vs
    {
      vals := vs;
    }
  }

  /** `LinkedPoint`: a point list and the next node, `None` at the end. */
  class Node {
    var data: Coords
    var next: Node?

    constructor (d: Coords)
      ensures data == d && next == null
    {
      data := d;
      next := null;
    }
  }

  ghost predicate Distinct(nodes: seq<Node>)
  {
    forall j, k :: 0 <= j < k < |nodes| ==> nodes[j] != nodes[k]
  }

  /** The nodes are distinct and each one links to the next; the last links
      to nothing. */
  ghost predicate Chain(nodes: seq<Node>)
    reads nodes
  {
    Distinct(nodes)
    && (forall j :: 0 <= j < |nodes| - 1 ==> nodes[j].next == nodes[j + 1])
    && (|nodes| > 0 ==> nodes[|nodes| - 1].next == null)
  }

  ghost function Datas(nodes: seq<Node>): set<Coords>
    reads nodes
  {
    set j | 0 <= j < |nodes| :: nodes[j].data
  }

  /** The points the nodes hold, in list order. */
  ghost function Values(nodes: seq<Node>): (vs: seq<Pt>)
    reads nodes, Datas(nodes)
    ensures |vs| == |nodes|
  {
    seq(|nodes|, j requires 0 <= j < |nodes| reads nodes, Datas(nodes) => nodes[j].data.vals)
  }

  /** Every node has a list object of its own, except that with `tied` the
      head and the last node share one. */
  ghost predicate Owned(nodes: seq<Node>, tied: bool)
    reads nodes
  {
    forall j, k :: 0 <= j < k < |nodes| ==>
      (nodes[j].data == nodes[k].data <==> tied && j == 0 && k == |nodes| - 1)
  }

  /** The heap holds the ring `r`: `nodes` is the list from the head, and
      `ringEnd` is its last node exactly when `r.endLinked`. */
  ghost predicate Holds(nodes: seq<Node>, r: RingState, ringEnd: Node)
    reads nodes, Datas(nodes)
  {
    Chain(nodes) && Owned(nodes, r.tied) && Coherent(r) && Values(nodes) == r.values
    && (r.endLinked ==> |nodes| > 0 && ringEnd == nodes[|nodes| - 1])
    && (!r.endLinked ==> ringEnd !in nodes)
  }

  /** `merge_points(ring_start, ring_end)`. `ok` is false where Python raises;
      otherwise the list from the head is `spine`, it holds the ring
      `MergeRound` computes, and `merged` is the count that call returns. */
  method MergePoints(ringStart: Node, ringEnd: Node, close: Close, ghost nodes: seq<Node>, ghost r: RingState)
    returns (ok: bool, merged: int, ghost spine: seq<Node>)
    requires Holds(nodes, r, ringEnd) && |nodes| >= 1 && nodes[0] == ringStart
    modifies nodes, Datas(nodes), ringEnd
    ensures !ok ==> MergeRound(r, close).None?
    ensures ok ==> MergeRound(r, close).Some? && merged == MergeRound(r, close).value.1
    ensures ok ==> Holds(spine, MergeRound(r, close).value.0, ringEnd)
    ensures ok ==> |spine| >= 1 && spine[0] == ringStart && forall k :: 0 <= k < |spine| ==> spine[k] in nodes
    ensures ok ==> forall k :: 0 <= k < |spine| ==> spine[k].data in old(Datas(nodes))
    ensures ok ==> ringEnd.data.vals == ringStart.data.vals
  {
    ghost var ds := Datas(nodes);
    ghost var kept;
    ok, merged, kept := ScanNodes(ringStart, close, nodes, r.tied, r.values);
    if !ok {
      return ok, merged, [];
    }
    spine := EndRound(ringStart, ringEnd, close, nodes, kept, r, ds);
  }

  /** The rest of `merge_points` once its loop has finished: the kept nodes
      are the new list, and `ring_end` takes the head's list when they differ. */
  method EndRound(ringStart: Node, ringEnd: Node, close: Close, ghost nodes: seq<Node>, ghost kept: seq<nat>,
                  ghost r: RingState, ghost ds: set<Coords>)
    returns (ghost spine: seq<Node>)
    requires Distinct(nodes) && Owned(nodes, r.tied) && KeptLinked(nodes, kept) && nodes[0] == ringStart
    requires Coherent(r) && |r.values| == |nodes|
    requires ScanFrom(r.values, 0, [], r.tied, close) == Some(Scan(Values(nodes), kept))
    requires r.endLinked ==> ringEnd == nodes[|nodes| - 1]
    requires !r.endLinked ==> ringEnd !in nodes
    requires forall j :: 0 <= j < |nodes| ==> nodes[j].data in ds
    modifies ringEnd
    ensures MergeRound(r, close).Some? && MergeRound(r, close).value.1 == |nodes| - |kept|
    ensures Holds(spine, MergeRound(r, close).value.0, ringEnd)
    ensures |spine| >= 1 && spine[0] == ringStart
    ensures forall k :: 0 <= k < |spine| ==> spine[k] in nodes && spine[k].data in ds
    ensures ringEnd.data.vals == ringStart.data.vals
  {
    ghost var store := Values(nodes);
    spine := seq(|kept|, j requires 0 <= j < |kept| => nodes[kept[j]]);
    KeptSpine(nodes, kept, ringStart, ringEnd, r, ds, spine);
    ghost var vs := Values(spine);
    ghost var last := kept[|kept| - 1];
    ghost var linkedEnd := r.endLinked && last == |nodes| - 1;
    TieEnd(ringStart, ringEnd, spine, linkedEnd, r.tied && last == |nodes| - 1, ds);
    RoundHolds(spine, ringEnd, r, close, store, kept, vs, linkedEnd);
  }

  /** The kept nodes, in order, as the list `merge_points` leaves behind. */
  lemma KeptSpine(nodes: seq<Node>, kept: seq<nat>, ringStart: Node, ringEnd: Node, r: RingState,
                  ds: set<Coords>, spine: seq<Node>)
    requires Distinct(nodes) && Owned(nodes, r.tied) && KeptLinked(nodes, kept) && nodes[0] == ringStart
    requires r.endLinked ==> ringEnd == nodes[|nodes| - 1]
    requires !r.endLinked ==> ringEnd !in nodes
    requires forall j :: 0 <= j < |nodes| ==> nodes[j].data in ds
    requires spine == seq(|kept|, j requires 0 <= j < |kept| => nodes[kept[j]])
    ensures var linkedEnd := r.endLinked && kept[|kept| - 1] == |nodes| - 1;
      (linkedEnd ==> ringEnd == spine[|spine| - 1]) && (!linkedEnd ==> ringEnd !in spine)
    ensures Chain(spine) && |spine| >= 1 && spine[0] == ringStart
    ensures Values(spine) == Pick(Values(nodes), kept) && Owned(spine, r.tied && kept[|kept| - 1] == |nodes| - 1)
    ensures forall k :: 0 <= k < |spine| ==> spine[k] in nodes && spine[k].data in ds
  {
    SpineOf(nodes, kept, r.tied);
    if !(r.endLinked && kept[|kept| - 1] == |nodes| - 1) {
      Unkept(nodes, kept, ringEnd);
    }
    forall k | 0 <= k < |spine| ensures spine[k] in nodes && spine[k].data in ds {
      assert spine[k] == nodes[kept[k]];
    }
  }

  /** The ring `polygon_reader` has read so far: `spine` is the list from
      `ringStart` to `ringEnd`, every node with a list of its own. */
  ghost predicate RingHeld(spine: seq<Node>, ringStart: Node?, ringEnd: Node?)
    reads spine, Datas(spine)
  {
    if |spine| == 0 then ringStart == null && ringEnd == null
    else
      ringStart == spine[0] && ringEnd == spine[|spine| - 1]
      && Holds(spine, InitialRing(Values(spine)), spine[|spine| - 1])
  }

  /** A finished point of `polygon_reader`: a node holding a copy of the point
      buffer becomes the head of an empty ring or is linked after `ring_end`. */
  method AppendPoint(ringStart: Node?, ringEnd: Node?, vals: seq<real>, ghost spine: seq<Node>)
    returns (start: Node, end: Node, ghost spine': seq<Node>)
    requires RingHeld(spine, ringStart, ringEnd)
    modifies ringEnd
    ensures ringEnd != null ==> ringEnd.data == old(ringEnd.data)
    ensures fresh(end) && fresh(end.data) && spine' == spine + [end]
    ensures RingHeld(spine', start, end)
    ensures Values(spine') == old(Values(spine)) + [vals]
  {
    ghost var before := Values(spine);
    var data := new Coords(vals);
    var node := new Node(data);
    if ringEnd == null {
      start, end := node, node;
    } else {
      ringEnd.next := node;
      start, end := ringStart, node;
    }
    spine' := spine + [node];
    assert forall j :: 0 <= j < |spine| ==> spine[j].data == old(spine[j].data);
    assert forall j :: 0 <= j < |spine| - 1 ==> spine[j].next == spine[j + 1];
    ValuesOf(spine', before + [vals]);
    HeldAfterAppend(spine, node);
  }

  /** A fresh last node with a list of its own extends a ring that is held. */
  lemma HeldAfterAppend(spine: seq<Node>, node: Node)
    requires |spine| > 0 ==> spine[|spine| - 1].next == node
    requires Distinct(spine) && Owned(spine, false)
    requires forall j :: 0 <= j < |spine| - 1 ==> spine[j].next == spine[j + 1]
    requires node !in spine && node.next == null && node.data !in Datas(spine)
    ensures RingHeld(spine + [node], if |spine| == 0 then node else spine[0], node)
  {
    var s := spine + [node];
    assert forall j :: 0 <= j < |spine| ==> s[j] == spine[j] && s[j].data in Datas(spine);
  }

  /** The heap after the scan and the end tie holds the ring `MergeRound`
      computes. */
  lemma RoundHolds(spine: seq<Node>, ringEnd: Node, r: RingState, close: Close,
                   store: seq<Pt>, kept: seq<nat>, vs: seq<Pt>, linkedEnd: bool)
    requires Coherent(r) && |r.values| >= 1
    requires ScanFrom(r.values, 0, [], r.tied, close) == Some(Scan(store, kept))
    requires vs == Pick(store, kept) && linkedEnd == (r.endLinked && kept[|kept| - 1] == |r.values| - 1)
    requires Chain(spine) && |spine| == |vs|
    requires linkedEnd ==> ringEnd == spine[|spine| - 1]
    requires !linkedEnd ==> ringEnd !in spine
    requires if linkedEnd && vs[0] != vs[|vs| - 1] then Values(spine) == vs[|vs| - 1 := vs[0]] && Owned(spine, true)
      else Values(spine) == vs && Owned(spine, r.tied && kept[|kept| - 1] == |r.values| - 1)
    ensures MergeRound(r, close).Some? && MergeRound(r, close).value.1 == |r.values| - |kept|
    ensures Holds(spine, MergeRound(r, close).value.0, ringEnd)
  {
    MergeRoundFacts(r, close);
    MergeRoundCoherent(r, close);
  }

  /** A node that is not in the list, or the last node once it is unlinked,
      is not among the kept nodes. */
  lemma Unkept(nodes: seq<Node>, kept: seq<nat>, e: Node)
    requires Distinct(nodes) && KeptLinked(nodes, kept)
    requires e !in nodes || (e == nodes[|nodes| - 1] && kept[|kept| - 1] != |nodes| - 1)
    ensures e !in seq(|kept|, j requires 0 <= j < |kept| => nodes[kept[j]])
  {
    var spine := seq(|kept|, j requires 0 <= j < |kept| => nodes[kept[j]]);
    forall k | 0 <= k < |kept|
      ensures spine[k] != e
    {
      if e in nodes {
        assert kept[k] <= kept[|kept| - 1] < |nodes| - 1;
      }
    }
  }

  /** The end of `merge_points`: when the head's list and `ring_end`'s list
      differ, `ring_end` takes the head's list object, so that afterwards the
      two hold the same point, whether `ring_end` is still linked or not. */
  method TieEnd(ringStart: Node, ringEnd: Node, ghost spine: seq<Node>, ghost linkedEnd: bool, ghost tied: bool,
                ghost ds: set<Coords>)
    requires Chain(spine) && Owned(spine, tied) && |spine| >= 1 && spine[0] == ringStart
    requires linkedEnd ==> ringEnd == spine[|spine| - 1]
    requires !linkedEnd ==> ringEnd !in spine
    requires forall k :: 0 <= k < |spine| ==> spine[k].data in ds
    modifies ringEnd
    ensures Chain(spine) && forall k :: 0 <= k < |spine| ==> spine[k].data in ds
    ensures ringEnd.data == old(ringEnd.data) || ringEnd.data == old(ringStart.data)
    ensures ringEnd.data.vals == ringStart.data.vals
    ensures var vs := old(Values(spine));
      if linkedEnd && vs[0] != vs[|vs| - 1] then Values(spine) == vs[|vs| - 1 := vs[0]] && Owned(spine, true)
      else Values(spine) == vs && Owned(spine, tied)
  {
    ghost var vs := Values(spine);
    if ringStart.data.vals != ringEnd.data.vals {
      ringEnd.data := ringStart.data;
      if linkedEnd {
        ValuesOf(spine, vs[|vs| - 1 := vs[0]]);
      } else {
        ValuesOf(spine, vs);
      }
    }
  }

  /** Kept nodes of `nodes`, in order, linked one to the next. */
  ghost predicate KeptLinked(nodes: seq<Node>, kept: seq<nat>)
    reads nodes
  {
    Below(kept, |nodes|) && Increasing(kept) && |kept| >= 1 && kept[0] == 0
    && (forall j :: 0 <= j < |kept| - 1 ==> nodes[kept[j]].next == nodes[kept[j + 1]])
    && nodes[kept[|kept| - 1]].next == null
  }

  /** Where the walk of `merge_points` stands: `point` is node `i`, the nodes
      from `i` on are still linked as they were, and the kept nodes before it
      are linked one to the next and then to `point`. */
  ghost predicate Walk(nodes: seq<Node>, i: nat, kept: seq<nat>, point: Node?)
    reads nodes
  {
    i <= |nodes| && Below(kept, i) && Increasing(kept)
    && point == (if i < |nodes| then nodes[i] else null)
    && (forall j :: i <= j < |nodes| - 1 ==> nodes[j].next == nodes[j + 1])
    && (i < |nodes| ==> nodes[|nodes| - 1].next == null)
    && (forall j :: 0 <= j < |kept| - 1 ==> nodes[kept[j]].next == nodes[kept[j + 1]])
    && (|kept| > 0 ==> nodes[kept[|kept| - 1]].next == point)
    && (i > 0 ==> |kept| > 0 && kept[0] == 0)
  }

  lemma WalkKeep(nodes: seq<Node>, i: nat, kept: seq<nat>, point: Node)
    requires Walk(nodes, i, kept, point) && i < |nodes|
    ensures Walk(nodes, i + 1, kept + [i], point.next)
  {
  }

  /** The merge of node `i` with its successor: the midpoint is written into
      node `i`'s list in place, and the successor is unlinked. */
  method MergeWithNext(point: Node, ghost nodes: seq<Node>, ghost i: nat, ghost kept: seq<nat>, ghost tied: bool)
    requires Distinct(nodes) && Owned(nodes, tied) && Walk(nodes, i, kept, point) && i + 1 < |nodes|
    requires point.next != null && |point.data.vals| >= 2 && |point.next.data.vals| >= 2
    modifies point, point.data
    ensures forall j :: 0 <= j < |nodes| ==> nodes[j].data == old(nodes[j].data)
    ensures Walk(nodes, i + 2, kept + [i], point.next)
    ensures var m := Mid(old(Values(nodes))[i], old(Values(nodes))[i + 1]);
      var s1 := old(Values(nodes))[i := m];
      Values(nodes) == if tied && i == 0 then s1[|nodes| - 1 := m] else s1
  {
    ghost var before := Values(nodes);
    assert point.next == nodes[i + 1];
    var x := (point.data.vals[0] + point.next.data.vals[0]) / 2.0;
    var y := (point.data.vals[1] + point.next.data.vals[1]) / 2.0;
    point.data.vals := [x, y];
    MidRewrites(nodes, before, i, Mid(before[i], before[i + 1]), tied);
    ghost var after := Values(nodes);
    Unlink(point, nodes, i, kept);
    ValuesOf(nodes, after);
  }

  /** `point.next = point.next.next`: the successor of node `i` leaves the list. */
  method Unlink(point: Node, ghost nodes: seq<Node>, ghost i: nat, ghost kept: seq<nat>)
    requires Distinct(nodes) && Walk(nodes, i, kept, point) && i + 1 < |nodes| && point.next != null
    modifies point
    ensures point.data == old(point.data) && point.next == old(point.next.next)
    ensures forall j :: 0 <= j < |nodes| ==> nodes[j].data == old(nodes[j].data)
    ensures Walk(nodes, i + 2, kept + [i], point.next)
  {
    assert forall j :: 0 <= j < |kept| ==> nodes[kept[j]] != point by {
      forall j | 0 <= j < |kept| ensures nodes[kept[j]] != point {
        assert kept[j] < i;
      }
    }
    assert point.next == nodes[i + 1];
    assert point.next.next == if i + 2 < |nodes| then nodes[i + 2] else null;
    point.next := point.next.next;
  }

  /** The loop of `merge_points`: walks the list from the head, merging each
      node with a close successor. */
  method ScanNodes(ringStart: Node, close: Close, ghost nodes: seq<Node>, ghost tied: bool, ghost store0: seq<Pt>)
    returns (ok: bool, merged: int, ghost kept: seq<nat>)
    requires Chain(nodes) && Owned(nodes, tied) && |nodes| >= 1 && nodes[0] == ringStart
    requires store0 == Values(nodes)
    modifies nodes, Datas(nodes)
    ensures forall j :: 0 <= j < |nodes| ==> nodes[j].data == old(nodes[j].data)
    ensures !ok ==> ScanFrom(store0, 0, [], tied, close).None?
    ensures ok ==> ScanFrom(store0, 0, [], tied, close) == Some(Scan(Values(nodes), kept))
    ensures ok ==> KeptLinked(nodes, kept) && merged == |nodes| - |kept|
  {
    ghost var result := ScanFrom(store0, 0, [], tied, close);
    var point: Node? := ringStart;
    merged := 0;
    ghost var i := 0;
    kept := [];
    while point != null
      invariant Walk(nodes, i, kept, point)
      invariant forall j :: 0 <= j < |nodes| ==> nodes[j].data == old(nodes[j].data)
      invariant Owned(nodes, tied)
      invariant merged == i - |kept|
      invariant result == ScanFrom(Values(nodes), i, kept, tied, close)
      decreases |nodes| - i
    {
      var stepOk, step, i', kept' := ScanNode(point, close, nodes, tied, i, kept);
      if !stepOk {
        return false, merged, kept;
      }
      merged, i, kept := merged + step, i', kept';
      point := point.next;
    }
    ok := true;
  }

  /** One turn of the loop of `merge_points` at node `i`: merge it with a close
      successor, or move on. */
  method ScanNode(point: Node, close: Close, ghost nodes: seq<Node>, ghost tied: bool, ghost i: nat, ghost kept: seq<nat>)
    returns (ok: bool, step: int, ghost i': nat, ghost kept': seq<nat>)
    requires Distinct(nodes) && Owned(nodes, tied) && Walk(nodes, i, kept, point)
    modifies nodes, Datas(nodes)
    ensures forall j :: 0 <= j < |nodes| ==> nodes[j].data == old(nodes[j].data)
    ensures !ok ==> ScanFrom(old(Values(nodes)), i, kept, tied, close).None?
    ensures ok ==> i < i' && Walk(nodes, i', kept', point.next) && step == (i' - |kept'|) - (i - |kept|)
    ensures ok ==> ScanFrom(old(Values(nodes)), i, kept, tied, close) == ScanFrom(Values(nodes), i', kept', tied, close)
  {
    ghost var store := Values(nodes);
    WalkAt(nodes, i, kept, point);
    var succ := point.next;
    if succ != null && (|point.data.vals| != |succ.data.vals|
                        || (close(point.data.vals, succ.data.vals) && (|point.data.vals| < 2 || |succ.data.vals| < 2))) {
      ScanFails(store, i, kept, tied, close);
      return false, 0, i, kept;
    }
    ok := true;
    step, i', kept' := Advance(point, close, nodes, tied, i, kept);
  }

  /** Node `i` can be scanned: it absorbs a close successor or is kept. */
  method Advance(point: Node, close: Close, ghost nodes: seq<Node>, ghost tied: bool, ghost i: nat, ghost kept: seq<nat>)
    returns (step: int, ghost i': nat, ghost kept': seq<nat>)
    requires Distinct(nodes) && Owned(nodes, tied) && Walk(nodes, i, kept, point)
    requires i < |nodes| && point.next != null ==>
      i + 1 < |nodes| && point.next == nodes[i + 1] && |point.data.vals| == |point.next.data.vals|
      && (close(point.data.vals, point.next.data.vals) ==> |point.data.vals| >= 2 && |point.next.data.vals| >= 2)
    modifies nodes, Datas(nodes)
    ensures forall j :: 0 <= j < |nodes| ==> nodes[j].data == old(nodes[j].data)
    ensures i < i' && Walk(nodes, i', kept', point.next) && step == (i' - |kept'|) - (i - |kept|)
    ensures ScanFrom(old(Values(nodes)), i, kept, tied, close) == ScanFrom(Values(nodes), i', kept', tied, close)
  {
    var succ := point.next;
    if succ != null && close(point.data.vals, succ.data.vals) {
      step, i', kept' := MergeNode(point, close, nodes, tied, i, kept);
    } else {
      step, i', kept' := KeepNode(point, close, nodes, tied, i, kept);
    }
  }

  /** The node the walk stands at, and its successor, in the list order. */
  lemma WalkAt(nodes: seq<Node>, i: nat, kept: seq<nat>, point: Node)
    requires Walk(nodes, i, kept, point)
    ensures i < |nodes| && Values(nodes)[i] == point.data.vals
    ensures point.next != null ==>
      i + 1 < |nodes| && point.next == nodes[i + 1] && Values(nodes)[i + 1] == point.next.data.vals
  {
  }

  /** Node `i` is kept: the walk moves to its successor. */
  method KeepNode(point: Node, close: Close, ghost nodes: seq<Node>, ghost tied: bool, ghost i: nat, ghost kept: seq<nat>)
    returns (step: int, ghost i': nat, ghost kept': seq<nat>)
    requires Walk(nodes, i, kept, point)
    requires point.next != null ==>
      i + 1 < |nodes| && |nodes[i].data.vals| == |nodes[i + 1].data.vals| && !close(nodes[i].data.vals, nodes[i + 1].data.vals)
    ensures forall j :: 0 <= j < |nodes| ==> nodes[j].data == old(nodes[j].data)
    ensures i < i' && Walk(nodes, i', kept', point.next) && step == (i' - |kept'|) - (i - |kept|)
    ensures ScanFrom(old(Values(nodes)), i, kept, tied, close) == ScanFrom(Values(nodes), i', kept', tied, close)
  {
    step, i', kept' := 0, i + 1, kept + [i];
    ScanKeepStep(Values(nodes), i, kept, tied, close);
    WalkKeep(nodes, i, kept, point);
  }

  /** Node `i` absorbs its close successor, which leaves the list. */
  method MergeNode(point: Node, close: Close, ghost nodes: seq<Node>, ghost tied: bool, ghost i: nat, ghost kept: seq<nat>)
    returns (step: int, ghost i': nat, ghost kept': seq<nat>)
    requires Distinct(nodes) && Owned(nodes, tied) && Walk(nodes, i, kept, point) && i + 1 < |nodes|
    requires point.next == nodes[i + 1] && |point.data.vals| == |point.next.data.vals| >= 2
    requires close(point.data.vals, point.next.data.vals)
    modifies nodes, Datas(nodes)
    ensures forall j :: 0 <= j < |nodes| ==> nodes[j].data == old(nodes[j].data)
    ensures i < i' && Walk(nodes, i', kept', point.next) && step == (i' - |kept'|) - (i - |kept|)
    ensures ScanFrom(old(Values(nodes)), i, kept, tied, close) == ScanFrom(Values(nodes), i', kept', tied, close)
  {
    step, i', kept' := 1, i + 2, kept + [i];
    ghost var store := Values(nodes);
    ghost var m := Mid(store[i], store[i + 1]);
    ghost var s1 := store[i := m];
    ghost var s2 := if tied && i == 0 then s1[|store| - 1 := m] else s1;
    ScanMergeStep(store, i, kept, tied, close);
    ExtendKept(kept, i);
    assert ScanFrom(store, i, kept, tied, close) == ScanFrom(s2, i + 2, kept + [i], tied, close);
    MergeWithNext(point, nodes, i, kept, tied);
    assert Values(nodes) == s2;
  }

  /** The kept nodes form a list whose points are the kept points. */
  lemma SpineOf(nodes: seq<Node>, kept: seq<nat>, tied: bool)
    requires Distinct(nodes) && Owned(nodes, tied) && KeptLinked(nodes, kept)
    ensures var spine := seq(|kept|, j requires 0 <= j < |kept| => nodes[kept[j]]);
      Chain(spine) && Values(spine) == Pick(Values(nodes), kept)
      && Owned(spine, tied && kept[|kept| - 1] == |nodes| - 1)
  {
  }

  lemma ScanMergeStep(store: seq<Pt>, i: nat, kept: seq<nat>, tied: bool, close: Close)
    requires i + 1 < |store| && Below(kept, i) && Increasing(kept)
    requires |store[i]| == |store[i + 1]| >= 2 && close(store[i], store[i + 1])
    ensures var m := Mid(store[i], store[i + 1]);
      var s1 := store[i := m];
      ScanFrom(store, i, kept, tied, close)
      == ScanFrom(if tied && i == 0 then s1[|store| - 1 := m] else s1, i + 2, kept + [i], tied, close)
  {
  }

  lemma ScanFails(store: seq<Pt>, i: nat, kept: seq<nat>, tied: bool, close: Close)
    requires i + 1 < |store| && Below(kept, i) && Increasing(kept)
    requires |store[i]| != |store[i + 1]| || (close(store[i], store[i + 1]) && (|store[i]| < 2 || |store[i + 1]| < 2))
    ensures ScanFrom(store, i, kept, tied, close) == None
  {
  }

  lemma ScanKeepStep(store: seq<Pt>, i: nat, kept: seq<nat>, tied: bool, close: Close)
    requires i < |store| && Below(kept, i) && Increasing(kept)
    requires i + 1 < |store| ==> |store[i]| == |store[i + 1]| && !close(store[i], store[i + 1])
    ensures ScanFrom(store, i, kept, tied, close) == ScanFrom(store, i + 1, kept + [i], tied, close)
  {
  }

  lemma ValuesOf(nodes: seq<Node>, vs: seq<Pt>)
    requires |vs| == |nodes| && forall j :: 0 <= j < |nodes| ==> nodes[j].data.vals == vs[j]
    ensures Values(nodes) == vs
  {
  }

  /** Rewriting the list of node `i` in place rewrites every node sharing it. */
  lemma MidRewrites(nodes: seq<Node>, before: seq<Pt>, i: nat, m: Pt, tied: bool)
    requires i + 1 < |nodes| && Owned(nodes, tied) && |before| == |nodes|
    requires nodes[i].data.vals == m
    requires forall j :: 0 <= j < |nodes| && nodes[j].data != nodes[i].data ==> nodes[j].data.vals == before[j]
    ensures Values(nodes) == if tied && i == 0 then before[i := m][|nodes| - 1 := m] else before[i := m]
  {
  }
}
