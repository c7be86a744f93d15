/** Flows on a directed network: net outflow of a set of nodes, cuts, and the max-flow min-cut bound. */
module FlowNetwork {

  const SOURCE: nat := 0
  const SINK: nat := 1

  /** An arc of the network; `slot` and `back` are the places of its forward and reverse entries in
      the adjacency lists of its two ends. */
  datatype Arc = Arc(from: nat, to: nat, cap: nat, slot: nat, back: nat)

  predicate Leaves(a: Arc, S: set<nat>) {
    a.from in S && a.to !in S
  }

  predicate Enters(a: Arc, S: set<nat>) {
    a.from !in S && a.to in S
  }

  function Signed(a: Arc, S: set<nat>, f: int): int {
    if Leaves(a, S) then f else if Enters(a, S) then -f else 0
  }

  /** What flow `x` carries out of `S`, less what it carries in. */
  function NetOut(arcs: seq<Arc>, x: seq<int>, S: set<nat>): int
    requires |arcs| == |x|
  {
    if |arcs| == 0 then 0
    else
      var n := |arcs| - 1;
      NetOut(arcs[..n], x[..n], S) + Signed(arcs[n], S, x[n])
  }

  /** The capacity of the cut around `S`. */
  function CutCapacity(arcs: seq<Arc>, S: set<nat>): int {
    if |arcs| == 0 then 0
    else
      var n := |arcs| - 1;
      CutCapacity(arcs[..n], S) + if Leaves(arcs[n], S) then arcs[n].cap else 0
  }

  ghost predicate Feasible(arcs: seq<Arc>, x: seq<int>) {
    |arcs| == |x| && forall k :: 0 <= k < |arcs| ==> 0 <= x[k] <= arcs[k].cap
  }

  /** Flow is conserved at every node but the two ends, and `value` leaves the source. */
  ghost predicate Conserved(arcs: seq<Arc>, x: seq<int>, value: int)
    requires |arcs| == |x|
  {
    && NetOut(arcs, x, {SOURCE}) == value
    && forall w: nat :: w != SOURCE && w != SINK ==> NetOut(arcs, x, {w}) == 0
  }

  ghost predicate IsFlow(arcs: seq<Arc>, x: seq<int>, value: int) {
    Feasible(arcs, x) && Conserved(arcs, x, value)
  }

  /** Arcs out of `S` are full and arcs into `S` are empty. */
  ghost predicate Saturated(arcs: seq<Arc>, x: seq<int>, S: set<nat>)
    requires |arcs| == |x|
  {
    && (forall k :: 0 <= k < |arcs| && Leaves(arcs[k], S) ==> x[k] == arcs[k].cap)
    && (forall k :: 0 <= k < |arcs| && Enters(arcs[k], S) ==> x[k] == 0)
  }

  predicate IsCut(S: set<nat>) {
    SOURCE in S && SINK !in S
  }

  lemma {:induction false} NetOutUpdate(arcs: seq<Arc>, x: seq<int>, S: set<nat>, k: nat, f: int)
    requires |arcs| == |x| && k < |x|
    ensures NetOut(arcs, x[k := f], S) == NetOut(arcs, x, S) + Signed(arcs[k], S, f) - Signed(arcs[k], S, x[k])
  {
    var n := |arcs| - 1;
    if k == n {
      assert x[k := f][..n] == x[..n];
    } else {
      NetOutUpdate(arcs[..n], x[..n], S, k, f);
      assert x[k := f][..n] == x[..n][k := f];
    }
  }

  lemma {:induction false} NetOutZero(arcs: seq<Arc>, x: seq<int>, S: set<nat>)
    requires |arcs| == |x| && forall k :: 0 <= k < |x| ==> x[k] == 0
    ensures NetOut(arcs, x, S) == 0
  {
    if |arcs| > 0 {
      NetOutZero(arcs[..|arcs| - 1], x[..|arcs| - 1], S);
    }
  }

  lemma {:induction false} NetOutAddNode(arcs: seq<Arc>, x: seq<int>, S: set<nat>, w: nat)
    requires |arcs| == |x| && w !in S
    ensures NetOut(arcs, x, S + {w}) == NetOut(arcs, x, S) + NetOut(arcs, x, {w})
  {
    if |arcs| > 0 {
      NetOutAddNode(arcs[..|arcs| - 1], x[..|arcs| - 1], S, w);
    }
  }

  /** What leaves any cut is what leaves the source. */
  lemma {:induction false} NetOutOfCut(arcs: seq<Arc>, x: seq<int>, value: int, S: set<nat>)
    requires |arcs| == |x| && Conserved(arcs, x, value) && IsCut(S)
    ensures NetOut(arcs, x, S) == value
    decreases |S|
  {
    if S == {SOURCE} {
    } else {
      var w :| w in S && w != SOURCE;
      NetOutOfCut(arcs, x, value, S - {w});
      NetOutAddNode(arcs, x, S - {w}, w);
      assert S - {w} + {w} == S;
    }
  }

  lemma {:induction false} NetOutAtMostCut(arcs: seq<Arc>, x: seq<int>, S: set<nat>)
    requires Feasible(arcs, x)
    ensures NetOut(arcs, x, S) <= CutCapacity(arcs, S)
    ensures Saturated(arcs, x, S) ==> NetOut(arcs, x, S) == CutCapacity(arcs, S)
  {
    if |arcs| > 0 {
      NetOutAtMostCut(arcs[..|arcs| - 1], x[..|arcs| - 1], S);
    }
  }

  /** No flow carries more than the capacity of any cut. */
  lemma FlowAtMostCut(arcs: seq<Arc>, x: seq<int>, value: int, S: set<nat>)
    requires IsFlow(arcs, x, value) && IsCut(S)
    ensures value <= CutCapacity(arcs, S)
  {
    NetOutOfCut(arcs, x, value, S);
    NetOutAtMostCut(arcs, x, S);
  }

  /** A flow that saturates a cut carries exactly its capacity, and no other flow carries more. */
  lemma SaturatedCutIsOptimal(arcs: seq<Arc>, x: seq<int>, value: int, S: set<nat>)
    requires IsFlow(arcs, x, value) && IsCut(S) && Saturated(arcs, x, S)
    ensures value == CutCapacity(arcs, S)
    ensures forall y, v :: IsFlow(arcs, y, v) ==> v <= value
  {
    NetOutOfCut(arcs, x, value, S);
    NetOutAtMostCut(arcs, x, S);
    forall y, v | IsFlow(arcs, y, v) ensures v <= value {
      FlowAtMostCut(arcs, y, v, S);
    }
  }
}
