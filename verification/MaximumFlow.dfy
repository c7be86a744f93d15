/** Every network has a maximum flow: from a flow that fills no cut one more unit can be pushed to the sink. */
module MaximumFlow {
  import opened FlowNetwork

  /** Moves from the source over arcs with room to spare, or back over arcs that carry flow. */
  datatype Trail = Here | Via(before: Trail, arc: nat, forward: bool, node: nat)

  function End(t: Trail): nat {
    if t.Here? then SOURCE else t.node
  }

  function Visited(t: Trail): set<nat> {
    if t.Here? then {SOURCE} else Visited(t.before) + {t.node}
  }

  /** The move from `u` to `v` over arc `k`, or back over it, is possible under flow `x`. */
  ghost predicate CanMove(arcs: seq<Arc>, x: seq<int>, u: nat, k: nat, forward: bool, v: nat)
    requires |arcs| == |x|
  {
    k < |arcs| &&
    if forward then arcs[k].from == u && arcs[k].to == v && x[k] < arcs[k].cap
    else arcs[k].to == u && arcs[k].from == v && x[k] > 0
  }

  /** The moves of `t` are possible and visit no node twice. */
  ghost predicate IsTrail(arcs: seq<Arc>, x: seq<int>, t: Trail)
    requires |arcs| == |x|
  {
    t.Via? ==>
      && IsTrail(arcs, x, t.before) && t.node !in Visited(t.before)
      && CanMove(arcs, x, End(t.before), t.arc, t.forward, t.node)
  }

  /** The flow after one more unit has taken the trail. */
  ghost function Pushed(arcs: seq<Arc>, x: seq<int>, t: Trail): (y: seq<int>)
    requires |arcs| == |x| && IsTrail(arcs, x, t)
    ensures |y| == |x|
  {
    if t.Here? then x
    else
      var y := Pushed(arcs, x, t.before);
      y[t.arc := if t.forward then y[t.arc] + 1 else y[t.arc] - 1]
  }

  /** An arc with an end the trail does not visit carries what it did. */
  lemma {:induction false} Untouched(arcs: seq<Arc>, x: seq<int>, t: Trail, k: nat)
    requires |arcs| == |x| && IsTrail(arcs, x, t) && k < |arcs|
    requires arcs[k].from !in Visited(t) || arcs[k].to !in Visited(t)
    ensures Pushed(arcs, x, t)[k] == x[k]
  {
    if t.Via? {
      assert End(t.before) in Visited(t.before);
      Untouched(arcs, x, t.before, k);
    }
  }

  /** A pushed unit leaves the source and ends at the end of the trail. */
  lemma {:induction false} PushedUnit(arcs: seq<Arc>, x: seq<int>, t: Trail)
    requires Feasible(arcs, x) && IsTrail(arcs, x, t) && forall k :: 0 <= k < |arcs| ==> arcs[k].from != arcs[k].to
    ensures Feasible(arcs, Pushed(arcs, x, t))
    ensures forall w: nat ::
      NetOut(arcs, Pushed(arcs, x, t), {w}) ==
        NetOut(arcs, x, {w}) + (if w == SOURCE then 1 else 0) - (if w == End(t) then 1 else 0)
  {
    if t.Via? {
      var y, z := Pushed(arcs, x, t.before), Pushed(arcs, x, t);
      PushedUnit(arcs, x, t.before);
      Untouched(arcs, x, t.before, t.arc);
      forall w: nat
        ensures NetOut(arcs, z, {w}) ==
          NetOut(arcs, y, {w}) + (if w == End(t.before) then 1 else 0) - (if w == t.node then 1 else 0)
      {
        NetOutUpdate(arcs, y, {w}, t.arc, z[t.arc]);
      }
    }
  }

  ghost function Nodes(arcs: seq<Arc>): set<nat> {
    {SOURCE} + (set a | a in arcs :: a.from) + (set a | a in arcs :: a.to)
  }

  ghost predicate Reaches(arcs: seq<Arc>, x: seq<int>, v: nat)
    requires |arcs| == |x|
  {
    exists t :: IsTrail(arcs, x, t) && End(t) == v
  }

  ghost function ReachedSet(arcs: seq<Arc>, x: seq<int>): set<nat>
    requires |arcs| == |x|
  {
    set v | v in Nodes(arcs) && Reaches(arcs, x, v)
  }

  lemma {:induction false} VisitedIsReached(arcs: seq<Arc>, x: seq<int>, t: Trail, v: nat)
    requires |arcs| == |x| && IsTrail(arcs, x, t) && v in Visited(t)
    ensures Reaches(arcs, x, v)
  {
    if End(t) != v {
      VisitedIsReached(arcs, x, t.before, v);
    }
  }

  lemma ReachedOneMore(arcs: seq<Arc>, x: seq<int>, u: nat, k: nat, forward: bool, v: nat)
    requires |arcs| == |x| && u in ReachedSet(arcs, x) && CanMove(arcs, x, u, k, forward, v)
    ensures v in ReachedSet(arcs, x)
  {
    var t :| IsTrail(arcs, x, t) && End(t) == u;
    if v in Visited(t) {
      VisitedIsReached(arcs, x, t, v);
    } else {
      assert IsTrail(arcs, x, Via(t, k, forward, v));
    }
    assert arcs[k] in arcs;
  }

  /** If the sink cannot be reached, what can be is a cut that the flow fills. */
  lemma ReachedIsSaturated(arcs: seq<Arc>, x: seq<int>)
    requires Feasible(arcs, x) && !Reaches(arcs, x, SINK)
    ensures IsCut(ReachedSet(arcs, x)) && Saturated(arcs, x, ReachedSet(arcs, x))
  {
    var S := ReachedSet(arcs, x);
    assert IsTrail(arcs, x, Here);
    forall k | 0 <= k < |arcs|
      ensures Leaves(arcs[k], S) ==> x[k] == arcs[k].cap
      ensures Enters(arcs[k], S) ==> x[k] == 0
    {
      if Leaves(arcs[k], S) && x[k] < arcs[k].cap {
        ReachedOneMore(arcs, x, arcs[k].from, k, true, arcs[k].to);
      }
      if Enters(arcs[k], S) && x[k] > 0 {
        ReachedOneMore(arcs, x, arcs[k].to, k, false, arcs[k].from);
      }
    }
  }

  /** Every network has a flow that fills a cut. */
  lemma SomeFlowFillsACut(arcs: seq<Arc>) returns (x: seq<int>, value: int, S: set<nat>)
    requires forall k :: 0 <= k < |arcs| ==> arcs[k].from != arcs[k].to
    ensures IsFlow(arcs, x, value) && IsCut(S) && Saturated(arcs, x, S)
  {
    x, value := seq(|arcs|, _ => 0), 0;
    forall W ensures NetOut(arcs, x, W) == 0 {
      NetOutZero(arcs, x, W);
    }
    FlowAtMostCut(arcs, x, value, {SOURCE});
    while Reaches(arcs, x, SINK)
      invariant IsFlow(arcs, x, value) && value <= CutCapacity(arcs, {SOURCE})
      decreases CutCapacity(arcs, {SOURCE}) - value
    {
      var t :| IsTrail(arcs, x, t) && End(t) == SINK;
      PushedUnit(arcs, x, t);
      x, value := Pushed(arcs, x, t), value + 1;
      FlowAtMostCut(arcs, x, value, {SOURCE});
    }
    ReachedIsSaturated(arcs, x);
    S := ReachedSet(arcs, x);
  }
}
