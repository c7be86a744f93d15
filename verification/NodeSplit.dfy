/** The node-split flow network of a filtered signing graph, and why its maximum flow counts paths that
    share no intermediate key. */
module NodeSplit {
  import opened SigningGraph
  import opened IndexedSums
  import opened FlowNetwork
  import opened FlowPaths

  /** The ends, the intermediate keys in the order they are numbered, and their numbers. */
  datatype Numbering = Numbering(root: Fp, target: Fp, inter: seq<Fp>, index: map<Fp, nat>) {
    ghost predicate Valid() {
      && root != target && root !in index && target !in index
      && (forall i :: 0 <= i < |inter| ==> inter[i] in index && index[inter[i]] == i)
      && (forall v :: v in index ==> index[v] < |inter| && inter[index[v]] == v)
    }

    predicate IsTail(v: Fp) { v == root || v in index }

    predicate IsHead(v: Fp) { v == target || v in index }

    function InNode(v: Fp): (n: nat)
      requires IsHead(v)
    {
      if v == target then SINK else 2 + 2 * index[v]
    }

    function OutNode(v: Fp): (n: nat)
      requires IsTail(v)
    {
      if v == root then SOURCE else 3 + 2 * index[v]
    }

    /** The capacity the code uses for an edge of the signing graph. */
    function Inf(): nat { |inter| + 2 }

    ghost predicate IsSplit(a: Arc, v: Fp) {
      v in index && a.from == OutNode(v) - 1 && a.to == OutNode(v) && a.cap == 1
    }

    ghost predicate IsCross(a: Arc, u: Fp, v: Fp) {
      IsTail(u) && IsHead(v) && a.from == OutNode(u) && a.to == InNode(v) && a.cap == Inf()
    }

    ghost predicate Known(a: Arc, H: Edges) {
      (exists v :: IsSplit(a, v)) || (exists u, v :: (u, v) in H && IsCross(a, u, v))
    }

    ghost predicate HasSplit(arcs: seq<Arc>, v: Fp) {
      exists k :: 0 <= k < |arcs| && IsSplit(arcs[k], v)
    }

    ghost predicate HasCross(arcs: seq<Arc>, u: Fp, v: Fp) {
      exists k :: 0 <= k < |arcs| && IsCross(arcs[k], u, v)
    }

    /** `arcs` is the node-split network of `H`: one unit arc inside each intermediate key and one wide
        arc for each edge. */
    ghost predicate Wired(arcs: seq<Arc>, H: Edges) {
      && (forall k {:trigger Known(arcs[k], H)} :: 0 <= k < |arcs| ==> Known(arcs[k], H))
      && (forall v {:trigger HasSplit(arcs, v)} :: v in index ==> HasSplit(arcs, v))
      && (forall u, v {:trigger HasCross(arcs, u, v)} :: (u, v) in H ==> HasCross(arcs, u, v))
      && (forall k, l :: 0 <= k < l < |arcs| ==> arcs[k].from != arcs[l].from || arcs[k].to != arcs[l].to)
    }

    /** The edges that carry flow. */
    ghost predicate Carries(arcs: seq<Arc>, x: seq<int>, u: Fp, v: Fp)
      requires |arcs| == |x|
    {
      exists k :: 0 <= k < |arcs| && IsCross(arcs[k], u, v) && x[k] >= 1
    }
  }

  ghost function Carried(nb: Numbering, arcs: seq<Arc>, x: seq<int>, H: Edges): Edges
    requires |arcs| == |x|
  {
    set e | e in H && nb.Carries(arcs, x, e.0, e.1)
  }

  ghost function FromNode(arcs: seq<Arc>, w: nat): set<nat> {
    set k: nat | k < |arcs| && arcs[k].from == w
  }

  ghost function ToNode(arcs: seq<Arc>, w: nat): set<nat> {
    set k: nat | k < |arcs| && arcs[k].to == w
  }

  lemma {:induction false} NetOutAsSums(arcs: seq<Arc>, x: seq<int>, w: nat, K: set<nat>, L: set<nat>)
    requires |arcs| == |x|
    requires forall k :: 0 <= k < |arcs| ==> arcs[k].from != arcs[k].to
    requires forall k :: 0 <= k < |arcs| ==> (k in K <==> arcs[k].from == w) && (k in L <==> arcs[k].to == w)
    ensures NetOut(arcs, x, {w}) == Sum(x, K) - Sum(x, L)
  {
    if |arcs| > 0 {
      NetOutAsSums(arcs[..|arcs| - 1], x[..|x| - 1], w, K, L);
    }
  }

  lemma ArcShape(nb: Numbering, arcs: seq<Arc>, H: Edges, k: nat)
    requires nb.Valid() && nb.Wired(arcs, H) && k < |arcs|
    ensures arcs[k].from != arcs[k].to && arcs[k].to != SOURCE
    ensures forall v :: v in nb.index && (arcs[k].from == nb.InNode(v) || arcs[k].to == nb.OutNode(v)) ==>
      nb.IsSplit(arcs[k], v)
    ensures forall v :: v in nb.index && (arcs[k].to == nb.InNode(v) || arcs[k].from == nb.OutNode(v)) ==>
      exists a, b :: (a, b) in H && nb.IsCross(arcs[k], a, b)
  {
    assert nb.Known(arcs[k], H);
    if v :| nb.IsSplit(arcs[k], v) {
    } else {
      var u, v :| (u, v) in H && nb.IsCross(arcs[k], u, v);
    }
  }

  /** At an intermediate key, what comes in equals what crosses it, which equals what goes out. */
  lemma Throughput(nb: Numbering, arcs: seq<Arc>, H: Edges, x: seq<int>, value: int, v: Fp) returns (m: nat)
    requires nb.Valid() && nb.Wired(arcs, H) && IsFlow(arcs, x, value) && v in nb.index
    ensures m < |arcs| && 0 <= x[m] <= 1
    ensures Sum(x, ToNode(arcs, nb.InNode(v))) == x[m] == Sum(x, FromNode(arcs, nb.OutNode(v)))
  {
    assert nb.HasSplit(arcs, v);
    m :| 0 <= m < |arcs| && nb.IsSplit(arcs[m], v);
    forall k | 0 <= k < |arcs|
      ensures arcs[k].from != arcs[k].to
      ensures arcs[k].from == nb.InNode(v) || arcs[k].to == nb.OutNode(v) ==> k == m
    {
      ArcShape(nb, arcs, H, k);
    }
    NetOutAsSums(arcs, x, nb.InNode(v), {m}, ToNode(arcs, nb.InNode(v)));
    NetOutAsSums(arcs, x, nb.OutNode(v), FromNode(arcs, nb.OutNode(v)), {m});
    SumSingle(x, m);
  }

  lemma CarriedUnwinds(nb: Numbering, arcs: seq<Arc>, H: Edges, x: seq<int>, value: int)
    requires nb.Valid() && nb.Wired(arcs, H) && IsFlow(arcs, x, value)
    requires Confined(H, nb.root, nb.target, nb.index.Keys)
    ensures Unwinds(Carried(nb, arcs, x, H), nb.root, nb.target, nb.index.Keys)
  {
    var C := Carried(nb, arcs, x, H);
    forall u, w, v | (u, v) in C && (w, v) in C && v in nb.index ensures u == w {
      OnePredecessor(nb, arcs, H, x, value, u, w, v);
    }
    forall u, v | (u, v) in C && v in nb.index ensures exists w :: (v, w) in C {
      var w := Successor(nb, arcs, H, x, value, u, v);
    }
  }

  lemma OnePredecessor(nb: Numbering, arcs: seq<Arc>, H: Edges, x: seq<int>, value: int, u: Fp, w: Fp, v: Fp)
    requires nb.Valid() && nb.Wired(arcs, H) && IsFlow(arcs, x, value) && v in nb.index
    requires nb.Carries(arcs, x, u, v) && nb.Carries(arcs, x, w, v)
    ensures u == w
  {
    var k :| 0 <= k < |arcs| && nb.IsCross(arcs[k], u, v) && x[k] >= 1;
    var l :| 0 <= l < |arcs| && nb.IsCross(arcs[l], w, v) && x[l] >= 1;
    var m := Throughput(nb, arcs, H, x, value, v);
    if k != l {
      SumAtLeastTwo(x, ToNode(arcs, nb.InNode(v)), k, l);
    }
  }

  /** An arc with flow out of an intermediate key is a carried edge. */
  lemma CarriedFrom(nb: Numbering, arcs: seq<Arc>, H: Edges, x: seq<int>, l: nat, v: Fp) returns (w: Fp)
    requires nb.Valid() && nb.Wired(arcs, H) && |arcs| == |x| && l < |arcs| && x[l] >= 1
    requires nb.IsTail(v) && arcs[l].from == nb.OutNode(v)
    ensures (v, w) in Carried(nb, arcs, x, H) && nb.IsCross(arcs[l], v, w)
  {
    assert nb.Known(arcs[l], H);
    var a, b :| (a, b) in H && nb.IsCross(arcs[l], a, b);
    w := b;
    assert nb.Carries(arcs, x, (v, w).0, (v, w).1);
  }

  lemma Successor(nb: Numbering, arcs: seq<Arc>, H: Edges, x: seq<int>, value: int, u: Fp, v: Fp) returns (w: Fp)
    requires nb.Valid() && nb.Wired(arcs, H) && IsFlow(arcs, x, value) && v in nb.index
    requires nb.Carries(arcs, x, u, v)
    ensures (v, w) in Carried(nb, arcs, x, H)
  {
    var k :| 0 <= k < |arcs| && nb.IsCross(arcs[k], u, v) && x[k] >= 1;
    var m := Throughput(nb, arcs, H, x, value, v);
    SumAtLeast(x, ToNode(arcs, nb.InNode(v)), k);
    var l := SumPositive(x, FromNode(arcs, nb.OutNode(v)));
    w := CarriedFrom(nb, arcs, H, x, l, v);
  }

  lemma OneArcPerEdge(nb: Numbering, arcs: seq<Arc>, H: Edges, j: nat, k: nat)
    requires nb.Wired(arcs, H) && j < |arcs| && k < |arcs| && j != k
    ensures arcs[j].from != arcs[k].from || arcs[j].to != arcs[k].to
  {
    assert j < k || k < j;
  }

  /** The first keys of the paths the flow takes: one for each arc out of the source that carries flow. */
  lemma {:induction false} StartsOf(nb: Numbering, arcs: seq<Arc>, H: Edges, x: seq<int>, K: set<nat>)
    returns (A: set<Fp>)
    requires nb.Valid() && nb.Wired(arcs, H) && |arcs| == |x|
    requires forall k :: k in K ==> k < |arcs| && arcs[k].from == SOURCE && arcs[k].to != SINK && x[k] >= 1
    ensures |A| == |K|
    ensures forall a :: a in A ==> a in nb.index && (nb.root, a) in Carried(nb, arcs, x, H)
    ensures forall a :: a in A ==> exists k :: k in K && nb.IsCross(arcs[k], nb.root, a)
    decreases |K|
  {
    if K == {} {
      A := {};
    } else {
      var k :| k in K;
      var B := StartsOf(nb, arcs, H, x, K - {k});
      var a := CarriedFrom(nb, arcs, H, x, k, nb.root);
      forall j | j in K - {k} ensures !nb.IsCross(arcs[j], nb.root, a) {
        OneArcPerEdge(nb, arcs, H, j, k);
      }
      A := B + {a};
    }
  }

  /** What the wide arc for a direct root-to-target edge adds. */
  function DirectTerm(nb: Numbering, H: Edges): nat {
    if (nb.root, nb.target) in H then nb.Inf() else 0
  }

  /** The index of the direct arc, or no index at all. */
  ghost predicate IsDirect(nb: Numbering, arcs: seq<Arc>, H: Edges, D: set<nat>) {
    if (nb.root, nb.target) in H
    then exists d :: 0 <= d < |arcs| && nb.IsCross(arcs[d], nb.root, nb.target) && D == {d}
    else D == {}
  }

  lemma DirectArc(nb: Numbering, arcs: seq<Arc>, H: Edges) returns (D: set<nat>)
    requires nb.Valid() && nb.Wired(arcs, H)
    ensures IsDirect(nb, arcs, H, D)
    ensures forall k :: 0 <= k < |arcs| && arcs[k].from == SOURCE && arcs[k].to == SINK ==> k in D
  {
    if (nb.root, nb.target) in H {
      assert nb.HasCross(arcs, nb.root, nb.target);
      var d :| 0 <= d < |arcs| && nb.IsCross(arcs[d], nb.root, nb.target);
      D := {d};
    } else {
      D := {};
      forall k | 0 <= k < |arcs| ensures arcs[k].from != SOURCE || arcs[k].to != SINK {
        assert nb.Known(arcs[k], H);
      }
    }
  }

  /** Into an intermediate key no arc carries more than one unit. */
  lemma UnitInto(nb: Numbering, arcs: seq<Arc>, H: Edges, x: seq<int>, value: int, k: nat)
    requires nb.Valid() && nb.Wired(arcs, H) && IsFlow(arcs, x, value)
    requires k < |arcs| && arcs[k].from == SOURCE && arcs[k].to != SINK
    ensures 0 <= x[k] <= 1
  {
    assert nb.Known(arcs[k], H);
    var u, v :| (u, v) in H && nb.IsCross(arcs[k], u, v);
    var m := Throughput(nb, arcs, H, x, value, v);
    SumAtLeast(x, ToNode(arcs, nb.InNode(v)), k);
  }

  /** The arcs out of the source that carry one unit each make up the flow, beside the direct arc. */
  lemma UnitsOut(nb: Numbering, arcs: seq<Arc>, H: Edges, x: seq<int>, value: int, D: set<nat>) returns (ones: set<nat>)
    requires nb.Valid() && nb.Wired(arcs, H) && IsFlow(arcs, x, value)
    requires forall k :: 0 <= k < |arcs| && arcs[k].from == SOURCE && arcs[k].to == SINK ==> k in D
    requires forall k :: k in D ==> k < |arcs| && arcs[k].from == SOURCE
    ensures forall k :: k in ones ==> k < |arcs| && arcs[k].from == SOURCE && arcs[k].to != SINK && x[k] >= 1
    ensures value == |ones| + Sum(x, D)
  {
    var all := FromNode(arcs, SOURCE);
    ones := set k | k in all && k !in D && x[k] == 1;
    var zeros := all - ones - D;
    forall k | 0 <= k < |arcs| ensures arcs[k].from != arcs[k].to && arcs[k].to != SOURCE {
      ArcShape(nb, arcs, H, k);
    }
    NetOutAsSums(arcs, x, SOURCE, all, {});
    SumZero(x, {});
    forall k | k in zeros ensures x[k] == 0 {
      UnitInto(nb, arcs, H, x, value, k);
    }
    SumOfOnes(x, ones);
    SumOfThree(x, all, ones, zeros, D);
  }

  /** A flow that fills the direct arc gives that many paths, less the direct arc's share. */
  lemma FlowGivesPaths(nb: Numbering, arcs: seq<Arc>, H: Edges, x: seq<int>, value: int) returns (F: set<seq<Fp>>)
    requires nb.Valid() && nb.Wired(arcs, H) && IsFlow(arcs, x, value)
    requires Confined(H, nb.root, nb.target, nb.index.Keys)
    requires forall k :: 0 <= k < |arcs| && arcs[k].from == SOURCE && arcs[k].to == SINK ==> x[k] == arcs[k].cap
    ensures Route(H, nb.root, nb.target, 2, Unlimited).Packing(F) && |F| == value - DirectTerm(nb, H)
  {
    var D := DirectArc(nb, arcs, H);
    var ones := UnitsOut(nb, arcs, H, x, value, D);
    if d :| d in D {
      SumSingle(x, d);
    } else {
      SumZero(x, D);
    }
    var A := StartsOf(nb, arcs, H, x, ones);
    CarriedUnwinds(nb, arcs, H, x, value);
    F := Unwind(Carried(nb, arcs, x, H), H, nb.root, nb.target, nb.index.Keys, A);
  }

  // ---------- paths and cuts ----------

  /** The arc is inside an intermediate key of `p` or is an edge of `p`. */
  ghost predicate Uses(nb: Numbering, a: Arc, p: seq<Fp>) {
    || (exists w :: w in Interior(p) && nb.IsSplit(a, w))
    || (exists i :: 0 <= i < |p| - 1 && nb.IsCross(a, p[i], p[i + 1]))
  }

  /** A path from the root to the target leaves every cut by one of its own arcs. */
  lemma {:induction false} PathLeaves(nb: Numbering, arcs: seq<Arc>, H: Edges, p: seq<Fp>, i: nat, S: set<nat>)
    returns (k: nat)
    requires nb.Valid() && nb.Wired(arcs, H) && Confined(H, nb.root, nb.target, nb.index.Keys)
    requires IsWalk(H, nb.root, nb.target, p) && NoRepeats(p) && IsCut(S)
    requires i < |p| - 1 && nb.IsTail(p[i]) && nb.OutNode(p[i]) in S
    ensures k < |arcs| && Leaves(arcs[k], S) && Uses(nb, arcs[k], p)
    decreases |p| - i
  {
    assert Step(H, p, i);
    assert nb.HasCross(arcs, p[i], p[i + 1]);
    var v := p[i + 1];
    if nb.InNode(v) !in S {
      k :| 0 <= k < |arcs| && nb.IsCross(arcs[k], p[i], p[i + 1]);
    } else {
      assert v != nb.target && i + 1 < |p| - 1;
      if nb.OutNode(v) in S {
        k := PathLeaves(nb, arcs, H, p, i + 1, S);
      } else {
        assert nb.HasSplit(arcs, v);
        k :| 0 <= k < |arcs| && nb.IsSplit(arcs[k], v);
        assert v in Interior(p);
      }
    }
  }

  lemma InteriorIsInter(nb: Numbering, H: Edges, p: seq<Fp>, i: nat)
    requires nb.Valid() && Confined(H, nb.root, nb.target, nb.index.Keys)
    requires Route(H, nb.root, nb.target, 2, Unlimited).Has(p) && i < |p|
    ensures p[i] in nb.index <==> 0 < i < |p| - 1
    ensures p[i] in nb.index ==> p[i] in Interior(p)
  {
    ConfinedWalk(H, nb.root, nb.target, nb.index.Keys, nb.target, p);
  }

  lemma SameCross(nb: Numbering, H: Edges, a: Arc, p: seq<Fp>, i: nat, q: seq<Fp>, j: nat)
    requires nb.Valid() && Confined(H, nb.root, nb.target, nb.index.Keys)
    requires Route(H, nb.root, nb.target, 2, Unlimited).Has(p) && Route(H, nb.root, nb.target, 2, Unlimited).Has(q)
    requires i < |p| - 1 && nb.IsCross(a, p[i], p[i + 1]) && j < |q| - 1 && nb.IsCross(a, q[j], q[j + 1])
    ensures !(Interior(p) !! Interior(q))
  {
    var t := if i == 0 then 1 else 0;
    assert p[i + t] == q[j + t];
    InteriorIsInter(nb, H, p, i + t);
    InteriorIsInter(nb, H, q, j + t);
    assert p[i + t] in Interior(p) && p[i + t] in Interior(q);
  }

  /** Arcs determine their keys, so paths with no intermediate key in common use different arcs. */
  lemma UsedByOne(nb: Numbering, H: Edges, a: Arc, p: seq<Fp>, q: seq<Fp>)
    requires nb.Valid() && Confined(H, nb.root, nb.target, nb.index.Keys)
    requires Route(H, nb.root, nb.target, 2, Unlimited).Has(p) && Route(H, nb.root, nb.target, 2, Unlimited).Has(q)
    requires Uses(nb, a, p) && Uses(nb, a, q)
    ensures !(Interior(p) !! Interior(q))
  {
    if w :| w in Interior(p) && nb.IsSplit(a, w) {
      var z :| z in Interior(q) && nb.IsSplit(a, z);
      assert w in Interior(p) && w in Interior(q);
    } else {
      var i :| 0 <= i < |p| - 1 && nb.IsCross(a, p[i], p[i + 1]);
      var j :| 0 <= j < |q| - 1 && nb.IsCross(a, q[j], q[j + 1]);
      SameCross(nb, H, a, p, i, q, j);
    }
  }

  /** One arc out of the cut for each path of a packing. */
  lemma {:induction false} PackingLeaves(nb: Numbering, arcs: seq<Arc>, H: Edges, F: set<seq<Fp>>, S: set<nat>)
    returns (K: set<nat>)
    requires nb.Valid() && nb.Wired(arcs, H) && Confined(H, nb.root, nb.target, nb.index.Keys)
    requires Route(H, nb.root, nb.target, 2, Unlimited).Packing(F) && IsCut(S)
    ensures |K| == |F|
    ensures forall k :: k in K ==> k < |arcs| && Leaves(arcs[k], S) && exists p :: p in F && Uses(nb, arcs[k], p)
    decreases |F|
  {
    if F == {} {
      K := {};
    } else {
      var p :| p in F;
      var L := PackingLeaves(nb, arcs, H, F - {p}, S);
      var k := PathLeaves(nb, arcs, H, p, 0, S);
      if k in L {
        var q :| q in F - {p} && Uses(nb, arcs[k], q);
        UsedByOne(nb, H, arcs[k], p, q);
        assert false;
      }
      K := L + {k};
    }
  }

  function Capacities(arcs: seq<Arc>): (c: seq<int>)
    ensures |c| == |arcs| && forall k :: 0 <= k < |c| ==> c[k] == arcs[k].cap
  {
    seq(|arcs|, i requires 0 <= i < |arcs| => arcs[i].cap)
  }

  lemma {:induction false} CutAsSum(arcs: seq<Arc>, S: set<nat>, K: set<nat>)
    requires forall k :: 0 <= k < |arcs| ==> (k in K <==> Leaves(arcs[k], S))
    ensures CutCapacity(arcs, S) == Sum(Capacities(arcs), K)
  {
    if |arcs| > 0 {
      var n := |arcs| - 1;
      CutAsSum(arcs[..n], S, K);
      assert Capacities(arcs)[..n] == Capacities(arcs[..n]);
    }
  }

  lemma ArcIsWide(nb: Numbering, arcs: seq<Arc>, H: Edges, k: nat)
    requires nb.Valid() && nb.Wired(arcs, H) && k < |arcs|
    ensures arcs[k].cap >= 1
  {
    assert nb.Known(arcs[k], H);
  }

  /** The direct arc is no arc of a path with an intermediate key. */
  lemma DirectUnused(nb: Numbering, arcs: seq<Arc>, H: Edges, d: nat, p: seq<Fp>)
    requires nb.Valid() && Confined(H, nb.root, nb.target, nb.index.Keys)
    requires Route(H, nb.root, nb.target, 2, Unlimited).Has(p)
    requires d < |arcs| && nb.IsCross(arcs[d], nb.root, nb.target)
    ensures !Uses(nb, arcs[d], p)
  {
    forall i | 0 <= i < |p| - 1 ensures !nb.IsCross(arcs[d], p[i], p[i + 1]) {
      InteriorIsInter(nb, H, p, i);
      InteriorIsInter(nb, H, p, i + 1);
    }
  }

  /** No packing is larger than the capacity of a cut, less the direct arc's share. */
  lemma PackingAtMostCut(nb: Numbering, arcs: seq<Arc>, H: Edges, F: set<seq<Fp>>, S: set<nat>)
    requires nb.Valid() && nb.Wired(arcs, H) && Confined(H, nb.root, nb.target, nb.index.Keys)
    requires Route(H, nb.root, nb.target, 2, Unlimited).Packing(F) && IsCut(S)
    ensures |F| + DirectTerm(nb, H) <= CutCapacity(arcs, S)
  {
    var K := PackingLeaves(nb, arcs, H, F, S);
    var D := DirectArc(nb, arcs, H);
    forall d | d in D && d in K ensures false {
      var p :| p in F && Uses(nb, arcs[d], p);
      DirectUnused(nb, arcs, H, d, p);
    }
    CutAtLeast(nb, arcs, H, S, K, D);
    if d :| d in D {
      SumSingle(Capacities(arcs), d);
    } else {
      SumZero(Capacities(arcs), D);
    }
  }

  lemma CutAtLeast(nb: Numbering, arcs: seq<Arc>, H: Edges, S: set<nat>, K: set<nat>, D: set<nat>)
    requires nb.Valid() && nb.Wired(arcs, H) && K !! D
    requires forall k :: k in K || k in D ==> k < |arcs| && Leaves(arcs[k], S)
    ensures |K| + Sum(Capacities(arcs), D) <= CutCapacity(arcs, S)
  {
    var all := set k: nat | k < |arcs| && Leaves(arcs[k], S);
    var c := Capacities(arcs);
    CutAsSum(arcs, S, all);
    forall k | k in all ensures c[k] >= 1 {
      ArcIsWide(nb, arcs, H, k);
    }
    SumAtLeastSize(c, K);
    SumOfParts(c, K, D, all);
  }

  /** The value of a flow that saturates a cut is the largest number of paths with no intermediate key in
      common, plus the share of the direct arc. */
  lemma MaxFlowCountsPaths(nb: Numbering, arcs: seq<Arc>, H: Edges, x: seq<int>, value: int, S: set<nat>)
    requires nb.Valid() && nb.Wired(arcs, H) && Confined(H, nb.root, nb.target, nb.index.Keys)
    requires IsFlow(arcs, x, value) && IsCut(S) && Saturated(arcs, x, S)
    ensures Route(H, nb.root, nb.target, 2, Unlimited).PackingNumber(value - DirectTerm(nb, H))
  {
    SaturatedCutIsOptimal(arcs, x, value, S);
    var F := FlowGivesPaths(nb, arcs, H, x, value);
    forall G | Route(H, nb.root, nb.target, 2, Unlimited).Packing(G)
      ensures |G| <= value - DirectTerm(nb, H)
    {
      PackingAtMostCut(nb, arcs, H, G, S);
    }
  }
}
