/** The disjoint score seen from the other side: the largest number of paths that share no intermediate key is the
    least number of keys that all of them go through. */
module KeyCuts {
  import opened SigningGraph
  import opened IndexedSums
  import opened FlowNetwork
  import opened MaximumFlow
  import opened FlowPaths
  import opened NodeSplit
  import opened DepthFilter
  import opened DisjointScorer

  /** Every path goes through one of the keys `X`. */
  ghost predicate Gate(r: Route, X: set<Fp>) {
    forall p :: r.Has(p) ==> exists x :: x in Interior(p) && x in X
  }

  /** Of the paths of a packing no more go through keys of `X` than there are such keys. */
  lemma {:induction false} MeetingPaths(r: Route, F: set<seq<Fp>>, X: set<Fp>)
    requires r.Packing(F) && forall p :: p in F ==> exists x :: x in Interior(p) && x in X
    ensures |F| <= |X|
    decreases |F|
  {
    if p :| p in F {
      var x :| x in Interior(p) && x in X;
      forall q | q in F - {p} ensures exists y :: y in Interior(q) && y in X - {x} {
        var y :| y in Interior(q) && y in X;
      }
      MeetingPaths(r, F - {p}, X - {x});
    }
  }

  // ---------- the split network of any filtered graph ----------

  lemma {:induction false} SomeNumbering(root: Fp, target: Fp, inter: set<Fp>) returns (nb: Numbering)
    requires root != target && root !in inter && target !in inter
    ensures nb.Valid() && nb.root == root && nb.target == target && nb.index.Keys == inter
    decreases inter
  {
    if v :| v in inter {
      nb := SomeNumbering(root, target, inter - {v});
      NumberOneMore(nb, v);
      nb := Numbering(root, target, nb.inter + [v], nb.index[v := |nb.inter|]);
    } else {
      nb := Numbering(root, target, [], map[]);
    }
  }

  lemma {:induction false} SomeNetwork(nb: Numbering, H: Edges) returns (arcs: seq<Arc>)
    requires nb.Valid() && Confined(H, nb.root, nb.target, nb.index.Keys)
    ensures nb.Wired(arcs, H)
    decreases H
  {
    if e :| e in H {
      var u, v := e.0, e.1;
      assert (u, v) in H;
      arcs := SomeNetwork(nb, H - {(u, v)});
      var a := Arc(nb.OutNode(u), nb.InNode(v), nb.Inf(), 0, 0);
      CrossWired(nb, arcs, H - {(u, v)}, a, u, v);
      assert H - {(u, v)} + {(u, v)} == H;
      arcs := arcs + [a];
    } else {
      arcs := seq(|nb.inter|, i requires 0 <= i < |nb.inter| =>
        Arc(nb.InNode(nb.inter[i]), nb.OutNode(nb.inter[i]), 1, 0, 0));
      SplitsWired(nb, arcs);
      assert H == {};
    }
  }

  // ---------- a full cut consists of keys ----------

  /** The keys that the cut separates from themselves: their unit arcs leave it. */
  ghost function CutKeys(nb: Numbering, S: set<nat>): set<Fp>
    requires nb.Valid()
  {
    set v | v in nb.index && nb.InNode(v) in S && nb.OutNode(v) !in S
  }

  /** A wide arc other than the direct one is never full. */
  lemma NeverFull(nb: Numbering, arcs: seq<Arc>, H: Edges, x: seq<int>, value: int, k: nat, u: Fp, v: Fp)
    requires nb.Valid() && nb.Wired(arcs, H) && IsFlow(arcs, x, value) && k < |arcs|
    requires nb.IsCross(arcs[k], u, v) && (u in nb.index || v in nb.index)
    ensures x[k] < arcs[k].cap
  {
    if u in nb.index {
      var m := Throughput(nb, arcs, H, x, value, u);
      SumAtLeast(x, FromNode(arcs, nb.OutNode(u)), k);
    } else {
      var m := Throughput(nb, arcs, H, x, value, v);
      SumAtLeast(x, ToNode(arcs, nb.InNode(v)), k);
    }
  }

  /** Every path with an intermediate key goes through a key of the cut. */
  lemma CutKeysAreGate(nb: Numbering, arcs: seq<Arc>, H: Edges, x: seq<int>, value: int, S: set<nat>)
    requires nb.Valid() && nb.Wired(arcs, H) && Confined(H, nb.root, nb.target, nb.index.Keys)
    requires IsFlow(arcs, x, value) && IsCut(S) && Saturated(arcs, x, S)
    ensures Gate(Route(H, nb.root, nb.target, 2, Unlimited), CutKeys(nb, S))
  {
    var r := Route(H, nb.root, nb.target, 2, Unlimited);
    forall p | r.Has(p) ensures exists v :: v in Interior(p) && v in CutKeys(nb, S) {
      var k := PathLeaves(nb, arcs, H, p, 0, S);
      if i :| 0 <= i < |p| - 1 && nb.IsCross(arcs[k], p[i], p[i + 1]) {
        InteriorIsInter(nb, H, p, i);
        InteriorIsInter(nb, H, p, i + 1);
        NeverFull(nb, arcs, H, x, value, k, p[i], p[i + 1]);
        assert false;
      }
      var w :| w in Interior(p) && nb.IsSplit(arcs[k], w);
      assert w in CutKeys(nb, S);
    }
  }

  lemma SplitOut(nb: Numbering, arcs: seq<Arc>, H: Edges, S: set<nat>, v: Fp) returns (k: nat)
    requires nb.Valid() && nb.Wired(arcs, H) && v in CutKeys(nb, S)
    ensures k < |arcs| && Leaves(arcs[k], S) && nb.IsSplit(arcs[k], v)
  {
    assert nb.HasSplit(arcs, v);
    k :| 0 <= k < |arcs| && nb.IsSplit(arcs[k], v);
  }

  lemma SplitOfOne(nb: Numbering, a: Arc, v: Fp, w: Fp)
    requires nb.Valid() && nb.IsSplit(a, v) && nb.IsSplit(a, w)
    ensures v == w
  {
  }

  ghost predicate LeavesBySplit(nb: Numbering, arcs: seq<Arc>, S: set<nat>, X: set<Fp>, k: nat) {
    k < |arcs| && Leaves(arcs[k], S) && exists v :: v in X && nb.IsSplit(arcs[k], v)
  }

  /** One arc out of the cut for each of its keys. */
  lemma {:induction false} SplitsOut(nb: Numbering, arcs: seq<Arc>, H: Edges, S: set<nat>, X: set<Fp>)
    returns (K: set<nat>)
    requires nb.Valid() && nb.Wired(arcs, H) && X <= CutKeys(nb, S)
    ensures |K| == |X| && forall k :: k in K ==> LeavesBySplit(nb, arcs, S, X, k)
    decreases X
  {
    if v :| v in X {
      var L := SplitsOut(nb, arcs, H, S, X - {v});
      var k := SplitOut(nb, arcs, H, S, v);
      forall j | j in L ensures j != k && LeavesBySplit(nb, arcs, S, X, j) {
        var w :| w in X - {v} && nb.IsSplit(arcs[j], w);
        if j == k { SplitOfOne(nb, arcs[k], v, w); }
      }
      K := L + {k};
    } else {
      K := {};
    }
  }

  lemma CutKeysWithinCut(nb: Numbering, arcs: seq<Arc>, H: Edges, S: set<nat>)
    requires nb.Valid() && nb.Wired(arcs, H) && IsCut(S)
    ensures |CutKeys(nb, S)| + DirectTerm(nb, H) <= CutCapacity(arcs, S)
  {
    var K := SplitsOut(nb, arcs, H, S, CutKeys(nb, S));
    var D := DirectArc(nb, arcs, H);
    CutAtLeast(nb, arcs, H, S, K, D);
    if d :| d in D {
      SumSingle(Capacities(arcs), d);
    } else {
      SumZero(Capacities(arcs), D);
    }
  }

  /** As many keys as there are disjoint paths are enough to be on every path, and no fewer are. */
  lemma MinimumGate(H: Edges, root: Fp, target: Fp, inter: set<Fp>, k: int) returns (X: set<Fp>)
    requires Confined(H, root, target, inter) && Route(H, root, target, 2, Unlimited).PackingNumber(k)
    ensures X <= inter && |X| == k && Gate(Route(H, root, target, 2, Unlimited), X)
    ensures forall Y :: Gate(Route(H, root, target, 2, Unlimited), Y) ==> |Y| >= k
  {
    var r := Route(H, root, target, 2, Unlimited);
    var nb := SomeNumbering(root, target, inter);
    var arcs := SomeNetwork(nb, H);
    forall j | 0 <= j < |arcs| ensures arcs[j].from != arcs[j].to {
      ArcShape(nb, arcs, H, j);
    }
    var x, value, S := SomeFlowFillsACut(arcs);
    X := CutKeys(nb, S);
    MaxFlowCountsPaths(nb, arcs, H, x, value, S);
    PackingNumberUnique(r, k, value - DirectTerm(nb, H));
    SaturatedCutIsOptimal(arcs, x, value, S);
    CutKeysAreGate(nb, arcs, H, x, value, S);
    CutKeysWithinCut(nb, arcs, H, S);
    var F :| r.Packing(F) && |F| == k;
    forall Y | Gate(r, Y) ensures |Y| >= k {
      MeetingPaths(r, F, Y);
    }
  }

  // ---------- what the disjoint score says of cuts ----------

  /** The least number of keys that all filtered paths go through is the score less the direct share. */
  lemma ScoreIsGate(E: Edges, root: Fp, target: Fp, n: int, s: int) returns (X: set<Fp>)
    requires root != target && IsDisjointScore(E, root, target, n, s)
    ensures X <= Middle(E, root, target, n) && |X| == s - DirectShare(E, root, target, n)
    ensures Gate(FilteredRoute(E, root, target, n), X)
    ensures forall Y :: Gate(FilteredRoute(E, root, target, n), Y) ==> |Y| >= |X|
  {
    FilteredIsConfined(E, root, target, n);
    X := MinimumGate(Filtered(E, root, target, n), root, target, Middle(E, root, target, n),
                     s - DirectShare(E, root, target, n));
  }

  /** For a depth of at most four the score, less the direct share, is the least number of keys that must be
      compromised to be on every trust path within the depth that has an intermediate key. */
  lemma KeysToCutOff(E: Edges, root: Fp, target: Fp, n: int, s: int) returns (X: set<Fp>)
    requires root != target && n <= 4 && IsDisjointScore(E, root, target, n, s)
    ensures |X| == s - DirectShare(E, root, target, n) && Gate(Route(E, root, target, 2, AtMost(n)), X)
    ensures forall Y :: Gate(Route(E, root, target, 2, AtMost(n)), Y) ==> |Y| >= |X|
  {
    var r := Route(E, root, target, 2, AtMost(n));
    X := ScoreIsGate(E, root, target, n, s);
    forall p | r.Has(p) ensures exists x :: x in Interior(p) && x in X {
      ShortPathSurvives(E, root, target, n, p);
      assert FilteredRoute(E, root, target, n).Has(p);
    }
    FilterIsExact(E, root, target, n, |X|);
    var F :| r.Packing(F) && |F| == |X|;
    forall Y | Gate(r, Y) ensures |Y| >= |X| {
      MeetingPaths(r, F, Y);
    }
  }
}
