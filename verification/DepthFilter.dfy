/** The depth filter of the disjoint scorer: which edges lie on a short enough walk, and why for a depth
    of at most four every packing of filtered paths can be shortened to the depth. */
module DepthFilter {
  import opened SigningGraph
  import opened Distances

  /** Some walk from `root` to `target` of at most `n` hops takes the edge `e`. */
  ghost predicate OnShortWalk(E: Edges, root: Fp, target: Fp, n: int, e: (Fp, Fp)) {
    exists p, q :: IsWalk(E, root, e.0, p) && IsWalk(E, e.1, target, q) && |p| + |q| - 1 <= n
  }

  /** Some walk from `root` to `target` of at most `n` hops visits `v`. */
  ghost predicate OnShortWalkAt(E: Edges, root: Fp, target: Fp, n: int, v: Fp) {
    exists p, q :: IsWalk(E, root, v, p) && IsWalk(E, v, target, q) && |p| + |q| - 2 <= n
  }

  /** The depth-filtered subgraph: the edges on a walk of at most `n` hops, other than those into the
      root or out of the target. */
  ghost function Filtered(E: Edges, root: Fp, target: Fp, n: int): Edges {
    set e | e in E && e.0 != target && e.1 != root && OnShortWalk(E, root, target, n, e)
  }

  /** The simple paths over filtered edges that have an intermediate key, of any length. */
  ghost function FilteredRoute(E: Edges, root: Fp, target: Fp, n: int): Route {
    Route(Filtered(E, root, target, n), root, target, 2, Unlimited)
  }

  /** The intermediate keys: those on a walk of at most `n` hops, other than its ends. */
  ghost function Middle(E: Edges, root: Fp, target: Fp, n: int): set<Fp> {
    set v | v in Keys(E) && v != root && v != target && OnShortWalkAt(E, root, target, n, v)
  }

  /** `bwd` has the least number of hops from `v` to the target, if there is a walk at all. */
  ghost predicate MeasuredBack(E: Edges, target: Fp, bwd: map<Fp, nat>, v: Fp) {
    && (v in bwd ==> exists q :: IsWalk(E, v, target, q) && |q| - 1 == bwd[v])
    && (forall q :: IsWalk(E, v, target, q) ==> v in bwd && bwd[v] <= |q| - 1)
  }

  /** The forward distances are those of a search, and the backward ones are right for every signed key. */
  ghost predicate AreDistances(E: Edges, root: Fp, target: Fp, n: int, fwd: map<Fp, nat>, bwd: map<Fp, nat>) {
    && IsDistanceMap(E, root, AtMost(n), fwd)
    && forall u, v :: (u, v) in E ==> MeasuredBack(E, target, bwd, v)
  }

  lemma OpenBothWays(A: Edges, blocked: set<Fp>, u: Fp, v: Fp)
    ensures (u, v) in Unblocked(A, blocked) <==> (u, v) in A && v !in blocked
    ensures (u, v) in Flip(Unblocked(Flip(A), blocked)) <==> (u, v) in A && u !in blocked
  {
    FlipEdge(Unblocked(Flip(A), blocked), u, v);
    FlipEdge(A, v, u);
    assert (u, v).1 == v && (v, u).1 == u;
  }

  /** A walk between keys that are not blocked enters no blocked key exactly when it leaves none. */
  lemma OpenWalk(A: Edges, blocked: set<Fp>, v: Fp, target: Fp, q: seq<Fp>)
    requires target !in blocked && v !in blocked
    ensures IsWalk(Unblocked(A, blocked), v, target, q) <==> IsWalk(Flip(Unblocked(Flip(A), blocked)), v, target, q)
  {
    var E, D := Unblocked(A, blocked), Flip(Unblocked(Flip(A), blocked));
    forall i | 0 <= i < |q| - 1
      ensures Step(E, q, i) <==> (q[i], q[i + 1]) in A && q[i + 1] !in blocked
      ensures Step(D, q, i) <==> (q[i], q[i + 1]) in A && q[i] !in blocked
    {
      OpenBothWays(A, blocked, q[i], q[i + 1]);
    }
    forall i | 0 <= i < |q| - 1 && IsWalk(E, v, target, q) ensures Step(D, q, i) {
      assert Step(E, q, i) && (i > 0 ==> Step(E, q, i - 1));
    }
    forall i | 0 <= i < |q| - 1 && IsWalk(D, v, target, q) ensures Step(E, q, i) {
      assert Step(D, q, i) && (i < |q| - 2 ==> Step(D, q, i + 1));
    }
  }

  /** Searching back over all edges without entering a blocked key measures every key that is not blocked, over
      the edges into keys that are not blocked. */
  lemma SearchedBack(A: Edges, blocked: set<Fp>, target: Fp, bwd: map<Fp, nat>, v: Fp)
    requires IsDistanceMap(Unblocked(Flip(A), blocked), target, Unlimited, bwd)
    requires target !in blocked && v !in blocked
    ensures MeasuredBack(Unblocked(A, blocked), target, bwd, v)
  {
    var E, B := Unblocked(A, blocked), Unblocked(Flip(A), blocked);
    if v in bwd {
      var r := DistanceHasWalk(B, target, Unlimited, bwd, v);
      WalkReversed(B, target, v, r);
      OpenWalk(A, blocked, v, target, Reverse(r));
    }
    forall q | IsWalk(E, v, target, q) ensures v in bwd && bwd[v] <= |q| - 1 {
      OpenWalk(A, blocked, v, target, q);
      WalkReversed(Flip(B), v, target, q);
      FlipTwice(B);
      WalkBoundsDistance(B, target, Unlimited, bwd, v, Reverse(q));
    }
  }

  lemma SearchesAreDistances(A: Edges, blocked: set<Fp>, root: Fp, target: Fp, n: int,
                             fwd: map<Fp, nat>, bwd: map<Fp, nat>)
    requires IsDistanceMap(Unblocked(A, blocked), root, AtMost(n), fwd) && target !in blocked
    requires IsDistanceMap(Unblocked(Flip(A), blocked), target, Unlimited, bwd)
    ensures AreDistances(Unblocked(A, blocked), root, target, n, fwd, bwd)
  {
    forall u, v | (u, v) in Unblocked(A, blocked) ensures MeasuredBack(Unblocked(A, blocked), target, bwd, v) {
      assert (u, v).1 == v;
      SearchedBack(A, blocked, target, bwd, v);
    }
  }

  /** The code's test on an edge, in terms of walks. */
  lemma EdgeTest(E: Edges, root: Fp, target: Fp, n: int, fwd: map<Fp, nat>, bwd: map<Fp, nat>, u: Fp, v: Fp)
    requires AreDistances(E, root, target, n, fwd, bwd) && (u, v) in E
    ensures u in fwd && v in bwd && fwd[u] + 1 + bwd[v] <= n <==> OnShortWalk(E, root, target, n, (u, v))
  {
    if u in fwd && v in bwd && fwd[u] + 1 + bwd[v] <= n {
      var p := DistanceHasWalk(E, root, AtMost(n), fwd, u);
      var q :| IsWalk(E, v, target, q) && |q| - 1 == bwd[v];
    }
    if OnShortWalk(E, root, target, n, (u, v)) {
      var p, q :| IsWalk(E, root, u, p) && IsWalk(E, v, target, q) && |p| + |q| - 1 <= n;
      WalkBoundsDistance(E, root, AtMost(n), fwd, u, p);
    }
  }

  /** The code's test on an intermediate key, in terms of walks. */
  lemma KeyTest(E: Edges, root: Fp, target: Fp, n: int, fwd: map<Fp, nat>, bwd: map<Fp, nat>, v: Fp)
    requires AreDistances(E, root, target, n, fwd, bwd) && v != root && v != target
    ensures v in fwd && v in bwd && fwd[v] + bwd[v] <= n <==> v in Middle(E, root, target, n)
  {
    if v in fwd && v in bwd && fwd[v] + bwd[v] <= n {
      var p := DistanceHasWalk(E, root, AtMost(n), fwd, v);
      ReachedIsKey(E, root, v, p);
      var q :| IsWalk(E, v, target, q) && |q| - 1 == bwd[v];
    }
    if v in Middle(E, root, target, n) {
      MiddleIsMeasured(E, root, target, n, fwd, bwd, v);
    }
  }

  lemma ReachedIsKey(E: Edges, root: Fp, v: Fp, p: seq<Fp>)
    requires IsWalk(E, root, v, p) && v != root
    ensures v in Keys(E) && (p[|p| - 2], v) in E
  {
    assert Step(E, p, |p| - 2) && (p[|p| - 2], v).1 == v;
  }

  lemma MiddleIsMeasured(E: Edges, root: Fp, target: Fp, n: int, fwd: map<Fp, nat>, bwd: map<Fp, nat>, v: Fp)
    requires AreDistances(E, root, target, n, fwd, bwd) && v in Middle(E, root, target, n)
    ensures v in fwd && v in bwd && fwd[v] + bwd[v] <= n
  {
    var p, q :| IsWalk(E, root, v, p) && IsWalk(E, v, target, q) && |p| + |q| - 2 <= n;
    WalkBoundsDistance(E, root, AtMost(n), fwd, v, p);
    ReachedIsKey(E, root, v, p);
  }

  /** Edges of the subgraph run between the root, intermediate keys and the target. */
  lemma FilteredEnds(E: Edges, root: Fp, target: Fp, n: int, u: Fp, v: Fp)
    requires (u, v) in Filtered(E, root, target, n)
    ensures u == root || u in Middle(E, root, target, n)
    ensures v == target || v in Middle(E, root, target, n)
  {
    var p, q :| IsWalk(E, root, u, p) && IsWalk(E, v, target, q) && |p| + |q| - 1 <= n;
    WalkAppend(E, root, u, v, p);
    WalkPrepend(E, u, v, target, q);
    assert (u, v).0 == u && (u, v).1 == v;
  }

  /** Short paths survive the filter. */
  lemma ShortPathSurvives(E: Edges, root: Fp, target: Fp, n: int, p: seq<Fp>)
    requires Route(E, root, target, 1, AtMost(n)).Has(p) && root != target
    ensures IsWalk(Filtered(E, root, target, n), root, target, p)
  {
    var H := Filtered(E, root, target, n);
    forall i | 0 <= i < |p| - 1 ensures Step(H, p, i) {
      assert Step(E, p, i);
      WalkSlice(E, root, target, p, 0, i + 1);
      WalkSlice(E, root, target, p, i + 1, |p|);
      assert OnShortWalk(E, root, target, n, (p[i], p[i + 1]));
    }
  }

  // ---------- shortening, for a depth of at most four ----------

  /** From a key the root has not signed, or to a key that has not signed the target, a filtered edge has
      a hop more to spare. */
  lemma EdgeSpare(E: Edges, root: Fp, target: Fp, n: int, u: Fp, v: Fp)
    requires (u, v) in Filtered(E, root, target, n)
    ensures (if u == root then 0 else if (root, u) in E then 1 else 2) + 1
          + (if v == target then 0 else if (v, target) in E then 1 else 2) <= n
  {
    var p, q :| IsWalk(E, root, u, p) && IsWalk(E, v, target, q) && |p| + |q| - 1 <= n;
    if |p| == 2 { assert Step(E, p, 0); }
    if |q| == 2 { assert Step(E, q, 0); }
  }

  lemma FilteredStep(E: Edges, root: Fp, target: Fp, n: int, p: seq<Fp>, i: nat)
    requires IsWalk(Filtered(E, root, target, n), root, target, p) && NoRepeats(p) && i < |p| - 1
    ensures (p[i], p[i + 1]) in E && (p[i], p[i + 1]) in Filtered(E, root, target, n)
    ensures (if i == 0 then 0 else if (root, p[i]) in E then 1 else 2) + 1
          + (if i + 1 == |p| - 1 then 0 else if (p[i + 1], target) in E then 1 else 2) <= n
  {
    assert Step(Filtered(E, root, target, n), p, i);
    EdgeSpare(E, root, target, n, p[i], p[i + 1]);
  }

  /** The last intermediate key of `p` that the root has signed. */
  lemma LastFromRoot(E: Edges, root: Fp, p: seq<Fp>, k: nat) returns (i: nat)
    requires 1 <= k < |p| - 1 && (root, p[1]) in E
    ensures 1 <= i <= k && (root, p[i]) in E
    ensures forall j :: i < j <= k ==> (root, p[j]) !in E
  {
    i := k;
    while (root, p[i]) !in E
      invariant 1 <= i <= k
      invariant forall j :: i < j <= k ==> (root, p[j]) !in E
      decreases i
    {
      i := i - 1;
    }
  }

  /** The first key of `p` from `k` on that has signed the target. */
  lemma FirstToTarget(E: Edges, target: Fp, p: seq<Fp>, k: nat) returns (i: nat)
    requires 1 <= k < |p| - 1 && (p[|p| - 2], target) in E
    ensures k <= i < |p| - 1 && (p[i], target) in E
    ensures forall j :: k <= j < i ==> (p[j], target) !in E
  {
    i := k;
    while (p[i], target) !in E
      invariant k <= i < |p| - 1
      invariant forall j :: k <= j < i ==> (p[j], target) !in E
      decreases |p| - i
    {
      i := i + 1;
    }
  }

  /** A filtered path with an intermediate key can be cut down to one of at most `n` hops through some of
      its own intermediate keys. */
  lemma Shorten(E: Edges, root: Fp, target: Fp, n: int, p: seq<Fp>) returns (q: seq<Fp>)
    requires n <= 4 && FilteredRoute(E, root, target, n).Has(p)
    ensures Route(E, root, target, 2, AtMost(n)).Has(q) && Interior(q) <= Interior(p)
  {
    var m := |p| - 1;
    FilteredStep(E, root, target, n, p, 0);
    FilteredStep(E, root, target, n, p, m - 1);
    var i := LastFromRoot(E, root, p, m - 1);
    var j := FirstToTarget(E, target, p, i);
    if j > i {
      FilteredStep(E, root, target, n, p, i);
      if j > i + 1 {
        FilteredStep(E, root, target, n, p, i + 1);
      }
    }
    q := [root] + p[i..j + 1] + [target];
    Detour(E, root, target, p, i, j);
  }

  lemma Detour(E: Edges, root: Fp, target: Fp, p: seq<Fp>, i: nat, j: nat)
    requires 0 < i <= j < |p| - 1 && p[0] == root && p[|p| - 1] == target && NoRepeats(p)
    requires (root, p[i]) in E && (p[j], target) in E
    requires forall k :: i <= k < j ==> (p[k], p[k + 1]) in E
    ensures var q := [root] + p[i..j + 1] + [target];
      IsWalk(E, root, target, q) && NoRepeats(q) && Interior(q) <= Interior(p)
  {
    var q := [root] + p[i..j + 1] + [target];
    assert forall k :: 0 < k < |q| - 1 ==> q[k] == p[i + k - 1];
    forall k | 0 <= k < |q| - 1 ensures Step(E, q, k) {
      if 0 < k < |q| - 2 {
        assert (p[i + k - 1], p[i + k]) in E;
      }
    }
  }

  /** `G` runs through some of the intermediate keys of `F`. */
  ghost predicate Within(G: set<seq<Fp>>, F: set<seq<Fp>>) {
    forall q :: q in G ==> exists p :: p in F && Interior(q) <= Interior(p)
  }

  lemma OneMoreShortened(s: Route, F: set<seq<Fp>>, p: seq<Fp>, G: set<seq<Fp>>, q: seq<Fp>)
    requires p in F && forall f :: f in F - {p} ==> Interior(f) !! Interior(p)
    requires s.Packing(G) && Within(G, F - {p}) && s.minHops >= 2
    requires s.Has(q) && Interior(q) <= Interior(p)
    ensures s.Packing(G + {q}) && q !in G && Within(G + {q}, F)
  {
    forall g | g in G ensures Interior(g) !! Interior(q) && exists f :: f in F && Interior(g) <= Interior(f) {
      var f :| f in F - {p} && Interior(g) <= Interior(f);
    }
    assert q[1] in Interior(q);
  }

  lemma {:induction false} PackingShortens(E: Edges, root: Fp, target: Fp, n: int, F: set<seq<Fp>>)
    returns (G: set<seq<Fp>>)
    requires n <= 4 && FilteredRoute(E, root, target, n).Packing(F)
    ensures Route(E, root, target, 2, AtMost(n)).Packing(G) && |G| == |F| && Within(G, F)
    decreases |F|
  {
    if F == {} {
      G := {};
    } else {
      var p :| p in F;
      var G' := PackingShortens(E, root, target, n, F - {p});
      var q := Shorten(E, root, target, n, p);
      OneMoreShortened(Route(E, root, target, 2, AtMost(n)), F, p, G', q);
      G := G' + {q};
    }
  }

  lemma ShortPackingSurvives(E: Edges, root: Fp, target: Fp, n: int, F: set<seq<Fp>>)
    requires Route(E, root, target, 2, AtMost(n)).Packing(F) && root != target
    ensures FilteredRoute(E, root, target, n).Packing(F)
  {
    forall p | p in F ensures FilteredRoute(E, root, target, n).Has(p) {
      ShortPathSurvives(E, root, target, n, p);
    }
  }

  /** For a depth of at most four the filtered subgraph has the same packing number as the depth bound. */
  lemma FilterIsExact(E: Edges, root: Fp, target: Fp, n: int, k: int)
    requires n <= 4 && root != target
    requires FilteredRoute(E, root, target, n).PackingNumber(k)
    ensures Route(E, root, target, 2, AtMost(n)).PackingNumber(k)
  {
    var H := FilteredRoute(E, root, target, n);
    var F :| H.Packing(F) && |F| == k;
    var G := PackingShortens(E, root, target, n, F);
    forall P | Route(E, root, target, 2, AtMost(n)).Packing(P) ensures |P| <= k {
      ShortPackingSurvives(E, root, target, n, P);
      assert H.Packing(P);
    }
  }

  lemma DirectOrLonger(E: Edges, root: Fp, target: Fp, n: int, p: seq<Fp>)
    ensures Route(E, root, target, 1, AtMost(n)).Has([root, target]) <==>
      root != target && (root, target) in E && n >= 1
    ensures Route(E, root, target, 1, AtMost(n)).Has(p) ==>
              p == [root, target] || Route(E, root, target, 2, AtMost(n)).Has(p)
  {
    assert Step(E, [root, target], 0) <==> (root, target) in E;
    if |p| == 2 && p[0] == root && p[1] == target { assert p == [root, target]; }
  }

  lemma WithDirect(E: Edges, root: Fp, target: Fp, n: int, F: set<seq<Fp>>)
    requires Route(E, root, target, 2, AtMost(n)).Packing(F)
    requires root != target && (root, target) in E && n >= 1
    ensures Route(E, root, target, 1, AtMost(n)).Packing(F + {[root, target]})
    ensures |F + {[root, target]}| == |F| + 1
  {
    DirectOrLonger(E, root, target, n, []);
    assert Interior([root, target]) == {};
  }

  lemma WithoutDirect(E: Edges, root: Fp, target: Fp, n: int, G: set<seq<Fp>>)
    requires Route(E, root, target, 1, AtMost(n)).Packing(G)
    ensures Route(E, root, target, 2, AtMost(n)).Packing(G - {[root, target]})
    ensures [root, target] in G ==> root != target && (root, target) in E && n >= 1
  {
    DirectOrLonger(E, root, target, n, []);
    forall p | p in G - {[root, target]} ensures Route(E, root, target, 2, AtMost(n)).Has(p) {
      DirectOrLonger(E, root, target, n, p);
    }
  }

  /** Counting the direct path as well adds one when the root has signed the target. */
  lemma CountDirect(E: Edges, root: Fp, target: Fp, n: int, k: int)
    requires root != target && Route(E, root, target, 2, AtMost(n)).PackingNumber(k)
    ensures Route(E, root, target, 1, AtMost(n)).PackingNumber(k + if (root, target) in E && n >= 1 then 1 else 0)
  {
    var all := Route(E, root, target, 1, AtMost(n));
    var F :| Route(E, root, target, 2, AtMost(n)).Packing(F) && |F| == k;
    if (root, target) in E && n >= 1 {
      WithDirect(E, root, target, n, F);
    } else {
      assert all.Packing(F);
    }
    var bound := k + if (root, target) in E && n >= 1 then 1 else 0;
    forall G | all.Packing(G) ensures |G| <= bound {
      WithoutDirect(E, root, target, n, G);
      assert |G - {[root, target]}| <= k;
    }
  }
}
