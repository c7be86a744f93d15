/** What the scores promise: what the disjoint score means for a depth of at most four, what removing
    keys does to it, and where the two implementations differ. */
module TrustTheorems {
  import opened SigningGraph
  import opened DepthFilter
  import opened Ledger
  import opened DisjointScorer
  import opened PathCounter
  import opened TrustGraph
  import opened TrustScores
  import opened KeyCuts
  import opened FlowPaths

  /** The documented disjoint score: the largest number of trust paths of at most `n` hops of which no two
      share an intermediate key. */
  ghost predicate IsDocumentedScore(E: Edges, root: Fp, target: Fp, n: int, k: int) {
    Route(E, root, target, 1, AtMost(n)).PackingNumber(k)
  }

  /** For a depth of at most four the code computes the documented score, except that a direct signature
      counts as many times as there are intermediate keys, and two more. */
  lemma DisjointScoreMeaning(E: Edges, root: Fp, target: Fp, n: int, s: int)
    requires root != target && n <= 4 && IsDisjointScore(E, root, target, n, s)
    ensures IsDocumentedScore(E, root, target, n,
      if (root, target) in E && n >= 1 then s - |Middle(E, root, target, n)| - 1 else s)
  {
    var k := s - DirectShare(E, root, target, n);
    FilterIsExact(E, root, target, n, k);
    CountDirect(E, root, target, n, k);
  }

  /** At every depth the code's score is at least the documented one, and with a direct signature it is more by
      at least the number of intermediate keys and one. */
  lemma ScoreAtLeastDocumented(E: Edges, root: Fp, target: Fp, n: int, s: int, d: int)
    requires root != target && IsDisjointScore(E, root, target, n, s) && IsDocumentedScore(E, root, target, n, d)
    ensures d <= s
    ensures (root, target) in E && n >= 1 ==> d + |Middle(E, root, target, n)| + 1 <= s
  {
    var F :| Route(E, root, target, 1, AtMost(n)).Packing(F) && |F| == d;
    WithoutDirect(E, root, target, n, F);
    ShortPackingSurvives(E, root, target, n, F - {[root, target]});
    assert |F - {[root, target]}| <= s - DirectShare(E, root, target, n);
    assert [root, target] in F ==> |F - {[root, target]}| == |F| - 1;
    assert [root, target] !in F ==> F - {[root, target]} == F;
  }

  /** If the root has directly signed the target the code's score is the documented one at no depth of at least
      one; otherwise it is at every depth of at most four. */
  lemma DisjointScoreExact(E: Edges, root: Fp, target: Fp, n: int, s: int)
    requires root != target && IsDisjointScore(E, root, target, n, s)
    ensures (root, target) in E && n >= 1 ==> !IsDocumentedScore(E, root, target, n, s)
    ensures n <= 4 ==> (IsDocumentedScore(E, root, target, n, s) <==> !((root, target) in E && n >= 1))
  {
    if n <= 4 {
      DisjointScoreMeaning(E, root, target, n, s);
    }
    if IsDocumentedScore(E, root, target, n, s) {
      ScoreAtLeastDocumented(E, root, target, n, s, s);
    }
  }

  // ---------- removing keys ----------

  function WithoutKeys(E: Edges, X: set<Fp>): Edges {
    set e | e in E && e.0 !in X && e.1 !in X
  }

  function RemoveKeys(g: Graph, X: set<Fp>): Graph {
    map v | v in g && v !in X :: g[v] - X
  }

  lemma RemovedEdges(g: Graph, X: set<Fp>)
    ensures EdgesOf(RemoveKeys(g, X)) == WithoutKeys(EdgesOf(g), X)
  {
    SameEdges(EdgesOf(RemoveKeys(g, X)), WithoutKeys(EdgesOf(g), X));
  }

  /** The paths without the keys are those that avoid them. */
  lemma PathAvoids(E: Edges, a: Fp, b: Fp, X: set<Fp>, p: seq<Fp>)
    requires a !in X && b !in X
    ensures IsWalk(WithoutKeys(E, X), a, b, p) <==> IsWalk(E, a, b, p) && Interior(p) !! X
  {
    var D := WithoutKeys(E, X);
    if IsWalk(D, a, b, p) {
      forall i | 0 <= i < |p| - 1 ensures Step(E, p, i) && p[i] !in X {
        assert Step(D, p, i);
      }
    }
    if IsWalk(E, a, b, p) && Interior(p) !! X {
      forall i | 0 <= i < |p| ensures p[i] !in X {
        if 0 < i < |p| - 1 { assert p[i] in Interior(p); }
      }
      forall i | 0 <= i < |p| - 1 ensures Step(D, p, i) {
        assert Step(E, p, i);
      }
    }
  }

  /** Outside keys get into `Y` only through keys of `X`: every signature on a key of `Y` is by a key of one or
      the other. */
  ghost predicate GatedBy(E: Edges, Y: set<Fp>, X: set<Fp>) {
    forall u, v :: (u, v) in E && v in Y ==> u in X + Y
  }

  /** A path that meets gated keys meets their gate. */
  lemma {:induction false} MeetsGate(E: Edges, a: Fp, b: Fp, X: set<Fp>, Y: set<Fp>, p: seq<Fp>, i: nat)
    requires GatedBy(E, Y, X) && IsWalk(E, a, b, p) && a !in X + Y
    requires i < |p| - 1 && p[i] in X + Y
    ensures exists x :: x in Interior(p) && x in X
  {
    assert p[i] in Interior(p);
    if p[i] !in X {
      assert Step(E, p, i - 1);
      MeetsGate(E, a, b, X, Y, p, i - 1);
    }
  }

  /** Of the paths of a packing, those that avoid gated keys and their gate: the others are no more than the
      keys of the gate. */
  lemma AvoidingPaths(r: Route, F: set<seq<Fp>>, X: set<Fp>, Y: set<Fp>) returns (G: set<seq<Fp>>)
    requires GatedBy(r.edges, Y, X) && r.source !in X + Y && r.Packing(F)
    ensures G <= F && (forall p :: p in G ==> Interior(p) !! X + Y) && |F| <= |G| + |X|
  {
    G := set p | p in F && Interior(p) !! X + Y;
    forall p | p in F - G ensures exists x :: x in Interior(p) && x in X {
      var i :| 0 < i < |p| - 1 && p[i] in X + Y;
      MeetsGate(r.edges, r.source, r.target, X, Y, p, i);
    }
    MeetingPaths(r, F - G, X);
    assert F == G + (F - G);
  }

  /** Without the keys there are no more intermediate keys and filtered edges than with them, and those avoid the
      keys. */
  lemma LessIsLeft(E: Edges, root: Fp, target: Fp, n: int, X: set<Fp>)
    ensures Middle(WithoutKeys(E, X), root, target, n) <= Middle(E, root, target, n) - X
    ensures Filtered(WithoutKeys(E, X), root, target, n) <= Filtered(E, root, target, n)
  {
    var D := WithoutKeys(E, X);
    forall v | v in Middle(D, root, target, n) ensures v in Middle(E, root, target, n) && v !in X {
      var p, q :| IsWalk(D, root, v, p) && IsWalk(D, v, target, q) && |p| + |q| - 2 <= n;
      WalkIn(D, E, root, v, p);
      WalkIn(D, E, v, target, q);
    }
    forall e | e in Filtered(D, root, target, n) ensures e in Filtered(E, root, target, n) {
      var p, q :| IsWalk(D, root, e.0, p) && IsWalk(D, e.1, target, q) && |p| + |q| - 1 <= n;
      WalkIn(D, E, root, e.0, p);
      WalkIn(D, E, e.1, target, q);
    }
  }

  /** A path over filtered edges without the keys is one with them, and avoids them. */
  lemma FilteredPathBack(E: Edges, root: Fp, target: Fp, n: int, X: set<Fp>, p: seq<Fp>)
    requires FilteredRoute(WithoutKeys(E, X), root, target, n).Has(p)
    ensures FilteredRoute(E, root, target, n).Has(p) && Interior(p) !! X
  {
    var D := WithoutKeys(E, X);
    LessIsLeft(E, root, target, n, X);
    WalkIn(Filtered(D, root, target, n), Filtered(E, root, target, n), root, target, p);
    forall i | 0 < i < |p| - 1 ensures p[i] !in X {
      assert Step(Filtered(D, root, target, n), p, i);
    }
  }

  /** By how much the share of a direct signature shrinks when keys are removed. */
  ghost function ShareLost(E: Edges, root: Fp, target: Fp, n: int, X: set<Fp>): int {
    if (root, target) in E && n >= 1
    then |Middle(E, root, target, n)| - |Middle(WithoutKeys(E, X), root, target, n)|
    else 0
  }

  lemma SharesCompared(E: Edges, root: Fp, target: Fp, n: int, X: set<Fp>)
    requires root !in X && target !in X
    ensures ShareLost(E, root, target, n, X) ==
      DirectShare(E, root, target, n) - DirectShare(WithoutKeys(E, X), root, target, n)
    ensures ShareLost(E, root, target, n, X) >= 0
    ensures (root, target) in E && n >= 1 ==>
      ShareLost(E, root, target, n, X) >= |Middle(E, root, target, n) * X|
  {
    LessIsLeft(E, root, target, n, X);
    var M, M' := Middle(E, root, target, n), Middle(WithoutKeys(E, X), root, target, n);
    assert M == (M - X) + (M * X) && M - X == M' + (M - X - M');
  }

  /** At every depth, losing keys lowers the score by at least what the share of a direct signature loses. */
  lemma LosingKeysLowers(E: Edges, root: Fp, target: Fp, n: int, X: set<Fp>, s: int, t: int)
    requires root != target && root !in X && target !in X
    requires IsDisjointScore(E, root, target, n, s) && IsDisjointScore(WithoutKeys(E, X), root, target, n, t)
    ensures t + ShareLost(E, root, target, n, X) <= s
  {
    var r := FilteredRoute(E, root, target, n);
    var r' := FilteredRoute(WithoutKeys(E, X), root, target, n);
    SharesCompared(E, root, target, n, X);
    var G :| r'.Packing(G) && |G| == t - DirectShare(WithoutKeys(E, X), root, target, n);
    forall p | p in G ensures r.Has(p) {
      FilteredPathBack(E, root, target, n, X, p);
    }
    assert r.Packing(G);
  }

  /** For a depth of at most four, losing the keys `X`, with everything they gate, lowers the score by at most
      their number beside what the share of a direct signature loses. */
  lemma LosingKeysCosts(E: Edges, root: Fp, target: Fp, n: int, X: set<Fp>, Y: set<Fp>, s: int, t: int)
    requires root != target && root !in X + Y && target !in X + Y && n <= 4 && GatedBy(E, Y, X)
    requires IsDisjointScore(E, root, target, n, s) && IsDisjointScore(WithoutKeys(E, X + Y), root, target, n, t)
    ensures s <= t + |X| + ShareLost(E, root, target, n, X + Y)
  {
    var D := WithoutKeys(E, X + Y);
    SharesCompared(E, root, target, n, X + Y);
    FilterIsExact(E, root, target, n, s - DirectShare(E, root, target, n));
    FilterIsExact(D, root, target, n, t - DirectShare(D, root, target, n));
    var r := Route(E, root, target, 2, AtMost(n));
    var F :| r.Packing(F) && |F| == s - DirectShare(E, root, target, n);
    var G := AvoidingPaths(r, F, X, Y);
    forall p | p in G ensures Route(D, root, target, 2, AtMost(n)).Has(p) {
      PathAvoids(E, root, target, X + Y, p);
    }
    assert Route(D, root, target, 2, AtMost(n)).Packing(G);
  }

  lemma AtMostOne<T>(S: set<T>)
    requires forall p, q :: p in S && q in S ==> p == q
    ensures |S| <= 1
  {
    if p :| p in S {
      assert S == {p};
    }
  }

  /** Whoever controls the keys `X` gains at most |X| at a depth of at most four, however many further keys `Y`
      they make up that only they and each other sign, beside what they add to the share of a direct signature:
      without `X` and `Y` the disjoint score is lower by at most that, and never higher at any depth. */
  lemma ColludersGainTheirNumber(g: Graph, root: Fp, target: Fp, n: int, X: set<Fp>, Y: set<Fp>, s: int, t: int)
    requires root != target && root !in X + Y && target !in X + Y && GatedBy(EdgesOf(g), Y, X)
    requires IsDisjointScore(EdgesOf(g), root, target, n, s)
    requires IsDisjointScore(EdgesOf(RemoveKeys(g, X + Y)), root, target, n, t)
    ensures var lost := ShareLost(EdgesOf(g), root, target, n, X + Y);
      t <= t + lost <= s && (n <= 4 ==> s <= t + |X| + lost)
  {
    RemovedEdges(g, X + Y);
    SharesCompared(EdgesOf(g), root, target, n, X + Y);
    LosingKeysLowers(EdgesOf(g), root, target, n, X + Y, s, t);
    if n <= 4 {
      LosingKeysCosts(EdgesOf(g), root, target, n, X, Y, s, t);
    }
  }

  /** Removing a single intermediate key never raises the disjoint score; at a depth of at most four it lowers it
      by at most one beside what it takes from the share of a direct signature, which is at least one if the key
      is an intermediate one. */
  lemma OneKeyIsWorthOne(g: Graph, root: Fp, target: Fp, n: int, x: Fp, s: int, t: int)
    requires root != target && x != root && x != target
    requires IsDisjointScore(EdgesOf(g), root, target, n, s)
    requires IsDisjointScore(EdgesOf(RemoveKeys(g, {x})), root, target, n, t)
    ensures var lost := ShareLost(EdgesOf(g), root, target, n, {x});
      && t <= t + lost <= s && (n <= 4 ==> s <= t + 1 + lost)
      && ((root, target) in EdgesOf(g) && n >= 1 && x in Middle(EdgesOf(g), root, target, n) ==> lost >= 1)
  {
    assert {x} + {} == {x};
    ColludersGainTheirNumber(g, root, target, n, {x}, {}, s, t);
    SharesCompared(EdgesOf(g), root, target, n, {x});
    if x in Middle(EdgesOf(g), root, target, n) {
      assert Middle(EdgesOf(g), root, target, n) * {x} == {x};
    }
  }

  /** Losing any one key other than the two ends lowers the score of this graph by at most one and never
      raises it. */
  ghost predicate EachKeyIsWorthOne(E: Edges, root: Fp, target: Fp, n: int) {
    forall x, s, t |
      x != root && x != target && IsDisjointScore(E, root, target, n, s)
      && IsDisjointScore(WithoutKeys(E, {x}), root, target, n, t) :: t <= s <= t + 1
  }

  /** Whoever controls keys gains at most their number, however many further keys they gate. */
  ghost predicate CollusionIsBounded(E: Edges, root: Fp, target: Fp, n: int) {
    forall X, Y, s, t |
      GatedBy(E, Y, X) && root !in X + Y && target !in X + Y && IsDisjointScore(E, root, target, n, s)
      && IsDisjointScore(WithoutKeys(E, X + Y), root, target, n, t) :: t <= s <= t + |X|
  }

  // ---------- the two implementations on the same blocks ----------

  /** Without a signature on it a key scores nothing. */
  lemma UnsignedScoresZero(E: Edges, root: Fp, target: Fp, n: int)
    requires root != target && forall u :: (u, target) !in E
    ensures |SimplePaths(E, root, target, n)| == 0
    ensures forall s :: IsDisjointScore(E, root, target, n, s) ==> s == 0
  {
    forall p ensures p !in SimplePaths(E, root, target, n) {
      assert |p| > 1 && p[|p| - 1] == target ==> !Step(E, p, |p| - 2);
    }
    forall s | IsDisjointScore(E, root, target, n, s) ensures s == 0 {
      DisjointPositive(E, root, target, n, s);
    }
  }

  lemma SameEdgesForward(blocks: seq<Block>, g: Graph, graph: map<Fp, set<Fp>>)
    requires Distinct(blocks) && IsTrustGraph(blocks, EdgesOf(g)) && IsTrustGraph(blocks, OpenEdges(graph, {}))
    ensures OpenEdges(graph, RevokedSet(blocks)) == EdgesOf(g)
    ensures forall u, v :: (u, v) in EdgesOf(g) ==> v !in RevokedSet(blocks)
  {
    SameGraph(blocks, EdgesOf(g), OpenEdges(graph, {}));
    SameEdges(OpenEdges(graph, RevokedSet(blocks)), EdgesOf(g));
  }

  /** On the same blocks, one for each key, the two implementations give the same score, counting either
      way, unless the key scored is the root itself and is revoked. */
  lemma ImplementationsAgree(blocks: seq<Block>, g: Graph, graph: map<Fp, set<Fp>>, root: Fp, target: Fp, n: int,
                             disjoint: bool, s: int, t: int)
    requires Distinct(blocks) && IsTrustGraph(blocks, EdgesOf(g)) && IsTrustGraph(blocks, OpenEdges(graph, {}))
    requires if disjoint && root != target then IsDisjointScore(EdgesOf(g), root, target, n, s)
             else s == PathScore(EdgesOf(g), root, target, n)
    requires IsForwardScore(OpenEdges(graph, RevokedSet(blocks)), root, target, n, RevokedSet(blocks), disjoint, t)
    ensures s == t <==> !(root == target && root in RevokedSet(blocks))
  {
    SameEdgesForward(blocks, g, graph);
    if root != target {
      if target in RevokedSet(blocks) {
        UnsignedScoresZero(EdgesOf(g), root, target, n);
      } else {
        ForwardScoreUnique(EdgesOf(g), root, target, n, RevokedSet(blocks), disjoint, s, t);
      }
    }
  }

  /** Whether the forward implementation puts a key into its trusted set, counting paths. */
  ghost predicate ForwardTrusts(graph: map<Fp, set<Fp>>, root: Fp, fp: Fp, n: int, threshold: int, revoked: set<Fp>) {
    && Reachable(OpenEdges(graph, revoked), root, fp, n)
    && Trusted(OpenEdges(graph, revoked), root, fp, n, threshold, revoked, false)
  }

  /** Whether the other implementation does. */
  ghost predicate BackwardTrusts(g: Graph, root: Fp, fp: Fp, n: int, threshold: int) {
    fp in g && fp != root && PathScore(EdgesOf(g), root, fp, n) >= threshold
  }

  /** On the same blocks the two trusted sets agree on a key if and only if the threshold is at least one, or the
      key has no block, or is the root, or is reachable within the depth. */
  lemma TrustedSetsAgree(blocks: seq<Block>, g: Graph, graph: map<Fp, set<Fp>>, root: Fp, fp: Fp, n: int,
                         threshold: int)
    requires Distinct(blocks) && IsTrustGraph(blocks, EdgesOf(g)) && IsTrustGraph(blocks, OpenEdges(graph, {}))
    requires forall v :: v in g <==> exists b :: b in blocks && b.fingerprint == v
    ensures (BackwardTrusts(g, root, fp, n, threshold)
             <==> ForwardTrusts(graph, root, fp, n, threshold, RevokedSet(blocks)))
      <==> threshold >= 1 || fp !in g || fp == root || Reachable(EdgesOf(g), root, fp, n)
  {
    var E := EdgesOf(g);
    SameEdgesForward(blocks, g, graph);
    if fp != root {
      var t := if fp in RevokedSet(blocks) then 0 else |SimplePaths(E, root, fp, n)|;
      assert IsForwardScore(E, root, fp, n, RevokedSet(blocks), false, t);
      ImplementationsAgree(blocks, g, graph, root, fp, n, false, PathScore(E, root, fp, n), t);
      ReachableHasPath(E, root, fp, n);
      if fp !in g {
        UnsignedScoresZero(E, root, fp, n);
      }
    }
  }

  /** So the sets are the same on given blocks if and only if the threshold is at least one or every key with a
      block, other than the root, is reachable within the depth. */
  lemma TrustedSetsEqual(blocks: seq<Block>, g: Graph, graph: map<Fp, set<Fp>>, root: Fp, n: int, threshold: int)
    requires Distinct(blocks) && IsTrustGraph(blocks, EdgesOf(g)) && IsTrustGraph(blocks, OpenEdges(graph, {}))
    requires forall v :: v in g <==> exists b :: b in blocks && b.fingerprint == v
    ensures (forall fp :: BackwardTrusts(g, root, fp, n, threshold)
                     <==> ForwardTrusts(graph, root, fp, n, threshold, RevokedSet(blocks)))
      <==> threshold >= 1 || forall fp :: fp in g && fp != root ==> Reachable(EdgesOf(g), root, fp, n)
  {
    forall fp
      ensures (BackwardTrusts(g, root, fp, n, threshold)
               <==> ForwardTrusts(graph, root, fp, n, threshold, RevokedSet(blocks)))
        <==> threshold >= 1 || fp !in g || fp == root || Reachable(EdgesOf(g), root, fp, n)
    {
      TrustedSetsAgree(blocks, g, graph, root, fp, n, threshold);
    }
  }
}
