/** The scores and trusted sets of both implementations, and how the two kinds of score relate. */
module TrustScores {
  import opened SigningGraph
  import opened Distances
  import opened DepthFilter
  import opened Ledger
  import opened DisjointScorer
  import opened PathCounter
  import opened TrustGraph

  /** The number of trust paths: simple paths from the root to the target of at most `n` hops, and one for
      the root itself. */
  ghost function PathScore(E: Edges, root: Fp, target: Fp, n: int): nat {
    if root == target then 1 else |SimplePaths(E, root, target, n)|
  }

  // ---------- counting from either end ----------

  ghost function Reversed(F: set<seq<Fp>>): set<seq<Fp>> {
    set p | p in F :: Reverse(p)
  }

  lemma {:induction false} ReversedSize(F: set<seq<Fp>>)
    ensures |Reversed(F)| == |F|
    decreases |F|
  {
    if F != {} {
      var p :| p in F;
      ReversedSize(F - {p});
      assert Reversed(F) == Reversed(F - {p}) + {Reverse(p)};
      forall q | q in F - {p} ensures Reverse(q) != Reverse(p) {
        ReverseTwice(p);
        ReverseTwice(q);
      }
    }
  }

  lemma RouteReversed(E: Edges, a: Fp, b: Fp, n: int, p: seq<Fp>)
    requires Route(E, a, b, 1, AtMost(n)).Has(p)
    ensures Route(Flip(E), b, a, 1, AtMost(n)).Has(Reverse(p))
  {
    WalkReversed(E, a, b, p);
  }

  /** Counting backward from the target over signers finds as many paths as counting forward. */
  lemma CountBackward(E: Edges, a: Fp, b: Fp, n: int)
    ensures |SimplePaths(Flip(E), b, a, n)| == |SimplePaths(E, a, b, n)|
  {
    var F, G := SimplePaths(E, a, b, n), SimplePaths(Flip(E), b, a, n);
    forall q ensures q in Reversed(F) <==> q in G {
      SimplePathsExact(Flip(E), b, a, n, q);
      ReverseTwice(q);
      if q in Reversed(F) {
        var p :| p in F && q == Reverse(p);
        RouteReversed(E, a, b, n, p);
      }
      if q in G {
        RouteReversed(Flip(E), b, a, n, q);
        FlipTwice(E);
        SimplePathsExact(E, a, b, n, Reverse(q));
        assert q == Reverse(Reverse(q));
      }
    }
    assert Reversed(F) == G;
    ReversedSize(F);
  }

  lemma SignersAreFlipped(g: Graph)
    ensures OpenEdges(g, {}) == Flip(EdgesOf(g))
  {
    forall u, v ensures (u, v) in OpenEdges(g, {}) <==> (u, v) in Flip(EdgesOf(g)) {
      FlipEdge(EdgesOf(g), u, v);
    }
    SameEdges(OpenEdges(g, {}), Flip(EdgesOf(g)));
  }

  /** Counts backward from the target, over the signers of each key. */
  method Score(g: Graph, target: Fp, root: Fp, maxDepth: int) returns (score: int)
    ensures score == PathScore(EdgesOf(g), root, target, maxDepth)
  {
    if root == target {
      return 1;
    }
    score := CountPaths(g, {}, target, root, maxDepth);
    SignersAreFlipped(g);
    CountBackward(EdgesOf(g), root, target, maxDepth);
  }

  /** The keys of the graph, other than the root, that score at least the threshold, reachable or not. */
  method TrustedSet(g: Graph, root: Fp, maxDepth: int, threshold: int) returns (result: seq<Fp>)
    ensures NoRepeats(result)
    ensures forall fp :: fp in result <==>
      (fp in g && fp != root && PathScore(EdgesOf(g), root, fp, maxDepth) >= threshold)
  {
    result := [];
    var keys := g.Keys;
    while keys != {}
      invariant keys <= g.Keys && NoRepeats(result)
      invariant forall fp :: fp in result <==>
        (fp in g && fp !in keys && fp != root && PathScore(EdgesOf(g), root, fp, maxDepth) >= threshold)
    {
      var fp :| fp in keys;
      keys := keys - {fp};
      if fp != root {
        var score := Score(g, fp, root, maxDepth);
        if score >= threshold {
          result := result + [fp];
        }
      }
    }
  }

  // ---------- some path exists ----------

  /** Some trust path of at most `n` hops leads from the root to the key. */
  ghost predicate Reachable(E: Edges, root: Fp, fp: Fp, n: int) {
    exists p :: Route(E, root, fp, 1, AtMost(n)).Has(p)
  }

  lemma ReachableHasPath(E: Edges, root: Fp, fp: Fp, n: int)
    ensures Reachable(E, root, fp, n) <==> |SimplePaths(E, root, fp, n)| >= 1
  {
    if p :| Route(E, root, fp, 1, AtMost(n)).Has(p) {
      SimplePathsExact(E, root, fp, n, p);
      assert p in SimplePaths(E, root, fp, n);
    }
    if |SimplePaths(E, root, fp, n)| >= 1 {
      var p :| p in SimplePaths(E, root, fp, n);
    }
  }

  /** Every key that meets the threshold is reachable within the depth, as documented of the trusted set. */
  ghost predicate OnlyReachable(E: Edges, keys: set<Fp>, root: Fp, n: int, threshold: int) {
    forall fp :: fp in keys && fp != root && PathScore(E, root, fp, n) >= threshold ==> Reachable(E, root, fp, n)
  }

  /** That is so if and only if the threshold is at least one or every other key is reachable: a key out of reach
      scores 0. */
  lemma TrustedSetDocumented(E: Edges, keys: set<Fp>, root: Fp, n: int, threshold: int)
    ensures OnlyReachable(E, keys, root, n, threshold)
      <==> threshold >= 1 || forall fp :: fp in keys && fp != root ==> Reachable(E, root, fp, n)
  {
    forall fp ensures fp != root ==> (PathScore(E, root, fp, n) >= 1 <==> Reachable(E, root, fp, n)) {
      ReachableHasPath(E, root, fp, n);
    }
  }

  /** So it is so on every graph if and only if the threshold is at least one. */
  lemma ThresholdOneIsTheLimit(threshold: int)
    ensures (forall E, keys, root, n :: OnlyReachable(E, keys, root, n, threshold)) <==> threshold >= 1
  {
    forall E, keys, root, n ensures threshold >= 1 ==> OnlyReachable(E, keys, root, n, threshold) {
      TrustedSetDocumented(E, keys, root, n, threshold);
    }
    TrustedSetDocumented({}, {"A"}, "", 0, threshold);
    assert !Reachable({}, "", "A", 0);
  }

  lemma ReachedBySigner(E: Edges, root: Fp, fp: Fp, n: int)
    requires Reachable(E, root, fp, n)
    ensures exists u :: (u, fp) in E
  {
    var p :| Route(E, root, fp, 1, AtMost(n)).Has(p);
    assert Step(E, p, |p| - 2);
  }

  /** A key is counted at least once exactly when the depth-limited search reaches it. */
  lemma ReachedIsScored(E: Edges, root: Fp, target: Fp, n: int, d: map<Fp, nat>)
    requires root != target && IsDistanceMap(E, root, AtMost(n), d)
    ensures target in d <==> |SimplePaths(E, root, target, n)| >= 1
  {
    if target in d {
      var p := DistanceHasWalk(E, root, AtMost(n), d, target);
      var q := WalkToPath(E, root, target, p);
      assert HasParent(E, d, target);
      SimplePathsExact(E, root, target, n, q);
      assert q in SimplePaths(E, root, target, n);
    }
    if |SimplePaths(E, root, target, n)| >= 1 {
      var p :| p in SimplePaths(E, root, target, n);
      WalkBoundsDistance(E, root, AtMost(n), d, target, p);
    }
  }

  /** The disjoint score is at least one exactly when some path exists within the depth. */
  lemma DisjointPositive(E: Edges, root: Fp, target: Fp, n: int, s: int)
    requires root != target && IsDisjointScore(E, root, target, n, s)
    ensures s >= 1 <==> |SimplePaths(E, root, target, n)| >= 1
    ensures s >= 0
  {
    var r := FilteredRoute(E, root, target, n);
    assert r.Packing({});
    if p :| p in SimplePaths(E, root, target, n) {
      ShortPathSurvives(E, root, target, n, p);
      if |p| > 2 {
        assert r.Packing({p});
        assert |{p}| <= s - DirectShare(E, root, target, n);
      } else {
        assert Step(E, p, 0);
      }
    }
    if s >= 1 {
      var p := SomePath(E, root, target, n, s);
      SimplePathsExact(E, root, target, n, p);
      assert p in SimplePaths(E, root, target, n);
    }
  }

  lemma SomePath(E: Edges, root: Fp, target: Fp, n: int, s: int) returns (p: seq<Fp>)
    requires root != target && IsDisjointScore(E, root, target, n, s) && s >= 1
    ensures Route(E, root, target, 1, AtMost(n)).Has(p)
  {
    var H := Filtered(E, root, target, n);
    if (root, target) in E && n >= 1 {
      p := [root, target];
      assert Step(E, p, 0);
    } else {
      var r := Route(H, root, target, 2, Unlimited);
      var F :| r.Packing(F) && |F| == s - DirectShare(E, root, target, n);
      var q :| q in F;
      assert Step(H, q, 0);
      p := PathThrough(E, root, target, n, q[0], q[1]);
    }
  }

  lemma PathThrough(E: Edges, root: Fp, target: Fp, n: int, u: Fp, v: Fp) returns (p: seq<Fp>)
    requires root != target && (u, v) in Filtered(E, root, target, n)
    ensures Route(E, root, target, 1, AtMost(n)).Has(p)
  {
    var a, b :| IsWalk(E, root, u, a) && IsWalk(E, v, target, b) && |a| + |b| - 1 <= n;
    WalkPrepend(E, u, v, target, b);
    WalkConcat(E, root, u, target, a, [u] + b);
    assert a + b == a + ([u] + b)[1..];
    p := WalkToPath(E, root, target, a + b);
  }

  // ---------- forward scores and the fast trusted set ----------

  /** The score of the forward implementation, over the edges into keys that are not revoked. */
  ghost predicate IsForwardScore(E: Edges, root: Fp, target: Fp, n: int, revoked: set<Fp>, disjoint: bool, s: int) {
    if target in revoked then s == 0
    else if target == root then s == 1
    else if disjoint then IsDisjointScore(E, root, target, n, s)
    else s == |SimplePaths(E, root, target, n)|
  }

  lemma ForwardScoreUnique(E: Edges, root: Fp, target: Fp, n: int, revoked: set<Fp>, disjoint: bool, s: int, t: int)
    requires IsForwardScore(E, root, target, n, revoked, disjoint, s)
    requires IsForwardScore(E, root, target, n, revoked, disjoint, t)
    ensures s == t
  {
    if target !in revoked && target != root && disjoint {
      var share := DirectShare(E, root, target, n);
      PackingNumberUnique(FilteredRoute(E, root, target, n), s - share, t - share);
    }
  }

  /** The members of each set, listed in some order. */
  method ListSets(graph: map<Fp, set<Fp>>) returns (signed: map<Fp, seq<Fp>>)
    ensures Lists(signed, OpenEdges(graph, {}))
  {
    signed := map[];
    ghost var E: Edges := {};
    var keys := graph.Keys;
    while keys != {}
      invariant keys <= graph.Keys
      invariant Lists(signed, E) && forall u, v :: (u, v) in E <==> (u, v) in OpenEdges(graph, {}) && u !in keys
    {
      var signer :| signer in keys;
      var todo := graph[signer];
      while todo != {}
        invariant todo <= graph[signer]
        invariant Lists(signed, E)
        invariant forall u, v :: (u, v) in E <==>
          ((u, v) in OpenEdges(graph, {}) && (u !in keys || (u == signer && v !in todo)))
      {
        var fp :| fp in todo;
        signed := AddTo(signed, signer, fp, E);
        E := E + {(signer, fp)};
        todo := todo - {fp};
      }
      keys := keys - {signer};
    }
    SameEdges(E, OpenEdges(graph, {}));
  }

  lemma OpenIsUnblocked(graph: map<Fp, set<Fp>>, revoked: set<Fp>)
    ensures Unblocked(OpenEdges(graph, {}), revoked) == OpenEdges(graph, revoked)
  {
    forall u, v ensures (u, v) in Unblocked(OpenEdges(graph, {}), revoked) <==> (u, v) in OpenEdges(graph, revoked) {
      assert (u, v).1 == v;
    }
    SameEdges(Unblocked(OpenEdges(graph, {}), revoked), OpenEdges(graph, revoked));
  }

  /** The forward score: both counts walk the whole graph and skip revoked keys as they meet them. */
  method ForwardScore(graph: map<Fp, set<Fp>>, target: Fp, root: Fp, maxDepth: int, revoked: set<Fp>, disjoint: bool)
    returns (score: int)
    ensures IsForwardScore(OpenEdges(graph, revoked), root, target, maxDepth, revoked, disjoint, score)
  {
    if target in revoked {
      return 0;
    }
    if target == root {
      return 1;
    }
    if disjoint {
      var signed := ListSets(graph);
      score := DisjointMaxFlow(signed, revoked, OpenEdges(graph, {}), target, root, maxDepth);
      OpenIsUnblocked(graph, revoked);
    } else {
      score := CountPaths(graph, revoked, root, target, maxDepth);
    }
  }

  /** Whether a key belongs in the trusted set. */
  ghost predicate Trusted(E: Edges, root: Fp, fp: Fp, n: int, threshold: int, revoked: set<Fp>, disjoint: bool) {
    fp != root && exists s :: s >= threshold && IsForwardScore(E, root, fp, n, revoked, disjoint, s)
  }

  /** A key has a score of at least one exactly when it is reachable, and none scores less than nothing. */
  lemma ReachableScores(E: Edges, root: Fp, fp: Fp, n: int, revoked: set<Fp>, disjoint: bool, s: int)
    requires fp != root && IsForwardScore(E, root, fp, n, revoked, disjoint, s)
    requires forall u, v :: (u, v) in E ==> v !in revoked
    ensures s >= 0 && (s >= 1 <==> Reachable(E, root, fp, n))
  {
    ReachableHasPath(E, root, fp, n);
    if fp in revoked {
      if Reachable(E, root, fp, n) {
        ReachedBySigner(E, root, fp, n);
      }
    } else if disjoint {
      DisjointPositive(E, root, fp, n, s);
    }
  }

  /** The search finds exactly the reachable keys; and with threshold one, when paths are merely counted, no score
      is needed, since every one of them meets it. */
  lemma CandidatesSuffice(E: Edges, root: Fp, fp: Fp, n: int, threshold: int, revoked: set<Fp>, disjoint: bool,
                          d: map<Fp, nat>)
    requires fp != root && IsDistanceMap(E, root, AtMost(n), d)
    requires forall u, v :: (u, v) in E ==> v !in revoked
    ensures fp in d <==> Reachable(E, root, fp, n)
    ensures threshold >= 1 && Trusted(E, root, fp, n, threshold, revoked, disjoint) ==> fp in d
    ensures fp in d && threshold == 1 && !disjoint ==> Trusted(E, root, fp, n, threshold, revoked, disjoint)
  {
    ReachedIsScored(E, root, fp, n, d);
    ReachableHasPath(E, root, fp, n);
    if threshold >= 1 && Trusted(E, root, fp, n, threshold, revoked, disjoint) {
      var s :| s >= threshold && IsForwardScore(E, root, fp, n, revoked, disjoint, s);
      ReachableScores(E, root, fp, n, revoked, disjoint, s);
    }
    if fp in d && !disjoint {
      assert HasParent(E, d, fp);
      assert IsForwardScore(E, root, fp, n, revoked, disjoint, |SimplePaths(E, root, fp, n)|);
    }
  }

  /** The keys reachable within the depth, other than the root, whose score meets the threshold: by one search alone
      when the threshold is 1 and paths are merely counted, and otherwise by scoring each key the search reaches. */
  method ForwardTrustedSet(graph: map<Fp, set<Fp>>, root: Fp, maxDepth: int, threshold: int, revoked: set<Fp>,
                           disjoint: bool)
    returns (result: set<Fp>)
    ensures forall fp :: fp in result <==>
      (Reachable(OpenEdges(graph, revoked), root, fp, maxDepth)
       && Trusted(OpenEdges(graph, revoked), root, fp, maxDepth, threshold, revoked, disjoint))
  {
    ghost var E := OpenEdges(graph, revoked);
    var signed := ListSets(graph);
    ListsAreEdges(signed, OpenEdges(graph, {}));
    OpenIsUnblocked(graph, revoked);
    var seen := BreadthFirst(signed, revoked, root, AtMost(maxDepth));
    forall fp | fp != root
      ensures fp in seen <==> Reachable(E, root, fp, maxDepth)
      ensures fp in seen && threshold == 1 && !disjoint ==> Trusted(E, root, fp, maxDepth, threshold, revoked, disjoint)
    {
      CandidatesSuffice(E, root, fp, maxDepth, threshold, revoked, disjoint, seen);
    }
    var candidates := seen.Keys - {root};
    if threshold == 1 && !disjoint {
      return candidates;
    }
    result := {};
    var todo := candidates;
    while todo != {}
      invariant todo <= candidates
      invariant forall fp :: fp in result <==>
        (fp in candidates && fp !in todo && Trusted(E, root, fp, maxDepth, threshold, revoked, disjoint))
    {
      var fp :| fp in todo;
      todo := todo - {fp};
      var score := ForwardScore(graph, fp, root, maxDepth, revoked, disjoint);
      if score >= threshold {
        result := result + {fp};
      }
      forall s | IsForwardScore(E, root, fp, maxDepth, revoked, disjoint, s) ensures s == score {
        ForwardScoreUnique(E, root, fp, maxDepth, revoked, disjoint, s, score);
      }
    }
  }

  /** For each key: that it meets the threshold is enough for it to be in the set if and only if the threshold is
      at least one or the key is reachable. */
  lemma LowThreshold(E: Edges, root: Fp, fp: Fp, n: int, threshold: int, revoked: set<Fp>, disjoint: bool, s: int)
    requires fp != root && IsForwardScore(E, root, fp, n, revoked, disjoint, s)
    requires forall u, v :: (u, v) in E ==> v !in revoked
    ensures (Trusted(E, root, fp, n, threshold, revoked, disjoint) ==> Reachable(E, root, fp, n))
      <==> threshold >= 1 || Reachable(E, root, fp, n)
  {
    forall t | IsForwardScore(E, root, fp, n, revoked, disjoint, t)
      ensures t >= 0 && (t >= 1 <==> Reachable(E, root, fp, n))
    {
      ReachableScores(E, root, fp, n, revoked, disjoint, t);
    }
  }
}
