/** Two promises of the disjoint score hold on every graph in which the root has not directly signed the target
    exactly when the depth is at most four: that it is the documented score, and that no one key is worth more than
    one. For each larger depth there is such a graph on which the per-edge filter lets through a path that is too
    long, and on which both fail. With a direct signature neither holds: see `DirectSignature`. */
module DepthLimit {
  import opened SigningGraph
  import opened DepthFilter
  import opened DisjointScorer
  import opened PathCounter
  import opened TrustScores
  import opened TrustTheorems

  // ---------- the graph ----------

  const ROOT: nat := 0
  const TARGET: nat := 1
  const HUB: nat := 2

  function Key(i: nat): Fp {
    seq(i + 1, _ => 'A')
  }

  /** The graph on the first `k` keys with the edges that `link` says. */
  function Numbered(k: nat, link: (nat, nat) -> bool): Edges {
    set i: nat, j: nat | i < k && j < k && link(i, j) :: (Key(i), Key(j))
  }

  lemma KeysDistinct(i: nat, j: nat)
    ensures Key(i) == Key(j) <==> i == j
  {
    assert |Key(i)| == i + 1 && |Key(j)| == j + 1;
  }

  /** A chain of `n` keys, numbered from 3, that takes n + 1 hops from the root to the target; and a hub that the
      root has signed, that has signed the target, and that has signed each key of the chain and been signed by it. */
  predicate Link(n: nat, i: nat, j: nat) {
    || (i == ROOT && (j == HUB || j == 3))
    || (3 <= i <= n + 1 && j == i + 1)
    || (i == n + 2 && j == TARGET)
    || (i == HUB && (j == TARGET || 3 <= j <= n + 2))
    || (3 <= i <= n + 2 && j == HUB)
  }

  function HubGraph(n: nat): Edges {
    Numbered(n + 4, (i: nat, j: nat) => Link(n, i, j))
  }

  lemma LinkEdge(n: nat, i: nat, j: nat)
    requires Link(n, i, j)
    ensures (Key(i), Key(j)) in HubGraph(n)
  {
    assert i < n + 4 && j < n + 4;
  }

  lemma EdgeLinks(n: nat, i: nat, v: Fp) returns (j: nat)
    requires (Key(i), v) in HubGraph(n)
    ensures v == Key(j) && Link(n, i, j)
  {
    var k: nat, l: nat :| Link(n, k, l) && (Key(i), v) == (Key(k), Key(l));
    KeysDistinct(i, k);
    j := l;
  }

  // ---------- the chain passes the filter ----------

  /** Number `i` of the chain's path, the root being number 0 and the target number n + 1. */
  function Place(n: nat, i: nat): nat {
    if i == 0 then ROOT else if i <= n then i + 2 else TARGET
  }

  function LongPath(n: nat): (p: seq<Fp>)
    ensures |p| == n + 2 && forall i :: 0 <= i < |p| ==> p[i] == Key(Place(n, i))
  {
    seq(n + 2, i requires 0 <= i => Key(Place(n, i)))
  }

  lemma LongNoRepeats(n: nat)
    ensures NoRepeats(LongPath(n))
  {
    forall i, j | 0 <= i < j < n + 2 ensures LongPath(n)[i] != LongPath(n)[j] {
      KeysDistinct(Place(n, i), Place(n, j));
    }
  }

  /** From the root over the hub to any key of the chain, and from there over the hub to the target, takes two
      hops each. */
  lemma Detours(n: nat, i: nat) returns (p: seq<Fp>, q: seq<Fp>)
    requires i <= n + 1
    ensures i <= n ==> IsWalk(HubGraph(n), Key(ROOT), Key(Place(n, i)), p) && |p| <= 3
    ensures i >= 1 ==> IsWalk(HubGraph(n), Key(Place(n, i)), Key(TARGET), q) && |q| <= 3
  {
    var v := Key(Place(n, i));
    LinkEdge(n, ROOT, HUB);
    LinkEdge(n, HUB, TARGET);
    p := if i == 0 then [v] else [Key(ROOT), Key(HUB), v];
    q := if i == n + 1 then [v] else [v, Key(HUB), Key(TARGET)];
    if 1 <= i <= n {
      LinkEdge(n, HUB, Place(n, i));
      LinkEdge(n, Place(n, i), HUB);
    }
    forall k | 0 <= k < |p| - 1 && i <= n ensures Step(HubGraph(n), p, k) { }
    forall k | 0 <= k < |q| - 1 && i >= 1 ensures Step(HubGraph(n), q, k) { }
  }

  lemma LongSurvives(n: nat)
    requires n >= 5
    ensures IsWalk(Filtered(HubGraph(n), Key(ROOT), Key(TARGET), n), Key(ROOT), Key(TARGET), LongPath(n))
  {
    var p := LongPath(n);
    forall i | 0 <= i < |p| - 1 ensures Step(Filtered(HubGraph(n), Key(ROOT), Key(TARGET), n), p, i) {
      LinkEdge(n, Place(n, i), Place(n, i + 1));
      KeysDistinct(Place(n, i), TARGET);
      KeysDistinct(Place(n, i + 1), ROOT);
      var a, _ := Detours(n, i);
      var _, b := Detours(n, i + 1);
      assert OnShortWalk(HubGraph(n), Key(ROOT), Key(TARGET), n, (p[i], p[i + 1]));
    }
  }

  lemma HubPath(n: nat)
    requires n >= 2
    ensures Route(HubGraph(n), Key(ROOT), Key(TARGET), 1, AtMost(n)).Has([Key(ROOT), Key(HUB), Key(TARGET)])
  {
    var _, q := Detours(n, 1);
    LinkEdge(n, ROOT, HUB);
    LinkEdge(n, HUB, TARGET);
    KeysDistinct(ROOT, HUB);
    KeysDistinct(ROOT, TARGET);
    KeysDistinct(HUB, TARGET);
    var p := [Key(ROOT), Key(HUB), Key(TARGET)];
    forall k | 0 <= k < |p| - 1 ensures Step(HubGraph(n), p, k) { }
  }

  /** The filtered subgraph holds two paths with no intermediate key in common. */
  lemma TwoFiltered(n: nat) returns (F: set<seq<Fp>>)
    requires n >= 5
    ensures FilteredRoute(HubGraph(n), Key(ROOT), Key(TARGET), n).Packing(F) && |F| == 2
  {
    var p, q := LongPath(n), [Key(ROOT), Key(HUB), Key(TARGET)];
    LongSurvives(n);
    LongNoRepeats(n);
    HubPath(n);
    KeysDistinct(ROOT, TARGET);
    ShortPathSurvives(HubGraph(n), Key(ROOT), Key(TARGET), n, q);
    forall i | 0 < i < |p| - 1 ensures p[i] != Key(HUB) {
      KeysDistinct(Place(n, i), HUB);
    }
    assert forall x :: x in Interior(q) ==> x == q[1];
    assert |p| > |q|;
    F := {p, q};
  }

  // ---------- within the depth every path goes through the hub ----------

  lemma {:induction false} AlongChain(n: nat, p: seq<Fp>, i: nat)
    requires IsWalk(HubGraph(n), Key(ROOT), Key(TARGET), p) && 1 <= i < |p| && i <= n
    requires forall k :: 0 <= k < |p| ==> p[k] != Key(HUB)
    ensures p[i] == Key(i + 2)
  {
    if i > 1 { AlongChain(n, p, i - 1); }
    assert Step(HubGraph(n), p, i - 1);
    var j := EdgeLinks(n, if i == 1 then ROOT else i + 1, p[i]);
  }

  lemma ThroughHub(n: nat, p: seq<Fp>)
    requires Route(HubGraph(n), Key(ROOT), Key(TARGET), 1, AtMost(n)).Has(p)
    ensures Key(HUB) in Interior(p)
  {
    KeysDistinct(HUB, ROOT);
    KeysDistinct(HUB, TARGET);
    if Key(HUB) !in Interior(p) {
      forall k | 0 <= k < |p| ensures p[k] != Key(HUB) {
        if 0 < k < |p| - 1 { assert p[k] in Interior(p); }
      }
      KeysDistinct(|p| + 1, TARGET);
      AlongChain(n, p, |p| - 1);
      assert false;
    }
  }

  // ---------- the two promises ----------

  /** At depth `n` the code computes the documented score on every graph in which the root has not directly
      signed the target. */
  ghost predicate AlwaysDocumented(n: int) {
    forall E, root, target, s ::
      root != target && (root, target) !in E && IsDisjointScore(E, root, target, n, s) ==>
        IsDocumentedScore(E, root, target, n, s)
  }

  /** At depth `n`, on every such graph, losing one intermediate key lowers the code's score by at most one and
      never raises it. */
  ghost predicate NoKeyWorthMore(n: int) {
    forall E, root, target {:trigger EachKeyIsWorthOne(E, root, target, n)} ::
      root != target && (root, target) !in E ==> EachKeyIsWorthOne(E, root, target, n)
  }

  lemma HubScore(n: nat) returns (s: int)
    requires n >= 5
    ensures Key(ROOT) != Key(TARGET) && (Key(ROOT), Key(TARGET)) !in HubGraph(n)
    ensures IsDisjointScore(HubGraph(n), Key(ROOT), Key(TARGET), n, s) && s >= 2
  {
    KeysDistinct(ROOT, TARGET);
    if (Key(ROOT), Key(TARGET)) in HubGraph(n) {
      var j := EdgeLinks(n, ROOT, Key(TARGET));
      KeysDistinct(j, TARGET);
    }
    s := PackingNumberExists(FilteredRoute(HubGraph(n), Key(ROOT), Key(TARGET), n));
    var F := TwoFiltered(n);
  }

  /** The score can exceed the documented one: the hub graph has two filtered paths but one within the depth. */
  lemma DeepScoreExceeds(n: int) returns (E: Edges, root: Fp, target: Fp, s: int, d: int)
    requires n >= 5
    ensures root != target && (root, target) !in E
    ensures IsDisjointScore(E, root, target, n, s) && IsDocumentedScore(E, root, target, n, d)
    ensures d < s && !IsDocumentedScore(E, root, target, n, s)
  {
    E, root, target, d := HubGraph(n), Key(ROOT), Key(TARGET), 1;
    s := HubScore(n);
    HubPath(n);
    assert Route(E, root, target, 1, AtMost(n)).Packing({[root, Key(HUB), target]});
    forall G | Route(E, root, target, 1, AtMost(n)).Packing(G) ensures |G| <= 1 {
      forall p | p in G ensures Key(HUB) in Interior(p) {
        ThroughHub(n, p);
      }
      AtMostOne(G);
    }
  }

  /** Losing the hub costs the whole score, which is at least two. */
  lemma DeepKeyIsWorthMore(n: int) returns (E: Edges, root: Fp, target: Fp, x: Fp, s: int, t: int)
    requires n >= 5
    ensures root != target && (root, target) !in E && x != root && x != target
    ensures IsDisjointScore(E, root, target, n, s) && IsDisjointScore(WithoutKeys(E, {x}), root, target, n, t)
    ensures s > t + 1
  {
    E, root, target, x := HubGraph(n), Key(ROOT), Key(TARGET), Key(HUB);
    s := HubScore(n);
    KeysDistinct(HUB, ROOT);
    KeysDistinct(HUB, TARGET);
    var D := WithoutKeys(E, {x});
    t := PackingNumberExists(FilteredRoute(D, root, target, n));
    assert (root, target) !in D;
    DisjointPositive(D, root, target, n, t);
    forall p ensures p !in SimplePaths(D, root, target, n) {
      SimplePathsExact(D, root, target, n, p);
      PathAvoids(E, root, target, {x}, p);
      if Route(E, root, target, 1, AtMost(n)).Has(p) {
        ThroughHub(n, p);
      }
    }
    assert SimplePaths(D, root, target, n) == {};
  }

  /** Without a direct signature the code computes the documented score on every graph if and only if the depth is
      at most four. */
  lemma DepthFourIsTheLimit(n: int)
    ensures AlwaysDocumented(n) <==> n <= 4
  {
    if n <= 4 {
      forall E, root, target, s |
        root != target && (root, target) !in E && IsDisjointScore(E, root, target, n, s)
        ensures IsDocumentedScore(E, root, target, n, s)
      {
        DisjointScoreExact(E, root, target, n, s);
      }
    } else {
      var E, root, target, s, d := DeepScoreExceeds(n);
    }
  }

  /** Without a direct signature no one key is worth more than one on every graph if and only if the depth is at
      most four. */
  lemma DepthFourKeepsKeysCheap(n: int)
    ensures NoKeyWorthMore(n) <==> n <= 4
  {
    if n <= 4 {
      forall E, root, target | root != target && (root, target) !in E ensures EachKeyIsWorthOne(E, root, target, n) {
        forall x, s, t | x != root && x != target && IsDisjointScore(E, root, target, n, s)
          && IsDisjointScore(WithoutKeys(E, {x}), root, target, n, t) ensures t <= s <= t + 1
        {
          assert {x} + {} == {x};
          LosingKeysLowers(E, root, target, n, {x}, s, t);
          LosingKeysCosts(E, root, target, n, {x}, {}, s, t);
        }
      }
    } else {
      var E, root, target, x, s, t := DeepKeyIsWorthMore(n);
      assert !EachKeyIsWorthOne(E, root, target, n);
    }
  }
}
