/** Whether the disjoint score is the more conservative one: never above the number of paths within the depth.
    Without a direct signature it is on every graph exactly when the depth is at most five. */
module Conservative {
  import opened SigningGraph
  import opened DepthFilter
  import opened DisjointScorer
  import opened FlowPaths
  import opened KeyCuts
  import opened PathCounter
  import opened TrustScores
  import opened TrustTheorems
  import opened DirectSignature
  import opened DepthLimit

  /** Whatever threshold the disjoint score of `target` meets, the number of paths meets it too. */
  ghost predicate IsConservative(E: Edges, root: Fp, target: Fp, n: int) {
    forall s :: IsDisjointScore(E, root, target, n, s) ==> s <= PathScore(E, root, target, n)
  }

  // ---------- up to a depth of five ----------

  /** The keys that the root has signed and that come first on some simple path within the depth. */
  ghost function FirstSigned(E: Edges, root: Fp, target: Fp, n: int): set<Fp> {
    set p | p in SimplePaths(E, root, target, n) && |p| > 2 :: p[1]
  }

  lemma {:induction false} NoMoreFirstsThanPaths(S: set<seq<Fp>>, F: set<Fp>)
    requires forall v :: v in F ==> exists p :: p in S && |p| > 2 && p[1] == v
    ensures |F| <= |S|
    decreases |S|
  {
    if v :| v in F {
      var p :| p in S && |p| > 2 && p[1] == v;
      forall w | w in F - {v} ensures exists q :: q in S - {p} && |q| > 2 && q[1] == w {
        var q :| q in S && |q| > 2 && q[1] == w;
      }
      NoMoreFirstsThanPaths(S - {p}, F - {v});
    }
  }

  /** A key that the root has signed comes first on such a path if a short enough walk from it to the target does
      not visit the root. */
  lemma WalkMakesFirst(E: Edges, root: Fp, target: Fp, n: int, v: Fp, q: seq<Fp>)
    requires root != target && v != root && v != target && (root, v) in E
    requires IsWalk(E, v, target, q) && root !in q && |q| <= n
    ensures v in FirstSigned(E, root, target, n)
  {
    var r := WalkToPath(E, v, target, q);
    var p := [root] + r;
    WalkPrepend(E, root, v, target, r);
    SimplePathsExact(E, root, target, n, p);
    assert p[1] == v && |p| > 2;
  }

  /** A walk to the target over the root takes at least two hops more than it takes to the root. */
  lemma BackOverRoot(E: Edges, root: Fp, target: Fp, v: Fp, q: seq<Fp>)
    requires root != target && (root, target) !in E && v != root && IsWalk(E, v, target, q) && root in q
    ensures |q| >= 4
  {
    var i :| 0 <= i < |q| && q[i] == root;
    assert i < |q| - 1 && Step(E, q, i);
  }

  /** The last key of a path that the root has signed, no key after place `k` being one. */
  lemma {:induction false} LastSigned(E: Edges, root: Fp, p: seq<Fp>, k: nat) returns (j: nat)
    requires 0 < k < |p| && (root, p[1]) in E && forall i :: k < i < |p| ==> (root, p[i]) !in E
    ensures 0 < j < |p| && (root, p[j]) in E && forall i :: j < i < |p| ==> (root, p[i]) !in E
  {
    j := k;
    if (root, p[k]) !in E {
      j := LastSigned(E, root, p, k - 1);
    }
  }

  /** Up to a depth of five every filtered path meets a key that comes first on a simple path within the depth. */
  lemma FirstsAreGate(E: Edges, root: Fp, target: Fp, n: int, p: seq<Fp>)
    requires root != target && !((root, target) in E && n >= 1) && n <= 5
    requires FilteredRoute(E, root, target, n).Has(p)
    ensures exists v :: v in Interior(p) && v in FirstSigned(E, root, target, n)
  {
    var H := Filtered(E, root, target, n);
    WalkIn(H, E, root, target, p);
    assert Step(E, p, 0) && Step(H, p, 0);
    var j := LastSigned(E, root, p, |p| - 1);
    var v := p[j];
    assert j < |p| - 1 && v in Interior(p) && Step(H, p, j) && Step(E, p, j);
    var a, q :| IsWalk(E, root, v, a) && IsWalk(E, p[j + 1], target, q) && |a| + |q| - 1 <= n;
    if p[j + 1] == target {
      WalkMakesFirst(E, root, target, n, v, [v, target]);
    } else if root !in q {
      WalkPrepend(E, v, p[j + 1], target, q);
      WalkMakesFirst(E, root, target, n, v, [v] + q);
    } else {
      SecondStep(E, root, target, n, p, j);
    }
  }

  /** If the walk on from the next key leads back over the root, the one after that has a walk that does not. */
  lemma SecondStep(E: Edges, root: Fp, target: Fp, n: int, p: seq<Fp>, j: nat)
    requires root != target && (root, target) !in E && n <= 5 && FilteredRoute(E, root, target, n).Has(p)
    requires IsWalk(E, root, target, p)
    requires 0 < j < |p| - 1 && p[j + 1] != target && (root, p[j]) in E && (root, p[j + 1]) !in E
    ensures p[j] in FirstSigned(E, root, target, n)
  {
    var H := Filtered(E, root, target, n);
    var v, w := p[j], p[j + 1];
    assert Step(E, p, j) && Step(H, p, j + 1) && Step(E, p, j + 1);
    var b, q :| IsWalk(E, root, w, b) && IsWalk(E, p[j + 2], target, q) && |b| + |q| - 1 <= n;
    assert Step(E, b, 0);
    if root in q {
      BackOverRoot(E, root, target, p[j + 2], q);
      assert false;
    }
    WalkPrepend(E, w, p[j + 2], target, q);
    WalkPrepend(E, v, w, target, [w] + q);
    WalkMakesFirst(E, root, target, n, v, [v] + ([w] + q));
  }

  /** Up to a depth of five, without a direct signature, the disjoint score is at most the number of simple paths
      within the depth. */
  lemma DisjointAtMostPaths(E: Edges, root: Fp, target: Fp, n: int, s: int)
    requires root != target && !((root, target) in E && n >= 1) && n <= 5
    requires IsDisjointScore(E, root, target, n, s)
    ensures s <= PathScore(E, root, target, n)
  {
    var r := FilteredRoute(E, root, target, n);
    var F :| r.Packing(F) && |F| == s;
    var X := FirstSigned(E, root, target, n);
    forall p | p in F ensures exists v :: v in Interior(p) && v in X {
      assert r.Has(p);
      FirstsAreGate(E, root, target, n, p);
    }
    MeetingPaths(r, F, X);
    NoMoreFirstsThanPaths(SimplePaths(E, root, target, n), X);
  }

  // ---------- beyond ----------

  /** A hub and a chain of 2n - 4 keys, numbered from 3, between the root and the target. The first half of the chain
      has signed the root and been signed by the hub; the second half has signed the hub and been signed by the
      target. */
  predicate LoopLink(n: nat, i: nat, j: nat) {
    || (i == ROOT && (j == HUB || j == 3))
    || (3 <= i <= 2 * n - 3 && j == i + 1)
    || (i == 2 * n - 2 && j == TARGET)
    || (i == HUB && (j == TARGET || 3 <= j <= n))
    || (n + 1 <= i <= 2 * n - 2 && j == HUB)
    || (3 <= i <= n && j == ROOT)
    || (i == TARGET && n + 1 <= j <= 2 * n - 2)
  }

  function LoopGraph(n: nat): Edges {
    Numbered(2 * n, (i: nat, j: nat) => LoopLink(n, i, j))
  }

  lemma LoopEdge(n: nat, i: nat, j: nat)
    requires n >= 6 && LoopLink(n, i, j)
    ensures (Key(i), Key(j)) in LoopGraph(n)
  {
    assert i < 2 * n && j < 2 * n;
  }

  /** From the root to the keys of the first half it takes at most two hops, to the others three. */
  lemma HopsThere(n: nat, i: nat) returns (p: seq<Fp>)
    requires n >= 6 && (i == ROOT || 3 <= i <= 2 * n - 2)
    ensures IsWalk(LoopGraph(n), Key(ROOT), Key(i), p) && |p| == if i == ROOT then 1 else if i <= n then 3 else 4
  {
    LoopEdge(n, ROOT, HUB);
    LoopEdge(n, HUB, TARGET);
    if i == ROOT {
      p := [Key(ROOT)];
    } else if i <= n {
      LoopEdge(n, HUB, i);
      p := [Key(ROOT), Key(HUB), Key(i)];
    } else {
      LoopEdge(n, TARGET, i);
      p := [Key(ROOT), Key(HUB), Key(TARGET), Key(i)];
    }
    forall k | 0 <= k < |p| - 1 ensures Step(LoopGraph(n), p, k) { }
  }

  /** And from the keys of the first half to the target three, from the others two. */
  lemma HopsBack(n: nat, i: nat) returns (q: seq<Fp>)
    requires n >= 6 && (i == TARGET || 3 <= i <= 2 * n - 2)
    ensures IsWalk(LoopGraph(n), Key(i), Key(TARGET), q) && |q| == if i == TARGET then 1 else if i <= n then 4 else 3
  {
    LoopEdge(n, ROOT, HUB);
    LoopEdge(n, HUB, TARGET);
    if i == TARGET {
      q := [Key(TARGET)];
    } else if i <= n {
      LoopEdge(n, i, ROOT);
      q := [Key(i), Key(ROOT), Key(HUB), Key(TARGET)];
    } else {
      LoopEdge(n, i, HUB);
      q := [Key(i), Key(HUB), Key(TARGET)];
    }
    forall k | 0 <= k < |q| - 1 ensures Step(LoopGraph(n), q, k) { }
  }

  /** The path along the chain: the root, the keys from 3 on, the target. */
  function ChainPath(n: nat): (p: seq<Fp>)
    requires n >= 6
    ensures |p| == 2 * n - 2 && forall i :: 0 <= i < |p| ==> p[i] == Key(ChainPlace(n, i))
  {
    seq(2 * n - 2, i requires 0 <= i => Key(ChainPlace(n, i)))
  }

  function ChainPlace(n: nat, i: nat): nat {
    if i == 0 then ROOT else if i <= 2 * n - 4 then i + 2 else TARGET
  }

  lemma ChainSurvives(n: nat)
    requires n >= 6
    ensures FilteredRoute(LoopGraph(n), Key(ROOT), Key(TARGET), n).Has(ChainPath(n))
  {
    var E, p := LoopGraph(n), ChainPath(n);
    forall i | 0 <= i < |p| - 1 ensures Step(Filtered(E, Key(ROOT), Key(TARGET), n), p, i) {
      var u, v := ChainPlace(n, i), ChainPlace(n, i + 1);
      LoopEdge(n, u, v);
      KeysDistinct(u, TARGET);
      KeysDistinct(v, ROOT);
      var a := HopsThere(n, u);
      var b := HopsBack(n, v);
      assert IsWalk(E, Key(ROOT), p[i], a) && IsWalk(E, p[i + 1], Key(TARGET), b) && |a| + |b| - 1 <= n;
      assert OnShortWalk(E, Key(ROOT), Key(TARGET), n, (p[i], p[i + 1]));
    }
    forall i, j | 0 <= i < j < |p| ensures p[i] != p[j] {
      KeysDistinct(ChainPlace(n, i), ChainPlace(n, j));
    }
  }

  lemma LoopLinks(n: nat, i: nat, v: Fp) returns (j: nat)
    requires (Key(i), v) in LoopGraph(n)
    ensures v == Key(j) && LoopLink(n, i, j)
  {
    var k: nat, l: nat :| LoopLink(n, k, l) && (Key(i), v) == (Key(k), Key(l));
    KeysDistinct(i, k);
    j := l;
  }

  /** A simple path from the root to the target within the depth. */
  ghost predicate ShortLoopPath(n: nat, p: seq<Fp>) {
    n >= 6 && Route(LoopGraph(n), Key(ROOT), Key(TARGET), 1, AtMost(n)).Has(p)
  }

  /** As long as it has not come to the hub it runs along the chain. */
  lemma {:induction false} BeforeHub(n: nat, p: seq<Fp>, i: nat)
    requires ShortLoopPath(n, p) && 1 <= i < |p| && forall k :: 0 <= k <= i ==> p[k] != Key(HUB)
    ensures p[i] == Key(i + 2)
  {
    if i > 1 { BeforeHub(n, p, i - 1); }
    assert Step(LoopGraph(n), p, i - 1) && p[0] != p[i];
    var j := LoopLinks(n, if i == 1 then ROOT else i + 1, p[i]);
  }

  /** And from the hub on, if it does not go straight to the target. */
  lemma {:induction false} PastHub(n: nat, p: seq<Fp>, j: nat, t: nat)
    requires ShortLoopPath(n, p) && 2 + t < |p| && p[1] == Key(HUB) && p[2] == Key(j) && 3 <= j <= n
    ensures p[2 + t] == Key(j + t)
  {
    if t > 0 {
      PastHub(n, p, j, t - 1);
      assert Step(LoopGraph(n), p, 1 + t) && p[2 + t] != p[0] && p[2 + t] != p[1];
      var k := LoopLinks(n, j + t - 1, p[2 + t]);
    }
  }

  /** Only the root and the second half of the chain have signed the hub. */
  lemma IntoHub(n: nat, i: nat)
    ensures (Key(i), Key(HUB)) in LoopGraph(n) ==> i == ROOT || i >= n + 1
  {
    if (Key(i), Key(HUB)) in LoopGraph(n) {
      var j := LoopLinks(n, i, Key(HUB));
      KeysDistinct(j, HUB);
    }
  }

  /** So there is only one, over the hub: any other is too long. */
  lemma OnlyOverHub(n: nat, p: seq<Fp>)
    requires ShortLoopPath(n, p)
    ensures p == [Key(ROOT), Key(HUB), Key(TARGET)]
  {
    var last := |p| - 1;
    KeysDistinct(HUB, ROOT);
    KeysDistinct(HUB, TARGET);
    if k :| 0 <= k < |p| && p[k] == Key(HUB) {
      assert Step(LoopGraph(n), p, k - 1) && Step(LoopGraph(n), p, k);
      if k > 1 {
        IntoHub(n, k + 1);
        BeforeHub(n, p, k - 1);
      }
      var j := LoopLinks(n, HUB, p[2]);
      if j != TARGET {
        KeysDistinct(j + (last - 2), TARGET);
        PastHub(n, p, j, last - 2);
        assert false;
      }
    } else {
      KeysDistinct(last + 2, TARGET);
      BeforeHub(n, p, last);
    }
  }

  lemma LoopHubPath(n: nat)
    requires n >= 6
    ensures Key(ROOT) != Key(TARGET) && (Key(ROOT), Key(TARGET)) !in LoopGraph(n)
    ensures FilteredRoute(LoopGraph(n), Key(ROOT), Key(TARGET), n).Has([Key(ROOT), Key(HUB), Key(TARGET)])
  {
    var E, p := LoopGraph(n), [Key(ROOT), Key(HUB), Key(TARGET)];
    LoopEdge(n, ROOT, HUB);
    LoopEdge(n, HUB, TARGET);
    KeysDistinct(ROOT, HUB);
    KeysDistinct(ROOT, TARGET);
    KeysDistinct(HUB, TARGET);
    assert Step(E, p, 0) && Step(E, p, 1);
    ShortPathSurvives(E, Key(ROOT), Key(TARGET), n, p);
    if (Key(ROOT), Key(TARGET)) in E {
      var j := LoopLinks(n, ROOT, Key(TARGET));
      KeysDistinct(j, TARGET);
    }
  }

  /** The chain survives the filter beside the path over the hub, which alone is within the depth. */
  lemma LoopScores(n: nat) returns (s: int)
    requires n >= 6
    ensures Key(ROOT) != Key(TARGET) && (Key(ROOT), Key(TARGET)) !in LoopGraph(n)
    ensures IsDisjointScore(LoopGraph(n), Key(ROOT), Key(TARGET), n, s)
    ensures s >= 2 && PathScore(LoopGraph(n), Key(ROOT), Key(TARGET), n) <= 1
  {
    var E, p, q := LoopGraph(n), ChainPath(n), [Key(ROOT), Key(HUB), Key(TARGET)];
    LoopHubPath(n);
    s := SomeScore(E, Key(ROOT), Key(TARGET), n);
    ChainSurvives(n);
    forall i | 0 < i < |p| - 1 ensures p[i] != Key(HUB) {
      KeysDistinct(ChainPlace(n, i), HUB);
    }
    assert forall x :: x in Interior(q) ==> x == q[1];
    assert |p| > |q| && |{p, q}| == 2;
    assert FilteredRoute(E, Key(ROOT), Key(TARGET), n).Packing({p, q});
    forall r | r in SimplePaths(E, Key(ROOT), Key(TARGET), n) ensures r == q {
      SimplePathsExact(E, Key(ROOT), Key(TARGET), n, r);
      OnlyOverHub(n, r);
    }
    AtMostOne(SimplePaths(E, Key(ROOT), Key(TARGET), n));
  }

  /** At depth `n` the disjoint score is the more conservative one on every graph without a direct signature. */
  ghost predicate AlwaysConservative(n: int) {
    forall E, root, target {:trigger IsConservative(E, root, target, n)} ::
      root != target && (root, target) !in E ==> IsConservative(E, root, target, n)
  }

  /** That is so if and only if the depth is at most five. */
  lemma DepthFiveIsTheLimit(n: int)
    ensures AlwaysConservative(n) <==> n <= 5
  {
    if n <= 5 {
      forall E, root, target | root != target && (root, target) !in E ensures IsConservative(E, root, target, n) {
        forall s | IsDisjointScore(E, root, target, n, s) ensures s <= PathScore(E, root, target, n) {
          DisjointAtMostPaths(E, root, target, n, s);
        }
      }
    } else {
      var s := LoopScores(n);
      assert !IsConservative(LoopGraph(n), Key(ROOT), Key(TARGET), n);
    }
  }

  // ---------- beside a direct signature ----------

  /** With a direct signature it is so, at every depth, if and only if there are at least as many paths within the
      depth as keys in a least gate and intermediate keys together, and two more. */
  lemma ConservativeWithDirect(E: Edges, root: Fp, target: Fp, n: int, X: set<Fp>)
    requires root != target && (root, target) in E && n >= 1
    requires Gate(FilteredRoute(E, root, target, n), X)
    requires forall Y :: Gate(FilteredRoute(E, root, target, n), Y) ==> |X| <= |Y|
    ensures IsConservative(E, root, target, n) <==>
      |X| + |Middle(E, root, target, n)| + 2 <= PathScore(E, root, target, n)
  {
    forall s | IsDisjointScore(E, root, target, n, s) ensures s == |X| + |Middle(E, root, target, n)| + 2 {
      var Y := ScoreIsGate(E, root, target, n, s);
    }
    var s := SomeScore(E, root, target, n);
  }

  lemma {:induction false} AtMostTheKeys(root: Fp, target: Fp, S: set<seq<Fp>>, M: set<Fp>)
    requires forall p :: p in S ==> exists x :: x in M && p == [root, x, target]
    ensures |S| <= |M|
    decreases |M|
  {
    if p :| p in S {
      var x :| x in M && p == [root, x, target];
      forall q | q in S - {p} ensures exists y :: y in M - {x} && q == [root, y, target] {
        var y :| y in M && q == [root, y, target];
      }
      AtMostTheKeys(root, target, S - {p}, M - {x});
    }
  }

  lemma TwoHopShape(E: Edges, root: Fp, target: Fp, n: int, p: seq<Fp>)
    requires root != target && n <= 2 && p in SimplePaths(E, root, target, n) && p != [root, target]
    ensures |p| == 3 && p[1] in Middle(E, root, target, n) && p == [root, p[1], target]
  {
    SimplePathsExact(E, root, target, n, p);
    assert |p| == 2 ==> p == [root, target];
    var a, b := [root, p[1]], [p[1], target];
    assert Step(E, p, 0) && Step(E, p, 1) && p == [root, p[1], target];
    assert Step(E, a, 0) && Step(E, b, 0);
    ReachedIsKey(E, root, p[1], a);
    assert IsWalk(E, root, p[1], a) && IsWalk(E, p[1], target, b) && |a| + |b| - 2 <= n;
  }

  /** Up to the default depth of two it never is so. */
  lemma NeverAtDepthTwo(E: Edges, root: Fp, target: Fp, n: int, s: int)
    requires root != target && (root, target) in E && 1 <= n <= 2
    requires IsDisjointScore(E, root, target, n, s)
    ensures s > PathScore(E, root, target, n)
  {
    var M, S := Middle(E, root, target, n), SimplePaths(E, root, target, n);
    forall p | p in S - {[root, target]} ensures exists x :: x in M && p == [root, x, target] {
      TwoHopShape(E, root, target, n, p);
    }
    AtMostTheKeys(root, target, S - {[root, target]}, M);
    assert |S| <= |S - {[root, target]}| + 1;
  }

  ghost predicate ConservativeEverywhere(n: int) {
    forall E, root, target {:trigger IsConservative(E, root, target, n)} ::
      root != target ==> IsConservative(E, root, target, n)
  }

  /** So it holds on every graph, direct signatures included, only where no hop is allowed. */
  lemma NoDepthIsConservative(n: int)
    ensures ConservativeEverywhere(n) <==> n <= 0
  {
    if n <= 0 {
      forall E, root, target | root != target ensures IsConservative(E, root, target, n) {
        forall s | IsDisjointScore(E, root, target, n, s) ensures s <= PathScore(E, root, target, n) {
          DisjointAtMostPaths(E, root, target, n, s);
        }
      }
    } else {
      var E: Edges := {("R", "T")};
      var s := SomeScore(E, "R", "T", n);
      forall p | p in SimplePaths(E, "R", "T", n) ensures p == ["R", "T"] {
        SimplePathsExact(E, "R", "T", n, p);
        assert Step(E, p, 0);
      }
      AtMostOne(SimplePaths(E, "R", "T", n));
      assert !IsConservative(E, "R", "T", n);
    }
  }
}
