/** What a direct signature of the root on the target does to the promise that no single intermediate key is worth
    more than one: each intermediate key also counts in the share of the direct signature, so a key that all paths
    need is worth two. */
module DirectSignature {
  import opened SigningGraph
  import opened DepthFilter
  import opened DisjointScorer
  import opened FlowPaths
  import opened KeyCuts
  import opened TrustTheorems

  /** Some path over filtered edges has an intermediate key. */
  ghost predicate HasIndirectPath(E: Edges, root: Fp, target: Fp, n: int) {
    exists p :: FilteredRoute(E, root, target, n).Has(p)
  }

  /** For a depth of at most four that is so if and only if some trust path within the depth has one. */
  lemma IndirectIsShort(E: Edges, root: Fp, target: Fp, n: int)
    requires root != target && n <= 4
    ensures HasIndirectPath(E, root, target, n) <==> exists p :: Route(E, root, target, 2, AtMost(n)).Has(p)
  {
    if p :| FilteredRoute(E, root, target, n).Has(p) {
      var q := Shorten(E, root, target, n, p);
    }
    if p :| Route(E, root, target, 2, AtMost(n)).Has(p) {
      ShortPathSurvives(E, root, target, n, p);
      assert FilteredRoute(E, root, target, n).Has(p);
    }
  }

  /** No intermediate key is one only thanks to another. */
  ghost predicate NoneBehindAnother(E: Edges, root: Fp, target: Fp, n: int) {
    forall x, y :: x in Middle(E, root, target, n) && y in Middle(E, root, target, n) && x != y ==>
      y in Middle(WithoutKeys(E, {x}), root, target, n)
  }

  lemma SomeScore(E: Edges, root: Fp, target: Fp, n: int) returns (s: int)
    ensures IsDisjointScore(E, root, target, n, s)
  {
    var k := PackingNumberExists(FilteredRoute(E, root, target, n));
    s := k + DirectShare(E, root, target, n);
  }

  /** Once a key of a gate is gone, fewer paths are left than the gate has keys. */
  lemma GateLosesOne(E: Edges, root: Fp, target: Fp, n: int, X: set<Fp>, x: Fp, k: int)
    requires Gate(FilteredRoute(E, root, target, n), X) && x in X
    requires FilteredRoute(WithoutKeys(E, {x}), root, target, n).PackingNumber(k)
    ensures k < |X|
  {
    var r := FilteredRoute(WithoutKeys(E, {x}), root, target, n);
    var G :| r.Packing(G) && |G| == k;
    forall q | q in G ensures exists y :: y in Interior(q) && y in X - {x} {
      assert r.Has(q);
      FilteredPathBack(E, root, target, n, {x}, q);
      var y :| y in Interior(q) && y in X;
    }
    MeetingPaths(r, G, X - {x});
  }

  /** A key of a least gate is worth two: a path and a part of the direct share. */
  lemma GateKeyIsWorthTwo(E: Edges, root: Fp, target: Fp, n: int, X: set<Fp>, x: Fp, s: int, t: int)
    requires root != target && (root, target) in E && n >= 1
    requires X <= Middle(E, root, target, n) && x in X && |X| == s - DirectShare(E, root, target, n)
    requires Gate(FilteredRoute(E, root, target, n), X)
    requires IsDisjointScore(WithoutKeys(E, {x}), root, target, n, t)
    ensures s >= t + 2
  {
    var M := Middle(E, root, target, n);
    GateLosesOne(E, root, target, n, X, x, t - DirectShare(WithoutKeys(E, {x}), root, target, n));
    SharesCompared(E, root, target, n, {x});
    assert M * {x} == {x};
  }

  /** Some key is worth two or more if there is an indirect path beside the direct signature. */
  lemma SomeKeyIsWorthTwo(E: Edges, root: Fp, target: Fp, n: int) returns (x: Fp, s: int, t: int)
    requires root != target && (root, target) in E && n >= 1 && HasIndirectPath(E, root, target, n)
    ensures x in Middle(E, root, target, n)
    ensures IsDisjointScore(E, root, target, n, s) && IsDisjointScore(WithoutKeys(E, {x}), root, target, n, t)
    ensures s >= t + 2
  {
    var p :| FilteredRoute(E, root, target, n).Has(p);
    s := SomeScore(E, root, target, n);
    var X := ScoreIsGate(E, root, target, n, s);
    x :| x in Interior(p) && x in X;
    t := SomeScore(WithoutKeys(E, {x}), root, target, n);
    GateKeyIsWorthTwo(E, root, target, n, X, x, s, t);
  }

  lemma NothingIndirect(E: Edges, root: Fp, target: Fp, n: int, k: int)
    requires !HasIndirectPath(E, root, target, n) && FilteredRoute(E, root, target, n).PackingNumber(k)
    ensures k == 0
  {
    var r := FilteredRoute(E, root, target, n);
    var F :| r.Packing(F) && |F| == k;
    assert forall p :: p in F ==> r.Has(p);
    assert F == {};
  }

  /** Where nothing but the direct signature counts, losing keys costs what the direct share loses. */
  lemma OnlyShareCounts(E: Edges, root: Fp, target: Fp, n: int, X: set<Fp>, s: int, t: int)
    requires root != target && root !in X && target !in X && !HasIndirectPath(E, root, target, n)
    requires IsDisjointScore(E, root, target, n, s) && IsDisjointScore(WithoutKeys(E, X), root, target, n, t)
    ensures s == t + ShareLost(E, root, target, n, X)
  {
    var D := WithoutKeys(E, X);
    SharesCompared(E, root, target, n, X);
    if p :| FilteredRoute(D, root, target, n).Has(p) {
      FilteredPathBack(E, root, target, n, X, p);
    }
    NothingIndirect(E, root, target, n, s - DirectShare(E, root, target, n));
    NothingIndirect(D, root, target, n, t - DirectShare(D, root, target, n));
  }

  // ---------- which keys are intermediate without another ----------

  /** A key on the way from the root to an intermediate key is one itself. */
  lemma OnTheWayThere(E: Edges, root: Fp, target: Fp, n: int, y: Fp, p: seq<Fp>, q: seq<Fp>, i: nat)
    requires IsWalk(E, root, y, p) && IsWalk(E, y, target, q) && |p| + |q| - 2 <= n
    requires i < |p| && p[i] != root && p[i] != target
    ensures p[i] in Middle(E, root, target, n)
  {
    WalkSlice(E, root, y, p, 0, i + 1);
    WalkSlice(E, root, y, p, i, |p|);
    assert p[i..|p|] == p[i..];
    WalkConcat(E, p[i], y, target, p[i..], q);
    ReachedIsKey(E, root, p[i], p[0..i + 1]);
  }

  /** And so is a key on the way from there to the target. */
  lemma OnTheWayBack(E: Edges, root: Fp, target: Fp, n: int, y: Fp, p: seq<Fp>, q: seq<Fp>, i: nat)
    requires IsWalk(E, root, y, p) && IsWalk(E, y, target, q) && |p| + |q| - 2 <= n
    requires i < |q| && q[i] != root && q[i] != target
    ensures q[i] in Middle(E, root, target, n)
  {
    WalkSlice(E, y, target, q, 0, i + 1);
    WalkSlice(E, y, target, q, i, |q|);
    assert q[i..|q|] == q[i..];
    var there := p + q[0..i + 1][1..];
    WalkConcat(E, root, y, q[i], p, q[0..i + 1]);
    ReachedIsKey(E, root, q[i], there);
    assert |there| + |q[i..]| - 2 <= n;
  }

  /** A key stays an intermediate one if the walks that make it one avoid what is removed. */
  lemma KeyStays(E: Edges, root: Fp, target: Fp, n: int, X: set<Fp>, y: Fp, p: seq<Fp>, q: seq<Fp>)
    requires y != root && y != target && forall z :: z in p || z in q ==> z !in X
    requires IsWalk(E, root, y, p) && IsWalk(E, y, target, q) && |p| + |q| - 2 <= n
    ensures y in Middle(WithoutKeys(E, X), root, target, n)
  {
    assert p[0] in p && q[|q| - 1] in q && q[0] in q;
    PathAvoids(E, root, y, X, p);
    PathAvoids(E, y, target, X, q);
    ReachedIsKey(WithoutKeys(E, X), root, y, p);
  }

  /** A key that is no intermediate one takes none with it. */
  lemma OutsiderChangesNothing(E: Edges, root: Fp, target: Fp, n: int, x: Fp)
    requires x != root && x != target && x !in Middle(E, root, target, n)
    ensures Middle(WithoutKeys(E, {x}), root, target, n) == Middle(E, root, target, n)
  {
    LessIsLeft(E, root, target, n, {x});
    forall y | y in Middle(E, root, target, n) ensures y in Middle(WithoutKeys(E, {x}), root, target, n) {
      var p, q :| IsWalk(E, root, y, p) && IsWalk(E, y, target, q) && |p| + |q| - 2 <= n;
      if i :| 0 <= i < |p| && p[i] == x { OnTheWayThere(E, root, target, n, y, p, q, i); }
      if i :| 0 <= i < |q| && q[i] == x { OnTheWayBack(E, root, target, n, y, p, q, i); }
      KeyStays(E, root, target, n, {x}, y, p, q);
    }
  }

  lemma ShareLostByOne(E: Edges, root: Fp, target: Fp, n: int, x: Fp)
    requires (root, target) in E && n >= 1 && x != root && x != target
    ensures ShareLost(E, root, target, n, {x}) <= 1 <==>
      x !in Middle(E, root, target, n)
      || Middle(E, root, target, n) - {x} <= Middle(WithoutKeys(E, {x}), root, target, n)
  {
    var M, M' := Middle(E, root, target, n), Middle(WithoutKeys(E, {x}), root, target, n);
    LessIsLeft(E, root, target, n, {x});
    if x in M {
      assert M - {x} == M' + (M - {x} - M');
    } else {
      OutsiderChangesNothing(E, root, target, n, x);
    }
  }

  // ---------- exactly when the promise holds ----------

  ghost predicate LosesAtMostOne(E: Edges, root: Fp, target: Fp, n: int) {
    forall x :: x != root && x != target ==> ShareLost(E, root, target, n, {x}) <= 1
  }

  lemma PromiseIsAboutShares(E: Edges, root: Fp, target: Fp, n: int)
    requires root != target && !HasIndirectPath(E, root, target, n)
    ensures EachKeyIsWorthOne(E, root, target, n) <==> LosesAtMostOne(E, root, target, n)
  {
    forall x, s, t | x != root && x != target && IsDisjointScore(E, root, target, n, s)
      && IsDisjointScore(WithoutKeys(E, {x}), root, target, n, t)
      ensures t <= s <= t + 1 <==> ShareLost(E, root, target, n, {x}) <= 1
    {
      OnlyShareCounts(E, root, target, n, {x}, s, t);
      SharesCompared(E, root, target, n, {x});
    }
    if EachKeyIsWorthOne(E, root, target, n) {
      forall x | x != root && x != target ensures ShareLost(E, root, target, n, {x}) <= 1 {
        var s := SomeScore(E, root, target, n);
        var t := SomeScore(WithoutKeys(E, {x}), root, target, n);
      }
    }
  }

  /** With a direct signature the promise holds if and only if there is no indirect path and no intermediate key is
      one only thanks to another. */
  lemma DirectPromiseExact(E: Edges, root: Fp, target: Fp, n: int)
    requires root != target && (root, target) in E && n >= 1
    ensures EachKeyIsWorthOne(E, root, target, n) <==>
      !HasIndirectPath(E, root, target, n) && NoneBehindAnother(E, root, target, n)
  {
    if HasIndirectPath(E, root, target, n) {
      var x, s, t := SomeKeyIsWorthTwo(E, root, target, n);
    } else {
      PromiseIsAboutShares(E, root, target, n);
      forall x | x != root && x != target
        ensures ShareLost(E, root, target, n, {x}) <= 1 <==>
          x !in Middle(E, root, target, n)
          || Middle(E, root, target, n) - {x} <= Middle(WithoutKeys(E, {x}), root, target, n)
      {
        ShareLostByOne(E, root, target, n, x);
      }
    }
  }

  /** In particular it holds where there are no intermediate keys, and fails where some trust path within the depth
      has one. */
  lemma DirectPromiseAtLeast(E: Edges, root: Fp, target: Fp, n: int)
    requires root != target && (root, target) in E && n >= 1
    ensures Middle(E, root, target, n) == {} ==> EachKeyIsWorthOne(E, root, target, n)
    ensures (exists p :: Route(E, root, target, 2, AtMost(n)).Has(p)) ==> !EachKeyIsWorthOne(E, root, target, n)
  {
    DirectPromiseExact(E, root, target, n);
    FilteredIsConfined(E, root, target, n);
    if p :| FilteredRoute(E, root, target, n).Has(p) {
      ConfinedWalk(Filtered(E, root, target, n), root, target, Middle(E, root, target, n), target, p);
      assert p[1] in Middle(E, root, target, n);
    }
    if p :| Route(E, root, target, 2, AtMost(n)).Has(p) {
      ShortPathSurvives(E, root, target, n, p);
      assert FilteredRoute(E, root, target, n).Has(p);
    }
  }

  // ---------- small depths ----------

  /** Up to a depth of three, where no path within the depth has an intermediate key, an intermediate key lies on
      walks that visit nothing else but the two ends. */
  lemma StandsAlone(E: Edges, root: Fp, target: Fp, n: int, y: Fp) returns (p: seq<Fp>, q: seq<Fp>)
    requires n <= 3 && root != target && forall r :: !Route(E, root, target, 2, AtMost(n)).Has(r)
    requires y in Middle(E, root, target, n)
    ensures IsWalk(E, root, y, p) && IsWalk(E, y, target, q) && |p| + |q| - 2 <= n
    ensures forall z :: z in p || z in q ==> z == root || z == target || z == y
  {
    var walk, back :| IsWalk(E, root, y, walk) && IsWalk(E, y, target, back) && |walk| + |back| - 2 <= n;
    p := WalkToPath(E, root, y, walk);
    q := WalkToPath(E, y, target, back);
    if z :| (z in p || z in q) && z != root && z != target && z != y {
      var r := p + q[1..];
      WalkConcat(E, root, y, target, p, q);
      assert |p| >= 2 && |q| >= 2 && r == if z in p then [root, z, y, target] else [root, y, z, target];
      assert Route(E, root, target, 2, AtMost(n)).Has(r);
      assert false;
    }
  }

  /** Up to a depth of three the promise holds, with a direct signature, if and only if no trust path within the
      depth has an intermediate key. */
  lemma UpToDepthThree(E: Edges, root: Fp, target: Fp, n: int)
    requires root != target && (root, target) in E && 1 <= n <= 3
    ensures EachKeyIsWorthOne(E, root, target, n) <==> forall p :: !Route(E, root, target, 2, AtMost(n)).Has(p)
  {
    DirectPromiseAtLeast(E, root, target, n);
    if forall p :: !Route(E, root, target, 2, AtMost(n)).Has(p) {
      IndirectIsShort(E, root, target, n);
      forall x, y | x in Middle(E, root, target, n) && y in Middle(E, root, target, n) && x != y
        ensures y in Middle(WithoutKeys(E, {x}), root, target, n)
      {
        var p, q := StandsAlone(E, root, target, n, y);
        KeyStays(E, root, target, n, {x}, y, p, q);
      }
      DirectPromiseExact(E, root, target, n);
    }
  }

  /** Beside a direct signature, every key that the root has signed and that has signed the target is worth at
      least two at every depth of at least two. */
  lemma TwoHopKeyIsWorthTwo(E: Edges, root: Fp, x: Fp, target: Fp, n: int, s: int, t: int)
    requires root != target && x != root && x != target && n >= 2
    requires (root, x) in E && (x, target) in E && (root, target) in E
    requires IsDisjointScore(E, root, target, n, s) && IsDisjointScore(WithoutKeys(E, {x}), root, target, n, t)
    ensures s >= t + 2
  {
    var X := ScoreIsGate(E, root, target, n, s);
    TwoHopKeyInGate(E, root, x, target, n, X);
    GateKeyIsWorthTwo(E, root, target, n, X, x, s, t);
  }

  lemma TwoHopPath(E: Edges, root: Fp, x: Fp, target: Fp, n: int)
    requires root != target && x != root && x != target && n >= 2 && (root, x) in E && (x, target) in E
    ensures Route(E, root, target, 1, AtMost(n)).Has([root, x, target])
    ensures Route(E, root, target, 2, AtMost(n)).Has([root, x, target])
    ensures forall y :: y in Interior([root, x, target]) ==> y == x
  {
    var p := [root, x, target];
    assert Step(E, p, 0) && Step(E, p, 1);
  }

  lemma TwoHopKeyInGate(E: Edges, root: Fp, x: Fp, target: Fp, n: int, X: set<Fp>)
    requires root != target && x != root && x != target && n >= 2 && (root, x) in E && (x, target) in E
    requires Gate(FilteredRoute(E, root, target, n), X)
    ensures x in X
  {
    var p := [root, x, target];
    TwoHopPath(E, root, x, target, n);
    ShortPathSurvives(E, root, target, n, p);
    assert FilteredRoute(E, root, target, n).Has(p);
  }

  lemma MiddleAtDepthTwo(E: Edges, root: Fp, target: Fp, x: Fp)
    requires x in Middle(E, root, target, 2)
    ensures x != root && x != target && (root, x) in E && (x, target) in E
  {
    var p, q :| IsWalk(E, root, x, p) && IsWalk(E, x, target, q) && |p| + |q| - 2 <= 2;
    assert Step(E, p, 0) && Step(E, q, 0);
  }

  /** At the default depth of two it holds if and only if there are no intermediate keys. */
  lemma AtDepthTwo(E: Edges, root: Fp, target: Fp)
    requires root != target && (root, target) in E
    ensures EachKeyIsWorthOne(E, root, target, 2) <==> Middle(E, root, target, 2) == {}
  {
    DirectPromiseAtLeast(E, root, target, 2);
    if x :| x in Middle(E, root, target, 2) {
      MiddleAtDepthTwo(E, root, target, x);
      TwoHopPath(E, root, x, target, 2);
    }
  }

  function Triangle(root: Fp, x: Fp, target: Fp): (E: Edges)
    ensures (root, x) in E && (x, target) in E && (root, target) in E
  {
    {(root, x), (x, target), (root, target)}
  }

  /** At depth `n` no single key is worth more than one on any graph, direct signature or not. */
  ghost predicate KeysAreCheapEverywhere(n: int) {
    forall E, root, target {:trigger EachKeyIsWorthOne(E, root, target, n)} ::
      root != target ==> EachKeyIsWorthOne(E, root, target, n)
  }

  lemma NoMiddleAtDepthOne(E: Edges, root: Fp, target: Fp, n: int)
    requires n <= 1
    ensures Middle(E, root, target, n) == {}
  {
  }

  /** The promise holds on every graph if and only if the depth is at most one. */
  lemma DepthOneIsTheLimit(n: int)
    ensures KeysAreCheapEverywhere(n) <==> n <= 1
  {
    if n <= 1 {
      forall E, root, target | root != target ensures EachKeyIsWorthOne(E, root, target, n) {
        forall x, s, t | x != root && x != target && IsDisjointScore(E, root, target, n, s)
          && IsDisjointScore(WithoutKeys(E, {x}), root, target, n, t) ensures t <= s <= t + 1
        {
          NoMiddleAtDepthOne(E, root, target, n);
          NoMiddleAtDepthOne(WithoutKeys(E, {x}), root, target, n);
          assert {x} + {} == {x};
          LosingKeysLowers(E, root, target, n, {x}, s, t);
          LosingKeysCosts(E, root, target, n, {x}, {}, s, t);
        }
      }
    } else {
      var E := Triangle("A", "B", "C");
      var s := SomeScore(E, "A", "C", n);
      var t := SomeScore(WithoutKeys(E, {"B"}), "A", "C", n);
      TwoHopKeyIsWorthTwo(E, "A", "B", "C", n, s, t);
      assert !EachKeyIsWorthOne(E, "A", "C", n);
    }
  }
}
