/** When the promise holds that whoever controls some keys gains at most their number. With a direct signature the
    condition is another than for a single key: keys that several others vouch for are lost to no one key, but to
    all of those together. */
module Collusion {
  import opened SigningGraph
  import opened DepthFilter
  import opened DisjointScorer
  import opened FlowPaths
  import opened TrustTheorems
  import opened DirectSignature
  import opened DepthLimit

  // ---------- exactly when the promise holds beside a direct signature ----------

  /** `y` stays an intermediate key when all the others are gone. */
  ghost predicate StandsWithoutOthers(E: Edges, root: Fp, target: Fp, n: int, y: Fp) {
    y in Middle(WithoutKeys(E, Middle(E, root, target, n) - {y}), root, target, n)
  }

  ghost predicate AllStandWithoutOthers(E: Edges, root: Fp, target: Fp, n: int) {
    forall y :: y in Middle(E, root, target, n) ==> StandsWithoutOthers(E, root, target, n, y)
  }

  /** Such a key lies on walks that visit nothing else but the two ends. */
  lemma LoneWalks(E: Edges, root: Fp, target: Fp, n: int, y: Fp) returns (p: seq<Fp>, q: seq<Fp>)
    requires y in Middle(E, root, target, n) && StandsWithoutOthers(E, root, target, n, y)
    ensures IsWalk(E, root, y, p) && IsWalk(E, y, target, q) && |p| + |q| - 2 <= n
    ensures forall z :: z in p || z in q ==> z == root || z == target || z == y
  {
    var others := Middle(E, root, target, n) - {y};
    var D := WithoutKeys(E, others);
    p, q :| IsWalk(D, root, y, p) && IsWalk(D, y, target, q) && |p| + |q| - 2 <= n;
    WalkIn(D, E, root, y, p);
    WalkIn(D, E, y, target, q);
    PathAvoids(E, root, y, others, p);
    PathAvoids(E, y, target, others, q);
    forall i | 0 <= i < |p| ensures p[i] == root || p[i] == target || p[i] == y {
      if p[i] != root && p[i] != target && p[i] != y {
        assert p[i] in Interior(p);
        OnTheWayThere(E, root, target, n, y, p, q, i);
      }
    }
    forall i | 0 <= i < |q| ensures q[i] == root || q[i] == target || q[i] == y {
      if q[i] != root && q[i] != target && q[i] != y {
        assert q[i] in Interior(q);
        OnTheWayBack(E, root, target, n, y, p, q, i);
      }
    }
  }

  /** On a walk over the two ends and `y` alone, one of the ends has signed `y`. */
  lemma {:induction false} FirstSigner(E: Edges, root: Fp, target: Fp, y: Fp, p: seq<Fp>)
    requires IsWalk(E, root, y, p) && y != root
    requires forall z :: z in p ==> z == root || z == target || z == y
    ensures (root, y) in E || (target, y) in E
    decreases |p|
  {
    var n := |p| - 1;
    assert Step(E, p, n - 1) && p[n - 1] in p;
    if p[n - 1] == y {
      WalkSlice(E, root, y, p, 0, n);
      assert forall z :: z in p[0..n] ==> z in p;
      FirstSigner(E, root, target, y, p[0..n]);
    }
  }

  /** Where all intermediate keys stand without the others, gated keys are none, and of the others only those
      removed are lost. */
  lemma OnlyGateIsLost(E: Edges, root: Fp, target: Fp, n: int, X: set<Fp>, Y: set<Fp>)
    requires AllStandWithoutOthers(E, root, target, n)
    requires GatedBy(E, Y, X) && root !in X + Y && target !in X + Y
    ensures |Middle(E, root, target, n)| - |Middle(WithoutKeys(E, X + Y), root, target, n)| <= |X|
  {
    var M, M' := Middle(E, root, target, n), Middle(WithoutKeys(E, X + Y), root, target, n);
    forall y | y in M && y !in X ensures y in M' {
      var p, q := LoneWalks(E, root, target, n, y);
      if y in Y {
        FirstSigner(E, root, target, y, p);
      }
      KeyStays(E, root, target, n, X + Y, y, p, q);
    }
    assert M == M * X + (M - X);
    SubsetSize(M - X, M');
    SubsetSize(M * X, X);
  }

  /** A key that does not stand without the others is lost with them: that costs one more than their number. */
  lemma OthersAreWorthMore(E: Edges, root: Fp, target: Fp, n: int, y: Fp, X: set<Fp>, s: int, t: int)
    requires root != target && (root, target) in E && n >= 1 && !HasIndirectPath(E, root, target, n)
    requires y in Middle(E, root, target, n) && !StandsWithoutOthers(E, root, target, n, y)
    requires X == Middle(E, root, target, n) - {y}
    requires IsDisjointScore(E, root, target, n, s) && IsDisjointScore(WithoutKeys(E, X), root, target, n, t)
    ensures s == t + |X| + 1
  {
    LessIsLeft(E, root, target, n, X);
    OnlyShareCounts(E, root, target, n, X, s, t);
    assert Middle(WithoutKeys(E, X), root, target, n) == {} && Middle(E, root, target, n) == X + {y};
  }

  lemma NotBounded(E: Edges, root: Fp, target: Fp, n: int, X: set<Fp>, s: int, t: int)
    requires root !in X && target !in X && s > t + |X|
    requires IsDisjointScore(E, root, target, n, s) && IsDisjointScore(WithoutKeys(E, X), root, target, n, t)
    ensures !CollusionIsBounded(E, root, target, n)
  {
    assert X + {} == X && GatedBy(E, {}, X);
  }

  lemma BoundedWhereAllStand(E: Edges, root: Fp, target: Fp, n: int)
    requires root != target && !HasIndirectPath(E, root, target, n) && AllStandWithoutOthers(E, root, target, n)
    ensures CollusionIsBounded(E, root, target, n)
  {
    forall X, Y, s, t | GatedBy(E, Y, X) && root !in X + Y && target !in X + Y
      && IsDisjointScore(E, root, target, n, s) && IsDisjointScore(WithoutKeys(E, X + Y), root, target, n, t)
      ensures t <= s <= t + |X|
    {
      OnlyShareCounts(E, root, target, n, X + Y, s, t);
      SharesCompared(E, root, target, n, X + Y);
      OnlyGateIsLost(E, root, target, n, X, Y);
    }
  }

  /** With a direct signature colluders gain at most their number, at every depth, if and only if there is no
      indirect path and every intermediate key stays one when all the others are gone. */
  lemma CollusionExact(E: Edges, root: Fp, target: Fp, n: int)
    requires root != target && (root, target) in E && n >= 1
    ensures CollusionIsBounded(E, root, target, n) <==>
      !HasIndirectPath(E, root, target, n) && AllStandWithoutOthers(E, root, target, n)
  {
    if HasIndirectPath(E, root, target, n) {
      var x, s, t := SomeKeyIsWorthTwo(E, root, target, n);
      NotBounded(E, root, target, n, {x}, s, t);
    } else if y :| y in Middle(E, root, target, n) && !StandsWithoutOthers(E, root, target, n, y) {
      var X := Middle(E, root, target, n) - {y};
      var s := SomeScore(E, root, target, n);
      var t := SomeScore(WithoutKeys(E, X), root, target, n);
      OthersAreWorthMore(E, root, target, n, y, X, s, t);
      NotBounded(E, root, target, n, X, s, t);
    } else {
      BoundedWhereAllStand(E, root, target, n);
    }
  }

  /** Up to a depth of three that is so if and only if no trust path within the depth has an intermediate key: the
      condition for a single key. */
  lemma CollusionUpToDepthThree(E: Edges, root: Fp, target: Fp, n: int)
    requires root != target && (root, target) in E && 1 <= n <= 3
    ensures CollusionIsBounded(E, root, target, n) <==> forall p :: !Route(E, root, target, 2, AtMost(n)).Has(p)
  {
    CollusionExact(E, root, target, n);
    IndirectIsShort(E, root, target, n);
    if !HasIndirectPath(E, root, target, n) {
      forall y | y in Middle(E, root, target, n) ensures StandsWithoutOthers(E, root, target, n, y) {
        var p, q := StandsAlone(E, root, target, n, y);
        KeyStays(E, root, target, n, Middle(E, root, target, n) - {y}, y, p, q);
      }
    }
  }

  // ---------- where the two promises part ----------

  /** A bound for any number of keys is one for each key. */
  lemma BoundedForEach(E: Edges, root: Fp, target: Fp, n: int)
    requires CollusionIsBounded(E, root, target, n)
    ensures EachKeyIsWorthOne(E, root, target, n)
  {
    forall x, s, t | x != root && x != target && IsDisjointScore(E, root, target, n, s)
      && IsDisjointScore(WithoutKeys(E, {x}), root, target, n, t) ensures t <= s <= t + 1
    {
      assert {x} + {} == {x} && GatedBy(E, {}, {x});
    }
  }

  /** The root has signed the target alone, which has signed A and B, and each of them has signed Y; A, B and Y
      have signed the target. */
  function TwoVouch(r: Fp, t: Fp, a: Fp, b: Fp, y: Fp): (E: Edges)
    ensures (r, t) in E && (t, a) in E && (t, b) in E && (a, y) in E && (b, y) in E
    ensures (a, t) in E && (b, t) in E && (y, t) in E
  {
    {(r, t), (t, a), (t, b), (a, y), (b, y), (a, t), (b, t), (y, t)}
  }

  predicate Five(r: Fp, t: Fp, a: Fp, b: Fp, y: Fp) {
    && r != t && r != a && r != b && r != y
    && t != a && t != b && t != y
    && a != b && a != y && b != y
  }

  predicate SignsOnly(E: Edges, u: Fp, v: Fp) {
    forall e :: e in E && e.0 == u ==> e.1 == v
  }

  lemma NothingPastTarget(E: Edges, root: Fp, target: Fp, n: int)
    requires SignsOnly(E, root, target)
    ensures !HasIndirectPath(E, root, target, n)
  {
    var H := Filtered(E, root, target, n);
    forall p ensures !FilteredRoute(E, root, target, n).Has(p) {
      if |p| > 2 && p[0] == root && Step(H, p, 0) {
        assert p[1] == target;
      }
    }
  }

  /** A key that neither end has signed does not stand without the others. */
  lemma NeedsOthers(E: Edges, root: Fp, target: Fp, n: int, y: Fp)
    requires y in Middle(E, root, target, n) && (root, y) !in E && (target, y) !in E
    ensures !StandsWithoutOthers(E, root, target, n, y)
  {
    if StandsWithoutOthers(E, root, target, n, y) {
      var p, q := LoneWalks(E, root, target, n, y);
      FirstSigner(E, root, target, y, p);
    }
  }

  /** The target has signed `v`, which has signed it, so with the edge from the root `v` is on a walk of three hops. */
  lemma SignedByTarget(E: Edges, root: Fp, target: Fp, v: Fp, n: int, X: set<Fp>)
    requires n >= 3 && v != root && v != target && root !in X && target !in X && v !in X
    requires (root, target) in E && (target, v) in E && (v, target) in E
    ensures v in Middle(WithoutKeys(E, X), root, target, n)
  {
    var p, q := [root, target, v], [v, target];
    assert Step(E, p, 0) && Step(E, p, 1) && Step(E, q, 0);
    KeyStays(E, root, target, n, X, v, p, q);
  }

  /** And what `v` has signed, and has signed the target, is on one of four. */
  lemma VouchedFor(E: Edges, root: Fp, target: Fp, v: Fp, y: Fp, n: int, X: set<Fp>)
    requires n >= 4 && y != root && y != target && root !in X && target !in X && v !in X && y !in X
    requires (root, target) in E && (target, v) in E && (v, y) in E && (y, target) in E
    ensures y in Middle(WithoutKeys(E, X), root, target, n)
  {
    var p, q := [root, target, v, y], [y, target];
    assert Step(E, p, 0) && Step(E, p, 1) && Step(E, p, 2) && Step(E, q, 0);
    KeyStays(E, root, target, n, X, y, p, q);
  }

  /** While A or B is there, so is Y. */
  lemma VouchersStay(r: Fp, t: Fp, a: Fp, b: Fp, y: Fp, n: int, X: set<Fp>)
    requires Five(r, t, a, b, y) && n >= 4 && r !in X && t !in X
    ensures forall v :: v in {a, b} - X ==> v in Middle(WithoutKeys(TwoVouch(r, t, a, b, y), X), r, t, n)
    ensures y !in X && !({a, b} <= X) ==> y in Middle(WithoutKeys(TwoVouch(r, t, a, b, y), X), r, t, n)
  {
    var E := TwoVouch(r, t, a, b, y);
    if a !in X { SignedByTarget(E, r, t, a, n, X); }
    if b !in X { SignedByTarget(E, r, t, b, n, X); }
    if a !in X && y !in X { VouchedFor(E, r, t, a, y, n, X); }
    if b !in X && y !in X { VouchedFor(E, r, t, b, y, n, X); }
  }

  lemma OnlyThree(r: Fp, t: Fp, a: Fp, b: Fp, y: Fp, n: int)
    requires Five(r, t, a, b, y) && n >= 4
    ensures Middle(TwoVouch(r, t, a, b, y), r, t, n) == {a, b, y}
  {
    var E := TwoVouch(r, t, a, b, y);
    assert WithoutKeys(E, {}) == E;
    VouchersStay(r, t, a, b, y, n, {});
    forall v | v in Middle(E, r, t, n) ensures v in {a, b, y} {
      assert v in Keys(E);
    }
  }

  lemma StaysWithoutOne(r: Fp, t: Fp, a: Fp, b: Fp, y: Fp, n: int, x: Fp, z: Fp)
    requires Five(r, t, a, b, y) && n >= 4 && x in {a, b, y} && z in {a, b, y} && x != z
    ensures z in Middle(WithoutKeys(TwoVouch(r, t, a, b, y), {x}), r, t, n)
  {
    VouchersStay(r, t, a, b, y, n, {x});
    if z == y {
      assert (if x == a then b else a) !in {x};
    } else {
      assert z in {a, b} - {x};
    }
  }

  lemma EachAlone(r: Fp, t: Fp, a: Fp, b: Fp, y: Fp, n: int)
    requires Five(r, t, a, b, y) && n >= 4
    ensures NoneBehindAnother(TwoVouch(r, t, a, b, y), r, t, n)
  {
    var E := TwoVouch(r, t, a, b, y);
    OnlyThree(r, t, a, b, y, n);
    forall x, z | x in Middle(E, r, t, n) && z in Middle(E, r, t, n) && x != z
      ensures z in Middle(WithoutKeys(E, {x}), r, t, n)
    {
      StaysWithoutOne(r, t, a, b, y, n, x, z);
    }
  }

  lemma EndsLeaveY(r: Fp, t: Fp, a: Fp, b: Fp, y: Fp)
    requires Five(r, t, a, b, y)
    ensures SignsOnly(TwoVouch(r, t, a, b, y), r, t)
    ensures (r, y) !in TwoVouch(r, t, a, b, y) && (t, y) !in TwoVouch(r, t, a, b, y)
  {
  }

  /** A key that the root and the target have not signed is lost with all the others. */
  lemma LostWithAll(E: Edges, root: Fp, target: Fp, n: int, y: Fp, X: set<Fp>) returns (s: int, t: int)
    requires root != target && (root, target) in E && n >= 1 && SignsOnly(E, root, target)
    requires (root, y) !in E && (target, y) !in E && Middle(E, root, target, n) == X + {y} && y !in X
    ensures IsDisjointScore(E, root, target, n, s) && IsDisjointScore(WithoutKeys(E, X), root, target, n, t)
    ensures s == t + |X| + 1
  {
    NothingPastTarget(E, root, target, n);
    NeedsOthers(E, root, target, n, y);
    assert X == Middle(E, root, target, n) - {y};
    s := SomeScore(E, root, target, n);
    t := SomeScore(WithoutKeys(E, X), root, target, n);
    OthersAreWorthMore(E, root, target, n, y, X, s, t);
  }

  lemma PairSize(a: Fp, b: Fp)
    requires a != b
    ensures |{a, b}| == 2
  {
    assert {a, b} == {a} + {b};
  }

  lemma WorthThree(r: Fp, t: Fp, a: Fp, b: Fp, y: Fp, n: int) returns (before: int, after: int)
    requires Five(r, t, a, b, y) && n >= 4
    ensures IsDisjointScore(TwoVouch(r, t, a, b, y), r, t, n, before)
    ensures IsDisjointScore(WithoutKeys(TwoVouch(r, t, a, b, y), {a, b}), r, t, n, after)
    ensures before == after + 3
  {
    PairSize(a, b);
    EndsLeaveY(r, t, a, b, y);
    OnlyThree(r, t, a, b, y, n);
    assert Middle(TwoVouch(r, t, a, b, y), r, t, n) == {a, b} + {y};
    before, after := LostWithAll(TwoVouch(r, t, a, b, y), r, t, n, y, {a, b});
  }

  /** Together A and B take Y with them and are worth three, though each key alone is worth one. */
  lemma PromisesPart(r: Fp, t: Fp, a: Fp, b: Fp, y: Fp, n: int) returns (before: int, after: int)
    requires Five(r, t, a, b, y) && n >= 4
    ensures IsDisjointScore(TwoVouch(r, t, a, b, y), r, t, n, before)
    ensures IsDisjointScore(WithoutKeys(TwoVouch(r, t, a, b, y), {a, b}), r, t, n, after)
    ensures before == after + 3 && EachKeyIsWorthOne(TwoVouch(r, t, a, b, y), r, t, n)
    ensures !CollusionIsBounded(TwoVouch(r, t, a, b, y), r, t, n)
  {
    var E := TwoVouch(r, t, a, b, y);
    EndsLeaveY(r, t, a, b, y);
    EachAlone(r, t, a, b, y, n);
    NothingPastTarget(E, r, t, n);
    DirectPromiseExact(E, r, t, n);
    before, after := WorthThree(r, t, a, b, y, n);
    NotBounded(E, r, t, n, {a, b}, before, after);
  }

  /** At depth `n` the promises for one key and for any number of keys hold on the same graphs. */
  ghost predicate SamePromise(n: int) {
    forall E, root, target {:trigger CollusionIsBounded(E, root, target, n)} ::
      root != target ==> (CollusionIsBounded(E, root, target, n) <==> EachKeyIsWorthOne(E, root, target, n))
  }

  lemma BoundedWithoutShare(E: Edges, root: Fp, target: Fp, n: int)
    requires root != target && n <= 4 && !((root, target) in E && n >= 1)
    ensures CollusionIsBounded(E, root, target, n)
  {
    forall X, Y, s, t | GatedBy(E, Y, X) && root !in X + Y && target !in X + Y
      && IsDisjointScore(E, root, target, n, s) && IsDisjointScore(WithoutKeys(E, X + Y), root, target, n, t)
      ensures t <= s <= t + |X|
    {
      LosingKeysLowers(E, root, target, n, X + Y, s, t);
      LosingKeysCosts(E, root, target, n, X, Y, s, t);
    }
  }

  /** They do if and only if the depth is at most three. */
  lemma DepthThreeIsTheLimit(n: int)
    ensures SamePromise(n) <==> n <= 3
  {
    if n <= 3 {
      forall E, root, target | root != target
        ensures CollusionIsBounded(E, root, target, n) <==> EachKeyIsWorthOne(E, root, target, n)
      {
        if (root, target) in E && n >= 1 {
          CollusionUpToDepthThree(E, root, target, n);
          UpToDepthThree(E, root, target, n);
        } else {
          BoundedWithoutShare(E, root, target, n);
          BoundedForEach(E, root, target, n);
        }
      }
    } else {
      var before, after := PromisesPart("R", "T", "A", "B", "Y", n);
      assert !CollusionIsBounded(TwoVouch("R", "T", "A", "B", "Y"), "R", "T", n);
    }
  }

  // ---------- on all graphs ----------

  /** At depth `n`, on every graph without a direct signature, colluders gain at most their number. */
  ghost predicate CollusionAlwaysBounded(n: int) {
    forall E, root, target {:trigger CollusionIsBounded(E, root, target, n)} ::
      root != target && (root, target) !in E ==> CollusionIsBounded(E, root, target, n)
  }

  /** Without a direct signature the bound holds on every graph if and only if the depth is at most four. */
  lemma DepthFourBoundsCollusion(n: int)
    ensures CollusionAlwaysBounded(n) <==> n <= 4
  {
    if n <= 4 {
      forall E, root, target | root != target && (root, target) !in E
        ensures CollusionIsBounded(E, root, target, n)
      {
        BoundedWithoutShare(E, root, target, n);
      }
    } else {
      var E, root, target, x, s, t := DeepKeyIsWorthMore(n);
      NotBounded(E, root, target, n, {x}, s, t);
    }
  }

  ghost predicate CollusionBoundedEverywhere(n: int) {
    forall E, root, target {:trigger CollusionIsBounded(E, root, target, n)} ::
      root != target ==> CollusionIsBounded(E, root, target, n)
  }

  /** On every graph, direct signatures included, it holds if and only if the depth is at most one. */
  lemma DepthOneBoundsCollusion(n: int)
    ensures CollusionBoundedEverywhere(n) <==> n <= 1
  {
    DepthOneIsTheLimit(n);
    if n <= 1 {
      forall E, root, target | root != target ensures CollusionIsBounded(E, root, target, n) {
        if (root, target) in E && n >= 1 {
          CollusionUpToDepthThree(E, root, target, n);
        } else {
          BoundedWithoutShare(E, root, target, n);
        }
      }
    } else if CollusionBoundedEverywhere(n) {
      forall E, root, target | root != target ensures EachKeyIsWorthOne(E, root, target, n) {
        BoundedForEach(E, root, target, n);
      }
    }
  }
}
