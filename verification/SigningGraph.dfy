/** The signing graph as a finite set of edges (signer, signed), walks and simple paths in it,
    and families of paths that share no intermediate key. */
module SigningGraph {

  /** A key fingerprint: upper-case hexadecimal text. */
  type Fp = string

  /** (signer, signed): the first key has signed the second. */
  type Edges = set<(Fp, Fp)>

  /** A bound on the number of hops; `AtMost` may be given a negative number. */
  datatype Limit = Unlimited | AtMost(hops: int) {
    /** A path that already has `n` hops may take one more. */
    predicate AllowsMore(n: int) {
      Unlimited? || n < hops
    }

    predicate Allows(n: int) {
      Unlimited? || n <= hops
    }
  }

  predicate Step(E: Edges, p: seq<Fp>, i: int)
    requires 0 <= i < |p| - 1
  {
    (p[i], p[i + 1]) in E
  }

  predicate IsWalk(E: Edges, a: Fp, b: Fp, p: seq<Fp>) {
    && |p| > 0
    && p[0] == a
    && p[|p| - 1] == b
    && forall i :: 0 <= i < |p| - 1 ==> Step(E, p, i)
  }

  predicate NoRepeats<T(==)>(p: seq<T>) {
    forall i, j :: 0 <= i < j < |p| ==> p[i] != p[j]
  }

  lemma {:induction false} NoRepeatsSize<T>(p: seq<T>, S: set<T>)
    requires NoRepeats(p) && forall x :: x in p ==> x in S
    ensures |p| <= |S|
    decreases |p|
  {
    if |p| > 0 {
      var last := p[|p| - 1];
      NoRepeatsSize(p[..|p| - 1], S - {last});
    }
  }

  lemma SubsetSize<T>(A: set<T>, B: set<T>)
    requires A <= B
    ensures |A| <= |B|
  {
    assert B == A + (B - A);
  }

  /** The keys strictly between the two ends of a path. */
  function Interior(p: seq<Fp>): set<Fp> {
    set i | 0 < i < |p| - 1 :: p[i]
  }

  function Flip(E: Edges): Edges {
    set e | e in E :: (e.1, e.0)
  }

  /** The edges other than those into a blocked key. */
  function Unblocked(E: Edges, blocked: set<Fp>): Edges {
    set e | e in E && e.1 !in blocked
  }

  function Keys(E: Edges): set<Fp> {
    (set e | e in E :: e.0) + (set e | e in E :: e.1)
  }

  /** The simple paths from `source` to `target` over `edges` whose hop count is at least `minHops`
      and within `limit`. */
  datatype Route = Route(edges: Edges, source: Fp, target: Fp, minHops: nat, limit: Limit) {
    predicate Has(p: seq<Fp>) {
      && IsWalk(edges, source, target, p)
      && NoRepeats(p)
      && minHops <= |p| - 1
      && limit.Allows(|p| - 1)
    }

    /** A set of such paths of which no two share an intermediate key. */
    ghost predicate Packing(F: set<seq<Fp>>) {
      && (forall p :: p in F ==> Has(p))
      && (forall p, q :: p in F && q in F && p != q ==> Interior(p) !! Interior(q))
    }

    /** `k` is the largest number of such paths of which no two share an intermediate key. */
    ghost predicate PackingNumber(k: int) {
      && (exists F :: Packing(F) && |F| == k)
      && (forall F :: Packing(F) ==> |F| <= k)
    }
  }

  lemma PackingNumberUnique(r: Route, j: int, k: int)
    requires r.PackingNumber(j) && r.PackingNumber(k)
    ensures j == k
  {
    var F :| r.Packing(F) && |F| == j;
    var G :| r.Packing(G) && |G| == k;
  }

  lemma {:induction false} FirstKeys(r: Route, F: set<seq<Fp>>) returns (S: set<Fp>)
    requires r.minHops >= 2 && r.Packing(F)
    ensures |S| == |F| && S <= Keys(r.edges) && forall v :: v in S ==> exists p :: p in F && |p| > 2 && p[1] == v
    decreases |F|
  {
    if F == {} {
      S := {};
    } else {
      var p :| p in F;
      var T := FirstKeys(r, F - {p});
      assert Step(r.edges, p, 0) && (p[0], p[1]).1 == p[1] && p[1] in Interior(p);
      forall v | v in T ensures v != p[1] {
        var q :| q in F - {p} && |q| > 2 && q[1] == v;
        assert q[1] in Interior(q);
      }
      S := T + {p[1]};
    }
  }

  /** Every graph has a packing number. */
  lemma PackingNumberExists(r: Route) returns (k: nat)
    requires r.minHops >= 2
    ensures r.PackingNumber(k)
  {
    var none: set<seq<Fp>> := {};
    assert r.Packing(none) && |none| == 0;
    k := |Keys(r.edges)|;
    forall F | r.Packing(F) ensures |F| <= k {
      var S := FirstKeys(r, F);
      SubsetSize(S, Keys(r.edges));
    }
    while !exists F :: r.Packing(F) && |F| == k
      invariant forall F :: r.Packing(F) ==> |F| <= k
      decreases k
    {
      k := k - 1;
    }
  }

  lemma WalkAppend(E: Edges, a: Fp, b: Fp, c: Fp, p: seq<Fp>)
    requires IsWalk(E, a, b, p) && (b, c) in E
    ensures IsWalk(E, a, c, p + [c])
  {
    var q := p + [c];
    forall i | 0 <= i < |q| - 1 ensures Step(E, q, i) {
      if i < |p| - 1 { assert Step(E, p, i); }
    }
  }

  lemma WalkPrepend(E: Edges, a: Fp, b: Fp, c: Fp, p: seq<Fp>)
    requires IsWalk(E, b, c, p) && (a, b) in E
    ensures IsWalk(E, a, c, [a] + p)
  {
    var q := [a] + p;
    forall i | 0 <= i < |q| - 1 ensures Step(E, q, i) {
      if i > 0 { assert Step(E, p, i - 1); }
    }
  }

  lemma WalkSlice(E: Edges, a: Fp, b: Fp, p: seq<Fp>, lo: nat, hi: nat)
    requires IsWalk(E, a, b, p) && lo < hi <= |p|
    ensures IsWalk(E, p[lo], p[hi - 1], p[lo..hi])
  {
    var q := p[lo..hi];
    forall i | 0 <= i < |q| - 1 ensures Step(E, q, i) {
      assert Step(E, p, lo + i);
    }
  }

  function Reverse<T>(p: seq<T>): (q: seq<T>)
    ensures |q| == |p| && forall i :: 0 <= i < |p| ==> q[i] == p[|p| - 1 - i]
  {
    seq(|p|, i requires 0 <= i < |p| => p[|p| - 1 - i])
  }

  lemma ReverseTwice<T>(p: seq<T>)
    ensures Reverse(Reverse(p)) == p
  {
  }

  lemma SameEdges(A: Edges, B: Edges)
    requires forall u, v :: (u, v) in A <==> (u, v) in B
    ensures A == B
  {
    forall e ensures e in A <==> e in B {
      assert e == (e.0, e.1);
    }
  }

  lemma FlipEdge(E: Edges, u: Fp, v: Fp)
    ensures (u, v) in Flip(E) <==> (v, u) in E
  {
    if (v, u) in E {
      assert ((v, u).1, (v, u).0) == (u, v);
    }
  }

  lemma WalkReversed(E: Edges, a: Fp, b: Fp, p: seq<Fp>)
    requires IsWalk(E, a, b, p)
    ensures IsWalk(Flip(E), b, a, Reverse(p))
  {
    var q := Reverse(p);
    forall i | 0 <= i < |q| - 1 ensures Step(Flip(E), q, i) {
      assert Step(E, p, |p| - 2 - i);
      FlipEdge(E, q[i], q[i + 1]);
    }
  }

  lemma FlipTwice(E: Edges)
    ensures Flip(Flip(E)) == E
  {
    forall u, v ensures (u, v) in Flip(Flip(E)) <==> (u, v) in E {
      FlipEdge(Flip(E), u, v);
      FlipEdge(E, v, u);
    }
  }

  /** Cutting the loops out of a walk leaves a simple path with no more hops and no other keys. */
  lemma {:induction false} WalkToPath(E: Edges, a: Fp, b: Fp, p: seq<Fp>) returns (q: seq<Fp>)
    requires IsWalk(E, a, b, p)
    ensures IsWalk(E, a, b, q) && NoRepeats(q) && |q| <= |p|
    ensures forall x :: x in q ==> x in p
    decreases |p|
  {
    if NoRepeats(p) {
      q := p;
    } else {
      var i, j :| 0 <= i < j < |p| && p[i] == p[j];
      var r := p[..i] + p[j..];
      forall k | 0 <= k < |r| - 1 ensures Step(E, r, k) {
        if k < i - 1 {
          assert Step(E, p, k);
        } else if k == i - 1 {
          assert Step(E, p, k);
        } else {
          assert Step(E, p, k - i + j);
        }
      }
      q := WalkToPath(E, a, b, r);
    }
  }
}
