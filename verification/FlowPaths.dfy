/** Edges that carry flow unwind into paths: if no intermediate key has two incoming edges and every one
    that has an incoming edge has an outgoing edge, then the edges out of the root start that many paths
    with no intermediate key in common. */
module FlowPaths {
  import opened SigningGraph

  /** `C` runs between the root, the intermediate keys and the target only. */
  ghost predicate Confined(C: Edges, root: Fp, target: Fp, inter: set<Fp>) {
    && root != target && root !in inter && target !in inter
    && forall u, v :: (u, v) in C ==> (u == root || u in inter) && (v == target || v in inter)
  }

  ghost predicate Unwinds(C: Edges, root: Fp, target: Fp, inter: set<Fp>) {
    && Confined(C, root, target, inter)
    && (forall u, w, v :: (u, v) in C && (w, v) in C && v in inter ==> u == w)
    && (forall u, v :: (u, v) in C && v in inter ==> exists w :: (v, w) in C)
  }

  lemma ConfinedWalk(C: Edges, root: Fp, target: Fp, inter: set<Fp>, v: Fp, p: seq<Fp>)
    requires Confined(C, root, target, inter) && IsWalk(C, root, v, p)
    ensures forall i :: 0 < i < |p| - 1 ==> p[i] in inter
    ensures forall i :: 0 < i < |p| ==> p[i] != root
  {
    forall i | 0 < i < |p| ensures p[i] == target || p[i] in inter {
      assert Step(C, p, i - 1);
    }
    forall i | 0 < i < |p| - 1 ensures p[i] in inter {
      assert Step(C, p, i);
    }
  }

  /** Two carried walks from the root that meet at an intermediate key came the same way. */
  lemma {:induction false} SameHistory(C: Edges, root: Fp, target: Fp, inter: set<Fp>,
                                       v: Fp, p: seq<Fp>, i: nat, w: Fp, q: seq<Fp>, j: nat)
    requires Unwinds(C, root, target, inter) && IsWalk(C, root, v, p) && IsWalk(C, root, w, q)
    requires i < |p| && j < |q| && p[i] == q[j] && p[i] in inter
    ensures i == j && p[1] == q[1]
  {
    ConfinedWalk(C, root, target, inter, v, p);
    ConfinedWalk(C, root, target, inter, w, q);
    assert i > 0 && j > 0;
    assert Step(C, p, i - 1) && Step(C, q, j - 1);
    if i > 1 && j > 1 {
      SameHistory(C, root, target, inter, v, p, i - 1, w, q, j - 1);
    }
  }

  lemma CarriedWalkIsSimple(C: Edges, root: Fp, target: Fp, inter: set<Fp>, v: Fp, p: seq<Fp>)
    requires Unwinds(C, root, target, inter) && IsWalk(C, root, v, p)
    ensures NoRepeats(p)
  {
    ConfinedWalk(C, root, target, inter, v, p);
    forall i, j | 0 <= i < j < |p| ensures p[i] != p[j] {
      if p[i] == p[j] && 0 < i {
        SameHistory(C, root, target, inter, v, p, i, v, p, j);
      }
    }
  }

  /** Following carried edges from an intermediate key ends at the target. */
  lemma {:induction false} Follow(C: Edges, root: Fp, target: Fp, inter: set<Fp>, p: seq<Fp>) returns (q: seq<Fp>)
    requires Unwinds(C, root, target, inter)
    requires |p| > 1 && p[|p| - 1] in inter && IsWalk(C, root, p[|p| - 1], p)
    ensures IsWalk(C, root, target, q) && |q| > 2 && q[1] == p[1]
    decreases |inter| + 1 - |p|
  {
    var v := p[|p| - 1];
    CarriedWalkIsSimple(C, root, target, inter, v, p);
    ConfinedWalk(C, root, target, inter, v, p);
    NoRepeatsSize(p, inter + {root});
    assert Step(C, p, |p| - 2);
    var w :| (v, w) in C;
    WalkAppend(C, root, v, w, p);
    if w == target {
      q := p + [w];
    } else {
      q := Follow(C, root, target, inter, p + [w]);
    }
  }

  lemma WalkIn(C: Edges, H: Edges, a: Fp, b: Fp, p: seq<Fp>)
    requires C <= H && IsWalk(C, a, b, p)
    ensures IsWalk(H, a, b, p)
  {
    forall i | 0 <= i < |p| - 1 ensures Step(H, p, i) {
      assert Step(C, p, i);
    }
  }

  /** One path per start, with no intermediate key in common. */
  lemma {:induction false} Unwind(C: Edges, H: Edges, root: Fp, target: Fp, inter: set<Fp>, starts: set<Fp>)
    returns (F: set<seq<Fp>>)
    requires Unwinds(C, root, target, inter) && C <= H
    requires forall a :: a in starts ==> a in inter && (root, a) in C
    ensures |F| == |starts| && Route(H, root, target, 2, Unlimited).Packing(F)
    ensures forall p :: p in F ==> IsWalk(C, root, target, p) && |p| > 2 && p[1] in starts
    decreases |starts|
  {
    if starts == {} {
      F := {};
    } else {
      var a :| a in starts;
      var G := Unwind(C, H, root, target, inter, starts - {a});
      assert Step(C, [root, a], 0);
      var q := Follow(C, root, target, inter, [root, a]);
      CarriedWalkIsSimple(C, root, target, inter, target, q);
      WalkIn(C, H, root, target, q);
      forall p | p in G ensures Interior(p) !! Interior(q) {
        DifferentStartsDisjoint(C, root, target, inter, p, q);
      }
      F := G + {q};
    }
  }

  lemma DifferentStartsDisjoint(C: Edges, root: Fp, target: Fp, inter: set<Fp>, p: seq<Fp>, q: seq<Fp>)
    requires Unwinds(C, root, target, inter) && IsWalk(C, root, target, p) && IsWalk(C, root, target, q)
    requires |p| > 1 && |q| > 1 && p[1] != q[1]
    ensures Interior(p) !! Interior(q)
  {
    ConfinedWalk(C, root, target, inter, target, p);
    forall x | x in Interior(p) && x in Interior(q) ensures false {
      var i :| 0 < i < |p| - 1 && p[i] == x;
      var j :| 0 < j < |q| - 1 && q[j] == x;
      SameHistory(C, root, target, inter, target, p, i, target, q, j);
    }
  }
}
