/** The disjoint scorer: search in both directions, filter by depth, split the intermediate keys, and run
    the maximum-flow loop. */
module DisjointScorer {
  import opened SigningGraph
  import opened Distances
  import opened DepthFilter
  import opened FlowNetwork
  import opened EdmondsKarp
  import opened NodeSplit
  import opened FlowPaths

  /** For each key with a block, the keys that have signed it. */
  type Graph = map<Fp, set<Fp>>

  function EdgesOf(g: Graph): Edges {
    set u, v | v in g && u in g[v] :: (u, v)
  }

  /** Adjacency lists of `E` without repetitions. */
  ghost predicate Lists(adj: map<Fp, seq<Fp>>, E: Edges) {
    && (forall u, v :: (u, v) in E <==> u in adj && v in adj[u])
    && (forall u :: u in adj ==> NoRepeats(adj[u]))
  }

  lemma ListsAreEdges(adj: map<Fp, seq<Fp>>, E: Edges)
    requires Lists(adj, E)
    ensures AdjacencyEdges(adj) == E
  {
    SameEdges(AdjacencyEdges(adj), E);
  }

  method AddTo(adj: map<Fp, seq<Fp>>, u: Fp, v: Fp, ghost E: Edges) returns (adj': map<Fp, seq<Fp>>)
    requires Lists(adj, E) && (u, v) !in E
    ensures Lists(adj', E + {(u, v)})
  {
    adj' := adj[u := Neighbours(adj, u) + [v]];
  }

  /** From each key to the keys it has signed. */
  method BuildSigned(g: Graph) returns (signed: map<Fp, seq<Fp>>)
    ensures Lists(signed, EdgesOf(g))
  {
    signed := map[];
    ghost var E: Edges := {};
    var keys := g.Keys;
    while keys != {}
      invariant keys <= g.Keys
      invariant Lists(signed, E) && forall u, v :: (u, v) in E <==> (u, v) in EdgesOf(g) && v !in keys
    {
      var fp :| fp in keys;
      var signers := g[fp];
      while signers != {}
        invariant signers <= g[fp]
        invariant Lists(signed, E)
        invariant forall u, v :: (u, v) in E <==> (u, v) in EdgesOf(g) && (v !in keys || (v == fp && u !in signers))
      {
        var signer :| signer in signers;
        signed := AddTo(signed, signer, fp, E);
        E := E + {(signer, fp)};
        signers := signers - {signer};
      }
      keys := keys - {fp};
    }
    SameEdges(E, EdgesOf(g));
  }

  /** From each signed key back to its signers. */
  method BuildReverse(signed: map<Fp, seq<Fp>>, ghost E: Edges) returns (rev: map<Fp, seq<Fp>>)
    requires Lists(signed, E)
    ensures Lists(rev, Flip(E))
  {
    rev := map[];
    ghost var D: Edges := {};
    var keys := signed.Keys;
    while keys != {}
      invariant keys <= signed.Keys
      invariant Lists(rev, D) && forall u, v :: (v, u) in D <==> (u, v) in E && u !in keys
    {
      var signer :| signer in keys;
      var targets := signed[signer];
      for i := 0 to |targets|
        invariant Lists(rev, D)
        invariant forall u, v :: (v, u) in D <==> (u, v) in E && (u !in keys || (u == signer && v in targets[..i]))
      {
        assert targets[i] !in targets[..i];
        rev := AddTo(rev, targets[i], signer, D);
        D := D + {(targets[i], signer)};
        assert targets[..i + 1] == targets[..i] + [targets[i]];
      }
      keys := keys - {signer};
    }
    forall u, v ensures (u, v) in D <==> (u, v) in Flip(E) {
      FlipEdge(E, u, v);
    }
    SameEdges(D, Flip(E));
  }

  lemma NumberOneMore(nb: Numbering, v: Fp)
    requires nb.Valid() && v !in nb.index && v != nb.root && v != nb.target
    ensures Numbering(nb.root, nb.target, nb.inter + [v], nb.index[v := |nb.inter|]).Valid()
  {
  }

  /** The intermediate keys, numbered. */
  method Intermediates(fwd: map<Fp, nat>, bwd: map<Fp, nat>, root: Fp, target: Fp, n: int, ghost E: Edges)
    returns (nb: Numbering)
    requires AreDistances(E, root, target, n, fwd, bwd) && root != target
    ensures nb.Valid() && nb.root == root && nb.target == target && nb.index.Keys == Middle(E, root, target, n)
  {
    var inter: seq<Fp>, index: map<Fp, nat> := [], map[];
    var keys := fwd.Keys;
    while keys != {}
      invariant keys <= fwd.Keys
      invariant Numbering(root, target, inter, index).Valid()
      invariant forall v :: v in index <==> v in fwd && v !in keys && v in Middle(E, root, target, n)
    {
      var fp :| fp in keys;
      if fp != root && fp != target {
        KeyTest(E, root, target, n, fwd, bwd, fp);
        if fp in bwd && fwd[fp] + bwd[fp] <= n {
          NumberOneMore(Numbering(root, target, inter, index), fp);
          index := index[fp := |inter|];
          inter := inter + [fp];
        }
      }
      keys := keys - {fp};
    }
    nb := Numbering(root, target, inter, index);
    forall v | v in Middle(E, root, target, n) ensures v in index {
      KeyTest(E, root, target, n, fwd, bwd, v);
    }
  }

  function Zeros(n: nat): (x: seq<int>)
    ensures |x| == n && forall k :: 0 <= k < n ==> x[k] == 0
  {
    seq(n, _ => 0)
  }

  /** The lists are the network of `arcs` with nothing flowing. */
  ghost predicate Fresh(net: seq<seq<Entry>>, arcs: seq<Arc>, own: Owners, nb: Numbering) {
    |net| == 2 + 2 * |nb.inter| && Residual(net, arcs, own, Zeros(|arcs|))
  }

  method AddFresh(net: array<seq<Entry>>, u: nat, v: nat, cap: nat, ghost arcs: seq<Arc>, ghost own: Owners,
                  ghost nb: Numbering)
    returns (ghost arcs': seq<Arc>, ghost own': Owners)
    requires Fresh(net[..], arcs, own, nb) && u < net.Length && v < net.Length && u != v
    modifies net
    ensures Fresh(net[..], arcs', own', nb)
    ensures |arcs'| == |arcs| + 1 && arcs'[..|arcs|] == arcs
    ensures arcs'[|arcs|].from == u && arcs'[|arcs|].to == v && arcs'[|arcs|].cap == cap
  {
    ghost var a, o := AddEdge(net, u, v, cap, arcs, own, Zeros(|arcs|));
    arcs', own' := arcs + [a], o;
    assert Zeros(|arcs|) + [0] == Zeros(|arcs'|);
  }

  ghost predicate SplitsOf(arcs: seq<Arc>, nb: Numbering) {
    |arcs| <= |nb.inter| && forall k :: 0 <= k < |arcs| ==> nb.IsSplit(arcs[k], nb.inter[k])
  }

  /** The unit arcs inside the intermediate keys. */
  method WireSplits(net: array<seq<Entry>>, nb: Numbering) returns (ghost arcs: seq<Arc>, ghost own: Owners)
    requires nb.Valid() && net.Length == 2 + 2 * |nb.inter| && forall u :: 0 <= u < net.Length ==> net[u] == []
    modifies net
    ensures Fresh(net[..], arcs, own, nb) && nb.Wired(arcs, {})
  {
    arcs, own := [], map[];
    for i := 0 to |nb.inter|
      invariant Fresh(net[..], arcs, own, nb) && |arcs| == i && SplitsOf(arcs, nb)
    {
      arcs, own := WireSplit(net, nb, i, arcs, own);
    }
    SplitsWired(nb, arcs);
  }

  method WireSplit(net: array<seq<Entry>>, nb: Numbering, i: nat, ghost arcs: seq<Arc>, ghost own: Owners)
    returns (ghost arcs': seq<Arc>, ghost own': Owners)
    requires nb.Valid() && i < |nb.inter| && |arcs| == i && SplitsOf(arcs, nb) && Fresh(net[..], arcs, own, nb)
    modifies net
    ensures Fresh(net[..], arcs', own', nb) && |arcs'| == i + 1 && SplitsOf(arcs', nb)
  {
    var v := nb.inter[i];
    arcs', own' := AddFresh(net, nb.InNode(v), nb.OutNode(v), 1, arcs, own, nb);
    assert forall k :: 0 <= k < i ==> arcs'[k] == arcs'[..i][k] == arcs[k];
  }

  lemma SplitsWired(nb: Numbering, arcs: seq<Arc>)
    requires nb.Valid() && |arcs| == |nb.inter| && forall k :: 0 <= k < |arcs| ==> nb.IsSplit(arcs[k], nb.inter[k])
    ensures nb.Wired(arcs, {})
  {
    forall k | 0 <= k < |arcs| ensures nb.Known(arcs[k], {}) {
      assert nb.IsSplit(arcs[k], nb.inter[k]);
    }
    forall v | v in nb.index ensures nb.HasSplit(arcs, v) {
      assert nb.IsSplit(arcs[nb.index[v]], nb.inter[nb.index[v]]);
    }
    forall k, l | 0 <= k < l < |arcs| ensures arcs[k].from != arcs[l].from {
      assert nb.IsSplit(arcs[k], nb.inter[k]) && nb.IsSplit(arcs[l], nb.inter[l]);
    }
  }

  lemma EndsDetermine(nb: Numbering, u: Fp, v: Fp, w: Fp, z: Fp)
    requires nb.Valid() && nb.IsTail(u) && nb.IsHead(v) && nb.IsTail(w) && nb.IsHead(z)
    ensures nb.OutNode(u) == nb.OutNode(w) ==> u == w
    ensures nb.InNode(v) == nb.InNode(z) ==> v == z
  {
  }

  lemma CrossIsNew(nb: Numbering, arcs: seq<Arc>, H: Edges, a: Arc, u: Fp, v: Fp, k: nat)
    requires nb.Valid() && nb.Wired(arcs, H) && nb.IsCross(a, u, v) && (u, v) !in H && k < |arcs|
    ensures nb.Known(arcs[k], H + {(u, v)}) && (arcs[k].from != a.from || arcs[k].to != a.to)
  {
    assert nb.Known(arcs[k], H);
    if w :| nb.IsSplit(arcs[k], w) {
    } else {
      var w, z :| (w, z) in H && nb.IsCross(arcs[k], w, z);
      EndsDetermine(nb, u, v, w, z);
      assert (w, z) in H + {(u, v)};
    }
  }

  lemma StillWired(nb: Numbering, arcs: seq<Arc>, H: Edges, a: Arc, u: Fp, v: Fp)
    requires nb.Wired(arcs, H)
    ensures nb.HasSplit(arcs, u) ==> nb.HasSplit(arcs + [a], u)
    ensures nb.HasCross(arcs, u, v) ==> nb.HasCross(arcs + [a], u, v)
    ensures nb.IsCross(a, u, v) ==> nb.HasCross(arcs + [a], u, v)
  {
    if k :| 0 <= k < |arcs| && nb.IsSplit(arcs[k], u) {
      assert nb.IsSplit((arcs + [a])[k], u);
    }
    if k :| 0 <= k < |arcs| && nb.IsCross(arcs[k], u, v) {
      assert nb.IsCross((arcs + [a])[k], u, v);
    }
    if nb.IsCross(a, u, v) {
      assert nb.IsCross((arcs + [a])[|arcs|], u, v);
    }
  }

  /** A wide arc for one more edge. */
  lemma CrossWired(nb: Numbering, arcs: seq<Arc>, H: Edges, a: Arc, u: Fp, v: Fp)
    requires nb.Valid() && nb.Wired(arcs, H) && nb.IsCross(a, u, v) && (u, v) !in H
    ensures nb.Wired(arcs + [a], H + {(u, v)})
  {
    var arcs', H' := arcs + [a], H + {(u, v)};
    forall k | 0 <= k < |arcs| ensures nb.Known(arcs[k], H') && (arcs[k].from != a.from || arcs[k].to != a.to) {
      CrossIsNew(nb, arcs, H, a, u, v, k);
    }
    assert nb.Known(a, H') by { assert (u, v) in H'; }
    forall k | 0 <= k < |arcs'| ensures nb.Known(arcs'[k], H') {
      assert arcs'[k] == if k < |arcs| then arcs[k] else a;
    }
    forall w | w in nb.index ensures nb.HasSplit(arcs', w) {
      StillWired(nb, arcs, H, a, w, w);
      assert nb.HasSplit(arcs, w);
    }
    forall w, z | (w, z) in H' ensures nb.HasCross(arcs', w, z) {
      StillWired(nb, arcs, H, a, w, z);
      assert (w, z) in H ==> nb.HasCross(arcs, w, z);
    }
  }

  /** The numbering is that of the intermediate keys, and both searches have recorded their distances. */
  ghost predicate Prepared(E: Edges, n: int, nb: Numbering, fwd: map<Fp, nat>, bwd: map<Fp, nat>) {
    && nb.Valid() && AreDistances(E, nb.root, nb.target, n, fwd, bwd)
    && nb.index.Keys == Middle(E, nb.root, nb.target, n)
  }

  lemma FilteredIsConfined(E: Edges, root: Fp, target: Fp, n: int)
    requires root != target
    ensures Confined(Filtered(E, root, target, n), root, target, Middle(E, root, target, n))
  {
    forall u, v | (u, v) in Filtered(E, root, target, n)
      ensures (u == root || u in Middle(E, root, target, n)) && (v == target || v in Middle(E, root, target, n))
    {
      FilteredEnds(E, root, target, n, u, v);
    }
  }

  lemma PreparedEnds(E: Edges, n: int, nb: Numbering, fwd: map<Fp, nat>, bwd: map<Fp, nat>)
    requires Prepared(E, n, nb, fwd, bwd)
    ensures Confined(Filtered(E, nb.root, nb.target, n), nb.root, nb.target, nb.index.Keys)
  {
    FilteredIsConfined(E, nb.root, nb.target, n);
  }

  /** Which edges the loop wires. */
  lemma WiredExactly(E: Edges, n: int, nb: Numbering, fwd: map<Fp, nat>, bwd: map<Fp, nat>, u: Fp, v: Fp)
    requires Prepared(E, n, nb, fwd, bwd) && nb.IsTail(u) && (u, v) in E
    ensures u in fwd
    ensures v in bwd && fwd[u] + 1 + bwd[v] <= n && nb.IsHead(v) <==> (u, v) in Filtered(E, nb.root, nb.target, n)
  {
    EdgeTest(E, nb.root, nb.target, n, fwd, bwd, u, v);
    PreparedEnds(E, n, nb, fwd, bwd);
    if u != nb.root {
      KeyTest(E, nb.root, nb.target, n, fwd, bwd, u);
    }
    assert (u, v).0 == u && (u, v).1 == v;
  }

  /** The code's depth test picks exactly the edges of `K`. */
  ghost predicate Selects(K: Edges, E: Edges, n: int, nb: Numbering, fwd: map<Fp, nat>, bwd: map<Fp, nat>) {
    && (forall u, v {:trigger (u, v) in K} :: (u, v) in K ==> nb.IsTail(u) && (u, v) in E)
    && (forall u, v {:trigger (u, v) in E} :: nb.IsTail(u) && (u, v) in E ==>
          u in fwd && (v in bwd && fwd[u] + 1 + bwd[v] <= n && nb.IsHead(v) <==> (u, v) in K))
  }

  lemma PreparedSelects(E: Edges, n: int, nb: Numbering, fwd: map<Fp, nat>, bwd: map<Fp, nat>)
    requires Prepared(E, n, nb, fwd, bwd)
    ensures Selects(Filtered(E, nb.root, nb.target, n), E, n, nb, fwd, bwd)
  {
    PreparedEnds(E, n, nb, fwd, bwd);
    forall u, v | nb.IsTail(u) && (u, v) in E
      ensures u in fwd
      ensures v in bwd && fwd[u] + 1 + bwd[v] <= n && nb.IsHead(v) <==> (u, v) in Filtered(E, nb.root, nb.target, n)
    {
      WiredExactly(E, n, nb, fwd, bwd, u, v);
    }
  }

  ghost predicate WiredFresh(net: seq<seq<Entry>>, arcs: seq<Arc>, own: Owners, nb: Numbering, H: Edges) {
    Fresh(net, arcs, own, nb) && nb.Wired(arcs, H)
  }

  /** The wide arc from `u` to `v`. */
  method WireArc(net: array<seq<Entry>>, nb: Numbering, u: Fp, v: Fp,
                 ghost H: Edges, ghost arcs: seq<Arc>, ghost own: Owners)
    returns (ghost arcs': seq<Arc>, ghost own': Owners)
    requires nb.Valid() && WiredFresh(net[..], arcs, own, nb, H)
    requires nb.IsTail(u) && nb.IsHead(v) && (u, v) !in H
    modifies net
    ensures WiredFresh(net[..], arcs', own', nb, H + {(u, v)})
  {
    arcs', own' := AddFresh(net, nb.OutNode(u), nb.InNode(v), nb.Inf(), arcs, own, nb);
    assert arcs' == arcs + [arcs'[|arcs|]];
    CrossWired(nb, arcs, H, arcs'[|arcs|], u, v);
  }

  /** The wide arc for one edge, if it passes the depth test. */
  method WireEdge(net: array<seq<Entry>>, nb: Numbering, fwd: map<Fp, nat>, bwd: map<Fp, nat>, n: int, u: Fp, v: Fp,
                  ghost E: Edges, ghost K: Edges, ghost H: Edges, ghost arcs: seq<Arc>, ghost own: Owners)
    returns (ghost H': Edges, ghost arcs': seq<Arc>, ghost own': Owners)
    requires nb.Valid() && Selects(K, E, n, nb, fwd, bwd) && WiredFresh(net[..], arcs, own, nb, H)
    requires nb.IsTail(u) && (u, v) in E && (u, v) !in H
    modifies net
    ensures H' == if (u, v) in K then H + {(u, v)} else H
    ensures WiredFresh(net[..], arcs', own', nb, H')
  {
    H', arcs', own' := H, arcs, own;
    if v !in bwd || fwd[u] + 1 + bwd[v] > n {
      return;
    }
    if v == nb.target || v in nb.index {
      arcs', own' := WireArc(net, nb, u, v, H, arcs, own);
      H' := H + {(u, v)};
    }
  }

  /** The wide arcs out of `fp1`, into keys that are not blocked. */
  method WireFrom(net: array<seq<Entry>>, nb: Numbering, signed: map<Fp, seq<Fp>>, blocked: set<Fp>,
                  fwd: map<Fp, nat>, bwd: map<Fp, nat>, n: int, fp1: Fp,
                  ghost A: Edges, ghost K: Edges, ghost H: Edges, ghost arcs: seq<Arc>, ghost own: Owners)
    returns (ghost H': Edges, ghost arcs': seq<Arc>, ghost own': Owners)
    requires nb.Valid() && Selects(K, Unblocked(A, blocked), n, nb, fwd, bwd) && WiredFresh(net[..], arcs, own, nb, H)
    requires Lists(signed, A) && nb.IsTail(fp1) && forall v :: (fp1, v) !in H
    modifies net
    ensures WiredFresh(net[..], arcs', own', nb, H')
    ensures forall u, v :: (u, v) in H' <==> (u, v) in H || (u == fp1 && (u, v) in K)
  {
    H', arcs', own' := H, arcs, own;
    var targets := Neighbours(signed, fp1);
    for j := 0 to |targets|
      invariant WiredFresh(net[..], arcs', own', nb, H')
      invariant forall u, v :: (u, v) in H' <==> (u, v) in H || (u == fp1 && (u, v) in K && v in targets[..j])
    {
      assert targets[j] !in targets[..j];
      assert (fp1, targets[j]) in A && (fp1, targets[j]).1 == targets[j];
      if targets[j] !in blocked {
        H', arcs', own' :=
          WireEdge(net, nb, fwd, bwd, n, fp1, targets[j], Unblocked(A, blocked), K, H', arcs', own');
      }
      assert targets[..j + 1] == targets[..j] + [targets[j]];
    }
    assert targets[..|targets|] == targets;
  }

  /** The wide arcs for every edge that passes the depth test. */
  method WireEdges(net: array<seq<Entry>>, nb: Numbering, signed: map<Fp, seq<Fp>>, blocked: set<Fp>,
                   fwd: map<Fp, nat>, bwd: map<Fp, nat>, n: int,
                   ghost A: Edges, ghost K: Edges, ghost arcs: seq<Arc>, ghost own: Owners)
    returns (ghost arcs': seq<Arc>, ghost own': Owners)
    requires nb.Valid() && Selects(K, Unblocked(A, blocked), n, nb, fwd, bwd) && Lists(signed, A)
    requires WiredFresh(net[..], arcs, own, nb, {})
    modifies net
    ensures WiredFresh(net[..], arcs', own', nb, K)
  {
    ghost var H: Edges := {};
    arcs', own' := arcs, own;
    var sources := [nb.root] + nb.inter;
    for i := 0 to |sources|
      invariant WiredFresh(net[..], arcs', own', nb, H)
      invariant forall u, v :: (u, v) in H <==> (u, v) in K && u in sources[..i]
    {
      var fp1 := sources[i];
      SourceIsNew(nb, sources, i);
      H, arcs', own' := WireFrom(net, nb, signed, blocked, fwd, bwd, n, fp1, A, K, H, arcs', own');
      assert sources[..i + 1] == sources[..i] + [fp1];
    }
    assert sources[..|sources|] == sources;
    forall u, v ensures (u, v) in H <==> (u, v) in K {
      if (u, v) in K && u != nb.root {
        assert sources[1 + nb.index[u]] == u;
      }
    }
    SameEdges(H, K);
  }

  lemma SourceIsNew(nb: Numbering, sources: seq<Fp>, i: nat)
    requires nb.Valid() && sources == [nb.root] + nb.inter && i < |sources|
    ensures nb.IsTail(sources[i]) && sources[i] !in sources[..i]
  {
    forall j | 0 <= j < i ensures sources[j] != sources[i] {
      if j > 0 {
        assert nb.index[nb.inter[j - 1]] == j - 1 && nb.index[nb.inter[i - 1]] == i - 1;
      }
    }
  }

  // ---------- the score ----------

  /** What the scorer counts: the largest number of paths over the depth-filtered subgraph that share no
      intermediate key, the direct path apart, plus a wide arc's capacity for a direct signature. */
  ghost predicate IsDisjointScore(E: Edges, root: Fp, target: Fp, n: int, score: int) {
    FilteredRoute(E, root, target, n).PackingNumber(score - DirectShare(E, root, target, n))
  }

  ghost function DirectShare(E: Edges, root: Fp, target: Fp, n: int): nat {
    if (root, target) in E && n >= 1 then |Middle(E, root, target, n)| + 2 else 0
  }

  lemma DirectIsFiltered(E: Edges, root: Fp, target: Fp, n: int)
    requires root != target
    ensures (root, target) in Filtered(E, root, target, n) <==> (root, target) in E && n >= 1
  {
    if (root, target) in E && n >= 1 {
      assert IsWalk(E, root, root, [root]) && IsWalk(E, target, target, [target]);
      assert OnShortWalk(E, root, target, n, (root, target));
    }
  }

  lemma {:induction false} NumberingSize(nb: Numbering, k: nat)
    requires nb.Valid() && k <= |nb.inter|
    ensures |set v | v in nb.index && nb.index[v] < k| == k
  {
    var S := set v | v in nb.index && nb.index[v] < k;
    if k == 0 {
      assert S == {};
    } else {
      NumberingSize(nb, k - 1);
      assert S == (set v | v in nb.index && nb.index[v] < k - 1) + {nb.inter[k - 1]};
    }
  }

  lemma NumberedAll(nb: Numbering)
    requires nb.Valid()
    ensures |nb.index.Keys| == |nb.inter|
  {
    NumberingSize(nb, |nb.inter|);
    assert nb.index.Keys == set v | v in nb.index && nb.index[v] < |nb.inter|;
  }

  lemma ShareOfDirect(E: Edges, n: int, nb: Numbering)
    requires nb.Valid() && nb.index.Keys == Middle(E, nb.root, nb.target, n)
    ensures DirectTerm(nb, Filtered(E, nb.root, nb.target, n)) == DirectShare(E, nb.root, nb.target, n)
  {
    DirectIsFiltered(E, nb.root, nb.target, n);
    NumberedAll(nb);
  }

  lemma ScoreFromFlow(E: Edges, n: int, nb: Numbering, arcs: seq<Arc>, x: seq<int>, value: int, cut: set<nat>)
    requires nb.Valid() && nb.index.Keys == Middle(E, nb.root, nb.target, n)
    requires Confined(Filtered(E, nb.root, nb.target, n), nb.root, nb.target, nb.index.Keys)
    requires nb.Wired(arcs, Filtered(E, nb.root, nb.target, n))
    requires IsFlow(arcs, x, value) && IsCut(cut) && Saturated(arcs, x, cut)
    ensures IsDisjointScore(E, nb.root, nb.target, n, value)
  {
    MaxFlowCountsPaths(nb, arcs, Filtered(E, nb.root, nb.target, n), x, value, cut);
    ShareOfDirect(E, n, nb);
  }

  /** Out of reach within the depth, nothing is counted. */
  lemma UnreachedScoresZero(E: Edges, root: Fp, target: Fp, n: int, fwd: map<Fp, nat>)
    requires IsDistanceMap(E, root, AtMost(n), fwd) && target !in fwd && root != target
    ensures IsDisjointScore(E, root, target, n, 0)
  {
    var H := Filtered(E, root, target, n);
    forall u, v | (u, v) in H ensures false {
      var p, q :| IsWalk(E, root, u, p) && IsWalk(E, v, target, q) && |p| + |q| - 1 <= n;
      WalkPrepend(E, u, v, target, q);
      WalkConcat(E, root, u, target, p, [u] + q);
      WalkBoundsDistance(E, root, AtMost(n), fwd, target, p + q);
    }
    DirectIsFiltered(E, root, target, n);
    var r := Route(H, root, target, 2, Unlimited);
    assert r.Packing({});
    forall F | r.Packing(F) ensures |F| <= 0 {
      forall p | p in F ensures false {
        assert Step(H, p, 0);
      }
    }
  }

  lemma WalkConcat(E: Edges, a: Fp, b: Fp, c: Fp, p: seq<Fp>, q: seq<Fp>)
    requires IsWalk(E, a, b, p) && IsWalk(E, b, c, q)
    ensures IsWalk(E, a, c, p + q[1..])
  {
    var r := p + q[1..];
    forall i | 0 <= i < |r| - 1 ensures Step(E, r, i) {
      if i < |p| - 1 { assert Step(E, p, i); } else { assert Step(E, q, i - |p| + 1); }
    }
    if |q| == 1 { assert r == p; }
  }

  /** The largest number of trust paths from `root` to `target` that share no intermediate key, as the
      code computes it. */
  method DisjointScore(g: Graph, target: Fp, root: Fp, maxDepth: int) returns (score: int)
    ensures root == target ==> score == 1
    ensures root != target ==> IsDisjointScore(EdgesOf(g), root, target, maxDepth, score)
  {
    if root == target {
      return 1;
    }
    ghost var E := EdgesOf(g);
    var signed := BuildSigned(g);
    ListsAreEdges(signed, E);
    score := DisjointMaxFlow(signed, {}, E, target, root, maxDepth);
    assert Unblocked(E, {}) == E;
  }

  /** The scorer over the edges of `A` into keys that are not blocked: `A` is what is listed, and each loop skips
      the blocked keys itself. */
  method DisjointMaxFlow(signed: map<Fp, seq<Fp>>, blocked: set<Fp>, ghost A: Edges, target: Fp, root: Fp,
                         maxDepth: int)
    returns (score: int)
    requires Lists(signed, A) && root != target && target !in blocked
    ensures IsDisjointScore(Unblocked(A, blocked), root, target, maxDepth, score)
  {
    ghost var E := Unblocked(A, blocked);
    ListsAreEdges(signed, A);
    var fwd := BreadthFirst(signed, blocked, root, AtMost(maxDepth));
    if target !in fwd {
      UnreachedScoresZero(E, root, target, maxDepth, fwd);
      return 0;
    }
    var rev := BuildReverse(signed, A);
    ListsAreEdges(rev, Flip(A));
    var bwd := BreadthFirst(rev, blocked, target, Unlimited);
    SearchesAreDistances(A, blocked, root, target, maxDepth, fwd, bwd);
    var nb := Intermediates(fwd, bwd, root, target, maxDepth, E);
    var net := new seq<Entry>[2 + 2 * |nb.inter|](_ => []);
    ghost var arcs, own := WireSplits(net, nb);
    PreparedSelects(E, maxDepth, nb, fwd, bwd);
    ghost var K := Filtered(E, root, target, maxDepth);
    arcs, own := WireEdges(net, nb, signed, blocked, fwd, bwd, maxDepth, A, K, arcs, own);
    NoFlowYet(arcs);
    ghost var x, cut;
    score, x, cut := MaxFlow(net, arcs, own, Zeros(|arcs|));
    PreparedEnds(E, maxDepth, nb, fwd, bwd);
    ScoreFromFlow(E, maxDepth, nb, arcs, x, score, cut);
  }

  lemma NoFlowYet(arcs: seq<Arc>)
    ensures IsFlow(arcs, Zeros(|arcs|), 0)
  {
    forall S ensures NetOut(arcs, Zeros(|arcs|), S) == 0 {
      NetOutZero(arcs, Zeros(|arcs|), S);
    }
  }
}
