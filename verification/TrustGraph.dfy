/** Building the signing graph from blocks, in the two forms the implementations use. */
module TrustGraph {
  import opened SigningGraph
  import opened Ledger
  import opened DisjointScorer
  import opened PathCounter

  /** Block `b` records a signature by `u` on `v` that counts, given the revoked keys. */
  predicate Records(b: Block, revoked: set<Fp>, u: Fp, v: Fp) {
    !b.revoked && b.fingerprint == v && u !in revoked && u in SignersOf(b.sigEntries)
  }

  /** `u` vouches for `v`: neither block is revoked and one of `v`'s entries is by `u`. */
  ghost predicate Vouches(blocks: seq<Block>, revoked: set<Fp>, u: Fp, v: Fp) {
    exists b :: b in blocks && Records(b, revoked, u, v)
  }

  function RevokedSet(blocks: seq<Block>): set<Fp> {
    set b | b in blocks && b.revoked :: b.fingerprint
  }

  /** The edges of the signing graph of some blocks. */
  ghost predicate IsTrustGraph(blocks: seq<Block>, E: Edges) {
    forall u, v :: (u, v) in E <==> Vouches(blocks, RevokedSet(blocks), u, v)
  }

  ghost predicate Distinct(blocks: seq<Block>) {
    forall i, j :: 0 <= i < j < |blocks| ==> blocks[i].fingerprint != blocks[j].fingerprint
  }

  method CollectRevoked(blocks: seq<Block>) returns (revoked: set<Fp>)
    ensures revoked == RevokedSet(blocks)
  {
    revoked := {};
    for i := 0 to |blocks|
      invariant revoked == RevokedSet(blocks[..i])
    {
      if blocks[i].revoked {
        revoked := revoked + {blocks[i].fingerprint};
      }
      assert blocks[..i + 1] == blocks[..i] + [blocks[i]];
    }
    assert blocks[..|blocks|] == blocks;
  }

  lemma OneMoreSigner(entries: seq<SigEntry>, e: SigEntry)
    ensures SignersOf(entries + [e]) == SignersOf(entries) + {e.signer}
  {
    assert e in entries + [e];
  }

  /** From each key with a block to its signers; a revoked block keeps its key but no signers. */
  method Build(blocks: seq<Block>) returns (g: Graph)
    ensures IsTrustGraph(blocks, EdgesOf(g))
    ensures forall fp :: fp in g <==> exists b :: b in blocks && b.fingerprint == fp
  {
    var revoked := CollectRevoked(blocks);
    g := map[];
    for i := 0 to |blocks|
      invariant forall u, v :: v in g && u in g[v] <==> Vouches(blocks[..i], revoked, u, v)
      invariant forall fp :: fp in g <==> exists b :: b in blocks[..i] && b.fingerprint == fp
    {
      var b := blocks[i];
      assert blocks[..i + 1] == blocks[..i] + [b];
      var signers: set<Fp> := if b.fingerprint in g then g[b.fingerprint] else {};
      if !b.revoked {
        for j := 0 to |b.sigEntries|
          invariant forall u :: u in signers <==>
            (b.fingerprint in g && u in g[b.fingerprint]) || (u !in revoked && u in SignersOf(b.sigEntries[..j]))
        {
          var e := b.sigEntries[j];
          assert b.sigEntries[..j + 1] == b.sigEntries[..j] + [e];
          OneMoreSigner(b.sigEntries[..j], e);
          if e.signer !in revoked {
            signers := signers + {e.signer};
          }
        }
        assert b.sigEntries[..|b.sigEntries|] == b.sigEntries;
      }
      assert forall u :: u in signers <==>
        (b.fingerprint in g && u in g[b.fingerprint]) || Records(b, revoked, u, b.fingerprint);
      forall u, v ensures Vouches(blocks[..i + 1], revoked, u, v) <==>
        Vouches(blocks[..i], revoked, u, v) || Records(b, revoked, u, v) {
        OneMoreBlock(blocks[..i], b, revoked, u, v);
      }
      g := g[b.fingerprint := signers];
    }
    assert blocks[..|blocks|] == blocks;
  }

  lemma OneMoreBlock(blocks: seq<Block>, b: Block, revoked: set<Fp>, u: Fp, v: Fp)
    ensures Vouches(blocks + [b], revoked, u, v) <==> Vouches(blocks, revoked, u, v) || Records(b, revoked, u, v)
  {
    if Vouches(blocks, revoked, u, v) {
      var c :| c in blocks && Records(c, revoked, u, v);
      assert c in blocks + [b];
    }
    assert b in blocks + [b];
  }

  predicate HasEdge(graph: map<Fp, set<Fp>>, u: Fp, v: Fp) {
    u in graph && v in graph[u]
  }

  /** Adds an edge for each entry of `b` whose signer is not revoked. */
  method AddEntries(graph: map<Fp, set<Fp>>, b: Block, revoked: set<Fp>) returns (graph': map<Fp, set<Fp>>)
    requires !b.revoked
    ensures forall u, v :: HasEdge(graph', u, v) <==> HasEdge(graph, u, v) || Records(b, revoked, u, v)
  {
    graph' := graph;
    for j := 0 to |b.sigEntries|
      invariant forall u, v :: HasEdge(graph', u, v) <==>
        (HasEdge(graph, u, v) || (v == b.fingerprint && u !in revoked && u in SignersOf(b.sigEntries[..j])))
    {
      var e := b.sigEntries[j];
      assert b.sigEntries[..j + 1] == b.sigEntries[..j] + [e];
      OneMoreSigner(b.sigEntries[..j], e);
      if e.signer !in revoked {
        graph' := graph'[e.signer := SetNeighbours(graph', e.signer) + {b.fingerprint}];
      }
    }
    assert b.sigEntries[..|b.sigEntries|] == b.sigEntries;
  }

  /** From each signer to the keys it vouches for, and the set of revoked keys. */
  method BuildForward(blocks: seq<Block>) returns (graph: map<Fp, set<Fp>>, revoked: set<Fp>)
    ensures IsTrustGraph(blocks, OpenEdges(graph, {})) && revoked == RevokedSet(blocks)
  {
    revoked := CollectRevoked(blocks);
    graph := map[];
    for i := 0 to |blocks|
      invariant forall u, v :: HasEdge(graph, u, v) <==> Vouches(blocks[..i], revoked, u, v)
    {
      var b := blocks[i];
      assert blocks[..i + 1] == blocks[..i] + [b];
      if !b.revoked {
        graph := AddEntries(graph, b, revoked);
      }
      forall u, v ensures Vouches(blocks[..i + 1], revoked, u, v) <==>
        Vouches(blocks[..i], revoked, u, v) || Records(b, revoked, u, v) {
        OneMoreBlock(blocks[..i], b, revoked, u, v);
      }
    }
    assert blocks[..|blocks|] == blocks;
    forall u, v ensures (u, v) in OpenEdges(graph, {}) <==> HasEdge(graph, u, v) {
    }
  }

  /** Both implementations see the same graph, and with one block a key no edge enters or leaves a revoked
      key. */
  lemma SameGraph(blocks: seq<Block>, E: Edges, D: Edges)
    requires IsTrustGraph(blocks, E) && IsTrustGraph(blocks, D)
    ensures E == D
    ensures Distinct(blocks) ==> forall u, v :: (u, v) in E ==> u !in RevokedSet(blocks) && v !in RevokedSet(blocks)
  {
    SameEdges(E, D);
    if Distinct(blocks) {
      forall u, v | (u, v) in E ensures u !in RevokedSet(blocks) && v !in RevokedSet(blocks) {
        assert Vouches(blocks, RevokedSet(blocks), u, v);
      }
    }
  }
}
