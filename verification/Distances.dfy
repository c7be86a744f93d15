/** Breadth-first distances: the search loops of the disjoint scorer, and what their result means. */
module Distances {
  import opened SigningGraph

  function AdjacencyEdges(adj: map<Fp, seq<Fp>>): Edges {
    set u, v | u in adj && v in adj[u] :: (u, v)
  }

  /** What a search over `adj` that enters no blocked key follows. */
  function OpenTo(adj: map<Fp, seq<Fp>>, blocked: set<Fp>): Edges {
    Unblocked(AdjacencyEdges(adj), blocked)
  }

  function Neighbours(adj: map<Fp, seq<Fp>>, u: Fp): seq<Fp> {
    if u in adj then adj[u] else []
  }

  /** `v` was recorded one hop after some neighbour of it. */
  ghost predicate HasParent(E: Edges, d: map<Fp, nat>, v: Fp)
    requires v in d
  {
    exists u :: u in d && (u, v) in E && d[u] + 1 == d[v]
  }

  /** Every key one hop after `u` is recorded, at most one hop further away. */
  ghost predicate Relaxed(E: Edges, d: map<Fp, nat>, u: Fp)
    requires u in d
  {
    forall v :: (u, v) in E ==> v in d && d[v] <= d[u] + 1
  }

  /** The local facts a breadth-first search leaves behind. */
  ghost predicate IsDistanceMap(E: Edges, s: Fp, limit: Limit, d: map<Fp, nat>) {
    && s in d && d[s] == 0
    && (forall v :: v in d && v != s ==> HasParent(E, d, v) && limit.Allows(d[v]))
    && (forall u :: u in d && limit.AllowsMore(d[u]) ==> Relaxed(E, d, u))
  }

  lemma {:induction false} DistanceHasWalk(E: Edges, s: Fp, limit: Limit, d: map<Fp, nat>, v: Fp)
    returns (p: seq<Fp>)
    requires IsDistanceMap(E, s, limit, d) && v in d
    ensures IsWalk(E, s, v, p) && |p| - 1 == d[v]
    decreases d[v]
  {
    if v == s {
      p := [s];
    } else {
      assert HasParent(E, d, v);
      var u :| u in d && (u, v) in E && d[u] + 1 == d[v];
      p := DistanceHasWalk(E, s, limit, d, u);
      WalkAppend(E, s, u, v, p);
      p := p + [v];
    }
  }

  lemma {:induction false} WalkBoundsDistance(E: Edges, s: Fp, limit: Limit, d: map<Fp, nat>, v: Fp, p: seq<Fp>)
    requires IsDistanceMap(E, s, limit, d)
    requires IsWalk(E, s, v, p) && (|p| == 1 || limit.Allows(|p| - 1))
    ensures v in d && d[v] <= |p| - 1
    decreases |p|
  {
    if |p| > 1 {
      var n := |p| - 1;
      var u := p[n - 1];
      assert p[..n][|p[..n]| - 1] == u;
      WalkSlice(E, s, v, p, 0, n);
      assert p[0..n] == p[..n];
      WalkBoundsDistance(E, s, limit, d, u, p[..n]);
      assert Step(E, p, n - 1);
      assert Relaxed(E, d, u);
    }
  }

  /** A key is recorded exactly when some walk within the limit reaches it, and its number is the
      least hop count of such a walk. */
  lemma DistanceIsShortest(E: Edges, s: Fp, limit: Limit, d: map<Fp, nat>, v: Fp, n: nat)
    requires IsDistanceMap(E, s, limit, d)
    requires n == 0 || limit.Allows(n)
    ensures v in d && d[v] <= n <==> exists p :: IsWalk(E, s, v, p) && |p| - 1 <= n
  {
    if v in d && d[v] <= n {
      var p := DistanceHasWalk(E, s, limit, d, v);
    }
    if p :| IsWalk(E, s, v, p) && |p| - 1 <= n {
      WalkBoundsDistance(E, s, limit, d, v, p);
    }
  }

  /** The distances recorded for keys that are waiting differ by at most one and are in order. */
  ghost predicate Ordered(queue: seq<Fp>, d: map<Fp, nat>) {
    && (forall v :: v in queue ==> v in d)
    && (forall i, j :: 0 <= i <= j < |queue| ==> d[queue[i]] <= d[queue[j]])
  }

  ghost predicate SearchState(E: Edges, s: Fp, limit: Limit, d: map<Fp, nat>, queue: seq<Fp>) {
    && s in d && d[s] == 0
    && (forall v :: v in d && v != s ==> v in Keys(E) && HasParent(E, d, v) && limit.Allows(d[v]))
    && Ordered(queue, d)
  }

  /** Nothing is recorded further than one hop after the first key still waiting. */
  ghost predicate Frontier(d: map<Fp, nat>, queue: seq<Fp>, n: nat) {
    && (forall v :: v in d ==> d[v] <= n + 1)
    && (forall v :: v in queue && v in d ==> d[v] >= n)
  }

  ghost predicate DoneRelaxed(E: Edges, limit: Limit, d: map<Fp, nat>, waiting: seq<Fp>) {
    forall u :: u in d && u !in waiting && limit.AllowsMore(d[u]) ==> Relaxed(E, d, u)
  }

  /** Records `v` one hop after `u` unless it is recorded already. */
  method Visit(ghost E: Edges, ghost s: Fp, ghost limit: Limit,
               u: Fp, v: Fp, dist: map<Fp, nat>, queue: seq<Fp>)
    returns (dist': map<Fp, nat>, queue': seq<Fp>)
    requires SearchState(E, s, limit, dist, queue) && u in dist && Frontier(dist, queue, dist[u])
    requires (u, v) in E && limit.AllowsMore(dist[u])
    requires DoneRelaxed(E, limit, dist, [u] + queue)
    ensures SearchState(E, s, limit, dist', queue')
    ensures u in dist' && dist'[u] == dist[u] && Frontier(dist', queue', dist[u])
    ensures DoneRelaxed(E, limit, dist', [u] + queue')
    ensures v in dist' && forall w :: w in dist ==> w in dist' && dist'[w] == dist[w]
    ensures if v in dist then dist' == dist && queue' == queue
            else dist' == dist[v := dist[u] + 1] && queue' == queue + [v] && v in Keys(E)
  {
    if v in dist {
      return dist, queue;
    }
    dist' := dist[v := dist[u] + 1];
    queue' := queue + [v];
    assert v in Keys(E) by { assert (u, v).1 == v; }
    forall w | w in dist' && w != s ensures HasParent(E, dist', w) && limit.Allows(dist'[w]) {
      if w in dist {
        assert HasParent(E, dist, w);
        var x :| x in dist && (x, w) in E && dist[x] + 1 == dist[w];
        assert x in dist' && dist'[x] + 1 == dist'[w];
      } else {
        assert dist'[u] + 1 == dist'[v];
      }
    }
    forall w | w in dist' && w !in [u] + queue' && limit.AllowsMore(dist'[w])
      ensures Relaxed(E, dist', w)
    {
      assert queue'[|queue|] == v && w != u;
      assert Relaxed(E, dist, w);
    }
  }

  /** Visits `v` unless it is blocked. */
  method VisitOpen(ghost E: Edges, ghost s: Fp, ghost limit: Limit,
                   u: Fp, v: Fp, blocked: set<Fp>, dist: map<Fp, nat>, queue: seq<Fp>)
    returns (dist': map<Fp, nat>, queue': seq<Fp>)
    requires SearchState(E, s, limit, dist, queue) && u in dist && Frontier(dist, queue, dist[u])
    requires (v !in blocked ==> (u, v) in E) && limit.AllowsMore(dist[u])
    requires DoneRelaxed(E, limit, dist, [u] + queue)
    ensures SearchState(E, s, limit, dist', queue')
    ensures u in dist' && dist'[u] == dist[u] && Frontier(dist', queue', dist[u])
    ensures DoneRelaxed(E, limit, dist', [u] + queue')
    ensures v !in blocked ==> v in dist'
    ensures dist.Keys <= dist'.Keys <= dist.Keys + Keys(E)
    ensures dist.Keys == dist'.Keys ==> queue' == queue
  {
    if v in blocked {
      return dist, queue;
    }
    dist', queue' := Visit(E, s, limit, u, v, dist, queue);
  }

  /** Visits every neighbour of `u`, the key just taken off the queue, that is not blocked. */
  method Expand(ghost E: Edges, ghost s: Fp, ghost limit: Limit,
                u: Fp, nbrs: seq<Fp>, blocked: set<Fp>, dist: map<Fp, nat>, queue: seq<Fp>)
    returns (dist': map<Fp, nat>, queue': seq<Fp>)
    requires SearchState(E, s, limit, dist, queue) && u in dist && Frontier(dist, queue, dist[u])
    requires limit.AllowsMore(dist[u]) && forall v :: (u, v) in E <==> v in nbrs && v !in blocked
    requires DoneRelaxed(E, limit, dist, [u] + queue)
    ensures SearchState(E, s, limit, dist', queue')
    ensures u in dist' && dist'[u] == dist[u] && Frontier(dist', queue', dist[u])
    ensures DoneRelaxed(E, limit, dist', queue')
    ensures dist.Keys <= dist'.Keys <= dist.Keys + Keys(E)
    ensures dist.Keys == dist'.Keys ==> queue' == queue
  {
    dist', queue' := dist, queue;
    for i := 0 to |nbrs|
      invariant SearchState(E, s, limit, dist', queue') && u in dist' && dist'[u] == dist[u]
      invariant Frontier(dist', queue', dist[u])
      invariant DoneRelaxed(E, limit, dist', [u] + queue')
      invariant forall w :: w in nbrs[..i] && w !in blocked ==> w in dist'
      invariant dist.Keys <= dist'.Keys <= dist.Keys + Keys(E)
      invariant dist.Keys == dist'.Keys ==> queue' == queue
    {
      dist', queue' := VisitOpen(E, s, limit, u, nbrs[i], blocked, dist', queue');
      assert nbrs[..i + 1] == nbrs[..i] + [nbrs[i]];
    }
    assert nbrs[..|nbrs|] == nbrs;
    assert Relaxed(E, dist', u);
  }

  /** What holds each time the loop looks at its queue. */
  ghost predicate LoopState(E: Edges, s: Fp, limit: Limit, d: map<Fp, nat>, queue: seq<Fp>) {
    && SearchState(E, s, limit, d, queue)
    && (|queue| > 0 ==> Frontier(d, queue, d[queue[0]]))
    && DoneRelaxed(E, limit, d, queue)
  }

  lemma TakeFirst(E: Edges, s: Fp, limit: Limit, d: map<Fp, nat>, queue: seq<Fp>)
    requires LoopState(E, s, limit, d, queue) && |queue| > 0
    ensures var u, rest := queue[0], queue[1..];
      SearchState(E, s, limit, d, rest) && u in d && Frontier(d, rest, d[u]) && DoneRelaxed(E, limit, d, [u] + rest)
    ensures !limit.AllowsMore(d[queue[0]]) ==> DoneRelaxed(E, limit, d, queue[1..])
  {
    assert [queue[0]] + queue[1..] == queue;
  }

  lemma FrontierMoves(E: Edges, s: Fp, limit: Limit, d: map<Fp, nat>, queue: seq<Fp>, n: nat)
    requires SearchState(E, s, limit, d, queue) && Frontier(d, queue, n) && DoneRelaxed(E, limit, d, queue)
    ensures LoopState(E, s, limit, d, queue)
  {
  }

  /** One turn of the search loop: takes the first waiting key and, unless it is too deep, expands it. */
  method Advance(adj: map<Fp, seq<Fp>>, blocked: set<Fp>, ghost s: Fp, limit: Limit,
                 dist: map<Fp, nat>, queue: seq<Fp>)
    returns (dist': map<Fp, nat>, queue': seq<Fp>)
    requires LoopState(OpenTo(adj, blocked), s, limit, dist, queue) && |queue| > 0
    ensures LoopState(OpenTo(adj, blocked), s, limit, dist', queue')
    ensures dist.Keys <= dist'.Keys <= dist.Keys + Keys(OpenTo(adj, blocked))
    ensures dist.Keys == dist'.Keys ==> |queue'| < |queue|
  {
    ghost var E := OpenTo(adj, blocked);
    TakeFirst(E, s, limit, dist, queue);
    var u := queue[0];
    dist', queue' := dist, queue[1..];
    if limit.AllowsMore(dist[u]) {
      dist', queue' := Expand(E, s, limit, u, Neighbours(adj, u), blocked, dist', queue');
    }
    FrontierMoves(E, s, limit, dist', queue', dist[u]);
  }

  /** The search loop: `limit` is the depth bound of the forward search, and `Unlimited` backward. Blocked keys
      are never entered. */
  method BreadthFirst(adj: map<Fp, seq<Fp>>, blocked: set<Fp>, start: Fp, limit: Limit) returns (dist: map<Fp, nat>)
    ensures IsDistanceMap(OpenTo(adj, blocked), start, limit, dist)
  {
    ghost var all := Keys(OpenTo(adj, blocked)) + {start};
    dist := map[start := 0];
    var queue := [start];
    while |queue| > 0
      invariant LoopState(OpenTo(adj, blocked), start, limit, dist, queue)
      invariant dist.Keys <= all
      decreases all - dist.Keys, |queue|
    {
      dist, queue := Advance(adj, blocked, start, limit, dist, queue);
    }
  }
}
