/** The path-counting scorer: a queue of partial paths, each with the keys it has visited. */
module PathCounter {
  import opened SigningGraph

  /** The edges of `adj` other than those into a blocked key. */
  function OpenEdges(adj: map<Fp, set<Fp>>, blocked: set<Fp>): Edges {
    set u, v | u in adj && v in adj[u] && v !in blocked :: (u, v)
  }

  function SetNeighbours(adj: map<Fp, set<Fp>>, u: Fp): set<Fp> {
    if u in adj then adj[u] else {}
  }

  // ---------- the finite set of simple paths ----------

  /** All sequences of at most `n` keys of `S`. */
  ghost function Trails(S: set<Fp>, n: nat): set<seq<Fp>> {
    if n == 0 then {[]}
    else Trails(S, n - 1) + (set t, x | t in Trails(S, n - 1) && x in S :: t + [x])
  }

  lemma {:induction false} TrailsComplete(S: set<Fp>, n: nat, t: seq<Fp>)
    requires |t| <= n && forall x :: x in t ==> x in S
    ensures t in Trails(S, n)
  {
    if |t| > 0 {
      var m := |t| - 1;
      TrailsComplete(S, n - 1, t[..m]);
      assert t == t[..m] + [t[m]];
    } else if n > 0 {
      TrailsComplete(S, n - 1, t);
    }
  }

  /** The simple paths from `a` to `b` of 1 to `n` hops. */
  ghost function SimplePaths(E: Edges, a: Fp, b: Fp, n: int): set<seq<Fp>> {
    set p | p in Trails(Keys(E) + {a}, if n < 0 then 0 else n + 1) && Route(E, a, b, 1, AtMost(n)).Has(p)
  }

  lemma WalkKeys(E: Edges, a: Fp, b: Fp, p: seq<Fp>)
    requires IsWalk(E, a, b, p)
    ensures forall x :: x in p ==> x in Keys(E) + {a}
  {
    forall i | 0 <= i < |p| ensures p[i] in Keys(E) + {a} {
      if i > 0 {
        assert Step(E, p, i - 1) && (p[i - 1], p[i]).1 == p[i];
      }
    }
  }

  /** Every such path is in the set, and nothing else. */
  lemma SimplePathsExact(E: Edges, a: Fp, b: Fp, n: int, p: seq<Fp>)
    ensures p in SimplePaths(E, a, b, n) <==> Route(E, a, b, 1, AtMost(n)).Has(p)
  {
    if Route(E, a, b, 1, AtMost(n)).Has(p) {
      WalkKeys(E, a, b, p);
      TrailsComplete(Keys(E) + {a}, n + 1, p);
    }
  }

  // ---------- the search ----------

  /** An item of the queue: the key reached, its depth, and the keys visited. */
  datatype Item = Item(fp: Fp, depth: nat, path: set<Fp>)

  function ItemOf(t: seq<Fp>): Item
    requires |t| > 0
  {
    Item(t[|t| - 1], |t| - 1, set x | x in t)
  }

  function ItemsOf(ts: seq<seq<Fp>>): (q: seq<Item>)
    requires forall t :: t in ts ==> |t| > 0
    ensures |q| == |ts| && forall i :: 0 <= i < |q| ==> q[i] == ItemOf(ts[i])
  {
    seq(|ts|, i requires 0 <= i < |ts| => ItemOf(ts[i]))
  }

  /** A partial path: simple, from `a`, short of `b`. */
  ghost predicate Partial(E: Edges, a: Fp, b: Fp, n: int, t: seq<Fp>) {
    |t| > 0 && IsWalk(E, a, t[|t| - 1], t) && NoRepeats(t) && b !in t && (|t| == 1 || |t| - 1 <= n)
  }

  /** The step from partial path `t` to `v` makes a longer partial path. */
  ghost predicate Grows(E: Edges, b: Fp, t: seq<Fp>, v: Fp)
    requires |t| > 0
  {
    (t[|t| - 1], v) in E && v !in t && v != b
  }

  /** One more hop from `t` is allowed and completes a path. */
  ghost predicate Completes(E: Edges, b: Fp, n: int, t: seq<Fp>)
    requires |t| > 0
  {
    |t| - 1 < n && (t[|t| - 1], b) in E
  }

  /** `kids` lists, once each, the partial paths one step longer than `t`. */
  ghost predicate Children(E: Edges, b: Fp, t: seq<Fp>, kids: seq<seq<Fp>>)
    requires |t| > 0
  {
    && NoRepeats(kids)
    && (forall k :: k in kids ==> exists v :: Grows(E, b, t, v) && k == t + [v])
    && (forall v :: Grows(E, b, t, v) ==> t + [v] in kids)
  }

  /** Looks at each neighbour of the last key of `t`: skips visited and blocked ones, counts `stop`, queues
      the rest. */
  method Branch(adj: map<Fp, set<Fp>>, blocked: set<Fp>, ghost t: seq<Fp>, cur: Item, stop: Fp, count: nat,
                queue: seq<Item>)
    returns (count': nat, queue': seq<Item>, ghost kids: seq<seq<Fp>>)
    requires |t| > 0 && cur == ItemOf(t) && stop !in t
    ensures Children(OpenEdges(adj, blocked), stop, t, kids) && (forall k :: k in kids ==> |k| > 0)
    ensures queue' == queue + ItemsOf(kids)
    ensures count' == count + if (cur.fp, stop) in OpenEdges(adj, blocked) then 1 else 0
  {
    ghost var E := OpenEdges(adj, blocked);
    count', queue', kids := count, queue, [];
    var todo := SetNeighbours(adj, cur.fp);
    while todo != {}
      invariant todo <= SetNeighbours(adj, cur.fp)
      invariant NoRepeats(kids)
      invariant forall k :: k in kids ==> exists v :: v !in todo && Grows(E, stop, t, v) && k == t + [v]
      invariant forall v :: Grows(E, stop, t, v) && v !in todo ==> t + [v] in kids
      invariant forall k :: k in kids ==> |k| > 0
      invariant queue' == queue + ItemsOf(kids)
      invariant count' == count + if (cur.fp, stop) in E && stop !in todo then 1 else 0
    {
      var v :| v in todo;
      ghost var before := kids;
      if v in cur.path || v in blocked {
      } else if v == stop {
        count' := count' + 1;
      } else {
        queue' := queue' + [Item(v, cur.depth + 1, cur.path + {v})];
        kids := kids + [t + [v]];
        NewChild(before, t, v);
        assert ItemOf(t + [v]) == Item(v, cur.depth + 1, cur.path + {v});
        assert ItemsOf(kids) == ItemsOf(before) + [ItemOf(t + [v])];
      }
      todo := todo - {v};
      forall w | Grows(E, stop, t, w) && w !in todo ensures t + [w] in kids {
        if w == v {
          assert kids[|before|] == t + [v];
        } else {
          assert t + [w] in before;
        }
      }
    }
  }

  lemma NewChild(kids: seq<seq<Fp>>, t: seq<Fp>, v: Fp)
    requires NoRepeats(kids) && forall k :: k in kids ==> exists w :: w != v && k == t + [w]
    ensures NoRepeats(kids + [t + [v]])
  {
    forall i | 0 <= i < |kids| ensures kids[i] != t + [v] {
      assert kids[i] in kids;
      var w :| w != v && kids[i] == t + [w];
      assert (t + [w])[|t|] != (t + [v])[|t|];
    }
  }

  ghost predicate Known(done: set<seq<Fp>>, ts: seq<seq<Fp>>, t: seq<Fp>) {
    t in done || t in ts
  }

  /** The partial paths already expanded from which one more hop completes a path. */
  ghost function Finished(E: Edges, b: Fp, n: int, done: set<seq<Fp>>): set<seq<Fp>> {
    set t | t in done && |t| > 0 && Completes(E, b, n, t)
  }

  /** `done` are the partial paths taken off the queue and `ts` those on it. */
  ghost predicate CountState(E: Edges, a: Fp, b: Fp, n: int, done: set<seq<Fp>>, ts: seq<seq<Fp>>) {
    && (forall t {:trigger Known(done, ts, t)} :: Known(done, ts, t) ==> Partial(E, a, b, n, t))
    && NoRepeats(ts) && (forall t :: t in ts ==> t !in done)
    && Known(done, ts, [a])
    && (forall t {:trigger Known(done, ts, t)} :: Known(done, ts, t) && |t| > 1 ==> t[..|t| - 1] in done)
    && (forall t, v :: t in done && |t| > 0 && |t| - 1 < n && Grows(E, b, t, v) ==> Known(done, ts, t + [v]))
  }

  lemma PartialGrows(E: Edges, a: Fp, b: Fp, n: int, t: seq<Fp>, v: Fp)
    requires Partial(E, a, b, n, t) && |t| - 1 < n && Grows(E, b, t, v)
    ensures Partial(E, a, b, n, t + [v])
  {
    WalkAppend(E, a, t[|t| - 1], v, t);
  }

  lemma Expanded(E: Edges, a: Fp, b: Fp, n: int, done: set<seq<Fp>>, ts: seq<seq<Fp>>, kids: seq<seq<Fp>>)
    requires CountState(E, a, b, n, done, ts) && |ts| > 0 && |ts[0]| > 0
    requires if |ts[0]| - 1 < n then Children(E, b, ts[0], kids) else kids == []
    ensures CountState(E, a, b, n, done + {ts[0]}, ts[1..] + kids)
  {
    var t, done', ts' := ts[0], done + {ts[0]}, ts[1..] + kids;
    assert Known(done, ts, t);
    forall k | k in kids
      ensures Partial(E, a, b, n, k) && !Known(done, ts, k) && k != t && |k| > 1 && k[..|k| - 1] == t
    {
      var v :| Grows(E, b, t, v) && k == t + [v];
      PartialGrows(E, a, b, n, t, v);
      assert k[..|k| - 1] == t;
      assert t in ts;
    }
    forall s ensures Known(done', ts', s) <==> Known(done, ts, s) || s in kids {
      if s in ts && s != t {
        var i :| 0 <= i < |ts| && ts[i] == s;
        assert ts[1..][i - 1] == s;
      }
    }
    forall s, v | s in done' && |s| > 0 && |s| - 1 < n && Grows(E, b, s, v) ensures Known(done', ts', s + [v]) {
      if s != t {
        assert Known(done, ts, s + [v]);
      }
    }
    QueueDistinct(ts, kids);
  }

  lemma QueueDistinct(ts: seq<seq<Fp>>, kids: seq<seq<Fp>>)
    requires NoRepeats(ts) && NoRepeats(kids) && |ts| > 0 && forall k :: k in kids ==> k !in ts
    ensures NoRepeats(ts[1..] + kids) && ts[0] !in ts[1..] + kids
  {
    var q := ts[1..] + kids;
    forall i, j | 0 <= i < j < |q| ensures q[i] != q[j] {
      if i < |ts| - 1 <= j {
        assert q[j] in kids && q[i] in ts;
      }
    }
    assert ts[0] in ts;
    assert forall i :: 0 <= i < |ts| - 1 ==> q[i] == ts[i + 1] != ts[0];
  }

  /** With nothing left on the queue, every partial path has been expanded. */
  lemma {:induction false} AllExpanded(E: Edges, a: Fp, b: Fp, n: int, done: set<seq<Fp>>, t: seq<Fp>)
    requires CountState(E, a, b, n, done, []) && Partial(E, a, b, n, t)
    ensures t in done
    decreases |t|
  {
    if |t| == 1 {
      assert t == [a] && Known(done, [], [a]);
    } else {
      var m := |t| - 1;
      WalkSlice(E, a, t[m], t, 0, m);
      assert t[0..m] == t[..m];
      AllExpanded(E, a, b, n, done, t[..m]);
      assert Step(E, t, m - 1);
      assert Grows(E, b, t[..m], t[m]) && t == t[..m] + [t[m]];
      assert Known(done, [], t[..m] + [t[m]]);
    }
  }

  ghost function Completed(F: set<seq<Fp>>, b: Fp): set<seq<Fp>> {
    set t | t in F :: t + [b]
  }

  lemma {:induction false} CompletedSize(F: set<seq<Fp>>, b: Fp)
    ensures |Completed(F, b)| == |F|
    decreases |F|
  {
    if F != {} {
      var t :| t in F;
      CompletedSize(F - {t}, b);
      assert Completed(F, b) == Completed(F - {t}, b) + {t + [b]};
      forall s | s in F - {t} ensures s + [b] != t + [b] {
        assert (s + [b])[..|s|] == s && (t + [b])[..|t|] == t;
      }
    }
  }

  lemma FinishedPaths(E: Edges, a: Fp, b: Fp, n: int, done: set<seq<Fp>>)
    requires a != b && CountState(E, a, b, n, done, [])
    ensures |Finished(E, b, n, done)| == |SimplePaths(E, a, b, n)|
  {
    var F := Finished(E, b, n, done);
    CompletedSize(F, b);
    forall p ensures p in Completed(F, b) <==> p in SimplePaths(E, a, b, n) {
      SimplePathsExact(E, a, b, n, p);
      if p in Completed(F, b) {
        var t :| t in F && p == t + [b];
        assert Known(done, [], t);
        WalkAppend(E, a, t[|t| - 1], b, t);
      }
      if Route(E, a, b, 1, AtMost(n)).Has(p) {
        var m := |p| - 1;
        WalkSlice(E, a, b, p, 0, m);
        assert p[0..m] == p[..m] && Step(E, p, m - 1);
        AllExpanded(E, a, b, n, done, p[..m]);
        assert p[..m] in F && p == p[..m] + [b];
      }
    }
    assert Completed(F, b) == SimplePaths(E, a, b, n);
  }

  /** Partial paths fit in a finite set, so the search ends. */
  ghost function Universe(E: Edges, a: Fp, n: int): set<seq<Fp>> {
    Trails(Keys(E) + {a}, if n < 0 then 1 else n + 1)
  }

  lemma PartialInUniverse(E: Edges, a: Fp, b: Fp, n: int, t: seq<Fp>)
    requires Partial(E, a, b, n, t)
    ensures t in Universe(E, a, n)
  {
    WalkKeys(E, a, t[|t| - 1], t);
    TrailsComplete(Keys(E) + {a}, if n < 0 then 1 else n + 1, t);
  }

  lemma OneMoreFinished(E: Edges, b: Fp, n: int, done: set<seq<Fp>>, t: seq<Fp>)
    requires t !in done && |t| > 0
    ensures |Finished(E, b, n, done + {t})| == |Finished(E, b, n, done)| + if Completes(E, b, n, t) then 1 else 0
  {
    assert Finished(E, b, n, done + {t}) == Finished(E, b, n, done) + if Completes(E, b, n, t) then {t} else {};
  }

  lemma ItemsShift(ts: seq<seq<Fp>>, kids: seq<seq<Fp>>)
    requires |ts| > 0 && (forall t :: t in ts ==> |t| > 0) && forall t :: t in kids ==> |t| > 0
    ensures forall t :: t in ts[1..] + kids ==> |t| > 0
    ensures ItemsOf(ts)[1..] + ItemsOf(kids) == ItemsOf(ts[1..] + kids)
  {
  }

  /** Takes the first partial path off the queue and, unless it is at the depth limit, expands it. */
  method Dequeue(adj: map<Fp, set<Fp>>, blocked: set<Fp>, ghost start: Fp, stop: Fp, maxDepth: int, count: nat,
                 queue: seq<Item>,
                 ghost done: set<seq<Fp>>, ghost ts: seq<seq<Fp>>)
    returns (count': nat, queue': seq<Item>, ghost ts': seq<seq<Fp>>)
    requires CountState(OpenEdges(adj, blocked), start, stop, maxDepth, done, ts) && |ts| > 0
    requires (forall t :: t in ts ==> |t| > 0) && queue == ItemsOf(ts)
    requires count == |Finished(OpenEdges(adj, blocked), stop, maxDepth, done)|
    ensures CountState(OpenEdges(adj, blocked), start, stop, maxDepth, done + {ts[0]}, ts')
    ensures (forall t :: t in ts' ==> |t| > 0) && queue' == ItemsOf(ts')
    ensures count' == |Finished(OpenEdges(adj, blocked), stop, maxDepth, done + {ts[0]})|
  {
    ghost var E, t := OpenEdges(adj, blocked), ts[0];
    assert Known(done, ts, t);
    var cur := queue[0];
    count', queue' := count, queue[1..];
    ghost var kids: seq<seq<Fp>> := [];
    if cur.depth < maxDepth {
      count', queue', kids := Branch(adj, blocked, t, cur, stop, count', queue');
    }
    ts' := ts[1..] + kids;
    ItemsShift(ts, kids);
    Expanded(E, start, stop, maxDepth, done, ts, kids);
    OneMoreFinished(E, stop, maxDepth, done, t);
  }

  /** The number of simple paths from `start` to `stop` of 1 to `maxDepth` hops that enter no blocked key. */
  method CountPaths(adj: map<Fp, set<Fp>>, blocked: set<Fp>, start: Fp, stop: Fp, maxDepth: int) returns (count: nat)
    requires start != stop
    ensures count == |SimplePaths(OpenEdges(adj, blocked), start, stop, maxDepth)|
  {
    ghost var E := OpenEdges(adj, blocked);
    ghost var ts: seq<seq<Fp>>, done: set<seq<Fp>> := [[start]], {};
    count := 0;
    var queue := [Item(start, 0, {start})];
    assert (set x | x in [start]) == {start};
    assert Finished(E, stop, maxDepth, done) == {};
    while |queue| > 0
      invariant CountState(E, start, stop, maxDepth, done, ts)
      invariant (forall t :: t in ts ==> |t| > 0) && queue == ItemsOf(ts)
      invariant count == |Finished(E, stop, maxDepth, done)|
      decreases Universe(E, start, maxDepth) - done
    {
      ghost var t := ts[0];
      assert Known(done, ts, t);
      PartialInUniverse(E, start, stop, maxDepth, t);
      count, queue, ts := Dequeue(adj, blocked, start, stop, maxDepth, count, queue, done, ts);
      done := done + {t};
    }
    assert ts == [];
    FinishedPaths(E, start, stop, maxDepth, done);
  }
}
