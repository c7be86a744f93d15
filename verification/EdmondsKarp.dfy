/** The residual network kept as adjacency lists with reverse-entry indices, updated in place, and the
    augmenting-path loop over it. */
module EdmondsKarp {
  import opened FlowNetwork

  /** One entry of an adjacency list: where it leads, its residual capacity, and the index of its
      reverse entry in the list of `to`. */
  datatype Entry = Entry(to: nat, cap: int, rev: nat)

  /** The search tree: the node an entry was taken from and the index of that entry; node -1 means
      not reached. */
  datatype Prev = Prev(node: int, edge: int)

  /** Which arc an entry belongs to, and whether it is the arc's forward entry. */
  datatype Half = Half(arc: nat, forward: bool)

  type Lists = seq<seq<Entry>>
  type Owners = map<(nat, nat), Half>

  predicate InLists(net: Lists, u: int, i: int) {
    0 <= u < |net| && 0 <= i < |net[u]|
  }

  /** The two entries of arc `a` when it carries `f`. */
  ghost predicate Holds(net: Lists, a: Arc, f: int) {
    && InLists(net, a.from, a.slot) && InLists(net, a.to, a.back) && a.from != a.to
    && net[a.from][a.slot] == Entry(a.to, a.cap - f, a.back)
    && net[a.to][a.back] == Entry(a.from, f, a.slot)
  }

  ghost predicate OwnsBoth(own: Owners, arcs: seq<Arc>, k: nat)
    requires k < |arcs|
  {
    var a := arcs[k];
    && (a.from, a.slot) in own && own[(a.from, a.slot)] == Half(k, true)
    && (a.to, a.back) in own && own[(a.to, a.back)] == Half(k, false)
  }

  ghost predicate Owned(own: Owners, arcs: seq<Arc>, u: nat, i: nat) {
    && (u, i) in own && own[(u, i)].arc < |arcs|
    && var a := arcs[own[(u, i)].arc];
       if own[(u, i)].forward then u == a.from && i == a.slot else u == a.to && i == a.back
  }

  /** The lists are the residual network of `arcs` under flow `x`: every entry is one end of exactly one
      arc, paired with its reverse entry, and the two capacities add up to the arc's. */
  ghost predicate Residual(net: Lists, arcs: seq<Arc>, own: Owners, x: seq<int>) {
    && Feasible(arcs, x)
    && (forall k :: 0 <= k < |arcs| ==> Holds(net, arcs[k], x[k]) && OwnsBoth(own, arcs, k))
    && (forall u: nat, i: nat :: InLists(net, u, i) ==> Owned(own, arcs, u, i))
  }

  lemma EntryOfOwner(net: Lists, arcs: seq<Arc>, own: Owners, x: seq<int>, u: nat, i: nat)
    requires Residual(net, arcs, own, x) && InLists(net, u, i)
    ensures net[u][i].to < |net| && net[u][i].to != u && net[u][i].cap >= 0
    ensures InLists(net, net[u][i].to, net[u][i].rev)
    ensures net[net[u][i].to][net[u][i].rev].to == u && net[net[u][i].to][net[u][i].rev].rev == i
    ensures var h := own[(u, i)];
      Owned(own, arcs, u, i) &&
      net[u][i].cap == if h.forward then arcs[h.arc].cap - x[h.arc] else x[h.arc]
  {
    assert Owned(own, arcs, u, i);
    assert Holds(net, arcs[own[(u, i)].arc], x[own[(u, i)].arc]);
  }

  /** The flow after moving `amount` more along entry (u, i). */
  ghost function Moved(own: Owners, x: seq<int>, u: nat, i: nat, amount: int): seq<int>
    requires (u, i) in own && own[(u, i)].arc < |x|
  {
    var h := own[(u, i)];
    x[h.arc := if h.forward then x[h.arc] + amount else x[h.arc] - amount]
  }

  /** Adds a pair of entries for a new arc. */
  method AddEdge(net: array<seq<Entry>>, u: nat, v: nat, cap: nat,
                 ghost arcs: seq<Arc>, ghost own: Owners, ghost x: seq<int>)
    returns (ghost a: Arc, ghost own': Owners)
    requires u < net.Length && v < net.Length && u != v
    requires Residual(net[..], arcs, own, x)
    modifies net
    ensures a == Arc(u, v, cap, |old(net[u])|, |old(net[v])|)
    ensures Residual(net[..], arcs + [a], own', x + [0])
  {
    a := Arc(u, v, cap, |net[u]|, |net[v]|);
    own' := own[(u, |net[u]|) := Half(|arcs|, true)][(v, |net[v]|) := Half(|arcs|, false)];
    ghost var before := net[..];
    net[u] := net[u] + [Entry(v, cap, |net[v]|)];
    net[v] := net[v] + [Entry(u, 0, |net[u]| - 1)];
    AddedPair(before, net[..], arcs, own, x, a);
  }

  lemma AddedPair(net: Lists, net': Lists, arcs: seq<Arc>, own: Owners, x: seq<int>, a: Arc)
    requires Residual(net, arcs, own, x)
    requires |net'| == |net| && a.from < |net| && a.to < |net| && a.from != a.to
    requires a.slot == |net[a.from]| && a.back == |net[a.to]|
    requires net'[a.from] == net[a.from] + [Entry(a.to, a.cap, a.back)]
    requires net'[a.to] == net[a.to] + [Entry(a.from, 0, a.slot)]
    requires forall w :: 0 <= w < |net| && w != a.from && w != a.to ==> net'[w] == net[w]
    ensures Residual(net', arcs + [a],
                     own[(a.from, a.slot) := Half(|arcs|, true)][(a.to, a.back) := Half(|arcs|, false)], x + [0])
  {
    var own' := own[(a.from, a.slot) := Half(|arcs|, true)][(a.to, a.back) := Half(|arcs|, false)];
    var arcs' := arcs + [a];
    forall k | 0 <= k < |arcs'|
      ensures Holds(net', arcs'[k], (x + [0])[k]) && OwnsBoth(own', arcs', k)
    {
      if k < |arcs| {
        assert Holds(net, arcs[k], x[k]) && OwnsBoth(own, arcs, k);
      }
    }
    forall u: nat, i: nat | InLists(net', u, i) ensures Owned(own', arcs', u, i) {
      if InLists(net, u, i) {
        assert Owned(own, arcs, u, i);
      }
    }
  }

  /** Moves `amount` along entry (u, i): takes it off the entry and puts it on the reverse entry. */
  method Push(net: array<seq<Entry>>, u: nat, i: nat, amount: nat,
              ghost arcs: seq<Arc>, ghost own: Owners, ghost x: seq<int>)
    returns (ghost x': seq<int>)
    requires Residual(net[..], arcs, own, x) && InLists(net[..], u, i) && amount <= net[u][i].cap
    modifies net
    ensures Owned(own, arcs, u, i) && x' == Moved(own, x, u, i, amount)
    ensures Residual(net[..], arcs, own, x')
    ensures forall w :: 0 <= w < net.Length && w != u && w != old(net[u][i].to) ==> net[w] == old(net[w])
  {
    ghost var before := net[..];
    EntryOfOwner(before, arcs, own, x, u, i);
    x' := Moved(own, x, u, i, amount);
    var e := net[u][i];
    net[u] := net[u][i := e.(cap := e.cap - amount)];
    var r := net[e.to][e.rev];
    net[e.to] := net[e.to][e.rev := r.(cap := r.cap + amount)];
    PushedPair(before, net[..], arcs, own, x, u, i, amount);
  }

  lemma PushedPair(net: Lists, net': Lists, arcs: seq<Arc>, own: Owners, x: seq<int>, u: nat, i: nat, amount: nat)
    requires Residual(net, arcs, own, x) && InLists(net, u, i) && amount <= net[u][i].cap
    requires |net'| == |net| && net[u][i].to != u && InLists(net, net[u][i].to, net[u][i].rev)
    requires net'[u] == net[u][i := net[u][i].(cap := net[u][i].cap - amount)]
    requires var e := net[u][i];
      net'[e.to] == net[e.to][e.rev := net[e.to][e.rev].(cap := net[e.to][e.rev].cap + amount)]
    requires forall w :: 0 <= w < |net| && w != u && w != net[u][i].to ==> net'[w] == net[w]
    ensures Owned(own, arcs, u, i) && Residual(net', arcs, own, Moved(own, x, u, i, amount))
  {
    EntryOfOwner(net, arcs, own, x, u, i);
    var x' := Moved(own, x, u, i, amount);
    var h := own[(u, i)];
    assert Holds(net, arcs[h.arc], x[h.arc]);
    forall k | 0 <= k < |arcs| ensures Holds(net', arcs[k], x'[k]) && OwnsBoth(own, arcs, k) {
      assert Holds(net, arcs[k], x[k]) && OwnsBoth(own, arcs, k);
    }
    forall v: nat, j: nat | InLists(net', v, j) ensures Owned(own, arcs, v, j) {
      assert InLists(net, v, j);
    }
  }

  lemma MovedNetOut(net: Lists, arcs: seq<Arc>, own: Owners, x: seq<int>, u: nat, i: nat, amount: int, w: nat)
    requires Residual(net, arcs, own, x) && InLists(net, u, i)
    ensures Owned(own, arcs, u, i)
    ensures NetOut(arcs, Moved(own, x, u, i, amount), {w})
         == NetOut(arcs, x, {w}) + (if w == u then amount else 0) - (if w == net[u][i].to then amount else 0)
  {
    EntryOfOwner(net, arcs, own, x, u, i);
    var k := own[(u, i)].arc;
    assert Holds(net, arcs[k], x[k]);
    NetOutUpdate(arcs, x, {w}, k, Moved(own, x, u, i, amount)[k]);
  }

  // ---------- the search for an augmenting path ----------

  predicate Reached(prev: seq<Prev>, v: int) {
    0 <= v < |prev| && prev[v].node != -1
  }

  ghost predicate TreeEntry(net: Lists, prev: seq<Prev>, level: seq<nat>, v: nat)
    requires v < |net| == |prev| == |level|
  {
    var p := prev[v];
    && InLists(net, p.node, p.edge) && Reached(prev, p.node)
    && net[p.node][p.edge].to == v && net[p.node][p.edge].cap > 0
    && level[v] == level[p.node] + 1
  }

  /** Every reached node but the source hangs one level below the node it was reached from, by an entry
      with capacity left. */
  ghost predicate Tree(net: Lists, prev: seq<Prev>, level: seq<nat>) {
    && |net| == |prev| == |level| && |net| > SINK
    && prev[SOURCE] == Prev(SOURCE, -1) && level[SOURCE] == 0
    && forall v {:trigger TreeEntry(net, prev, level, v)} :: 0 <= v < |net| && v != SOURCE && Reached(prev, v) ==>
      TreeEntry(net, prev, level, v)
  }

  ghost predicate ClosedAt(net: Lists, prev: seq<Prev>, u: nat)
    requires u < |net|
  {
    forall i :: 0 <= i < |net[u]| && net[u][i].cap > 0 ==> Reached(prev, net[u][i].to)
  }

  ghost predicate DoneClosed(net: Lists, prev: seq<Prev>, waiting: seq<nat>) {
    forall u {:trigger ClosedAt(net, prev, u)} :: 0 <= u < |net| && Reached(prev, u) && u !in waiting ==>
      ClosedAt(net, prev, u)
  }

  ghost predicate InRange(net: Lists) {
    forall u, i :: InLists(net, u, i) ==> net[u][i].to < |net|
  }

  ghost predicate SearchState(net: Lists, prev: seq<Prev>, level: seq<nat>, queue: seq<nat>) {
    Tree(net, prev, level) && InRange(net) && forall v :: v in queue ==> Reached(prev, v)
  }

  ghost function Unreached(prev: seq<Prev>): set<nat> {
    set v: nat | v < |prev| && !Reached(prev, v)
  }

  lemma ReachOneMore(net: Lists, prev: seq<Prev>, level: seq<nat>, u: nat, i: nat)
    requires Tree(net, prev, level) && InLists(net, u, i) && Reached(prev, u)
    requires net[u][i].cap > 0 && net[u][i].to < |net| && !Reached(prev, net[u][i].to)
    ensures var v := net[u][i].to; Tree(net, prev[v := Prev(u, i)], level[v := level[u] + 1])
  {
    var t := net[u][i].to;
    var prev', level' := prev[t := Prev(u, i)], level[t := level[u] + 1];
    forall v | 0 <= v < |net| && v != SOURCE && Reached(prev', v) ensures TreeEntry(net, prev', level', v) {
      if v != t {
        assert TreeEntry(net, prev, level, v);
      }
    }
  }

  ghost predicate ScanStateAt(net: Lists, u: nat, prev: seq<Prev>, level: seq<nat>, queue: seq<nat>) {
    SearchState(net, prev, level, queue) && Reached(prev, u) && DoneClosed(net, prev, [u] + queue)
  }

  /** Reaches the node entry (u, i) leads to, if it is not reached yet and the entry has capacity left. */
  method ScanEntry(net: Lists, u: nat, i: nat, prev: seq<Prev>, ghost level: seq<nat>, queue: seq<nat>)
    returns (prev': seq<Prev>, ghost level': seq<nat>, queue': seq<nat>)
    requires ScanStateAt(net, u, prev, level, queue) && i < |net[u]|
    ensures ScanStateAt(net, u, prev', level', queue')
    ensures forall v :: Reached(prev, v) ==> Reached(prev', v)
    ensures net[u][i].to < |net| && (net[u][i].cap > 0 ==> Reached(prev', net[u][i].to))
    ensures queue' == queue || exists v :: v in Unreached(prev) && v !in Unreached(prev')
  {
    var e := net[u][i];
    assert InLists(net, u, i);
    prev', level', queue' := prev, level, queue;
    if prev[e.to].node == -1 && e.cap > 0 {
      ReachOneMore(net, prev, level, u, i);
      assert e.to in Unreached(prev);
      prev', level' := prev[e.to := Prev(u, i)], level[e.to := level[u] + 1];
      queue' := queue + [e.to];
      assert e.to in queue' && forall v :: v in queue ==> v in queue';
      forall w | 0 <= w < |net| && Reached(prev', w) && w !in [u] + queue' ensures ClosedAt(net, prev', w) {
        assert ClosedAt(net, prev, w);
      }
    }
  }

  /** Reaches every node that an entry of `u` with capacity left leads to. */
  method Scan(net: Lists, u: nat, prev: seq<Prev>, ghost level: seq<nat>, queue: seq<nat>)
    returns (prev': seq<Prev>, ghost level': seq<nat>, queue': seq<nat>)
    requires ScanStateAt(net, u, prev, level, queue)
    ensures SearchState(net, prev', level', queue')
    ensures DoneClosed(net, prev', queue')
    ensures Unreached(prev') <= Unreached(prev)
    ensures Unreached(prev') == Unreached(prev) ==> queue' == queue
  {
    prev', level', queue' := prev, level, queue;
    for i := 0 to |net[u]|
      invariant ScanStateAt(net, u, prev', level', queue')
      invariant forall v :: Reached(prev, v) ==> Reached(prev', v)
      invariant forall j :: 0 <= j < i && net[u][j].cap > 0 ==> Reached(prev', net[u][j].to)
      invariant queue' == queue || exists v :: v in Unreached(prev) && v !in Unreached(prev')
    {
      ghost var earlier := prev';
      prev', level', queue' := ScanEntry(net, u, i, prev', level', queue');
      if v :| v in Unreached(prev) && v !in Unreached(earlier) {
        assert Reached(prev', v);
      }
    }
    assert ClosedAt(net, prev', u);
  }

  /** Breadth-first search over entries with capacity left, stopping once the sink is reached. */
  method FindPath(net: Lists) returns (prev: seq<Prev>, ghost level: seq<nat>)
    requires |net| > SINK && InRange(net)
    ensures Tree(net, prev, level)
    ensures !Reached(prev, SINK) ==> DoneClosed(net, prev, [])
  {
    prev := seq(|net|, _ => Prev(-1, 0))[SOURCE := Prev(SOURCE, -1)];
    level := seq(|net|, _ => 0);
    var queue := [SOURCE];
    while |queue| > 0 && prev[SINK].node == -1
      invariant SearchState(net, prev, level, queue)
      invariant DoneClosed(net, prev, queue)
      decreases Unreached(prev), |queue|
    {
      var u := queue[0];
      assert [u] + queue[1..] == queue;
      prev, level, queue := Scan(net, u, prev, level, queue[1..]);
    }
  }

  // ---------- augmenting along the path, and the main loop ----------

  /** Every entry on the tree path from the source to `v` can still carry `amount`. */
  ghost predicate PathCarries(net: Lists, prev: seq<Prev>, level: seq<nat>, v: nat, amount: int)
    requires Tree(net, prev, level) && Reached(prev, v)
    decreases level[v]
  {
    v == SOURCE ||
    (TreeEntry(net, prev, level, v) &&
     var p := prev[v];
     net[p.node][p.edge].cap >= amount && PathCarries(net, prev, level, p.node, amount))
  }

  const NO_LIMIT: nat := 0x4000_0000

  /** The least residual capacity on the path to the sink, but at most 2^30: the path carries that much and, unless
      it is 2^30, no more. */
  method Bottleneck(net: Lists, prev: seq<Prev>, ghost level: seq<nat>) returns (bn: nat)
    requires Tree(net, prev, level) && Reached(prev, SINK)
    ensures 1 <= bn <= NO_LIMIT && PathCarries(net, prev, level, SINK, bn)
    ensures bn == NO_LIMIT || !PathCarries(net, prev, level, SINK, bn + 1)
  {
    bn := NO_LIMIT;
    var v := SINK;
    while v != SOURCE
      invariant Reached(prev, v) && 1 <= bn <= NO_LIMIT
      invariant forall b: int {:trigger PathCarries(net, prev, level, SINK, b)} ::
        b <= bn && PathCarries(net, prev, level, v, b) ==> PathCarries(net, prev, level, SINK, b)
      invariant forall b: int {:trigger PathCarries(net, prev, level, SINK, b)} ::
        PathCarries(net, prev, level, SINK, b) ==>
          PathCarries(net, prev, level, v, b) && (b <= bn || bn == NO_LIMIT)
      decreases level[v]
    {
      assert TreeEntry(net, prev, level, v);
      var p := prev[v];
      if net[p.node][p.edge].cap < bn {
        bn := net[p.node][p.edge].cap;
      }
      v := p.node;
    }
    assert PathCarries(net, prev, level, v, bn);
  }

  /** `x'` is `x` with `amount` more leaving `u` and `amount` more entering `v`. */
  ghost predicate Shifted(arcs: seq<Arc>, x: seq<int>, x': seq<int>, u: nat, v: nat, amount: int) {
    && |arcs| == |x| == |x'|
    && forall w: nat :: NetOut(arcs, x', {w}) ==
         NetOut(arcs, x, {w}) + (if w == u then amount else 0) - (if w == v then amount else 0)
  }

  /** Lists of nodes nearer the source than `v` are as they were in `net`. */
  ghost predicate UntouchedAbove(net: Lists, net': Lists, level: seq<nat>, v: nat)
    requires v < |level|
  {
    && |net| == |net'| == |level|
    && forall w :: 0 <= w < |net| && level[w] < level[v] ==> net'[w] == net[w]
  }

  /** Moves `amount` over the tree entry into `v`, and over no other. */
  method AugmentStep(net: array<seq<Entry>>, ghost start: Lists, prev: seq<Prev>, ghost level: seq<nat>,
                     v: nat, amount: nat, ghost arcs: seq<Arc>, ghost own: Owners, ghost x: seq<int>)
    returns (ghost x': seq<int>)
    requires Residual(net[..], arcs, own, x) && Tree(start, prev, level) && Reached(prev, v) && v != SOURCE
    requires UntouchedAbove(start, net[..], level, v) && PathCarries(start, prev, level, v, amount)
    modifies net
    ensures Reached(prev, prev[v].node) && level[prev[v].node] < level[v]
    ensures PathCarries(start, prev, level, prev[v].node, amount)
    ensures Residual(net[..], arcs, own, x') && UntouchedAbove(start, net[..], level, prev[v].node)
    ensures prev[v].edge >= 0 && Owned(own, arcs, prev[v].node, prev[v].edge)
    ensures x' == Moved(own, x, prev[v].node, prev[v].edge, amount)
    ensures Shifted(arcs, x, x', prev[v].node, v, amount)
  {
    var p := prev[v];
    assert TreeEntry(start, prev, level, v);
    assert net[..][p.node] == net[p.node];
    forall w: nat
      ensures Owned(own, arcs, p.node, p.edge)
      ensures NetOut(arcs, Moved(own, x, p.node, p.edge, amount), {w})
           == NetOut(arcs, x, {w}) + (if w == p.node then amount else 0) - (if w == v then amount else 0)
    {
      MovedNetOut(net[..], arcs, own, x, p.node, p.edge, amount, w);
    }
    x' := Push(net, p.node, p.edge, amount, arcs, own, x);
  }

  /** Moves `amount` along the whole tree path from the source to the sink. */
  method Augment(net: array<seq<Entry>>, prev: seq<Prev>, ghost level: seq<nat>, amount: nat,
                 ghost arcs: seq<Arc>, ghost own: Owners, ghost x: seq<int>)
    returns (ghost x': seq<int>)
    requires Residual(net[..], arcs, own, x) && Tree(net[..], prev, level) && Reached(prev, SINK)
    requires PathCarries(net[..], prev, level, SINK, amount)
    modifies net
    ensures Residual(net[..], arcs, own, x') && Shifted(arcs, x, x', SOURCE, SINK, amount)
  {
    ghost var start := net[..];
    x' := x;
    var v := SINK;
    while v != SOURCE
      invariant Reached(prev, v)
      invariant Residual(net[..], arcs, own, x') && UntouchedAbove(start, net[..], level, v)
      invariant PathCarries(start, prev, level, v, amount)
      invariant Shifted(arcs, x, x', v, SINK, amount)
      decreases level[v]
    {
      x' := AugmentStep(net, start, prev, level, v, amount, arcs, own, x');
      v := prev[v].node;
    }
  }

  ghost function ReachedSet(prev: seq<Prev>): set<nat> {
    set v: nat | v < |prev| && Reached(prev, v)
  }

  /** When the search stops short of the sink, what it reached is a cut with no capacity left. */
  lemma SearchEndsInCut(net: Lists, prev: seq<Prev>, level: seq<nat>, arcs: seq<Arc>, own: Owners, x: seq<int>)
    requires Residual(net, arcs, own, x) && Tree(net, prev, level)
    requires !Reached(prev, SINK) && DoneClosed(net, prev, [])
    ensures IsCut(ReachedSet(prev)) && Saturated(arcs, x, ReachedSet(prev))
  {
    var S := ReachedSet(prev);
    forall k | 0 <= k < |arcs| ensures Leaves(arcs[k], S) ==> x[k] == arcs[k].cap
      ensures Enters(arcs[k], S) ==> x[k] == 0
    {
      var a := arcs[k];
      assert Holds(net, a, x[k]);
      if Leaves(a, S) {
        assert ClosedAt(net, prev, a.from);
      } else if Enters(a, S) {
        assert ClosedAt(net, prev, a.to);
      }
    }
  }

  /** Augments until the sink is out of reach. The result is the value of a flow, the last search leaves a
      cut of that capacity, and no flow carries more. */
  method MaxFlow(net: array<seq<Entry>>, ghost arcs: seq<Arc>, ghost own: Owners, ghost x0: seq<int>)
    returns (total: int, ghost x: seq<int>, ghost cut: set<nat>)
    requires net.Length > SINK && Residual(net[..], arcs, own, x0) && IsFlow(arcs, x0, 0)
    modifies net
    ensures Residual(net[..], arcs, own, x) && IsFlow(arcs, x, total)
    ensures IsCut(cut) && Saturated(arcs, x, cut) && total == CutCapacity(arcs, cut)
    ensures forall y, v :: IsFlow(arcs, y, v) ==> v <= total
  {
    total, x := 0, x0;
    FlowAtMostCut(arcs, x, total, {SOURCE});
    while true
      invariant Residual(net[..], arcs, own, x) && IsFlow(arcs, x, total)
      invariant total <= CutCapacity(arcs, {SOURCE})
      decreases CutCapacity(arcs, {SOURCE}) - total
    {
      ListsInRange(net[..], arcs, own, x);
      var prev, level := FindPath(net[..]);
      if prev[SINK].node == -1 {
        SearchEndsInCut(net[..], prev, level, arcs, own, x);
        cut := ReachedSet(prev);
        SaturatedCutIsOptimal(arcs, x, total, cut);
        return;
      }
      var bn := Bottleneck(net[..], prev, level);
      ghost var x' := Augment(net, prev, level, bn, arcs, own, x);
      x := x';
      total := total + bn;
      FlowAtMostCut(arcs, x, total, {SOURCE});
    }
  }

  lemma ListsInRange(net: Lists, arcs: seq<Arc>, own: Owners, x: seq<int>)
    requires Residual(net, arcs, own, x)
    ensures InRange(net)
  {
    forall u: nat, i: nat | InLists(net, u, i) ensures net[u][i].to < |net| {
      EntryOfOwner(net, arcs, own, x, u, i);
    }
  }
}
