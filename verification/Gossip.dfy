/** Peers, gossip with a set of events already forwarded, and why a run of one event through a finite network
    ends after a bounded number of messages. */
module Gossips {
  import opened SigningGraph

  type Url = string

  /** The known peers, without repetitions and within a capacity. */
  class PeerList {
    var peers: seq<Url>
    const maxSize: int

    ghost predicate Valid()
      reads this
    {
      NoRepeats(peers) && (|peers| == 0 || |peers| <= maxSize)
    }

    constructor (maxSize: int)
      ensures Valid() && peers == [] && this.maxSize == maxSize
    {
      this.maxSize := maxSize;
      peers := [];
    }

    /** Whether a peer is known. */
    method Contains(url: Url) returns (known: bool)
      ensures known <==> url in peers
    {
      for i := 0 to |peers|
        invariant forall j :: 0 <= j < i ==> peers[j] != url
      {
        if peers[i] == url {
          return true;
        }
      }
      return false;
    }

    /** Adding a known peer changes nothing; a new one needs room. */
    method Add(url: Url) returns (ok: bool)
      requires Valid()
      modifies this
      ensures Valid()
      ensures ok <==> url in old(peers) || |old(peers)| < maxSize
      ensures peers == if ok && url !in old(peers) then old(peers) + [url] else old(peers)
    {
      var known := Contains(url);
      if known {
        return true;
      }
      if |peers| >= maxSize {
        return false;
      }
      peers := peers + [url];
      return true;
    }
  }

  /** The targets are distinct peers, at most `fanout`, and not the one the event came from; there are fewer
      only if there are fewer candidates. */
  ghost predicate GoodTargets(peers: seq<Url>, fanout: nat, origin: Url, targets: seq<Url>) {
    && NoRepeats(targets) && |targets| <= fanout
    && (forall t :: t in targets ==> t in peers && t != origin)
    && (|targets| < fanout ==> forall p :: p in peers && p != origin ==> p in targets)
  }

  /** What becomes of an event at a node: it is marked as seen, and goes to good targets unless it was seen
      before. */
  ghost predicate Handled(peers: seq<Url>, fanout: nat, seen: set<string>, id: string, origin: Url,
                          targets: seq<Url>, seen': set<string>) {
    && seen' == seen + {id}
    && if id in seen then targets == [] else GoodTargets(peers, fanout, origin, targets)
  }

  /** Forwards events to some peers, each event once. */
  class Gossip {
    const list: PeerList
    const fanout: nat
    var seen: set<string>

    constructor (list: PeerList, fanout: nat)
      ensures this.list == list && this.fanout == fanout && seen == {}
    {
      this.list, this.fanout, this.seen := list, fanout, {};
    }

    /** The peers other than the origin, in random order, cut off at the fanout. */
    method PickTargets(origin: Url) returns (targets: seq<Url>)
      requires list.Valid()
      ensures GoodTargets(list.peers, fanout, origin, targets)
    {
      var candidates: seq<Url> := [];
      for i := 0 to |list.peers|
        invariant NoRepeats(candidates)
        invariant forall p :: p in candidates <==> p in list.peers[..i] && p != origin
      {
        assert list.peers[..i + 1] == list.peers[..i] + [list.peers[i]];
        if list.peers[i] != origin {
          assert list.peers[i] !in list.peers[..i];
          candidates := candidates + [list.peers[i]];
        }
      }
      assert list.peers[..|list.peers|] == list.peers;
      candidates := Shuffle(candidates);
      var k := fanout;
      if k > |candidates| {
        k := |candidates|;
      }
      targets := candidates[..k];
      assert forall t :: t in targets ==> t in candidates;
      assert |targets| < fanout ==> targets == candidates;
    }

    /** Whom to forward an event to: nobody if it has been forwarded already. */
    method Forward(id: string, origin: Url) returns (targets: seq<Url>)
      requires list.Valid()
      modifies this
      ensures Handled(list.peers, fanout, old(seen), id, origin, targets, seen)
    {
      if id in seen {
        return [];
      }
      seen := seen + {id};
      targets := PickTargets(origin);
    }
  }

  /** Exchanges each place with a random one at or below it. */
  method Shuffle(s: seq<Url>) returns (r: seq<Url>)
    requires NoRepeats(s)
    ensures |r| == |s| && NoRepeats(r) && forall x :: x in r <==> x in s
  {
    r := s;
    var i := |s| - 1;
    while i > 0
      invariant -1 <= i < |s| && |r| == |s| && NoRepeats(r) && forall x :: x in r <==> x in s
    {
      var j :| 0 <= j <= i;
      ghost var before := r;
      r := r[i := r[j]][j := r[i]];
      assert r[i] == before[j] && r[j] == before[i];
      forall x ensures x in r <==> x in before {
        if x in before {
          var k :| 0 <= k < |before| && before[k] == x;
          assert r[if k == i then j else if k == j then i else k] == x;
        }
      }
      i := i - 1;
    }
  }

  // ---------- events in a network ----------

  /** An event on its way to a node, with the origin the receiver is told. */
  datatype Message = Message(to: Url, id: string, origin: Url)

  /** That a node handled an event, and whom it sent it to. */
  datatype Call = Call(node: Url, id: string, origin: Url, targets: seq<Url>)

  /** The nodes with their peers, and the fanout they use. */
  datatype Network = Network(peersOf: map<Url, seq<Url>>, fanout: nat)

  /** What is on its way, what each node has seen, and what the nodes have done so far, in order. */
  datatype State = State(inFlight: multiset<Message>, seen: map<Url, set<string>>, calls: seq<Call>) {
    function SeenBy(node: Url): set<string> {
      if node in seen then seen[node] else {}
    }
  }

  /** One message of the event to each target, with any origin. */
  ghost predicate OneEach(sent: seq<Message>, id: string, targets: seq<Url>) {
    |sent| == |targets| && forall i :: 0 <= i < |sent| ==> sent[i].to == targets[i] && sent[i].id == id
  }

  /** A node handles an event as `Gossip.Forward` does. */
  ghost predicate Handles(net: Network, s: State, node: Url, id: string, origin: Url, targets: seq<Url>,
                          sent: seq<Message>, t: State) {
    && node in net.peersOf && OneEach(sent, id, targets)
    && node in t.seen && t.seen == s.seen[node := t.seen[node]]
    && Handled(net.peersOf[node], net.fanout, s.SeenBy(node), id, origin, targets, t.seen[node])
    && t.inFlight == s.inFlight + multiset(sent)
    && t.calls == s.calls + [Call(node, id, origin, targets)]
  }

  /** A message arrives: it is dropped, because the node refuses it or there is no such node, or it is handled. */
  ghost predicate Delivers(net: Network, s: State, m: Message, t: State) {
    && m in s.inFlight
    && var rest := s.(inFlight := s.inFlight - multiset{m});
       t == rest || exists targets, sent :: Handles(net, rest, m.to, m.id, m.origin, targets, sent, t)
  }

  ghost predicate Steps(net: Network, s: State, t: State) {
    exists m :: Delivers(net, s, m, t)
  }

  ghost predicate IsRun(net: Network, states: seq<State>) {
    |states| > 0 && forall i {:trigger StepAt(net, states, i)} :: 0 <= i < |states| - 1 ==> StepAt(net, states, i)
  }

  ghost predicate StepAt(net: Network, states: seq<State>, i: nat)
    requires i < |states| - 1
  {
    Steps(net, states[i], states[i + 1])
  }

  // ---------- what holds along a run ----------

  ghost predicate HasHandled(calls: seq<Call>, node: Url, id: string) {
    exists i :: 0 <= i < |calls| && calls[i].node == node && calls[i].id == id
  }

  /** A node has seen an event exactly when it had at the start or has handled it since. */
  ghost predicate SeenIsHandled(start: State, s: State) {
    forall node, id :: id in s.SeenBy(node) <==> id in start.SeenBy(node) || HasHandled(s.calls, node, id)
  }

  /** Only the first time a node handles an event does it send it on. */
  ghost predicate SentOnce(calls: seq<Call>) {
    forall i, j :: 0 <= i < j < |calls| && calls[i].node == calls[j].node && calls[i].id == calls[j].id ==>
      calls[j].targets == []
  }

  /** Call `i` is by a node of the network, to good targets if the event is new to it and to none otherwise. */
  ghost predicate RightCall(net: Network, start: State, calls: seq<Call>, i: nat)
    requires i < |calls|
  {
    var c := calls[i];
    && c.node in net.peersOf
    && if c.id in start.SeenBy(c.node) || HasHandled(calls[..i], c.node, c.id) then c.targets == []
       else GoodTargets(net.peersOf[c.node], net.fanout, c.origin, c.targets)
  }

  ghost predicate RightCalls(net: Network, start: State, calls: seq<Call>) {
    forall i {:trigger RightCall(net, start, calls, i)} :: 0 <= i < |calls| ==> RightCall(net, start, calls, i)
  }

  lemma RightCallsSendOnce(net: Network, start: State, calls: seq<Call>)
    requires RightCalls(net, start, calls)
    ensures SentOnce(calls)
  {
    forall i, j | 0 <= i < j < |calls| && calls[i].node == calls[j].node && calls[i].id == calls[j].id
      ensures calls[j].targets == []
    {
      assert RightCall(net, start, calls, j);
      assert calls[..j][i] == calls[i];
    }
  }

  /** Only events of `W` are about. */
  ghost predicate OnlyEvents(s: State, W: set<string>) {
    (forall m :: m in s.inFlight ==> m.id in W) && forall c :: c in s.calls ==> c.id in W
  }

  ghost predicate Proper(net: Network, W: set<string>, start: State, s: State) {
    SeenIsHandled(start, s) && RightCalls(net, start, s.calls) && OnlyEvents(s, W)
  }

  /** How many messages of events of `W` have been sent. */
  function Sent(calls: seq<Call>, W: set<string>): nat {
    if |calls| == 0 then 0
    else
      var c := calls[|calls| - 1];
      Sent(calls[..|calls| - 1], W) + if c.id in W then |c.targets| else 0
  }

  lemma HandledOneMore(calls: seq<Call>, c: Call, node: Url, id: string)
    ensures HasHandled(calls + [c], node, id) <==> HasHandled(calls, node, id) || (c.node == node && c.id == id)
  {
    if i :| 0 <= i < |calls| && calls[i].node == node && calls[i].id == id {
      assert (calls + [c])[i] == calls[i];
    }
    assert (calls + [c])[|calls|] == c;
  }

  lemma HandlesProper(net: Network, W: set<string>, start: State, s: State, m: Message, targets: seq<Url>,
                      sent: seq<Message>, t: State)
    requires Proper(net, W, start, s) && m.id in W && Handles(net, s, m.to, m.id, m.origin, targets, sent, t)
    ensures Proper(net, W, start, t)
    ensures |t.inFlight| == |s.inFlight| + Sent(t.calls, W) - Sent(s.calls, W)
  {
    var c := Call(m.to, m.id, m.origin, targets);
    assert t.calls[..|t.calls| - 1] == s.calls;
    forall node, id ensures id in t.SeenBy(node) <==> id in start.SeenBy(node) || HasHandled(t.calls, node, id) {
      HandledOneMore(s.calls, c, node, id);
    }
    forall i | 0 <= i < |t.calls| ensures RightCall(net, start, t.calls, i) {
      if i < |s.calls| {
        assert RightCall(net, start, s.calls, i);
        assert t.calls[..i] == s.calls[..i];
      }
    }
    forall n | n in multiset(sent) ensures n.id in W {
      assert n in sent;
    }
  }

  lemma StepProper(net: Network, W: set<string>, start: State, s: State, t: State)
    requires Proper(net, W, start, s) && Steps(net, s, t)
    ensures Proper(net, W, start, t)
    ensures |t.inFlight| + 1 == |s.inFlight| + Sent(t.calls, W) - Sent(s.calls, W)
  {
    var m :| Delivers(net, s, m, t);
    var rest := s.(inFlight := s.inFlight - multiset{m});
    assert |rest.inFlight| + 1 == |s.inFlight|;
    assert forall node :: rest.SeenBy(node) == s.SeenBy(node);
    assert Proper(net, W, start, rest);
    if t != rest {
      var targets, sent :| Handles(net, rest, m.to, m.id, m.origin, targets, sent, t);
      HandlesProper(net, W, start, rest, m, targets, sent, t);
    }
  }

  /** Along a run each step delivers one message, and what is sent is accounted for by what the nodes did. */
  lemma {:induction false} RunAccounts(net: Network, W: set<string>, states: seq<State>)
    requires IsRun(net, states) && states[0].calls == [] && OnlyEvents(states[0], W)
    ensures var last := states[|states| - 1];
      Proper(net, W, states[0], last) && |last.inFlight| + (|states| - 1) == |states[0].inFlight| + Sent(last.calls, W)
    decreases |states|
  {
    var n := |states| - 1;
    if n > 0 {
      var shorter := states[..n];
      forall i | 0 <= i < |shorter| - 1 ensures StepAt(net, shorter, i) {
        assert StepAt(net, states, i);
      }
      RunAccounts(net, W, shorter);
      assert StepAt(net, states, n - 1);
      StepProper(net, W, states[0], states[n - 1], states[n]);
    }
  }

  // ---------- bounds ----------

  /** Which nodes have handled which events of `W`. */
  function Pairs(calls: seq<Call>, W: set<string>): set<(Url, string)> {
    set c | c in calls && c.id in W :: (c.node, c.id)
  }

  lemma PairsOneMore(calls: seq<Call>, c: Call, W: set<string>)
    ensures Pairs(calls + [c], W) == Pairs(calls, W) + if c.id in W then {(c.node, c.id)} else {}
    ensures (c.node, c.id) in Pairs(calls, W) ==> HasHandled(calls, c.node, c.id)
  {
    assert c in calls + [c];
    if (c.node, c.id) in Pairs(calls, W) {
      var d :| d in calls && d.id in W && (d.node, d.id) == (c.node, c.id);
      var i :| 0 <= i < |calls| && calls[i] == d;
    }
  }

  /** The last call sends messages only if it makes a new pair, and then at most `fanout`. */
  lemma LastCall(net: Network, start: State, before: seq<Call>, c: Call, W: set<string>)
    requires RightCalls(net, start, before + [c])
    ensures RightCalls(net, start, before)
    ensures var sent, k := Sent(before + [c], W) - Sent(before, W), |Pairs(before + [c], W)| - |Pairs(before, W)|;
      (sent == 0 && k == 0) || (sent <= net.fanout && k == 1)
  {
    var calls, n := before + [c], |before|;
    assert calls[..n] == before && calls[n] == c;
    forall i | 0 <= i < n ensures RightCall(net, start, before, i) {
      assert RightCall(net, start, calls, i) && before[..i] == calls[..i];
    }
    assert RightCall(net, start, calls, n);
    PairsOneMore(before, c, W);
  }

  lemma OneMoreFanout(fanout: nat, sent: nat, k: nat, more: int, l: nat)
    requires sent <= fanout * k && ((more == 0 && l == k) || (more <= fanout && l == k + 1))
    ensures sent + more <= fanout * l
  {
    assert fanout * (k + 1) == fanout * k + fanout;
  }

  /** Each node sends each event to at most `fanout` peers. */
  lemma {:induction false} SentAtMost(net: Network, start: State, calls: seq<Call>, W: set<string>)
    requires RightCalls(net, start, calls)
    ensures Sent(calls, W) <= net.fanout * |Pairs(calls, W)|
  {
    if |calls| > 0 {
      var c, before := calls[|calls| - 1], calls[..|calls| - 1];
      assert calls == before + [c];
      LastCall(net, start, before, c, W);
      SentAtMost(net, start, before, W);
      var sent := Sent(before, W);
      OneMoreFanout(net.fanout, sent, |Pairs(before, W)|, Sent(calls, W) - sent, |Pairs(calls, W)|);
    }
  }

  /** The pairs with second part `b` are no more than the possible first parts. */
  lemma SliceSize(A: set<Url>, b: string, P: set<(Url, string)>)
    requires forall p :: p in P ==> p.0 in A && p.1 == b
    ensures |P| <= |A|
  {
    var firsts := set p | p in P :: p.0;
    forall a ensures a in firsts <==> (a, b) in P {
      if (a, b) in P { assert (a, b).0 == a; }
    }
    FirstsSize(P, firsts, b);
    SubsetSize(firsts, A);
  }

  lemma {:induction false} ProductSize(A: set<Url>, B: set<string>, P: set<(Url, string)>)
    requires forall p :: p in P ==> p.0 in A && p.1 in B
    ensures |P| <= |A| * |B|
    decreases |B|
  {
    if b :| b in B {
      var Q := set p | p in P && p.1 != b;
      ProductSize(A, B - {b}, Q);
      SliceSize(A, b, P - Q);
      assert P == Q + (P - Q);
      Grown(|A|, |B - {b}|, |Q|, |P - Q|);
    } else {
      assert P == {};
    }
  }

  lemma Grown(a: nat, b: nat, q: nat, r: nat)
    requires q <= a * b && r <= a
    ensures q + r <= a * (b + 1)
  {
  }

  lemma {:induction false} FirstsSize(P: set<(Url, string)>, firsts: set<Url>, b: string)
    requires (forall p :: p in P ==> p.1 == b) && forall a :: a in firsts <==> (a, b) in P
    ensures |P| == |firsts|
    decreases |P|
  {
    if p :| p in P {
      FirstsSize(P - {p}, firsts - {p.0}, b);
      assert p == (p.0, b);
    } else {
      assert firsts == {};
    }
  }

  lemma Times(a: nat, b: nat, c: nat)
    requires b <= c
    ensures a * b <= a * c
  {
    assert a * c == a * b + a * (c - b);
  }

  lemma SentBound(net: Network, start: State, calls: seq<Call>, W: set<string>)
    requires RightCalls(net, start, calls)
    ensures Sent(calls, W) <= net.fanout * (|net.peersOf| * |W|)
  {
    SentAtMost(net, start, calls, W);
    forall p | p in Pairs(calls, W) ensures p.0 in net.peersOf.Keys && p.1 in W {
      var c :| c in calls && c.id in W && p == (c.node, c.id);
      var i :| 0 <= i < |calls| && calls[i] == c;
      assert RightCall(net, start, calls, i);
    }
    ProductSize(net.peersOf.Keys, W, Pairs(calls, W));
    Times(net.fanout, |Pairs(calls, W)|, |net.peersOf| * |W|);
  }

  /** Gossip is bounded. Along a run a node has seen exactly the events it had seen at the start and those it has
      handled; so it sends each event on at most once, to at most `fanout` distinct peers and not to the origin it
      was told. Therefore each event is sent at most fanout x nodes times, and a run that starts with the events `W`
      on their way has at most that many steps for each of them beyond the messages it started with. */
  lemma GossipIsBounded(net: Network, W: set<string>, states: seq<State>)
    requires IsRun(net, states) && states[0].calls == [] && OnlyEvents(states[0], W)
    ensures var last := states[|states| - 1];
      && SeenIsHandled(states[0], last) && RightCalls(net, states[0], last.calls) && SentOnce(last.calls)
      && (forall id :: Sent(last.calls, {id}) <= net.fanout * |net.peersOf|)
      && |states| - 1 <= |states[0].inFlight| + net.fanout * (|net.peersOf| * |W|)
  {
    var last := states[|states| - 1];
    RunAccounts(net, W, states);
    RightCallsSendOnce(net, states[0], last.calls);
    SentBound(net, states[0], last.calls, W);
    forall id ensures Sent(last.calls, {id}) <= net.fanout * |net.peersOf| {
      SentBound(net, states[0], last.calls, {id});
    }
  }
}
