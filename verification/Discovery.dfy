/** The search of the peer graph for a block: three queues by priority, a set of URLs seen, and a bound on
    their number. */
module Discovery {
  import opened SigningGraph
  import opened Ledger
  import opened MemoryStores
  import opened TrustGraph
  import opened TrustScores
  import opened DisjointScorer

  type Url = string

  datatype PeerNode = PeerNode(url: Url, domains: seq<string>, allowAll: bool)

  /** A node's announcement of its peers, in the newer form if it gives one. */
  datatype WellKnown = WellKnown(peerNodes: Option<seq<PeerNode>>, peers: seq<Url>)

  /** What the nodes answer while a search runs, and the text functions the search applies: URL and letter-case
      normalisation, and comparison of domains. A node missing from a map does not answer. */
  datatype Web = Web(
    wellKnown: map<Url, WellKnown>,
    target: map<Url, Block>,
    everything: map<Url, seq<Block>>,
    matches: map<Url, seq<Block>>,
    normalise: string -> Url,
    trim: string -> Url,
    upper: string -> string,
    sameDomain: (string, string) -> bool)

  datatype NodeBlock = NodeBlock(node: Url, block: Block)

  datatype TrustConfig = TrustConfig(root: Fp, threshold: int, maxDepth: int)

  /** A missing score is -1. */
  datatype BlockResult = BlockResult(best: Option<NodeBlock>, nodesTried: nat, trustScore: int,
                                     allCopies: seq<NodeBlock>)

  // ---------- the peer graph ----------

  ghost predicate IsSeed(web: Web, seeds: seq<string>, u: Url) {
    u != "" && exists raw :: raw in seeds && web.normalise(raw) == u
  }

  /** `u` announces `v`. */
  ghost predicate Announces(web: Web, u: Url, v: Url) {
    && u in web.wellKnown && v != ""
    && match web.wellKnown[u].peerNodes
       case Some(nodes) => exists pn :: pn in nodes && web.trim(pn.url) == v
       case None => exists raw :: raw in web.wellKnown[u].peers && web.trim(raw) == v
  }

  /** `S` holds the seeds and everything its members announce. */
  ghost predicate Closed(web: Web, seeds: seq<string>, S: set<Url>) {
    && (forall u :: IsSeed(web, seeds, u) ==> u in S)
    && (forall u, v :: u in S && Announces(web, u, v) ==> v in S)
  }

  // ---------- the queues ----------

  datatype Kind = Exact | AllowAll | Normal

  /** Nodes of the wanted domain go before nodes that take any domain, and those before the rest. */
  ghost function Rank(kind: Kind): nat {
    match kind
    case Exact => 0
    case AllowAll => 1
    case Normal => 2
  }

  datatype Queues = Queues(exact: seq<Url>, allowAll: seq<Url>, normal: seq<Url>) {
    function Of(kind: Kind): seq<Url> {
      match kind
      case Exact => exact
      case AllowAll => allowAll
      case Normal => normal
    }

    function Put(kind: Kind, u: Url): Queues {
      match kind
      case Exact => this.(exact := exact + [u])
      case AllowAll => this.(allowAll := allowAll + [u])
      case Normal => this.(normal := normal + [u])
    }

    function All(): seq<Url> { exact + allowAll + normal }

    predicate HasQueued() { |exact| > 0 || |allowAll| > 0 || |normal| > 0 }
  }

  /** Some domain of the list, wherever it stands, is the one wanted. */
  ghost predicate ListsDomain(web: Web, domains: seq<string>, target: string) {
    exists i :: 0 <= i < |domains| && web.sameDomain(domains[i], target)
  }

  method ContainsDomain(web: Web, domains: seq<string>, target: string) returns (found: bool)
    ensures found <==> exists i :: 0 <= i < |domains| && web.sameDomain(domains[i], target)
  {
    for i := 0 to |domains|
      invariant forall j :: 0 <= j < i ==> !web.sameDomain(domains[j], target)
    {
      if web.sameDomain(domains[i], target) {
        return true;
      }
    }
    return false;
  }

  // ---------- order of announcement ----------

  /** Place `j` is the first at which `u` stands in the list. */
  ghost predicate FirstAt(list: seq<Url>, u: Url, j: nat) {
    j < |list| && list[j] == u && u !in list[..j]
  }

  lemma {:induction false} FirstPlace(list: seq<Url>, u: Url, n: nat) returns (j: nat)
    requires n <= |list| && u in list[..n]
    ensures j < n && FirstAt(list, u, j)
  {
    if u in list[..n - 1] {
      j := FirstPlace(list, u, n - 1);
    } else {
      j := n - 1;
      assert list[..n] == list[..n - 1] + [list[n - 1]];
    }
  }

  /** `u` stands in the list before `v`, going by first places. */
  ghost predicate StandsBefore(list: seq<Url>, u: Url, v: Url) {
    exists j, k :: FirstAt(list, u, j) && FirstAt(list, v, k) && j < k
  }

  /** The URLs of `s` stand in the list in this order. */
  ghost predicate InListOrder(list: seq<Url>, s: seq<Url>) {
    forall a, b :: 0 <= a < b < |s| ==> StandsBefore(list, s[a], s[b])
  }

  /** The next place of the list extends such a sequence if its URL has not stood before. */
  lemma InOrderOneMore(list: seq<Url>, s: seq<Url>, i: nat)
    requires InListOrder(list, s) && i < |list| && list[i] !in list[..i] && forall u :: u in s ==> u in list[..i]
    ensures InListOrder(list, s + [list[i]])
  {
    var more := s + [list[i]];
    forall a, b | 0 <= a < b < |more| ensures StandsBefore(list, more[a], more[b]) {
      if b < |s| {
        assert StandsBefore(list, s[a], s[b]);
      } else {
        var j := FirstPlace(list, s[a], i);
        assert FirstAt(list, list[i], i);
      }
    }
  }

  /** The URLs a node announces, in order. */
  ghost function UrlsOf(web: Web, node: Url): seq<Url> {
    if node !in web.wellKnown then []
    else match web.wellKnown[node].peerNodes
      case Some(nodes) => seq(|nodes|, i requires 0 <= i < |nodes| => web.trim(nodes[i].url))
      case None =>
        var peers := web.wellKnown[node].peers;
        seq(|peers|, i requires 0 <= i < |peers| => web.trim(peers[i]))
  }

  ghost function SeedUrls(web: Web, seeds: seq<string>): seq<Url> {
    seq(|seeds|, i requires 0 <= i < |seeds| => web.normalise(seeds[i]))
  }

  /** The URLs seen are those contacted and those waiting, each once. */
  ghost predicate Tracked(visited: set<Url>, contacted: seq<Url>, q: Queues) {
    NoRepeats(contacted + q.All()) && forall u :: u in visited <==> u in contacted + q.All()
  }

  lemma InsertedOnce(a: seq<Url>, k: nat, u: Url)
    requires NoRepeats(a) && k <= |a| && u !in a
    ensures NoRepeats(a[..k] + [u] + a[k..]) && forall x :: x in a[..k] + [u] + a[k..] <==> x in a || x == u
  {
    var b := a[..k] + [u] + a[k..];
    forall i, j | 0 <= i < j < |b| ensures b[i] != b[j] {
      assert i != k ==> b[i] == a[if i < k then i else i - 1];
      assert j != k ==> b[j] == a[if j < k then j else j - 1];
    }
    assert a == a[..k] + a[k..];
  }

  lemma TrackOne(visited: set<Url>, contacted: seq<Url>, q: Queues, u: Url, kind: Kind, q': Queues)
    requires Tracked(visited, contacted, q) && u !in visited
    requires q' == q.Put(kind, u)
    ensures Tracked(visited + {u}, contacted, q')
  {
    var a := contacted + q.All();
    var k := match kind
      case Exact => |contacted| + |q.exact|
      case AllowAll => |contacted| + |q.exact| + |q.allowAll|
      case Normal => |a|;
    InsertedOnce(a, k, u);
    assert contacted + q'.All() == a[..k] + [u] + a[k..];
  }

  /** Queues a URL not seen before, by what its node says of itself. */
  method EnqueueNode(web: Web, pn: PeerNode, domain: string, q: Queues, visited: set<Url>, ghost contacted: seq<Url>)
    returns (q': Queues, visited': set<Url>)
    requires Tracked(visited, contacted, q)
    ensures Tracked(visited', contacted, q')
    ensures visited' == if web.trim(pn.url) == "" then visited else visited + {web.trim(pn.url)}
    ensures web.trim(pn.url) != "" && web.trim(pn.url) !in visited ==>
      q' == q.Put(KindOf(web, pn, domain), web.trim(pn.url))
    ensures web.trim(pn.url) == "" || web.trim(pn.url) in visited ==> q' == q
  {
    q', visited' := q, visited;
    var u := web.trim(pn.url);
    if u == "" || u in visited {
      return;
    }
    visited' := visited + {u};
    var listed := ContainsDomain(web, pn.domains, domain);
    if domain != "" && listed {
      q' := q.(exact := q.exact + [u]);
    } else if domain != "" && pn.allowAll {
      q' := q.(allowAll := q.allowAll + [u]);
    } else {
      q' := q.(normal := q.normal + [u]);
    }
    TrackOne(visited, contacted, q, u, KindOf(web, pn, domain), q');
  }

  /** What the first announcement of `u` in the list makes of it. */
  ghost predicate FirstSays(web: Web, nodes: seq<PeerNode>, domain: string, u: Url, kind: Kind) {
    exists i :: 0 <= i < |nodes| && web.trim(nodes[i].url) == u && kind == KindOf(web, nodes[i], domain)
      && forall j :: 0 <= j < i ==> web.trim(nodes[j].url) != u
  }

  /** `node` announces `u`, and that puts it into the queue of this kind: nodes of the wanted domain, nodes that take
      any domain, or the rest, among them all nodes announced in the older form. */
  ghost predicate Earns(web: Web, node: Url, domain: string, u: Url, kind: Kind) {
    && Announces(web, node, u)
    && match web.wellKnown[node].peerNodes
       case Some(nodes) => FirstSays(web, nodes, domain, u, kind)
       case None => kind == Normal
  }

  lemma EarnsOneKind(web: Web, node: Url, domain: string, u: Url, a: Kind, b: Kind)
    requires Earns(web, node, domain, u, a) && Earns(web, node, domain, u, b)
    ensures a == b
  {
  }

  /** A node is of the wanted domain if one is wanted and stands anywhere in its list; it takes any domain if it is
      not, a domain is wanted, and it says so. */
  ghost function KindOf(web: Web, pn: PeerNode, domain: string): (kind: Kind)
    ensures kind == Exact <==>
      domain != "" && exists i :: 0 <= i < |pn.domains| && web.sameDomain(pn.domains[i], domain)
    ensures kind == AllowAll <==>
      domain != "" && pn.allowAll && forall i :: 0 <= i < |pn.domains| ==> !web.sameDomain(pn.domains[i], domain)
  {
    if domain == "" then Normal
    else if ListsDomain(web, pn.domains, domain) then Exact
    else if pn.allowAll then AllowAll
    else Normal
  }

  /** `q'` has the URLs of `q` first and behind them only URLs not seen before, each in the queue it has earned and in
      the order in which the node lists them. */
  ghost predicate PlacedIn(web: Web, node: Url, domain: string, visited: set<Url>, q: Queues, q': Queues, kind: Kind) {
    && q.Of(kind) <= q'.Of(kind)
    && var added := q'.Of(kind)[|q.Of(kind)|..];
       && (forall u :: u in added ==> Earns(web, node, domain, u, kind) && u !in visited)
       && InListOrder(UrlsOf(web, node), added)
  }

  /** What has been added is from the first `n` places. */
  ghost predicate AddedFrom(list: seq<Url>, n: nat, q: Queues, q': Queues) {
    n <= |list| && forall kind, u :: q.Of(kind) <= q'.Of(kind) && u in q'.Of(kind)[|q.Of(kind)|..] ==> u in list[..n]
  }

  ghost predicate Placed(web: Web, node: Url, domain: string, visited: set<Url>, q: Queues, q': Queues) {
    forall kind {:trigger PlacedIn(web, node, domain, visited, q, q', kind)} ::
      PlacedIn(web, node, domain, visited, q, q', kind)
  }

  lemma PlacedOne(web: Web, node: Url, domain: string, visited: set<Url>, q: Queues, q': Queues, u: Url, kind: Kind,
                  q'': Queues, n: nat)
    requires Placed(web, node, domain, visited, q, q') && Earns(web, node, domain, u, kind) && u !in visited
    requires AddedFrom(UrlsOf(web, node), n, q, q') && n < |UrlsOf(web, node)| && UrlsOf(web, node)[n] == u
    requires u !in UrlsOf(web, node)[..n]
    requires q'' == q'.Put(kind, u)
    ensures Placed(web, node, domain, visited, q, q'') && AddedFrom(UrlsOf(web, node), n + 1, q, q'')
  {
    var list := UrlsOf(web, node);
    assert list[..n + 1] == list[..n] + [u];
    forall k: Kind
      ensures PlacedIn(web, node, domain, visited, q, q'', k)
      ensures forall v :: v in q''.Of(k)[|q.Of(k)|..] ==> v in list[..n + 1]
    {
      assert PlacedIn(web, node, domain, visited, q, q', k);
      if k == kind {
        assert q''.Of(k)[|q.Of(k)|..] == q'.Of(k)[|q.Of(k)|..] + [u];
        InOrderOneMore(list, q'.Of(k)[|q.Of(k)|..], n);
      }
    }
  }

  lemma AnnouncesListed(web: Web, node: Url, v: Url)
    ensures Announces(web, node, v) <==> v != "" && v in UrlsOf(web, node)
  {
    var list := UrlsOf(web, node);
    if node in web.wellKnown {
      match web.wellKnown[node].peerNodes
      case Some(nodes) =>
        assert forall i :: 0 <= i < |nodes| ==> list[i] == web.trim(nodes[i].url) && nodes[i] in nodes;
      case None =>
        var peers := web.wellKnown[node].peers;
        assert forall i :: 0 <= i < |peers| ==> list[i] == web.trim(peers[i]) && peers[i] in peers;
    }
  }

  /** One place of a list dealt with: nothing added if its URL is empty or has been seen. */
  ghost predicate QueuedSoFar(web: Web, node: Url, domain: string, visited: set<Url>, q: Queues, q': Queues,
                              visited': set<Url>, n: nat) {
    && n <= |UrlsOf(web, node)| && Placed(web, node, domain, visited, q, q')
    && AddedFrom(UrlsOf(web, node), n, q, q')
    && forall v :: v in visited' <==> v in visited || (v != "" && v in UrlsOf(web, node)[..n])
  }

  lemma QueuedOneMore(web: Web, node: Url, domain: string, visited: set<Url>, q: Queues, q': Queues,
                      visited': set<Url>, n: nat, kind: Kind, q'': Queues, visited'': set<Url>)
    requires QueuedSoFar(web, node, domain, visited, q, q', visited', n) && n < |UrlsOf(web, node)|
    requires var u := UrlsOf(web, node)[n];
      if u == "" || u in visited' then q'' == q' && visited'' == visited'
      else q'' == q'.Put(kind, u) && visited'' == visited' + {u} && Earns(web, node, domain, u, kind)
    ensures QueuedSoFar(web, node, domain, visited, q, q'', visited'', n + 1)
  {
    var list := UrlsOf(web, node);
    assert list[..n + 1] == list[..n] + [list[n]];
    if list[n] != "" && list[n] !in visited' {
      PlacedOne(web, node, domain, visited, q, q', list[n], kind, q'', n);
    }
  }

  /** Queues every peer announced by `node` that has not been seen. */
  method EnqueuePeers(web: Web, node: Url, domain: string, q: Queues, visited: set<Url>, ghost contacted: seq<Url>)
    returns (q': Queues, visited': set<Url>)
    requires Tracked(visited, contacted, q)
    ensures Tracked(visited', contacted, q') && Placed(web, node, domain, visited, q, q')
    ensures forall v :: v in visited' <==> v in visited || Announces(web, node, v)
  {
    q', visited' := q, visited;
    forall v ensures Announces(web, node, v) <==> v != "" && v in UrlsOf(web, node) {
      AnnouncesListed(web, node, v);
    }
    assert QueuedSoFar(web, node, domain, visited, q, q', visited', 0);
    if node !in web.wellKnown {
      return;
    }
    var wk := web.wellKnown[node];
    match wk.peerNodes
    case Some(nodes) =>
      for i := 0 to |nodes|
        invariant Tracked(visited', contacted, q')
        invariant QueuedSoFar(web, node, domain, visited, q, q', visited', i)
      {
        ghost var before, seen := q', visited';
        q', visited' := EnqueueNode(web, nodes[i], domain, q', visited', contacted);
        SaysFirst(web, node, domain, i, seen, visited);
        QueuedOneMore(web, node, domain, visited, q, before, seen, i, KindOf(web, nodes[i], domain), q', visited');
      }
    case None =>
      for i := 0 to |wk.peers|
        invariant Tracked(visited', contacted, q')
        invariant QueuedSoFar(web, node, domain, visited, q, q', visited', i)
      {
        ghost var before, seen := q', visited';
        q', visited' := EnqueueNode(web, PeerNode(wk.peers[i], [], false), "", q', visited', contacted);
        QueuedOneMore(web, node, domain, visited, q, before, seen, i, Normal, q', visited');
      }
    assert forall v :: v in UrlsOf(web, node) <==> v in UrlsOf(web, node)[..|UrlsOf(web, node)|];
  }

  /** The first announcement of a URL not seen before says what it earns. */
  lemma SaysFirst(web: Web, node: Url, domain: string, i: nat, seen: set<Url>, visited: set<Url>)
    requires node in web.wellKnown && web.wellKnown[node].peerNodes.Some?
    requires i < |web.wellKnown[node].peerNodes.value|
    requires forall v :: v in seen <==> v in visited || (v != "" && v in UrlsOf(web, node)[..i])
    ensures var pn := web.wellKnown[node].peerNodes.value[i];
      web.trim(pn.url) != "" && web.trim(pn.url) !in seen ==>
        Earns(web, node, domain, web.trim(pn.url), KindOf(web, pn, domain))
  {
    var nodes, list := web.wellKnown[node].peerNodes.value, UrlsOf(web, node);
    var u := web.trim(nodes[i].url);
    if u != "" && u !in seen {
      forall j | 0 <= j < i ensures web.trim(nodes[j].url) != u {
        assert list[..i][j] == web.trim(nodes[j].url);
      }
      assert nodes[i] in nodes;
    }
  }

  /** `u` is the first URL of the queue of its kind, the queues before that are empty, and `q'` is what is left. */
  ghost predicate TakenFrom(q: Queues, u: Url, kind: Kind, q': Queues) {
    && |q.Of(kind)| > 0 && q.Of(kind)[0] == u
    && forall k {:trigger q'.Of(k)} ::
         q'.Of(k) == (if k == kind then q.Of(k)[1..] else q.Of(k)) && (Rank(k) < Rank(kind) ==> q.Of(k) == [])
  }

  /** The first URL of the first queue that has one. */
  method NextNode(q: Queues, ghost visited: set<Url>, ghost contacted: seq<Url>)
    returns (u: Url, q': Queues, ghost kind: Kind)
    requires q.HasQueued() && Tracked(visited, contacted, q)
    ensures TakenFrom(q, u, kind, q')
    ensures Tracked(visited, contacted + [u], q') && [u] + q'.All() == q.All()
  {
    if |q.exact| > 0 {
      u, q', kind := q.exact[0], q.(exact := q.exact[1..]), Exact;
    } else if |q.allowAll| > 0 {
      u, q', kind := q.allowAll[0], q.(allowAll := q.allowAll[1..]), AllowAll;
    } else {
      u, q', kind := q.normal[0], q.(normal := q.normal[1..]), Normal;
    }
    assert [u] + q'.All() == q.All();
    assert contacted + q.All() == contacted + [u] + q'.All();
  }

  method QueueSeeds(web: Web, seeds: seq<string>) returns (q: Queues, visited: set<Url>)
    ensures Tracked(visited, [], q) && q.exact == q.allowAll == []
    ensures forall u :: u in visited <==> IsSeed(web, seeds, u)
    ensures InListOrder(SeedUrls(web, seeds), q.normal)
  {
    q, visited := Queues([], [], []), {};
    ghost var list := SeedUrls(web, seeds);
    for i := 0 to |seeds|
      invariant Tracked(visited, [], q) && q.exact == q.allowAll == []
      invariant forall u :: u in visited <==> IsSeed(web, seeds[..i], u)
      invariant InListOrder(list, q.normal) && forall u :: u in q.normal ==> u in list[..i]
    {
      assert list[..i + 1] == list[..i] + [list[i]];
      forall j | 0 <= j < i && list[j] != "" ensures list[j] in visited {
        assert seeds[..i][j] == seeds[j];
      }
      assert seeds[..i + 1] == seeds[..i] + [seeds[i]];
      var u := web.normalise(seeds[i]);
      if u != "" && u !in visited {
        TrackOne(visited, [], q, u, Normal, q.(normal := q.normal + [u]));
        InOrderOneMore(list, q.normal, i);
        q, visited := q.(normal := q.normal + [u]), visited + {u};
      }
    }
    assert seeds[..|seeds|] == seeds;
  }

  // ---------- in which order the search goes ----------

  /** After the nodes `contacted` the search has heard of `u`. */
  ghost predicate HeardOf(web: Web, seeds: seq<string>, contacted: seq<Url>, u: Url) {
    IsSeed(web, seeds, u) || exists i :: 0 <= i < |contacted| && Announces(web, contacted[i], u)
  }

  /** The kind of a URL: seeds are like the rest, and any other is what the first node to announce it made of it. */
  ghost predicate HasKind(web: Web, seeds: seq<string>, domain: string, contacted: seq<Url>, u: Url, kind: Kind) {
    if IsSeed(web, seeds, u) then kind == Normal
    else exists i: nat :: FirstHeardAt(web, contacted, i, u) && Earns(web, contacted[i], domain, u, kind)
  }

  /** Node `i` of `contacted` is the first to announce `u`. */
  ghost predicate FirstHeardAt(web: Web, contacted: seq<Url>, i: nat, u: Url) {
    && i < |contacted| && Announces(web, contacted[i], u)
    && forall j :: 0 <= j < i ==> !Announces(web, contacted[j], u)
  }

  lemma OneKind(web: Web, seeds: seq<string>, domain: string, contacted: seq<Url>, u: Url, a: Kind, b: Kind)
    requires HasKind(web, seeds, domain, contacted, u, a) && HasKind(web, seeds, domain, contacted, u, b)
    ensures a == b
  {
    if !IsSeed(web, seeds, u) {
      var i: nat :| FirstHeardAt(web, contacted, i, u) && Earns(web, contacted[i], domain, u, a);
      var k: nat :| FirstHeardAt(web, contacted, k, u) && Earns(web, contacted[k], domain, u, b);
      EarnsOneKind(web, contacted[i], domain, u, a, b);
    }
  }

  lemma KindStays(web: Web, seeds: seq<string>, domain: string, contacted: seq<Url>, u: Url, kind: Kind, node: Url)
    requires HasKind(web, seeds, domain, contacted, u, kind)
    ensures HasKind(web, seeds, domain, contacted + [node], u, kind)
  {
    if !IsSeed(web, seeds, u) {
      var i: nat :| FirstHeardAt(web, contacted, i, u) && Earns(web, contacted[i], domain, u, kind);
      assert forall j :: 0 <= j <= i ==> (contacted + [node])[j] == contacted[j];
      assert FirstHeardAt(web, contacted + [node], i, u);
    }
  }

  /** `u` comes next after `contacted`: no URL heard of and not yet contacted is of a better kind. */
  ghost predicate ComesNext(web: Web, seeds: seq<string>, domain: string, contacted: seq<Url>, u: Url) {
    exists kind :: HasKind(web, seeds, domain, contacted, u, kind) && forall v, k ::
      HeardOf(web, seeds, contacted, v) && v !in contacted && HasKind(web, seeds, domain, contacted, v, k) ==>
        Rank(kind) <= Rank(k)
  }

  ghost predicate CameNext(web: Web, seeds: seq<string>, domain: string, contacted: seq<Url>, i: nat) {
    i < |contacted| && ComesNext(web, seeds, domain, contacted[..i], contacted[i])
  }

  /** Each node was contacted when it came next. */
  ghost predicate InPriority(web: Web, seeds: seq<string>, domain: string, contacted: seq<Url>) {
    forall i {:trigger CameNext(web, seeds, domain, contacted, i)} :: 0 <= i < |contacted| ==>
      CameNext(web, seeds, domain, contacted, i)
  }

  /** Each waiting URL is in the queue of its kind. */
  ghost predicate QueuedByKind(web: Web, seeds: seq<string>, domain: string, contacted: seq<Url>, q: Queues) {
    forall kind, u :: u in q.Of(kind) ==> HasKind(web, seeds, domain, contacted, u, kind)
  }

  lemma FirstComesNext(web: Web, seeds: seq<string>, domain: string, visited: set<Url>, contacted: seq<Url>,
                       q: Queues, u: Url, kind: Kind, q': Queues)
    requires Searching(web, seeds, visited, contacted, q) && QueuedByKind(web, seeds, domain, contacted, q)
    requires TakenFrom(q, u, kind, q') && InPriority(web, seeds, domain, contacted)
    ensures InPriority(web, seeds, domain, contacted + [u])
  {
    forall v, k | HeardOf(web, seeds, contacted, v) && v !in contacted && HasKind(web, seeds, domain, contacted, v, k)
      ensures Rank(kind) <= Rank(k)
    {
      assert v in contacted + q.All();
      var l: Kind :| v in q.Of(l);
      OneKind(web, seeds, domain, contacted, v, k, l);
      assert q'.Of(l) == if l == kind then q.Of(l)[1..] else q.Of(l);
    }
    assert HasKind(web, seeds, domain, contacted, u, kind);
    forall i | 0 <= i < |contacted + [u]| ensures CameNext(web, seeds, domain, contacted + [u], i) {
      assert (contacted + [u])[..i] == contacted[..i];
      if i < |contacted| {
        assert CameNext(web, seeds, domain, contacted, i);
      } else {
        assert contacted[..i] == contacted;
      }
    }
  }

  lemma StillByKind(web: Web, seeds: seq<string>, domain: string, visited: set<Url>, contacted: seq<Url>,
                    q: Queues, u: Url, kind: Kind, q': Queues, q'': Queues)
    requires Searching(web, seeds, visited, contacted, q) && QueuedByKind(web, seeds, domain, contacted, q)
    requires TakenFrom(q, u, kind, q') && Placed(web, u, domain, visited, q', q'')
    ensures QueuedByKind(web, seeds, domain, contacted + [u], q'')
  {
    forall k, v | v in q''.Of(k) ensures HasKind(web, seeds, domain, contacted + [u], v, k) {
      assert PlacedIn(web, u, domain, visited, q', q'', k);
      if v in q''.Of(k)[|q'.Of(k)|..] {
        assert (contacted + [u])[|contacted|] == u;
        assert forall j :: 0 <= j < |contacted| ==> (contacted + [u])[j] == contacted[j];
        assert FirstHeardAt(web, contacted + [u], |contacted|, v);
      } else {
        assert q''.Of(k) == q'.Of(k) + q''.Of(k)[|q'.Of(k)|..];
        assert v in q.Of(k);
        KindStays(web, seeds, domain, contacted, v, k, u);
      }
    }
  }

  // ---------- what the search covers ----------

  ghost function SeedSet(web: Web, seeds: seq<string>): (S: set<Url>)
    ensures forall u :: u in S <==> IsSeed(web, seeds, u)
  {
    set raw | raw in seeds && web.normalise(raw) != "" :: web.normalise(raw)
  }

  ghost function AnnouncedBy(web: Web, u: Url): (S: set<Url>)
    ensures forall v :: v in S <==> Announces(web, u, v)
  {
    if u !in web.wellKnown then {}
    else match web.wellKnown[u].peerNodes
      case Some(nodes) => set pn | pn in nodes && web.trim(pn.url) != "" :: web.trim(pn.url)
      case None => set raw | raw in web.wellKnown[u].peers && web.trim(raw) != "" :: web.trim(raw)
  }

  /** What the search has heard of after the nodes `contacted`, themselves included. */
  ghost function Heard(web: Web, seeds: seq<string>, contacted: seq<Url>): (S: set<Url>)
    ensures forall u :: u in S <==> HeardOf(web, seeds, contacted, u)
  {
    if |contacted| == 0 then SeedSet(web, seeds)
    else
      var n := |contacted| - 1;
      HeardBefore(web, seeds, contacted);
      Heard(web, seeds, contacted[..n]) + AnnouncedBy(web, contacted[n])
  }

  lemma HeardBefore(web: Web, seeds: seq<string>, contacted: seq<Url>)
    requires |contacted| > 0
    ensures var n := |contacted| - 1;
      forall u :: HeardOf(web, seeds, contacted, u) <==>
                  HeardOf(web, seeds, contacted[..n], u) || Announces(web, contacted[n], u)
  {
    var n := |contacted| - 1;
    forall u ensures HeardOf(web, seeds, contacted, u) <==>
                     HeardOf(web, seeds, contacted[..n], u) || Announces(web, contacted[n], u)
    {
      if i :| 0 <= i < |contacted| && Announces(web, contacted[i], u) {
        assert i < n ==> contacted[..n][i] == contacted[i];
      }
      if i :| 0 <= i < n && Announces(web, contacted[..n][i], u) {
        assert contacted[i] == contacted[..n][i];
      }
    }
  }

  /** The search state at the head of its loop: the URLs seen are those heard of, and all are reachable. */
  ghost predicate Searching(web: Web, seeds: seq<string>, visited: set<Url>, contacted: seq<Url>, q: Queues) {
    && Tracked(visited, contacted, q)
    && visited == Heard(web, seeds, contacted)
    && (forall S :: Closed(web, seeds, S) ==> visited <= S)
  }

  /** Node `i` had been heard of when it was contacted, and there was room: at most `maxNodes` URLs had been. */
  ghost predicate RoomAt(web: Web, seeds: seq<string>, maxNodes: int, contacted: seq<Url>, i: nat) {
    && i < |contacted| && contacted[i] in Heard(web, seeds, contacted[..i])
    && |Heard(web, seeds, contacted[..i])| <= maxNodes
  }

  ghost predicate WithinRoom(web: Web, seeds: seq<string>, maxNodes: int, contacted: seq<Url>) {
    forall i {:trigger RoomAt(web, seeds, maxNodes, contacted, i)} :: 0 <= i < |contacted| ==>
      RoomAt(web, seeds, maxNodes, contacted, i)
  }

  lemma OneMoreWithinRoom(web: Web, seeds: seq<string>, maxNodes: int, contacted: seq<Url>, u: Url)
    requires WithinRoom(web, seeds, maxNodes, contacted)
    requires u in Heard(web, seeds, contacted) && |Heard(web, seeds, contacted)| <= maxNodes
    ensures WithinRoom(web, seeds, maxNodes, contacted + [u])
  {
    var more := contacted + [u];
    forall i | 0 <= i < |more| ensures RoomAt(web, seeds, maxNodes, more, i) {
      assert more[..i] == contacted[..i];
      if i < |contacted| {
        assert RoomAt(web, seeds, maxNodes, contacted, i);
      } else {
        assert contacted[..i] == contacted;
      }
    }
  }

  /** Exactly how far a search goes that is not cut short: until it has contacted everything it has heard of, or has
      heard of more than `maxNodes` URLs. */
  ghost predicate RunsOut(web: Web, seeds: seq<string>, maxNodes: int, contacted: seq<Url>) {
    Elements(contacted) == Heard(web, seeds, contacted) || |Heard(web, seeds, contacted)| > maxNodes
  }

  lemma SearchOn(web: Web, seeds: seq<string>, visited: set<Url>, contacted: seq<Url>, q: Queues, u: Url,
                 visited': set<Url>, q': Queues)
    requires Searching(web, seeds, visited, contacted, q) && u in visited && Tracked(visited', contacted + [u], q')
    requires forall v :: v in visited' <==> v in visited || Announces(web, u, v)
    ensures Searching(web, seeds, visited', contacted + [u], q')
  {
    assert (contacted + [u])[..|contacted|] == contacted;
    assert visited' == visited + AnnouncedBy(web, u);
  }

  ghost function Elements(s: seq<Url>): set<Url> {
    set u | u in s
  }

  lemma {:induction false} ElementsSize(s: seq<Url>)
    requires NoRepeats(s)
    ensures |Elements(s)| == |s|
  {
    if |s| > 0 {
      var n := |s| - 1;
      ElementsSize(s[..n]);
      assert Elements(s) == Elements(s[..n]) + {s[n]};
    }
  }

  lemma ContactedBound(visited: set<Url>, contacted: seq<Url>, q: Queues)
    requires Tracked(visited, contacted, q)
    ensures NoRepeats(contacted) && |contacted| + |q.All()| == |visited|
  {
    var all := contacted + q.All();
    ElementsSize(all);
    assert Elements(all) == visited;
    forall i, j | 0 <= i < j < |contacted| ensures contacted[i] != contacted[j] {
      assert all[i] == contacted[i] && all[j] == contacted[j];
    }
  }

  /** Which nodes a search contacts: none twice, at most `maxNodes`, only reachable ones, each while it had heard of at
      most `maxNodes` URLs; and it goes on until it runs out, unless it is cut short. */
  ghost predicate Covers(web: Web, seeds: seq<string>, maxNodes: int, contacted: seq<Url>, cutShort: bool) {
    && NoRepeats(contacted)
    && (|contacted| == 0 || |contacted| <= maxNodes)
    && (forall S :: Closed(web, seeds, S) ==> Elements(contacted) <= S)
    && WithinRoom(web, seeds, maxNodes, contacted)
    && (!cutShort ==> RunsOut(web, seeds, maxNodes, contacted))
  }

  /** A search that is not cut short contacts every reachable node if and only if some closed set of at most `maxNodes`
      URLs holds them all. */
  lemma CoversAllIfFew(web: Web, seeds: seq<string>, maxNodes: nat, contacted: seq<Url>)
    requires Covers(web, seeds, maxNodes, contacted, false)
    ensures Closed(web, seeds, Elements(contacted)) <==> exists S :: Closed(web, seeds, S) && |S| <= maxNodes
  {
    ElementsSize(contacted);
    if S :| Closed(web, seeds, S) && |S| <= maxNodes {
      forall u | u in Heard(web, seeds, contacted) ensures u in S {
        assert HeardOf(web, seeds, contacted, u);
        assert forall i :: 0 <= i < |contacted| ==> contacted[i] in Elements(contacted);
      }
      SubsetSize(Heard(web, seeds, contacted), S);
      forall u, v | u in Elements(contacted) && Announces(web, u, v) ensures v in Elements(contacted) {
        var i :| 0 <= i < |contacted| && contacted[i] == u;
        assert HeardOf(web, seeds, contacted, v);
      }
      forall u | IsSeed(web, seeds, u) ensures u in Elements(contacted) {
        assert HeardOf(web, seeds, contacted, u);
      }
    }
  }

  /** A lone seed that announces so many nodes that there is no more room is the only node contacted. */
  lemma CrowdedSeed(web: Web, seeds: seq<string>, maxNodes: int, seed: Url, contacted: seq<Url>)
    requires SeedSet(web, seeds) == {seed} && 1 <= maxNodes < |{seed} + AnnouncedBy(web, seed)|
    requires Covers(web, seeds, maxNodes, contacted, false)
    ensures contacted == [seed]
  {
    assert Heard(web, seeds, []) == {seed} && seed !in Elements([]);
    assert contacted[..0] == [];
    assert RoomAt(web, seeds, maxNodes, contacted, 0);
    NoSecond(web, seeds, maxNodes, seed, contacted);
  }

  lemma NoSecond(web: Web, seeds: seq<string>, maxNodes: int, seed: Url, contacted: seq<Url>)
    requires SeedSet(web, seeds) == {seed} && maxNodes < |{seed} + AnnouncedBy(web, seed)|
    requires WithinRoom(web, seeds, maxNodes, contacted) && |contacted| > 0 && contacted[0] == seed
    ensures |contacted| == 1
  {
    assert contacted[..1] == [seed];
    assert Heard(web, seeds, [seed]) == {seed} + AnnouncedBy(web, seed);
    assert !RoomAt(web, seeds, maxNodes, contacted, 1);
  }

  lemma CrowdIsReachable(web: Web, seeds: seq<string>, seed: Url, S: set<Url>)
    requires seed in SeedSet(web, seeds) && Closed(web, seeds, S)
    ensures |S| >= |{seed} + AnnouncedBy(web, seed)|
  {
    assert IsSeed(web, seeds, seed);
    SubsetSize({seed} + AnnouncedBy(web, seed), S);
  }

  function PeerName(i: nat): Url {
    seq(i + 1, _ => 'a')
  }

  /** A seed that announces `n` peers, all of which answer. */
  function Star(n: nat): Web {
    var peers := seq(n, i requires 0 <= i => PeerName(i));
    Web(map["s" := WellKnown(None, peers)], map[], map[], map[], u => u, u => u, t => t, (d, e) => d == e)
  }

  lemma StarShape(n: nat)
    ensures SeedSet(Star(n), ["s"]) == {"s"}
    ensures |{"s"} + AnnouncedBy(Star(n), "s")| == n + 1
  {
    var web, peers := Star(n), Star(n).wellKnown["s"].peers;
    assert "s" in ["s"] && web.normalise("s") == "s";
    forall i, j | 0 <= i < j < n ensures peers[i] != peers[j] {
      assert |peers[i]| == i + 1 && |peers[j]| == j + 1;
    }
    ElementsSize(peers);
    forall i | 0 <= i < n ensures peers[i] != "s" && peers[i] != "" {
      assert peers[i][0] == 'a';
    }
    forall u ensures u in AnnouncedBy(web, "s") <==> u in Elements(peers) {
      assert u in Elements(peers) ==> web.trim(u) == u;
    }
    assert AnnouncedBy(web, "s") == Elements(peers) && "s" !in Elements(peers);
  }

  /** Of its n + 1 reachable nodes a search that may contact `n` contacts one. */
  lemma OnlyTheSeed(n: nat, contacted: seq<Url>)
    requires n >= 1 && Covers(Star(n), ["s"], n, contacted, false)
    ensures contacted == ["s"] && forall S :: Closed(Star(n), ["s"], S) ==> |S| > n
  {
    StarShape(n);
    CrowdedSeed(Star(n), ["s"], n, "s", contacted);
    forall S | Closed(Star(n), ["s"], S) ensures |S| > n {
      CrowdIsReachable(Star(n), ["s"], "s", S);
    }
  }

  lemma SearchCovers(web: Web, seeds: seq<string>, maxNodes: int, visited: set<Url>, contacted: seq<Url>, q: Queues)
    requires Searching(web, seeds, visited, contacted, q) && (|contacted| == 0 || |contacted| <= maxNodes)
    requires WithinRoom(web, seeds, maxNodes, contacted)
    requires !q.HasQueued() || |visited| > maxNodes
    ensures Covers(web, seeds, maxNodes, contacted, false)
  {
    ContactedBound(visited, contacted, q);
    assert forall u :: u in contacted ==> u in contacted + q.All();
    if !q.HasQueued() {
      assert contacted + q.All() == contacted;
      assert Elements(contacted) == visited;
    }
  }

  // ---------- first heard of, first contacted ----------

  /** The lists the search reads: first the seeds, then what each node contacted announces. */
  ghost function ListAt(web: Web, seeds: seq<string>, contacted: seq<Url>, i: nat): seq<Url>
    requires i <= |contacted|
  {
    if i == 0 then SeedUrls(web, seeds) else UrlsOf(web, contacted[i - 1])
  }

  /** The search first hears of `u` at place `j` of list `i`. */
  ghost predicate FirstHeard(web: Web, seeds: seq<string>, contacted: seq<Url>, u: Url, i: nat, j: nat) {
    && i <= |contacted| && FirstAt(ListAt(web, seeds, contacted, i), u, j)
    && forall k :: 0 <= k < i ==> u !in ListAt(web, seeds, contacted, k)
  }

  /** It first hears of `u` before it first hears of `v`. */
  ghost predicate HeardSooner(web: Web, seeds: seq<string>, contacted: seq<Url>, u: Url, v: Url) {
    exists i: nat, j: nat, k: nat, l: nat ::
      && FirstHeard(web, seeds, contacted, u, i, j) && FirstHeard(web, seeds, contacted, v, k, l)
      && (i < k || (i == k && j < l))
  }

  lemma FirstHeardStays(web: Web, seeds: seq<string>, contacted: seq<Url>, u: Url, i: nat, j: nat, node: Url)
    requires FirstHeard(web, seeds, contacted, u, i, j)
    ensures FirstHeard(web, seeds, contacted + [node], u, i, j)
  {
    forall k | 0 <= k <= i
      ensures ListAt(web, seeds, contacted + [node], k) == ListAt(web, seeds, contacted, k) {
    }
  }

  lemma SoonerStays(web: Web, seeds: seq<string>, contacted: seq<Url>, u: Url, v: Url, node: Url)
    requires HeardSooner(web, seeds, contacted, u, v)
    ensures HeardSooner(web, seeds, contacted + [node], u, v)
  {
    var i: nat, j: nat, k: nat, l: nat :|
      && FirstHeard(web, seeds, contacted, u, i, j) && FirstHeard(web, seeds, contacted, v, k, l)
      && (i < k || (i == k && j < l));
    FirstHeardStays(web, seeds, contacted, u, i, j, node);
    FirstHeardStays(web, seeds, contacted, v, k, l, node);
  }

  /** What stands in one of the lists read has been heard of. */
  lemma ListedIsHeard(web: Web, seeds: seq<string>, contacted: seq<Url>, u: Url, i: nat)
    requires i <= |contacted| && u != "" && u in ListAt(web, seeds, contacted, i)
    ensures HeardOf(web, seeds, contacted, u)
  {
    if i == 0 {
      var j :| 0 <= j < |seeds| && SeedUrls(web, seeds)[j] == u;
      assert seeds[j] in seeds;
    } else {
      AnnouncesListed(web, contacted[i - 1], u);
    }
  }

  /** And what has been heard of stands in one, so in a first one. */
  lemma HeardIsListed(web: Web, seeds: seq<string>, contacted: seq<Url>, u: Url) returns (i: nat, j: nat)
    requires HeardOf(web, seeds, contacted, u)
    ensures FirstHeard(web, seeds, contacted, u, i, j)
  {
    var n: nat;
    if IsSeed(web, seeds, u) {
      n := 0;
      var raw :| raw in seeds && web.normalise(raw) == u;
      var k :| 0 <= k < |seeds| && seeds[k] == raw;
      assert SeedUrls(web, seeds)[k] == u;
    } else {
      var k :| 0 <= k < |contacted| && Announces(web, contacted[k], u);
      AnnouncesListed(web, contacted[k], u);
      n := k + 1;
    }
    i, j := FirstList(web, seeds, contacted, u, n);
  }

  lemma {:induction false} FirstList(web: Web, seeds: seq<string>, contacted: seq<Url>, u: Url, n: nat)
    returns (i: nat, j: nat)
    requires n <= |contacted| && u in ListAt(web, seeds, contacted, n)
    ensures FirstHeard(web, seeds, contacted, u, i, j)
  {
    if k :| 0 <= k < n && u in ListAt(web, seeds, contacted, k) {
      i, j := FirstList(web, seeds, contacted, u, k);
    } else {
      var list := ListAt(web, seeds, contacted, n);
      assert list[..|list|] == list;
      i := n;
      j := FirstPlace(list, u, |list|);
    }
  }

  /** The URLs are in the order in which they were first heard of. */
  ghost predicate InHeardOrder(web: Web, seeds: seq<string>, contacted: seq<Url>, s: seq<Url>) {
    forall a, b {:trigger HeardSooner(web, seeds, contacted, s[a], s[b])} :: 0 <= a < b < |s| ==>
      HeardSooner(web, seeds, contacted, s[a], s[b])
  }

  ghost predicate QueuedInOrder(web: Web, seeds: seq<string>, contacted: seq<Url>, q: Queues) {
    && InHeardOrder(web, seeds, contacted, q.exact)
    && InHeardOrder(web, seeds, contacted, q.allowAll)
    && InHeardOrder(web, seeds, contacted, q.normal)
  }

  /** Node `i` had been heard of before any other that was waiting and of its kind when it was contacted. */
  ghost predicate WaitedLongest(web: Web, seeds: seq<string>, domain: string, contacted: seq<Url>, i: nat) {
    i < |contacted| && forall v, kind ::
      HasKind(web, seeds, domain, contacted[..i], contacted[i], kind) &&
      HasKind(web, seeds, domain, contacted[..i], v, kind) &&
      HeardOf(web, seeds, contacted[..i], v) && v !in contacted[..i] && v != contacted[i] ==>
        HeardSooner(web, seeds, contacted[..i], contacted[i], v)
  }

  /** Among nodes of one kind those heard of first are contacted first. */
  ghost predicate InTurn(web: Web, seeds: seq<string>, domain: string, contacted: seq<Url>) {
    forall i {:trigger WaitedLongest(web, seeds, domain, contacted, i)} :: 0 <= i < |contacted| ==>
      WaitedLongest(web, seeds, domain, contacted, i)
  }

  lemma FirstHasWaited(web: Web, seeds: seq<string>, domain: string, visited: set<Url>, contacted: seq<Url>,
                       q: Queues, u: Url, kind: Kind, q': Queues)
    requires Searching(web, seeds, visited, contacted, q) && QueuedByKind(web, seeds, domain, contacted, q)
    requires QueuedInOrder(web, seeds, contacted, q) && InTurn(web, seeds, domain, contacted)
    requires TakenFrom(q, u, kind, q')
    ensures InTurn(web, seeds, domain, contacted + [u])
  {
    forall v, k | HasKind(web, seeds, domain, contacted, u, k) && HasKind(web, seeds, domain, contacted, v, k)
      && HeardOf(web, seeds, contacted, v) && v !in contacted && v != u
      ensures HeardSooner(web, seeds, contacted, u, v)
    {
      OneKind(web, seeds, domain, contacted, u, k, kind);
      assert v in contacted + q.All();
      var l: Kind :| v in q.Of(l);
      OneKind(web, seeds, domain, contacted, v, k, l);
      assert InHeardOrder(web, seeds, contacted, q.Of(kind));
      var b :| 0 <= b < |q.Of(kind)| && q.Of(kind)[b] == v;
      assert q.Of(kind)[0] == u && HeardSooner(web, seeds, contacted, q.Of(kind)[0], q.Of(kind)[b]);
    }
    forall i | 0 <= i < |contacted + [u]| ensures WaitedLongest(web, seeds, domain, contacted + [u], i) {
      assert (contacted + [u])[..i] == contacted[..i];
      if i < |contacted| {
        assert WaitedLongest(web, seeds, domain, contacted, i);
      } else {
        assert contacted[..i] == contacted;
      }
    }
  }

  lemma RestInOrder(web: Web, seeds: seq<string>, contacted: seq<Url>, s: seq<Url>, t: seq<Url>, node: Url)
    requires InHeardOrder(web, seeds, contacted, s) && (t == s || (|s| > 0 && t == s[1..]))
    ensures InHeardOrder(web, seeds, contacted + [node], t)
  {
    forall a, b | 0 <= a < b < |t| ensures HeardSooner(web, seeds, contacted + [node], t[a], t[b]) {
      var d := |s| - |t|;
      assert t[a] == s[a + d] && t[b] == s[b + d];
      assert HeardSooner(web, seeds, contacted, s[a + d], s[b + d]);
      SoonerStays(web, seeds, contacted, t[a], t[b], node);
    }
  }

  lemma JoinedInOrder(web: Web, seeds: seq<string>, contacted: seq<Url>, s: seq<Url>, t: seq<Url>)
    requires InHeardOrder(web, seeds, contacted, s) && InHeardOrder(web, seeds, contacted, t)
    requires forall v, w :: v in s && w in t ==> HeardSooner(web, seeds, contacted, v, w)
    ensures InHeardOrder(web, seeds, contacted, s + t)
  {
    forall a, b | 0 <= a < b < |s + t| ensures HeardSooner(web, seeds, contacted, (s + t)[a], (s + t)[b]) {
      if b < |s| {
        assert HeardSooner(web, seeds, contacted, s[a], s[b]);
      } else if a >= |s| {
        assert HeardSooner(web, seeds, contacted, t[a - |s|], t[b - |s|]);
      } else {
        assert s[a] in s && t[b - |s|] in t;
      }
    }
  }

  /** A queue whose first URL may have been taken, with what the node contacted adds to it. */
  lemma StillInOrder(web: Web, seeds: seq<string>, domain: string, visited: set<Url>, contacted: seq<Url>, q: Queues,
                     node: Url, kind: Kind, s: seq<Url>, t: seq<Url>, added: seq<Url>)
    requires Searching(web, seeds, visited, contacted, q) && InHeardOrder(web, seeds, contacted, s)
    requires (t == s || (|s| > 0 && t == s[1..])) && forall v :: v in s ==> v in q.All()
    requires InListOrder(UrlsOf(web, node), added)
    requires forall w :: w in added ==> Earns(web, node, domain, w, kind) && w !in visited
    ensures InHeardOrder(web, seeds, contacted + [node], t + added)
  {
    RestInOrder(web, seeds, contacted, s, t, node);
    forall a, b | 0 <= a < b < |added|
      ensures HeardSooner(web, seeds, contacted + [node], added[a], added[b])
    {
      assert StandsBefore(UrlsOf(web, node), added[a], added[b]);
      NewInOrder(web, seeds, visited, contacted, q, node, added[a], added[b]);
    }
    forall v, w | v in t && w in added ensures HeardSooner(web, seeds, contacted + [node], v, w) {
      NewIsLater(web, seeds, visited, contacted, q, node, v, w);
    }
    JoinedInOrder(web, seeds, contacted + [node], t, added);
  }

  lemma AllStillInOrder(web: Web, seeds: seq<string>, domain: string, visited: set<Url>, contacted: seq<Url>,
                        q: Queues, u: Url, kind: Kind, q': Queues, q'': Queues)
    requires Searching(web, seeds, visited, contacted, q) && QueuedInOrder(web, seeds, contacted, q)
    requires TakenFrom(q, u, kind, q') && Placed(web, u, domain, visited, q', q'')
    ensures QueuedInOrder(web, seeds, contacted + [u], q'')
  {
    forall k: Kind ensures InHeardOrder(web, seeds, contacted + [u], q''.Of(k)) {
      assert PlacedIn(web, u, domain, visited, q', q'', k);
      var added := q''.Of(k)[|q'.Of(k)|..];
      StillInOrder(web, seeds, domain, visited, contacted, q, u, k, q.Of(k), q'.Of(k), added);
      assert q''.Of(k) == q'.Of(k) + added;
    }
    assert q''.Of(Exact) == q''.exact && q''.Of(AllowAll) == q''.allowAll && q''.Of(Normal) == q''.normal;
  }

  /** What only the node just contacted announces is first heard of there. */
  lemma NewIsFirstHeard(web: Web, seeds: seq<string>, visited: set<Url>, contacted: seq<Url>, q: Queues, node: Url,
                        v: Url, j: nat)
    requires Searching(web, seeds, visited, contacted, q) && v != "" && v !in visited
    requires FirstAt(UrlsOf(web, node), v, j)
    ensures FirstHeard(web, seeds, contacted + [node], v, |contacted| + 1, j)
  {
    var more := contacted + [node];
    forall k | 0 <= k < |contacted| + 1 ensures v !in ListAt(web, seeds, more, k) {
      assert ListAt(web, seeds, more, k) == ListAt(web, seeds, contacted, k);
      if v in ListAt(web, seeds, contacted, k) {
        ListedIsHeard(web, seeds, contacted, v, k);
      }
    }
  }

  lemma NewIsLater(web: Web, seeds: seq<string>, visited: set<Url>, contacted: seq<Url>, q: Queues, node: Url, u: Url,
                   v: Url)
    requires Searching(web, seeds, visited, contacted, q) && u in q.All()
    requires v !in visited && Announces(web, node, v)
    ensures HeardSooner(web, seeds, contacted + [node], u, v)
  {
    assert u in contacted + q.All();
    var i, j := HeardIsListed(web, seeds, contacted, u);
    FirstHeardStays(web, seeds, contacted, u, i, j, node);
    AnnouncesListed(web, node, v);
    var list := UrlsOf(web, node);
    assert list[..|list|] == list;
    var l := FirstPlace(list, v, |list|);
    NewIsFirstHeard(web, seeds, visited, contacted, q, node, v, l);
  }

  lemma NewInOrder(web: Web, seeds: seq<string>, visited: set<Url>, contacted: seq<Url>, q: Queues, node: Url, u: Url,
                   v: Url)
    requires Searching(web, seeds, visited, contacted, q) && u !in visited && v !in visited && u != "" && v != ""
    requires StandsBefore(UrlsOf(web, node), u, v)
    ensures HeardSooner(web, seeds, contacted + [node], u, v)
  {
    var j, l :| FirstAt(UrlsOf(web, node), u, j) && FirstAt(UrlsOf(web, node), v, l) && j < l;
    NewIsFirstHeard(web, seeds, visited, contacted, q, node, u, j);
    NewIsFirstHeard(web, seeds, visited, contacted, q, node, v, l);
  }

  /** The seeds are queued in the order in which they are listed. */
  lemma SeedsInOrder(web: Web, seeds: seq<string>, q: Queues)
    requires q.exact == q.allowAll == [] && InListOrder(SeedUrls(web, seeds), q.normal)
    ensures QueuedInOrder(web, seeds, [], q)
  {
    forall a, b | 0 <= a < b < |q.normal| ensures HeardSooner(web, seeds, [], q.normal[a], q.normal[b]) {
      assert StandsBefore(SeedUrls(web, seeds), q.normal[a], q.normal[b]);
      var list := SeedUrls(web, seeds);
      var j, l :| FirstAt(list, q.normal[a], j) && FirstAt(list, q.normal[b], l) && j < l;
      assert FirstHeard(web, seeds, [], q.normal[a], 0, j) && FirstHeard(web, seeds, [], q.normal[b], 0, l);
    }
  }

  /** What holds at the head of the loop of both searches. */
  ghost predicate AtHead(web: Web, seeds: seq<string>, domain: string, maxNodes: int, visited: set<Url>,
                         contacted: seq<Url>, q: Queues) {
    && Searching(web, seeds, visited, contacted, q)
    && QueuedByKind(web, seeds, domain, contacted, q) && InPriority(web, seeds, domain, contacted)
    && QueuedInOrder(web, seeds, contacted, q) && InTurn(web, seeds, domain, contacted)
    && WithinRoom(web, seeds, maxNodes, contacted) && (|contacted| == 0 || |contacted| <= maxNodes)
  }

  /** The node taken from the queues is contacted in order and within the bounds. */
  lemma OneContact(web: Web, seeds: seq<string>, domain: string, maxNodes: int, visited: set<Url>,
                   contacted: seq<Url>, q: Queues, node: Url, kind: Kind, q': Queues)
    requires AtHead(web, seeds, domain, maxNodes, visited, contacted, q) && |visited| <= maxNodes
    requires TakenFrom(q, node, kind, q')
    requires Tracked(visited, contacted + [node], q') && [node] + q'.All() == q.All()
    ensures |contacted| + 1 <= maxNodes && (contacted + [node])[..|contacted|] == contacted
    ensures InPriority(web, seeds, domain, contacted + [node]) && InTurn(web, seeds, domain, contacted + [node])
    ensures Covers(web, seeds, maxNodes, contacted + [node], true)
  {
    ContactedBound(visited, contacted + [node], q');
    assert forall u :: u in contacted + [node] ==> u in contacted + [node] + q'.All();
    assert node in contacted + [node];
    OneMoreWithinRoom(web, seeds, maxNodes, contacted, node);
    FirstComesNext(web, seeds, domain, visited, contacted, q, node, kind, q');
    FirstHasWaited(web, seeds, domain, visited, contacted, q, node, kind, q');
  }

  /** And once its peers are queued the search is at the head of its loop again. */
  lemma OneTurn(web: Web, seeds: seq<string>, domain: string, maxNodes: int, visited: set<Url>, contacted: seq<Url>,
                q: Queues, node: Url, kind: Kind, taken: Queues, visited': set<Url>, q': Queues)
    requires AtHead(web, seeds, domain, maxNodes, visited, contacted, q) && |visited| <= maxNodes
    requires TakenFrom(q, node, kind, taken)
    requires Tracked(visited, contacted + [node], taken) && [node] + taken.All() == q.All()
    requires Tracked(visited', contacted + [node], q') && Placed(web, node, domain, visited, taken, q')
    requires forall v :: v in visited' <==> v in visited || Announces(web, node, v)
    ensures AtHead(web, seeds, domain, maxNodes, visited', contacted + [node], q')
  {
    OneContact(web, seeds, domain, maxNodes, visited, contacted, q, node, kind, taken);
    assert node in contacted + [node] && node in visited;
    SearchOn(web, seeds, visited, contacted, q, node, visited', q');
    StillByKind(web, seeds, domain, visited, contacted, q, node, kind, taken, q');
    AllStillInOrder(web, seeds, domain, visited, contacted, q, node, kind, taken, q');
  }

  // ---------- copies ----------

  /** `best` has a longest chain, and those before it are shorter. */
  ghost predicate IsLongest(copies: seq<NodeBlock>, best: NodeBlock) {
    exists i :: 0 <= i < |copies| && copies[i] == best
      && (forall j :: 0 <= j < i ==> |copies[j].block.sigEntries| < |best.block.sigEntries|)
      && (forall j :: i <= j < |copies| ==> |copies[j].block.sigEntries| <= |best.block.sigEntries|)
  }

  /** The first of the longest chains. */
  method BestCopy(copies: seq<NodeBlock>) returns (best: NodeBlock)
    requires |copies| > 0
    ensures IsLongest(copies, best)
  {
    best := copies[0];
    ghost var k := 0;
    for i := 1 to |copies|
      invariant 0 <= k < i && copies[k] == best
      invariant forall j :: 0 <= j < k ==> |copies[j].block.sigEntries| < |best.block.sigEntries|
      invariant forall j :: k <= j < i ==> |copies[j].block.sigEntries| <= |best.block.sigEntries|
    {
      if |copies[i].block.sigEntries| > |best.block.sigEntries| {
        best, k := copies[i], i;
      }
    }
  }

  /** Block `i` of `all` is the first of those with the same fingerprint that have a longest chain. */
  ghost predicate FirstLongest(all: seq<Block>, i: nat) {
    && i < |all|
    && (forall j :: 0 <= j < i && all[j].fingerprint == all[i].fingerprint ==>
          |all[j].sigEntries| < |all[i].sigEntries|)
    && (forall j :: i <= j < |all| && all[j].fingerprint == all[i].fingerprint ==>
          |all[j].sigEntries| <= |all[i].sigEntries|)
  }

  ghost predicate KeptFor(all: seq<Block>, fp: Fp, b: Block) {
    fp != "" && b.fingerprint == fp && exists i: nat :: FirstLongest(all, i) && all[i] == b
  }

  /** `m` keeps for each fingerprint that some block of `all` has the first of those with a longest chain. */
  ghost predicate KeepsLongest(m: map<Fp, Block>, all: seq<Block>) {
    && (forall fp :: fp in m ==> KeptFor(all, fp, m[fp]))
    && (forall b :: b in all && b.fingerprint != "" ==> b.fingerprint in m)
  }

  lemma OneFirstLongest(all: seq<Block>, i: nat, j: nat)
    requires FirstLongest(all, i) && FirstLongest(all, j) && all[i].fingerprint == all[j].fingerprint
    ensures i == j
  {
  }

  lemma KeepsOne(m: map<Fp, Block>, m': map<Fp, Block>, all: seq<Block>)
    requires KeepsLongest(m, all) && KeepsLongest(m', all)
    ensures m == m'
  {
    forall fp ensures fp in m <==> fp in m' {
      if fp in m { KeptIsReceived(all, fp, m[fp]); }
      if fp in m' { KeptIsReceived(all, fp, m'[fp]); }
    }
    forall fp | fp in m && fp in m' ensures m[fp] == m'[fp] {
      OneKept(all, fp, m[fp], m'[fp]);
    }
  }

  lemma KeptIsReceived(all: seq<Block>, fp: Fp, b: Block)
    requires KeptFor(all, fp, b)
    ensures b in all && b.fingerprint == fp != ""
  {
  }

  lemma OneKept(all: seq<Block>, fp: Fp, b: Block, c: Block)
    requires KeptFor(all, fp, b) && KeptFor(all, fp, c)
    ensures b == c
  {
    var i: nat :| FirstLongest(all, i) && all[i] == b;
    var j: nat :| FirstLongest(all, j) && all[j] == c;
    OneFirstLongest(all, i, j);
  }

  /** One more block leaves the choice unless its chain is longer, and then takes its place. */
  lemma FirstLongestOneMore(all: seq<Block>, b: Block, i: nat)
    requires FirstLongest(all, i)
    ensures if b.fingerprint == all[i].fingerprint && |b.sigEntries| > |all[i].sigEntries|
            then FirstLongest(all + [b], |all|) else FirstLongest(all + [b], i)
  {
    assert forall j :: 0 <= j < |all| ==> (all + [b])[j] == all[j];
    assert (all + [b])[|all|] == b;
  }

  lemma FirstOfItsKey(all: seq<Block>, b: Block)
    requires forall c :: c in all ==> c.fingerprint != b.fingerprint
    ensures FirstLongest(all + [b], |all|)
  {
    forall j | 0 <= j < |all| ensures (all + [b])[j].fingerprint != b.fingerprint {
      assert all[j] in all;
    }
  }

  /** What is kept once one more block has been received. */
  ghost function KeptWith(m: map<Fp, Block>, b: Block): map<Fp, Block> {
    if b.fingerprint != "" && (b.fingerprint !in m || |b.sigEntries| > |m[b.fingerprint].sigEntries|)
    then m[b.fingerprint := b] else m
  }

  lemma KeepsOneMore(m: map<Fp, Block>, all: seq<Block>, b: Block)
    requires KeepsLongest(m, all)
    ensures KeepsLongest(KeptWith(m, b), all + [b])
  {
    var m', all' := KeptWith(m, b), all + [b];
    forall fp | fp in m' ensures KeptFor(all', fp, m'[fp]) {
      if fp in m {
        assert KeptFor(all, fp, m[fp]);
        var i: nat :| FirstLongest(all, i) && all[i] == m[fp];
        FirstLongestOneMore(all, b, i);
        assert all'[i] == all[i] && all'[|all|] == b;
      } else {
        FirstOfItsKey(all, b);
        assert all'[|all|] == b;
      }
    }
  }

  /** Takes the longer of two chains for each block received. */
  method Accumulate(m: map<Fp, Block>, received: seq<Block>, ghost all: seq<Block>) returns (m': map<Fp, Block>)
    requires KeepsLongest(m, all)
    ensures KeepsLongest(m', all + received)
  {
    m' := m;
    assert all + received[..0] == all;
    for i := 0 to |received|
      invariant KeepsLongest(m', all + received[..i])
    {
      var b := received[i];
      assert all + received[..i + 1] == all + received[..i] + [b];
      KeepsOneMore(m', all + received[..i], b);
      if b.fingerprint != "" {
        if b.fingerprint !in m' || |b.sigEntries| > |m'[b.fingerprint].sigEntries| {
          m' := m'[b.fingerprint := b];
        }
      }
    }
    assert received[..|received|] == received;
  }

  /** The blocks of the map, in no particular order. */
  method BlockSlice(m: map<Fp, Block>) returns (blocks: seq<Block>)
    ensures forall b :: b in blocks <==> b in m.Values
  {
    blocks := [];
    var keys := m.Keys;
    while keys != {}
      invariant keys <= m.Keys
      invariant forall b :: b in blocks <==> exists fp :: fp in m && fp !in keys && m[fp] == b
    {
      var fp :| fp in keys;
      blocks := blocks + [m[fp]];
      keys := keys - {fp};
    }
  }

  /** The copies of the block that the contacted nodes have, in the order they were contacted. */
  ghost function CopiesOf(web: Web, contacted: seq<Url>): seq<NodeBlock> {
    if |contacted| == 0 then []
    else
      var u := contacted[|contacted| - 1];
      CopiesOf(web, contacted[..|contacted| - 1]) + if u in web.target then [NodeBlock(u, web.target[u])] else []
  }

  /** All blocks received from nodes that had a copy. */
  ghost function ReceivedFrom(web: Web, contacted: seq<Url>): seq<Block> {
    if |contacted| == 0 then []
    else
      var u := contacted[|contacted| - 1];
      ReceivedFrom(web, contacted[..|contacted| - 1]) +
        if u in web.target && u in web.everything then web.everything[u] else []
  }

  /** The score of the accumulated blocks is at least the threshold. */
  ghost predicate ScoredBy(web: Web, tc: TrustConfig, target: Fp, accumulated: map<Fp, Block>, score: int) {
    exists blocks, E ::
      && (forall b :: b in blocks <==> b in accumulated.Values) && IsTrustGraph(blocks, E)
      && score == PathScore(E, web.upper(tc.root), target, tc.maxDepth)
  }

  /** The score after the nodes `contacted`, over all the blocks received from them. */
  ghost predicate ScoreAfter(web: Web, tc: TrustConfig, target: Fp, contacted: seq<Url>, score: int) {
    exists m :: KeepsLongest(m, ReceivedFrom(web, contacted)) && ScoredBy(web, tc, target, m, score)
  }

  /** The score after these nodes is below the threshold. */
  ghost predicate BelowAfter(web: Web, tc: TrustConfig, target: Fp, contacted: seq<Url>) {
    exists score :: ScoreAfter(web, tc, target, contacted, score) && score < tc.threshold
  }

  method ScoreNow(web: Web, tc: TrustConfig, target: Fp, accumulated: map<Fp, Block>, ghost contacted: seq<Url>)
    returns (score: int)
    requires KeepsLongest(accumulated, ReceivedFrom(web, contacted))
    ensures ScoredBy(web, tc, target, accumulated, score) && ScoreAfter(web, tc, target, contacted, score)
    ensures score < tc.threshold ==> BelowAfter(web, tc, target, contacted)
  {
    var blocks := BlockSlice(accumulated);
    var g := Build(blocks);
    score := Score(g, target, web.upper(tc.root), tc.maxDepth);
    assert IsTrustGraph(blocks, EdgesOf(g));
    assert ScoredBy(web, tc, target, accumulated, score);
    assert ScoreAfter(web, tc, target, contacted, score);
  }

  /** There is only one such score. */
  lemma OneScoreAfter(web: Web, tc: TrustConfig, target: Fp, contacted: seq<Url>, s: int, t: int)
    requires ScoreAfter(web, tc, target, contacted, s) && ScoreAfter(web, tc, target, contacted, t)
    ensures s == t
  {
    var m :| KeepsLongest(m, ReceivedFrom(web, contacted)) && ScoredBy(web, tc, target, m, s);
    var m' :| KeepsLongest(m', ReceivedFrom(web, contacted)) && ScoredBy(web, tc, target, m', t);
    KeepsOne(m, m', ReceivedFrom(web, contacted));
    OneScoredBy(web, tc, target, m, s, t);
  }

  lemma OneScoredBy(web: Web, tc: TrustConfig, target: Fp, m: map<Fp, Block>, s: int, t: int)
    requires ScoredBy(web, tc, target, m, s) && ScoredBy(web, tc, target, m, t)
    ensures s == t
  {
    var blocks, E :| (forall b :: b in blocks <==> b in m.Values) && IsTrustGraph(blocks, E)
      && s == PathScore(E, web.upper(tc.root), target, tc.maxDepth);
    var blocks', E' :| (forall b :: b in blocks' <==> b in m.Values) && IsTrustGraph(blocks', E')
      && t == PathScore(E', web.upper(tc.root), target, tc.maxDepth);
    SameBlocksSameGraph(blocks, blocks', E, E');
  }

  lemma SameBlocksSameGraph(blocks: seq<Block>, blocks': seq<Block>, E: Edges, E': Edges)
    requires (forall b :: b in blocks <==> b in blocks') && IsTrustGraph(blocks, E) && IsTrustGraph(blocks', E')
    ensures E == E'
  {
    assert RevokedSet(blocks) == RevokedSet(blocks');
    forall u, v ensures (u, v) in E <==> (u, v) in E' {
      assert Vouches(blocks, RevokedSet(blocks), u, v) <==> Vouches(blocks', RevokedSet(blocks'), u, v);
    }
    SameEdges(E, E');
  }

  /** Whenever one of the nodes had a copy of the block the score was below the threshold. */
  ghost predicate FallsShort(web: Web, tc: TrustConfig, target: Fp, contacted: seq<Url>) {
    forall i :: 0 <= i < |contacted| && contacted[i] in web.target ==>
      BelowAfter(web, tc, target, contacted[..i + 1])
  }

  lemma FallsShortOnceMore(web: Web, tc: TrustConfig, target: Fp, contacted: seq<Url>, node: Url)
    requires FallsShort(web, tc, target, contacted)
    requires node in web.target ==> BelowAfter(web, tc, target, contacted + [node])
    ensures FallsShort(web, tc, target, contacted + [node])
  {
    var more := contacted + [node];
    forall i | 0 <= i < |more| && more[i] in web.target ensures BelowAfter(web, tc, target, more[..i + 1]) {
      if i < |contacted| {
        assert more[i] == contacted[i] && more[..i + 1] == contacted[..i + 1];
      } else {
        assert more[..i + 1] == more;
      }
    }
  }

  // ---------- the search for one block ----------

  /** The score is -1 if no trust is wanted, and 0 if there is no copy to score. */
  predicate ScoreIfAny(tc: Option<TrustConfig>, result: BlockResult) {
    && (result.best.None? <==> result.allCopies == [])
    && (tc == None ==> result.trustScore == -1)
    && (tc.Some? && result.best.None? ==> result.trustScore == 0)
  }

  /** The copies the contacted nodes have, a longest of them, and the score of all blocks received. */
  ghost predicate Reports(web: Web, tc: Option<TrustConfig>, target: Fp, contacted: seq<Url>, result: BlockResult) {
    && result.allCopies == CopiesOf(web, contacted)
    && (result.best.None? <==> CopiesOf(web, contacted) == [])
    && (result.best.Some? ==> IsLongest(CopiesOf(web, contacted), result.best.value))
    && (tc.Some? && result.best.Some? ==> ScoreAfter(web, tc.value, target, contacted, result.trustScore))
  }

  /** A result with copies. */
  method ReportBest(web: Web, tc: Option<TrustConfig>, target: Fp, copies: seq<NodeBlock>, tried: nat, score: int,
                    ghost contacted: seq<Url>)
    returns (result: BlockResult)
    requires copies == CopiesOf(web, contacted) && |copies| > 0
    requires if tc.Some? then ScoreAfter(web, tc.value, target, contacted, score) else score == -1
    ensures Reports(web, tc, target, contacted, result) && ScoreIfAny(tc, result)
    ensures result.best.Some? && result.nodesTried == tried && result.trustScore == score
  {
    var best := BestCopy(copies);
    result := BlockResult(Some(best), tried, score, copies);
  }

  /** What is returned when the search has run out. */
  method Report(web: Web, tc: Option<TrustConfig>, target: Fp, copies: seq<NodeBlock>, accumulated: map<Fp, Block>,
                tried: nat, ghost contacted: seq<Url>)
    returns (result: BlockResult)
    requires copies == CopiesOf(web, contacted)
    requires tc.Some? ==> KeepsLongest(accumulated, ReceivedFrom(web, contacted))
    ensures Reports(web, tc, target, contacted, result) && ScoreIfAny(tc, result) && result.nodesTried == tried
  {
    if |copies| == 0 {
      return BlockResult(None, tried, if tc.Some? then 0 else -1, []);
    }
    var score := -1;
    if tc.Some? {
      score := ScoreNow(web, tc.value, target, accumulated, contacted);
    }
    result := ReportBest(web, tc, target, copies, tried, score, contacted);
  }

  /** Whether trust is wanted, the node had a copy, and the score now meets the threshold. */
  method MeetsThreshold(web: Web, tc: Option<TrustConfig>, target: Fp, node: Url, accumulated: map<Fp, Block>,
                        ghost before: seq<Url>)
    returns (met: bool, score: int)
    requires tc.Some? ==> KeepsLongest(accumulated, ReceivedFrom(web, before + [node]))
    requires tc.Some? ==> FallsShort(web, tc.value, target, before)
    ensures met ==> tc.Some? && node in web.target && score >= tc.value.threshold
                    && ScoreAfter(web, tc.value, target, before + [node], score)
    ensures !met && tc.Some? ==> FallsShort(web, tc.value, target, before + [node])
  {
    met, score := false, 0;
    if tc.Some? && node in web.target {
      score := ScoreNow(web, tc.value, target, accumulated, before + [node]);
      met := score >= tc.value.threshold;
    }
    if tc.Some? && !met {
      FallsShortOnceMore(web, tc.value, target, before, node);
    }
  }

  /** A search that is cut short stops at the first contact with which the threshold is met, and any other never met
      it. The nodes tried are those heard of, but for what the last one would announce if the search is cut short. */
  ghost predicate StopsRightly(web: Web, seeds: seq<string>, tc: Option<TrustConfig>, target: Fp, contacted: seq<Url>,
                               cutShort: bool, result: BlockResult) {
    if cutShort then
      && tc.Some? && result.best.Some? && result.trustScore >= tc.value.threshold
      && |contacted| > 0 && contacted[|contacted| - 1] in web.target
      && result.nodesTried == |Heard(web, seeds, contacted[..|contacted| - 1])|
      && FallsShort(web, tc.value, target, contacted[..|contacted| - 1])
    else
      && result.nodesTried == |Heard(web, seeds, contacted)|
      && (tc.Some? ==> FallsShort(web, tc.value, target, contacted))
  }

  lemma CutShortRightly(web: Web, seeds: seq<string>, tc: Option<TrustConfig>, target: Fp, before: seq<Url>, node: Url,
                        result: BlockResult)
    requires tc.Some? && result.best.Some? && result.trustScore >= tc.value.threshold && node in web.target
    requires result.nodesTried == |Heard(web, seeds, before)| && FallsShort(web, tc.value, target, before)
    ensures StopsRightly(web, seeds, tc, target, before + [node], true, result)
  {
    assert (before + [node])[..|before|] == before;
  }

  /** Finds copies of a block over the peer graph, stopping early the first time the trust threshold is met. */
  method FindBlock(web: Web, fingerprint: string, seeds: seq<string>, domainHint: string, maxNodes: int,
                   tc: Option<TrustConfig>)
    returns (result: BlockResult, ghost contacted: seq<Url>, ghost cutShort: bool)
    ensures Covers(web, seeds, maxNodes, contacted, cutShort)
    ensures InPriority(web, seeds, domainHint, contacted) && InTurn(web, seeds, domainHint, contacted)
    ensures Reports(web, tc, web.upper(fingerprint), contacted, result)
    ensures ScoreIfAny(tc, result)
    ensures StopsRightly(web, seeds, tc, web.upper(fingerprint), contacted, cutShort, result)
  {
    var fp := web.upper(fingerprint);
    var copies: seq<NodeBlock> := [];
    var accumulated: map<Fp, Block> := map[];
    var q, visited := QueueSeeds(web, seeds);
    contacted, cutShort := [], false;
    SeedsInOrder(web, seeds, q);
    while q.HasQueued() && |visited| <= maxNodes
      invariant AtHead(web, seeds, domainHint, maxNodes, visited, contacted, q)
      invariant copies == CopiesOf(web, contacted)
      invariant tc.Some? ==> KeepsLongest(accumulated, ReceivedFrom(web, contacted))
      invariant tc.Some? ==> FallsShort(web, tc.value, fp, contacted)
      decreases maxNodes - |contacted|
    {
      var node, q';
      ghost var kind;
      node, q', kind := NextNode(q, visited, contacted);
      OneContact(web, seeds, domainHint, maxNodes, visited, contacted, q, node, kind, q');
      copies, accumulated := Collect(web, node, copies, accumulated, tc, contacted);
      ghost var before := contacted;
      contacted := contacted + [node];
      var met, score := MeetsThreshold(web, tc, fp, node, accumulated, before);
      if met {
        result := ReportBest(web, tc, fp, copies, |visited|, score, contacted);
        CutShortRightly(web, seeds, tc, fp, before, node, result);
        return result, contacted, true;
      }
      ghost var seen, taken := visited, q';
      q', visited := EnqueuePeers(web, node, domainHint, q', visited, contacted);
      OneTurn(web, seeds, domainHint, maxNodes, seen, before, q, node, kind, taken, visited, q');
      q := q';
    }
    SearchCovers(web, seeds, maxNodes, visited, contacted, q);
    result := Report(web, tc, fp, copies, accumulated, |visited|, contacted);
  }

  /** Asks the node for the block and, when trust is wanted, for all its blocks. */
  method Collect(web: Web, node: Url, copies: seq<NodeBlock>, accumulated: map<Fp, Block>, tc: Option<TrustConfig>,
                 ghost contacted: seq<Url>)
    returns (copies': seq<NodeBlock>, accumulated': map<Fp, Block>)
    requires copies == CopiesOf(web, contacted)
    requires tc.Some? ==> KeepsLongest(accumulated, ReceivedFrom(web, contacted))
    ensures copies' == CopiesOf(web, contacted + [node])
    ensures tc.Some? ==> KeepsLongest(accumulated', ReceivedFrom(web, contacted + [node]))
  {
    assert (contacted + [node])[..|contacted|] == contacted;
    assert ReceivedFrom(web, contacted) + [] == ReceivedFrom(web, contacted);
    copies', accumulated' := copies, accumulated;
    if node in web.target {
      copies' := copies + [NodeBlock(node, web.target[node])];
      if tc.Some? && node in web.everything {
        accumulated' := Accumulate(accumulated, web.everything[node], ReceivedFrom(web, contacted));
      }
    }
  }

  // ---------- the search by e-mail address ----------

  /** What follows the last at-sign, or nothing. */
  function DomainFromEmail(email: string): (domain: string)
    ensures '@' !in domain
    ensures '@' in email ==>
      var n := |email| - |domain|; n > 0 && email[n - 1] == '@' && email[n..] == domain
    ensures '@' !in email ==> domain == ""
  {
    if '@' !in email then ""
    else if email[|email| - 1] == '@' then ""
    else DomainFromEmail(email[..|email| - 1]) + [email[|email| - 1]]
  }

  /** The matching blocks the contacted nodes returned, with the node each came from. */
  ghost function MatchesOf(web: Web, contacted: seq<Url>): seq<NodeBlock> {
    if |contacted| == 0 then []
    else
      var u := contacted[|contacted| - 1];
      MatchesOf(web, contacted[..|contacted| - 1]) + if u in web.matches then From(u, web.matches[u]) else []
  }

  ghost function From(u: Url, blocks: seq<Block>): seq<NodeBlock> {
    seq(|blocks|, i requires 0 <= i < |blocks| => NodeBlock(u, blocks[i]))
  }

  /** The node did return the block. */
  ghost predicate CameFrom(web: Web, nb: NodeBlock) {
    nb.node in web.matches && nb.block in web.matches[nb.node]
  }

  lemma {:induction false} MatchesCameFrom(web: Web, contacted: seq<Url>)
    ensures forall nb :: nb in MatchesOf(web, contacted) ==> CameFrom(web, nb)
  {
    if |contacted| > 0 {
      MatchesCameFrom(web, contacted[..|contacted| - 1]);
    }
  }

  /** The copies are of one key: the same fingerprint in upper case. */
  ghost predicate SameKey(web: Web, a: Block, b: Block) {
    a.fingerprint != "" && b.fingerprint != "" && web.upper(a.fingerprint) == web.upper(b.fingerprint)
  }

  /** Copy `i` is the first of those of its key that have a longest chain. */
  ghost predicate FirstBest(web: Web, all: seq<NodeBlock>, i: nat) {
    && i < |all| && all[i].block.fingerprint != ""
    && (forall j :: 0 <= j < i && SameKey(web, all[j].block, all[i].block) ==>
          |all[j].block.sigEntries| < |all[i].block.sigEntries|)
    && (forall j :: i <= j < |all| && SameKey(web, all[j].block, all[i].block) ==>
          |all[j].block.sigEntries| <= |all[i].block.sigEntries|)
  }

  ghost predicate BestFor(web: Web, all: seq<NodeBlock>, fp: Fp, nb: NodeBlock) {
    web.upper(nb.block.fingerprint) == fp && exists i: nat :: FirstBest(web, all, i) && all[i] == nb
  }

  /** `best` keeps for each fingerprint, in upper case, the first of the copies received that have a longest chain. */
  ghost predicate BestByKey(web: Web, best: map<Fp, NodeBlock>, all: seq<NodeBlock>) {
    && (forall fp :: fp in best ==> BestFor(web, all, fp, best[fp]))
    && (forall nb :: nb in all && nb.block.fingerprint != "" ==> web.upper(nb.block.fingerprint) in best)
  }

  /** One more copy takes the place of the one kept only if its chain is longer. */
  lemma FirstBestOneMore(web: Web, all: seq<NodeBlock>, nb: NodeBlock, i: nat)
    requires FirstBest(web, all, i)
    ensures if SameKey(web, nb.block, all[i].block) && |nb.block.sigEntries| > |all[i].block.sigEntries|
            then FirstBest(web, all + [nb], |all|) else FirstBest(web, all + [nb], i)
  {
    assert forall j :: 0 <= j < |all| ==> (all + [nb])[j] == all[j];
    assert (all + [nb])[|all|] == nb;
  }

  lemma FirstBestOfItsKey(web: Web, all: seq<NodeBlock>, nb: NodeBlock)
    requires nb.block.fingerprint != "" && forall c :: c in all ==> !SameKey(web, c.block, nb.block)
    ensures FirstBest(web, all + [nb], |all|)
  {
    forall j | 0 <= j < |all| ensures !SameKey(web, (all + [nb])[j].block, nb.block) {
      assert all[j] in all;
    }
  }

  /** What is kept once one more copy has been received. */
  ghost function BestWith(web: Web, best: map<Fp, NodeBlock>, nb: NodeBlock): map<Fp, NodeBlock> {
    var fp := web.upper(nb.block.fingerprint);
    if nb.block.fingerprint != "" && (fp !in best || |nb.block.sigEntries| > |best[fp].block.sigEntries|)
    then best[fp := nb] else best
  }

  lemma BestOneMore(web: Web, best: map<Fp, NodeBlock>, all: seq<NodeBlock>, nb: NodeBlock)
    requires BestByKey(web, best, all)
    ensures BestByKey(web, BestWith(web, best, nb), all + [nb])
  {
    var best', all' := BestWith(web, best, nb), all + [nb];
    forall fp | fp in best' ensures BestFor(web, all', fp, best'[fp]) {
      if fp in best {
        assert BestFor(web, all, fp, best[fp]);
        var i: nat :| FirstBest(web, all, i) && all[i] == best[fp];
        FirstBestOneMore(web, all, nb, i);
        assert all'[i] == all[i] && all'[|all|] == nb;
      } else {
        FirstBestOfItsKey(web, all, nb);
        assert all'[|all|] == nb;
      }
    }
  }

  lemma BestIsReceived(web: Web, best: map<Fp, NodeBlock>, all: seq<NodeBlock>)
    requires BestByKey(web, best, all)
    ensures forall fp :: fp in best ==> best[fp] in all
  {
    forall fp | fp in best ensures best[fp] in all {
      assert BestFor(web, all, fp, best[fp]);
    }
  }

  /** Takes the copy unless one with as long a chain is kept already. */
  method KeepOne(web: Web, nb: NodeBlock, best: map<Fp, NodeBlock>, ghost all: seq<NodeBlock>)
    returns (best': map<Fp, NodeBlock>)
    requires BestByKey(web, best, all)
    ensures BestByKey(web, best', all + [nb])
  {
    BestOneMore(web, best, all, nb);
    best' := best;
    if nb.block.fingerprint != "" {
      var fp := web.upper(nb.block.fingerprint);
      if fp !in best || |nb.block.sigEntries| > |best[fp].block.sigEntries| {
        best' := best[fp := nb];
      }
    }
  }

  method KeepBest(web: Web, node: Url, best: map<Fp, NodeBlock>, blocks: seq<Block>, ghost all: seq<NodeBlock>)
    returns (best': map<Fp, NodeBlock>)
    requires BestByKey(web, best, all)
    ensures BestByKey(web, best', all + From(node, blocks))
  {
    best' := best;
    ghost var received := all;
    for i := 0 to |blocks|
      invariant received == all + From(node, blocks)[..i]
      invariant BestByKey(web, best', received)
    {
      best' := KeepOne(web, NodeBlock(node, blocks[i]), best', received);
      received := received + [NodeBlock(node, blocks[i])];
    }
    assert From(node, blocks)[..|blocks|] == From(node, blocks);
  }

  /** Asks the node for its matching blocks. */
  method CollectMatches(web: Web, node: Url, best: map<Fp, NodeBlock>, ghost contacted: seq<Url>)
    returns (best': map<Fp, NodeBlock>)
    requires BestByKey(web, best, MatchesOf(web, contacted))
    ensures BestByKey(web, best', MatchesOf(web, contacted + [node]))
  {
    assert (contacted + [node])[..|contacted|] == contacted;
    assert MatchesOf(web, contacted) + [] == MatchesOf(web, contacted);
    best' := best;
    if node in web.matches {
      best' := KeepBest(web, node, best, web.matches[node], MatchesOf(web, contacted));
    }
  }

  /** Collects matching blocks over the whole peer graph, keeping for each fingerprint the first of the longest
      chains. */
  method FindBlocksByEmail(web: Web, email: string, seeds: seq<string>, maxNodes: int)
    returns (best: map<Fp, NodeBlock>, nodesTried: nat, ghost contacted: seq<Url>)
    ensures Covers(web, seeds, maxNodes, contacted, false)
    ensures InPriority(web, seeds, DomainFromEmail(email), contacted)
    ensures InTurn(web, seeds, DomainFromEmail(email), contacted)
    ensures BestByKey(web, best, MatchesOf(web, contacted))
    ensures forall fp :: fp in best ==> CameFrom(web, best[fp])
    ensures nodesTried == |Heard(web, seeds, contacted)|
  {
    var domain := DomainFromEmail(email);
    best := map[];
    var q, visited := QueueSeeds(web, seeds);
    contacted := [];
    SeedsInOrder(web, seeds, q);
    while q.HasQueued() && |visited| <= maxNodes
      invariant AtHead(web, seeds, domain, maxNodes, visited, contacted, q)
      invariant BestByKey(web, best, MatchesOf(web, contacted))
      decreases maxNodes - |contacted|
    {
      var node, q';
      ghost var kind;
      node, q', kind := NextNode(q, visited, contacted);
      OneContact(web, seeds, domain, maxNodes, visited, contacted, q, node, kind, q');
      ghost var before, seen, taken := contacted, visited, q';
      best := CollectMatches(web, node, best, contacted);
      contacted := contacted + [node];
      q', visited := EnqueuePeers(web, node, domain, q', visited, contacted);
      OneTurn(web, seeds, domain, maxNodes, seen, before, q, node, kind, taken, visited, q');
      q := q';
    }
    SearchCovers(web, seeds, maxNodes, visited, contacted, q);
    nodesTried := |visited|;
    MatchesCameFrom(web, contacted);
    BestIsReceived(web, best, MatchesOf(web, contacted));
  }
}
