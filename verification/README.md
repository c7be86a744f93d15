# GPG chain: a verified model

A Dafny model of the GPG key ledger: a block for each OpenPGP key, and in it a hash-linked chain of trust signatures by
other keys. Nodes keep ledgers in step with each other; clients score how far they trust a key. The model follows the Go
implementation, and the Python one where that differs or holds the part of interest. `dafny verify dfyconfig.toml`
checks all of it.

**Trust scoring** (`SigningGraph`, `Distances`, `IndexedSums`, `FlowNetwork`, `EdmondsKarp`, `FlowPaths`, `NodeSplit`,
`DepthFilter`, `DisjointScorer`, `MaximumFlow`, `KeyCuts`, `PathCounter`, `TrustGraph`, `TrustScores`, `TrustTheorems`,
`DepthLimit`, `DirectSignature`, `Collusion`, `Conservative`). Two scores over the graph of who signed whom. One counts
simple paths with a queue; the other finds the largest number of paths that share no intermediate key, with two
breadth-first searches, a depth filter, node splitting and a maximum-flow loop over adjacency lists with reverse-entry
indices. Both are proved against independent definitions on sets of paths, and the second also against its dual: the
least number of keys that all those paths go through.

**Chains and stores** (`Ledger`, `Payloads`, `Hashing`, `ChainRebuild`, `MemoryStore`, `DirStore`, `SqliteStore`,
`LedgerStores`). What is hashed and signed determines its fields; a chain that passes the check cannot be altered
without a collision; and the two persistent stores, which keep a chain as unordered files or rows, give the answers of
the in-memory store.

**Nodes** (`LedgerRules`, `Handlers`, `PeerSync`, `Gossip`). What every ledger keeps over every run of requests and
syncs, when a sync ends with the chains of the peer, and why gossip ends.

**Discovery** (`Discovery`). The search of the peer graph with three queues.

## Where the code is not what its documentation says

- A direct signature of the root on the target counts `len(intermediates) + 2` times in the disjoint score
  (implementations/go/internal/trust/trust.go:247-273), not once as its comment says (lines 110-114). With a direct
  signature the score is therefore above the documented one at every depth of at least 1
  (`TrustTheorems.ScoreAtLeastDocumented`). Each intermediate key also counts there, so the promise that no single key
  is worth more than one (lines 113-114) fails for some key whenever a trust path with an intermediate key exists within
  the depth, the default depth of 2 included; there it fails for every intermediate key
  (`DirectSignature.TwoHopKeyIsWorthTwo`). `DirectSignature.DirectPromiseExact` says exactly when it holds,
  `UpToDepthThree` and `AtDepthTwo` what that comes to at small depths, and `DepthOneIsTheLimit` that on every graph,
  direct signatures included, it holds if and only if the depth is at most 1.
- The bound on what colluders gain (spec/trust.md:286) has a condition of its own beside a direct signature: no filtered
  path has an intermediate key, and every intermediate key stays one when all the others are gone
  (`Collusion.CollusionExact`). Up to a depth of 3 that comes to the condition for a single key; from a depth of 4 on
  there is a graph on which each key is worth one and two of them three (`Collusion.PromisesPart`,
  `DepthThreeIsTheLimit`). Without a direct signature the bound holds on every graph if and only if the depth is at most
  4 (`Collusion.DepthFourBoundsCollusion`), and on all graphs together if and only if it is at most 1.
- Disjoint scoring is documented as the more conservative one (spec/trust.md:288). Without a direct signature it is on
  every graph if and only if the depth is at most 5 (`Conservative.DepthFiveIsTheLimit`); at larger depths a path that
  is too long can be counted where no other path is. Beside a direct signature it never is up to a depth of 2, and
  beyond only where there are paths enough (`Conservative.NeverAtDepthTwo`, `ConservativeWithDirect`).
- The depth filter looks at each edge alone (implementations/go/internal/trust/trust.go:262). From a depth of 5 on it
  can let through paths that are too long, and then, even without a direct signature, the score can exceed the
  documented one (`DepthLimit.DeepScoreExceeds`) and one key can be worth more than one. `DepthLimit` proves that on
  every graph without a direct signature both promises hold if and only if the depth is at most 4, and
  `DisjointScorer.DisjointScore` says what the score is at every depth, with a direct signature or not.
- spec/trust.md:209-210 gives the root a disjoint score of 0; the code gives 1
  (implementations/go/internal/trust/trust.go:119-121).
- When the root is scored against itself and its key is revoked, Go gives 1 and Python 0
  (implementations/go/internal/trust/trust.go:48, implementations/python/gpgchain/trust/graph.py:194-197). That is the
  only difference between the two: `TrustTheorems.ImplementationsAgree`.
- Both trusted sets are documented to hold keys reachable from the root (implementations/go/internal/trust/trust.go:96,
  implementations/python/gpgchain/trust/graph.py:243). The Python one does for every threshold
  (`TrustScores.ForwardTrustedSet`). For a threshold below 1 the Go one also returns the keys out of reach, which score
  0: it is as documented, and the same as the Python one, if and only if the threshold is at least 1 or every key with a
  block is reachable (`TrustScores.TrustedSetDocumented`, `TrustTheorems.TrustedSetsEqual`).
- Discovery is documented to try every reachable node up to `maxNodes`
  (implementations/go/internal/discovery/discovery.go:216, 316). The loop stops once more than `maxNodes` URLs have been
  heard of, contacted or not (line 245). So it tries every reachable node if and only if at most `maxNodes` are
  reachable (`Discovery.CoversAllIfFew`), and of more it may try a single one: a seed that announces `maxNodes` peers is
  the only node contacted (`Discovery.OnlyTheSeed`). `nodesTried` counts the URLs heard of.
- Signatures received from other nodes are appended with the `prev_hash` of the sender
  (implementations/go/internal/api/api.go:703-720), so a chain stays intact exactly when that is the head:
  `LedgerRules.ApplyKeepsChains`, and over whole runs `LedgerRules.RunKeepsChains`.

## Conventions

Key parsing, key strength, e-mail domains, signature verification and SHA-256 are parameters: any functions at all. No
lemma assumes the hash to be injective; where that would be needed the lemma gives two texts with the same digest
instead. A fingerprint, hash or signature is a string. Loops over Go maps and Python sets take their members in any
order. A peer in a sync is a fixed map from fingerprint to block; `Web` in `Discovery` holds what the nodes answer while
a search runs. Ghost parameters and results carry what the proofs need and are no part of the code.

## Model

| member | source | states |
|---|---|---|
| `Distances.DistanceIsShortest` | implementations/go/internal/trust/trust.go:158-174 | A key is in the distance map exactly when some walk within the depth reaches it, and its number is the least hop count of such a walk |
| `Distances.BreadthFirst` | implementations/go/internal/trust/trust.go:159-174 | The queue loop, with or without a depth bound and entering no blocked key, ends with a map that has these facts; the queue stays ordered by distance |
| `Distances.Visit` | implementations/go/internal/trust/trust.go:168-173 | A neighbour seen for the first time gets the number of its parent and one, and goes to the back of the queue; one seen before changes nothing |
| `Distances.VisitOpen` | implementations/python/gpgchain/trust/graph.py:60-63 | A revoked neighbour is skipped; any other is visited |
| `DepthFilter.EdgeTest` | implementations/go/internal/trust/trust.go:247-264 | The test d1 + 1 + d2 <= maxDepth on two distance maps holds exactly for the edges on some root-to-target walk of at most maxDepth hops |
| `DepthFilter.KeyTest` | implementations/go/internal/trust/trust.go:211-219 | The intermediate keys are exactly the inner keys of such walks |
| `DepthFilter.SearchedBack` | implementations/python/gpgchain/trust/graph.py:68-82 | Searching back over all signatures and skipping revoked signers measures every key that is not revoked as a search over the edges into such keys would |
| `DepthFilter.ShortPathSurvives` | implementations/go/internal/trust/trust.go:246-275 | No simple path within the depth loses an edge to the filter |
| `DepthFilter.Shorten` | implementations/go/internal/trust/trust.go:262-264 | For a depth of at most 4, a path over filtered edges, however long, can be cut down to one within the depth through some of its own intermediate keys |
| `DepthFilter.FilterIsExact` | implementations/go/internal/trust/trust.go:110-117 | For a depth of at most 4, the largest disjoint family in the filtered graph is as large as the largest family of disjoint paths within the depth |
| `DepthFilter.CountDirect` | implementations/go/internal/trust/trust.go:246-275 | Allowing the direct root-to-target path adds exactly one to the size of a largest family when it exists |
| `FlowNetwork.NetOutOfCut` | implementations/go/internal/trust/trust.go:277-316 | What a flow carries out of any cut is its value |
| `FlowNetwork.FlowAtMostCut` | implementations/go/internal/trust/trust.go:277-316 | No flow carries more than the capacity of any cut |
| `FlowNetwork.SaturatedCutIsOptimal` | implementations/go/internal/trust/trust.go:296-317 | A flow that fills a cut has the value of the cut, and no flow has a larger value |
| `EdmondsKarp.AddEdge` | implementations/go/internal/trust/trust.go:236-239 | The pair of entries pushed keeps every entry paired with its reverse entry by index |
| `EdmondsKarp.EntryOfOwner` | implementations/go/internal/trust/trust.go:234-239 | Every entry points at an entry that points back at it, capacities are never negative, and each pair sums to the capacity of its arc |
| `EdmondsKarp.Push` | implementations/go/internal/trust/trust.go:309-312 | Moving an amount over an entry and back onto its reverse entry keeps all of that, and changes the flow of one arc by that amount |
| `EdmondsKarp.ScanEntry` | implementations/go/internal/trust/trust.go:289-294 | An entry with capacity left leads to a reached node; nothing reached is lost |
| `EdmondsKarp.FindPath` | implementations/go/internal/trust/trust.go:280-295 | The search leaves a tree of entries with capacity left, rooted at the source; if it misses the sink, what it reached is closed under such entries |
| `EdmondsKarp.Bottleneck` | implementations/go/internal/trust/trust.go:299-307 | The walk over prev ends at the source; the amount found is at least 1, the whole path can carry it and, unless it is 2^30, no more |
| `EdmondsKarp.AugmentStep` | implementations/go/internal/trust/trust.go:309-314 | One turn of the update loop: exactly the entry into v recorded by the search gives up the amount to its reverse entry, and lists nearer the source are untouched |
| `EdmondsKarp.Augment` | implementations/go/internal/trust/trust.go:308-314 | The whole update keeps the residual network and shifts the amount from source to sink, conserving flow everywhere else |
| `EdmondsKarp.SearchEndsInCut` | implementations/go/internal/trust/trust.go:296-298 | When the sink is out of reach, the reached nodes are a cut that the flow fills |
| `EdmondsKarp.MaxFlow` | implementations/go/internal/trust/trust.go:277-317 | The loop ends; its total is the value of a flow and the capacity of a cut, and no flow has a larger value |
| `FlowPaths.SameHistory` | implementations/go/internal/trust/trust.go:241-275 | Two walks over edges that carry flow, meeting at an intermediate key, came the same way |
| `FlowPaths.Unwind` | implementations/go/internal/trust/trust.go:110-117 | Edges that carry flow unwind into one simple path for each edge out of the root, with no intermediate key in common |
| `NodeSplit.Throughput` | implementations/go/internal/trust/trust.go:241-244 | What enters an intermediate key is what crosses its unit arc is what leaves it, and is at most 1 |
| `NodeSplit.FlowGivesPaths` | implementations/go/internal/trust/trust.go:209-275 | A flow through the split network gives that many disjoint paths, less the share of a direct arc |
| `NodeSplit.UsedByOne` | implementations/go/internal/trust/trust.go:241-275 | Paths with no intermediate key in common use no arc in common |
| `NodeSplit.PackingAtMostCut` | implementations/go/internal/trust/trust.go:209-275 | No family of disjoint paths is larger than the capacity of a cut, less the direct share |
| `NodeSplit.MaxFlowCountsPaths` | implementations/go/internal/trust/trust.go:209-317 | A flow that fills a cut of the split network has as its value the largest number of disjoint paths, plus the direct share |
| `DisjointScorer.BuildSigned` | implementations/go/internal/trust/trust.go:150-156 | Turning signer sets into lists of signed keys keeps exactly the edges, each once |
| `DisjointScorer.BuildReverse` | implementations/go/internal/trust/trust.go:187-192 | The reverse lists hold exactly the flipped edges, each once |
| `DisjointScorer.Intermediates` | implementations/go/internal/trust/trust.go:209-231 | Numbers each key on a short enough walk once, and no other |
| `DisjointScorer.WireSplits` | implementations/go/internal/trust/trust.go:241-244 | One unit arc inside each intermediate key, and nothing else |
| `DisjointScorer.WireEdge` | implementations/go/internal/trust/trust.go:257-274 | Adds a wide arc for an edge exactly when the depth test selects it |
| `DisjointScorer.WireFrom` | implementations/python/gpgchain/trust/graph.py:127-140 | Out of one key, a wide arc for exactly the selected edges into keys that are not revoked |
| `DisjointScorer.WireEdges` | implementations/go/internal/trust/trust.go:246-275 | The network built is the split network of exactly the depth-filtered edges |
| `DisjointScorer.UnreachedScoresZero` | implementations/go/internal/trust/trust.go:175-177 | Returning 0 for a target out of reach is the right count |
| `DisjointScorer.DisjointMaxFlow` | implementations/go/internal/trust/trust.go:130-318 | For every graph, depth and set of blocked keys: the largest number of disjoint paths in the depth-filtered graph, plus len(intermediates)+2 for a direct signature |
| `DisjointScorer.DisjointScore` | implementations/go/internal/trust/trust.go:118-123 | The same, and 1 for the root itself |
| `MaximumFlow.SomeFlowFillsACut` | implementations/go/internal/trust/trust.go:277-317 | Every network has a flow that fills a cut, so the score is defined by the graph alone, however the loop is run |
| `KeyCuts.MeetingPaths` | implementations/go/internal/trust/trust.go:113-114 | Of a disjoint family no more paths go through some keys than there are such keys |
| `KeyCuts.NeverFull` | implementations/go/internal/trust/trust.go:246-273 | No wide arc but the direct one is ever full, so a full cut consists of keys |
| `KeyCuts.MinimumGate` | implementations/go/internal/trust/trust.go:241-317 | As many keys as there are disjoint paths are enough to be on every path, and no fewer are (the theorem of Menger, through the split network) |
| `KeyCuts.ScoreIsGate` | implementations/go/internal/trust/trust.go:110-117 | At every depth the score, less the direct share, is the least number of keys that all filtered paths go through |
| `KeyCuts.KeysToCutOff` | implementations/go/internal/trust/trust.go:110-117 | For a depth of at most 4 it is the least number of keys that every trust path within the depth with an intermediate key goes through |
| `PathCounter.SimplePathsExact` | implementations/go/internal/trust/trust.go:60-89 | The set counted holds exactly the simple paths of 1 to maxDepth hops |
| `PathCounter.Branch` | implementations/go/internal/trust/trust.go:72-86 | One item expands into exactly its one-hop extensions, each once, and a hop to the end is counted once |
| `PathCounter.AllExpanded` | implementations/go/internal/trust/trust.go:64-87 | With the queue empty every partial path has been expanded |
| `PathCounter.FinishedPaths` | implementations/go/internal/trust/trust.go:60-89 | The expanded partial paths that end next to the stop key are as many as the simple paths |
| `PathCounter.CountPaths` | implementations/go/internal/trust/trust.go:60-89 | The queue loop ends and returns the number of simple paths of 1 to maxDepth hops that enter no blocked key |
| `TrustGraph.CollectRevoked` | implementations/go/internal/trust/trust.go:21-26 | Exactly the fingerprints of revoked blocks |
| `TrustGraph.Build` | implementations/go/internal/trust/trust.go:20-44 | An edge for exactly each signature between blocks of which neither is revoked, and a node for each block |
| `TrustGraph.BuildForward` | implementations/python/gpgchain/trust/graph.py:8-33 | The same edges, from signer to signed, with the set of revoked keys |
| `TrustGraph.SameGraph` | implementations/python/gpgchain/trust/graph.py:11-20 | Both forms have the same edges; with one block a key none enters or leaves a revoked key |
| `TrustScores.CountBackward` | implementations/python/gpgchain/trust/graph.py:199-219 | Counting over signers back from the target finds as many paths as counting over signed keys forward |
| `TrustScores.Score` | implementations/go/internal/trust/trust.go:46-52 | The number of simple paths from root to target within the depth, and 1 for the root |
| `TrustScores.TrustedSet` | implementations/go/internal/trust/trust.go:96-108 | Exactly the keys of the graph other than the root whose score meets the threshold, each once |
| `TrustScores.TrustedSetDocumented` | implementations/go/internal/trust/trust.go:96-108 | Every key in the set is reachable within the depth, as documented, if and only if the threshold is at least 1 or every other key of the graph is reachable |
| `TrustScores.ThresholdOneIsTheLimit` | implementations/go/internal/trust/trust.go:96-108 | That is so on every graph if and only if the threshold is at least 1 |
| `TrustScores.ReachedIsScored` | implementations/python/gpgchain/trust/graph.py:255-274 | The depth-limited search reaches a key exactly when it scores at least 1 |
| `TrustScores.DisjointPositive` | implementations/go/internal/trust/trust.go:46-123 | The disjoint score is at least 1 exactly when the path score is, for every graph and depth |
| `TrustScores.ForwardScore` | implementations/python/gpgchain/trust/graph.py:36-219 | The forward score: 0 for a revoked target, 1 for the root, else paths or disjoint paths over edges into keys that are not revoked; every loop runs over the whole graph and skips revoked keys itself |
| `TrustScores.ForwardScoreUnique` | implementations/python/gpgchain/trust/graph.py:172-219 | The forward score is determined by the graph |
| `TrustScores.ReachableScores` | implementations/python/gpgchain/trust/graph.py:191-219 | In either mode the score is never negative, and is at least 1 exactly when some path within the depth exists |
| `TrustScores.CandidatesSuffice` | implementations/python/gpgchain/trust/graph.py:276-297 | The candidate search finds exactly the keys reachable within the depth, so it misses none that meets a threshold of at least 1, in either mode; with threshold 1 it needs no scoring |
| `TrustScores.ForwardTrustedSet` | implementations/python/gpgchain/trust/graph.py:235-297 | Exactly the keys reachable within the depth, other than the root, that meet the threshold, whatever the threshold |
| `TrustScores.LowThreshold` | implementations/python/gpgchain/trust/graph.py:242-250 | That a key meets the threshold is enough for it to be in the set if and only if the threshold is at least 1 or some path within the depth exists |
| `TrustTheorems.DisjointScoreMeaning` | implementations/go/internal/trust/trust.go:110-117 | For a depth of at most 4: the documented score, a direct signature counting len(intermediates)+2 times instead of once |
| `TrustTheorems.ScoreAtLeastDocumented` | implementations/go/internal/trust/trust.go:110-117 | At every depth the score is at least the documented one, and with a direct signature larger by at least len(intermediates)+1 |
| `TrustTheorems.LosingKeysLowers` | implementations/go/internal/trust/trust.go:113-114 | At every depth, losing keys lowers the score by at least what the count of a direct signature loses, and never raises it |
| `TrustTheorems.LosingKeysCosts` | implementations/go/internal/trust/trust.go:113-114 | For a depth of at most 4, losing keys with all they gate lowers the score by at most their number beside what the count of a direct signature loses |
| `TrustTheorems.DisjointScoreExact` | implementations/go/internal/trust/trust.go:110-117 | With a direct signature the score is documented at no depth of at least 1; for a depth of at most 4 it is documented if and only if root has not signed target directly, or no hop is allowed |
| `TrustTheorems.ColludersGainTheirNumber` | spec/trust.md:286 | Whoever controls K keys, however many further keys they make up that only they and each other sign, gains at least the intermediate keys that all these add to the count of a direct signature (none without one), and for a depth of at most 4 at most K more than that |
| `TrustTheorems.OneKeyIsWorthOne` | implementations/go/internal/trust/trust.go:113-114 | Removing one intermediate key never raises the score; for a depth of at most 4 it lowers it by at most 1, and with a direct signature besides by the intermediate keys that go with it, itself at least |
| `TrustTheorems.ImplementationsAgree` | implementations/python/gpgchain/trust/graph.py:36-219 | On the same blocks, one a key, Go on its edges and Python skipping revoked keys in its loops give the same score, in either mode, unless the key scored is the root and is revoked |
| `TrustTheorems.TrustedSetsAgree` | implementations/python/gpgchain/trust/graph.py:243-250 | On the same blocks both trusted sets agree on a key if and only if the threshold is at least 1, or the key has no block, or is the root, or is reachable within the depth |
| `TrustTheorems.TrustedSetsEqual` | implementations/python/gpgchain/trust/graph.py:243-250 | On given blocks they are equal if and only if the threshold is at least 1 or every key with a block is reachable |
| `DepthLimit.DeepScoreExceeds` | implementations/go/internal/trust/trust.go:262-264 | For each depth from 5 on, a graph without a direct signature on which the score is above the documented one: the filter is per edge |
| `DepthLimit.DepthFourIsTheLimit` | implementations/go/internal/trust/trust.go:110-117 | The score is the documented one on every graph without a direct signature if and only if the depth is at most 4 |
| `DepthLimit.DeepKeyIsWorthMore` | implementations/go/internal/trust/trust.go:113-114 | For each depth from 5 on, a graph without a direct signature on which losing one key costs more than 1 |
| `DepthLimit.DepthFourKeepsKeysCheap` | implementations/go/internal/trust/trust.go:113-114 | No one key is worth more than 1 on every graph without a direct signature if and only if the depth is at most 4 |
| `DirectSignature.TwoHopKeyIsWorthTwo` | implementations/go/internal/trust/trust.go:113-114 | Beside a direct signature, every key that root has signed and that has signed the target is worth at least 2, at every depth of at least 2 |
| `DirectSignature.SomeKeyIsWorthTwo` | implementations/go/internal/trust/trust.go:113-114 | Beside a direct signature, if some filtered path has an intermediate key, some key is worth at least 2: one of a least set of keys on all those paths |
| `DirectSignature.DirectPromiseExact` | implementations/go/internal/trust/trust.go:113-114 | With a direct signature no single key is worth more than 1 if and only if no filtered path has an intermediate key and no intermediate key is one only thanks to another |
| `DirectSignature.IndirectIsShort` | implementations/go/internal/trust/trust.go:262-264 | For a depth of at most 4 a filtered path with an intermediate key exists if and only if a trust path within the depth with one does |
| `DirectSignature.DirectPromiseAtLeast` | implementations/go/internal/trust/trust.go:113-114 | In particular it holds where there are no intermediate keys and fails, at every depth, where some trust path within the depth has one |
| `DirectSignature.UpToDepthThree` | implementations/go/internal/trust/trust.go:113-114 | Up to a depth of 3 it holds if and only if no trust path within the depth has an intermediate key |
| `DirectSignature.AtDepthTwo` | implementations/python/gpgchain/trust/graph.py:40-49 | At the default depth of 2 it holds if and only if there are no intermediate keys |
| `DirectSignature.DepthOneIsTheLimit` | implementations/go/internal/trust/trust.go:113-114 | On every graph, with direct signatures or without, no one key is worth more than 1 if and only if the depth is at most 1 |
| `Collusion.CollusionExact` | spec/trust.md:286 | With a direct signature, at every depth, K keys with all they gate gain at most K for every choice of keys if and only if no filtered path has an intermediate key and every intermediate key stays one when all the others are removed |
| `Collusion.OnlyGateIsLost` | spec/trust.md:286 | Where every intermediate key stays one without the others, removing keys with all they gate takes no more intermediate keys away than were chosen |
| `Collusion.CollusionUpToDepthThree` | spec/trust.md:286 | Up to a depth of 3 it is so if and only if no trust path within the depth has an intermediate key |
| `Collusion.PromisesPart` | implementations/go/internal/trust/trust.go:113-114 | For each depth from 4 on a graph on which each key is worth at most 1 and two keys together are worth 3 |
| `Collusion.DepthThreeIsTheLimit` | implementations/go/internal/trust/trust.go:113-114 | The promise for one key and the bound for any number hold on the same graphs if and only if the depth is at most 3 |
| `Collusion.DepthFourBoundsCollusion` | spec/trust.md:286 | Without a direct signature K keys gain at most K on every graph if and only if the depth is at most 4 |
| `Collusion.DepthOneBoundsCollusion` | spec/trust.md:286 | On every graph, with direct signatures or without, if and only if the depth is at most 1 |
| `Conservative.FirstsAreGate` | implementations/go/internal/trust/trust.go:247-264 | Without a direct signature and up to a depth of 5, every filtered path goes through a key that comes first on some trust path within the depth |
| `Conservative.DisjointAtMostPaths` | spec/trust.md:288 | So there the disjoint score is at most the number of trust paths |
| `Conservative.OnlyOverHub` | implementations/go/internal/trust/trust.go:262-264 | For each depth from 6 on, a graph with one trust path within the depth |
| `Conservative.LoopScores` | implementations/go/internal/trust/trust.go:262-264 | On which the filter lets a second, disjoint path through, so that the disjoint score is at least 2 |
| `Conservative.DepthFiveIsTheLimit` | spec/trust.md:288 | Without a direct signature the disjoint score is at most the number of paths on every graph if and only if the depth is at most 5 |
| `Conservative.ConservativeWithDirect` | spec/trust.md:288 | With a direct signature it is if and only if there are at least as many trust paths as intermediate keys and keys of a least gate of the filtered paths, and two more |
| `Conservative.NeverAtDepthTwo` | spec/trust.md:288 | Beside a direct signature, up to the default depth of 2, the disjoint score is above the number of paths |
| `Conservative.NoDepthIsConservative` | spec/trust.md:288 | With direct signatures allowed it is at most that number on every graph only where no hop is allowed |
| `Payloads.JoinFields` | implementations/go/internal/chain/block.go:37-46 | The loop gives the parts with one NUL between each two |
| `Payloads.SplitJoined` | implementations/go/internal/gpg/gpg.go:181-190 | Splitting at the NULs gives back the parts, if none contains a NUL |
| `Payloads.NulMovesTheCut` | implementations/go/internal/gpg/gpg.go:181-190 | With a NUL inside a field the cut is ambiguous |
| `Payloads.ParseDecimal` | implementations/go/internal/gpg/gpg.go:93 | The decimal text of a timestamp, negative ones too, reads back as the timestamp and has no NUL |
| `Payloads.DecimalIsPlain` | implementations/go/internal/gpg/gpg.go:93 | It is digits without a leading zero, behind a sign if negative |
| `Payloads.SubmitFields` | implementations/go/internal/gpg/gpg.go:90-94 | A SUBMIT payload cut at its NULs is the tag, the fingerprint, the digest of the key and the timestamp, in this order |
| `Payloads.TrustFields` | implementations/go/internal/gpg/gpg.go:99-101 | A TRUST payload likewise: tag, block hash, signer, timestamp |
| `Payloads.RevokeFields` | implementations/go/internal/gpg/gpg.go:106-108 | A REVOKE payload: tag, fingerprint, block hash |
| `Payloads.SubmitDetermines` | implementations/go/internal/gpg/gpg.go:90-94 | SUBMIT payloads are equal exactly when fingerprint, key digest and timestamp are |
| `Payloads.TrustDetermines` | implementations/go/internal/gpg/gpg.go:99-101 | TRUST payloads are equal exactly when block hash, signer and timestamp are |
| `Payloads.RevokeDetermines` | implementations/go/internal/gpg/gpg.go:106-108 | REVOKE payloads are equal exactly when fingerprint and block hash are |
| `Payloads.KindsDiffer` | implementations/go/internal/gpg/gpg.go:90-108 | Payloads of two kinds never coincide |
| `Hashing.BlockFields` | implementations/python/gpgchain/chain/hashing.py:6-16 | The text hashed for a block, cut at its NULs, is fingerprint, key and self-signature, in this order |
| `Hashing.EntryFields` | implementations/python/gpgchain/chain/hashing.py:19-31 | The text hashed for an entry is prev_hash, signer, signature and timestamp, in this order |
| `Hashing.ComputeBlockHash` | implementations/go/internal/chain/block.go:55-57 | Joins the fields and gives the digest of that text |
| `Hashing.ComputeSigEntryHash` | implementations/go/internal/chain/block.go:61-63 | Likewise for an entry |
| `Hashing.VerifySigChain` | implementations/python/gpgchain/chain/hashing.py:40-65 | True exactly when each entry continues from the one before, the first from the block, every hash matches, and the head is the last hash |
| `Hashing.EntryInputDetermines` | implementations/python/gpgchain/chain/hashing.py:19-31 | Two entries hash the same text exactly when prev_hash, signer, sig and timestamp agree |
| `Hashing.BlockInputDetermines` | implementations/python/gpgchain/chain/hashing.py:6-16 | Two blocks hash the same text exactly when fingerprint, key and self-signature agree |
| `Hashing.InputKindsDiffer` | implementations/python/gpgchain/chain/hashing.py:6-31 | A block and an entry never hash the same text |
| `Hashing.ChainsAgree` | implementations/python/gpgchain/chain/hashing.py:40-65 | Chains of two intact blocks with the same hash agree back from equal hashes, lengths included, or two texts with the same digest are given |
| `Hashing.TamperEvident` | implementations/python/gpgchain/chain/hashing.py:34-65 | Two intact blocks with the same hash and head have the same key and chain, or two texts with the same digest are given |
| `Hashing.AppendKeepsIntact` | implementations/python/gpgchain/chain/hashing.py:40-65 | An appended entry keeps a chain intact if and only if it continues from the head |
| `ChainRebuild.RebuildForward` | implementations/python/gpgchain/store/dir_store.py:105-126 | For any files: a linked run from the block hash that goes on from no hash twice and stops only where nothing continues it or at a hash it has passed |
| `ChainRebuild.ForwardIsChain` | implementations/python/gpgchain/store/dir_store.py:105-126 | For the entries of a chain, in any order, that run is the chain |
| `ChainRebuild.FindTip` | implementations/go/internal/store/sqlite.go:134-149 | Some hash no row continues from, if there is one |
| `ChainRebuild.WalkBack` | implementations/go/internal/store/sqlite.go:151-156 | Follows prev_hash from the tip as far as there are rows, wherever the walk does not come round; rows out of its reach may have cycles |
| `ChainRebuild.CycleNeverEnds` | implementations/go/internal/store/sqlite.go:151-156 | A walk back that comes to a hash it has passed can be made as long as one likes, and there always is a row to go on to |
| `ChainRebuild.WalkEnds` | implementations/go/internal/store/sqlite.go:151-156 | The walk back from an entry ends if and only if it does not come to a hash it has passed |
| `ChainRebuild.RankedEnds` | implementations/go/internal/store/sqlite.go:151-156 | Where every entry ranks above the one it continues from, no walk comes round |
| `ChainRebuild.ReverseInPlace` | implementations/go/internal/store/sqlite.go:157-159 | The two-index swap loop reverses the array |
| `ChainRebuild.RebuildBackward` | implementations/go/internal/store/sqlite.go:118-160 | For rows on which the walk from every tip ends: from some tip a linked run, as long as can be, and nothing if there is no tip |
| `ChainRebuild.BackwardIsChain` | implementations/go/internal/store/sqlite.go:118-160 | For the entries of a chain, in any order, that run is the chain |
| `ChainRebuild.ChainIsAcyclic` | implementations/go/internal/store/sqlite.go:151-156 | The entries of a chain rank one above the other, and have a tip |
| `MemoryStores.ExtendedWellChained` | implementations/go/internal/store/memory.go:56-66 | Appending an entry that continues from the head under a new hash keeps a chain linked |
| `MemoryStores.OnlyExtendingKeepsLinked` | implementations/go/internal/store/memory.go:56-66 | No other entry does |
| `MemoryStores.NextWellChained` | implementations/go/internal/store/memory.go:20-78 | Adding blocks without a chain, appending entries that continue from the head, and revoking keep all chains linked |
| `MemoryStores.MemoryStore.Add` | implementations/go/internal/store/memory.go:20-30 | Stores a block unless its fingerprint is known |
| `MemoryStores.MemoryStore.Get` | implementations/go/internal/store/memory.go:32-42 | The block stored, or none |
| `MemoryStores.MemoryStore.All` | implementations/go/internal/store/memory.go:44-54 | Exactly the blocks stored |
| `MemoryStores.MemoryStore.AddSig` | implementations/go/internal/store/memory.go:56-66 | Appends the entry and moves the head, or fails for an unknown block |
| `MemoryStores.MemoryStore.Revoke` | implementations/go/internal/store/memory.go:68-78 | Marks the block and keeps the signature, or fails for an unknown block |
| `MemoryStores.MemoryStore.Hashes` | implementations/go/internal/store/memory.go:80-88 | The head of each block |
| `DirStores.TipOf` | implementations/python/gpgchain/store/dir_store.py:185-214 | The tip among the entry files, the last in string order if there are several, empty if there is none |
| `DirStores.BelowIsSmaller` | implementations/python/gpgchain/store/dir_store.py:209-211 | The order is the one by the first differing character, a text coming after its beginnings |
| `DirStores.TipIsHead` | implementations/python/gpgchain/store/dir_store.py:198-214 | For the files of a chain the one tip is the head of the chain |
| `DirStores.ReadIsBlock` | implementations/python/gpgchain/store/dir_store.py:68-133 | Only the block itself can be read from the files of a linked block, in whatever order they are listed |
| `DirStores.DirStore.Add` | implementations/python/gpgchain/store/dir_store.py:50-66 | Writes the block file, without the chain of the block, unless there is one |
| `DirStores.DirStore.Rebuild` | implementations/python/gpgchain/store/dir_store.py:73-133 | For any files, a block that can be read from them; for the files of linked blocks, the block stored |
| `DirStores.DirStore.Get` | implementations/python/gpgchain/store/dir_store.py:68-137 | Cached or rebuilt, a block that its present files give, whatever the cache evicts and whatever was written; while chains are linked, the block stored |
| `DirStores.DirStore.All` | implementations/python/gpgchain/store/dir_store.py:139-147 | One block read from the files of each key; while chains are linked, exactly the blocks stored |
| `DirStores.DirStore.AddSig` | implementations/python/gpgchain/store/dir_store.py:149-165 | Writes the entry file, whatever it continues from, and forgets the cached block, or fails for an unknown block; an entry that continues from the head keeps the store linked |
| `DirStores.DirStore.Revoke` | implementations/python/gpgchain/store/dir_store.py:167-178 | Writes the revocation file and forgets the cached block, or fails for an unknown block |
| `DirStores.DirStore.Hashes` | implementations/python/gpgchain/store/dir_store.py:180-215 | The tip of the entry files of each key, found without rebuilding a chain; while chains are linked, the head of each block |
| `DirStores.Lockstep` | implementations/python/gpgchain/store/dir_store.py:20-215 | Over every run that adds blocks without a chain and appends to heads, whatever is evicted, the answers are those of the in-memory store |
| `SqliteStores.SqliteStore.Add` | implementations/go/internal/store/sqlite.go:59-75 | Inserts the row unless fingerprint or block hash is taken; chain and revocation of the block are not inserted |
| `SqliteStores.SqliteStore.GetSigEntries` | implementations/go/internal/store/sqlite.go:108-161 | For any table on which the walk ends: what the walk back from some tip of the rows of the block gives |
| `SqliteStores.SqliteStore.Get` | implementations/go/internal/store/sqlite.go:77-106 | The row with the entries so read, or none; while chains are linked, the block stored |
| `SqliteStores.SqliteStore.All` | implementations/go/internal/store/sqlite.go:163-200 | One block for each row, so read; while chains are linked, exactly the blocks stored |
| `SqliteStores.ReadIsChain` | implementations/go/internal/store/sqlite.go:108-161 | The rows of a linked chain can be walked back from every tip, and any such walk gives the chain |
| `SqliteStores.SqliteStore.AddSig` | implementations/go/internal/store/sqlite.go:202-228 | Inserts the entry, for a missing block too, and moves the head if there is a block, or changes nothing when the hash is taken; an entry that continues from the head of a block keeps the store linked |
| `SqliteStores.SqliteStore.Revoke` | implementations/go/internal/store/sqlite.go:230-239 | Marks the row if there is one; no error otherwise |
| `SqliteStores.SqliteStore.Hashes` | implementations/go/internal/store/sqlite.go:241-257 | The head column of each block, which while chains are linked is its head |
| `SqliteStores.DbLockstep` | implementations/go/internal/store/sqlite.go:59-257 | Over every run that adds new blocks and signs and revokes known ones under unused hashes, the answers are those of the in-memory store |
| `LedgerStores.SoundIsWellChained` | implementations/python/gpgchain/chain/hashing.py:40-65 | The chain of a sound block that passes the chain check is linked under distinct hashes, or two texts have the same digest |
| `LedgerStores.OnHeadExtends` | implementations/go/internal/api/api.go:279-322 | An entry that passes the checks of the handlers and continues from the head extends the chain under a hash not in it, or two texts have the same digest |
| `LedgerStores.ChainsApart` | implementations/go/internal/chain/block.go:37-75 | The chains of two keys have no hash in common, or two texts have the same digest |
| `LedgerStores.WriteIsAdmissible` | implementations/go/internal/store/sqlite.go:59-257 | Each such write adds a new block or entry under an unused hash to a block that is there, as the stores ask, or two texts have the same digest |
| `LedgerStores.HandlersKeepLockstep` | implementations/go/internal/api/api.go:180-364 | Over every run of such writes and of reads the ledger stays in good order and both persistent stores run in lockstep with the in-memory one, or two texts have the same digest |
| `LedgerRules.DomainAllowed` | implementations/go/internal/api/api.go:140-149 | Whether some domain of the key equals some domain of the list |
| `LedgerRules.OneListedSuffices` | implementations/go/internal/api/api.go:140-149 | One listed domain is enough, whatever other addresses the key has |
| `LedgerRules.GenuineStays` | implementations/go/internal/api/api.go:279-298 | A signature that verified keeps verifying as the ledger grows |
| `LedgerRules.ApplySound` | implementations/go/internal/api/api.go:180-364 | Each checked event keeps every block, entry and revocation verifying, every signer without an inline key on the ledger, and one entry a signer |
| `LedgerRules.RunKeeps` | implementations/go/internal/api/api.go:180-764 | Over every run: the ledger stays sound, no block is lost, no fixed field changes, chains only grow by appending, revocations stay |
| `LedgerRules.ApplyKeepsChains` | implementations/go/internal/api/api.go:703-720 | An event keeps every chain intact if and only if an appended entry continues from the head |
| `LedgerRules.RunKeepsChains` | implementations/go/internal/api/api.go:308-322 | After any run every chain is intact if and only if every entry appended continued from the head |
| `LedgerRules.BrokenStaysBroken` | implementations/go/internal/api/api.go:180-764 | No event mends a chain that is not intact |
| `Handlers.HandleAddBlock` | implementations/go/internal/api/api.go:180-246 | Created exactly for keys that parse, are strong, verify, are new and have an e-mail domain of which one is listed, unless any is taken; stores that one block. Forbidden exactly for a readable key without a listed domain, Conflict exactly for one that is known |
| `Handlers.Signs` | implementations/go/internal/api/api.go:301-306 | Whether some entry is by the signer |
| `Handlers.HandleSignBlock` | implementations/go/internal/api/api.go:248-327 | Ok exactly for a verified first signature by a known or inline strong key on a block not revoked; the entry holds the fields of the request and continues from the head. NotFound exactly for an unknown block, Conflict exactly for a revoked block or a second signature that verifies |
| `Handlers.HandleRevokeBlock` | implementations/go/internal/api/api.go:329-364 | Ok exactly for a revocation that the key of a block not revoked has signed; the other answers for exactly an empty signature, an unknown block, a revoked one and a signature that does not verify |
| `Handlers.HandleP2PReceiveBlock` | implementations/go/internal/api/api.go:561-634 | Accepts exactly keys that check out, with a listed domain unless any is taken, and under the claimed hash; a known key changes nothing |
| `Handlers.SenderKey` | implementations/go/internal/api/api.go:670-688 | The inline key, or that of the block of the signer, which if missing is fetched from whichever peer has it |
| `Handlers.HandleP2PReceiveSig` | implementations/go/internal/api/api.go:636-726 | Accepts exactly what checks out against the keys on the ledger after the fetch; the key of the signer is among them if it was before or if any peer, whatever its place, has it. Where it was known, or the first peer is well kept, that is decided by the keys before, or of that peer. No other block that was there changes; the sender chooses prev_hash |
| `Handlers.HandleP2PReceiveRevoke` | implementations/go/internal/api/api.go:728-764 | As from a client, a repeated one being accepted without effect |
| `Handlers.LedgersAreSound` | implementations/go/internal/api/api.go:180-764 | Whatever any run of checked events stores from an empty ledger is sound, and from any point on nothing is lost |
| `Handlers.ServeOne` | implementations/go/internal/api/api.go:180-764 | Each request is answered as its handler answers it, a sync does what a sync does, and the ledger changes by checked events only |
| `Handlers.Serve` | implementations/go/internal/api/api.go:180-764 | Any requests in any order are answered one after the other, each on the ledger the one before left, and are one run of checked events: a sound ledger stays sound, nothing is lost, and intact chains stay so if and only if every entry of the run continued from the head, as it does while no other node chooses a prev_hash |
| `PeerSync.PeerEntryVerifies` | implementations/go/internal/p2p/p2p.go:438-449 | An entry of a well-kept peer verifies on every local ledger that agrees with the peer and knows the signer |
| `PeerSync.SignerInPrefix` | implementations/go/internal/p2p/p2p.go:401-414 | The signer of an entry is among those of a prefix of the chain exactly when the prefix contains the entry |
| `PeerSync.FetchAndStoreBlock` | implementations/go/internal/p2p/p2p.go:305-316 | No block there before changes; a block whose key checks out arrives, with every entry that verifies under a key at hand or to be had from the peer, and nothing changes if the peer has none under the fingerprint; with a well-kept peer the block and everything fetched with it arrive with their whole chains |
| `PeerSync.ValidateAndStore` | implementations/go/internal/p2p/p2p.go:331-375 | Afterwards the block is there if its key parses, is strong, has a listed domain and signed it, and otherwise nothing has changed; only genuine blocks are stored, each with the entries that verify; the recursion ends even where keys sign each other in cycles |
| `PeerSync.ApplySigEntries` | implementations/go/internal/p2p/p2p.go:395-468 | Whatever the peer: appends only entries it was given, in their order and with the prev_hash they have, verified and by new signers, and leaves out none that verifies under a key at hand or to be had from the peer and whose claimed hash is right, whichever others are refused; no other block that was there changes; a prefix of the chain of a well-kept peer becomes the whole chain |
| `PeerSync.SettledArrives` | implementations/go/internal/p2p/p2p.go:407-468 | What having dealt with all entries means: the signer of each entry that verifies with a key within reach is among those of the block |
| `PeerSync.SettledStays` | implementations/go/internal/p2p/p2p.go:407-468 | An entry that has been dealt with stays so as the ledger grows |
| `PeerSync.ProgressOn` | implementations/go/internal/p2p/p2p.go:305-468 | Two steps that lose nothing and bring new blocks made from blocks of the peer, with all their entries that verify, make one |
| `PeerSync.OwnBlockSettled` | implementations/go/internal/p2p/p2p.go:305-375 | From a peer that holds each acceptable block under its own fingerprint, every new block is made from the one there and has all of its entries that verify with a key within reach |
| `PeerSync.ResolveSigner` | implementations/go/internal/p2p/p2p.go:422-436 | The inline key, or the one of the signer block, fetched if missing; found whenever it is at hand or the peer has it |
| `PeerSync.StoreEntry` | implementations/go/internal/p2p/p2p.go:438-460 | Stores the entry exactly when its signature verifies and its claimed hash, if any, is the computed one |
| `PeerSync.SyncWithPeer` | implementations/go/internal/p2p/p2p.go:230-272 | With any peer: afterwards every block of the peer whose key checks out is local; a chain that is new or had another head is extended by entries of the peer in their order, and lacks none that verifies with a key within reach; blocks the peer lacks or has with the same head are as they were. With a well-kept, linked peer and local chains that are prefixes: every block of the peer is local with the same chain and head. In any order of the hash map |
| `PeerSync.SyncKeepsLinked` | implementations/go/internal/p2p/p2p.go:230-272 | Such a sync leaves every chain linked |
| `PeerSync.FetchBlockFromPeers` | implementations/go/internal/p2p/p2p.go:320-329 | Asks the peers in order, going on only while the block is not there, and reports whether it is; succeeds if any peer, whatever the others do, has a block of that key that checks out, and changes nothing if none has an acceptable one under the fingerprint |
| `Gossips.PeerList.Add` | implementations/go/internal/p2p/p2p.go:42-55 | No repetitions, never beyond the capacity; fails exactly for a new peer when full |
| `Gossips.PeerList.Contains` | implementations/go/internal/p2p/p2p.go:63-72 | Whether the peer is known |
| `Gossips.Gossip.PickTargets` | implementations/go/internal/p2p/p2p.go:157-171 | Distinct peers other than the origin, as many as the fanout allows |
| `Gossips.Gossip.Forward` | implementations/go/internal/p2p/p2p.go:186-195 | Marks an event as seen, and sends it to good targets exactly if it was not seen before |
| `Gossips.HandlesProper` | implementations/go/internal/p2p/p2p.go:173-219 | When a node handles an event as Forward does, it still holds that it has seen exactly the events it had seen at the start or has handled, and that only first calls sent anything |
| `Gossips.RightCallsSendOnce` | implementations/go/internal/p2p/p2p.go:126-135 | So of two calls for one event at one node the later sends nothing |
| `Gossips.RunAccounts` | implementations/go/internal/p2p/p2p.go:137-220 | Along a run of any events, messages in flight and steps taken are accounted for by what was sent |
| `Gossips.SentAtMost` | implementations/go/internal/p2p/p2p.go:157-171 | The messages sent are at most fanout for each pair of a node and an event it has handled |
| `Gossips.GossipIsBounded` | implementations/go/internal/p2p/p2p.go:137-220 | A node has seen exactly the events it had seen or has handled; it sends each on at most once, one message to each of at most fanout distinct peers and none to the origin told; each event is sent at most fanout x nodes times, and every run ends |
| `Discovery.ContainsDomain` | implementations/go/internal/discovery/discovery.go:144-151 | Whether some domain of the list, at any place, is the one wanted |
| `Discovery.KindOf` | implementations/go/internal/discovery/discovery.go:124-130 | A node is of the wanted domain if one is wanted and is anywhere in its list; it takes any domain if it is not, a domain is wanted, and it says so |
| `Discovery.EnqueueNode` | implementations/go/internal/discovery/discovery.go:118-131 | A node not seen before goes to the queue of its kind; others change nothing |
| `Discovery.EnqueuePeers` | implementations/go/internal/discovery/discovery.go:116-142 | Queues exactly the announced URLs not seen before, each behind the queue its first announcement has earned it, in the order of the list |
| `Discovery.NextNode` | implementations/go/internal/discovery/discovery.go:153-167 | Takes the first URL of the first queue that has one, and leaves the other queues alone |
| `Discovery.FirstComesNext` | implementations/go/internal/discovery/discovery.go:9-10 | That URL comes next: no URL heard of and not yet contacted is of a better kind |
| `Discovery.StillByKind` | implementations/go/internal/discovery/discovery.go:116-142 | Each waiting URL stays in the queue of its kind, which the first node to announce it decided |
| `Discovery.FirstHasWaited` | implementations/go/internal/discovery/discovery.go:153-167 | Of the URLs of its kind that wait, the one taken was heard of first |
| `Discovery.AllStillInOrder` | implementations/go/internal/discovery/discovery.go:116-142 | Each queue stays in the order in which its URLs were first heard of: by seed, then by node contacted, then by place in its list |
| `Discovery.QueueSeeds` | implementations/go/internal/discovery/discovery.go:237-243 | Queues each valid seed once, in the order given |
| `Discovery.SearchCovers` | implementations/go/internal/discovery/discovery.go:245-286 | A search that ran out of queue or of room contacted only reachable nodes, none twice, each while at most maxNodes URLs had been heard of; it went on until all of those were contacted or more than maxNodes were heard of |
| `Discovery.CoversAllIfFew` | implementations/go/internal/discovery/discovery.go:216 | It contacted every reachable node if and only if at most maxNodes are reachable |
| `Discovery.CrowdedSeed` | implementations/go/internal/discovery/discovery.go:245 | A lone seed that with the nodes it announces makes more than maxNodes URLs is the only node contacted |
| `Discovery.OnlyTheSeed` | implementations/go/internal/discovery/discovery.go:245 | For each maxNodes of at least 1, nodes of which more are reachable and one is contacted |
| `Discovery.OneTurn` | implementations/go/internal/discovery/discovery.go:245-286 | One turn of the loop keeps all that holds at its head: what has been heard of, the queues by kind and in order of hearing, the order of contacts and the room |
| `Discovery.BestCopy` | implementations/go/internal/discovery/discovery.go:173-181 | The first of the longest chains |
| `Discovery.Accumulate` | implementations/go/internal/discovery/discovery.go:254-262 | Keeps for each fingerprint the first of the longest chains among all blocks received |
| `Discovery.ScoreNow` | implementations/go/internal/discovery/discovery.go:265-266 | The path score over the accumulated blocks |
| `Discovery.OneScoreAfter` | implementations/go/internal/discovery/discovery.go:254-266 | The score after some contacts is determined by them |
| `Discovery.FindBlock` | implementations/go/internal/discovery/discovery.go:221-312 | Contacts nodes by kind and, within a kind, in the order in which they were heard of, as many as the rule above says unless the threshold is met; it stops at the first contact that meets it, and one that did not stop never met it; returns all copies, the first of the longest, the score of the accumulated blocks, and as nodesTried the number of URLs heard of |
| `Discovery.DomainFromEmail` | implementations/go/internal/discovery/discovery.go:191-196 | What follows the last at-sign |
| `Discovery.KeepBest` | implementations/go/internal/discovery/discovery.go:356-365 | Keeps for each upper-case fingerprint the first of the copies received that have a longest chain |
| `Discovery.FindBlocksByEmail` | implementations/go/internal/discovery/discovery.go:319-378 | Contacts nodes by kind and, within a kind, in the order in which they were heard of, as many as the rule above says, keeps the first of the longest chains for each fingerprint, and returns the number of URLs heard of |

## Left out

- HTTP, JSON, status codes beyond those in `Handlers.Status`, logging, files and SQL as such, DNS and address checks.
- OpenPGP parsing and signature verification (RFC 4880 section 5.2) and SHA-256: parameters. Verification does not depend on time, so clock skew is not modelled.
- UTF-8 encoding: text is a sequence of characters and is joined as such.
- The 64-bit width of Go's integers: all numbers modelled are counts, depths or timestamps that stay far below it. The bound of 2^30 on a bottleneck is kept.
- Goroutine races between `isSeen` and `markSeen` and between store calls in a handler: each is one atomic step. Expiry of seen events: a gossip run is shorter than it.
- Sorting: the intermediate keys are numbered in an arbitrary order (the results are proved for each), and the Python trusted set is a set, not a sorted list.
- Peers that come and go while gossip runs: in `Gossips` the peer lists are fixed during a run.
- The first breadth-first loop of implementations/go/internal/trust/trust.go:131-148, which has no effect.
- TrustScores.ForwardScore: one text of the disjoint loops serves both implementations; they differ in the lists they run over and in the keys they skip. Python has no bound of 2^30 on a bottleneck.
- TrustScores.ForwardTrustedSet: the seen-set and the depths in the queue are one distance map, and the search is the one of the disjoint scorer.
- EdmondsKarp.FindPath: `prev` is a sequence that the loop reassigns, not an array updated in place.
- MemoryStores.MemoryStore.Get: blocks are values, so the copies the Go store makes, and callers of the Python stores who alter a block they were handed, are not modelled.
- ChainRebuild.RebuildBackward: only where the walk from every tip ends; from a tip whose walk comes round the loop of the code does not end (`ChainRebuild.WalkEnds`), and which tip is taken is up to the order of a map.
- DirStores.Lockstep: a block added with a chain is stored without it (`DirStores.DirStore.Add`), unlike in memory; no handler does that (`LedgerStores.HandlersKeepLockstep`).
- SqliteStores.DbLockstep: likewise, and signing or revoking a missing block is no error for this store (`SqliteStores.SqliteStore.AddSig`, `Revoke`); the handlers sign and revoke blocks that are there.
- PeerSync.SyncWithPeer: pushing local blocks to the peer is left out, as it does not change the local ledger. Where chains have forked the heads need not come to agree, and sync does not look at `Revoked` and carries no revocations.
- Gossips.Gossip.PickTargets: any choice of peers is allowed; that it is random is not modelled.
- Discovery.FindBlock: timeouts and errors are nodes that do not answer.
- `CrossValidate`, peer metadata, peer registration, search over user ids, the e-mail domain expressions, key strength, the command line, deployment.
- Trust across ledgers through `source_node`, and keyring trust: specified in spec/trust.md but not implemented.
- The Python routes, sync, gossip and discovery: near twins of the Go code.
