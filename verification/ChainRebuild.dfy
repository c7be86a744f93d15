/** Putting an unordered set of chain entries back in order: forward from the block hash, and backward from
    the entry nothing refers to. */
module ChainRebuild {
  import opened Ledger
  import opened SigningGraph

  function EntrySet(entries: seq<SigEntry>): set<SigEntry> {
    set e | e in entries
  }

  lemma PrevUnique(start: Hash, c: seq<SigEntry>, i: nat, j: nat)
    requires IsChain(start, c) && i < |c| && j <= |c| && c[i].prevHash == PrevOf(start, c, j)
    ensures i == j
  {
    assert Follows(start, c, i);
  }

  // ---------- forward ----------

  /** `ordered` runs from `start` over entries that continue from one another, goes on from no hash twice, and stops
      only where nothing continues or at a hash it has passed. */
  ghost predicate ForwardRun(start: Hash, entries: set<SigEntry>, ordered: seq<SigEntry>) {
    && LinkedFrom(start, ordered) && (forall e :: e in ordered ==> e in entries)
    && (forall i, j :: 0 <= i < j < |ordered| ==> ordered[i].prevHash != ordered[j].prevHash)
    && var last := PrevOf(start, ordered, |ordered|);
       || (forall e :: e in entries ==> e.prevHash != last)
       || (exists i :: 0 <= i < |ordered| && PrevOf(start, ordered, i) == last)
  }

  /** The file-based store's walk: for each hash the entry that continues from it (the last one listed wins),
      followed from the block hash until nothing continues or a hash comes round again. */
  method RebuildForward(start: Hash, files: seq<SigEntry>) returns (ordered: seq<SigEntry>)
    ensures ForwardRun(start, EntrySet(files), ordered)
  {
    var byPrev: map<Hash, SigEntry> := map[];
    for k := 0 to |files|
      invariant forall e :: e in files[..k] ==> e.prevHash in byPrev
      invariant forall h :: h in byPrev ==> byPrev[h] in files && byPrev[h].prevHash == h
    {
      byPrev := byPrev[files[k].prevHash := files[k]];
      assert files[..k + 1] == files[..k] + [files[k]];
    }
    assert files[..|files|] == files;
    ordered := [];
    var current := start;
    var visited: set<Hash> := {};
    while current in byPrev
      invariant LinkedFrom(start, ordered) && forall e :: e in ordered ==> e in files
      invariant current == PrevOf(start, ordered, |ordered|)
      invariant visited <= byPrev.Keys
      invariant forall h :: h in visited ==> exists i :: 0 <= i < |ordered| && PrevOf(start, ordered, i) == h
      invariant forall i :: 0 <= i < |ordered| ==> ordered[i].prevHash in visited
      invariant forall i, j :: 0 <= i < j < |ordered| ==> ordered[i].prevHash != ordered[j].prevHash
      decreases byPrev.Keys - visited
    {
      if current in visited {
        break;
      }
      visited := visited + {current};
      var entry := byPrev[current];
      ghost var before := ordered;
      ordered := ordered + [entry];
      assert PrevOf(start, ordered, |before|) == current;
      forall i | 0 <= i < |ordered| ensures Follows(start, ordered, i) {
        if i < |before| { assert Follows(start, before, i); }
      }
      forall h | h in visited ensures exists i :: 0 <= i < |ordered| && PrevOf(start, ordered, i) == h {
        if h != current {
          var i :| 0 <= i < |before| && PrevOf(start, before, i) == h;
          assert PrevOf(start, ordered, i) == h;
        }
      }
      current := entry.hash;
    }
  }

  /** What the forward walk returns for the entries of a chain is the chain, whatever order they come in. */
  lemma ForwardIsChain(start: Hash, c: seq<SigEntry>, r: seq<SigEntry>)
    requires IsChain(start, c) && ForwardRun(start, EntrySet(c), r)
    ensures r == c
  {
    PrefixOfChain(start, c, r, |r|);
    assert |r| < |c| ==> c[|r|] in c && Follows(start, c, |r|);
  }

  lemma {:induction false} PrefixOfChain(start: Hash, c: seq<SigEntry>, r: seq<SigEntry>, n: nat)
    requires IsChain(start, c) && LinkedFrom(start, r) && n <= |r| && forall e :: e in r ==> e in c
    ensures n <= |c| && forall i :: 0 <= i < n ==> r[i] == c[i]
  {
    if n > 0 {
      PrefixOfChain(start, c, r, n - 1);
      assert Follows(start, r, n - 1) && r[n - 1] in c;
      var j :| 0 <= j < |c| && c[j] == r[n - 1];
      PrevUnique(start, c, j, n - 1);
    }
  }

  // ---------- backward ----------

  /** The row map of the database store. */
  ghost predicate ByHash(rows: set<SigEntry>, m: map<Hash, SigEntry>) {
    && (forall e :: e in rows ==> e.hash in m)
    && (forall h :: h in m ==> m[h] in rows && m[h].hash == h)
  }

  /** No two different rows share a hash. */
  ghost predicate DistinctHashes(rows: set<SigEntry>) {
    forall e, f :: e in rows && f in rows && e.hash == f.hash ==> e == f
  }

  /** Each entry has a higher rank than the one it continues from. */
  ghost predicate Acyclic(rows: set<SigEntry>, rank: map<Hash, nat>) {
    && (forall e :: e in rows ==> e.hash in rank)
    && (forall e, f :: e in rows && f in rows && e.prevHash == f.hash ==> rank[f.hash] < rank[e.hash])
  }

  /** Some entry continues from `h`. */
  ghost predicate Referenced(rows: set<SigEntry>, h: Hash) {
    exists f :: f in rows && f.prevHash == h
  }

  ghost predicate NoTip(rows: set<SigEntry>) {
    forall e {:trigger Referenced(rows, e.hash)} :: e in rows ==> Referenced(rows, e.hash)
  }

  /** `r` runs back from an entry nothing refers to, as far as there are entries. */
  ghost predicate MaximalBranch(rows: set<SigEntry>, r: seq<SigEntry>) {
    && |r| > 0 && (forall e :: e in r ==> e in rows)
    && LinkedFrom(r[0].prevHash, r)
    && !Referenced(rows, r[|r| - 1].hash)
    && (forall e :: e in rows ==> e.hash != r[0].prevHash)
  }

  method IndexRows(rows: seq<SigEntry>) returns (byHash: map<Hash, SigEntry>)
    ensures ByHash(EntrySet(rows), byHash)
  {
    byHash := map[];
    for k := 0 to |rows|
      invariant forall e :: e in rows[..k] ==> e.hash in byHash
      invariant forall h :: h in byHash ==> byHash[h] in rows && byHash[h].hash == h
    {
      byHash := byHash[rows[k].hash := rows[k]];
      assert rows[..k + 1] == rows[..k] + [rows[k]];
    }
    assert rows[..|rows|] == rows;
  }

  ghost predicate Pointed(byHash: map<Hash, SigEntry>, t: Hash) {
    exists h :: h in byHash && byHash[h].prevHash == t
  }

  /** Some entry whose hash no entry continues from, if there is one. */
  method FindTip(byHash: map<Hash, SigEntry>) returns (found: bool, tip: Hash)
    ensures found ==> tip in byHash && forall h :: h in byHash ==> byHash[h].prevHash != tip
    ensures !found ==> forall t {:trigger Pointed(byHash, t)} :: t in byHash ==> Pointed(byHash, t)
  {
    var referenced := set h | h in byHash :: byHash[h].prevHash;
    var todo := byHash.Keys;
    found, tip := false, "";
    while todo != {}
      invariant todo <= byHash.Keys
      invariant forall t :: t in byHash && t !in todo ==> t in referenced
    {
      var h :| h in todo;
      if h !in referenced {
        return true, h;
      }
      todo := todo - {h};
    }
  }

  /** Swaps the ends, working inward. */
  method ReverseInPlace(a: array<SigEntry>)
    modifies a
    ensures a[..] == Reverse(old(a[..]))
  {
    var i, j := 0, a.Length - 1;
    while i < j
      invariant 0 <= i <= a.Length && i + j == a.Length - 1 && i <= j + 1
      invariant forall k :: 0 <= k < i || j < k < a.Length ==> a[k] == old(a[a.Length - 1 - k])
      invariant forall k :: i <= k <= j ==> a[k] == old(a[k])
    {
      a[i], a[j] := a[j], a[i];
      i, j := i + 1, j - 1;
    }
  }

  /** `back` runs back from `tip` over `prevHash`. */
  ghost predicate BackFrom(rows: set<SigEntry>, tip: SigEntry, back: seq<SigEntry>) {
    && |back| > 0 && back[0] == tip && (forall e :: e in back ==> e in rows)
    && (forall i {:trigger StepsBack(back, i)} :: 0 <= i < |back| - 1 ==> StepsBack(back, i))
  }

  predicate StepsBack(back: seq<SigEntry>, i: nat)
    requires i < |back| - 1
  {
    back[i].prevHash == back[i + 1].hash
  }

  /** It has gone as far as there are rows. */
  ghost predicate Complete(rows: set<SigEntry>, back: seq<SigEntry>)
    requires |back| > 0
  {
    forall e :: e in rows ==> e.hash != back[|back| - 1].prevHash
  }

  /** Some walk back from `tip` returns to an entry it has passed. */
  ghost predicate ComesRound(rows: set<SigEntry>, tip: SigEntry) {
    exists back, i :: BackFrom(rows, tip, back) && Closes(back, i)
  }

  predicate Closes(back: seq<SigEntry>, i: int) {
    0 <= i < |back| && back[|back| - 1].prevHash == back[i].hash
  }

  lemma BackLonger(rows: set<SigEntry>, tip: SigEntry, back: seq<SigEntry>, e: SigEntry)
    requires BackFrom(rows, tip, back) && e in rows && back[|back| - 1].prevHash == e.hash
    ensures BackFrom(rows, tip, back + [e])
  {
    forall i | 0 <= i < |back| ensures StepsBack(back + [e], i) {
      if i < |back| - 1 { assert StepsBack(back, i); }
    }
  }

  /** While a walk does not come round it passes no entry twice, and is no longer than there are rows. */
  lemma NothingTwice(rows: set<SigEntry>, tip: SigEntry, back: seq<SigEntry>)
    requires BackFrom(rows, tip, back) && !ComesRound(rows, tip)
    ensures NoRepeats(back) && |back| <= |rows|
  {
    forall i, j | 0 <= i < j < |back| ensures back[i] != back[j] {
      var shorter := back[..j];
      assert StepsBack(back, j - 1);
      forall k | 0 <= k < j - 1 ensures StepsBack(shorter, k) {
        assert StepsBack(back, k);
      }
      assert BackFrom(rows, tip, shorter) && !Closes(shorter, i);
    }
    NoRepeatsSize(back, rows);
  }

  method WalkBack(ghost rows: set<SigEntry>, byHash: map<Hash, SigEntry>, tip: SigEntry) returns (back: seq<SigEntry>)
    requires ByHash(rows, byHash) && tip in rows && !ComesRound(rows, tip)
    ensures BackFrom(rows, tip, back) && Complete(rows, back)
  {
    back := [tip];
    var cur := tip;
    NothingTwice(rows, tip, back);
    while cur.prevHash in byHash
      invariant BackFrom(rows, tip, back) && cur == back[|back| - 1] && |back| <= |rows|
      decreases |rows| - |back|
    {
      cur := byHash[cur.prevHash];
      BackLonger(rows, tip, back, cur);
      back := back + [cur];
      NothingTwice(rows, tip, back);
    }
  }

  /** Two walks back from one entry are the same as far as both go. */
  lemma {:induction false} SameWalk(rows: set<SigEntry>, tip: SigEntry, b: seq<SigEntry>, d: seq<SigEntry>, n: nat)
    requires DistinctHashes(rows) && BackFrom(rows, tip, b) && BackFrom(rows, tip, d) && n < |b| && n < |d|
    ensures b[n] == d[n]
  {
    if n > 0 {
      SameWalk(rows, tip, b, d, n - 1);
      assert StepsBack(b, n - 1) && StepsBack(d, n - 1) && b[n] in b && d[n] in d;
    }
  }

  /** The walk ends if and only if it does not come round: from a cycle there always is a row to go on to. */
  lemma WalkEnds(rows: set<SigEntry>, tip: SigEntry)
    requires DistinctHashes(rows) && tip in rows
    ensures (exists back :: BackFrom(rows, tip, back) && Complete(rows, back)) <==> !ComesRound(rows, tip)
  {
    if ComesRound(rows, tip) {
      forall d | BackFrom(rows, tip, d) ensures !Complete(rows, d) {
        var back, i :| BackFrom(rows, tip, back) && Closes(back, i);
        if |d| < |back| {
          SameWalk(rows, tip, d, back, |d| - 1);
          assert StepsBack(back, |d| - 1) && back[|d|] in back;
        } else {
          var longer, k := CycleNeverEnds(rows, tip, back, i, |d|);
          SameWalk(rows, tip, d, longer, |d| - 1);
        }
      }
    } else {
      var d := LongestWalk(rows, tip, [tip]);
    }
  }

  lemma {:induction false} LongestWalk(rows: set<SigEntry>, tip: SigEntry, back: seq<SigEntry>)
    returns (d: seq<SigEntry>)
    requires BackFrom(rows, tip, back) && !ComesRound(rows, tip)
    ensures BackFrom(rows, tip, d) && Complete(rows, d)
    decreases |rows| - |back|
  {
    d := back;
    NothingTwice(rows, tip, back);
    if e :| e in rows && e.hash == back[|back| - 1].prevHash {
      BackLonger(rows, tip, back, e);
      NothingTwice(rows, tip, back + [e]);
      d := LongestWalk(rows, tip, back + [e]);
    }
  }

  /** If the walk comes back to an entry it has passed it can be made as long as one likes, and there always is a row
      to go on to. */
  lemma {:induction false} CycleNeverEnds(rows: set<SigEntry>, tip: SigEntry, back: seq<SigEntry>, i: nat, n: nat)
    returns (longer: seq<SigEntry>, k: nat)
    requires BackFrom(rows, tip, back) && n >= |back| && Closes(back, i)
    ensures BackFrom(rows, tip, longer) && |longer| == n && !Complete(rows, longer)
    ensures k < |back| && longer[n - 1] == back[k]
    decreases n
  {
    if n == |back| {
      longer, k := back, n - 1;
      assert back[i] in back;
    } else {
      longer, k := CycleNeverEnds(rows, tip, back, i, n - 1);
      var next := if k == |back| - 1 then i else k + 1;
      assert k < |back| - 1 ==> StepsBack(back, k);
      assert next < |back| - 1 ==> StepsBack(back, next);
      assert back[next] in back && back[i] in back && (next < |back| - 1 ==> back[next + 1] in back);
      BackLonger(rows, tip, longer, back[next]);
      longer, k := longer + [back[next]], next;
    }
  }

  /** Where entries have ranks no walk comes round. */
  lemma RankedEnds(rows: set<SigEntry>, rank: map<Hash, nat>, tip: SigEntry)
    requires Acyclic(rows, rank)
    ensures !ComesRound(rows, tip)
  {
    forall back, i | BackFrom(rows, tip, back) && 0 <= i < |back| ensures !Closes(back, i) {
      RanksFall(rows, rank, tip, back, i, |back| - 1);
      assert back[i] in back && back[|back| - 1] in back;
    }
  }

  lemma {:induction false} RanksFall(rows: set<SigEntry>, rank: map<Hash, nat>, tip: SigEntry, back: seq<SigEntry>,
                                     i: nat, j: nat)
    requires Acyclic(rows, rank) && BackFrom(rows, tip, back) && i <= j < |back|
    ensures back[i] in rows && back[j] in rows && rank[back[j].hash] <= rank[back[i].hash]
  {
    assert back[i] in back && back[j] in back;
    if i < j {
      RanksFall(rows, rank, tip, back, i, j - 1);
      assert StepsBack(back, j - 1);
    }
  }

  lemma BranchReversed(rows: set<SigEntry>, tip: SigEntry, back: seq<SigEntry>)
    requires BackFrom(rows, tip, back) && Complete(rows, back)
    requires !Referenced(rows, tip.hash)
    ensures MaximalBranch(rows, Reverse(back))
  {
    var r := Reverse(back);
    forall i | 0 <= i < |r| ensures r[i] in rows && Follows(r[0].prevHash, r, i) {
      assert r[i] == back[|back| - 1 - i] && r[i] in back;
      if i > 0 { assert StepsBack(back, |back| - 1 - i); }
    }
  }

  /** `r` is what the walk can make of the rows: a branch from some tip, or nothing if there is none. */
  ghost predicate BackwardRead(rows: set<SigEntry>, r: seq<SigEntry>) {
    if r == [] then NoTip(rows) else MaximalBranch(rows, r)
  }

  /** From no entry that nothing refers to does the walk come round. */
  ghost predicate AllWalksEnd(rows: set<SigEntry>) {
    forall tip :: tip in rows && !Referenced(rows, tip.hash) ==> !ComesRound(rows, tip)
  }

  /** The database store's walk: from a tip, any one, back over `prevHash` while there is a row, then reversed. The
      hash is the primary key, so no two rows share one. */
  method RebuildBackward(rows: seq<SigEntry>) returns (ordered: seq<SigEntry>)
    requires DistinctHashes(EntrySet(rows)) && AllWalksEnd(EntrySet(rows))
    ensures BackwardRead(EntrySet(rows), ordered)
  {
    ghost var all := EntrySet(rows);
    var byHash := IndexRows(rows);
    var found, tip := FindTip(byHash);
    TipInRows(all, byHash, found, tip);
    if !found {
      return [];
    }
    var back := WalkBack(all, byHash, byHash[tip]);
    BranchReversed(all, byHash[tip], back);
    var a := new SigEntry[|back|](i requires 0 <= i < |back| => back[i]);
    assert a[..] == back;
    ReverseInPlace(a);
    ordered := a[..];
  }

  lemma TipInRows(rows: set<SigEntry>, byHash: map<Hash, SigEntry>, found: bool, tip: Hash)
    requires ByHash(rows, byHash) && DistinctHashes(rows)
    requires found ==> tip in byHash && forall h :: h in byHash ==> byHash[h].prevHash != tip
    requires !found ==> forall t {:trigger Pointed(byHash, t)} :: t in byHash ==> Pointed(byHash, t)
    ensures found ==> byHash[tip] in rows && byHash[tip].hash == tip && !Referenced(rows, tip)
    ensures found <==> !NoTip(rows)
  {
    if found {
      forall e | e in rows ensures e.prevHash != tip {
        assert byHash[e.hash] == e;
      }
      assert byHash[tip] in rows && byHash[tip].hash == tip;
    } else {
      forall e | e in rows ensures Referenced(rows, e.hash) {
        assert Pointed(byHash, e.hash);
        var h :| h in byHash && byHash[h].prevHash == e.hash;
        assert byHash[h] in rows;
      }
    }
  }

  /** For the entries of a chain, in any order, the backward walk gives the chain. */
  lemma BackwardIsChain(start: Hash, rows: set<SigEntry>, c: seq<SigEntry>, r: seq<SigEntry>)
    requires IsChain(start, c) && rows == EntrySet(c) && MaximalBranch(rows, r)
    ensures r == c
  {
    assert r[|r| - 1] in c;
    var j :| 0 <= j < |c| && c[j] == r[|r| - 1];
    assert j + 1 < |c| ==> Follows(start, c, j + 1);
    SuffixOfChain(start, rows, c, r, |r|);
    var k := |c| - |r|;
    assert c[k] == r[0];
    assert Follows(start, c, k);
  }

  lemma {:induction false} SuffixOfChain(start: Hash, rows: set<SigEntry>, c: seq<SigEntry>, r: seq<SigEntry>, n: nat)
    requires IsChain(start, c) && rows == EntrySet(c) && 0 < n <= |r| && |c| > 0
    requires (forall e :: e in r ==> e in rows) && c[|c| - 1] == r[|r| - 1]
    requires LinkedFrom(r[0].prevHash, r)
    ensures n <= |c| && forall k :: |r| - n <= k < |r| ==> r[k] == c[|c| - |r| + k]
  {
    if n > 1 {
      SuffixOfChain(start, rows, c, r, n - 1);
      var e := r[|r| - n];
      assert e in r && e in c;
      var j :| 0 <= j < |c| && c[j] == e;
      var k := |c| - n + 1;
      assert Follows(r[0].prevHash, r, |r| - n + 1) && c[k] == r[|r| - n + 1];
      assert Follows(start, c, k);
    }
  }

  /** A chain's places are ranks, so the backward walk ends. */
  lemma ChainIsAcyclic(start: Hash, rows: set<SigEntry>, c: seq<SigEntry>) returns (rank: map<Hash, nat>)
    requires IsChain(start, c) && rows == EntrySet(c)
    ensures Acyclic(rows, rank) && DistinctHashes(rows)
    ensures NoTip(rows) ==> c == []
  {
    rank := RankOf(c);
    forall e, f | e in rows && f in rows && e.prevHash == f.hash ensures rank[f.hash] < rank[e.hash] {
      var i :| 0 <= i < |c| && c[i] == e;
      var j :| 0 <= j < |c| && c[j] == f;
      assert Follows(start, c, i);
    }
    if c != [] {
      var last := c[|c| - 1];
      forall f | f in rows ensures f.prevHash != last.hash {
        var i :| 0 <= i < |c| && c[i] == f;
        assert Follows(start, c, i);
      }
      assert last in rows && !Referenced(rows, last.hash);
    }
  }

  ghost function RankOf(c: seq<SigEntry>): (rank: map<Hash, nat>)
    requires forall i, j :: 0 <= i < j < |c| ==> c[i].hash != c[j].hash
    ensures forall i :: 0 <= i < |c| ==> c[i].hash in rank && rank[c[i].hash] == i
  {
    if |c| == 0 then map[] else RankOf(c[..|c| - 1])[c[|c| - 1].hash := |c| - 1]
  }
}
