/** Fetching blocks and chains from a peer: three mutually recursive methods over the local store, and why
    syncing with a well-kept peer that does not change ends with the peer's chains. */
module PeerSync {
  import opened SigningGraph
  import opened Ledger
  import opened Payloads
  import opened Hashing
  import opened MemoryStores
  import opened LedgerRules

  /** The fingerprints of the keys a peer holds: what can still be fetched is what bounds the recursion. */
  ghost function Offered(c: Crypto, peer: Contents): set<Fp> {
    set b | b in peer.Values && c.parse(b.armoredKey).Some? :: c.parse(b.armoredKey).value.0
  }

  // ---------- well-kept peers ----------

  /** The local ledger and the peer agree on the blocks both have, as far as the local chains go. */
  ghost predicate AgreesAt(s: Contents, peer: Contents, fp: Fp)
    requires fp in s && fp in peer
  {
    Fixed(s[fp]) == Fixed(peer[fp]) && s[fp].sigEntries <= peer[fp].sigEntries
  }

  ghost predicate Agrees(s: Contents, peer: Contents) {
    forall fp {:trigger AgreesAt(s, peer, fp)} :: fp in s && fp in peer ==> AgreesAt(s, peer, fp)
  }

  /** The local block has the peer's whole chain. */
  ghost predicate CompleteAt(s: Contents, peer: Contents, fp: Fp) {
    fp in s && fp in peer && Fixed(s[fp]) == Fixed(peer[fp]) && s[fp].sigEntries == peer[fp].sigEntries
  }

  /** Blocks that are in `t` but not in `s` have the peer's whole chain. */
  ghost predicate NewComplete(s: Contents, t: Contents, peer: Contents) {
    forall fp {:trigger CompleteAt(t, peer, fp)} :: fp in t && fp !in s ==> CompleteAt(t, peer, fp)
  }

  /** Every block of the peer verifies, signers included, and the node takes their domains. */
  ghost predicate WellKept(c: Crypto, cfg: Config, peer: Contents) {
    Sound(c, peer) && forall fp :: fp in peer ==> TakesDomains(cfg, c.domains(peer[fp].uids))
  }

  /** The key of a block checks out and the node takes its domains. */
  ghost predicate Acceptable(c: Crypto, cfg: Config, data: Block) {
    && c.parse(data.armoredKey).Some? && c.strong(data.armoredKey)
    && TakesDomains(cfg, c.domains(c.parse(data.armoredKey).value.1))
    && c.verify(SubmitPayload(c.sha, c.parse(data.armoredKey).value.0, data.armoredKey, data.submitTimestamp),
                data.selfSig, data.armoredKey)
  }

  /** The peer has such a block under the fingerprint. */
  ghost predicate HasAcceptable(c: Crypto, cfg: Config, peer: Contents, fp: Fp) {
    fp in peer && Acceptable(c, cfg, peer[fp])
  }

  /** And it is that key's block. */
  ghost predicate Offers(c: Crypto, cfg: Config, peer: Contents, fp: Fp) {
    HasAcceptable(c, cfg, peer, fp) && c.parse(peer[fp].armoredKey).value.0 == fp
  }

  /** The blocks `s` has other than `fp` are the same in `t`. */
  ghost predicate OthersKept(s: Contents, t: Contents, fp: Fp) {
    forall f :: f in s && f != fp ==> f in t && t[f] == s[f]
  }

  ghost predicate AllKept(s: Contents, t: Contents) {
    forall f :: f in s ==> f in t && t[f] == s[f]
  }

  /** The ledger went from `s` to `t` by checked events. */
  ghost predicate Ran(c: Crypto, s: Contents, run: Run, t: Contents) {
    AllChecked(c, s, run) && After(s, run) == t
  }

  lemma RanOn(c: Crypto, s: Contents, run: Run, t: Contents, more: Run, u: Contents)
    requires Ran(c, s, run, t) && Ran(c, t, more, u)
    ensures Ran(c, s, Concat(run, more), u)
  {
    RunConcat(c, s, run, more);
  }

  lemma RanOne(c: Crypto, s: Contents, ev: Event)
    requires Checked(c, s, ev)
    ensures Ran(c, s, Then(Start, ev), Apply(s, ev))
  {
  }

  /** The entry as it is stored: under the computed hash. */
  ghost function EntryFor(c: Crypto, e: SigEntry): SigEntry {
    e.(hash := EntryHash(c.sha, e))
  }

  /** The block as it is first stored: what identifies it from the key, and nothing signed. */
  ghost function BlockFor(c: Crypto, fp: Fp, uids: seq<string>, data: Block): Block {
    var b := Fixed(data).(fingerprint := fp, uids := uids);
    b.(hash := BlockHash(c.sha, b))
  }

  // ---------- what one entry needs ----------

  /** With a well-kept peer the local signer's key is the peer's, so the peer's entry verifies. */
  lemma PeerEntryVerifies(c: Crypto, cfg: Config, s: Contents, peer: Contents, fp: Fp, i: nat)
    requires WellKept(c, cfg, peer) && Agrees(s, peer) && fp in s && fp in peer && i < |peer[fp].sigEntries|
    requires SignerKnown(s, peer[fp].sigEntries[i])
    ensures GenuineEntry(c, s, s[fp].hash, peer[fp].sigEntries[i])
    ensures EntryFor(c, peer[fp].sigEntries[i]) == peer[fp].sigEntries[i]
  {
    var e := peer[fp].sigEntries[i];
    assert SoundAt(c, peer, fp) && AgreesAt(s, peer, fp);
    assert Fixed(s[fp]).hash == Fixed(peer[fp]).hash;
    assert e in peer[fp].sigEntries;
    if e.signerArmoredKey == "" {
      assert AgreesAt(s, peer, e.signer);
      assert Fixed(s[e.signer]).armoredKey == Fixed(peer[e.signer]).armoredKey;
    }
  }

  /** A prefix of the peer's chain holds the signer of entry `i` exactly when it is longer than `i`. */
  lemma SignerInPrefix(c: Crypto, cfg: Config, s: Contents, peer: Contents, fp: Fp, i: nat)
    requires WellKept(c, cfg, peer) && fp in s && fp in peer && AgreesAt(s, peer, fp) && i < |peer[fp].sigEntries|
    ensures peer[fp].sigEntries[i].signer in SignersOf(s[fp].sigEntries) <==> i < |s[fp].sigEntries|
  {
    var e := peer[fp].sigEntries[i];
    assert SoundAt(c, peer, fp);
    if i < |s[fp].sigEntries| {
      assert s[fp].sigEntries[i] == e && e in s[fp].sigEntries;
    } else {
      forall j | 0 <= j < |s[fp].sigEntries| ensures s[fp].sigEntries[j].signer != e.signer {
        assert peer[fp].sigEntries[j] == s[fp].sigEntries[j];
      }
    }
  }

  lemma AppendAgrees(s: Contents, peer: Contents, fp: Fp, e: SigEntry)
    requires Agrees(s, peer) && fp in s && fp in peer && AgreesAt(s, peer, fp)
    requires |s[fp].sigEntries| < |peer[fp].sigEntries| && peer[fp].sigEntries[|s[fp].sigEntries|] == e
    ensures Agrees(Signed(s, fp, e), peer)
  {
    var t := Signed(s, fp, e);
    forall f | f in t && f in peer ensures AgreesAt(t, peer, f) {
      assert AgreesAt(s, peer, f);
      if f == fp { assert Fixed(t[f]) == Fixed(s[f]); }
    }
  }

  lemma NewCompleteTransitive(s: Contents, t: Contents, u: Contents, fp: Fp, peer: Contents)
    requires NewComplete(s, t, peer) && NewComplete(t, u, peer) && OthersKept(t, u, fp) && fp in s
    requires s.Keys <= t.Keys
    ensures NewComplete(s, u, peer)
  {
    forall f | f in u && f !in s ensures CompleteAt(u, peer, f) {
      if f in t { assert CompleteAt(t, peer, f); } else { assert CompleteAt(u, peer, f); }
    }
  }

  // ---------- what any peer's entries come to ----------

  /** The key of the entry's signer is at hand or can be had from the peer. */
  ghost predicate WithinReach(c: Crypto, cfg: Config, s: Contents, peer: Contents, e: SigEntry) {
    SignerKnown(s, e) || Offers(c, cfg, peer, e.signer)
  }

  /** The entry verifies, and its claimed hash, if any, is the computed one. */
  ghost predicate Storable(c: Crypto, t: Contents, blockHash: Hash, e: SigEntry) {
    GenuineEntry(c, t, blockHash, EntryFor(c, e)) && (e.hash == "" || e.hash == EntryHash(c.sha, e))
  }

  /** From `s` to `t` an entry of the peer's for block `fp` has been dealt with: its signer is among the block's, or its
      key was out of reach, or with its key at hand it cannot be stored. */
  ghost predicate Settled(c: Crypto, cfg: Config, s: Contents, t: Contents, peer: Contents, fp: Fp, e: SigEntry)
    requires fp in t
  {
    || e.signer in SignersOf(t[fp].sigEntries)
    || !WithinReach(c, cfg, s, peer, e)
    || (SignerKnown(t, e) && !Storable(c, t, t[fp].hash, e))
  }

  ghost predicate AllSettled(c: Crypto, cfg: Config, s: Contents, t: Contents, peer: Contents, fp: Fp,
                             raws: seq<SigEntry>) {
    fp in t && forall e {:trigger Settled(c, cfg, s, t, peer, fp, e)} :: e in raws ==>
      Settled(c, cfg, s, t, peer, fp, e)
  }

  /** In particular every entry that verifies with a key within reach has arrived, whatever else the peer has. */
  lemma SettledArrives(c: Crypto, cfg: Config, s: Contents, t: Contents, peer: Contents, fp: Fp, raws: seq<SigEntry>,
                       e: SigEntry)
    requires AllSettled(c, cfg, s, t, peer, fp, raws) && e in raws
    requires WithinReach(c, cfg, s, peer, e) && Storable(c, t, t[fp].hash, e)
    ensures e.signer in SignersOf(t[fp].sigEntries)
  {
    assert Settled(c, cfg, s, t, peer, fp, e);
  }

  /** What has been dealt with stays so, and was so from any earlier ledger. */
  lemma SettledStays(c: Crypto, cfg: Config, r: Contents, s: Contents, t: Contents, u: Contents, peer: Contents, fp: Fp,
                     e: SigEntry)
    requires Grown(r, s) && Grown(t, u) && fp in t && Settled(c, cfg, s, t, peer, fp, e)
    ensures fp in u && Settled(c, cfg, r, u, peer, fp, e)
  {
    assert GrownAt(t, u, fp);
    assert Fixed(t[fp]).hash == Fixed(u[fp]).hash;
    if f :| f in t[fp].sigEntries && f.signer == e.signer {
      assert f in u[fp].sigEntries;
    }
    if e.signer in t {
      assert GrownAt(t, u, e.signer);
      assert Fixed(t[e.signer]).armoredKey == Fixed(u[e.signer]).armoredKey;
    }
    if e.signer in r {
      assert GrownAt(r, s, e.signer);
    }
  }

  lemma AllSettledStays(c: Crypto, cfg: Config, r: Contents, s: Contents, t: Contents, u: Contents, peer: Contents,
                        fp: Fp, raws: seq<SigEntry>)
    requires Grown(r, s) && Grown(t, u) && AllSettled(c, cfg, s, t, peer, fp, raws)
    ensures AllSettled(c, cfg, r, u, peer, fp, raws)
  {
    assert GrownAt(t, u, fp);
    forall e | e in raws ensures Settled(c, cfg, r, u, peer, fp, e) {
      SettledStays(c, cfg, r, s, t, u, peer, fp, e);
    }
  }

  /** The chain `after` is `before` with some of the entries behind it, in their order and as they are stored. */
  ghost predicate ChainFrom(c: Crypto, before: seq<SigEntry>, after: seq<SigEntry>, raws: seq<SigEntry>) {
    if |raws| == 0 then after == before
    else
      var n, m := |raws| - 1, |after| - 1;
      || ChainFrom(c, before, after, raws[..n])
      || (m >= 0 && after[m] == EntryFor(c, raws[n]) && ChainFrom(c, before, after[..m], raws[..n]))
  }

  lemma ChainFromOneMore(c: Crypto, before: seq<SigEntry>, chain: seq<SigEntry>, after: seq<SigEntry>,
                         raws: seq<SigEntry>, i: nat)
    requires i < |raws| && ChainFrom(c, before, chain, raws[..i])
    requires after == chain || after == chain + [EntryFor(c, raws[i])]
    ensures ChainFrom(c, before, after, raws[..i + 1])
  {
    assert raws[..i + 1][..i] == raws[..i] && raws[..i + 1][i] == raws[i];
    if after != chain {
      assert after[..|after| - 1] == chain;
    }
  }

  /** The peer has an acceptable block of the key, the local one is made from it, its chain consists of entries of the
      peer's, and all of those have been dealt with. */
  ghost predicate SettledBlock(c: Crypto, cfg: Config, s: Contents, t: Contents, peer: Contents, fp: Fp, data: Block) {
    && data in peer.Values && Acceptable(c, cfg, data) && c.parse(data.armoredKey).value.0 == fp
    && AllSettled(c, cfg, s, t, peer, fp, data.sigEntries) && MadeFrom(c, t[fp], data)
  }

  ghost predicate MadeFrom(c: Crypto, b: Block, data: Block)
    requires c.parse(data.armoredKey).Some?
  {
    && Fixed(b) == BlockFor(c, c.parse(data.armoredKey).value.0, c.parse(data.armoredKey).value.1, data)
    && ChainFrom(c, [], b.sigEntries, data.sigEntries)
  }

  ghost predicate NewSettled(c: Crypto, cfg: Config, s: Contents, t: Contents, peer: Contents, fp: Fp) {
    exists data :: SettledBlock(c, cfg, s, t, peer, fp, data)
  }

  /** Nothing is lost from `s` to `t`, and each new block is one of the peer's, its chain dealt with. */
  ghost predicate Progress(c: Crypto, cfg: Config, s: Contents, t: Contents, peer: Contents) {
    Grown(s, t) && forall fp {:trigger NewSettled(c, cfg, s, t, peer, fp)} :: fp in t && fp !in s ==>
      NewSettled(c, cfg, s, t, peer, fp)
  }

  lemma NoProgress(c: Crypto, cfg: Config, s: Contents, peer: Contents)
    ensures Progress(c, cfg, s, s, peer)
  {
    forall fp | fp in s ensures GrownAt(s, s, fp) { }
  }

  lemma NewSettledStays(c: Crypto, cfg: Config, r: Contents, s: Contents, t: Contents, u: Contents, peer: Contents,
                        fp: Fp)
    requires Grown(r, s) && Grown(t, u) && NewSettled(c, cfg, s, t, peer, fp)
    requires fp in t && fp in u && u[fp] == t[fp]
    ensures NewSettled(c, cfg, r, u, peer, fp)
  {
    var data :| SettledBlock(c, cfg, s, t, peer, fp, data);
    AllSettledStays(c, cfg, r, s, t, u, peer, fp, data.sigEntries);
    assert SettledBlock(c, cfg, r, u, peer, fp, data);
  }

  lemma ProgressOn(c: Crypto, cfg: Config, s: Contents, t: Contents, u: Contents, peer: Contents)
    requires Progress(c, cfg, s, t, peer) && Progress(c, cfg, t, u, peer)
    requires forall fp :: fp in t && fp !in s ==> fp in u && u[fp] == t[fp]
    ensures Progress(c, cfg, s, u, peer)
  {
    GrownTransitive(s, t, u);
    NoProgress(c, cfg, s, peer);
    NoProgress(c, cfg, u, peer);
    forall fp | fp in u && fp !in s ensures NewSettled(c, cfg, s, u, peer, fp) {
      if fp in t {
        NewSettledStays(c, cfg, s, s, t, u, peer, fp);
      } else {
        NewSettledStays(c, cfg, s, t, u, u, peer, fp);
      }
    }
  }

  /** An entry appended to a block that is there. */
  lemma SignedProgress(c: Crypto, cfg: Config, s: Contents, peer: Contents, fp: Fp, e: SigEntry)
    requires Checked(c, s, NewSig(fp, e))
    ensures Progress(c, cfg, s, Signed(s, fp, e), peer)
  {
    ApplyGrows(c, s, NewSig(fp, e));
  }

  /** A block stored and its chain dealt with. */
  lemma FetchedProgress(c: Crypto, cfg: Config, s: Contents, b: Block, t: Contents, peer: Contents, data: Block)
    requires Checked(c, s, NewBlock(b)) && Progress(c, cfg, Added(s, b), t, peer)
    requires data in peer.Values && Acceptable(c, cfg, data) && c.parse(data.armoredKey).value.0 == b.fingerprint
    requires AllSettled(c, cfg, Added(s, b), t, peer, b.fingerprint, data.sigEntries)
    requires MadeFrom(c, t[b.fingerprint], data)
    ensures Progress(c, cfg, s, t, peer) && AllSettled(c, cfg, s, t, peer, b.fingerprint, data.sigEntries)
  {
    ApplyGrows(c, s, NewBlock(b));
    GrownTransitive(s, Added(s, b), t);
    NoProgress(c, cfg, t, peer);
    AllSettledStays(c, cfg, s, Added(s, b), t, t, peer, b.fingerprint, data.sigEntries);
    forall fp | fp in t && fp !in s ensures NewSettled(c, cfg, s, t, peer, fp) {
      if fp == b.fingerprint {
        assert SettledBlock(c, cfg, s, t, peer, fp, data);
      } else {
        NewSettledStays(c, cfg, s, Added(s, b), t, t, peer, fp);
      }
    }
  }

  // ---------- the methods ----------

  /** Gets a block from the peer and stores it if it is genuine. */
  method FetchAndStoreBlock(c: Crypto, cfg: Config, store: MemoryStore, peer: Contents, fp: Fp) returns (ghost run: Run)
    modifies store
    ensures Ran(c, old(store.blocks), run, store.blocks) && AllKept(old(store.blocks), store.blocks)
    ensures Offers(c, cfg, peer, fp) ==> fp in store.blocks
    ensures !HasAcceptable(c, cfg, peer, fp) ==> store.blocks == old(store.blocks)
    ensures Progress(c, cfg, old(store.blocks), store.blocks, peer)
    ensures Offers(c, cfg, peer, fp) && fp !in old(store.blocks) ==>
              AllSettled(c, cfg, old(store.blocks), store.blocks, peer, fp, peer[fp].sigEntries)
              && MadeFrom(c, store.blocks[fp], peer[fp])
    ensures WellKept(c, cfg, peer) && Agrees(old(store.blocks), peer) ==>
              Agrees(store.blocks, peer) && NewComplete(old(store.blocks), store.blocks, peer) && (fp in peer ==>
                fp in store.blocks)
    decreases Offered(c, peer) - store.blocks.Keys, 2
  {
    NoProgress(c, cfg, store.blocks, peer);
    if fp !in peer {
      return Start;
    }
    run := ValidateAndStore(c, cfg, store, peer, peer[fp]);
    if WellKept(c, cfg, peer) { assert SoundAt(c, peer, fp); }
  }

  /** Stores the block unless a check fails or its key is known, and then its chain. */
  method ValidateAndStore(c: Crypto, cfg: Config, store: MemoryStore, peer: Contents, data: Block)
    returns (ghost run: Run)
    requires data in peer.Values
    modifies store
    ensures Ran(c, old(store.blocks), run, store.blocks) && AllKept(old(store.blocks), store.blocks)
    ensures if Acceptable(c, cfg, data) then c.parse(data.armoredKey).value.0 in store.blocks
            else store.blocks == old(store.blocks)
    ensures Progress(c, cfg, old(store.blocks), store.blocks, peer)
    ensures Acceptable(c, cfg, data) && c.parse(data.armoredKey).value.0 !in old(store.blocks) ==>
              AllSettled(c, cfg, old(store.blocks), store.blocks, peer, c.parse(data.armoredKey).value.0,
                         data.sigEntries)
              && MadeFrom(c, store.blocks[c.parse(data.armoredKey).value.0], data)
    ensures WellKept(c, cfg, peer) && Agrees(old(store.blocks), peer) ==>
              Agrees(store.blocks, peer) && NewComplete(old(store.blocks), store.blocks, peer)
              && data.fingerprint in store.blocks
    decreases Offered(c, peer) - store.blocks.Keys, 1
  {
    run := Start;
    NoProgress(c, cfg, store.blocks, peer);
    if WellKept(c, cfg, peer) {
      ghost var f :| f in peer && peer[f] == data;
      assert SoundAt(c, peer, f);
    }
    var parsed := c.parse(data.armoredKey);
    if parsed == None {
      return;
    }
    var (fp, uids) := parsed.value;
    if !c.strong(data.armoredKey) {
      return;
    }
    if !cfg.allowAll {
      var listed := DomainAllowed(c.domains(uids), cfg.allowed);
      if !listed {
        return;
      }
    }
    if !c.verify(SubmitPayload(c.sha, fp, data.armoredKey, data.submitTimestamp), data.selfSig, data.armoredKey) {
      return;
    }
    var existing := store.Get(fp);
    if existing != None {
      return;
    }
    run := StoreFetched(c, cfg, store, peer, fp, uids, data);
  }

  /** Stores a block that has passed the checks, and then its chain. */
  method StoreFetched(c: Crypto, cfg: Config, store: MemoryStore, peer: Contents, fp: Fp, uids: seq<string>,
                      data: Block)
    returns (ghost run: Run)
    requires data in peer.Values && Acceptable(c, cfg, data) && c.parse(data.armoredKey).value == (fp, uids)
    requires fp !in store.blocks
    modifies store
    ensures Ran(c, old(store.blocks), run, store.blocks) && AllKept(old(store.blocks), store.blocks)
    ensures Progress(c, cfg, old(store.blocks), store.blocks, peer)
    ensures AllSettled(c, cfg, old(store.blocks), store.blocks, peer, fp, data.sigEntries)
    ensures MadeFrom(c, store.blocks[fp], data)
    ensures WellKept(c, cfg, peer) && Agrees(old(store.blocks), peer) ==>
              Agrees(store.blocks, peer) && NewComplete(old(store.blocks), store.blocks, peer)
    decreases Offered(c, peer) - store.blocks.Keys, 0
  {
    var hash := ComputeBlockHash(c.sha, fp, data.armoredKey, data.selfSig);
    var block := Block(hash, fp, data.armoredKey, uids, data.submitTimestamp, data.selfSig, "", [], false, "");
    assert block == BlockFor(c, fp, uids, data);
    ghost var before := store.blocks;
    var ok := store.Add(block);
    RanOne(c, before, NewBlock(block));
    assert fp in Offered(c, peer) - old(store.blocks).Keys && fp !in Offered(c, peer) - store.blocks.Keys;
    if WellKept(c, cfg, peer) && Agrees(before, peer) {
      FirstAdded(c, cfg, before, peer, fp, block, data);
    }
    ghost var more := ApplySigEntries(c, cfg, store, peer, fp, data.sigEntries);
    assert GrownAt(Added(before, block), store.blocks, fp);
    FetchedProgress(c, cfg, before, block, store.blocks, peer, data);
    RanOn(c, before, Then(Start, NewBlock(block)), Added(before, block), more, store.blocks);
    run := Concat(Then(Start, NewBlock(block)), more);
    if WellKept(c, cfg, peer) && Agrees(before, peer) {
      FirstCompleted(before, Added(before, block), store.blocks, peer, fp);
    }
  }

  /** The block built from a well-kept peer's data is the peer's, without its chain. */
  lemma FirstAdded(c: Crypto, cfg: Config, s: Contents, peer: Contents, fp: Fp, block: Block, data: Block)
    requires WellKept(c, cfg, peer) && Agrees(s, peer) && data in peer.Values && fp !in s
    requires c.parse(data.armoredKey).Some? && fp == c.parse(data.armoredKey).value.0
    requires block == BlockFor(c, fp, c.parse(data.armoredKey).value.1, data)
    ensures Following(c, cfg, Added(s, block), peer, fp, data.sigEntries)
  {
    var f :| f in peer && peer[f] == data;
    assert SoundAt(c, peer, f);
    var t := Added(s, block);
    assert Fixed(block) == Fixed(data);
    forall f | f in t && f in peer ensures AgreesAt(t, peer, f) {
      if f != fp { assert AgreesAt(s, peer, f); }
    }
    assert AgreesAt(t, peer, fp);
  }

  lemma FirstCompleted(s: Contents, t: Contents, u: Contents, peer: Contents, fp: Fp)
    requires t.Keys == s.Keys + {fp} && NewComplete(t, u, peer) && CompleteAt(u, peer, fp)
    ensures NewComplete(s, u, peer)
  {
    forall f | f in u && f !in s ensures CompleteAt(u, peer, f) {
      assert f != fp ==> CompleteAt(u, peer, f);
    }
  }

  /** One more entry dealt with. */
  lemma SettledSoFar(c: Crypto, cfg: Config, s: Contents, t: Contents, u: Contents, peer: Contents, fp: Fp,
                     raws: seq<SigEntry>, i: nat)
    requires Progress(c, cfg, s, t, peer) && Progress(c, cfg, t, u, peer) && fp in t && i < |raws|
    requires fp in s && OthersKept(t, u, fp)
    requires forall j :: 0 <= j < i ==> Settled(c, cfg, s, t, peer, fp, raws[j])
    requires fp in u && Settled(c, cfg, t, u, peer, fp, raws[i])
    ensures Progress(c, cfg, s, u, peer)
    ensures forall j :: 0 <= j <= i ==> Settled(c, cfg, s, u, peer, fp, raws[j])
  {
    ProgressOn(c, cfg, s, t, u, peer);
    NoProgress(c, cfg, s, peer);
    NoProgress(c, cfg, u, peer);
    forall j | 0 <= j <= i ensures Settled(c, cfg, s, u, peer, fp, raws[j]) {
      if j < i {
        SettledStays(c, cfg, s, s, t, u, peer, fp, raws[j]);
      } else {
        SettledStays(c, cfg, s, t, u, u, peer, fp, raws[j]);
      }
    }
  }

  /** The signers of the entries. */
  method CollectSigners(entries: seq<SigEntry>) returns (signers: set<Fp>)
    ensures signers == SignersOf(entries)
  {
    signers := {};
    for i := 0 to |entries|
      invariant forall s :: s in signers <==> exists j :: 0 <= j < i && entries[j].signer == s
    {
      signers := signers + {entries[i].signer};
    }
  }

  /** Stores the entries that verify, by signers not yet among the block's. One that is not stored does not keep
      those behind it from being looked at. */
  method ApplySigEntries(c: Crypto, cfg: Config, store: MemoryStore, peer: Contents, fp: Fp, raws: seq<SigEntry>)
    returns (ghost run: Run)
    modifies store
    ensures Ran(c, old(store.blocks), run, store.blocks) && OthersKept(old(store.blocks), store.blocks, fp)
    ensures Progress(c, cfg, old(store.blocks), store.blocks, peer)
    ensures fp in old(store.blocks) ==>
              AllSettled(c, cfg, old(store.blocks), store.blocks, peer, fp, raws)
              && ChainFrom(c, old(store.blocks)[fp].sigEntries, store.blocks[fp].sigEntries, raws)
    ensures Following(c, cfg, old(store.blocks), peer, fp, raws) ==>
              Agrees(store.blocks, peer) && CompleteAt(store.blocks, peer, fp)
              && NewComplete(old(store.blocks), store.blocks, peer)
    decreases Offered(c, peer) - store.blocks.Keys, 5
  {
    run := Start;
    NoProgress(c, cfg, store.blocks, peer);
    var block := store.Get(fp);
    if block == None {
      return;
    }
    var existing := CollectSigners(block.value.sigEntries);
    ghost var start := store.blocks;
    ghost var good := Following(c, cfg, start, peer, fp, raws);
    ghost var k := |start[fp].sigEntries|;
    for i := 0 to |raws|
      invariant Ran(c, start, run, store.blocks) && OthersKept(start, store.blocks, fp)
      invariant fp in store.blocks && block.value.hash == store.blocks[fp].hash
      invariant existing == SignersOf(store.blocks[fp].sigEntries)
      invariant Progress(c, cfg, start, store.blocks, peer)
      invariant ChainFrom(c, start[fp].sigEntries, store.blocks[fp].sigEntries, raws[..i])
      invariant forall j :: 0 <= j < i ==> Settled(c, cfg, start, store.blocks, peer, fp, raws[j])
      invariant good ==> Following(c, cfg, store.blocks, peer, fp, raws) && NewComplete(start, store.blocks, peer)
      invariant good ==> |store.blocks[fp].sigEntries| == if i < k then k else i
    {
      ghost var now := store.blocks;
      ghost var more;
      existing, more := ApplyOne(c, cfg, store, peer, fp, block.value.hash, raws, i, existing);
      RanOn(c, start, run, now, more, store.blocks);
      run := Concat(run, more);
      SettledSoFar(c, cfg, start, now, store.blocks, peer, fp, raws, i);
      ChainFromOneMore(c, start[fp].sigEntries, now[fp].sigEntries, store.blocks[fp].sigEntries, raws, i);
      if good {
        NewCompleteTransitive(start, now, store.blocks, fp, peer);
      }
    }
    assert raws[..|raws|] == raws;
  }

  /** The key to check an entry with: the inline one, or that of the signer's block, fetched if missing. */
  method ResolveSigner(c: Crypto, cfg: Config, store: MemoryStore, peer: Contents, e: SigEntry)
    returns (key: Option<string>, ghost run: Run)
    modifies store
    ensures Ran(c, old(store.blocks), run, store.blocks) && AllKept(old(store.blocks), store.blocks)
    ensures key.Some? <==> SignerKnown(store.blocks, e)
    ensures key.Some? ==> key.value == SignerKey(store.blocks, e)
    ensures Progress(c, cfg, old(store.blocks), store.blocks, peer)
    ensures WithinReach(c, cfg, old(store.blocks), peer, e) ==> key.Some?
    ensures WellKept(c, cfg, peer) && Agrees(old(store.blocks), peer) ==>
              Agrees(store.blocks, peer) && NewComplete(old(store.blocks), store.blocks, peer)
              && (SignerKnown(peer, e) ==> key.Some?)
    decreases Offered(c, peer) - store.blocks.Keys, 3
  {
    run := Start;
    NoProgress(c, cfg, store.blocks, peer);
    if e.signerArmoredKey != "" {
      return Some(e.signerArmoredKey), run;
    }
    var signerBlock := store.Get(e.signer);
    if signerBlock == None {
      run := FetchAndStoreBlock(c, cfg, store, peer, e.signer);
      signerBlock := store.Get(e.signer);
    }
    if signerBlock == None {
      return None, run;
    }
    key := Some(signerBlock.value.armoredKey);
  }

  /** Stores an entry whose signature verifies and whose claimed hash, if any, is the computed one. */
  method StoreEntry(c: Crypto, store: MemoryStore, fp: Fp, blockHash: Hash, e: SigEntry, key: string, existing: set<Fp>)
    returns (existing': set<Fp>, ghost run: Run)
    requires fp in store.blocks && blockHash == store.blocks[fp].hash
    requires existing == SignersOf(store.blocks[fp].sigEntries)
    requires e.signer !in existing && SignerKnown(store.blocks, e) && key == SignerKey(store.blocks, e)
    modifies store
    ensures Ran(c, old(store.blocks), run, store.blocks)
    ensures store.blocks ==
      if Storable(c, old(store.blocks), blockHash, e)
      then Signed(old(store.blocks), fp, EntryFor(c, e)) else old(store.blocks)
    ensures store.blocks != old(store.blocks) ==> Checked(c, old(store.blocks), NewSig(fp, EntryFor(c, e)))
    ensures existing' == SignersOf(store.blocks[fp].sigEntries)
  {
    existing', run := existing, Start;
    if !c.verify(TrustPayload(blockHash, e.signer, e.timestamp), e.sig, key) {
      return;
    }
    var computed := ComputeSigEntryHash(c.sha, e.prevHash, e.signer, e.sig, e.timestamp);
    if e.hash != "" && e.hash != computed {
      return;
    }
    var entry := SigEntry(computed, e.prevHash, e.signer, e.sig, e.timestamp, e.signerArmoredKey, e.sourceNode);
    assert entry == EntryFor(c, e);
    RanOne(c, store.blocks, NewSig(fp, entry));
    run := Then(Start, NewSig(fp, entry));
    var ok := store.AddSig(fp, entry);
    existing' := existing + {e.signer};
  }

  lemma StoredProgress(c: Crypto, cfg: Config, s: Contents, t: Contents, u: Contents, peer: Contents, fp: Fp,
                       e: SigEntry)
    requires Progress(c, cfg, s, t, peer) && fp in s && fp in t && SignerKnown(t, e)
    requires u == if Storable(c, t, t[fp].hash, e) then Signed(t, fp, EntryFor(c, e)) else t
    requires u != t ==> Checked(c, t, NewSig(fp, EntryFor(c, e)))
    ensures Progress(c, cfg, s, u, peer) && fp in u && Settled(c, cfg, s, u, peer, fp, e)
  {
    NoProgress(c, cfg, t, peer);
    if u != t {
      SignedProgress(c, cfg, t, peer, fp, EntryFor(c, e));
    }
    ProgressOn(c, cfg, s, t, u, peer);
    if Storable(c, t, t[fp].hash, e) {
      assert EntryFor(c, e) in u[fp].sigEntries;
    }
  }

  /** One entry: known signers are skipped, the signer's key is found or fetched, and the entry checked. */
  method ApplyOne(c: Crypto, cfg: Config, store: MemoryStore, peer: Contents, fp: Fp, blockHash: Hash,
                  raws: seq<SigEntry>,
                  i: nat, existing: set<Fp>)
    returns (existing': set<Fp>, ghost run: Run)
    requires i < |raws| && fp in store.blocks && blockHash == store.blocks[fp].hash
    requires existing == SignersOf(store.blocks[fp].sigEntries)
    modifies store
    ensures Ran(c, old(store.blocks), run, store.blocks) && OthersKept(old(store.blocks), store.blocks, fp)
    ensures fp in store.blocks && blockHash == store.blocks[fp].hash
    ensures existing' == SignersOf(store.blocks[fp].sigEntries)
    ensures Progress(c, cfg, old(store.blocks), store.blocks, peer)
    ensures Settled(c, cfg, old(store.blocks), store.blocks, peer, fp, raws[i])
    ensures var chain := old(store.blocks)[fp].sigEntries;
      store.blocks[fp].sigEntries in {chain, chain + [EntryFor(c, raws[i])]}
    ensures Following(c, cfg, old(store.blocks), peer, fp, raws) && i <= |old(store.blocks)[fp].sigEntries| ==>
              Following(c, cfg, store.blocks, peer, fp, raws) && NewComplete(old(store.blocks), store.blocks, peer)
              && var n := |old(store.blocks)[fp].sigEntries|;
                 |store.blocks[fp].sigEntries| == if i < n then n else i + 1
    decreases Offered(c, peer) - store.blocks.Keys, 4
  {
    existing', run := existing, Start;
    NoProgress(c, cfg, store.blocks, peer);
    var e := raws[i];
    ghost var start := store.blocks;
    ghost var good := Following(c, cfg, start, peer, fp, raws) && i <= |start[fp].sigEntries|;
    if good {
      SignerInPrefix(c, cfg, start, peer, fp, i);
    }
    if e.signer in existing {
      return;
    }
    var key, more := ResolveSigner(c, cfg, store, peer, e);
    run := more;
    ghost var now := store.blocks;
    if good {
      PeerKnowsSigner(c, cfg, peer, fp, i);
    }
    if key == None {
      return;
    }
    if good {
      assert AgreesAt(now, peer, fp);
      PeerEntryVerifies(c, cfg, now, peer, fp, i);
      AppendAgrees(now, peer, fp, e);
    }
    existing', more := StoreEntry(c, store, fp, blockHash, e, key.value, existing);
    StoredProgress(c, cfg, start, now, store.blocks, peer, fp, e);
    RanOn(c, start, run, now, more, store.blocks);
    run := Concat(run, more);
    if good {
      StillFollowing(c, cfg, start, now, peer, fp, raws, e);
    }
  }

  /** Peer and local ledger agree, and `raws` is the peer's chain of `fp`. */
  ghost predicate Following(c: Crypto, cfg: Config, s: Contents, peer: Contents, fp: Fp, raws: seq<SigEntry>) {
    && WellKept(c, cfg, peer) && Agrees(s, peer) && fp in s && fp in peer && AgreesAt(s, peer, fp)
    && raws == peer[fp].sigEntries
  }

  lemma PeerKnowsSigner(c: Crypto, cfg: Config, peer: Contents, fp: Fp, i: nat)
    requires WellKept(c, cfg, peer) && fp in peer && i < |peer[fp].sigEntries|
    ensures SignerKnown(peer, peer[fp].sigEntries[i])
  {
    assert SoundAt(c, peer, fp) && peer[fp].sigEntries[i] in peer[fp].sigEntries;
  }

  lemma StillFollowing(c: Crypto, cfg: Config, s: Contents, t: Contents, peer: Contents, fp: Fp, raws: seq<SigEntry>,
                       e: SigEntry)
    requires Following(c, cfg, s, peer, fp, raws) && AllKept(s, t) && NewComplete(s, t, peer) && fp in t
    requires Agrees(Signed(t, fp, e), peer)
    ensures Following(c, cfg, Signed(t, fp, e), peer, fp, raws) && NewComplete(s, Signed(t, fp, e), peer)
  {
    var u := Signed(t, fp, e);
    assert AgreesAt(u, peer, fp);
    forall f | f in u && f !in s ensures CompleteAt(u, peer, f) {
      assert CompleteAt(t, peer, f);
    }
  }

  // ---------- the whole sync ----------

  /** Every block the peer has is local with the peer's chain and head. */
  ghost predicate Converged(s: Contents, peer: Contents) {
    forall fp {:trigger CompleteAt(s, peer, fp)} :: fp in peer ==>
      CompleteAt(s, peer, fp) && s[fp].sigChainHead == peer[fp].sigChainHead
  }

  /** The peer's ledger verifies and its chains are linked under distinct hashes, as those of a
      sound ledger with intact chains are (`LedgerStores`); the local one agrees with it as far as it goes. */
  ghost predicate ReadyToSync(c: Crypto, cfg: Config, s: Contents, peer: Contents) {
    && WellKept(c, cfg, peer) && AllWellChained(peer)
    && HeadsRecorded(s) && Agrees(s, peer)
  }

  /** A prefix of a linked chain that has the chain's head is the whole chain. */
  lemma SameHeadSameChain(s: Contents, peer: Contents, fp: Fp)
    requires AllWellChained(peer) && HeadsRecorded(s) && fp in s && fp in peer && AgreesAt(s, peer, fp)
    requires s[fp].sigChainHead == peer[fp].sigChainHead
    ensures CompleteAt(s, peer, fp)
  {
    assert WellChained(peer[fp]);
  }

  /** Gets the peer's chain of a block the node has. */
  method SyncSigChain(c: Crypto, cfg: Config, store: MemoryStore, peer: Contents, fp: Fp) returns (ghost run: Run)
    modifies store
    ensures Ran(c, old(store.blocks), run, store.blocks) && OthersKept(old(store.blocks), store.blocks, fp)
    ensures fp in peer && Following(c, cfg, old(store.blocks), peer, fp, peer[fp].sigEntries) ==>
              Agrees(store.blocks, peer) && CompleteAt(store.blocks, peer, fp)
              && NewComplete(old(store.blocks), store.blocks, peer)
    ensures Progress(c, cfg, old(store.blocks), store.blocks, peer)
    ensures fp in peer && fp in old(store.blocks) ==>
              AllSettled(c, cfg, old(store.blocks), store.blocks, peer, fp, peer[fp].sigEntries)
              && ChainFrom(c, old(store.blocks)[fp].sigEntries, store.blocks[fp].sigEntries, peer[fp].sigEntries)
  {
    if fp !in peer {
      NoProgress(c, cfg, store.blocks, peer);
      return Start;
    }
    run := ApplySigEntries(c, cfg, store, peer, fp, peer[fp].sigEntries);
  }

  /** What holds between two turns of the sync loop: blocks still to look at are as they were, and the others
      are complete. */
  ghost predicate Halfway(start: Contents, now: Contents, peer: Contents, todo: set<Fp>) {
    && Agrees(now, peer) && NewComplete(start, now, peer) && start.Keys <= now.Keys
    && (forall fp :: fp in start && fp in todo ==> now[fp] == start[fp])
    && (forall fp {:trigger CompleteAt(now, peer, fp)} :: fp in peer && fp !in todo ==> CompleteAt(now, peer, fp))
  }

  /** One fingerprint of the peer's: fetched if the node has no block for it, brought up to date if the heads
      differ. */
  method SyncOne(c: Crypto, cfg: Config, store: MemoryStore, peer: Contents, fp: Fp, localHashes: map<Fp, Hash>,
                 ghost start: Contents, ghost todo: set<Fp>)
    returns (ghost run: Run)
    requires fp in peer && fp in todo && localHashes == Heads(start)
    modifies store
    ensures Ran(c, old(store.blocks), run, store.blocks) && OthersKept(old(store.blocks), store.blocks, fp)
    ensures ReadyToSync(c, cfg, start, peer) && Halfway(start, old(store.blocks), peer, todo) ==>
              Halfway(start, store.blocks, peer, todo - {fp})
    ensures Progress(c, cfg, start, old(store.blocks), peer) && SameAt(start, old(store.blocks), fp) ==>
              Progress(c, cfg, start, store.blocks, peer) && LookedAt(c, cfg, start, store.blocks, peer, fp)
    ensures fp in start && start[fp].sigChainHead == peer[fp].sigChainHead ==> store.blocks == old(store.blocks)
    ensures fp in old(store.blocks) && fp !in start ==>
              fp in store.blocks && store.blocks[fp] == old(store.blocks)[fp]
  {
    run := Start;
    ghost var before := store.blocks;
    NoProgress(c, cfg, before, peer);
    ghost var good := ReadyToSync(c, cfg, start, peer) && Halfway(start, before, peer, todo);
    if fp !in localHashes {
      run := FetchAndStoreBlock(c, cfg, store, peer, fp);
      if good {
        FetchedHalfway(start, before, store.blocks, peer, todo, fp);
      }
    } else if localHashes[fp] != peer[fp].sigChainHead {
      assert Progress(c, cfg, start, before, peer) ==> GrownAt(start, before, fp);
      if good {
        assert AgreesAt(before, peer, fp);
      }
      run := SyncSigChain(c, cfg, store, peer, fp);
      if good {
        UpdatedHalfway(start, before, store.blocks, peer, todo, fp);
      }
    } else if good {
      assert AgreesAt(before, peer, fp);
      SameHeadSameChain(start, peer, fp);
    }
    if Progress(c, cfg, start, before, peer) && SameAt(start, before, fp) {
      LookedAtNow(c, cfg, start, before, store.blocks, peer, fp);
    }
  }

  /** The block, if there was one, is as it was. */
  ghost predicate SameAt(s: Contents, t: Contents, fp: Fp) {
    fp in s ==> fp in t && t[fp] == s[fp]
  }

  /** What a sync with any peer does for one fingerprint of the peer's: an acceptable block of the key is local, and if
      the heads differed, the chain has been extended by entries of the peer's, all of which have been dealt with. */
  ghost predicate LookedAt(c: Crypto, cfg: Config, s: Contents, t: Contents, peer: Contents, fp: Fp)
    requires fp in peer
  {
    && (Offers(c, cfg, peer, fp) ==> fp in t)
    && (fp in s && s[fp].sigChainHead != peer[fp].sigChainHead ==>
          AllSettled(c, cfg, s, t, peer, fp, peer[fp].sigEntries)
          && ChainFrom(c, s[fp].sigEntries, t[fp].sigEntries, peer[fp].sigEntries))
  }

  lemma LookedAtNow(c: Crypto, cfg: Config, s: Contents, t: Contents, u: Contents, peer: Contents, fp: Fp)
    requires Progress(c, cfg, s, t, peer) && Progress(c, cfg, t, u, peer) && fp in peer
    requires fp !in s ==> (Offers(c, cfg, peer, fp) ==> fp in u)
    requires SameAt(s, t, fp) && forall f :: f in t && f !in s ==> f in u && u[f] == t[f]
    requires fp in s && s[fp].sigChainHead != peer[fp].sigChainHead ==>
      AllSettled(c, cfg, t, u, peer, fp, peer[fp].sigEntries)
      && ChainFrom(c, t[fp].sigEntries, u[fp].sigEntries, peer[fp].sigEntries)
    ensures Progress(c, cfg, s, u, peer) && LookedAt(c, cfg, s, u, peer, fp)
  {
    ProgressOn(c, cfg, s, t, u, peer);
    NoProgress(c, cfg, u, peer);
    if fp in s {
      assert GrownAt(s, u, fp);
      if s[fp].sigChainHead != peer[fp].sigChainHead {
        AllSettledStays(c, cfg, s, t, u, u, peer, fp, peer[fp].sigEntries);
      }
    }
  }

  lemma LookedAtStays(c: Crypto, cfg: Config, s: Contents, t: Contents, u: Contents, peer: Contents, fp: Fp)
    requires Grown(t, u) && SameAt(t, u, fp) && fp in peer && LookedAt(c, cfg, s, t, peer, fp)
    ensures LookedAt(c, cfg, s, u, peer, fp)
  {
    NoProgress(c, cfg, s, peer);
    if fp in t {
      assert GrownAt(t, u, fp);
    }
    if fp in s && s[fp].sigChainHead != peer[fp].sigChainHead {
      AllSettledStays(c, cfg, s, s, t, u, peer, fp, peer[fp].sigEntries);
    }
  }

  ghost predicate AllLookedAt(c: Crypto, cfg: Config, s: Contents, t: Contents, peer: Contents, todo: set<Fp>) {
    forall fp {:trigger LookedAt(c, cfg, s, t, peer, fp)} :: fp in peer && fp !in todo ==>
      LookedAt(c, cfg, s, t, peer, fp)
  }

  lemma OneMoreLookedAt(c: Crypto, cfg: Config, s: Contents, t: Contents, u: Contents, peer: Contents, todo: set<Fp>,
                        fp: Fp)
    requires Grown(t, u) && OthersKept(t, u, fp) && AllLookedAt(c, cfg, s, t, peer, todo)
    requires fp in peer && LookedAt(c, cfg, s, u, peer, fp)
    ensures AllLookedAt(c, cfg, s, u, peer, todo - {fp})
  {
    forall f | f in peer && f !in todo - {fp} ensures LookedAt(c, cfg, s, u, peer, f) {
      if f != fp {
        LookedAtStays(c, cfg, s, t, u, peer, f);
      }
    }
  }

  lemma FetchedHalfway(start: Contents, now: Contents, next: Contents, peer: Contents, todo: set<Fp>, fp: Fp)
    requires Halfway(start, now, peer, todo) && AllKept(now, next) && Agrees(next, peer) && NewComplete(now, next, peer)
    requires fp in next && fp !in start
    ensures Halfway(start, next, peer, todo - {fp})
  {
    forall f | f in next && f !in start ensures CompleteAt(next, peer, f) {
      if f in now { assert CompleteAt(now, peer, f); }
    }
    forall f | f in peer && f !in todo - {fp} ensures CompleteAt(next, peer, f) {
      if f != fp { assert CompleteAt(now, peer, f); }
    }
  }

  lemma UpdatedHalfway(start: Contents, now: Contents, next: Contents, peer: Contents, todo: set<Fp>, fp: Fp)
    requires Halfway(start, now, peer, todo) && OthersKept(now, next, fp) && Agrees(next, peer)
    requires NewComplete(now, next, peer)
    requires fp in start && CompleteAt(next, peer, fp)
    ensures Halfway(start, next, peer, todo - {fp})
  {
    forall f | f in next && f !in start ensures CompleteAt(next, peer, f) {
      if f in now { assert CompleteAt(now, peer, f); }
    }
    forall f | f in peer && f !in todo - {fp} ensures CompleteAt(next, peer, f) {
      if f != fp { assert CompleteAt(now, peer, f); }
    }
  }

  /** Blocks the peer does not have, or has with the same head, are as they were. */
  ghost predicate OthersUntouched(s: Contents, t: Contents, peer: Contents) {
    forall fp :: fp in s && (fp !in peer || s[fp].sigChainHead == peer[fp].sigChainHead) ==> fp in t && t[fp] == s[fp]
  }

  ghost predicate AllLinked(s: Contents) {
    forall fp :: fp in s ==> IsChain(s[fp].hash, s[fp].sigEntries) && s[fp].sigChainHead == LastHash(s[fp].sigEntries)
  }

  /** A sync that converges leaves every chain linked, under distinct hashes and with its head recorded. */
  lemma SyncKeepsLinked(c: Crypto, cfg: Config, s: Contents, t: Contents, peer: Contents)
    requires AllLinked(s) && ReadyToSync(c, cfg, s, peer)
    requires Converged(t, peer) && NewComplete(s, t, peer) && OthersUntouched(s, t, peer)
    ensures AllLinked(t)
  {
    forall fp | fp in t
      ensures IsChain(t[fp].hash, t[fp].sigEntries) && t[fp].sigChainHead == LastHash(t[fp].sigEntries) {
      assert CompleteAt(t, peer, fp) || fp !in peer;
      if fp in peer {
        assert WellChained(peer[fp]) && Fixed(t[fp]).hash == Fixed(peer[fp]).hash;
      } else {
        assert fp !in s ==> CompleteAt(t, peer, fp);
      }
    }
  }

  /** What a sync does. */
  ghost predicate SyncedWith(c: Crypto, cfg: Config, s: Contents, peer: Contents, t: Contents) {
    && OthersUntouched(s, t, peer) && Progress(c, cfg, s, t, peer) && AllLookedAt(c, cfg, s, t, peer, {})
    && (ReadyToSync(c, cfg, s, peer) ==> Converged(t, peer) && NewComplete(s, t, peer))
  }

  /** Compares hashes with a peer and takes over what it has more. The ledger only goes through checked events, and
      blocks the peer does not have, or has with the same head, stay as they are. Whatever else the peer has, every
      block whose key checks out is local afterwards; and a chain that is new or that had another head is extended by
      entries of the peer's in their order, and lacks none that verifies with a key within reach. If the peer's ledger
      verifies, is linked and holds its signers, and the local chains are prefixes of the peer's, then afterwards every
      block of the peer is local with the same chain and head, in whatever order the fingerprints are taken. */
  method SyncWithPeer(c: Crypto, cfg: Config, store: MemoryStore, peer: Contents) returns (ghost run: Run)
    modifies store
    ensures Ran(c, old(store.blocks), run, store.blocks)
    ensures SyncedWith(c, cfg, old(store.blocks), peer, store.blocks)
  {
    run := Start;
    var localHashes := store.Hashes();
    ghost var start := store.blocks;
    NoProgress(c, cfg, start, peer);
    var todo := peer.Keys;
    while todo != {}
      invariant todo <= peer.Keys
      invariant Ran(c, start, run, store.blocks) && OthersUntouched(start, store.blocks, peer)
      invariant ReadyToSync(c, cfg, start, peer) ==> Halfway(start, store.blocks, peer, todo)
      invariant Progress(c, cfg, start, store.blocks, peer)
      invariant AllLookedAt(c, cfg, start, store.blocks, peer, todo)
      invariant forall fp :: fp in todo ==> SameAt(start, store.blocks, fp)
    {
      var fp :| fp in todo;
      ghost var now := store.blocks;
      ghost var more := SyncOne(c, cfg, store, peer, fp, localHashes, start, todo);
      RanOn(c, start, run, now, more, store.blocks);
      run := Concat(run, more);
      RunGrows(c, now, more);
      OneMoreLookedAt(c, cfg, start, now, store.blocks, peer, todo, fp);
      todo := todo - {fp};
    }
    if ReadyToSync(c, cfg, start, peer) {
      RunKeepsHeads(c, start, run);
      forall fp | fp in peer
        ensures CompleteAt(store.blocks, peer, fp) && store.blocks[fp].sigChainHead == peer[fp].sigChainHead {
        assert CompleteAt(store.blocks, peer, fp) && WellChained(peer[fp]);
      }
    }
  }

  /** The first peer is well kept, agrees with the local ledger and has the block. */
  ghost predicate FirstPeerHas(c: Crypto, cfg: Config, s: Contents, peers: seq<Contents>, fp: Fp) {
    |peers| > 0 && WellKept(c, cfg, peers[0]) && Agrees(s, peers[0]) && fp in peers[0]
  }

  /** For a peer that holds each acceptable block under its own fingerprint, these are the entries it has for a new
      block. */
  lemma OwnBlockSettled(c: Crypto, cfg: Config, s: Contents, t: Contents, peer: Contents, fp: Fp)
    requires Progress(c, cfg, s, t, peer) && fp in t && fp !in s
    requires forall f :: HasAcceptable(c, cfg, peer, f) ==> c.parse(peer[f].armoredKey).value.0 == f
    ensures fp in peer && AllSettled(c, cfg, s, t, peer, fp, peer[fp].sigEntries)
    ensures c.parse(peer[fp].armoredKey).Some? && MadeFrom(c, t[fp], peer[fp])
  {
    assert NewSettled(c, cfg, s, t, peer, fp);
    var data :| SettledBlock(c, cfg, s, t, peer, fp, data);
    var f :| f in peer && peer[f] == data;
    assert HasAcceptable(c, cfg, peer, f);
  }

  /** Some peer, wherever it stands in the list, has a block of that key that checks out. */
  ghost predicate SomePeerOffers(c: Crypto, cfg: Config, peers: seq<Contents>, fp: Fp) {
    exists i :: 0 <= i < |peers| && Offers(c, cfg, peers[i], fp)
  }

  /** What asking one peer for a block does to the ledger. */
  ghost predicate AskedOne(c: Crypto, cfg: Config, peer: Contents, fp: Fp, s: Contents, t: Contents) {
    && Progress(c, cfg, s, t, peer)
    && (Offers(c, cfg, peer, fp) ==> fp in t)
    && (!HasAcceptable(c, cfg, peer, fp) ==> t == s)
  }

  /** Peers were asked in order, and after the first one only while the block was not there. */
  ghost predicate AskedInTurn(c: Crypto, cfg: Config, peers: seq<Contents>, fp: Fp, states: seq<Contents>) {
    && 1 <= |states| <= |peers| + 1
    && (forall i :: 0 <= i < |states| - 1 ==> AskedOne(c, cfg, peers[i], fp, states[i], states[i + 1]))
    && (forall i :: 0 < i < |states| - 1 ==> fp !in states[i])
  }

  lemma OneMoreAsked(c: Crypto, cfg: Config, peers: seq<Contents>, fp: Fp, states: seq<Contents>, t: Contents)
    requires AskedInTurn(c, cfg, peers, fp, states) && |states| <= |peers|
    requires |states| > 1 ==> fp !in states[|states| - 1]
    requires AskedOne(c, cfg, peers[|states| - 1], fp, states[|states| - 1], t)
    ensures AskedInTurn(c, cfg, peers, fp, states + [t])
  {
    var more := states + [t];
    forall i | 0 <= i < |more| - 1 ensures AskedOne(c, cfg, peers[i], fp, more[i], more[i + 1]) {
      assert more[i] == states[i];
      assert i < |states| - 1 ==> more[i + 1] == states[i + 1];
    }
  }

  /** Tries each peer in turn until the block is there. */
  method FetchBlockFromPeers(c: Crypto, cfg: Config, store: MemoryStore, peers: seq<Contents>, fp: Fp)
    returns (found: bool, ghost run: Run, ghost states: seq<Contents>)
    modifies store
    ensures AskedInTurn(c, cfg, peers, fp, states) && states[0] == old(store.blocks)
    ensures states[|states| - 1] == store.blocks
    ensures if found then |states| > 1 && fp in store.blocks else |states| == |peers| + 1
    ensures Ran(c, old(store.blocks), run, store.blocks) && AllKept(old(store.blocks), store.blocks)
    ensures found ==> fp in store.blocks
    ensures !found && |peers| > 0 ==> fp !in store.blocks
    ensures SomePeerOffers(c, cfg, peers, fp) ==> found
    ensures (forall peer :: peer in peers ==> !HasAcceptable(c, cfg, peer, fp)) ==>
      store.blocks == old(store.blocks) && (found <==> fp in old(store.blocks) && |peers| > 0)
    ensures FirstPeerHas(c, cfg, old(store.blocks), peers, fp) ==> found && Agrees(store.blocks, peers[0])
  {
    run, states := Start, [store.blocks];
    for i := 0 to |peers|
      invariant Ran(c, old(store.blocks), run, store.blocks) && AllKept(old(store.blocks), store.blocks)
      invariant AskedInTurn(c, cfg, peers, fp, states) && states[0] == old(store.blocks)
      invariant |states| == i + 1 && states[i] == store.blocks
      invariant i == 0 ==> store.blocks == old(store.blocks)
      invariant i > 0 ==> fp !in store.blocks && !FirstPeerHas(c, cfg, old(store.blocks), peers, fp)
      invariant forall j :: 0 <= j < i ==> !Offers(c, cfg, peers[j], fp)
      invariant (forall peer :: peer in peers ==> !HasAcceptable(c, cfg, peer, fp)) ==>
        store.blocks == old(store.blocks)
    {
      ghost var now := store.blocks;
      ghost var more := FetchAndStoreBlock(c, cfg, store, peers[i], fp);
      RanOn(c, old(store.blocks), run, now, more, store.blocks);
      run := Concat(run, more);
      OneMoreAsked(c, cfg, peers, fp, states, store.blocks);
      states := states + [store.blocks];
      var b := store.Get(fp);
      if b != None {
        return true, run, states;
      }
    }
    return false, run, states;
  }
}
