/** The request handlers that change the ledger, each as one step: what they accept, what they store, and that
    they only ever make checked events. */
module Handlers {
  import opened SigningGraph
  import opened Ledger
  import opened Payloads
  import opened Hashing
  import opened MemoryStores
  import opened LedgerRules
  import opened PeerSync

  datatype Status = Created | Ok | BadRequest | Forbidden | NotFound | Conflict

  /** The fields of a submitted block; an absent timestamp has been replaced by the current time. */
  datatype BlockRequest = BlockRequest(armoredKey: string, selfSig: string, timestamp: int, claimedHash: string)

  /** The fields of a signing request. */
  datatype SigRequest = SigRequest(signer: Fp, sig: string, timestamp: int, signerArmoredKey: string,
                                   sourceNode: string,
                                   prevHash: string, claimedHash: string)

  /** The block a submission makes: what was submitted, under the hash of its fields. */
  ghost function NewBlockOf(c: Crypto, r: BlockRequest, fp: Fp, uids: seq<string>): Block {
    var b := Block("", fp, r.armoredKey, uids, r.timestamp, r.selfSig, "", [], false, "");
    b.(hash := BlockHash(c.sha, b))
  }

  /** The request has its fields, and the key parses and is strong. */
  ghost predicate Readable(c: Crypto, r: BlockRequest) {
    r.armoredKey != "" && r.selfSig != "" && c.parse(r.armoredKey).Some? && c.strong(r.armoredKey)
  }

  /** And its self-signature verifies. */
  ghost predicate KeyChecks(c: Crypto, r: BlockRequest) {
    && Readable(c, r)
    && c.verify(SubmitPayload(c.sha, c.parse(r.armoredKey).value.0, r.armoredKey, r.timestamp), r.selfSig, r.armoredKey)
  }

  /** The ledger went from `s` to `t` by one checked event. */
  ghost predicate OneEvent(c: Crypto, s: Contents, ev: Event, t: Contents) {
    Checked(c, s, ev) && t == Apply(s, ev)
  }

  // ---------- public endpoints ----------

  /** What is answered to a new key, and what becomes of the ledger. */
  ghost predicate AddBlockAnswered(c: Crypto, cfg: Config, s: Contents, r: BlockRequest, status: Status,
                                   t: Contents) {
    && (status == Created <==>
         KeyChecks(c, r) && (var (fp, uids) := c.parse(r.armoredKey).value;
           && |c.domains(uids)| > 0 && TakesDomains(cfg, c.domains(uids))
           && fp !in s))
    && (status == Created ==>
         var (fp, uids) := c.parse(r.armoredKey).value;
         OneEvent(c, s, NewBlock(NewBlockOf(c, r, fp, uids)), t))
    && (status != Created ==> t == s)
    && (status == Conflict <==>
         KeyChecks(c, r) && (var (fp, uids) := c.parse(r.armoredKey).value;
           |c.domains(uids)| > 0 && TakesDomains(cfg, c.domains(uids)) && fp in s))
    && (status == Forbidden <==>
         Readable(c, r) && (var domains := c.domains(c.parse(r.armoredKey).value.1);
           |domains| > 0 && !TakesDomains(cfg, domains)))
    && status in {Created, Conflict, Forbidden, BadRequest}
  }

  /** A new key: accepted exactly when it checks out, has an e-mail domain the node takes, and is not known. */
  method HandleAddBlock(c: Crypto, cfg: Config, store: MemoryStore, r: BlockRequest) returns (status: Status)
    modifies store
    ensures AddBlockAnswered(c, cfg, old(store.blocks), r, status, store.blocks)
  {
    if r.armoredKey == "" || r.selfSig == "" {
      return BadRequest;
    }
    var parsed := c.parse(r.armoredKey);
    if parsed == None {
      return BadRequest;
    }
    var (fp, uids) := parsed.value;
    if !c.strong(r.armoredKey) {
      return BadRequest;
    }
    var keyDomains := c.domains(uids);
    if |keyDomains| == 0 {
      return BadRequest;
    }
    if !cfg.allowAll {
      var listed := DomainAllowed(keyDomains, cfg.allowed);
      if !listed {
        return Forbidden;
      }
    }
    if !c.verify(SubmitPayload(c.sha, fp, r.armoredKey, r.timestamp), r.selfSig, r.armoredKey) {
      return BadRequest;
    }
    var existing := store.Get(fp);
    if existing != None {
      return Conflict;
    }
    var hash := ComputeBlockHash(c.sha, fp, r.armoredKey, r.selfSig);
    var block := Block(hash, fp, r.armoredKey, uids, r.timestamp, r.selfSig, "", [], false, "");
    assert block == NewBlockOf(c, r, fp, uids);
    var ok := store.Add(block);
    status := Created;
  }

  /** The entry a signing request makes, continuing from `prevHash`, under the hash of its fields. */
  ghost function EntryOf(c: Crypto, r: SigRequest, prevHash: Hash): SigEntry {
    var e := SigEntry("", prevHash, r.signer, r.sig, r.timestamp, r.signerArmoredKey, r.sourceNode);
    e.(hash := EntryHash(c.sha, e))
  }

  /** Whether the key has signed the block, entry by entry. */
  method Signs(block: Block, signer: Fp) returns (found: bool)
    ensures found <==> signer in SignersOf(block.sigEntries)
  {
    for i := 0 to |block.sigEntries|
      invariant forall j :: 0 <= j < i ==> block.sigEntries[j].signer != signer
    {
      if block.sigEntries[i].signer == signer {
        return true;
      }
    }
    return false;
  }

  /** What is answered to a signature from a client. */
  ghost predicate SignBlockAnswered(c: Crypto, s: Contents, fp: Fp, r: SigRequest, status: Status, t: Contents) {
    && (status == Ok <==>
         r.signer != "" && r.sig != "" && fp in s && (var b := s[fp];
           && !b.revoked && r.signer !in SignersOf(b.sigEntries)
           && (r.signerArmoredKey != "" ==> c.strong(r.signerArmoredKey))
           && GenuineEntry(c, s, b.hash, EntryOf(c, r, ContinuesFrom(b)))))
    && (status == Ok ==>
         var ev := NewSig(fp, EntryOf(c, r, ContinuesFrom(s[fp])));
         OneEvent(c, s, ev, t) && OnHead(s, ev))
    && (status != Ok ==> t == s)
    && (status == NotFound <==> r.signer != "" && r.sig != "" && fp !in s)
    && (status == Conflict <==>
         r.signer != "" && r.sig != "" && fp in s && (var b := s[fp];
           || b.revoked
           || (r.signer in SignersOf(b.sigEntries) && (r.signerArmoredKey != "" ==> c.strong(r.signerArmoredKey))
               && GenuineEntry(c, s, b.hash, EntryOf(c, r, ContinuesFrom(b))))))
    && status in {Ok, NotFound, Conflict, BadRequest}
  }

  /** A signature from a client: accepted exactly when the block is there and not revoked, the signer's key is
      known or inline and strong, the signature verifies and the signer has not signed before. The entry
      always continues from the head. */
  method HandleSignBlock(c: Crypto, store: MemoryStore, fp: Fp, r: SigRequest) returns (status: Status)
    modifies store
    ensures SignBlockAnswered(c, old(store.blocks), fp, r, status, store.blocks)
  {
    if r.signer == "" || r.sig == "" {
      return BadRequest;
    }
    var found := store.Get(fp);
    if found == None {
      return NotFound;
    }
    var block := found.value;
    if block.revoked {
      return Conflict;
    }
    var signerKey := r.signerArmoredKey;
    if r.signerArmoredKey != "" {
      if !c.strong(r.signerArmoredKey) {
        return BadRequest;
      }
    } else {
      var signerBlock := store.Get(r.signer);
      if signerBlock == None {
        return BadRequest;
      }
      signerKey := signerBlock.value.armoredKey;
    }
    if !c.verify(TrustPayload(block.hash, r.signer, r.timestamp), r.sig, signerKey) {
      return BadRequest;
    }
    var signedBefore := Signs(block, r.signer);
    if signedBefore {
      return Conflict;
    }
    var prevHash := block.sigChainHead;
    if prevHash == "" {
      prevHash := block.hash;
    }
    var hash := ComputeSigEntryHash(c.sha, prevHash, r.signer, r.sig, r.timestamp);
    var entry := SigEntry(hash, prevHash, r.signer, r.sig, r.timestamp, r.signerArmoredKey, r.sourceNode);
    assert entry == EntryOf(c, r, prevHash);
    var ok := store.AddSig(fp, entry);
    status := Ok;
  }

  /** What is answered to a revocation from a client. */
  ghost predicate RevokeBlockAnswered(c: Crypto, s: Contents, fp: Fp, sig: string, status: Status, t: Contents) {
    && (status == Ok <==> sig != "" && Checked(c, s, NewRevocation(fp, sig)))
    && (status == Ok ==> OneEvent(c, s, NewRevocation(fp, sig), t))
    && (status != Ok ==> t == s)
    && (status == NotFound <==> sig != "" && fp !in s)
    && (status == Conflict <==> sig != "" && fp in s && s[fp].revoked)
    && (status == BadRequest <==> sig == "")
    && status in {Ok, NotFound, Conflict, Forbidden, BadRequest}
  }

  /** A revocation from a client: accepted exactly when the block is there, not revoked, and its own key has
      signed the revocation. */
  method HandleRevokeBlock(c: Crypto, store: MemoryStore, fp: Fp, sig: string) returns (status: Status)
    modifies store
    ensures RevokeBlockAnswered(c, old(store.blocks), fp, sig, status, store.blocks)
  {
    if sig == "" {
      return BadRequest;
    }
    var found := store.Get(fp);
    if found == None {
      return NotFound;
    }
    if found.value.revoked {
      return Conflict;
    }
    if !c.verify(RevokePayload(fp, found.value.hash), sig, found.value.armoredKey) {
      return Forbidden;
    }
    var ok := store.Revoke(fp, sig);
    status := Ok;
  }

  // ---------- node-to-node endpoints ----------

  /** What is answered to a block from another node. */
  ghost predicate ReceiveBlockAnswered(c: Crypto, cfg: Config, s: Contents, r: BlockRequest, status: Status,
                                       t: Contents) {
    && (status == Ok <==>
         KeyChecks(c, r) && (var (fp, uids) := c.parse(r.armoredKey).value;
           && TakesDomains(cfg, c.domains(uids))
           && (r.claimedHash == "" || r.claimedHash == NewBlockOf(c, r, fp, uids).hash)))
    && (status == Ok ==>
         var (fp, uids) := c.parse(r.armoredKey).value;
         if fp in s then t == s
         else OneEvent(c, s, NewBlock(NewBlockOf(c, r, fp, uids)), t))
    && (status != Ok ==> t == s && status == BadRequest)
  }

  /** A block from another node: unlike a client's it needs no e-mail domain where any domain is taken, and a
      known key is no error. */
  method HandleP2PReceiveBlock(c: Crypto, cfg: Config, store: MemoryStore, r: BlockRequest) returns (status: Status)
    modifies store
    ensures ReceiveBlockAnswered(c, cfg, old(store.blocks), r, status, store.blocks)
  {
    if r.armoredKey == "" || r.selfSig == "" {
      return BadRequest;
    }
    var parsed := c.parse(r.armoredKey);
    if parsed == None {
      return BadRequest;
    }
    var (fp, uids) := parsed.value;
    if !c.strong(r.armoredKey) {
      return BadRequest;
    }
    if !cfg.allowAll {
      var listed := DomainAllowed(c.domains(uids), cfg.allowed);
      if !listed {
        return BadRequest;
      }
    }
    var blockHash := ComputeBlockHash(c.sha, fp, r.armoredKey, r.selfSig);
    if r.claimedHash != "" && r.claimedHash != blockHash {
      return BadRequest;
    }
    if !c.verify(SubmitPayload(c.sha, fp, r.armoredKey, r.timestamp), r.selfSig, r.armoredKey) {
      return BadRequest;
    }
    var existing := store.Get(fp);
    if existing != None {
      return Ok;
    }
    var block := Block(blockHash, fp, r.armoredKey, uids, r.timestamp, r.selfSig, "", [], false, "");
    assert block == NewBlockOf(c, r, fp, uids);
    var ok := store.Add(block);
    status := Ok;
  }

  /** Whether a signature from another node is stored, or was before, when the signer's key is looked up in
      `keys`. */
  ghost predicate Accepts(c: Crypto, keys: Contents, b: Block, fp: Fp, r: SigRequest) {
    var e := EntryOf(c, r, r.prevHash);
    && r.signer != "" && r.sig != "" && r.prevHash != "" && fp != "" && !b.revoked
    && GenuineEntry(c, keys, b.hash, e)
    && (r.signer in SignersOf(b.sigEntries) || r.claimedHash == "" || r.claimedHash == e.hash)
  }

  /** It is the same in two ledgers with the same key of the signer. */
  lemma SameKeyAccepts(c: Crypto, s: Contents, t: Contents, b: Block, fp: Fp, r: SigRequest)
    requires r.signerArmoredKey == "" ==>
      r.signer in s && r.signer in t && s[r.signer].armoredKey == t[r.signer].armoredKey
    ensures Accepts(c, s, b, fp, r) <==> Accepts(c, t, b, fp, r)
  {
  }

  /** The key to check an entry with: the inline one, or that of the signer's block, fetched if missing from the
      first peer that has it. */
  method SenderKey(c: Crypto, cfg: Config, store: MemoryStore, peers: seq<Contents>, signer: Fp, inlineKey: string)
    returns (key: Option<string>, ghost run: Run)
    modifies store
    ensures Ran(c, old(store.blocks), run, store.blocks) && AllKept(old(store.blocks), store.blocks)
    ensures key == if inlineKey != "" then Some(inlineKey)
                   else if signer in store.blocks then Some(store.blocks[signer].armoredKey) else None
    ensures inlineKey != "" || signer in old(store.blocks) ==> store.blocks == old(store.blocks)
    ensures inlineKey == "" && SomePeerOffers(c, cfg, peers, signer) ==> signer in store.blocks
    ensures inlineKey == "" && signer !in old(store.blocks) &&
            FirstPeerHas(c, cfg, old(store.blocks), peers, signer) ==>
      key == Some(peers[0][signer].armoredKey)
  {
    run := Start;
    if inlineKey != "" {
      return Some(inlineKey), run;
    }
    var signerBlock := store.Get(signer);
    if signerBlock == None {
      var fetched;
      ghost var states;
      fetched, run, states := FetchBlockFromPeers(c, cfg, store, peers, signer);
      signerBlock := store.Get(signer);
      if FirstPeerHas(c, cfg, old(store.blocks), peers, signer) {
        assert AgreesAt(store.blocks, peers[0], signer);
        assert Fixed(store.blocks[signer]).armoredKey == Fixed(peers[0][signer]).armoredKey;
      }
    }
    if signerBlock == None {
      return None, run;
    }
    key := Some(signerBlock.value.armoredKey);
  }

  /** The request has all its fields, and the block is there and not revoked. */
  ghost predicate Addressed(s: Contents, fp: Fp, r: SigRequest) {
    r.signer != "" && r.sig != "" && r.prevHash != "" && fp != "" && fp in s && !s[fp].revoked
  }

  /** What is answered to a signature from another node. */
  ghost predicate ReceiveSigAnswered(c: Crypto, cfg: Config, s: Contents, peers: seq<Contents>, fp: Fp, r: SigRequest,
                                     status: Status, t: Contents) {
    && OthersKept(s, t, fp) && status in {Ok, BadRequest}
    && (fp in s ==>
          var b := s[fp];
          Lookup(t, fp) ==
            Some(if status == Ok && r.signer !in SignersOf(b.sigEntries) then Extended(b, EntryOf(c, r, r.prevHash))
                 else b))
    && (fp in s ==> (status == Ok <==> Accepts(c, t, s[fp], fp, r)))
    && (Addressed(s, fp, r) && r.signerArmoredKey == "" && SomePeerOffers(c, cfg, peers, r.signer) ==> r.signer in t)
    && (fp in s && SignerKnown(s, EntryOf(c, r, r.prevHash)) ==> (status == Ok <==> Accepts(c, s, s[fp], fp, r)))
    && (fp in s && !SignerKnown(s, EntryOf(c, r, r.prevHash)) && FirstPeerHas(c, cfg, s, peers, r.signer) ==>
          (status == Ok <==> Accepts(c, peers[0], s[fp], fp, r)))
    && (status == Ok ==> fp in s && !s[fp].revoked && r.signer in SignersOf(t[fp].sigEntries))
    && (!Addressed(s, fp, r) ==> t == s)
  }

  /** A signature from another node: the signer's block is fetched if missing. The entry keeps the sender's
      `prevHash`, which is not compared with the head. It is accepted exactly when it checks out against the keys
      then on the ledger; the signer's is among them if it was before, or if any peer has it. The check against a
      second signature by the same key looks at the block as it was before the fetch, which does not change it. */
  method HandleP2PReceiveSig(c: Crypto, cfg: Config, store: MemoryStore, peers: seq<Contents>, fp: Fp, r: SigRequest)
    returns (status: Status, ghost run: Run)
    modifies store
    ensures Ran(c, old(store.blocks), run, store.blocks)
    ensures ReceiveSigAnswered(c, cfg, old(store.blocks), peers, fp, r, status, store.blocks)
  {
    run := Start;
    if r.signer == "" || r.sig == "" || r.prevHash == "" || fp == "" {
      return BadRequest, run;
    }
    var found := store.Get(fp);
    if found == None {
      return BadRequest, run;
    }
    var block := found.value;
    if block.revoked {
      return BadRequest, run;
    }
    var key;
    key, run := SenderKey(c, cfg, store, peers, r.signer, r.signerArmoredKey);
    if key == None {
      return BadRequest, run;
    }
    ghost var now := store.blocks;
    ghost var more;
    status, more := CheckAndStore(c, store, fp, r, block, key.value);
    RanOn(c, old(store.blocks), run, now, more, store.blocks);
    run := Concat(run, more);
    CheckedIsAnswered(c, cfg, old(store.blocks), now, peers, fp, r, status, store.blocks);
  }

  /** What the check with the key found adds up to. */
  lemma CheckedIsAnswered(c: Crypto, cfg: Config, s: Contents, now: Contents, peers: seq<Contents>, fp: Fp,
                          r: SigRequest, status: Status, t: Contents)
    requires Addressed(s, fp, r) && AllKept(s, now) && SignerKnown(now, EntryOf(c, r, r.prevHash))
    requires SignerKnown(s, EntryOf(c, r, r.prevHash)) ==> now == s
    requires !SignerKnown(s, EntryOf(c, r, r.prevHash)) && FirstPeerHas(c, cfg, s, peers, r.signer) ==>
      now[r.signer].armoredKey == peers[0][r.signer].armoredKey
    requires status in {Ok, BadRequest} && (status == Ok <==> Accepts(c, now, s[fp], fp, r))
    requires t == if status == Ok && r.signer !in SignersOf(s[fp].sigEntries)
                  then Signed(now, fp, EntryOf(c, r, r.prevHash)) else now
    requires status == Ok ==> r.signer in SignersOf(t[fp].sigEntries)
    ensures ReceiveSigAnswered(c, cfg, s, peers, fp, r, status, t)
  {
    SameKeyAccepts(c, now, t, s[fp], fp, r);
    if !SignerKnown(s, EntryOf(c, r, r.prevHash)) && FirstPeerHas(c, cfg, s, peers, r.signer) {
      SameKeyAccepts(c, now, peers[0], s[fp], fp, r);
    }
  }

  /** Stores the entry if its signature verifies under the key, its signer has not signed the block before, and its
      claimed hash, if any, is the computed one. */
  method CheckAndStore(c: Crypto, store: MemoryStore, fp: Fp, r: SigRequest, block: Block, key: string)
    returns (status: Status, ghost run: Run)
    requires fp in store.blocks && store.blocks[fp] == block
    requires SignerKnown(store.blocks, EntryOf(c, r, r.prevHash))
    requires key == SignerKey(store.blocks, EntryOf(c, r, r.prevHash))
    modifies store
    ensures Ran(c, old(store.blocks), run, store.blocks) && (status == Ok || status == BadRequest)
    ensures status == Ok <==>
      GenuineEntry(c, old(store.blocks), block.hash, EntryOf(c, r, r.prevHash)) &&
      (r.signer in SignersOf(block.sigEntries) || r.claimedHash == "" ||
       r.claimedHash == EntryOf(c, r, r.prevHash).hash)
    ensures store.blocks ==
      if status == Ok && r.signer !in SignersOf(block.sigEntries)
      then Signed(old(store.blocks), fp, EntryOf(c, r, r.prevHash)) else old(store.blocks)
    ensures status == Ok ==> r.signer in SignersOf(store.blocks[fp].sigEntries)
  {
    run := Start;
    if !c.verify(TrustPayload(block.hash, r.signer, r.timestamp), r.sig, key) {
      return BadRequest, run;
    }
    var signedBefore := Signs(block, r.signer);
    if signedBefore {
      return Ok, run;
    }
    var computed := ComputeSigEntryHash(c.sha, r.prevHash, r.signer, r.sig, r.timestamp);
    if r.claimedHash != "" && r.claimedHash != computed {
      return BadRequest, run;
    }
    var entry := SigEntry(computed, r.prevHash, r.signer, r.sig, r.timestamp, r.signerArmoredKey, r.sourceNode);
    assert entry == EntryOf(c, r, r.prevHash);
    RanOne(c, store.blocks, NewSig(fp, entry));
    run := Then(Start, NewSig(fp, entry));
    var ok := store.AddSig(fp, entry);
    assert entry in store.blocks[fp].sigEntries;
    status := Ok;
  }

  /** What is answered to a revocation from another node. */
  ghost predicate ReceiveRevokeAnswered(c: Crypto, s: Contents, fp: Fp, sig: string, status: Status, t: Contents) {
    && (status == Ok <==>
         (fp != "" && sig != "" && fp in s &&
          (s[fp].revoked || Checked(c, s, NewRevocation(fp, sig)))))
    && (status == Ok && !s[fp].revoked ==>
         OneEvent(c, s, NewRevocation(fp, sig), t))
    && (status != Ok || s[fp].revoked ==> t == s)
    && status in {Ok, BadRequest}
  }

  /** A revocation from another node: as from a client, but a second one is no error. */
  method HandleP2PReceiveRevoke(c: Crypto, store: MemoryStore, fp: Fp, sig: string) returns (status: Status)
    modifies store
    ensures ReceiveRevokeAnswered(c, old(store.blocks), fp, sig, status, store.blocks)
  {
    if fp == "" || sig == "" {
      return BadRequest;
    }
    var found := store.Get(fp);
    if found == None {
      return BadRequest;
    }
    if found.value.revoked {
      return Ok;
    }
    if !c.verify(RevokePayload(fp, found.value.hash), sig, found.value.armoredKey) {
      return BadRequest;
    }
    var ok := store.Revoke(fp, sig);
    status := Ok;
  }

  // ---------- over any run from an empty ledger ----------

  /** Everything any run of the handlers and of sync stores from an empty ledger verifies, each signer without
      an inline key has a block, no key has signed a block twice, and from any point on nothing is lost. */
  lemma LedgersAreSound(c: Crypto, run: Run, more: Run)
    requires AllChecked(c, map[], Concat(run, more))
    ensures Sound(c, After(map[], Concat(run, more)))
    ensures Grown(After(map[], run), After(map[], Concat(run, more)))
  {
    RunSplit(c, map[], run, more);
    RunKeeps(c, map[], run);
    RunKeeps(c, After(map[], run), more);
  }

  /** What may reach a node: requests from clients and from other nodes, and the start of a sync. */
  datatype Request =
    | AddBlock(block: BlockRequest)
    | SignBlock(fp: Fp, signature: SigRequest)
    | RevokeBlock(fp: Fp, sig: string)
    | ReceiveBlock(block: BlockRequest)
    | ReceiveSig(fp: Fp, signature: SigRequest, peers: seq<Contents>)
    | ReceiveRevoke(fp: Fp, sig: string)
    | Sync(peer: Contents)
  {
    /** Entries are appended with a `prevHash` that another node has chosen. */
    predicate TrustsPrevHash() { ReceiveSig? || Sync? }
  }

  /** The request is answered as its handler answers it; a sync has no answer. */
  ghost predicate Answered(c: Crypto, cfg: Config, s: Contents, req: Request, status: Status, t: Contents) {
    match req
    case AddBlock(r) => AddBlockAnswered(c, cfg, s, r, status, t)
    case SignBlock(fp, r) => SignBlockAnswered(c, s, fp, r, status, t)
    case RevokeBlock(fp, sig) => RevokeBlockAnswered(c, s, fp, sig, status, t)
    case ReceiveBlock(r) => ReceiveBlockAnswered(c, cfg, s, r, status, t)
    case ReceiveSig(fp, r, peers) => ReceiveSigAnswered(c, cfg, s, peers, fp, r, status, t)
    case ReceiveRevoke(fp, sig) => ReceiveRevokeAnswered(c, s, fp, sig, status, t)
    case Sync(peer) => status == Ok && SyncedWith(c, cfg, s, peer, t)
  }

  /** Every request is answered by its handler, and changes the ledger by checked events only. */
  method ServeOne(c: Crypto, cfg: Config, store: MemoryStore, req: Request) returns (status: Status, ghost run: Run)
    modifies store
    ensures Answered(c, cfg, old(store.blocks), req, status, store.blocks)
    ensures Ran(c, old(store.blocks), run, store.blocks)
    ensures !req.TrustsPrevHash() ==> AllOnHead(old(store.blocks), run)
  {
    ghost var before := store.blocks;
    run := Start;
    match req {
      case AddBlock(r) =>
        status := HandleAddBlock(c, cfg, store, r);
        if status == Created {
          ghost var (fp, uids) := c.parse(r.armoredKey).value;
          run := Then(Start, NewBlock(NewBlockOf(c, r, fp, uids)));
        }
      case SignBlock(fp, r) =>
        status := HandleSignBlock(c, store, fp, r);
        if status == Ok {
          run := Then(Start, NewSig(fp, EntryOf(c, r, ContinuesFrom(before[fp]))));
        }
      case RevokeBlock(fp, sig) =>
        status := HandleRevokeBlock(c, store, fp, sig);
        if status == Ok {
          run := Then(Start, NewRevocation(fp, sig));
        }
      case ReceiveBlock(r) =>
        status := HandleP2PReceiveBlock(c, cfg, store, r);
        if store.blocks != before {
          ghost var (fp, uids) := c.parse(r.armoredKey).value;
          run := Then(Start, NewBlock(NewBlockOf(c, r, fp, uids)));
        }
      case ReceiveSig(fp, r, peers) =>
        status, run := HandleP2PReceiveSig(c, cfg, store, peers, fp, r);
      case ReceiveRevoke(fp, sig) =>
        status := HandleP2PReceiveRevoke(c, store, fp, sig);
        if store.blocks != before {
          run := Then(Start, NewRevocation(fp, sig));
        }
      case Sync(peer) =>
        run := SyncWithPeer(c, cfg, store, peer);
        status := Ok;
    }
  }

  /** The ledger went through `states`, one request at a time, each answered on the ledger the one before left. */
  ghost predicate AllAnswered(c: Crypto, cfg: Config, requests: seq<Request>, statuses: seq<Status>,
                              states: seq<Contents>) {
    && |states| == |statuses| + 1 && |statuses| == |requests|
    && forall i :: 0 <= i < |requests| ==> Answered(c, cfg, states[i], requests[i], statuses[i], states[i + 1])
  }

  lemma OneMoreAnswered(c: Crypto, cfg: Config, requests: seq<Request>, statuses: seq<Status>, states: seq<Contents>,
                        req: Request, status: Status, t: Contents)
    requires AllAnswered(c, cfg, requests, statuses, states)
    requires Answered(c, cfg, states[|requests|], req, status, t)
    ensures AllAnswered(c, cfg, requests + [req], statuses + [status], states + [t])
  {
    var n := |requests|;
    forall i | 0 <= i < n + 1
      ensures Answered(c, cfg, (states + [t])[i], (requests + [req])[i], (statuses + [status])[i],
                       (states + [t])[i + 1])
    {
      if i < n {
        assert (states + [t])[i] == states[i] && (states + [t])[i + 1] == states[i + 1];
      }
    }
  }

  /** Whatever reaches a node, in whatever order, is answered by the handlers one after the other, and is one run of
      checked events: a sound ledger stays sound, nothing stored is lost or changed, and chains that were intact are so
      afterwards if and only if every entry of the run continued from the head, which it did if none was taken over
      with another node's `prevHash`. */
  method Serve(c: Crypto, cfg: Config, store: MemoryStore, requests: seq<Request>)
    returns (statuses: seq<Status>, ghost states: seq<Contents>, ghost run: Run)
    requires Sound(c, store.blocks)
    modifies store
    ensures AllAnswered(c, cfg, requests, statuses, states)
    ensures states[0] == old(store.blocks) && states[|requests|] == store.blocks
    ensures Ran(c, old(store.blocks), run, store.blocks)
    ensures Sound(c, store.blocks) && Grown(old(store.blocks), store.blocks)
    ensures (forall x :: c.sha(x) != "") && AllChainsOk(c, old(store.blocks)) ==>
      (AllChainsOk(c, store.blocks) <==> AllOnHead(old(store.blocks), run))
    ensures (forall req :: req in requests ==> !req.TrustsPrevHash()) ==> AllOnHead(old(store.blocks), run)
  {
    ghost var start := store.blocks;
    run, statuses, states := Start, [], [start];
    for i := 0 to |requests|
      invariant AllAnswered(c, cfg, requests[..i], statuses, states)
      invariant states[0] == start && states[i] == store.blocks
      invariant Ran(c, start, run, store.blocks)
      invariant (forall req :: req in requests[..i] ==> !req.TrustsPrevHash()) ==> AllOnHead(start, run)
    {
      assert requests[..i + 1] == requests[..i] + [requests[i]];
      ghost var before := store.blocks;
      ghost var more;
      var status;
      status, more := ServeOne(c, cfg, store, requests[i]);
      OneMoreAnswered(c, cfg, requests[..i], statuses, states, requests[i], status, store.blocks);
      statuses, states := statuses + [status], states + [store.blocks];
      RanOn(c, start, run, before, more, store.blocks);
      AllOnHeadConcat(start, run, more);
      run := Concat(run, more);
    }
    assert requests[..|requests|] == requests;
    RunKeeps(c, start, run);
    if (forall x :: c.sha(x) != "") && AllChainsOk(c, start) {
      RunKeepsChains(c, start, run);
    }
  }

  lemma {:induction false} RunSplit(c: Crypto, s: Contents, run: Run, more: Run)
    requires AllChecked(c, s, Concat(run, more))
    ensures AllChecked(c, s, run) && AllChecked(c, After(s, run), more)
    ensures After(s, Concat(run, more)) == After(After(s, run), more)
  {
    if more.Then? {
      RunSplit(c, s, run, more.before);
    }
  }
}
