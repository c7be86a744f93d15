/** What may happen to a ledger, what every ledger keeps, and what can only grow. */
module LedgerRules {
  import opened SigningGraph
  import opened Ledger
  import opened Payloads
  import opened Hashing
  import opened MemoryStores

  /** Key parsing, key strength, e-mail domains, signature checking and hashing: any functions at all. */
  datatype Crypto = Crypto(
    parse: string -> Option<(Fp, seq<string>)>,
    strong: string -> bool,
    domains: seq<string> -> seq<string>,
    verify: (string, string, string) -> bool,
    sha: Digest)

  /** Which keys a node accepts. */
  datatype Config = Config(allowAll: bool, allowed: seq<string>)

  /** Some domain of the key stands in the list. */
  ghost predicate SomeDomainListed(keyDomains: seq<string>, allowed: seq<string>) {
    exists i, j :: 0 <= i < |keyDomains| && 0 <= j < |allowed| && keyDomains[i] == allowed[j]
  }

  /** One listed domain is enough, whatever other addresses the key has. */
  lemma OneListedSuffices(before: seq<string>, d: string, after: seq<string>, allowed: seq<string>)
    requires d in allowed
    ensures SomeDomainListed(before + [d] + after, allowed)
  {
    var j :| 0 <= j < |allowed| && allowed[j] == d;
    assert (before + [d] + after)[|before|] == allowed[j];
  }

  /** Compares each domain of the key with each of the list. */
  method DomainAllowed(keyDomains: seq<string>, allowed: seq<string>) returns (ok: bool)
    ensures ok <==> exists i, j :: 0 <= i < |keyDomains| && 0 <= j < |allowed| && keyDomains[i] == allowed[j]
  {
    for i := 0 to |keyDomains|
      invariant forall k, j :: 0 <= k < i && 0 <= j < |allowed| ==> keyDomains[k] != allowed[j]
    {
      for j := 0 to |allowed|
        invariant forall k :: 0 <= k < j ==> keyDomains[i] != allowed[k]
      {
        if keyDomains[i] == allowed[j] {
          return true;
        }
      }
    }
    return false;
  }

  /** The node takes keys with these domains. */
  ghost predicate TakesDomains(cfg: Config, keyDomains: seq<string>) {
    cfg.allowAll || SomeDomainListed(keyDomains, cfg.allowed)
  }

  // ---------- events ----------

  datatype Event =
    | NewBlock(block: Block)
    | NewSig(fp: Fp, entry: SigEntry)
    | NewRevocation(fp: Fp, sig: string)

  /** The block is its key's own: the fingerprint is the key's, the hash matches and the self-signature
      verifies. */
  ghost predicate Genuine(c: Crypto, b: Block) {
    && c.parse(b.armoredKey) == Some((b.fingerprint, b.uids)) && c.strong(b.armoredKey)
    && VerifyBlockHash(c.sha, b)
    && c.verify(SubmitPayload(c.sha, b.fingerprint, b.armoredKey, b.submitTimestamp), b.selfSig, b.armoredKey)
  }

  /** The signer has a block or brings the key along. */
  predicate SignerKnown(s: Contents, e: SigEntry) {
    e.signerArmoredKey != "" || e.signer in s
  }

  function SignerKey(s: Contents, e: SigEntry): string
    requires SignerKnown(s, e)
  {
    if e.signerArmoredKey != "" then e.signerArmoredKey else s[e.signer].armoredKey
  }

  /** The entry's hash matches and its signature on the block verifies under the signer's key. */
  ghost predicate GenuineEntry(c: Crypto, s: Contents, blockHash: Hash, e: SigEntry) {
    && SignerKnown(s, e) && e.hash == EntryHash(c.sha, e)
    && c.verify(TrustPayload(blockHash, e.signer, e.timestamp), e.sig, SignerKey(s, e))
  }

  /** What the handlers and the sync check before they store something. */
  ghost predicate Checked(c: Crypto, s: Contents, ev: Event) {
    match ev
    case NewBlock(b) => b.fingerprint !in s && IsNew(b) && Genuine(c, b)
    case NewSig(fp, e) => fp in s && e.signer !in SignersOf(s[fp].sigEntries) && GenuineEntry(c, s, s[fp].hash, e)
    case NewRevocation(fp, sig) =>
      fp in s && !s[fp].revoked && c.verify(RevokePayload(fp, s[fp].hash), sig, s[fp].armoredKey)
  }

  function Apply(s: Contents, ev: Event): Contents {
    match ev
    case NewBlock(b) => Added(s, b)
    case NewSig(fp, e) => Signed(s, fp, e)
    case NewRevocation(fp, sig) => Revoked(s, fp, sig)
  }

  // ---------- what every ledger keeps ----------

  ghost predicate OncePerSigner(b: Block) {
    forall i, j :: 0 <= i < j < |b.sigEntries| ==> b.sigEntries[i].signer != b.sigEntries[j].signer
  }

  ghost predicate SoundAt(c: Crypto, s: Contents, fp: Fp)
    requires fp in s
  {
    var b := s[fp];
    && b.fingerprint == fp && Genuine(c, b) && OncePerSigner(b)
    && (forall e :: e in b.sigEntries ==> GenuineEntry(c, s, b.hash, e))
    && (b.revoked ==> c.verify(RevokePayload(fp, b.hash), b.revocationSig, b.armoredKey))
  }

  /** Every block, entry and revocation still verifies, every signer without an inline key has a block, and no
      key has signed a block twice. */
  ghost predicate Sound(c: Crypto, s: Contents) {
    forall fp {:trigger SoundAt(c, s, fp)} :: fp in s ==> SoundAt(c, s, fp)
  }

  /** Nothing is lost from `s` to `t`: no block, no fixed field, no entry, no revocation. */
  ghost predicate GrownAt(s: Contents, t: Contents, fp: Fp)
    requires fp in s
  {
    && fp in t && Fixed(t[fp]) == Fixed(s[fp]) && s[fp].sigEntries <= t[fp].sigEntries
    && (s[fp].revoked ==> t[fp].revoked)
  }

  ghost predicate Grown(s: Contents, t: Contents) {
    forall fp {:trigger GrownAt(s, t, fp)} :: fp in s ==> GrownAt(s, t, fp)
  }

  lemma GrownTransitive(s: Contents, t: Contents, u: Contents)
    requires Grown(s, t) && Grown(t, u)
    ensures Grown(s, u)
  {
    forall fp | fp in s ensures GrownAt(s, u, fp) {
      assert GrownAt(s, t, fp) && GrownAt(t, u, fp);
    }
  }

  lemma ApplyGrows(c: Crypto, s: Contents, ev: Event)
    requires Checked(c, s, ev)
    ensures Grown(s, Apply(s, ev))
  {
    forall fp | fp in s ensures GrownAt(s, Apply(s, ev), fp) {
    }
  }

  /** A signature that verified keeps verifying as the ledger grows. */
  lemma GenuineStays(c: Crypto, s: Contents, t: Contents, blockHash: Hash, e: SigEntry)
    requires Grown(s, t) && GenuineEntry(c, s, blockHash, e)
    ensures GenuineEntry(c, t, blockHash, e)
  {
    if e.signerArmoredKey == "" {
      assert GrownAt(s, t, e.signer);
      assert Fixed(s[e.signer]).armoredKey == Fixed(t[e.signer]).armoredKey;
    }
  }

  lemma SoundStaysAt(c: Crypto, s: Contents, t: Contents, fp: Fp)
    requires fp in s && SoundAt(c, s, fp) && Grown(s, t) && fp in t && t[fp] == s[fp]
    ensures SoundAt(c, t, fp)
  {
    forall e | e in t[fp].sigEntries ensures GenuineEntry(c, t, t[fp].hash, e) {
      GenuineStays(c, s, t, s[fp].hash, e);
    }
  }

  /** Each event keeps the ledger sound. */
  lemma ApplySound(c: Crypto, s: Contents, ev: Event)
    requires Sound(c, s) && Checked(c, s, ev)
    ensures Sound(c, Apply(s, ev))
  {
    var t := Apply(s, ev);
    ApplyGrows(c, s, ev);
    forall fp | fp in t ensures SoundAt(c, t, fp) {
      assert fp in s ==> SoundAt(c, s, fp);
      if fp in s && t[fp] == s[fp] {
        SoundStaysAt(c, s, t, fp);
      } else {
        match ev
        case NewBlock(b) =>
        case NewSig(f, e) => SignedSound(c, s, f, e);
        case NewRevocation(f, sig) =>
          forall e | e in t[fp].sigEntries ensures GenuineEntry(c, t, t[fp].hash, e) {
            GenuineStays(c, s, t, s[fp].hash, e);
          }
      }
    }
  }

  lemma SignedSound(c: Crypto, s: Contents, fp: Fp, e: SigEntry)
    requires fp in s && SoundAt(c, s, fp) && Checked(c, s, NewSig(fp, e))
    ensures SoundAt(c, Signed(s, fp, e), fp)
  {
    var t := Signed(s, fp, e);
    ApplyGrows(c, s, NewSig(fp, e));
    forall f | f in t[fp].sigEntries ensures GenuineEntry(c, t, t[fp].hash, f) {
      GenuineStays(c, s, t, s[fp].hash, f);
    }
    forall i | 0 <= i < |s[fp].sigEntries| ensures s[fp].sigEntries[i].signer != e.signer {
      assert s[fp].sigEntries[i] in s[fp].sigEntries;
    }
  }

  // ---------- runs ----------

  /** A finite run of events. */
  datatype Run = Start | Then(before: Run, last: Event)

  /** The ledger after a run. */
  function After(s: Contents, run: Run): Contents {
    match run
    case Start => s
    case Then(before, ev) => Apply(After(s, before), ev)
  }

  ghost predicate AllChecked(c: Crypto, s: Contents, run: Run) {
    match run
    case Start => true
    case Then(before, ev) => AllChecked(c, s, before) && Checked(c, After(s, before), ev)
  }

  function Concat(run: Run, more: Run): Run {
    match more
    case Start => run
    case Then(before, ev) => Then(Concat(run, before), ev)
  }

  lemma {:induction false} RunConcat(c: Crypto, s: Contents, run: Run, more: Run)
    requires AllChecked(c, s, run) && AllChecked(c, After(s, run), more)
    ensures AllChecked(c, s, Concat(run, more)) && After(s, Concat(run, more)) == After(After(s, run), more)
  {
    if more.Then? {
      RunConcat(c, s, run, more.before);
    }
  }

  /** No run loses or changes anything that was stored. */
  lemma {:induction false} RunGrows(c: Crypto, s: Contents, run: Run)
    requires AllChecked(c, s, run)
    ensures Grown(s, After(s, run))
  {
    if run.Start? {
      forall fp | fp in s ensures GrownAt(s, s, fp) { }
    } else {
      RunGrows(c, s, run.before);
      var t := After(s, run.before);
      ApplyGrows(c, t, run.last);
      GrownTransitive(s, t, After(s, run));
    }
  }

  /** Over every run, from any sound ledger, the ledger stays sound and nothing stored is lost or changed. */
  lemma {:induction false} RunKeeps(c: Crypto, s: Contents, run: Run)
    requires Sound(c, s) && AllChecked(c, s, run)
    ensures Sound(c, After(s, run)) && Grown(s, After(s, run))
  {
    RunGrows(c, s, run);
    if run.Then? {
      RunKeeps(c, s, run.before);
      ApplySound(c, After(s, run.before), run.last);
    }
  }

  // ---------- linked chains ----------

  /** The chain is intact and no hash in it is the empty text. */
  ghost predicate ChainOk(c: Crypto, b: Block) {
    Intact(c.sha, b) && forall i :: 0 <= i < |b.sigEntries| ==> b.sigEntries[i].hash != ""
  }

  ghost predicate AllChainsOk(c: Crypto, s: Contents) {
    forall fp :: fp in s ==> ChainOk(c, s[fp])
  }

  /** An appended entry continues from the head. */
  ghost predicate OnHead(s: Contents, ev: Event) {
    match ev
    case NewSig(fp, e) => fp in s ==> e.prevHash == ContinuesFrom(s[fp])
    case _ => true
  }

  /** Every chain stays intact after an event if and only if an appended entry continues from the head. */
  lemma ApplyKeepsChains(c: Crypto, s: Contents, ev: Event)
    requires (forall x :: c.sha(x) != "") && AllChainsOk(c, s) && Checked(c, s, ev)
    ensures AllChainsOk(c, Apply(s, ev)) <==> OnHead(s, ev)
  {
    match ev
    case NewBlock(b) =>
      assert forall fp :: fp in Apply(s, ev) ==> fp in s || Apply(s, ev)[fp] == b;
    case NewRevocation(fp, sig) =>
      RevokedChain(c, s[fp], sig);
    case NewSig(fp, e) =>
      AppendKeepsIntact(c.sha, s[fp], e);
      var t := Apply(s, ev);
      assert t[fp] == Extended(s[fp], e);
      assert forall f :: f in s && f != fp ==> t[f] == s[f];
      assert t[fp].sigEntries[|s[fp].sigEntries|] == e;
  }

  lemma RevokedChain(c: Crypto, b: Block, sig: string)
    ensures ChainOk(c, b) <==> ChainOk(c, b.(revoked := true, revocationSig := sig))
  {
    var d := b.(revoked := true, revocationSig := sig);
    assert d.sigEntries == b.sigEntries && d.hash == b.hash && d.sigChainHead == b.sigChainHead;
  }

  ghost predicate AllOnHead(s: Contents, run: Run) {
    match run
    case Start => true
    case Then(before, ev) => AllOnHead(s, before) && OnHead(After(s, before), ev)
  }

  /** The head of each block is that of its last entry. */
  ghost predicate HeadsRecorded(s: Contents) {
    forall fp :: fp in s ==> s[fp].sigChainHead == LastHash(s[fp].sigEntries)
  }

  /** Every run keeps it so. */
  lemma {:induction false} RunKeepsHeads(c: Crypto, s: Contents, run: Run)
    requires HeadsRecorded(s) && AllChecked(c, s, run)
    ensures HeadsRecorded(After(s, run))
  {
    if run.Then? {
      RunKeepsHeads(c, s, run.before);
    }
  }

  /** An event mends no chain: entries are only appended, and the head recorded was right. */
  lemma BrokenStaysBroken(c: Crypto, s: Contents, ev: Event)
    requires HeadsRecorded(s) && Checked(c, s, ev) && AllChainsOk(c, Apply(s, ev))
    ensures AllChainsOk(c, s)
  {
    var t := Apply(s, ev);
    forall fp | fp in s ensures ChainOk(c, s[fp]) {
      var b, d := s[fp], t[fp];
      assert ChainOk(c, d) && d.hash == b.hash && b.sigEntries <= d.sigEntries;
      forall i | 0 <= i < |b.sigEntries| ensures Follows(b.hash, b.sigEntries, i) {
        assert Follows(d.hash, d.sigEntries, i);
      }
      forall i | 0 <= i < |b.sigEntries|
        ensures b.sigEntries[i].hash == EntryHash(c.sha, b.sigEntries[i]) && b.sigEntries[i].hash != ""
      {
        assert d.sigEntries[i] == b.sigEntries[i];
      }
    }
  }

  /** After any run every chain is intact if and only if every appended entry continued from the head. */
  lemma {:induction false} RunKeepsChains(c: Crypto, s: Contents, run: Run)
    requires (forall x :: c.sha(x) != "") && AllChainsOk(c, s) && AllChecked(c, s, run)
    ensures AllChainsOk(c, After(s, run)) <==> AllOnHead(s, run)
  {
    if run.Then? {
      var t := After(s, run.before);
      RunKeepsChains(c, s, run.before);
      assert HeadsRecorded(s);
      RunKeepsHeads(c, s, run.before);
      if AllChainsOk(c, After(s, run)) {
        BrokenStaysBroken(c, t, run.last);
      }
      if AllChainsOk(c, t) {
        ApplyKeepsChains(c, t, run.last);
      }
    }
  }

  lemma {:induction false} AllOnHeadConcat(s: Contents, run: Run, more: Run)
    ensures AllOnHead(s, Concat(run, more)) <==> AllOnHead(s, run) && AllOnHead(After(s, run), more)
    ensures After(s, Concat(run, more)) == After(After(s, run), more)
  {
    if more.Then? {
      AllOnHeadConcat(s, run, more.before);
    }
  }
}
