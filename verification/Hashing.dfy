/** Block and entry hashes, the chain check, and what two blocks that pass it have in common. */
module Hashing {
  import opened Ledger
  import opened Payloads

  // The hash function is a parameter: nothing is assumed about it but what a lemma asks for.

  /** The text hashed for a block. */
  ghost function BlockInput(b: Block): string {
    Joined([b.fingerprint, b.armoredKey, b.selfSig])
  }

  /** The text hashed for an entry. */
  ghost function InputOf(e: SigEntry): string {
    Joined([e.prevHash, e.signer, e.sig, Decimal(e.timestamp)])
  }

  ghost function BlockHash(sha: Digest, b: Block): Hash {
    sha(BlockInput(b))
  }

  ghost function EntryHash(sha: Digest, e: SigEntry): Hash {
    sha(InputOf(e))
  }

  /** Cut at its NULs, the text hashed for a block is its fingerprint, key and self-signature, in this order. */
  lemma BlockFields(b: Block)
    requires Clean(b.fingerprint) && Clean(b.armoredKey) && Clean(b.selfSig)
    ensures Split(BlockInput(b)) == [b.fingerprint, b.armoredKey, b.selfSig]
  {
    SplitJoined([b.fingerprint, b.armoredKey, b.selfSig]);
  }

  /** And the text hashed for an entry is what it continues from, its signer, signature and timestamp. */
  lemma EntryFields(e: SigEntry)
    requires CleanEntry(e)
    ensures Split(InputOf(e)) == [e.prevHash, e.signer, e.sig, Decimal(e.timestamp)]
  {
    ParseDecimal(e.timestamp);
    SplitJoined([e.prevHash, e.signer, e.sig, Decimal(e.timestamp)]);
  }

  /** Hashes the joined fields of a block. */
  method ComputeBlockHash(sha: Digest, fingerprint: string, armoredKey: string, selfSig: string) returns (h: Hash)
    ensures forall b: Block :: b.fingerprint == fingerprint && b.armoredKey == armoredKey && b.selfSig == selfSig ==>
      h == BlockHash(sha, b)
  {
    var buf := JoinFields([fingerprint, armoredKey, selfSig]);
    h := sha(buf);
  }

  /** Hashes the joined fields of an entry. */
  method ComputeSigEntryHash(sha: Digest, prevHash: Hash, signer: string, sig: string, timestamp: int)
    returns (h: Hash)
    ensures forall e: SigEntry ::
      e.prevHash == prevHash && e.signer == signer && e.sig == sig && e.timestamp == timestamp ==>
        h == EntryHash(sha, e)
  {
    var buf := JoinFields([prevHash, signer, sig, Decimal(timestamp)]);
    h := sha(buf);
  }

  ghost predicate VerifyBlockHash(sha: Digest, b: Block) {
    b.hash == BlockHash(sha, b)
  }

  /** Each entry continues from the one before it, the first from the block. */
  ghost predicate Linked(b: Block) {
    LinkedFrom(b.hash, b.sigEntries)
  }

  ghost predicate HashesMatch(sha: Digest, b: Block) {
    forall i :: 0 <= i < |b.sigEntries| ==> b.sigEntries[i].hash == EntryHash(sha, b.sigEntries[i])
  }

  ghost predicate Intact(sha: Digest, b: Block) {
    Linked(b) && HashesMatch(sha, b) && b.sigChainHead == LastHash(b.sigEntries)
  }

  /** Walks the chain: first link, then each entry's hash and link, then the head. */
  method VerifySigChain(sha: Digest, b: Block) returns (ok: bool)
    ensures ok <==> Intact(sha, b)
  {
    if |b.sigEntries| == 0 {
      return b.sigChainHead == "";
    }
    if b.sigEntries[0].prevHash != b.hash {
      assert !Follows(b.hash, b.sigEntries, 0);
      return false;
    }
    for i := 0 to |b.sigEntries|
      invariant forall j {:trigger Follows(b.hash, b.sigEntries, j)} :: 0 <= j < i ==> Follows(b.hash, b.sigEntries, j)
      invariant forall j :: 0 <= j < i ==> b.sigEntries[j].hash == EntryHash(sha, b.sigEntries[j])
    {
      var e := b.sigEntries[i];
      var computed := ComputeSigEntryHash(sha, e.prevHash, e.signer, e.sig, e.timestamp);
      if e.hash != computed {
        return false;
      }
      if i > 0 && e.prevHash != b.sigEntries[i - 1].hash {
        assert !Follows(b.hash, b.sigEntries, i);
        return false;
      }
    }
    return b.sigChainHead == b.sigEntries[|b.sigEntries| - 1].hash;
  }

  // ---------- tamper evidence ----------

  predicate CleanEntry(e: SigEntry) {
    Clean(e.prevHash) && Clean(e.signer) && Clean(e.sig)
  }

  predicate CleanBlock(b: Block) {
    Clean(b.fingerprint) && Clean(b.armoredKey) && Clean(b.selfSig)
    && forall i :: 0 <= i < |b.sigEntries| ==> CleanEntry(b.sigEntries[i])
  }

  /** The entries agree in everything that is hashed. */
  predicate SameSigned(e: SigEntry, f: SigEntry) {
    e.prevHash == f.prevHash && e.signer == f.signer && e.sig == f.sig && e.timestamp == f.timestamp
  }

  predicate Collision(sha: Digest, x: string, y: string) {
    x != y && sha(x) == sha(y)
  }

  lemma EntryInputDetermines(e: SigEntry, f: SigEntry)
    requires CleanEntry(e) && CleanEntry(f)
    ensures InputOf(e) == InputOf(f) <==> SameSigned(e, f)
  {
    EntryFields(e);
    EntryFields(f);
    if InputOf(e) == InputOf(f) {
      var p, q := Split(InputOf(e)), Split(InputOf(f));
      assert p[0] == q[0] && p[1] == q[1] && p[2] == q[2] && p[3] == q[3];
      DecimalInjective(e.timestamp, f.timestamp);
    }
  }

  lemma BlockInputDetermines(b: Block, c: Block)
    requires CleanBlock(b) && CleanBlock(c)
    ensures BlockInput(b) == BlockInput(c) <==>
            b.fingerprint == c.fingerprint && b.armoredKey == c.armoredKey && b.selfSig == c.selfSig
  {
    BlockFields(b);
    BlockFields(c);
    if BlockInput(b) == BlockInput(c) {
      var p, q := Split(BlockInput(b)), Split(BlockInput(c));
      assert p[0] == q[0] && p[1] == q[1] && p[2] == q[2];
    }
  }

  /** An entry and a block never hash the same text. */
  lemma InputKindsDiffer(b: Block, e: SigEntry)
    requires CleanBlock(b) && CleanEntry(e)
    ensures BlockInput(b) != InputOf(e)
  {
    BlockFields(b);
    EntryFields(e);
  }

  /** Two chains of equal length below places `m` and `n`, or a collision, working back from equal hashes. */
  lemma {:induction false} ChainsAgree(sha: Digest, b: Block, c: Block, m: nat, n: nat) returns (x: string, y: string)
    requires CleanBlock(b) && CleanBlock(c) && VerifyBlockHash(sha, b) && VerifyBlockHash(sha, c)
    requires Linked(b) && Linked(c) && HashesMatch(sha, b) && HashesMatch(sha, c)
    requires b.hash == c.hash && m <= |b.sigEntries| && n <= |c.sigEntries|
    requires PrevOf(b.hash, b.sigEntries, m) == PrevOf(c.hash, c.sigEntries, n)
    ensures Collision(sha, x, y) || (m == n && forall i :: 0 <= i < m ==> SameSigned(b.sigEntries[i], c.sigEntries[i]))
    decreases m + n
  {
    x, y := "", "";
    if m > 0 && n > 0 {
      var e, f := b.sigEntries[m - 1], c.sigEntries[n - 1];
      EntryInputDetermines(e, f);
      assert Follows(b.hash, b.sigEntries, m - 1) && Follows(c.hash, c.sigEntries, n - 1);
      if SameSigned(e, f) {
        x, y := ChainsAgree(sha, b, c, m - 1, n - 1);
      } else {
        x, y := InputOf(e), InputOf(f);
      }
    } else if m > 0 {
      InputKindsDiffer(c, b.sigEntries[m - 1]);
      x, y := BlockInput(c), InputOf(b.sigEntries[m - 1]);
    } else if n > 0 {
      InputKindsDiffer(b, c.sigEntries[n - 1]);
      x, y := BlockInput(b), InputOf(c.sigEntries[n - 1]);
    }
  }

  /** Tamper evidence: two intact blocks with the same hash and the same head have the same key material and
      the same chain, entry by entry; otherwise the proof gives two texts with the same hash. */
  lemma TamperEvident(sha: Digest, b: Block, c: Block) returns (x: string, y: string)
    requires forall s :: sha(s) != ""
    requires CleanBlock(b) && CleanBlock(c)
    requires VerifyBlockHash(sha, b) && Intact(sha, b) && VerifyBlockHash(sha, c) && Intact(sha, c)
    requires b.hash == c.hash && b.sigChainHead == c.sigChainHead
    ensures Collision(sha, x, y) ||
      (b.fingerprint == c.fingerprint && b.armoredKey == c.armoredKey && b.selfSig == c.selfSig
       && |b.sigEntries| == |c.sigEntries|
       && forall i :: 0 <= i < |b.sigEntries| ==>
            SameSigned(b.sigEntries[i], c.sigEntries[i]) && b.sigEntries[i].hash == c.sigEntries[i].hash)
  {
    BlockInputDetermines(b, c);
    if BlockInput(b) != BlockInput(c) {
      x, y := BlockInput(b), BlockInput(c);
    } else {
      x, y := ChainsAgree(sha, b, c, |b.sigEntries|, |c.sigEntries|);
    }
  }

  /** Appending an entry that continues from the head keeps a chain intact. */
  lemma AppendKeepsIntact(sha: Digest, b: Block, e: SigEntry)
    requires Intact(sha, b)
    requires forall i :: 0 <= i < |b.sigEntries| ==> b.sigEntries[i].hash != ""
    requires e.hash == EntryHash(sha, e)
    ensures var c := b.(sigEntries := b.sigEntries + [e], sigChainHead := e.hash);
      Intact(sha, c) <==> e.prevHash == if b.sigChainHead == "" then b.hash else b.sigChainHead
  {
    var c := b.(sigEntries := b.sigEntries + [e], sigChainHead := e.hash);
    var n := |b.sigEntries|;
    assert Follows(c.hash, c.sigEntries, n) <==> e.prevHash == PrevOf(b.hash, b.sigEntries, n);
    forall i | 0 <= i < n ensures Follows(c.hash, c.sigEntries, i) {
      assert Follows(b.hash, b.sigEntries, i);
    }
  }
}
