/** The persistent stores ask for chains that are linked under distinct hashes. Why what the handlers keep is enough
    for that: where it is not, two texts have the same digest. */
module LedgerStores {
  import opened SigningGraph
  import opened Ledger
  import opened Payloads
  import opened Hashing
  import opened ChainRebuild
  import opened MemoryStores
  import opened SqliteStores
  import opened LedgerRules

  /** No field that is hashed contains a NUL. */
  ghost predicate AllClean(s: Contents) {
    forall fp :: fp in s ==> CleanBlock(s[fp])
  }

  /** What a ledger of the handlers keeps. */
  ghost predicate InGoodOrder(c: Crypto, s: Contents) {
    Sound(c, s) && AllChainsOk(c, s) && AllClean(s)
  }

  /** Two entries with one hash agree in all that is signed, or collide. */
  lemma SameHashSameSigned(sha: Digest, e: SigEntry, f: SigEntry) returns (x: string, y: string)
    requires CleanEntry(e) && CleanEntry(f) && e.hash == EntryHash(sha, e) && f.hash == EntryHash(sha, f)
    requires e.hash == f.hash
    ensures Collision(sha, x, y) || SameSigned(e, f)
  {
    EntryInputDetermines(e, f);
    x, y := InputOf(e), InputOf(f);
  }

  /** A sound block whose chain is intact is linked under distinct hashes. */
  lemma SoundIsWellChained(c: Crypto, s: Contents, fp: Fp) returns (x: string, y: string)
    requires fp in s && SoundAt(c, s, fp) && ChainOk(c, s[fp]) && CleanBlock(s[fp])
    ensures Collision(c.sha, x, y) || WellChained(s[fp])
  {
    var b := s[fp];
    x, y := "", "";
    if i :| 0 <= i < |b.sigEntries| && b.sigEntries[i].hash == b.hash {
      InputKindsDiffer(b, b.sigEntries[i]);
      x, y := BlockInput(b), InputOf(b.sigEntries[i]);
    } else if i, j :| 0 <= i < j < |b.sigEntries| && b.sigEntries[i].hash == b.sigEntries[j].hash {
      x, y := SameHashSameSigned(c.sha, b.sigEntries[i], b.sigEntries[j]);
    } else {
      assert LinkedFrom(b.hash, b.sigEntries);
    }
  }

  /** So is every chain of a sound ledger whose chains are intact. */
  lemma LedgerIsWellChained(c: Crypto, s: Contents) returns (x: string, y: string)
    requires InGoodOrder(c, s)
    ensures Collision(c.sha, x, y) || AllWellChained(s)
  {
    x, y := "", "";
    if fp :| fp in s && !WellChained(s[fp]) {
      assert SoundAt(c, s, fp);
      x, y := SoundIsWellChained(c, s, fp);
    } else {
      assert forall fp :: fp in s ==> SoundAt(c, s, fp);
    }
  }

  /** An entry that passes the checks and continues from the head extends the chain under a hash of its own. */
  lemma OnHeadExtends(c: Crypto, s: Contents, fp: Fp, e: SigEntry) returns (x: string, y: string)
    requires (forall t :: c.sha(t) != "") && Sound(c, s) && Checked(c, s, NewSig(fp, e)) && OnHead(s, NewSig(fp, e))
    requires ChainOk(c, s[fp]) && CleanBlock(s[fp]) && CleanEntry(e)
    ensures Collision(c.sha, x, y) || Extends(s[fp], e)
  {
    var b := s[fp];
    assert SoundAt(c, s, fp);
    x, y := "", "";
    if e.hash == b.hash {
      InputKindsDiffer(b, e);
      x, y := BlockInput(b), InputOf(e);
    } else if i :| 0 <= i < |b.sigEntries| && b.sigEntries[i].hash == e.hash {
      x, y := SameHashSameSigned(c.sha, b.sigEntries[i], e);
      assert b.sigEntries[i] in b.sigEntries;
    }
  }

  /** The chains of two keys do not meet: working back from equal hashes ends in two texts with the same digest. */
  lemma {:induction false} ChainsApart(sha: Digest, b: Block, d: Block, m: nat, n: nat) returns (x: string, y: string)
    requires CleanBlock(b) && CleanBlock(d) && VerifyBlockHash(sha, b) && VerifyBlockHash(sha, d)
    requires Linked(b) && Linked(d) && HashesMatch(sha, b) && HashesMatch(sha, d)
    requires b.fingerprint != d.fingerprint && m <= |b.sigEntries| && n <= |d.sigEntries|
    requires PrevOf(b.hash, b.sigEntries, m) == PrevOf(d.hash, d.sigEntries, n)
    ensures Collision(sha, x, y)
    decreases m
  {
    if m > 0 && n > 0 {
      var e, f := b.sigEntries[m - 1], d.sigEntries[n - 1];
      x, y := SameHashSameSigned(sha, e, f);
      if !Collision(sha, x, y) {
        assert Follows(b.hash, b.sigEntries, m - 1) && Follows(d.hash, d.sigEntries, n - 1);
        x, y := ChainsApart(sha, b, d, m - 1, n - 1);
      }
    } else if m > 0 {
      InputKindsDiffer(d, b.sigEntries[m - 1]);
      x, y := BlockInput(d), InputOf(b.sigEntries[m - 1]);
    } else if n > 0 {
      InputKindsDiffer(b, d.sigEntries[n - 1]);
      x, y := BlockInput(b), InputOf(d.sigEntries[n - 1]);
    } else {
      BlockInputDetermines(b, d);
      x, y := BlockInput(b), BlockInput(d);
    }
  }

  /** Nor is the hash of such an entry used in the chain of another key. */
  lemma OnHeadUnused(c: Crypto, s: Contents, fp: Fp, e: SigEntry, g: Fp, i: nat) returns (x: string, y: string)
    requires (forall t :: c.sha(t) != "") && Sound(c, s) && AllChainsOk(c, s) && AllClean(s) && CleanEntry(e)
    requires Checked(c, s, NewSig(fp, e)) && OnHead(s, NewSig(fp, e))
    requires g in s && g != fp && i < |s[g].sigEntries| && s[g].sigEntries[i].hash == e.hash
    ensures Collision(c.sha, x, y)
  {
    var b, d, f := s[fp], s[g], s[g].sigEntries[i];
    assert SoundAt(c, s, fp) && SoundAt(c, s, g) && ChainOk(c, b) && ChainOk(c, d);
    x, y := SameHashSameSigned(c.sha, f, e);
    if !Collision(c.sha, x, y) {
      assert Follows(d.hash, d.sigEntries, i);
      x, y := ChainsApart(c.sha, b, d, |b.sigEntries|, i);
    }
  }

  // ---------- runs ----------

  /** A read, or what a handler writes: an event that passes the checks, an entry continuing from the head, and
      no NUL in a field. */
  ghost predicate FromHandlers(c: Crypto, s: Contents, op: Op) {
    match op
    case OpAdd(b) => Checked(c, s, NewBlock(b)) && CleanBlock(b)
    case OpAddSig(fp, e) => Checked(c, s, NewSig(fp, e)) && OnHead(s, NewSig(fp, e)) && CleanEntry(e)
    case OpRevoke(fp, sig) => Checked(c, s, NewRevocation(fp, sig))
    case _ => true
  }

  ghost predicate AllFromHandlers(c: Crypto, s: Contents, ops: seq<Op>) {
    forall i {:trigger FromHandlers(c, AfterOps(s, ops[..i]), ops[i])} :: 0 <= i < |ops| ==>
      FromHandlers(c, AfterOps(s, ops[..i]), ops[i])
  }

  lemma StaysInOrder(c: Crypto, s: Contents, op: Op)
    requires (forall t :: c.sha(t) != "") && InGoodOrder(c, s) && FromHandlers(c, s, op)
    ensures InGoodOrder(c, Next(s, op))
  {
    match op
    case OpAdd(b) =>
      ApplySound(c, s, NewBlock(b));
      ApplyKeepsChains(c, s, NewBlock(b));
    case OpAddSig(fp, e) =>
      ApplySound(c, s, NewSig(fp, e));
      ApplyKeepsChains(c, s, NewSig(fp, e));
    case OpRevoke(fp, sig) =>
      ApplySound(c, s, NewRevocation(fp, sig));
      ApplyKeepsChains(c, s, NewRevocation(fp, sig));
    case _ =>
  }

  /** Each write of the handlers is one that both persistent stores answer as the in-memory store does. */
  lemma WriteIsAdmissible(c: Crypto, s: Contents, op: Op) returns (x: string, y: string)
    requires (forall t :: c.sha(t) != "") && InGoodOrder(c, s) && FromHandlers(c, s, op)
    ensures Collision(c.sha, x, y) || DbAdmissible(s, op)
  {
    x, y := "", "";
    match op
    case OpAdd(b) =>
      if fp :| fp in s && s[fp].hash == b.hash {
        assert SoundAt(c, s, fp);
        BlockInputDetermines(b, s[fp]);
        x, y := BlockInput(b), BlockInput(s[fp]);
      }
    case OpAddSig(fp, e) =>
      x, y := OnHeadExtends(c, s, fp, e);
      if !Collision(c.sha, x, y) && !Unused(s, e.hash) {
        var g, f :| g in s && f in s[g].sigEntries && f.hash == e.hash;
        var i :| 0 <= i < |s[g].sigEntries| && s[g].sigEntries[i] == f;
        x, y := OnHeadUnused(c, s, fp, e, g, i);
      }
    case _ =>
  }

  /** Over every run of them, from a ledger in good order, both persistent stores run in lockstep with the in-memory
      one, or two texts have the same digest. */
  lemma {:induction false} HandlersKeepLockstep(c: Crypto, s: Contents, ops: seq<Op>) returns (x: string, y: string)
    requires (forall t :: c.sha(t) != "") && InGoodOrder(c, s) && AllFromHandlers(c, s, ops)
    ensures InGoodOrder(c, AfterOps(s, ops))
    ensures Collision(c.sha, x, y) || (AllAdmissible(s, ops) && AllDbAdmissible(s, ops))
    decreases |ops|
  {
    x, y := "", "";
    if |ops| > 0 {
      var n := |ops| - 1;
      var before := ops[..n];
      assert forall i :: 0 <= i < n ==> before[..i] == ops[..i];
      assert FromHandlers(c, AfterOps(s, ops[..n]), ops[n]);
      x, y := HandlersKeepLockstep(c, s, before);
      StaysInOrder(c, AfterOps(s, before), ops[n]);
      if !Collision(c.sha, x, y) {
        x, y := WriteIsAdmissible(c, AfterOps(s, before), ops[n]);
        forall i | 0 <= i < |ops| && !Collision(c.sha, x, y)
          ensures DbAdmissible(AfterOps(s, ops[..i]), ops[i])
        {
          if i < n { assert DbAdmissible(AfterOps(s, before[..i]), before[i]); }
        }
      }
    }
  }
}
