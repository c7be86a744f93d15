/** The store of one file for each block, entry and revocation, with a cache of rebuilt blocks, and why it
    gives the same answers as the in-memory store. */
module DirStores {
  import opened SigningGraph
  import opened Ledger
  import opened ChainRebuild
  import opened MemoryStores

  type SigFiles = map<Hash, SigEntry>

  function FilesOf(sigs: map<Fp, SigFiles>, fp: Fp): SigFiles {
    if fp in sigs then sigs[fp] else map[]
  }

  /** What the block file holds: the block without its chain. */
  ghost function WithoutChain(b: Block): Block {
    b.(sigEntries := [], sigChainHead := "")
  }

  /** A revocation file overrides what the block file says. */
  ghost function WithRevocation(b: Block, revokes: map<Fp, string>, fp: Fp): Block {
    if fp in revokes then b.(revoked := true, revocationSig := revokes[fp]) else b
  }

  /** `b` is what can be read from its files: some run of the entries from the block hash. */
  ghost predicate ReadFrom(b: Block, file: Block, files: SigFiles, revokes: map<Fp, string>, fp: Fp) {
    && ForwardRun(file.hash, files.Values, b.sigEntries)
    && b == WithRevocation(file.(sigEntries := b.sigEntries, sigChainHead := LastHash(b.sigEntries)), revokes, fp)
  }

  /** The entry files are the entries of the chain, each under its hash. */
  ghost predicate SigFilesHold(files: SigFiles, entries: seq<SigEntry>) {
    && (forall h :: h in files ==> files[h].hash == h && files[h] in entries)
    && (forall e :: e in entries ==> e.hash in files && files[e.hash] == e)
  }

  /** The files of one block hold it. */
  ghost predicate Holds(b: Block, file: Block, files: SigFiles, revokes: map<Fp, string>) {
    && WithoutChain(WithRevocation(file, revokes, b.fingerprint)) == WithoutChain(b)
    && SigFilesHold(files, b.sigEntries)
  }

  // ---------- order of strings, for the fallback between several tips ----------

  predicate Below(a: string, b: string) {
    if |b| == 0 then false
    else if |a| == 0 then true
    else a[0] < b[0] || (a[0] == b[0] && Below(a[1..], b[1..]))
  }

  /** At the first place where the texts differ the first has the smaller character, or there it ends. */
  ghost predicate SmallerAt(a: string, b: string, k: nat) {
    && k < |b| && k <= |a| && a[..k] == b[..k]
    && (k < |a| ==> a[k] < b[k])
  }

  lemma {:induction false} BelowIsSmaller(a: string, b: string)
    ensures Below(a, b) <==> exists k: nat :: SmallerAt(a, b, k)
    decreases |a|
  {
    if |a| > 0 && |b| > 0 && a[0] == b[0] {
      BelowIsSmaller(a[1..], b[1..]);
      if k: nat :| SmallerAt(a, b, k) {
        assert a[1..][..k - 1] == a[..k][1..] && b[1..][..k - 1] == b[..k][1..];
        assert SmallerAt(a[1..], b[1..], k - 1);
      }
      if k: nat :| SmallerAt(a[1..], b[1..], k) {
        assert a[..k + 1] == [a[0]] + a[1..][..k] && b[..k + 1] == [b[0]] + b[1..][..k];
        assert SmallerAt(a, b, k + 1);
      }
    } else if |b| > 0 && (|a| == 0 || a[0] < b[0]) {
      assert SmallerAt(a, b, 0);
    } else {
      forall k: nat ensures !SmallerAt(a, b, k) {
        assert 0 < k <= |a| && k <= |b| ==> a[..k][0] == a[0] && b[..k][0] == b[0];
      }
    }
  }

  lemma {:induction false} BelowTotal(a: string, b: string)
    ensures a == b || Below(a, b) || Below(b, a)
    decreases |a|
  {
    if |a| > 0 && |b| > 0 && a[0] == b[0] {
      BelowTotal(a[1..], b[1..]);
      if a[1..] == b[1..] {
        assert a == [a[0]] + a[1..] && b == [b[0]] + b[1..];
      }
    }
  }

  lemma {:induction false} BelowTransitive(a: string, b: string, c: string)
    requires Below(a, b) && Below(b, c)
    ensures Below(a, c)
    decreases |a|
  {
    if |a| > 0 && a[0] == b[0] == c[0] {
      BelowTransitive(a[1..], b[1..], c[1..]);
    }
  }

  /** The last member in the order of strings. */
  method Last(tips: set<string>) returns (m: string)
    requires tips != {}
    ensures m in tips && forall t :: t in tips ==> t == m || Below(t, m)
  {
    m :| m in tips;
    var todo := tips - {m};
    while todo != {}
      invariant todo <= tips && m in tips && m !in todo
      invariant forall t :: t in tips && t !in todo ==> t == m || Below(t, m)
    {
      var t :| t in todo;
      todo := todo - {t};
      BelowTotal(t, m);
      if Below(m, t) {
        forall s | s in tips && s !in todo ensures s == t || Below(s, t) {
          if Below(s, m) { BelowTransitive(s, m, t); }
        }
        m := t;
      }
    }
  }

  method ListFiles(files: SigFiles) returns (list: seq<SigEntry>)
    ensures forall e :: e in list <==> e in files.Values
  {
    list := [];
    var keys := files.Keys;
    while keys != {}
      invariant keys <= files.Keys
      invariant forall e :: e in list <==> exists h :: h in files && h !in keys && files[h] == e
    {
      var h :| h in keys;
      list := list + [files[h]];
      keys := keys - {h};
    }
  }

  /** Only the block itself can be read from the files of a linked block. */
  lemma ReadIsBlock(b: Block, file: Block, files: SigFiles, revokes: map<Fp, string>, r: Block)
    requires WellChained(b) && Holds(b, file, files, revokes) && ReadFrom(r, file, files, revokes, b.fingerprint)
    ensures r == b
  {
    assert file.hash == b.hash;
    forall e ensures e in files.Values <==> e in b.sigEntries {
      if e in b.sigEntries { assert files[e.hash] == e; }
    }
    assert files.Values == EntrySet(b.sigEntries);
    ForwardIsChain(b.hash, b.sigEntries, r.sigEntries);
  }

  ghost predicate ContinuedIn(files: SigFiles, t: Hash) {
    exists k :: k in files && files[k].prevHash == t
  }

  ghost predicate IsTip(files: SigFiles, t: Hash) {
    t in files && !ContinuedIn(files, t)
  }

  /** `h` is the one hash no entry continues from. */
  ghost predicate SoleTip(files: SigFiles, h: Hash) {
    forall t :: IsTip(files, t) <==> t == h
  }

  /** The hash no entry continues from; the last in order if there are several, and empty if there is none. */
  ghost predicate IsTipOf(files: SigFiles, head: Hash) {
    if exists t :: IsTip(files, t)
    then IsTip(files, head) && forall t :: IsTip(files, t) ==> t == head || Below(t, head)
    else head == ""
  }

  /** The tip by file names and contents alone. */
  method TipOf(files: SigFiles) returns (head: Hash)
    ensures IsTipOf(files, head)
  {
    if |files| == 0 {
      return "";
    }
    var referenced := set k | k in files :: files[k].prevHash;
    var tips := files.Keys - referenced;
    if |tips| == 0 {
      head := "";
    } else {
      head := Last(tips);
    }
    forall t ensures t in tips <==> IsTip(files, t) {
      assert t in referenced <==> ContinuedIn(files, t);
    }
  }

  /** For the files of a chain the tip is the chain's head. */
  lemma TipIsHead(b: Block, files: SigFiles)
    requires WellChained(b) && SigFilesHold(files, b.sigEntries)
    ensures if b.sigEntries == [] then files == map[] else SoleTip(files, b.sigChainHead)
  {
    var c := b.sigEntries;
    if c == [] {
      assert files.Keys == {};
    } else {
      assert c[|c| - 1] in c;
      forall k | k in files ensures files[k].prevHash != b.sigChainHead {
        var i :| 0 <= i < |c| && c[i] == files[k];
        assert Follows(b.hash, c, i);
      }
      forall t | t in files && t != b.sigChainHead ensures ContinuedIn(files, t) {
        var i :| 0 <= i < |c| && c[i] == files[t];
        assert Follows(b.hash, c, i + 1) && c[i + 1] in c;
        assert files[c[i + 1].hash].prevHash == t;
      }
    }
  }

  lemma TipMustBeHead(b: Block, files: SigFiles, tip: Hash)
    requires WellChained(b) && SigFilesHold(files, b.sigEntries) && IsTipOf(files, tip)
    ensures tip == b.sigChainHead
  {
    TipIsHead(b, files);
    assert b.sigEntries != [] ==> IsTip(files, b.sigChainHead);
  }

  // ---------- what the files hold ----------

  /** The files of `fp` hold its block, which is well chained. */
  ghost predicate HoldsAt(blockFiles: map<Fp, Block>, sigFiles: map<Fp, SigFiles>, revokeFiles: map<Fp, string>,
                          s: Contents, fp: Fp)
    requires fp in s
  {
    && fp in blockFiles && s[fp].fingerprint == fp && WellChained(s[fp])
    && Holds(s[fp], blockFiles[fp], FilesOf(sigFiles, fp), revokeFiles)
  }

  ghost predicate DiskHolds(blockFiles: map<Fp, Block>, sigFiles: map<Fp, SigFiles>, revokeFiles: map<Fp, string>,
                            s: Contents) {
    && blockFiles.Keys == s.Keys && sigFiles.Keys <= s.Keys && revokeFiles.Keys <= s.Keys
    && forall fp {:trigger HoldsAt(blockFiles, sigFiles, revokeFiles, s, fp)} ::
         fp in s ==> HoldsAt(blockFiles, sigFiles, revokeFiles, s, fp)
  }

  lemma BlockWritten(bf: map<Fp, Block>, sf: map<Fp, SigFiles>, rf: map<Fp, string>, s: Contents, b: Block)
    requires DiskHolds(bf, sf, rf, s) && b.fingerprint !in s
    ensures DiskHolds(bf[b.fingerprint := WithoutChain(b)], sf, rf, Added(s, WithoutChain(b)))
  {
    var fp, bf', s' := b.fingerprint, bf[b.fingerprint := WithoutChain(b)], Added(s, WithoutChain(b));
    forall f | f in s' ensures HoldsAt(bf', sf, rf, s', f) {
      assert f != fp ==> HoldsAt(bf, sf, rf, s, f);
    }
  }

  lemma SigWritten(bf: map<Fp, Block>, sf: map<Fp, SigFiles>, rf: map<Fp, string>, s: Contents, fp: Fp, e: SigEntry)
    requires DiskHolds(bf, sf, rf, s) && fp in s && Extends(s[fp], e)
    ensures DiskHolds(bf, sf[fp := FilesOf(sf, fp)[e.hash := e]], rf, Signed(s, fp, e))
  {
    var sf', s' := sf[fp := FilesOf(sf, fp)[e.hash := e]], Signed(s, fp, e);
    forall f | f in s' ensures HoldsAt(bf, sf', rf, s', f) {
      assert HoldsAt(bf, sf, rf, s, f);
      if f == fp {
        ExtendedWellChained(s[fp], e);
        OneMoreFile(FilesOf(sf, fp), s[fp], e);
      }
    }
  }

  lemma OneMoreFile(files: SigFiles, b: Block, e: SigEntry)
    requires SigFilesHold(files, b.sigEntries) && Extends(b, e)
    ensures SigFilesHold(files[e.hash := e], b.sigEntries + [e])
  {
    assert e in b.sigEntries + [e];
  }

  lemma RevocationWritten(bf: map<Fp, Block>, sf: map<Fp, SigFiles>, rf: map<Fp, string>, s: Contents, fp: Fp,
                          sig: string)
    requires DiskHolds(bf, sf, rf, s) && fp in s
    ensures DiskHolds(bf, sf, rf[fp := sig], Revoked(s, fp, sig))
  {
    var rf', s' := rf[fp := sig], Revoked(s, fp, sig);
    forall f | f in s' ensures HoldsAt(bf, sf, rf', s', f) {
      assert HoldsAt(bf, sf, rf, s, f);
    }
  }

  class DirStore {
    var blockFiles: map<Fp, Block>
    var sigFiles: map<Fp, SigFiles>
    var revokeFiles: map<Fp, string>
    var cache: map<Fp, Block>
    ghost var contents: Contents

    /** `b` can be read from the files of `fp`. */
    ghost predicate OnDisk(fp: Fp, b: Block)
      requires fp in blockFiles
      reads this
    {
      ReadFrom(b, blockFiles[fp], FilesOf(sigFiles, fp), revokeFiles, fp)
    }

    /** There are no files of a block that is not there, and every cached block can be read from its files. */
    ghost predicate Valid()
      reads this
    {
      && sigFiles.Keys <= blockFiles.Keys && revokeFiles.Keys <= blockFiles.Keys
      && forall fp :: fp in cache ==> fp in blockFiles && OnDisk(fp, cache[fp])
    }

    /** The files hold the contents, and every chain is linked. */
    ghost predicate Linked()
      reads this
    {
      DiskHolds(blockFiles, sigFiles, revokeFiles, contents)
    }

    constructor ()
      ensures Valid() && Linked() && contents == map[]
    {
      blockFiles, sigFiles, revokeFiles, cache, contents := map[], map[], map[], map[], map[];
    }

    /** Writes the block file, without the chain, unless there is one. */
    method Add(block: Block) returns (ok: bool)
      requires Valid()
      modifies this
      ensures Valid() && ok == (block.fingerprint !in old(blockFiles))
      ensures blockFiles == if ok then old(blockFiles)[block.fingerprint := WithoutChain(block)] else old(blockFiles)
      ensures sigFiles == old(sigFiles) && revokeFiles == old(revokeFiles)
      ensures old(Linked()) ==> Linked() && contents == Added(old(contents), WithoutChain(block))
    {
      if block.fingerprint in blockFiles {
        return false;
      }
      if Linked() {
        BlockWritten(blockFiles, sigFiles, revokeFiles, contents, block);
      }
      blockFiles := blockFiles[block.fingerprint := block.(sigEntries := [], sigChainHead := "")];
      contents := Added(contents, WithoutChain(block));
      return true;
    }

    /** Rebuilds a block from its files. */
    method Rebuild(fp: Fp) returns (block: Block)
      requires fp in blockFiles
      ensures OnDisk(fp, block)
      ensures Linked() ==> fp in contents && block == contents[fp]
    {
      block := blockFiles[fp];
      var files := ListFiles(FilesOf(sigFiles, fp));
      assert EntrySet(files) == FilesOf(sigFiles, fp).Values;
      if |files| > 0 {
        var ordered := RebuildForward(block.hash, files);
        block := block.(
          sigEntries := ordered,
          sigChainHead := if |ordered| > 0 then ordered[|ordered| - 1].hash else "");
      } else {
        block := block.(sigEntries := [], sigChainHead := "");
      }
      if fp in revokeFiles {
        block := block.(revoked := true, revocationSig := revokeFiles[fp]);
      }
      ReadOnceLinked(fp, block);
    }

    lemma ReadOnceLinked(fp: Fp, b: Block)
      requires fp in blockFiles && OnDisk(fp, b)
      ensures Linked() ==> fp in contents && b == contents[fp]
    {
      if Linked() {
        assert HoldsAt(blockFiles, sigFiles, revokeFiles, contents, fp);
        ReadIsBlock(contents[fp], blockFiles[fp], FilesOf(sigFiles, fp), revokeFiles, b);
      }
    }

    /** The cached block, or a rebuilt one, which is then cached; the cache may drop any blocks to make room. */
    method Get(fp: Fp) returns (b: Option<Block>)
      requires Valid()
      modifies this`cache
      ensures Valid() && (b.Some? <==> fp in blockFiles) && (b.Some? ==> OnDisk(fp, b.value))
      ensures Linked() ==> b == Lookup(contents, fp)
    {
      if fp in cache {
        ReadOnceLinked(fp, cache[fp]);
        return Some(cache[fp]);
      }
      if fp !in blockFiles {
        return None;
      }
      var block := Rebuild(fp);
      var evicted: set<Fp> :| evicted <= cache.Keys;
      cache := (cache - evicted)[fp := block];
      return Some(block);
    }

    /** `read` has one block for each block file, read from the files. */
    ghost predicate AllRead(read: map<Fp, Block>)
      reads this
    {
      read.Keys == blockFiles.Keys && forall fp :: fp in read ==> fp in blockFiles && OnDisk(fp, read[fp])
    }

    method All() returns (result: set<Block>)
      requires Valid()
      modifies this`cache
      ensures Valid() && exists read :: AllRead(read) && result == read.Values
      ensures Linked() ==> result == contents.Values
    {
      result := {};
      ghost var read: map<Fp, Block> := map[];
      var keys := blockFiles.Keys;
      while keys != {}
        invariant Valid() && keys <= blockFiles.Keys && read.Keys == blockFiles.Keys - keys
        invariant result == read.Values && forall fp :: fp in read ==> OnDisk(fp, read[fp])
      {
        var fp :| fp in keys;
        var b := Get(fp);
        if b.Some? {
          result := result + {b.value};
          ghost var before := read;
          read := read[fp := b.value];
          assert forall f :: f in read <==> f in before || f == fp;
        }
        keys := keys - {fp};
      }
      assert AllRead(read);
      if Linked() {
        AllReadOnceLinked(read);
      }
    }

    lemma AllReadOnceLinked(read: map<Fp, Block>)
      requires AllRead(read) && Linked()
      ensures read == contents
    {
      forall fp | fp in read ensures fp in contents && read[fp] == contents[fp] {
        ReadOnceLinked(fp, read[fp]);
      }
    }

    /** Writes the entry file and forgets the cached block. */
    method AddSig(fp: Fp, entry: SigEntry) returns (ok: bool)
      requires Valid()
      modifies this
      ensures Valid() && ok == (fp in old(blockFiles))
      ensures blockFiles == old(blockFiles) && revokeFiles == old(revokeFiles)
      ensures sigFiles ==
        if ok then old(sigFiles)[fp := FilesOf(old(sigFiles), fp)[entry.hash := entry]] else old(sigFiles)
      ensures old(Linked()) && (fp in old(contents) ==> Extends(old(contents)[fp], entry)) ==>
        Linked() && contents == Signed(old(contents), fp, entry)
    {
      var block := Get(fp);
      if block == None {
        return false;
      }
      if Linked() && (fp in contents ==> Extends(contents[fp], entry)) {
        SigWritten(blockFiles, sigFiles, revokeFiles, contents, fp, entry);
      }
      sigFiles := sigFiles[fp := FilesOf(sigFiles, fp)[entry.hash := entry]];
      cache := cache - {fp};
      contents := Signed(contents, fp, entry);
      return true;
    }

    /** Writes the revocation file and forgets the cached block. */
    method Revoke(fp: Fp, sig: string) returns (ok: bool)
      requires Valid()
      modifies this
      ensures Valid() && ok == (fp in old(blockFiles))
      ensures blockFiles == old(blockFiles) && sigFiles == old(sigFiles)
      ensures revokeFiles == if ok then old(revokeFiles)[fp := sig] else old(revokeFiles)
      ensures old(Linked()) ==> Linked() && contents == Revoked(old(contents), fp, sig)
    {
      var block := Get(fp);
      if block == None {
        return false;
      }
      if Linked() {
        RevocationWritten(blockFiles, sigFiles, revokeFiles, contents, fp, sig);
      }
      revokeFiles := revokeFiles[fp := sig];
      cache := cache - {fp};
      contents := Revoked(contents, fp, sig);
      return true;
    }

    /** The tip of each block's entry files. */
    method Hashes() returns (result: map<Fp, Hash>)
      ensures result.Keys == blockFiles.Keys
      ensures forall fp :: fp in result ==> IsTipOf(FilesOf(sigFiles, fp), result[fp])
      ensures Linked() ==> result == Heads(contents)
    {
      result := map[];
      var keys := blockFiles.Keys;
      while keys != {}
        invariant keys <= blockFiles.Keys && result.Keys == blockFiles.Keys - keys
        invariant forall fp :: fp in result ==> IsTipOf(FilesOf(sigFiles, fp), result[fp])
      {
        var fp :| fp in keys;
        var tip := TipOf(FilesOf(sigFiles, fp));
        result := result[fp := tip];
        keys := keys - {fp};
      }
      if Linked() {
        forall fp | fp in contents ensures result[fp] == contents[fp].sigChainHead {
          assert HoldsAt(blockFiles, sigFiles, revokeFiles, contents, fp);
          TipMustBeHead(contents[fp], FilesOf(sigFiles, fp), result[fp]);
        }
      }
    }

    method Execute(op: Op) returns (r: Reply)
      requires Valid() && Linked() && Admissible(contents, op)
      modifies this
      ensures Valid() && Linked() && contents == Next(old(contents), op) && r == Answer(old(contents), op)
    {
      assert blockFiles.Keys == contents.Keys;
      assert op.OpAdd? && HasNoChain(op.block) ==> WithoutChain(op.block) == op.block;
      match op
      case OpAdd(b) => var ok := Add(b); r := Done(ok);
      case OpAddSig(fp, e) => var ok := AddSig(fp, e); r := Done(ok);
      case OpRevoke(fp, sig) => var ok := Revoke(fp, sig); r := Done(ok);
      case OpGet(fp) => var b := Get(fp); r := Found(b);
      case OpAll => var all := All(); r := Blocks(all);
      case OpHashes => var heads := Hashes(); r := HashMap(heads);
    }
  }

  /** Over every run of operations that keeps chains linked, whatever the cache evicts, the file-based store
      gives the answers of the in-memory store. */
  method Lockstep(mem: MemoryStore, dir: DirStore, ops: seq<Op>) returns (fromMemory: seq<Reply>, fromFiles: seq<Reply>)
    requires dir.Valid() && dir.Linked() && mem.blocks == dir.contents && AllAdmissible(mem.blocks, ops)
    modifies mem, dir
    ensures fromMemory == fromFiles && |fromFiles| == |ops|
    ensures dir.Valid() && dir.Linked() && mem.blocks == dir.contents == AfterOps(old(mem.blocks), ops)
  {
    fromMemory, fromFiles := [], [];
    for i := 0 to |ops|
      invariant dir.Valid() && dir.Linked() && mem.blocks == dir.contents == AfterOps(old(mem.blocks), ops[..i])
      invariant fromMemory == fromFiles && |fromFiles| == i
    {
      assert ops[..i + 1][..i] == ops[..i];
      assert Admissible(AfterOps(old(mem.blocks), ops[..i]), ops[i]);
      var a := mem.Execute(ops[i]);
      var b := dir.Execute(ops[i]);
      fromMemory, fromFiles := fromMemory + [a], fromFiles + [b];
    }
    assert ops[..|ops|] == ops;
  }
}
