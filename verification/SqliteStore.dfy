/** The database store: one table of blocks with their heads, one of entries keyed by hash. */
module SqliteStores {
  import opened SigningGraph
  import opened Ledger
  import opened ChainRebuild
  import opened MemoryStores

  datatype SigRow = SigRow(block: Fp, entry: SigEntry)

  /** The entries table, by hash. */
  type SigTable = map<Hash, SigRow>

  /** The rows of one block are the entries of its chain. */
  ghost predicate RowsHold(sigs: SigTable, fp: Fp, entries: seq<SigEntry>) {
    && (forall e :: e in entries ==> e.hash in sigs && sigs[e.hash] == SigRow(fp, e))
    && (forall h :: h in sigs && sigs[h].block == fp ==> sigs[h].entry in entries && sigs[h].entry.hash == h)
  }

  ghost predicate HoldsAt(rows: map<Fp, Block>, sigs: SigTable, s: Contents, fp: Fp)
    requires fp in s
  {
    && fp in rows && s[fp].fingerprint == fp && WellChained(s[fp])
    && rows[fp] == s[fp].(sigEntries := []) && RowsHold(sigs, fp, s[fp].sigEntries)
  }

  ghost predicate TablesHold(rows: map<Fp, Block>, sigs: SigTable, s: Contents) {
    && rows.Keys == s.Keys && (forall h :: h in sigs ==> sigs[h].block in s)
    && forall fp {:trigger HoldsAt(rows, sigs, s, fp)} :: fp in s ==> HoldsAt(rows, sigs, s, fp)
  }

  lemma RowInserted(rows: map<Fp, Block>, sigs: SigTable, s: Contents, b: Block)
    requires TablesHold(rows, sigs, s) && b.fingerprint !in s
    ensures TablesHold(rows[b.fingerprint := Fixed(b)], sigs, Added(s, Fixed(b)))
  {
    var rows', s' := rows[b.fingerprint := Fixed(b)], Added(s, Fixed(b));
    forall f | f in s' ensures HoldsAt(rows', sigs, s', f) {
      assert f != b.fingerprint ==> HoldsAt(rows, sigs, s, f);
    }
  }

  lemma SigInserted(rows: map<Fp, Block>, sigs: SigTable, s: Contents, fp: Fp, e: SigEntry)
    requires TablesHold(rows, sigs, s) && fp in s && Extends(s[fp], e) && e.hash !in sigs
    ensures fp in rows
    ensures TablesHold(rows[fp := rows[fp].(sigChainHead := e.hash)], sigs[e.hash := SigRow(fp, e)], Signed(s, fp, e))
  {
    assert HoldsAt(rows, sigs, s, fp);
    var rows', sigs' := rows[fp := rows[fp].(sigChainHead := e.hash)], sigs[e.hash := SigRow(fp, e)];
    var s' := Signed(s, fp, e);
    forall f | f in s' ensures HoldsAt(rows', sigs', s', f) {
      assert HoldsAt(rows, sigs, s, f);
      if f == fp {
        ExtendedWellChained(s[fp], e);
        assert e in s'[fp].sigEntries;
      }
    }
  }

  predicate HasRow(rows: map<Fp, Block>, h: Hash) {
    exists fp :: fp in rows && rows[fp].hash == h
  }

  ghost predicate BlockHashTaken(s: Contents, h: Hash) {
    exists fp :: fp in s && s[fp].hash == h
  }

  lemma SameHashes(rows: map<Fp, Block>, sigs: SigTable, s: Contents, h: Hash)
    requires TablesHold(rows, sigs, s)
    ensures HasRow(rows, h) <==> BlockHashTaken(s, h)
  {
    forall fp | fp in s ensures fp in rows && rows[fp].hash == s[fp].hash {
      assert HoldsAt(rows, sigs, s, fp);
    }
  }

  lemma RowRevoked(rows: map<Fp, Block>, sigs: SigTable, s: Contents, fp: Fp, sig: string)
    requires TablesHold(rows, sigs, s) && fp in s
    ensures fp in rows
    ensures TablesHold(rows[fp := rows[fp].(revoked := true, revocationSig := sig)], sigs, Revoked(s, fp, sig))
  {
    assert HoldsAt(rows, sigs, s, fp);
    var rows', s' := rows[fp := rows[fp].(revoked := true, revocationSig := sig)], Revoked(s, fp, sig);
    forall f | f in s' ensures HoldsAt(rows', sigs, s', f) {
      assert HoldsAt(rows, sigs, s, f);
    }
  }

  /** The entries of one block. */
  ghost function RowsOf(sigs: SigTable, fp: Fp): set<SigEntry> {
    set h | h in sigs && sigs[h].block == fp :: sigs[h].entry
  }

  /** The rows of one block, in no particular order. */
  method SelectRows(sigs: SigTable, fp: Fp) returns (list: seq<SigEntry>)
    ensures EntrySet(list) == RowsOf(sigs, fp)
  {
    list := [];
    var keys := sigs.Keys;
    while keys != {}
      invariant keys <= sigs.Keys
      invariant forall e :: e in list <==> exists h :: h in sigs && h !in keys && sigs[h] == SigRow(fp, e)
    {
      var h :| h in keys;
      if sigs[h].block == fp {
        list := list + [sigs[h].entry];
      }
      keys := keys - {h};
    }
    forall e ensures e in list <==> e in RowsOf(sigs, fp) {
      if h :| h in sigs && sigs[h] == SigRow(fp, e) { assert e in RowsOf(sigs, fp); }
    }
  }

  /** The rows of a block hold its chain: any walk over them ends and gives the chain. */
  lemma ReadIsChain(sigs: SigTable, b: Block, fp: Fp, r: seq<SigEntry>)
    requires WellChained(b) && RowsHold(sigs, fp, b.sigEntries)
    ensures DistinctHashes(RowsOf(sigs, fp)) && AllWalksEnd(RowsOf(sigs, fp))
    ensures BackwardRead(RowsOf(sigs, fp), r) ==> r == b.sigEntries
  {
    var rows := RowsOf(sigs, fp);
    forall e ensures e in rows <==> e in b.sigEntries {
      if e in b.sigEntries { assert sigs[e.hash] == SigRow(fp, e); }
    }
    assert rows == EntrySet(b.sigEntries);
    var rank := ChainIsAcyclic(b.hash, rows, b.sigEntries);
    forall tip ensures !ComesRound(rows, tip) {
      RankedEnds(rows, rank, tip);
    }
    if r != [] && MaximalBranch(rows, r) {
      BackwardIsChain(b.hash, rows, b.sigEntries, r);
    }
  }

  class SqliteStore {
    var blockRows: map<Fp, Block>
    var sigRows: SigTable
    ghost var contents: Contents

    /** The entry hash is the primary key. */
    ghost predicate Valid()
      reads this
    {
      forall h :: h in sigRows ==> sigRows[h].entry.hash == h
    }

    /** The rows of a block can be walked back from every tip. */
    ghost predicate Readable(fp: Fp)
      reads this
    {
      AllWalksEnd(RowsOf(sigRows, fp))
    }

    /** `b` is what its rows give. */
    ghost predicate InTables(fp: Fp, b: Block)
      reads this
    {
      && fp in blockRows && BackwardRead(RowsOf(sigRows, fp), b.sigEntries)
      && b == blockRows[fp].(sigEntries := b.sigEntries)
    }

    /** `read` has one block for each block row, read from the tables. */
    ghost predicate AllRead(read: map<Fp, Block>)
      reads this
    {
      read.Keys == blockRows.Keys && forall fp :: fp in read ==> InTables(fp, read[fp])
    }

    /** The tables hold the contents, and every chain is linked. */
    ghost predicate Linked()
      reads this
    {
      TablesHold(blockRows, sigRows, contents)
    }

    constructor ()
      ensures Valid() && Linked() && contents == map[] && blockRows == map[] && sigRows == map[]
    {
      blockRows, sigRows, contents := map[], map[], map[];
    }

    /** Inserts the row, without chain and revocation, or changes nothing: the fingerprint is the primary key, and no
        two blocks may have the same hash. */
    method Add(block: Block) returns (ok: bool)
      modifies this
      ensures old(Valid()) ==> Valid()
      ensures ok == (block.fingerprint !in old(blockRows) && !HasRow(old(blockRows), block.hash))
      ensures blockRows == if ok then old(blockRows)[block.fingerprint := Fixed(block)] else old(blockRows)
      ensures sigRows == old(sigRows)
      ensures old(Linked()) ==>
        Linked() && ok == (block.fingerprint !in old(contents) && !BlockHashTaken(old(contents), block.hash))
      ensures contents == if ok then Added(old(contents), Fixed(block)) else old(contents)
    {
      if Linked() {
        SameHashes(blockRows, sigRows, contents, block.hash);
      }
      if block.fingerprint in blockRows || HasRow(blockRows, block.hash) {
        return false;
      }
      if Linked() {
        RowInserted(blockRows, sigRows, contents, block);
      }
      blockRows := blockRows[block.fingerprint := block.(sigEntries := [], sigChainHead := "", revoked := false,
                                                         revocationSig := "")];
      contents := Added(contents, Fixed(block));
      return true;
    }

    /** While chains are linked every block can be read, and is the one stored. */
    lemma LinkedIsReadable(fp: Fp)
      requires Linked()
      ensures Valid() && (fp in blockRows ==> Readable(fp))
      ensures forall b :: InTables(fp, b) ==> fp in contents && b == contents[fp]
    {
      forall h | h in sigRows ensures sigRows[h].entry.hash == h {
        assert HoldsAt(blockRows, sigRows, contents, sigRows[h].block);
      }
      if fp in blockRows {
        assert HoldsAt(blockRows, sigRows, contents, fp);
        ReadIsChain(sigRows, contents[fp], fp, []);
        forall b | InTables(fp, b) ensures b == contents[fp] {
          ReadIsChain(sigRows, contents[fp], fp, b.sigEntries);
        }
      }
    }

    /** The entries of a block: what the walk back from some tip of its rows gives. */
    method GetSigEntries(fp: Fp) returns (entries: seq<SigEntry>)
      requires Valid() && Readable(fp)
      ensures BackwardRead(RowsOf(sigRows, fp), entries)
    {
      var rows := SelectRows(sigRows, fp);
      if |rows| == 0 {
        assert EntrySet(rows) == {};
        return [];
      }
      entries := RebuildBackward(rows);
    }

    method Get(fp: Fp) returns (b: Option<Block>)
      requires Valid() && (fp in blockRows ==> Readable(fp))
      ensures (b.Some? <==> fp in blockRows) && (b.Some? ==> InTables(fp, b.value))
      ensures Linked() ==> b == Lookup(contents, fp)
    {
      if Linked() {
        LinkedIsReadable(fp);
      }
      if fp !in blockRows {
        return None;
      }
      var entries := GetSigEntries(fp);
      b := Some(blockRows[fp].(sigEntries := entries));
      assert InTables(fp, b.value);
    }

    method All() returns (result: set<Block>)
      requires Valid() && forall fp :: fp in blockRows ==> Readable(fp)
      ensures exists read :: AllRead(read) && result == read.Values
      ensures Linked() ==> result == contents.Values
    {
      result := {};
      ghost var read: map<Fp, Block> := map[];
      var keys := blockRows.Keys;
      while keys != {}
        invariant keys <= blockRows.Keys && read.Keys == blockRows.Keys - keys
        invariant result == read.Values && forall fp :: fp in read ==> InTables(fp, read[fp])
      {
        var fp :| fp in keys;
        var entries := GetSigEntries(fp);
        var b := blockRows[fp].(sigEntries := entries);
        result := result + {b};
        ghost var before := read;
        read := read[fp := b];
        assert forall f :: f in read <==> f in before || f == fp;
        keys := keys - {fp};
      }
      assert AllRead(read);
      if Linked() {
        forall fp | fp in contents ensures read[fp] == contents[fp] {
          LinkedIsReadable(fp);
        }
        assert read == contents;
      }
    }

    /** Inserts the row and moves the head of the block, if that has a row, or changes nothing: the entry hash is a
        primary key over all blocks. */
    method AddSig(fp: Fp, entry: SigEntry) returns (ok: bool)
      modifies this
      ensures old(Valid()) ==> Valid()
      ensures ok == (entry.hash !in old(sigRows))
      ensures sigRows == if ok then old(sigRows)[entry.hash := SigRow(fp, entry)] else old(sigRows)
      ensures blockRows ==
        if ok && fp in old(blockRows) then old(blockRows)[fp := old(blockRows)[fp].(sigChainHead := entry.hash)]
        else old(blockRows)
      ensures contents == if ok then Signed(old(contents), fp, entry) else old(contents)
      ensures old(Linked()) && (ok ==> fp in old(contents) && Extends(old(contents)[fp], entry)) ==> Linked()
    {
      if entry.hash in sigRows {
        return false;
      }
      if Linked() && fp in contents && Extends(contents[fp], entry) {
        SigInserted(blockRows, sigRows, contents, fp, entry);
      }
      sigRows := sigRows[entry.hash := SigRow(fp, entry)];
      if fp in blockRows {
        blockRows := blockRows[fp := blockRows[fp].(sigChainHead := entry.hash)];
      }
      contents := Signed(contents, fp, entry);
      return true;
    }

    /** Updates the row of the block; where there is none, nothing happens and no error is reported. */
    method Revoke(fp: Fp, sig: string)
      modifies this
      ensures old(Valid()) ==> Valid()
      ensures sigRows == old(sigRows) && blockRows ==
        if fp in old(blockRows) then old(blockRows)[fp := old(blockRows)[fp].(revoked := true, revocationSig := sig)]
        else old(blockRows)
      ensures old(Linked()) ==> Linked() && contents == Revoked(old(contents), fp, sig)
    {
      if fp in blockRows {
        if Linked() {
          RowRevoked(blockRows, sigRows, contents, fp, sig);
        }
        blockRows := blockRows[fp := blockRows[fp].(revoked := true, revocationSig := sig)];
        contents := Revoked(contents, fp, sig);
      }
    }

    /** The head column of each block. */
    method Hashes() returns (result: map<Fp, Hash>)
      ensures result == Heads(blockRows)
      ensures Linked() ==> result == Heads(contents)
    {
      result := map[];
      var keys := blockRows.Keys;
      while keys != {}
        invariant keys <= blockRows.Keys
        invariant result == map fp | fp in blockRows && fp !in keys :: blockRows[fp].sigChainHead
      {
        var fp :| fp in keys;
        result := result[fp := blockRows[fp].sigChainHead];
        keys := keys - {fp};
      }
      forall fp | Linked() && fp in contents ensures blockRows[fp].sigChainHead == contents[fp].sigChainHead {
        assert HoldsAt(blockRows, sigRows, contents, fp);
      }
    }

    method Execute(op: Op) returns (r: Reply)
      requires Linked() && DbAdmissible(contents, op)
      modifies this
      ensures Linked() && contents == Next(old(contents), op) && r == Answer(old(contents), op)
    {
      match op
      case OpAdd(b) =>
        assert IsNew(b) ==> Fixed(b) == b;
        var ok := Add(b);
        r := Done(ok);
      case OpAddSig(fp, e) =>
        UnusedHasNoRow(blockRows, sigRows, contents, e.hash);
        var ok := AddSig(fp, e);
        r := Done(ok);
      case OpRevoke(fp, sig) => Revoke(fp, sig); r := Done(true);
      case OpGet(fp) =>
        LinkedIsReadable(fp);
        var b := Get(fp);
        r := Found(b);
      case OpAll =>
        forall fp ensures Valid() && (fp in blockRows ==> Readable(fp)) {
          LinkedIsReadable(fp);
        }
        var all := All();
        r := Blocks(all);
      case OpHashes => var heads := Hashes(); r := HashMap(heads);
    }
  }

  // ---------- agreement with the in-memory store ----------

  ghost predicate Unused(s: Contents, h: Hash) {
    forall fp, e :: fp in s && e in s[fp].sigEntries ==> e.hash != h
  }

  lemma UnusedHasNoRow(rows: map<Fp, Block>, sigs: SigTable, s: Contents, h: Hash)
    requires TablesHold(rows, sigs, s) && Unused(s, h)
    ensures h !in sigs
  {
    assert h in sigs ==> HoldsAt(rows, sigs, s, sigs[h].block);
  }

  /** The operations the handlers make on linked ledgers, as `LedgerStores` proves: they sign and revoke only blocks
      that are there, and the hash of a new block or entry occurs nowhere. */
  ghost predicate DbAdmissible(s: Contents, op: Op) {
    Admissible(s, op) &&
    match op
    case OpAdd(b) => b.fingerprint in s || (IsNew(b) && !BlockHashTaken(s, b.hash))
    case OpAddSig(fp, e) => fp in s && Unused(s, e.hash)
    case OpRevoke(fp, _) => fp in s
    case _ => true
  }

  ghost predicate AllDbAdmissible(s: Contents, ops: seq<Op>) {
    forall i {:trigger DbAdmissible(AfterOps(s, ops[..i]), ops[i])} :: 0 <= i < |ops| ==>
      DbAdmissible(AfterOps(s, ops[..i]), ops[i])
  }

  /** Over every such run the database store gives the answers of the in-memory store. */
  method DbLockstep(mem: MemoryStore, db: SqliteStore, ops: seq<Op>)
    returns (fromMemory: seq<Reply>, fromDb: seq<Reply>)
    requires db.Linked() && mem.blocks == db.contents && AllDbAdmissible(mem.blocks, ops)
    modifies mem, db
    ensures fromMemory == fromDb && |fromDb| == |ops|
    ensures db.Linked() && mem.blocks == db.contents == AfterOps(old(mem.blocks), ops)
  {
    fromMemory, fromDb := [], [];
    for i := 0 to |ops|
      invariant db.Linked() && mem.blocks == db.contents == AfterOps(old(mem.blocks), ops[..i])
      invariant fromMemory == fromDb && |fromDb| == i
    {
      assert ops[..i + 1][..i] == ops[..i];
      assert DbAdmissible(AfterOps(old(mem.blocks), ops[..i]), ops[i]);
      var a := mem.Execute(ops[i]);
      var b := db.Execute(ops[i]);
      fromMemory, fromDb := fromMemory + [a], fromDb + [b];
    }
    assert ops[..|ops|] == ops;
  }
}
