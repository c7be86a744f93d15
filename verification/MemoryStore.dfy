/** The store as the ledger sees it: what each operation does to its contents, and the in-memory store. */
module MemoryStores {
  import opened SigningGraph
  import opened Ledger
  import opened ChainRebuild

  datatype Option<+T> = None | Some(value: T)

  /** Blocks by fingerprint. */
  type Contents = map<Fp, Block>

  // ---------- the operations on contents ----------

  function Added(s: Contents, b: Block): Contents {
    if b.fingerprint in s then s else s[b.fingerprint := b]
  }

  function Extended(b: Block, e: SigEntry): Block {
    b.(sigEntries := b.sigEntries + [e], sigChainHead := e.hash)
  }

  function Signed(s: Contents, fp: Fp, e: SigEntry): Contents {
    if fp in s then s[fp := Extended(s[fp], e)] else s
  }

  function Revoked(s: Contents, fp: Fp, sig: string): Contents {
    if fp in s then s[fp := s[fp].(revoked := true, revocationSig := sig)] else s
  }

  function Heads(s: Contents): map<Fp, Hash> {
    map fp | fp in s :: s[fp].sigChainHead
  }

  function Lookup(s: Contents, fp: Fp): Option<Block> {
    if fp in s then Some(s[fp]) else None
  }

  // ---------- contents whose chains are linked ----------

  /** A linked chain with the recorded head; no hash in it is empty. */
  ghost predicate WellChained(b: Block) {
    && IsChain(b.hash, b.sigEntries)
    && b.sigChainHead == LastHash(b.sigEntries)
    && forall e :: e in b.sigEntries ==> e.hash != ""
  }

  ghost predicate AllWellChained(s: Contents) {
    forall fp :: fp in s ==> s[fp].fingerprint == fp && WellChained(s[fp])
  }

  /** The hash a new entry continues from: the head, or the block's own hash while there is none. */
  function ContinuesFrom(b: Block): Hash {
    if b.sigChainHead == "" then b.hash else b.sigChainHead
  }

  /** The entry continues the chain under a hash not used in it. */
  ghost predicate Extends(b: Block, e: SigEntry) {
    && e.prevHash == ContinuesFrom(b) && e.hash != "" && e.hash != b.hash
    && forall f :: f in b.sigEntries ==> f.hash != e.hash
  }

  /** Nothing has been signed. */
  predicate HasNoChain(b: Block) {
    b.sigEntries == [] && b.sigChainHead == ""
  }

  /** A block as the handlers first store it: nothing signed, not revoked. */
  predicate IsNew(b: Block) {
    HasNoChain(b) && !b.revoked && b.revocationSig == ""
  }

  lemma LinkedOneMore(start: Hash, c: seq<SigEntry>, e: SigEntry)
    requires LinkedFrom(start, c) && e.prevHash == PrevOf(start, c, |c|)
    ensures LinkedFrom(start, c + [e])
  {
    forall i | 0 <= i < |c + [e]| ensures Follows(start, c + [e], i) {
      if i < |c| { assert Follows(start, c, i); }
    }
  }

  lemma ChainOneMore(start: Hash, c: seq<SigEntry>, e: SigEntry)
    requires IsChain(start, c) && e.prevHash == PrevOf(start, c, |c|)
    requires e.hash != start && forall f :: f in c ==> f.hash != e.hash
    ensures IsChain(start, c + [e])
  {
    LinkedOneMore(start, c, e);
    assert forall i :: 0 <= i < |c| ==> (c + [e])[i] == c[i] && c[i] in c;
  }

  lemma ExtendedWellChained(b: Block, e: SigEntry)
    requires WellChained(b) && Extends(b, e)
    ensures WellChained(Extended(b, e))
  {
    var c := b.sigEntries;
    if c != [] { assert c[|c| - 1] in c; }
    ChainOneMore(b.hash, c, e);
  }

  /** Only an entry that continues from the head keeps a chain linked. */
  lemma OnlyExtendingKeepsLinked(b: Block, e: SigEntry)
    requires WellChained(b) && WellChained(Extended(b, e))
    ensures Extends(b, e)
  {
    var c := Extended(b, e).sigEntries;
    var n := |b.sigEntries|;
    assert Follows(b.hash, c, n) && c[n] == e && e in c;
    if n > 0 { assert c[n - 1] == b.sigEntries[n - 1] && b.sigEntries[n - 1] in b.sigEntries; }
    forall f | f in b.sigEntries ensures f.hash != e.hash {
      var i :| 0 <= i < n && b.sigEntries[i] == f;
      assert c[i] == f;
    }
  }

  // ---------- operations and replies ----------

  datatype Op =
    | OpAdd(block: Block)
    | OpAddSig(fp: Fp, entry: SigEntry)
    | OpRevoke(fp: Fp, sig: string)
    | OpGet(fp: Fp)
    | OpAll
    | OpHashes

  datatype Reply =
    | Done(ok: bool)
    | Found(block: Option<Block>)
    | Blocks(all: set<Block>)
    | HashMap(heads: map<Fp, Hash>)

  function Next(s: Contents, op: Op): Contents {
    match op
    case OpAdd(b) => Added(s, b)
    case OpAddSig(fp, e) => Signed(s, fp, e)
    case OpRevoke(fp, sig) => Revoked(s, fp, sig)
    case _ => s
  }

  function Answer(s: Contents, op: Op): Reply {
    match op
    case OpAdd(b) => Done(b.fingerprint !in s)
    case OpAddSig(fp, _) => Done(fp in s)
    case OpRevoke(fp, _) => Done(fp in s)
    case OpGet(fp) => Found(Lookup(s, fp))
    case OpAll => Blocks(s.Values)
    case OpHashes => HashMap(Heads(s))
  }

  /** The operations that keep every chain linked and are the same for blocks in memory and in files. */
  ghost predicate Admissible(s: Contents, op: Op) {
    match op
    case OpAdd(b) => b.fingerprint in s || HasNoChain(b)
    case OpAddSig(fp, e) => fp in s ==> Extends(s[fp], e)
    case _ => true
  }

  lemma NextWellChained(s: Contents, op: Op)
    requires AllWellChained(s) && Admissible(s, op)
    ensures AllWellChained(Next(s, op))
  {
    if op.OpAddSig? && op.fp in s {
      ExtendedWellChained(s[op.fp], op.entry);
    }
  }

  /** The contents after some operations. */
  function AfterOps(s: Contents, ops: seq<Op>): Contents {
    if |ops| == 0 then s else Next(AfterOps(s, ops[..|ops| - 1]), ops[|ops| - 1])
  }

  ghost predicate AllAdmissible(s: Contents, ops: seq<Op>) {
    forall i {:trigger Admissible(AfterOps(s, ops[..i]), ops[i])} :: 0 <= i < |ops| ==>
      Admissible(AfterOps(s, ops[..i]), ops[i])
  }

  /** A store that copies blocks in and out. */
  class MemoryStore {
    var blocks: Contents

    constructor ()
      ensures blocks == map[]
    {
      blocks := map[];
    }

    method Add(block: Block) returns (ok: bool)
      modifies this
      ensures ok == (block.fingerprint !in old(blocks)) && blocks == Added(old(blocks), block)
    {
      if block.fingerprint in blocks {
        return false;
      }
      blocks := blocks[block.fingerprint := block];
      return true;
    }

    method Get(fp: Fp) returns (b: Option<Block>)
      ensures b == Lookup(blocks, fp)
    {
      if fp !in blocks {
        return None;
      }
      return Some(blocks[fp]);
    }

    method All() returns (result: set<Block>)
      ensures result == blocks.Values
    {
      result := {};
      var keys := blocks.Keys;
      while keys != {}
        invariant keys <= blocks.Keys
        invariant forall b :: b in result <==> exists fp :: fp in blocks && fp !in keys && blocks[fp] == b
      {
        var fp :| fp in keys;
        result := result + {blocks[fp]};
        keys := keys - {fp};
      }
    }

    method AddSig(fp: Fp, entry: SigEntry) returns (ok: bool)
      modifies this
      ensures ok == (fp in old(blocks)) && blocks == Signed(old(blocks), fp, entry)
    {
      if fp !in blocks {
        return false;
      }
      var b := blocks[fp];
      blocks := blocks[fp := b.(sigEntries := b.sigEntries + [entry], sigChainHead := entry.hash)];
      return true;
    }

    method Revoke(fp: Fp, sig: string) returns (ok: bool)
      modifies this
      ensures ok == (fp in old(blocks)) && blocks == Revoked(old(blocks), fp, sig)
    {
      if fp !in blocks {
        return false;
      }
      blocks := blocks[fp := blocks[fp].(revoked := true, revocationSig := sig)];
      return true;
    }

    method Hashes() returns (result: map<Fp, Hash>)
      ensures result == Heads(blocks)
    {
      result := map[];
      var keys := blocks.Keys;
      while keys != {}
        invariant keys <= blocks.Keys
        invariant result == map fp | fp in blocks && fp !in keys :: blocks[fp].sigChainHead
      {
        var fp :| fp in keys;
        result := result[fp := blocks[fp].sigChainHead];
        keys := keys - {fp};
      }
    }

    method Execute(op: Op) returns (r: Reply)
      modifies this
      ensures blocks == Next(old(blocks), op) && r == Answer(old(blocks), op)
    {
      match op
      case OpAdd(b) => var ok := Add(b); r := Done(ok);
      case OpAddSig(fp, e) => var ok := AddSig(fp, e); r := Done(ok);
      case OpRevoke(fp, sig) => var ok := Revoke(fp, sig); r := Done(ok);
      case OpGet(fp) => var b := Get(fp); r := Found(b);
      case OpAll => var all := All(); r := Blocks(all);
      case OpHashes => var heads := Hashes(); r := HashMap(heads);
    }
  }
}
