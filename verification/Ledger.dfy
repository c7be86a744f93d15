/** The records of the ledger: a block for each key and its chain of trust signatures. */
module Ledger {
  import opened SigningGraph

  type Hash = string

  /** One trust signature. An empty `signerArmoredKey` means that the signer has a block of its own. */
  datatype SigEntry = SigEntry(
    hash: Hash,
    prevHash: Hash,
    signer: Fp,
    sig: string,
    timestamp: int,
    signerArmoredKey: string,
    sourceNode: string)

  datatype Block = Block(
    hash: Hash,
    fingerprint: Fp,
    armoredKey: string,
    uids: seq<string>,
    submitTimestamp: int,
    selfSig: string,
    sigChainHead: Hash,
    sigEntries: seq<SigEntry>,
    revoked: bool,
    revocationSig: string)

  /** The fields of a block that never change. */
  function Fixed(b: Block): Block {
    b.(sigEntries := [], sigChainHead := "", revoked := false, revocationSig := "")
  }

  /** The keys that have made entries. */
  function SignersOf(entries: seq<SigEntry>): set<Fp> {
    set e | e in entries :: e.signer
  }

  function LastHash(entries: seq<SigEntry>): Hash {
    if |entries| == 0 then "" else entries[|entries| - 1].hash
  }

  /** The hash that entry `i` of a chain from `start` continues from. */
  function PrevOf(start: Hash, c: seq<SigEntry>, i: nat): Hash
    requires i <= |c|
  {
    if i == 0 then start else c[i - 1].hash
  }

  ghost predicate Follows(start: Hash, c: seq<SigEntry>, i: nat)
    requires i < |c|
  {
    c[i].prevHash == PrevOf(start, c, i)
  }

  /** Entries that continue from one another, the first from `start`. */
  ghost predicate LinkedFrom(start: Hash, c: seq<SigEntry>) {
    forall i {:trigger Follows(start, c, i)} :: 0 <= i < |c| ==> Follows(start, c, i)
  }

  /** A linked chain in which no hash occurs twice, the start's included. */
  ghost predicate IsChain(start: Hash, c: seq<SigEntry>) {
    && LinkedFrom(start, c)
    && (forall i :: 0 <= i < |c| ==> c[i].hash != start)
    && (forall i, j :: 0 <= i < j < |c| ==> c[i].hash != c[j].hash)
  }
}
