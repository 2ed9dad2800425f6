/** Blocks and block hashes, shared by the simulated node, the indexer and the console. */
module Chain {

  /** A block hash, kept symbolic. `Keccak` is the digest of the 48-byte preimage
      parent ++ number ++ salt that the simulated node hashes; two digests are equal
      exactly when their preimages are. `Other` is any hash a different node reports. */
  datatype Hash =
    | Zero
    | Keccak(parent: Hash, num: nat, salt: nat)
    | Other(text: string)

  datatype Block = Block(number: nat, hash: Hash, parentHash: Hash, timestamp: nat, txCount: nat)

  /** Heights are Go uint64 values; the source's head stays below the last of them. */
  const MAX_HEIGHT: nat := 0xFFFF_FFFF_FFFF_FFFF

  /** Block i + 1 names block i as its parent. */
  ghost predicate Follows(c: seq<Block>, i: nat)
    requires i + 1 < |c|
  {
    c[i + 1].parentHash == c[i].hash
  }

  /** Consecutive blocks carry consecutive numbers and name their predecessor's hash. */
  ghost predicate Linked(c: seq<Block>) {
    && (forall i :: 0 < i < |c| ==> c[i].number == c[0].number + i)
    && (forall i :: 0 <= i < |c| - 1 ==> Follows(c, i))
  }

  lemma SliceLinked(c: seq<Block>, lo: nat, hi: nat)
    requires Linked(c) && lo <= hi <= |c|
    ensures Linked(c[lo..hi])
  {
    forall i | 0 <= i < hi - lo - 1
      ensures Follows(c[lo..hi], i)
    {
      assert Follows(c, lo + i);
    }
  }

  lemma ExtendLinked(c: seq<Block>, b: Block)
    requires Linked(c)
    requires c != [] ==> b.number == c[|c| - 1].number + 1 && b.parentHash == c[|c| - 1].hash
    ensures Linked(c + [b])
  {
    forall i | 0 <= i < |c|
      ensures Follows(c + [b], i)
    {
      assert i < |c| - 1 ==> Follows(c, i);
    }
  }

  /** A whole chain from genesis: block i has number i. */
  ghost predicate Ledger(c: seq<Block>) {
    && 0 < |c|
    && Linked(c)
    && c[0].number == 0
  }

  /** Among these blocks, the hash determines the block. */
  ghost predicate CollisionFree(bs: seq<Block>, cs: seq<Block>) {
    forall i, j :: 0 <= i < |bs| && 0 <= j < |cs| && bs[i].hash == cs[j].hash ==> bs[i] == cs[j]
  }

  /** `c` with its blocks in the opposite order, newest first. */
  function NewestFirst(c: seq<Block>): (r: seq<Block>)
    ensures |r| == |c|
    ensures forall i :: 0 <= i < |c| ==> r[i] == c[|c| - 1 - i]
  {
    seq(|c|, i requires 0 <= i < |c| => c[|c| - 1 - i])
  }
}
