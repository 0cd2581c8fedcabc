/**
 * The difficulty predicate on a candidate block and the validity of a whole chain:
 * hash linkage plus a valid proof at every block after genesis.
 */
module Proof {
  import opened Hex
  import opened Blocks

  /**
   * `ValidProof`: the candidate block is hashed with timestamp 0, and the first `d`
   * characters of its lowercase hex digest must all be '0'.
   */
  predicate ValidProof(h: Hasher, nonce: int, ph: Digest, txs: seq<Transaction>, d: Difficulty)
  {
    EncodeHex(h(Block(0, nonce, ph, txs)))[..d] == seq(d, _ => '0')
  }

  /** The proof holds exactly when the first `d` nibbles of the digest are zero. */
  lemma ValidProofNibbles(h: Hasher, nonce: int, ph: Digest, txs: seq<Transaction>, d: Difficulty)
    ensures ValidProof(h, nonce, ph, txs, d) <==>
            forall i :: 0 <= i < d ==> Nibble(h(Block(0, nonce, ph, txs)), i) == 0
  {
    var digest := h(Block(0, nonce, ph, txs));
    var hex := EncodeHex(digest);
    forall i | 0 <= i < d
      ensures hex[i] == '0' <==> Nibble(digest, i) == 0
    {
      EncodeHexAt(digest, i);
    }
    if ValidProof(h, nonce, ph, txs, d) {
      forall i | 0 <= i < d ensures hex[i] == '0' {
        assert hex[..d][i] == hex[i];
      }
    } else {
      var i :| 0 <= i < d && hex[..d][i] != '0';
      assert hex[i] != '0';
    }
  }

  /** A proof at some difficulty is also a proof at every lower difficulty (a corollary of the definition). */
  lemma ValidProofMonotone(h: Hasher, nonce: int, ph: Digest, txs: seq<Transaction>, d: Difficulty, e: Difficulty)
    requires e <= d
    requires ValidProof(h, nonce, ph, txs, d)
    ensures ValidProof(h, nonce, ph, txs, e)
  {
  }

  /** Block `i` points at the hash of block `i - 1` and carries a valid proof. */
  predicate LinkedAt(h: Hasher, chain: seq<Block>, i: int, d: Difficulty)
    requires 1 <= i < |chain|
  {
    chain[i].previousHash == h(chain[i - 1]) &&
    ValidProof(h, chain[i].nonce, chain[i].previousHash, chain[i].transactions, d)
  }

  /** What `ValidChain` checks; the genesis block at index 0 is never checked. */
  predicate ChainValid(h: Hasher, chain: seq<Block>, d: Difficulty)
  {
    forall i :: 1 <= i < |chain| ==> LinkedAt(h, chain, i, d)
  }

  /** Appending a block keeps a chain valid exactly when the new block links to the old head. */
  lemma ChainValidAppend(h: Hasher, chain: seq<Block>, b: Block, d: Difficulty)
    requires |chain| >= 1
    ensures ChainValid(h, chain + [b], d) <==>
            ChainValid(h, chain, d) && b.previousHash == h(chain[|chain| - 1]) &&
            ValidProof(h, b.nonce, b.previousHash, b.transactions, d)
  {
    var c := chain + [b];
    assert LinkedAt(h, c, |chain|, d) <==>
           b.previousHash == h(chain[|chain| - 1]) && ValidProof(h, b.nonce, b.previousHash, b.transactions, d);
    forall i | 1 <= i < |chain| ensures LinkedAt(h, c, i, d) == LinkedAt(h, chain, i, d) {
      assert c[i] == chain[i] && c[i - 1] == chain[i - 1];
    }
  }

  /** Replacing a linked block's previous hash by any other value invalidates the chain. */
  lemma TamperedLinkInvalid(h: Hasher, chain: seq<Block>, i: int, forged: Digest, d: Difficulty)
    requires ChainValid(h, chain, d)
    requires 1 <= i < |chain|
    requires forged != chain[i].previousHash
    ensures !ChainValid(h, chain[i := chain[i].(previousHash := forged)], d)
  {
    var c := chain[i := chain[i].(previousHash := forged)];
    assert LinkedAt(h, chain, i, d);
    assert c[i - 1] == chain[i - 1];
    assert !LinkedAt(h, c, i, d);
  }

  /** A block whose nonce fails the proof invalidates the chain. */
  lemma BadProofInvalid(h: Hasher, chain: seq<Block>, i: int, d: Difficulty)
    requires 1 <= i < |chain|
    requires !ValidProof(h, chain[i].nonce, chain[i].previousHash, chain[i].transactions, d)
    ensures !ChainValid(h, chain, d)
  {
    assert !LinkedAt(h, chain, i, d);
  }
}
