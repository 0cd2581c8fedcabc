/**
 * The ledger engine: one `Blockchain` object owning the chain, the transaction pool, the
 * peer list and the durable head store, with the configuration and the opaque hash and
 * signature primitives fixed at construction.
 */
module Ledger {
  import opened Wrappers
  import opened Hex
  import opened Blocks
  import opened Proof
  import opened Balances
  import opened Consensus

  class Blockchain {
    var chain: seq<Block>
    var transactionPool: seq<Transaction>
    var nodes: seq<string>
    /** The key-value store; only `HeadKey` is used. */
    var store: map<string, seq<byte>>
    const blockchainAddress: string
    const conf: Config
    const hash: Hasher
    const verify: Verifier

    /** The chain always holds at least its genesis block. */
    ghost predicate Valid()
      reads this
    {
      |chain| > 0
    }

    /**
     * `CreateBlockchain` as written: the configuration it is given is used only to open the
     * store and read the port, and is never assigned to the ledger, so the ledger runs with
     * the zero configuration (difficulty 0, privileged sender "", reward token "" of 0).
     */
    constructor CreateBlockchain(address: string, conf: Config, hash: Hasher, verify: Verifier,
                                 store: map<string, seq<byte>>, timestamp: int)
      ensures Valid() && ChainValid(hash, chain, this.conf.difficulty)
      ensures blockchainAddress == address && this.conf == ZeroConfig
      ensures this.hash == hash && this.verify == verify
      ensures chain == [Block(timestamp, 0, GenesisPreviousHash(store, hash), [])]
      ensures transactionPool == [] && nodes == []
      ensures this.store == store[HeadKey := hash(chain[0])]
    {
      blockchainAddress := address;
      this.conf := ZeroConfig;
      this.hash := hash;
      this.verify := verify;
      chain := [];
      transactionPool := [];
      nodes := [];
      this.store := store;
      new;
      OpenHead(store, timestamp);
    }

    /**
     * `CreateBlockchain` as evidently intended: the same start, with the given configuration
     * kept for mining, admission and validation.
     */
    constructor Create(address: string, conf: Config, hash: Hasher, verify: Verifier,
                       store: map<string, seq<byte>>, timestamp: int)
      ensures Valid() && ChainValid(hash, chain, this.conf.difficulty)
      ensures blockchainAddress == address && this.conf == conf
      ensures this.hash == hash && this.verify == verify
      ensures chain == [Block(timestamp, 0, GenesisPreviousHash(store, hash), [])]
      ensures transactionPool == [] && nodes == []
      ensures this.store == store[HeadKey := hash(chain[0])]
    {
      blockchainAddress := address;
      this.conf := conf;
      this.hash := hash;
      this.verify := verify;
      chain := [];
      transactionPool := [];
      nodes := [];
      this.store := store;
      new;
      OpenHead(store, timestamp);
    }

    /**
     * The head logic of `CreateBlockchain`: the genesis block's previous hash is the stored
     * head, or, on a store without one, the hash of the zero block (written to the store
     * first); the genesis block is then created through `CreateBlock`, which stores its own
     * hash as the head.
     */
    method OpenHead(existing: map<string, seq<byte>>, timestamp: int)
      requires chain == [] && transactionPool == []
      modifies this`chain, this`transactionPool, this`store
      ensures Valid() && ChainValid(hash, chain, conf.difficulty)
      ensures chain == [Block(timestamp, 0, GenesisPreviousHash(existing, hash), [])]
      ensures transactionPool == []
      ensures store == existing[HeadKey := hash(chain[0])]
    {
      var lastHash: Digest;
      if HeadKey !in existing {
        lastHash := hash(ZeroBlock);
        store := existing[HeadKey := lastHash];
      } else {
        lastHash := CopyHead(existing[HeadKey]);
        store := existing;
      }
      var _ := CreateBlock(0, lastHash, timestamp);
    }

    /** `SetNodes`: the result of a discovery scan replaces the peer list wholesale. */
    method SetNodes(found: seq<string>)
      modifies this`nodes
      ensures nodes == found
    {
      nodes := found;
    }

    function LastBlock(): (b: Block)
      reads this
      requires |chain| > 0
    {
      chain[|chain| - 1]
    }

    /** The reward transaction `Mining` credits to this node. */
    function RewardTransaction(): Transaction
    {
      Transaction(conf.miningSender, blockchainAddress, Token(conf.defaultRewardToken, conf.miningReward))
    }

    method ClearTransactionPool()
      modifies this`transactionPool
      ensures transactionPool == []
    {
      transactionPool := [];
    }

    /** `UpdateLastHash`: stores the hash of the last block under the head key. */
    method UpdateLastHash() returns (ok: bool)
      requires |chain| > 0
      modifies this`store
      ensures store == old(store)[HeadKey := hash(LastBlock())]
      ensures ok
    {
      store := store[HeadKey := hash(LastBlock())];
      ok := true;
    }

    /**
     * `CreateBlock`: appends a block holding the whole pool, empties the pool and records the
     * new head; earlier blocks and the peer list are untouched.
     */
    method CreateBlock(nonce: int, previousHash: Digest, timestamp: int) returns (b: Block)
      modifies this`chain, this`transactionPool, this`store
      ensures b == Block(timestamp, nonce, previousHash, old(transactionPool))
      ensures chain == old(chain) + [b]
      ensures transactionPool == []
      ensures store == old(store)[HeadKey := hash(b)]
    {
      b := Block(timestamp, nonce, previousHash, transactionPool);
      chain := chain + [b];
      transactionPool := [];
      var _ := UpdateLastHash();
    }

    /**
     * `AddTransaction`: the mining sender is admitted unconditionally; any other sender needs
     * a verifying signature and a balance strictly greater than the amount. An admitted
     * transaction is appended to the pool; a rejected one leaves the pool as it was.
     * A nil key or signature for an ordinary sender would be dereferenced by the source.
     */
    method AddTransaction(sender: string, recipient: string, token: Token,
                          publicKey: Option<PublicKey>, signature: Option<Signature>) returns (ok: bool)
      requires sender != conf.miningSender ==> publicKey.Some? && signature.Some?
      modifies this`transactionPool
      ensures ok <==> sender == conf.miningSender ||
                      (verify(publicKey.value, signature.value, Transaction(sender, recipient, token)) &&
                       Balance(chain, sender, token.tokenName) > token.tokenValue)
      ensures transactionPool == if ok then old(transactionPool) + [Transaction(sender, recipient, token)]
                                 else old(transactionPool)
    {
      var t := Transaction(sender, recipient, token);
      if sender == conf.miningSender {
        transactionPool := transactionPool + [t];
        return true;
      }
      if verify(publicKey.value, signature.value, t) {
        var total := CalculateTotalAmount(sender, token.tokenName);
        if !(total > token.tokenValue) {
          return false;
        }
        transactionPool := transactionPool + [t];
        return true;
      }
      return false;
    }

    /** `CopyTransactionPool`: a field-by-field copy of every pooled transaction, in order. */
    method CopyTransactionPool() returns (transactions: seq<Transaction>)
      ensures transactions == transactionPool
    {
      transactions := [];
      var i := 0;
      while i < |transactionPool|
        invariant 0 <= i <= |transactionPool|
        invariant transactions == transactionPool[..i]
      {
        var t := transactionPool[i];
        transactions := transactions + [Transaction(t.sender, t.recipient, t.token)];
        i := i + 1;
      }
    }

    /** `ProofOfWork`: the least nonce from 0 upward that proves the pool on top of the head. */
    method ProofOfWork() returns (nonce: int)
      requires |chain| > 0
      requires exists n: nat :: ValidProof(hash, n, hash(LastBlock()), transactionPool, conf.difficulty)
      ensures 0 <= nonce
      ensures ValidProof(hash, nonce, hash(LastBlock()), transactionPool, conf.difficulty)
      ensures forall n :: 0 <= n < nonce ==> !ValidProof(hash, n, hash(LastBlock()), transactionPool, conf.difficulty)
    {
      var transactions := CopyTransactionPool();
      var previousHash := hash(LastBlock());
      ghost var bound: nat :| ValidProof(hash, bound, previousHash, transactions, conf.difficulty);
      nonce := 0;
      while !ValidProof(hash, nonce, previousHash, transactions, conf.difficulty)
        invariant 0 <= nonce <= bound
        invariant forall n :: 0 <= n < nonce ==> !ValidProof(hash, n, previousHash, transactions, conf.difficulty)
        decreases bound - nonce
      {
        nonce := nonce + 1;
      }
    }

    /** Some nonce proves the pool with the reward added on top of the current head. */
    ghost predicate CanMine()
      reads this
      requires |chain| > 0
    {
      exists n: nat :: ValidProof(hash, n, hash(LastBlock()), transactionPool + [RewardTransaction()], conf.difficulty)
    }

    /**
     * `Mining`: credits the reward, finds the least proving nonce, appends the block on top of
     * the head and asks every peer to re-run consensus. The result is false as soon as one
     * notification fails, although the block has already been appended; mining keeps a valid
     * chain valid.
     */
    method Mining(timestamp: int, notify: string -> bool) returns (ok: bool)
      requires Valid() && CanMine()
      modifies this`chain, this`transactionPool, this`store
      ensures Valid()
      ensures |chain| == |old(chain)| + 1 && chain[..|old(chain)|] == old(chain)
      ensures var b := chain[|chain| - 1];
        b.timestamp == timestamp && b.previousHash == hash(old(LastBlock())) &&
        b.transactions == old(transactionPool) + [RewardTransaction()] &&
        0 <= b.nonce && ValidProof(hash, b.nonce, b.previousHash, b.transactions, conf.difficulty) &&
        forall n :: 0 <= n < b.nonce ==> !ValidProof(hash, n, b.previousHash, b.transactions, conf.difficulty)
      ensures transactionPool == []
      ensures store == old(store)[HeadKey := hash(chain[|chain| - 1])]
      ensures ok <==> forall i :: 0 <= i < |nodes| ==> notify(nodes[i])
      ensures old(ChainValid(hash, chain, conf.difficulty)) ==> ChainValid(hash, chain, conf.difficulty)
    {
      ghost var w: nat :| ValidProof(hash, w, hash(LastBlock()), transactionPool + [RewardTransaction()], conf.difficulty);
      var _ := AddTransaction(conf.miningSender, blockchainAddress, RewardTransaction().token, None, None);
      assert ValidProof(hash, w, hash(LastBlock()), transactionPool, conf.difficulty);
      var nonce := ProofOfWork();
      var previousHash := hash(LastBlock());
      var b := CreateBlock(nonce, previousHash, timestamp);
      ChainValidAppend(hash, old(chain), b, conf.difficulty);
      var i := 0;
      while i < |nodes|
        invariant 0 <= i <= |nodes|
        invariant forall k :: 0 <= k < i ==> notify(nodes[k])
      {
        if !notify(nodes[i]) {
          return false;
        }
        i := i + 1;
      }
      return true;
    }

    /** `CalculateTotalAmount`: the replayed balance of `address` in `tokenName`. */
    method CalculateTotalAmount(address: string, tokenName: string) returns (total: real)
      ensures total == Balance(chain, address, tokenName)
    {
      total := 0.0;
      var i := 0;
      while i < |chain|
        invariant 0 <= i <= |chain|
        invariant total == Balance(chain[..i], address, tokenName)
      {
        var b := chain[i];
        var j := 0;
        while j < |b.transactions|
          invariant 0 <= j <= |b.transactions|
          invariant total == Balance(chain[..i], address, tokenName) + TxsDelta(b.transactions[..j], address, tokenName)
        {
          var t := b.transactions[j];
          if address == t.recipient && tokenName == t.token.tokenName {
            total := total + t.token.tokenValue;
          }
          if address == t.sender && tokenName == t.token.tokenName {
            total := total - t.token.tokenValue;
          }
          assert b.transactions[..j + 1][..j] == b.transactions[..j];
          j := j + 1;
        }
        assert b.transactions[..j] == b.transactions;
        assert chain[..i + 1][..i] == chain[..i];
        i := i + 1;
      }
      assert chain[..i] == chain;
    }

    /** Every token name used by a transaction on the chain. */
    ghost function TokenNames(blocks: seq<Block>): set<string>
    {
      set i, j | 0 <= i < |blocks| && 0 <= j < |blocks[i].transactions| :: blocks[i].transactions[j].token.tokenName
    }

    /**
     * `CalculateAllAmounts`: one entry per token name used on the chain, carrying the
     * balance of `address` in it; the order is that of Go's map iteration, so unspecified.
     */
    method CalculateAllAmounts(address: string) returns (amounts: seq<Token>)
      ensures forall i :: 0 <= i < |amounts| ==>
                amounts[i].tokenName in TokenNames(chain) &&
                amounts[i].tokenValue == Balance(chain, address, amounts[i].tokenName)
      ensures forall n :: n in TokenNames(chain) ==> exists i :: 0 <= i < |amounts| && amounts[i].tokenName == n
      ensures forall i, j :: 0 <= i < j < |amounts| ==> amounts[i].tokenName != amounts[j].tokenName
    {
      var tokens := TokenBalances(address);
      amounts := Entries(tokens);
    }

    /** The map `CalculateAllAmounts` fills while replaying the chain. */
    method TokenBalances(address: string) returns (tokens: map<string, Token>)
      ensures tokens.Keys == TokenNames(chain)
      ensures forall k :: k in tokens ==> tokens[k] == Token(k, Balance(chain, address, k))
    {
      tokens := map[];
      var i := 0;
      while i < |chain|
        invariant 0 <= i <= |chain|
        invariant tokens.Keys == TokenNames(chain[..i])
        invariant forall k :: k in tokens ==> tokens[k] == Token(k, Balance(chain, address, k))
      {
        var b := chain[i];
        var j := 0;
        while j < |b.transactions|
          invariant 0 <= j <= |b.transactions|
          invariant tokens.Keys == TokenNames(chain[..i]) + set k | 0 <= k < j :: b.transactions[k].token.tokenName
          invariant forall k :: k in tokens ==> tokens[k] == Token(k, Balance(chain, address, k))
        {
          var name := b.transactions[j].token.tokenName;
          var total := CalculateTotalAmount(address, name);
          tokens := tokens[name := Token(name, total)];
          j := j + 1;
        }
        assert TokenNames(chain[..i + 1]) ==
               TokenNames(chain[..i]) + set k | 0 <= k < |b.transactions| :: b.transactions[k].token.tokenName
        by {
          assert forall p :: 0 <= p < i ==> chain[..i + 1][p] == chain[..i][p];
          assert chain[..i + 1][i] == b;
        }
        i := i + 1;
      }
      assert chain[..i] == chain;
    }

    /** The map's entries as a slice, in the order the keys are picked. */
    static method Entries(tokens: map<string, Token>) returns (amounts: seq<Token>)
      requires forall k :: k in tokens ==> tokens[k].tokenName == k
      ensures forall p :: 0 <= p < |amounts| ==> amounts[p].tokenName in tokens && amounts[p] == tokens[amounts[p].tokenName]
      ensures forall n :: n in tokens ==> exists p :: 0 <= p < |amounts| && amounts[p].tokenName == n
      ensures forall p, q :: 0 <= p < q < |amounts| ==> amounts[p].tokenName != amounts[q].tokenName
    {
      amounts := [];
      var rest := tokens.Keys;
      while rest != {}
        invariant rest <= tokens.Keys
        invariant forall p :: 0 <= p < |amounts| ==>
                    amounts[p].tokenName in tokens.Keys - rest && amounts[p] == tokens[amounts[p].tokenName]
        invariant forall n :: n in tokens.Keys - rest ==> exists p :: 0 <= p < |amounts| && amounts[p].tokenName == n
        invariant forall p, q :: 0 <= p < q < |amounts| ==> amounts[p].tokenName != amounts[q].tokenName
        decreases rest
      {
        var k :| k in rest;
        ghost var before := amounts;
        amounts := amounts + [tokens[k]];
        assert amounts[|amounts| - 1].tokenName == k;
        forall n | n in tokens.Keys - (rest - {k})
          ensures exists p :: 0 <= p < |amounts| && amounts[p].tokenName == n
        {
          if n != k {
            assert n in tokens.Keys - rest;
            var p :| 0 <= p < |before| && before[p].tokenName == n;
            assert amounts[p] == before[p];
          }
        }
        rest := rest - {k};
      }
      assert tokens.Keys - rest == tokens.Keys;
    }

    /** `ValidChain`: the difficulty is this node's; the chain must have a genesis block. */
    method ValidChain(blocks: seq<Block>) returns (ok: bool)
      requires |blocks| > 0
      ensures ok == ChainValid(hash, blocks, conf.difficulty)
    {
      var preBlock := blocks[0];
      var currentIndex := 1;
      while currentIndex < |blocks|
        invariant 1 <= currentIndex <= |blocks|
        invariant preBlock == blocks[currentIndex - 1]
        invariant forall k :: 1 <= k < currentIndex ==> LinkedAt(hash, blocks, k, conf.difficulty)
      {
        var b := blocks[currentIndex];
        if b.previousHash != hash(preBlock) {
          assert !LinkedAt(hash, blocks, currentIndex, conf.difficulty);
          return false;
        }
        if !ValidProof(hash, b.nonce, b.previousHash, b.transactions, conf.difficulty) {
          assert !LinkedAt(hash, blocks, currentIndex, conf.difficulty);
          return false;
        }
        preBlock := b;
        currentIndex := currentIndex + 1;
      }
      return true;
    }

    /**
     * `ResolveConflicts`: adopts the chain `Scan` selects from the peers' responses, if any;
     * the pool, the peer list and the stored head are left as they were.
     */
    method ResolveConflicts(fetch: string -> Option<seq<Block>>) returns (replaced: bool)
      requires Valid()
      modifies this`chain
      ensures Valid()
      ensures var r := Scan(hash, conf.difficulty, nodes, fetch, |old(chain)|, None);
        replaced == r.Some? && chain == (if replaced then r.value else old(chain))
      ensures replaced ==> |chain| > |old(chain)| && ChainValid(hash, chain, conf.difficulty)
      ensures old(ChainValid(hash, chain, conf.difficulty)) ==> ChainValid(hash, chain, conf.difficulty)
    {
      ScanSelectsFirstLongestValid(hash, conf.difficulty, nodes, fetch, |chain|);
      var longestChain: Option<seq<Block>> := None;
      var maxLength := |chain|;
      var i := 0;
      while i < |nodes|
        invariant 0 <= i <= |nodes|
        invariant chain == old(chain)
        invariant longestChain.None? ==> maxLength == |chain|
        invariant longestChain.Some? ==> |longestChain.value| == maxLength && Qualifies(hash, conf.difficulty, longestChain, |chain|)
        invariant Scan(hash, conf.difficulty, nodes[i..], fetch, maxLength, longestChain) ==
                  Scan(hash, conf.difficulty, nodes, fetch, |chain|, None)
      {
        assert nodes[i..][1..] == nodes[i + 1..];
        var response := fetch(nodes[i]);
        if response.Some? {
          var candidate := response.value;
          if |candidate| > maxLength {
            var valid := ValidChain(candidate);
            if valid {
              maxLength := |candidate|;
              longestChain := Some(candidate);
            }
          }
        }
        i := i + 1;
      }
      if longestChain.Some? {
        chain := longestChain.value;
        return true;
      }
      return false;
    }
  }

  /**
   * With the zero configuration the as-written ledger runs with, the difficulty predicate
   * holds for every nonce, so `ProofOfWork` always returns 0 and `ValidChain` checks only
   * the hash links.
   */
  lemma ZeroConfigAcceptsEveryNonce(h: Hasher, nonce: int, ph: Digest, txs: seq<Transaction>)
    ensures ValidProof(h, nonce, ph, txs, ZeroConfig.difficulty)
  {
    assert EncodeHex(h(Block(0, nonce, ph, txs)))[..0] == [];
  }

  /**
   * With the zero configuration, mining on a chain of empty blocks credits the miner
   * nothing in any token: the reward is 0 of the token named "".
   */
  lemma ZeroConfigRewardCreditsNothing(chain: seq<Block>, b: Block, miner: string, n: string)
    requires forall c :: c in chain ==> c.transactions == []
    requires b.transactions == [Transaction(ZeroConfig.miningSender, miner,
                                            Token(ZeroConfig.defaultRewardToken, ZeroConfig.miningReward))]
    ensures Balance(chain + [b], miner, n) == 0.0
  {
    EmptyBlocksBalance(chain, miner, n);
    assert (chain + [b])[..|chain|] == chain;
    var t := b.transactions[0];
    assert t.token.tokenValue == 0.0;
    assert TxDelta(t, miner, n) == 0.0;
    assert b.transactions[..0] == [];
    assert TxsDelta(b.transactions, miner, n) == TxsDelta([], miner, n) + TxDelta(t, miner, n);
  }
}
