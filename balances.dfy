/**
 * Balance replay over the confirmed chain: an address's balance of a token is what it
 * received of that token minus what it sent, over every transaction of every block.
 */
module Balances {
  import opened Blocks

  /** One transaction's effect on `a`'s balance of token `n`: credit first, then debit. */
  function TxDelta(t: Transaction, a: string, n: string): real
  {
    (if a == t.recipient && n == t.token.tokenName then t.token.tokenValue else 0.0) -
    (if a == t.sender && n == t.token.tokenName then t.token.tokenValue else 0.0)
  }

  /** The accumulated effect of a block's transactions, in the order the replay visits them. */
  function TxsDelta(txs: seq<Transaction>, a: string, n: string): real
  {
    if txs == [] then 0.0
    else TxsDelta(txs[..|txs| - 1], a, n) + TxDelta(txs[|txs| - 1], a, n)
  }

  /** The balance the replay accumulates over the blocks of `chain`, in order. */
  function Balance(chain: seq<Block>, a: string, n: string): real
  {
    if chain == [] then 0.0
    else Balance(chain[..|chain| - 1], a, n) + TxsDelta(chain[|chain| - 1].transactions, a, n)
  }

  /** All transactions of a chain, block by block. */
  function Flatten(chain: seq<Block>): seq<Transaction>
  {
    if chain == [] then [] else chain[0].transactions + Flatten(chain[1..])
  }

  /** Sum of the values of token `n` paid to `a`. */
  function Received(txs: seq<Transaction>, a: string, n: string): real
  {
    if txs == [] then 0.0
    else (if txs[0].recipient == a && txs[0].token.tokenName == n then txs[0].token.tokenValue else 0.0)
         + Received(txs[1..], a, n)
  }

  /** Sum of the values of token `n` paid by `a`. */
  function Sent(txs: seq<Transaction>, a: string, n: string): real
  {
    if txs == [] then 0.0
    else (if txs[0].sender == a && txs[0].token.tokenName == n then txs[0].token.tokenValue else 0.0)
         + Sent(txs[1..], a, n)
  }

  lemma {:induction false} ReceivedSentAppend(x: seq<Transaction>, y: seq<Transaction>, a: string, n: string)
    ensures Received(x + y, a, n) == Received(x, a, n) + Received(y, a, n)
    ensures Sent(x + y, a, n) == Sent(x, a, n) + Sent(y, a, n)
  {
    if x == [] {
      assert x + y == y;
    } else {
      assert (x + y)[0] == x[0];
      assert (x + y)[1..] == x[1..] + y;
      ReceivedSentAppend(x[1..], y, a, n);
    }
  }

  lemma {:induction false} TxsDeltaIsReceivedMinusSent(txs: seq<Transaction>, a: string, n: string)
    ensures TxsDelta(txs, a, n) == Received(txs, a, n) - Sent(txs, a, n)
  {
    if txs != [] {
      var init, t := txs[..|txs| - 1], txs[|txs| - 1];
      TxsDeltaIsReceivedMinusSent(init, a, n);
      assert txs == init + [t];
      ReceivedSentAppend(init, [t], a, n);
    }
  }

  lemma {:induction false} FlattenAppend(chain: seq<Block>, b: Block)
    ensures Flatten(chain + [b]) == Flatten(chain) + b.transactions
  {
    if chain == [] {
      assert [b][1..] == [];
    } else {
      assert (chain + [b])[1..] == chain[1..] + [b];
      FlattenAppend(chain[1..], b);
    }
  }

  /** The replayed balance is the total received minus the total sent, over the whole chain. */
  lemma {:induction false} BalanceIsReceivedMinusSent(chain: seq<Block>, a: string, n: string)
    ensures Balance(chain, a, n) == Received(Flatten(chain), a, n) - Sent(Flatten(chain), a, n)
  {
    if chain != [] {
      var init, b := chain[..|chain| - 1], chain[|chain| - 1];
      BalanceIsReceivedMinusSent(init, a, n);
      assert chain == init + [b];
      FlattenAppend(init, b);
      ReceivedSentAppend(Flatten(init), b.transactions, a, n);
      TxsDeltaIsReceivedMinusSent(b.transactions, a, n);
    }
  }

  /** Transactions of other tokens and self-transfers add nothing. */
  predicate Neutral(txs: seq<Transaction>, n: string)
  {
    forall t :: t in txs ==> t.token.tokenName != n || t.sender == t.recipient
  }

  lemma {:induction false} NeutralTxsDelta(txs: seq<Transaction>, a: string, n: string)
    requires Neutral(txs, n)
    ensures TxsDelta(txs, a, n) == 0.0
  {
    if txs != [] {
      assert txs[|txs| - 1] in txs;
      NeutralTxsDelta(txs[..|txs| - 1], a, n);
    }
  }

  /** A block made only of other tokens' transfers and self-transfers changes no balance of `n`. */
  lemma NeutralBlockBalance(chain: seq<Block>, b: Block, a: string, n: string)
    requires Neutral(b.transactions, n)
    ensures Balance(chain + [b], a, n) == Balance(chain, a, n)
  {
    assert (chain + [b])[..|chain|] == chain;
    NeutralTxsDelta(b.transactions, a, n);
  }

  /**
   * A block whose last transaction pays `a` (from another address) credits `a` with the
   * pool's net effect plus that payment; on a chain of one empty genesis block and an empty
   * pool the balance is exactly the payment.
   */
  lemma RewardBlockBalance(chain: seq<Block>, b: Block, pool: seq<Transaction>, t: Transaction, a: string)
    requires b.transactions == pool + [t]
    requires t.recipient == a && t.sender != a
    ensures Balance(chain + [b], a, t.token.tokenName) ==
            Balance(chain, a, t.token.tokenName) + TxsDelta(pool, a, t.token.tokenName) + t.token.tokenValue
    ensures (forall c :: c in chain ==> c.transactions == []) && pool == [] ==>
            Balance(chain + [b], a, t.token.tokenName) == t.token.tokenValue
  {
    var n := t.token.tokenName;
    assert (chain + [b])[..|chain|] == chain;
    assert b.transactions[..|pool|] == pool;
    if (forall c :: c in chain ==> c.transactions == []) && pool == [] {
      EmptyBlocksBalance(chain, a, n);
    }
  }

  lemma {:induction false} EmptyBlocksBalance(chain: seq<Block>, a: string, n: string)
    requires forall c :: c in chain ==> c.transactions == []
    ensures Balance(chain, a, n) == 0.0
  {
    if chain != [] {
      assert chain[|chain| - 1] in chain;
      EmptyBlocksBalance(chain[..|chain| - 1], a, n);
    }
  }

  predicate Distinct(addrs: seq<string>)
  {
    forall i, j :: 0 <= i < j < |addrs| ==> addrs[i] != addrs[j]
  }

  /** Every sender and recipient on the chain is listed in `addrs`. */
  predicate PartiesListed(addrs: seq<string>, chain: seq<Block>)
  {
    forall b, t :: b in chain && t in b.transactions ==> t.sender in addrs && t.recipient in addrs
  }

  /** Sum over `addrs` of their balances of token `n`. */
  function TotalBalance(addrs: seq<string>, chain: seq<Block>, n: string): real
  {
    if addrs == [] then 0.0 else Balance(chain, addrs[0], n) + TotalBalance(addrs[1..], chain, n)
  }

  function TotalTxsDelta(addrs: seq<string>, txs: seq<Transaction>, n: string): real
  {
    if addrs == [] then 0.0 else TxsDelta(txs, addrs[0], n) + TotalTxsDelta(addrs[1..], txs, n)
  }

  function TotalTxDelta(addrs: seq<string>, t: Transaction, n: string): real
  {
    if addrs == [] then 0.0 else TxDelta(t, addrs[0], n) + TotalTxDelta(addrs[1..], t, n)
  }

  lemma {:induction false} TotalBalanceAppend(addrs: seq<string>, chain: seq<Block>, b: Block, n: string)
    ensures TotalBalance(addrs, chain + [b], n) == TotalBalance(addrs, chain, n) + TotalTxsDelta(addrs, b.transactions, n)
  {
    if addrs != [] {
      assert (chain + [b])[..|chain|] == chain;
      TotalBalanceAppend(addrs[1..], chain, b, n);
    }
  }

  lemma {:induction false} TotalBalanceEmpty(addrs: seq<string>, n: string)
    ensures TotalBalance(addrs, [], n) == 0.0
  {
    if addrs != [] {
      TotalBalanceEmpty(addrs[1..], n);
    }
  }

  lemma {:induction false} TotalTxsDeltaAppend(addrs: seq<string>, txs: seq<Transaction>, t: Transaction, n: string)
    ensures TotalTxsDelta(addrs, txs + [t], n) == TotalTxsDelta(addrs, txs, n) + TotalTxDelta(addrs, t, n)
  {
    if addrs != [] {
      assert (txs + [t])[..|txs|] == txs;
      TotalTxsDeltaAppend(addrs[1..], txs, t, n);
    }
  }

  lemma {:induction false} TotalTxsDeltaEmpty(addrs: seq<string>, n: string)
    ensures TotalTxsDelta(addrs, [], n) == 0.0
  {
    if addrs != [] {
      TotalTxsDeltaEmpty(addrs[1..], n);
    }
  }

  /** Over distinct addresses, one transaction adds its value once at the recipient and removes it once at the sender. */
  lemma {:induction false} TotalTxDeltaDistinct(addrs: seq<string>, t: Transaction, n: string)
    requires Distinct(addrs)
    ensures TotalTxDelta(addrs, t, n) ==
            (if n == t.token.tokenName && t.recipient in addrs then t.token.tokenValue else 0.0) -
            (if n == t.token.tokenName && t.sender in addrs then t.token.tokenValue else 0.0)
  {
    if addrs != [] {
      var rest := addrs[1..];
      assert Distinct(rest) by {
        forall i, j | 0 <= i < j < |rest| ensures rest[i] != rest[j] {
          assert rest[i] == addrs[i + 1] && rest[j] == addrs[j + 1];
        }
      }
      assert addrs[0] !in rest by {
        forall k | 0 <= k < |rest| ensures rest[k] != addrs[0] {
          assert rest[k] == addrs[k + 1];
        }
      }
      assert forall x :: x in addrs <==> x == addrs[0] || x in rest by {
        assert addrs == [addrs[0]] + rest;
      }
      TotalTxDeltaDistinct(rest, t, n);
    }
  }

  lemma {:induction false} TxsConserve(addrs: seq<string>, txs: seq<Transaction>, n: string)
    requires Distinct(addrs)
    requires forall t :: t in txs ==> t.sender in addrs && t.recipient in addrs
    ensures TotalTxsDelta(addrs, txs, n) == 0.0
  {
    if txs == [] {
      TotalTxsDeltaEmpty(addrs, n);
    } else {
      var init, t := txs[..|txs| - 1], txs[|txs| - 1];
      assert txs == init + [t];
      assert t in txs;
      TxsConserve(addrs, init, n);
      TotalTxsDeltaAppend(addrs, init, t, n);
      TotalTxDeltaDistinct(addrs, t, n);
    }
  }

  /**
   * Conservation: summed over a list of distinct addresses that includes every party on
   * the chain (the reward sender among them), the balances of any token are zero.
   */
  lemma {:induction false} BalanceConservation(addrs: seq<string>, chain: seq<Block>, n: string)
    requires Distinct(addrs)
    requires PartiesListed(addrs, chain)
    ensures TotalBalance(addrs, chain, n) == 0.0
  {
    if chain == [] {
      TotalBalanceEmpty(addrs, n);
    } else {
      var init, b := chain[..|chain| - 1], chain[|chain| - 1];
      assert chain == init + [b];
      assert b in chain;
      assert PartiesListed(addrs, init) by {
        forall c, t | c in init && t in c.transactions ensures t.sender in addrs && t.recipient in addrs {
          assert c in chain;
        }
      }
      BalanceConservation(addrs, init, n);
      TotalBalanceAppend(addrs, init, b, n);
      TxsConserve(addrs, b.transactions, n);
    }
  }
}
