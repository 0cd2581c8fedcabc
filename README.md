# gochain ledger engine, modelled in Dafny

This project models the ledger engine of gochain (`block/blockchain.go`): a proof-of-work
chain of blocks carrying token transfers, a pending transaction pool guarded by signature
and balance checks, a first-fit nonce search, chain validation, longest-valid-chain
conflict resolution, the durable head pointer stored under the key `"lh"`, and the
lowercase hex form of `previous_hash` in a block's JSON.

Modules, leaves first:

- `Wrappers` — `Option`, used for nil pointers, absent JSON fields and missing peer responses.
- `Hex` — `%x` encoding of bytes and the prefix decoding of Go's `hex.DecodeString`
  (section 8 of RFC 4648, lowercase alphabet).
- `Blocks` — `Token`, `Transaction`, `Block` (its datatype constructors play the part of
  `NewTransaction` and `NewBlock`), 32-byte `Digest`, `Config`, the `previous_hash` codec,
  the stored-head copy, and `TransactionRequest.Validate`.
- `Proof` — `ValidProof` (leading hex zeros of the hash of the block with timestamp 0)
  and `ChainValid`, what `ValidChain` checks.
- `Balances` — the balance replay as a specification, with a received-minus-sent
  reference definition and its properties.
- `Consensus` — the scan of `ResolveConflicts` as a function and its declarative meaning.
- `Ledger` — the `Blockchain` class: `chain`, `transactionPool`, `nodes` and the
  key-value `store` are fields the methods update; the configuration, this node's address
  and the two opaque primitives are constants. `LastBlock` and `RewardTransaction` are
  helper functions used in the contracts of the methods.

The two cryptographic primitives stay opaque. SHA-256 over a block's JSON (FIPS 180-4)
is a constant `hash: Block -> Digest`, and ECDSA verification over the digest of a
transaction's JSON (FIPS 186-4) is a constant
`verify: (PublicKey, Signature, Transaction) -> bool`. Both are given to the constructors.
Token values are exact decimals in the source and `real` here. The clock is a `timestamp`
parameter. A peer's chain comes from a parameter `fetch: string -> Option<seq<Block>>`.
The outcome of a consensus notification comes from a parameter `notify: string -> bool`.

On these points the model follows what the code does:

- A balance equal to the amount is rejected: the check is a strict "greater than".
- `TransactionRequest.Validate` never looks at the signature field.
- `ResolveConflicts` replaces the chain without rewriting the stored head.
- `Mining` returns false at the first failed peer notification, after the block has been
  appended.
- `CreateBlockchain` never stores the configuration it is given (see "## Findings").

## Model

| member | source | states |
|---|---|---|
| Hex.EncodeHex | block/blockchain.go:138 | the `%x` form of n bytes has 2n characters, each a lowercase hex digit |
| Hex.DecodeHex | block/blockchain.go:163 | the decoded prefix never has more bytes than half the input's length |
| Hex.EncodeHexAt | block/blockchain.go:138 | character i of the encoding is the digit of nibble i, high nibble of each byte first |
| Hex.DecodeEncodeHex | block/blockchain.go:138-164 | decoding the encoding of any byte string gives it back |
| Hex.EncodeDecodeHex | block/blockchain.go:163-164 | a lowercase hex string of whole pairs decodes to half as many bytes that encode back to it |
| Blocks.EncodePreviousHash | block/blockchain.go:128-141 | a block's previous hash is written as exactly 64 lowercase hex characters |
| Blocks.PreviousHashRoundTrip | block/blockchain.go:128-167 | reading back a written previous hash yields the same 32 bytes |
| Blocks.PreviousHashFieldRoundTrip | block/blockchain.go:143-167 | any 64-character lowercase hex field is read as a digest that is written back as the same field |
| Blocks.CopyHead | block/blockchain.go:76-79 | the head read from the store is the stored bytes, cut or zero-padded to 32; a 32-byte value is read unchanged |
| Blocks.GenesisPreviousHash | block/blockchain.go:61-81 | without a stored head the genesis block points at the zero block's hash; with a 32-byte stored head it points at that head |
| Blocks.Validate | block/blockchain.go:606-617 | a request is valid iff sender, recipient, public key, token name and token value are all present |
| Blocks.ValidateIgnoresSignature | block/blockchain.go:606-617 | removing the signature never changes the validation outcome |
| Proof.ValidProofNibbles | block/blockchain.go:373-378 | a nonce proves a block iff the first d nibbles of the digest of that block with timestamp 0 are zero |
| Proof.ValidProofMonotone | block/blockchain.go:373-378 | a proof at difficulty d is a proof at every lower difficulty |
| Proof.ChainValidAppend | block/blockchain.go:476-494 | a non-empty chain extended by one block is valid iff the chain was valid and the block links to the old head with a valid proof |
| Proof.TamperedLinkInvalid | block/blockchain.go:481-483 | changing the previous hash of any non-genesis block of a valid chain makes it invalid |
| Proof.BadProofInvalid | block/blockchain.go:485-487 | a non-genesis block whose nonce fails the proof makes the chain invalid |
| Balances.BalanceIsReceivedMinusSent | block/blockchain.go:432-453 | the replayed balance equals the total received minus the total sent of that token over all transactions of the chain |
| Balances.NeutralBlockBalance | block/blockchain.go:437-447 | a block of other tokens' transfers and self-transfers leaves a balance unchanged |
| Balances.RewardBlockBalance | block/blockchain.go:399-453 | a block ending in a payment to a from another address credits a with the pool's effect plus the payment; after a genesis-only chain and an empty pool the balance is exactly the payment |
| Balances.BalanceConservation | block/blockchain.go:432-453 | over distinct addresses that include every party on the chain, the balances of any token sum to zero |
| Consensus.ScanSelectsFirstLongestValid | block/blockchain.go:496-524 | the choice is empty iff no peer chain is valid and strictly longer than the local one; otherwise it is some peer's valid, strictly longer chain of maximal length that is strictly longer than every earlier qualifying chain |
| Ledger.Blockchain.CreateBlockchain | block/blockchain.go:50-91 | as written: the ledger starts from the stored or zero-block head with the zero configuration, whatever configuration it is given |
| Ledger.Blockchain.Create | block/blockchain.go:50-91 | as intended: the same start, keeping the given configuration |
| Ledger.Blockchain.OpenHead | block/blockchain.go:61-89 | one genesis block over the stored head (or the zero block's hash, when absent), an empty pool, a valid chain, and the genesis hash stored as the head |
| Ledger.ZeroConfigAcceptsEveryNonce | block/blockchain.go:373-388 | at the zero configuration's difficulty every nonce proves every block, so the search stops at 0 |
| Ledger.ZeroConfigRewardCreditsNothing | block/blockchain.go:399-453 | at the zero configuration, mining on a chain of empty blocks credits the miner nothing in any token |
| Ledger.Blockchain.SetNodes | block/blockchain.go:179-190 | the discovered peer list replaces the old one wholesale |
| Ledger.Blockchain.ClearTransactionPool | block/blockchain.go:207-209 | the pool becomes empty |
| Ledger.Blockchain.UpdateLastHash | block/blockchain.go:263-280 | the store's head key holds the last block's hash; nothing else in the store changes |
| Ledger.Blockchain.CreateBlock | block/blockchain.go:233-261 | exactly one block with the given nonce, previous hash and the old pool is appended, earlier blocks are untouched, the pool is emptied and the head key holds the new block's hash |
| Ledger.Blockchain.AddTransaction | block/blockchain.go:333-356 | the mining sender is always admitted; any other sender iff the signature verifies and the balance is strictly greater than the amount; admission appends exactly that transaction, rejection leaves the pool unchanged |
| Ledger.Blockchain.CopyTransactionPool | block/blockchain.go:365-371 | the copy equals the pool, field by field and in order |
| Ledger.Blockchain.ProofOfWork | block/blockchain.go:380-388 | the result is the least nonce at or above 0 proving the pool on top of the head's hash |
| Ledger.Blockchain.Mining | block/blockchain.go:390-425 | one block is appended on top of the old head holding the old pool plus the reward with the least proving nonce; the pool is emptied, the head stored, a valid chain stays valid; the result is true iff every peer notification succeeds |
| Ledger.Blockchain.CalculateTotalAmount | block/blockchain.go:432-453 | the loop computes the replayed balance of the address in the token |
| Ledger.Blockchain.CalculateAllAmounts | block/blockchain.go:455-474 | one entry per token name on the chain, no name twice, each with the address's replayed balance in it |
| Ledger.Blockchain.TokenBalances | block/blockchain.go:457-464 | the map's keys are the token names on the chain and each value is that token's balance |
| Ledger.Blockchain.Entries | block/blockchain.go:466-473 | the slice holds every map entry exactly once |
| Ledger.Blockchain.ValidChain | block/blockchain.go:476-494 | on a non-empty chain the result is true iff every block after genesis links to its predecessor's hash and carries a valid proof at this node's difficulty |
| Ledger.Blockchain.ResolveConflicts | block/blockchain.go:496-524 | the chain becomes the scan's choice over the peers in order, a valid and strictly longer chain, and the result says whether it was replaced; otherwise nothing changes; a valid chain stays valid |

## Findings

| source | as written | input that shows it | evidently intended | confidence | as-written member | corrected member |
|---|---|---|---|---|---|---|
| block/blockchain.go:50-91 | `CreateBlockchain` reads `conf` only for the store path and the port and never assigns `bc.conf`, so mining, admission and validation read the zero configuration | `Config(2, "DENIZ", "DNZ", 10.0)`: every nonce proves (difficulty 0), sender "" is the privileged one, and one mine credits nothing (`ZeroConfigAcceptsEveryNonce`, `ZeroConfigRewardCreditsNothing`) | the ledger keeps the configuration it is given | high, not executed | Ledger.Blockchain.CreateBlockchain | Ledger.Blockchain.Create |

## Left out

- Peer broadcasts are not modelled: the pool-clearing requests in `CreateBlock` and the transaction forwarding in `Createransaction` are raw HTTP whose errors are only logged. `Createransaction` is otherwise `AddTransaction`.
- Peer discovery (`utils.FindP2P`) probes the network. `SetNodes` takes its result as a parameter.
- `SyncNodes`, `StartSyncNodes`, `StartMining`, `Run` and both mutexes are concurrency and timers. The model is sequential.
- `VerifyTransactionSignature` is the opaque `verify`. SHA-256 and JSON serialization are the opaque `hash`, so the JSON difference between a nil and an empty transaction list is not visible.
- The `MarshalJSON`/`UnmarshalJSON` of `Blockchain`, `Transaction` and `Token`, and the response wrappers, are JSON plumbing. Only the `previous_hash` field is modelled.
- `Print` and logging have no effect on state.
- `utils.FloatToDecimal` formats a float. The configuration carries the reward as an exact decimal.
- Blocks.DecodePreviousHash: returns None when fewer than 32 bytes decode. The source then either panics or copies undecoded bytes of its input buffer.
- Ledger.Blockchain.UpdateLastHash: always reports success. Badger write and read failures are not modelled, and neither are open failures in the constructors.
- Ledger.Blockchain.ResolveConflicts: None stands for a non-200 response, which is skipped. On a transport error the source dereferences a nil response; that crash is not modelled. Body decoding errors are ignored by the source, so `fetch` returns whatever chain was decoded.
- Ledger.Blockchain.ProofOfWork: requires that some nonce proves the block. The source loops forever otherwise. `Mining` requires the same through `CanMine`.
- Ledger.Blockchain.ValidChain: the difficulty type excludes values outside 0..64. With such a difficulty the source panics in `ValidProof` when a chain has two or more blocks.
- Nonces are unbounded integers. Go's 64-bit `int` would overflow only after 2^63 attempts.
