/**
 * The ledger's values: tokens, transactions, blocks, the 32-byte digests that link them,
 * the configuration the ledger reads, and the wire-level transaction request.
 * SHA-256 over a block's JSON and ECDSA verification stay opaque: they are the function
 * types `Hasher` and `Verifier`, supplied to the ledger from outside.
 */
module Blocks {
  import opened Wrappers
  import opened Hex

  type Digest = s: seq<byte> | |s| == 32 witness seq(32, _ => 0 as byte)

  /** A named amount; the value is an exact decimal, modelled as a real. */
  datatype Token = Token(tokenName: string, tokenValue: real)

  datatype Transaction = Transaction(sender: string, recipient: string, token: Token)

  datatype Block = Block(timestamp: int, nonce: int, previousHash: Digest, transactions: seq<Transaction>)

  /** SHA-256 of a block's JSON serialization. */
  type Hasher = Block -> Digest

  datatype PublicKey = PublicKey(x: int, y: int)
  datatype Signature = Signature(r: int, s: int)

  /** ECDSA verification of a signature over the digest of a transaction's JSON. */
  type Verifier = (PublicKey, Signature, Transaction) -> bool

  /** Number of leading hex zeros required; outside 0..64 the source panics. */
  type Difficulty = d: int | 0 <= d <= 64

  datatype Config = Config(difficulty: Difficulty, miningSender: string,
                           defaultRewardToken: string, miningReward: real)

  /** The configuration a ledger has when none is assigned to it: every field zero. */
  const ZeroConfig: Config := Config(0, "", "", 0.0)

  /** The only key of the durable head store. */
  const HeadKey: string := "lh"

  const ZeroDigest: Digest := seq(32, _ => 0 as byte)

  /** The zero-valued block whose hash seeds a fresh store. */
  const ZeroBlock: Block := Block(0, 0, ZeroDigest, [])

  /** The `previous_hash` field as `MarshalJSON` writes it. */
  function EncodePreviousHash(d: Digest): (s: string)
    ensures |s| == 64
    ensures forall i :: 0 <= i < 64 ==> IsLowerHexDigit(s[i])
  {
    EncodeHex(d)
  }

  /**
   * The `previous_hash` field as `UnmarshalJSON` reads it: the decoded prefix cut to 32 bytes.
   * None stands for a field that decodes to fewer than 32 bytes.
   */
  function DecodePreviousHash(s: string): (r: Option<Digest>)
  {
    var ph := DecodeHex(s);
    if |ph| >= 32 then Some(ph[..32]) else None
  }

  /** Writing a previous hash and reading it back gives the same 32 bytes. */
  lemma PreviousHashRoundTrip(d: Digest)
    ensures DecodePreviousHash(EncodePreviousHash(d)) == Some(d)
  {
    DecodeEncodeHex(d);
    assert DecodeHex(EncodeHex(d))[..32] == d;
  }

  /** Every 64-character lowercase hex field is read as the digest that writes back to it. */
  lemma PreviousHashFieldRoundTrip(s: string)
    requires |s| == 64
    requires forall i :: 0 <= i < 64 ==> IsLowerHexDigit(s[i])
    ensures DecodePreviousHash(s).Some?
    ensures EncodePreviousHash(DecodePreviousHash(s).value) == s
  {
    EncodeDecodeHex(s);
    assert DecodeHex(s)[..32] == DecodeHex(s);
  }

  /** `copy(lastHash[:], val)` into a zeroed 32-byte array. */
  function CopyHead(val: seq<byte>): (d: Digest)
    ensures forall i :: 0 <= i < 32 ==> d[i] == if i < |val| then val[i] else 0
    ensures |val| == 32 ==> d == val
  {
    if |val| >= 32 then val[..32] else val + seq(32 - |val|, _ => 0 as byte)
  }

  /** The previous hash of the genesis block: the stored head, or the zero block's hash. */
  function GenesisPreviousHash(store: map<string, seq<byte>>, hash: Hasher): (d: Digest)
    ensures HeadKey !in store ==> d == hash(ZeroBlock)
    ensures HeadKey in store && |store[HeadKey]| == 32 ==> d == store[HeadKey]
  {
    if HeadKey in store then CopyHead(store[HeadKey]) else hash(ZeroBlock)
  }

  /** A transaction request as decoded from JSON; absent fields are None. */
  datatype TransactionRequest = TransactionRequest(
    senderBlockchainAddress: Option<string>,
    recipientBlockchainAddress: Option<string>,
    senderPublicKey: Option<string>,
    tokenName: Option<string>,
    tokenValue: Option<real>,
    signature: Option<string>)

  /** Field-presence check; the signature field is not among the checked ones. */
  function Validate(req: TransactionRequest): (ok: bool)
    ensures ok ==> req.senderBlockchainAddress.Some? && req.recipientBlockchainAddress.Some?
    ensures ok ==> req.senderPublicKey.Some? && req.tokenName.Some? && req.tokenValue.Some?
    ensures (req.senderBlockchainAddress.Some? && req.recipientBlockchainAddress.Some? &&
             req.senderPublicKey.Some? && req.tokenName.Some? && req.tokenValue.Some?) ==> ok
  {
    !(req.senderBlockchainAddress.None? ||
      req.recipientBlockchainAddress.None? ||
      req.senderPublicKey.None? ||
      req.tokenName.None? || req.tokenValue.None?)
  }

  /** A request without a signature passes validation exactly when the signed one does. */
  lemma ValidateIgnoresSignature(req: TransactionRequest)
    ensures Validate(req.(signature := None)) == Validate(req)
  {
  }
}
