/**
 * The MWEB vocabulary the payment proof is written against, and the collaborators it calls
 * without seeing their code: the address codec, the output factory, the output wire codec,
 * blake3 and the tagged hash, elliptic-curve multiplication, the Pedersen commitment, the
 * output mask, and signatures. Each collaborator is a total function held in `Primitives`;
 * every operation and lemma of the model takes the collaborators as a parameter, so whatever
 * is proved holds for every choice of them.
 */
module Mweb {
  import opened Results
  import opened Encoding

  type Bytes = seq<byte>

  /** A 32-byte digest: a blake3 sum, a `chainhash.Hash`, the result of `mw.Hashed`. */
  type Hash32 = s: Bytes | |s| == 32 witness seq(32, _ => 0)

  /** A scalar of the curve group (`mw.SecretKey`); proof.go converts 32-byte digests into one. */
  type SecretKey = s: Bytes | |s| == 32 witness seq(32, _ => 0)

  /** A Pedersen blinding factor (`mw.BlindingFactor`). */
  type BlindingFactor = s: Bytes | |s| == 32 witness seq(32, _ => 0)

  /** A compressed curve point (`mw.PublicKey`). */
  type PublicKey = s: Bytes | |s| == 33 witness seq(33, _ => 0)

  /** A Pedersen commitment (`mw.Commitment`). */
  type Commitment = s: Bytes | |s| == 33 witness seq(33, _ => 0)

  /** A Schnorr signature (`mw.Signature`). */
  type Signature = s: Bytes | |s| == 64 witness seq(64, _ => 0)

  /** The proof's nonce (`[16]byte`). */
  type Nonce = s: Bytes | |s| == 16 witness seq(16, _ => 0)

  /** The domain tags of `mw.Hashed` that proof.go names. Their byte values are a collaborator's. */
  datatype HashTag = TagDerive | TagNonce | TagOutKey | TagSendKey

  /** A stealth address: scan key A and spend key B. */
  datatype StealthAddress = StealthAddress(a: PublicKey, b: PublicKey)

  /** What `ltcutil.DecodeAddress` returns: an MWEB address, or some other kind of address. */
  datatype Address = MwebAddress(stealth: StealthAddress) | OtherAddress(encoded: string)

  /** An error returned by a collaborator; proof.go passes it on unchanged. */
  datatype CollaboratorError = CollaboratorError(message: string)

  /** `mweb.Recipient`: where and how much CreateOutput pays. */
  datatype Recipient = Recipient(address: StealthAddress, value: uint64)

  /**
   * `wire.MwebOutputMessage`: the fields proof.go reads, and `rest` for the ones it never
   * touches (features, view tag, extra data). The masked nonce is a `big.Int`.
   */
  datatype OutputMessage = OutputMessage(
    keyExchangePubKey: PublicKey,
    maskedValue: uint64,
    maskedNonce: int,
    rest: Bytes)

  /** `wire.MwebOutput`. */
  datatype MwebOutput = MwebOutput(
    commitment: Commitment,
    senderPubKey: PublicKey,
    receiverPubKey: PublicKey,
    message: OutputMessage,
    rangeProof: Bytes,
    rangeProofHash: Hash32,
    signature: Signature)

  /**
   * `mw.OutputMask`, derived from a shared secret t: the blinding factor HASH32(T_blind||t),
   * the value mask HASH8(T_vmask||t) and the nonce mask HASH8(T_nmask||t), three separately
   * tagged hashes. Verify reads the blinding factor directly; `maskValue` and `maskNonce`
   * read the value and nonce masks.
   */
  datatype OutputMask = OutputMask(blind: BlindingFactor, valueMask: uint64, nonceMask: nat)

  /** The collaborators, each as the function it computes. */
  datatype Primitives = Primitives(
    // ltcutil.DecodeAddress(_, &chaincfg.MainNetParams)
    decodeAddress: string -> Result<Address, CollaboratorError>,
    // mweb.CreateOutput, of which proof.go keeps only the output
    createOutput: (Recipient, SecretKey) -> MwebOutput,
    // MwebOutput.Serialize, MwebOutput.Deserialize, MwebOutput.Hash
    serialize: MwebOutput -> Bytes,
    deserialize: Bytes -> Result<MwebOutput, CollaboratorError>,
    outputHash: MwebOutput -> Hash32,
    // MwebOutputMessage.Hash
    messageHash: OutputMessage -> Hash32,
    // blake3.New(32, nil) fed with the given bytes, then Sum(nil)
    blake3: Bytes -> Hash32,
    // mw.Hashed(tag, data), and the one byte binary.Write emits for a tag
    hashed: (HashTag, Bytes) -> Hash32,
    tagByte: HashTag -> byte,
    // PublicKey.Mul
    mul: (PublicKey, SecretKey) -> PublicKey,
    // mw.OutputMaskFromShared, mw.BlindSwitch, mw.NewCommitment
    outputMaskFromShared: SecretKey -> OutputMask,
    blindSwitch: (BlindingFactor, uint64) -> BlindingFactor,
    newCommitment: (BlindingFactor, uint64) -> Commitment,
    // OutputMask.MaskValue, OutputMask.MaskNonce
    maskValue: (OutputMask, uint64) -> uint64,
    maskNonce: (OutputMask, nat) -> int,
    // mw.Sign and Signature.Verify(pubKey, message)
    sign: (SecretKey, Bytes) -> Signature,
    verifySignature: (Signature, PublicKey, Bytes) -> bool)
}
