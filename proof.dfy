/**
 * The MWEB payment proof (package pproof, proof.go): `MakeProof` builds a proof that a
 * serialized output pays a plaintext value to a stealth address, from the sender key the
 * output was created with; `Verify` re-derives everything the sender key determined from the
 * proof's public fields alone and compares it, check by check, with the output.
 */
module PProof {
  import opened Results
  import opened Encoding
  import opened Mweb

  /** `PaymentProof`: the serialized output, its hex id, the address, the value, the nonce and its signature. */
  datatype PaymentProof = PaymentProof(
    output: Bytes,
    outputId: string,
    address: string,
    value: uint64,
    nonce: Nonce,
    signature: Signature)

  /**
   * proof.go asserts the type of a decoded address (`addr.(*ltcutil.AddressMweb)`), which
   * panics on any other kind of address. MakeProof therefore requires that the address
   * string, if it decodes at all, decodes to an MWEB address.
   */
  predicate DecodesToMweb(p: Primitives, address: string)
  {
    p.decodeAddress(address).Success? ==> p.decodeAddress(address).value.MwebAddress?
  }

  // ---------------------------------------------------------------------------
  // Streaming writers used by MakeProof

  /** A blake3 hasher with a 32-byte digest: it remembers what was written, and sums it on demand. */
  class Hasher {
    var written: Bytes

    constructor ()
      ensures written == []
    {
      written := [];
    }

    method Write(data: Bytes)
      modifies this
      ensures written == old(written) + data
    {
      written := written + data;
    }

    function Sum(p: Primitives): (h: Hash32)
      reads this
    {
      p.blake3(written)
    }
  }

  /** A `bytes.Buffer`: written bytes accumulate in order. */
  class Buffer {
    var contents: Bytes

    constructor ()
      ensures contents == []
    {
      contents := [];
    }

    method Write(data: Bytes)
      modifies this
      ensures contents == old(contents) + data
    {
      contents := contents + data;
    }
  }

  // ---------------------------------------------------------------------------
  // The digest preimages

  /**
   * The bytes the output signature's digest covers, in the order MakeProof writes them:
   * commitment, sender key, receiver key, message hash, range-proof hash.
   */
  function OutputSigMessage(p: Primitives, o: MwebOutput): (m: Bytes)
    ensures |m| == 163
  {
    o.commitment + o.senderPubKey + o.receiverPubKey + p.messageHash(o.message) + o.rangeProofHash
  }

  /** Where each field lies in the output signature's preimage. */
  lemma OutputSigMessageLayout(p: Primitives, o: MwebOutput)
    ensures var m := OutputSigMessage(p, o);
      && m[..33] == o.commitment
      && m[33..66] == o.senderPubKey
      && m[66..99] == o.receiverPubKey
      && m[99..131] == p.messageHash(o.message)
      && m[131..] == o.rangeProofHash
  {
    var m := OutputSigMessage(p, o);
    var m4 := o.commitment + o.senderPubKey + o.receiverPubKey + p.messageHash(o.message);
    var m3 := o.commitment + o.senderPubKey + o.receiverPubKey;
    var m2 := o.commitment + o.senderPubKey;
    assert m == m4 + o.rangeProofHash && m4 == m3 + p.messageHash(o.message);
    assert m[..131] == m4 && m4[..99] == m3 && m3[..66] == m2;
    assert m[..33] == m2[..33];
    assert m[33..66] == m2[33..];
  }

  /** The preimage fixes every field it covers: two outputs have the same one exactly when those fields agree. */
  lemma OutputSigMessageInjective(p: Primitives, o1: MwebOutput, o2: MwebOutput)
    ensures OutputSigMessage(p, o1) == OutputSigMessage(p, o2) <==>
      && o1.commitment == o2.commitment
      && o1.senderPubKey == o2.senderPubKey
      && o1.receiverPubKey == o2.receiverPubKey
      && p.messageHash(o1.message) == p.messageHash(o2.message)
      && o1.rangeProofHash == o2.rangeProofHash
  {
    OutputSigMessageLayout(p, o1);
    OutputSigMessageLayout(p, o2);
  }

  /** The send-key preimage: tag, A, B, the value as 8 little-endian bytes, and the 16-byte nonce. */
  function SendKeyPreimage(p: Primitives, sa: StealthAddress, value: uint64, nonce: Nonce): (m: Bytes)
    ensures |m| == 91
  {
    [p.tagByte(TagSendKey)] + sa.a + sa.b + LittleEndian(value, 8) + nonce
  }

  /** Where each part lies in the send-key preimage; the value reads back from its 8 bytes. */
  lemma SendKeyPreimageLayout(p: Primitives, sa: StealthAddress, value: uint64, nonce: Nonce)
    ensures var m := SendKeyPreimage(p, sa, value, nonce);
      && m[0] == p.tagByte(TagSendKey)
      && m[1..34] == sa.a
      && m[34..67] == sa.b
      && m[67..75] == LittleEndian(value, 8)
      && FromLittleEndian(m[67..75]) == value
      && m[75..] == nonce
  {
    var m := SendKeyPreimage(p, sa, value, nonce);
    var m4 := [p.tagByte(TagSendKey)] + sa.a + sa.b + LittleEndian(value, 8);
    var m3 := [p.tagByte(TagSendKey)] + sa.a + sa.b;
    var m2 := [p.tagByte(TagSendKey)] + sa.a;
    assert m == m4 + nonce && m4 == m3 + LittleEndian(value, 8);
    assert m[..75] == m4 && m4[..67] == m3 && m3[..34] == m2;
    assert m[1..34] == m2[1..];
    Pow256Of8();
    LittleEndianRoundTrip(value, 8);
  }

  /**
   * The send-key preimage determines the address, the value and the nonce: distinct values
   * (or nonces, or addresses) give distinct preimages.
   */
  lemma SendKeyPreimageInjective(p: Primitives, sa1: StealthAddress, value1: uint64, nonce1: Nonce,
                                 sa2: StealthAddress, value2: uint64, nonce2: Nonce)
    ensures SendKeyPreimage(p, sa1, value1, nonce1) == SendKeyPreimage(p, sa2, value2, nonce2) <==>
      sa1 == sa2 && value1 == value2 && nonce1 == nonce2
  {
    SendKeyPreimageLayout(p, sa1, value1, nonce1);
    SendKeyPreimageLayout(p, sa2, value2, nonce2);
  }

  // ---------------------------------------------------------------------------
  // MakeProof

  /** The proof's nonce: the first 16 bytes of the Nonce-tagged hash of the sender key. */
  function NonceFromKey(p: Primitives, senderKey: SecretKey): (n: Nonce)
    ensures |n| == 16 && n <= p.hashed(TagNonce, senderKey)
  {
    p.hashed(TagNonce, senderKey)[..16]
  }

  /**
   * The output MakeProof serializes: CreateOutput's output with the caller's range-proof hash
   * put in, and signed by the sender key over the blake3 digest of its signature preimage.
   */
  function SignedOutput(p: Primitives, sa: StealthAddress, value: uint64, senderKey: SecretKey,
                        rangeProofHash: Hash32): (o: MwebOutput)
    ensures o.rangeProofHash == rangeProofHash
    ensures o.signature == p.sign(senderKey, p.blake3(OutputSigMessage(p, o)))
    ensures o == p.createOutput(Recipient(sa, value), senderKey).(rangeProofHash := rangeProofHash,
                                                                   signature := o.signature)
  {
    var created := p.createOutput(Recipient(sa, value), senderKey);
    var withHash := created.(rangeProofHash := rangeProofHash);
    withHash.(signature := p.sign(senderKey, p.blake3(OutputSigMessage(p, withHash))))
  }

  /** What MakeProof returns, as a value. */
  function BuildProof(p: Primitives, address: string, value: uint64, senderKey: SecretKey,
                      rangeProofHash: Hash32): (r: Result<PaymentProof, CollaboratorError>)
    requires DecodesToMweb(p, address)
    ensures r.Failure? <==> p.decodeAddress(address).Failure?
    ensures r.Failure? ==> r.error == p.decodeAddress(address).error
    ensures r.Success? ==>
      var o := SignedOutput(p, p.decodeAddress(address).value.stealth, value, senderKey, rangeProofHash);
      && r.value.output == p.serialize(o)
      && r.value.outputId == HexEncode(p.outputHash(o))
      && |r.value.outputId| == 64
      && r.value.address == address
      && r.value.value == value
      && r.value.nonce == p.hashed(TagNonce, senderKey)[..16]
      && r.value.signature == p.sign(senderKey, r.value.nonce)
  {
    match p.decodeAddress(address)
    case Failure(e) => Failure(e)
    case Success(addr) =>
      var o := SignedOutput(p, addr.stealth, value, senderKey, rangeProofHash);
      var nonce := NonceFromKey(p, senderKey);
      Success(PaymentProof(p.serialize(o), HexEncode(p.outputHash(o)), address, value, nonce,
                           p.sign(senderKey, nonce)))
  }

  /**
   * `MakeProof`: decode the address, create the output, overwrite its range-proof hash, sign
   * the blake3 digest of its fields, serialize it, derive and sign the nonce.
   */
  method MakeProof(p: Primitives, address: string, value: uint64, senderKey: SecretKey,
                   rangeProofHash: Hash32) returns (r: Result<PaymentProof, CollaboratorError>)
    requires DecodesToMweb(p, address)
    ensures r == BuildProof(p, address, value, senderKey, rangeProofHash)
  {
    var addr := p.decodeAddress(address);
    if addr.Failure? {
      return Failure(addr.error);
    }

    var recipient := Recipient(addr.value.stealth, value);
    var output := p.createOutput(recipient, senderKey);
    output := output.(rangeProofHash := rangeProofHash);

    var h := new Hasher();
    h.Write(output.commitment);
    h.Write(output.senderPubKey);
    h.Write(output.receiverPubKey);
    h.Write(p.messageHash(output.message));
    h.Write(output.rangeProofHash);
    assert h.written == OutputSigMessage(p, output);
    output := output.(signature := p.sign(senderKey, h.Sum(p)));

    var buf := new Buffer();
    buf.Write(p.serialize(output));

    var nonce: Nonce := p.hashed(TagNonce, senderKey)[..16];

    assert output == SignedOutput(p, recipient.address, value, senderKey, rangeProofHash);
    assert nonce == NonceFromKey(p, senderKey);
    assert buf.contents == p.serialize(output);
    assert BuildProof(p, address, value, senderKey, rangeProofHash).Success?;
    r := Success(PaymentProof(buf.contents, HexEncode(p.outputHash(output)), address, value, nonce,
                              p.sign(senderKey, nonce)));
  }

  // ---------------------------------------------------------------------------
  // Verify

  /** The errors Verify returns, one per check; decode failures carry the collaborator's error. */
  datatype VerifyError =
    | MalformedOutput(cause: CollaboratorError)
    | OutputIdMismatch
    | AddressInvalid(cause: CollaboratorError)
    | CommitmentMismatch
    | ReceiverPubKeyMismatch
    | KeyExchangePubKeyMismatch
    | MaskedValueMismatch
    | MaskedNonceMismatch
    | SenderSignatureInvalid
  {
    /** The text of the Go error value. */
    function Text(): (t: string)
      ensures MalformedOutput? || AddressInvalid? ==> t == cause.message
      ensures !(MalformedOutput? || AddressInvalid?) ==> |t| > 0
    {
      match this
      case MalformedOutput(cause) => cause.message
      case OutputIdMismatch => "output id mismatch"
      case AddressInvalid(cause) => cause.message
      case CommitmentMismatch => "commitment mismatch"
      case ReceiverPubKeyMismatch => "receiver pubkey mismatch"
      case KeyExchangePubKeyMismatch => "key exchange pubkey mismatch"
      case MaskedValueMismatch => "masked value mismatch"
      case MaskedNonceMismatch => "masked nonce mismatch"
      case SenderSignatureInvalid => "sender key signature invalid"
    }
  }

  /** Everything Verify recomputes from the address, the value and the nonce. */
  datatype Derived = Derived(
    sendKey: SecretKey,
    shared: SecretKey,
    mask: OutputMask,
    commitment: Commitment,
    receiverPubKey: PublicKey,
    keyExchangePubKey: PublicKey,
    maskedValue: uint64,
    maskedNonce: int)

  /**
   * The derivation chain Verify and Passes share: s = blake3(send-key preimage),
   * t = Hashed(Derive, s*A), the output mask from t, C = commit(switch(blind, v), v),
   * Ko = B * Hashed(OutKey, t), Ke = B * s, and the value and the big-endian nonce masked.
   */
  function Derive(p: Primitives, sa: StealthAddress, value: uint64, nonce: Nonce): (d: Derived)
  {
    var s := p.blake3(SendKeyPreimage(p, sa, value, nonce));
    var t := p.hashed(TagDerive, p.mul(sa.a, s));
    var mask := p.outputMaskFromShared(t);
    Derived(
      s, t, mask,
      p.newCommitment(p.blindSwitch(mask.blind, value), value),
      p.mul(sa.b, p.hashed(TagOutKey, t)),
      p.mul(sa.b, s),
      p.maskValue(mask, value),
      p.maskNonce(mask, FromBigEndian(nonce)))
  }

  /**
   * Verify reaches the type assertion on the decoded address only once the output has
   * deserialized and its id matched; from there on the address must not be of another kind.
   */
  predicate ReachesMwebAddress(p: Primitives, pp: PaymentProof)
  {
    p.deserialize(pp.output).Success? &&
    HexEncode(p.outputHash(p.deserialize(pp.output).value)) == pp.outputId
    ==> DecodesToMweb(p, pp.address)
  }

  /** `PaymentProof.Verify`: the first failing check's error, or `Pass`. */
  function Verify(p: Primitives, pp: PaymentProof): (r: Outcome<VerifyError>)
    requires ReachesMwebAddress(p, pp)
    ensures r.Fail? && r.error.MalformedOutput? <==> p.deserialize(pp.output).Failure?
    ensures r.Fail? && r.error.MalformedOutput? ==> r.error.cause == p.deserialize(pp.output).error
    ensures r.Fail? && r.error.AddressInvalid? ==> p.decodeAddress(pp.address) == Failure(r.error.cause)
  {
    match p.deserialize(pp.output)
    case Failure(e) => Fail(MalformedOutput(e))
    case Success(output) =>
      if HexEncode(p.outputHash(output)) != pp.outputId then Fail(OutputIdMismatch)
      else
        match p.decodeAddress(pp.address)
        case Failure(e) => Fail(AddressInvalid(e))
        case Success(addr) =>
          var d := Derive(p, addr.stealth, pp.value, pp.nonce);
          if d.commitment != output.commitment then Fail(CommitmentMismatch)
          else if d.receiverPubKey != output.receiverPubKey then Fail(ReceiverPubKeyMismatch)
          else if d.keyExchangePubKey != output.message.keyExchangePubKey then Fail(KeyExchangePubKeyMismatch)
          else if d.maskedValue != output.message.maskedValue then Fail(MaskedValueMismatch)
          else if d.maskedNonce != output.message.maskedNonce then Fail(MaskedNonceMismatch)
          else if !p.verifySignature(pp.signature, output.senderPubKey, pp.nonce) then Fail(SenderSignatureInvalid)
          else Pass
  }

  /**
   * The errors Verify itself creates have pairwise distinct texts, so a caller that compares
   * error strings can tell every mismatch apart.
   */
  lemma MismatchTextsDistinct(e1: VerifyError, e2: VerifyError)
    requires !(e1.MalformedOutput? || e1.AddressInvalid?)
    requires !(e2.MalformedOutput? || e2.AddressInvalid?)
    ensures e1.Text() == e2.Text() <==> e1 == e2
  {
  }

  // ---------------------------------------------------------------------------
  // The checks, one by one, as a reference for Verify

  datatype Check =
    | Deserialize
    | OutputIdMatch
    | AddressDecode
    | CommitmentMatch
    | ReceiverPubKeyMatch
    | KeyExchangePubKeyMatch
    | MaskedValueMatch
    | MaskedNonceMatch
    | SenderSignature

  /** The order in which Verify runs the checks. */
  const CheckOrder: seq<Check> := [Deserialize, OutputIdMatch, AddressDecode, CommitmentMatch,
                                    ReceiverPubKeyMatch, KeyExchangePubKeyMatch, MaskedValueMatch,
                                    MaskedNonceMatch, SenderSignature]

  /** The position of a check in `CheckOrder`. */
  function Rank(k: Check): (i: nat)
    ensures i < |CheckOrder| && CheckOrder[i] == k
  {
    match k
    case Deserialize => 0
    case OutputIdMatch => 1
    case AddressDecode => 2
    case CommitmentMatch => 3
    case ReceiverPubKeyMatch => 4
    case KeyExchangePubKeyMatch => 5
    case MaskedValueMatch => 6
    case MaskedNonceMatch => 7
    case SenderSignature => 8
  }

  /** The check an error reports. */
  function CheckOf(e: VerifyError): (k: Check)
  {
    match e
    case MalformedOutput(_) => Deserialize
    case OutputIdMismatch => OutputIdMatch
    case AddressInvalid(_) => AddressDecode
    case CommitmentMismatch => CommitmentMatch
    case ReceiverPubKeyMismatch => ReceiverPubKeyMatch
    case KeyExchangePubKeyMismatch => KeyExchangePubKeyMatch
    case MaskedValueMismatch => MaskedValueMatch
    case MaskedNonceMismatch => MaskedNonceMatch
    case SenderSignatureInvalid => SenderSignature
  }

  /**
   * Whether the proof passes check `k`, on its own: a check that needs the output or the
   * stealth address fails when the output does not deserialize or the address does not
   * decode to an MWEB address.
   */
  predicate Passes(p: Primitives, pp: PaymentProof, k: Check)
  {
    var out := p.deserialize(pp.output);
    var addr := p.decodeAddress(pp.address);
    match k
    case Deserialize => out.Success?
    case OutputIdMatch => out.Success? && pp.outputId == HexEncode(p.outputHash(out.value))
    case AddressDecode => addr.Success?
    case CommitmentMatch =>
      out.Success? && addr.Success? && addr.value.MwebAddress? &&
      Derive(p, addr.value.stealth, pp.value, pp.nonce).commitment == out.value.commitment
    case ReceiverPubKeyMatch =>
      out.Success? && addr.Success? && addr.value.MwebAddress? &&
      Derive(p, addr.value.stealth, pp.value, pp.nonce).receiverPubKey == out.value.receiverPubKey
    case KeyExchangePubKeyMatch =>
      out.Success? && addr.Success? && addr.value.MwebAddress? &&
      Derive(p, addr.value.stealth, pp.value, pp.nonce).keyExchangePubKey == out.value.message.keyExchangePubKey
    case MaskedValueMatch =>
      out.Success? && addr.Success? && addr.value.MwebAddress? &&
      Derive(p, addr.value.stealth, pp.value, pp.nonce).maskedValue == out.value.message.maskedValue
    case MaskedNonceMatch =>
      out.Success? && addr.Success? && addr.value.MwebAddress? &&
      Derive(p, addr.value.stealth, pp.value, pp.nonce).maskedNonce == out.value.message.maskedNonce
    case SenderSignature =>
      out.Success? && p.verifySignature(pp.signature, out.value.senderPubKey, pp.nonce)
  }

  /** Verify accepts a proof exactly when it passes all nine checks. */
  lemma VerifyAcceptsIffAllChecksPass(p: Primitives, pp: PaymentProof)
    requires ReachesMwebAddress(p, pp)
    ensures Verify(p, pp) == Pass <==> forall k :: Passes(p, pp, k)
  {
    if forall k :: Passes(p, pp, k) {
      assert Passes(p, pp, Deserialize) && Passes(p, pp, OutputIdMatch) && Passes(p, pp, AddressDecode);
      assert Passes(p, pp, CommitmentMatch) && Passes(p, pp, ReceiverPubKeyMatch);
      assert Passes(p, pp, KeyExchangePubKeyMatch) && Passes(p, pp, MaskedValueMatch);
      assert Passes(p, pp, MaskedNonceMatch) && Passes(p, pp, SenderSignature);
    }
  }

  /**
   * When Verify fails, the check its error names fails and every check before it in
   * `CheckOrder` passes: the error is the first failing check's.
   */
  lemma VerifyReportsFirstFailingCheck(p: Primitives, pp: PaymentProof)
    requires ReachesMwebAddress(p, pp)
    ensures Verify(p, pp).Fail? ==>
      var k := CheckOf(Verify(p, pp).error);
      && !Passes(p, pp, k)
      && forall j :: 0 <= j < Rank(k) ==> Passes(p, pp, CheckOrder[j])
  {
  }

  /**
   * Conversely, if check `CheckOrder[i]` fails and all before it pass, Verify fails with that
   * check's error, whatever the later checks would say.
   */
  lemma FirstFailingCheckIsReported(p: Primitives, pp: PaymentProof, i: nat)
    requires ReachesMwebAddress(p, pp)
    requires i < |CheckOrder| && !Passes(p, pp, CheckOrder[i])
    requires forall j :: 0 <= j < i ==> Passes(p, pp, CheckOrder[j])
    ensures Verify(p, pp).Fail? && CheckOf(Verify(p, pp).error) == CheckOrder[i]
  {
    VerifyAcceptsIffAllChecksPass(p, pp);
    VerifyReportsFirstFailingCheck(p, pp);
  }

  /**
   * The id check compares hex strings, and hex encoding is injective: against the id of a
   * 32-byte hash `h` (64 characters), the check passes exactly when the recomputed hash is `h`.
   */
  lemma OutputIdCheckComparesHashes(p: Primitives, pp: PaymentProof, o: MwebOutput, h: Hash32)
    requires pp.outputId == HexEncode(h)
    ensures |pp.outputId| == 64
    ensures HexEncode(p.outputHash(o)) == pp.outputId <==> p.outputHash(o) == h
  {
    HexEncodeInjective(p.outputHash(o), h);
  }

  // ---------------------------------------------------------------------------
  // A built proof verifies, given what the output factory must guarantee

  /**
   * What a proof built from (sa, value, senderKey) needs of the collaborators in order to
   * verify: the serialized output deserializes to itself, CreateOutput derived its commitment,
   * receiver key, key-exchange key and masked fields along the chain Verify recomputes (with the
   * nonce MakeProof puts in the proof), and the nonce signature checks against the output's
   * sender key.
   */
  predicate FactoryAgreesWithVerifier(p: Primitives, sa: StealthAddress, value: uint64,
                                      senderKey: SecretKey, rangeProofHash: Hash32)
  {
    var created := p.createOutput(Recipient(sa, value), senderKey);
    var nonce := NonceFromKey(p, senderKey);
    var d := Derive(p, sa, value, nonce);
    var o := SignedOutput(p, sa, value, senderKey, rangeProofHash);
    && p.deserialize(p.serialize(o)) == Success(o)
    && created.commitment == d.commitment
    && created.receiverPubKey == d.receiverPubKey
    && created.message.keyExchangePubKey == d.keyExchangePubKey
    && created.message.maskedValue == d.maskedValue
    && created.message.maskedNonce == d.maskedNonce
    && p.verifySignature(p.sign(senderKey, nonce), created.senderPubKey, nonce)
  }

  /** Under that guarantee, the proof MakeProof builds for a decodable address verifies. */
  lemma BuiltProofVerifies(p: Primitives, address: string, value: uint64, senderKey: SecretKey,
                           rangeProofHash: Hash32)
    requires DecodesToMweb(p, address)
    requires p.decodeAddress(address).Success?
    requires FactoryAgreesWithVerifier(p, p.decodeAddress(address).value.stealth, value, senderKey,
                                       rangeProofHash)
    ensures BuildProof(p, address, value, senderKey, rangeProofHash).Success?
    ensures Verify(p, BuildProof(p, address, value, senderKey, rangeProofHash).value) == Pass
  {
    var sa := p.decodeAddress(address).value.stealth;
    var o := SignedOutput(p, sa, value, senderKey, rangeProofHash);
    var pp := BuildProof(p, address, value, senderKey, rangeProofHash).value;
    assert pp.nonce == NonceFromKey(p, senderKey);
    assert o.commitment == p.createOutput(Recipient(sa, value), senderKey).commitment;
  }
}
