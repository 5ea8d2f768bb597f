# MWEB payment proofs, modelled in Dafny

This project models the payment-proof protocol of the `pproof` package (`proof.go`). A payment
proof shows a third party that one serialized MWEB output pays a stated plaintext value to a
stated stealth address. The prover needs only the sender key the output was created with.

- `MakeProof` decodes the address and has `mweb.CreateOutput` build the output. It overwrites
  the output's range-proof hash with the caller's and signs the blake3 digest of commitment ‖
  sender key ‖ receiver key ‖ message hash ‖ range-proof hash. It serializes the output and
  takes the first 16 bytes of the Nonce-tagged hash of the sender key as the nonce. It signs
  that nonce and returns the output bytes, the output id (hex), the address, the value, the
  nonce and the signature.
- `Verify` runs nine checks in a fixed order and returns at the first one that fails:
  deserialize the output, compare the output id, decode the address, then compare the
  commitment, the receiver key, the key-exchange key, the masked value and the masked nonce
  with the values it recomputes, and finally check the nonce signature.

Files:

- `results.dfy` (module `Results`): `Result` and `Outcome`, the Go `(value, error)` and `error`
  returns, and `Option`, the result of `HexDecode`.
- `encoding.dfy` (module `Encoding`): the concrete byte encodings. These are fixed-width
  little-endian (`binary.Write`), big-endian reading (`big.Int.SetBytes`) and hex
  (`hex.EncodeToString`), each with its inverse and a round-trip lemma.
- `mweb.dfy` (module `Mweb`): the MWEB types (keys, commitments, signatures, the output and its
  message, stealth addresses). It also holds `Primitives`, a record of total functions, one per
  collaborator that `proof.go` calls without showing its code. Every operation takes the
  collaborators as a parameter, so every lemma holds whatever they compute.
- `proof.dfy` (module `PProof`): `PaymentProof`. `MakeProof` is an imperative method: a `Hasher`
  and a `Buffer` class are written to step by step, and the output is updated field by field.
  The method is proved equal to the function `BuildProof`. `Verify` is a function returning
  `Outcome<VerifyError>`. `Passes` and `CheckOrder` state each check on its own and fix their
  order, as a reference for `Verify`.

Because `Verify` is a function of the proof value, it cannot change the proof. Repeated calls on
the same proof give the same result.

Facts about the code that shape the model:

- A decoded address of another kind makes the type assertion at proof.go:37 and :85 panic; no
  error is returned for it. MakeProof therefore requires that its address, if it decodes at
  all, decodes to an MWEB address (`DecodesToMweb`). Verify reaches its assertion only after
  the output has deserialized and its id has matched, so it requires this only of proofs that
  get that far (`ReachesMwebAddress`); on any other proof it returns the deserializer's error or
  the id mismatch, whatever kind of address the proof names.
- `Verify` has nine checks. The derivation steps between them (send key, shared secret, output
  mask) are not checks.
- The output id is compared with `output.Hash()` of the deserialized output.
- Collaborator errors (deserialization, address decoding) are returned unchanged. The model keeps
  them as `MalformedOutput(cause)` and `AddressInvalid(cause)`, and `VerifyError.Text` gives the
  Go error text.

## Model

| member | source | states |
|---|---|---|
| `Encoding.LittleEndianRoundTrip` | proof.go:92 | Reading back the n little-endian bytes written for a value below 256^n gives that value. |
| `Encoding.Uint64LittleEndianInjective` | proof.go:92 | A `uint64` value is written as exactly 8 bytes, and two values give the same bytes exactly when they are equal. |
| `Encoding.BigEndianRoundTrip` | proof.go:127 | `SetBytes` loses nothing: the integer read from s, written back big-endian in \|s\| bytes, is s. |
| `Encoding.FromBigEndianInjective` | proof.go:127 | Two byte strings of one length (such as two 16-byte nonces) read as the same integer exactly when they are equal. |
| `Encoding.HexEncode` | proof.go:59 | The hex text of n bytes has 2n characters, so a 32-byte output hash gives a 64-character id. |
| `Encoding.HexRoundTrip` | proof.go:59 | Hex-decoding the text `hex.EncodeToString` produces gives back the bytes. |
| `Encoding.HexEncodeInjective` | proof.go:76 | Two byte strings have the same hex text exactly when they are equal. |
| `PProof.OutputSigMessageLayout` | proof.go:44-49 | The output signature's preimage is, in this order, commitment (bytes 0-32), sender key (33-65), receiver key (66-98), message hash (99-130) and range-proof hash (131-162). |
| `PProof.OutputSigMessageInjective` | proof.go:44-50 | Two outputs have the same signature preimage exactly when their commitment, both keys, message hash and range-proof hash agree. |
| `PProof.SendKeyPreimageLayout` | proof.go:88-93 | The send-key preimage is the tag byte, then A, then B, then the value as 8 little-endian bytes (which read back as the value), then the 16-byte nonce. |
| `PProof.SendKeyPreimageInjective` | proof.go:88-94 | Send-key preimages are equal exactly when address, value and nonce are equal, so distinct values give distinct preimages. |
| `PProof.SignedOutput` | proof.go:41-50 | The signed output has the caller's range-proof hash. Its signature is the sender key's signature over the blake3 digest of its own preimage. Every other field is what `CreateOutput` produced. |
| `PProof.BuildProof` | proof.go:28-65 | MakeProof fails exactly when the address fails to decode, and then returns the decoder's error. On success the proof holds the serialized signed output and the 64-character hex of its hash. Address and value are the inputs. The nonce is the first 16 bytes of the Nonce-tagged hash of the sender key, and the signature is the sender key's signature over exactly that nonce. |
| `PProof.NonceFromKey` | proof.go:55 | The nonce is 16 bytes long and a prefix of the Nonce-tagged hash of the sender key. |
| `PProof.MakeProof` | proof.go:28-65 | The step-by-step construction (hasher writes, in-place output updates, buffer) returns exactly `BuildProof`'s result. |
| `PProof.Verify` | proof.go:67-138 | Defined for every proof except one whose output deserializes, whose id matches and whose address decodes to a non-MWEB address, where Go panics. A malformed-output error is returned exactly when deserialization fails, and it carries the deserializer's error. An address error carries the decoder's error. Verify and the per-check reference `Passes` recompute the derivation chain of lines 87-127 (send key, shared secret, output mask, then the commitment, both keys and both masked fields) through one shared function, `Derive`. |
| `PProof.VerifyError.Text` | proof.go:70-134 | A deserialization or address error is returned with the collaborator's own text; every error Verify creates itself has a non-empty text. |
| `PProof.MismatchTextsDistinct` | proof.go:77-134 | The seven errors Verify creates itself have pairwise distinct texts. |
| `PProof.VerifyAcceptsIffAllChecksPass` | proof.go:67-137 | Verify returns success exactly when all nine checks pass. |
| `PProof.VerifyReportsFirstFailingCheck` | proof.go:69-135 | When Verify fails, the check its error names fails and every earlier check in the fixed order passes. |
| `PProof.FirstFailingCheckIsReported` | proof.go:69-135 | If a check fails and all earlier checks pass, Verify reports that check, whatever the later ones would say. For example, an output-id mismatch is reported even when the commitment would also mismatch. |
| `PProof.OutputIdCheckComparesHashes` | proof.go:76-78 | The output id is compared as a string. Against the hex id of a 32-byte hash h (64 characters), the check passes exactly when the recomputed output hash equals h. |
| `PProof.BuiltProofVerifies` | proof.go:28-138 | If the address decodes and the collaborators meet `FactoryAgreesWithVerifier`, the proof `BuildProof` produces passes `Verify`. That predicate says the output round-trips through the wire codec, `CreateOutput` derived its commitment, keys and masked fields as Verify recomputes them, and the nonce signature verifies under the output's sender key. |

## Left out

- Elliptic-curve multiplication, blake3, `mw.Hashed` and the byte values of the `HashTag*` tags are foreign library code. They are functions in `Primitives`. A tag is written as one byte, as `binary.Write` does for a byte-sized type.
- The Pedersen commitment, `BlindSwitch`, `OutputMaskFromShared`, `MaskValue`/`MaskNonce`, `mw.Sign` and `Signature.Verify` are opaque `mw` cryptography. They are functions in `Primitives`.
- The `wire.MwebOutput` wire format and its `Hash` are not shown, so `serialize`, `deserialize` and `outputHash` are uninterpreted. Output fields that `proof.go` never reads are kept as uninterpreted bytes (`rest`, `rangeProof`).
- `ltcutil.DecodeAddress` (the MWEB address codec) is not shown, so it is an uninterpreted partial function.
- The widths of `mw.PublicKey`/`mw.Commitment` (33 bytes) and `mw.Signature` (64 bytes) come from the `mw` package, which is not part of this model. The 32-byte keys and digests and the 16-byte nonce are the widths `proof.go` itself uses.
- The internals of `mweb.CreateOutput` are not shown, and its second and third results are discarded. So whether a built proof verifies depends on the collaborators, and `BuiltProofVerifies` states it only under the explicit assumption `FactoryAgreesWithVerifier`.
- Tamper sensitivity, unforgeability, value binding and cross-key rejection rest on cryptographic hardness assumptions, not on this code. They are not stated.
- The big-integer compare of the masked nonce is modelled as equality of integers.
- There is no concurrency in this code.
