# Relayer pipeline model

This project models the relay pipeline of the viper-go client library (`relayer/relayer.go`) in Dafny. The relayer runs in this order:

1. It checks six preconditions in a fixed order. The first failing check gives a distinct sentinel error.
2. It picks the servicing node. This is either the caller's node, accepted when the session holds its public key, or a random node of the session.
3. It hashes the request (payload plus session block height).
4. It draws the entropy.
5. It builds the relay proof and obtains a signature over the proof's signing bytes. The signing bytes are the SHA3 digest of the proof with its AAT replaced by the AAT hash and its signature emptied.
6. It posts the relay through the provider and returns the provider's answer together with the proof and the node.

Every step fails fast. An error from the hasher, the random source, the signer or the provider is returned unchanged, with no output.

Modules:

- `Wrappers` holds `Option`, `Result` and `Outcome`.
- `Types` holds the records and the `Error` set.
- `Hex` holds `hex.EncodeToString` and its inverse.
- `Hashing` holds `HashAAT`, `HashRequest` and `GenerateProofBytes`.
- `Selection` holds `IsNodeInSession`, `GetRandomSessionNode` and `getNode`.
- `Relayer` holds the gate, `getSignedProofBytes` and `Relay`.
- `Scenarios` holds the precondition walk and the provider-failure run of the relayer's test.

External code becomes parameters:

- JSON encoding and SHA3-256 are the function-valued fields of `Hashing.Codec`. Each field may fail, as the Go calls may. `Sha3Is256` states the 32-byte digest length where a contract needs it.
- `crypto/rand` is `Selection.Rng`, a function from a bound to a number or an error. `RandIntContract` is its range promise: every value is in `[0, bound)`.
- The signer is `Relayer.Signer`, from bytes to a signature or an error.
- The provider is `Relayer.Provider<O>`, from a URL, a relay input and the caller's options `O` to an output or an error. The options are a type parameter because the relayer passes them through without reading them.

Every call to the random source, the signer or the provider is recorded in the `trace` returned by `Relay`. This lets the contracts state which calls were made, in what order and with what arguments. It also lets them state that no call is made when an earlier step fails.

Three facts about the code that the model keeps:

- The entropy is drawn below `math.MaxInt64`, that is in `[0, 2^63 - 1)`.
- A hashing or serialisation failure is returned to the caller as an ordinary error.
- The AAT hash is computed inside `GenerateProofBytes`, not as a separate step before the proof is built.

A consequence of the code that the model makes explicit: an explicit node is accepted by public key alone and returned as given. The relay is therefore posted to the caller's URL even when the session lists a different URL for that key (`Relay` ensures `r.value.node == input.node.value` and that the dispatch goes to `r.value.node.serviceUrl`).

## Model

| member | source | states |
|---|---|---|
| `Hex.Encode` | relayer/relayer.go:254 | The hex text of a digest has two characters per byte, all lower-case hex digits. |
| `Hex.DecodeEncode` | relayer/relayer.go:254 | Decoding the hex text returns the original bytes. |
| `Hex.EncodeInjective` | relayer/relayer.go:271 | Different digests give different hex strings, so no information is lost in the hex step. |
| `Hashing.HexDigest` | relayer/relayer.go:242-254 | A serialisation error is passed on. When serialisation succeeds, a SHA3 error is passed on. When both succeed, the result is a success: lower-case hex that decodes to the SHA3 digest of the serialised bytes, 64 characters when SHA3 gives 32 bytes. |
| `Hashing.Unsigned` | relayer/relayer.go:239-240 | The AAT copy that is hashed has an empty signature. Version, application key and client key are kept. |
| `Hashing.HashAAT` | relayer/relayer.go:238-255 | Hashes the AAT with its signature cleared. A marshalling error, or else a SHA3 error, is returned as is. When both succeed the result is a success: lower-case hex that decodes to the SHA3 digest of the unsigned AAT's encoding. |
| `Hashing.HashAATIgnoresSignature` | relayer/relayer.go:238-240 | Two AATs that agree on every field but the signature hash identically. |
| `Hashing.HashRequest` | relayer/relayer.go:258-272 | Hashes the {payload, meta} structure. A marshalling error, or else a SHA3 error, is returned as is. When both succeed the result is a success: lower-case hex that decodes to the SHA3 digest of its encoding. |
| `Hashing.ForSignature` | relayer/relayer.go:212-220 | The shape serialised for signing copies request hash, entropy, session height, servicer key and blockchain. Its token is the AAT hash and its signature is empty. |
| `Hashing.GenerateProofBytes` | relayer/relayer.go:206-235 | An AAT-hash error is passed on. Then a marshalling error of the `ForSignature` shape built with that AAT hash is passed on. Otherwise the result is exactly SHA3's answer on that encoding: its error, or the raw 32-byte digest (not hex). |
| `Hashing.ProofBytesIgnoreSignature` | relayer/relayer.go:212-220 | Proofs that differ only in their signature have the same signing bytes. |
| `Hashing.ProofBytesIgnoreAATSignature` | relayer/relayer.go:207-218 | The signing bytes do not depend on the embedded AAT's signature either. |
| `Selection.IsNodeInSession` | relayer/relayer.go:195-203 | True exactly when some session node has the given node's public key. It is false for an empty node list. |
| `Selection.MembershipByKey` | relayer/relayer.go:195-203 | A node of the list is in the session. Changing a node's URL never changes its membership. |
| `Selection.GetRandomSessionNode` | relayer/relayer.go:185-192 | An error from the random source is returned as is. A successful draw of index `i` gives exactly the session's node at `i`, so the result is always an element of the session's node list. |
| `Selection.GetNode` | relayer/relayer.go:87-97 | An explicit node outside the session gives `ErrNodeNotInSession`. An explicit node inside it is returned unchanged. With no node given, the result is a random session node. |
| `Relayer.ChecksHaveDistinctErrors` | relayer/relayer.go:18-33 | The six precondition checks report six different sentinel errors, so the error identifies the failing check. |
| `Relayer.ValidateRelayRequest` | relayer/relayer.go:59-85 | Passes exactly when all six checks pass. Otherwise it returns the error of the first failing check, in the order signer, provider, session, AAT, nodes, header. |
| `Relayer.GetSignedProofBytes` | relayer/relayer.go:99-106 | The signer is called once, on the proof's signing bytes, and its answer is returned as is. When the bytes cannot be produced, that error is returned and the signer is not called. |
| `Relayer.Relay` | relayer/relayer.go:109-181 | Gate and node errors are returned before any capability call. Each later step's failure is returned unchanged, and the trace then ends at that step: node draw, request hash, entropy draw, signing bytes, signer (trace ends with the `Sign` call), provider (trace ends with the `Dispatch` call). When every step succeeds the result is exactly the provider's answer, the signed proof and the chosen node. On success: the node is the chosen in-session node. The proof carries the request hash, session height, node key, blockchain and AAT. The entropy is in `[0, MaxInt64)`. The signature is the signer's answer on the proof's signature-free bytes. The same proof goes to the provider at the node's URL and into the output. |
| `Scenarios.Refused` | relayer/relayer_test.go:26-68 | A request the gate or node check refuses fails with that check's error and makes no capability call. |
| `Scenarios.ProviderFailurePassedOn` | relayer/relayer_test.go:70-77 | With no node given and a provider that fails every post with one error, the relay yields no output. Once the proof is signed, the error returned is exactly the provider's. |
| `Scenarios.PreconditionWalk` | relayer/relayer_test.go:23-68 | Repairing an empty request one piece at a time gives the errors `ErrNoSigner` through `ErrNoSessionHeader`, then `ErrNodeNotInSession` for node "PJOG" against a session holding "AOG". No call is made. |

## Left out

- Byte-exact JSON encoding and SHA3-256 are foreign library calls (relayer/relayer.go:222-234, 242-254, 259-271). They are uninterpreted fields of `Codec`. Collision resistance ("changing a field changes the digest") is therefore not stated.
- `Selection.GetRandomSessionNode`: uniform and unpredictable selection are statistical and cryptographic claims about `crypto/rand`. Only the range of the draw is stated.
- `Relayer.Relay`: the provider's HTTP transport and its construction of 5xx and 400 errors (relayer/relayer_test.go:72-93) belong to the provider package. They appear only as whatever error the provider returns, which is passed on unchanged.
- The signer's key management and signature scheme are opaque. The signer is any function from bytes to a signature or an error.
- `NewRelayer` is the `Relayer` datatype constructor. It has no logic of its own.
- transaction-builder/transaction_message.go is not part of this model. It holds thin constructors around hex decoding and a public-key parser from another package.
- Go nil pointers inside values are not modelled: a nil element of `Session.Nodes`, or a nil AAT handed directly to `GenerateProofBytes`. Both make the Go code panic. The model's nodes and AAT are plain values.
- `rand.Int` panics for a bound of zero. `GetRandomSessionNode` and `GetNode` therefore require a non-empty node list on the random path, which the gate guarantees in `Relay`.
- The `int64` widths of session height and entropy are not modelled. Both are unbounded integers, and the entropy's range is stated explicitly.
- A Go interface that holds a typed nil pointer compares unequal to nil. The model treats a capability as either present or absent.
- Concurrent use of one relayer is not modelled. It holds no mutable state beyond its two capabilities.
