/** Digests of the AAT, of the request and of the proof. JSON encoding and
    SHA3-256 come from libraries outside the relayer; they are the
    function-valued fields of a `Codec`, so every property below holds for
    whatever encoder and hash function the program is linked with. */
module Hashing {
  import opened Wrappers
  import opened Types
  import Hex

  /** The library calls a digest is made from: `json.Marshal` of each of the
      three serialised shapes, and a SHA3-256 hasher fed one buffer
      (`New256`, `Write`, `Sum`). Each of them may report an error. */
  datatype Codec = Codec(
    marshalAAT: ViperAAT -> Result<Bytes, Error>,
    marshalRequest: RequestHash -> Result<Bytes, Error>,
    marshalProof: ProofForSignature -> Result<Bytes, Error>,
    sha3: Bytes -> Result<Bytes, Error>)

  /** SHA3-256 digests are 32 bytes long. */
  ghost predicate Sha3Is256(c: Codec) {
    forall m :: c.sha3(m).Success? ==> |c.sha3(m).value| == 32
  }

  /** The AAT as it is hashed: every field kept except the signature, which
      is emptied. */
  function Unsigned(aat: ViperAAT): (u: ViperAAT)
    ensures u.signature == ""
    ensures u.version == aat.version && u.appPubKey == aat.appPubKey && u.clientPubKey == aat.clientPubKey
  {
    aat.(signature := "")
  }

  /** Two AATs that agree on every field but the signature. */
  predicate SameExceptSignature(a: ViperAAT, b: ViperAAT) {
    a.version == b.version && a.appPubKey == b.appPubKey && a.clientPubKey == b.clientPubKey
  }

  /** Hex text of the SHA3 digest of some serialised bytes, with the error of
      either step passed on. */
  function HexDigest(c: Codec, m: Result<Bytes, Error>): (r: Result<string, Error>)
    ensures m.Failure? ==> r == Failure(m.error)
    ensures m.Success? && c.sha3(m.value).Failure? ==> r == Failure(c.sha3(m.value).error)
    ensures m.Success? && c.sha3(m.value).Success? ==> r.Success?
    ensures r.Success? ==> Hex.IsLowerHex(r.value)
    ensures r.Success? ==> m.Success? && c.sha3(m.value).Success? && Hex.Decode(r.value) == Some(c.sha3(m.value).value)
    ensures Sha3Is256(c) && r.Success? ==> |r.value| == 64
  {
    var bytes :- m;
    var digest :- c.sha3(bytes);
    Hex.DecodeEncode(digest);
    Success(Hex.Encode(digest))
  }

  /** Hash of an AAT with its signature cleared, as lower-case hex. */
  function HashAAT(c: Codec, aat: ViperAAT): (r: Result<string, Error>)
    ensures c.marshalAAT(Unsigned(aat)).Failure? ==> r == Failure(c.marshalAAT(Unsigned(aat)).error)
    ensures c.marshalAAT(Unsigned(aat)).Success? && c.sha3(c.marshalAAT(Unsigned(aat)).value).Failure? ==>
      r == Failure(c.sha3(c.marshalAAT(Unsigned(aat)).value).error)
    ensures c.marshalAAT(Unsigned(aat)).Success? && c.sha3(c.marshalAAT(Unsigned(aat)).value).Success? ==> r.Success?
    ensures r.Success? ==> c.marshalAAT(Unsigned(aat)).Success?
    ensures r.Success? ==> Hex.IsLowerHex(r.value)
    ensures r.Success? ==> c.sha3(c.marshalAAT(Unsigned(aat)).value).Success?
    ensures r.Success? ==> Hex.Decode(r.value) == Some(c.sha3(c.marshalAAT(Unsigned(aat)).value).value)
    ensures Sha3Is256(c) && r.Success? ==> |r.value| == 64
  {
    HexDigest(c, c.marshalAAT(Unsigned(aat)))
  }

  /** The AAT hash does not depend on the AAT's signature. */
  lemma HashAATIgnoresSignature(c: Codec, a: ViperAAT, b: ViperAAT)
    requires SameExceptSignature(a, b)
    ensures HashAAT(c, a) == HashAAT(c, b)
  {
  }

  /** Hash of the request structure (payload and metadata), as lower-case hex. */
  function HashRequest(c: Codec, req: RequestHash): (r: Result<string, Error>)
    ensures c.marshalRequest(req).Failure? ==> r == Failure(c.marshalRequest(req).error)
    ensures c.marshalRequest(req).Success? && c.sha3(c.marshalRequest(req).value).Failure? ==>
      r == Failure(c.sha3(c.marshalRequest(req).value).error)
    ensures c.marshalRequest(req).Success? && c.sha3(c.marshalRequest(req).value).Success? ==> r.Success?
    ensures r.Success? ==> c.marshalRequest(req).Success?
    ensures r.Success? ==> Hex.IsLowerHex(r.value)
    ensures r.Success? ==> c.sha3(c.marshalRequest(req).value).Success?
    ensures r.Success? ==> Hex.Decode(r.value) == Some(c.sha3(c.marshalRequest(req).value).value)
    ensures Sha3Is256(c) && r.Success? ==> |r.value| == 64
  {
    HexDigest(c, c.marshalRequest(req))
  }

  /** The serialised shape of a proof for signing: the proof's fields, the
      AAT replaced by its hash, and the signature forced empty whatever the
      proof carries. */
  function ForSignature(p: RelayProof, token: string): (s: ProofForSignature)
    ensures s.signature == "" && s.token == token
    ensures s.requestHash == p.requestHash && s.entropy == p.entropy
    ensures s.sessionBlockHeight == p.sessionBlockHeight && s.servicerPubKey == p.servicerPubKey
    ensures s.blockchain == p.blockchain
  {
    ProofForSignature(p.requestHash, p.entropy, p.sessionBlockHeight, p.servicerPubKey, p.blockchain, token, "")
  }

  /** The bytes handed to the signer: the raw (not hex) SHA3 digest of the
      serialised `ForSignature` shape, whose token is the AAT hash. */
  function GenerateProofBytes(c: Codec, p: RelayProof): (r: Result<Bytes, Error>)
    ensures HashAAT(c, p.aat).Failure? ==> r == Failure(HashAAT(c, p.aat).error)
    ensures HashAAT(c, p.aat).Success? && c.marshalProof(ForSignature(p, HashAAT(c, p.aat).value)).Failure? ==>
      r == Failure(c.marshalProof(ForSignature(p, HashAAT(c, p.aat).value)).error)
    ensures HashAAT(c, p.aat).Success? && c.marshalProof(ForSignature(p, HashAAT(c, p.aat).value)).Success? ==>
      r == c.sha3(c.marshalProof(ForSignature(p, HashAAT(c, p.aat).value)).value)
    ensures r.Success? ==> HashAAT(c, p.aat).Success?
    ensures r.Success? ==> c.marshalProof(ForSignature(p, HashAAT(c, p.aat).value)).Success?
    ensures r.Success? ==> c.sha3(c.marshalProof(ForSignature(p, HashAAT(c, p.aat).value)).value) == r
    ensures Sha3Is256(c) && r.Success? ==> |r.value| == 32
  {
    var token :- HashAAT(c, p.aat);
    var marshaled :- c.marshalProof(ForSignature(p, token));
    var digest :- c.sha3(marshaled);
    Success(digest)
  }

  /** Two proofs that differ only in their signatures give the same signing
      bytes: the signature covers every field but itself. */
  lemma ProofBytesIgnoreSignature(c: Codec, p: RelayProof, sig: string)
    ensures GenerateProofBytes(c, p.(signature := sig)) == GenerateProofBytes(c, p)
  {
  }

  /** The signing bytes depend on the AAT only through its hash, so they do
      not depend on the AAT's own signature either. */
  lemma ProofBytesIgnoreAATSignature(c: Codec, p: RelayProof, aat: ViperAAT)
    requires SameExceptSignature(p.aat, aat)
    ensures GenerateProofBytes(c, p.(aat := aat)) == GenerateProofBytes(c, p)
  {
  }
}
