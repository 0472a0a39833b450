/** The relayer: checks its preconditions, picks a node, builds and signs a
    relay proof, and hands the relay to the provider. The signer, the
    provider and the random source are capabilities passed in; every call
    made to one of them is recorded in a trace, so the contracts can say
    which were made and with what. */
module Relayer {
  import opened Wrappers
  import opened Types
  import opened Hashing
  import opened Selection

  /** `math.MaxInt64`, the exclusive bound of the entropy draw. */
  const MaxInt64: int := 0x7fff_ffff_ffff_ffff

  /** Signs a payload, or reports why it could not. */
  type Signer = Bytes -> Result<string, Error>

  /** Posts a relay to a node's URL with the caller's request options `O`,
      which the relayer never inspects. */
  type Provider<-O> = (string, RelayInput, O) -> Result<RelayOutput, Error>

  /** A relayer holds its two capabilities, either of which may be nil. */
  datatype Relayer<-O> = Relayer(signer: Option<Signer>, provider: Option<Provider<O>>)

  /** A call the relayer makes to one of its capabilities. */
  datatype Effect =
    | Draw(bound: int)
    | Sign(payload: Bytes)
    | Dispatch(url: string, relay: RelayInput)

  /** One precondition check: whether it passed, and the error it reports
      when it does not. */
  datatype Check = Check(passed: bool, error: Error)

  /** The relayer's precondition checks, in the order they are made. */
  function Checks<O>(relayer: Relayer<O>, input: Input): (cs: seq<Check>)
    ensures |cs| == 6
  {
    [ Check(relayer.signer.Some?, ErrNoSigner),
      Check(relayer.provider.Some?, ErrNoProvider),
      Check(input.session.Some?, ErrNoSession),
      Check(input.viperAAT.Some?, ErrNoViperAAT),
      Check(input.session.Some? && |input.session.value.nodes| > 0, ErrSessionHasNoNodes),
      Check(input.session.Some? && input.session.value.header.Some?, ErrNoSessionHeader) ]
  }

  /** Check `i` is the first one that fails. */
  predicate FirstFailing(cs: seq<Check>, i: int) {
    0 <= i < |cs| && !cs[i].passed && forall j | 0 <= j < i :: cs[j].passed
  }

  /** Each check reports its own error, so the error names the check. */
  lemma ChecksHaveDistinctErrors<O>(relayer: Relayer<O>, input: Input, i: int, j: int)
    requires 0 <= i < j < 6
    ensures Checks(relayer, input)[i].error != Checks(relayer, input)[j].error
  {
  }

  /** The precondition gate: `Pass` when every check passes, otherwise the
      error of the first check that fails. */
  function ValidateRelayRequest<O>(relayer: Relayer<O>, input: Input): (r: Outcome<Error>)
    ensures r.Pass? <==> forall i | 0 <= i < 6 :: Checks(relayer, input)[i].passed
    ensures r.Fail? ==> exists i :: FirstFailing(Checks(relayer, input), i) && r.error == Checks(relayer, input)[i].error
  {
    var cs := Checks(relayer, input);
    if relayer.signer.None? then assert FirstFailing(cs, 0); Fail(ErrNoSigner)
    else if relayer.provider.None? then assert FirstFailing(cs, 1); Fail(ErrNoProvider)
    else if input.session.None? then assert FirstFailing(cs, 2); Fail(ErrNoSession)
    else if input.viperAAT.None? then assert FirstFailing(cs, 3); Fail(ErrNoViperAAT)
    else if |input.session.value.nodes| == 0 then assert FirstFailing(cs, 4); Fail(ErrSessionHasNoNodes)
    else if input.session.value.header.None? then assert FirstFailing(cs, 5); Fail(ErrNoSessionHeader)
    else Pass
  }

  /** Everything the relay needs is present. */
  predicate Ready<O>(relayer: Relayer<O>, input: Input) {
    && relayer.signer.Some? && relayer.provider.Some?
    && input.session.Some? && input.viperAAT.Some?
    && |input.session.value.nodes| > 0 && input.session.value.header.Some?
  }

  /** The payload posted to the node, copied from the caller's request. */
  function PayloadOf(input: Input): RelayPayload {
    RelayPayload(input.data, input.httpMethod, input.path, input.headers)
  }

  /** The relay metadata: the block height of the session header. */
  function MetaOf(header: SessionHeader): RelayMeta {
    RelayMeta(header.sessionHeight)
  }

  /** Signs a proof: generates its signing bytes and hands them to the
      signer, whose answer is returned as is. The trace holds the signer call
      if one was made. */
  method GetSignedProofBytes(signer: Signer, codec: Codec, proof: RelayProof) returns (r: Result<string, Error>, trace: seq<Effect>)
    ensures GenerateProofBytes(codec, proof).Failure? ==> r == Failure(GenerateProofBytes(codec, proof).error) && trace == []
    ensures GenerateProofBytes(codec, proof).Success? ==>
      && trace == [Sign(GenerateProofBytes(codec, proof).value)]
      && r == signer(GenerateProofBytes(codec, proof).value)
  {
    var bytes := GenerateProofBytes(codec, proof);
    if bytes.Failure? {
      return Failure(bytes.error), [];
    }
    return signer(bytes.value), [Sign(bytes.value)];
  }

  /** The node a relay will use, if node resolution succeeds: the caller's
      node when the session holds its key, else the node at the index the
      random source yields for the number of nodes. */
  ghost function ChosenNode(input: Input, rng: Rng): Option<Node> {
    if input.session.None? then None
    else
      var nodes := input.session.value.nodes;
      if input.node.Some? then
        (if InSession(input.session.value, input.node.value) then Some(input.node.value) else None)
      else if rng(|nodes|).Success? && 0 <= rng(|nodes|).value < |nodes| then Some(nodes[rng(|nodes|).value])
      else None
  }

  /** The random draws made before signing: one for the node when the caller
      gave none, then one for the entropy. */
  function NodeDraws(input: Input): seq<Effect>
    requires input.session.Some?
  {
    if input.node.None? then [Draw(|input.session.value.nodes|)] else []
  }

  /** The unsigned proof a ready relay builds once its node, request hash and
      entropy are known. */
  ghost function UnsignedProof(codec: Codec, rng: Rng, input: Input): Option<RelayProof> {
    if input.session.None? || input.session.value.header.None? || input.viperAAT.None? then None
    else
      var header := input.session.value.header.value;
      var hash := HashRequest(codec, RequestHash(PayloadOf(input), MetaOf(header)));
      match (ChosenNode(input, rng), hash, rng(MaxInt64))
      case (Some(node), Success(h), Success(entropy)) =>
        Some(RelayProof(h, entropy, header.sessionHeight, node.publicKey, input.blockchain, input.viperAAT.value, ""))
      case _ => None
  }

  /** The proof a ready relay sends, once the signer has answered with a
      signature for the signing bytes of the unsigned proof. */
  ghost function SignedProof<O>(relayer: Relayer<O>, codec: Codec, rng: Rng, input: Input): Option<RelayProof> {
    match UnsignedProof(codec, rng, input)
    case None => None
    case Some(unsigned) =>
      match GenerateProofBytes(codec, unsigned)
      case Failure(_) => None
      case Success(bytes) =>
        if relayer.signer.None? then None
        else
          match relayer.signer.value(bytes)
          case Failure(_) => None
          case Success(sig) => Some(unsigned.(signature := sig))
  }

  /** The bytes the signer is asked to sign: the signing bytes of the
      unsigned proof, when they can be produced. */
  ghost function SigningBytes(codec: Codec, rng: Rng, input: Input): Option<Bytes> {
    match UnsignedProof(codec, rng, input)
    case None => None
    case Some(unsigned) =>
      match GenerateProofBytes(codec, unsigned)
      case Failure(_) => None
      case Success(bytes) => Some(bytes)
  }

  /** What is posted to the node once the proof is signed: the caller's
      payload, the session height and the signed proof. */
  ghost function SignedRelay<O>(relayer: Relayer<O>, codec: Codec, rng: Rng, input: Input): RelayInput
    requires input.session.Some? && input.session.value.header.Some?
    requires SignedProof(relayer, codec, rng, input).Some?
  {
    RelayInput(PayloadOf(input), MetaOf(input.session.value.header.value), SignedProof(relayer, codec, rng, input).value)
  }

  /** The fields of a relay proof come from the request, the session header,
      the node and the caller's AAT. */
  ghost predicate ProofBinds(codec: Codec, input: Input, node: Node, proof: RelayProof)
    requires input.session.Some? && input.session.value.header.Some? && input.viperAAT.Some?
  {
    var header := input.session.value.header.value;
    && HashRequest(codec, RequestHash(PayloadOf(input), MetaOf(header))) == Success(proof.requestHash)
    && proof.sessionBlockHeight == header.sessionHeight
    && proof.servicerPubKey == node.publicKey
    && proof.blockchain == input.blockchain
    && proof.aat == input.viperAAT.value
  }

  /** The proof's signature is the signer's answer on the signing bytes of
      the same proof with an empty signature. */
  ghost predicate SignedBy(signer: Signer, codec: Codec, proof: RelayProof) {
    && GenerateProofBytes(codec, proof.(signature := "")).Success?
    && signer(GenerateProofBytes(codec, proof.(signature := "")).value) == Success(proof.signature)
  }

  /** Performs one relay. Fails fast: each step's error is returned as is,
      with no output, and no later capability call is made. */
  method Relay<O>(relayer: Relayer<O>, codec: Codec, rng: Rng, input: Input, options: O)
    returns (r: Result<Output, Error>, trace: seq<Effect>)
    requires RandIntContract(rng)
    // the gate comes first and nothing is called when it fails
    ensures ValidateRelayRequest(relayer, input).Fail? ==>
      r == Failure(ValidateRelayRequest(relayer, input).error) && trace == []
    // a capability is only ever called for a ready relay
    ensures trace != [] ==> Ready(relayer, input)
    // a caller's node the session does not hold is refused before any call
    ensures Ready(relayer, input) && input.node.Some? && !InSession(input.session.value, input.node.value) ==>
      r == Failure(ErrNodeNotInSession) && trace == []
    // a failed node draw is passed on
    ensures Ready(relayer, input) && input.node.None? && rng(|input.session.value.nodes|).Failure? ==>
      r == Failure(rng(|input.session.value.nodes|).error) && trace == NodeDraws(input)
    // a failed request hash is passed on, before the entropy draw
    ensures (Ready(relayer, input) && ChosenNode(input, rng).Some?
      && HashRequest(codec, RequestHash(PayloadOf(input), MetaOf(input.session.value.header.value))).Failure?) ==>
      && r == Failure(HashRequest(codec, RequestHash(PayloadOf(input), MetaOf(input.session.value.header.value))).error)
      && trace == NodeDraws(input)
    // a failed entropy draw is passed on
    ensures (Ready(relayer, input) && ChosenNode(input, rng).Some?
      && HashRequest(codec, RequestHash(PayloadOf(input), MetaOf(input.session.value.header.value))).Success?
      && rng(MaxInt64).Failure?) ==>
      r == Failure(rng(MaxInt64).error) && trace == NodeDraws(input) + [Draw(MaxInt64)]
    // a failure to produce the signing bytes is passed on, and the signer is not called
    ensures (Ready(relayer, input) && UnsignedProof(codec, rng, input).Some?
      && GenerateProofBytes(codec, UnsignedProof(codec, rng, input).value).Failure?) ==>
      && r == Failure(GenerateProofBytes(codec, UnsignedProof(codec, rng, input).value).error)
      && trace == NodeDraws(input) + [Draw(MaxInt64)]
    // the signer is called once, on the signing bytes of the unsigned proof, and its failure is passed on
    ensures (Ready(relayer, input) && UnsignedProof(codec, rng, input).Some?
      && GenerateProofBytes(codec, UnsignedProof(codec, rng, input).value).Success?) ==>
      && |trace| >= 2 + |NodeDraws(input)|
      && trace[|NodeDraws(input)|..|NodeDraws(input)| + 2]
         == [Draw(MaxInt64), Sign(GenerateProofBytes(codec, UnsignedProof(codec, rng, input).value).value)]
    ensures trace != [] && trace[|trace| - 1].Sign? ==>
      && relayer.signer.value(trace[|trace| - 1].payload).Failure?
      && r == Failure(relayer.signer.value(trace[|trace| - 1].payload).error)
    ensures (Ready(relayer, input) && UnsignedProof(codec, rng, input).Some?
      && SigningBytes(codec, rng, input).Some?
      && relayer.signer.value(SigningBytes(codec, rng, input).value).Failure?) ==>
      && r == Failure(relayer.signer.value(SigningBytes(codec, rng, input).value).error)
      && trace == NodeDraws(input) + [Draw(MaxInt64), Sign(SigningBytes(codec, rng, input).value)]
    // the provider is called last, at most once, and its answer is passed on
    ensures trace != [] && trace[|trace| - 1].Dispatch? ==>
      match relayer.provider.value(trace[|trace| - 1].url, trace[|trace| - 1].relay, options)
      case Failure(e) => r == Failure(e)
      case Success(out) => r.Success? && r.value.relayOutput == out
    ensures forall i | 0 <= i < |trace| - 1 :: !trace[i].Dispatch?
    ensures (Ready(relayer, input) && SignedProof(relayer, codec, rng, input).Some?
      && relayer.provider.value(ChosenNode(input, rng).value.serviceUrl, SignedRelay(relayer, codec, rng, input), options).Failure?) ==>
      && r == Failure(relayer.provider.value(ChosenNode(input, rng).value.serviceUrl, SignedRelay(relayer, codec, rng, input), options).error)
      && trace == NodeDraws(input) + [Draw(MaxInt64), Sign(SigningBytes(codec, rng, input).value),
                                      Dispatch(ChosenNode(input, rng).value.serviceUrl, SignedRelay(relayer, codec, rng, input))]
    // when every step succeeds the relay succeeds, with the provider's answer
    ensures (Ready(relayer, input) && SignedProof(relayer, codec, rng, input).Some?
      && relayer.provider.value(ChosenNode(input, rng).value.serviceUrl, SignedRelay(relayer, codec, rng, input), options).Success?) ==>
      r == Success(Output(
        relayer.provider.value(ChosenNode(input, rng).value.serviceUrl, SignedRelay(relayer, codec, rng, input), options).value,
        SignedProof(relayer, codec, rng, input).value,
        ChosenNode(input, rng).value))
    // what a successful relay returns
    ensures r.Success? ==> Ready(relayer, input) && ChosenNode(input, rng) == Some(r.value.node)
    ensures r.Success? ==> InSession(input.session.value, r.value.node)
    ensures r.Success? && input.node.Some? ==> r.value.node == input.node.value
    ensures r.Success? && input.node.None? ==> r.value.node in input.session.value.nodes
    ensures r.Success? ==> ProofBinds(codec, input, r.value.node, r.value.proof)
    ensures r.Success? ==> rng(MaxInt64) == Success(r.value.proof.entropy) && 0 <= r.value.proof.entropy < MaxInt64
    ensures r.Success? ==> SignedBy(relayer.signer.value, codec, r.value.proof)
    ensures r.Success? ==>
      var relay := RelayInput(PayloadOf(input), MetaOf(input.session.value.header.value), r.value.proof);
      && relayer.provider.value(r.value.node.serviceUrl, relay, options) == Success(r.value.relayOutput)
      && trace == NodeDraws(input) + [Draw(MaxInt64),
                                      Sign(GenerateProofBytes(codec, r.value.proof.(signature := "")).value),
                                      Dispatch(r.value.node.serviceUrl, relay)]
  {
    trace := [];
    var valid := ValidateRelayRequest(relayer, input);
    if valid.Fail? {
      return Failure(valid.error), trace;
    }
    var session := input.session.value;
    var header := session.header.value;

    trace := NodeDraws(input);
    var picked := GetNode(input, rng);
    if picked.Failure? {
      return Failure(picked.error), trace;
    }
    var node := picked.value;

    var payload := PayloadOf(input);
    var meta := MetaOf(header);
    var hashedReq := HashRequest(codec, RequestHash(payload, meta));
    if hashedReq.Failure? {
      return Failure(hashedReq.error), trace;
    }

    trace := trace + [Draw(MaxInt64)];
    var entropy := rng(MaxInt64);
    if entropy.Failure? {
      return Failure(entropy.error), trace;
    }

    var unsigned := RelayProof(hashedReq.value, entropy.value, header.sessionHeight, node.publicKey,
                               input.blockchain, input.viperAAT.value, "");
    var signature, signTrace := GetSignedProofBytes(relayer.signer.value, codec, unsigned);
    trace := trace + signTrace;
    if signature.Failure? {
      return Failure(signature.error), trace;
    }

    var relayProof := unsigned.(signature := signature.value);
    var relay := RelayInput(payload, meta, relayProof);
    trace := trace + [Dispatch(node.serviceUrl, relay)];
    var relayOutput := relayer.provider.value(node.serviceUrl, relay, options);
    if relayOutput.Failure? {
      return Failure(relayOutput.error), trace;
    }
    return Success(Output(relayOutput.value, relayProof, node)), trace;
  }
}
