/** The relayer's precondition walk: a request is repaired one missing piece
    at a time, and each relay attempt fails with the next check's error. */
module Scenarios {
  import opened Wrappers
  import opened Types
  import opened Hashing
  import opened Selection
  import opened Relayer

  /** A relay attempt the gate or the node check refuses: its error, and
      the capability calls it made. */
  method Refused<O>(relayer: Relayer<O>, codec: Codec, rng: Rng, input: Input, options: O)
    returns (e: Error, t: seq<Effect>)
    requires RandIntContract(rng)
    requires || ValidateRelayRequest(relayer, input).Fail?
             || (Ready(relayer, input) && input.node.Some? && !InSession(input.session.value, input.node.value))
    ensures ValidateRelayRequest(relayer, input).Fail? ==> e == ValidateRelayRequest(relayer, input).error
    ensures ValidateRelayRequest(relayer, input).Pass? ==> e == ErrNodeNotInSession
    ensures t == []
  {
    var r;
    r, t := Relay(relayer, codec, rng, input, options);
    e := r.error;
  }

  /** Starting from an empty request and a relayer with no capabilities, the
      attempts fail with the seven precondition errors in gate order, and none
      of them calls the random source, the signer or the provider. The last
      attempt names a node ("PJOG") the session (holding only "AOG") does not
      hold. */
  method PreconditionWalk<O>(signer: Signer, provider: Provider<O>, codec: Codec, rng: Rng, options: O)
    returns (errors: seq<Error>, calls: seq<seq<Effect>>)
    requires RandIntContract(rng)
    ensures errors == [ErrNoSigner, ErrNoProvider, ErrNoSession, ErrNoViperAAT,
                       ErrSessionHasNoNodes, ErrNoSessionHeader, ErrNodeNotInSession]
    ensures |calls| == |errors| && forall i | 0 <= i < |calls| :: calls[i] == []
  {
    var relayer: Relayer<O> := Relayer(None, None);
    var input := Input("", "", "", "", map[], None, None, None);

    var e1, t1 := Refused(relayer, codec, rng, input, options);

    relayer := relayer.(signer := Some(signer));
    var e2, t2 := Refused(relayer, codec, rng, input, options);

    relayer := relayer.(provider := Some(provider));
    var e3, t3 := Refused(relayer, codec, rng, input, options);

    input := input.(session := Some(Session(None, [])));
    var e4, t4 := Refused(relayer, codec, rng, input, options);

    input := input.(viperAAT := Some(ViperAAT("", "", "", "")));
    var e5, t5 := Refused(relayer, codec, rng, input, options);

    input := input.(session := Some(Session(None, [Node("AOG", "")])));
    var e6, t6 := Refused(relayer, codec, rng, input, options);

    input := input.(session := Some(Session(Some(SessionHeader("", "", 0)), [Node("AOG", "")])),
                    node := Some(Node("PJOG", "")));
    assert !InSession(input.session.value, input.node.value) by {
      assert "PJOG" != "AOG";
    }
    var e7, t7 := Refused(relayer, codec, rng, input, options);

    errors := [e1, e2, e3, e4, e5, e6, e7];
    calls := [t1, t2, t3, t4, t5, t6, t7];
  }

  /** A complete request against a session whose single node has public key
      "AOG", with the given caller's node. */
  function AogRequest(node: Option<Node>): (input: Input)
    ensures input.session.Some? && input.session.value.nodes == [Node("AOG", "")]
    ensures input.session.value.header.Some? && input.viperAAT.Some? && input.node == node
  {
    Input("", "", "", "", map[], Some(Session(Some(SessionHeader("", "", 0)), [Node("AOG", "")])),
          Some(ViperAAT("", "", "", "")), node)
  }

  /** With no node given and a provider that fails every post with `e` (the
      5xx answer of the test), the relay never yields an output, and once the
      proof is signed the provider's error is exactly what comes back. */
  method ProviderFailurePassedOn<O>(signer: Signer, provider: Provider<O>, codec: Codec, rng: Rng, options: O, e: Error)
    returns (r: Result<Output, Error>)
    requires RandIntContract(rng)
    requires forall url, relay :: provider(url, relay, options) == Failure(e)
    ensures r.Failure?
    ensures SignedProof(Relayer(Some(signer), Some(provider)), codec, rng, AogRequest(None)).Some? ==> r == Failure(e)
  {
    var relayer := Relayer(Some(signer), Some(provider));
    var trace;
    r, trace := Relay(relayer, codec, rng, AogRequest(None), options);
  }
}
