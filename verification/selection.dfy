/** Choosing the node that services a relay: session membership by public
    key, and a draw from the random source among the session's nodes. */
module Selection {
  import opened Wrappers
  import opened Types

  /** The cryptographic random source, as `rand.Int(rand.Reader, max)`:
      given a bound it yields a number or an error from the reader. */
  type Rng = int -> Result<int, Error>

  /** What the random source promises: every number it yields for a positive
      bound lies in [0, bound). Uniformity is not stated. */
  ghost predicate RandIntContract(rng: Rng) {
    forall max :: max > 0 && rng(max).Success? ==> 0 <= rng(max).value < max
  }

  /** Membership is decided by public key alone: the URL plays no part. */
  predicate InSession(session: Session, node: Node) {
    exists i | 0 <= i < |session.nodes| :: session.nodes[i].publicKey == node.publicKey
  }

  /** Scans the session's nodes for one with the given node's public key. */
  method IsNodeInSession(session: Session, node: Node) returns (found: bool)
    ensures found <==> InSession(session, node)
    ensures found ==> |session.nodes| > 0
  {
    var i := 0;
    while i < |session.nodes|
      invariant 0 <= i <= |session.nodes|
      invariant forall j | 0 <= j < i :: session.nodes[j].publicKey != node.publicKey
    {
      if session.nodes[i].publicKey == node.publicKey {
        return true;
      }
      i := i + 1;
    }
    return false;
  }

  /** A node that is literally one of the session's nodes is in the session,
      and changing a node's URL never changes its membership. */
  lemma MembershipByKey(session: Session, node: Node, url: string)
    ensures node in session.nodes ==> InSession(session, node)
    ensures InSession(session, node) <==> InSession(session, node.(serviceUrl := url))
  {
  }

  /** Draws an index below the number of nodes and returns the node there;
      an error of the random source is passed on. */
  function GetRandomSessionNode(session: Session, rng: Rng): (r: Result<Node, Error>)
    requires |session.nodes| > 0
    requires RandIntContract(rng)
    ensures rng(|session.nodes|).Failure? ==> r == Failure(rng(|session.nodes|).error)
    ensures rng(|session.nodes|).Success? ==> r == Success(session.nodes[rng(|session.nodes|).value])
    ensures r.Success? ==> r.value in session.nodes && InSession(session, r.value)
  {
    var index :- rng(|session.nodes|);
    MembershipByKey(session, session.nodes[index], "");
    Success(session.nodes[index])
  }

  /** The node for a relay: the caller's node if given, accepted only when
      the session holds its public key and then returned exactly as given;
      otherwise a random node of the session. */
  method GetNode(input: Input, rng: Rng) returns (r: Result<Node, Error>)
    requires input.session.Some?
    requires input.node.None? ==> |input.session.value.nodes| > 0
    requires RandIntContract(rng)
    ensures input.node.Some? && !InSession(input.session.value, input.node.value) ==> r == Failure(ErrNodeNotInSession)
    ensures input.node.Some? && InSession(input.session.value, input.node.value) ==> r == Success(input.node.value)
    ensures input.node.None? ==> r == GetRandomSessionNode(input.session.value, rng)
    ensures r.Success? ==> InSession(input.session.value, r.value)
    ensures r.Success? && input.node.None? ==> r.value in input.session.value.nodes
  {
    if input.node.None? {
      return GetRandomSessionNode(input.session.value, rng);
    }
    var found := IsNodeInSession(input.session.value, input.node.value);
    if !found {
      return Failure(ErrNodeNotInSession);
    }
    return Success(input.node.value);
  }
}
