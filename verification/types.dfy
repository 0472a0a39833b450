/** The records the relay pipeline reads and builds, and the error values it
    returns. Go pointers that may be nil become `Option`s; Go `int64` fields
    become `int` (the only value the model bounds is the entropy, see
    `Relayer.MaxInt64`). */
module Types {
  import opened Wrappers

  /** A byte; `Bytes` models Go's `[]byte`. */
  newtype uint8 = x: int | 0 <= x < 256
  type Bytes = seq<uint8>

  /** Errors. The first seven are the relayer package's sentinel values,
      compared by identity in Go; `Foreign` stands for any error value
      produced by code outside the package (JSON encoder, hasher, random
      source, signer, provider), which the relayer passes on untouched. */
  datatype Error =
    | ErrNoSigner
    | ErrNoSession
    | ErrNoSessionHeader
    | ErrNoProvider
    | ErrNoViperAAT
    | ErrSessionHasNoNodes
    | ErrNodeNotInSession
    | Foreign(message: string)

  /** A service node: identified by its public key, reached at its URL. */
  datatype Node = Node(publicKey: string, serviceUrl: string)

  datatype SessionHeader = SessionHeader(appPubKey: string, chain: string, sessionHeight: int)

  /** The nodes authorised for one (application, blockchain) pair. */
  datatype Session = Session(header: Option<SessionHeader>, nodes: seq<Node>)

  /** Application authentication token. */
  datatype ViperAAT = ViperAAT(version: string, appPubKey: string, clientPubKey: string, signature: string)

  /** The application request being relayed. */
  datatype RelayPayload = RelayPayload(data: string, httpMethod: string, path: string, headers: map<string, string>)

  datatype RelayMeta = RelayMeta(blockHeight: int)

  /** The structure whose hash binds a proof to one exact request. */
  datatype RequestHash = RequestHash(payload: RelayPayload, meta: RelayMeta)

  /** The signed artefact sent with a relay. */
  datatype RelayProof = RelayProof(
    requestHash: string,
    entropy: int,
    sessionBlockHeight: int,
    servicerPubKey: string,
    blockchain: string,
    aat: ViperAAT,
    signature: string)

  /** The shape that is serialised and hashed to obtain the bytes handed to
      the signer: the proof with its AAT replaced by the AAT's hash. */
  datatype ProofForSignature = ProofForSignature(
    requestHash: string,
    entropy: int,
    sessionBlockHeight: int,
    servicerPubKey: string,
    blockchain: string,
    token: string,
    signature: string)

  /** What is posted to a node. */
  datatype RelayInput = RelayInput(payload: RelayPayload, meta: RelayMeta, proof: RelayProof)

  /** The provider's response envelope, returned to the caller as is. */
  datatype RelayOutput = RelayOutput(response: string)

  /** The caller's request to the relayer. */
  datatype Input = Input(
    blockchain: string,
    data: string,
    httpMethod: string,
    path: string,
    headers: map<string, string>,
    session: Option<Session>,
    viperAAT: Option<ViperAAT>,
    node: Option<Node>)

  /** A successful relay: the node's answer, the proof sent and the node used. */
  datatype Output = Output(relayOutput: RelayOutput, proof: RelayProof, node: Node)
}
