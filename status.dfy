/** The registry's shared snapshot (the `State` record and its parts), the
    wire messages peers exchange, and the transport actions a handler emits. */
module Status {
  import opened Js

  /** Handshake states of a remote-initiated connection. */
  datatype ComingStatus = Connected | WaitAuthRequest | ProcessingAuthRequest | Authorized

  /** Handshake states of a locally initiated connection. */
  datatype GoingStatus = Connected | ProcessingAuthRequest | WaitAuthRequest

  datatype Member = Member(roomID: JsString, connectionID: JsString)

  /** One entry of the comment log: the room, the poster's key digest and the text. */
  datatype CommentRecord = CommentRecord(roomID: JsString, publicKeyDigest: JsString, text: JsString)

  datatype User = User(
    publicKey: JsString,
    publicKeyDigest: JsString,
    name: JsString,
    introduce: JsString,
    trust: bool,
    own: bool,
    visible: bool)

  /** A connection this peer opened.  The declared `introduce` field is never
      written by any operation, so it is not carried here. */
  datatype GoingConnection = GoingConnection(
    status: GoingStatus,
    remoteID: JsString,
    roomID: JsString,
    connectionID: JsString,
    publicKey: JsString,
    name: JsString)

  /** A connection a remote peer opened. */
  datatype ComingConnection = ComingConnection(
    status: ComingStatus,
    remoteID: JsString,
    connectionID: JsString)

  /** A connection whose remote identity has been checked. */
  datatype ValidatedConnection = ValidatedConnection(
    remoteID: JsString,
    connectionID: JsString,
    publicKey: JsString,
    publicKeyDigest: JsString)

  /** The three connection buckets. */
  datatype ConnectionAuthStatus = ConnectionAuthStatus(
    comingConnections: seq<ComingConnection>,
    goingConnections: seq<GoingConnection>,
    validatedConnections: seq<ValidatedConnection>)

  /** One snapshot of the registry; every operation replaces it as a whole. */
  datatype State = State(
    roomID: JsString,
    connectionAuthStatus: ConnectionAuthStatus,
    users: seq<User>,
    members: seq<Member>,
    comments: seq<CommentRecord>,
    url: JsString)
  {
    function Going(): seq<GoingConnection> { connectionAuthStatus.goingConnections }
    function Coming(): seq<ComingConnection> { connectionAuthStatus.comingConnections }
    function Validated(): seq<ValidatedConnection> { connectionAuthStatus.validatedConnections }

    predicate HasGoing(id: JsString) { exists c :: c in Going() && c.connectionID == id }
    predicate HasComing(id: JsString) { exists c :: c in Coming() && c.connectionID == id }
    predicate HasValidated(id: JsString) { exists v :: v in Validated() && v.connectionID == id }

    /** The same snapshot with the three buckets replaced. */
    function WithBuckets(
      coming: seq<ComingConnection>,
      going: seq<GoingConnection>,
      validated: seq<ValidatedConnection>): State
    {
      this.(connectionAuthStatus := ConnectionAuthStatus(coming, going, validated))
    }
  }

  /** The empty registry every peer starts from, holding only its own user and
      the room it created or joined. */
  function InitialState(ownUser: User, roomID: JsString): (s: State)
    ensures s.Going() == [] && s.Coming() == [] && s.Validated() == []
    ensures s.users == [ownUser] && s.members == [] && s.comments == [] && s.roomID == roomID
  {
    State(roomID, ConnectionAuthStatus([], [], []), [ownUser], [], [], [])
  }

  /** The application messages, one constructor per `method` tag of the JSON
      array `[method, ...payload]`.  The four `AuthRequest` slots are the
      payload positions 0..3; receivers read slot 2 as the sender's name. */
  datatype Message =
    | AuthRequest(publicKey: JsString, signature: JsString, name: JsString, introduce: JsString)
    | AuthOk
    | RequestJoin(roomID: JsString)
    | JoinOk(roomID: JsString, memberIDs: seq<JsString>)
    | Comment(roomID: JsString, text: JsString)
    | Other(tag: JsString)

  /** What a handler asks the transport to do, in order. */
  datatype Action =
    | Open(remoteID: JsString)
    | Send(connectionID: JsString, message: Message)
    | Close(connectionID: JsString)

  /** How a handler ended: normally, or by throwing (a rejected promise).
      State replaced before the throw stays replaced. */
  datatype Outcome = Done | Threw(reason: string)

  /** The effect of one atomic handler step. */
  datatype Step = Step(state: State, sent: seq<Action>, outcome: Outcome)

  /** The step that changes nothing, sends nothing and returns normally. */
  function Unchanged(s: State): Step { Step(s, [], Done) }
}
