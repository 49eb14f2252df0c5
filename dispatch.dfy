/** The controller's event entry points as snapshot functions: `onOpen` and
    `onData` route an event to the handler of the connection's bucket.
    Together with `connect`, `onClose` and `send` they are every way the
    registry changes, and each keeps the bookkeeping invariant. */
module Dispatch {
  import opened Js
  import opened Status
  import opened Auth
  import Registry
  import Going
  import Coming
  import ValidatedPeer

  /** `onOpen`: start the incoming handshake only for an id in no bucket; a
      connection this peer opened itself is already in the going bucket. */
  function OnOpen(s: State, id: JsString, remoteID: JsString, auth: AuthService): (r: Step)
    ensures r.outcome == Done
    ensures r.state.Going() == s.Going() && r.state.Validated() == s.Validated() && r.state.members == s.members
    ensures forall a :: a in r.sent ==> a.Send? && a.connectionID == id
  {
    if Registry.GetConnectionType(s, id) == Registry.Unlisted then Coming.OnOpen(s, id, remoteID, auth)
    else Unchanged(s)
  }

  /** `onData`: hand the message to the handler of the bucket that holds the
      id; a message on an id in no bucket is dropped. */
  function OnData(s: State, id: JsString, message: Message, peerID: JsString, auth: AuthService): (r: Step)
    ensures !message.RequestJoin? ==> r.state.members == s.members
    ensures r.state.users == s.users && r.state.comments == s.comments
    ensures r.outcome.Threw? ==> r.sent == []
    ensures forall a :: a in r.sent ==> !a.Open? && a.connectionID == id
  {
    match Registry.GetConnectionType(s, id)
    case Going => Going.OnData(s, id, message, auth)
    case Coming => Coming.OnData(s, id, message, auth)
    case Validated => ValidatedPeer.OnData(s, id, message, peerID)
    case Unlisted => Unchanged(s)
  }

  /** `onOpen` does something (records the connection and sends its
      `auth-request`) exactly when the id is in no bucket. */
  lemma OnOpenOnlyForUnlisted(s: State, id: JsString, remoteID: JsString, auth: AuthService)
    ensures OnOpen(s, id, remoteID, auth) == Unchanged(s) <==> Registry.GetConnectionType(s, id) != Registry.Unlisted
    ensures Registry.GetConnectionType(s, id) == Registry.Unlisted ==>
      OnOpen(s, id, remoteID, auth).sent == [Send(id, AuthRequest(auth.ownPublicKeyJson, auth.SignConnection(id), Registry.GetUserName(s), Registry.GetIntroduce(s)))]
  {
    if Registry.GetConnectionType(s, id) == Registry.Unlisted {
      Coming.OnOpenSendsAuthRequest(s, id, remoteID, auth);
    }
  }

  /** Messages out of turn change nothing and send nothing: any message on an
      unknown id, handshake messages on a validated connection, `auth-ok` on a
      going connection not waiting for it, and anything but an awaited
      `auth-request` on a coming connection.  An `auth-request` on a going
      connection that is not in state connected also throws. */
  lemma OutOfStateMessagesChangeNothing(s: State, id: JsString, message: Message, peerID: JsString, auth: AuthService)
    ensures Registry.GetConnectionType(s, id) == Registry.Unlisted ==> OnData(s, id, message, peerID, auth) == Unchanged(s)
    ensures Registry.GetConnectionType(s, id) == Registry.Validated && !message.RequestJoin? ==>
      OnData(s, id, message, peerID, auth) == Unchanged(s)
    ensures (&& Registry.GetConnectionType(s, id) == Registry.Going && message.AuthOk?
             && Going.GetConnection(s, id).value.status != GoingStatus.WaitAuthRequest)
      ==> OnData(s, id, message, peerID, auth) == Unchanged(s)
    ensures Registry.GetConnectionType(s, id) == Registry.Going && !message.AuthOk? && !message.AuthRequest? ==>
      OnData(s, id, message, peerID, auth) == Unchanged(s)
    ensures (&& Registry.GetConnectionType(s, id) == Registry.Going && message.AuthRequest?
             && Going.GetConnection(s, id).value.status != GoingStatus.Connected)
      ==> var r := OnData(s, id, message, peerID, auth);
          r.state == s && r.sent == [] && r.outcome.Threw?
    ensures Registry.GetConnectionType(s, id) == Registry.Coming ==>
      (OnData(s, id, message, peerID, auth) == Unchanged(s) <==>
        !message.AuthRequest? || Coming.GetStatus(s, id) != Some(ComingStatus.WaitAuthRequest))
  {
    if Registry.GetConnectionType(s, id) == Registry.Going && message.AuthRequest? {
      Going.AuthRequestOnlyWhenConnected(s, id, message.publicKey, message.signature, message.name, auth);
    }
    if Registry.GetConnectionType(s, id) == Registry.Coming {
      Coming.OnDataIgnoresOutOfState(s, id, message, auth);
    }
    if Registry.GetConnectionType(s, id) == Registry.Validated {
      ValidatedPeer.OnDataHandlesOnlyRequestJoin(s, id, message, peerID);
    }
  }

  lemma OnOpenKeepsValid(s: State, id: JsString, remoteID: JsString, auth: AuthService)
    requires Registry.Valid(s, auth)
    ensures Registry.Valid(OnOpen(s, id, remoteID, auth).state, auth)
  {
    if Registry.GetConnectionType(s, id) == Registry.Unlisted {
      Coming.OnOpenKeepsValid(s, id, remoteID, auth);
    }
  }

  lemma OnDataKeepsValid(s: State, id: JsString, message: Message, peerID: JsString, auth: AuthService)
    requires Registry.Valid(s, auth)
    ensures Registry.Valid(OnData(s, id, message, peerID, auth).state, auth)
  {
    match Registry.GetConnectionType(s, id)
    case Going => Going.OnDataKeepsValid(s, id, message, auth);
    case Coming => Coming.OnDataKeepsValid(s, id, message, auth);
    case Validated => ValidatedPeer.OnDataKeepsValid(s, id, message, peerID, auth);
    case Unlisted =>
  }

  /** One event the registry reacts to.  `ConnectTo` carries the id the
      transport hands out for the new connection. */
  datatype Event =
    | ConnectTo(roomID: JsString, remoteID: JsString, connectionID: JsString)
    | Opened(connectionID: JsString, remoteID: JsString)
    | Received(connectionID: JsString, message: Message)
    | Closed(connectionID: JsString)
    | Post(roomID: JsString, text: JsString)

  /** The registry's reaction to one event. */
  function Apply(s: State, e: Event, peerID: JsString, auth: AuthService): Step
  {
    match e
    case ConnectTo(roomID, remoteID, connectionID) => Going.Connect(s, roomID, remoteID, peerID, connectionID)
    case Opened(connectionID, remoteID) => OnOpen(s, connectionID, remoteID, auth)
    case Received(connectionID, message) => OnData(s, connectionID, message, peerID, auth)
    case Closed(connectionID) => Unchanged(Registry.OnClose(s, connectionID))
    case Post(roomID, text) => Registry.SendComment(s, roomID, text)
  }

  /** The transport hands out a connection id that is in no bucket. */
  predicate FreshIDs(s: State, e: Event)
  {
    e.ConnectTo? ==> Registry.GetConnectionType(s, e.connectionID) == Registry.Unlisted
  }

  /** The snapshot after a run of events, each applied to the previous one. */
  function Run(s: State, events: seq<Event>, peerID: JsString, auth: AuthService): State
    decreases |events|
  {
    if events == [] then s
    else Run(Apply(s, events[0], peerID, auth).state, events[1..], peerID, auth)
  }

  /** Every connection id the transport hands out along the run is fresh when
      it is handed out. */
  predicate AllFresh(s: State, events: seq<Event>, peerID: JsString, auth: AuthService)
    decreases |events|
  {
    events == [] ||
    (FreshIDs(s, events[0]) && AllFresh(Apply(s, events[0], peerID, auth).state, events[1..], peerID, auth))
  }

  /** Every event keeps the bookkeeping invariant. */
  lemma ApplyKeepsValid(s: State, e: Event, peerID: JsString, auth: AuthService)
    requires Registry.Valid(s, auth)
    requires FreshIDs(s, e)
    ensures Registry.Valid(Apply(s, e, peerID, auth).state, auth)
  {
    match e
    case ConnectTo(roomID, remoteID, connectionID) => Going.ConnectKeepsValid(s, roomID, remoteID, peerID, connectionID, auth);
    case Opened(connectionID, remoteID) => OnOpenKeepsValid(s, connectionID, remoteID, auth);
    case Received(connectionID, message) => OnDataKeepsValid(s, connectionID, message, peerID, auth);
    case Closed(connectionID) => Registry.OnCloseKeepsValid(s, connectionID, auth);
    case Post(roomID, text) => Registry.SendCommentKeepsValid(s, roomID, text, auth);
  }

  /** Whatever happens after start-up, as long as the transport hands out
      fresh ids: no id is in two buckets, every membership names a validated
      connection, and every validated digest is the digest of its key. */
  lemma {:induction false} RunKeepsValid(s: State, events: seq<Event>, peerID: JsString, auth: AuthService)
    requires Registry.Valid(s, auth)
    requires AllFresh(s, events, peerID, auth)
    ensures Registry.Valid(Run(s, events, peerID, auth), auth)
    decreases |events|
  {
    if events != [] {
      ApplyKeepsValid(s, events[0], peerID, auth);
      RunKeepsValid(Apply(s, events[0], peerID, auth).state, events[1..], peerID, auth);
    }
  }

  /** The two peers' handshake messages are accepted by each other, provided
      they share the primitives, base64 round-trips, and each peer's key pair
      matches: the coming side, waiting, promotes the connection on the going
      side's `auth-request` and answers `auth-ok`. */
  lemma HonestAuthRequestAccepted(s: State, id: JsString, sender: AuthService, receiver: AuthService, roomID: JsString, name: JsString)
    requires sender.crypto == receiver.crypto
    requires Base64RoundTrips(sender.crypto)
    requires KeyPairMatches(sender.crypto, sender.ownPublicKeyJson, sender.privateKey)
    requires Registry.GetConnectionType(s, id) == Registry.Coming
    requires Coming.GetStatus(s, id) == Some(ComingStatus.WaitAuthRequest)
    ensures var r := Coming.OnData(s, id, AuthRequest(sender.ownPublicKeyJson, sender.SignConnection(id), roomID, name), receiver);
      && r.sent == [Send(id, AuthOk)]
      && Registry.GetConnectionType(r.state, id) == Registry.Validated
  {
    SignThenVerify(sender, id);
    assert receiver.Verify(id, sender.ownPublicKeyJson, sender.SignConnection(id)) == Some(true);
    Coming.AuthRequestDecidedBySignature(s, id, sender.ownPublicKeyJson, sender.SignConnection(id), receiver);
  }

  /** The other direction: the going side, still connected, accepts the
      coming side's `auth-request`, takes the sender's name from it and
      answers with its own `auth-request`. */
  lemma HonestAuthRequestAnswered(s: State, id: JsString, sender: AuthService, receiver: AuthService, name: JsString, introduce: JsString)
    requires sender.crypto == receiver.crypto
    requires Base64RoundTrips(sender.crypto)
    requires KeyPairMatches(sender.crypto, sender.ownPublicKeyJson, sender.privateKey)
    requires Registry.GetConnectionType(s, id) == Registry.Going
    requires Going.GetConnection(s, id).value.status == GoingStatus.Connected
    ensures var r := Going.OnData(s, id, AuthRequest(sender.ownPublicKeyJson, sender.SignConnection(id), name, introduce), receiver);
      && r.outcome == Done
      && Going.GetConnection(r.state, id).Some?
      && Going.GetConnection(r.state, id).value.status == GoingStatus.WaitAuthRequest
      && |r.sent| == 1 && r.sent[0].Send? && r.sent[0].message.AuthRequest?
  {
    SignThenVerify(sender, id);
    assert receiver.Verify(id, sender.ownPublicKeyJson, sender.SignConnection(id)) == Some(true);
    Going.VerifiedAuthRequestAnswers(s, id, sender.ownPublicKeyJson, sender.SignConnection(id), name, receiver);
  }
}
