/** The handshake of a connection this peer opens, as snapshot functions:
    `connect`, the lookups, `updateStatus`, and the handlers for
    `auth-request` and `auth-ok`.  The states run
    connected -> processing-auth-request -> wait-auth-request -> validated. */
module Going {
  import opened Js
  import opened Status
  import opened Auth
  import Registry

  /** `getConnection`: the first going entry with the id. */
  function GetConnection(s: State, id: JsString): (r: Option<GoingConnection>)
    ensures r.None? <==> !s.HasGoing(id)
    ensures r.Some? ==> r.value in s.Going() && r.value.connectionID == id
    ensures r.Some? ==> exists i :: 0 <= i < |s.Going()| && s.Going()[i] == r.value && forall j :: 0 <= j < i ==> s.Going()[j].connectionID != id
  {
    Find(s.Going(), (c: GoingConnection) => c.connectionID == id)
  }

  /** `getRoomID`: the room of the id's first going entry, `undefined`
      without one. */
  function GetRoomID(s: State, id: JsString): (r: Option<JsString>)
    ensures r.None? <==> !s.HasGoing(id)
    ensures r.Some? ==> exists i :: && 0 <= i < |s.Going()| && s.Going()[i].connectionID == id && s.Going()[i].roomID == r.value
                                    && forall j :: 0 <= j < i ==> s.Going()[j].connectionID != id
  {
    match GetConnection(s, id)
    case None => None
    case Some(c) => Some(c.roomID)
  }

  /** `isConnect`: the remote is this peer itself, or some entry of any
      bucket already talks to it. */
  function IsConnect(s: State, remoteID: JsString, peerID: JsString): (r: bool)
    ensures r <==>
      || remoteID == peerID
      || (exists v :: v in s.Validated() && v.remoteID == remoteID)
      || (exists c :: c in s.Coming() && c.remoteID == remoteID)
      || (exists c :: c in s.Going() && c.remoteID == remoteID)
  {
    if remoteID == peerID then true
    else if Find(s.Validated(), (v: ValidatedConnection) => v.remoteID == remoteID).Some? then true
    else if Find(s.Coming(), (c: ComingConnection) => c.remoteID == remoteID).Some? then true
    else Find(s.Going(), (c: GoingConnection) => c.remoteID == remoteID).Some?
  }

  /** `connect`: unless already connected, open a transport connection (its
      id, chosen by the transport, is `connectionID`) and record it as a
      going entry in state connected with no name and no key yet. */
  function Connect(s: State, roomID: JsString, remoteID: JsString, peerID: JsString, connectionID: JsString): (r: Step)
    ensures r.outcome == Done
    ensures IsConnect(s, remoteID, peerID) ==> r.state == s && r.sent == []
    ensures !IsConnect(s, remoteID, peerID) ==>
      && r.sent == [Open(remoteID)]
      && r.state == s.WithBuckets(s.Coming(), r.state.Going(), s.Validated())
      && r.state.Going() == s.Going() + [GoingConnection(GoingStatus.Connected, remoteID, roomID, connectionID, [], [])]
  {
    if IsConnect(s, remoteID, peerID) then Unchanged(s)
    else
      var next := s.Going() + [GoingConnection(GoingStatus.Connected, remoteID, roomID, connectionID, [], [])];
      Step(s.WithBuckets(s.Coming(), next, s.Validated()), [Open(remoteID)], Done)
  }

  /** Connecting again to the same remote address, in any room and whatever
      id the transport would hand out, does nothing. */
  lemma ConnectIdempotent(
    s: State, roomID: JsString, remoteID: JsString, peerID: JsString, id: JsString,
    roomID': JsString, id': JsString)
    ensures var s1 := Connect(s, roomID, remoteID, peerID, id).state;
      Connect(s1, roomID', remoteID, peerID, id') == Unchanged(s1)
  {
    var s1 := Connect(s, roomID, remoteID, peerID, id).state;
    if !IsConnect(s, remoteID, peerID) {
      var last := s1.Going()[|s1.Going()| - 1];
      assert last in s1.Going() && last.remoteID == remoteID;
    }
  }

  /** The optional attributes `updateStatus` takes. */
  datatype GoingAttr = GoingAttr(
    roomID: Option<JsString>,
    remoteID: Option<JsString>,
    status: Option<GoingStatus>,
    name: Option<JsString>,
    publicKey: Option<JsString>)

  function StatusAttr(status: GoingStatus, name: Option<JsString>): GoingAttr
  {
    GoingAttr(None, None, Some(status), name, None)
  }

  /** The entry `updateStatus` writes: each attribute that is given and not
      empty, otherwise the old field. */
  function Merged(c: GoingConnection, attr: GoingAttr): (n: GoingConnection)
    ensures n.connectionID == c.connectionID
    ensures n.status == if attr.status.Some? then attr.status.value else c.status
    ensures attr.roomID.None? || attr.roomID.value == [] ==> n.roomID == c.roomID
    ensures attr.remoteID.None? || attr.remoteID.value == [] ==> n.remoteID == c.remoteID
    ensures attr.name.None? || attr.name.value == [] ==> n.name == c.name
    ensures attr.publicKey.None? || attr.publicKey.value == [] ==> n.publicKey == c.publicKey
    ensures attr.roomID.Some? && attr.roomID.value != [] ==> n.roomID == attr.roomID.value
    ensures attr.remoteID.Some? && attr.remoteID.value != [] ==> n.remoteID == attr.remoteID.value
    ensures attr.name.Some? && attr.name.value != [] ==> n.name == attr.name.value
    ensures attr.publicKey.Some? && attr.publicKey.value != [] ==> n.publicKey == attr.publicKey.value
  {
    GoingConnection(
      if attr.status.Some? then attr.status.value else c.status,
      OrElse(attr.remoteID, c.remoteID),
      OrElse(attr.roomID, c.roomID),
      c.connectionID,
      OrElse(attr.publicKey, c.publicKey),
      OrElse(attr.name, OrElse(Some(c.name), [])))
  }

  /** `updateStatus`: throws when the id has no going entry; otherwise every
      entry with the id is replaced by one merged entry, moved to the end,
      and nothing else changes. */
  function UpdateStatus(s: State, id: JsString, attr: GoingAttr): (r: Option<State>)
    ensures r.None? <==> !s.HasGoing(id)
    ensures r.Some? ==>
      var n := Merged(GetConnection(s, id).value, attr);
      && r.value == s.WithBuckets(s.Coming(), r.value.Going(), s.Validated())
      && (forall c :: c in r.value.Going() && c.connectionID != id <==> c in s.Going() && c.connectionID != id)
      && (forall c :: c in r.value.Going() && c.connectionID == id <==> c == n)
      && r.value.Going()[|r.value.Going()| - 1] == n
  {
    match GetConnection(s, id)
    case None => None
    case Some(c) =>
      var n := Merged(c, attr);
      var nextList := Filter(s.Going(), (g: GoingConnection) => g.connectionID != id) + [n];
      Some(s.WithBuckets(s.Coming(), nextList, s.Validated()))
  }

  /** After `updateStatus` the id's entry is the merged one. */
  lemma UpdateStatusFinds(s: State, id: JsString, attr: GoingAttr)
    requires s.HasGoing(id)
    ensures GetConnection(UpdateStatus(s, id, attr).value, id) == Some(Merged(GetConnection(s, id).value, attr))
  {
  }

  /** `onAuthRequest`: only in state connected (otherwise it throws and
      nothing changes).  It moves to processing-auth-request, verifies the
      remote's signature over this connection, and on success records the
      remote's name, moves to wait-auth-request and answers with its own
      `auth-request`, putting the room id in payload slot 2.  A failed or
      throwing verification throws, leaving the entry in
      processing-auth-request; the `close` after that throw is never
      reached. */
  function OnAuthRequest(s: State, id: JsString, publicKey: JsString, signature: JsString, name: JsString, auth: AuthService): (r: Step)
    ensures r.state == s.WithBuckets(s.Coming(), r.state.Going(), s.Validated())
    ensures r.outcome == Done <==>
      && GetConnection(s, id).Some? && GetConnection(s, id).value.status == GoingStatus.Connected
      && auth.Verify(id, publicKey, signature) == Some(true)
    ensures r.outcome == Done ==> |r.sent| == 1
    ensures r.outcome.Threw? ==> r.sent == []
    ensures forall a :: a in r.sent ==> a.Send? && a.connectionID == id
  {
    var connection := GetConnection(s, id);
    if connection.None? || connection.value.status != GoingStatus.Connected then
      Step(s, [], Threw("not connected"))
    else
      var s1 := UpdateStatus(s, id, StatusAttr(GoingStatus.ProcessingAuthRequest, None)).value;
      var roomID := GetRoomID(s1, id);
      match auth.Verify(id, publicKey, signature)
      case None => Step(s1, [], Threw("verify failed"))
      case Some(false) => Step(s1, [], Threw("auth error"))
      case Some(true) =>
        var s2 := UpdateStatus(s1, id, StatusAttr(GoingStatus.WaitAuthRequest, Some(name))).value;
        var sign := auth.SignConnection(id);
        var data := AuthRequest(auth.ownPublicKeyJson, sign, roomID.value, Registry.GetUserName(s2));
        Step(s2, [Send(id, data)], Done)
  }

  /** `auth-request` is acted on only in state connected: on an id without a
      going entry or in any other state it throws with nothing changed and
      nothing sent, and in state connected it always changes the entry. */
  lemma AuthRequestOnlyWhenConnected(s: State, id: JsString, publicKey: JsString, signature: JsString, name: JsString, auth: AuthService)
    ensures var r := OnAuthRequest(s, id, publicKey, signature, name, auth);
      (r.state == s && r.sent == [] && r.outcome.Threw?)
        <==> GetConnection(s, id).None? || GetConnection(s, id).value.status != GoingStatus.Connected
  {
    if GetConnection(s, id).Some? && GetConnection(s, id).value.status == GoingStatus.Connected {
      var a1 := StatusAttr(GoingStatus.ProcessingAuthRequest, None);
      UpdateStatusFinds(s, id, a1);
      var s1 := UpdateStatus(s, id, a1).value;
      assert GetConnection(s1, id) != GetConnection(s, id);
    }
  }

  /** A failed or throwing verification leaves the entry in
      processing-auth-request, validates nothing, closes nothing, and throws. */
  lemma FailedVerificationLeavesProcessing(s: State, id: JsString, publicKey: JsString, signature: JsString, name: JsString, auth: AuthService)
    requires GetConnection(s, id).Some? && GetConnection(s, id).value.status == GoingStatus.Connected
    requires auth.Verify(id, publicKey, signature) != Some(true)
    ensures var r := OnAuthRequest(s, id, publicKey, signature, name, auth);
      && r.outcome.Threw? && r.sent == []
      && GetConnection(r.state, id).Some?
      && GetConnection(r.state, id).value.status == GoingStatus.ProcessingAuthRequest
      && r.state.Validated() == s.Validated() && r.state.Coming() == s.Coming()
  {
    UpdateStatusFinds(s, id, StatusAttr(GoingStatus.ProcessingAuthRequest, None));
  }

  /** A verified `auth-request` leaves the entry in wait-auth-request with the
      remote's name (unless that name is empty), and sends one reply: this
      peer's key, its signature over the connection id, the entry's room id
      in the slot receivers read as the name, and this peer's name. */
  lemma VerifiedAuthRequestAnswers(s: State, id: JsString, publicKey: JsString, signature: JsString, name: JsString, auth: AuthService)
    requires GetConnection(s, id).Some? && GetConnection(s, id).value.status == GoingStatus.Connected
    requires auth.Verify(id, publicKey, signature) == Some(true)
    ensures var c := GetConnection(s, id).value;
      var r := OnAuthRequest(s, id, publicKey, signature, name, auth);
      && r.outcome == Done
      && GetConnection(r.state, id).Some?
      && GetConnection(r.state, id).value.status == GoingStatus.WaitAuthRequest
      && GetConnection(r.state, id).value.name == OrElse(Some(name), c.name)
      && GetConnection(r.state, id).value.publicKey == c.publicKey
      && r.state.Validated() == s.Validated() && r.state.Coming() == s.Coming()
      && r.sent == [Send(id, AuthRequest(auth.ownPublicKeyJson, auth.SignConnection(id), c.roomID, Registry.GetUserName(s)))]
  {
    var c := GetConnection(s, id).value;
    var a1 := StatusAttr(GoingStatus.ProcessingAuthRequest, None);
    UpdateStatusFinds(s, id, a1);
    var s1 := UpdateStatus(s, id, a1).value;
    assert GetRoomID(s1, id) == Some(c.roomID);
    var a2 := StatusAttr(GoingStatus.WaitAuthRequest, Some(name));
    UpdateStatusFinds(s1, id, a2);
    var s2 := UpdateStatus(s1, id, a2).value;
    assert s2.users == s.users;
    assert OnAuthRequest(s, id, publicKey, signature, name, auth)
      == Step(s2, [Send(id, AuthRequest(auth.ownPublicKeyJson, auth.SignConnection(id), c.roomID, Registry.GetUserName(s2)))], Done);
  }

  /** `onAuthOk`: only in state wait-auth-request (otherwise ignored), promote
      the connection with the key and name stored in its entry, then send
      `request-join` for the entry's room. */
  function OnAuthOk(s: State, id: JsString, auth: AuthService): (r: Step)
    ensures r.outcome == Done
    ensures r == Unchanged(s) <==> GetConnection(s, id).None? || GetConnection(s, id).value.status != GoingStatus.WaitAuthRequest
    ensures r != Unchanged(s) ==>
      && Registry.GetConnectionType(r.state, id) == Registry.Validated
      && r.sent == [Send(id, RequestJoin(GetConnection(s, id).value.roomID))]
  {
    var connection := GetConnection(s, id);
    if connection.None? || connection.value.status != GoingStatus.WaitAuthRequest then Unchanged(s)
    else
      var c := connection.value;
      var next := Registry.ValidateConnection(s, id, c.remoteID, c.publicKey, auth);
      Step(next, [Send(id, RequestJoin(c.roomID))], Done)
  }

  /** Since no going entry ever records a key, a connection this peer opened is
      promoted with the empty key and the digest of the empty string, and a
      `request-join` for its room follows. */
  lemma AuthOkPromotesWithoutKey(s: State, id: JsString, auth: AuthService)
    requires Registry.Valid(s, auth)
    requires GetConnection(s, id).Some? && GetConnection(s, id).value.status == GoingStatus.WaitAuthRequest
    ensures var c := GetConnection(s, id).value;
      var r := OnAuthOk(s, id, auth);
      && r.outcome == Done
      && Registry.GetConnectionType(r.state, id) == Registry.Validated
      && r.state.Validated() == s.Validated() + [ValidatedConnection(c.remoteID, id, [], auth.Digest([]))]
      && r.sent == [Send(id, RequestJoin(c.roomID))]
  {
    var c := GetConnection(s, id).value;
    Registry.ValidateConnectionPromotes(s, id, c.remoteID, c.publicKey, auth);
  }

  /** `onData` for a going connection: `auth-request` and `auth-ok` are
      handled, every other method is ignored. */
  function OnData(s: State, id: JsString, message: Message, auth: AuthService): (r: Step)
    ensures !message.AuthRequest? && !message.AuthOk? ==> r == Unchanged(s)
    ensures r.state.members == s.members && r.state.users == s.users && r.state.comments == s.comments
    ensures r.outcome.Threw? ==> r.sent == []
    ensures forall a :: a in r.sent ==> a.Send? && a.connectionID == id
  {
    match message
    case AuthRequest(publicKey, signature, name, _) => OnAuthRequest(s, id, publicKey, signature, name, auth)
    case AuthOk => OnAuthOk(s, id, auth)
    case _ => Unchanged(s)
  }

  lemma ConnectKeepsValid(s: State, roomID: JsString, remoteID: JsString, peerID: JsString, connectionID: JsString, auth: AuthService)
    requires Registry.Valid(s, auth)
    requires Registry.GetConnectionType(s, connectionID) == Registry.Unlisted
    ensures Registry.Valid(Connect(s, roomID, remoteID, peerID, connectionID).state, auth)
  {
    if !IsConnect(s, remoteID, peerID) {
      var added := GoingConnection(GoingStatus.Connected, remoteID, roomID, connectionID, [], []);
      AppendKeepsUniqueKeys(s.Going(), added, (c: GoingConnection) => c.connectionID);
    }
  }

  lemma UpdateStatusKeepsValid(s: State, id: JsString, attr: GoingAttr, auth: AuthService)
    requires Registry.Valid(s, auth)
    requires s.HasGoing(id)
    requires attr.publicKey.None?
    ensures Registry.Valid(UpdateStatus(s, id, attr).value, auth)
  {
    var r := UpdateStatus(s, id, attr).value;
    var n := Merged(GetConnection(s, id).value, attr);
    FilterKeepsUniqueKeys(s.Going(), (g: GoingConnection) => g.connectionID != id, (c: GoingConnection) => c.connectionID);
    AppendKeepsUniqueKeys(Filter(s.Going(), (g: GoingConnection) => g.connectionID != id), n, (c: GoingConnection) => c.connectionID);
    forall c | c in r.Going() ensures !r.HasComing(c.connectionID) && !r.HasValidated(c.connectionID) && c.publicKey == [] {
      if c.connectionID == id {
        var g := GetConnection(s, id).value;
        assert !s.HasComing(g.connectionID) && !s.HasValidated(g.connectionID);
      }
    }
  }

  /** The three snapshots `onAuthRequest` can leave behind. */
  lemma OnAuthRequestStates(s: State, id: JsString, publicKey: JsString, signature: JsString, name: JsString, auth: AuthService)
    ensures var r := OnAuthRequest(s, id, publicKey, signature, name, auth);
      || r.state == s
      || (s.HasGoing(id) && r.state == UpdateStatus(s, id, StatusAttr(GoingStatus.ProcessingAuthRequest, None)).value)
      || (s.HasGoing(id) && r.state == UpdateStatus(UpdateStatus(s, id, StatusAttr(GoingStatus.ProcessingAuthRequest, None)).value, id, StatusAttr(GoingStatus.WaitAuthRequest, Some(name))).value)
  {
  }

  lemma OnAuthRequestKeepsValid(s: State, id: JsString, publicKey: JsString, signature: JsString, name: JsString, auth: AuthService)
    requires Registry.Valid(s, auth)
    ensures Registry.Valid(OnAuthRequest(s, id, publicKey, signature, name, auth).state, auth)
  {
    OnAuthRequestStates(s, id, publicKey, signature, name, auth);
    if s.HasGoing(id) {
      var a1 := StatusAttr(GoingStatus.ProcessingAuthRequest, None);
      UpdateStatusKeepsValid(s, id, a1, auth);
      var s1 := UpdateStatus(s, id, a1).value;
      UpdateStatusFinds(s, id, a1);
      UpdateStatusKeepsValid(s1, id, StatusAttr(GoingStatus.WaitAuthRequest, Some(name)), auth);
    }
  }

  lemma OnAuthOkKeepsValid(s: State, id: JsString, auth: AuthService)
    requires Registry.Valid(s, auth)
    ensures Registry.Valid(OnAuthOk(s, id, auth).state, auth)
  {
    var connection := GetConnection(s, id);
    if connection.Some? && connection.value.status == GoingStatus.WaitAuthRequest {
      var c := connection.value;
      Registry.ValidateConnectionKeepsValid(s, id, c.remoteID, c.publicKey, auth);
    }
  }

  lemma OnDataKeepsValid(s: State, id: JsString, message: Message, auth: AuthService)
    requires Registry.Valid(s, auth)
    ensures Registry.Valid(OnData(s, id, message, auth).state, auth)
  {
    match message
    case AuthRequest(publicKey, signature, name, _) => OnAuthRequestKeepsValid(s, id, publicKey, signature, name, auth);
    case AuthOk => OnAuthOkKeepsValid(s, id, auth);
    case _ =>
  }
}
