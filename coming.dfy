/** The handshake of a connection a remote peer opened, as snapshot
    functions: `addConnection`, `updateConnection`, `onOpen`, `onData`,
    `onAuthRequest` and `validated`.  The states run
    connected -> wait-auth-request -> validated. */
module Coming {
  import opened Js
  import opened Status
  import opened Auth
  import Registry

  /** `getConnection`: the first coming entry with the id. */
  function GetConnection(s: State, id: JsString): (r: Option<ComingConnection>)
    ensures r.None? <==> !s.HasComing(id)
    ensures r.Some? ==> r.value in s.Coming() && r.value.connectionID == id
    ensures r.Some? ==> exists i :: 0 <= i < |s.Coming()| && s.Coming()[i] == r.value && forall j :: 0 <= j < i ==> s.Coming()[j].connectionID != id
  {
    Find(s.Coming(), (c: ComingConnection) => c.connectionID == id)
  }

  /** `getStatus`: the status of that entry, `undefined` without one. */
  function GetStatus(s: State, id: JsString): (r: Option<ComingStatus>)
    ensures r.None? <==> !s.HasComing(id)
    ensures r.Some? ==> exists i :: && 0 <= i < |s.Coming()| && s.Coming()[i].connectionID == id && s.Coming()[i].status == r.value
                                    && forall j :: 0 <= j < i ==> s.Coming()[j].connectionID != id
  {
    match GetConnection(s, id)
    case None => None
    case Some(c) => Some(c.status)
  }

  /** `addConnection`: append a coming entry in state connected. */
  function AddConnection(s: State, id: JsString, remoteID: JsString): (r: State)
    ensures r.Coming() == s.Coming() + [ComingConnection(ComingStatus.Connected, remoteID, id)]
    ensures r == s.WithBuckets(r.Coming(), s.Going(), s.Validated())
  {
    s.WithBuckets(s.Coming() + [ComingConnection(ComingStatus.Connected, remoteID, id)], s.Going(), s.Validated())
  }

  /** The optional attributes `updateConnection` takes. */
  datatype ComingAttr = ComingAttr(status: Option<ComingStatus>, remoteID: Option<JsString>)

  /** The entry `updateConnection` writes: each attribute that is given and
      not empty, otherwise the old field. */
  function Merged(c: ComingConnection, attr: ComingAttr): (n: ComingConnection)
    ensures n.connectionID == c.connectionID
    ensures n.status == if attr.status.Some? then attr.status.value else c.status
    ensures attr.remoteID.None? || attr.remoteID.value == [] ==> n.remoteID == c.remoteID
    ensures attr.remoteID.Some? && attr.remoteID.value != [] ==> n.remoteID == attr.remoteID.value
  {
    ComingConnection(
      if attr.status.Some? then attr.status.value else c.status,
      OrElse(attr.remoteID, c.remoteID),
      c.connectionID)
  }

  /** `updateConnection`: throws when the id has no coming entry; otherwise
      every entry with the id is replaced by one merged entry, moved to the
      end, and nothing else changes. */
  function UpdateConnection(s: State, id: JsString, attr: ComingAttr): (r: Option<State>)
    ensures r.None? <==> !s.HasComing(id)
    ensures r.Some? ==>
      var n := Merged(GetConnection(s, id).value, attr);
      && r.value == s.WithBuckets(r.value.Coming(), s.Going(), s.Validated())
      && (forall c :: c in r.value.Coming() && c.connectionID != id <==> c in s.Coming() && c.connectionID != id)
      && (forall c :: c in r.value.Coming() && c.connectionID == id <==> c == n)
      && r.value.Coming()[|r.value.Coming()| - 1] == n
  {
    match GetConnection(s, id)
    case None => None
    case Some(c) =>
      var n := Merged(c, attr);
      var nextList := Filter(s.Coming(), (g: ComingConnection) => g.connectionID != id) + [n];
      Some(s.WithBuckets(nextList, s.Going(), s.Validated()))
  }

  /** `onOpen`: record the connection, send this peer's `auth-request` (key,
      signature over the connection id, own name, own introduction), then move
      to wait-auth-request if the id's first entry is still connected. */
  function OnOpen(s: State, id: JsString, remoteID: JsString, auth: AuthService): (r: Step)
    ensures r.outcome == Done
    ensures r.sent == [Send(id, AuthRequest(auth.ownPublicKeyJson, auth.SignConnection(id), Registry.GetUserName(s), Registry.GetIntroduce(s)))]
    ensures r.state.HasComing(id)
    ensures r.state == s.WithBuckets(r.state.Coming(), s.Going(), s.Validated())
  {
    var s1 := AddConnection(s, id, remoteID);
    var sign := auth.SignConnection(id);
    var data := AuthRequest(auth.ownPublicKeyJson, sign, Registry.GetUserName(s1), Registry.GetIntroduce(s1));
    if GetStatus(s1, id) != Some(ComingStatus.Connected) then Step(s1, [Send(id, data)], Done)
    else Step(UpdateConnection(s1, id, ComingAttr(Some(ComingStatus.WaitAuthRequest), None)).value, [Send(id, data)], Done)
  }

  /** For an id with no coming entry yet, `onOpen` leaves exactly one entry for
      it, in wait-auth-request and last in the bucket, and sends one
      `auth-request` carrying this peer's key, its signature over this
      connection and its own profile. */
  lemma OnOpenSendsAuthRequest(s: State, id: JsString, remoteID: JsString, auth: AuthService)
    requires !s.HasComing(id)
    ensures var r := OnOpen(s, id, remoteID, auth);
      && r.outcome == Done
      && r.state == s.WithBuckets(s.Coming() + [ComingConnection(ComingStatus.WaitAuthRequest, remoteID, id)], s.Going(), s.Validated())
      && r.sent == [Send(id, AuthRequest(auth.ownPublicKeyJson, auth.SignConnection(id), Registry.GetUserName(s), Registry.GetIntroduce(s)))]
  {
    var s1 := AddConnection(s, id, remoteID);
    var added := ComingConnection(ComingStatus.Connected, remoteID, id);
    assert GetConnection(s1, id) == Some(added) by {
      assert s1.Coming()[|s.Coming()|] == added;
    }
    assert s1.users == s.users;
    var p := (g: ComingConnection) => g.connectionID != id;
    calc {
      Filter(s1.Coming(), p);
      { FilterAppend(s.Coming(), [added], p); }
      Filter(s.Coming(), p) + Filter([added], p);
      { FilterKeepsAll(s.Coming(), p); assert Filter([added], p) == []; }
      s.Coming();
    }
  }

  /** The as-written `onOpen`: the introduction is read from a controller
      method that does not exist, so the call throws a `TypeError` after the
      entry was added and the signature made, before anything is sent. */
  function OnOpenAsWritten(s: State, id: JsString, remoteID: JsString, auth: AuthService): (r: Step)
    ensures r.outcome.Threw? && r.sent == []
    ensures r.state.HasComing(id)
    ensures r.state == s.WithBuckets(r.state.Coming(), s.Going(), s.Validated())
  {
    var s1 := AddConnection(s, id, remoteID);
    Step(s1, [], Threw("this.p2p.getIntroduce is not a function"))
  }

  /** As written, an opened connection stays in state connected and no
      `auth-request` ever leaves, so `onData` ignores the remote's own
      `auth-request` and the incoming handshake cannot finish. */
  lemma OnOpenAsWrittenStalls(s: State, id: JsString, remoteID: JsString, auth: AuthService, message: Message)
    requires !s.HasComing(id)
    ensures var r := OnOpenAsWritten(s, id, remoteID, auth);
      && r.outcome.Threw? && r.sent == []
      && GetStatus(r.state, id) == Some(ComingStatus.Connected)
      && OnData(r.state, id, message, auth) == Unchanged(r.state)
  {
    var s1 := AddConnection(s, id, remoteID);
    assert s1.Coming()[|s.Coming()|] == ComingConnection(ComingStatus.Connected, remoteID, id);
  }

  /** `validated`: promote the connection under the remote id its entry
      records; throws when the entry is missing.  The name and introduction
      are passed along but not stored by the promotion. */
  function Validated(s: State, id: JsString, publicKey: JsString, auth: AuthService): (r: Option<State>)
    ensures r.None? <==> !s.HasComing(id)
    ensures r.Some? ==> r.value == Registry.ValidateConnection(s, id, GetConnection(s, id).value.remoteID, publicKey, auth)
  {
    match GetConnection(s, id)
    case None => None
    case Some(c) => Some(Registry.ValidateConnection(s, id, c.remoteID, publicKey, auth))
  }

  /** The as-written `validated`: six arguments go to the five-parameter
      promotion, so its `auth` parameter receives the introduction string, and
      `digest` on a string throws a `TypeError` before the snapshot changes. */
  function ValidatedAsWritten(s: State, id: JsString, publicKey: JsString, introduce: JsString): (r: Step)
    ensures r.state == s && r.sent == [] && r.outcome.Threw?
  {
    match GetConnection(s, id)
    case None => Step(s, [], Threw("nai"))
    case Some(_) => Step(s, [], Threw("auth.digest is not a function"))
  }

  /** `onAuthRequest`: verify the remote's signature over this connection
      under the key it presents.  A rejected signature closes the connection;
      an accepted one promotes it and answers `auth-ok`.  A throwing
      verification or a missing entry throws, changing and sending nothing. */
  function OnAuthRequest(s: State, id: JsString, publicKey: JsString, signature: JsString, auth: AuthService): (r: Step)
    ensures r.outcome.Threw? ==> r.state == s && r.sent == []
    ensures r.state == s || r.sent == [Send(id, AuthOk)]
    ensures r.state.members == s.members && r.state.users == s.users && r.state.comments == s.comments
  {
    match auth.Verify(id, publicKey, signature)
    case None => Step(s, [], Threw("verify failed"))
    case Some(false) => Step(s, [Close(id)], Done)
    case Some(true) =>
      match Validated(s, id, publicKey, auth)
      case None => Step(s, [], Threw("nai"))
      case Some(next) => Step(next, [Send(id, AuthOk)], Done)
  }

  /** The handshake's outcome is decided by the signature check alone: the id
      is promoted, with the presented key and its digest, and answered with
      `auth-ok` exactly when the signature verifies for this connection and
      the entry exists; it is closed, with nothing else changed, exactly when
      the check rejects. */
  lemma AuthRequestDecidedBySignature(s: State, id: JsString, publicKey: JsString, signature: JsString, auth: AuthService)
    ensures var r := OnAuthRequest(s, id, publicKey, signature, auth);
      && (r.sent == [Send(id, AuthOk)] <==> auth.Verify(id, publicKey, signature) == Some(true) && s.HasComing(id))
      && (r.sent == [Close(id)] <==> auth.Verify(id, publicKey, signature) == Some(false))
      && (r.sent == [Close(id)] ==> r.state == s && r.outcome == Done)
      && (r.sent == [Send(id, AuthOk)] ==>
            && r.outcome == Done
            && Registry.GetConnectionType(r.state, id) == Registry.Validated
            && r.state.Validated() == s.Validated() + [ValidatedConnection(GetConnection(s, id).value.remoteID, id, publicKey, auth.Digest(publicKey))])
  {
    if auth.Verify(id, publicKey, signature) == Some(true) && s.HasComing(id) {
      Registry.ValidateConnectionPromotes(s, id, GetConnection(s, id).value.remoteID, publicKey, auth);
    }
  }

  /** The as-written `onAuthRequest`, calling the as-written `validated`. */
  function OnAuthRequestAsWritten(s: State, id: JsString, publicKey: JsString, signature: JsString, introduce: JsString, auth: AuthService): Step
  {
    match auth.Verify(id, publicKey, signature)
    case None => Step(s, [], Threw("verify failed"))
    case Some(false) => Step(s, [Close(id)], Done)
    case Some(true) => ValidatedAsWritten(s, id, publicKey, introduce)
  }

  /** As written, even a signature that verifies never promotes the
      connection and `auth-ok` is never sent: the handler throws instead. */
  lemma AsWrittenNeverPromotes(s: State, id: JsString, publicKey: JsString, signature: JsString, introduce: JsString, auth: AuthService)
    requires auth.Verify(id, publicKey, signature) == Some(true)
    ensures var r := OnAuthRequestAsWritten(s, id, publicKey, signature, introduce, auth);
      && r.state == s && r.sent == [] && r.outcome.Threw?
      && Send(id, AuthOk) !in r.sent
  {
  }

  /** A remote that replays this peer's own signature made for another
      connection is not promoted, given base64 round-trips and signatures
      bind their messages. */
  lemma ReplayedSignatureNotPromoted(s: State, id: JsString, otherID: JsString, auth: AuthService)
    requires Base64RoundTrips(auth.crypto) && SignaturesBindMessages(auth.crypto)
    requires otherID != id
    ensures var r := OnAuthRequest(s, id, auth.ownPublicKeyJson, auth.SignConnection(otherID), auth);
      r.state == s && Send(id, AuthOk) !in r.sent
  {
    IdentityBinding(auth, otherID, id);
  }

  /** `onData` for a coming connection: only `auth-request` in state
      wait-auth-request is handled; the slots after the signature are not
      stored by the promotion. */
  function OnData(s: State, id: JsString, message: Message, auth: AuthService): (r: Step)
    ensures r.outcome.Threw? ==> r.state == s && r.sent == []
    ensures r.state.members == s.members && r.state.users == s.users && r.state.comments == s.comments
    ensures r.state != s ==> Registry.GetConnectionType(r.state, id) == Registry.Validated && r.sent == [Send(id, AuthOk)]
    ensures forall a :: a in r.sent ==> a == Send(id, AuthOk) || a == Close(id)
  {
    match message
    case AuthRequest(publicKey, signature, _, _) =>
      if GetStatus(s, id) != Some(ComingStatus.WaitAuthRequest) then Unchanged(s)
      else OnAuthRequest(s, id, publicKey, signature, auth)
    case _ => Unchanged(s)
  }

  /** A message changes nothing and sends nothing exactly when it is not an
      `auth-request` or the entry is not in wait-auth-request: an awaited
      `auth-request` always closes, promotes or throws. */
  lemma OnDataIgnoresOutOfState(s: State, id: JsString, message: Message, auth: AuthService)
    ensures OnData(s, id, message, auth) == Unchanged(s)
      <==> !message.AuthRequest? || GetStatus(s, id) != Some(ComingStatus.WaitAuthRequest)
  {
  }

  /** `updateConnection` brings no new id into the coming bucket. */
  lemma UpdateConnectionKeepsIDs(s: State, id: JsString, attr: ComingAttr, x: JsString)
    requires s.HasComing(id)
    ensures UpdateConnection(s, id, attr).value.HasComing(x) <==> s.HasComing(x)
  {
    var r := UpdateConnection(s, id, attr).value;
    if r.HasComing(x) {
      var d :| d in r.Coming() && d.connectionID == x;
      if d.connectionID == id {
        assert GetConnection(s, id).value in s.Coming();
      } else {
        assert d in s.Coming();
      }
    }
    if s.HasComing(x) {
      var d :| d in s.Coming() && d.connectionID == x;
      if d.connectionID == id {
        assert r.Coming()[|r.Coming()| - 1] in r.Coming();
      } else {
        assert d in r.Coming();
      }
    }
  }

  lemma UpdateConnectionKeepsValid(s: State, id: JsString, attr: ComingAttr, auth: AuthService)
    requires Registry.Valid(s, auth)
    requires s.HasComing(id)
    ensures Registry.Valid(UpdateConnection(s, id, attr).value, auth)
  {
    var r := UpdateConnection(s, id, attr).value;
    var n := Merged(GetConnection(s, id).value, attr);
    FilterKeepsUniqueKeys(s.Coming(), (g: ComingConnection) => g.connectionID != id, (c: ComingConnection) => c.connectionID);
    AppendKeepsUniqueKeys(Filter(s.Coming(), (g: ComingConnection) => g.connectionID != id), n, (c: ComingConnection) => c.connectionID);
    forall x {
      UpdateConnectionKeepsIDs(s, id, attr, x);
    }
    forall c | c in r.Coming() ensures !r.HasValidated(c.connectionID) {
      if c.connectionID == id {
        assert !s.HasValidated(GetConnection(s, id).value.connectionID);
      } else {
        assert c in s.Coming();
      }
    }
  }

  /** A new coming entry in wait-auth-request for an id in no bucket keeps
      the invariant. */
  lemma AddWaitingKeepsValid(s: State, id: JsString, remoteID: JsString, auth: AuthService)
    requires Registry.Valid(s, auth)
    requires Registry.GetConnectionType(s, id) == Registry.Unlisted
    ensures Registry.Valid(s.WithBuckets(s.Coming() + [ComingConnection(ComingStatus.WaitAuthRequest, remoteID, id)], s.Going(), s.Validated()), auth)
  {
    var added := ComingConnection(ComingStatus.WaitAuthRequest, remoteID, id);
    var r := s.WithBuckets(s.Coming() + [added], s.Going(), s.Validated());
    AppendKeepsUniqueKeys(s.Coming(), added, (c: ComingConnection) => c.connectionID);
    forall x | r.HasComing(x) ensures s.HasComing(x) || x == id {
      var d :| d in r.Coming() && d.connectionID == x;
      assert d in s.Coming() || d == added;
    }
    forall c | c in r.Coming() ensures !r.HasValidated(c.connectionID) {
      assert c in s.Coming() || c == added;
    }
  }

  /** Opening keeps the invariant when the transport hands out an id that is in
      no bucket, which is when the controller calls it. */
  lemma OnOpenKeepsValid(s: State, id: JsString, remoteID: JsString, auth: AuthService)
    requires Registry.Valid(s, auth)
    requires Registry.GetConnectionType(s, id) == Registry.Unlisted
    ensures Registry.Valid(OnOpen(s, id, remoteID, auth).state, auth)
  {
    OnOpenSendsAuthRequest(s, id, remoteID, auth);
    AddWaitingKeepsValid(s, id, remoteID, auth);
  }

  lemma OnDataKeepsValid(s: State, id: JsString, message: Message, auth: AuthService)
    requires Registry.Valid(s, auth)
    ensures Registry.Valid(OnData(s, id, message, auth).state, auth)
  {
    if message.AuthRequest? && GetStatus(s, id) == Some(ComingStatus.WaitAuthRequest) {
      Registry.ValidateConnectionKeepsValid(s, id, GetConnection(s, id).value.remoteID, message.publicKey, auth);
    }
  }
}
