/** The registry queries and snapshot updates of the controller: which bucket
    a connection belongs to, who is in a room, promotion to validated,
    closing, posting a comment, and the bookkeeping invariant all of them
    keep.  Each update is a function from the old snapshot to the new one;
    the controller's methods assign its result. */
module Registry {
  import opened Js
  import opened Status
  import opened Auth

  /** `"going" | "coming" | "validated" | ""`. */
  datatype ConnectionType = Unlisted | Going | Coming | Validated

  /** `getConnectionType`: the first bucket, in the order going, coming,
      validated, that holds the id. */
  function GetConnectionType(s: State, id: JsString): (r: ConnectionType)
    ensures r == Going <==> s.HasGoing(id)
    ensures r == Coming <==> !s.HasGoing(id) && s.HasComing(id)
    ensures r == Validated <==> !s.HasGoing(id) && !s.HasComing(id) && s.HasValidated(id)
    ensures r == Unlisted <==> !s.HasGoing(id) && !s.HasComing(id) && !s.HasValidated(id)
  {
    if Find(s.Going(), (c: GoingConnection) => c.connectionID == id).Some? then Going
    else if Find(s.Coming(), (c: ComingConnection) => c.connectionID == id).Some? then Coming
    else if Find(s.Validated(), (c: ValidatedConnection) => c.connectionID == id).Some? then Validated
    else Unlisted
  }

  /** The connection ids of the member rows for `roomID`, in row order. */
  function MemberConnectionIDs(members: seq<Member>, roomID: JsString): (r: seq<JsString>)
    ensures forall id :: id in r <==> Member(roomID, id) in members
  {
    if members == [] then []
    else
      (if members[0].roomID == roomID then [members[0].connectionID] else [])
      + MemberConnectionIDs(members[1..], roomID)
  }

  /** `roomConnections`: the validated connections, in bucket order, that have
      a member row for the room. */
  function RoomConnections(s: State, roomID: JsString): (r: seq<ValidatedConnection>)
    ensures forall v :: v in r <==> v in s.Validated() && Member(roomID, v.connectionID) in s.members
  {
    var ids := MemberConnectionIDs(s.members, roomID);
    Filter(s.Validated(), (v: ValidatedConnection) => v.connectionID in ids)
  }

  /** `users.find(u => u.own)`: the first user marked own. */
  function OwnUser(s: State): (r: Option<User>)
    ensures r.None? <==> forall u :: u in s.users ==> !u.own
    ensures r.Some? ==> r.value.own && exists i :: 0 <= i < |s.users| && s.users[i] == r.value && forall j :: 0 <= j < i ==> !s.users[j].own
  {
    Find(s.users, (u: User) => u.own)
  }

  /** `getUserName`: the own user's name, or `""` without an own user. */
  function GetUserName(s: State): (r: JsString)
    ensures OwnUser(s).None? ==> r == []
    ensures OwnUser(s).Some? ==> r == OwnUser(s).value.name
  {
    match OwnUser(s)
    case None => []
    case Some(u) => OrElse(Some(u.name), [])
  }

  /** The own user's self-introduction, or `""` without an own user (the
      controller's `getIntroduce`, assumed to mirror `getUserName`). */
  function GetIntroduce(s: State): (r: JsString)
    ensures OwnUser(s).None? ==> r == []
    ensures OwnUser(s).Some? ==> r == OwnUser(s).value.introduce
  {
    match OwnUser(s)
    case None => []
    case Some(u) => OrElse(Some(u.introduce), [])
  }

  /** `validateConnection`: append a validated entry carrying the digest of
      the key and drop the id from the coming and going buckets. */
  function ValidateConnection(s: State, id: JsString, remoteID: JsString, publicKey: JsString, auth: AuthService): (r: State)
    ensures r.Validated() == s.Validated() + [ValidatedConnection(remoteID, id, publicKey, auth.Digest(publicKey))]
    ensures forall c :: c in r.Coming() <==> c in s.Coming() && c.connectionID != id
    ensures forall c :: c in r.Going() <==> c in s.Going() && c.connectionID != id
    ensures r.members == s.members && r.users == s.users && r.comments == s.comments
    ensures r.roomID == s.roomID && r.url == s.url
  {
    var n := ValidatedConnection(remoteID, id, publicKey, auth.Digest(publicKey));
    s.WithBuckets(
      Filter(s.Coming(), (c: ComingConnection) => c.connectionID != id),
      Filter(s.Going(), (c: GoingConnection) => c.connectionID != id),
      s.Validated() + [n])
  }

  /** After promotion the id is in the validated bucket and in no other. */
  lemma ValidateConnectionPromotes(s: State, id: JsString, remoteID: JsString, publicKey: JsString, auth: AuthService)
    ensures var r := ValidateConnection(s, id, remoteID, publicKey, auth);
      GetConnectionType(r, id) == Validated && !r.HasGoing(id) && !r.HasComing(id)
  {
    var r := ValidateConnection(s, id, remoteID, publicKey, auth);
    assert r.Validated()[|r.Validated()| - 1].connectionID == id;
  }

  /** `onClose`'s snapshot: the id leaves every bucket and every membership;
      users, comments and the room are untouched. */
  function OnClose(s: State, id: JsString): (r: State)
    ensures forall c :: c in r.Coming() <==> c in s.Coming() && c.connectionID != id
    ensures forall c :: c in r.Going() <==> c in s.Going() && c.connectionID != id
    ensures forall v :: v in r.Validated() <==> v in s.Validated() && v.connectionID != id
    ensures forall m :: m in r.members <==> m in s.members && m.connectionID != id
    ensures r.users == s.users && r.comments == s.comments && r.roomID == s.roomID && r.url == s.url
  {
    s.WithBuckets(
      Filter(s.Coming(), (c: ComingConnection) => c.connectionID != id),
      Filter(s.Going(), (c: GoingConnection) => c.connectionID != id),
      Filter(s.Validated(), (c: ValidatedConnection) => c.connectionID != id))
     .(members := Filter(s.members, (m: Member) => m.connectionID != id))
  }

  /** Closing twice is closing once. */
  lemma OnCloseIdempotent(s: State, id: JsString)
    ensures OnClose(OnClose(s, id), id) == OnClose(s, id)
  {
    FilterIdempotent(s.Coming(), (c: ComingConnection) => c.connectionID != id);
    FilterIdempotent(s.Going(), (c: GoingConnection) => c.connectionID != id);
    FilterIdempotent(s.Validated(), (c: ValidatedConnection) => c.connectionID != id);
    FilterIdempotent(s.members, (m: Member) => m.connectionID != id);
  }

  /** Closing an id no bucket and no membership holds changes nothing. */
  lemma OnCloseUnlistedIsNoop(s: State, id: JsString)
    requires GetConnectionType(s, id) == Unlisted
    requires forall m :: m in s.members ==> m.connectionID != id
    ensures OnClose(s, id) == s
  {
    FilterKeepsAll(s.Coming(), (c: ComingConnection) => c.connectionID != id);
    FilterKeepsAll(s.Going(), (c: GoingConnection) => c.connectionID != id);
    FilterKeepsAll(s.Validated(), (c: ValidatedConnection) => c.connectionID != id);
    FilterKeepsAll(s.members, (m: Member) => m.connectionID != id);
  }

  /** `mergeMember`, which the controller calls but does not define here:
      assumed to add the row `(roomID, id)` unless it is already present. */
  function MergeMember(s: State, roomID: JsString, id: JsString): (r: State)
    ensures Member(roomID, id) in r.members
    ensures forall m :: m in r.members <==> m in s.members || m == Member(roomID, id)
    ensures s.members <= r.members && |r.members| <= |s.members| + 1
    ensures r == s.(members := r.members)
  {
    if Member(roomID, id) in s.members then s
    else s.(members := s.members + [Member(roomID, id)])
  }

  /** One `send` of `message` to each connection id, in order. */
  function Broadcast(ids: seq<JsString>, message: Message): (r: seq<Action>)
    ensures |r| == |ids|
    ensures forall i :: 0 <= i < |ids| ==> r[i] == Send(ids[i], message)
  {
    seq(|ids|, i requires 0 <= i < |ids| => Send(ids[i], message))
  }

  /** Broadcasting to one more id sends one more message, to that id. */
  lemma BroadcastExtends(ids: seq<JsString>, i: nat, message: Message)
    requires i < |ids|
    ensures Broadcast(ids[..i + 1], message) == Broadcast(ids[..i], message) + [Send(ids[i], message)]
  {
  }

  function ConnectionIDs(vs: seq<ValidatedConnection>): (r: seq<JsString>)
    ensures |r| == |vs| && forall i :: 0 <= i < |vs| ==> r[i] == vs[i].connectionID
  {
    seq(|vs|, i requires 0 <= i < |vs| => vs[i].connectionID)
  }

  /** `send`: record the comment, newest first, under the own user's digest,
      then send it to every validated member connection of the room.
      Without an own user the lookup throws; with an empty digest nothing
      happens. */
  function SendComment(s: State, roomID: JsString, text: JsString): (r: Step)
    ensures OwnUser(s).None? ==> r.state == s && r.sent == [] && r.outcome.Threw?
    ensures OwnUser(s).Some? && OwnUser(s).value.publicKeyDigest == [] ==> r == Unchanged(s)
    ensures OwnUser(s).Some? && OwnUser(s).value.publicKeyDigest != [] ==>
      && r.outcome == Done
      && r.state == s.(comments := [CommentRecord(roomID, OwnUser(s).value.publicKeyDigest, text)] + s.comments)
  {
    match OwnUser(s)
    case None => Step(s, [], Threw("no own user"))
    case Some(own) =>
      var digest := own.publicKeyDigest;
      if digest == [] then Unchanged(s)
      else
        var next := s.(comments := [CommentRecord(roomID, digest, text)] + s.comments);
        var memberConnectionIDs := ConnectionIDs(RoomConnections(next, roomID));
        Step(next, Broadcast(memberConnectionIDs, Message.Comment(roomID, text)), Done)
  }

  lemma BroadcastReaches(ids: seq<JsString>, message: Message, id: JsString)
    ensures forall a :: a in Broadcast(ids, message) ==> a.Send? && a.message == message
    ensures Send(id, message) in Broadcast(ids, message) <==> id in ids
  {
    var r := Broadcast(ids, message);
    if id in ids {
      var i :| 0 <= i < |ids| && ids[i] == id;
      assert r[i] == Send(id, message);
    }
  }

  lemma ConnectionIDsHolds(vs: seq<ValidatedConnection>, id: JsString)
    ensures id in ConnectionIDs(vs) <==> exists v :: v in vs && v.connectionID == id
  {
    var r := ConnectionIDs(vs);
    if id in r {
      var i :| 0 <= i < |r| && r[i] == id;
      assert vs[i] in vs;
    }
    if exists v :: v in vs && v.connectionID == id {
      var v :| v in vs && v.connectionID == id;
      var i :| 0 <= i < |vs| && vs[i] == v;
      assert r[i] == id;
    }
  }

  /** The comment goes to a connection exactly when the post succeeds and the
      connection is validated with a member row for the room; nothing else
      is sent. */
  lemma CommentReachesExactlyRoomMembers(s: State, roomID: JsString, text: JsString, id: JsString)
    ensures var r := SendComment(s, roomID, text);
      forall a :: a in r.sent ==> a.Send? && a.message == Message.Comment(roomID, text)
    ensures Send(id, Message.Comment(roomID, text)) in SendComment(s, roomID, text).sent
      <==> && OwnUser(s).Some? && OwnUser(s).value.publicKeyDigest != []
           && s.HasValidated(id) && Member(roomID, id) in s.members
  {
    var r := SendComment(s, roomID, text);
    var msg := Message.Comment(roomID, text);
    if OwnUser(s).Some? && OwnUser(s).value.publicKeyDigest != [] {
      var conns := RoomConnections(r.state, roomID);
      BroadcastReaches(ConnectionIDs(conns), msg, id);
      ConnectionIDsHolds(conns, id);
    }
  }

  /** In a valid snapshot a posted comment goes to each validated member
      connection of the room exactly once, and to no other connection. */
  lemma CommentSentOncePerMember(s: State, roomID: JsString, text: JsString, id: JsString, auth: AuthService)
    requires Valid(s, auth)
    ensures multiset(SendComment(s, roomID, text).sent)[Send(id, Message.Comment(roomID, text))]
      == if && OwnUser(s).Some? && OwnUser(s).value.publicKeyDigest != []
            && s.HasValidated(id) && Member(roomID, id) in s.members then 1 else 0
  {
    var r := SendComment(s, roomID, text);
    var msg := Message.Comment(roomID, text);
    CommentReachesExactlyRoomMembers(s, roomID, text, id);
    if OwnUser(s).Some? && OwnUser(s).value.publicKeyDigest != [] {
      var ids := MemberConnectionIDs(r.state.members, roomID);
      var conns := RoomConnections(r.state, roomID);
      FilterKeepsUniqueKeys(s.Validated(), (v: ValidatedConnection) => v.connectionID in ids, (v: ValidatedConnection) => v.connectionID);
      assert UniqueKeys(conns, (v: ValidatedConnection) => v.connectionID);
      var sent := Broadcast(ConnectionIDs(conns), msg);
      assert forall i, j :: 0 <= i < j < |sent| ==> sent[i] != sent[j] by {
        forall i, j | 0 <= i < j < |sent| ensures sent[i] != sent[j] {
          assert conns[i].connectionID != conns[j].connectionID;
        }
      }
      DistinctOccursOnce(sent, Send(id, msg));
    } else {
      assert r.sent == [];
    }
  }

  /** The registry's bookkeeping invariant: no id twice in one bucket, no id
      in two buckets, every membership names a validated connection, every
      validated digest is the digest of its key, and no going entry has a key
      recorded. */
  ghost predicate Valid(s: State, auth: AuthService)
  {
    && UniqueKeys(s.Going(), (c: GoingConnection) => c.connectionID)
    && UniqueKeys(s.Coming(), (c: ComingConnection) => c.connectionID)
    && UniqueKeys(s.Validated(), (v: ValidatedConnection) => v.connectionID)
    && (forall c :: c in s.Going() ==> !s.HasComing(c.connectionID) && !s.HasValidated(c.connectionID))
    && (forall c :: c in s.Coming() ==> !s.HasValidated(c.connectionID))
    && (forall m :: m in s.members ==> s.HasValidated(m.connectionID))
    && (forall v :: v in s.Validated() ==> v.publicKeyDigest == auth.Digest(v.publicKey))
    && (forall c :: c in s.Going() ==> c.publicKey == [])
  }

  /** In a valid snapshot, an id is in at most one bucket. */
  lemma ValidMeansOneBucket(s: State, auth: AuthService, id: JsString)
    requires Valid(s, auth)
    ensures s.HasGoing(id) ==> !s.HasComing(id) && !s.HasValidated(id)
    ensures s.HasComing(id) ==> !s.HasValidated(id)
  {
  }

  /** A peer starts valid. */
  lemma InitialStateValid(ownUser: User, roomID: JsString, auth: AuthService)
    ensures Valid(InitialState(ownUser, roomID), auth)
  {
  }

  /** Promoting a going or a coming connection, the only ones the handlers
      promote, keeps the invariant. */
  lemma ValidateConnectionKeepsValid(s: State, id: JsString, remoteID: JsString, publicKey: JsString, auth: AuthService)
    requires Valid(s, auth)
    requires s.HasGoing(id) || s.HasComing(id)
    ensures Valid(ValidateConnection(s, id, remoteID, publicKey, auth), auth)
  {
    var r := ValidateConnection(s, id, remoteID, publicKey, auth);
    FilterKeepsUniqueKeys(s.Coming(), (c: ComingConnection) => c.connectionID != id, (c: ComingConnection) => c.connectionID);
    FilterKeepsUniqueKeys(s.Going(), (c: GoingConnection) => c.connectionID != id, (c: GoingConnection) => c.connectionID);
    AppendKeepsUniqueKeys(s.Validated(), ValidatedConnection(remoteID, id, publicKey, auth.Digest(publicKey)), (v: ValidatedConnection) => v.connectionID);
    forall m | m in r.members ensures r.HasValidated(m.connectionID) {
      var v :| v in s.Validated() && v.connectionID == m.connectionID;
      assert v in r.Validated();
    }
  }

  lemma OnCloseKeepsValid(s: State, id: JsString, auth: AuthService)
    requires Valid(s, auth)
    ensures Valid(OnClose(s, id), auth)
  {
    var r := OnClose(s, id);
    FilterKeepsUniqueKeys(s.Coming(), (c: ComingConnection) => c.connectionID != id, (c: ComingConnection) => c.connectionID);
    FilterKeepsUniqueKeys(s.Going(), (c: GoingConnection) => c.connectionID != id, (c: GoingConnection) => c.connectionID);
    FilterKeepsUniqueKeys(s.Validated(), (c: ValidatedConnection) => c.connectionID != id, (v: ValidatedConnection) => v.connectionID);
    forall m | m in r.members ensures r.HasValidated(m.connectionID) {
      var v :| v in s.Validated() && v.connectionID == m.connectionID;
      assert v in r.Validated();
    }
  }

  /** A membership for a validated connection keeps the invariant. */
  lemma MergeMemberKeepsValid(s: State, roomID: JsString, id: JsString, auth: AuthService)
    requires Valid(s, auth)
    requires s.HasValidated(id)
    ensures Valid(MergeMember(s, roomID, id), auth)
  {
    var r := MergeMember(s, roomID, id);
    assert r.Validated() == s.Validated();
    forall m | m in r.members ensures r.HasValidated(m.connectionID) {
      assert m in s.members || m == Member(roomID, id);
    }
  }

  lemma SendCommentKeepsValid(s: State, roomID: JsString, text: JsString, auth: AuthService)
    requires Valid(s, auth)
    ensures Valid(SendComment(s, roomID, text).state, auth)
  {
  }
}
