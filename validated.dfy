/** The handler of a validated connection: it answers `request-join` by
    recording the sender as a member of the room and replying `join-ok` with
    the remote ids of the room's members, this peer's own id last. */
module ValidatedPeer {
  import opened Js
  import opened Status
  import Auth
  import Registry

  /** `getRemoteID`: the remote id of the first validated entry with the id. */
  function GetRemoteID(s: State, id: JsString): (r: Option<JsString>)
    ensures r.None? <==> !s.HasValidated(id)
    ensures r.Some? ==> exists i :: && 0 <= i < |s.Validated()| && s.Validated()[i].connectionID == id && s.Validated()[i].remoteID == r.value
                                    && forall j :: 0 <= j < i ==> s.Validated()[j].connectionID != id
  {
    match Find(s.Validated(), (v: ValidatedConnection) => v.connectionID == id)
    case None => None
    case Some(v) => Some(v.remoteID)
  }

  /** What one member row contributes: its remote id, unless that is
      `undefined` or `""`. */
  function RowRemoteID(s: State, m: Member): seq<JsString>
  {
    var id := GetRemoteID(s, m.connectionID);
    if id.Some? && id.value != [] then [id.value] else []
  }

  /** `.map(c => getRemoteID(c.connectionID)).filter(c => !!c)`: the remote ids
      of the rows, in row order, dropping `undefined` and `""`. */
  function MemberRemoteIDs(s: State, rows: seq<Member>): (r: seq<JsString>)
    ensures |r| <= |rows|
  {
    if rows == [] then []
    else RowRemoteID(s, rows[0]) + MemberRemoteIDs(s, rows[1..])
  }

  /** The list holds exactly the non-empty remote ids of the validated rows. */
  lemma {:induction false} MemberRemoteIDsContents(s: State, rows: seq<Member>)
    ensures forall x :: x in MemberRemoteIDs(s, rows) ==>
      x != [] && exists m :: m in rows && GetRemoteID(s, m.connectionID) == Some(x)
    ensures forall m :: (m in rows && GetRemoteID(s, m.connectionID).Some? && GetRemoteID(s, m.connectionID).value != [])
                     ==> GetRemoteID(s, m.connectionID).value in MemberRemoteIDs(s, rows)
  {
    if rows != [] {
      MemberRemoteIDsContents(s, rows[1..]);
      assert forall m :: m in rows[1..] ==> m in rows;
      assert forall m :: m in rows ==> m == rows[0] || m in rows[1..];
    }
  }

  /** The list is built row by row: the ids of two runs of rows are the ids of
      the first run followed by those of the second. */
  lemma {:induction false} MemberRemoteIDsAppend(s: State, a: seq<Member>, b: seq<Member>)
    ensures MemberRemoteIDs(s, a + b) == MemberRemoteIDs(s, a) + MemberRemoteIDs(s, b)
  {
    if a == [] {
      assert a + b == b;
    } else {
      assert (a + b)[0] == a[0];
      assert (a + b)[1..] == a[1..] + b;
      MemberRemoteIDsAppend(s, a[1..], b);
      calc {
        MemberRemoteIDs(s, a + b);
        RowRemoteID(s, a[0]) + MemberRemoteIDs(s, a[1..] + b);
        RowRemoteID(s, a[0]) + (MemberRemoteIDs(s, a[1..]) + MemberRemoteIDs(s, b));
        (RowRemoteID(s, a[0]) + MemberRemoteIDs(s, a[1..])) + MemberRemoteIDs(s, b);
        MemberRemoteIDs(s, a) + MemberRemoteIDs(s, b);
      }
    }
  }

  /** Rows whose connection is not validated contribute nothing. */
  lemma {:induction false} UnvalidatedRowsSkipped(s: State, rows: seq<Member>)
    requires forall m :: m in rows ==> !s.HasValidated(m.connectionID)
    ensures MemberRemoteIDs(s, rows) == []
  {
    if rows != [] {
      UnvalidatedRowsSkipped(s, rows[1..]);
    }
  }

  /** The `join-ok` member list: the remote ids of the room's member rows, in
      row order, then this peer's id. */
  function JoinMemberIDs(s: State, roomID: JsString, peerID: JsString): (r: seq<JsString>)
    ensures |r| >= 1 && r[|r| - 1] == peerID
    ensures forall x :: x in r[..|r| - 1] ==>
      x != [] && exists m :: m in s.members && m.roomID == roomID && GetRemoteID(s, m.connectionID) == Some(x)
    ensures forall m :: (&& m in s.members && m.roomID == roomID
                         && GetRemoteID(s, m.connectionID).Some? && GetRemoteID(s, m.connectionID).value != [])
                        ==> GetRemoteID(s, m.connectionID).value in r[..|r| - 1]
  {
    var rows := Filter(s.members, (m: Member) => m.roomID == roomID);
    var ids := MemberRemoteIDs(s, rows);
    MemberRemoteIDsContents(s, rows);
    assert (ids + [peerID])[..|ids|] == ids;
    ids + [peerID]
  }

  /** `onJoin`: merge the membership, then reply `join-ok` on the requesting
      connection only. */
  function OnJoin(s: State, id: JsString, roomID: JsString, peerID: JsString): (r: Step)
    ensures r.outcome == Done
    ensures r.state == s.(members := r.state.members) && Member(roomID, id) in r.state.members
    ensures |r.sent| == 1 && r.sent[0].Send? && r.sent[0].connectionID == id
    ensures r.sent[0].message.JoinOk? && r.sent[0].message.roomID == roomID
  {
    var s1 := Registry.MergeMember(s, roomID, id);
    Step(s1, [Send(id, JoinOk(roomID, JoinMemberIDs(s1, roomID, peerID)))], Done)
  }

  /** The requester, once validated under a non-empty remote id, is in the
      reply it gets, ahead of this peer's own id, which comes last; only the
      membership rows change. */
  lemma JoinReplyListsRequester(s: State, id: JsString, roomID: JsString, peerID: JsString)
    requires GetRemoteID(s, id).Some? && GetRemoteID(s, id).value != []
    ensures var r := OnJoin(s, id, roomID, peerID);
      && r.outcome == Done
      && r.state == s.(members := r.state.members)
      && Member(roomID, id) in r.state.members
      && |r.sent| == 1 && r.sent[0].Send? && r.sent[0].connectionID == id
      && r.sent[0].message.JoinOk? && r.sent[0].message.roomID == roomID
      && var ids := r.sent[0].message.memberIDs;
         ids[|ids| - 1] == peerID && GetRemoteID(s, id).value in ids[..|ids| - 1]
  {
    var s1 := Registry.MergeMember(s, roomID, id);
    var rows := Filter(s1.members, (m: Member) => m.roomID == roomID);
    assert Member(roomID, id) in rows;
    assert GetRemoteID(s1, id) == GetRemoteID(s, id);
    var ids := MemberRemoteIDs(s1, rows);
    MemberRemoteIDsContents(s1, rows);
    assert (ids + [peerID])[..|ids|] == ids;
  }

  /** `onData` for a validated connection: only `request-join` is handled. */
  function OnData(s: State, id: JsString, message: Message, peerID: JsString): (r: Step)
    ensures r.outcome == Done
    ensures r.state == s.(members := r.state.members)
    ensures forall a :: a in r.sent ==> a.Send? && a.connectionID == id
  {
    match message
    case RequestJoin(roomID) => OnJoin(s, id, roomID, peerID)
    case _ => Unchanged(s)
  }

  /** Every other message changes nothing and sends nothing, and a
      `request-join` always answers. */
  lemma OnDataHandlesOnlyRequestJoin(s: State, id: JsString, message: Message, peerID: JsString)
    ensures OnData(s, id, message, peerID) == Unchanged(s) <==> !message.RequestJoin?
  {
  }

  /** Joining keeps the invariant for a connection that is validated, which is
      when the controller calls it. */
  lemma OnDataKeepsValid(s: State, id: JsString, message: Message, peerID: JsString, auth: Auth.AuthService)
    requires Registry.Valid(s, auth)
    requires s.HasValidated(id)
    ensures Registry.Valid(OnData(s, id, message, peerID).state, auth)
  {
    if message.RequestJoin? {
      Registry.MergeMemberKeepsValid(s, message.roomID, id, auth);
    }
  }
}
