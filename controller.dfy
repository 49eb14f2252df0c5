/** The controller object and its three per-bucket delegates, as the program
    runs them: one mutable snapshot field that each step replaces, and a
    transport that records what it is asked to do.  Every method follows the
    source's own sequence of snapshot replacements and sends, and ends in the
    snapshot and the sends of the matching snapshot function, whose
    properties the other modules prove. */
module Controller {
  import opened Js
  import opened Status
  import opened Auth
  import Registry
  import Going
  import Coming
  import ValidatedPeer
  import Dispatch

  /** The transport.  It keeps this peer's id and the actions asked of it, in
      order; delivering them is not modelled. */
  class ConnectionBundler {
    const peerID: JsString
    var trace: seq<Action>

    constructor(peerID: JsString)
      ensures this.peerID == peerID && trace == []
    {
      this.peerID := peerID;
      trace := [];
    }

    /** `connect`: ask for a connection to a remote peer. */
    method Connect(remoteID: JsString)
      modifies this
      ensures trace == old(trace) + [Open(remoteID)]
    {
      trace := trace + [Open(remoteID)];
    }

    /** `send`: one message on one connection. */
    method Send(connectionID: JsString, message: Message)
      modifies this
      ensures trace == old(trace) + [Action.Send(connectionID, message)]
    {
      trace := trace + [Action.Send(connectionID, message)];
    }

    /** `close`: drop one connection. */
    method Close(connectionID: JsString)
      modifies this
      ensures trace == old(trace) + [Action.Close(connectionID)]
    {
      trace := trace + [Action.Close(connectionID)];
    }
  }

  /** `P2pController`: the registry snapshot and the operations that replace
      it. */
  class P2pController {
    var state: State

    constructor(state: State)
      ensures this.state == state
    {
      this.state := state;
    }

    /** `setState`: the delegates' way of replacing the snapshot. */
    method SetState(next: State)
      modifies this
      ensures state == next
    {
      state := next;
    }

    /** `send`: record a comment and send it to every validated member
      connection of the room, one `send` per connection. */
    method Send(roomID: JsString, text: JsString, cb: ConnectionBundler) returns (outcome: Outcome)
      modifies this, cb
      ensures var r := Registry.SendComment(old(state), roomID, text);
        state == r.state && cb.trace == old(cb.trace) + r.sent && outcome == r.outcome
    {
      var own := Registry.OwnUser(state);
      if own.None? {
        return Threw("no own user");
      }
      var digest := own.value.publicKeyDigest;
      if digest == [] {
        return Done;
      }
      var next := state.(comments := [CommentRecord(roomID, digest, text)] + state.comments);
      state := next;
      var memberConnectionIDs := Registry.ConnectionIDs(Registry.RoomConnections(state, roomID));
      var data := Message.Comment(roomID, text);
      for i := 0 to |memberConnectionIDs|
        invariant state == next
        invariant cb.trace == old(cb.trace) + Registry.Broadcast(memberConnectionIDs[..i], data)
      {
        Registry.BroadcastExtends(memberConnectionIDs, i, data);
        cb.Send(memberConnectionIDs[i], data);
      }
      assert memberConnectionIDs[..|memberConnectionIDs|] == memberConnectionIDs;
      assert Registry.SendComment(old(state), roomID, text) == Step(next, Registry.Broadcast(memberConnectionIDs, data), Done);
      return Done;
    }

    /** `connect`: through a going delegate. */
    method Connect(roomID: JsString, remoteID: JsString, cb: ConnectionBundler, connectionID: JsString)
      modifies this, cb
      ensures var r := Going.Connect(old(state), roomID, remoteID, cb.peerID, connectionID);
        state == r.state && cb.trace == old(cb.trace) + r.sent
    {
      var delegate := new DelegateGoingConnection(this);
      delegate.Connect(roomID, remoteID, cb, connectionID);
    }

    /** `onOpen`: an incoming handshake for an id in no bucket. */
    method OnOpen(connectionID: JsString, remoteID: JsString, cb: ConnectionBundler, auth: AuthService)
      modifies this, cb
      ensures var r := Dispatch.OnOpen(old(state), connectionID, remoteID, auth);
        state == r.state && cb.trace == old(cb.trace) + r.sent
    {
      var connectionType := Registry.GetConnectionType(state, connectionID);
      if connectionType == Registry.Unlisted {
        var delegate := new DelegateComingConnection(this);
        delegate.OnOpen(connectionID, remoteID, cb, auth);
      }
    }

    /** `onClose`: drop the id from every bucket and every membership. */
    method OnClose(connectionID: JsString)
      modifies this
      ensures state == Registry.OnClose(old(state), connectionID)
    {
      var cas := state.connectionAuthStatus;
      var next := ConnectionAuthStatus(
        Filter(cas.comingConnections, (c: ComingConnection) => c.connectionID != connectionID),
        Filter(cas.goingConnections, (c: GoingConnection) => c.connectionID != connectionID),
        Filter(cas.validatedConnections, (c: ValidatedConnection) => c.connectionID != connectionID));
      var members := Filter(state.members, (m: Member) => m.connectionID != connectionID);
      state := state.(connectionAuthStatus := next, members := members);
    }

    /** `onData`: route the message to the delegate of the id's bucket. */
    method OnData(connectionID: JsString, message: Message, cb: ConnectionBundler, auth: AuthService) returns (outcome: Outcome)
      modifies this, cb
      ensures var r := Dispatch.OnData(old(state), connectionID, message, cb.peerID, auth);
        state == r.state && cb.trace == old(cb.trace) + r.sent && outcome == r.outcome
    {
      var connectionType := Registry.GetConnectionType(state, connectionID);
      if connectionType == Registry.Going {
        var delegate := new DelegateGoingConnection(this);
        outcome := delegate.OnData(connectionID, message, cb, auth);
      } else if connectionType == Registry.Coming {
        var delegate := new DelegateComingConnection(this);
        outcome := delegate.OnData(connectionID, message, cb, auth);
      } else if connectionType == Registry.Validated {
        var delegate := new DelegateValidatedConnection(this);
        delegate.OnData(connectionID, message, cb);
        outcome := Done;
      } else {
        outcome := Done;
      }
    }

    /** `validateConnection`: promote the id, with the digest of its key. */
    method ValidateConnection(connectionID: JsString, remoteID: JsString, publicKey: JsString, name: JsString, auth: AuthService)
      modifies this
      ensures state == Registry.ValidateConnection(old(state), connectionID, remoteID, publicKey, auth)
    {
      var cas := state.connectionAuthStatus;
      var publicKeyDigest := auth.Digest(publicKey);
      var n := ValidatedConnection(remoteID, connectionID, publicKey, publicKeyDigest);
      var nextV := cas.validatedConnections + [n];
      state := state.(connectionAuthStatus := ConnectionAuthStatus(
        Filter(cas.comingConnections, (c: ComingConnection) => c.connectionID != connectionID),
        Filter(cas.goingConnections, (c: GoingConnection) => c.connectionID != connectionID),
        nextV));
    }

    /** `requestJoin`: ask the remote to add this peer to the room. */
    method RequestJoin(connectionID: JsString, roomID: JsString, cb: ConnectionBundler)
      modifies cb
      ensures cb.trace == old(cb.trace) + [Action.Send(connectionID, Message.RequestJoin(roomID))]
    {
      cb.Send(connectionID, Message.RequestJoin(roomID));
    }

    /** `mergeMember`: add the membership row unless it is there. */
    method MergeMember(roomID: JsString, connectionID: JsString)
      modifies this
      ensures state == Registry.MergeMember(old(state), roomID, connectionID)
    {
      if Member(roomID, connectionID) !in state.members {
        state := state.(members := state.members + [Member(roomID, connectionID)]);
      }
    }
  }

  /** `DelegateGoingConnection`: the handshake of a connection this peer
      opened. */
  class DelegateGoingConnection {
    const p2p: P2pController

    constructor(p2p: P2pController)
      ensures this.p2p == p2p
    {
      this.p2p := p2p;
    }

    /** `connect`: unless already connected, open the connection and record
      it in state connected. */
    method Connect(roomID: JsString, remoteID: JsString, cb: ConnectionBundler, connectionID: JsString)
      modifies p2p, cb
      ensures var r := Going.Connect(old(p2p.state), roomID, remoteID, cb.peerID, connectionID);
        p2p.state == r.state && cb.trace == old(cb.trace) + r.sent
    {
      if Going.IsConnect(p2p.state, remoteID, cb.peerID) {
        return;
      }
      cb.Connect(remoteID);
      var now := p2p.state;
      var next := now.Going() + [GoingConnection(GoingStatus.Connected, remoteID, roomID, connectionID, [], [])];
      p2p.SetState(now.WithBuckets(now.Coming(), next, now.Validated()));
    }

    /** `updateStatus`: throws without an entry; otherwise replaces the id's
      entries by the merged one, last. */
    method UpdateStatus(connectionID: JsString, attr: Going.GoingAttr) returns (outcome: Outcome)
      modifies p2p
      ensures outcome == Done <==> old(p2p.state).HasGoing(connectionID)
      ensures outcome == Done ==> p2p.state == Going.UpdateStatus(old(p2p.state), connectionID, attr).value
      ensures outcome != Done ==> p2p.state == old(p2p.state)
    {
      var c := Going.GetConnection(p2p.state, connectionID);
      if c.None? {
        return Threw("connection missing");
      }
      var n := Going.Merged(c.value, attr);
      var nextList := Filter(p2p.state.Going(), (g: GoingConnection) => g.connectionID != connectionID) + [n];
      p2p.SetState(p2p.state.WithBuckets(p2p.state.Coming(), nextList, p2p.state.Validated()));
      return Done;
    }

    /** `onData`: `auth-request` and `auth-ok` only. */
    method OnData(connectionID: JsString, message: Message, cb: ConnectionBundler, auth: AuthService) returns (outcome: Outcome)
      modifies p2p, cb
      ensures var r := Going.OnData(old(p2p.state), connectionID, message, auth);
        p2p.state == r.state && cb.trace == old(cb.trace) + r.sent && outcome == r.outcome
    {
      if message.AuthRequest? {
        outcome := OnAuthRequest(connectionID, message.publicKey, message.signature, message.name, auth, cb);
      } else if message.AuthOk? {
        OnAuthOk(connectionID, cb, auth);
        outcome := Done;
      } else {
        outcome := Done;
      }
    }

    /** `onAuthRequest`: connected -> processing-auth-request, verify, then
      wait-auth-request and the answering `auth-request`. */
    method OnAuthRequest(connectionID: JsString, publicKey: JsString, signature: JsString, name: JsString, auth: AuthService, cb: ConnectionBundler)
      returns (outcome: Outcome)
      modifies p2p, cb
      ensures var r := Going.OnAuthRequest(old(p2p.state), connectionID, publicKey, signature, name, auth);
        p2p.state == r.state && cb.trace == old(cb.trace) + r.sent && outcome == r.outcome
    {
      var connection := Going.GetConnection(p2p.state, connectionID);
      if connection.None? || connection.value.status != GoingStatus.Connected {
        return Threw("not connected");
      }
      var processing := UpdateStatus(connectionID, Going.StatusAttr(GoingStatus.ProcessingAuthRequest, None));
      var roomID := Going.GetRoomID(p2p.state, connectionID);
      var ok := auth.Verify(connectionID, publicKey, signature);
      if ok.None? {
        return Threw("verify failed");
      }
      if !ok.value {
        return Threw("auth error");
      }
      var waiting := UpdateStatus(connectionID, Going.StatusAttr(GoingStatus.WaitAuthRequest, Some(name)));
      var sign := auth.SignConnection(connectionID);
      var data := AuthRequest(auth.ownPublicKeyJson, sign, roomID.value, Registry.GetUserName(p2p.state));
      cb.Send(connectionID, data);
      return Done;
    }

    /** `onAuthOk`: in wait-auth-request, promote and send `request-join`. */
    method OnAuthOk(connectionID: JsString, cb: ConnectionBundler, auth: AuthService)
      modifies p2p, cb
      ensures var r := Going.OnAuthOk(old(p2p.state), connectionID, auth);
        p2p.state == r.state && cb.trace == old(cb.trace) + r.sent
    {
      var connection := Going.GetConnection(p2p.state, connectionID);
      if connection.None? || connection.value.status != GoingStatus.WaitAuthRequest {
        return;
      }
      var c := connection.value;
      p2p.ValidateConnection(connectionID, c.remoteID, c.publicKey, c.name, auth);
      p2p.RequestJoin(connectionID, c.roomID, cb);
    }
  }

  /** `DelegateComingConnection`: the handshake of a connection a remote peer
      opened. */
  class DelegateComingConnection {
    const p2p: P2pController

    constructor(p2p: P2pController)
      ensures this.p2p == p2p
    {
      this.p2p := p2p;
    }

    /** `addConnection`. */
    method AddConnection(connectionID: JsString, remoteID: JsString)
      modifies p2p
      ensures p2p.state == Coming.AddConnection(old(p2p.state), connectionID, remoteID)
    {
      var nextList := p2p.state.Coming() + [ComingConnection(ComingStatus.Connected, remoteID, connectionID)];
      p2p.SetState(p2p.state.WithBuckets(nextList, p2p.state.Going(), p2p.state.Validated()));
    }

    /** `onOpen`: record, send this peer's `auth-request`, then wait for the
      remote's if the entry is still connected. */
    method OnOpen(connectionID: JsString, remoteID: JsString, cb: ConnectionBundler, auth: AuthService)
      modifies p2p, cb
      ensures var r := Coming.OnOpen(old(p2p.state), connectionID, remoteID, auth);
        p2p.state == r.state && cb.trace == old(cb.trace) + r.sent
    {
      AddConnection(connectionID, remoteID);
      var sign := auth.SignConnection(connectionID);
      var data := AuthRequest(auth.ownPublicKeyJson, sign, Registry.GetUserName(p2p.state), Registry.GetIntroduce(p2p.state));
      cb.Send(connectionID, data);
      if Coming.GetStatus(p2p.state, connectionID) != Some(ComingStatus.Connected) {
        return;
      }
      var waiting := UpdateConnection(connectionID, Coming.ComingAttr(Some(ComingStatus.WaitAuthRequest), None));
    }

    /** `onData`: only an awaited `auth-request`. */
    method OnData(connectionID: JsString, message: Message, cb: ConnectionBundler, auth: AuthService) returns (outcome: Outcome)
      modifies p2p, cb
      ensures var r := Coming.OnData(old(p2p.state), connectionID, message, auth);
        p2p.state == r.state && cb.trace == old(cb.trace) + r.sent && outcome == r.outcome
    {
      var status := Coming.GetStatus(p2p.state, connectionID);
      if message.AuthRequest? && status == Some(ComingStatus.WaitAuthRequest) {
        outcome := OnAuthRequest(connectionID, message.publicKey, message.signature, message.name, cb, auth);
      } else {
        outcome := Done;
      }
    }

    /** `onAuthRequest`: close on a rejected signature, otherwise promote and
      answer `auth-ok`. */
    method OnAuthRequest(connectionID: JsString, publicKey: JsString, signature: JsString, name: JsString, cb: ConnectionBundler, auth: AuthService)
      returns (outcome: Outcome)
      modifies p2p, cb
      ensures var r := Coming.OnAuthRequest(old(p2p.state), connectionID, publicKey, signature, auth);
        p2p.state == r.state && cb.trace == old(cb.trace) + r.sent && outcome == r.outcome
    {
      var ok := auth.Verify(connectionID, publicKey, signature);
      if ok.None? {
        return Threw("verify failed");
      }
      if !ok.value {
        cb.Close(connectionID);
        return Done;
      }
      outcome := Validated(connectionID, publicKey, name, auth);
      if outcome != Done {
        return;
      }
      cb.Send(connectionID, AuthOk);
    }

    /** `updateConnection`: throws without an entry; otherwise replaces the
      id's entries by the merged one, last. */
    method UpdateConnection(connectionID: JsString, attr: Coming.ComingAttr) returns (outcome: Outcome)
      modifies p2p
      ensures outcome == Done <==> old(p2p.state).HasComing(connectionID)
      ensures outcome == Done ==> p2p.state == Coming.UpdateConnection(old(p2p.state), connectionID, attr).value
      ensures outcome != Done ==> p2p.state == old(p2p.state)
    {
      var c := Coming.GetConnection(p2p.state, connectionID);
      if c.None? {
        return Threw("connection missing");
      }
      var n := Coming.Merged(c.value, attr);
      var nextList := Filter(p2p.state.Coming(), (g: ComingConnection) => g.connectionID != connectionID) + [n];
      p2p.SetState(p2p.state.WithBuckets(nextList, p2p.state.Going(), p2p.state.Validated()));
      return Done;
    }

    /** `validated`: promote under the entry's remote id; throws without an
      entry. */
    method Validated(connectionID: JsString, publicKey: JsString, name: JsString, auth: AuthService) returns (outcome: Outcome)
      modifies p2p
      ensures outcome == Done <==> old(p2p.state).HasComing(connectionID)
      ensures outcome == Done ==> p2p.state == Coming.Validated(old(p2p.state), connectionID, publicKey, auth).value
      ensures outcome != Done ==> p2p.state == old(p2p.state) && outcome == Threw("nai")
    {
      var c := Coming.GetConnection(p2p.state, connectionID);
      if c.None? {
        return Threw("nai");
      }
      p2p.ValidateConnection(connectionID, c.value.remoteID, publicKey, name, auth);
      return Done;
    }
  }

  /** `DelegateValidatedConnection`: answers `request-join`. */
  class DelegateValidatedConnection {
    const p2p: P2pController

    constructor(p2p: P2pController)
      ensures this.p2p == p2p
    {
      this.p2p := p2p;
    }

    /** `onData`: only `request-join`. */
    method OnData(connectionID: JsString, message: Message, cb: ConnectionBundler)
      modifies p2p, cb
      ensures var r := ValidatedPeer.OnData(old(p2p.state), connectionID, message, cb.peerID);
        p2p.state == r.state && cb.trace == old(cb.trace) + r.sent
    {
      if message.RequestJoin? {
        OnJoin(connectionID, message.roomID, cb);
      }
    }

    /** `onJoin`: merge the membership, then reply with the member list. */
    method OnJoin(connectionID: JsString, roomID: JsString, cb: ConnectionBundler)
      modifies p2p, cb
      ensures var r := ValidatedPeer.OnJoin(old(p2p.state), connectionID, roomID, cb.peerID);
        p2p.state == r.state && cb.trace == old(cb.trace) + r.sent
    {
      p2p.MergeMember(roomID, connectionID);
      var memberIDs := ValidatedPeer.JoinMemberIDs(p2p.state, roomID, cb.peerID);
      cb.Send(connectionID, JoinOk(roomID, memberIDs));
    }
  }
}
