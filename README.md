# p2p_sns connection registry, in Dafny

This project models the per-peer connection-authentication registry of
p2p_sns, a browser-to-browser social network. Each peer keeps one `State`
snapshot. The snapshot holds three connection buckets:

- going: connections this peer opened;
- coming: connections a remote peer opened;
- validated: connections whose remote identity has been checked.

It also holds room membership rows, users, and a newest-first comment log.
Every operation builds a new snapshot and assigns it as a whole.

Three handshake state machines move connections between the buckets:

- going: `connected -> processing-auth-request -> wait-auth-request -> validated`;
- coming: `connected -> wait-auth-request -> validated`;
- validated: answers `request-join` with a `join-ok` member list.

Identity rests on signing the payload `connectionID ++ publicKeyJson`. A
signature made for one connection is therefore worthless on another.

The model has two layers.

- Snapshot functions, one module per source file (`Registry`, `Going`,
  `Coming`, `ValidatedPeer`, with `Dispatch` for the controller's event
  routing). Each event handler is a function from the old snapshot to a
  `Step`: the new snapshot, the transport actions sent, and whether the
  handler returned or threw. The lemmas are stated about these functions.
- Module `Controller`: the program's own classes. `P2pController` has a
  mutable `state` field. The three delegates hold a reference to it.
  `ConnectionBundler` records every `connect`/`send`/`close` in a `trace`.
  Each method performs the source's own sequence of snapshot replacements
  and sends. Its `ensures` says the final snapshot and the appended trace
  are exactly those of the matching snapshot function.

JavaScript strings are sequences of UTF-16 code units (`Js.JsString`).
`undefined` is `Js.Option.None`. `a || b` on strings is `Js.OrElse`.
`filter` and `find` are `Js.Filter` and `Js.Find`.

The primitives are uninterpreted function-valued fields of `Auth.Crypto`:

- RSASSA-PKCS1-v1_5 signing and verification (section 8.2 of RFC 8017);
- SHA-256 (FIPS 180-4);
- base64 (section 4 of RFC 4648);
- JWK import (RFC 7517).

Properties that need them hold under named hypotheses:

- `Base64RoundTrips`;
- `KeyPairMatches`;
- `SignaturesBindMessages`, which stands in for unforgeability.

## Model

| member | source | states |
|---|---|---|
| Js.Filter | src/P2pController.ts:96-107 | `filter` keeps exactly the elements that pass the test, and never grows the list |
| Js.Find | src/P2pController.ts:174-190 | `find` is `undefined` exactly when no element passes; otherwise it is the first element that passes |
| Js.FilterAppend | src/DelegateGoingConnection.ts:90-92 | filtering a concatenation filters each part and keeps their order |
| Js.FilterIdempotent | src/P2pController.ts:96-108 | filtering twice by the same test equals filtering once |
| Status.InitialState | src/index.tsx:47-56 | a peer starts with empty buckets, no members and no comments, its own user only, in its room |
| Auth.StringToArrayBuffer | src/AuthService.ts:53-56 | the buffer has 2·\|s\| bytes; bytes 2i and 2i+1 are the low and high bytes of code unit i |
| Auth.StringToArrayBufferInjective | src/AuthService.ts:53-56 | two strings have the same buffer if and only if they are equal |
| Auth.BinaryRoundTrip | src/AuthService.ts:88-91 | converting bytes to a binary string and back gives the same bytes |
| Auth.BinaryString | src/AuthService.ts:88-91 | `String.fromCharCode(...bytes)`: one code unit per byte, of the byte's value (partner: Auth.BinaryRoundTrip) |
| Auth.BinaryToBytes | src/AuthService.ts:61-64 | one byte per code unit; a code unit below 256 becomes the byte of the same value (partner: Auth.BinaryRoundTrip) |
| Auth.Base64Bytes | src/AuthService.ts:58-65 | fails exactly when `atob` throws; otherwise one byte per decoded character |
| Auth.Base64ToArrayBuffer | src/AuthService.ts:58-65 | its loop fills a fresh array; it fails exactly when Auth.Base64Bytes does, and otherwise the array holds exactly Auth.Base64Bytes' bytes |
| Auth.AuthService.SignConnection | src/AuthService.ts:7-24 | signs the buffer of `connectionID ++ ownPublicKeyJson` and base64-encodes the signature; what it promises is stated by Auth.SignThenVerify and Auth.IdentityBinding |
| Auth.AuthService.Verify | src/AuthService.ts:26-46 | throws exactly when the signature is not base64 or the key does not import; otherwise it is the primitive's verdict on `connectionID ++ otherPublicKeyJson` |
| Auth.AuthService.Digest | src/AuthService.ts:48-50 | SHA-256 of the string's buffer, base64-encoded; Auth.DigestCollisionIsHashCollision states what equal digests mean |
| Auth.SignThenVerify | src/AuthService.ts:7-46 | if base64 round-trips and the key pair matches, `verify(c, ownKey, signConnection(c))` is true: both check the payload `c ++ ownPublicKeyJson` |
| Auth.IdentityBinding | src/AuthService.ts:7-44 | under the hypotheses, a signature made for connection a is never accepted for a different connection b under the same key |
| Auth.DigestCollisionIsHashCollision | src/AuthService.ts:82-86 | if base64 is injective, two different keys with one digest are a SHA-256 collision between two different buffers |
| Registry.GetConnectionType | src/P2pController.ts:170-192 | the type is going if the id is in the going bucket, else coming, else validated, else `""`; each case is an if-and-only-if |
| Registry.MemberConnectionIDs | src/P2pController.ts:162-164 | an id is listed exactly when there is a member row `(roomID, id)` |
| Registry.RoomConnections | src/P2pController.ts:161-168 | a validated entry is returned exactly when it has a member row for the room |
| Registry.OwnUser | src/P2pController.ts:227 | `undefined` exactly when no user is marked own; otherwise the user marked own at the lowest position of the user list |
| Registry.GetUserName | src/P2pController.ts:226-228 | the own user's name, or `""` when there is no own user |
| Registry.GetIntroduce | src/DelegateComingConnection.ts:106-108 | the own user's introduction, or `""` when there is no own user |
| Registry.ValidateConnection | src/P2pController.ts:194-224 | appends exactly one validated entry carrying `digest(publicKey)`; removes the id from the coming and going buckets; members, users, comments and room are unchanged |
| Registry.ValidateConnectionPromotes | src/P2pController.ts:201-223 | after promotion the id is classified validated and is in neither the going nor the coming bucket |
| Registry.OnClose | src/P2pController.ts:90-116 | the id leaves all three buckets and every member row; nothing else leaves; users, comments, room and url are unchanged |
| Registry.OnCloseIdempotent | src/P2pController.ts:95-108 | closing twice gives the same snapshot as closing once |
| Registry.OnCloseUnlistedIsNoop | src/P2pController.ts:95-108 | closing an id that is in no bucket and no member row changes nothing |
| Registry.MergeMember | src/DelegateValidatedConnection.ts:24 | assumed "add if absent": afterwards the row is present, the old rows are kept in order, and at most one row is added |
| Registry.SendComment | src/P2pController.ts:29-54 | without an own user it throws with nothing changed; with an empty own digest nothing happens; otherwise `{digest, roomID, text}` is prepended to the comments |
| Registry.CommentReachesExactlyRoomMembers | src/P2pController.ts:46-53 | every action sent is `comment(roomID, text)`; it goes to a connection exactly when the post succeeds and the connection is validated with a member row for the room |
| Registry.CommentSentOncePerMember | src/P2pController.ts:46-53 | in a valid snapshot a posted comment reaches each validated member connection of the room exactly once, and no other connection |
| Registry.InitialStateValid | src/index.tsx:47-56 | the initial snapshot satisfies the bookkeeping invariant `Valid` |
| Registry.ValidMeansOneBucket | src/P2pController.ts:170-192 | in a valid snapshot an id is in at most one bucket |
| Registry.ValidateConnectionKeepsValid | src/P2pController.ts:201-223 | promoting an id that is in the going or the coming bucket keeps `Valid` |
| Registry.OnCloseKeepsValid | src/P2pController.ts:95-116 | closing keeps `Valid` |
| Registry.MergeMemberKeepsValid | src/DelegateValidatedConnection.ts:24 | adding a member row for a validated connection keeps `Valid` |
| Registry.SendCommentKeepsValid | src/P2pController.ts:29-44 | posting keeps `Valid` |
| Going.GetConnection | src/DelegateGoingConnection.ts:63-67 | `undefined` exactly when the id has no going entry; otherwise the entry with that id at the lowest position of the going list |
| Going.GetRoomID | src/DelegateGoingConnection.ts:103-105 | `undefined` exactly when the id has no going entry; otherwise the room of the id's first going entry |
| Going.IsConnect | src/DelegateGoingConnection.ts:35-43 | true if and only if the remote is this peer, or some validated, coming or going entry has that remote id |
| Going.Connect | src/DelegateGoingConnection.ts:9-33 | a no-op when `isConnect`; otherwise it opens the connection and appends exactly one going entry (connected, given room and remote, empty name and key); the other buckets are untouched |
| Going.ConnectIdempotent | src/DelegateGoingConnection.ts:14-32 | a second connect to the same remote address, in any room and with any new id, changes nothing and sends nothing |
| Going.Merged | src/DelegateGoingConnection.ts:81-88 | a given non-empty room, remote id, name or key replaces the old field; an absent or empty one keeps it; a given status replaces the old one |
| Going.UpdateStatus | src/DelegateGoingConnection.ts:69-101 | fails exactly when the id is not in the going list; otherwise it replaces only that id's entries by the merged entry, placed last; the other entries and buckets are unchanged |
| Going.UpdateStatusFinds | src/DelegateGoingConnection.ts:79-100 | after `updateStatus`, looking up the id gives the merged entry |
| Going.OnAuthRequest | src/DelegateGoingConnection.ts:107-147 | only the going bucket changes; it returns normally exactly when the entry is connected and the signature verifies, and then sends one message; a throw sends nothing; every message goes to this connection |
| Going.AuthRequestOnlyWhenConnected | src/DelegateGoingConnection.ts:113-118 | an auth-request throws with nothing changed and nothing sent if and only if the id has no going entry or its entry is not in state connected |
| Going.FailedVerificationLeavesProcessing | src/DelegateGoingConnection.ts:120-131 | a rejected or throwing verification throws, sends nothing (no close), leaves the entry in processing-auth-request and creates no validated entry |
| Going.VerifiedAuthRequestAnswers | src/DelegateGoingConnection.ts:113-146 | a verified auth-request leaves the entry in wait-auth-request with the remote's name and its key as stored before, and sends one `auth-request`: own key, signature over the connection, the entry's roomID in slot 2, then own name |
| Going.AuthOkPromotesWithoutKey | src/DelegateGoingConnection.ts:153-171 | auth-ok in wait-auth-request promotes the id with key `""` and digest `digest("")`, then sends `request-join` for the stored room |
| Going.OnAuthOk | src/DelegateGoingConnection.ts:153-171 | returns normally; changes nothing if and only if the entry is missing or not in wait-auth-request; otherwise the id becomes validated and one `request-join` for the entry's room is sent |
| Going.OnData | src/DelegateGoingConnection.ts:49-61 | methods other than auth-request and auth-ok change nothing; members, users and comments never change; a throw sends nothing; every message goes to this connection |
| Going.OnAuthRequestKeepsValid | src/DelegateGoingConnection.ts:107-147 | the going auth-request handler keeps `Valid` |
| Going.OnAuthOkKeepsValid | src/DelegateGoingConnection.ts:153-171 | the going auth-ok handler keeps `Valid` |
| Going.OnDataKeepsValid | src/DelegateGoingConnection.ts:49-61 | the going handler keeps `Valid` |
| Going.ConnectKeepsValid | src/DelegateGoingConnection.ts:15-32 | connect keeps `Valid` when the transport hands out an id that is in no bucket |
| Coming.GetConnection | src/DelegateComingConnection.ts:9-13 | `undefined` exactly when the id has no coming entry; otherwise the entry with that id at the lowest position of the coming list |
| Coming.GetStatus | src/DelegateComingConnection.ts:110-112 | `undefined` exactly when the id has no coming entry; otherwise the status of the id's first coming entry |
| Coming.AddConnection | src/DelegateComingConnection.ts:15-31 | appends exactly one coming entry `{id, remoteID, connected}`; nothing else changes |
| Coming.Merged | src/DelegateComingConnection.ts:120-124 | an absent or empty remote id keeps the old one; a given status replaces the old one |
| Coming.UpdateConnection | src/DelegateComingConnection.ts:114-137 | fails exactly when the id is not in the coming list; otherwise it replaces only that id's entries by the merged entry, placed last |
| Coming.OnOpen | src/DelegateComingConnection.ts:37-56 | returns normally, leaves the id in the coming bucket with the other buckets untouched, and sends exactly one `auth-request`: own key, signature over the connection, own name, own introduction |
| Coming.OnOpenSendsAuthRequest | src/DelegateComingConnection.ts:37-56 | for a new id: exactly one coming entry is added, in wait-auth-request, and exactly one `auth-request` is sent: own key, signature over the connection, own name, own introduction |
| Coming.OnOpenAsWritten | src/DelegateComingConnection.ts:43-50 | as written, `onOpen` records the id in the coming bucket and throws before sending anything |
| Coming.OnAuthRequest | src/DelegateComingConnection.ts:72-100 | a throw changes and sends nothing; the snapshot changes only together with an `auth-ok` reply; members, users and comments never change |
| Coming.Validated | src/DelegateComingConnection.ts:139-159 | throws exactly when the coming entry is missing; otherwise it promotes under that entry's remote id |
| Coming.AuthRequestDecidedBySignature | src/DelegateComingConnection.ts:72-100 | `auth-ok` is sent and the id promoted with the presented key exactly when the signature verifies and the entry exists; `close` is sent, with nothing changed, exactly when verification returns false |
| Coming.ReplayedSignatureNotPromoted | src/DelegateComingConnection.ts:83-87 | under the hypotheses, a signature made for another connection never gets this connection promoted |
| Coming.OnDataIgnoresOutOfState | src/DelegateComingConnection.ts:58-70 | a message changes nothing and sends nothing if and only if it is not an `auth-request` awaited in wait-auth-request |
| Coming.OnData | src/DelegateComingConnection.ts:58-70 | a throw changes and sends nothing; a changed snapshot has the id validated and answers `auth-ok`; the only messages sent are `auth-ok` or `close` on this connection |
| Coming.OnOpenAsWrittenStalls | src/DelegateComingConnection.ts:43-108 | as written, `onOpen` throws before sending; the entry stays connected, and every later message on it is ignored |
| Coming.ValidatedAsWritten | src/DelegateComingConnection.ts:151-158 | as written, the call always throws with nothing changed and nothing sent |
| Coming.AsWrittenNeverPromotes | src/DelegateComingConnection.ts:89-99 | as written, even a verified auth-request neither promotes the connection nor sends `auth-ok` |
| Coming.UpdateConnectionKeepsValid | src/DelegateComingConnection.ts:114-137 | `updateConnection` keeps `Valid` |
| Coming.OnOpenKeepsValid | src/DelegateComingConnection.ts:37-56 | `onOpen` on an id in no bucket keeps `Valid` |
| Coming.OnDataKeepsValid | src/DelegateComingConnection.ts:58-100 | the coming handler keeps `Valid` |
| ValidatedPeer.GetRemoteID | src/DelegateValidatedConnection.ts:35-39 | `undefined` exactly when the id is not validated; otherwise the remote id of the id's first validated entry |
| ValidatedPeer.MemberRemoteIDs | src/DelegateValidatedConnection.ts:25-28 | at most one id per member row; its contents are stated by ValidatedPeer.MemberRemoteIDsContents and its order by ValidatedPeer.MemberRemoteIDsAppend |
| ValidatedPeer.MemberRemoteIDsContents | src/DelegateValidatedConnection.ts:27-28 | the list holds only non-empty remote ids of validated rows, and every such id of a row |
| ValidatedPeer.MemberRemoteIDsAppend | src/DelegateValidatedConnection.ts:25-28 | the list follows member-row order: rows a then b give a's ids then b's |
| ValidatedPeer.UnvalidatedRowsSkipped | src/DelegateValidatedConnection.ts:28 | rows whose connection is not validated add nothing |
| ValidatedPeer.JoinMemberIDs | src/DelegateValidatedConnection.ts:25-29 | this peer's id is always last; before it come exactly the non-empty remote ids of the room's validated member rows: each listed id is one of them, and each of them is listed |
| ValidatedPeer.OnJoin | src/DelegateValidatedConnection.ts:18-33 | returns normally; only the member rows change and they then hold `(roomID, id)`; exactly one `join-ok` for the room is sent, on this connection |
| ValidatedPeer.JoinReplyListsRequester | src/DelegateValidatedConnection.ts:18-33 | the membership is recorded before the reply; only member rows change; exactly one `join-ok` goes, to the requester only; it lists the requester's remote id, then this peer's id last |
| ValidatedPeer.OnData | src/DelegateValidatedConnection.ts:7-16 | returns normally; only the member rows can change; every message goes to this connection |
| ValidatedPeer.OnDataHandlesOnlyRequestJoin | src/DelegateValidatedConnection.ts:7-16 | a message changes nothing and sends nothing if and only if it is not `request-join` |
| ValidatedPeer.OnDataKeepsValid | src/DelegateValidatedConnection.ts:18-33 | the validated handler keeps `Valid` |
| Dispatch.OnOpenOnlyForUnlisted | src/P2pController.ts:73-88 | `onOpen` acts if and only if the id is in no bucket, and then it sends the coming side's `auth-request` |
| Dispatch.OnOpen | src/P2pController.ts:73-88 | returns normally; the going and validated buckets and the members are unchanged; every message goes to the opened connection |
| Dispatch.OnData | src/P2pController.ts:124-158 | only `request-join` changes memberships; users and comments never change; a throw sends nothing; every send or close is on the connection the message came from |
| Dispatch.OutOfStateMessagesChangeNothing | src/P2pController.ts:124-158 | out-of-turn messages send nothing: on an id in no bucket, non-join messages on a validated id, auth-ok on a going id not waiting for it, and all but an awaited auth-request on a coming id change nothing; an auth-request on a going id not in state connected throws with nothing changed |
| Dispatch.OnOpenKeepsValid | src/P2pController.ts:73-88 | `onOpen` keeps `Valid` |
| Dispatch.OnDataKeepsValid | src/P2pController.ts:124-158 | `onData` keeps `Valid` |
| Dispatch.ApplyKeepsValid | src/P2pController.ts:29-158 | each event (connect, open, data, close, post) keeps `Valid` |
| Dispatch.RunKeepsValid | src/P2pController.ts:29-224 | along any run of events in which the transport hands out fresh ids, `Valid` holds throughout: every id is in one bucket, members are validated, digests match keys |
| Dispatch.HonestAuthRequestAccepted | src/DelegateComingConnection.ts:78-99 | with shared primitives and matching keys, the going side's `auth-request` makes a waiting coming side promote the id and send `auth-ok` |
| Dispatch.HonestAuthRequestAnswered | src/DelegateGoingConnection.ts:120-146 | with shared primitives and matching keys, the coming side's `auth-request` moves a connected going entry to wait-auth-request and is answered |
| Controller.ConnectionBundler.Send | src/ConnectionBundler.ts:26 | appends one send action to the trace |
| Controller.ConnectionBundler.Close | src/ConnectionBundler.ts:27-29 | appends one close action to the trace |
| Controller.ConnectionBundler.Connect | src/ConnectionBundler.ts:25 | appends one open action to the trace |
| Controller.P2pController.Send | src/P2pController.ts:29-54 | its loop sends once per member connection id; the new state and the trace are those of `Registry.SendComment` |
| Controller.P2pController.Connect | src/P2pController.ts:69-71 | the new state and the trace are those of `Going.Connect` |
| Controller.P2pController.OnOpen | src/P2pController.ts:73-88 | the new state and the trace are those of `Dispatch.OnOpen` |
| Controller.P2pController.OnClose | src/P2pController.ts:90-116 | the new state is `Registry.OnClose` of the old one |
| Controller.P2pController.OnData | src/P2pController.ts:124-158 | the new state, the trace and the outcome are those of `Dispatch.OnData` |
| Controller.P2pController.ValidateConnection | src/P2pController.ts:194-224 | the new state is `Registry.ValidateConnection` of the old one |
| Controller.P2pController.RequestJoin | src/P2pController.ts:230-238 | sends one `request-join` for the room on the connection |
| Controller.P2pController.MergeMember | src/DelegateValidatedConnection.ts:24 | the new state is `Registry.MergeMember` of the old one |
| Controller.DelegateGoingConnection.Connect | src/DelegateGoingConnection.ts:9-33 | the new state and the trace are those of `Going.Connect` |
| Controller.DelegateGoingConnection.UpdateStatus | src/DelegateGoingConnection.ts:69-101 | throws, with nothing changed, exactly when the entry is missing; otherwise the new state is `Going.UpdateStatus` |
| Controller.DelegateGoingConnection.OnData | src/DelegateGoingConnection.ts:49-61 | the new state, the trace and the outcome are those of `Going.OnData` |
| Controller.DelegateGoingConnection.OnAuthRequest | src/DelegateGoingConnection.ts:107-147 | two `updateStatus` steps around the verification; the result is that of `Going.OnAuthRequest` |
| Controller.DelegateGoingConnection.OnAuthOk | src/DelegateGoingConnection.ts:153-171 | the result is that of `Going.OnAuthOk` |
| Controller.DelegateComingConnection.AddConnection | src/DelegateComingConnection.ts:15-31 | the new state is `Coming.AddConnection` of the old one |
| Controller.DelegateComingConnection.OnOpen | src/DelegateComingConnection.ts:37-56 | add, send, then update only if still connected; the result is that of `Coming.OnOpen` |
| Controller.DelegateComingConnection.OnData | src/DelegateComingConnection.ts:58-70 | the result is that of `Coming.OnData` |
| Controller.DelegateComingConnection.OnAuthRequest | src/DelegateComingConnection.ts:72-100 | close on rejection, otherwise promote then send `auth-ok`; the result is that of `Coming.OnAuthRequest` |
| Controller.DelegateComingConnection.UpdateConnection | src/DelegateComingConnection.ts:114-137 | throws, with nothing changed, exactly when the entry is missing; otherwise the new state is `Coming.UpdateConnection` |
| Controller.DelegateComingConnection.Validated | src/DelegateComingConnection.ts:139-159 | throws `"nai"`, with nothing changed, exactly when the entry is missing; otherwise the new state is `Coming.Validated` |
| Controller.DelegateValidatedConnection.OnData | src/DelegateValidatedConnection.ts:7-16 | the result is that of `ValidatedPeer.OnData` |
| Controller.DelegateValidatedConnection.OnJoin | src/DelegateValidatedConnection.ts:18-33 | merge, then one `join-ok`; the result is that of `ValidatedPeer.OnJoin` |

The bookkeeping invariant `Registry.Valid` has six parts:

- no bucket lists one id twice;
- no going id is also coming or validated;
- no coming id is also validated;
- every member row names a validated connection;
- every validated digest is the digest of its key;
- no going entry records a key.

## Findings

| source | as written | input that shows it | evidently intended | confidence | as-written member | corrected member |
|---|---|---|---|---|---|---|
| src/DelegateComingConnection.ts:106-108 | `introduce()` calls `this.p2p.getIntroduce()`, which `P2pController` does not define; `onOpen` throws a `TypeError` after adding the entry and before sending | any `onOpen` for a new id: the entry stays connected and no `auth-request` is sent | read the own user's introduction, as `getUserName` reads its name | not executed; the method is absent from the class | Coming.OnOpenAsWritten (shown by Coming.OnOpenAsWrittenStalls) | Registry.GetIntroduce, used by Coming.OnOpen (proved in Coming.OnOpenSendsAuthRequest) |
| src/DelegateComingConnection.ts:151-158 | six arguments go to the five-parameter `validateConnection` (src/P2pController.ts:194-200), so its `auth` receives the introduction string, and `auth.digest` throws a `TypeError` | any verified `auth-request` on a waiting coming connection: nothing is promoted and no `auth-ok` is sent | `validateConnection(connectionID, c.remoteID, publicKey, name, auth)` | not executed; arity mismatch visible in the text | Coming.ValidatedAsWritten (shown by Coming.AsWrittenNeverPromotes) | Coming.Validated (proved in Coming.AuthRequestDecidedBySignature) |

The rest of the model, including `Dispatch` and `Controller`, uses the
corrected members.

## Left out

- Transport: `ConnectionBundler` is empty stubs around the skyway `Peer`. The model records the actions asked of it in a trace and delivers nothing. The id `connect` hands out is a parameter of `connect`.
- Cryptography internals: signing, verification, SHA-256, JWK import, `atob` and `btoa` are uninterpreted. Unforgeability is assumed only through the named hypothesis `SignaturesBindMessages`.
- Auth.Verify: a `verify` call that throws (undecodable base64, an unimportable key) is `None`. The model does not tell the two apart, nor model the order in which they fail.
- JSON: messages are the `Message` datatype. Malformed JSON and missing payload slots are not modelled; a missing slot would arrive as `undefined`.
- Async interleaving: each handler is one atomic step, `await`s included. The window between `isConnect` and the stored going entry, where two connects can both pass the check, is not modelled.
- `setState` is assumed to assign the snapshot. `mergeMember` is assumed to add the row if absent. `P2pController` (src/P2pController.ts:21-239) defines neither.
- `updateUrl`, called at the end of `onClose` (src/P2pController.ts:117-121), is not defined by `DelegateValidatedConnection` (src/DelegateValidatedConnection.ts:1-41). It is left out with the URL and history handling. As written, that call would throw after the snapshot has been replaced.
- Key persistence, `getOwnKeyPair` and `generateKeys`, is localStorage I/O outside the core. src/AuthService.ts:108 returns the public key in the private-key slot, and nothing here depends on it.
- `setTrust` and `setVisibility` have empty bodies. Neither `P2pController` nor its three delegates handle `join-ok`, incoming `comment` or `profile` messages, or update user records, so none of these is modelled.
- React UI and `useSns` wiring; only the state types are used.
- Auth.StringToArrayBuffer: the byte order of `Uint16Array` is taken as little-endian, as on every platform a browser runs on.
- Auth.SignThenVerify and Auth.IdentityBinding: the payload `connectionID ++ publicKeyJson` is a plain concatenation. A different split of the same string signs the same bytes. The lemmas state binding for a fixed key only.
- Status.GoingConnection: the declared `introduce` field is never written by any operation, so it is not carried.
- Coming.OnAuthRequest: the remote's name and introduction (payload slots 2 and 3) are passed on but not stored by the promotion, so the model does not carry them.
- Going.OnAuthRequest: the going side never records the remote's public key. So `onAuthOk` promotes with key `""` and digest `digest("")` (Going.AuthOkPromotesWithoutKey). Its `auth-request` puts the room id in the slot receivers read as the name.
- Registry.ValidateConnectionKeepsValid: promoting an id that is already validated would list it twice in the validated bucket. The handlers promote only going or coming ids, so the lemma is stated for those.
