# BadZoomFastApi, modelled in Dafny

This project models the logic of the BadZoomFastApi video-conferencing
repository. It covers five groups:

- **Relays.** Four WebRTC signalling relays:
  - the socket.io mesh relay;
  - the FastAPI WebSocket relay;
  - the room relay of the single-page call;
  - the socket.io relay with rooms.
- **Browser clients.** Two clients that keep one peer connection per remote id:
  - the mesh page;
  - the Angular component.
- **Chat.** The chat pipeline: the message validator, the chat WebSocket server with its access gate and history, and the chat page.
- **Registration and sign-in.** These rules:
  - the two browser form validators;
  - the registration endpoint;
  - the auth database layer (initialisation flag, user repository and sign-in decision).
- **Room codes.** Drawing room codes.

The model keeps each source file in its own form:

- **State.** An object or module whose state changes in place becomes a `class` with `modifies` clauses. Its loops stay loops, with invariants.
- **Pure code.** Pure code becomes functions with named results, plus lemmas about them.
- **Outside events.** These become parameters rather than actions:
  - a library call whose outcome the code awaits (an SDP offer, `getUserMedia`, a `send_json` that may raise `WebSocketDisconnect` or another exception, `jwt.decode`, `SimpleCookie`, a random draw);
  - the ORM's tables, which are modelled as sequences.
- **Opaque handles.** Connections are opaque handles. `setRemoteDescription`, `addIceCandidate`, `close` (mesh page) and `addTrack` (Angular component) are logged in a field. On the mesh page `addTrack` shows only in the senders it records. `createOffer`, `createAnswer` and `setLocalDescription` leave no log entry: whether the offer or answer step succeeds is a parameter.

`composition.dfy` states how the parts meet:

- An Angular answer is addressed to the caller's own `wsId`. The FastAPI relay never registered that id, so the answer is dropped.
- A chat message and its correction sent under one `htmlid` leave a single paragraph showing the correction.
- A password of three characters outside the Basic Multilingual Plane passes the browser's six-unit check, but the endpoint rejects it as too short.
- The browser never checks the patronymic, so it accepts a form without one; the endpoint answers that form with 422.

## Model

| member | source | states |
|---|---|---|
| Common.Trim | chat_main/validator/processor.py:45 | the result is the text without its leading and trailing whitespace and is a slice of it |
| Common.TrimEmptyIff | chat_main/validator/processor.py:45-47 | stripping leaves nothing exactly when every character is whitespace |
| Common.TrimIdempotent | chat_main/static/js/script.js:21 | stripping twice is stripping once |
| Common.Key | webrtc_front/public/main.js:184-185 | an absent `from` is looked up as the property "undefined"; a present one as itself |
| MeshRelay.Broadcast | webrtc_front/server.js:16 | the event reaches every socket of the given set, once, and no other |
| MeshRelay.Route | webrtc_front/server.js:19-35 | a relayed event goes unchanged, under its own name, to `users[data.to]` only; with an unknown `to` nothing is emitted |
| MeshRelay.Server.constructor | webrtc_front/server.js:9 | the table starts empty |
| MeshRelay.Server.Connect | webrtc_front/server.js:11-16 | the table gains exactly the new id; every earlier socket, and not the newcomer, gets `new-user` |
| MeshRelay.Server.Relay | webrtc_front/server.js:19-35 | emits `Route` of the event and never changes the table |
| MeshRelay.Server.Disconnect | webrtc_front/server.js:37-41 | removes exactly the leaver and tells every remaining socket its id |
| MeshRelay.NewUserReachesOthersOnly | webrtc_front/server.js:13-16 | the newcomer is never told about itself, and each earlier socket is |
| MeshRelay.DepartedPeerIsDropped | webrtc_front/server.js:20-39 | after a disconnect, anything addressed to the departed id is dropped |
| PeerRelay.Registered | webrtc_backand/main.py:18 | adds the id at the end of the dict order, or keeps it in place, and keeps the others |
| PeerRelay.Without | webrtc_backand/main.py:31 | removes exactly that id, keeps the others in order, keeps ids unique |
| PeerRelay.NewPeerNotices | webrtc_backand/main.py:21-23 | a `new-peer` notice from the id to each other client and never to the newcomer |
| PeerRelay.Route | webrtc_backand/main.py:27-29 | the object goes unchanged to a present, non-empty, registered `to`, and otherwise nowhere |
| PeerRelay.Relay.constructor | webrtc_backand/main.py:5 | no clients |
| PeerRelay.Relay.Connect | webrtc_backand/main.py:17-31 | registers the newcomer and sends the notices up to the first send that raises; a `WebSocketDisconnect` there deletes the newcomer and keeps the failed peer, any other exception leaves the newcomer listed |
| PeerRelay.Reached | webrtc_backand/main.py:21-23 | the loop gets exactly as far as the first other client whose send raises |
| PeerRelay.AnnounceFault | webrtc_backand/main.py:21-23 | the loop ends without a fault exactly when no other client's send raises |
| PeerRelay.Relay.Announce | webrtc_backand/main.py:21-23 | the loop over the clients sends `NewPeerNotices` of the clients it reaches and reports the fault it stopped at |
| PeerRelay.Relay.Handle | webrtc_backand/main.py:25-31 | a frame is routed and the table is kept; a forward that raises `WebSocketDisconnect` deletes the sender and keeps the addressee, any other exception ends the loop and keeps the table; a disconnect deletes only the leaver and notifies nobody; a frame that is not a JSON object ends the loop and leaves the entry |
| PeerRelay.FaultFreeAnnounce | webrtc_backand/main.py:21-23 | when no send raises, every other client is reached and the loop reports no fault |
| PeerRelay.GoneNoticeDropsNewcomer | webrtc_backand/main.py:17-31 | a notice that raises `WebSocketDisconnect` restores the table of before the connect, in which the failed peer is still listed |
| PeerRelay.WithoutUndoesRegistered | webrtc_backand/main.py:17-31 | registering a fresh id and deleting it restores the table |
| PeerRelay.WithoutAbsent | webrtc_backand/main.py:31 | deleting an id that is not there changes nothing |
| PeerRelay.WithoutAppend | webrtc_backand/main.py:17-31 | deleting from a concatenation deletes from each part |
| RoomRelay.Joined | video_webcam/signaling.py:11-13 | the room gains the connection, created if absent, and other rooms are unchanged |
| RoomRelay.Left | video_webcam/signaling.py:21-23 | the room loses the connection and disappears if empty; other rooms are unchanged; no room is ever empty |
| RoomRelay.LeaveUndoesJoin | video_webcam/signaling.py:11-23 | joining and then leaving, with nobody else moving, restores the table |
| RoomRelay.Hub.constructor | video_webcam/signaling.py:6 | no rooms |
| RoomRelay.Hub.Join | video_webcam/signaling.py:11-13 | the table becomes `Joined` of the old one |
| RoomRelay.Hub.Leave | video_webcam/signaling.py:20-23 | the table becomes `Left` of the old one |
| RoomRelay.Hub.Broadcast | video_webcam/signaling.py:16-19 | the object goes to each other connection of that room at most once, never to the sender, another room or a connection whose send raised; with no raising send it reaches all of them, and otherwise the fault is one such send's |
| RoomRelay.Hub.Receive | video_webcam/signaling.py:14-23 | a received object is broadcast to the other members, each addressed once; a send that raises `WebSocketDisconnect` takes the sender out of its room, and any other exception leaves the table; a frame that is not JSON ends the loop with nothing sent and the sender still in its room; a disconnect takes the sender out |
| RoomRelay.GoneSendKeepsDeadPeer | video_webcam/signaling.py:20-23 | after that removal the connection whose send failed is still in the room |
| RoomSignal.Members | front/server.js:26 | the room's sockets: those that joined it, plus the socket whose id is its name |
| RoomSignal.OtherUsers | front/server.js:26 | the members without the joiner |
| RoomSignal.Server.constructor | front/server.js:8 | nobody connected |
| RoomSignal.Server.Connect | front/server.js:8 | a socket with an id no connected socket holds is connected, in no named room and without `socket.room`; named rooms hold only connected sockets |
| RoomSignal.Server.Relay | front/server.js:11-21 | a relayed event goes unchanged, under its own name, to the room named `data.to`, except the sender |
| RoomSignal.Server.Join | front/server.js:23-28 | the socket joins the room, `socket.room` is set, and only the joiner gets `users` with the other members |
| RoomSignal.Server.Disconnect | front/server.js:30-32 | the socket leaves every room and nobody is told |
| RoomSignal.JoinReplyIsTheOthers | front/server.js:24-27 | after a join the joiner is a member and the reply is exactly the other members |
| RoomSignal.RelayToPeerId | front/server.js:12 | addressed to a connected socket's id that no one joined as a room name, the event reaches exactly that socket |
| Media.WithKindEnabled | webrtc_front/public/main.js:119-130 | tracks of that kind carry the flag, others are unchanged, order and length are kept |
| Media.SetKindEnabled | webrtc_front/public/main.js:119-130 | the `forEach` loop computes `WithKindEnabled` |
| Media.FirstOfKind | webrtc_front/public/main.js:70-71 | the first track of the kind, or none when there is none |
| Media.LastOfKind | webrtc_front/public/main.js:153-156 | the last track of the kind, or none when there is none |
| Media.Opacity | webrtc_front/public/main.js:67-74 | "0" exactly when there is a first track of the kind and it is enabled, "1" otherwise |
| MeshClient.Retagged | webrtc_front/public/main.js:120-131 | a recorded sender of that kind takes the flag, a missing one stays missing, the other kind is unchanged |
| MeshClient.AllRetagged | webrtc_front/public/main.js:120-131 | every pair of the map is retagged, and the keys are kept |
| MeshClient.RetagAll | webrtc_front/public/main.js:120-131 | the loop over `senders` computes `AllRetagged` |
| MeshClient.Attach | webrtc_front/public/main.js:150-157 | from `{video:null,audio:null}`, each kind records the flag of its last track, or stays null |
| MeshClient.LastOfKindAgrees | webrtc_front/public/main.js:119-157 | when all tracks of a kind carry a flag, the recorded sender does too |
| MeshClient.Client.constructor | webrtc_front/public/main.js:11-15 | no stream, no peers, both flags on |
| MeshClient.Client.CreatePeerConnection | webrtc_front/public/main.js:141-170 | a fresh handle, with `senders[id]` set from the local stream and all else unchanged; the callers store the handle in `peers`, which restores one key set |
| MeshClient.Client.OnNewUser | webrtc_front/public/main.js:173-181 | stores a fresh peer under the id; on success emits an offer to that id from the client's own id |
| MeshClient.Client.OnOffer | webrtc_front/public/main.js:183-192 | always a new peer under `data.from`, replacing any old one, and an answer to `data.from` on success |
| MeshClient.Client.OnAnswer | webrtc_front/public/main.js:194-198 | the sender's peer gets the description; from an unknown sender nothing changes |
| MeshClient.Client.OnRemoteCandidate | webrtc_front/public/main.js:200-204 | the sender's peer gets the candidate; from an unknown sender nothing changes |
| MeshClient.Client.OnUserDisconnected | webrtc_front/public/main.js:206-209 | closes a present peer and removes the id from both maps; a repeat is a no-op |
| MeshClient.Client.OnLocalCandidate | webrtc_front/public/main.js:160-164 | a candidate is emitted to the peer's id from the client's own id; an empty one is not |
| MeshClient.Client.ToggleVideo | webrtc_front/public/main.js:116-123 | without a stream nothing happens; otherwise the flag flips and every video track and recorded video sender takes it |
| MeshClient.Client.ToggleAudio | webrtc_front/public/main.js:127-134 | the same for audio |
| MeshClient.Client.StartLocalStream | webrtc_front/public/main.js:81-98 | success stores the stream and emits `ready`; a first failure schedules a retry; a second alerts |
| MeshClient.Client.Boot | webrtc_front/public/main.js:107 | on page load off iOS: at most two attempts, a second exactly when the first fails, and an alert exactly when both fail |
| AngularPeer.Component.constructor | webrtc_frontend/angular-rtc-app/src/app/app.component.ts:16-22 | no stream, no peers, not connected |
| AngularPeer.Component.Start | webrtc_frontend/angular-rtc-app/src/app/app.component.ts:30-48 | without a stream it stops before connecting; otherwise keeps the stream as the current one and connects |
| AngularPeer.Component.CreatePeer | webrtc_frontend/angular-rtc-app/src/app/app.component.ts:84-116 | a no-op for a known id; otherwise stores a fresh peer, given the current stream's own track objects so that it sends them as they are at any later time, before an initiator's offer, which goes to the peer from `wsId`; rejects exactly when an initiator's `createOffer` or `setLocalDescription` rejects, with the peer already stored |
| AngularPeer.Component.OnOffer | webrtc_frontend/angular-rtc-app/src/app/app.component.ts:58-64 | a non-initiator peer for `from`, the offer applied, and an answer to `from` with no `from` member; throws, sending nothing, exactly when `setRemoteDescription`, `createAnswer` or `setLocalDescription` rejects |
| AngularPeer.Component.OnAnswer | webrtc_frontend/angular-rtc-app/src/app/app.component.ts:66-68 | applies the answer to a known peer; throws for an unknown one and when `setRemoteDescription` rejects |
| AngularPeer.Component.OnIceCandidate | webrtc_frontend/angular-rtc-app/src/app/app.component.ts:70-74 | adds the candidate to a known peer, throwing exactly when `addIceCandidate` rejects; an unknown one is ignored |
| AngularPeer.Component.HandleSignal | webrtc_frontend/angular-rtc-app/src/app/app.component.ts:51-80 | ignores its own messages and unknown types; dispatches the rest; throws exactly when one of the dispatched steps throws: a rejected step of an offer, an answer for an unknown peer or a rejected description, a rejected candidate for a known peer, a rejected offer for a new peer; peers only gain |
| AngularPeer.Component.OnLocalCandidate | webrtc_frontend/angular-rtc-app/src/app/app.component.ts:92-98 | a candidate goes to the peer from `wsId`; an empty one does not |
| AngularPeer.Component.OnTrack | webrtc_frontend/angular-rtc-app/src/app/app.component.ts:101-104 | a stream is listed once |
| AngularPeer.Component.ToggleVideo | webrtc_frontend/angular-rtc-app/src/app/app.component.ts:118-121 | the flag flips; the stream's video tracks take it; every connection given the current stream's tracks now sends its video with the new flag; without a stream it throws after the flip |
| AngularPeer.Component.ToggleAudio | webrtc_frontend/angular-rtc-app/src/app/app.component.ts:123-126 | the same for audio |
| Validator.Sanitize | chat_main/validator/processor.py:50 | each disallowed character becomes one space; length and allowed characters are kept |
| Validator.SanitizeFixesExactlyAllowed | chat_main/validator/processor.py:12-50 | the result is fully allowed, and it equals the input exactly when the input was |
| Validator.Lower | chat_main/validator/processor.py:53 | the same length, character by character, lowering A-Z and the Cyrillic capitals as `str.lower` does; allowed characters stay allowed, and no A-Z or U+0400-U+042F remains |
| Validator.LowerIdempotent | chat_main/validator/processor.py:53 | lowering a lowered text changes nothing |
| Validator.MatchesAreComplete | chat_main/validator/processor.py:56 | every match is an occurrence of a non-empty key, every occurrence is found, and there is a match exactly when a ban word occurs |
| Validator.Censored | chat_main/validator/processor.py:54-58 | positions inside a match become `*`, others are kept, and the length is kept |
| Validator.Censor | chat_main/validator/processor.py:54-58 | the slice assignments on the buffer compute `Censored` |
| Validator.Validation | chat_main/validator/processor.py:42-63 | empty, then charset, then ban words, each with its reason and replacement; valid exactly when none applies; the censored text stars exactly the covered positions |
| Validator.Validate | chat_main/validator/processor.py:42-63 | the step-by-step validator computes `Validation` |
| Validator.ValidationIgnoresSurroundingSpace | chat_main/validator/processor.py:45 | surrounding whitespace does not change the verdict |
| Validator.TrimKeepsAllowed | chat_main/validator/processor.py:45-49 | stripping an allowed text leaves it allowed |
| Validator.ReplacementPassesCharset | chat_main/validator/processor.py:47-61 | any replacement the validator proposes is fully allowed |
| Validator.ProcessMessage | chat_main/validator/processor.py:67-74 | "not required" when valid, the validator's replacement when not |
| Validator.LoadBanWords | chat_main/validator/processor.py:34-37 | one stripped entry per line |
| Validator.BuildAutomaton | chat_main/validator/processor.py:25-30 | the keys are the non-empty words, each once |
| ChatServer.FirstCookie | chat_main/main.py:94-100 | the value of the first header whose lower-cased name is `cookie`, or none |
| ChatServer.FindCookieHeader | chat_main/main.py:94-100 | the loop with its `break` computes `FirstCookie` |
| ChatServer.ParseCookies | chat_main/main.py:81-86 | `{}` for a missing or empty header |
| ChatServer.AuthUser | chat_main/main.py:102-111 | a user exactly when a non-empty access cookie decodes to claims of type "access" |
| ChatServer.UserName | chat_main/main.py:120 | "last first[0].middle[0].", and none when a claim is missing or an initial is empty |
| ChatServer.UserNameKeepsLastNameAndInitials | chat_main/main.py:120 | two names are equal exactly when the last names and both initials are |
| ChatServer.Visible | chat_main/main.py:126-128 | the visible messages of the room, and only those |
| ChatServer.VisibleKeepsOrder | chat_main/main.py:126-129 | filtering keeps the id order |
| ChatServer.HistoryIsLatest | chat_main/main.py:124-133 | the history is the room's latest min(50, n) visible messages, oldest first |
| ChatServer.HistoryFrames | chat_main/main.py:133-141 | one frame per history message, in order, to the new socket |
| ChatServer.Deliver | chat_main/main.py:205-211 | each client is sent the data once unless it fails, and the failing ones are listed as dead |
| ChatServer.Server.constructor | chat_main/main.py:36 | no clients, no messages |
| ChatServer.Server.Fanout | chat_main/main.py:194-213 | sends to every client that does not fail, removes exactly those that do, and never adds one |
| ChatServer.Server.Connect | chat_main/main.py:92-141 | a rejected token closes with 1008 before registration; otherwise the socket is registered and, with a name, gets the history up to the first send that raises; the receive loop starts exactly when the name is formed and no history send raises |
| ChatServer.Server.OnText | chat_main/main.py:146-167 | the original goes first; a rejected text is sent again as the replacement under the same id; the stored text is the one sent last |
| ChatServer.Server.Leave | chat_main/main.py:169-170 | removes the socket, and raises when a failed send already removed it |
| ChatPage.Lookup | chat_main/static/js/script.js:8-9 | the first paragraph with the id; never found for the empty id |
| ChatPage.UpsertShape | chat_main/static/js/script.js:8-16 | a known id changes only its own paragraph; a new one appends at the end; ids stay unique |
| ChatPage.UpsertLastWins | chat_main/static/js/script.js:8-16 | of two messages under one non-empty id, the later one shows |
| ChatPage.Page.constructor | chat_main/static/js/script.js:2-3 | an empty page |
| ChatPage.Page.Find | chat_main/static/js/script.js:8 | the search computes `Lookup` |
| ChatPage.Page.OnMessage | chat_main/static/js/script.js:6-18 | the paragraphs become the upsert of `sender: text` under the id |
| ChatPage.Page.Type | chat_main/static/js/script.js:21 | the input holds what was typed |
| ChatPage.Page.SendMessage | chat_main/static/js/script.js:20-27 | sends the trimmed text and clears the input only when it is not blank |
| ChatPage.Page.OnKeyDown | chat_main/static/js/script.js:31-36 | Enter does what the send button does, other keys nothing |
| ChatPage.SentTextIsTrimmed | chat_main/static/js/script.js:21-23 | what is sent is not blank and has no surrounding whitespace |
| FormRules.FirstAt | auth_reg/static/js/script.js:14 | the index of the first `@`, or none when there is none |
| FormRules.EmailOkIffPattern | auth_reg/static/js/script.js:14-15 | the check accepts exactly the strings of the form part@part.part, where no part is empty or holds `@` or whitespace |
| FormRules.EmailOkMatches | auth_reg/static/js/script.js:14-15 | an accepted string splits as the pattern requires |
| FormRules.MatchesEmailOk | auth_reg/static/js/script.js:14-15 | a string of the pattern's shape is accepted |
| FormRules.JsLength | auth_reg/static/js/script.js:39 | between one and two units per character, and one each when all are in the Basic Multilingual Plane |
| FormRules.TrimmedAtLeastNeedsText | auth_reg/static/js/script.js:21-37 | a field that passes a trimmed-length rule is not blank |
| RegisterForm.ValidateForm | auth_reg/static/js/script.js:2-51 | accepts exactly when all six checks pass; otherwise returns the first failing check in source order |
| RegisterForm.MiddleNameNeverChecked | auth_reg/static/js/script.js:2-51 | the patronymic does not affect the verdict |
| RegisterForm.AcceptedForm | auth_reg/static/js/script.js:14-49 | an accepted form has a pattern-shaped email, non-blank names, and a confirmed password of at least six units |
| RoomsForm.ValidateForm | rooms/static/js/script.js:2-75 | `register` runs the registration form's validator: it passes exactly when every check passes, and otherwise names the first failing check; `sign` checks only the email and then a password of six units; any other type passes |
| RoomsForm.SignReadsEmailAndPassword | rooms/static/js/script.js:52-71 | `sign` reads neither names nor confirmation |
| RoomsForm.RegisteredFormSigns | rooms/static/js/script.js:4-71 | a form that passes `register` passes `sign` |
| Registration.MissingFields | auth_reg/main.py:38-44 | the required form fields whose value is empty; none exactly when every field is filled |
| Registration.Decide | auth_reg/main.py:36-84 | an empty required field gets FastAPI's 422 before the body runs; then the guards run in order (the `@`, the confirmation, six characters, a new email), each a 400 with its detail re-wrapped; success creates the record with id n+1 and no password |
| Registration.RegisterKeepsValid | auth_reg/main.py:59-71 | ids 1..n in order and unique emails are kept, and earlier records are unchanged |
| Registration.RegisteredEmailIsRejected | auth_reg/main.py:59-60 | once an email is registered, no later attempt with it creates a record, and one with every field filled is rejected with a 400 |
| Registration.Registry.constructor | auth_reg/main.py:20 | an empty list |
| Registration.Registry.Register | auth_reg/main.py:36-84 | the reply is `Decide` and the list grows by the record on success only |
| UserStore.DatabaseManager.constructor | auth_reg/database.py:20-23 | not initialized |
| UserStore.DatabaseManager.InitDb | auth_reg/database.py:25-43 | when initialized, the schemas are generated again, the flag stays set and only that call can raise; otherwise `generate_schemas` runs only after `Tortoise.init` succeeds, the flag is set exactly when both succeed, and a failure raises |
| UserStore.DatabaseManager.CloseDb | auth_reg/database.py:45-50 | a no-op unless initialized; otherwise closes, and clears the flag once closing succeeds |
| UserStore.DatabaseManager.Session | auth_reg/database.py:52-62 | the body runs exactly when `init_db` succeeds; `close_db` always runs and closes the connections exactly when the flag is set, as the log states; the flag ends false whenever closing succeeds, also when the body raises |
| UserStore.Patched | auth_reg/database.py:241 | the id is kept; each named field takes the given value and each field not named keeps its value |
| UserStore.ToDict | auth_reg/database.py:125-137 | exactly the nine columns other than the password |
| UserStore.ToDictHidesPassword | auth_reg/database.py:125-137 | the dictionary does not depend on the password |
| UserStore.GetSignUser | auth_reg/database.py:215-225 | "Email не найден" without that email, "Не верный пароль" when no row matches both, otherwise status true with the first row in table order that matches both |
| UserStore.UserRepository.constructor | auth_reg/database.py:96-120 | an empty table |
| UserStore.UserRepository.CreateUser | auth_reg/database.py:147-173 | appends one row with the next id and the given fields; the flags default to false |
| UserStore.UserRepository.CreateDefaultAdmin | auth_reg/database.py:175-198 | returns an existing admin row unchanged; otherwise appends one with its fixed fields and all three flags set |
| UserStore.UserRepository.GetUserById | auth_reg/database.py:200-205 | the first row with that id, or none |
| UserStore.UserRepository.GetUserByEmail | auth_reg/database.py:207-212 | the first row with that email, or none exactly when no row has it |
| UserStore.UserRepository.GetAllUsers | auth_reg/database.py:228-233 | every row, in table order |
| UserStore.UserRepository.UpdateUser | auth_reg/database.py:235-244 | none for an unknown id; otherwise the row is patched in place and the others are unchanged |
| UserStore.UserRepository.DeleteUser | auth_reg/database.py:246-255 | true exactly when the id existed; afterwards no row has it and the others are kept in order |
| RoomCodes.GenerateRoomCode | rooms/crud.py:6-7 | exactly eight characters, each a decimal digit |
| RoomCodes.CodeRoundTrip | rooms/crud.py:6-7 | the draws are read back from the code, so distinct draws give distinct codes |
| RoomCodes.GetRoomByCode | rooms/crud.py:18-23 | the room with that code, or none exactly when no room has it |
| RoomCodes.LookupIsUnique | rooms/crud.py:18-23 | with unique codes, the room found is the one that holds the code |
| RoomCodes.RoomTable.constructor | rooms/models.py:4-9 | no rooms |
| RoomCodes.RoomTable.Exists | rooms/crud.py:12 | true exactly when a room holds the code |
| RoomCodes.RoomTable.CreateRoom | rooms/crud.py:10-15 | the first candidate code that no room holds is chosen, earlier ones all being taken; exactly one room with it is added; codes stay unique |
| Composition.AngularAnswerIsDropped | webrtc_frontend/angular-rtc-app/src/app/app.component.ts:58-63 | the answer to an Angular offer goes to the caller's `wsId`, which the FastAPI relay drops when it is not a registered id |
| Composition.AngularOfferIsRouted | webrtc_frontend/angular-rtc-app/src/app/app.component.ts:111-114 | an offer to a registered client reaches it unchanged |
| Composition.CorrectionReplacesOriginal | chat_main/main.py:154-161 | the original and its correction under one non-empty id leave the correction showing, once |
| Composition.EmptyIdKeepsOriginal | chat_main/static/js/script.js:8-15 | under an empty id both the original and the correction stay on the page |
| Composition.AstralPasswordSplitsClientAndServer | auth_reg/static/js/script.js:39 | a form the browser accepts is rejected by the endpoint, because the password is six UTF-16 units but three characters |
| Composition.EmptyPatronymicSplitsClientAndServer | auth_reg/main.py:41 | a form the browser accepts with an empty patronymic is answered with 422 naming `middle_name` |

## Left out

- **Transport.** The following are not modelled:
  - socket.io and WebSocket transport, and the ordering of `await`s;
  - `asyncio.create_task` concurrency;
  - the HTTP layer with its templates and redirects.
- **Handler steps.** Each handler is one atomic step.
- **Peer connections.** Connection internals are opaque values: `createOffer`, `setRemoteDescription`, `addIceCandidate`, `track.clone` and the JSEP semantics of RFC 8829. Whether the awaited steps succeed is a parameter.
- **Glare resolution.** No file implements glare, so there is none in the model.
- **DOM and UI.** Left out: element creation, video elements, styles, button labels, scrolling, animations, focus and `showError`.
  - `updateLocalIndicators` is represented only by `Media.Opacity`.
- **Retry timer.** The 15-second media retry appears only as a scheduled-retry outcome.
- **JWT.** Signing and verification, and the refresh call, are left out. `jwt.decode` is a parameter function.
- **Cookies.** `SimpleCookie` is a parameter function, apart from its empty-header case.
- **Ban-word list.** The Aho-Corasick library is replaced by plain substring search over the keys. Empty keys never match.
- **Character classes.** Unicode `\w` is approximated by Latin letters and digits, `_`, and the Cyrillic block without U+0482-U+0489, its thousands sign and combining marks, which Python does not count as word characters. `\s`, `strip` and `trim` are approximated by space, tab, newline, carriage return, vertical tab and form feed. The sources also count U+00A0, U+1680, U+2000-U+200A, U+2028, U+2029, U+202F, U+205F and U+3000 (JavaScript adds U+FEFF, Python U+001C-U+001F and U+0085). So "привет\u00a0мир" passes the chat validator's character check in the source but is rejected with "Недопустимые символы" in the model, and a name made only of no-break spaces is blank to the browser's `trim` but not to the model's.
- **Lowercasing.** `str.lower` is modelled on the characters the allow-list admits, ASCII Latin and the Cyrillic block U+0400-U+04FF, where it maps one character to one; characters outside the allow-list never reach it. The chat server's lowering of header names uses the same function.
- **`validator.id_in_html`.** It is not part of this model. The message id is a parameter.
- **Database.** The SQL and Tortoise tables are sequences in id order, and `order_by(id.desc())` is the reverse.
  - Transactions (`DatabaseManager.transaction`) and the rollback are left out.
  - The `session` around each repository call is modelled separately, in `UserStore.DatabaseManager.Session`.
  - `max_length` limits other than the room code's are not enforced.
- **Other files.** `rooms/database.py` repeats the auth database manager, and its one-call repository methods are left out. Also left out:
  - `rooms/main.py` and `chat_processor/processor.py`, which are thin handlers;
  - the Janus page and the single-peer aiortc glue.
- RoomSignal.Server.Join: the `users` reply is a set. socket.io lists the room's members in the order they joined, and that order is not modelled.
- **Serving.** Files served statically, logging, and the `__main__` block of the validator.
- UserStore.DatabaseManager.Session: the flag ends false only when closing the connections succeeds. When `close_connections` raises, the source leaves `_initialized` set, and the model states that too.
- UserStore.UserRepository.UpdateUser: `update_from_dict` is modelled on the known columns only. A key that names no column is not modelled.
- RoomCodes.RoomTable.CreateRoom: the random draws are a finite list of candidate codes. When every candidate is taken it returns none, where the source keeps drawing.
- MeshClient.Client.OnNewUser, MeshClient.Client.OnOffer: the replaced connection is not closed, as in the source. The model records only that it is no longer in `peers`.
- MeshRelay.Route, MeshRelay.Server.Relay, RoomSignal.Server.Relay: an `offer`, `answer` or `ice-candidate` event sent with no argument or with `null` is not modelled, since the event data is always a record. In the source, reading `data.to` then throws a TypeError inside the listener; nothing catches it, so the Node process ends and every socket and the whole `users` table are lost.
- ChatPage.Lookup: message ids are assumed to differ from the page's own element ids (`messages`, `messageInput`, `sendBtn`). `getElementById` searches the whole document, and the model searches only the message paragraphs.
- MeshRelay.Route, MeshRelay.Server.Relay: a `to` that names a key inherited from `Object.prototype` (`toString`, `constructor`, `__proto__`) is treated as absent. In the source `users[data.to]` is then truthy and the `emit` on it throws.
- AngularPeer.Component.Sends: a connection given the tracks of an earlier stream (`start` run a second time) has no tracks in the model; the earlier stream's track objects are not kept, and the toggles, which act on the current stream only, do not reach them in the source either.
- AngularPeer.Component.CreatePeer, AngularPeer.Component.OnOffer, AngularPeer.Component.OnAnswer, AngularPeer.Component.OnIceCandidate, AngularPeer.Component.HandleSignal: a `from` that names a key inherited from `Object.prototype` is treated as an unknown peer. In the source `this.peers[from]` is then a function: `createPeer` returns early, and the offer, answer and candidate cases throw.
- MeshClient.Client.Boot: on iOS, lines 101-105 start the stream from a button instead, once per click, with no bound on the number of attempts. That path is not modelled.
- **Access cookie.** The chat server's access cookie name is fixed at `access-name`, the default of `ACCESS_COOKIE_NAME` in `chat_main/main.py`; the environment variable that can change it is not modelled.
- ChatServer.Server.Connect: a token whose claims lack a name part leaves the socket registered with no history sent. In the source that is the exception `user_name` raises after registration.
