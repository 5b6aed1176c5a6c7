# Room synchronisation core of the collaborative editor server

This project models the in-memory core of the collaboration server in
`server/server.js`. The server keeps two tables:

- `rooms` maps a room id to the room's document text and its members.
- `connectedUsers` maps a socket id to the user record of that socket's latest join. It is a reverse index.

Five socket handlers work on these tables:

- `join-room` creates the room if it is unknown, records the user in the room and in the reverse index, and announces the user.
- `create-room` picks a six-character id with up to ten generator calls and installs an empty room under it.
- `text-change` replaces a room's content wholesale, so the last applied write wins.
- `cursor-position` relays a caret position to the other members.
- `disconnect` removes the socket from its room and from the reverse index. It deletes a room that becomes empty.

The model is made of five modules:

- `RoomIds` (`room_ids.dfy`) is the id generator `generateRoomId`. It is a method with the source's counting loop, specified by `Spell`, the string that a vector of alphabet indices spells. `Unspell` is its inverse.
- `Registry` (`registry.dfy`) holds the `User` and `Room` values and the invariants of the two tables. It also holds the room-table updates the handlers perform, written as pure functions (`Join`, `Leave`, `SetContent`), with lemmas about them.
- `Events` (`events.dfy`) holds the outbound payloads and the addressing rule of each event kind:
  - caller only: `room-created`, `room-joined`;
  - the room except the sender: `user-joined`, `text-changed`, `cursor-update`, `user-left`;
  - the whole room: `users-update`.
- `Sync` (`server.dfy`) holds the class `SyncServer`. It has the two maps as fields and one method per handler. Each method updates the maps step by step and returns the events it emits. Its postcondition ties the new tables to the `Registry` functions applied to the old tables.
- `Scenario` (`scenario.dfy`) is a client of `SyncServer`. It walks two participants through creating, joining, editing and leaving a room, using only the handlers' contracts.

Inputs from outside the core are parameters:

- the caller's socket id;
- six alphabet indices in [0, 36) for each generator call, with ten such vectors given to `create-room`;
- a palette index in [0, 8) for the colour and one for the avatar;
- for `join-room`, the content held by the database mirror, as `Option<string>`.

Each handler is one atomic step.

Behaviour reproduced from the code as written:

- When all ten generated ids collide, `create-room` overwrites the existing room with an empty one. The members of that room are then orphaned: their reverse-index entries no longer point at a membership. `InstallOverLiveRoomOrphans` shows this. If nobody has joined the overwriting room in the meantime, it is short-lived as well: no orphan is among its members, so the first orphan's disconnect finds it empty and deletes it (`OrphanDisconnectDeletesInstalledRoom`). Once someone has joined it, that disconnect leaves it alone (`JoinedInstalledRoomSurvivesOrphan`).
- `text-change` never checks that the sender is a member of the room it names. An unknown room is left alone and is not created.
- A socket that joins a second room moves its reverse-index entry to the new room. It stays in the first room's member table, and a later disconnect does not remove it from there. `RejoinKeepsEarlierMembership` shows this.
- Room ids and usernames are opaque strings. The server neither trims nor upper-cases them, and it does not reject empty values. That normalisation lives in the browser client only.

The server does not keep the reverse index in exact step with room membership, and `create-room` can pick the id of a live room and replace that room. The model follows the code, so what it proves is:

- every table entry is filed under its own socket id and room (`Valid`);
- "every reverse-index entry points at a live membership" (`Backed`) is kept by every handler except a `create-room` whose ten attempts all collided.

## Model

| member | source | states |
|---|---|---|
| RoomIds.GenerateRoomId | server/server.js:50-57 | The generated id is exactly six characters, all from `A-Z0-9`; character i is the alphabet letter at draw i (`Spell`). |
| RoomIds.Spell | server/server.js:51-55 | The spelled string has one character per draw, and character i is `Alphabet[draws[i]]`. |
| RoomIds.AlphabetDistinct | server/server.js:51 | No character occurs twice in the 36-character alphabet. |
| RoomIds.SpellUnspell | server/server.js:50-57 | Every six-character string over the alphabet is produced by some draw vector, namely `Unspell` of it. |
| RoomIds.UnspellSpell | server/server.js:50-57 | Different draw vectors give different ids, because `Unspell` inverts `Spell`. Together with `SpellUnspell` (every id is spelled by some draws) this makes `Spell` a bijection onto room ids, so six uniform draws give a uniform id. |
| Sync.ChooseRoomId | server/server.js:147-154 | The retry loop calls the generator between 1 and 10 times. The returned id is the last one generated. Every earlier id was already taken. If fewer than 10 calls were made, the returned id is free. |
| Sync.SyncServer.CreateRoom | server/server.js:145-177 | Same bounds on the id as `ChooseRoomId`. Afterwards `rooms[id]` is an empty room and every other room is unchanged, even when the id collided. `connectedUsers` is untouched. `room-created` goes to the caller only. Backing is kept when the id was free. |
| Sync.SyncServer.JoinRoom | server/server.js:67-143 | The room table becomes `Join` of the old one. `rooms[roomId].users[sid]` and `connectedUsers[sid]` both hold `{sid, username, palette colour, palette avatar, roomId}`. A known room keeps its content. A fresh room with no mirror hit yields `room-joined` with content `""` and a one-member `users-update`. The three events are addressed as `JoinEvents` says. Consistency and backing are preserved. |
| Sync.SyncServer.TextChange | server/server.js:179-205 | The room table becomes `SetContent` of the old one, whatever the sender's membership. `connectedUsers` is unchanged. `text-changed` goes to the room without the sender. |
| Sync.SyncServer.CursorPosition | server/server.js:207-210 | Nothing is stored. One `cursor-update` carrying the sender's id goes to every room member except the sender. |
| Sync.SyncServer.Disconnect | server/server.js:212-256 | An unknown socket changes nothing and emits nothing. A known socket leaves the room its reverse-index entry names (`Leave`) and loses that entry. The emitted events are `DepartureEvents`. Consistency and backing are preserved. |
| Sync.SyncServer.constructor | server/server.js:46-47 | Both tables start empty, which is consistent and backed. |
| Registry.MakeUser | server/server.js:92-101 | The joining user's record carries the caller's socket id, username and room id, and its colour and avatar come from the two fixed eight-entry palettes. |
| Registry.Join | server/server.js:86-108 | Exactly the joined room is added or changed. An unknown room is created with the mirror's content, or `""` without a mirror hit. A known room keeps its content. The user is filed under its socket id. The other members of the room and all other rooms are unchanged. |
| Registry.Leave | server/server.js:219-225 | An unknown room changes nothing. Otherwise the socket is dropped from the room's members, and the room is deleted exactly when the socket was its only possible member. The surviving room keeps its content and other members. Other rooms are unchanged. |
| Registry.SetContent | server/server.js:184-186 | A known room takes the new content. No room is created or removed. No membership changes, and other rooms are unchanged. |
| Registry.LastAppliedWins | server/server.js:179-186 | After any sequence of edits, each room holds the payload of the last edit addressed to it, or its old content if there was none, whatever edits to other rooms came in between. Room set and memberships are unchanged. |
| Registry.LeaveIdempotent | server/server.js:219-225 | Repeating the departure cleanup changes nothing more. |
| Registry.JoinConsistent | server/server.js:96-108 | After a join, every member entry still has `id` equal to its key, `roomId` equal to its room, and palette looks. |
| Registry.LeaveConsistent | server/server.js:219-225 | The departure cleanup keeps every member entry filed correctly. |
| Registry.SetContentConsistent | server/server.js:184-186 | A content replacement keeps every member entry filed correctly. `TextChange` relies on it. |
| Registry.RegisterConsistent | server/server.js:104 | Filing a user with palette looks under its socket id keeps every reverse-index entry filed under its own socket id. |
| Registry.UnregisterConsistent | server/server.js:243 | Dropping a reverse-index entry keeps every remaining entry filed under its own socket id. |
| Registry.JoinBacked | server/server.js:104-108 | If every reverse-index entry pointed at a live membership before a join, it still does afterwards. |
| Registry.LeaveBacked | server/server.js:213-243 | A disconnect keeps reverse-index entries backed. The departing socket's room survives while any other entry points at it. |
| Registry.SetContentBacked | server/server.js:184-186 | A content replacement keeps reverse-index entries backed. `TextChange` relies on it. |
| Registry.InstallBacked | server/server.js:158 | Installing an empty room under a free id keeps reverse-index entries backed. `CreateRoom` relies on it. |
| Registry.InstallOverLiveRoomOrphans | server/server.js:151-158 | Installing an empty room over the room of a connected socket breaks backing for that socket. |
| Registry.OrphanDisconnectDeletesInstalledRoom | server/server.js:219-225 | After an empty room is installed over a live one, a disconnect from that id that comes before anyone joins the new room deletes it and leaves every other room as it was. |
| Registry.JoinedInstalledRoomSurvivesOrphan | server/server.js:219-225 | If someone joins the freshly installed room before an orphan of the overwritten room disconnects, the room survives that disconnect with the joiner as its only member. |
| Registry.RejoinKeepsEarlierMembership | server/server.js:104-108 | After a socket joins room A, then joins room B, then leaves B, it is still in A with its earlier record. |
| Events.ScopeOf | server/server.js:125-135 | `room-created` and `room-joined` are sent to the caller alone (`socket.emit`), `users-update` to the whole room (`io.to`), and every other event to the room without the sender (`socket.to`). The same choice is made at lines 170, 200, 209, 244 and 249. |
| Events.Deliver | server/server.js:125-135 | Caller-only events reach just the sender. Whole-room events reach exactly the room's members. Room-except-sender events reach every member but never the sender. This holds for the emits at lines 125-135, 170, 200, 209, 244 and 249 alike. |
| Events.JoinEvents | server/server.js:125-135 | `room-joined` (content and own record) goes to the caller. `user-joined` goes to the members other than the caller. `users-update` (the member table) goes to all members, the caller included. |
| Events.DepartureEvents | server/server.js:243-250 | `user-left` goes to the remaining members without the sender, and is sent even if the room was deleted. A `users-update` follows exactly when the room still exists, addressed to all its members. |

## Left out

- Database mirror: every `mongoose`/`Room` call and the 24-hour expiry are not part of this model. The mirror's one effect on the in-memory tables is the content a join may hydrate a fresh room with. That content is the `hydrated` parameter.
- Interleaving of the asynchronous handlers at their `await` points: each handler is one atomic step.
- Random draws: `Math.random` is replaced by integer index parameters. Uniformity holds only in the sense of `UnspellSpell`.
- The `error` event: it is emitted only from `catch` blocks, and the in-memory paths never throw. A payload without the expected fields is not modelled either. JavaScript would destructure it to `undefined`.
- socket.io's own room table: recipients are taken from `rooms[roomId].users` at the moment of the emit. A socket that joined a second room stays listed in its first room, even after it disconnects. socket.io would stop delivering to it once it disconnects.
- `users-update` carries the member table as a map. The insertion order of the source's array is not modelled.
- Sync.SyncServer.CreateRoom: the `username` field of the request is only logged, so it is not a parameter.
- Console logging, Express, CORS, the REST endpoints and `server.listen`. The health endpoint's `activeRooms` and `connectedUsers` counts (server/server.js:286-287) are the sizes of the two maps and are not modelled separately.
- Strings are sequences of Unicode code points rather than UTF-16 code units. Nothing in the core depends on the difference.
- client/src/App.js, desktop-launcher.js and public/preload.js: user interface, process launching and the Electron bridge are not part of this model.
