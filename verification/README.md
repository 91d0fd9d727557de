# Buzzer rooms — a Dafny model

This project models the room/session state machine of a real-time buzzer
service (`src/buzzer.ts`). Clients connect over WebSockets, create or join
rooms identified by short codes, press a shared buzzer (first press wins),
and the room's host resets the buzzer, locks individual players and awards
points. The service keeps a map from room code to room and a list of
connected sockets, each possibly carrying a session (`userId`, `username`,
`roomCode`).

The model is functional. `State` holds the room map, the connection list and
the next unused socket handle; every handler is a pure function from a state,
the acting socket and the frame's fields to a `Step`: the new state plus the
outbound messages in the order the handler writes them. Sockets are
identified by handles (`ConnId`), since the service compares socket objects by
reference. The room-code generator (`Math.random`) is replaced by a
`freshCode` parameter.

Modules, leaves first:

- `Wrappers`: `Option`.
- `Types`: rooms, players, sessions, connections, inbound frames, outbound messages.
- `Players`: lookups and updates on a room's player list (`some`, `find`, join append, disconnect filter, lock flag, score annotation).
- `Registry`: the connection list (`indexOf`, `ws.data = …`, `splice`).
- `Broadcast`: the recipient filter of `broadcastToRoom`.
- `Handlers`: create, join, press, reset, lock, award, the close handler, the `type` switch and the runtime inputs.
- `Invariants`: what every transition keeps (`Valid`), and runs of inputs.
- `Properties`: properties that relate several calls, and the gaps the code leaves open.

Behaviour of the code that the model keeps:

- The frame tags are `CREATE_BUZZER_ROOM`, `JOIN_BUZZER_ROOM`, `PRESS_BUZZER`, `RESET_BUZZER`, `LOCK_PLAYER_BUZZER`, `AWARD_POINTS` and `LEAVE_BUZZER_ROOM`. The reply to a locked press has type `BUZZER_LOCK`.
- The active buzzer need not be a player of the room. A press by a user who is not in the room wins, because an absent player is not locked. A disconnect also leaves the buzzer as it was. `Properties.NonPlayerCanHoldBuzzer` and `Properties.LeaverKeepsBuzzer` state this.
- Joining a missing code creates a room under a newly generated code, not under the requested one.
- The close handler removes every entry that carries the leaver's user id.
- The close handler skips the cleanup when the session's room code is the empty string, because it tests the code for truthiness.
- A generated code that collides with a live room replaces that room. `CreateRoom` models this overwrite.
- A socket that creates or joins a second room loses its session for the first. Its player entry stays in the first room even after that socket closes (`Properties.StaleMembership`).
- The host gate compares the room's host with the acting socket's session user. It does not check that the session belongs to that room.
- A press names the presser by the frame's `userId`, not by the socket's session.

## Model

| member | source | states |
|---|---|---|
| Players.FindPlayer | src/buzzer.ts:90 | the first player with the id, or none exactly when no player has it |
| Players.AddPlayer | src/buzzer.ts:63-68 | join appends the user at the end only when its id is absent; otherwise the list is unchanged; existing players keep their positions; membership grows by exactly the joiner; ids stay unique |
| Players.RemovePlayer | src/buzzer.ts:211 | the disconnect filter keeps only entries of the list whose id differs, never more entries than before |
| Players.RemovePlayerMembers | src/buzzer.ts:211 | after removal, a user is a player exactly when it was one and is not the leaver |
| Players.RemovePlayerUnique | src/buzzer.ts:211 | removal keeps ids unique |
| Players.RemoveEveryone | src/buzzer.ts:211-214 | removing the id all entries share leaves the list empty |
| Players.RemoveAbsent | src/buzzer.ts:211 | removing an id nobody has changes nothing |
| Players.RemoveConcat | src/buzzer.ts:211 | the disconnect filter distributes over concatenation of player lists |
| Players.RemoveUniqueIsSplice | src/buzzer.ts:211 | with unique ids, removal deletes exactly the matching entry and keeps the others in order |
| Players.WithScores | src/buzzer.ts:151-154 | the broadcast list carries every player in order with its score, 0 when it has none |
| Players.SetLocked | src/buzzer.ts:128-130 | locking sets the first matching entry's flag to the requested value and leaves every other entry unchanged; ids, names, positions and members are kept |
| Players.SetLockedEffect | src/buzzer.ts:128-130 | the target's lock state becomes the requested flag; every other player's lock state is unchanged; an absent target changes nothing |
| Registry.IndexOf | src/buzzer.ts:206-207 | the first position of the socket in the list, or none exactly when it is not registered |
| Registry.SetSession | src/buzzer.ts:55 | setting a socket's session makes it that socket's session and touches no other socket |
| Registry.RemoveAt | src/buzzer.ts:228 | the splice removes one entry and shifts the rest down |
| Registry.RemoveAtUnregisters | src/buzzer.ts:228 | with unique sockets, the splice unregisters exactly the closing socket |
| Broadcast.BroadcastToRoom | src/buzzer.ts:32-40 | nothing is sent for a missing room; otherwise the message goes to the recipients in list order |
| Broadcast.RecipientsExact | src/buzzer.ts:36-37 | a socket receives a broadcast exactly when it is in the list, OPEN, and its session names the room |
| Broadcast.RecipientsOnce | src/buzzer.ts:36-40 | with unique sockets, nobody receives a broadcast twice |
| Broadcast.ListenerReceives | src/buzzer.ts:36-39 | every listening socket of a live room receives the message |
| Broadcast.NonListenerMisses | src/buzzer.ts:36-37 | a socket that is not listening on the room receives nothing |
| Handlers.CreateRoom | src/buzzer.ts:44-57 | the new room has the caller as host and only player, no scores and no active buzzer; other rooms are unchanged; a room already under the code is replaced; the caller's session moves to the room; only the caller is told |
| Handlers.JoinRoom | src/buzzer.ts:59-84 | a missing code behaves exactly as create under the generated code; otherwise only the joined room's player list changes (join update), the caller's session moves to it, `ROOM_JOINED` goes to the caller, then `PLAYER_JOINED` is broadcast |
| Handlers.PressBuzzer | src/buzzer.ts:86-112 | a missing room does nothing; a locked presser gets one `BUZZER_LOCK` reply and nothing changes; an active buzzer is never replaced; otherwise the presser becomes the active buzzer, only that changes, and `BUZZER_PRESSED` is broadcast |
| Handlers.ResetBuzzer | src/buzzer.ts:114-122 | a missing room or a caller who is not host changes nothing and sends nothing; otherwise the active buzzer is cleared, only that changes, and `BUZZER_RESET` is broadcast |
| Handlers.LockPlayerBuzzer | src/buzzer.ts:124-138 | non-host callers, missing rooms and absent targets change nothing and send nothing; otherwise only the target's flag changes and `PLAYER_BUZZER_LOCKED` is broadcast |
| Handlers.AwardPoints | src/buzzer.ts:140-161 | non-host callers change nothing; otherwise the target's score is its old score (0 if none) plus the points, of either sign, no other score changes, and the scores go out with every player's score |
| Handlers.DepartureRoom | src/buzzer.ts:207-210 | a closing socket leaves a room exactly when it is registered and its session names a live room by a non-empty code, and that room is the session's room |
| Handlers.Disconnect | src/buzzer.ts:205-230 | an unregistered socket changes nothing; otherwise the socket is spliced out; players with the session user leave the room; an emptied room is deleted; a departing host is replaced by the first remaining player; `PLAYER_LEFT` goes out with the leaver's channel closed; other rooms are unchanged |
| Handlers.Dispatch | src/buzzer.ts:177-202 | each recognised tag runs its handler on the fields it reads; `LEAVE_BUZZER_ROOM` and unknown tags change nothing and send nothing |
| Handlers.Apply | src/buzzer.ts:170-230 | an upgrade registers a fresh socket with no session; a frame is dispatched; a channel leaving OPEN stops being a recipient; a closed channel runs the close handler |
| Invariants.InitValid | src/buzzer.ts:23-24 | the empty service is valid |
| Invariants.CreateKeepsValid | src/buzzer.ts:44-55 | create, even over a live code, keeps every room keyed by its code, non-empty, duplicate-free and with its host a member |
| Invariants.JoinKeepsValid | src/buzzer.ts:59-78 | join keeps the room invariants |
| Invariants.DisconnectKeepsValid | src/buzzer.ts:211-228 | disconnect keeps every surviving room non-empty with unique ids and its host a member, and the sockets unique |
| Invariants.DispatchKeepsValid | src/buzzer.ts:177-202 | every frame keeps the invariants |
| Invariants.ApplyKeepsValid | src/buzzer.ts:170-230 | every runtime input keeps the invariants |
| Invariants.RunKeepsValid | src/buzzer.ts:170-230 | every state reachable by a run of inputs from a valid state is valid |
| Properties.FirstPressWins | src/buzzer.ts:102-111 | of two presses on a free buzzer, the first unlocked presser wins and the second changes nothing and broadcasts nothing |
| Properties.NonPlayerCanHoldBuzzer | src/buzzer.ts:90-104 | on a valid state, a press by a user who is not a player still takes the buzzer |
| Properties.LeaverKeepsBuzzer | src/buzzer.ts:211-224 | a disconnect does not clear the active buzzer of a surviving room |
| Properties.JoinerHearsPlayerJoined | src/buzzer.ts:70-76 | a joiner with an open socket is told `ROOM_JOINED` first and also receives its own `PLAYER_JOINED` |
| Properties.LeaverMissesPlayerLeft | src/buzzer.ts:220-224 | the closing socket never receives the `PLAYER_LEFT` it causes |
| Properties.PlayerLeftReachesSurvivors | src/buzzer.ts:220-228 | `PLAYER_LEFT` reaches exactly the sockets that stay registered, are open and whose session names the room |
| Properties.StaleMembership | src/buzzer.ts:70 | a user whose socket moves to another room stays a player of the first room, even after that socket closes |
| Properties.SoleLeaverDeletesRoom | src/buzzer.ts:211-214 | when the last player leaves, the room's code no longer resolves |
| Properties.HostLeavesPromotesFirst | src/buzzer.ts:216-218 | a departing host is replaced by the first remaining player in join order, who is a member |
| Properties.JoinStepKeepsOrder | src/buzzer.ts:63-68 | one more join keeps the player list in first-join order with no duplicate |
| Properties.JoinAllFirstJoinOrder | src/buzzer.ts:63-68 | after any sequence of joins, the players are the old ones followed by one entry per new id, in first-join order, with no id twice |

## Left out

- The HTTP router, the upgrade check (501 when not upgradable) and `main.ts` (CORS, environment file, port, `/get_cookies`, listen). They are plumbing with no room state.
- `JSON.parse` and `JSON.stringify`. Frames are modelled as a tag plus a record of fields, and outbound messages as a datatype. A frame that fails to parse is not modelled.
- Missing or ill-typed payload fields are not modelled. Examples: an undefined `userId`, a non-boolean `lock`, or string `points` that `+=` would concatenate. Every field is present and well typed.
- `generateRoomCode`. It uses `Math.random`, so the generated code is the `freshCode` parameter.
- `console.log` calls.
- The player `status` field. No handler writes it.
- Handlers.AwardPoints: scores are unbounded integers, not JavaScript doubles. Rounding of very large scores and NaN are not modelled. Neither are score keys inherited from the object prototype.
- Handlers.Dispatch: a frame on a socket that is not registered cannot arise, because sockets are registered on upgrade. The model handles it with no session.
- `ws.send` raising on a socket that is not open. Replies to the caller are always recorded.
- The moment a channel leaves the OPEN state is chosen by the runtime. It is modelled as a separate `Closing` input.
- Concurrency. Handlers run to completion on a single-threaded event loop, so each transition is atomic.
