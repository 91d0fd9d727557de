/**
 * The event handlers of the buzzer-room service. Each takes the state and
 * the acting socket and returns the new state with the messages written,
 * in the order the handler writes them.
 */
module Handlers {
  import opened Wrappers
  import opened Types
  import opened Players
  import opened Registry
  import opened Broadcast

  /** Every socket but `c` is unchanged, and `c` keeps its place and channel state. */
  predicate OnlySessionChanged(before: seq<Connection>, after: seq<Connection>, c: ConnId) {
    && SameIds(before, after)
    && (forall i :: 0 <= i < |after| ==> after[i].open == before[i].open)
    && (forall i :: 0 <= i < |after| && before[i].id != c ==> after[i] == before[i])
  }

  /** Every room but `code` is unchanged, and no room appears or disappears. */
  predicate OnlyRoomChanged(before: map<RoomCode, Room>, after: map<RoomCode, Room>, code: RoomCode) {
    && after.Keys == before.Keys
    && (forall k :: k in before && k != code ==> after[k] == before[k])
  }

  /**
   * The host gate of the reset, lock and award handlers: the room exists and
   * the acting socket's session user is its host (`room.host === ws.data?.userId`).
   */
  predicate ActsAsHost(s: State, c: ConnId, code: RoomCode) {
    && code in s.rooms
    && SessionOf(s.conns, c).Some?
    && SessionOf(s.conns, c).value.userId == s.rooms[code].host
  }

  /**
   * `createBuzzerRoom`: a room under `code` (the generated code) with the
   * caller as host and only player; the caller's session moves to it; the
   * caller alone is told. A room already under `code` is replaced.
   */
  function CreateRoom(s: State, c: ConnId, userId: UserId, username: string, code: RoomCode): (r: Step)
    ensures r.state.rooms.Keys == s.rooms.Keys + {code}
    ensures r.state.rooms[code] == Room(code, userId, [Player(userId, username, None)], map[], None)
    ensures forall k :: k in s.rooms && k != code ==> r.state.rooms[k] == s.rooms[k]
    ensures Registered(s.conns, c) ==> SessionOf(r.state.conns, c) == Some(Session(userId, username, Some(code)))
    ensures OnlySessionChanged(s.conns, r.state.conns, c)
    ensures r.state.nextConn == s.nextConn
    ensures r.out == [Send(c, RoomCreated(r.state.rooms[code]))]
  {
    var room := Room(code, userId, [Player(userId, username, None)], map[], None);
    var conns := SetSession(s.conns, c, Session(userId, username, Some(code)));
    Step(s.(rooms := s.rooms[code := room], conns := conns), [Send(c, RoomCreated(room))])
  }

  /**
   * `joinBuzzerRoom`: on an existing room, add the caller unless a player
   * with that id is present, move the caller's session to the room, reply
   * `ROOM_JOINED` and broadcast `PLAYER_JOINED`; on a missing room, behave
   * as `createBuzzerRoom` under the generated code `freshCode`.
   */
  function JoinRoom(s: State, c: ConnId, userId: UserId, username: string, code: RoomCode, freshCode: RoomCode)
    : (r: Step)
    ensures code !in s.rooms ==> r == CreateRoom(s, c, userId, username, freshCode)
    ensures code in s.rooms ==>
      && OnlyRoomChanged(s.rooms, r.state.rooms, code)
      && r.state.rooms[code] == s.rooms[code].(players := r.state.rooms[code].players)
      && r.state.rooms[code].players == AddPlayer(s.rooms[code].players, userId, username)
      && (Registered(s.conns, c) ==> SessionOf(r.state.conns, c) == Some(Session(userId, username, Some(code))))
      && OnlySessionChanged(s.conns, r.state.conns, c)
      && r.state.nextConn == s.nextConn
      && r.out == [Send(c, RoomJoined(r.state.rooms[code]))]
                  + BroadcastToRoom(r.state.rooms, r.state.conns, code, PlayerJoined(r.state.rooms[code].players))
  {
    if code in s.rooms then
      var room := s.rooms[code];
      var room' := room.(players := AddPlayer(room.players, userId, username));
      var rooms := s.rooms[code := room'];
      var conns := SetSession(s.conns, c, Session(userId, username, Some(code)));
      Step(s.(rooms := rooms, conns := conns),
           [Send(c, RoomJoined(room'))] + BroadcastToRoom(rooms, conns, code, PlayerJoined(room'.players)))
    else
      CreateRoom(s, c, userId, username, freshCode)
  }

  /**
   * `pressBuzzer`: a locked presser is told so and nothing else happens;
   * otherwise the press wins only if no buzzer is active, and the win is
   * broadcast. A press never replaces an active buzzer.
   */
  function PressBuzzer(s: State, c: ConnId, userId: UserId, username: string, code: RoomCode, timestamp: int)
    : (r: Step)
    ensures code !in s.rooms ==> r == Step(s, [])
    ensures code in s.rooms && IsLocked(s.rooms[code].players, userId) ==>
      r == Step(s, [Send(c, BuzzerLock(true))])
    ensures code in s.rooms && s.rooms[code].activeBuzzer.Some? ==> r.state == s
    ensures code in s.rooms && !IsLocked(s.rooms[code].players, userId) && s.rooms[code].activeBuzzer.Some? ==>
      r.out == []
    ensures code in s.rooms && !IsLocked(s.rooms[code].players, userId) && s.rooms[code].activeBuzzer.None? ==>
      && r.state.conns == s.conns
      && r.state.nextConn == s.nextConn
      && OnlyRoomChanged(s.rooms, r.state.rooms, code)
      && r.state.rooms[code] == s.rooms[code].(activeBuzzer := Some(userId))
      && r.out == BroadcastToRoom(r.state.rooms, s.conns, code, BuzzerPressed(userId, username, timestamp))
  {
    if code !in s.rooms then Step(s, [])
    else
      var room := s.rooms[code];
      if IsLocked(room.players, userId) then Step(s, [Send(c, BuzzerLock(true))])
      else if room.activeBuzzer.None? then
        var rooms := s.rooms[code := room.(activeBuzzer := Some(userId))];
        Step(s.(rooms := rooms), BroadcastToRoom(rooms, s.conns, code, BuzzerPressed(userId, username, timestamp)))
      else Step(s, [])
  }

  /** `resetBuzzer`: host only; clears the active buzzer and broadcasts `BUZZER_RESET`. */
  function ResetBuzzer(s: State, c: ConnId, code: RoomCode): (r: Step)
    ensures !ActsAsHost(s, c, code) ==> r == Step(s, [])
    ensures ActsAsHost(s, c, code) ==>
      && r.state.conns == s.conns
      && r.state.nextConn == s.nextConn
      && OnlyRoomChanged(s.rooms, r.state.rooms, code)
      && r.state.rooms[code] == s.rooms[code].(activeBuzzer := None)
      && r.out == BroadcastToRoom(r.state.rooms, s.conns, code, BuzzerReset)
  {
    if !ActsAsHost(s, c, code) then Step(s, [])
    else
      var rooms := s.rooms[code := s.rooms[code].(activeBuzzer := None)];
      Step(s.(rooms := rooms), BroadcastToRoom(rooms, s.conns, code, BuzzerReset))
  }

  /**
   * `lockPlayerBuzzer`: host only, and only when the target is a player;
   * sets the target's flag and broadcasts `PLAYER_BUZZER_LOCKED`.
   */
  function LockPlayerBuzzer(s: State, c: ConnId, code: RoomCode, playerId: UserId, lock: bool): (r: Step)
    ensures !ActsAsHost(s, c, code) || !HasPlayer(s.rooms[code].players, playerId) ==> r == Step(s, [])
    ensures ActsAsHost(s, c, code) && HasPlayer(s.rooms[code].players, playerId) ==>
      && r.state.conns == s.conns
      && r.state.nextConn == s.nextConn
      && OnlyRoomChanged(s.rooms, r.state.rooms, code)
      && r.state.rooms[code] == s.rooms[code].(players := r.state.rooms[code].players)
      && r.state.rooms[code].players == SetLocked(s.rooms[code].players, playerId, lock)
      && r.out == BroadcastToRoom(r.state.rooms, s.conns, code, PlayerBuzzerLocked(playerId, lock))
  {
    if !ActsAsHost(s, c, code) || !HasPlayer(s.rooms[code].players, playerId) then Step(s, [])
    else
      var room := s.rooms[code];
      var rooms := s.rooms[code := room.(players := SetLocked(room.players, playerId, lock))];
      Step(s.(rooms := rooms), BroadcastToRoom(rooms, s.conns, code, PlayerBuzzerLocked(playerId, lock)))
  }

  /**
   * `awardPoints`: host only; the target's score becomes its old score (0
   * when absent) plus `points`, whatever the sign, no other score changes,
   * and the scores are broadcast with the annotated player list.
   */
  function AwardPoints(s: State, c: ConnId, code: RoomCode, playerId: UserId, points: int): (r: Step)
    ensures !ActsAsHost(s, c, code) ==> r == Step(s, [])
    ensures ActsAsHost(s, c, code) ==> OnlyRoomChanged(s.rooms, r.state.rooms, code)
    ensures ActsAsHost(s, c, code) ==>
      var before := s.rooms[code].scores;
      var after := r.state.rooms[code].scores;
      && r.state.conns == s.conns
      && r.state.nextConn == s.nextConn
      && r.state.rooms[code] == s.rooms[code].(scores := after)
      && after.Keys == before.Keys + {playerId}
      && after[playerId] == ScoreOf(before, playerId) + points
      && (forall k :: k in before && k != playerId ==> after[k] == before[k])
      && r.out == BroadcastToRoom(r.state.rooms, s.conns, code,
                                  PointsUpdated(after, WithScores(s.rooms[code].players, after)))
  {
    if !ActsAsHost(s, c, code) then Step(s, [])
    else
      var room := s.rooms[code];
      // `if (!scores[id]) scores[id] = 0` leaves a present score as it is.
      var scores := room.scores[playerId := ScoreOf(room.scores, playerId) + points];
      var rooms := s.rooms[code := room.(scores := scores)];
      Step(s.(rooms := rooms),
           BroadcastToRoom(rooms, s.conns, code, PointsUpdated(scores, WithScores(room.players, scores))))
  }

  /**
   * The room the socket `c` leaves when it closes: its session's room code,
   * if that code is non-empty (the guard tests it for truthiness) and names
   * a live room.
   */
  function DepartureRoom(s: State, c: ConnId): (r: Option<RoomCode>)
    ensures r.Some? ==> Registered(s.conns, c) && r.value in s.rooms && r.value != ""
    ensures r.Some? ==> SessionOf(s.conns, c).Some? && SessionOf(s.conns, c).value.roomCode == r
    ensures Registered(s.conns, c) && SessionOf(s.conns, c).Some? && SessionOf(s.conns, c).value.roomCode.Some?
            && SessionOf(s.conns, c).value.roomCode.value != "" && SessionOf(s.conns, c).value.roomCode.value in s.rooms
            ==> r == SessionOf(s.conns, c).value.roomCode
  {
    match SessionOf(s.conns, c)
    case None => None
    case Some(sess) =>
      if sess.roomCode.Some? && sess.roomCode.value != "" && sess.roomCode.value in s.rooms then sess.roomCode
      else None
  }

  /** The host after `userId` leaves a room whose remaining players are `left` (non-empty). */
  function HostAfter(room: Room, userId: UserId, left: seq<Player>): UserId
    requires |left| > 0
  {
    if room.host == userId then left[0].id else room.host
  }

  /**
   * The `onclose` handler: an unregistered socket changes nothing. Otherwise
   * every player with the session's user id leaves the session's room; an
   * emptied room is deleted, else the host passes to the first remaining
   * player if the leaver was host and `PLAYER_LEFT` is broadcast (the
   * leaver's channel is already closed); finally the socket is unregistered.
   */
  function Disconnect(s: State, c: ConnId): (r: Step)
    ensures !Registered(s.conns, c) ==> r == Step(s, [])
    ensures Registered(s.conns, c) ==>
      r.state.conns == RemoveAt(s.conns, IndexOf(s.conns, c).value) && r.state.nextConn == s.nextConn
    ensures DepartureRoom(s, c).None? ==> r.state.rooms == s.rooms && r.out == []
    ensures DepartureRoom(s, c).Some? ==>
      var code := DepartureRoom(s, c).value;
      var userId := SessionOf(s.conns, c).value.userId;
      var left := RemovePlayer(s.rooms[code].players, userId);
      && (forall k :: k in s.rooms && k != code ==> k in r.state.rooms && r.state.rooms[k] == s.rooms[k])
      && (|left| == 0 ==> r.state.rooms == s.rooms - {code} && r.out == [])
      && (|left| > 0 ==>
            && OnlyRoomChanged(s.rooms, r.state.rooms, code)
            && r.state.rooms[code] == s.rooms[code].(players := left, host := HostAfter(s.rooms[code], userId, left))
            && r.out == BroadcastToRoom(r.state.rooms, MarkClosed(s.conns, IndexOf(s.conns, c).value), code,
                                        PlayerLeft(left, r.state.rooms[code].host)))
  {
    match IndexOf(s.conns, c)
    case None => Step(s, [])
    case Some(k) =>
      var rest := s.(conns := RemoveAt(s.conns, k));
      match DepartureRoom(s, c)
      case None => Step(rest, [])
      case Some(code) =>
        var userId := s.conns[k].session.value.userId;
        var room := s.rooms[code];
        var left := RemovePlayer(room.players, userId);
        if |left| == 0 then Step(rest.(rooms := s.rooms - {code}), [])
        else
          var host := HostAfter(room, userId, left);
          var rooms := s.rooms[code := room.(players := left, host := host)];
          Step(rest.(rooms := rooms), BroadcastToRoom(rooms, MarkClosed(s.conns, k), code, PlayerLeft(left, host)))
  }

  /**
   * The `onmessage` switch on the frame's `type`: each recognised tag runs
   * its handler on the payload fields it reads; `LEAVE_BUZZER_ROOM` and
   * unknown tags do nothing. `freshCode` is the code a create would generate.
   */
  function Dispatch(s: State, c: ConnId, f: Frame, freshCode: RoomCode): (r: Step)
    ensures f.tag == CreateTag ==> r == CreateRoom(s, c, f.data.userId, f.data.username, freshCode)
    ensures f.tag == JoinTag ==> r == JoinRoom(s, c, f.data.userId, f.data.username, f.data.roomCode, freshCode)
    ensures f.tag == PressTag ==>
      r == PressBuzzer(s, c, f.data.userId, f.data.username, f.data.roomCode, f.data.timestamp)
    ensures f.tag == ResetTag ==> r == ResetBuzzer(s, c, f.data.roomCode)
    ensures f.tag == LockTag ==> r == LockPlayerBuzzer(s, c, f.data.roomCode, f.data.playerId, f.data.lock)
    ensures f.tag == AwardTag ==> r == AwardPoints(s, c, f.data.roomCode, f.data.playerId, f.data.points)
    ensures f.tag == LeaveTag || f.tag !in KnownTags ==> r == Step(s, [])
  {
    var d := f.data;
    if f.tag == CreateTag then CreateRoom(s, c, d.userId, d.username, freshCode)
    else if f.tag == JoinTag then JoinRoom(s, c, d.userId, d.username, d.roomCode, freshCode)
    else if f.tag == PressTag then PressBuzzer(s, c, d.userId, d.username, d.roomCode, d.timestamp)
    else if f.tag == ResetTag then ResetBuzzer(s, c, d.roomCode)
    else if f.tag == LockTag then LockPlayerBuzzer(s, c, d.roomCode, d.playerId, d.lock)
    else if f.tag == AwardTag then AwardPoints(s, c, d.roomCode, d.playerId, d.points)
    else Step(s, [])
  }

  /**
   * One input from the runtime: an accepted upgrade registers a new socket
   * with no session; a frame is dispatched; a channel leaving the OPEN state
   * stops receiving broadcasts; a closed channel runs the close handler.
   */
  function Apply(s: State, input: Input, freshCode: RoomCode): (r: Step)
    ensures input.Upgrade? ==>
      && r.state.rooms == s.rooms
      && r.state.conns == s.conns + [Connection(s.nextConn, None, true)]
      && r.state.nextConn == s.nextConn + 1
      && r.out == []
    ensures input.Message? ==> r == Dispatch(s, input.conn, input.frame, freshCode)
    ensures input.Closing? ==>
      && r.state.rooms == s.rooms
      && r.state.nextConn == s.nextConn
      && SameIds(s.conns, r.state.conns)
      && (forall i :: 0 <= i < |s.conns| ==>
            r.state.conns[i].session == s.conns[i].session
            && (r.state.conns[i].open <==> s.conns[i].open && i != IndexOf(s.conns, input.conn).GetOr(|s.conns|)))
      && r.out == []
    ensures input.Closed? ==> r == Disconnect(s, input.conn)
  {
    match input
    case Upgrade =>
      Step(s.(conns := s.conns + [Connection(s.nextConn, None, true)], nextConn := s.nextConn + 1), [])
    case Message(c, f) => Dispatch(s, c, f, freshCode)
    case Closing(c) =>
      (match IndexOf(s.conns, c)
       case None => Step(s, [])
       case Some(k) => Step(s.(conns := MarkClosed(s.conns, k)), []))
    case Closed(c) => Disconnect(s, c)
  }
}
