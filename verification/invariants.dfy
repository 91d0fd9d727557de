/**
 * The room and registry invariants every transition keeps: each room is
 * stored under its own code, is non-empty, has no two players with one id
 * and has its host among its players; every socket is registered once.
 * That the active buzzer names a player is NOT among them: a press by a
 * non-player wins and a disconnect leaves the buzzer as it was.
 */
module Invariants {
  import opened Types
  import opened Players
  import opened Registry
  import opened Handlers

  predicate ValidRoom(code: RoomCode, room: Room) {
    && room.code == code
    && |room.players| > 0
    && UniqueIds(room.players)
    && HasPlayer(room.players, room.host)
  }

  predicate Valid(s: State) {
    && (forall code :: code in s.rooms ==> ValidRoom(code, s.rooms[code]))
    && UniqueConnIds(s.conns)
    && (forall i :: 0 <= i < |s.conns| ==> s.conns[i].id < s.nextConn)
  }

  lemma InitValid()
    ensures Valid(Init)
  {
  }

  /** Creating a room (possibly over an existing one) keeps the invariants. */
  lemma CreateKeepsValid(s: State, c: ConnId, userId: UserId, username: string, code: RoomCode)
    requires Valid(s)
    ensures Valid(CreateRoom(s, c, userId, username, code).state)
  {
    var r := CreateRoom(s, c, userId, username, code);
    assert r.state.rooms[code].players[0].id == userId;
  }

  /** Joining keeps ids unique and the host a member. */
  lemma JoinKeepsValid(s: State, c: ConnId, userId: UserId, username: string, code: RoomCode, freshCode: RoomCode)
    requires Valid(s)
    ensures Valid(JoinRoom(s, c, userId, username, code, freshCode).state)
  {
    if code !in s.rooms {
      CreateKeepsValid(s, c, userId, username, freshCode);
    }
  }

  /** Closing a socket keeps every surviving room non-empty with its host a member. */
  lemma {:induction false} DisconnectKeepsValid(s: State, c: ConnId)
    requires Valid(s)
    ensures Valid(Disconnect(s, c).state)
  {
    var r := Disconnect(s, c);
    if Registered(s.conns, c) {
      var k := IndexOf(s.conns, c).value;
      RemoveAtUnregisters(s.conns, c, c);
      assert forall i :: 0 <= i < |r.state.conns| ==> r.state.conns[i] in s.conns;
      match DepartureRoom(s, c)
      case None =>
      case Some(code) =>
        var userId := SessionOf(s.conns, c).value.userId;
        var room := s.rooms[code];
        var left := RemovePlayer(room.players, userId);
        if |left| > 0 {
          RemovePlayerUnique(room.players, userId);
          var host := HostAfter(room, userId, left);
          if room.host == userId {
            assert left[0].id == host;
          } else {
            RemovePlayerMembers(room.players, userId, host);
          }
          assert ValidRoom(code, r.state.rooms[code]);
        }
    }
  }

  /** Every frame handler keeps the invariants. */
  lemma DispatchKeepsValid(s: State, c: ConnId, f: Frame, freshCode: RoomCode)
    requires Valid(s)
    ensures Valid(Dispatch(s, c, f, freshCode).state)
  {
    var d := f.data;
    if f.tag == CreateTag {
      CreateKeepsValid(s, c, d.userId, d.username, freshCode);
    } else if f.tag == JoinTag {
      JoinKeepsValid(s, c, d.userId, d.username, d.roomCode, freshCode);
    }
  }

  /** Every input keeps the invariants. */
  lemma ApplyKeepsValid(s: State, input: Input, freshCode: RoomCode)
    requires Valid(s)
    ensures Valid(Apply(s, input, freshCode).state)
  {
    match input
    case Upgrade =>
    case Message(c, f) => DispatchKeepsValid(s, c, f, freshCode);
    case Closing(c) =>
    case Closed(c) => DisconnectKeepsValid(s, c);
  }

  /**
   * A run of inputs from `s`; `codes[i]` is the code the generator would
   * produce while handling `inputs[i]`. The result collects every message.
   */
  function Run(s: State, inputs: seq<Input>, codes: seq<RoomCode>): (r: Step)
    requires |codes| == |inputs|
    decreases |inputs|
  {
    if |inputs| == 0 then Step(s, [])
    else
      var first := Apply(s, inputs[0], codes[0]);
      var rest := Run(first.state, inputs[1..], codes[1..]);
      Step(rest.state, first.out + rest.out)
  }

  /** Every state reachable from a valid one is valid; in particular every state reachable from `Init`. */
  lemma {:induction false} RunKeepsValid(s: State, inputs: seq<Input>, codes: seq<RoomCode>)
    requires Valid(s)
    requires |codes| == |inputs|
    ensures Valid(Run(s, inputs, codes).state)
    decreases |inputs|
  {
    if |inputs| > 0 {
      ApplyKeepsValid(s, inputs[0], codes[0]);
      RunKeepsValid(Apply(s, inputs[0], codes[0]).state, inputs[1..], codes[1..]);
    }
  }
}
