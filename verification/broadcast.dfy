/** Recipient selection of `broadcastToRoom`. */
module Broadcast {
  import opened Wrappers
  import opened Types
  import opened Registry

  /** The socket is OPEN and its session names room `code`. */
  predicate Listening(conn: Connection, code: RoomCode) {
    conn.open && conn.session.Some? && conn.session.value.roomCode == Some(code)
  }

  /** The handles of the listening sockets, in list order. */
  function Recipients(conns: seq<Connection>, code: RoomCode): (r: seq<ConnId>)
    ensures |r| <= |conns|
  {
    if |conns| == 0 then []
    else if Listening(conns[0], code) then [conns[0].id] + Recipients(conns[1..], code)
    else Recipients(conns[1..], code)
  }

  /** The sockets a sequence of messages is written to, in order. */
  function Addressees(out: seq<Outbound>): (r: seq<ConnId>)
    ensures |r| == |out|
    ensures forall i :: 0 <= i < |out| ==> r[i] == out[i].to
  {
    seq(|out|, i requires 0 <= i < |out| => out[i].to)
  }

  /**
   * `broadcastToRoom(code, msg)`: nothing if the room does not exist, else
   * `msg` to every listening socket in list order.
   */
  function BroadcastToRoom(rooms: map<RoomCode, Room>, conns: seq<Connection>, code: RoomCode, msg: Msg)
    : (out: seq<Outbound>)
    ensures code !in rooms ==> out == []
    ensures code in rooms ==> Addressees(out) == Recipients(conns, code)
    ensures forall o :: o in out ==> o.msg == msg
  {
    if code !in rooms then []
    else
      var rs := Recipients(conns, code);
      seq(|rs|, i requires 0 <= i < |rs| => Send(rs[i], msg))
  }

  /**
   * The recipients are exactly the sockets of the list that are OPEN and
   * whose session names the room.
   */
  lemma {:induction false} RecipientsExact(conns: seq<Connection>, code: RoomCode, x: ConnId)
    ensures x in Recipients(conns, code) <==>
      exists i :: 0 <= i < |conns| && conns[i].id == x && Listening(conns[i], code)
  {
    if |conns| > 0 {
      RecipientsExact(conns[1..], code, x);
      assert forall i :: 0 < i < |conns| ==> conns[i] == conns[1..][i - 1];
      if exists i :: 0 <= i < |conns| && conns[i].id == x && Listening(conns[i], code) {
        var i :| 0 <= i < |conns| && conns[i].id == x && Listening(conns[i], code);
        if i > 0 {
          assert conns[1..][i - 1].id == x;
        }
      }
    }
  }

  /** With unique handles, each recipient is written to once. */
  lemma {:induction false} RecipientsOnce(conns: seq<Connection>, code: RoomCode)
    requires UniqueConnIds(conns)
    ensures forall i, j :: 0 <= i < j < |Recipients(conns, code)| ==>
      Recipients(conns, code)[i] != Recipients(conns, code)[j]
  {
    if |conns| > 0 {
      RecipientsOnce(conns[1..], code);
      var rest := Recipients(conns[1..], code);
      if Listening(conns[0], code) {
        RecipientsExact(conns[1..], code, conns[0].id);
        assert forall i :: 0 <= i < |conns[1..]| ==> conns[1..][i].id == conns[i + 1].id != conns[0].id;
        assert conns[0].id !in rest;
      }
    }
  }

  /** A listening socket of a live room receives the broadcast. */
  lemma ListenerReceives(rooms: map<RoomCode, Room>, conns: seq<Connection>, code: RoomCode, msg: Msg, k: nat)
    requires code in rooms
    requires k < |conns| && Listening(conns[k], code)
    ensures Send(conns[k].id, msg) in BroadcastToRoom(rooms, conns, code, msg)
  {
    var out := BroadcastToRoom(rooms, conns, code, msg);
    RecipientsExact(conns, code, conns[k].id);
    var j :| 0 <= j < |Recipients(conns, code)| && Recipients(conns, code)[j] == conns[k].id;
    assert Addressees(out)[j] == conns[k].id;
    assert out[j] == Send(conns[k].id, msg);
  }

  /** A socket that is not listening on the room, or no socket of a missing room, receives nothing. */
  lemma NonListenerMisses(rooms: map<RoomCode, Room>, conns: seq<Connection>, code: RoomCode, msg: Msg, x: ConnId)
    requires forall i :: 0 <= i < |conns| && conns[i].id == x ==> !Listening(conns[i], code)
    ensures x !in Addressees(BroadcastToRoom(rooms, conns, code, msg))
  {
    RecipientsExact(conns, code, x);
  }
}
