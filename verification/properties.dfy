/** Properties relating several handler calls, and the gaps the handlers leave open. */
module Properties {
  import opened Wrappers
  import opened Types
  import opened Players
  import opened Registry
  import opened Broadcast
  import opened Handlers
  import opened Invariants

  /**
   * Two presses on a room with no active buzzer: the first unlocked presser
   * wins, and the second press changes nothing and sends nothing.
   */
  lemma FirstPressWins(
    s: State, code: RoomCode,
    c1: ConnId, u1: UserId, n1: string, t1: int,
    c2: ConnId, u2: UserId, n2: string, t2: int)
    requires code in s.rooms && s.rooms[code].activeBuzzer.None?
    requires !IsLocked(s.rooms[code].players, u1)
    ensures var first := PressBuzzer(s, c1, u1, n1, code, t1);
      var second := PressBuzzer(first.state, c2, u2, n2, code, t2);
      && first.state.rooms[code].activeBuzzer == Some(u1)
      && second.state == first.state
      && (second.out == [] || second.out == [Send(c2, BuzzerLock(true))])
  {
    var first := PressBuzzer(s, c1, u1, n1, code, t1);
    assert first.state.rooms[code].players == s.rooms[code].players;
  }

  /**
   * The active buzzer is not always a player: on a valid state a press by a
   * user who is not in the room still wins.
   */
  lemma NonPlayerCanHoldBuzzer(s: State, c: ConnId, userId: UserId, username: string, code: RoomCode, t: int)
    requires Valid(s)
    requires code in s.rooms && s.rooms[code].activeBuzzer.None?
    requires !HasPlayer(s.rooms[code].players, userId)
    ensures var r := PressBuzzer(s, c, userId, username, code, t);
      && Valid(r.state)
      && r.state.rooms[code].activeBuzzer == Some(userId)
      && !HasPlayer(r.state.rooms[code].players, userId)
  {
  }

  /** A leaver holding the buzzer keeps it in the surviving room. */
  lemma LeaverKeepsBuzzer(s: State, c: ConnId)
    requires DepartureRoom(s, c).Some?
    ensures var code := DepartureRoom(s, c).value;
      var r := Disconnect(s, c);
      code in r.state.rooms ==> r.state.rooms[code].activeBuzzer == s.rooms[code].activeBuzzer
  {
  }

  /** A joiner whose socket is open receives its own `PLAYER_JOINED`, after `ROOM_JOINED`. */
  lemma JoinerHearsPlayerJoined(
    s: State, c: ConnId, userId: UserId, username: string, code: RoomCode, freshCode: RoomCode, k: nat)
    requires Valid(s)
    requires code in s.rooms
    requires k < |s.conns| && s.conns[k].id == c && s.conns[k].open
    ensures var r := JoinRoom(s, c, userId, username, code, freshCode);
      && r.out[0] == Send(c, RoomJoined(r.state.rooms[code]))
      && Send(c, PlayerJoined(r.state.rooms[code].players)) in r.out
  {
    var r := JoinRoom(s, c, userId, username, code, freshCode);
    IndexOfUnique(s.conns, c, k);
    IndexOfSameIds(s.conns, r.state.conns, c);
    assert r.state.conns[k].session == SessionOf(r.state.conns, c);
    ListenerReceives(r.state.rooms, r.state.conns, code, PlayerJoined(r.state.rooms[code].players), k);
  }

  /** The closing socket never receives the `PLAYER_LEFT` it causes. */
  lemma LeaverMissesPlayerLeft(s: State, c: ConnId)
    requires Valid(s)
    ensures c !in Addressees(Disconnect(s, c).out)
  {
    var r := Disconnect(s, c);
    if DepartureRoom(s, c).Some? && |r.out| > 0 {
      var code := DepartureRoom(s, c).value;
      var k := IndexOf(s.conns, c).value;
      var closed := MarkClosed(s.conns, k);
      assert forall i :: 0 <= i < |closed| && closed[i].id == c ==> i == k;
      NonListenerMisses(r.state.rooms, closed, code, PlayerLeft(r.state.rooms[code].players, r.state.rooms[code].host), c);
    }
  }

  /**
   * `PLAYER_LEFT` reaches exactly the sockets that stay registered, are
   * open and whose session names the room.
   */
  lemma PlayerLeftReachesSurvivors(s: State, c: ConnId, x: ConnId)
    requires Valid(s)
    requires DepartureRoom(s, c).Some?
    requires DepartureRoom(s, c).value in Disconnect(s, c).state.rooms
    ensures var code := DepartureRoom(s, c).value;
      var r := Disconnect(s, c);
      x in Addressees(r.out) <==>
        exists i :: 0 <= i < |r.state.conns| && r.state.conns[i].id == x && Listening(r.state.conns[i], code)
  {
    var code := DepartureRoom(s, c).value;
    var r := Disconnect(s, c);
    var k := IndexOf(s.conns, c).value;
    var closed := MarkClosed(s.conns, k);
    var after := r.state.conns;
    RecipientsExact(closed, code, x);
    if exists i :: 0 <= i < |closed| && closed[i].id == x && Listening(closed[i], code) {
      var i :| 0 <= i < |closed| && closed[i].id == x && Listening(closed[i], code);
      if i < k {
        assert after[i] == closed[i];
      } else {
        assert after[i - 1] == closed[i];
      }
    }
    if exists i :: 0 <= i < |after| && after[i].id == x && Listening(after[i], code) {
      var i :| 0 <= i < |after| && after[i].id == x && Listening(after[i], code);
      if i < k {
        assert closed[i] == after[i];
      } else {
        assert closed[i + 1] == after[i];
      }
    }
  }

  /**
   * Stale membership: a user in room `a` whose socket joins another live
   * room `b` stays a player of `a`, and closing that socket afterwards does
   * not remove it from `a`.
   */
  lemma StaleMembership(
    s: State, c: ConnId, userId: UserId, username: string, a: RoomCode, b: RoomCode, freshCode: RoomCode)
    requires Valid(s)
    requires Registered(s.conns, c)
    requires a in s.rooms && b in s.rooms && a != b && b != ""
    requires HasPlayer(s.rooms[a].players, userId)
    ensures var joined := JoinRoom(s, c, userId, username, b, freshCode).state;
      var closed := Disconnect(joined, c).state;
      && SessionOf(joined.conns, c).value.roomCode == Some(b)
      && a in closed.rooms
      && HasPlayer(closed.rooms[a].players, userId)
  {
    var joined := JoinRoom(s, c, userId, username, b, freshCode).state;
    assert DepartureRoom(joined, c) == Some(b);
  }

  /** The last player leaving deletes the room: later lookups of its code fail. */
  lemma SoleLeaverDeletesRoom(s: State, c: ConnId)
    requires DepartureRoom(s, c).Some?
    requires var code := DepartureRoom(s, c).value;
      forall i :: 0 <= i < |s.rooms[code].players| ==> s.rooms[code].players[i].id == SessionOf(s.conns, c).value.userId
    ensures DepartureRoom(s, c).value !in Disconnect(s, c).state.rooms
  {
    var code := DepartureRoom(s, c).value;
    var userId := SessionOf(s.conns, c).value.userId;
    var ps := s.rooms[code].players;
    RemoveEveryone(ps, userId);
  }

  /**
   * The host leaving a room with others left hands the room to the first
   * remaining player in join order: the second player if the host was
   * first, else the first.
   */
  lemma HostLeavesPromotesFirst(s: State, c: ConnId)
    requires Valid(s)
    requires DepartureRoom(s, c).Some?
    requires var code := DepartureRoom(s, c).value;
      s.rooms[code].host == SessionOf(s.conns, c).value.userId && |s.rooms[code].players| >= 2
    ensures var code := DepartureRoom(s, c).value;
      var ps := s.rooms[code].players;
      var r := Disconnect(s, c);
      && code in r.state.rooms
      && r.state.rooms[code].host == (if ps[0].id == s.rooms[code].host then ps[1].id else ps[0].id)
      && HasPlayer(r.state.rooms[code].players, r.state.rooms[code].host)
  {
    var code := DepartureRoom(s, c).value;
    var ps := s.rooms[code].players;
    var userId := s.rooms[code].host;
    var k :| 0 <= k < |ps| && ps[k].id == userId;
    RemoveUniqueIsSplice(ps, userId, k);
    var left := RemovePlayer(ps, userId);
    assert |left| == |ps| - 1;
    if k == 0 {
      assert left[0] == ps[1];
    } else {
      assert left[0] == ps[0];
    }
  }

  /** A sequence of joins `(userId, username)` on one room, applied in order. */
  function JoinAll(ps: seq<Player>, joins: seq<(UserId, string)>): seq<Player>
    decreases |joins|
  {
    if |joins| == 0 then ps
    else
      var n := |joins| - 1;
      AddPlayer(JoinAll(ps, joins[..n]), joins[n].0, joins[n].1)
  }

  /** The user ids of a sequence of joins. */
  function JoinIds(joins: seq<(UserId, string)>): (r: seq<UserId>)
    ensures |r| == |joins| && forall i :: 0 <= i < |joins| ==> r[i] == joins[i].0
  {
    seq(|joins|, i requires 0 <= i < |joins| => joins[i].0)
  }

  /** The position of the first occurrence of `x` in `xs`. */
  function FirstIndex(xs: seq<UserId>, x: UserId): (r: nat)
    requires x in xs
    ensures r < |xs| && xs[r] == x && x !in xs[..r]
  {
    if xs[0] == x then 0 else 1 + FirstIndex(xs[1..], x)
  }

  /** The first occurrence of `x` in a prefix holding it is its first occurrence in the whole. */
  lemma FirstIndexPrefix(xs: seq<UserId>, n: nat, x: UserId)
    requires n <= |xs| && x in xs[..n]
    ensures FirstIndex(xs, x) == FirstIndex(xs[..n], x)
  {
    var i := FirstIndex(xs, x);
    var j := FirstIndex(xs[..n], x);
    assert xs[..n][..j] == xs[..j];
    assert forall m :: 0 <= m < j ==> xs[..j][m] == xs[m] != x;
    assert forall m :: 0 <= m < i ==> xs[..i][m] == xs[m] != x;
    assert xs[j] == x;
  }

  /**
   * `r` is `ps` followed by one entry per id of `ids` that `ps` lacks,
   * ordered by first occurrence in `ids`, with no id twice.
   */
  ghost predicate JoinedInOrder(ps: seq<Player>, r: seq<Player>, ids: seq<UserId>) {
    && UniqueIds(r)
    && |ps| <= |r| && r[..|ps|] == ps
    && (forall x :: HasPlayer(r, x) <==> HasPlayer(ps, x) || x in ids)
    && (forall i :: |ps| <= i < |r| ==> r[i].id in ids)
    && (forall i, j :: |ps| <= i < j < |r| ==> FirstIndex(ids, r[i].id) < FirstIndex(ids, r[j].id))
  }

  /** One more join keeps the first-join order. */
  lemma JoinStepKeepsOrder(ps: seq<Player>, pre: seq<Player>, ids: seq<UserId>, username: string)
    requires |ids| > 0
    requires JoinedInOrder(ps, pre, ids[..|ids| - 1])
    ensures JoinedInOrder(ps, AddPlayer(pre, ids[|ids| - 1], username), ids)
  {
    var n := |ids| - 1;
    var x := ids[n];
    var r := AddPlayer(pre, x, username);
    assert ids == ids[..n] + [x];
    forall i | |ps| <= i < |pre|
      ensures pre[i].id in ids && FirstIndex(ids, pre[i].id) == FirstIndex(ids[..n], pre[i].id) < n
    {
      FirstIndexPrefix(ids, n, pre[i].id);
    }
    if !HasPlayer(pre, x) {
      assert x !in ids[..n];
      assert FirstIndex(ids, x) == n;
      assert r[|pre|].id == x;
    }
  }

  /**
   * Joins on one room: the room's players are its old players followed by
   * one entry for each newly seen id, ordered by first join, and no id
   * appears twice.
   */
  lemma {:induction false} JoinAllFirstJoinOrder(ps: seq<Player>, joins: seq<(UserId, string)>)
    requires UniqueIds(ps)
    ensures JoinedInOrder(ps, JoinAll(ps, joins), JoinIds(joins))
    decreases |joins|
  {
    if |joins| == 0 {
      assert JoinAll(ps, joins)[..|ps|] == ps;
    } else {
      var n := |joins| - 1;
      JoinAllFirstJoinOrder(ps, joins[..n]);
      assert JoinIds(joins[..n]) == JoinIds(joins)[..n];
      JoinStepKeepsOrder(ps, JoinAll(ps, joins[..n]), JoinIds(joins), joins[n].1);
    }
  }
}
