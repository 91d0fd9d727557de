/** Operations on a room's ordered player list. */
module Players {
  import opened Wrappers
  import opened Types

  /** Some entry of `ps` has id `id` (`players.some(p => p.id === id)`). */
  predicate HasPlayer(ps: seq<Player>, id: UserId) {
    exists i :: 0 <= i < |ps| && ps[i].id == id
  }

  /** No two entries share an id. */
  predicate UniqueIds(ps: seq<Player>) {
    forall i, j :: 0 <= i < j < |ps| ==> ps[i].id != ps[j].id
  }

  /** The position of the first entry with id `id` (`players.find(p => p.id === id)`). */
  function FindPlayer(ps: seq<Player>, id: UserId): (r: Option<nat>)
    ensures r.None? <==> !HasPlayer(ps, id)
    ensures r.Some? ==> r.value < |ps| && ps[r.value].id == id
    ensures r.Some? ==> forall j :: 0 <= j < r.value ==> ps[j].id != id
  {
    if |ps| == 0 then None
    else if ps[0].id == id then Some(0)
    else
      match FindPlayer(ps[1..], id)
      case None =>
        assert forall i :: 0 < i < |ps| ==> ps[i] == ps[1..][i - 1];
        None
      case Some(k) => Some(k + 1)
  }

  /** With unique ids, the entry found is the only one with that id. */
  lemma FindPlayerUnique(ps: seq<Player>, id: UserId, i: nat)
    requires UniqueIds(ps)
    requires i < |ps| && ps[i].id == id
    ensures FindPlayer(ps, id) == Some(i)
  {
  }

  /** `player?.locked` is truthy: the first entry with that id exists and its flag is true. */
  predicate IsLocked(ps: seq<Player>, id: UserId) {
    match FindPlayer(ps, id)
    case None => false
    case Some(k) => ps[k].locked == Some(true)
  }

  /**
   * The join update: append `{id, username}` unless some entry already has
   * that id.
   */
  function AddPlayer(ps: seq<Player>, id: UserId, username: string): (r: seq<Player>)
    ensures HasPlayer(ps, id) ==> r == ps
    ensures !HasPlayer(ps, id) ==> r == ps + [Player(id, username, None)]
    ensures |ps| <= |r| && r[..|ps|] == ps
    ensures forall x :: HasPlayer(r, x) <==> HasPlayer(ps, x) || x == id
    ensures UniqueIds(ps) ==> UniqueIds(r)
  {
    if HasPlayer(ps, id) then ps
    else
      var r := ps + [Player(id, username, None)];
      assert r[|ps|].id == id;
      r
  }

  /** The disconnect update: keep the entries whose id differs from `id`, in order. */
  function RemovePlayer(ps: seq<Player>, id: UserId): (r: seq<Player>)
    ensures |r| <= |ps|
    ensures forall p :: p in r ==> p in ps && p.id != id
    ensures forall p :: p in ps && p.id != id ==> p in r
  {
    if |ps| == 0 then []
    else if ps[0].id == id then RemovePlayer(ps[1..], id)
    else [ps[0]] + RemovePlayer(ps[1..], id)
  }

  /** Membership after removal: everyone but `id` stays. */
  lemma RemovePlayerMembers(ps: seq<Player>, id: UserId, x: UserId)
    ensures HasPlayer(RemovePlayer(ps, id), x) <==> HasPlayer(ps, x) && x != id
  {
    var r := RemovePlayer(ps, id);
    if HasPlayer(r, x) {
      var i :| 0 <= i < |r| && r[i].id == x;
      assert r[i] in ps;
    }
    if HasPlayer(ps, x) && x != id {
      var i :| 0 <= i < |ps| && ps[i].id == x;
      assert ps[i] in r;
    }
  }

  /** Removal keeps ids unique. */
  lemma {:induction false} RemovePlayerUnique(ps: seq<Player>, id: UserId)
    requires UniqueIds(ps)
    ensures UniqueIds(RemovePlayer(ps, id))
  {
    if |ps| > 0 {
      RemovePlayerUnique(ps[1..], id);
      if ps[0].id != id {
        var rest := RemovePlayer(ps[1..], id);
        forall p | p in rest
          ensures p.id != ps[0].id
        {
          var i :| 0 <= i < |ps[1..]| && ps[1..][i] == p;
          assert ps[i + 1] == p;
        }
        assert forall j :: 0 < j < |[ps[0]] + rest| ==> ([ps[0]] + rest)[j] in rest;
      }
    }
  }

  /** Removing an id nobody has changes nothing. */
  lemma {:induction false} RemoveAbsent(ps: seq<Player>, id: UserId)
    requires !HasPlayer(ps, id)
    ensures RemovePlayer(ps, id) == ps
  {
    if |ps| > 0 {
      assert ps[0].id != id;
      assert !HasPlayer(ps[1..], id) by {
        forall i | 0 <= i < |ps[1..]|
          ensures ps[1..][i].id != id
        {
          assert ps[1..][i] == ps[i + 1];
        }
      }
      RemoveAbsent(ps[1..], id);
      assert ps == [ps[0]] + ps[1..];
    }
  }

  /** Removing the id every entry has empties the list. */
  lemma {:induction false} RemoveEveryone(ps: seq<Player>, id: UserId)
    requires forall i :: 0 <= i < |ps| ==> ps[i].id == id
    ensures RemovePlayer(ps, id) == []
  {
    if |ps| > 0 {
      RemoveEveryone(ps[1..], id);
    }
  }

  /** Removal distributes over concatenation. */
  lemma {:induction false} RemoveConcat(a: seq<Player>, b: seq<Player>, id: UserId)
    ensures RemovePlayer(a + b, id) == RemovePlayer(a, id) + RemovePlayer(b, id)
  {
    if |a| == 0 {
      assert a + b == b;
    } else {
      assert (a + b)[0] == a[0];
      assert (a + b)[1..] == a[1..] + b;
      RemoveConcat(a[1..], b, id);
    }
  }

  /**
   * With unique ids, removal deletes exactly the one matching entry and keeps
   * the others in their order.
   */
  lemma RemoveUniqueIsSplice(ps: seq<Player>, id: UserId, k: nat)
    requires UniqueIds(ps)
    requires k < |ps| && ps[k].id == id
    ensures RemovePlayer(ps, id) == ps[..k] + ps[k + 1..]
  {
    var before, after := ps[..k], ps[k + 1..];
    assert ps == before + ([ps[k]] + after);
    assert forall i :: 0 <= i < |before| ==> before[i] == ps[i];
    assert forall i :: 0 <= i < |after| ==> after[i] == ps[k + 1 + i];
    RemoveAbsent(before, id);
    RemoveAbsent(after, id);
    RemoveConcat([ps[k]], after, id);
    RemoveConcat(before, [ps[k]] + after, id);
  }

  /** The score of `id`, 0 when it has none (`scores[id] || 0`). */
  function ScoreOf(scores: map<UserId, int>, id: UserId): int {
    if id in scores then scores[id] else 0
  }

  /** The player list annotated with scores, as broadcast by `POINTS_UPDATED`. */
  function WithScores(ps: seq<Player>, scores: map<UserId, int>): (r: seq<ScoredPlayer>)
    ensures |r| == |ps|
    ensures forall i :: 0 <= i < |r| ==> r[i].player == ps[i] && r[i].score == ScoreOf(scores, ps[i].id)
  {
    seq(|ps|, i requires 0 <= i < |ps| => ScoredPlayer(ps[i], ScoreOf(scores, ps[i].id)))
  }

  /** The lock update: set the flag of the first entry with id `id` to `lock`. */
  function SetLocked(ps: seq<Player>, id: UserId, lock: bool): (r: seq<Player>)
    ensures |r| == |ps|
    ensures forall i :: 0 <= i < |ps| ==> r[i].id == ps[i].id && r[i].username == ps[i].username
    ensures forall x :: HasPlayer(r, x) <==> HasPlayer(ps, x)
    ensures UniqueIds(ps) ==> UniqueIds(r)
    ensures FindPlayer(ps, id).Some? ==> r[FindPlayer(ps, id).value].locked == Some(lock)
    ensures forall i :: 0 <= i < |ps| && (FindPlayer(ps, id).None? || i != FindPlayer(ps, id).value) ==> r[i] == ps[i]
  {
    match FindPlayer(ps, id)
    case None => ps
    case Some(k) =>
      var r := ps[k := ps[k].(locked := Some(lock))];
      assert forall x :: HasPlayer(ps, x) ==> HasPlayer(r, x) by {
        forall x | HasPlayer(ps, x) ensures HasPlayer(r, x) {
          var i :| 0 <= i < |ps| && ps[i].id == x;
          assert r[i].id == x;
        }
      }
      r
  }

  /**
   * Locking touches only the target: the target's flag
   * becomes `lock`, every other player's lock state is unchanged, and an
   * absent target leaves the list as it was.
   */
  lemma SetLockedEffect(ps: seq<Player>, id: UserId, lock: bool, x: UserId)
    ensures !HasPlayer(ps, id) ==> SetLocked(ps, id, lock) == ps
    ensures HasPlayer(ps, id) ==> IsLocked(SetLocked(ps, id, lock), id) == lock
    ensures x != id ==> IsLocked(SetLocked(ps, id, lock), x) == IsLocked(ps, x)
  {
    var r := SetLocked(ps, id, lock);
    if HasPlayer(ps, id) {
      var k := FindPlayer(ps, id).value;
      assert FindPlayer(r, id) == Some(k);
    }
    if HasPlayer(ps, x) {
      var j := FindPlayer(ps, x).value;
      assert FindPlayer(r, x) == Some(j);
    }
  }
}
