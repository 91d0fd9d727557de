/** The connection list: registered sockets and the sessions attached to them. */
module Registry {
  import opened Wrappers
  import opened Types

  /** Some entry of the list is the socket `c`. */
  predicate Registered(conns: seq<Connection>, c: ConnId) {
    exists i :: 0 <= i < |conns| && conns[i].id == c
  }

  /** No socket appears twice. */
  predicate UniqueConnIds(conns: seq<Connection>) {
    forall i, j :: 0 <= i < j < |conns| ==> conns[i].id != conns[j].id
  }

  /** The position of socket `c` in the list (`buzzerConnections.indexOf(ws)`). */
  function IndexOf(conns: seq<Connection>, c: ConnId): (r: Option<nat>)
    ensures r.None? <==> !Registered(conns, c)
    ensures r.Some? ==> r.value < |conns| && conns[r.value].id == c
    ensures r.Some? ==> forall j :: 0 <= j < r.value ==> conns[j].id != c
  {
    if |conns| == 0 then None
    else if conns[0].id == c then Some(0)
    else
      match IndexOf(conns[1..], c)
      case None =>
        assert forall i :: 0 < i < |conns| ==> conns[i] == conns[1..][i - 1];
        None
      case Some(k) => Some(k + 1)
  }

  /** With unique handles, the position found is the only one. */
  lemma IndexOfUnique(conns: seq<Connection>, c: ConnId, i: nat)
    requires UniqueConnIds(conns)
    requires i < |conns| && conns[i].id == c
    ensures IndexOf(conns, c) == Some(i)
  {
  }

  /** Two lists carrying the same handles in the same order. */
  predicate SameIds(a: seq<Connection>, b: seq<Connection>) {
    |a| == |b| && forall i :: 0 <= i < |a| ==> a[i].id == b[i].id
  }

  /** Lists with the same handles find every socket at the same position. */
  lemma {:induction false} IndexOfSameIds(a: seq<Connection>, b: seq<Connection>, c: ConnId)
    requires SameIds(a, b)
    ensures IndexOf(a, c) == IndexOf(b, c)
  {
    if |a| > 0 && a[0].id != c {
      IndexOfSameIds(a[1..], b[1..], c);
    }
  }

  /** The session of socket `c` (`ws.data`), absent if it has none or is not registered. */
  function SessionOf(conns: seq<Connection>, c: ConnId): Option<Session> {
    match IndexOf(conns, c)
    case None => None
    case Some(i) => conns[i].session
  }

  /**
   * `ws.data = sess`: the session is a field of the socket object, so every
   * entry standing for socket `c` sees it; all other entries are untouched.
   */
  function SetSession(conns: seq<Connection>, c: ConnId, sess: Session): (r: seq<Connection>)
    ensures SameIds(conns, r)
    ensures Registered(conns, c) ==> SessionOf(r, c) == Some(sess)
    ensures forall i :: 0 <= i < |r| && conns[i].id != c ==> r[i] == conns[i]
    ensures forall i :: 0 <= i < |r| ==> r[i].open == conns[i].open
  {
    var r := seq(|conns|, i requires 0 <= i < |conns| =>
      if conns[i].id == c then conns[i].(session := Some(sess)) else conns[i]);
    IndexOfSameIds(conns, r, c);
    r
  }

  /** The socket at position `k` seen with its channel no longer OPEN. */
  function MarkClosed(conns: seq<Connection>, k: nat): (r: seq<Connection>)
    requires k < |conns|
    ensures SameIds(conns, r)
    ensures !r[k].open
    ensures forall i :: 0 <= i < |r| && i != k ==> r[i] == conns[i]
  {
    conns[k := conns[k].(open := false)]
  }

  /** `buzzerConnections.splice(k, 1)`. */
  function RemoveAt(conns: seq<Connection>, k: nat): (r: seq<Connection>)
    requires k < |conns|
    ensures |r| == |conns| - 1
    ensures forall i :: 0 <= i < k ==> r[i] == conns[i]
    ensures forall i :: k <= i < |r| ==> r[i] == conns[i + 1]
  {
    conns[..k] + conns[k + 1..]
  }

  /** With unique handles, removing the entry of `c` unregisters exactly `c`. */
  lemma RemoveAtUnregisters(conns: seq<Connection>, c: ConnId, x: ConnId)
    requires UniqueConnIds(conns)
    requires Registered(conns, c)
    ensures var r := RemoveAt(conns, IndexOf(conns, c).value);
      UniqueConnIds(r) && (Registered(r, x) <==> Registered(conns, x) && x != c)
  {
    var k := IndexOf(conns, c).value;
    var r := RemoveAt(conns, k);
    if Registered(conns, x) && x != c {
      var i :| 0 <= i < |conns| && conns[i].id == x;
      if i < k {
        assert r[i].id == x;
      } else {
        assert r[i - 1].id == x;
      }
    }
  }
}
