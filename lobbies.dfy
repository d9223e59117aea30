/** Player and lobby records of the multiplayer lobby server, and the pure
    lookups the handlers run over a lobby's player list: `find` by id,
    `filter` out an id, and `every` player ready. */
module Lobbies {

  datatype Option<+T> = None | Some(value: T)

  type LobbyId = string
  type PlayerId = string
  type SocketId = string

  /** A join that is not a reconnection is refused once a lobby holds this many players. */
  const MaxPlayers := 2

  datatype Status = Waiting | InGame

  /** A player as the server stores it. A fresh record has no `disconnected`
      field, which reads as false; the server only ever sets it to true. */
  datatype Player = Player(id: PlayerId, socketId: SocketId, name: string, ready: bool, disconnected: bool)

  /** A lobby record. `gameState` is the opaque match payload, `None` for the
      `null` a lobby is created with. */
  datatype Lobby<G> = Lobby(id: LobbyId, hostId: PlayerId, players: seq<Player>, status: Status, gameState: Option<G>)

  /** The record a create or a non-reconnecting join adds: not ready. */
  function NewPlayer(id: PlayerId, socketId: SocketId, name: string): Player
  {
    Player(id, socketId, name, false, false)
  }

  predicate Member(ps: seq<Player>, id: PlayerId)
  {
    exists k :: 0 <= k < |ps| && ps[k].id == id
  }

  predicate UniqueIds(ps: seq<Player>)
  {
    forall i, j :: 0 <= i < |ps| && 0 <= j < |ps| && i != j ==> ps[i].id != ps[j].id
  }

  /** `players.every(p => p.ready)`; true of an empty list. */
  predicate AllReady(ps: seq<Player>)
  {
    forall k :: 0 <= k < |ps| ==> ps[k].ready
  }

  /** `players.find(p => p.id === id)`, as the index of the first player with
      that id. */
  function Find(ps: seq<Player>, id: PlayerId): (r: Option<nat>)
    ensures r.None? <==> !Member(ps, id)
    ensures r.Some? ==> r.value < |ps| && ps[r.value].id == id
    ensures r.Some? ==> forall k :: 0 <= k < r.value ==> ps[k].id != id
  {
    if ps == [] then None
    else if ps[0].id == id then Some(0)
    else
      match Find(ps[1..], id)
      case None =>
        assert forall k :: 0 < k < |ps| ==> ps[k] == ps[1..][k - 1];
        None
      case Some(k) => Some(k + 1)
  }

  /** `players.filter(p => p.id !== id)`: every player whose id differs, in
      their original order. */
  function Without(ps: seq<Player>, id: PlayerId): (r: seq<Player>)
    ensures |r| <= |ps|
    ensures forall p :: p in r <==> p in ps && p.id != id
    ensures !Member(ps, id) ==> r == ps
  {
    if ps == [] then []
    else
      var rest := Without(ps[1..], id);
      assert !Member(ps, id) ==> !Member(ps[1..], id) by {
        if Member(ps[1..], id) {
          var k :| 0 <= k < |ps[1..]| && ps[1..][k].id == id;
          assert ps[k + 1].id == id;
        }
      }
      assert ps == [ps[0]] + ps[1..];
      if ps[0].id == id then rest else [ps[0]] + rest
  }

  /** Replacing one record by another with the same id does not change which
      index `find` returns for any id. */
  lemma FindSameIds(ps: seq<Player>, i: nat, p: Player, id: PlayerId)
    requires i < |ps| && p.id == ps[i].id
    ensures Find(ps[i := p], id) == Find(ps, id)
  {
    var qs := ps[i := p];
    assert forall k :: 0 <= k < |ps| ==> qs[k].id == ps[k].id;
    assert Member(qs, id) <==> Member(ps, id);
    if Find(ps, id).Some? {
      var a, b := Find(qs, id).value, Find(ps, id).value;
      assert !(a < b) && !(b < a);
    }
  }

  /** With unique ids, filtering out the id of the player at index `i`
      removes exactly that one record and keeps the others in order. */
  lemma {:induction false} WithoutAt(ps: seq<Player>, i: nat)
    requires UniqueIds(ps) && i < |ps|
    ensures Without(ps, ps[i].id) == ps[..i] + ps[i + 1..]
  {
    var id := ps[i].id;
    var tail := ps[1..];
    WithoutCons(ps, id);
    if i == 0 {
      forall k | 0 <= k < |tail| ensures tail[k].id != id {
        assert tail[k] == ps[k + 1];
      }
    } else {
      TailUnique(ps);
      assert tail[i - 1] == ps[i];
      WithoutAt(tail, i - 1);
      assert ps[..i] == [ps[0]] + tail[..i - 1];
      assert ps[i + 1..] == tail[i..];
    }
  }

  lemma WithoutCons(ps: seq<Player>, id: PlayerId)
    requires ps != []
    ensures Without(ps, id) == if ps[0].id == id then Without(ps[1..], id) else [ps[0]] + Without(ps[1..], id)
  {
  }

  lemma TailUnique(ps: seq<Player>)
    requires UniqueIds(ps) && ps != []
    ensures UniqueIds(ps[1..])
  {
    var tail := ps[1..];
    forall a, b | 0 <= a < |tail| && 0 <= b < |tail| && a != b
      ensures tail[a].id != tail[b].id
    {
      assert tail[a] == ps[a + 1] && tail[b] == ps[b + 1];
    }
  }

  /** Filtering keeps ids unique. */
  lemma WithoutUnique(ps: seq<Player>, id: PlayerId)
    requires UniqueIds(ps)
    ensures UniqueIds(Without(ps, id))
  {
    var r := Find(ps, id);
    if r.Some? {
      WithoutAt(ps, r.value);
      RemoveAtUnique(ps, r.value);
    }
  }

  lemma RemoveAtUnique(ps: seq<Player>, i: nat)
    requires UniqueIds(ps) && i < |ps|
    ensures UniqueIds(ps[..i] + ps[i + 1..])
  {
    var qs := ps[..i] + ps[i + 1..];
    forall a, b | 0 <= a < |qs| && 0 <= b < |qs| && a != b
      ensures qs[a].id != qs[b].id
    {
      var a' := if a < i then a else a + 1;
      var b' := if b < i then b else b + 1;
      assert qs[a] == ps[a'] && qs[b] == ps[b'];
    }
  }
}
