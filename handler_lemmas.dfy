/** What each handler of the lobby server does to the store, the registry and
    the session, and the store invariant every handler preserves. */
module HandlerLemmas {
  import opened Lobbies
  import opened Handlers

  /** Replacing one record by another with the same id keeps the count, the
      set of ids present and their uniqueness. */
  lemma SameIdUpdate(ps: seq<Player>, i: nat, p: Player)
    requires i < |ps| && p.id == ps[i].id
    ensures |ps[i := p]| == |ps|
    ensures UniqueIds(ps[i := p]) <==> UniqueIds(ps)
    ensures forall id :: Member(ps[i := p], id) <==> Member(ps, id)
  {
    var qs := ps[i := p];
    assert forall k :: 0 <= k < |ps| ==> qs[k].id == ps[k].id;
  }

  // ---------------------------------------------------------------- create

  /** `create-lobby` stores a lobby whose only player is a fresh record of
      the caller (not ready, not disconnected) and its host, in `waiting`
      with no game state, so the disconnect timer's check fails for it;
      registers the caller's socket; points the session at the new lobby;
      and leaves every other lobby alone. Whatever was stored under the id
      before is gone. */
  lemma CreateLobbyEffect<G>(st: Store<G>, socket: SocketId, lobbyId: LobbyId, playerId: PlayerId, playerName: string)
    ensures var r := CreateLobby(st, socket, lobbyId, playerId, playerName);
      && lobbyId in r.store.lobbies
      && r.store.lobbies[lobbyId].players == [NewPlayer(playerId, socket, playerName)]
      && !StillDisconnected(r.store, lobbyId, playerId)
      && r.store.lobbies[lobbyId].hostId == playerId
      && r.store.lobbies[lobbyId].status == Waiting
      && r.store.lobbies[lobbyId].gameState == None
      && LobbyValid(lobbyId, r.store.lobbies[lobbyId])
      && r.store.sockets == st.sockets[playerId := socket]
      && r.session == Session(Some(lobbyId), Some(playerId))
      && r.store.lobbies.Keys == st.lobbies.Keys + {lobbyId}
      && forall id :: id in st.lobbies && id != lobbyId ==> r.store.lobbies[id] == st.lobbies[id]
  {
    var r := CreateLobby(st, socket, lobbyId, playerId, playerName);
    assert r.store.lobbies[lobbyId].players[0].id == playerId;
  }

  lemma CreatePreservesValid<G>(st: Store<G>, socket: SocketId, lobbyId: LobbyId, playerId: PlayerId, playerName: string)
    requires Valid(st)
    ensures Valid(CreateLobby(st, socket, lobbyId, playerId, playerName).store)
  {
    CreateLobbyEffect(st, socket, lobbyId, playerId, playerName);
  }

  // ------------------------------------------------------------------ join

  /** The acknowledgement of `join-lobby` and its error text, by the ordered
      checks: unknown id, then reconnection, then full, then in game. */
  lemma JoinAcknowledgement<G>(st: Store<G>, lobbyId: LobbyId, playerId: PlayerId)
    ensures var ack := AckOf(Decide(st, lobbyId, playerId));
      && (lobbyId !in st.lobbies ==> ack == Rejected(LobbyNotFound) && ErrorMessage(ack.error) == "Lobby not found")
      && (lobbyId in st.lobbies && Member(st.lobbies[lobbyId].players, playerId) ==> ack == Joined)
      && (lobbyId in st.lobbies && !Member(st.lobbies[lobbyId].players, playerId) && |st.lobbies[lobbyId].players| >= MaxPlayers
          ==> ack == Rejected(LobbyFull) && ErrorMessage(ack.error) == "Lobby is full")
      && (lobbyId in st.lobbies && !Member(st.lobbies[lobbyId].players, playerId) && |st.lobbies[lobbyId].players| < MaxPlayers
          && st.lobbies[lobbyId].status == InGame
          ==> ack == Rejected(GameInProgress) && ErrorMessage(ack.error) == "Game already in progress")
      && (ack == Joined <==> Decide(st, lobbyId, playerId).Reconnect? || Decide(st, lobbyId, playerId) == Append)
  {
  }

  /** A refused join changes neither the store, the registry nor the session. */
  lemma JoinRejectedChangesNothing<G>(st: Store<G>, sess: Session, socket: SocketId, lobbyId: LobbyId, playerId: PlayerId, playerName: string)
    requires AckOf(Decide(st, lobbyId, playerId)).Rejected?
    ensures JoinLobby(st, sess, socket, lobbyId, playerId, playerName) == Outcome(st, sess)
  {
  }

  /** A join by a player id already in the lobby is a reconnection, whatever
      the lobby's size and status: only that player's socket, the registry
      entry and the session change. The record keeps its `ready` and
      `disconnected` flags. */
  lemma JoinReconnect<G>(st: Store<G>, sess: Session, socket: SocketId, lobbyId: LobbyId, playerId: PlayerId, playerName: string, i: nat)
    requires lobbyId in st.lobbies && i < |st.lobbies[lobbyId].players|
    requires UniqueIds(st.lobbies[lobbyId].players) && st.lobbies[lobbyId].players[i].id == playerId
    ensures var l := st.lobbies[lobbyId];
      var r := JoinLobby(st, sess, socket, lobbyId, playerId, playerName);
      && AckOf(Decide(st, lobbyId, playerId)) == Joined
      && lobbyId in r.store.lobbies
      && r.store.lobbies[lobbyId].players == l.players[i := l.players[i].(socketId := socket)]
      && |r.store.lobbies[lobbyId].players| == |l.players|
      && r.store.lobbies[lobbyId].players[i].ready == l.players[i].ready
      && r.store.lobbies[lobbyId].players[i].disconnected == l.players[i].disconnected
      && r.store.lobbies[lobbyId].hostId == l.hostId
      && r.store.lobbies[lobbyId].status == l.status
      && r.store.lobbies[lobbyId].gameState == l.gameState
      && r.store.lobbies == st.lobbies[lobbyId := r.store.lobbies[lobbyId]]
      && r.store.sockets == st.sockets[playerId := socket]
      && r.session == Session(Some(lobbyId), Some(playerId))
  {
    var d := Decide(st, lobbyId, playerId);
    assert d.Reconnect? by {
      assert Member(st.lobbies[lobbyId].players, playerId);
    }
    assert d.index == i;
  }

  /** A new player is appended only to a lobby that had fewer than two
      players and was waiting; it arrives not ready. */
  lemma JoinAppend<G>(st: Store<G>, sess: Session, socket: SocketId, lobbyId: LobbyId, playerId: PlayerId, playerName: string)
    requires lobbyId in st.lobbies
    ensures var l := st.lobbies[lobbyId];
      var r := JoinLobby(st, sess, socket, lobbyId, playerId, playerName);
      && (lobbyId in r.store.lobbies && |r.store.lobbies[lobbyId].players| > |l.players| <==> Decide(st, lobbyId, playerId) == Append)
      && (Decide(st, lobbyId, playerId) == Append ==>
            && |l.players| < MaxPlayers && l.status == Waiting && !Member(l.players, playerId)
            && r.store.lobbies[lobbyId].players == l.players + [NewPlayer(playerId, socket, playerName)]
            && r.store.lobbies[lobbyId].hostId == l.hostId
            && r.store.lobbies == st.lobbies[lobbyId := r.store.lobbies[lobbyId]]
            && r.store.sockets == st.sockets[playerId := socket]
            && r.session == Session(Some(lobbyId), Some(playerId)))
  {
    var d := Decide(st, lobbyId, playerId);
    if d.Reconnect? {
      SameIdUpdate(st.lobbies[lobbyId].players, d.index, st.lobbies[lobbyId].players[d.index].(socketId := socket));
    }
  }

  lemma JoinPreservesValid<G>(st: Store<G>, sess: Session, socket: SocketId, lobbyId: LobbyId, playerId: PlayerId, playerName: string)
    requires Valid(st)
    ensures Valid(JoinLobby(st, sess, socket, lobbyId, playerId, playerName).store)
  {
    var r := JoinLobby(st, sess, socket, lobbyId, playerId, playerName);
    match Decide(st, lobbyId, playerId)
    case Reconnect(i) =>
      var ps := st.lobbies[lobbyId].players;
      SameIdUpdate(ps, i, ps[i].(socketId := socket));
      assert LobbyValid(lobbyId, r.store.lobbies[lobbyId]);
    case Append =>
      var ps := st.lobbies[lobbyId].players;
      var qs := ps + [NewPlayer(playerId, socket, playerName)];
      assert forall a :: 0 <= a < |ps| ==> qs[a] == ps[a];
      assert UniqueIds(qs);
      var host := st.lobbies[lobbyId].hostId;
      var k :| 0 <= k < |ps| && ps[k].id == host;
      assert qs[k] == ps[k];
      assert LobbyValid(lobbyId, r.store.lobbies[lobbyId]);
    case _ =>
  }

  // ----------------------------------------------------------------- leave

  /** Without a session, or when the session's lobby is no longer stored,
      `leave-lobby` returns before changing anything, the session included. */
  lemma LeaveNoop<G>(st: Store<G>, sess: Session)
    requires !Live(sess) || sess.lobbyId.value !in st.lobbies
    ensures LeaveLobby(st, sess) == Outcome(st, sess)
  {
  }

  /** `leave-lobby` from a live session removes exactly the caller's record,
      hands the host role to the first remaining player when the host left,
      deletes the lobby when nobody remains, drops the caller's registry
      entry and clears the session. */
  lemma LeaveEffect<G>(st: Store<G>, sess: Session, i: nat)
    requires Valid(st) && Live(sess) && sess.lobbyId.value in st.lobbies
    requires i < |st.lobbies[sess.lobbyId.value].players| && st.lobbies[sess.lobbyId.value].players[i].id == sess.playerId.value
    ensures var lobbyId, playerId := sess.lobbyId.value, sess.playerId.value;
      var l := st.lobbies[lobbyId];
      var rest := l.players[..i] + l.players[i + 1..];
      var r := LeaveLobby(st, sess);
      && r.session == NoSession
      && r.store.sockets == st.sockets - {playerId}
      && (rest == [] ==> r.store.lobbies == st.lobbies - {lobbyId})
      && (rest != [] ==>
            && r.store.lobbies.Keys == st.lobbies.Keys
            && r.store.lobbies[lobbyId].players == rest
            && r.store.lobbies[lobbyId].hostId == (if l.hostId == playerId then rest[0].id else l.hostId)
            && r.store.lobbies[lobbyId].status == l.status
            && r.store.lobbies[lobbyId].gameState == l.gameState)
      && forall id :: id in st.lobbies && id != lobbyId ==> id in r.store.lobbies && r.store.lobbies[id] == st.lobbies[id]
  {
    WithoutAt(st.lobbies[sess.lobbyId.value].players, i);
  }

  /** A stale session (its player no longer in the lobby) leaves the lobby's
      players and host as they were, but still drops the registry entry and
      clears the session. */
  lemma LeaveStale<G>(st: Store<G>, sess: Session)
    requires Valid(st) && Live(sess) && sess.lobbyId.value in st.lobbies
    requires !Member(st.lobbies[sess.lobbyId.value].players, sess.playerId.value)
    ensures var r := LeaveLobby(st, sess);
      && r.store.lobbies == st.lobbies
      && r.store.sockets == st.sockets - {sess.playerId.value}
      && r.session == NoSession
  {
    var l := st.lobbies[sess.lobbyId.value];
    assert l.(players := l.players, hostId := l.hostId) == l;
  }

  /** The lobby a leave keeps, when players remain, still satisfies the
      invariant: the filter keeps ids unique and the host among the players. */
  lemma LeftLobbyValid<G>(key: LobbyId, l: Lobby<G>, playerId: PlayerId)
    requires LobbyValid(key, l)
    requires |Without(l.players, playerId)| > 0
    ensures var remaining := Without(l.players, playerId);
      LobbyValid(key, l.(players := remaining, hostId := if l.hostId == playerId then remaining[0].id else l.hostId))
  {
    var remaining := Without(l.players, playerId);
    WithoutUnique(l.players, playerId);
    if l.hostId != playerId {
      var k :| 0 <= k < |l.players| && l.players[k].id == l.hostId;
      assert l.players[k] in remaining;
    }
  }

  lemma LeavePreservesValid<G>(st: Store<G>, sess: Session)
    requires Valid(st)
    ensures Valid(LeaveLobby(st, sess).store)
  {
    if Live(sess) && sess.lobbyId.value in st.lobbies {
      var l := st.lobbies[sess.lobbyId.value];
      if |Without(l.players, sess.playerId.value)| > 0 {
        LeftLobbyValid(sess.lobbyId.value, l, sess.playerId.value);
      }
    }
  }

  // ---------------------------------------------------------- toggle-ready

  /** `toggle-ready` is a no-op without a session, when the lobby is gone or
      when the caller is no longer one of its players. */
  lemma ToggleNoop<G>(st: Store<G>, sess: Session)
    requires !Live(sess) || sess.lobbyId.value !in st.lobbies || !Member(st.lobbies[sess.lobbyId.value].players, sess.playerId.value)
    ensures ToggleReady(st, sess) == st
  {
  }

  /** Otherwise it flips `ready` on the caller's record and changes nothing
      else: no other field, no other player, no other lobby. */
  lemma ToggleEffect<G>(st: Store<G>, sess: Session)
    requires Valid(st) && Live(sess) && sess.lobbyId.value in st.lobbies
    ensures var lobbyId, playerId := sess.lobbyId.value, sess.playerId.value;
      var ps := st.lobbies[lobbyId].players;
      var r := ToggleReady(st, sess);
      && r.sockets == st.sockets
      && r.lobbies.Keys == st.lobbies.Keys
      && (forall id :: id in st.lobbies && id != lobbyId ==> r.lobbies[id] == st.lobbies[id])
      && r.lobbies[lobbyId] == st.lobbies[lobbyId].(players := r.lobbies[lobbyId].players)
      && |r.lobbies[lobbyId].players| == |ps|
      && forall k :: 0 <= k < |ps| ==>
           r.lobbies[lobbyId].players[k] == if ps[k].id == playerId then ps[k].(ready := !ps[k].ready) else ps[k]
  {
    var ps := st.lobbies[sess.lobbyId.value].players;
    var playerId := sess.playerId.value;
    match Find(ps, playerId)
    case None =>
    case Some(i) =>
      forall k | 0 <= k < |ps| && ps[k].id == playerId ensures k == i {
        assert ps[k].id == ps[i].id;
      }
  }

  /** Toggling twice restores the state. */
  lemma ToggleTwice<G>(st: Store<G>, sess: Session)
    ensures ToggleReady(ToggleReady(st, sess), sess) == st
  {
    if Live(sess) && sess.lobbyId.value in st.lobbies {
      var lobbyId, playerId := sess.lobbyId.value, sess.playerId.value;
      var l := st.lobbies[lobbyId];
      match Find(l.players, playerId)
      case None =>
      case Some(i) =>
        var p := l.players[i];
        var once := l.players[i := p.(ready := !p.ready)];
        FindSameIds(l.players, i, p.(ready := !p.ready), playerId);
        assert ToggleReady(st, sess).lobbies[lobbyId] == l.(players := once);
        assert once[i := once[i].(ready := !once[i].ready)] == l.players;
    }
  }

  lemma TogglePreservesValid<G>(st: Store<G>, sess: Session)
    requires Valid(st)
    ensures Valid(ToggleReady(st, sess))
  {
    if Live(sess) && sess.lobbyId.value in st.lobbies {
      var l := st.lobbies[sess.lobbyId.value];
      match Find(l.players, sess.playerId.value)
      case None =>
      case Some(i) =>
        SameIdUpdate(l.players, i, l.players[i].(ready := !l.players[i].ready));
    }
  }

  // ------------------------------------------------------------ start-game

  /** `start-game` changes the store exactly when the caller is the host and
      every player is ready; it then puts the lobby in game with the initial
      payload, and touches nothing else. */
  lemma StartGameEffect<G>(st: Store<G>, sess: Session, initial: G)
    ensures !CanStart(st, sess) ==> StartGame(st, sess, initial) == st
    ensures CanStart(st, sess) ==>
      var lobbyId := sess.lobbyId.value;
      var l := st.lobbies[lobbyId];
      StartGame(st, sess, initial) == st.(lobbies := st.lobbies[lobbyId := l.(status := InGame, gameState := Some(initial))])
  {
  }

  lemma StartPreservesValid<G>(st: Store<G>, sess: Session, initial: G)
    requires Valid(st)
    ensures Valid(StartGame(st, sess, initial))
  {
  }

  // ----------------------------------------------------- game-state-update

  /** `game-state-update` overwrites the game state of the session's lobby
      when it is in game, and otherwise changes nothing; players, host and
      status are never touched. */
  lemma GameStateUpdateEffect<G>(st: Store<G>, sess: Session, state: G)
    ensures var r := GameStateUpdate(st, sess, state);
      && r.sockets == st.sockets
      && r.lobbies.Keys == st.lobbies.Keys
      && (forall id :: id in st.lobbies ==>
            r.lobbies[id] == st.lobbies[id].(gameState := r.lobbies[id].gameState))
      && (if HasLobby(sess) && sess.lobbyId.value in st.lobbies && st.lobbies[sess.lobbyId.value].status == InGame
          then r.lobbies[sess.lobbyId.value].gameState == Some(state)
          else r == st)
  {
    var r := GameStateUpdate(st, sess, state);
    forall id | id in st.lobbies
      ensures r.lobbies[id] == st.lobbies[id].(gameState := r.lobbies[id].gameState)
    {
    }
  }

  /** The update is accepted from any session that has a lobby, whatever its
      player: the handler does not look at `playerData`. */
  lemma GameStateUpdateIgnoresPlayer<G>(st: Store<G>, lobbyId: Option<LobbyId>, a: Option<PlayerId>, b: Option<PlayerId>, state: G)
    ensures GameStateUpdate(st, Session(lobbyId, a), state) == GameStateUpdate(st, Session(lobbyId, b), state)
  {
  }

  lemma GameStateUpdatePreservesValid<G>(st: Store<G>, sess: Session, state: G)
    requires Valid(st)
    ensures Valid(GameStateUpdate(st, sess, state))
  {
  }

  // ------------------------------------------------------------ disconnect

  /** `disconnect` marks the caller's record disconnected and changes nothing
      else: membership, host, ready flags, status and registry stay. */
  lemma DisconnectEffect<G>(st: Store<G>, sess: Session)
    requires Valid(st)
    ensures var r := Disconnect(st, sess);
      && r.sockets == st.sockets
      && r.lobbies.Keys == st.lobbies.Keys
      && forall id :: id in st.lobbies ==>
           && r.lobbies[id] == st.lobbies[id].(players := r.lobbies[id].players)
           && |r.lobbies[id].players| == |st.lobbies[id].players|
           && forall k :: 0 <= k < |st.lobbies[id].players| ==>
                r.lobbies[id].players[k] ==
                  if Live(sess) && id == sess.lobbyId.value && st.lobbies[id].players[k].id == sess.playerId.value
                  then st.lobbies[id].players[k].(disconnected := true)
                  else st.lobbies[id].players[k]
  {
    var r := Disconnect(st, sess);
    if Live(sess) && sess.lobbyId.value in st.lobbies {
      var ps := st.lobbies[sess.lobbyId.value].players;
      match Find(ps, sess.playerId.value)
      case None =>
      case Some(i) =>
        forall k | 0 <= k < |ps| && ps[k].id == sess.playerId.value ensures k == i {
          assert ps[k].id == ps[i].id;
        }
    }
  }

  /** After a disconnect from a live session whose player is present, the
      30-second timer's check holds for that player. */
  lemma DisconnectArmsTimer<G>(st: Store<G>, sess: Session)
    requires Live(sess) && sess.lobbyId.value in st.lobbies && Member(st.lobbies[sess.lobbyId.value].players, sess.playerId.value)
    ensures StillDisconnected(Disconnect(st, sess), sess.lobbyId.value, sess.playerId.value)
  {
    var i := Find(st.lobbies[sess.lobbyId.value].players, sess.playerId.value).value;
    assert Disconnect(st, sess).lobbies[sess.lobbyId.value].players[i].disconnected;
  }

  /** A reconnecting join does not clear `disconnected`: a player the timer
      would consider still disconnected remains so after rejoining. */
  lemma ReconnectKeepsDisconnected<G>(st: Store<G>, sess: Session, socket: SocketId, lobbyId: LobbyId, playerId: PlayerId, playerName: string)
    requires StillDisconnected(st, lobbyId, playerId)
    ensures Decide(st, lobbyId, playerId).Reconnect?
    ensures StillDisconnected(JoinLobby(st, sess, socket, lobbyId, playerId, playerName).store, lobbyId, playerId)
  {
    var ps := st.lobbies[lobbyId].players;
    var k :| 0 <= k < |ps| && ps[k].id == playerId && ps[k].disconnected;
    var i := Decide(st, lobbyId, playerId).index;
    var qs := JoinLobby(st, sess, socket, lobbyId, playerId, playerName).store.lobbies[lobbyId].players;
    assert qs == ps[i := ps[i].(socketId := socket)];
    if i == k {
      assert qs[i].disconnected;
    } else {
      assert qs[k] == ps[k];
    }
  }

  lemma DisconnectPreservesValid<G>(st: Store<G>, sess: Session)
    requires Valid(st)
    ensures Valid(Disconnect(st, sess))
  {
    if Live(sess) && sess.lobbyId.value in st.lobbies {
      var l := st.lobbies[sess.lobbyId.value];
      match Find(l.players, sess.playerId.value)
      case None =>
      case Some(i) =>
        SameIdUpdate(l.players, i, l.players[i].(disconnected := true));
    }
  }
}
