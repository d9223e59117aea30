/** The socket server as it runs: two process-wide maps updated in place, and
    per connection the two variables its handlers read and reassign. Every
    handler is a method proved against the matching function of `Handlers`,
    and keeps the store invariant. */
module SocketServer {
  import opened Lobbies
  import H = Handlers
  import opened HandlerLemmas

  /** The process-wide state: `lobbies` and `playerSocketMap`. */
  class Server<G> {
    var lobbies: map<LobbyId, Lobby<G>>
    var playerSocketMap: map<PlayerId, SocketId>

    function Store(): H.Store<G>
      reads this
    {
      H.Store(lobbies, playerSocketMap)
    }

    ghost predicate Valid()
      reads this
    {
      H.Valid(Store())
    }

    constructor ()
      ensures Store() == H.Store(map[], map[])
      ensures Valid()
    {
      lobbies := map[];
      playerSocketMap := map[];
    }

    /** `cleanupLobby`. */
    method CleanupLobby(lobbyId: LobbyId)
      modifies this
      ensures lobbies == H.Cleanup(old(lobbies), lobbyId)
      ensures playerSocketMap == old(playerSocketMap)
    {
      if lobbyId !in lobbies {
        return;
      }
      var lobby := lobbies[lobbyId];
      if |lobby.players| == 0 {
        lobbies := lobbies - {lobbyId};
      }
    }
  }

  /** One client connection: its socket id and the session variables
      `currentLobbyId` and `playerData` (held as the player's id). */
  class Connection<G> {
    const server: Server<G>
    const socketId: SocketId
    var currentLobbyId: Option<LobbyId>
    var playerData: Option<PlayerId>

    function CurrentSession(): H.Session
      reads this
    {
      H.Session(currentLobbyId, playerData)
    }

    function State(): H.Outcome<G>
      reads this, server
    {
      H.Outcome(server.Store(), CurrentSession())
    }

    constructor (server: Server<G>, socketId: SocketId)
      ensures this.server == server && this.socketId == socketId
      ensures CurrentSession() == H.NoSession
    {
      this.server := server;
      this.socketId := socketId;
      currentLobbyId := None;
      playerData := None;
    }

    /** `create-lobby`, with `lobbyId` the id `generateLobbyId` returned;
        acknowledges with that id. */
    method CreateLobby(lobbyId: LobbyId, playerId: PlayerId, playerName: string) returns (ack: LobbyId)
      requires server.Valid()
      modifies this, server
      ensures server.Valid()
      ensures State() == H.CreateLobby(old(server.Store()), socketId, lobbyId, playerId, playerName)
      ensures ack == lobbyId
    {
      var player := NewPlayer(playerId, socketId, playerName);
      var lobby := Lobby(lobbyId, playerId, [player], Waiting, None);
      server.lobbies := server.lobbies[lobbyId := lobby];
      server.playerSocketMap := server.playerSocketMap[playerId := socketId];
      currentLobbyId := Some(lobbyId);
      playerData := Some(playerId);
      ack := lobbyId;
      CreatePreservesValid(old(server.Store()), socketId, lobbyId, playerId, playerName);
    }

    /** `join-lobby`; the acknowledgement is what its callback receives. */
    method JoinLobby(lobbyId: LobbyId, playerId: PlayerId, playerName: string) returns (ack: H.JoinAck)
      requires server.Valid()
      modifies this, server
      ensures server.Valid()
      ensures State() == H.JoinLobby(old(server.Store()), old(CurrentSession()), socketId, lobbyId, playerId, playerName)
      ensures ack == H.AckOf(H.Decide(old(server.Store()), lobbyId, playerId))
    {
      JoinPreservesValid(server.Store(), CurrentSession(), socketId, lobbyId, playerId, playerName);
      if lobbyId !in server.lobbies {
        return H.Rejected(H.LobbyNotFound);
      }
      var lobby := server.lobbies[lobbyId];
      var existing := Find(lobby.players, playerId);
      if existing.Some? {
        var i := existing.value;
        var players := lobby.players[i := lobby.players[i].(socketId := socketId)];
        server.lobbies := server.lobbies[lobbyId := lobby.(players := players)];
        server.playerSocketMap := server.playerSocketMap[playerId := socketId];
        currentLobbyId := Some(lobbyId);
        playerData := Some(playerId);
        return H.Joined;
      }
      if |lobby.players| >= MaxPlayers {
        return H.Rejected(H.LobbyFull);
      }
      if lobby.status == InGame {
        return H.Rejected(H.GameInProgress);
      }
      var player := NewPlayer(playerId, socketId, playerName);
      server.lobbies := server.lobbies[lobbyId := lobby.(players := lobby.players + [player])];
      server.playerSocketMap := server.playerSocketMap[playerId := socketId];
      currentLobbyId := Some(lobbyId);
      playerData := Some(playerId);
      ack := H.Joined;
    }

    /** `leave-lobby`. */
    method LeaveLobby()
      requires server.Valid()
      modifies this, server
      ensures server.Valid()
      ensures State() == H.LeaveLobby(old(server.Store()), old(CurrentSession()))
    {
      LeavePreservesValid(server.Store(), CurrentSession());
      if currentLobbyId.None? || currentLobbyId.value == "" || playerData.None? {
        return;
      }
      var lobbyId, playerId := currentLobbyId.value, playerData.value;
      if lobbyId !in server.lobbies {
        return;
      }
      var lobby := server.lobbies[lobbyId];
      lobby := lobby.(players := Without(lobby.players, playerId));
      server.playerSocketMap := server.playerSocketMap - {playerId};
      if lobby.hostId == playerId && |lobby.players| > 0 {
        lobby := lobby.(hostId := lobby.players[0].id);
      }
      server.lobbies := server.lobbies[lobbyId := lobby];
      server.CleanupLobby(lobbyId);
      currentLobbyId := None;
      playerData := None;
    }

    /** `toggle-ready`. */
    method ToggleReady()
      requires server.Valid()
      modifies server
      ensures server.Valid()
      ensures server.Store() == H.ToggleReady(old(server.Store()), CurrentSession())
    {
      TogglePreservesValid(server.Store(), CurrentSession());
      if currentLobbyId.None? || currentLobbyId.value == "" || playerData.None? {
        return;
      }
      var lobbyId := currentLobbyId.value;
      if lobbyId !in server.lobbies {
        return;
      }
      var lobby := server.lobbies[lobbyId];
      var found := Find(lobby.players, playerData.value);
      if found.Some? {
        var i := found.value;
        var player := lobby.players[i];
        var players := lobby.players[i := player.(ready := !player.ready)];
        server.lobbies := server.lobbies[lobbyId := lobby.(players := players)];
      }
    }

    /** `start-game` with the host's initial game state. */
    method StartGame(initial: G)
      requires server.Valid()
      modifies server
      ensures server.Valid()
      ensures server.Store() == H.StartGame(old(server.Store()), CurrentSession(), initial)
    {
      StartPreservesValid(server.Store(), CurrentSession(), initial);
      if currentLobbyId.None? || currentLobbyId.value == "" || playerData.None? {
        return;
      }
      var lobbyId := currentLobbyId.value;
      if lobbyId !in server.lobbies || server.lobbies[lobbyId].hostId != playerData.value {
        return;
      }
      var lobby := server.lobbies[lobbyId];
      if !AllReady(lobby.players) {
        return;
      }
      server.lobbies := server.lobbies[lobbyId := lobby.(status := InGame, gameState := Some(initial))];
    }

    /** `game-state-update`. */
    method GameStateUpdate(state: G)
      requires server.Valid()
      modifies server
      ensures server.Valid()
      ensures server.Store() == H.GameStateUpdate(old(server.Store()), CurrentSession(), state)
    {
      GameStateUpdatePreservesValid(server.Store(), CurrentSession(), state);
      if currentLobbyId.None? || currentLobbyId.value == "" {
        return;
      }
      var lobbyId := currentLobbyId.value;
      if lobbyId !in server.lobbies || server.lobbies[lobbyId].status != InGame {
        return;
      }
      var lobby := server.lobbies[lobbyId];
      server.lobbies := server.lobbies[lobbyId := lobby.(gameState := Some(state))];
    }

    /** `disconnect`. The timer it arms is not run here; its check is
        `Handlers.StillDisconnected`. */
    method Disconnect()
      requires server.Valid()
      modifies server
      ensures server.Valid()
      ensures server.Store() == H.Disconnect(old(server.Store()), CurrentSession())
    {
      DisconnectPreservesValid(server.Store(), CurrentSession());
      if currentLobbyId.Some? && currentLobbyId.value != "" && playerData.Some? {
        var lobbyId := currentLobbyId.value;
        if lobbyId in server.lobbies {
          var lobby := server.lobbies[lobbyId];
          var found := Find(lobby.players, playerData.value);
          if found.Some? {
            var i := found.value;
            var players := lobby.players[i := lobby.players[i].(disconnected := true)];
            server.lobbies := server.lobbies[lobbyId := lobby.(players := players)];
          }
        }
      }
    }
  }
}
