/** The lobby server's state as values, and one function per socket event
    handler giving the state and the connection's session after it.

    The process-wide state is the lobby store (`lobbies`) and the registry of
    player sockets (`playerSocketMap`); each connection keeps a session, the
    pair (`currentLobbyId`, `playerData`). Handlers run one at a time to
    completion, so each is a function from the state before to the state
    after. */
module Handlers {
  import opened Lobbies

  datatype Store<G> = Store(lobbies: map<LobbyId, Lobby<G>>, sockets: map<PlayerId, SocketId>)

  /** `playerData` is only ever read for its id, which is never written, so
      the session holds that id. */
  datatype Session = Session(lobbyId: Option<LobbyId>, playerId: Option<PlayerId>)

  const NoSession := Session(None, None)

  datatype Outcome<G> = Outcome(store: Store<G>, session: Session)

  /** `currentLobbyId` is truthy: set, and not the empty string. */
  predicate HasLobby(s: Session)
  {
    s.lobbyId.Some? && s.lobbyId.value != ""
  }

  /** The guard `currentLobbyId && playerData` of leave, toggle-ready,
      start-game and disconnect. */
  predicate Live(s: Session)
  {
    HasLobby(s) && s.playerId.Some?
  }

  /** What every stored lobby satisfies between events. */
  predicate LobbyValid<G>(key: LobbyId, l: Lobby<G>)
  {
    && l.id == key
    && 1 <= |l.players| <= MaxPlayers
    && UniqueIds(l.players)
    && Member(l.players, l.hostId)
    && (l.status == Waiting ==> l.gameState == None)
  }

  predicate Valid<G>(st: Store<G>)
  {
    forall key :: key in st.lobbies ==> LobbyValid(key, st.lobbies[key])
  }

  /** `cleanupLobby`: delete the lobby if it exists and has no players. */
  function Cleanup<G>(lobbies: map<LobbyId, Lobby<G>>, lobbyId: LobbyId): (r: map<LobbyId, Lobby<G>>)
    ensures forall id :: id in r <==> id in lobbies && !(id == lobbyId && |lobbies[id].players| == 0)
    ensures forall id :: id in r ==> r[id] == lobbies[id]
  {
    if lobbyId in lobbies && |lobbies[lobbyId].players| == 0 then lobbies - {lobbyId} else lobbies
  }

  /** `create-lobby` with the id `generateLobbyId` returned. Any lobby already
      stored under that id is replaced. */
  function CreateLobby<G>(st: Store<G>, socket: SocketId, lobbyId: LobbyId, playerId: PlayerId, playerName: string): Outcome<G>
  {
    var lobby := Lobby(lobbyId, playerId, [NewPlayer(playerId, socket, playerName)], Waiting, None);
    Outcome(Store(st.lobbies[lobbyId := lobby], st.sockets[playerId := socket]), Session(Some(lobbyId), Some(playerId)))
  }

  /** The branch `join-lobby` takes, its checks made in the order the handler
      makes them. */
  datatype JoinDecision = NotFound | Reconnect(index: nat) | Full | InProgress | Append

  datatype JoinError = LobbyNotFound | LobbyFull | GameInProgress

  /** The acknowledgement a join sends back through its callback. */
  datatype JoinAck = Joined | Rejected(error: JoinError)

  function ErrorMessage(e: JoinError): string
  {
    match e
    case LobbyNotFound => "Lobby not found"
    case LobbyFull => "Lobby is full"
    case GameInProgress => "Game already in progress"
  }

  function Decide<G>(st: Store<G>, lobbyId: LobbyId, playerId: PlayerId): (d: JoinDecision)
    ensures d == NotFound <==> lobbyId !in st.lobbies
    ensures d.Reconnect? <==> lobbyId in st.lobbies && Member(st.lobbies[lobbyId].players, playerId)
    ensures d.Reconnect? ==> d.index < |st.lobbies[lobbyId].players| && st.lobbies[lobbyId].players[d.index].id == playerId
    ensures d == Full <==>
      lobbyId in st.lobbies && !Member(st.lobbies[lobbyId].players, playerId) && |st.lobbies[lobbyId].players| >= MaxPlayers
    ensures d == InProgress <==>
      lobbyId in st.lobbies && !Member(st.lobbies[lobbyId].players, playerId) && |st.lobbies[lobbyId].players| < MaxPlayers
      && st.lobbies[lobbyId].status == InGame
    ensures d == Append <==>
      lobbyId in st.lobbies && !Member(st.lobbies[lobbyId].players, playerId) && |st.lobbies[lobbyId].players| < MaxPlayers
      && st.lobbies[lobbyId].status == Waiting
  {
    if lobbyId !in st.lobbies then NotFound
    else
      var l := st.lobbies[lobbyId];
      match Find(l.players, playerId)
      case Some(i) => Reconnect(i)
      case None =>
        if |l.players| >= MaxPlayers then Full
        else if l.status == InGame then InProgress
        else assert l.status == Waiting; Append
  }

  function AckOf(d: JoinDecision): JoinAck
  {
    match d
    case NotFound => Rejected(LobbyNotFound)
    case Full => Rejected(LobbyFull)
    case InProgress => Rejected(GameInProgress)
    case _ => Joined
  }

  /** `join-lobby`. A reconnection rebinds the existing record's socket and
      nothing else of it (in particular not `disconnected`). */
  function JoinLobby<G>(st: Store<G>, sess: Session, socket: SocketId, lobbyId: LobbyId, playerId: PlayerId, playerName: string): Outcome<G>
  {
    match Decide(st, lobbyId, playerId)
    case Reconnect(i) =>
      var l := st.lobbies[lobbyId];
      var l' := l.(players := l.players[i := l.players[i].(socketId := socket)]);
      Outcome(Store(st.lobbies[lobbyId := l'], st.sockets[playerId := socket]), Session(Some(lobbyId), Some(playerId)))
    case Append =>
      var l := st.lobbies[lobbyId];
      var l' := l.(players := l.players + [NewPlayer(playerId, socket, playerName)]);
      Outcome(Store(st.lobbies[lobbyId := l'], st.sockets[playerId := socket]), Session(Some(lobbyId), Some(playerId)))
    case _ => Outcome(st, sess)
  }

  /** `leave-lobby`. Without a session, or when the session's lobby is gone,
      nothing changes, the session included. */
  function LeaveLobby<G>(st: Store<G>, sess: Session): Outcome<G>
  {
    if !Live(sess) || sess.lobbyId.value !in st.lobbies then Outcome(st, sess)
    else
      var lobbyId, playerId := sess.lobbyId.value, sess.playerId.value;
      var l := st.lobbies[lobbyId];
      var remaining := Without(l.players, playerId);
      var host := if l.hostId == playerId && |remaining| > 0 then remaining[0].id else l.hostId;
      var lobbies := st.lobbies[lobbyId := l.(players := remaining, hostId := host)];
      Outcome(Store(Cleanup(lobbies, lobbyId), st.sockets - {playerId}), NoSession)
  }

  /** `toggle-ready`; the session is not changed. */
  function ToggleReady<G>(st: Store<G>, sess: Session): Store<G>
  {
    if !Live(sess) || sess.lobbyId.value !in st.lobbies then st
    else
      var lobbyId := sess.lobbyId.value;
      var l := st.lobbies[lobbyId];
      match Find(l.players, sess.playerId.value)
      case None => st
      case Some(i) =>
        var p := l.players[i];
        st.(lobbies := st.lobbies[lobbyId := l.(players := l.players[i := p.(ready := !p.ready)])])
  }

  /** The guard of `start-game`: the caller is the host and everyone is ready. */
  predicate CanStart<G>(st: Store<G>, sess: Session)
  {
    && Live(sess)
    && sess.lobbyId.value in st.lobbies
    && st.lobbies[sess.lobbyId.value].hostId == sess.playerId.value
    && AllReady(st.lobbies[sess.lobbyId.value].players)
  }

  /** `start-game`; the session is not changed. */
  function StartGame<G>(st: Store<G>, sess: Session, initial: G): Store<G>
  {
    if !Live(sess) then st
    else
      var lobbyId := sess.lobbyId.value;
      if lobbyId !in st.lobbies || st.lobbies[lobbyId].hostId != sess.playerId.value then st
      else if !AllReady(st.lobbies[lobbyId].players) then st
      else st.(lobbies := st.lobbies[lobbyId := st.lobbies[lobbyId].(status := InGame, gameState := Some(initial))])
  }

  /** `game-state-update`: only `currentLobbyId` is checked, not `playerData`. */
  function GameStateUpdate<G>(st: Store<G>, sess: Session, state: G): Store<G>
  {
    if !HasLobby(sess) then st
    else
      var lobbyId := sess.lobbyId.value;
      if lobbyId !in st.lobbies || st.lobbies[lobbyId].status != InGame then st
      else st.(lobbies := st.lobbies[lobbyId := st.lobbies[lobbyId].(gameState := Some(state))])
  }

  /** `disconnect`: mark the caller's record, remove nothing. The session is
      not changed. */
  function Disconnect<G>(st: Store<G>, sess: Session): Store<G>
  {
    if !Live(sess) || sess.lobbyId.value !in st.lobbies then st
    else
      var lobbyId := sess.lobbyId.value;
      var l := st.lobbies[lobbyId];
      match Find(l.players, sess.playerId.value)
      case None => st
      case Some(i) =>
        st.(lobbies := st.lobbies[lobbyId := l.(players := l.players[i := l.players[i].(disconnected := true)])])
  }

  /** The check the 30-second timer armed by a disconnect makes when it fires:
      the lobby still exists and holds a player with that id marked
      disconnected. When it holds, the timer only emits `leave-lobby` to the
      client socket; the server state is not touched. */
  predicate StillDisconnected<G>(st: Store<G>, lobbyId: LobbyId, playerId: PlayerId)
  {
    && lobbyId in st.lobbies
    && exists k :: 0 <= k < |st.lobbies[lobbyId].players|
         && st.lobbies[lobbyId].players[k].id == playerId && st.lobbies[lobbyId].players[k].disconnected
  }
}
