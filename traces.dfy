/** Any interleaving of socket events from any number of connections, each
    handled to completion before the next, as the Node event loop runs them.
    Properties that hold for every such run: the store invariant, and that a
    lobby in game never goes back to waiting unless a create reuses its id. */
module Traces {
  import opened Lobbies
  import H = Handlers
  import opened HandlerLemmas

  /** The events a client sends, with their payloads. */
  datatype Event<G> =
    | Create(lobbyId: LobbyId, playerId: PlayerId, playerName: string)
    | Join(lobbyId: LobbyId, playerId: PlayerId, playerName: string)
    | Leave
    | ToggleReady
    | StartGame(initial: G)
    | GameStateUpdate(state: G)
    | Disconnect

  /** An event arriving on the connection with socket id `socket`. For a
      create, `lobbyId` is the id `generateLobbyId` returned. */
  datatype Action<G> = Action(socket: SocketId, event: Event<G>)

  /** The shared store and every connection's session; a connection not in
      `sessions` has the initial empty session. */
  datatype World<G> = World(store: H.Store<G>, sessions: map<SocketId, H.Session>)

  const Initial: World<int> := World(H.Store(map[], map[]), map[])

  function SessionOf(sessions: map<SocketId, H.Session>, socket: SocketId): H.Session
  {
    if socket in sessions then sessions[socket] else H.NoSession
  }

  /** The handler the event is dispatched to. */
  function Handle<G>(st: H.Store<G>, sess: H.Session, socket: SocketId, ev: Event<G>): H.Outcome<G>
  {
    match ev
    case Create(lobbyId, playerId, playerName) => H.CreateLobby(st, socket, lobbyId, playerId, playerName)
    case Join(lobbyId, playerId, playerName) => H.JoinLobby(st, sess, socket, lobbyId, playerId, playerName)
    case Leave => H.LeaveLobby(st, sess)
    case ToggleReady => H.Outcome(H.ToggleReady(st, sess), sess)
    case StartGame(initial) => H.Outcome(H.StartGame(st, sess, initial), sess)
    case GameStateUpdate(state) => H.Outcome(H.GameStateUpdate(st, sess, state), sess)
    case Disconnect => H.Outcome(H.Disconnect(st, sess), sess)
  }

  function Step<G>(w: World<G>, a: Action<G>): World<G>
  {
    var o := Handle(w.store, SessionOf(w.sessions, a.socket), a.socket, a.event);
    World(o.store, w.sessions[a.socket := o.session])
  }

  function Run<G>(w: World<G>, trace: seq<Action<G>>): World<G>
    decreases |trace|
  {
    if trace == [] then w else Run(Step(w, trace[0]), trace[1..])
  }

  /** Every handler keeps every stored lobby non-empty, within two players,
      with unique ids, a host among its players, and no game state while
      waiting. */
  lemma HandlePreservesValid<G>(st: H.Store<G>, sess: H.Session, socket: SocketId, ev: Event<G>)
    requires H.Valid(st)
    ensures H.Valid(Handle(st, sess, socket, ev).store)
  {
    match ev
    case Create(lobbyId, playerId, playerName) => CreatePreservesValid(st, socket, lobbyId, playerId, playerName);
    case Join(lobbyId, playerId, playerName) => JoinPreservesValid(st, sess, socket, lobbyId, playerId, playerName);
    case Leave => LeavePreservesValid(st, sess);
    case ToggleReady => TogglePreservesValid(st, sess);
    case StartGame(initial) => StartPreservesValid(st, sess, initial);
    case GameStateUpdate(state) => GameStateUpdatePreservesValid(st, sess, state);
    case Disconnect => DisconnectPreservesValid(st, sess);
  }

  /** Whatever the interleaving, the invariant holds after every run from a
      state where it holds, in particular from the empty store. */
  lemma {:induction false} RunPreservesValid<G>(w: World<G>, trace: seq<Action<G>>)
    requires H.Valid(w.store)
    ensures H.Valid(Run(w, trace).store)
    decreases |trace|
  {
    if trace != [] {
      HandlePreservesValid(w.store, SessionOf(w.sessions, trace[0].socket), trace[0].socket, trace[0].event);
      RunPreservesValid(Step(w, trace[0]), trace[1..]);
    }
  }

  /** No lobby ever holds more than two players, has none, or repeats an id. */
  lemma RunBounds<G>(w: World<G>, trace: seq<Action<G>>, lobbyId: LobbyId)
    requires H.Valid(w.store)
    requires lobbyId in Run(w, trace).store.lobbies
    ensures 1 <= |Run(w, trace).store.lobbies[lobbyId].players| <= MaxPlayers
    ensures UniqueIds(Run(w, trace).store.lobbies[lobbyId].players)
  {
    RunPreservesValid(w, trace);
  }

  predicate InGameOrGone<G>(st: H.Store<G>, lobbyId: LobbyId)
  {
    lobbyId in st.lobbies ==> st.lobbies[lobbyId].status == InGame
  }

  predicate CreatesWith<G>(ev: Event<G>, lobbyId: LobbyId)
  {
    ev.Create? && ev.lobbyId == lobbyId
  }

  /** Only a create stores a lobby under an id not stored before, and no
      handler but a create under that id moves an in-game lobby back to
      waiting. */
  lemma HandleKeepsInGame<G>(st: H.Store<G>, sess: H.Session, socket: SocketId, ev: Event<G>, lobbyId: LobbyId)
    requires InGameOrGone(st, lobbyId) && !CreatesWith(ev, lobbyId)
    ensures InGameOrGone(Handle(st, sess, socket, ev).store, lobbyId)
  {
  }

  /** A lobby in game stays in game, or disappears, through any run that
      does not create a lobby under its id. */
  lemma {:induction false} RunKeepsInGame<G>(w: World<G>, trace: seq<Action<G>>, lobbyId: LobbyId)
    requires InGameOrGone(w.store, lobbyId)
    requires forall k :: 0 <= k < |trace| ==> !CreatesWith(trace[k].event, lobbyId)
    ensures InGameOrGone(Run(w, trace).store, lobbyId)
    decreases |trace|
  {
    if trace != [] {
      HandleKeepsInGame(w.store, SessionOf(w.sessions, trace[0].socket), trace[0].socket, trace[0].event, lobbyId);
      assert forall k :: 0 <= k < |trace[1..]| ==> trace[1..][k] == trace[k + 1];
      RunKeepsInGame(Step(w, trace[0]), trace[1..], lobbyId);
    }
  }

  /** A create whose generated id collides with an in-game lobby replaces it
      by a fresh waiting lobby: the one way status goes back. */
  lemma CreateCollisionResetsStatus<G>(st: H.Store<G>, sess: H.Session, socket: SocketId, lobbyId: LobbyId, playerId: PlayerId, playerName: string)
    requires lobbyId in st.lobbies && st.lobbies[lobbyId].status == InGame
    ensures var r := Handle(st, sess, socket, Create(lobbyId, playerId, playerName)).store;
      !InGameOrGone(r, lobbyId) && r.lobbies[lobbyId].players == [NewPlayer(playerId, socket, playerName)]
  {
  }

  /** Some record of lobby `lobbyId` has id `playerId`. */
  predicate InLobby<G>(st: H.Store<G>, lobbyId: LobbyId, playerId: PlayerId)
  {
    lobbyId in st.lobbies && Member(st.lobbies[lobbyId].players, playerId)
  }

  /** The events that can take a player's record out of a lobby: a leave on
      a connection whose session names that lobby and that player, and a
      create that reuses the lobby id. A disconnect only marks the record,
      and its timer only emits to the client. */
  predicate Removes<G>(sess: H.Session, ev: Event<G>, lobbyId: LobbyId, playerId: PlayerId)
  {
    CreatesWith(ev, lobbyId) || (ev.Leave? && sess == H.Session(Some(lobbyId), Some(playerId)))
  }

  /** Every other event keeps the player in the lobby. */
  lemma HandleKeepsMember<G>(st: H.Store<G>, sess: H.Session, socket: SocketId, ev: Event<G>, lobbyId: LobbyId, playerId: PlayerId)
    requires InLobby(st, lobbyId, playerId) && !Removes(sess, ev, lobbyId, playerId)
    ensures InLobby(Handle(st, sess, socket, ev).store, lobbyId, playerId)
  {
    var ps := st.lobbies[lobbyId].players;
    var k :| 0 <= k < |ps| && ps[k].id == playerId;
    match ev
    case Leave =>
      if H.Live(sess) && sess.lobbyId.value == lobbyId {
        var remaining := Without(ps, sess.playerId.value);
        assert ps[k] in remaining;
        var j :| 0 <= j < |remaining| && remaining[j] == ps[k];
      }
    case Join(l, p, n) =>
      if l == lobbyId {
        match H.Decide(st, l, p)
        case Reconnect(i) => SameIdUpdate(ps, i, ps[i].(socketId := socket));
        case Append => assert (ps + [NewPlayer(p, socket, n)])[k] == ps[k];
        case _ =>
      }
    case ToggleReady =>
      if H.Live(sess) && sess.lobbyId.value == lobbyId {
        match Find(ps, sess.playerId.value)
        case Some(i) => SameIdUpdate(ps, i, ps[i].(ready := !ps[i].ready));
        case None =>
      }
    case Disconnect =>
      if H.Live(sess) && sess.lobbyId.value == lobbyId {
        match Find(ps, sess.playerId.value)
        case Some(i) => SameIdUpdate(ps, i, ps[i].(disconnected := true));
        case None =>
      }
    case _ =>
  }

  /** No event of the run, in the session it arrives in, removes the player. */
  predicate NoRemoval<G>(w: World<G>, trace: seq<Action<G>>, lobbyId: LobbyId, playerId: PlayerId)
    decreases |trace|
  {
    trace == [] ||
      (&& !Removes(SessionOf(w.sessions, trace[0].socket), trace[0].event, lobbyId, playerId)
       && NoRemoval(Step(w, trace[0]), trace[1..], lobbyId, playerId))
  }

  /** A player stays in the lobby through any run in which no connection
      bound to that player leaves it and no create reuses its id: being
      disconnected, however long, does not take the record out. */
  lemma {:induction false} RunKeepsMember<G>(w: World<G>, trace: seq<Action<G>>, lobbyId: LobbyId, playerId: PlayerId)
    requires InLobby(w.store, lobbyId, playerId) && NoRemoval(w, trace, lobbyId, playerId)
    ensures InLobby(Run(w, trace).store, lobbyId, playerId)
    decreases |trace|
  {
    if trace != [] {
      HandleKeepsMember(w.store, SessionOf(w.sessions, trace[0].socket), trace[0].socket, trace[0].event, lobbyId, playerId);
      RunKeepsMember(Step(w, trace[0]), trace[1..], lobbyId, playerId);
    }
  }

  /** The two-player scenario: A creates, B joins, both get ready, A starts
      the match with turn 1, B sends turn 2. */
  const Scenario: seq<Action<int>> := [
    Action("sA", Create("AB12CD", "a", "Ann")),
    Action("sB", Join("AB12CD", "b", "Bob")),
    Action("sA", ToggleReady),
    Action("sB", ToggleReady),
    Action("sA", StartGame(1)),
    Action("sB", GameStateUpdate(2))
  ]

  /** The lobby after the scenario: both players ready, A host, in game at
      turn 2. */
  const ScenarioLobby: Lobby<int> :=
    Lobby("AB12CD", "a", [Player("a", "sA", "Ann", true, false), Player("b", "sB", "Bob", true, false)], InGame, Some(2))

  /** Running one more action is one more step. */
  lemma {:induction false} RunSnoc<G>(w: World<G>, trace: seq<Action<G>>, a: Action<G>)
    ensures Run(w, trace + [a]) == Step(Run(w, trace), a)
    decreases |trace|
  {
    if trace == [] {
      assert [] + [a] == [a];
      assert [a][1..] == [];
    } else {
      assert (trace + [a])[0] == trace[0];
      assert (trace + [a])[1..] == trace[1..] + [a];
      RunSnoc(Step(w, trace[0]), trace[1..], a);
    }
  }

  const PlayerA := NewPlayer("a", "sA", "Ann")
  const PlayerB := NewPlayer("b", "sB", "Bob")
  const SessionA := H.Session(Some("AB12CD"), Some("a"))
  const SessionB := H.Session(Some("AB12CD"), Some("b"))

  /** A world of the scenario: lobby AB12CD hosted by A, with the given
      players, status and game state. */
  function ScenarioWorld(players: seq<Player>, status: Status, gameState: Option<int>,
                         sockets: map<PlayerId, SocketId>, sessions: map<SocketId, H.Session>): World<int>
  {
    World(H.Store(map["AB12CD" := Lobby("AB12CD", "a", players, status, gameState)], sockets), sessions)
  }

  const BothSockets := map["a" := "sA", "b" := "sB"]
  const BothSessions := map["sA" := SessionA, "sB" := SessionB]

  /** Where the scenario ends: one lobby, both players registered, both
      sessions pointing at it. */
  const ScenarioEnd: World<int> := ScenarioWorld(ScenarioLobby.players, InGame, Some(2), BothSockets, BothSessions)

  lemma ScenarioCreate()
    ensures Step(Initial, Scenario[0]) == ScenarioWorld([PlayerA], Waiting, None, map["a" := "sA"], map["sA" := SessionA])
  {
  }

  lemma ScenarioJoin()
    ensures Step(ScenarioWorld([PlayerA], Waiting, None, map["a" := "sA"], map["sA" := SessionA]), Scenario[1])
         == ScenarioWorld([PlayerA, PlayerB], Waiting, None, BothSockets, BothSessions)
  {
    assert Find([PlayerA], "b") == None;
    assert [PlayerA] + [PlayerB] == [PlayerA, PlayerB];
  }

  lemma ScenarioReadyA()
    ensures Step(ScenarioWorld([PlayerA, PlayerB], Waiting, None, BothSockets, BothSessions), Scenario[2])
         == ScenarioWorld([PlayerA.(ready := true), PlayerB], Waiting, None, BothSockets, BothSessions)
  {
    assert Find([PlayerA, PlayerB], "a") == Some(0);
    assert [PlayerA, PlayerB][0 := PlayerA.(ready := true)] == [PlayerA.(ready := true), PlayerB];
    assert BothSessions["sA" := SessionA] == BothSessions;
  }

  lemma ScenarioReadyB()
    ensures Step(ScenarioWorld([PlayerA.(ready := true), PlayerB], Waiting, None, BothSockets, BothSessions), Scenario[3])
         == ScenarioWorld(ScenarioLobby.players, Waiting, None, BothSockets, BothSessions)
  {
    var ps := [PlayerA.(ready := true), PlayerB];
    assert Find(ps, "b") == Some(1);
    assert ps[1 := PlayerB.(ready := true)] == ScenarioLobby.players;
    assert BothSessions["sB" := SessionB] == BothSessions;
  }

  lemma ScenarioStart()
    ensures Step(ScenarioWorld(ScenarioLobby.players, Waiting, None, BothSockets, BothSessions), Scenario[4])
         == ScenarioWorld(ScenarioLobby.players, InGame, Some(1), BothSockets, BothSessions)
  {
    assert AllReady(ScenarioLobby.players);
    assert BothSessions["sA" := SessionA] == BothSessions;
  }

  lemma ScenarioUpdate()
    ensures Step(ScenarioWorld(ScenarioLobby.players, InGame, Some(1), BothSockets, BothSessions), Scenario[5])
         == ScenarioEnd
  {
    assert BothSessions["sB" := SessionB] == BothSessions;
  }

  /** The scenario ends with both players ready in one lobby, in game at
      turn 2, with A still host. */
  lemma ScenarioOutcome()
    ensures Run(Initial, Scenario) == ScenarioEnd
    ensures ScenarioEnd.store.lobbies == map["AB12CD" := ScenarioLobby]
  {
    ScenarioCreate();
    ScenarioJoin();
    ScenarioReadyA();
    ScenarioReadyB();
    ScenarioStart();
    ScenarioUpdate();
    assert Scenario[1..][1..][1..][1..][1..][1..] == [];
  }

  /** A's record once A's connection has dropped. */
  const DroppedA := PlayerA.(ready := true, disconnected := true)

  lemma ScenarioDrop()
    ensures Step(ScenarioEnd, Action("sA", Disconnect))
         == ScenarioWorld([DroppedA, PlayerB.(ready := true)], InGame, Some(2), BothSockets, BothSessions)
  {
    var ps := ScenarioLobby.players;
    assert Find(ps, "a") == Some(0);
    assert ps[0 := ps[0].(disconnected := true)] == [DroppedA, PlayerB.(ready := true)];
    assert BothSessions["sA" := SessionA] == BothSessions;
  }

  /** After the scenario, A's connection drops. A stays a member and the
      host, the registry keeps A's entry, and the grace timer's check holds
      for A; what the timer then does is emit to A's closed socket, so no
      server-side handler removes A. */
  lemma ScenarioDisconnect()
    ensures var w := Run(Initial, Scenario + [Action("sA", Disconnect)]);
      && w.store.lobbies.Keys == {"AB12CD"}
      && w.store.lobbies["AB12CD"].players == [DroppedA, PlayerB.(ready := true)]
      && w.store.lobbies["AB12CD"].hostId == "a"
      && w.store.sockets == BothSockets
      && H.StillDisconnected(w.store, "AB12CD", "a")
  {
    var d := Action("sA", Disconnect);
    RunSnoc(Initial, Scenario, d);
    ScenarioOutcome();
    ScenarioDrop();
    var w := Step(ScenarioEnd, d);
    assert w.store.lobbies["AB12CD"].players[0] == DroppedA;
  }
}
