# Lobby server for a two-player game, modelled in Dafny

The server (`server.js`) pairs two players in a lobby identified by a short
code. It keeps two process-wide maps: `lobbies`, from lobby id to a lobby
record (id, host, players, status, game state), and `playerSocketMap`, from
player id to that player's current socket. Each socket connection keeps two
variables, `currentLobbyId` and `playerData`. Seven handlers change this
state: `create-lobby`, `join-lobby`, `leave-lobby`, `toggle-ready`,
`start-game`, `game-state-update` and `disconnect`. The Node event loop runs
each handler to completion before starting the next.

The model has five modules:

- `Lobbies` (`lobbies.dfy`): the player and lobby records, and the pure
  lookups the handlers use over a player list. `Find` is `find` by id,
  `Without` is `filter` out an id, and `AllReady` is `every` ready.
- `Handlers` (`handlers.dfy`): the state as values (`Store`, `Session`) and one
  function per handler giving the next state and session. It also holds the
  store invariant `Valid` and `StillDisconnected`, the check the 30-second
  timer makes when it fires.
- `HandlerLemmas` (`handler_lemmas.dfy`): what each handler does, and a proof
  that each one preserves `Valid`. `Valid` says every stored lobby has 1 or 2
  players with unique ids, a host among them, and no game state while
  waiting.
- `Traces` (`traces.dfy`): any interleaving of events from any number of
  connections. The invariant holds along every run. A lobby in game stays in
  game, or is deleted, unless a create reuses its id. A player stays in a
  lobby until a leave bound to that player, or such a create. It also holds the
  two-player scenario (create, join, ready, start, update, then a drop).
- `SocketServer` (`server.dfy`): the imperative form. Class `Server` holds the
  two maps, and class `Connection` holds the session variables. There is one
  method per handler. Each method updates the maps in place, is proved equal
  to the matching `Handlers` function, and keeps `Server.Valid()`.

Some of the code's behaviour differs from what its comments and event names
suggest (the timer is commented "remove the player if they don't
reconnect", `server.js:246`). The model follows the code:

- A reconnecting `join-lobby` does not clear `disconnected` on the player's
  record (`server.js:100-103`). See `HandlerLemmas.ReconnectKeepsDisconnected`.
- When the 30-second timer fires and the player is still marked
  disconnected, it calls `socket.emit('leave-lobby')` (`server.js:253`). That
  sends a message to the client's socket, which is already closed. It does
  not run the server's leave handler, and the timer's firing changes no
  server state. A disconnected player's record stays in the lobby until a
  `leave-lobby` from a connection whose session names that lobby and that
  player (one that rejoined with the player's id), or a `create-lobby` that
  reuses the lobby id, takes it out. See `Traces.RunKeepsMember` and
  `Traces.ScenarioDisconnect`.
- `create-lobby` does not retry when the generated id is already in use. It
  replaces the stored lobby, even one in game, with a new waiting lobby
  (`server.js:73`). See `Traces.CreateCollisionResetsStatus`. So "status never
  goes back to waiting" holds only for runs where no create reuses the id.
- `leave-lobby` returns early when the session's lobby is gone and leaves the
  session set (`server.js:149`).
- `game-state-update` checks only `currentLobbyId` (`server.js:215`). A
  session whose player has left, or was never in the lobby, can still
  overwrite the game state.
- `!currentLobbyId` is also true for the empty string. So a session whose
  lobby id is `""` acts like a session with no lobby (`Handlers.HasLobby`).

## Model

| member | source | states |
|---|---|---|
| `Lobbies.AllReady` | server.js:200 | `every` player ready; how start-game uses it is stated by `HandlerLemmas.StartGameEffect` |
| `Lobbies.Find` | server.js:97 | `find` by id: returns `None` exactly when no player has the id; otherwise the first index holding it |
| `Lobbies.Without` | server.js:152 | `filter`: keeps exactly the players whose id differs; returns the list unchanged when the id is absent |
| `Lobbies.WithoutAt` | server.js:152 | with unique ids, filtering out the id at index i removes exactly that record and keeps the others in order |
| `Lobbies.WithoutUnique` | server.js:152 | filtering keeps player ids unique |
| `Handlers.Cleanup` | server.js:37-45 | removes the lobby exactly when it is stored with no players; every other entry is kept as it was |
| `Handlers.CreateLobby` | server.js:54-84 | the create-lobby handler on values; its behaviour is stated by `HandlerLemmas.CreateLobbyEffect` and `HandlerLemmas.CreatePreservesValid` |
| `Handlers.JoinLobby` | server.js:87-142 | the join-lobby handler on values, branching on `Decide`; its behaviour is stated by `HandlerLemmas.JoinAcknowledgement`, `JoinRejectedChangesNothing`, `JoinReconnect`, `JoinAppend` and `JoinPreservesValid` |
| `Handlers.LeaveLobby` | server.js:145-172 | the leave-lobby handler on values; its behaviour is stated by `HandlerLemmas.LeaveNoop`, `LeaveEffect`, `LeaveStale` and `LeavePreservesValid` |
| `Handlers.ToggleReady` | server.js:175-187 | the toggle-ready handler on values; its behaviour is stated by `HandlerLemmas.ToggleNoop`, `ToggleEffect`, `ToggleTwice` and `TogglePreservesValid` |
| `Handlers.StartGame` | server.js:190-211 | the start-game handler on values; its behaviour is stated by `HandlerLemmas.StartGameEffect` and `StartPreservesValid` |
| `Handlers.GameStateUpdate` | server.js:214-227 | the game-state-update handler on values; its behaviour is stated by `HandlerLemmas.GameStateUpdateEffect`, `GameStateUpdateIgnoresPlayer` and `GameStateUpdatePreservesValid` |
| `Handlers.Disconnect` | server.js:230-244 | the disconnect handler on values; its behaviour is stated by `HandlerLemmas.DisconnectEffect` and `DisconnectPreservesValid` |
| `Handlers.StillDisconnected` | server.js:247-251 | the timer's check; `HandlerLemmas.DisconnectArmsTimer` and `ReconnectKeepsDisconnected` say when it holds, `HandlerLemmas.CreateLobbyEffect` that a new lobby fails it |
| `Handlers.Decide` | server.js:89-122 | join's checks in their order: unknown id, then existing player (reconnect), then 2 or more players (full), then in game, else append; each outcome stated as an iff on the store |
| `HandlerLemmas.CreateLobbyEffect` | server.js:54-75 | create stores a lobby whose only player is a fresh record of the caller (not ready, not disconnected, so the timer's check fails) and who is host, `waiting`, no game state; registers the socket; sets the session to the new lobby; replaces whatever had the id; leaves other lobbies alone |
| `HandlerLemmas.CreatePreservesValid` | server.js:65-73 | create keeps the store invariant |
| `HandlerLemmas.JoinAcknowledgement` | server.js:91-122 | the callback's result and error text ("Lobby not found", "Lobby is full", "Game already in progress") for each branch; success iff reconnect or append |
| `HandlerLemmas.JoinRejectedChangesNothing` | server.js:91-122 | a refused join leaves the store, registry and session unchanged |
| `HandlerLemmas.JoinReconnect` | server.js:97-110 | a join with an id already present succeeds whatever the lobby's size and status; it changes only that record's socket, the registry entry and the session; the count, `ready` and `disconnected` stay |
| `HandlerLemmas.JoinAppend` | server.js:112-133 | a lobby gains a player iff the decision is append, which needs fewer than 2 players, `waiting` and a new id; the new record is not ready and goes last |
| `HandlerLemmas.JoinPreservesValid` | server.js:96-133 | join keeps the invariant: at most 2 players, unique ids, host present |
| `HandlerLemmas.LeaveNoop` | server.js:145-149 | without a live session, or with the lobby gone, leave changes nothing, the session included |
| `HandlerLemmas.LeaveEffect` | server.js:151-171 | leave removes exactly the caller's record; gives the host to the first remaining player when the host left; deletes the lobby when empty; drops the registry entry; clears the session; other lobbies untouched |
| `HandlerLemmas.LeaveStale` | server.js:152-153 | a session whose player is no longer in the lobby leaves players and host alone, but still drops the registry entry and clears the session |
| `HandlerLemmas.LeftLobbyValid` | server.js:151-158 | a lobby that keeps players after the filter still has unique ids and its host among its players, the first remaining player when the host left |
| `HandlerLemmas.LeavePreservesValid` | server.js:151-168 | leave keeps the invariant, including "no empty lobby is stored" |
| `HandlerLemmas.ToggleNoop` | server.js:175-182 | toggle-ready is a no-op without a session, with the lobby gone, or when the player is not found |
| `HandlerLemmas.ToggleEffect` | server.js:181-183 | toggle-ready flips `ready` on the caller's record only; every other field, player and lobby is unchanged |
| `HandlerLemmas.ToggleTwice` | server.js:175-187 | toggling twice restores the original store |
| `HandlerLemmas.TogglePreservesValid` | server.js:181-183 | toggle-ready keeps the invariant |
| `HandlerLemmas.StartGameEffect` | server.js:190-206 | start-game leaves the store unchanged unless the caller is host and all players are ready; then it sets `in-game` and the initial payload on that lobby and changes nothing else (a repeated start with the same payload leaves it as it was) |
| `HandlerLemmas.StartPreservesValid` | server.js:205-206 | start-game keeps the invariant |
| `HandlerLemmas.GameStateUpdateEffect` | server.js:214-221 | game-state-update overwrites only `gameState`, and only when the session's lobby exists and is in game; otherwise nothing changes |
| `HandlerLemmas.GameStateUpdateIgnoresPlayer` | server.js:215 | the result does not depend on `playerData` |
| `HandlerLemmas.GameStateUpdatePreservesValid` | server.js:218-221 | game-state-update keeps the invariant |
| `HandlerLemmas.DisconnectEffect` | server.js:230-244 | disconnect sets `disconnected` on the caller's record only; membership, host, ready flags, status and registry are unchanged; a no-op without a session or lobby |
| `HandlerLemmas.DisconnectArmsTimer` | server.js:240-251 | after a disconnect of a present player, the timer's check holds for that player |
| `HandlerLemmas.ReconnectKeepsDisconnected` | server.js:97-103 | a reconnecting join does not clear `disconnected`, so the timer's check still holds after the player is back |
| `HandlerLemmas.DisconnectPreservesValid` | server.js:240-242 | disconnect keeps the invariant |
| `Traces.HandlePreservesValid` | server.js:54-259 | every handler keeps the store invariant |
| `Traces.RunPreservesValid` | server.js:47-259 | any interleaving of events from any connections keeps the store invariant |
| `Traces.RunBounds` | server.js:113-131 | after any run, every stored lobby has 1 or 2 players with unique ids |
| `Traces.HandleKeepsInGame` | server.js:205 | no handler except a create under the same id moves an in-game lobby back to `waiting` |
| `Traces.RunKeepsInGame` | server.js:190-211 | along any run with no create under its id, an in-game lobby stays in game or is deleted |
| `Traces.CreateCollisionResetsStatus` | server.js:65-73 | a create whose id collides with an in-game lobby replaces it with a waiting lobby whose only player is the creator |
| `Traces.HandleKeepsMember` | server.js:54-244 | a player's record leaves a lobby in one step only through a leave whose session names that lobby and player, or a create reusing the lobby id; join, toggle-ready, start-game, game-state-update, disconnect and other players' leaves keep it |
| `Traces.RunKeepsMember` | server.js:145-256 | along any run with no such leave or create, the player stays in the lobby, however long it has been disconnected |
| `Traces.ScenarioOutcome` | server.js:54-227 | create, join, both ready, start with turn 1, update to turn 2 ends with one in-game lobby of 2 ready players, host A, game state 2 |
| `Traces.ScenarioDisconnect` | server.js:230-256 | when A's connection then drops, A stays a member and host, the registry keeps A, and the timer's check holds for A |
| `SocketServer.Server.constructor` | server.js:19-20 | both maps start empty, and the invariant holds |
| `SocketServer.Server.CleanupLobby` | server.js:37-45 | deletes the lobby exactly when it exists with no players; the registry is unchanged |
| `SocketServer.Connection.constructor` | server.js:47-51 | a new connection has no lobby and no player data |
| `SocketServer.Connection.CreateLobby` | server.js:54-84 | updates the maps and session as `Handlers.CreateLobby`, keeps the invariant, acknowledges with the lobby id |
| `SocketServer.Connection.JoinLobby` | server.js:87-142 | updates as `Handlers.JoinLobby`, keeps the invariant, acknowledges as `Handlers.AckOf` of the decision |
| `SocketServer.Connection.LeaveLobby` | server.js:145-172 | updates as `Handlers.LeaveLobby`, calling `CleanupLobby`; keeps the invariant |
| `SocketServer.Connection.ToggleReady` | server.js:175-187 | updates as `Handlers.ToggleReady` and keeps the invariant; the session is not changed |
| `SocketServer.Connection.StartGame` | server.js:190-211 | updates as `Handlers.StartGame` and keeps the invariant |
| `SocketServer.Connection.GameStateUpdate` | server.js:214-227 | updates as `Handlers.GameStateUpdate` and keeps the invariant |
| `SocketServer.Connection.Disconnect` | server.js:230-244 | updates as `Handlers.Disconnect` and keeps the invariant |

## Left out

- Express app, HTTP server, CORS, the health endpoint and `server.listen` (`server.js:1-16`, `22-29`, `262-265`): transport and bootstrap.
- socket.io rooms (`socket.join`, `socket.leave`), the `lobby-update`, `game-started` and `game-state-sync` broadcasts, and the acknowledgement callbacks: these are I/O. The callback's value is modelled as the return value of `CreateLobby` and `JoinLobby`. Nothing is modelled about the broadcasts.
- `console.log` calls.
- `generateLobbyId` (`server.js:32-34`) uses `Math.random`. The generated id is a parameter of `CreateLobby`.
- The 30-second timer (`server.js:247-256`) runs asynchronously. Only its check is modelled, as `Handlers.StillDisconnected`. What it does when the check holds is emit to the client socket, which changes no server state.
- Game-state payloads are an opaque type parameter `G`. `gameState.turn` is read only for logging. `null` in a new lobby is `None`. Whatever the host sends to start the game is stored as `Some(payload)`, even if that payload is itself `null` in JavaScript.
- Lobby and player records are values in the map. The handlers mutate them in place, and the model replaces the map entry instead. The only alias the code relies on is `playerData`, the same object as the record in the list. Handlers read only its `id` and `name`, and no handler writes those. So the session holds the player id, and this aliasing is not modelled.
- The model does not check types: a payload field that is missing or not a string is not modelled. Ids and names are strings.
- `Handlers.GameStateUpdate`: after storing the payload, the handler logs `gameState.turn` (`server.js:226`), which throws for a `null` or `undefined` payload. Nothing catches it, so the Node process exits and every lobby is lost. The model stores the payload and carries on.
- `Handlers.CreateLobby`: `callback(...)` at `server.js:80` throws when the client sent no acknowledgement function, after the writes at `server.js:73-75`. The process exits; the model returns the new state.
- `Handlers.JoinLobby`: `callback(...)` at `server.js:92`, `107`, `114`, `120` and `138` throws when the client sent no acknowledgement function, at `107` and `138` after the writes at `server.js:100-102` and `131-133`. The process exits; the model returns the next state.
