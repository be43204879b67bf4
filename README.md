# Hitster room lobby — Dafny model

This project models the in-memory room registry and lobby state machine of the
Hitster party-game backend (`backend/main.py`). A host creates a room under a short
code. Players join the room over a websocket and each one receives the lowest free
seat number. The host then starts the game, which moves the room from `lobby` to
`playing` and gives the first turn to the first player who is not marked as host,
or to the first player when all are hosts.

Files:

- `wrappers.dfy`: module `Wrappers`, an `Option` type for message fields a client
  may leave out.
- `lobby.dfy`: module `Lobby`, the specification as values. It holds `Player`,
  `Status`, `Snapshot` (a room's contents, which is also the broadcast payload),
  `Event` (a decoded inbound message: `Join`, `Start` or `Other`) and `Outbound` (a
  broadcast). It defines the pure transitions `JoinStep`, `StartStep`, `Apply`,
  `Notices` and `Replay`, and the lemmas about them.
- `server.dfy`: module `Server`, the imperative part. `Room` is a class whose
  `players`, `status` and `turnIndex` fields are updated in place. `Registry` is a
  class holding the `rooms` and `clients` dictionaries as maps. `SeatSearch` and
  `FirstPlayerIndex` are the two search loops. Each state-changing method is
  proved equal to the matching `Lobby` transition on `View()`.

Three behaviours of the code are worth knowing:

- Join is not idempotent. A repeated join with the same player id appends a second
  entry, as `JoinAppendsOne` states.
- The host is not kept out of the player list. The `is_host` field (the model's `isHost`,
  backend/main.py:32) is whatever the client sent under that key, and False when the key
  is absent.
- The status `finished` is never set.

One observation about the code is recorded in `JoinBroadcastRevealsHostId`. The
`room:state` payload that the handler hands to the broadcast after every join contains
the host id, and that id passes the start guard once two players are in the lobby.
Any client connected when such a join is broadcast could therefore send an accepted
start. The lemma documents what the payload holds; delivery to sockets is not modelled.

## Model

| member | source | states |
|---|---|---|
| `Lobby.NewRoom` | backend/main.py:34-39 | the room stored by create_room (line 61): given code and host id, lobby status, no players, turn index 0 |
| `Lobby.Seats` | backend/main.py:85 | the set of seats held by the existing players, as the `used` set is built |
| `Lobby.JoinStep` | backend/main.py:83-90 | the room after a join: the sent player, with its seat replaced by the lowest free seat, appended at the end; no other field changes |
| `Lobby.StartAccepted` | backend/main.py:95-100 | the three start guards together: claimed host id equals the room's, status is lobby, at least two players |
| `Lobby.StartStep` | backend/main.py:95-102 | the room after a start: when the guards pass, status playing and turn index the first non-host; otherwise the room unchanged |
| `Lobby.Apply` | backend/main.py:82-105 | dispatch on the event: join, start, or no change for any other event |
| `Lobby.Notices` | backend/main.py:91 | what the handler broadcasts: the room state after a join; game start and the first player's id (lines 103-105) after an accepted start; nothing otherwise |
| `Server.FirstPlayerIndex` | backend/main.py:47-52 | returns the position of the first non-host player, or 0 when the list is empty or all players are hosts; the result is a valid index whenever there is a player |
| `Lobby.FirstNonHostFrom` | backend/main.py:49-51 | the search from position k stops at the first non-host or at the end, and every player it passes over is a host |
| `Lobby.TurnStart` | backend/main.py:47-52 | the turn index chosen at start satisfies the first-player characterisation and lies inside a non-empty player list |
| `Server.SeatSearch` | backend/main.py:85-89 | the seat loop returns the smallest non-negative number that no existing player holds |
| `Lobby.FreeSeatFrom` | backend/main.py:86-88 | counting up from k, when every seat below k is taken, reaches a free seat that is at most the number of players and lowest among the free ones |
| `Lobby.LowestFreeSeat` | backend/main.py:85-89 | the joining player's seat is free, every smaller non-negative seat is taken, and it is at most the number of existing players |
| `Lobby.SeatCountFree` | backend/main.py:87-88 | pigeonhole bound on the seat loop: if every seat below the player count is taken, the player count itself is free, so the loop stops by then |
| `Lobby.LowestSeatIsCount` | backend/main.py:85-89 | in a room whose seats follow join order, the seat loop stops exactly at the number of players |
| `Lobby.JoinAppendsOne` | backend/main.py:83-90 | join appends exactly one entry, the sent player with only its seat replaced; earlier players, their order and the other room fields are unchanged; there is no duplicate-id check, so the count of entries with that id rises by one |
| `Lobby.JoinKeepsSeatsDistinct` | backend/main.py:85-90 | the new seat differs from every existing seat, so pairwise-distinct seats stay distinct |
| `Lobby.JoinKeepsJoinOrder` | backend/main.py:85-90 | when seats equal join positions, the new player's seat is its position and that stays true |
| `Lobby.JoinOrderSeatsDistinct` | backend/main.py:85-90 | seats that equal join positions are pairwise distinct |
| `Server.Room.Join` | backend/main.py:82-90 | the room after a join is `JoinStep` of the room before, and the room stays consistent |
| `Lobby.StartUnchangedIffRejected` | backend/main.py:95-100 | start leaves the room unchanged if and only if the host id differs or is missing, the status is not lobby, or there are fewer than two players |
| `Lobby.StartEffect` | backend/main.py:101-104 | an accepted start goes from lobby to playing, leaves players, code and host id alone, and sets the turn to the first non-host, a valid index into the players |
| `Lobby.StartIdempotent` | backend/main.py:97-98 | after an accepted start every further start is a no-op, and repeating the same start has the effect of one |
| `Server.Room.Start` | backend/main.py:93-102 | the room after a start is `StartStep` of the room before; the returned flag is true exactly when all three guards pass |
| `Server.Room.constructor` | backend/main.py:34-39 | a new room is in the lobby with no players and turn index 0 |
| `Lobby.NewRoomConsistent` | backend/main.py:61 | a freshly created room satisfies the room invariant |
| `Server.Registry.constructor` | backend/main.py:41-42 | the registry starts with no rooms and no client lists |
| `Server.Registry.CreateRoom` | backend/main.py:57-64 | stores a fresh lobby room under the code, replacing any previous room there; every other code keeps the same room object with the same contents; the code's client list is set to empty |
| `Server.Registry.Handle` | backend/main.py:78-105 | a message for an unregistered code, or with an event other than join or start, changes no room and sends nothing; otherwise only the addressed room changes, by `Apply`, and the broadcasts are `Notices`, including the first player's id dereferenced at line 104 |
| `Lobby.OtherIgnored` | backend/main.py:82-93 | an event other than join or start leaves the room as it is and broadcasts nothing |
| `Lobby.ApplyKeepsConsistent` | backend/main.py:82-105 | every message keeps a room consistent: seats in join order, turn index 0 in the lobby, a playing room with at least two players and a valid turn index, never finished |
| `Lobby.ReplayKeepsConsistent` | backend/main.py:74-105 | any sequence of messages keeps a room consistent |
| `Lobby.ReplayMonotone` | backend/main.py:74-105 | over any sequence of messages the code and host id never change, players are only added at the end, and a playing room stays playing with the same turn index |
| `Lobby.JoinBroadcastRevealsHostId` | backend/main.py:91 | observation: the room-state payload handed to the broadcast after a join carries the host id, and with two players in the lobby a start claiming that id is accepted |

## Left out

- FastAPI application and CORS setup (backend/main.py:6-22): framework configuration.
- Random generation of room codes and host ids (`code4`, backend/main.py:44-45, 59): `CreateRoom` takes the code and host id as parameters. The returned `{code, hostId}` dictionary echoes them and is not modelled.
- Websocket accept, receive and JSON decoding (backend/main.py:70-77): a message is modelled as an already decoded `Event`. When `data` is an object, a `start` whose `hostId` is missing or is not a string is `Start(None)`, because it can never equal the room's host id. A message that is not valid JSON, or not a JSON object, raises at backend/main.py:76-77 and ends the receive loop whatever the code. Messages for a code with no registered room are skipped before `data` is used (backend/main.py:78-80). For a registered room, two malformed messages raise inside the handler and end its receive loop: a join whose data does not build a `Player` (backend/main.py:83), and a start whose `data` is not an object, such as `null` (backend/main.py:95). The failing socket stays in the code's client list until a later broadcast fails to send to it and prunes it (backend/main.py:116-120) or the room is re-created (backend/main.py:63). The handler's own removal (backend/main.py:107-109) runs only on a disconnect. These error paths are not modelled.
- Registering a socket on connect and removing it on disconnect (backend/main.py:72, 107-109): connection handling. The client lists appear only as `CreateRoom` resets them.
- Sending broadcasts and pruning dead sockets (backend/main.py:111-120): network I/O. `Handle` returns the broadcasts as `Outbound` values instead.
- Concurrency of the async handler: the model applies messages one at a time, in order.
- Pydantic serialisation (`model_dump`): a broadcast carries the `Snapshot` value.
- Deck, draw, placement, tie policy, scoring and win detection: the code does not implement them, and `score` is never updated.
