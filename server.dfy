/** The server's in-memory state: rooms whose fields the websocket handler
    updates in place, the registry mapping room codes to rooms and to their
    client lists, and the two searches the handler runs. Every state change is
    proved to agree with the transitions of module Lobby. */
module Server {
  import opened Wrappers
  import opened Lobby

  /** Stands for one connected client's websocket in a room's client list. */
  type Socket = nat

  /** The seat-assignment loop of a join: count up from 0 past every seat
      already held. The result is the lowest free seat, the value that the
      specification function Lobby.LowestFreeSeat gives (Lobby.LowestFreeSeatUnique). */
  method SeatSearch(players: seq<Player>) returns (seat: int)
    ensures IsLowestFreeSeat(players, seat)
  {
    var used := Seats(players);
    seat := 0;
    while seat in used
      invariant 0 <= seat <= LowestFreeSeat(players)
      invariant forall t :: 0 <= t < seat ==> t in used
      decreases LowestFreeSeat(players) - seat
    {
      seat := seat + 1;
    }
  }

  /** The position of the first player that is not a host, or 0 when there is
      none (in particular for an empty list): the value that the specification
      function Lobby.TurnStart gives (Lobby.FirstPlayerIndexUnique). */
  method FirstPlayerIndex(players: seq<Player>) returns (i: int)
    ensures IsFirstPlayerIndex(players, i)
    ensures |players| > 0 ==> 0 <= i < |players|
  {
    for k := 0 to |players|
      invariant forall j :: 0 <= j < k ==> players[j].isHost
    {
      if !players[k].isHost {
        return k;
      }
    }
    return 0;
  }

  /** One game room. The code and host id are fixed at creation; the players,
      status and turn index are updated in place by the handler. */
  class Room {
    const code: string
    const hostId: string
    var players: seq<Player>
    var status: Status
    var turnIndex: int

    /** The room's contents as a value. */
    function View(): Snapshot
      reads this
    {
      Snapshot(code, hostId, players, status, turnIndex)
    }

    ghost predicate Valid()
      reads this
    {
      Consistent(View())
    }

    /** A new room: in the lobby, with no players and turn index 0. */
    constructor (code: string, hostId: string)
      ensures Valid()
      ensures View() == NewRoom(code, hostId)
    {
      this.code := code;
      this.hostId := hostId;
      players := [];
      status := Lobby;
      turnIndex := 0;
      NewRoomConsistent(code, hostId);
    }

    /** Seats the player at the lowest free seat and appends it to the players. */
    method Join(p: Player)
      requires Valid()
      modifies this`players
      ensures Valid()
      ensures View() == JoinStep(old(View()), p)
    {
      var seat := SeatSearch(players);
      LowestFreeSeatUnique(players, seat, LowestFreeSeat(players));
      JoinKeepsJoinOrder(View(), p);
      players := players + [p.(seat := seat)];
    }

    /** Starts the game when the claimed host id matches, the room is in the
        lobby and at least two players have joined; otherwise does nothing.
        Reports whether the game started. */
    method Start(claimedHost: Option<string>) returns (started: bool)
      requires Valid()
      modifies this`status, this`turnIndex
      ensures Valid()
      ensures started == StartAccepted(old(View()), claimedHost)
      ensures View() == StartStep(old(View()), claimedHost)
    {
      started := false;
      if claimedHost != Some(hostId) {
        return;
      }
      if status != Lobby {
        return;
      }
      if |players| < 2 {
        return;
      }
      status := Playing;
      turnIndex := FirstPlayerIndex(players);
      FirstPlayerIndexUnique(players, turnIndex, TurnStart(players));
      started := true;
    }
  }

  /** The registry of rooms by code, with each code's list of connected clients. */
  class Registry {
    var rooms: map<string, Room>
    var clients: map<string, seq<Socket>>

    /** Every room is stored under its own code and is consistent. */
    ghost predicate Valid()
      reads this, rooms.Values
    {
      forall c :: c in rooms ==> rooms[c].code == c && rooms[c].Valid()
    }

    /** The contents of every registered room, by code. */
    function Views(): map<string, Snapshot>
      reads this, rooms.Values
    {
      map c | c in rooms :: rooms[c].View()
    }

    /** An empty registry. */
    constructor ()
      ensures Valid()
      ensures rooms == map[] && clients == map[]
    {
      rooms := map[];
      clients := map[];
    }

    /** Registers a fresh room in the lobby under `code`, replacing any room
        already stored there, and gives the code an empty client list. */
    method CreateRoom(code: string, hostId: string)
      requires Valid()
      modifies this
      ensures Valid()
      ensures code in rooms && fresh(rooms[code])
      ensures rooms == old(rooms)[code := rooms[code]]
      ensures Views() == old(Views())[code := NewRoom(code, hostId)]
      ensures clients == old(clients)[code := []]
    {
      var room := new Room(code, hostId);
      rooms := rooms[code := room];
      clients := clients[code := []];
    }

    /** Handles one decoded message addressed to `code`. A message for an
        unregistered code is skipped. Otherwise a join or a start is applied to
        that room alone, and the broadcasts it triggers are returned; any other
        event is skipped. */
    method Handle(code: string, ev: Event) returns (sent: seq<Outbound>)
      requires Valid()
      modifies rooms.Values
      ensures Valid()
      ensures rooms == old(rooms) && clients == old(clients)
      ensures code !in rooms ==> Views() == old(Views()) && sent == []
      ensures ev.Other? ==> Views() == old(Views()) && sent == []
      ensures code in rooms ==> Views() == old(Views())[code := Apply(old(Views())[code], ev)]
      ensures code in rooms ==> sent == Notices(old(Views())[code], ev)
    {
      if code !in rooms {
        return [];
      }
      var room := rooms[code];
      match ev
      case Join(p) =>
        room.Join(p);
        sent := [RoomState(room.View())];
      case Start(h) =>
        var started := room.Start(h);
        if started {
          sent := [GameStart(room.View()), TurnBegin(room.players[room.turnIndex].id)];
        } else {
          sent := [];
        }
      case Other =>
        sent := [];
    }
  }
}
