/** The room lobby as values: players, room snapshots, decoded inbound events,
    outbound notices, and the pure transitions that the websocket handler applies
    to a room. The classes in module Server are proved against these functions. */
module Lobby {
  import opened Wrappers

  /** A participant as decoded from a join message. The server overwrites `seat`;
      `score` and `isHost` keep whatever the client sent. `isHost` stands for the
      wire field `is_host`, which is false when the message leaves it out. */
  datatype Player = Player(id: string, name: string, seat: int, score: int, isHost: bool)

  /** Room status. The handler only ever produces Lobby and Playing. */
  datatype Status = Lobby | Playing | Finished

  /** Everything a room holds; also the payload of the room broadcasts. */
  datatype Snapshot = Snapshot(code: string, hostId: string, players: seq<Player>, status: Status, turnIndex: int)

  /** An inbound message once decoded: a join carrying the new player, a start
      carrying the claimed host id (None when the message has none), or any
      other event name. */
  datatype Event = Join(player: Player) | Start(hostId: Option<string>) | Other

  /** What the handler broadcasts to the room's clients. */
  datatype Outbound = RoomState(room: Snapshot) | GameStart(room: Snapshot) | TurnBegin(playerId: string)

  /** A freshly created room: in the lobby, nobody seated, turn index 0. */
  function NewRoom(code: string, hostId: string): Snapshot {
    Snapshot(code, hostId, [], Lobby, 0)
  }

  // ---------------------------------------------------------------------------
  // Seats
  // ---------------------------------------------------------------------------

  /** The seat numbers held by the players. */
  function Seats(ps: seq<Player>): set<int> {
    set p | p in ps :: p.seat
  }

  /** `s` is the smallest non-negative number that no player holds as a seat. */
  ghost predicate IsLowestFreeSeat(ps: seq<Player>, s: int) {
    0 <= s && s !in Seats(ps) && forall t :: 0 <= t < s ==> t in Seats(ps)
  }

  /** No two players share a seat. */
  ghost predicate SeatsDistinct(ps: seq<Player>) {
    forall i, j :: 0 <= i < j < |ps| ==> ps[i].seat != ps[j].seat
  }

  /** Every player's seat is its position in join order. */
  ghost predicate SeatsInJoinOrder(ps: seq<Player>) {
    forall i :: 0 <= i < |ps| ==> ps[i].seat == i
  }

  /** The numbers 0 .. n-1. */
  function Below(n: nat): set<int> {
    if n == 0 then {} else Below(n - 1) + {n - 1}
  }

  lemma {:induction false} BelowCard(n: nat)
    ensures forall t :: t in Below(n) <==> 0 <= t < n
    ensures |Below(n)| == n
  {
    if n > 0 {
      BelowCard(n - 1);
    }
  }

  /** A set that contains 0 .. n-1 has at least n elements. */
  lemma {:induction false} BelowSubsetCard(n: nat, a: set<int>)
    requires Below(n) <= a
    ensures n <= |a|
  {
    if n > 0 {
      BelowCard(n - 1);
      BelowSubsetCard(n - 1, a - {n - 1});
    }
  }

  /** A room holds at most as many distinct seats as it has players. */
  lemma {:induction false} SeatsCard(ps: seq<Player>)
    ensures |Seats(ps)| <= |ps|
  {
    if ps != [] {
      var init := ps[..|ps| - 1];
      SeatsCard(init);
      assert ps == init + [ps[|ps| - 1]];
      assert Seats(ps) == Seats(init) + {ps[|ps| - 1].seat};
    }
  }

  /** Pigeonhole: when every seat below the player count is taken, the player
      count itself is free. */
  lemma SeatCountFree(ps: seq<Player>)
    requires forall t :: 0 <= t < |ps| ==> t in Seats(ps)
    ensures |ps| !in Seats(ps)
  {
    var n := |ps|;
    BelowCard(n + 1);
    if n in Seats(ps) {
      forall t | t in Below(n + 1)
        ensures t in Seats(ps)
      {
      }
      BelowSubsetCard(n + 1, Seats(ps));
    }
    SeatsCard(ps);
  }

  /** The lowest free seat at or above `k`, given that every seat below `k` is taken. */
  function FreeSeatFrom(ps: seq<Player>, k: nat): (s: nat)
    requires k <= |ps|
    requires forall t :: 0 <= t < k ==> t in Seats(ps)
    ensures k <= s <= |ps|
    ensures IsLowestFreeSeat(ps, s)
    decreases |ps| - k
  {
    if k == |ps| then
      SeatCountFree(ps); k
    else if k !in Seats(ps) then
      k
    else
      FreeSeatFrom(ps, k + 1)
  }

  /** The seat a joining player receives: the smallest non-negative number no
      existing player holds. It is never more than the number of players. */
  function LowestFreeSeat(ps: seq<Player>): (s: nat)
    ensures s <= |ps|
    ensures IsLowestFreeSeat(ps, s)
  {
    FreeSeatFrom(ps, 0)
  }

  /** There is only one lowest free seat. */
  lemma LowestFreeSeatUnique(ps: seq<Player>, s: int, s': int)
    requires IsLowestFreeSeat(ps, s) && IsLowestFreeSeat(ps, s')
    ensures s == s'
  {
  }

  /** In a room whose seats follow join order, the search stops at the player count. */
  lemma LowestSeatIsCount(ps: seq<Player>)
    requires SeatsInJoinOrder(ps)
    ensures LowestFreeSeat(ps) == |ps|
  {
    forall t | 0 <= t < |ps|
      ensures t in Seats(ps)
    {
      assert ps[t] in ps;
    }
    assert |ps| !in Seats(ps);
  }

  // ---------------------------------------------------------------------------
  // First player
  // ---------------------------------------------------------------------------

  /** Every player in the list is marked as host (true of the empty list). */
  predicate AllHosts(ps: seq<Player>) {
    forall j :: 0 <= j < |ps| ==> ps[j].isHost
  }

  /** `i` is the position of the first player that is not a host, or 0 when there is none. */
  ghost predicate IsFirstPlayerIndex(ps: seq<Player>, i: int) {
    if AllHosts(ps) then
      i == 0
    else
      0 <= i < |ps| && !ps[i].isHost && forall j :: 0 <= j < i ==> ps[j].isHost
  }

  /** Position of the first non-host at or after `k`, or |ps| when there is none. */
  function FirstNonHostFrom(ps: seq<Player>, k: nat): (i: nat)
    requires k <= |ps|
    ensures k <= i <= |ps|
    ensures i < |ps| ==> !ps[i].isHost
    ensures forall j :: k <= j < i ==> ps[j].isHost
    decreases |ps| - k
  {
    if k == |ps| || !ps[k].isHost then k else FirstNonHostFrom(ps, k + 1)
  }

  /** The turn index chosen at start: the first non-host player, or 0 when all
      are hosts. It is a valid position whenever there is a player. */
  function TurnStart(ps: seq<Player>): (i: nat)
    ensures IsFirstPlayerIndex(ps, i)
    ensures |ps| > 0 ==> i < |ps|
  {
    var j := FirstNonHostFrom(ps, 0);
    if j < |ps| then j else 0
  }

  /** There is only one first player index. */
  lemma FirstPlayerIndexUnique(ps: seq<Player>, i: int, i': int)
    requires IsFirstPlayerIndex(ps, i) && IsFirstPlayerIndex(ps, i')
    ensures i == i'
  {
  }

  // ---------------------------------------------------------------------------
  // Transitions
  // ---------------------------------------------------------------------------

  /** Join: the player is appended with the lowest free seat; nothing else changes. */
  function JoinStep(s: Snapshot, p: Player): Snapshot {
    s.(players := s.players + [p.(seat := LowestFreeSeat(s.players))])
  }

  /** The three guards of start: the claimed host id matches, the room is still
      in the lobby, and at least two players have joined. */
  predicate StartAccepted(s: Snapshot, hostId: Option<string>) {
    hostId == Some(s.hostId) && s.status == Lobby && |s.players| >= 2
  }

  /** Start: when the guards pass, the room starts playing with the turn at the
      first non-host player; otherwise the room is left as it was. */
  function StartStep(s: Snapshot, hostId: Option<string>): Snapshot {
    if StartAccepted(s, hostId) then s.(status := Playing, turnIndex := TurnStart(s.players)) else s
  }

  /** The effect of one decoded message on the room it is addressed to. */
  function Apply(s: Snapshot, ev: Event): Snapshot {
    match ev
    case Join(p) => JoinStep(s, p)
    case Start(h) => StartStep(s, h)
    case Other => s
  }

  /** What the handler broadcasts after applying `ev` to `s`: the new room after a
      join; the started room and the first player's id after an accepted start;
      nothing otherwise. */
  function Notices(s: Snapshot, ev: Event): seq<Outbound> {
    match ev
    case Join(p) => [RoomState(JoinStep(s, p))]
    case Start(h) =>
      if StartAccepted(s, h) then
        var t := StartStep(s, h);
        [GameStart(t), TurnBegin(t.players[t.turnIndex].id)]
      else
        []
    case Other => []
  }

  /** The room after a sequence of messages, applied in order. */
  function Replay(s: Snapshot, evs: seq<Event>): Snapshot
    decreases |evs|
  {
    if evs == [] then s else Replay(Apply(s, evs[0]), evs[1..])
  }

  /** The number of entries in `ps` carrying player id `id`. */
  function Occurrences(ps: seq<Player>, id: string): nat {
    if ps == [] then 0
    else Occurrences(ps[..|ps| - 1], id) + (if ps[|ps| - 1].id == id then 1 else 0)
  }

  /** What holds of every room the handler can produce: seats follow join order,
      a room in the lobby has turn index 0, a playing room has at least two
      players and a turn index that points at one of them, and no room is
      finished. */
  ghost predicate Consistent(s: Snapshot) {
    && SeatsInJoinOrder(s.players)
    && (s.status == Lobby ==> s.turnIndex == 0)
    && (s.status == Playing ==> 2 <= |s.players| && 0 <= s.turnIndex < |s.players|)
    && s.status != Finished
  }

  // ---------------------------------------------------------------------------
  // Properties of join
  // ---------------------------------------------------------------------------

  /** Join appends exactly one entry at the end: the sent player with its seat
      replaced by a free one no larger than the old player count; earlier
      players, their order and every other field stay as they were. There is no
      duplicate-id check: the number of entries with the player's id grows by one. */
  lemma JoinAppendsOne(s: Snapshot, p: Player)
    ensures var w := JoinStep(s, p);
      && |w.players| == |s.players| + 1
      && w.players[..|s.players|] == s.players
      && w.players[|s.players|] == p.(seat := w.players[|s.players|].seat)
      && IsLowestFreeSeat(s.players, w.players[|s.players|].seat)
      && w.players[|s.players|].seat <= |s.players|
      && w.(players := s.players) == s
      && Occurrences(w.players, p.id) == Occurrences(s.players, p.id) + 1
  {
    var w := JoinStep(s, p);
    assert w.players[..|w.players| - 1] == s.players;
  }

  /** The joining player's seat differs from every existing seat, so join keeps
      seats pairwise distinct. */
  lemma JoinKeepsSeatsDistinct(s: Snapshot, p: Player)
    requires SeatsDistinct(s.players)
    ensures SeatsDistinct(JoinStep(s, p).players)
  {
    var ps := JoinStep(s, p).players;
    var n := |s.players|;
    forall i, j | 0 <= i < j < |ps|
      ensures ps[i].seat != ps[j].seat
    {
      if j == n {
        assert s.players[i] in s.players;
        assert ps[i].seat in Seats(s.players);
      }
    }
  }

  /** In a room whose seats follow join order, the next player gets the seat
      equal to its position, and the property continues to hold. */
  lemma JoinKeepsJoinOrder(s: Snapshot, p: Player)
    requires SeatsInJoinOrder(s.players)
    ensures SeatsInJoinOrder(JoinStep(s, p).players)
    ensures JoinStep(s, p).players[|s.players|].seat == |s.players|
  {
    LowestSeatIsCount(s.players);
  }

  /** Seats in join order are pairwise distinct. */
  lemma JoinOrderSeatsDistinct(ps: seq<Player>)
    requires SeatsInJoinOrder(ps)
    ensures SeatsDistinct(ps)
  {
  }

  // ---------------------------------------------------------------------------
  // Properties of start
  // ---------------------------------------------------------------------------

  /** Start leaves the room unchanged exactly when one of its guards fails: a
      wrong or missing host id, a room no longer in the lobby, fewer than two players. */
  lemma StartUnchangedIffRejected(s: Snapshot, hostId: Option<string>)
    ensures StartStep(s, hostId) == s <==> !StartAccepted(s, hostId)
  {
    if StartAccepted(s, hostId) {
      assert StartStep(s, hostId).status != s.status;
    }
  }

  /** An accepted start moves the room from lobby to playing, leaves the players
      untouched and sets the turn to the first non-host, a valid player index. */
  lemma StartEffect(s: Snapshot, hostId: Option<string>)
    requires StartAccepted(s, hostId)
    ensures var w := StartStep(s, hostId);
      && s.status == Lobby && w.status == Playing
      && w.players == s.players && w.code == s.code && w.hostId == s.hostId
      && 0 <= w.turnIndex < |w.players|
      && IsFirstPlayerIndex(w.players, w.turnIndex)
  {
  }

  /** Once a start has been accepted every further start is a no-op; and the
      same start repeated has the effect of one. */
  lemma StartIdempotent(s: Snapshot, hostId: Option<string>, again: Option<string>)
    ensures StartStep(StartStep(s, hostId), hostId) == StartStep(s, hostId)
    ensures StartAccepted(s, hostId) ==> StartStep(StartStep(s, hostId), again) == StartStep(s, hostId)
  {
  }

  // ---------------------------------------------------------------------------
  // Properties of the handler
  // ---------------------------------------------------------------------------

  /** A freshly created room is consistent. */
  lemma NewRoomConsistent(code: string, hostId: string)
    ensures Consistent(NewRoom(code, hostId))
  {
  }

  /** Every message keeps a room consistent. */
  lemma ApplyKeepsConsistent(s: Snapshot, ev: Event)
    requires Consistent(s)
    ensures Consistent(Apply(s, ev))
  {
    match ev
    case Join(p) => JoinKeepsJoinOrder(s, p);
    case Start(h) =>
    case Other =>
  }

  /** Any sequence of messages keeps a room consistent. */
  lemma {:induction false} ReplayKeepsConsistent(s: Snapshot, evs: seq<Event>)
    requires Consistent(s)
    ensures Consistent(Replay(s, evs))
    decreases |evs|
  {
    if evs != [] {
      ApplyKeepsConsistent(s, evs[0]);
      ReplayKeepsConsistent(Apply(s, evs[0]), evs[1..]);
    }
  }

  /** Over any sequence of messages the code and host id never change, players
      are only ever added at the end, and a playing room stays playing with the
      same turn index. */
  lemma {:induction false} ReplayMonotone(s: Snapshot, evs: seq<Event>)
    ensures var w := Replay(s, evs);
      && w.code == s.code && w.hostId == s.hostId
      && |s.players| <= |w.players| && w.players[..|s.players|] == s.players
      && (s.status == Playing ==> w.status == Playing && w.turnIndex == s.turnIndex)
    decreases |evs|
  {
    if evs != [] {
      var t := Apply(s, evs[0]);
      assert |s.players| <= |t.players| && t.players[..|s.players|] == s.players;
      ReplayMonotone(t, evs[1..]);
      var w := Replay(t, evs[1..]);
      assert w.players[..|s.players|] == w.players[..|t.players|][..|s.players|];
    }
  }

  /** Observation: the room-state payload handed to the broadcast after a join
      carries the host id, and once a lobby room has two players a start
      claiming that id is accepted. Delivery of the payload is not modelled. */
  lemma JoinBroadcastRevealsHostId(s: Snapshot, p: Player)
    requires s.status == Lobby && |s.players| >= 1
    ensures var sent := Notices(s, Join(p));
      && |sent| == 1 && sent[0].RoomState?
      && sent[0].room.hostId == s.hostId
      && StartAccepted(sent[0].room, Some(sent[0].room.hostId))
  {
  }

  /** A message with an event other than join or start leaves the room as it is
      and broadcasts nothing. */
  lemma OtherIgnored(s: Snapshot)
    ensures Apply(s, Other) == s && Notices(s, Other) == []
  {
  }
}
