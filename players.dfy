/** Operations on a room's ordered list of seats: finding a socket's seat, moving
    the turn past eliminated seats, and the host's place in the list. */
module Players {
  import opened Types

  /** Array.prototype.findIndex on `p.id === id`: the first seat held by the socket,
      or -1 when it holds none. */
  function IndexOfId(players: seq<Player>, id: string): (i: int)
    ensures -1 <= i < |players|
    ensures 0 <= i ==> players[i].id == id
    ensures forall k :: 0 <= k < |players| && (i == -1 || k < i) ==> players[k].id != id
  {
    if players == [] then -1
    else if players[0].id == id then 0
    else
      var j := IndexOfId(players[1..], id);
      if j == -1 then -1 else j + 1
  }

  /** Where the turn lands when it moves forward from seat `t` past eliminated seats:
      the first seat at or after `t` that is still in the game, or the end of the
      list when there is none (`t` itself when it already lies past the end). */
  function NextActive(players: seq<Player>, t: nat): (r: nat)
    ensures t <= r
    ensures r < |players| ==> !players[r].eliminated
    ensures forall k :: t <= k < r ==> k < |players| && players[k].eliminated
    ensures r <= |players| || r == t
    decreases |players| - t
  {
    if t < |players| && players[t].eliminated then NextActive(players, t + 1) else t
  }

  /** The seats still in the game from seat `t` on, in seat order. */
  function ActiveFrom(players: seq<Player>, t: nat): (seats: seq<nat>)
    decreases |players| - t
  {
    if t >= |players| then []
    else if players[t].eliminated then ActiveFrom(players, t + 1)
    else [t] + ActiveFrom(players, t + 1)
  }

  /** The seats that get the turn, one accepted description after another, when the
      turn currently stands at seat `t` and the seats do not change. */
  function TurnSequence(players: seq<Player>, t: nat): (turns: seq<nat>)
    decreases |players| - t
  {
    if t >= |players| then [] else [t] + TurnSequence(players, NextActive(players, t + 1))
  }

  /** ActiveFrom lists exactly the seats still in the game from `t` on, each once, in
      increasing order. */
  lemma {:induction false} ActiveFromExact(players: seq<Player>, t: nat)
    ensures forall k :: k in ActiveFrom(players, t) <==> t <= k < |players| && !players[k].eliminated
    ensures forall i, j :: 0 <= i < j < |ActiveFrom(players, t)| ==> ActiveFrom(players, t)[i] < ActiveFrom(players, t)[j]
    decreases |players| - t
  {
    if t < |players| {
      ActiveFromExact(players, t + 1);
      var tail := ActiveFrom(players, t + 1);
      if !players[t].eliminated {
        forall i, j | 0 <= i < j < |[t] + tail|
          ensures ([t] + tail)[i] < ([t] + tail)[j]
        {
          if i == 0 {
            assert tail[j - 1] in tail;
          }
        }
      }
    }
  }

  /** Once the turn has been moved to a seat still in the game, the turns of a round
      visit every seat still in the game from there on exactly once, in seat order,
      before the turn runs off the end of the list and voting opens. */
  lemma {:induction false} TurnsVisitActiveSeats(players: seq<Player>, t: nat)
    ensures TurnSequence(players, NextActive(players, t)) == ActiveFrom(players, t)
    decreases |players| - t
  {
    if t < |players| {
      TurnsVisitActiveSeats(players, t + 1);
    }
  }

  /** The host invariant of a room: when the room has seats, the first seat is the
      host's, it is the only one flagged as host, and `host` names its socket. */
  predicate HostShape(players: seq<Player>, host: string) {
    |players| > 0 ==>
      players[0].id == host && players[0].isHost &&
      forall k :: 0 < k < |players| ==> !players[k].isHost
  }

  /** Every seat with the eliminated flag cleared (the forEach run at game over). */
  function Revived(players: seq<Player>): (r: seq<Player>)
    ensures |r| == |players|
    ensures forall k :: 0 <= k < |r| ==> !r[k].eliminated
    ensures forall k :: 0 <= k < |r| ==> r[k] == players[k].(eliminated := false)
  {
    seq(|players|, k requires 0 <= k < |players| => players[k].(eliminated := false))
  }

  /** The seats after the socket `id` disconnects, with the host that results: its
      first seat is spliced out and, when seats remain and it was the host, the new
      first seat becomes the host. */
  function Departure(players: seq<Player>, host: string, id: string): (r: (seq<Player>, string))
    ensures IndexOfId(players, id) == -1 ==> r == (players, host)
    ensures IndexOfId(players, id) >= 0 ==> |r.0| == |players| - 1
  {
    var i := IndexOfId(players, id);
    if i == -1 then (players, host)
    else
      var rest := players[..i] + players[i + 1..];
      if |rest| > 0 && host == id then (rest[0 := rest[0].(isHost := true)], rest[0].id)
      else (rest, host)
  }

  /** A departure keeps every other seat, in order, changing at most its host flag;
      it keeps the host invariant; and it names a new host only when the host's
      socket left, and then the new first seat's socket. */
  lemma {:induction false} DepartureKeepsSeats(players: seq<Player>, host: string, id: string)
    ensures var r := Departure(players, host, id); var i := IndexOfId(players, id);
      i >= 0 ==> forall k :: 0 <= k < |r.0| ==>
        r.0[k].(isHost := false) == (if k < i then players[k] else players[k + 1]).(isHost := false)
    ensures HostShape(players, host) ==> HostShape(Departure(players, host, id).0, Departure(players, host, id).1)
    ensures var r := Departure(players, host, id);
      r.1 != host ==> host == id && |r.0| > 0 && r.1 == r.0[0].id
  {
    var i := IndexOfId(players, id);
    if i >= 0 {
      var rest := players[..i] + players[i + 1..];
      assert forall k :: 0 <= k < |rest| ==> rest[k] == if k < i then players[k] else players[k + 1];
      var r := Departure(players, host, id);
      if |rest| > 0 && host == id {
        assert r.0 == rest[0 := rest[0].(isHost := true)];
      } else {
        assert r.0 == rest;
      }
    }
  }
}
