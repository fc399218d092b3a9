/** The server's `rooms` Map from room code to room record, and the socket handlers
    that look a room up by its code before acting on it. */
module Server {
  import opened Types
  import opened Picks
  import opened Players
  import opened Sessions
  import opened SessionLaws
  import opened Rooms

  /** Each room's value once the socket `id` has left it, whether or not it keeps a
      seat. */
  function LeftRooms(states: map<string, RoomState>, id: string): (left: map<string, RoomState>)
    ensures left.Keys == states.Keys
  {
    map c | c in states :: LeaveStep(states[c], id).next
  }

  /** What the disconnect sends to each room. */
  function LeftOutputs(states: map<string, RoomState>, id: string): (outs: map<string, seq<Emission>>)
    ensures outs.Keys == states.Keys
  {
    map c | c in states :: LeaveStep(states[c], id).out
  }

  /** The rooms once every room but those with codes in `pending` has been left,
      their values taken from `left`: a left room without a seat is deleted, the
      others stay as they were. */
  function Survivors(states: map<string, RoomState>, left: map<string, RoomState>, pending: set<string>): (m: map<string, RoomState>)
    requires left.Keys == states.Keys
    ensures forall c :: c in m <==> c in states && (c in pending || left[c].players != [])
  {
    map c | c in states && (c in pending || left[c].players != []) :: if c in pending then states[c] else left[c]
  }

  /** The rooms left after the socket `id` disconnects: every room loses that
      socket's first seat, and a room left with no seat is deleted. */
  function AfterDisconnect(states: map<string, RoomState>, id: string): (m: map<string, RoomState>) {
    Survivors(states, LeftRooms(states, id), {})
  }

  /** After a disconnect, exactly the rooms that keep a seat remain, each as the
      socket's departure left it. */
  lemma {:induction false} AfterDisconnectRooms(states: map<string, RoomState>, id: string)
    ensures var m := AfterDisconnect(states, id);
      && (forall c :: c in m <==> c in states && LeaveStep(states[c], id).next.players != [])
      && (forall c :: c in m ==> m[c] == LeaveStep(states[c], id).next)
  {
  }

  /** The events sent to the rooms whose codes are not in `pending`. */
  function SentOutside(outs: map<string, seq<Emission>>, pending: set<string>): (sent: set<Emission>) {
    set c, e | c in outs && c !in pending && e in outs[c] :: e
  }

  /** Every event the disconnect sends, to any room. */
  function AllSent(outs: map<string, seq<Emission>>): (sent: set<Emission>) {
    set c, e | c in outs && e in outs[c] :: e
  }

  /** Storing a room's value after its socket left, or deleting the room when it
      has no seat left. */
  function DepartFrom(states: map<string, RoomState>, code: string, n: RoomState): (m: map<string, RoomState>) {
    if n.players == [] then states - {code} else states[code := n]
  }

  /** Leaving one more room extends the partial disconnect by that room. */
  lemma {:induction false} SurvivorsStep(states: map<string, RoomState>, left: map<string, RoomState>, pending: set<string>, code: string)
    requires left.Keys == states.Keys && code in pending && code in states
    ensures code in Survivors(states, left, pending) && Survivors(states, left, pending)[code] == states[code]
    ensures Survivors(states, left, pending - {code}) == DepartFrom(Survivors(states, left, pending), code, left[code])
  {
    assert Survivors(states, left, pending - {code}).Keys == DepartFrom(Survivors(states, left, pending), code, left[code]).Keys;
  }

  /** No room left yet: nothing has changed. */
  lemma {:induction false} SurvivorsNone(states: map<string, RoomState>, left: map<string, RoomState>)
    requires left.Keys == states.Keys
    ensures Survivors(states, left, states.Keys) == states
  {
    assert Survivors(states, left, states.Keys).Keys == states.Keys;
  }

  /** The events of two emission lists sent one after the other. */
  lemma {:induction false} ElementsOfConcat(a: seq<Emission>, b: seq<Emission>)
    ensures (set e | e in a + b) == (set e | e in a) + (set e | e in b)
  {
  }

  /** Leaving one more room adds that room's events. */
  lemma {:induction false} SentStep(outs: map<string, seq<Emission>>, pending: set<string>, code: string)
    requires code in outs && code in pending
    ensures SentOutside(outs, pending - {code}) == SentOutside(outs, pending) + (set e | e in outs[code])
  {
  }

  /** Before any room is left nothing is sent; once all are, every event is. */
  lemma {:induction false} SentEnds(outs: map<string, seq<Emission>>)
    ensures SentOutside(outs, outs.Keys) == {}
    ensures SentOutside(outs, {}) == AllSent(outs)
  {
  }

  /** A disconnect leaves every remaining room valid and with a seat, and takes
      exactly one seat from each room in which the socket held one. */
  lemma {:induction false} DisconnectKeepsRoomsValid(states: map<string, RoomState>, id: string)
    requires forall c :: c in states ==> Valid(states[c]) && |states[c].players| > 0
    ensures var m := AfterDisconnect(states, id);
      forall c :: c in m ==>
        && Valid(m[c]) && |m[c].players| > 0
        && |m[c].players| == |states[c].players| - (if IndexOfId(states[c].players, id) >= 0 then 1 else 0)
  {
    var m := AfterDisconnect(states, id);
    forall c | c in m
      ensures Valid(m[c]) && |m[c].players| > 0
      ensures |m[c].players| == |states[c].players| - (if IndexOfId(states[c].players, id) >= 0 then 1 else 0)
    {
      ValidAfterLeave(states[c], id);
    }
  }

  /** A disconnect sends at most one event to one room, and only to that room's
      members. */
  lemma {:induction false} LeaveEmitsToRoom(s: RoomState, id: string)
    ensures var out := LeaveStep(s, id).out;
      |out| <= 1 && forall k :: 0 <= k < |out| ==> out[k].to == Members(s.code)
  {
  }

  /** Appending the events of one more room, each sent to that room, keeps the events
      sent so far pairwise distinct. */
  lemma {:induction false} AppendRoomEvents(out: seq<Emission>, o: seq<Emission>, pending: set<string>, code: string)
    requires code in pending
    requires forall i :: 0 <= i < |out| ==> out[i].to.Members? && out[i].to.roomCode !in pending
    requires forall i, j :: 0 <= i < j < |out| ==> out[i] != out[j]
    requires |o| <= 1 && forall k :: 0 <= k < |o| ==> o[k].to == Members(code)
    ensures forall i :: 0 <= i < |out + o| ==> (out + o)[i].to.Members? && (out + o)[i].to.roomCode !in pending - {code}
    ensures forall i, j :: 0 <= i < j < |out + o| ==> (out + o)[i] != (out + o)[j]
  {
  }

  /** A socket with no seat in any room changes nothing when it disconnects, and no
      event is sent. */
  lemma {:induction false} DisconnectOfStranger(states: map<string, RoomState>, id: string)
    requires forall c :: c in states ==> |states[c].players| > 0 && IndexOfId(states[c].players, id) == -1
    ensures AfterDisconnect(states, id) == states
    ensures AllSent(LeftOutputs(states, id)) == {}
  {
    var m := AfterDisconnect(states, id);
    forall c | c in states
      ensures c in m && m[c] == states[c]
    {
      assert LeaveStep(states[c], id) == Step(states[c], []);
    }
    assert m.Keys == states.Keys;
  }

  class Registry {
    var rooms: map<string, Room>

    /** Every stored room is filed under its own code, is valid, and has a seat. */
    ghost predicate Valid()
      reads this, rooms.Values
    {
      forall c :: c in rooms ==> rooms[c].code == c && rooms[c].Valid() && |rooms[c].players| > 0
    }

    /** The value of every stored room. */
    function States(): map<string, RoomState>
      reads this, rooms.Values
    {
      map c | c in rooms :: rooms[c].State()
    }

    constructor ()
      ensures rooms == map[] && Valid()
    {
      rooms := map[];
    }

    /** createRoom, given the code the server generated. A room already stored under
        that code is replaced. */
    method CreateRoom(code: string, socketId: string, nickname: string) returns (out: seq<Emission>)
      requires Valid() && IsRoomCode(code)
      modifies this
      ensures Valid()
      ensures States() == old(States())[code := NewRoom(code, socketId, nickname)]
      ensures out == [Emit(Caller, RoomCreated(code, NewRoom(code, socketId, nickname).players))]
    {
      ghost var was := States();
      var room := new Room(code, socketId, nickname);
      assert forall c :: c in rooms ==> rooms[c].State() == was[c];
      rooms := rooms[code := room];
      out := [Emit(Caller, RoomCreated(code, room.players))];
      assert States().Keys == was[code := room.State()].Keys;
    }

    /** joinRoom. */
    method JoinRoom(code: string, socketId: string, nickname: string) returns (out: seq<Emission>)
      requires Valid()
      modifies rooms.Values
      ensures Valid()
      ensures code !in old(rooms) ==> States() == old(States()) && out == [Emit(Caller, Error(RoomNotFound))]
      ensures code in old(rooms) ==>
        && States() == old(States())[code := JoinStep(old(States())[code], socketId, nickname).next]
        && out == JoinStep(old(States())[code], socketId, nickname).out
    {
      if code !in rooms {
        return [Emit(Caller, Error(RoomNotFound))];
      }
      ghost var was := States();
      var room := rooms[code];
      assert forall c :: c in rooms && c != code ==> rooms[c] != room;
      out := room.Join(socketId, nickname);
      Updated(code, was);
    }

    /** startGame, with the two draws of Math.random() it makes. */
    method StartGame(code: string, socketId: string, wordRoll: real, imposterRoll: real) returns (out: seq<Emission>)
      requires Valid() && 0.0 <= wordRoll < 1.0 && 0.0 <= imposterRoll < 1.0
      modifies rooms.Values
      ensures Valid()
      ensures code !in old(rooms) ==> States() == old(States()) && out == []
      ensures code in old(rooms) ==>
        && States() == old(States())[code := StartStep(old(States())[code], socketId, wordRoll, imposterRoll).next]
        && out == StartStep(old(States())[code], socketId, wordRoll, imposterRoll).out
    {
      if code !in rooms {
        return [];
      }
      ghost var was := States();
      var room := rooms[code];
      assert forall c :: c in rooms && c != code ==> rooms[c] != room;
      out := room.StartGame(socketId, wordRoll, imposterRoll);
      Updated(code, was);
    }

    /** submitDescription. */
    method SubmitDescription(code: string, socketId: string, description: string) returns (out: seq<Emission>)
      requires Valid()
      modifies rooms.Values
      ensures Valid()
      ensures code !in old(rooms) ==> States() == old(States()) && out == [Emit(Caller, Error(RoomNotFound))]
      ensures code in old(rooms) ==>
        && States() == old(States())[code := DescribeStep(old(States())[code], socketId, description).next]
        && out == DescribeStep(old(States())[code], socketId, description).out
    {
      if code !in rooms {
        return [Emit(Caller, Error(RoomNotFound))];
      }
      ghost var was := States();
      var room := rooms[code];
      assert forall c :: c in rooms && c != code ==> rooms[c] != room;
      out := room.SubmitDescription(socketId, description);
      Updated(code, was);
    }

    /** submitVote. The server only survives the closing vote when it is safe. */
    method SubmitVote(code: string, voter: string, target: string) returns (out: seq<Emission>)
      requires Valid()
      requires code in rooms ==> VoteIsSafe(rooms[code].State(), voter, target)
      modifies rooms.Values
      ensures Valid()
      ensures code !in old(rooms) ==> States() == old(States()) && out == []
      ensures code in old(rooms) ==>
        && States() == old(States())[code := VoteStep(old(States())[code], voter, target).next]
        && out == VoteStep(old(States())[code], voter, target).out
    {
      if code !in rooms {
        return [];
      }
      ghost var was := States();
      var room := rooms[code];
      assert forall c :: c in rooms && c != code ==> rooms[c] != room;
      out := room.SubmitVote(voter, target);
      Updated(code, was);
    }

    /** After a handler changed only the room under `code`, and left it with a seat,
        every other room's value is as it was and the registry is still valid. */
    lemma {:induction false} Updated(code: string, was: map<string, RoomState>)
      requires code in rooms && rooms[code].Valid() && |rooms[code].players| > 0
      requires was.Keys == rooms.Keys
      requires forall c :: c in rooms ==> rooms[c].code == c
      requires forall c :: c in rooms && c != code ==> rooms[c].State() == was[c] && Sessions.Valid(was[c]) && |was[c].players| > 0
      ensures Valid()
      ensures States() == was[code := rooms[code].State()]
    {
    }

    /** After a handler deleted the room under `code` and changed no other, every
        other room's value is as it was and the registry is still valid. */
    lemma {:induction false} Deleted(code: string, was: map<string, RoomState>)
      requires code !in rooms && rooms.Keys == was.Keys - {code}
      requires forall c :: c in rooms ==> rooms[c].code == c
      requires forall c :: c in rooms ==> rooms[c].State() == was[c] && Sessions.Valid(was[c]) && |was[c].players| > 0
      ensures Valid()
      ensures States() == was - {code}
    {
      assert States().Keys == (was - {code}).Keys;
    }

    /** The body of the disconnect loop for the room under `code`: the socket leaves
        it, and it is deleted when it has no seat left. */
    method LeaveRoom(code: string, id: string) returns (out: seq<Emission>)
      requires Valid() && code in rooms
      modifies this, rooms[code]
      ensures Valid()
      ensures forall c :: c in rooms ==> c in old(rooms) && rooms[c] == old(rooms)[c]
      ensures States() == DepartFrom(old(States()), code, LeaveStep(old(States())[code], id).next)
      ensures out == LeaveStep(old(States())[code], id).out
    {
      ghost var was := States();
      var room := rooms[code];
      ghost var s0 := room.State();
      assert s0 == was[code];
      assert forall c :: c in rooms && c != code ==> rooms[c] != room;
      out := room.Leave(id);
      ghost var n := LeaveStep(s0, id).next;
      assert room.State() == n;
      if |room.players| == 0 {
        rooms := map c | c in rooms && c != code :: rooms[c];
        Deleted(code, was);
      } else {
        Updated(code, was);
      }
    }

    /** disconnect: the socket leaves every room, rooms left empty are deleted, and
        each room that keeps a seat is told who is left. */
    method Disconnect(id: string) returns (out: seq<Emission>)
      requires Valid()
      modifies this, rooms.Values
      ensures Valid()
      ensures States() == AfterDisconnect(old(States()), id)
      ensures (set e | e in out) == AllSent(LeftOutputs(old(States()), id))
      ensures forall i, j :: 0 <= i < j < |out| ==> out[i] != out[j]
    {
      ghost var before := States();
      assert forall c :: c in before ==> before[c].code == c;
      ghost var left := LeftRooms(before, id);
      ghost var outs := LeftOutputs(before, id);
      ghost var oldRooms := rooms;
      var pending := rooms.Keys;
      out := [];
      SurvivorsNone(before, left);
      SentEnds(outs);
      while pending != {}
        invariant pending <= before.Keys
        invariant forall c :: c in rooms ==> c in oldRooms && rooms[c] == oldRooms[c]
        invariant Valid()
        invariant States() == Survivors(before, left, pending)
        invariant (set e | e in out) == SentOutside(outs, pending)
        invariant forall i :: 0 <= i < |out| ==> out[i].to.Members? && out[i].to.roomCode !in pending
        invariant forall i, j :: 0 <= i < j < |out| ==> out[i] != out[j]
        decreases pending
      {
        var code :| code in pending;
        SurvivorsStep(before, left, pending, code);
        assert left[code] == LeaveStep(before[code], id).next;
        assert outs[code] == LeaveStep(before[code], id).out;
        var o := LeaveRoom(code, id);
        LeaveEmitsToRoom(before[code], id);
        AppendRoomEvents(out, o, pending, code);
        SentStep(outs, pending, code);
        ElementsOfConcat(out, o);
        out := out + o;
        pending := pending - {code};
      }
    }
  }
}
