/** The room record as the server keeps it: one object whose fields the socket
    handlers update in place. Each handler method is proved to leave the record in
    the state, and to emit the events, that the matching step function of module
    Sessions gives. */
module Rooms {
  import opened Types
  import opened Picks
  import opened OrderedMaps
  import opened Players
  import opened Votes
  import opened Sessions
  import opened SessionLaws

  class Room {
    const code: string
    var host: string
    var players: seq<Player>
    var gameStarted: bool
    var currentRound: nat
    const maxRounds: nat
    var currentTurn: nat
    var word: Option<string>
    var imposterIndex: Option<nat>
    var descriptions: seq<Description>
    var votes: Ballots
    var votingPhase: bool

    /** The record's current value. */
    function State(): RoomState
      reads this
    {
      RoomState(code, host, players, gameStarted, currentRound, maxRounds, currentTurn, word,
                imposterIndex, descriptions, votes, votingPhase)
    }

    predicate Valid()
      reads this
    {
      Sessions.Valid(State())
    }

    /** The record createRoom builds for its caller. */
    constructor (roomCode: string, socketId: string, nickname: string)
      ensures State() == NewRoom(roomCode, socketId, nickname)
      ensures Valid()
    {
      code := roomCode;
      host := socketId;
      players := [Player(socketId, nickname, true, false)];
      gameStarted := false;
      currentRound := 0;
      maxRounds := MaxRounds;
      currentTurn := 0;
      word := None;
      imposterIndex := None;
      descriptions := [];
      votes := [];
      votingPhase := false;
    }

    /** joinRoom, once the room is found. */
    method Join(socketId: string, nickname: string) returns (out: seq<Emission>)
      requires Valid() && |players| > 0
      modifies this
      ensures State() == JoinStep(old(State()), socketId, nickname).next
      ensures out == JoinStep(old(State()), socketId, nickname).out
      ensures Valid() && |players| > 0
    {
      ValidAfterJoin(State(), socketId, nickname);
      if gameStarted {
        out := [Emit(Caller, Error(GameInProgress))];
        return;
      }
      players := players + [Player(socketId, nickname, false, false)];
      out := [Emit(Caller, RoomJoined(code, players)), Emit(Members(code), PlayerJoined(players))];
    }

    /** startGame, once the room is found: the host's request with at least three
        seats resets the game and sends each seat its own gameStarted event. */
    method StartGame(socketId: string, wordRoll: real, imposterRoll: real) returns (out: seq<Emission>)
      requires Valid() && 0.0 <= wordRoll < 1.0 && 0.0 <= imposterRoll < 1.0
      modifies this
      ensures State() == StartStep(old(State()), socketId, wordRoll, imposterRoll).next
      ensures out == StartStep(old(State()), socketId, wordRoll, imposterRoll).out
      ensures Valid() && players == old(players)
    {
      ValidAfterStart(State(), socketId, wordRoll, imposterRoll);
      if host != socketId {
        return [];
      }
      if |players| < MinPlayers {
        return [Emit(Caller, Error(NotEnoughPlayers))];
      }
      gameStarted := true;
      currentRound := 1;
      currentTurn := 0;
      word := Some(RandomWord(wordRoll));
      imposterIndex := Some(RandomIndex(imposterRoll, |players|));
      descriptions := [];
      votes := [];
      votingPhase := false;

      out := [];
      var index := 0;
      while index < |players|
        invariant 0 <= index <= |players|
        invariant |out| == index
        invariant forall k :: 0 <= k < index ==> out[k] == Announcement(State(), k)
      {
        var isImposter := imposterIndex == Some(index);
        out := out + [Emit(Socket(players[index].id),
                           GameStarted(if isImposter then None else word, isImposter, currentRound,
                                       maxRounds, players, players[currentTurn].nickname))];
        index := index + 1;
      }
    }

    /** submitDescription, once the room is found. */
    method SubmitDescription(socketId: string, description: string) returns (out: seq<Emission>)
      requires Valid()
      modifies this
      ensures State() == DescribeStep(old(State()), socketId, description).next
      ensures out == DescribeStep(old(State()), socketId, description).out
      ensures Valid() && players == old(players)
    {
      ValidAfterDescribe(State(), socketId, description);
      if !gameStarted {
        return [Emit(Caller, Error(GameNotStarted))];
      }
      var playerIndex := IndexOfId(players, socketId);
      if playerIndex != currentTurn as int {
        return [];
      }
      out := AcceptDescription(socketId, description);
    }

    /** The description of the seat whose turn it is: record it, pass the turn over
        the eliminated seats after it, and open the voting when no seat is left. */
    method AcceptDescription(socketId: string, description: string) returns (out: seq<Emission>)
      requires gameStarted && IndexOfId(players, socketId) == currentTurn as int
      modifies this
      ensures State() == DescribeStep(old(State()), socketId, description).next
      ensures out == DescribeStep(old(State()), socketId, description).out
    {
      descriptions := descriptions + [Description(players[currentTurn].nickname, description)];
      currentTurn := currentTurn + 1;
      ghost var pushed := State();
      while currentTurn < |players| && players[currentTurn].eliminated
        invariant old(currentTurn) < currentTurn
        invariant State() == pushed.(currentTurn := currentTurn)
        invariant NextActive(players, currentTurn) == NextActive(players, old(currentTurn) + 1)
        decreases |players| - currentTurn
      {
        currentTurn := currentTurn + 1;
      }
      assert NextActive(players, currentTurn) == currentTurn;
      if currentTurn >= |players| {
        votingPhase := true;
        out := [Emit(Members(code), StartVoting(descriptions, players))];
      } else {
        out := [Emit(Members(code), NextTurn(players[currentTurn].nickname, descriptions))];
      }
    }

    /** The forEach at game over that clears every seat's eliminated flag. */
    method ReviveAll()
      modifies this
      ensures players == Revived(old(players))
      ensures State() == old(State()).(players := players)
    {
      var i := 0;
      while i < |players|
        invariant 0 <= i <= |players| == |old(players)|
        invariant forall k :: 0 <= k < i ==> players[k] == old(players)[k].(eliminated := false)
        invariant forall k :: i <= k < |players| ==> players[k] == old(players)[k]
        invariant State() == old(State()).(players := players)
      {
        players := players[i := players[i].(eliminated := false)];
        i := i + 1;
      }
    }

    /** submitVote, once the room is found: record the ballot and, when there are as
        many ballots as seats, resolve the votes. */
    method SubmitVote(voter: string, target: string) returns (out: seq<Emission>)
      requires Valid() && VoteIsSafe(State(), voter, target)
      modifies this
      ensures State() == VoteStep(old(State()), voter, target).next
      ensures out == VoteStep(old(State()), voter, target).out
      ensures Valid() && |players| == |old(players)|
    {
      if !votingPhase {
        return [];
      }
      votes := Set(votes, voter, target);
      if |votes| != |players| {
        return [];
      }
      ValidAfterResolve(State());
      out := ResolveVotes();
    }

    /** The resolution in submitVote: vote a player out, then end the game or start
        the next round. */
    method ResolveVotes() returns (out: seq<Emission>)
      requires Resolvable(State())
      modifies this
      ensures State() == Resolve(old(State())).next
      ensures out == Resolve(old(State())).out
    {
      var votedOutPlayerId := Tally(votes);
      var votedOutIndex := IndexOfId(players, votedOutPlayerId.value);
      players := Eliminate(players, votedOutIndex);
      var votedOut := players[votedOutIndex].nickname;
      var isImposter := imposterIndex == Some(votedOutIndex);
      if isImposter {
        out := FinishGame(Crew, votedOut);
      } else if currentRound >= maxRounds {
        out := FinishGame(Imposter, votedOut);
      } else {
        out := BeginNextRound(votedOut);
      }
    }

    /** Game over: announce the result, stop the game and clear every eliminated
        flag. The ballots and the voting phase are left as they are. */
    method FinishGame(winner: Team, votedOut: string) returns (out: seq<Emission>)
      requires imposterIndex.Some? && imposterIndex.value < |players|
      modifies this
      ensures State() == GameOverStep(old(State()), old(players), winner, votedOut).next
      ensures out == GameOverStep(old(State()), old(players), winner, votedOut).out
    {
      out := [Emit(Members(code), GameOver(winner, players[imposterIndex.value].nickname, word, votedOut))];
      gameStarted := false;
      ReviveAll();
    }

    /** The next round: the turn goes to the first seat still in the game, and
        descriptions and ballots start over. */
    method BeginNextRound(votedOut: string) returns (out: seq<Emission>)
      requires NextActive(players, 0) < |players|
      modifies this
      ensures State() == NextRoundStep(old(State()), old(players), votedOut).next
      ensures out == NextRoundStep(old(State()), old(players), votedOut).out
    {
      currentRound := currentRound + 1;
      currentTurn := 0;
      ghost var advanced := State();
      while currentTurn < |players| && players[currentTurn].eliminated
        invariant State() == advanced.(currentTurn := currentTurn)
        invariant NextActive(players, currentTurn) == NextActive(players, 0)
        decreases |players| - currentTurn
      {
        currentTurn := currentTurn + 1;
      }
      assert NextActive(players, currentTurn) == currentTurn;
      descriptions := [];
      votes := [];
      votingPhase := false;
      out := [Emit(Members(code), NextRound(currentRound, votedOut, players[currentTurn].nickname, players))];
    }

    /** disconnect, for this room: splice out the socket's first seat and, when seats
        remain and it was the host, make the new first seat the host. Nothing is
        emitted when the room has emptied; the caller then deletes it. */
    method Leave(id: string) returns (out: seq<Emission>)
      requires Valid()
      modifies this
      ensures State() == LeaveStep(old(State()), id).next
      ensures out == LeaveStep(old(State()), id).out
      ensures Valid()
    {
      ValidAfterLeave(State(), id);
      var playerIndex := IndexOfId(players, id);
      if playerIndex == -1 {
        return [];
      }
      players := players[..playerIndex] + players[playerIndex + 1..];
      if |players| == 0 {
        return [];
      }
      if host == id && |players| > 0 {
        host := players[0].id;
        players := players[0 := players[0].(isHost := true)];
      }
      out := [Emit(Members(code), PlayerLeft(players))];
    }
  }
}
