/** What the handlers guarantee about a room, stated over the step functions of
    module Sessions. */
module SessionLaws {
  import opened Types
  import opened OrderedMaps
  import opened Players
  import opened Votes
  import opened Sessions

  /** joinRoom keeps a stored room valid: the new seat goes after the host's and is
      never flagged as host. (A stored room always has a seat: the server deletes a
      room when its last seat leaves.) */
  lemma {:induction false} ValidAfterJoin(s: RoomState, socketId: string, nickname: string)
    requires Valid(s) && |s.players| > 0
    ensures Valid(JoinStep(s, socketId, nickname).next)
  {
    var r := JoinStep(s, socketId, nickname);
    if !s.gameStarted {
      assert r.next.players[0] == s.players[0];
    }
  }

  /** startGame keeps the room valid, whatever the draws. */
  lemma {:induction false} ValidAfterStart(s: RoomState, socketId: string, wordRoll: real, imposterRoll: real)
    requires Valid(s) && 0.0 <= wordRoll < 1.0 && 0.0 <= imposterRoll < 1.0
    ensures Valid(StartStep(s, socketId, wordRoll, imposterRoll).next)
  {
  }

  /** submitDescription keeps the room valid. */
  lemma {:induction false} ValidAfterDescribe(s: RoomState, socketId: string, description: string)
    requires Valid(s)
    ensures Valid(DescribeStep(s, socketId, description).next)
  {
  }

  /** submitVote keeps the room valid, on every outcome. */
  lemma {:induction false} ValidAfterVote(s: RoomState, voter: string, target: string)
    requires Valid(s) && VoteIsSafe(s, voter, target)
    ensures Valid(VoteStep(s, voter, target).next)
  {
    if s.votingPhase && |Cast(s, voter, target)| == |s.players| {
      ValidAfterResolve(s.(votes := Cast(s, voter, target)));
    }
  }

  /** Resolving the votes keeps the room valid: whatever the outcome, the seats keep
      their order and the host keeps the first seat. */
  lemma {:induction false} ValidAfterResolve(s: RoomState)
    requires Valid(s) && Resolvable(s)
    ensures Valid(Resolve(s).next)
  {
    ResolutionEffect(s);
    var n := Resolve(s).next;
    assert HostShape(n.players, n.host) by {
      if |s.players| > 0 {
        assert n.players[0].(eliminated := false) == s.players[0].(eliminated := false);
        forall k | 0 < k < |n.players|
          ensures !n.players[k].isHost
        {
          assert n.players[k].(eliminated := false) == s.players[k].(eliminated := false);
        }
      }
    }
  }

  /** A disconnect keeps the room valid. */
  lemma {:induction false} ValidAfterLeave(s: RoomState, id: string)
    requires Valid(s)
    ensures Valid(LeaveStep(s, id).next)
  {
    DepartureKeepsSeats(s.players, s.host, id);
  }

  /** When a game starts, the imposter's seat alone is told it is the imposter and
      gets no word; every other seat is sent the same word from the word list. */
  lemma {:induction false} OnlyImposterLacksWord(s: RoomState, socketId: string, wordRoll: real, imposterRoll: real)
    requires 0.0 <= wordRoll < 1.0 && 0.0 <= imposterRoll < 1.0
    requires s.host == socketId && |s.players| >= MinPlayers
    ensures var r := StartStep(s, socketId, wordRoll, imposterRoll);
      && |r.out| == |s.players|
      && (exists w :: w in WordList &&
            forall i :: 0 <= i < |r.out| ==>
              && r.out[i].to == Socket(s.players[i].id)
              && r.out[i].event.GameStarted?
              && (r.out[i].event.isImposter <==> r.next.imposterIndex == Some(i))
              && r.out[i].event.word == if r.out[i].event.isImposter then None else Some(w))
      && (exists i :: 0 <= i < |r.out| && r.out[i].event.isImposter)
  {
    var r := StartStep(s, socketId, wordRoll, imposterRoll);
    var imp := r.next.imposterIndex.value;
    assert Announcement(r.next, imp).event.isImposter;
    assert r.out[imp].event.isImposter;
  }

  /** Only the socket holding the seat whose turn it is can change the room by
      submitting a description; a socket with no seat never can. */
  lemma {:induction false} OnlyTurnHolderDescribes(s: RoomState, socketId: string, description: string)
    requires DescribeStep(s, socketId, description).next != s
    ensures s.gameStarted && s.currentTurn < |s.players| && s.players[s.currentTurn].id == socketId
  {
  }

  /** In a valid room, an accepted description opens the voting exactly when the turn
      runs past the last seat still in the game. */
  lemma {:induction false} DescribingOpensVotingAtEnd(s: RoomState, socketId: string, description: string)
    requires Valid(s) && s.gameStarted && IndexOfId(s.players, socketId) == s.currentTurn as int
    ensures var r := DescribeStep(s, socketId, description);
      && (r.next.votingPhase <==> r.next.currentTurn >= |s.players|)
      && (r.next.votingPhase <==> forall k :: s.currentTurn < k < |s.players| ==> s.players[k].eliminated)
  {
  }

  /** The number of ballots the server compares with the number of seats
      (`votes.size`) counts voters: each voter holds one ballot, the latest. */
  lemma {:induction false} CastHoldsOneBallotPerVoter(s: RoomState, voter: string, target: string)
    requires Distinct(s.votes)
    ensures var c := Cast(s, voter, target);
      && |KeySet(c)| == |c|
      && Get(c, voter) == Some(target)
      && (HasKey(s.votes, voter) ==> |c| == |s.votes|)
      && (!HasKey(s.votes, voter) ==> |c| == |s.votes| + 1)
  {
    SizeIsKeyCount(Cast(s, voter, target));
  }

  /** When the last ballot is in, the player voted out is the plurality target, ties
      going to the target voted for first; the emitted event names that player. */
  lemma {:induction false} ResolutionVotesOutPlurality(s: RoomState, voter: string, target: string)
    requires Distinct(s.votes) && VoteIsSafe(s, voter, target)
    requires s.votingPhase && |Cast(s, voter, target)| == |s.players|
    ensures var c := Cast(s, voter, target);
      var r := VoteStep(s, voter, target);
      exists w ::
        && IsPlurality(c, w)
        && 0 <= IndexOfId(s.players, w)
        && |r.out| == 1
        && (r.out[0].event.GameOver? || r.out[0].event.NextRound?)
        && r.out[0].event.votedOut == s.players[IndexOfId(s.players, w)].nickname
  {
    var c := Cast(s, voter, target);
    ResolutionEffect(s.(votes := c));
    var w := Winner(c).value;
    WinnerIsPlurality(c, w);
    assert IsPlurality(c, w);
  }

  /** The crew wins exactly when the voted-out seat is the imposter's; otherwise the
      imposter wins exactly when the last round was played. */
  lemma {:induction false} ResolutionOutcome(s: RoomState, voter: string, target: string)
    requires Distinct(s.votes) && VoteIsSafe(s, voter, target)
    requires s.votingPhase && |Cast(s, voter, target)| == |s.players|
    ensures var c := s.(votes := Cast(s, voter, target));
      var e := VoteStep(s, voter, target).out[0].event;
      && (e.GameOver? && e.winner == Crew <==> s.imposterIndex == Some(VotedOutIndex(c)))
      && (e.GameOver? && e.winner == Imposter <==>
            s.imposterIndex != Some(VotedOutIndex(c)) && s.currentRound >= s.maxRounds)
      && (e.NextRound? <==> s.imposterIndex != Some(VotedOutIndex(c)) && s.currentRound < s.maxRounds)
  {
  }

  /** Game over leaves the ballots in place and the voting open: a voter who already
      holds a ballot voting again makes the server resolve the votes once more. */
  lemma {:induction false} GameOverLeavesBallotsOpen(s: RoomState, voter: string, target: string,
                                                     again: string, target2: string)
    requires Distinct(s.votes) && VoteIsSafe(s, voter, target)
    requires s.votingPhase && |Cast(s, voter, target)| == |s.players|
    requires VoteStep(s, voter, target).out[0].event.GameOver?
    requires HasKey(Cast(s, voter, target), again)
    ensures var n := VoteStep(s, voter, target).next;
      && !n.gameStarted && n.votingPhase && n.votes == Cast(s, voter, target)
      && |Cast(n, again, target2)| == |n.players|
  {
    var c := s.(votes := Cast(s, voter, target));
    ResolutionEffect(c);
    var n := VoteStep(s, voter, target).next;
    assert n == Resolve(c).next;
    assert |Cast(n, again, target2)| == |n.votes|;
  }

  /** A disconnect splices the seat out without moving the turn or the imposter's
      index: when a seat before the imposter's leaves, the index names the next
      player along. */
  lemma {:induction false} LeaveKeepsIndices(s: RoomState, id: string)
    requires s.imposterIndex.Some? && 0 <= IndexOfId(s.players, id) < s.imposterIndex.value < |s.players|
    ensures var n := LeaveStep(s, id).next;
      && n.currentTurn == s.currentTurn && n.imposterIndex == s.imposterIndex
      && n.players[s.imposterIndex.value - 1].id == s.players[s.imposterIndex.value].id
      && (s.imposterIndex.value < |n.players| ==>
            n.players[s.imposterIndex.value].id == s.players[s.imposterIndex.value + 1].id)
  {
    var n := LeaveStep(s, id).next;
    var k := s.imposterIndex.value;
    DepartureKeepsSeats(s.players, s.host, id);
    assert n.players[k - 1].(isHost := false) == s.players[k].(isHost := false);
    if k < |n.players| {
      assert n.players[k].(isHost := false) == s.players[k + 1].(isHost := false);
    }
  }

  /** A disconnect that leaves seats keeps a host among them, and names the new host
      only when the host's socket left. */
  lemma {:induction false} LeaveKeepsHost(s: RoomState, id: string)
    requires Valid(s)
    ensures var n := LeaveStep(s, id).next;
      && (|n.players| > 0 ==> n.players[0].id == n.host && n.players[0].isHost)
      && (n.host != s.host ==> s.host == id)
  {
    DepartureKeepsSeats(s.players, s.host, id);
    var d := Departure(s.players, s.host, id);
    assert HostShape(d.0, d.1);
  }

  /** Two voters who both vote for `t` vote `t` out. */
  lemma {:induction false} TwoBallotsForOne(x: string, y: string, t: string)
    requires x != y
    ensures Winner([(x, t), (y, t)]) == Some(t)
  {
    var c := [(x, t), (y, t)];
    assert c[..1] == [(x, t)] && c[..0] == [];
    assert CountsOf(c[..1]) == [(t, 1)];
    assert CountsOf(c) == [(t, 2)];
  }

  /** The crash the vote resolution can reach in ordinary play: the imposter holds
      the last of three seats and disconnects during the last round, and the two
      remaining seats vote the host out. The game then ends with the imposter
      winning, and the server reads the imposter's name from a seat that no longer
      exists (server.js:255), so the closing ballot is not safe. */
  lemma {:induction false} ImposterLeavingCanCrashVote()
    ensures exists s: RoomState, id: string ::
      && Valid(s)
      && var n := LeaveStep(s, id).next;
         n.votingPhase && Distinct(n.votes) && |Cast(n, "B", "A")| == |n.players|
         && !VoteIsSafe(n, "B", "A")
  {
    var s := RoomState("ROOM", "A",
                       [Player("A", "Ann", true, false), Player("B", "Bob", false, false),
                        Player("C", "Cy", false, false)],
                       true, MaxRounds, MaxRounds, 3, Some(WordList[0]), Some(2),
                       [], [("A", "A")], true);
    assert Valid(s);
    var n := LeaveStep(s, "C").next;
    assert n.players == [Player("A", "Ann", true, false), Player("B", "Bob", false, false)];
    var c := Cast(n, "B", "A");
    assert c == [("A", "A"), ("B", "A")];
    TwoBallotsForOne("A", "B", "A");
    assert VotedOutIndex(n.(votes := c)) == 0;
    assert !Resolvable(n.(votes := c));
  }
}
