/** One room's game session as a value, and what each socket handler does to it.
    Each `...Step` function gives the room record after the handler and the events
    it emits; the Room class in module Rooms carries out the same handlers in place
    and is proved to agree with these functions. */
module Sessions {
  import opened Types
  import opened Picks
  import opened OrderedMaps
  import opened Players
  import opened Votes

  /** The server's room record. `imposterIndex` and `word` are null until the first
      game starts. */
  datatype RoomState = RoomState(
    code: string,
    host: string,
    players: seq<Player>,
    gameStarted: bool,
    currentRound: nat,
    maxRounds: nat,
    currentTurn: nat,
    word: Option<string>,
    imposterIndex: Option<nat>,
    descriptions: seq<Description>,
    votes: Ballots,
    votingPhase: bool)

  /** The record after a handler, and what the handler emitted, in order. */
  datatype Step = Step(next: RoomState, out: seq<Emission>)

  /** What every room keeps true between handlers: the host invariant, one ballot per
      voter, the fixed round limit, and a drawn word and imposter whenever a game is
      running or its votes are still open, and no turn left once a running game is
      voting. */
  predicate Valid(s: RoomState) {
    && HostShape(s.players, s.host)
    && Distinct(s.votes)
    && s.maxRounds == MaxRounds
    && s.currentRound <= s.maxRounds
    && (s.word.Some? ==> s.word.value in WordList)
    && ((s.gameStarted || s.votingPhase) ==> s.word.Some? && s.imposterIndex.Some?)
    && (s.gameStarted && s.votingPhase ==> s.currentTurn >= |s.players|)
  }

  /** The room that createRoom stores: its creator is the only seat, and the host. */
  function NewRoom(code: string, socketId: string, nickname: string): (s: RoomState)
    ensures Valid(s)
    ensures |s.players| == 1 && s.players[0].id == s.host == socketId
    ensures s.players[0].isHost && !s.players[0].eliminated
    ensures !s.gameStarted && !s.votingPhase && s.currentRound == 0 && s.currentTurn == 0
    ensures s.descriptions == [] && s.votes == []
  {
    RoomState(code, socketId, [Player(socketId, nickname, true, false)], false, 0, MaxRounds, 0,
              None, None, [], [], false)
  }

  /** joinRoom on an existing room. */
  function JoinStep(s: RoomState, socketId: string, nickname: string): (r: Step)
    ensures s.gameStarted ==> r.next == s && r.out == [Emit(Caller, Error(GameInProgress))]
    ensures !s.gameStarted ==>
      && |r.next.players| == |s.players| + 1
      && r.next.players[..|s.players|] == s.players
      && r.next.players[|s.players|] == Player(socketId, nickname, false, false)
      && r.next == s.(players := r.next.players)
    ensures !s.gameStarted ==> r.out == [Emit(Caller, RoomJoined(s.code, r.next.players)),
                                         Emit(Members(s.code), PlayerJoined(r.next.players))]
  {
    if s.gameStarted then Step(s, [Emit(Caller, Error(GameInProgress))])
    else
      var ps := s.players + [Player(socketId, nickname, false, false)];
      assert ps[..|s.players|] == s.players;
      Step(s.(players := ps), [Emit(Caller, RoomJoined(s.code, ps)), Emit(Members(s.code), PlayerJoined(ps))])
  }

  /** What seat `i` is sent when the game starts: the imposter gets no word and is
      told it is the imposter, everyone else gets the word. */
  function Announcement(s: RoomState, i: nat): (e: Emission)
    requires i < |s.players| && s.currentTurn < |s.players| && s.imposterIndex.Some?
    ensures e.to == Socket(s.players[i].id) && e.event.GameStarted?
    ensures e.event.isImposter <==> s.imposterIndex == Some(i)
    ensures e.event.word == if s.imposterIndex == Some(i) then None else s.word
  {
    var imposter := s.imposterIndex == Some(i);
    Emit(Socket(s.players[i].id),
         GameStarted(if imposter then None else s.word, imposter, s.currentRound, s.maxRounds,
                     s.players, s.players[s.currentTurn].nickname))
  }

  /** The per-seat gameStarted events, in seat order. */
  function Announcements(s: RoomState): (out: seq<Emission>)
    requires s.currentTurn < |s.players| && s.imposterIndex.Some?
    ensures |out| == |s.players|
    ensures forall i :: 0 <= i < |out| ==> out[i] == Announcement(s, i)
  {
    seq(|s.players|, i requires 0 <= i < |s.players| => Announcement(s, i))
  }

  /** startGame on an existing room, with the two draws of Math.random() it makes. */
  function StartStep(s: RoomState, socketId: string, wordRoll: real, imposterRoll: real): (r: Step)
    requires 0.0 <= wordRoll < 1.0 && 0.0 <= imposterRoll < 1.0
    ensures s.host != socketId ==> r == Step(s, [])
    ensures s.host == socketId && |s.players| < MinPlayers ==>
      r == Step(s, [Emit(Caller, Error(NotEnoughPlayers))])
    ensures s.host == socketId && |s.players| >= MinPlayers ==>
      && r.next.players == s.players && r.next.host == s.host && r.next.code == s.code
      && r.next.gameStarted && r.next.currentRound == 1 && r.next.currentTurn == 0
      && r.next.word.Some? && r.next.word.value in WordList
      && r.next.imposterIndex.Some? && r.next.imposterIndex.value < |s.players|
      && r.next.descriptions == [] && r.next.votes == [] && !r.next.votingPhase
      && r.next.maxRounds == s.maxRounds
      && r.out == Announcements(r.next)
  {
    if s.host != socketId then Step(s, [])
    else if |s.players| < MinPlayers then Step(s, [Emit(Caller, Error(NotEnoughPlayers))])
    else
      var next := s.(gameStarted := true, currentRound := 1, currentTurn := 0,
                     word := Some(RandomWord(wordRoll)),
                     imposterIndex := Some(RandomIndex(imposterRoll, |s.players|)),
                     descriptions := [], votes := [], votingPhase := false);
      Step(next, Announcements(next))
  }

  /** submitDescription on an existing room. */
  function DescribeStep(s: RoomState, socketId: string, description: string): (r: Step)
    ensures !s.gameStarted ==> r == Step(s, [Emit(Caller, Error(GameNotStarted))])
    ensures s.gameStarted && IndexOfId(s.players, socketId) != s.currentTurn as int ==> r == Step(s, [])
    ensures s.gameStarted && IndexOfId(s.players, socketId) == s.currentTurn as int ==>
      var t := r.next.currentTurn;
      && r.next == s.(descriptions := r.next.descriptions, currentTurn := t,
                      votingPhase := r.next.votingPhase)
      && r.next.descriptions == s.descriptions + [Description(s.players[s.currentTurn].nickname, description)]
      && s.currentTurn < t
      && (forall k :: s.currentTurn < k < t ==> k < |s.players| && s.players[k].eliminated)
      && (t < |s.players| ==> !s.players[t].eliminated)
      && (r.next.votingPhase <==> t >= |s.players| || s.votingPhase)
      && (t >= |s.players| ==> r.out == [Emit(Members(s.code), StartVoting(r.next.descriptions, s.players))])
      && (t < |s.players| ==> r.out == [Emit(Members(s.code), NextTurn(s.players[t].nickname, r.next.descriptions))])
  {
    if !s.gameStarted then Step(s, [Emit(Caller, Error(GameNotStarted))])
    else
      var i := IndexOfId(s.players, socketId);
      if i != s.currentTurn as int then Step(s, [])
      else
        var ds := s.descriptions + [Description(s.players[i].nickname, description)];
        var t := NextActive(s.players, i + 1);
        if t >= |s.players| then
          Step(s.(descriptions := ds, currentTurn := t, votingPhase := true),
               [Emit(Members(s.code), StartVoting(ds, s.players))])
        else
          Step(s.(descriptions := ds, currentTurn := t),
               [Emit(Members(s.code), NextTurn(s.players[t].nickname, ds))])
  }

  /** The seats once the voted-out player's first seat is marked eliminated. */
  function Eliminate(players: seq<Player>, i: nat): (r: seq<Player>)
    requires i < |players|
    ensures |r| == |players| && r[i].eliminated
    ensures forall k :: 0 <= k < |r| ==> r[k] == if k == i then players[k].(eliminated := true) else players[k]
  {
    players[i := players[i].(eliminated := true)]
  }

  /** The seat index of the player the full set of ballots votes out. */
  function VotedOutIndex(s: RoomState): (i: int) {
    match Winner(s.votes)
    case None => -1
    case Some(w) => IndexOfId(s.players, w)
  }

  /** The resolution of the votes does not crash the server: the ballots vote out a
      player of the room, the imposter's seat still exists when the game ends without
      the imposter voted out, and some seat is still in the game when a new round
      begins. */
  predicate Resolvable(s: RoomState) {
    var vi := VotedOutIndex(s);
    && vi >= 0
    && (s.imposterIndex != Some(vi) ==>
          if s.currentRound >= s.maxRounds then
            s.imposterIndex.Some? && s.imposterIndex.value < |s.players|
          else
            NextActive(Eliminate(s.players, vi), 0) < |s.players|)
  }

  /** A game that ends once `votedOut` is voted out, with seats `ps`: the result
      goes to the room, the game stops, and every seat is back in. */
  function GameOverStep(s: RoomState, ps: seq<Player>, winner: Team, votedOut: string): (r: Step)
    requires s.imposterIndex.Some? && s.imposterIndex.value < |ps|
  {
    Step(s.(players := Revived(ps), gameStarted := false),
         [Emit(Members(s.code), GameOver(winner, ps[s.imposterIndex.value].nickname, s.word, votedOut))])
  }

  /** The next round once `votedOut` is voted out, with seats `ps`: the turn goes to
      the first seat still in the game and descriptions and ballots start over. */
  function NextRoundStep(s: RoomState, ps: seq<Player>, votedOut: string): (r: Step)
    requires NextActive(ps, 0) < |ps|
  {
    var t := NextActive(ps, 0);
    Step(s.(players := ps, currentRound := s.currentRound + 1, currentTurn := t,
            descriptions := [], votes := [], votingPhase := false),
         [Emit(Members(s.code), NextRound(s.currentRound + 1, votedOut, ps[t].nickname, ps))])
  }

  /** What happens once every seat's worth of ballots is in: the voted-out player is
      eliminated; the crew wins if it was the imposter, the imposter wins if that was
      the last round, and otherwise the next round begins. */
  function Resolve(s: RoomState): (r: Step)
    requires Resolvable(s)
    ensures |r.out| == 1 && |r.next.players| == |s.players|
  {
    var vi := VotedOutIndex(s);
    var ps := Eliminate(s.players, vi);
    var votedOut := ps[vi].nickname;
    if s.imposterIndex == Some(vi) then GameOverStep(s, ps, Crew, votedOut)
    else if s.currentRound >= s.maxRounds then GameOverStep(s, ps, Imposter, votedOut)
    else NextRoundStep(s, ps, votedOut)
  }

  /** The ballots after `voter` votes for `target`: a first vote is added after the
      others, a changed vote keeps its place. */
  function Cast(s: RoomState, voter: string, target: string): (votes: Ballots)
    requires Distinct(s.votes)
    ensures Distinct(votes)
  {
    Set(s.votes, voter, target)
  }

  /** The vote that closes the ballots does not crash the server. */
  predicate VoteIsSafe(s: RoomState, voter: string, target: string)
    requires Distinct(s.votes)
  {
    s.votingPhase && |Cast(s, voter, target)| == |s.players| ==> Resolvable(s.(votes := Cast(s, voter, target)))
  }

  /** submitVote on an existing room. */
  function VoteStep(s: RoomState, voter: string, target: string): (r: Step)
    requires Distinct(s.votes) && VoteIsSafe(s, voter, target)
    ensures !s.votingPhase ==> r == Step(s, [])
    ensures s.votingPhase && |Cast(s, voter, target)| != |s.players| ==>
      r == Step(s.(votes := Cast(s, voter, target)), [])
    ensures s.votingPhase && |Cast(s, voter, target)| == |s.players| ==>
      r == Resolve(s.(votes := Cast(s, voter, target)))
  {
    if !s.votingPhase then Step(s, [])
    else
      var votes := Cast(s, voter, target);
      if |votes| != |s.players| then Step(s.(votes := votes), [])
      else Resolve(s.(votes := votes))
  }

  /** The room after the socket `id` disconnects, and what is emitted to it. When its
      last seat goes, nothing is emitted (the server then deletes the room). */
  function LeaveStep(s: RoomState, id: string): (r: Step)
    ensures IndexOfId(s.players, id) == -1 ==> r == Step(s, [])
    ensures IndexOfId(s.players, id) >= 0 ==>
      && |r.next.players| == |s.players| - 1
      && r.next == s.(players := r.next.players, host := r.next.host)
      && r.out == if r.next.players == [] then [] else [Emit(Members(s.code), PlayerLeft(r.next.players))]
  {
    var d := Departure(s.players, s.host, id);
    if IndexOfId(s.players, id) == -1 then Step(s, [])
    else
      var next := s.(players := d.0, host := d.1);
      Step(next, if d.0 == [] then [] else [Emit(Members(s.code), PlayerLeft(d.0))])
  }

  /** What the resolution does, on each of its three outcomes. */
  lemma {:induction false} ResolutionEffect(s: RoomState)
    requires Resolvable(s)
    ensures var r := Resolve(s); var vi := VotedOutIndex(s);
      && 0 <= vi < |s.players|
      && r.next.code == s.code && r.next.host == s.host && r.next.word == s.word
      && r.next.imposterIndex == s.imposterIndex && r.next.maxRounds == s.maxRounds
      && |r.out| == 1 && |r.next.players| == |s.players|
      && (forall k :: 0 <= k < |s.players| ==> r.next.players[k].(eliminated := false) == s.players[k].(eliminated := false))
      && (r.out[0].event.GameOver? <==> s.imposterIndex == Some(vi) || s.currentRound >= s.maxRounds)
      && (r.out[0].event.GameOver? ==>
            && r.out[0] == Emit(Members(s.code), GameOver(
                 if s.imposterIndex == Some(vi) then Crew else Imposter,
                 s.players[s.imposterIndex.value].nickname, s.word, s.players[vi].nickname))
            && r.next == s.(players := r.next.players, gameStarted := false)
            && r.next.players == Revived(s.players))
      && (r.out[0].event.NextRound? ==>
            var ps := Eliminate(s.players, vi);
            && r.next == s.(players := ps, currentRound := s.currentRound + 1,
                            currentTurn := NextActive(ps, 0), descriptions := [], votes := [],
                            votingPhase := false)
            && r.out[0] == Emit(Members(s.code), NextRound(s.currentRound + 1, s.players[vi].nickname,
                                                 ps[NextActive(ps, 0)].nickname, ps)))
  {
    var vi := VotedOutIndex(s);
    var ps := Eliminate(s.players, vi);
    assert Revived(ps) == Revived(s.players);
  }
}
