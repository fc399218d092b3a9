# WordImposter room state machine in Dafny

WordImposter is a party game served by one Node.js process (`server.js`). Each
room goes through the same steps:

- A host creates the room and other sockets join it.
- The host starts a game. Every seat but one is sent a secret word, and the
  imposter is told it is the imposter.
- Seats describe the word in seat order, skipping eliminated seats.
- Everyone votes. The plurality target is eliminated, and the game then ends
  or moves to the next round.
- A disconnect removes the socket's first seat from each room in which it holds one.

This project models that per-room session state machine and the registry of
rooms that holds it.

The model is layered as the server is:

- **Types.** The records the server keeps: `Player`, `Description`, the events
  it emits (`Event`), who each event goes to (`Audience`: the caller, the
  members of a room, or one socket), and the constants. The constants are the
  error texts, the 3-player minimum, the 3-round limit and the 25-word list.
- **Picks.** The `Math.random` helpers. The word draw and the imposter draw each
  become a parameter `roll` in [0, 1), so every index in [0, n) can be drawn.
  The room code is an input that has the shape of a generated code.
- **OrderedMaps.** A JavaScript `Map` as a sequence of key/value pairs.
  `Map.set` appends a new key and overwrites an existing one where it stands.
  The model keeps that order because the vote count depends on it.
- **Players.** Operations on the `players` array:
  - `findIndex` by socket id;
  - the loop that skips eliminated seats;
  - the host shape: the first seat is the host, and only it is;
  - the game-over reset of the eliminated flags;
  - the splice and host hand-over done on disconnect.
- **Votes.** The vote count, specified by pure functions:
  - `Count` counts the ballots for a target;
  - `CountsOf` builds the counts map in first-vote order;
  - `LeaderOf` takes the first strict maximum;
  - `Winner` combines them.

  The two `forEach` loops of submitVote are methods proved equal to them. The
  chosen target is proved to be the plurality target; on a tie, the target
  that received its first ballot earliest wins.
- **Sessions.** The room record as a value (`RoomState`), plus one step
  function per handler. A step function gives the record after the handler
  and the events it emits, in order. `Valid` is the invariant that every
  handler keeps.
- **SessionLaws.** What the handlers guarantee:
  - each handler keeps `Valid`;
  - only the imposter is sent no word;
  - only the seat whose turn it is may describe;
  - voting opens exactly after the last seat still in the game has described;
  - the voted-out player is the plurality target;
  - who wins;
  - what a disconnect does to the turn and the imposter index.
- **Rooms.** The room record as a class whose fields the handlers update in
  place. Each method is proved to produce exactly the record and events of the
  matching step function.
- **Server.** The `rooms` map as a class `Registry` holding `map<string, Room>`.
  Each handler looks up the room, and every other room is proved unchanged.
  `disconnect` is a loop over the rooms. It splices the socket's first seat out
  of each room that has one, and deletes the rooms it empties.

The model follows what the code does, including these behaviours:

- **When the votes resolve.** The code resolves when `votes.size` equals
  `players.length`. Eliminated seats count in `players.length`, and nothing
  stops an eliminated seat, or a socket without a seat, from voting.
- **Ties.** A tie goes to the target whose first ballot came earliest, because
  the count keeps the `Map`'s insertion order and only a strictly larger count
  replaces the leader.
- **Game over.** Game over clears `gameStarted` and the eliminated flags, but
  leaves `votingPhase` set and the ballots in place. One more ballot from a
  voter who already voted therefore resolves the game again
  (`SessionLaws.GameOverLeavesBallotsOpen`).
- **Disconnect.** Disconnect splices the seat out without adjusting
  `currentTurn` or `imposterIndex`. A departure before the imposter's seat
  moves the imposter role onto the next player along
  (`SessionLaws.LeaveKeepsIndices`).
- **Imposter announcement.** The imposter is sent `isImposter: true` and the
  word `null`.

## Model

| member | source | states |
|---|---|---|
| Picks.RandomIndex | server.js:36-38 | the drawn imposter seat lies in [0, n), and it is the floor of roll × n |
| Picks.RandomWord | server.js:31-33 | the drawn word is always one of the 25 words of the word list |
| OrderedMaps.Get | server.js:217 | `get` finds a value exactly when the key is present, and then the value stored under it |
| OrderedMaps.Set | server.js:210 | `set` adds a new key at the end, overwrites an existing key in place, keeps keys distinct, and a later `get` returns the value just set |
| OrderedMaps.SizeIsKeyCount | server.js:213 | a map's `size` is the number of distinct keys it holds |
| Players.IndexOfId | server.js:164 | `findIndex` gives the first seat held by the socket, or -1 when none is |
| Players.NextActive | server.js:180-185 | the turn moves to the next seat not eliminated, past only eliminated seats, or past the end |
| Players.ActiveFromExact | server.js:180-185 | the seats still in the game from a given seat on, in increasing order |
| Players.TurnsVisitActiveSeats | server.js:180-190 | repeatedly passing the turn visits every seat still in the game exactly once, in seat order, before voting opens |
| Players.Revived | server.js:250 | after game over no seat is eliminated, and nothing else about a seat changes |
| Players.Departure | server.js:293-304 | a socket with no seat changes nothing; otherwise exactly one seat is removed |
| Players.DepartureKeepsSeats | server.js:293-304 | the splice removes the socket's first seat and keeps the others in order; the host shape holds afterwards, with the new first seat made host only when the host left |
| Votes.FirstVoteIsFirst | server.js:216-217 | no ballot before the first ballot for a target names that target |
| Votes.Count | server.js:216-217 | a target has ballots exactly when some ballot names it, and never more ballots than there are |
| Votes.CountsOf | server.js:215-218 | the counts map has distinct keys and only positive counts |
| Votes.CountsOfKeys | server.js:215-218 | a target is in the counts map exactly when it received a ballot |
| Votes.CountsOfValues | server.js:215-218 | every count in the map is the number of ballots naming that target |
| Votes.CountsOfOrder | server.js:215-218 | the counts map lists targets in the order their first ballots were cast |
| Votes.LeaderIsFirstMaximum | server.js:221-228 | the chosen entry holds the largest count, and every earlier entry has a strictly smaller one |
| Votes.WinnerIsPlurality | server.js:215-228 | the voted-out target is exactly the target with the most ballots, ties going to the one voted for first; there is none exactly when there are no ballots |
| Votes.CountBallots | server.js:215-218 | the first `forEach` builds exactly the counts map, holding a key exactly for each target voted for |
| Votes.PickLeader | server.js:221-228 | the second `forEach` picks the first entry with the largest count, or none for an empty map |
| Votes.Tally | server.js:215-228 | the two loops together vote out the plurality target, and none only when there are no ballots |
| Sessions.NewRoom | server.js:46-64 | a new room has its creator as its only seat and host, no game running and no ballots, and is valid |
| Sessions.JoinStep | server.js:80-99 | joining a running game changes nothing and reports the error; otherwise the new seat goes last, not as host, and caller and room are told |
| Sessions.Announcement | server.js:126-138 | each seat's gameStarted event goes to that seat's socket, says whether it is the imposter, and carries the word for everyone but the imposter |
| Sessions.Announcements | server.js:126-138 | one announcement per seat, in seat order |
| Sessions.StartStep | server.js:106-138 | only the host starts; with fewer than 3 seats there is an error; otherwise round 1 begins at seat 0 with a word from the list, an imposter seat in range, no descriptions or ballots, and each seat announced |
| Sessions.DescribeStep | server.js:157-202 | outside a game there is an error; a socket other than the turn holder changes nothing; otherwise the description is appended, the turn passes over eliminated seats only, and voting opens exactly when no seat is left |
| Sessions.Eliminate | server.js:230-237 | the voted-out seat alone is flagged eliminated |
| Sessions.Resolve | server.js:230-283 | resolving emits one event and keeps the number of seats |
| Sessions.ResolutionEffect | server.js:230-283 | the game ends exactly when the imposter is voted out (crew wins) or the last round was played (imposter wins), clearing every elimination; otherwise the next round starts at the first seat still in the game with no descriptions or ballots |
| Sessions.Cast | server.js:210 | recording a ballot keeps one ballot per voter |
| Sessions.VoteStep | server.js:208-284 | outside voting nothing changes; the ballot is recorded; the votes resolve exactly when there are as many ballots as seats |
| Sessions.LeaveStep | server.js:293-306 | a socket with no seat changes nothing; otherwise one seat goes, only seats and host change, and the room is told unless it is now empty |
| SessionLaws.ValidAfterJoin | server.js:80-92 | joining keeps the room valid |
| SessionLaws.ValidAfterStart | server.js:110-123 | starting keeps the room valid for every draw |
| SessionLaws.ValidAfterDescribe | server.js:172-194 | describing keeps the room valid |
| SessionLaws.ValidAfterVote | server.js:208-283 | voting keeps the room valid, on every outcome |
| SessionLaws.ValidAfterResolve | server.js:230-283 | resolving the votes keeps the room valid |
| SessionLaws.ValidAfterLeave | server.js:293-304 | a disconnect keeps the room valid, host included |
| SessionLaws.OnlyImposterLacksWord | server.js:126-138 | each seat gets one gameStarted event; exactly the imposter's seat is told it is the imposter and gets no word; all others get the same word from the list |
| SessionLaws.OnlyTurnHolderDescribes | server.js:157-170 | a description changes the room only when it comes from the socket holding the current turn in a running game |
| SessionLaws.DescribingOpensVotingAtEnd | server.js:180-194 | an accepted description opens voting exactly when every later seat is eliminated |
| SessionLaws.CastHoldsOneBallotPerVoter | server.js:210-213 | the number of ballots is the number of voters; a repeat voter replaces its ballot, and a new voter adds one |
| SessionLaws.ResolutionVotesOutPlurality | server.js:213-245 | the closing ballot emits one event, which names the plurality target's seat as voted out |
| SessionLaws.ResolutionOutcome | server.js:239-283 | the crew wins exactly when the imposter's seat is voted out; the imposter wins exactly when it is not and the last round was played; otherwise there is a next round |
| SessionLaws.GameOverLeavesBallotsOpen | server.js:208-262 | after game over the ballots stay and voting stays open, so one more ballot from a past voter resolves again |
| SessionLaws.LeaveKeepsIndices | server.js:293-295 | a disconnect moves neither the turn nor the imposter index; a departure before the imposter's seat shifts the role to the next player |
| SessionLaws.ImposterLeavingCanCrashVote | server.js:251-258 | a valid room reaches an unsafe closing ballot in ordinary play: the imposter holds the last seat and disconnects in the last round, and the game-over event would read the name of a seat that no longer exists |
| SessionLaws.LeaveKeepsHost | server.js:300-304 | after a disconnect the first seat is the host, and the host changes only when the host left |
| Rooms.Room.constructor | server.js:46-64 | the new record is the room createRoom stores, and is valid |
| Rooms.Room.Join | server.js:80-99 | the record and events are those of joining, and the room stays valid |
| Rooms.Room.StartGame | server.js:110-138 | the record and the per-seat announcements are those of starting, with the seats unchanged |
| Rooms.Room.SubmitDescription | server.js:157-170 | the record and events are those of describing, with the seats unchanged and the room valid |
| Rooms.Room.AcceptDescription | server.js:172-202 | the push, the turn skip loop and the emission together give the describing step |
| Rooms.Room.ReviveAll | server.js:250 | the reset loop clears every eliminated flag and changes nothing else |
| Rooms.Room.SubmitVote | server.js:208-213 | the record and events are those of voting; the room stays valid and keeps its seat count |
| Rooms.Room.ResolveVotes | server.js:215-283 | tally, elimination and outcome give the resolution step |
| Rooms.Room.FinishGame | server.js:239-262 | the gameOver event goes to the room, the game stops and every seat is back in |
| Rooms.Room.BeginNextRound | server.js:263-282 | the round advances, the turn goes to the first seat still in the game, and descriptions and ballots are cleared |
| Rooms.Room.Leave | server.js:293-306 | the record and events are those of the disconnect for this room, and the room stays valid |
| Server.Survivors | server.js:297-298 | the rooms kept are exactly those not yet visited or still holding a seat |
| Server.AfterDisconnectRooms | server.js:292-308 | after a disconnect, exactly the rooms that keep a seat remain, each as the departure left it |
| Server.DisconnectKeepsRoomsValid | server.js:292-308 | every remaining room stays valid and non-empty, and loses a seat exactly when the socket held one |
| Server.DisconnectOfStranger | server.js:292-294 | a socket with no seat in any room changes nothing and causes no event |
| Server.Registry.constructor | server.js:23 | the server starts with no rooms |
| Server.Registry.CreateRoom | server.js:44-68 | the new room is stored under its code and its creator is told; no other room changes |
| Server.Registry.JoinRoom | server.js:72-100 | an unknown code changes nothing and reports "Room not found"; otherwise only that room takes the joining step |
| Server.Registry.StartGame | server.js:103-139 | an unknown code changes nothing silently; otherwise only that room takes the starting step |
| Server.Registry.SubmitDescription | server.js:142-203 | an unknown code changes nothing and reports "Room not found"; otherwise only that room takes the describing step |
| Server.Registry.SubmitVote | server.js:206-285 | an unknown code changes nothing silently; otherwise only that room takes the voting step |
| Server.Registry.LeaveRoom | server.js:293-306 | one room takes the disconnect step and is deleted once empty; no other room changes |
| Server.Registry.Disconnect | server.js:288-309 | the registry ends as `AfterDisconnect` gives, with every room valid; it emits exactly the playerLeft events of the rooms left, each once |

## Left out

- The HTTP server, static file hosting, socket.io set-up and `server.listen` (server.js:1-11, 312-315) are not modelled; the handlers are methods called with the caller's socket id.
- `socket.join(roomCode)` is not modelled: an event to `Members(code)` stands for `io.to(code).emit`, and which sockets have joined the channel is not tracked.
- The `console.log` calls are not modelled; they change no state.
- `public/` (client page, sounds) is not part of this model.
- Picks.IsRoomCode: `generateRoomCode` is not modelled as a computation on base-36 text; a room code is an input that satisfies `IsRoomCode` (at most 6 characters from 0-9 and A-Z), and CreateRoom overwrites a room already stored under the same code, as `rooms.set` does.
- `Math.random` is not modelled; the word and imposter draws are each a `roll` parameter in [0, 1).
- Picks.RandomIndex: the roll is multiplied as an exact real, not as an IEEE double. The set of indices that can be drawn is the same, but for one particular roll the index can differ by one from the double-precision result.
- Rooms.Room.StartGame: the `io.sockets.sockets.get` check is not modelled; every seat is taken to be connected, so each gets its announcement.
- Sessions.VoteIsSafe: the inputs that would make submitVote throw are excluded by this precondition rather than modelled. These are a voted-out target that holds no seat, a missing imposter seat at game over, and no seat left in the game when a new round begins. The second is reachable from a valid room in ordinary play (SessionLaws.ImposterLeavingCanCrashVote).
- Server.Registry.Disconnect: the rooms are visited in an unspecified order rather than the `Map`'s insertion order, so the contract gives the set of events emitted, each once, but not their order.
- Server.Registry.LeaveRoom: this models one iteration of the `forEach` in disconnect; no `leaveRoom` handler exists in server.js.
- Objects shared by reference (the `players` array passed into emitted events) are modelled as values, so emitting an event captures the seats at that moment.
