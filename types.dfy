/** Values shared by the whole model of the WordImposter game server: players,
    descriptions, the events the server emits, and the game's fixed constants. */
module Types {

  datatype Option<T> = None | Some(value: T)

  /** One seat in a room. `id` is the socket id of the connection that took the seat;
      the same socket may hold several seats if it joins a room more than once. */
  datatype Player = Player(id: string, nickname: string, isHost: bool, eliminated: bool)

  /** One clue given during the describing part of a round. */
  datatype Description = Description(player: string, description: string)

  datatype Team = Crew | Imposter

  /** The events the server emits; their payloads are the fields the handlers send. */
  datatype Event =
    | RoomCreated(roomCode: string, players: seq<Player>)
    | RoomJoined(roomCode: string, players: seq<Player>)
    | PlayerJoined(players: seq<Player>)
    | Error(message: string)
    | GameStarted(word: Option<string>, isImposter: bool, currentRound: nat, maxRounds: nat,
                  players: seq<Player>, currentTurnPlayer: string)
    | NextTurn(currentTurnPlayer: string, descriptions: seq<Description>)
    | StartVoting(descriptions: seq<Description>, players: seq<Player>)
    | GameOver(winner: Team, imposter: string, word: Option<string>, votedOut: string)
    | NextRound(currentRound: nat, votedOut: string, currentTurnPlayer: string, players: seq<Player>)
    | PlayerLeft(players: seq<Player>)

  /** Who receives an emission: the socket that sent the request, every socket in a
      room, or one given socket. */
  datatype Audience = Caller | Members(roomCode: string) | Socket(socketId: string)

  datatype Emission = Emit(to: Audience, event: Event)

  const RoomNotFound: string := "Room not found"
  const GameInProgress: string := "Game already in progress"
  const NotEnoughPlayers: string := "Need at least 3 players to start"
  const GameNotStarted: string := "Game not started"

  /** Every room plays at most this many rounds. */
  const MaxRounds: nat := 3

  /** A game starts only with at least this many seats. */
  const MinPlayers: nat := 3

  /** The secret words a game can draw. */
  const WordList: seq<string> := [
    "Pizza", "Sunglasses", "Guitar", "Elephant", "Rainbow",
    "Laptop", "Basketball", "Mountain", "Coffee", "Dragon",
    "Bicycle", "Ocean", "Rocket", "Camera", "Sandwich",
    "Tornado", "Penguin", "Castle", "Fireworks", "Telescope",
    "Dinosaur", "Volcano", "Umbrella", "Spaceship", "Lighthouse"
  ]
}
