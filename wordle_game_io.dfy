/**
 * The messages exchanged with the downstream Wordle engine, in the shapes the
 * session proxy sends and matches them. The engine itself is not modelled.
 */
module WordleGameIo {
  import opened SessionIo

  /** What the proxy sends to the engine. */
  datatype WordleAction =
    | StartGame(user: ActorId)
    | CheckWord(user: ActorId, word: string)

  /** What the engine answers. */
  datatype WordleEvent =
    | GameStarted(user: ActorId)
    | WordChecked(user: ActorId, correctPositions: seq<uint8>, containedInWord: seq<uint8>)
}
