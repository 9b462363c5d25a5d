/**
 * The data model shared by the session proxy, its state queries and the
 * read-only projections: sessions, their statuses, the user actions and the
 * registry that maps each user to one session.
 */
module SessionIo {

  /** An actor (user or program) address; only equality matters. */
  newtype ActorId = x: int | 0 <= x

  /** A message identifier; `0` plays the part of `MessageId::zero()`. */
  newtype MessageId = x: int | 0 <= x

  /** The source's `u8`. */
  newtype uint8 = x: int | 0 <= x < 256

  datatype Outcome = Win | Lose

  /**
   * The status of a session. The last three variants are only ever sent to a
   * caller; the first five are also stored in a session.
   */
  datatype SessionStatus =
    | None
    | GameStarted
    | Waiting
    | MessageSent
    | GameOver(outcome: Outcome)
    | WordChecked(user: ActorId, correctPositions: seq<uint8>, containedInWord: seq<uint8>)
    | InvalidWord
    | NoReplyReceived

  /**
   * One user's session: the id of the last `StartGame` request sent to the
   * game engine, the id of the user's message that carried it (the one woken
   * when the engine answers, guesses included), the status and the number of
   * evaluated guesses. A forwarded guess records no id.
   */
  datatype Session = Session(
    msgIds: (MessageId, MessageId),
    sessionStatus: SessionStatus,
    triesNumber: uint8)

  /** The registry: at most one session per user, because it is a map. */
  type State = map<ActorId, Session>

  datatype Action = StartGame | CheckWord(word: string) | CheckGameStatus

  datatype StateQuery = All | Player(address: ActorId)

  datatype StateQueryReply = All(players: seq<ActorId>) | Game(session: Session)

  /**
   * The result of a read that the program makes with `expect`: where the
   * program panics, the model returns `NotFound`.
   */
  datatype Lookup<T> = Found(value: T) | NotFound

  /** True when `s` lists every element of `keys` exactly once. */
  ghost predicate Enumerates(s: seq<ActorId>, keys: set<ActorId>)
  {
    |s| == |keys| &&
    (forall x :: x in keys <==> x in s) &&
    (forall i, j :: 0 <= i < j < |s| ==> s[i] != s[j])
  }

  /**
   * The keys of a registry collected into a sequence, in no particular
   * order (the registry is a hash map).
   */
  ghost function KeySeq(keys: set<ActorId>): (s: seq<ActorId>)
    ensures Enumerates(s, keys)
    decreases keys
  {
    if keys == {} then []
    else
      var k :| k in keys;
      [k] + KeySeq(keys - {k})
  }
}
