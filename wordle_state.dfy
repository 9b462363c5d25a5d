/**
 * Read-only projections of the session registry, as an outside reader of the
 * program's state computes them. Each is a function of the registry and a
 * user only; a missing user is `NotFound` where the reader fails.
 */
module WordleState {
  import opened SessionIo
  import opened SessionProgram

  /** Every user with a session, each once, in no particular order. */
  ghost function AllPlayerAddress(state: State): (players: seq<ActorId>)
    ensures Enumerates(players, state.Keys)
    ensures StateReply(state, StateQuery.All) == Found(StateQueryReply.All(players))
  {
    KeySeq(state.Keys)
  }

  function GetSessionStatus(state: State, user: ActorId): (r: Lookup<SessionStatus>)
    ensures r.Found? <==> StateReply(state, Player(user)).Found?
    ensures r.Found? ==> r.value == StateReply(state, Player(user)).value.session.sessionStatus
  {
    if user in state then Found(state[user].sessionStatus) else NotFound
  }

  function GetTriesNumber(state: State, user: ActorId): (r: Lookup<uint8>)
    ensures r.Found? <==> StateReply(state, Player(user)).Found?
    ensures r.Found? ==> r.value == StateReply(state, Player(user)).value.session.triesNumber
  {
    if user in state then Found(state[user].triesNumber) else NotFound
  }

  function GetSentMessageId(state: State, user: ActorId): (r: Lookup<MessageId>)
    ensures r.Found? <==> StateReply(state, Player(user)).Found?
    ensures r.Found? ==> r.value == StateReply(state, Player(user)).value.session.msgIds.0
  {
    if user in state then Found(state[user].msgIds.0) else NotFound
  }

  function GetOriginalMessageId(state: State, user: ActorId): (r: Lookup<MessageId>)
    ensures r.Found? <==> StateReply(state, Player(user)).Found?
    ensures r.Found? ==> r.value == StateReply(state, Player(user)).value.session.msgIds.1
  {
    if user in state then Found(state[user].msgIds.1) else NotFound
  }
}
