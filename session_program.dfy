/**
 * The session proxy program: it keeps one session per user, forwards a
 * user's actions to the Wordle engine and suspends the user's message while
 * the engine works. An engine reply wakes the message the session stores as
 * original, which is the one recorded by the last `StartGame`.
 *
 * The host primitives (send, delayed send, reply, wait, wake, leave, panic)
 * are not executed: a handler returns the list of effects it asks the host
 * for, in the order it asks. The message source, the message id and the id
 * the host assigns to the next outgoing message are inputs.
 */
module SessionProgram {
  import opened SessionIo
  import Engine = WordleGameIo

  /* ---------- words ---------- */

  /** Lower-case letters; only the ASCII ones are modelled. */
  predicate IsLowercase(c: char)
  {
    'a' <= c <= 'z'
  }

  /** Every character of `s` is lower case (true of the empty string). */
  predicate AllLowercase(s: string)
    ensures AllLowercase(s) <==> forall i :: 0 <= i < |s| ==> IsLowercase(s[i])
  {
    s == [] || (IsLowercase(s[0]) && AllLowercase(s[1..]))
  }

  /** The word is non-empty and every character is lower case. */
  function IsWordLowercase(word: string): (r: bool)
    ensures r <==> |word| > 0 && forall i :: 0 <= i < |word| ==> IsLowercase(word[i])
  {
    if word == [] then false else AllLowercase(word)
  }

  /** The number of bytes the UTF-8 encoding of `c` takes. */
  function Utf8Width(c: char): (n: nat)
    ensures 1 <= n <= 4
    ensures n == 1 <==> c as int < 0x80
  {
    if c as int < 0x80 then 1
    else if c as int < 0x800 then 2
    else if c as int < 0x10000 then 3
    else 4
  }

  /** The byte length of a string, which is what the program compares with 5. */
  function Utf8Len(s: string): (n: nat)
    ensures |s| <= n <= 4 * |s|
  {
    if s == [] then 0 else Utf8Width(s[0]) + Utf8Len(s[1..])
  }

  /**
   * The guard under which `CheckWord` rejects a word: both tests must fail,
   * so a word is rejected only when its byte length is not 5 and it is empty
   * or holds a character other than `a`..`z`.
   */
  predicate RejectsWord(word: string)
    ensures RejectsWord(word) <==>
      Utf8Len(word) != 5 && (|word| == 0 || exists i :: 0 <= i < |word| && !IsLowercase(word[i]))
  {
    Utf8Len(word) != 5 && !IsWordLowercase(word)
  }

  /* ---------- host effects ---------- */

  datatype Payload = ToEngine(action: Engine.WordleAction) | ToUser(status: SessionStatus)

  datatype Effect =
    | Send(dest: ActorId, payload: Payload)
    | SendDelayed(dest: ActorId, action: Action, delay: nat)
    | Reply(status: SessionStatus)
    | WaitFor(duration: nat)
    | Wake(id: MessageId)
    | Leave
    | Abort

  /** What the host provides to one run of `handle`. */
  datatype Context = Context(source: ActorId, msgId: MessageId, sentId: MessageId)

  /** The registry after a handler, and the effects it asked for. */
  datatype Step = Step(games: State, effects: seq<Effect>)

  const WatchdogDelay: nat := 200
  const StartWait: nat := 3
  const CheckWait: nat := 20

  /* ---------- specification of the handlers ---------- */

  function NewSession(): Session
  {
    Session((0, 0), SessionStatus.None, 0)
  }

  /** Whether `user` has a session: exactly when a `Player` query finds one. */
  predicate IsExistGame(games: State, user: ActorId)
    ensures IsExistGame(games, user) <==> StateReply(games, StateQuery.Player(user)).Found?
  {
    user in games
  }

  /** The first step of `handle`: give the user a session if they have none. */
  function EnsureSession(games: State, user: ActorId): (g: State)
    ensures IsExistGame(g, user)
    ensures g.Keys == games.Keys + {user}
    ensures forall u :: u in games ==> g[u] == games[u]
  {
    if IsExistGame(games, user) then games else games[user := NewSession()]
  }

  /**
   * `StartGame` touches only the sender's session. It asks the engine to
   * start a game exactly from status `None` or after a finished game, and
   * then records this message's ids; otherwise the ids stay. The counter
   * changes only when a finished game restarts.
   */
  function StartGameStep(programId: ActorId, target: ActorId, games: State, ctx: Context): (r: Step)
    requires ctx.source in games
    ensures r.games.Keys == games.Keys
    ensures forall u :: u in games && u != ctx.source ==> r.games[u] == games[u]
    ensures var status := games[ctx.source].sessionStatus;
      Send(target, ToEngine(Engine.StartGame(ctx.source))) in r.effects <==>
        status == SessionStatus.None || status == GameOver(Win) || status == GameOver(Lose)
    ensures Send(target, ToEngine(Engine.StartGame(ctx.source))) in r.effects ==>
      r.games[ctx.source].msgIds == (ctx.sentId, ctx.msgId)
    ensures Send(target, ToEngine(Engine.StartGame(ctx.source))) !in r.effects ==>
      r.games[ctx.source].msgIds == games[ctx.source].msgIds
    ensures r.games[ctx.source].triesNumber != games[ctx.source].triesNumber ==>
      games[ctx.source].sessionStatus.GameOver?
  {
    var user := ctx.source;
    var s := games[user];
    var sendStart := Send(target, ToEngine(Engine.StartGame(user)));
    if s.sessionStatus == SessionStatus.None then
      Step(games[user := s.(msgIds := (ctx.sentId, ctx.msgId))],
           [sendStart, SendDelayed(programId, Action.CheckGameStatus, WatchdogDelay), WaitFor(StartWait)])
    else if s.sessionStatus == SessionStatus.GameStarted then
      Step(games[user := s.(sessionStatus := Waiting)], [Leave])
    else if s.sessionStatus == GameOver(Win) || s.sessionStatus == GameOver(Lose) then
      Step(games[user := Session((ctx.sentId, ctx.msgId), SessionStatus.GameStarted, 0)],
           [sendStart, WaitFor(StartWait)])
    else
      Step(games, [])
  }

  /**
   * `CheckWord` touches only the sender's session and never its ids or its
   * counter. It changes the registry exactly when it forwards the guess to
   * the engine, and the session is then `MessageSent`.
   */
  function CheckWordStep(target: ActorId, games: State, ctx: Context, word: string): (r: Step)
    requires ctx.source in games
    ensures r.games.Keys == games.Keys
    ensures forall u :: u in games && u != ctx.source ==> r.games[u] == games[u]
    ensures r.games[ctx.source].msgIds == games[ctx.source].msgIds
    ensures r.games[ctx.source].triesNumber == games[ctx.source].triesNumber
    ensures r.games != games <==> Send(target, ToEngine(Engine.CheckWord(ctx.source, word))) in r.effects
    ensures Send(target, ToEngine(Engine.CheckWord(ctx.source, word))) in r.effects ==>
      r.games[ctx.source].sessionStatus == MessageSent
  {
    var user := ctx.source;
    var s := games[user];
    var status := s.sessionStatus;
    if status == MessageSent then
      Step(games, [Reply(MessageSent), Leave])
    else if RejectsWord(word) then
      Step(games, [Reply(InvalidWord), Abort])
    else if status == Waiting then
      Step(games[user := s.(sessionStatus := MessageSent)],
           [Send(target, ToEngine(Engine.CheckWord(user, word))), WaitFor(CheckWait)])
    else if status == GameOver(Win) || status == GameOver(Lose) then
      Step(games, [Reply(status), Leave])
    else
      Step(games, [Leave])
  }

  /**
   * `CheckGameStatus` touches only the sender's status, never ids or the
   * counter, and never writes to the engine. Only the program itself can
   * change anything, and only by marking the session `GameStarted`.
   */
  function CheckGameStatusStep(programId: ActorId, games: State, ctx: Context): (r: Step)
    requires ctx.source in games
    ensures r.games.Keys == games.Keys
    ensures forall u :: u in games && u != ctx.source ==> r.games[u] == games[u]
    ensures r.games[ctx.source].msgIds == games[ctx.source].msgIds
    ensures r.games[ctx.source].triesNumber == games[ctx.source].triesNumber
    ensures r.games != games ==>
      ctx.source == programId && r.games[ctx.source].sessionStatus == SessionStatus.GameStarted
    ensures forall e :: e in r.effects ==> !(e.Send? && e.payload.ToEngine?)
  {
    var user := ctx.source;
    var s := games[user];
    if s.sessionStatus == SessionStatus.None && ctx.source == programId then
      Step(games[user := s.(sessionStatus := SessionStatus.GameStarted)],
           [Send(user, ToUser(NoReplyReceived)), WaitFor(CheckWait)])
    else
      Step(games, [Reply(s.sessionStatus), Leave])
  }

  /**
   * `handle`: one user action from `ctx.source`. Afterwards the sender has a
   * session, no user is added but the sender, none is removed, and no other
   * user's session changes.
   */
  function HandleStep(programId: ActorId, target: ActorId, games: State, ctx: Context, action: Action): (r: Step)
    ensures IsExistGame(r.games, ctx.source)
    ensures r.games.Keys == games.Keys + {ctx.source}
    ensures forall u :: u in games && u != ctx.source ==> r.games[u] == games[u]
  {
    var g := EnsureSession(games, ctx.source);
    match action
    case StartGame => StartGameStep(programId, target, g, ctx)
    case CheckWord(word) => CheckWordStep(target, g, ctx, word)
    case CheckGameStatus => CheckGameStatusStep(programId, g, ctx)
  }

  /** `handle_reply` may add one to a stored `u8` counter; it must not overflow. */
  predicate ReplyFits(games: State, event: Engine.WordleEvent)
  {
    event.WordChecked? && event.user in games ==> games[event.user].triesNumber < 255
  }

  /** True when an evaluation reports every letter in place. */
  predicate IsFullMatch(correctPositions: seq<uint8>, containedInWord: seq<uint8>)
  {
    |correctPositions| == 5 && containedInWord == []
  }

  /**
   * The status a session takes after its `tries`-th evaluation: a win on a
   * full match, otherwise a loss once the tries exceed 3, otherwise back to
   * `Waiting`; always a status a session may rest in.
   */
  function OutcomeAfter(correctPositions: seq<uint8>, containedInWord: seq<uint8>, tries: int): (r: SessionStatus)
    ensures r == GameOver(Win) <==> IsFullMatch(correctPositions, containedInWord)
    ensures r == GameOver(Lose) <==> !IsFullMatch(correctPositions, containedInWord) && tries > 3
    ensures r == Waiting <==> !IsFullMatch(correctPositions, containedInWord) && tries <= 3
  {
    if IsFullMatch(correctPositions, containedInWord) then GameOver(Win)
    else if tries > 3 then GameOver(Lose)
    else Waiting
  }

  /** `handle_reply`: the engine's reply `event` to the message `replyTo`. */
  function ReplyStep(games: State, replyTo: MessageId, event: Engine.WordleEvent): (r: Step)
    requires ReplyFits(games, event)
    ensures r.games.Keys == games.Keys
    ensures forall u :: u in games ==>
      r.games[u].triesNumber as int ==
        games[u].triesNumber as int + (if event.WordChecked? && event.user == u then 1 else 0)
  {
    var user := event.user;
    if user !in games then Step(games, [Abort])
    else
      var s := games[user];
      match event
      case GameStarted(_) =>
        if replyTo == s.msgIds.0 then
          Step(games[user := s.(sessionStatus := SessionStatus.GameStarted)],
               [Send(user, ToUser(SessionStatus.GameStarted)), Wake(s.msgIds.1)])
        else
          Step(games, [Wake(s.msgIds.1)])
      case WordChecked(_, cp, ciw) =>
        var tries := s.triesNumber + 1;
        Step(games[user := s.(triesNumber := tries, sessionStatus := OutcomeAfter(cp, ciw, tries as int))],
             [Send(user, ToUser(SessionStatus.WordChecked(user, cp, ciw))), Wake(s.msgIds.1)])
  }

  /** `state`: a read-only query of the registry. */
  ghost function StateReply(games: State, query: StateQuery): (r: Lookup<StateQueryReply>)
    ensures query.All? ==> r.Found? && r.value.All? && Enumerates(r.value.players, games.Keys)
    ensures query.Player? ==> (r.Found? <==> query.address in games)
    ensures query.Player? && r.Found? ==> r.value == Game(games[query.address])
  {
    match query
    case All => Found(StateQueryReply.All(KeySeq(games.Keys)))
    case Player(address) =>
      if address in games then Found(Game(games[address])) else NotFound
  }

  /* ---------- the program ---------- */

  /**
   * The proxy: its own address, the engine's address (both fixed at `init`)
   * and the registry of sessions.
   */
  class Proxy {
    const programId: ActorId
    const targetProgramId: ActorId
    var games: State

    /** `init`: remember the engine's address and start with no sessions. */
    constructor (programId: ActorId, targetProgramId: ActorId)
      ensures this.programId == programId && this.targetProgramId == targetProgramId
      ensures games == map[]
    {
      this.programId := programId;
      this.targetProgramId := targetProgramId;
      games := map[];
    }

    /** `handle`: the user action `action`, delivered with the host inputs `ctx`. */
    method Handle(ctx: Context, action: Action) returns (effects: seq<Effect>)
      modifies this
      ensures Step(games, effects) == HandleStep(programId, targetProgramId, old(games), ctx, action)
    {
      var userId := ctx.source;
      if userId !in games {
        games := games[userId := NewSession()];
      }
      var session := games[userId];
      effects := [];
      match action
      case StartGame =>
        if session.sessionStatus == SessionStatus.None {
          effects := effects + [Send(targetProgramId, ToEngine(Engine.StartGame(userId)))];
          games := games[userId := session.(msgIds := (ctx.sentId, ctx.msgId))];
          effects := effects + [SendDelayed(programId, Action.CheckGameStatus, WatchdogDelay)];
          effects := effects + [WaitFor(StartWait)];
        } else if session.sessionStatus == SessionStatus.GameStarted {
          games := games[userId := session.(sessionStatus := Waiting)];
          effects := effects + [Leave];
        } else if session.sessionStatus == GameOver(Win) || session.sessionStatus == GameOver(Lose) {
          effects := effects + [Send(targetProgramId, ToEngine(Engine.StartGame(userId)))];
          games := games[userId := Session((ctx.sentId, ctx.msgId), SessionStatus.GameStarted, 0)];
          effects := effects + [WaitFor(StartWait)];
        }
      case CheckWord(word) =>
        var sessionStatus := session.sessionStatus;
        if sessionStatus == MessageSent {
          effects := effects + [Reply(MessageSent), Leave];
          return;
        }
        if RejectsWord(word) {
          effects := effects + [Reply(InvalidWord), Abort];
          return;
        }
        if sessionStatus == Waiting {
          effects := effects + [Send(targetProgramId, ToEngine(Engine.CheckWord(userId, word)))];
          games := games[userId := session.(sessionStatus := MessageSent)];
          effects := effects + [WaitFor(CheckWait)];
          return;
        }
        if sessionStatus == GameOver(Win) || sessionStatus == GameOver(Lose) {
          effects := effects + [Reply(sessionStatus)];
        }
        effects := effects + [Leave];
      case CheckGameStatus =>
        if session.sessionStatus == SessionStatus.None && ctx.source == programId {
          effects := effects + [Send(userId, ToUser(NoReplyReceived))];
          games := games[userId := session.(sessionStatus := SessionStatus.GameStarted)];
          effects := effects + [WaitFor(CheckWait)];
          return;
        }
        effects := effects + [Reply(session.sessionStatus), Leave];
    }

    /** `handle_reply`: the engine's `event`, answering the message `replyTo`. */
    method HandleReply(replyTo: MessageId, event: Engine.WordleEvent) returns (effects: seq<Effect>)
      requires ReplyFits(games, event)
      modifies this
      ensures Step(games, effects) == ReplyStep(old(games), replyTo, event)
    {
      effects := [];
      var user := event.user;
      if user !in games {
        effects := effects + [Abort];
        return;
      }
      var session := games[user];
      match event
      case GameStarted(_) =>
        if replyTo == session.msgIds.0 {
          games := games[user := session.(sessionStatus := SessionStatus.GameStarted)];
          effects := effects + [Send(user, ToUser(SessionStatus.GameStarted))];
        }
        effects := effects + [Wake(session.msgIds.1)];
      case WordChecked(_, correctPositions, containedInWord) =>
        effects := effects + [Send(user, ToUser(SessionStatus.WordChecked(user, correctPositions, containedInWord)))];
        session := session.(triesNumber := session.triesNumber + 1);
        if |correctPositions| == 5 && containedInWord == [] {
          session := session.(sessionStatus := GameOver(Win));
        } else if session.triesNumber > 3 {
          session := session.(sessionStatus := GameOver(Lose));
        } else {
          session := session.(sessionStatus := Waiting);
        }
        games := games[user := session];
        effects := effects + [Wake(session.msgIds.1)];
    }
  }
}
