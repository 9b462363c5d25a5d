/**
 * What the session proxy guarantees, stated over the handler specifications
 * `HandleStep` and `ReplyStep` (which the `Proxy` methods are proved to
 * implement).
 */
module SessionProperties {
  import opened SessionIo
  import Engine = WordleGameIo
  import opened SessionProgram
  import opened WordleState

  /** The actions a list of effects sends to the engine, in order. */
  function EngineRequests(effects: seq<Effect>): (r: seq<Engine.WordleAction>)
    ensures |r| <= |effects|
  {
    if effects == [] then []
    else
      var rest := EngineRequests(effects[1..]);
      match effects[0]
      case Send(_, ToEngine(a)) => [a] + rest
      case _ => rest
  }

  /** The session `handle` works on once the user has one. */
  function SessionSeen(games: State, user: ActorId): Session
  {
    EnsureSession(games, user)[user]
  }

  /** Only the session of `user` may differ between `before` and `after`. */
  ghost predicate OthersUnchanged(before: State, after: State, user: ActorId)
  {
    forall u :: u in before && u != user ==> u in after && after[u] == before[u]
  }

  /* ---------- words ---------- */

  /** The cases exercised by the program's unit test of `is_word_lowercase`. */
  lemma IsWordLowercaseExamples()
    ensures IsWordLowercase("hello")
    ensures !IsWordLowercase("HELLO") && !IsWordLowercase("HeLLo")
    ensures !IsWordLowercase("") && !IsWordLowercase(" ") && !IsWordLowercase("12345")
  {
    assert !IsLowercase("HELLO"[0]);
    assert !IsLowercase("HeLLo"[0]);
    assert !IsLowercase(" "[0]);
    assert !IsLowercase("12345"[0]);
  }

  /** For ASCII text the byte length is the number of characters. */
  lemma {:induction false} AsciiByteLength(s: string)
    requires forall i :: 0 <= i < |s| ==> s[i] as int < 0x80
    ensures Utf8Len(s) == |s|
  {
    if s != [] {
      assert s[0] as int < 0x80;
      AsciiByteLength(s[1..]);
    }
  }

  /**
   * A word is rejected only when BOTH its byte length is not 5 AND it is
   * not all lower case: a five-letter upper-case word and a short lower-case
   * word both pass, while a short upper-case word is rejected.
   */
  lemma ValidationNeedsBothFailures()
    ensures !RejectsWord("HELLO")
    ensures !RejectsWord("hi")
    ensures !RejectsWord("mango")
    ensures RejectsWord("AB")
    ensures RejectsWord("")
  {
    AsciiByteLength("HELLO");
    AsciiByteLength("hi");
    AsciiByteLength("mango");
    AsciiByteLength("AB");
    assert !IsLowercase("AB"[0]);
  }

  /* ---------- the registry ---------- */

  /**
   * After any user action the sender has a session, no key is removed,
   * no other key is added, and no other user's session changes.
   */
  lemma HandleTouchesOnlySender(programId: ActorId, target: ActorId, games: State, ctx: Context, action: Action)
    ensures var r := HandleStep(programId, target, games, ctx, action);
      IsExistGame(r.games, ctx.source) &&
      r.games.Keys == games.Keys + {ctx.source} &&
      OthersUnchanged(games, r.games, ctx.source)
  {
  }

  /**
   * After the creation step for `user`, a game exists exactly for the users
   * that had one and for `user`; so from an empty registry it exists for
   * `user` and not for anyone else.
   */
  lemma IsExistGameAfterCreation(games: State, user: ActorId, other: ActorId)
    ensures forall u :: IsExistGame(EnsureSession(games, user), u) <==> IsExistGame(games, u) || u == user
    ensures other != user ==> IsExistGame(EnsureSession(map[], user), user) && !IsExistGame(EnsureSession(map[], user), other)
  {
  }

  /** A user's first message finds the session `((0, 0), None, 0)`; a later one finds theirs. */
  lemma FirstContactSession(games: State, user: ActorId)
    ensures user !in games ==> SessionSeen(games, user) == Session((0, 0), SessionStatus.None, 0)
    ensures user in games ==> SessionSeen(games, user) == games[user]
  {
  }

  /* ---------- StartGame ---------- */

  /**
   * `StartGame` on a session in status `None` asks the engine to start one
   * game, records the sent id and the caller's id, schedules the watchdog on
   * the program itself and suspends the caller; status and tries stay.
   */
  lemma StartGameFromNone(programId: ActorId, target: ActorId, games: State, ctx: Context)
    requires SessionSeen(games, ctx.source).sessionStatus == SessionStatus.None
    ensures var s := SessionSeen(games, ctx.source);
      var r := HandleStep(programId, target, games, ctx, StartGame);
      r.games[ctx.source] == Session((ctx.sentId, ctx.msgId), s.sessionStatus, s.triesNumber) &&
      r.effects == [Send(target, ToEngine(Engine.StartGame(ctx.source))),
                    SendDelayed(programId, Action.CheckGameStatus, 200),
                    WaitFor(3)] &&
      EngineRequests(r.effects) == [Engine.StartGame(ctx.source)]
  {
    var r := HandleStep(programId, target, games, ctx, StartGame);
    var delayed := SendDelayed(programId, Action.CheckGameStatus, WatchdogDelay);
    assert r.effects[1..] == [delayed, WaitFor(StartWait)];
    assert EngineRequests([delayed, WaitFor(StartWait)]) == [];
  }

  /**
   * `StartGame` while the status is still `None` is not guarded: a second
   * start before the engine answers sends a second start request and
   * overwrites the stored ids with the second message's.
   */
  lemma RepeatedStartResends(programId: ActorId, target: ActorId, games: State, ctx1: Context, ctx2: Context)
    requires SessionSeen(games, ctx1.source).sessionStatus == SessionStatus.None
    requires ctx2.source == ctx1.source
    ensures var r1 := HandleStep(programId, target, games, ctx1, StartGame);
      var r2 := HandleStep(programId, target, r1.games, ctx2, StartGame);
      EngineRequests(r1.effects) == [Engine.StartGame(ctx1.source)] &&
      EngineRequests(r2.effects) == [Engine.StartGame(ctx1.source)] &&
      r2.games[ctx1.source].msgIds == (ctx2.sentId, ctx2.msgId)
  {
    StartGameFromNone(programId, target, games, ctx1);
    var r1 := HandleStep(programId, target, games, ctx1, StartGame);
    StartGameFromNone(programId, target, r1.games, ctx2);
  }

  /** A second `StartGame` once the game has started sends nothing and moves to `Waiting`. */
  lemma StartGameWhenStarted(programId: ActorId, target: ActorId, games: State, ctx: Context)
    requires SessionSeen(games, ctx.source).sessionStatus == SessionStatus.GameStarted
    ensures var s := SessionSeen(games, ctx.source);
      var r := HandleStep(programId, target, games, ctx, StartGame);
      r.games[ctx.source] == s.(sessionStatus := Waiting) &&
      EngineRequests(r.effects) == [] &&
      r.effects == [Leave]
  {
  }

  /**
   * `StartGame` after a finished game starts a new one: fresh ids, status
   * `GameStarted`, no tries; unlike the first start no watchdog is scheduled.
   */
  lemma StartGameAfterGameOver(programId: ActorId, target: ActorId, games: State, ctx: Context)
    requires SessionSeen(games, ctx.source).sessionStatus.GameOver?
    ensures var r := HandleStep(programId, target, games, ctx, StartGame);
      r.games[ctx.source] == Session((ctx.sentId, ctx.msgId), SessionStatus.GameStarted, 0) &&
      r.effects == [Send(target, ToEngine(Engine.StartGame(ctx.source))), WaitFor(3)] &&
      EngineRequests(r.effects) == [Engine.StartGame(ctx.source)]
  {
    match SessionSeen(games, ctx.source).sessionStatus.outcome {
      case Win =>
      case Lose =>
    }
    var r := HandleStep(programId, target, games, ctx, StartGame);
    assert r.effects[1..] == [WaitFor(StartWait)];
  }

  /** In any other status `StartGame` only creates the session if needed. */
  lemma StartGameOtherwiseIgnored(programId: ActorId, target: ActorId, games: State, ctx: Context)
    requires SessionSeen(games, ctx.source).sessionStatus !in {SessionStatus.None, SessionStatus.GameStarted}
    requires !SessionSeen(games, ctx.source).sessionStatus.GameOver?
    ensures var r := HandleStep(programId, target, games, ctx, StartGame);
      r.games == EnsureSession(games, ctx.source) && r.effects == []
  {
  }

  /* ---------- CheckWord ---------- */

  /** A guess while one is with the engine is answered `MessageSent` and not forwarded. */
  lemma CheckWordWhileInFlight(programId: ActorId, target: ActorId, games: State, ctx: Context, word: string)
    requires SessionSeen(games, ctx.source).sessionStatus == MessageSent
    ensures var r := HandleStep(programId, target, games, ctx, CheckWord(word));
      r.games == games && r.effects == [Reply(MessageSent), Leave] && EngineRequests(r.effects) == []
  {
  }

  /**
   * A guess aborts exactly when no guess is in flight and the word fails
   * both tests; it then answers `InvalidWord` and forwards nothing.
   */
  lemma CheckWordAbortsIff(programId: ActorId, target: ActorId, games: State, ctx: Context, word: string)
    ensures var r := HandleStep(programId, target, games, ctx, CheckWord(word));
      (Abort in r.effects <==>
        SessionSeen(games, ctx.source).sessionStatus != MessageSent && RejectsWord(word)) &&
      (Abort in r.effects ==> r.effects == [Reply(InvalidWord), Abort])
  {
  }

  /**
   * A valid guess in status `Waiting` is forwarded once to the engine; the
   * session becomes `MessageSent` with its ids and tries untouched, and the
   * caller is suspended.
   */
  lemma CheckWordForwards(programId: ActorId, target: ActorId, games: State, ctx: Context, word: string)
    requires SessionSeen(games, ctx.source).sessionStatus == Waiting
    requires !RejectsWord(word)
    ensures var s := SessionSeen(games, ctx.source);
      var r := HandleStep(programId, target, games, ctx, CheckWord(word));
      r.games[ctx.source] == Session(s.msgIds, MessageSent, s.triesNumber) &&
      r.effects == [Send(target, ToEngine(Engine.CheckWord(ctx.source, word))), WaitFor(20)] &&
      EngineRequests(r.effects) == [Engine.CheckWord(ctx.source, word)]
  {
    var r := HandleStep(programId, target, games, ctx, CheckWord(word));
    assert r.effects[1..] == [WaitFor(CheckWait)];
  }

  /** A valid guess on a finished game is answered with the outcome; nothing changes. */
  lemma CheckWordAfterGameOver(programId: ActorId, target: ActorId, games: State, ctx: Context, word: string)
    requires SessionSeen(games, ctx.source).sessionStatus.GameOver?
    requires !RejectsWord(word)
    ensures var s := SessionSeen(games, ctx.source);
      var r := HandleStep(programId, target, games, ctx, CheckWord(word));
      r.games == games && r.effects == [Reply(s.sessionStatus), Leave]
  {
    match SessionSeen(games, ctx.source).sessionStatus.outcome {
      case Win =>
      case Lose =>
    }
  }

  /** Only a guess in status `Waiting` reaches the engine, and it carries the sender and the word. */
  lemma CheckWordForwardsOnlyWhenWaiting(programId: ActorId, target: ActorId, games: State, ctx: Context, word: string)
    ensures var r := HandleStep(programId, target, games, ctx, CheckWord(word));
      (EngineRequests(r.effects) != [] <==>
        SessionSeen(games, ctx.source).sessionStatus == Waiting && !RejectsWord(word)) &&
      (forall a :: a in EngineRequests(r.effects) ==> a == Engine.CheckWord(ctx.source, word))
  {
  }

  /**
   * Two guesses in a row from a waiting session: the first is forwarded,
   * the second is answered `MessageSent` and not forwarded, so at most one
   * guess is with the engine.
   */
  lemma NoOverlappingGuesses(programId: ActorId, target: ActorId, games: State, ctx1: Context, ctx2: Context, w1: string, w2: string)
    requires SessionSeen(games, ctx1.source).sessionStatus == Waiting
    requires !RejectsWord(w1)
    requires ctx2.source == ctx1.source
    ensures var r1 := HandleStep(programId, target, games, ctx1, CheckWord(w1));
      var r2 := HandleStep(programId, target, r1.games, ctx2, CheckWord(w2));
      |EngineRequests(r1.effects)| == 1 &&
      EngineRequests(r2.effects) == [] &&
      r2.effects == [Reply(MessageSent), Leave] &&
      r2.games == r1.games
  {
    CheckWordForwards(programId, target, games, ctx1, w1);
    var r1 := HandleStep(programId, target, games, ctx1, CheckWord(w1));
    CheckWordWhileInFlight(programId, target, r1.games, ctx2, w2);
  }

  /* ---------- CheckGameStatus ---------- */

  /**
   * The watchdog: a `CheckGameStatus` the program sends itself, on a session
   * still in `None`, reports `NoReplyReceived` and moves to `GameStarted`.
   * The session is the one keyed by the program's own address.
   */
  lemma WatchdogFires(programId: ActorId, target: ActorId, games: State, ctx: Context)
    requires ctx.source == programId
    requires SessionSeen(games, programId).sessionStatus == SessionStatus.None
    ensures var s := SessionSeen(games, programId);
      var r := HandleStep(programId, target, games, ctx, CheckGameStatus);
      r.games[programId] == s.(sessionStatus := SessionStatus.GameStarted) &&
      r.effects == [Send(programId, ToUser(NoReplyReceived)), WaitFor(20)]
  {
  }

  /** Every other `CheckGameStatus` answers the current status and changes nothing but creation. */
  lemma StatusProbeIsReadOnly(programId: ActorId, target: ActorId, games: State, ctx: Context)
    requires !(ctx.source == programId && SessionSeen(games, ctx.source).sessionStatus == SessionStatus.None)
    ensures var r := HandleStep(programId, target, games, ctx, CheckGameStatus);
      r.games == EnsureSession(games, ctx.source) &&
      r.effects == [Reply(SessionSeen(games, ctx.source).sessionStatus), Leave]
  {
  }

  /**
   * The watchdog scheduled by a user's `StartGame` never reaches that user's
   * session: when it fires, the user's session (still `None` if the engine
   * has not answered) is left exactly as the start left it.
   */
  lemma WatchdogMissesUserSession(programId: ActorId, target: ActorId, games: State, ctx: Context, wctx: Context)
    requires ctx.source != programId
    requires SessionSeen(games, ctx.source).sessionStatus == SessionStatus.None
    requires wctx.source == programId
    ensures var r1 := HandleStep(programId, target, games, ctx, StartGame);
      var r2 := HandleStep(programId, target, r1.games, wctx, CheckGameStatus);
      r2.games[ctx.source] == r1.games[ctx.source] &&
      r2.games[ctx.source].sessionStatus == SessionStatus.None
  {
    StartGameFromNone(programId, target, games, ctx);
    var r1 := HandleStep(programId, target, games, ctx, StartGame);
    HandleTouchesOnlySender(programId, target, r1.games, wctx, CheckGameStatus);
  }

  /* ---------- across all actions ---------- */

  /**
   * One user action sends at most one request to the engine, to the
   * engine's address and on behalf of the sender.
   */
  lemma AtMostOneEngineRequest(programId: ActorId, target: ActorId, games: State, ctx: Context, action: Action)
    ensures var r := HandleStep(programId, target, games, ctx, action);
      |EngineRequests(r.effects)| <= 1 &&
      (forall a :: a in EngineRequests(r.effects) ==> a.user == ctx.source) &&
      (forall e :: e in r.effects && e.Send? && e.payload.ToEngine? ==> e.dest == target)
  {
    if action == StartGame && SessionSeen(games, ctx.source).sessionStatus == SessionStatus.None {
      StartGameFromNone(programId, target, games, ctx);
    }
  }

  /** User actions never count tries: the counter stays, or restarts at 0 with a new game. */
  lemma HandleNeverCountsTries(programId: ActorId, target: ActorId, games: State, ctx: Context, action: Action)
    ensures var s := SessionSeen(games, ctx.source);
      var r := HandleStep(programId, target, games, ctx, action);
      r.games[ctx.source].triesNumber == s.triesNumber ||
      (r.games[ctx.source].triesNumber == 0 && s.sessionStatus.GameOver? && action == StartGame)
  {
  }

  /* ---------- replies from the engine ---------- */

  /** A reply about a user without a session fails and changes nothing. */
  lemma ReplyWithoutSessionAborts(games: State, replyTo: MessageId, event: Engine.WordleEvent)
    requires event.user !in games
    ensures ReplyStep(games, replyTo, event) == Step(games, [Abort])
  {
  }

  /** Every reply about a known user ends by waking the message stored as the original id. */
  lemma ReplyAlwaysWakes(games: State, replyTo: MessageId, event: Engine.WordleEvent)
    requires ReplyFits(games, event)
    requires event.user in games
    ensures var r := ReplyStep(games, replyTo, event);
      |r.effects| > 0 && r.effects[|r.effects| - 1] == Wake(games[event.user].msgIds.1) &&
      Abort !in r.effects &&
      EngineRequests(r.effects) == [] &&
      OthersUnchanged(games, r.games, event.user)
  {
  }

  /**
   * `GameStarted` from the engine counts only when it answers the message
   * stored as sent: then the session becomes `GameStarted` and the user is
   * told; otherwise the registry is unchanged and the user is not told.
   */
  lemma GameStartedIsCorrelated(games: State, replyTo: MessageId, user: ActorId)
    requires user in games
    ensures var s := games[user];
      var r := ReplyStep(games, replyTo, Engine.GameStarted(user));
      (replyTo == s.msgIds.0 ==>
        r.games[user] == s.(sessionStatus := SessionStatus.GameStarted) &&
        r.effects == [Send(user, ToUser(SessionStatus.GameStarted)), Wake(s.msgIds.1)]) &&
      (replyTo != s.msgIds.0 ==> r.games == games && r.effects == [Wake(s.msgIds.1)])
  {
  }

  /**
   * An evaluation, whatever message it answers, adds exactly one try, keeps
   * the ids, forwards the evaluation to the user, and sets `GameOver(Win)`
   * iff five positions are correct and nothing is merely contained,
   * `GameOver(Lose)` iff not and the tries now exceed 3, and `Waiting`
   * otherwise.
   */
  lemma WordCheckedOutcome(games: State, replyTo: MessageId, user: ActorId, cp: seq<uint8>, ciw: seq<uint8>)
    requires user in games && games[user].triesNumber < 255
    ensures var s := games[user];
      var r := ReplyStep(games, replyTo, Engine.WordChecked(user, cp, ciw));
      var t := r.games[user];
      t.triesNumber as int == s.triesNumber as int + 1 &&
      t.msgIds == s.msgIds &&
      r.effects == [Send(user, ToUser(SessionStatus.WordChecked(user, cp, ciw))), Wake(s.msgIds.1)] &&
      (t.sessionStatus == GameOver(Win) <==> |cp| == 5 && ciw == []) &&
      (t.sessionStatus == GameOver(Lose) <==> !(|cp| == 5 && ciw == []) && t.triesNumber > 3) &&
      (t.sessionStatus == Waiting <==> !(|cp| == 5 && ciw == []) && t.triesNumber <= 3)
  {
  }

  /**
   * Start round trip: `StartGame` from a fresh session, then the engine's
   * `GameStarted` answering the sent message: the session is `GameStarted`,
   * the user is told, and the suspended `StartGame` message is woken.
   */
  lemma StartRoundTrip(programId: ActorId, target: ActorId, games: State, ctx: Context)
    requires SessionSeen(games, ctx.source).sessionStatus == SessionStatus.None
    ensures var r1 := HandleStep(programId, target, games, ctx, StartGame);
      var r2 := ReplyStep(r1.games, ctx.sentId, Engine.GameStarted(ctx.source));
      r2.games[ctx.source].sessionStatus == SessionStatus.GameStarted &&
      r2.effects == [Send(ctx.source, ToUser(SessionStatus.GameStarted)), Wake(ctx.msgId)]
  {
    StartGameFromNone(programId, target, games, ctx);
  }

  /**
   * Guess round trip: a waiting session with no tries guesses "mango" and
   * the engine reports all five positions correct: the game is won after one
   * try, and the message woken is the one stored by the last `StartGame`.
   */
  lemma MangoWins(programId: ActorId, target: ActorId, games: State, ctx: Context, replyTo: MessageId)
    requires ctx.source in games
    requires games[ctx.source].sessionStatus == Waiting && games[ctx.source].triesNumber == 0
    ensures var r1 := HandleStep(programId, target, games, ctx, CheckWord("mango"));
      var r2 := ReplyStep(r1.games, replyTo, Engine.WordChecked(ctx.source, [0, 1, 2, 3, 4], []));
      r2.games[ctx.source].sessionStatus == GameOver(Win) &&
      r2.games[ctx.source].triesNumber == 1 &&
      r2.effects[|r2.effects| - 1] == Wake(games[ctx.source].msgIds.1)
  {
    ValidationNeedsBothFailures();
    CheckWordForwards(programId, target, games, ctx, "mango");
  }

  /**
   * Forwarding a guess does not record its message id, so the engine's
   * evaluation wakes the message stored by the last `StartGame`, never the
   * guess itself (unless the two ids coincide): the guess stays suspended.
   */
  lemma GuessIsNotWoken(programId: ActorId, target: ActorId, games: State, ctx: Context, replyTo: MessageId,
                        word: string, cp: seq<uint8>, ciw: seq<uint8>)
    requires ctx.source in games
    requires games[ctx.source].sessionStatus == Waiting && games[ctx.source].triesNumber < 255
    requires !RejectsWord(word)
    ensures var r1 := HandleStep(programId, target, games, ctx, CheckWord(word));
      var r2 := ReplyStep(r1.games, replyTo, Engine.WordChecked(ctx.source, cp, ciw));
      r1.games[ctx.source].msgIds == games[ctx.source].msgIds &&
      (forall e :: e in r2.effects && e.Wake? ==> e.id == games[ctx.source].msgIds.1) &&
      (ctx.msgId != games[ctx.source].msgIds.1 ==> Wake(ctx.msgId) !in r2.effects)
  {
    CheckWordForwards(programId, target, games, ctx, word);
  }

  /* ---------- sequences of replies ---------- */

  /**
   * The registry after the engine's replies, in order; every counter must
   * stay below 255 through the evaluations about its user.
   */
  function ApplyReplies(games: State, replies: seq<(MessageId, Engine.WordleEvent)>): (g: State)
    requires CountersFit(games, replies)
    ensures g.Keys == games.Keys
  {
    if replies == [] then games
    else
      var r := ReplyStep(games, replies[0].0, replies[0].1);
      ApplyReplies(r.games, replies[1..])
  }

  /** Each user's counter plus the evaluations about them in `replies` stays below 255. */
  predicate CountersFit(games: State, replies: seq<(MessageId, Engine.WordleEvent)>)
  {
    forall u :: u in games ==> games[u].triesNumber as int + Evaluations(replies, u) < 255
  }

  /** The number of evaluations in `replies` about `user`. */
  function Evaluations(replies: seq<(MessageId, Engine.WordleEvent)>, user: ActorId): (n: nat)
    ensures n <= |replies|
  {
    if replies == [] then 0
    else (if replies[0].1.WordChecked? && replies[0].1.user == user then 1 else 0) + Evaluations(replies[1..], user)
  }

  /** Tries count the evaluations about the user exactly, across any replies. */
  lemma {:induction false} TriesCountEvaluations(games: State, replies: seq<(MessageId, Engine.WordleEvent)>, user: ActorId)
    requires CountersFit(games, replies)
    requires user in games
    ensures ApplyReplies(games, replies)[user].triesNumber as int == games[user].triesNumber as int + Evaluations(replies, user)
  {
    if replies != [] {
      var r := ReplyStep(games, replies[0].0, replies[0].1);
      var e := replies[0].1;
      if e.user == user {
        if e.WordChecked? {
          WordCheckedOutcome(games, replies[0].0, user, e.correctPositions, e.containedInWord);
        }
      } else {
        if e.user in games {
          ReplyAlwaysWakes(games, replies[0].0, e);
        }
      }
      assert r.games[user].triesNumber as int == games[user].triesNumber as int + (if e.WordChecked? && e.user == user then 1 else 0);
      TriesCountEvaluations(r.games, replies[1..], user);
    }
  }

  /**
   * Four evaluations without a full match, starting from no tries: the
   * fourth leaves four tries and loses the game.
   */
  lemma FourMissesLose(games: State, replies: seq<(MessageId, Engine.WordleEvent)>, user: ActorId)
    requires user in games && games[user].triesNumber == 0
    requires |replies| == 4
    requires CountersFit(games, replies)
    requires forall i :: 0 <= i < 4 ==>
      (replies[i].1.WordChecked? && replies[i].1.user == user &&
       !IsFullMatch(replies[i].1.correctPositions, replies[i].1.containedInWord))
    ensures ApplyReplies(games, replies)[user].triesNumber == 4
    ensures ApplyReplies(games, replies)[user].sessionStatus == GameOver(Lose)
  {
    var first, last := replies[..3], replies[3];
    assert first + [last] == replies;
    ApplyRepliesSplit(games, first, [last]);
    var mid := ApplyReplies(games, first);
    OnlyEvaluations(first, user);
    TriesCountEvaluations(games, first, user);
    assert ApplyReplies(mid, [last]) == ReplyStep(mid, last.0, last.1).games by {
      assert [last][1..] == [];
    }
    WordCheckedOutcome(mid, last.0, user, last.1.correctPositions, last.1.containedInWord);
  }

  /** When every reply is an evaluation about `user`, each one counts. */
  lemma {:induction false} OnlyEvaluations(replies: seq<(MessageId, Engine.WordleEvent)>, user: ActorId)
    requires forall i :: 0 <= i < |replies| ==> replies[i].1.WordChecked? && replies[i].1.user == user
    ensures Evaluations(replies, user) == |replies|
  {
    if replies != [] {
      assert replies[0].1.WordChecked? && replies[0].1.user == user;
      OnlyEvaluations(replies[1..], user);
    }
  }

  /** Replying to `a + b` is replying to `a`, then to `b`. */
  lemma {:induction false} ApplyRepliesSplit(games: State, a: seq<(MessageId, Engine.WordleEvent)>, b: seq<(MessageId, Engine.WordleEvent)>)
    requires CountersFit(games, a + b)
    ensures CountersFit(games, a)
    ensures CountersFit(ApplyReplies(games, a), b)
    ensures ApplyReplies(games, a + b) == ApplyReplies(ApplyReplies(games, a), b)
  {
    forall u | u in games ensures Evaluations(a + b, u) == Evaluations(a, u) + Evaluations(b, u) {
      EvaluationsAppend(a, b, u);
    }
    if a != [] {
      var r := ReplyStep(games, a[0].0, a[0].1);
      assert (a + b)[0] == a[0];
      assert (a + b)[1..] == a[1..] + b;
      assert CountersFit(r.games, a[1..] + b);
      ApplyRepliesSplit(r.games, a[1..], b);
      assert ApplyReplies(games, a) == ApplyReplies(r.games, a[1..]);
      assert ApplyReplies(games, a + b) == ApplyReplies(r.games, a[1..] + b);
    } else {
      assert a + b == b;
    }
  }

  /** Evaluations of a concatenation add up. */
  lemma {:induction false} EvaluationsAppend(a: seq<(MessageId, Engine.WordleEvent)>, b: seq<(MessageId, Engine.WordleEvent)>, user: ActorId)
    ensures Evaluations(a + b, user) == Evaluations(a, user) + Evaluations(b, user)
  {
    if a == [] {
      assert a + b == b;
    } else {
      assert (a + b)[0] == a[0];
      assert (a + b)[1..] == a[1..] + b;
      EvaluationsAppend(a[1..], b, user);
    }
  }

  /* ---------- sequences of user actions ---------- */

  /** The registry after user actions, in order, each with its host inputs. */
  function HandleAll(programId: ActorId, target: ActorId, games: State, msgs: seq<(Context, Action)>): State
    decreases |msgs|
  {
    if msgs == [] then games
    else HandleAll(programId, target, HandleStep(programId, target, games, msgs[0].0, msgs[0].1).games, msgs[1..])
  }

  /** The senders of `msgs`. */
  function Senders(msgs: seq<(Context, Action)>): set<ActorId>
  {
    set i | 0 <= i < |msgs| :: msgs[i].0.source
  }

  /**
   * The registry's users after any user actions are those it had plus the
   * senders: sessions are created on first contact and never removed.
   */
  lemma {:induction false} HandleAllKeys(programId: ActorId, target: ActorId, games: State, msgs: seq<(Context, Action)>)
    ensures HandleAll(programId, target, games, msgs).Keys == games.Keys + Senders(msgs)
    decreases |msgs|
  {
    if msgs != [] {
      var r := HandleStep(programId, target, games, msgs[0].0, msgs[0].1);
      HandleTouchesOnlySender(programId, target, games, msgs[0].0, msgs[0].1);
      HandleAllKeys(programId, target, r.games, msgs[1..]);
      assert Senders(msgs) == {msgs[0].0.source} + Senders(msgs[1..]) by {
        forall x | x in Senders(msgs) ensures x in {msgs[0].0.source} + Senders(msgs[1..]) {
          var i :| 0 <= i < |msgs| && msgs[i].0.source == x;
          if i > 0 { assert msgs[1..][i - 1] == msgs[i]; }
        }
        forall x | x in Senders(msgs[1..]) ensures x in Senders(msgs) {
          var i :| 0 <= i < |msgs[1..]| && msgs[1..][i].0.source == x;
          assert msgs[i + 1] == msgs[1..][i];
        }
      }
    }
  }

  /* ---------- statuses a session rests in ---------- */

  /**
   * Every stored status is one of the five a session can rest in: the
   * reply-only statuses `WordChecked`, `InvalidWord` and `NoReplyReceived`
   * are never stored.
   */
  predicate AllResting(games: State)
  {
    forall u :: u in games ==>
      var status := games[u].sessionStatus;
      status.None? || status.GameStarted? || status.Waiting? || status.MessageSent? || status.GameOver?
  }

  /** The registry `init` creates holds only resting statuses. */
  lemma EmptyRegistryResting()
    ensures AllResting(map[])
  {
  }

  /** A user action stores only resting statuses. */
  lemma HandleKeepsResting(programId: ActorId, target: ActorId, games: State, ctx: Context, action: Action)
    requires AllResting(games)
    ensures AllResting(HandleStep(programId, target, games, ctx, action).games)
  {
  }

  /** A reply from the engine stores only resting statuses. */
  lemma ReplyKeepsResting(games: State, replyTo: MessageId, event: Engine.WordleEvent)
    requires ReplyFits(games, event)
    requires AllResting(games)
    ensures AllResting(ReplyStep(games, replyTo, event).games)
  {
  }

  /** Any sequence of user actions keeps the registry resting. */
  lemma {:induction false} HandleAllKeepsResting(programId: ActorId, target: ActorId, games: State, msgs: seq<(Context, Action)>)
    requires AllResting(games)
    ensures AllResting(HandleAll(programId, target, games, msgs))
    decreases |msgs|
  {
    if msgs != [] {
      var r := HandleStep(programId, target, games, msgs[0].0, msgs[0].1);
      HandleKeepsResting(programId, target, games, msgs[0].0, msgs[0].1);
      HandleAllKeepsResting(programId, target, r.games, msgs[1..]);
    }
  }

  /** From `init`, whatever users do, no reply-only status is stored. */
  lemma RestingFromInit(programId: ActorId, target: ActorId, msgs: seq<(Context, Action)>)
    ensures AllResting(HandleAll(programId, target, map[], msgs))
  {
    EmptyRegistryResting();
    HandleAllKeepsResting(programId, target, map[], msgs);
  }

  /** Any sequence of replies keeps the registry resting. */
  lemma {:induction false} ApplyRepliesKeepsResting(games: State, replies: seq<(MessageId, Engine.WordleEvent)>)
    requires CountersFit(games, replies)
    requires AllResting(games)
    ensures AllResting(ApplyReplies(games, replies))
  {
    if replies != [] {
      var r := ReplyStep(games, replies[0].0, replies[0].1);
      ReplyKeepsResting(games, replies[0].0, replies[0].1);
      ApplyRepliesKeepsResting(r.games, replies[1..]);
    }
  }

  /* ---------- what outside readers see ---------- */

  /**
   * Starting from an empty registry, after any user actions the player list
   * holds exactly the distinct senders, each once.
   */
  lemma PlayersAreTheSenders(programId: ActorId, target: ActorId, msgs: seq<(Context, Action)>)
    ensures var players := AllPlayerAddress(HandleAll(programId, target, map[], msgs));
      |players| == |Senders(msgs)| &&
      forall u :: u in players <==> u in Senders(msgs)
  {
    HandleAllKeys(programId, target, map[], msgs);
  }

  /**
   * Whoever sent a user action can afterwards be looked up; the status,
   * tries and ids read back are those of the stored session.
   */
  lemma SenderIsFound(programId: ActorId, target: ActorId, games: State, ctx: Context, action: Action)
    ensures var g := HandleStep(programId, target, games, ctx, action).games;
      GetSessionStatus(g, ctx.source).Found? && GetTriesNumber(g, ctx.source).Found? &&
      GetSentMessageId(g, ctx.source).Found? && GetOriginalMessageId(g, ctx.source).Found?
  {
    HandleTouchesOnlySender(programId, target, games, ctx, action);
  }
}
