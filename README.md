# Wordle session proxy — a Dafny model

The session proxy is a Gear program that sits between players and a Wordle
engine program. It keeps a registry with one session per player (the id of
the last `StartGame` request sent to the engine and of the player's message
that carried it, a status, and a try counter), forwards `StartGame` and `CheckWord` to the
engine and suspends the player's message. When the engine answers,
`handle_reply` wakes the message whose id the session stores as original:
the one recorded by the last `StartGame`, since a forwarded guess records no
id. A delayed `CheckGameStatus` that the program sends to
itself acts as a watchdog. Outside readers project the registry through a
`state` query and a set of metadata functions.

Files:

- `session_io.dfy` (`SessionIo`): the shared data model — `Session`,
  `SessionStatus` (eight variants), `Outcome` (`Win | Lose`), `Action`,
  `StateQuery`, `StateQueryReply`, the registry `State = map<ActorId, Session>`
  (so one session per user), `uint8` for the try counter, and `Lookup`, the
  result of a read that fails when the user is missing.
- `wordle_game_io.dfy` (`WordleGameIo`): the engine's messages, in the shapes
  the proxy sends (`StartGame{user}`, `CheckWord{user, word}`) and matches
  (`GameStarted{user}`, `WordChecked{user, correct_positions, contained_in_word}`).
- `session_program.dfy` (`SessionProgram`): the program. Pure specifications
  of the three `handle` branches (`StartGameStep`, `CheckWordStep`,
  `CheckGameStatusStep`, combined in `HandleStep`), of `handle_reply`
  (`ReplyStep`) and of the `state` query (`StateReply`), and the class `Proxy`
  holding the registry, whose `Handle` and `HandleReply` methods update it in
  place and are proved to produce exactly the registry and effects the
  specifications give.
- `session_properties.dfy` (`SessionProperties`): the properties of the
  handlers, branch by branch and across sequences of messages.
- `wordle_state.dfy` (`WordleState`): the metadata projections, each proved to
  agree with the program's own `state` query.

Host primitives are not executed. A handler returns the effects it asks the
host for, in order: `Send(dest, payload)`, `SendDelayed(dest, action, delay)`,
`Reply(status)`, `WaitFor(blocks)`, `Wake(id)`, `Leave`, and `Abort` for a
panic. `exec::wait_for`, `exec::leave` and `panic!` end the handler, so
nothing follows them in the list. The message source, the message id and the
id the host gives the first outgoing `msg::send` of a run come in as a
`Context`; the program's own address and the engine's address are fields of
`Proxy` fixed at construction (`init`).

The model reproduces the program as written, including:

- `CheckWord` rejects a word only when its UTF-8 byte length is not 5 AND it
  is not all lower case (`ValidationNeedsBothFailures`: "HELLO" and "hi" pass,
  "AB" is rejected).
- `StartGame` from `None` records the ids and schedules the watchdog but leaves
  the status `None`; the restart after `GameOver` schedules no watchdog.
- Forwarding a guess does not record the new message id, so the engine's
  evaluation wakes the message of the last `StartGame` and not the guess,
  which stays suspended until its wait times out (`GuessIsNotWoken`).
- `StartGame` while the status is still `None` is not guarded: a second start
  sends a second start request and overwrites the stored ids
  (`RepeatedStartResends`).
- Only `GameStarted` replies are matched against the stored sent id;
  `WordChecked` replies are not.
- The watchdog's session is keyed by the program's own address, because the
  handler's user is the message source. The watchdog therefore never touches
  the session of the player who started the game (`WatchdogMissesUserSession`).
- A win is decided by the number of correct positions and an empty
  contained-letter list, not by their contents.
- A restart after `GameOver` resets the try counter to 0, so the counter only
  grows between restarts (`HandleNeverCountsTries`, `TriesCountEvaluations`).

## Model

| member | source | states |
|---|---|---|
| `SessionIo.KeySeq` | session/src/lib.rs:244 | the registry's keys collected into a sequence list every key exactly once and nothing else |
| `SessionProgram.AllLowercase` | session/src/lib.rs:14 | true iff every character of the string is a lower-case letter |
| `SessionProgram.IsWordLowercase` | session/src/lib.rs:10-15 | false for the empty word, otherwise true iff every character is lower case |
| `SessionProgram.Utf8Width` | session/src/lib.rs:120 | a character takes 1 to 4 bytes, and 1 exactly when it is ASCII |
| `SessionProgram.Utf8Len` | session/src/lib.rs:120 | the byte length of a word lies between its character count and four times that |
| `SessionProperties.IsExistGameAfterCreation` | session/src/lib.rs:17-27 | after the creation step a game exists exactly for the earlier users and the sender; from an empty registry, for the sender and for no other user (the cases of the unit test at lines 267-282) |
| `SessionProgram.IsExistGame` | session/src/lib.rs:17-27 | a user has a game exactly when the program's `Player` state query finds a session for them |
| `SessionProgram.RejectsWord` | session/src/lib.rs:120 | a word is rejected iff its byte length is not 5 and it is empty or holds a character other than `a`–`z` |
| `SessionProgram.StartGameStep` | session/src/lib.rs:58-104 | `StartGame` changes only the sender's session; it sends `StartGame{user}` to the engine exactly from `None` or `GameOver(_)`, and then records (sent id, current id), otherwise keeps the ids; the counter changes only on a restart after `GameOver` |
| `SessionProgram.CheckWordStep` | session/src/lib.rs:106-150 | `CheckWord` changes only the sender's session and never its ids or counter; the registry changes exactly when `CheckWord{user, word}` goes to the engine, and the session is then `MessageSent` |
| `SessionProgram.CheckGameStatusStep` | session/src/lib.rs:151-165 | `CheckGameStatus` never writes to the engine and never changes ids or counters; it changes the registry only when the program itself sends it, by setting `GameStarted` |
| `SessionProgram.HandleStep` | session/src/lib.rs:41-167 | after any user action the sender has a session, the users are the earlier ones plus the sender, and no other user's session changes |
| `SessionProgram.OutcomeAfter` | session/src/lib.rs:222-228 | after an evaluation the status is `GameOver(Win)` iff full match, `GameOver(Lose)` iff not and tries > 3, `Waiting` iff not and tries ≤ 3 |
| `SessionProgram.EnsureSession` | session/src/lib.rs:48-56 | after the creation step the sender has a session, the keys are the old ones plus the sender, and every existing session is unchanged |
| `SessionProgram.ReplyStep` | session/src/lib.rs:170-234 | a reply from the engine never adds or removes a user, raises the counter of the evaluated user by exactly one and leaves every other counter as it was |
| `SessionProgram.StateReply` | session/src/lib.rs:237-251 | `All` lists exactly the registry's users, each once; `Player(a)` returns the stored session of `a`, and fails exactly when `a` has none |
| `SessionProgram.Proxy.constructor` | session/src/lib.rs:30-38 | `init` stores the engine's address and starts with an empty registry |
| `SessionProgram.Proxy.Handle` | session/src/lib.rs:41-167 | updating the registry in place yields exactly the registry and the host effects `HandleStep` specifies |
| `SessionProgram.Proxy.HandleReply` | session/src/lib.rs:170-234 | updating the session in place yields exactly the registry and the host effects `ReplyStep` specifies |
| `SessionProperties.IsWordLowercaseExamples` | session/src/lib.rs:258-265 | "hello" is lower case; "HELLO", "HeLLo", "", " " and "12345" are not |
| `SessionProperties.AsciiByteLength` | session/src/lib.rs:120 | for ASCII text the byte length equals the number of characters |
| `SessionProperties.ValidationNeedsBothFailures` | session/src/lib.rs:120-124 | rejection needs both a byte length other than 5 and a word not all lower case: "HELLO", "hi", "mango" pass, "AB" and "" are rejected |
| `SessionProperties.HandleTouchesOnlySender` | session/src/lib.rs:44-56 | after any action the sender has a session, no user is removed, no other user is added and no other user's session changes |
| `SessionProperties.FirstContactSession` | session/src/lib.rs:49-53 | a first message sees the session `((0,0), None, 0)`; a later one sees the stored session |
| `SessionProperties.StartGameFromNone` | session/src/lib.rs:63-78 | from `None`: one `StartGame{user}` to the engine, ids become (sent id, current id), status and tries stay, and the effects are exactly that send, one delayed `CheckGameStatus` to the program with delay 200, and `WaitFor(3)` |
| `SessionProperties.RepeatedStartResends` | session/src/lib.rs:63-78 | two `StartGame` in a row while the status is `None` each send a start request, and the second overwrites the stored ids |
| `SessionProperties.StartGameWhenStarted` | session/src/lib.rs:79-81 | from `GameStarted`: status becomes `Waiting`, nothing is sent, ends in `Leave` |
| `SessionProperties.StartGameAfterGameOver` | session/src/lib.rs:82-103 | from `GameOver(_)`: the session becomes ((sent id, current id), `GameStarted`, 0) and the effects are exactly one `StartGame{user}` to the engine then `WaitFor(3)`, so no watchdog |
| `SessionProperties.StartGameOtherwiseIgnored` | session/src/lib.rs:58-104 | from any other status: the registry is unchanged apart from creation and no effect is requested |
| `SessionProperties.CheckWordWhileInFlight` | session/src/lib.rs:114-118 | with a guess in flight: replies `MessageSent`, leaves, sends nothing, registry unchanged |
| `SessionProperties.CheckWordAbortsIff` | session/src/lib.rs:114-124 | a guess aborts iff no guess is in flight and the word fails both tests, and then only `InvalidWord` is replied |
| `SessionProperties.CheckWordForwards` | session/src/lib.rs:126-141 | from `Waiting` with an accepted word: status `MessageSent`, ids and tries unchanged, and the effects are exactly `CheckWord{user, word}` to the engine then `WaitFor(20)` |
| `SessionProperties.CheckWordAfterGameOver` | session/src/lib.rs:143-149 | from `GameOver(_)` with an accepted word: replies that status and leaves, registry unchanged |
| `SessionProperties.CheckWordForwardsOnlyWhenWaiting` | session/src/lib.rs:106-150 | a guess reaches the engine iff the status is `Waiting` and the word is accepted, and it carries the sender and the word |
| `SessionProperties.NoOverlappingGuesses` | session/src/lib.rs:114-141 | of two guesses in a row from a waiting session, the first is forwarded and the second is answered `MessageSent` without a send |
| `SessionProperties.WatchdogFires` | session/src/lib.rs:151-159 | a self-sent `CheckGameStatus` on a `None` session sends `NoReplyReceived` to that session's user, sets `GameStarted`, ends in `WaitFor(20)` |
| `SessionProperties.StatusProbeIsReadOnly` | session/src/lib.rs:160-164 | every other `CheckGameStatus` replies the current status and leaves; the registry is unchanged apart from creation |
| `SessionProperties.WatchdogMissesUserSession` | session/src/lib.rs:44-78 | after a player's `StartGame` from `None`, the watchdog it schedules leaves that player's session unchanged and still `None` |
| `SessionProperties.AtMostOneEngineRequest` | session/src/lib.rs:58-150 | one user action sends at most one request to the engine, addressed to the engine and on behalf of the sender |
| `SessionProperties.HandleNeverCountsTries` | session/src/lib.rs:41-167 | a user action keeps the sender's try counter, except that a restart after `GameOver` sets it to 0 |
| `SessionProperties.ReplyWithoutSessionAborts` | session/src/lib.rs:189-208 | a reply about a user without a session fails and leaves the registry unchanged |
| `SessionProperties.ReplyAlwaysWakes` | session/src/lib.rs:187-233 | a reply about a known user ends with waking the stored original message id, sends nothing to the engine and touches no other session |
| `SessionProperties.GameStartedIsCorrelated` | session/src/lib.rs:188-199 | `GameStarted` sets the status and notifies the user iff it answers the stored sent id; otherwise only the wake happens |
| `SessionProperties.WordCheckedOutcome` | session/src/lib.rs:201-232 | an evaluation adds exactly one try, keeps the ids, has exactly the effects "send the evaluation to the user, wake the stored original id", and yields `GameOver(Win)` iff 5 correct positions and nothing contained, `GameOver(Lose)` iff not and tries > 3, else `Waiting` |
| `SessionProperties.StartRoundTrip` | session/src/lib.rs:63-199 | `StartGame` then the engine's matching `GameStarted`: status `GameStarted`, the user is told and the original message is woken |
| `SessionProperties.MangoWins` | session/src/lib.rs:126-232 | a waiting session with no tries guessing "mango", answered with five correct positions, is won after one try, and the stored original id is woken |
| `SessionProperties.GuessIsNotWoken` | session/src/lib.rs:126-141 | a forwarded guess keeps the stored ids, so the evaluation that answers it wakes only the id stored by the last `StartGame`, never the guess's own id when they differ |
| `SessionProperties.ApplyReplies` | session/src/lib.rs:170-234 | a sequence of engine replies, for which each user's counter plus the evaluations about that user stays below 255, never changes the set of users |
| `SessionProperties.TriesCountEvaluations` | session/src/lib.rs:220 | across any sequence of replies that keeps each counter below 255, a user's try counter grows by exactly the number of evaluations about that user |
| `SessionProperties.FourMissesLose` | session/src/lib.rs:220-225 | four evaluations without a full match from no tries leave four tries and `GameOver(Lose)` |
| `SessionProperties.HandleAllKeys` | session/src/lib.rs:48-56 | after any sequence of user actions the users are the earlier ones plus the senders |
| `SessionProperties.EmptyRegistryResting` | session/src/lib.rs:30-38 | the registry `init` creates stores no reply-only status (`WordChecked`, `InvalidWord`, `NoReplyReceived`) |
| `SessionProperties.HandleKeepsResting` | session/src/lib.rs:41-167 | if no session holds a reply-only status, none does after a user action |
| `SessionProperties.ReplyKeepsResting` | session/src/lib.rs:170-234 | if no session holds a reply-only status, none does after an engine reply |
| `SessionProperties.HandleAllKeepsResting` | session/src/lib.rs:41-167 | any sequence of user actions keeps every stored status among `None`, `GameStarted`, `Waiting`, `MessageSent`, `GameOver(_)` |
| `SessionProperties.ApplyRepliesKeepsResting` | session/src/lib.rs:170-234 | any sequence of engine replies keeps every stored status among the five resting ones |
| `SessionProperties.RestingFromInit` | session/src/lib.rs:30-167 | from `init`, after any user actions, no session stores a reply-only status |
| `WordleState.AllPlayerAddress` | wordle-state/src/lib.rs:10-12 | lists every user with a session exactly once, as the program's `All` query does |
| `WordleState.GetSessionStatus` | wordle-state/src/lib.rs:14-17 | the stored status, found exactly when the program's `Player` query finds the user |
| `WordleState.GetTriesNumber` | wordle-state/src/lib.rs:19-22 | the stored try counter, found exactly when the program's `Player` query finds the user |
| `WordleState.GetSentMessageId` | wordle-state/src/lib.rs:24-27 | the stored sent message id, found exactly when the program's `Player` query finds the user |
| `WordleState.GetOriginalMessageId` | wordle-state/src/lib.rs:29-32 | the stored original message id, found exactly when the program's `Player` query finds the user |
| `SessionProperties.PlayersAreTheSenders` | wordle-state/src/lib.rs:10-12 | from an empty registry, after any user actions the player list holds exactly the distinct senders |
| `SessionProperties.SenderIsFound` | wordle-state/src/lib.rs:14-32 | after a user action every projection finds the sender |

## Left out

- Host semantics: re-running a woken message from the top, the timeout of
  `wait_for`, block scheduling, the actual 200-block delay, and delivery of
  sent messages. Effects are recorded, not performed.
- Rollback on panic: an `Abort` ends the effect list, and the registry is left
  as the program had changed it at that point (for an invalid word, including
  a session just created). Whether the host discards that change and the
  queued reply is not modelled.
- Failures of the host calls themselves (`msg::send`, `send_delayed`, `reply`,
  `wake` returning an error, decoding of the payload with `msg::load`).
- The message id returned by `send_delayed` and by the `CheckWord` forward is
  discarded by the program; the model has no input for it.
- SessionProgram.Proxy.HandleReply: requires the counter of an evaluated session to be below
  255, instead of modelling the `u8` overflow of `tries_number += 1`, whose
  behaviour (wrap or panic) depends on build flags.
- SessionProperties.ApplyReplies: requires each user's counter plus the
  evaluations about that user in the sequence to stay below 255, for the
  same `u8` reason as `HandleReply`.
- `SessionProgram.IsLowercase`: only ASCII `a`–`z` count as lower case;
  Unicode `char::is_lowercase` also accepts other lower-case letters.
- The global `Option` around the registry and `GAMES.take()` in `state`, which
  empties the registry as a side effect of a state read; the registry is a
  field of `Proxy` that `init` sets to the empty map, and `state` is a pure
  read of it.
- The order of `all_player_address` and of the `All` reply: a hash map's order;
  the model promises only that every user appears exactly once.
- The Wordle engine (`wordle_game_io` is not part of this model): only the
  shapes of its messages are modelled.
- Metadata and codec derives, which are wiring.
