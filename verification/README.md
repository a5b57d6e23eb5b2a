# Quiz buzzer server: a Dafny model

This project models the server side of a two-player quiz game. A host
creates a game and steps through questions. Up to two players join, race to
buzz and submit answers, and the server keeps the scores. Two pieces are
modelled together as one system state:

- **The question bank** (`questionBank.js`, module `QuestionBank`): an array of
  question records and a cursor that starts at -1. The records are shuffled
  once with Fisher–Yates, `getNextQuestion` advances the cursor and serves the
  record without its answer, and `checkAnswer` judges a label against the
  record under the cursor.
- **The session handlers** (`server.js`, module `Server`): the `games` registry
  plus the single question bank shared by every game. Each Socket.IO handler
  (`createGame`, `joinGame`, `requestNextQuestion`, `enableBuzzer`, `buzz`,
  `submitAnswer`, `resetBuzzer`, `disconnect`) is a pure function from
  (state, sending socket, arguments) to (next state, emitted events). Each
  emitted event is tagged with its audience: the game's room, or one socket.

JavaScript `Map`s are modelled by module `OrderedMap`: a finite map plus the
insertion order of its keys. The order is observable. `answerResult` carries
`Array.from(scores.entries())`, and `disconnect` visits the games in
insertion order. Module `ServerProps` holds the whole-system properties:

- the invariant every handler keeps, and runs of arbitrary event sequences;
- the buzzer race;
- scoring;
- the consequences of the shared bank.

`Math.random` is replaced by an oracle. In the shuffle, `draws[i]` is the `j`
in `[0, i]` that the random step for `i` produced. For game codes, the code is
a parameter of `CreateGame`.

## Behaviour of the code worth knowing

The model follows `server.js` and `questionBank.js` as written, including
these behaviours:

- The buzzer is a boolean. No "claimed by" field exists (`Server.Buzz`).
- `submitAnswer` checks neither that the submitter won the buzz nor that it
  is a player. Anyone, the host included, is scored. A score entry can
  therefore exist without a player. Unless that socket hosts the game, the
  entry survives its disconnect (`ServerProps.NonPlayerScoreOutlivesDisconnect`);
  a host's disconnect deletes the whole game. The invariant kept is
  "every player has a score", not equality of the two key sets.
- Answers are judged by the shared bank's cursor, not by the game's own
  current question (`ServerProps.ExhaustedBankNeverScores`).
- Running out of questions only emits `gameOver`. The game is not closed, and
  asking again emits `gameOver` again (`ServerProps.GameOverIsNotTerminal`).
- Player numbers are `players.size` at join time, so they are reused after a
  player leaves (`ServerProps.PlayerNumberReused`).
- Game codes are not checked for collisions. `createGame` with a live code
  replaces that game (`Server.CreateGame`).
- One bank serves all games. Two games asking in turn receive consecutive
  records (`ServerProps.SharedBankCouplesGames`).
- While a game has fewer than two players, a socket that joins it again keeps
  its place, has its score reset to 0 and is announced with an unchanged
  number (`Server.AddPlayer`). In a full game the repeat join is ignored
  (`Server.JoinGame`).
- `enableBuzzer` does not require a current question.
- `loadQuestions` does not reset the cursor.

## Model

| member | source | states |
|---|---|---|
| `OrderedMap.Set` | server.js:44-45 | `Map.set`: the key now maps to the value and every other key is unchanged. A new key goes to the end of the iteration order and an existing one keeps its place. Distinct keys stay distinct, and the size grows by one exactly when the key is new. |
| `OrderedMap.Size` | server.js:43 | `Map.size`: for a valid map, the number of distinct keys. |
| `OrderedMap.Get` | server.js:41 | `Map.get`: finds a value (rather than `undefined`) exactly for the keys the map holds. |
| `OrderedMap.Has` | server.js:91 | `Map.has`: true exactly when `get` finds a value. |
| `OrderedMap.Entries` | server.js:116 | `Array.from(m.entries())`. Its contract is stated by `OrderedMap.EntriesListsMap`. |
| `OrderedMap.Without` | server.js:144-145 | Removing a key from the order drops exactly that key's occurrences, and distinct keys stay distinct. In a duplicate-free order the length drops by one when the key was present. |
| `OrderedMap.Cut` | server.js:144-145 | Cutting position `n` out of a sequence leaves one element fewer. The elements before `n` stay where they were, and those after it move up by one. |
| `OrderedMap.WithoutCutsOne` | server.js:144-145 | In a duplicate-free order, removing a present key cuts out its single occurrence. The keys before and after it keep their relative order. |
| `OrderedMap.Delete` | server.js:144-145 | `Map.delete`: the key is gone and every other key keeps its value. Validity is kept, and the size drops by one exactly when the key was present. The remaining keys keep their insertion order: the deleted key's position is cut out (`Cut`), and an absent key leaves the order untouched. |
| `OrderedMap.EntriesListsMap` | server.js:116 | `Array.from(m.entries())` lists one pair per key, in insertion order, each carrying the key's current value. |
| `QuestionBank.NewBank` | questionBank.js:5-8 | A freshly constructed bank has no questions and its cursor at -1, so it serves `null` on the first request and judges every answer wrong. |
| `QuestionBank.CheckAnswer` | questionBank.js:62-67 | A correct verdict needs some record with that answer label. The full behaviour is stated by `QuestionBank.CheckAnswerJudgesServedQuestion` and `QuestionBank.KthCallServesKthRecord`. |
| `QuestionBank.ShuffleQuestions` | questionBank.js:35-40 | The in-place Fisher–Yates loop (from `length-1` down to 1, swapping `i` with the drawn `j <= i`) computes the functional reference shuffle. Its result is a permutation of the input (same length, same multiset). |
| `QuestionBank.ShuffleFromPermutes` | questionBank.js:36-39 | Every run of the swap loop keeps the multiset of records. |
| `QuestionBank.LoadQuestions` | questionBank.js:11-31 | A failed read or parse leaves the bank unchanged. A successful one replaces the questions with a permutation of the parsed records. The cursor is not reset in either case. |
| `QuestionBank.GetNextQuestion` | questionBank.js:43-59 | The cursor always moves by one, even past the end. The result is `null` exactly when the new cursor is `>= length`. Otherwise it is the record at the new cursor, with `optionA..D` as options `A..D`. |
| `QuestionBank.CallsAdvanceCursor` | questionBank.js:44 | After `k` calls the cursor has moved by exactly `k` and the questions are unchanged. |
| `QuestionBank.KthCallServesKthRecord` | questionBank.js:7-67 | From a fresh cursor, the `k`-th call serves record `k-1` while `k <= n`, and `null` afterwards. `checkAnswer` then judges against exactly that record, and is false once the records are exhausted. |
| `QuestionBank.ExhaustionIsPermanent` | questionBank.js:44-47 | Once `getNextQuestion` has returned `null`, every later call returns `null` too. |
| `QuestionBank.CheckAnswerJudgesServedQuestion` | questionBank.js:62-67 | `checkAnswer` is false before the first question and after exhaustion. Right after a question is served, it is true exactly when the label equals that record's `correctAnswer`. |
| `Server.Boot` | server.js:12-20 | At start-up the registry holds no game, and the shared bank has nothing to serve yet. |
| `Server.NewGame` | server.js:27-33 | A new game is hosted by its creator, has no players and no scores, has no current question, and has its buzzer closed. |
| `Server.LoadBank` | server.js:15-17 | The start-up load touches only the bank. The games are unchanged, the questions become a permutation of the parsed records, and the cursor is kept. |
| `Server.CreateGame` | server.js:25-36 | The code now maps to a fresh game hosted by the sender, replacing any game under that code. Other games and the bank are unchanged. Only the sender hears `gameCreated`. |
| `Server.AddPlayer` | server.js:44-45 | The joiner is a player under its name with score 0, and nobody else's entries change. The player count grows by one unless the socket was already a player. A new player or score key goes to the end of its map's order, and an existing score key keeps its place. |
| `Server.JoinGame` | server.js:39-59 | A missing code or a full game changes nothing and emits nothing. Otherwise the joiner is added, other games and the bank are unchanged, and the host hears `playerJoined` with number = the new `players.size`. |
| `Server.RequestNextQuestion` | server.js:62-77 | A non-host sender (or a missing game) changes nothing. For the host, the shared cursor advances. A served question becomes `currentQuestion`, the buzzer closes and the room gets `newQuestion`. On exhaustion only `gameOver` is emitted and the games are untouched. |
| `Server.EnableBuzzer` | server.js:80-86 | Host only: the buzzer opens and the room hears `buzzerEnabled`. Any other sender changes nothing. |
| `Server.Buzz` | server.js:89-98 | Only a player, and only while the buzzer is open, has an effect: the buzzer closes and the room hears `playerBuzzed` with that player's name. Otherwise nothing happens. |
| `Server.Scored` | server.js:106-113 | A correct verdict sets the submitter's score to old-or-0 plus one. A wrong one leaves the table unchanged. No other score moves. A first score for the submitter goes to the end of the order, and an existing entry keeps its place. |
| `Server.SubmitAnswer` | server.js:101-126 | With no game or no current question nothing happens. Otherwise the game changes only in its scores, the bank is not moved, and the room hears the verdict with the full score list. |
| `Server.ResetBuzzer` | server.js:129-135 | Host only: the buzzer closes and the room hears `buzzerReset`. Any other sender changes nothing. |
| `Server.RemovePlayer` | server.js:143-145 | Deletes exactly the leaver's player and score entries. Everything else in the game is unchanged. The host, current question and buzzer are untouched. Both maps stay valid. The remaining players and scores keep their insertion order, with the leaver's position cut out, and a map without the leaver keeps its order. |
| `Server.Visit` | server.js:139-150 | One scan step. A hosted game is deleted with `hostLeft` to its room. A game the sender plays in loses the sender's entries and its host hears `playerLeft`. Any other game is untouched. |
| `Server.VisitKeepsDue` | server.js:139-150 | One scan step never makes owed an announcement that was not owed before it. Hosts are unchanged, and a visited game no longer has the leaver as a player. |
| `Server.Sweep` | server.js:139-150 | After scanning the pending codes, a game survives iff it was not hosted by the leaver. A scanned survivor has had the leaver removed, and an unscanned game is unchanged. Every owed announcement is emitted. Every emitted event is owed: `hostLeft` to the room of a pending game the leaver hosts, or `playerLeft(leaver)` to the host of a pending game it plays in. |
| `Server.Disconnect` | server.js:138-151 | Afterwards no game is hosted by the leaver or has it as a player. Exactly the games it hosted are gone, and every other game has lost only the leaver's entries. The bank is unchanged. Each hosted game's room gets `hostLeft`, and the host of each game the leaver played in gets `playerLeft`. No other event and no other audience occurs. |
| `ServerProps.BootIsOk` | server.js:20 | The empty registry satisfies the invariant. |
| `ServerProps.CreatePreservesInv` | server.js:27-33 | `createGame` keeps the invariant: at most two players, every player has a score, scores are `>= 0`. |
| `ServerProps.AddPlayerKeepsGameOk` | server.js:43-45 | Adding a player to a game with fewer than two keeps it well-formed. |
| `ServerProps.JoinPreservesInv` | server.js:43-45 | `joinGame` keeps the invariant. |
| `ServerProps.NextQuestionPreservesInv` | server.js:64-75 | `requestNextQuestion` keeps the invariant. |
| `ServerProps.EnablePreservesInv` | server.js:82-85 | `enableBuzzer` keeps the invariant. |
| `ServerProps.BuzzPreservesInv` | server.js:91-97 | `buzz` keeps the invariant. |
| `ServerProps.ScoredKeepsGameOk` | server.js:109-111 | A verdict keeps every score non-negative and every player scored. |
| `ServerProps.AnswerPreservesInv` | server.js:105-125 | `submitAnswer` keeps the invariant. |
| `ServerProps.ResetPreservesInv` | server.js:131-134 | `resetBuzzer` keeps the invariant. |
| `ServerProps.CleanedKeepsGameOk` | server.js:143-145 | Removing a player together with its score keeps a game well-formed. |
| `ServerProps.LeavePreservesInv` | server.js:138-151 | `disconnect` keeps the invariant. |
| `ServerProps.ApplyPreservesInv` | server.js:25-151 | Every handler keeps the invariant. |
| `ServerProps.RunPreservesInv` | server.js:23-152 | Any sequence of events from a good state ends in a good state. |
| `ServerProps.AtMostTwoPlayers` | server.js:43 | After any sequence of events since start-up, every game has at most two players and each player has a non-negative score. |
| `ServerProps.StepBuzzBound` | server.js:89-97 | Any event other than an `enableBuzzer` for game G can announce a buzz in G's room only by closing G's open buzzer. |
| `ServerProps.CreateBuzzBound` | server.js:27-33 | `createGame` never announces a buzz, and it never opens a buzzer. |
| `ServerProps.JoinBuzzBound` | server.js:43-57 | `joinGame` never announces a buzz or opens a buzzer. |
| `ServerProps.NextQuestionBuzzBound` | server.js:65-75 | `requestNextQuestion` never announces a buzz or opens a buzzer. |
| `ServerProps.EnableBuzzBound` | server.js:82-85 | Opening another game's buzzer does not concern game G. |
| `ServerProps.BuzzBuzzBound` | server.js:91-97 | A buzz announces at most one winner and closes the buzzer. |
| `ServerProps.AnswerBuzzBound` | server.js:105-125 | `submitAnswer` never announces a buzz or opens a buzzer. |
| `ServerProps.ResetBuzzBound` | server.js:131-134 | `resetBuzzer` never announces a buzz or opens a buzzer. |
| `ServerProps.LeaveBuzzBound` | server.js:138-151 | `disconnect` never announces a buzz or opens a buzzer. |
| `ServerProps.AtMostOneBuzzPerEnable` | server.js:89-97 | Consider any run with no `enableBuzzer` for game G. If the buzzer is open at the start, at most one `playerBuzzed` reaches G's room. If it is closed, none does. |
| `ServerProps.SecondBuzzIsNoOp` | server.js:91-92 | Right after a successful buzz, any further buzz in that game changes nothing and emits nothing. |
| `ServerProps.AnswerScoresExactlyOne` | server.js:105-111 | For a player, the score rises by exactly 1 when `checkAnswer` holds and is unchanged otherwise. No other score moves and no score key appears or vanishes. |
| `ServerProps.AnswerListsScored` | server.js:105-124 | With a question on, `submitAnswer` stores exactly the judged score table in the game and sends the room one `answerResult` listing that same table's entries. |
| `ServerProps.AnswerResultListsAllScores` | server.js:116-124 | The one `answerResult` goes to the room and lists the whole score table: one pair per key, each with its current value. |
| `ServerProps.ExhaustedBankNeverScores` | server.js:106 | With the shared cursor past the last record, `submitAnswer` never changes state and always reports `isCorrect = false`. |
| `ServerProps.NonPlayerScoreOutlivesDisconnect` | server.js:105-111 | A correct answer from a socket that neither hosts nor plays in the game creates a score entry with no player, and that entry survives the socket's disconnect. |
| `ServerProps.SharedBankCouplesGames` | server.js:12 | When two games' hosts ask in turn, the second game gets the record after the first game's. The shared cursor moves by two. |
| `ServerProps.GameOverIsNotTerminal` | server.js:73-75 | On exhaustion the games are unchanged and `gameOver` is emitted. Asking again emits `gameOver` again, and the buzzer can still be opened. |
| `ServerProps.JoinShape` | server.js:43-57 | A newcomer to a joinable game is added to it. The host is kept, the player count grows by one, and the host is told the newcomer's number, the new count. |
| `ServerProps.JoinAnnouncesNextNumber` | server.js:53-57 | A newcomer to a game with room is announced with number `players.size + 1`, and the invariant still holds afterwards. |
| `ServerProps.LeaveFreesPlace` | server.js:143-145 | A leaving player frees one place. The game, its host and the other players stay. |
| `ServerProps.PlayerNumberReused` | server.js:56 | When a player leaves a full game, the next newcomer is announced as number 2 again. |

## Left out

- CSV reading and parsing (`fs.readFileSync`, `csv-parse`) are file I/O and a foreign library. The parse result is a parameter: `None` for a read or parse error, otherwise a sequence of records. Records are assumed to have all six columns as strings. Missing columns (`undefined` fields) are not modelled.
- `Math.random` is randomness. The shuffle's draws are an oracle in `[0, i]`, and the uniform distribution of the shuffle is not modelled.
- `generateGameId` is random. The code is a parameter, and its format is not modelled.
- The Socket.IO transport is not modelled: room joins (`socket.join`), delivery and ordering on the wire. Emissions are returned values tagged with a room or a socket. A room named like a socket id is not modelled.
- The `loadQuestions` promise is asynchronous. It is modelled as one atomic transition (`LoadBank`) that may fall between any two events.
- Handler payloads are typed arguments. A malformed or missing `data` object, which would throw in the destructuring, is not modelled. Answers are strings, so `===` is string equality.
- Scores are unbounded integers. `parseInt` on a stored integer is the identity, and JavaScript's 2^53 precision limit is not modelled.
- `console.log` / `console.error`, Express static serving, `http.listen` and `PORT` are I/O with no state to model.
- `db.js` is not part of this model. It is a persistence wrapper that `server.js` never requires.
- The browser scripts under `public/js` are not part of this model. They are UI only.
- `Server.Disconnect`: does not state the order or the multiplicity of the emitted `hostLeft` / `playerLeft` events. It states only that the emitted events are exactly the owed ones, each with its audience. The code emits one per affected game, in the games' insertion order.
- `Server.Sweep`: like `Server.Disconnect`, it does not state event order or multiplicity.
