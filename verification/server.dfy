/**
  The Socket.IO handlers of server.js as pure state transitions.

  The server state is the `games` registry (a JavaScript `Map` from game code
  to game record) together with the ONE question bank that every game shares.
  Each handler takes the state, the id of the socket that sent the event and
  the event's arguments, and returns the next state with the list of events
  it emits, each tagged with its audience.
 */
module Server {
  import opened Wrappers
  import opened OrderedMap
  import opened QuestionBank

  type SocketId = string
  type GameId = string

  /**
    One game record. `players` maps socket id to display name, `scores` socket
    id to points; `currentQuestion` is `null` until the host's first
    successful `requestNextQuestion`; the buzzer is a plain flag.
   */
  datatype Game = Game(
    host: SocketId,
    players: OMap<SocketId, string>,
    currentQuestion: Option<Question>,
    buzzerEnabled: bool,
    scores: OMap<SocketId, int>)

  datatype State = State(games: OMap<GameId, Game>, bank: Bank)

  /** `io.to(gameId)` reaches the game's room, `socket.emit` / `io.to(socketId)` one socket. */
  datatype Audience = Room(gameId: GameId) | ToSocket(socketId: SocketId)

  datatype Event =
    | GameCreated(gameId: GameId)
    | JoinedGame(playerName: string, playerId: SocketId)
    | PlayerJoined(playerId: SocketId, playerName: string, playerNumber: nat)
    | NewQuestion(question: Question)
    | GameOver
    | BuzzerEnabled
    | PlayerBuzzed(playerId: SocketId, playerName: string)
    | AnswerResult(playerId: SocketId, submitterName: Option<string>, isCorrect: bool,
                   scoreList: seq<(SocketId, int)>)
    | BuzzerReset
    | HostLeft
    | PlayerLeft(playerId: SocketId)

  datatype Emit = Emit(to: Audience, event: Event)

  /** The outcome of handling one inbound event. */
  datatype Step = Step(state: State, out: seq<Emit>)

  /** The process at start-up: no games, and a bank not yet loaded. */
  function Boot(): (r: State)
    ensures Valid(r.games) && forall g :: !Has(r.games, g)
    ensures GetNextQuestion(r.bank).question == None
  {
    State(Empty(), NewBank())
  }

  /** The start-up `loadQuestions` call on the shared bank. */
  function LoadBank(s: State, parsed: Option<seq<Record>>, draws: seq<int>): (r: State)
    requires parsed.Some? ==> ValidDraws(draws, |parsed.value|)
    ensures r.games == s.games
    ensures parsed.Some? ==> multiset(r.bank.questions) == multiset(parsed.value)
    ensures parsed.None? ==> r.bank == s.bank
    ensures r.bank.currentQuestionIndex == s.bank.currentQuestionIndex
  {
    s.(bank := LoadQuestions(s.bank, parsed, draws))
  }

  /** The record `games.set` stores for a new game hosted by `host`. */
  function NewGame(host: SocketId): (r: Game)
    ensures r.host == host
    ensures Valid(r.players) && Valid(r.scores)
    ensures forall p :: !Has(r.players, p) && !Has(r.scores, p)
    ensures r.currentQuestion == None && !r.buzzerEnabled
  {
    Game(host, Empty(), None, false, Empty())
  }

  /** `state` with the record under `gameId` replaced by (or set to) `game`. */
  function PutGame(s: State, gameId: GameId, game: Game): State {
    s.(games := Set(s.games, gameId, game))
  }

  /** `games.get(gameId)` is defined and `actor` is its host. */
  predicate IsHost(s: State, actor: SocketId, gameId: GameId) {
    Has(s.games, gameId) && s.games.vals[gameId].host == actor
  }

  // ---------------------------------------------------------------------
  // createGame

  /**
    `createGame`: the code (`generateGameId()`, random) is a parameter. There
    is no collision check: an existing game under the same code is replaced.
   */
  function CreateGame(s: State, actor: SocketId, gameId: GameId): (r: Step)
    ensures Get(r.state.games, gameId) == Some(NewGame(actor))
    ensures forall g :: g != gameId ==> Get(r.state.games, g) == Get(s.games, g)
    ensures Valid(s.games) ==> Valid(r.state.games)
    ensures r.state.bank == s.bank
    ensures r.out == [Emit(ToSocket(actor), GameCreated(gameId))]
  {
    Step(PutGame(s, gameId, NewGame(actor)), [Emit(ToSocket(actor), GameCreated(gameId))])
  }

  // ---------------------------------------------------------------------
  // joinGame

  /** The guard of `joinGame`: the game exists and has fewer than two players. */
  predicate CanJoin(s: State, gameId: GameId) {
    Has(s.games, gameId) && Size(s.games.vals[gameId].players) < 2
  }

  /**
    The game after `players.set(actor, playerName)` and `scores.set(actor, 0)`:
    the actor is a player under that name with score 0 (a socket already in
    the game keeps its place and has its score reset), nobody else changes.
   */
  function AddPlayer(game: Game, actor: SocketId, playerName: string): (g': Game)
    ensures Get(g'.players, actor) == Some(playerName)
    ensures Get(g'.scores, actor) == Some(0)
    ensures forall p :: p != actor ==> Get(g'.players, p) == Get(game.players, p)
    ensures forall p :: p != actor ==> Get(g'.scores, p) == Get(game.scores, p)
    ensures g' == game.(players := g'.players, scores := g'.scores)
    ensures Valid(game.players) ==> Valid(g'.players)
    ensures Valid(game.scores) ==> Valid(g'.scores)
    ensures Valid(game.players) ==>
              Size(g'.players) == if Has(game.players, actor) then Size(game.players) else Size(game.players) + 1
    ensures !Has(game.players, actor) ==> g'.players.order == game.players.order + [actor]
    ensures !Has(game.scores, actor) ==> g'.scores.order == game.scores.order + [actor]
    ensures Has(game.scores, actor) ==> g'.scores.order == game.scores.order
  {
    game.(players := Set(game.players, actor, playerName), scores := Set(game.scores, actor, 0))
  }

  /**
    `joinGame`: on a known code with room left, adds the actor as a player,
    confirms to the actor and reports the new `players.size` to the host as
    the player number. Otherwise nothing happens.
   */
  function JoinGame(s: State, actor: SocketId, gameId: GameId, playerName: string): (r: Step)
    ensures !CanJoin(s, gameId) ==> r == Step(s, [])
    ensures CanJoin(s, gameId) ==>
              var game := s.games.vals[gameId];
              var game' := AddPlayer(game, actor, playerName);
              && Get(r.state.games, gameId) == Some(game')
              && r.out == [Emit(ToSocket(actor), JoinedGame(playerName, actor)),
                           Emit(ToSocket(game.host), PlayerJoined(actor, playerName, Size(game'.players)))]
    ensures forall g :: g != gameId ==> Get(r.state.games, g) == Get(s.games, g)
    ensures Valid(s.games) ==> Valid(r.state.games)
    ensures r.state.bank == s.bank
  {
    if CanJoin(s, gameId) then
      var game := s.games.vals[gameId];
      var game' := AddPlayer(game, actor, playerName);
      Step(PutGame(s, gameId, game'),
           [Emit(ToSocket(actor), JoinedGame(playerName, actor)),
            Emit(ToSocket(game.host), PlayerJoined(actor, playerName, Size(game'.players)))])
    else
      Step(s, [])
  }

  // ---------------------------------------------------------------------
  // requestNextQuestion

  /**
    `requestNextQuestion`, host only: advances the SHARED bank. A served
    question becomes the game's current question and closes the buzzer; an
    exhausted bank only emits `gameOver` (the game record is untouched).
   */
  function RequestNextQuestion(s: State, actor: SocketId, gameId: GameId): (r: Step)
    ensures !IsHost(s, actor, gameId) ==> r == Step(s, [])
    ensures IsHost(s, actor, gameId) ==> r.state.bank == GetNextQuestion(s.bank).bank
    ensures IsHost(s, actor, gameId) && GetNextQuestion(s.bank).question.Some? ==>
              var q := GetNextQuestion(s.bank).question;
              && Get(r.state.games, gameId) == Some(s.games.vals[gameId].(currentQuestion := q, buzzerEnabled := false))
              && r.out == [Emit(Room(gameId), NewQuestion(q.value))]
    ensures IsHost(s, actor, gameId) && GetNextQuestion(s.bank).question.None? ==>
              && r.state.games == s.games
              && r.out == [Emit(Room(gameId), GameOver)]
    ensures forall g :: g != gameId ==> Get(r.state.games, g) == Get(s.games, g)
    ensures Valid(s.games) ==> Valid(r.state.games)
  {
    if IsHost(s, actor, gameId) then
      var next := GetNextQuestion(s.bank);
      var s' := s.(bank := next.bank);
      match next.question
      case Some(q) =>
        var game := s.games.vals[gameId];
        Step(PutGame(s', gameId, game.(currentQuestion := Some(q), buzzerEnabled := false)),
             [Emit(Room(gameId), NewQuestion(q))])
      case None =>
        Step(s', [Emit(Room(gameId), GameOver)])
    else
      Step(s, [])
  }

  // ---------------------------------------------------------------------
  // enableBuzzer / resetBuzzer

  /** `enableBuzzer`, host only: opens the buzzer (with or without a question). */
  function EnableBuzzer(s: State, actor: SocketId, gameId: GameId): (r: Step)
    ensures !IsHost(s, actor, gameId) ==> r == Step(s, [])
    ensures IsHost(s, actor, gameId) ==>
              && Get(r.state.games, gameId) == Some(s.games.vals[gameId].(buzzerEnabled := true))
              && r.out == [Emit(Room(gameId), BuzzerEnabled)]
    ensures forall g :: g != gameId ==> Get(r.state.games, g) == Get(s.games, g)
    ensures Valid(s.games) ==> Valid(r.state.games)
    ensures r.state.bank == s.bank
  {
    if IsHost(s, actor, gameId) then
      Step(PutGame(s, gameId, s.games.vals[gameId].(buzzerEnabled := true)),
           [Emit(Room(gameId), BuzzerEnabled)])
    else
      Step(s, [])
  }

  /** `resetBuzzer`, host only: closes the buzzer. */
  function ResetBuzzer(s: State, actor: SocketId, gameId: GameId): (r: Step)
    ensures !IsHost(s, actor, gameId) ==> r == Step(s, [])
    ensures IsHost(s, actor, gameId) ==>
              && Get(r.state.games, gameId) == Some(s.games.vals[gameId].(buzzerEnabled := false))
              && r.out == [Emit(Room(gameId), BuzzerReset)]
    ensures forall g :: g != gameId ==> Get(r.state.games, g) == Get(s.games, g)
    ensures Valid(s.games) ==> Valid(r.state.games)
    ensures r.state.bank == s.bank
  {
    if IsHost(s, actor, gameId) then
      Step(PutGame(s, gameId, s.games.vals[gameId].(buzzerEnabled := false)),
           [Emit(Room(gameId), BuzzerReset)])
    else
      Step(s, [])
  }

  // ---------------------------------------------------------------------
  // buzz

  /** The guard of `buzz`: the buzzer is open and the actor is a player. */
  predicate CanBuzz(s: State, actor: SocketId, gameId: GameId) {
    && Has(s.games, gameId)
    && s.games.vals[gameId].buzzerEnabled
    && Has(s.games.vals[gameId].players, actor)
  }

  /** `buzz`: the first player to buzz while it is open closes the buzzer. */
  function Buzz(s: State, actor: SocketId, gameId: GameId): (r: Step)
    ensures !CanBuzz(s, actor, gameId) ==> r == Step(s, [])
    ensures CanBuzz(s, actor, gameId) ==>
              var game := s.games.vals[gameId];
              && Get(r.state.games, gameId) == Some(game.(buzzerEnabled := false))
              && r.out == [Emit(Room(gameId), PlayerBuzzed(actor, game.players.vals[actor]))]
    ensures forall g :: g != gameId ==> Get(r.state.games, g) == Get(s.games, g)
    ensures Valid(s.games) ==> Valid(r.state.games)
    ensures r.state.bank == s.bank
  {
    if CanBuzz(s, actor, gameId) then
      var game := s.games.vals[gameId];
      Step(PutGame(s, gameId, game.(buzzerEnabled := false)),
           [Emit(Room(gameId), PlayerBuzzed(actor, game.players.vals[actor]))])
    else
      Step(s, [])
  }

  // ---------------------------------------------------------------------
  // submitAnswer

  /** The guard of `submitAnswer`: the game exists and has a current question. */
  predicate HasQuestion(s: State, gameId: GameId) {
    Has(s.games, gameId) && s.games.vals[gameId].currentQuestion.Some?
  }

  /**
    The score table after a verdict: a correct answer sets the submitter's
    score to its old value (0 when absent, `|| 0`) plus one, creating the
    entry if needed; a wrong one changes nothing. No other score moves.
   */
  function Scored(scores: OMap<SocketId, int>, actor: SocketId, isCorrect: bool): (r: OMap<SocketId, int>)
    ensures isCorrect ==> Get(r, actor) == Some(Get(scores, actor).GetOr(0) + 1)
    ensures !isCorrect ==> r == scores
    ensures forall p :: p != actor ==> Get(r, p) == Get(scores, p)
    ensures Valid(scores) ==> Valid(r)
    ensures isCorrect && !Has(scores, actor) ==> r.order == scores.order + [actor]
    ensures Has(scores, actor) ==> r.order == scores.order
  {
    if isCorrect then Set(scores, actor, Get(scores, actor).GetOr(0) + 1) else scores
  }

  /**
    `submitAnswer`: judged by the shared bank's cursor, not by the game's
    current question. Neither the buzz winner nor player membership is
    checked. Everyone in the room receives the verdict with the whole score
    list in insertion order.
   */
  function SubmitAnswer(s: State, actor: SocketId, gameId: GameId, answer: string): (r: Step)
    ensures !HasQuestion(s, gameId) ==> r == Step(s, [])
    ensures HasQuestion(s, gameId) ==>
              var game := s.games.vals[gameId];
              var isCorrect := CheckAnswer(s.bank, answer);
              var scores' := Scored(game.scores, actor, isCorrect);
              && Get(r.state.games, gameId) == Some(game.(scores := scores'))
              && r.out == [Emit(Room(gameId), AnswerResult(actor, Get(game.players, actor), isCorrect,
                                                             Entries(scores')))]
    ensures forall g :: g != gameId ==> Get(r.state.games, g) == Get(s.games, g)
    ensures Valid(s.games) ==> Valid(r.state.games)
    ensures r.state.bank == s.bank
  {
    if HasQuestion(s, gameId) then
      var game := s.games.vals[gameId];
      var isCorrect := CheckAnswer(s.bank, answer);
      var scores' := Scored(game.scores, actor, isCorrect);
      Step(PutGame(s, gameId, game.(scores := scores')),
           [Emit(Room(gameId), AnswerResult(actor, Get(game.players, actor), isCorrect, Entries(scores')))])
    else
      Step(s, [])
  }

  // ---------------------------------------------------------------------
  // disconnect

  /** `players.delete(id)` and `scores.delete(id)` on one game. */
  function RemovePlayer(game: Game, id: SocketId): (r: Game)
    ensures !Has(r.players, id) && !Has(r.scores, id)
    ensures forall p :: p != id ==> Get(r.players, p) == Get(game.players, p)
    ensures forall p :: p != id ==> Get(r.scores, p) == Get(game.scores, p)
    ensures r.host == game.host && r.currentQuestion == game.currentQuestion && r.buzzerEnabled == game.buzzerEnabled
    ensures Valid(game.players) ==> Valid(r.players)
    ensures Valid(game.scores) ==> Valid(r.scores)
    ensures Valid(game.players) && !Has(game.players, id) ==> r.players.order == game.players.order
    ensures Valid(game.players) && Has(game.players, id) ==>
              r.players.order == Cut(game.players.order, IndexOf(game.players.order, id))
    ensures Valid(game.scores) && !Has(game.scores, id) ==> r.scores.order == game.scores.order
    ensures Valid(game.scores) && Has(game.scores, id) ==>
              r.scores.order == Cut(game.scores.order, IndexOf(game.scores.order, id))
  {
    game.(players := Delete(game.players, id), scores := Delete(game.scores, id))
  }

  /** What the disconnect scan leaves of a game the actor does not host. */
  function Cleaned(game: Game, actor: SocketId): Game {
    if Has(game.players, actor) then RemovePlayer(game, actor) else game
  }

  /** `actor` hosts the game under `g`. */
  predicate Hosts(games: OMap<GameId, Game>, g: GameId, actor: SocketId) {
    Has(games, g) && games.vals[g].host == actor
  }

  /** `actor` is a player, not the host, of the game under `g`. */
  predicate PlaysIn(games: OMap<GameId, Game>, g: GameId, actor: SocketId) {
    Has(games, g) && games.vals[g].host != actor && Has(games.vals[g].players, actor)
  }

  /**
    One iteration of the `disconnect` scan, at the game under `g`: a hosted
    game is announced `hostLeft` and deleted; a game the actor plays in loses
    the actor's player and score entries and its host hears `playerLeft`.
   */
  function Visit(games: OMap<GameId, Game>, g: GameId, actor: SocketId)
    : (r: (OMap<GameId, Game>, seq<Emit>))
    ensures forall k :: Has(r.0, k) <==> Has(games, k) && !(k == g && games.vals[k].host == actor)
    ensures forall k :: Has(r.0, k) ==>
              Has(games, k) && r.0.vals[k] == if k == g then Cleaned(games.vals[k], actor) else games.vals[k]
    ensures Valid(games) ==> Valid(r.0)
    ensures Hosts(games, g, actor) ==> r.1 == [Emit(Room(g), HostLeft)]
    ensures PlaysIn(games, g, actor) ==> r.1 == [Emit(ToSocket(games.vals[g].host), PlayerLeft(actor))]
    ensures !Hosts(games, g, actor) && !PlaysIn(games, g, actor) ==> r.1 == []
  {
    if Hosts(games, g, actor) then
      (Delete(games, g), [Emit(Room(g), HostLeft)])
    else if PlaysIn(games, g, actor) then
      (Set(games, g, RemovePlayer(games.vals[g], actor)),
       [Emit(ToSocket(games.vals[g].host), PlayerLeft(actor))])
    else
      (games, [])
  }

  /**
    `e` is an announcement the scan over `pending` owes: `hostLeft` to the
    room of a pending game the actor hosts, or `playerLeft(actor)` to the host
    of a pending game the actor plays in.
   */
  predicate Due(games: OMap<GameId, Game>, pending: seq<GameId>, actor: SocketId, e: Emit) {
    || (e.to.Room? && e.to.gameId in pending && Hosts(games, e.to.gameId, actor) && e.event == HostLeft)
    || (e.to.ToSocket? && e.event == PlayerLeft(actor) &&
        exists g :: g in pending && PlaysIn(games, g, actor) && games.vals[g].host == e.to.socketId)
  }

  /**
    Visiting one game never creates an announcement that was not already owed:
    hosts are unchanged by the visit, and a visited game no longer counts the
    actor as a player.
   */
  lemma VisitKeepsDue(games: OMap<GameId, Game>, g: GameId, actor: SocketId, pending: seq<GameId>)
    ensures forall e :: Due(Visit(games, g, actor).0, pending, actor, e) ==> Due(games, pending, actor, e)
  {
    var after := Visit(games, g, actor).0;
    forall e | Due(after, pending, actor, e)
      ensures Due(games, pending, actor, e)
    {
      if !(e.to.Room? && e.to.gameId in pending && Hosts(after, e.to.gameId, actor) && e.event == HostLeft) {
        var h :| h in pending && PlaysIn(after, h, actor) && after.vals[h].host == e.to.socketId;
        assert h != g;
        assert PlaysIn(games, h, actor);
      }
    }
  }

  /**
    The `for (const [gameId, game] of games)` scan of `disconnect`, over the
    codes `pending` still to visit. A game is only ever changed when the scan
    reaches it, so visiting a code twice changes nothing more.
   */
  function Sweep(games: OMap<GameId, Game>, pending: seq<GameId>, actor: SocketId)
    : (r: (OMap<GameId, Game>, seq<Emit>))
    ensures forall g :: Has(r.0, g) <==> Has(games, g) && !(g in pending && games.vals[g].host == actor)
    ensures forall g :: Has(r.0, g) ==>
              Has(games, g) && r.0.vals[g] == if g in pending then Cleaned(games.vals[g], actor) else games.vals[g]
    ensures Valid(games) ==> Valid(r.0)
    ensures forall g :: g in pending && Hosts(games, g, actor) ==> Emit(Room(g), HostLeft) in r.1
    ensures forall g :: g in pending && PlaysIn(games, g, actor) ==>
              Emit(ToSocket(games.vals[g].host), PlayerLeft(actor)) in r.1
    ensures forall e :: e in r.1 ==> e.event == HostLeft || e.event == PlayerLeft(actor)
    ensures forall e :: e in r.1 ==> Due(games, pending, actor, e)
    decreases |pending|
  {
    if pending == [] then (games, [])
    else
      var step := Visit(games, pending[0], actor);
      var rest := Sweep(step.0, pending[1..], actor);
      VisitKeepsDue(games, pending[0], actor, pending[1..]);
      assert forall e :: Due(games, pending[1..], actor, e) ==> Due(games, pending, actor, e);
      (rest.0, step.1 + rest.1)
  }

  /** `disconnect`: the scan over every game, in insertion order. */
  function Disconnect(s: State, actor: SocketId): (r: Step)
    ensures Valid(s.games) ==> Valid(r.state.games)
    ensures Valid(s.games) ==>
              forall g :: Has(r.state.games, g) <==> Has(s.games, g) && s.games.vals[g].host != actor
    ensures Valid(s.games) ==>
              forall g :: Has(r.state.games, g) ==>
                Has(s.games, g) && r.state.games.vals[g] == Cleaned(s.games.vals[g], actor)
    ensures Valid(s.games) ==> forall g :: Has(r.state.games, g) ==>
              r.state.games.vals[g].host != actor && !Has(r.state.games.vals[g].players, actor)
    ensures Valid(s.games) ==> forall g :: Hosts(s.games, g, actor) ==> Emit(Room(g), HostLeft) in r.out
    ensures Valid(s.games) ==> forall g :: PlaysIn(s.games, g, actor) ==>
              Emit(ToSocket(s.games.vals[g].host), PlayerLeft(actor)) in r.out
    ensures forall e :: e in r.out ==> e.event == HostLeft || e.event == PlayerLeft(actor)
    ensures forall e :: e in r.out && e.event == HostLeft ==> e.to.Room? && Hosts(s.games, e.to.gameId, actor)
    ensures forall e :: e in r.out && e.event.PlayerLeft? ==>
              e.to.ToSocket? && exists g :: PlaysIn(s.games, g, actor) && s.games.vals[g].host == e.to.socketId
    ensures r.state.bank == s.bank
  {
    var swept := Sweep(s.games, s.games.order, actor);
    Step(s.(games := swept.0), swept.1)
  }
}
