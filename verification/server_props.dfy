/**
  Properties of the server as a whole: the invariant every handler keeps,
  runs of many events, the buzzer race, scoring, and the consequences of the
  shared question bank.
 */
module ServerProps {
  import opened Wrappers
  import opened OrderedMap
  import opened QuestionBank
  import opened Server

  /**
    A well-formed game: at most two players, every player has a score entry,
    every score is non-negative. Score keys may outnumber players, because
    `submitAnswer` scores whoever submits.
   */
  ghost predicate GameOk(game: Game) {
    && Valid(game.players)
    && Valid(game.scores)
    && Size(game.players) <= 2
    && (forall p :: Has(game.players, p) ==> Has(game.scores, p))
    && (forall p :: Has(game.scores, p) ==> game.scores.vals[p] >= 0)
  }

  ghost predicate Inv(s: State) {
    Valid(s.games) && forall g :: Has(s.games, g) ==> GameOk(s.games.vals[g])
  }

  /** One inbound event, with the socket that sent it. */
  datatype Action =
    | Load(parsed: Option<seq<Record>>, draws: seq<int>)
    | Create(actor: SocketId, gameId: GameId)
    | Join(actor: SocketId, gameId: GameId, playerName: string)
    | NextQuestion(actor: SocketId, gameId: GameId)
    | Enable(actor: SocketId, gameId: GameId)
    | BuzzIn(actor: SocketId, gameId: GameId)
    | Answer(actor: SocketId, gameId: GameId, answer: string)
    | Reset(actor: SocketId, gameId: GameId)
    | Leave(actor: SocketId)

  /** The random source behind a load only draws in range. */
  predicate Admissible(a: Action) {
    a.Load? && a.parsed.Some? ==> ValidDraws(a.draws, |a.parsed.value|)
  }

  /** Dispatch of one event to its handler. */
  function Apply(s: State, a: Action): Step
    requires Admissible(a)
  {
    match a
    case Load(parsed, draws) => Step(LoadBank(s, parsed, draws), [])
    case Create(actor, gameId) => CreateGame(s, actor, gameId)
    case Join(actor, gameId, name) => JoinGame(s, actor, gameId, name)
    case NextQuestion(actor, gameId) => RequestNextQuestion(s, actor, gameId)
    case Enable(actor, gameId) => EnableBuzzer(s, actor, gameId)
    case BuzzIn(actor, gameId) => Buzz(s, actor, gameId)
    case Answer(actor, gameId, answer) => SubmitAnswer(s, actor, gameId, answer)
    case Reset(actor, gameId) => ResetBuzzer(s, actor, gameId)
    case Leave(actor) => Disconnect(s, actor)
  }

  /** Events handled one after another, each to completion; the emissions concatenate. */
  function Run(s: State, actions: seq<Action>): Step
    requires forall i :: 0 <= i < |actions| ==> Admissible(actions[i])
    decreases |actions|
  {
    if actions == [] then Step(s, [])
    else
      var first := Apply(s, actions[0]);
      var rest := Run(first.state, actions[1..]);
      Step(rest.state, first.out + rest.out)
  }

  // ---------------------------------------------------------------------
  // The invariant

  lemma BootIsOk()
    ensures Inv(Boot())
  {
  }

  /** A step that touches only the record under `gameId` keeps the invariant if that record is good. */
  lemma PutKeepsInv(s: State, s': State, gameId: GameId)
    requires Inv(s) && Valid(s'.games)
    requires forall g :: g != gameId ==> Get(s'.games, g) == Get(s.games, g)
    requires Has(s'.games, gameId) ==> GameOk(s'.games.vals[gameId])
    ensures Inv(s')
  {
    forall g | Has(s'.games, g)
      ensures GameOk(s'.games.vals[g])
    {
      if g != gameId {
        assert Get(s'.games, g) == Get(s.games, g);
      }
    }
  }

  lemma CreatePreservesInv(s: State, actor: SocketId, gameId: GameId)
    requires Inv(s)
    ensures Inv(CreateGame(s, actor, gameId).state)
  {
    PutKeepsInv(s, CreateGame(s, actor, gameId).state, gameId);
  }

  /** Adding a player to a game with room keeps it good. */
  lemma AddPlayerKeepsGameOk(game: Game, actor: SocketId, name: string)
    requires GameOk(game) && Size(game.players) < 2
    ensures GameOk(AddPlayer(game, actor, name))
  {
    var g' := AddPlayer(game, actor, name);
    forall p | Has(g'.players, p)
      ensures Has(g'.scores, p)
    {
      if p != actor {
        assert Get(g'.players, p) == Get(game.players, p);
        assert Get(g'.scores, p) == Get(game.scores, p);
        assert Has(game.players, p) && Has(game.scores, p);
      }
    }
    forall p | Has(g'.scores, p)
      ensures g'.scores.vals[p] >= 0
    {
      if p != actor {
        assert Get(g'.scores, p) == Get(game.scores, p);
      }
    }
  }

  /** A join never takes a game past two players and gives the joiner a score. */
  lemma JoinPreservesInv(s: State, actor: SocketId, gameId: GameId, name: string)
    requires Inv(s)
    ensures Inv(JoinGame(s, actor, gameId, name).state)
  {
    if CanJoin(s, gameId) {
      AddPlayerKeepsGameOk(s.games.vals[gameId], actor, name);
    }
    PutKeepsInv(s, JoinGame(s, actor, gameId, name).state, gameId);
  }

  lemma NextQuestionPreservesInv(s: State, actor: SocketId, gameId: GameId)
    requires Inv(s)
    ensures Inv(RequestNextQuestion(s, actor, gameId).state)
  {
    if IsHost(s, actor, gameId) {
      assert GameOk(s.games.vals[gameId]);
      PutKeepsInv(s, RequestNextQuestion(s, actor, gameId).state, gameId);
    }
  }

  lemma EnablePreservesInv(s: State, actor: SocketId, gameId: GameId)
    requires Inv(s)
    ensures Inv(EnableBuzzer(s, actor, gameId).state)
  {
    if IsHost(s, actor, gameId) {
      assert GameOk(s.games.vals[gameId]);
      PutKeepsInv(s, EnableBuzzer(s, actor, gameId).state, gameId);
    }
  }

  lemma ResetPreservesInv(s: State, actor: SocketId, gameId: GameId)
    requires Inv(s)
    ensures Inv(ResetBuzzer(s, actor, gameId).state)
  {
    if IsHost(s, actor, gameId) {
      assert GameOk(s.games.vals[gameId]);
      PutKeepsInv(s, ResetBuzzer(s, actor, gameId).state, gameId);
    }
  }

  lemma BuzzPreservesInv(s: State, actor: SocketId, gameId: GameId)
    requires Inv(s)
    ensures Inv(Buzz(s, actor, gameId).state)
  {
    if CanBuzz(s, actor, gameId) {
      assert GameOk(s.games.vals[gameId]);
      PutKeepsInv(s, Buzz(s, actor, gameId).state, gameId);
    }
  }

  /** A verdict keeps a good game good: scores only grow, from 0 at worst. */
  lemma ScoredKeepsGameOk(game: Game, actor: SocketId, isCorrect: bool)
    requires GameOk(game)
    ensures GameOk(game.(scores := Scored(game.scores, actor, isCorrect)))
  {
    var sc := Scored(game.scores, actor, isCorrect);
    forall p | Has(sc, p)
      ensures sc.vals[p] >= 0
    {
      if p != actor {
        assert Get(sc, p) == Get(game.scores, p);
      }
    }
    forall p | Has(game.players, p)
      ensures Has(sc, p)
    {
      if p != actor {
        assert Get(sc, p) == Get(game.scores, p);
      }
    }
  }

  /** Scoring only ever adds one to a non-negative score (or creates a score of 1). */
  lemma AnswerPreservesInv(s: State, actor: SocketId, gameId: GameId, answer: string)
    requires Inv(s)
    ensures Inv(SubmitAnswer(s, actor, gameId, answer).state)
  {
    if HasQuestion(s, gameId) {
      ScoredKeepsGameOk(s.games.vals[gameId], actor, CheckAnswer(s.bank, answer));
    }
    PutKeepsInv(s, SubmitAnswer(s, actor, gameId, answer).state, gameId);
  }

  /** Dropping a player drops its score with it. */
  lemma CleanedKeepsGameOk(game: Game, actor: SocketId)
    requires GameOk(game)
    ensures GameOk(Cleaned(game, actor))
  {
    var c := Cleaned(game, actor);
    forall p | Has(c.players, p)
      ensures Has(c.scores, p)
    {
      if Has(game.players, actor) {
        assert p != actor;
        assert Get(c.players, p) == Get(game.players, p);
        assert Has(game.players, p);
        assert Has(game.scores, p);
        assert Get(c.scores, p) == Get(game.scores, p);
      } else {
        assert c == game;
      }
    }
  }

  /** Removing a player removes its score with it, so nothing is left dangling. */
  lemma LeavePreservesInv(s: State, actor: SocketId)
    requires Inv(s)
    ensures Inv(Disconnect(s, actor).state)
  {
    var s' := Disconnect(s, actor).state;
    forall g | Has(s'.games, g)
      ensures GameOk(s'.games.vals[g])
    {
      assert s'.games.vals[g] == Cleaned(s.games.vals[g], actor);
      CleanedKeepsGameOk(s.games.vals[g], actor);
    }
  }

  /** Every handler keeps the invariant. */
  lemma ApplyPreservesInv(s: State, a: Action)
    requires Inv(s) && Admissible(a)
    ensures Inv(Apply(s, a).state)
  {
    match a
    case Load(parsed, draws) =>
    case Create(actor, gameId) => CreatePreservesInv(s, actor, gameId);
    case Join(actor, gameId, name) => JoinPreservesInv(s, actor, gameId, name);
    case NextQuestion(actor, gameId) => NextQuestionPreservesInv(s, actor, gameId);
    case Enable(actor, gameId) => EnablePreservesInv(s, actor, gameId);
    case BuzzIn(actor, gameId) => BuzzPreservesInv(s, actor, gameId);
    case Answer(actor, gameId, answer) => AnswerPreservesInv(s, actor, gameId, answer);
    case Reset(actor, gameId) => ResetPreservesInv(s, actor, gameId);
    case Leave(actor) => LeavePreservesInv(s, actor);
  }

  /** Any run of events from a good state ends in a good state. */
  lemma {:induction false} RunPreservesInv(s: State, actions: seq<Action>)
    requires Inv(s)
    requires forall i :: 0 <= i < |actions| ==> Admissible(actions[i])
    ensures Inv(Run(s, actions).state)
    decreases |actions|
  {
    if actions != [] {
      ApplyPreservesInv(s, actions[0]);
      RunPreservesInv(Apply(s, actions[0]).state, actions[1..]);
    }
  }

  /**
    Whatever the events since start-up, no game ever has more than two
    players, and every player has a non-negative score.
   */
  lemma AtMostTwoPlayers(actions: seq<Action>, g: GameId, p: SocketId)
    requires forall i :: 0 <= i < |actions| ==> Admissible(actions[i])
    requires Has(Run(Boot(), actions).state.games, g)
    ensures Size(Run(Boot(), actions).state.games.vals[g].players) <= 2
    ensures Has(Run(Boot(), actions).state.games.vals[g].players, p) ==>
              && Has(Run(Boot(), actions).state.games.vals[g].scores, p)
              && Run(Boot(), actions).state.games.vals[g].scores.vals[p] >= 0
  {
    BootIsOk();
    RunPreservesInv(Boot(), actions);
  }

  // ---------------------------------------------------------------------
  // The buzzer race

  /** How many `playerBuzzed` events went to the room of `gameId`. */
  function BuzzCount(out: seq<Emit>, gameId: GameId): nat
    decreases |out|
  {
    if out == [] then 0
    else (if out[0].to == Room(gameId) && out[0].event.PlayerBuzzed? then 1 else 0)
         + BuzzCount(out[1..], gameId)
  }

  lemma {:induction false} BuzzCountAppend(a: seq<Emit>, b: seq<Emit>, gameId: GameId)
    ensures BuzzCount(a + b, gameId) == BuzzCount(a, gameId) + BuzzCount(b, gameId)
    decreases |a|
  {
    if a != [] {
      assert (a + b)[1..] == a[1..] + b;
      BuzzCountAppend(a[1..], b, gameId);
    } else {
      assert a + b == b;
    }
  }

  lemma {:induction false} NoBuzzEvents(out: seq<Emit>, gameId: GameId)
    requires forall e :: e in out ==> !e.event.PlayerBuzzed?
    ensures BuzzCount(out, gameId) == 0
    decreases |out|
  {
    if out != [] {
      assert out[0] in out;
      NoBuzzEvents(out[1..], gameId);
    }
  }

  /** 1 when the game under `gameId` exists with its buzzer open, else 0. */
  function Open(s: State, gameId: GameId): nat {
    if Has(s.games, gameId) && s.games.vals[gameId].buzzerEnabled then 1 else 0
  }

  /**
    Any event other than an `enableBuzzer` for `gameId` can announce a buzz
    in that room only by using up the open buzzer.
   */
  lemma StepBuzzBound(s: State, a: Action, gameId: GameId)
    requires Inv(s) && Admissible(a)
    requires !(a.Enable? && a.gameId == gameId)
    ensures BuzzCount(Apply(s, a).out, gameId) + Open(Apply(s, a).state, gameId) <= Open(s, gameId)
  {
    match a
    case Load(parsed, draws) =>
    case Create(actor, g) => CreateBuzzBound(s, actor, g, gameId);
    case Join(actor, g, name) => JoinBuzzBound(s, actor, g, name, gameId);
    case NextQuestion(actor, g) => NextQuestionBuzzBound(s, actor, g, gameId);
    case Enable(actor, g) => EnableBuzzBound(s, actor, g, gameId);
    case BuzzIn(actor, g) => BuzzBuzzBound(s, actor, g, gameId);
    case Answer(actor, g, answer) => AnswerBuzzBound(s, actor, g, answer, gameId);
    case Reset(actor, g) => ResetBuzzBound(s, actor, g, gameId);
    case Leave(actor) => LeaveBuzzBound(s, actor, gameId);
  }

  lemma CreateBuzzBound(s: State, actor: SocketId, g: GameId, gameId: GameId)
    ensures var r := CreateGame(s, actor, g);
            BuzzCount(r.out, gameId) + Open(r.state, gameId) <= Open(s, gameId)
  {
    var r := CreateGame(s, actor, g);
    NoBuzzEvents(r.out, gameId);
    if g != gameId {
      assert Get(r.state.games, gameId) == Get(s.games, gameId);
    }
  }

  lemma JoinBuzzBound(s: State, actor: SocketId, g: GameId, name: string, gameId: GameId)
    ensures var r := JoinGame(s, actor, g, name);
            BuzzCount(r.out, gameId) + Open(r.state, gameId) <= Open(s, gameId)
  {
    var r := JoinGame(s, actor, g, name);
    NoBuzzEvents(r.out, gameId);
    if g != gameId {
      assert Get(r.state.games, gameId) == Get(s.games, gameId);
    }
  }

  lemma NextQuestionBuzzBound(s: State, actor: SocketId, g: GameId, gameId: GameId)
    ensures var r := RequestNextQuestion(s, actor, g);
            BuzzCount(r.out, gameId) + Open(r.state, gameId) <= Open(s, gameId)
  {
    var r := RequestNextQuestion(s, actor, g);
    NoBuzzEvents(r.out, gameId);
    if g != gameId {
      assert Get(r.state.games, gameId) == Get(s.games, gameId);
    }
  }

  /** Opening the buzzer of another game does not concern this one. */
  lemma EnableBuzzBound(s: State, actor: SocketId, g: GameId, gameId: GameId)
    requires g != gameId
    ensures var r := EnableBuzzer(s, actor, g);
            BuzzCount(r.out, gameId) + Open(r.state, gameId) <= Open(s, gameId)
  {
    var r := EnableBuzzer(s, actor, g);
    NoBuzzEvents(r.out, gameId);
    assert Get(r.state.games, gameId) == Get(s.games, gameId);
  }

  lemma AnswerBuzzBound(s: State, actor: SocketId, g: GameId, answer: string, gameId: GameId)
    ensures var r := SubmitAnswer(s, actor, g, answer);
            BuzzCount(r.out, gameId) + Open(r.state, gameId) <= Open(s, gameId)
  {
    var r := SubmitAnswer(s, actor, g, answer);
    NoBuzzEvents(r.out, gameId);
    if g != gameId {
      assert Get(r.state.games, gameId) == Get(s.games, gameId);
    }
  }

  lemma ResetBuzzBound(s: State, actor: SocketId, g: GameId, gameId: GameId)
    ensures var r := ResetBuzzer(s, actor, g);
            BuzzCount(r.out, gameId) + Open(r.state, gameId) <= Open(s, gameId)
  {
    var r := ResetBuzzer(s, actor, g);
    NoBuzzEvents(r.out, gameId);
    if g != gameId {
      assert Get(r.state.games, gameId) == Get(s.games, gameId);
    }
  }

  lemma LeaveBuzzBound(s: State, actor: SocketId, gameId: GameId)
    requires Inv(s)
    ensures var r := Disconnect(s, actor);
            BuzzCount(r.out, gameId) + Open(r.state, gameId) <= Open(s, gameId)
  {
    var r := Disconnect(s, actor);
    NoBuzzEvents(r.out, gameId);
    if Has(r.state.games, gameId) {
      assert r.state.games.vals[gameId] == Cleaned(s.games.vals[gameId], actor);
    }
  }

  lemma BuzzBuzzBound(s: State, actor: SocketId, g: GameId, gameId: GameId)
    ensures var r := Buzz(s, actor, g);
            BuzzCount(r.out, gameId) + Open(r.state, gameId) <= Open(s, gameId)
  {
    if g != gameId {
      assert Get(Buzz(s, actor, g).state.games, gameId) == Get(s.games, gameId);
    }
  }

  /**
    Between two `enableBuzzer`s of a game, at most one `playerBuzzed` reaches
    its room: with the buzzer open, one; with it closed, none.
   */
  lemma {:induction false} AtMostOneBuzzPerEnable(s: State, actions: seq<Action>, gameId: GameId)
    requires Inv(s)
    requires forall i :: 0 <= i < |actions| ==> Admissible(actions[i])
    requires forall i :: 0 <= i < |actions| ==> !(actions[i].Enable? && actions[i].gameId == gameId)
    ensures BuzzCount(Run(s, actions).out, gameId) + Open(Run(s, actions).state, gameId) <= Open(s, gameId)
    ensures BuzzCount(Run(s, actions).out, gameId) <= 1
    decreases |actions|
  {
    if actions != [] {
      var first := Apply(s, actions[0]);
      StepBuzzBound(s, actions[0], gameId);
      ApplyPreservesInv(s, actions[0]);
      AtMostOneBuzzPerEnable(first.state, actions[1..], gameId);
      BuzzCountAppend(first.out, Run(first.state, actions[1..]).out, gameId);
    }
  }

  /** Right after a successful buzz, any further buzz in that game does nothing. */
  lemma SecondBuzzIsNoOp(s: State, winner: SocketId, other: SocketId, gameId: GameId)
    requires CanBuzz(s, winner, gameId)
    ensures var after := Buzz(s, winner, gameId).state;
            Buzz(after, other, gameId) == Step(after, [])
  {
  }

  // ---------------------------------------------------------------------
  // Scoring

  /**
    For a player of the game, an answer moves that player's score by exactly
    one when the bank judges it correct and not at all otherwise; nobody
    else's score moves, and the result lists every score.
   */
  lemma AnswerScoresExactlyOne(s: State, actor: SocketId, gameId: GameId, answer: string)
    requires Inv(s) && HasQuestion(s, gameId)
    requires Has(s.games.vals[gameId].players, actor)
    ensures var game := s.games.vals[gameId];
            var game' := SubmitAnswer(s, actor, gameId, answer).state.games.vals[gameId];
            && game'.scores.vals[actor] == game.scores.vals[actor] + (if CheckAnswer(s.bank, answer) then 1 else 0)
            && (forall p :: p != actor ==> Get(game'.scores, p) == Get(game.scores, p))
            && game'.scores.vals.Keys == game.scores.vals.Keys
  {
    var game := s.games.vals[gameId];
    assert GameOk(game);
    assert actor in game.scores.vals;
    AnswerListsScored(s, actor, gameId, answer);
  }

  /**
    The `answerResult` event lists the game's whole score table after the
    verdict, one pair per socket with a score, in insertion order.
   */
  lemma AnswerResultListsAllScores(s: State, actor: SocketId, gameId: GameId, answer: string)
    requires Inv(s) && HasQuestion(s, gameId)
    ensures var r := SubmitAnswer(s, actor, gameId, answer);
            var scores' := r.state.games.vals[gameId].scores;
            var list := r.out[0].event.scoreList;
            && |r.out| == 1 && r.out[0].to == Room(gameId)
            && |list| == Size(scores')
            && (forall p :: Has(scores', p) <==> exists i :: 0 <= i < |list| && list[i].0 == p)
            && (forall e :: e in list ==> Get(scores', e.0) == Some(e.1))
  {
    var game := s.games.vals[gameId];
    assert GameOk(game);
    var scores' := Scored(game.scores, actor, CheckAnswer(s.bank, answer));
    AnswerListsScored(s, actor, gameId, answer);
    EntriesListsMap(scores');
  }

  /** The shape of the `answerResult` emission, with the scores it lists. */
  lemma AnswerListsScored(s: State, actor: SocketId, gameId: GameId, answer: string)
    requires Valid(s.games) && HasQuestion(s, gameId) && Valid(s.games.vals[gameId].scores)
    ensures var r := SubmitAnswer(s, actor, gameId, answer);
            var scores' := Scored(s.games.vals[gameId].scores, actor, CheckAnswer(s.bank, answer));
            && Valid(scores')
            && Has(r.state.games, gameId)
            && r.state.games.vals[gameId].scores == scores'
            && |r.out| == 1 && r.out[0].to == Room(gameId)
            && r.out[0].event.AnswerResult?
            && r.out[0].event.scoreList == Entries(scores')
  {
  }

  /**
    The verdict uses the shared cursor: once the bank is past its last
    question, no answer in any game scores, whatever the game still shows.
   */
  lemma ExhaustedBankNeverScores(s: State, actor: SocketId, gameId: GameId, answer: string)
    requires s.bank.currentQuestionIndex >= |s.bank.questions|
    ensures SubmitAnswer(s, actor, gameId, answer).state == s
    ensures forall e :: e in SubmitAnswer(s, actor, gameId, answer).out ==>
              e.event.AnswerResult? && !e.event.isCorrect
  {
    if HasQuestion(s, gameId) {
      assert !CheckAnswer(s.bank, answer);
      assert s.games.vals[gameId].(scores := s.games.vals[gameId].scores) == s.games.vals[gameId];
    }
  }

  /**
    Anyone in a game with a question can score, player or not (the host
    included). Such a score entry has no player behind it, and that socket's
    later disconnect does not remove it.
   */
  lemma NonPlayerScoreOutlivesDisconnect(s: State, actor: SocketId, gameId: GameId, answer: string)
    requires Valid(s.games) && HasQuestion(s, gameId)
    requires s.games.vals[gameId].host != actor
    requires !Has(s.games.vals[gameId].players, actor)
    requires CheckAnswer(s.bank, answer)
    ensures var s1 := SubmitAnswer(s, actor, gameId, answer).state;
            var s2 := Disconnect(s1, actor).state;
            && Has(s2.games, gameId)
            && Get(s2.games.vals[gameId].scores, actor).Some?
            && !Has(s2.games.vals[gameId].players, actor)
  {
    var s1 := SubmitAnswer(s, actor, gameId, answer).state;
    var s2 := Disconnect(s1, actor).state;
    assert s1.games.vals[gameId].host != actor;
    assert !Has(s1.games.vals[gameId].players, actor);
    assert s2.games.vals[gameId] == Cleaned(s1.games.vals[gameId], actor);
  }

  // ---------------------------------------------------------------------
  // The shared bank and the end of the questions

  /**
    All games draw from one cursor: when the hosts of two games each ask for
    the next question, the second game gets the record AFTER the first
    game's, not the first record.
   */
  lemma SharedBankCouplesGames(s: State, h1: SocketId, g1: GameId, h2: SocketId, g2: GameId)
    requires IsHost(s, h1, g1) && IsHost(s, h2, g2) && g1 != g2
    requires s.bank.currentQuestionIndex + 2 < |s.bank.questions|
    ensures var s1 := RequestNextQuestion(s, h1, g1).state;
            var r2 := RequestNextQuestion(s1, h2, g2);
            && s1.games.vals[g1].currentQuestion == Some(Project(s.bank.questions[s.bank.currentQuestionIndex + 1]))
            && r2.state.games.vals[g2].currentQuestion == Some(Project(s.bank.questions[s.bank.currentQuestionIndex + 2]))
            && r2.state.bank.currentQuestionIndex == s.bank.currentQuestionIndex + 2
  {
    var s1 := RequestNextQuestion(s, h1, g1).state;
    assert Get(s1.games, g2) == Get(s.games, g2);
    assert IsHost(s1, h2, g2);
  }

  /**
    Running out of questions is not a terminal state: `gameOver` leaves the
    game as it was, the host can ask again (and hears `gameOver` again), and
    the buzzer can still be opened.
   */
  lemma GameOverIsNotTerminal(s: State, host: SocketId, gameId: GameId)
    requires IsHost(s, host, gameId)
    requires GetNextQuestion(s.bank).question.None?
    ensures var r1 := RequestNextQuestion(s, host, gameId);
            var r2 := RequestNextQuestion(r1.state, host, gameId);
            && r1.out == [Emit(Room(gameId), GameOver)]
            && r1.state.games == s.games
            && r2.out == [Emit(Room(gameId), GameOver)]
            && EnableBuzzer(r2.state, host, gameId).out == [Emit(Room(gameId), BuzzerEnabled)]
  {
    var r1 := RequestNextQuestion(s, host, gameId);
    assert IsHost(r1.state, host, gameId);
    assert GetNextQuestion(r1.state.bank).question.None?;
  }

  // ---------------------------------------------------------------------
  // Player numbers

  /** A newcomer joining a game with room is announced as number `size + 1`. */
  lemma JoinAnnouncesNextNumber(s: State, actor: SocketId, gameId: GameId, name: string)
    requires Inv(s) && CanJoin(s, gameId)
    requires !Has(s.games.vals[gameId].players, actor)
    ensures var r := JoinGame(s, actor, gameId, name);
            && Inv(r.state)
            && Has(r.state.games, gameId)
            && r.state.games.vals[gameId].host == s.games.vals[gameId].host
            && Size(r.state.games.vals[gameId].players) == Size(s.games.vals[gameId].players) + 1
            && r.out[1] == Emit(ToSocket(s.games.vals[gameId].host),
                                PlayerJoined(actor, name, Size(s.games.vals[gameId].players) + 1))
  {
    assert GameOk(s.games.vals[gameId]);
    JoinShape(s, actor, gameId, name);
    JoinPreservesInv(s, actor, gameId, name);
  }

  /** A newcomer's join, as seen from the game it joins. */
  lemma JoinShape(s: State, actor: SocketId, gameId: GameId, name: string)
    requires CanJoin(s, gameId) && Valid(s.games.vals[gameId].players)
    requires !Has(s.games.vals[gameId].players, actor)
    ensures var r := JoinGame(s, actor, gameId, name);
            && Has(r.state.games, gameId)
            && r.state.games.vals[gameId].host == s.games.vals[gameId].host
            && Size(r.state.games.vals[gameId].players) == Size(s.games.vals[gameId].players) + 1
            && r.out[1] == Emit(ToSocket(s.games.vals[gameId].host),
                                PlayerJoined(actor, name, Size(s.games.vals[gameId].players) + 1))
  {
  }

  /** A leaving player frees one place in a game it does not host. */
  lemma LeaveFreesPlace(s: State, actor: SocketId, gameId: GameId)
    requires Inv(s) && PlaysIn(s.games, gameId, actor)
    ensures var s' := Disconnect(s, actor).state;
            && Inv(s')
            && Has(s'.games, gameId)
            && s'.games.vals[gameId].host == s.games.vals[gameId].host
            && Size(s'.games.vals[gameId].players) == Size(s.games.vals[gameId].players) - 1
            && (forall p :: p != actor ==> Get(s'.games.vals[gameId].players, p) == Get(s.games.vals[gameId].players, p))
  {
    assert GameOk(s.games.vals[gameId]);
    LeavePreservesInv(s, actor);
    assert Disconnect(s, actor).state.games.vals[gameId] == Cleaned(s.games.vals[gameId], actor);
  }

  /**
    Player numbers are `players.size` at the time of joining, so they are
    reused: when a player leaves a full game, the next newcomer is announced
    as number 2 again, although number 2 was already given out when the
    game filled up.
   */
  lemma PlayerNumberReused(s: State, host: SocketId, gameId: GameId, a: SocketId, c: SocketId, nc: string)
    requires Inv(s) && IsHost(s, host, gameId)
    requires Size(s.games.vals[gameId].players) == 2
    requires PlaysIn(s.games, gameId, a)
    requires c != a && !Has(s.games.vals[gameId].players, c)
    ensures var s' := Disconnect(s, a).state;
            JoinGame(s', c, gameId, nc).out[1] == Emit(ToSocket(host), PlayerJoined(c, nc, 2))
  {
    LeaveFreesPlace(s, a, gameId);
    var s' := Disconnect(s, a).state;
    assert Get(s'.games.vals[gameId].players, c) == Get(s.games.vals[gameId].players, c);
    JoinAnnouncesNextNumber(s', c, gameId, nc);
  }
}
