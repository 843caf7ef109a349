/**
 * The classic study session (src/machines/classicModeMachine.ts): a
 * statechart over six states whose context tracks the position in the deck,
 * the remaining lives, the score and the answer counters. Each event is
 * handled by a pure step function; the xstate interpreter's semantics
 * (guards tried in order, transition actions before entry actions, events
 * without a handler ignored) are written out in Step.
 */
module ClassicModeMachine {
  import opened Types

  datatype State = Question | FeedbackCorrect | FeedbackIncorrect | Completed | GameOver | SessionOver
  {
    /** The three states that only RESTART leaves. */
    predicate IsTerminal() {
      this == Completed || this == GameOver || this == SessionOver
    }
  }

  datatype GameStatus = Playing | StatusGameOver | StatusCompleted | StatusSessionOver

  /** StudyContext. */
  datatype Context = Context(
    cards: seq<Card>,
    currentIndex: int,
    lives: int,
    score: int,
    correctAnswers: int,
    incorrectAnswers: int,
    gameStatus: GameStatus)

  datatype Event = SubmitAnswer(isCorrect: bool, isPerfect: bool) | NextCard | Restart | Quit

  datatype Machine = Machine(state: State, ctx: Context)

  const MaxLives: int := 5

  /** The context a fresh session (and every RESTART) starts from. */
  function FreshContext(cards: seq<Card>): Context {
    Context(cards, 0, MaxLives, 0, 0, 0, Playing)
  }

  // ---------------------------------------------------------------------
  // Actions and guards
  // ---------------------------------------------------------------------

  /** handleCorrectAnswer: 10 points for a perfect answer, 5 otherwise. */
  function HandleCorrectAnswer(c: Context, isPerfect: bool): (r: Context)
    ensures r.score - c.score == (if isPerfect then 10 else 5)
    ensures r.correctAnswers == c.correctAnswers + 1
    ensures r == c.(score := r.score, correctAnswers := r.correctAnswers)
  {
    c.(score := c.score + (if isPerfect then 10 else 5), correctAnswers := c.correctAnswers + 1)
  }

  /** handleIncorrectAnswer: one life lost, never going below zero. */
  function HandleIncorrectAnswer(c: Context): (r: Context)
    ensures r.lives >= 0
    ensures c.lives >= 1 ==> r.lives == c.lives - 1
    ensures c.lives <= 0 ==> r.lives == 0
    ensures r.incorrectAnswers == c.incorrectAnswers + 1
    ensures r == c.(lives := r.lives, incorrectAnswers := r.incorrectAnswers)
  {
    c.(lives := if c.lives - 1 >= 0 then c.lives - 1 else 0, incorrectAnswers := c.incorrectAnswers + 1)
  }

  function IncrementIndex(c: Context): Context {
    c.(currentIndex := c.currentIndex + 1)
  }

  /** resetGame: everything but the cards back to the fresh session. */
  function ResetGame(c: Context): (r: Context)
    ensures r == FreshContext(c.cards)
  {
    c.(currentIndex := 0, lives := MaxLives, score := 0, correctAnswers := 0, incorrectAnswers := 0, gameStatus := Playing)
  }

  /** hasMoreCards: the current card is not the last one. */
  predicate HasMoreCards(c: Context) {
    c.currentIndex < |c.cards| - 1
  }

  /** The status the entry action of each state records (non-terminal states have none). */
  function StatusOf(s: State): GameStatus {
    match s
    case Completed => StatusCompleted
    case GameOver => StatusGameOver
    case SessionOver => StatusSessionOver
    case _ => Playing
  }

  /** Enter a state: run its entry action, if any, on the context. */
  function Enter(target: State, c: Context): (m: Machine)
    ensures m.state == target
    ensures target.IsTerminal() ==> m.ctx.gameStatus == StatusOf(target)
    ensures m.ctx == c.(gameStatus := m.ctx.gameStatus)
  {
    if target.IsTerminal() then Machine(target, c.(gameStatus := StatusOf(target))) else Machine(target, c)
  }

  // ---------------------------------------------------------------------
  // The transition table
  // ---------------------------------------------------------------------

  /** One event delivered to the machine. */
  function Step(m: Machine, e: Event): (r: Machine)
    ensures r.ctx.cards == m.ctx.cards
    ensures m.state.IsTerminal() && !e.Restart? ==> r == m
    ensures !m.state.IsTerminal() && e.Restart? ==> r == m
    ensures m.state.IsTerminal() && e.Restart? ==> r == Machine(Question, FreshContext(m.ctx.cards))
  {
    var c := m.ctx;
    match m.state
    case Question =>
      (match e
       case SubmitAnswer(isCorrect, isPerfect) =>
         if isCorrect then Enter(FeedbackCorrect, HandleCorrectAnswer(c, isPerfect))
         else if c.lives <= 1 then Enter(GameOver, HandleIncorrectAnswer(c))
         else Enter(FeedbackIncorrect, HandleIncorrectAnswer(c))
       case Quit => Enter(SessionOver, c)
       case _ => m)
    case FeedbackCorrect =>
      (match e
       case NextCard =>
         if HasMoreCards(c) then Enter(Question, IncrementIndex(c))
         else Enter(Completed, c)
       case Quit => Enter(SessionOver, c)
       case _ => m)
    case FeedbackIncorrect =>
      (match e
       case NextCard =>
         if c.lives > 0 && c.currentIndex < |c.cards| - 1 then Enter(Question, IncrementIndex(c))
         else if c.lives > 0 then Enter(Completed, c)
         else Enter(GameOver, c)
       case Quit => Enter(SessionOver, c)
       case _ => m)
    case _ =>
      (match e
       case Restart => Enter(Question, ResetGame(c))
       case _ => m)
  }

  /** The machine as a session starts it: the first card, full lives, nothing scored. */
  function Init(cards: seq<Card>): (m: Machine)
    ensures m.ctx.cards == cards
    ensures Inv(m)
  {
    Machine(Question, FreshContext(cards))
  }

  /** The events delivered in order. */
  function Run(m: Machine, events: seq<Event>): Machine
    decreases |events|
  {
    if events == [] then m else Run(Step(m, events[0]), events[1..])
  }

  // ---------------------------------------------------------------------
  // The run invariant
  // ---------------------------------------------------------------------

  /**
   * What holds in every machine reachable from Init:
   * lives stay in 0..5 and reach 0 exactly in game_over; the index stays
   * on a card of the deck (on 0 for an empty deck); each answered card is
   * counted once, so the counters sum to the index in question and to the
   * index plus one once the current card is answered; the score lies
   * between 5 and 10 points per correct answer; and the recorded status
   * is the one the current state's entry action wrote.
   */
  predicate Inv(m: Machine) {
    var c := m.ctx;
    && 0 <= c.lives <= MaxLives
    && (c.lives == 0 <==> m.state == GameOver)
    && 0 <= c.currentIndex
    && (c.currentIndex == 0 || c.currentIndex <= |c.cards| - 1)
    && c.correctAnswers >= 0 && c.incorrectAnswers >= 0
    && 5 * c.correctAnswers <= c.score <= 10 * c.correctAnswers
    && (m.state == Question ==> c.correctAnswers + c.incorrectAnswers == c.currentIndex)
    && (m.state == FeedbackCorrect || m.state == FeedbackIncorrect ==>
          c.correctAnswers + c.incorrectAnswers == c.currentIndex + 1)
    && (m.state.IsTerminal() ==>
          c.currentIndex <= c.correctAnswers + c.incorrectAnswers <= c.currentIndex + 1)
    && c.gameStatus == StatusOf(m.state)
  }

  /** Every single event keeps the invariant. */
  lemma StepKeepsInv(m: Machine, e: Event)
    requires Inv(m)
    ensures Inv(Step(m, e))
  {
    match m.state
    case Question =>
    case FeedbackCorrect =>
    case FeedbackIncorrect =>
    case _ =>
  }

  /** Every run from an invariant state keeps the invariant. */
  lemma {:induction false} RunKeepsInv(m: Machine, events: seq<Event>)
    requires Inv(m)
    ensures Inv(Run(m, events))
    ensures Run(m, events).ctx.cards == m.ctx.cards
    decreases |events|
  {
    if events != [] {
      StepKeepsInv(m, events[0]);
      RunKeepsInv(Step(m, events[0]), events[1..]);
    }
  }

  /** The invariant, and with it the run bounds, holds after any events from a fresh session. */
  lemma ReachableInv(cards: seq<Card>, events: seq<Event>)
    ensures Inv(Run(Init(cards), events))
    ensures var c := Run(Init(cards), events).ctx;
      0 <= c.lives <= 5 && c.score >= 0 && (|cards| > 0 ==> c.currentIndex <= |cards| - 1)
  {
    RunKeepsInv(Init(cards), events);
  }

  // ---------------------------------------------------------------------
  // Transitions, stated against the invariant
  // ---------------------------------------------------------------------

  /**
   * SUBMIT_ANSWER in question: a correct answer scores and moves to
   * feedback_correct; a wrong one costs a life and ends the game exactly
   * when it was the last life. Index and cards never move.
   */
  lemma SubmitOutcome(m: Machine, isCorrect: bool, isPerfect: bool)
    requires Inv(m) && m.state == Question
    ensures var r := Step(m, SubmitAnswer(isCorrect, isPerfect));
      && r.ctx.currentIndex == m.ctx.currentIndex
      && (isCorrect ==>
            && r.state == FeedbackCorrect
            && r.ctx.score == m.ctx.score + (if isPerfect then 10 else 5)
            && r.ctx.correctAnswers == m.ctx.correctAnswers + 1
            && r.ctx.incorrectAnswers == m.ctx.incorrectAnswers
            && r.ctx.lives == m.ctx.lives)
      && (!isCorrect ==>
            && r.ctx.lives == m.ctx.lives - 1
            && r.ctx.incorrectAnswers == m.ctx.incorrectAnswers + 1
            && r.ctx.correctAnswers == m.ctx.correctAnswers
            && r.ctx.score == m.ctx.score
            && (r.state == GameOver <==> m.ctx.lives == 1)
            && (r.state != GameOver ==> r.state == FeedbackIncorrect)
            && (r.state == GameOver ==> r.ctx.gameStatus == StatusGameOver))
  {
  }

  /**
   * NEXT_CARD after feedback: on to the next card while there is one,
   * otherwise the session is completed with the index left on the last card.
   * The game_over branch after a wrong answer can never be taken, because a
   * machine in feedback_incorrect always has a life left.
   */
  lemma NextCardOutcome(m: Machine)
    requires Inv(m) && (m.state == FeedbackCorrect || m.state == FeedbackIncorrect)
    ensures m.ctx.lives >= 1
    ensures var r := Step(m, NextCard);
      && (HasMoreCards(m.ctx) ==> r == Machine(Question, m.ctx.(currentIndex := m.ctx.currentIndex + 1)))
      && (!HasMoreCards(m.ctx) ==> r == Machine(Completed, m.ctx.(gameStatus := StatusCompleted)))
      && r.state != GameOver
  {
  }

  /** In every reachable feedback_incorrect machine NEXT_CARD never ends the game. */
  lemma FeedbackIncorrectNeverGameOver(cards: seq<Card>, events: seq<Event>)
    requires Run(Init(cards), events).state == FeedbackIncorrect
    ensures Run(Init(cards), events).ctx.lives >= 1
    ensures Step(Run(Init(cards), events), NextCard).state != GameOver
  {
    ReachableInv(cards, events);
    NextCardOutcome(Run(Init(cards), events));
  }

  /** QUIT from a playing state keeps every counter and only records the status. */
  lemma QuitOutcome(m: Machine)
    requires !m.state.IsTerminal()
    ensures Step(m, Quit) == Machine(SessionOver, m.ctx.(gameStatus := StatusSessionOver))
  {
  }

  /** A score is only ever lost to RESTART. */
  lemma {:induction false} ScoreNeverDecreases(m: Machine, events: seq<Event>)
    requires forall k :: 0 <= k < |events| ==> !events[k].Restart?
    ensures Run(m, events).ctx.score >= m.ctx.score
    decreases |events|
  {
    if events != [] {
      var next := Step(m, events[0]);
      assert next.ctx.score >= m.ctx.score;
      ScoreNeverDecreases(next, events[1..]);
    }
  }

  // ---------------------------------------------------------------------
  // Saving and resuming a session (StudyInterface)
  // ---------------------------------------------------------------------

  /** What is kept between page loads: state, counters, status and the card ids. */
  datatype Saved = Saved(
    state: State,
    currentIndex: int,
    lives: int,
    score: int,
    correctAnswers: int,
    incorrectAnswers: int,
    gameStatus: GameStatus,
    cardIds: seq<string>)

  /** The saved entry after a machine change: written while playing, removed otherwise. */
  function Save(m: Machine): (s: Option<Saved>)
    ensures s.Some? <==> m.ctx.gameStatus == Playing
    ensures s.Some? ==> |s.value.cardIds| == |m.ctx.cards|
  {
    var c := m.ctx;
    if c.gameStatus == Playing then
      Some(Saved(m.state, c.currentIndex, c.lives, c.score, c.correctAnswers, c.incorrectAnswers,
                 c.gameStatus, seq(|c.cards|, k requires 0 <= k < |c.cards| => c.cards[k].id)))
    else None
  }

  /**
   * The machine a page load starts from: the saved session when there is
   * one for a deck of the same size (with the current cards), a fresh one
   * otherwise.
   */
  function Resume(saved: Option<Saved>, cards: seq<Card>): (m: Machine)
    ensures m.ctx.cards == cards
    ensures saved.None? || |saved.value.cardIds| != |cards| ==> m == Init(cards)
  {
    if saved.Some? && |saved.value.cardIds| == |cards| then
      var s := saved.value;
      Machine(s.state, Context(cards, s.currentIndex, s.lives, s.score, s.correctAnswers, s.incorrectAnswers, s.gameStatus))
    else Init(cards)
  }

  /**
   * Saving a machine and resuming it over the same deck gives back the same
   * machine while the session is playing, and a fresh session once it has
   * ended.
   */
  lemma SaveResumeRoundTrip(m: Machine)
    ensures m.ctx.gameStatus == Playing ==> Resume(Save(m), m.ctx.cards) == m
    ensures m.ctx.gameStatus != Playing ==> Resume(Save(m), m.ctx.cards) == Init(m.ctx.cards)
  {
  }

  /** Resuming a session saved from a reachable machine lands in a machine that keeps the invariant. */
  lemma ResumeKeepsInv(m: Machine, cards: seq<Card>)
    requires Inv(m) && |cards| == |m.ctx.cards|
    ensures Inv(Resume(Save(m), cards))
  {
  }
}
