/**
 * The quiz runner: one question at a time, an answer slot per question, the
 * learning-mode feedback switch and the test-mode countdown. The runner's state
 * is a `Session` value; each event handler is a step function on it, and the
 * `Runner` class performs the same steps by updating its fields in place.
 */
module QuizRunner {
  import opened Wrappers
  import opened Types
  import QuestionCard
  import ResultSummary

  /** Seconds allowed per question in test mode. */
  const TimeLimitPerQuestion: int := 30

  /** Everything the runner holds: its props (`questions`, `mode`), its four
      pieces of state, and the answer list it has handed to `onFinish`, if any. */
  datatype Session = Session(
    questions: seq<Question>,
    mode: QuizMode,
    currentIndex: nat,
    userAnswers: seq<Answer>,
    showFeedback: bool,
    timeLeft: int,
    finished: Option<seq<Answer>>)

  /** Shape facts every reachable session keeps. */
  predicate ValidSession(s: Session) {
    && |s.questions| > 0
    && |s.userAnswers| == |s.questions|
    && s.currentIndex < |s.questions|
    && (s.mode == Learning ==> s.timeLeft == TimeLimitPerQuestion)
    && (s.mode == Test ==> !s.showFeedback)
    && (s.mode == Test && s.userAnswers[s.currentIndex].None? ==> 0 < s.timeLeft <= TimeLimitPerQuestion)
  }

  /** Progress facts kept by every event the screen can deliver: questions before
      the current one are answered, questions after it are not, and in learning
      mode feedback is shown exactly when the current question is answered. */
  predicate Orderly(s: Session)
    requires ValidSession(s)
  {
    && (forall k :: 0 <= k < s.currentIndex ==> s.userAnswers[k].Some?)
    && (forall k :: s.currentIndex < k < |s.userAnswers| ==> s.userAnswers[k].None?)
    && (s.mode == Learning ==> (s.showFeedback <==> s.userAnswers[s.currentIndex].Some?))
  }

  /** Every recorded answer is the timeout marker or names an existing choice. */
  predicate InRange(s: Session) {
    forall k :: 0 <= k < |s.userAnswers| && k < |s.questions| && s.userAnswers[k].Some? ==>
      s.userAnswers[k].value == TimeoutMarker || 0 <= s.userAnswers[k].value < |s.questions[k].choices|
  }

  /** The initial state: first question, every slot null, feedback hidden, full timer. */
  function Start(questions: seq<Question>, mode: QuizMode): (s: Session)
    ensures s.questions == questions && s.mode == mode
    ensures |s.userAnswers| == |questions| && s.currentIndex == 0 && s.finished.None?
    ensures forall k :: 0 <= k < |s.userAnswers| ==> s.userAnswers[k].None?
    ensures !s.showFeedback && s.timeLeft == TimeLimitPerQuestion
  {
    Session(questions, mode, 0, seq(|questions|, _ => None), false, TimeLimitPerQuestion, None)
  }

  function CurrentAnswer(s: Session): Answer
    requires ValidSession(s)
  {
    s.userAnswers[s.currentIndex]
  }

  /** The `showFeedback` prop the card receives: never in test mode. */
  function CardFeedback(s: Session): bool {
    s.mode == Learning && s.showFeedback
  }

  /** Whether the Next button is rendered. */
  function NextOffered(s: Session): (offered: bool)
    requires ValidSession(s)
    ensures offered ==> CardFeedback(s) || CurrentAnswer(s).Some?
  {
    (s.mode == Learning && s.showFeedback) || (s.mode == Test && CurrentAnswer(s).Some?)
  }

  /** `handleAnswer`: a slot once filled is never overwritten; otherwise only the
      current slot receives the choice, and learning mode reveals feedback. Once
      the answers are handed over, App shows the result screen and the runner is
      unmounted, so no event reaches it: every step leaves a finished session
      as it is. */
  function AnswerStep(s: Session, choice: int): (t: Session)
    requires ValidSession(s)
    ensures ValidSession(t)
    ensures t.questions == s.questions && t.mode == s.mode
    ensures s.finished.Some? || CurrentAnswer(s).Some? ==> t == s
    ensures s.finished.None? && CurrentAnswer(s).None? ==>
      && t.userAnswers == s.userAnswers[s.currentIndex := Some(choice)]
      && t.currentIndex == s.currentIndex && t.timeLeft == s.timeLeft && t.finished == s.finished
      && t.showFeedback == (s.mode == Learning)
  {
    if s.finished.Some? || CurrentAnswer(s).Some? then s
    else s.(userAnswers := s.userAnswers[s.currentIndex := Some(choice)],
            showFeedback := if s.mode == Learning then true else s.showFeedback)
  }

  /** `handleNext`: move to the following question with feedback hidden and, in
      test mode, a full timer; on the last question hand the answers to `onFinish`. */
  function NextStep(s: Session): (t: Session)
    requires ValidSession(s)
    ensures ValidSession(t)
    ensures t.questions == s.questions && t.mode == s.mode && t.userAnswers == s.userAnswers
    ensures s.finished.Some? ==> t == s
    ensures s.finished.None? && s.currentIndex < |s.questions| - 1 ==>
      && t.currentIndex == s.currentIndex + 1 && !t.showFeedback && t.finished == s.finished
      && t.timeLeft == (if s.mode == Test then TimeLimitPerQuestion else s.timeLeft)
    ensures s.finished.None? && s.currentIndex == |s.questions| - 1 ==>
      && t.currentIndex == s.currentIndex && t.showFeedback == s.showFeedback && t.timeLeft == s.timeLeft
      && t.finished == Some(s.userAnswers)
  {
    if s.finished.Some? then s
    else if s.currentIndex < |s.questions| - 1 then
      s.(currentIndex := s.currentIndex + 1, showFeedback := false,
         timeLeft := if s.mode == Test then TimeLimitPerQuestion else s.timeLeft)
    else
      s.(finished := Some(s.userAnswers))
  }

  /** One second of the test-mode interval together with the effect run it
      triggers. The timer runs only in test mode on an unanswered question. When
      it reaches zero the slot is set to the timeout marker and `handleNext` runs
      with the answers of the render that scheduled it, so on the last question
      `onFinish` receives the list from before the marker was written. */
  function TickStep(s: Session): (t: Session)
    requires ValidSession(s)
    ensures ValidSession(t)
    ensures t.questions == s.questions && t.mode == s.mode
    ensures s.finished.Some? || s.mode == Learning || CurrentAnswer(s).Some? ==> t == s
    ensures s.finished.None? && s.mode == Test && CurrentAnswer(s).None? && s.timeLeft > 1 ==>
      t == s.(timeLeft := s.timeLeft - 1)
    ensures s.finished.None? && s.mode == Test && CurrentAnswer(s).None? && s.timeLeft <= 1 ==>
      && t.userAnswers == s.userAnswers[s.currentIndex := Some(TimeoutMarker)]
      && (s.currentIndex < |s.questions| - 1 ==>
            && t.currentIndex == s.currentIndex + 1 && !t.showFeedback
            && t.timeLeft == TimeLimitPerQuestion && t.finished == s.finished)
      && (s.currentIndex == |s.questions| - 1 ==>
            && t.currentIndex == s.currentIndex && t.showFeedback == s.showFeedback
            && t.timeLeft == s.timeLeft - 1 && t.finished == Some(s.userAnswers))
  {
    if s.finished.Some? || s.mode != Test || CurrentAnswer(s).Some? then s
    else if s.timeLeft - 1 > 0 then s.(timeLeft := s.timeLeft - 1)
    else
      var marked := s.(timeLeft := s.timeLeft - 1, userAnswers := s.userAnswers[s.currentIndex := Some(TimeoutMarker)]);
      if s.currentIndex < |s.questions| - 1 then
        marked.(currentIndex := s.currentIndex + 1, showFeedback := false, timeLeft := TimeLimitPerQuestion)
      else
        marked.(finished := Some(s.userAnswers))
  }

  /** A key press on the card, dispatched as the card's handler decides. */
  function KeyStep(s: Session, key: string): (t: Session)
    requires ValidSession(s)
    ensures ValidSession(t)
  {
    match QuestionCard.KeyAction(key, |s.questions[s.currentIndex].choices|, CardFeedback(s), CurrentAnswer(s))
    case SubmitAnswer(i) => AnswerStep(s, i)
    case GoNext => NextStep(s)
    case Ignore => s
  }

  /** A click on choice `i` of the card. */
  function ClickStep(s: Session, i: nat): (t: Session)
    requires ValidSession(s) && i < |s.questions[s.currentIndex].choices|
    ensures ValidSession(t)
  {
    match QuestionCard.ClickAction(i, CardFeedback(s))
    case SubmitAnswer(k) => AnswerStep(s, k)
    case _ => s
  }

  /** The initial session is well formed and orderly when there is a question to show. */
  lemma StartIsOrderly(questions: seq<Question>, mode: QuizMode)
    requires |questions| > 0
    ensures ValidSession(Start(questions, mode)) && Orderly(Start(questions, mode)) && InRange(Start(questions, mode))
    ensures !NextOffered(Start(questions, mode))
  {
  }

  /** Enter moves on exactly when the Next button is shown. */
  lemma EnterMatchesNextButton(s: Session)
    requires ValidSession(s) && Orderly(s)
    ensures QuestionCard.KeyAction("Enter", |s.questions[s.currentIndex].choices|, CardFeedback(s), CurrentAnswer(s)) == QuestionCard.GoNext
      <==> NextOffered(s)
  {
    QuestionCard.KeySubmitsOnlyWhenOpen("Enter", |s.questions[s.currentIndex].choices|, CardFeedback(s), CurrentAnswer(s));
  }

  /** Answering keeps the progress facts. */
  lemma AnswerKeepsOrder(s: Session, choice: int)
    requires ValidSession(s) && Orderly(s)
    ensures Orderly(AnswerStep(s, choice))
  {
  }

  /** Moving on keeps the progress facts when the current question is answered,
      which is the case whenever the Next button is shown. */
  lemma NextKeepsOrder(s: Session)
    requires ValidSession(s) && Orderly(s) && CurrentAnswer(s).Some?
    ensures Orderly(NextStep(s))
  {
  }

  lemma OfferedMeansAnswered(s: Session)
    requires ValidSession(s) && Orderly(s)
    ensures NextOffered(s) <==> CurrentAnswer(s).Some?
  {
  }

  lemma TickKeepsOrder(s: Session)
    requires ValidSession(s) && Orderly(s)
    ensures Orderly(TickStep(s))
  {
  }

  /** Every event the screen can deliver keeps the progress facts. */
  lemma EventsKeepOrder(s: Session, key: string, i: nat)
    requires ValidSession(s) && Orderly(s)
    ensures Orderly(KeyStep(s, key))
    ensures i < |s.questions[s.currentIndex].choices| ==> Orderly(ClickStep(s, i))
    ensures NextOffered(s) ==> Orderly(NextStep(s))
    ensures Orderly(TickStep(s))
  {
    var a := QuestionCard.KeyAction(key, |s.questions[s.currentIndex].choices|, CardFeedback(s), CurrentAnswer(s));
    if a.SubmitAnswer? {
      AnswerKeepsOrder(s, a.choice);
    } else if a.GoNext? {
      OfferedMeansAnswered(s);
      EnterOrAnsweredMoves(s, key);
      NextKeepsOrder(s);
    }
    if i < |s.questions[s.currentIndex].choices| && !CardFeedback(s) {
      AnswerKeepsOrder(s, i);
    }
    OfferedMeansAnswered(s);
    TickKeepsOrder(s);
  }

  /** A key only moves on from an answered question. */
  lemma EnterOrAnsweredMoves(s: Session, key: string)
    requires ValidSession(s) && Orderly(s)
    requires QuestionCard.KeyAction(key, |s.questions[s.currentIndex].choices|, CardFeedback(s), CurrentAnswer(s)).GoNext?
    ensures CurrentAnswer(s).Some?
  {
  }

  /** Every event the screen can deliver records only in-range answers or the timeout marker. */
  lemma EventsKeepRange(s: Session, key: string, i: nat)
    requires ValidSession(s) && InRange(s)
    ensures InRange(KeyStep(s, key))
    ensures i < |s.questions[s.currentIndex].choices| ==> InRange(ClickStep(s, i))
    ensures InRange(NextStep(s)) && InRange(TickStep(s))
  {
    var a := QuestionCard.KeyAction(key, |s.questions[s.currentIndex].choices|, CardFeedback(s), CurrentAnswer(s));
    if a.SubmitAnswer? {
      QuestionCard.KeySubmitsOnlyWhenOpen(key, |s.questions[s.currentIndex].choices|, CardFeedback(s), CurrentAnswer(s));
      AnswerKeepsRange(s, a.choice);
    }
    if i < |s.questions[s.currentIndex].choices| {
      AnswerKeepsRange(s, i);
    }
    TickKeepsRange(s);
  }

  /** Answering with an existing choice keeps every recorded answer in range. */
  lemma AnswerKeepsRange(s: Session, choice: int)
    requires ValidSession(s) && InRange(s) && 0 <= choice < |s.questions[s.currentIndex].choices|
    ensures InRange(AnswerStep(s, choice))
  {
  }

  /** The timer records only the timeout marker. */
  lemma TickKeepsRange(s: Session)
    requires ValidSession(s) && InRange(s)
    ensures InRange(TickStep(s))
  {
  }

  /** Finishing through Next (button or Enter) hands over a list in which every
      question is answered. */
  lemma FinishByNextIsComplete(s: Session)
    requires ValidSession(s) && Orderly(s) && NextOffered(s)
    requires s.finished.None? && s.currentIndex == |s.questions| - 1
    ensures NextStep(s).finished == Some(s.userAnswers)
    ensures forall k :: 0 <= k < |s.userAnswers| ==> s.userAnswers[k].Some?
  {
  }

  /** A timeout on the last question finishes the quiz with that question's slot
      still null, although the runner's own list holds the timeout marker there. */
  lemma LastTimeoutHandsOverNull(s: Session)
    requires ValidSession(s) && Orderly(s)
    requires s.finished.None?
    requires s.mode == Test && s.currentIndex == |s.questions| - 1 && CurrentAnswer(s).None? && s.timeLeft == 1
    ensures TickStep(s).finished.Some?
    ensures TickStep(s).finished.value[s.currentIndex].None?
    ensures TickStep(s).userAnswers[s.currentIndex] == Some(TimeoutMarker)
    ensures forall k :: 0 <= k < s.currentIndex ==> TickStep(s).finished.value[k].Some?
  {
  }

  /** A timeout on any other question records the marker in its slot, which the
      result screen cannot score. */
  lemma EarlierTimeoutRecordsMarker(s: Session)
    requires ValidSession(s)
    requires s.finished.None?
    requires s.mode == Test && s.currentIndex < |s.questions| - 1 && CurrentAnswer(s).None? && s.timeLeft == 1
    ensures TickStep(s).userAnswers[s.currentIndex] == Some(TimeoutMarker)
    ensures TickStep(s).currentIndex == s.currentIndex + 1
  {
  }

  /** Once the answers are handed over, no event changes the session: in
      particular the list `onFinish` received is never replaced. */
  lemma FinishedIsFinal(s: Session, key: string, i: nat, choice: int)
    requires ValidSession(s) && s.finished.Some?
    ensures AnswerStep(s, choice) == s && NextStep(s) == s && TickStep(s) == s
    ensures KeyStep(s, key) == s
    ensures i < |s.questions[s.currentIndex].choices| ==> ClickStep(s, i) == s
  {
  }

  /** After a timeout on the last question, no later event replaces the handed-over
      list that holds null in the last slot. */
  lemma LastTimeoutIsFinal(s: Session, key: string)
    requires ValidSession(s) && Orderly(s) && s.finished.None?
    requires s.mode == Test && s.currentIndex == |s.questions| - 1 && CurrentAnswer(s).None? && s.timeLeft == 1
    ensures NextStep(TickStep(s)).finished == TickStep(s).finished
    ensures KeyStep(TickStep(s), key).finished == TickStep(s).finished
    ensures TickStep(s).finished.value[s.currentIndex].None?
  {
    LastTimeoutHandsOverNull(s);
    FinishedIsFinal(TickStep(s), key, 0, 0);
  }

  /** A handed-over list can be scored exactly when it holds no timeout marker. */
  lemma FinishedListScorable(s: Session)
    requires ValidSession(s) && InRange(s)
    ensures ResultSummary.Scorable(s.questions, s.userAnswers) <==>
      forall k :: 0 <= k < |s.userAnswers| ==> s.userAnswers[k] != Some(TimeoutMarker)
  {
    if !ResultSummary.Scorable(s.questions, s.userAnswers) {
      var k :| 0 <= k < |s.userAnswers| && s.userAnswers[k].Some? &&
        !(k < |s.questions| && 0 <= s.userAnswers[k].value < |s.questions[k].choices|);
      assert s.userAnswers[k] == Some(TimeoutMarker);
    }
  }

  /** The quiz runner component, updating its state in place. */
  class Runner {
    const questions: seq<Question>
    const mode: QuizMode
    var currentIndex: nat
    var userAnswers: seq<Answer>
    var showFeedback: bool
    var timeLeft: int
    var finished: Option<seq<Answer>>

    function State(): Session
      reads this
    {
      Session(questions, mode, currentIndex, userAnswers, showFeedback, timeLeft, finished)
    }

    ghost predicate Valid()
      reads this
    {
      ValidSession(State())
    }

    constructor(questions: seq<Question>, mode: QuizMode)
      ensures State() == Start(questions, mode)
    {
      this.questions := questions;
      this.mode := mode;
      currentIndex := 0;
      userAnswers := seq(|questions|, _ => None);
      showFeedback := false;
      timeLeft := TimeLimitPerQuestion;
      finished := None;
    }

    method HandleAnswer(choice: int)
      requires Valid() && finished.None?
      modifies this
      ensures State() == AnswerStep(old(State()), choice)
    {
      if userAnswers[currentIndex].Some? {
        return;
      }
      userAnswers := userAnswers[currentIndex := Some(choice)];
      if mode == Learning {
        showFeedback := true;
      }
    }

    method HandleNext()
      requires Valid() && finished.None?
      modifies this
      ensures State() == NextStep(old(State()))
    {
      if currentIndex < |questions| - 1 {
        currentIndex := currentIndex + 1;
        showFeedback := false;
        if mode == Test {
          timeLeft := TimeLimitPerQuestion;
        }
      } else {
        finished := Some(userAnswers);
      }
    }

    method Tick()
      requires Valid() && finished.None?
      modifies this
      ensures State() == TickStep(old(State()))
    {
      if mode != Test || userAnswers[currentIndex].Some? {
        return;
      }
      timeLeft := timeLeft - 1;
      if timeLeft <= 0 {
        var before := userAnswers;
        userAnswers := userAnswers[currentIndex := Some(TimeoutMarker)];
        if currentIndex < |questions| - 1 {
          currentIndex := currentIndex + 1;
          showFeedback := false;
          timeLeft := TimeLimitPerQuestion;
        } else {
          finished := Some(before);
        }
      }
    }

    method PressKey(key: string)
      requires Valid() && finished.None?
      modifies this
      ensures State() == KeyStep(old(State()), key)
    {
      var action := QuestionCard.KeyAction(key, |questions[currentIndex].choices|, mode == Learning && showFeedback, userAnswers[currentIndex]);
      match action
      case SubmitAnswer(i) => HandleAnswer(i);
      case GoNext => HandleNext();
      case Ignore =>
    }

    method ClickChoice(i: nat)
      requires Valid() && finished.None? && i < |questions[currentIndex].choices|
      modifies this
      ensures State() == ClickStep(old(State()), i)
    {
      if !(mode == Learning && showFeedback) {
        HandleAnswer(i);
      }
    }

    /** The Next button exists only when it is offered. */
    method ClickNext()
      requires Valid() && finished.None? && NextOffered(State())
      modifies this
      ensures State() == NextStep(old(State()))
    {
      HandleNext();
    }
  }
}
