/**
 * The top-level screen switch: configuration, quiz, results. Starting a quiz
 * draws its questions with `FilterQuestions`; finishing stores the answer list
 * the runner hands over; restarting goes back to configuration.
 */
module App {
  import opened Types
  import Selector

  datatype Screen = Config | Quiz | Result

  class App {
    var appState: Screen
    var questions: seq<Question>
    var mode: QuizMode
    var userAnswers: seq<Answer>

    constructor()
      ensures appState == Config && questions == [] && mode == Learning && userAnswers == []
    {
      appState := Config;
      questions := [];
      mode := Learning;
      userAnswers := [];
    }

    /** `handleStartQuiz`: the shuffle draws `js` and the stored `history` stand
        in for `Math.random` and the stored question history. */
    method StartQuiz(allQuestions: seq<Question>, selectedMode: QuizMode, count: int, history: seq<string>, js: seq<nat>)
      requires Selector.ValidDraws(js, |allQuestions|)
      modifies this
      ensures appState == Quiz && mode == selectedMode && userAnswers == old(userAnswers)
      ensures questions <= Selector.StablePartition(Selector.Shuffle(allQuestions, js), history)
      ensures count >= 0 ==> |questions| == Selector.Min(count, |allQuestions|)
      ensures count < 0 ==> |questions| == if |allQuestions| + count > 0 then |allQuestions| + count else 0
      ensures multiset(questions) <= multiset(allQuestions)
      ensures Selector.UnseenFirst(questions, history)
      ensures count >= |Selector.Select(allQuestions, history, false)| ==>
        multiset(Selector.Select(allQuestions, history, false)) <= multiset(questions)
    {
      var filtered := Selector.FilterQuestions(allQuestions, count, history, js);
      questions := filtered;
      mode := selectedMode;
      appState := Quiz;
    }

    /** `handleFinishQuiz`. */
    method FinishQuiz(answers: seq<Answer>)
      modifies this
      ensures appState == Result && userAnswers == answers
      ensures questions == old(questions) && mode == old(mode)
    {
      userAnswers := answers;
      appState := Result;
    }

    /** `handleRestart`: the chosen mode is kept. */
    method Restart()
      modifies this
      ensures appState == Config && questions == [] && userAnswers == [] && mode == old(mode)
    {
      appState := Config;
      questions := [];
      userAnswers := [];
    }
  }
}
