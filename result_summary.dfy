/**
 * Scoring of a finished quiz: the `correctCount` reduce over the answer log,
 * the "correct answer" lookup (first choice marked correct), and when the
 * correct-answer box is shown.
 */
module ResultSummary {
  import opened Wrappers
  import opened Types

  /** What `questions[index].choices[answer].is_correct` needs in order not to
      throw: every non-null answer names an existing choice of its question. The
      timeout marker -1 does not (`choices[-1]` is `undefined`). */
  function Scorable(questions: seq<Question>, answers: seq<Answer>): (scorable: bool)
    ensures (forall i :: 0 <= i < |answers| ==> answers[i].None?) ==> scorable
  {
    forall i :: 0 <= i < |answers| && answers[i].Some? ==>
      i < |questions| && 0 <= answers[i].value < |questions[i].choices|
  }

  /** `isCorrect` for position `i`: answered, with a choice marked correct. */
  predicate IsCorrectAt(questions: seq<Question>, answers: seq<Answer>, i: nat)
    requires Scorable(questions, answers) && i < |answers|
  {
    answers[i].Some? && questions[i].choices[answers[i].value].isCorrect
  }

  /** The `reduce`: one point per correct position. */
  function CorrectCount(questions: seq<Question>, answers: seq<Answer>): (c: nat)
    requires Scorable(questions, answers)
    ensures c <= |answers|
    decreases |answers|
  {
    if answers == [] then 0
    else
      var n := |answers| - 1;
      CorrectCount(questions, answers[..n]) + (if IsCorrectAt(questions, answers, n) then 1 else 0)
  }

  function CorrectPositions(questions: seq<Question>, answers: seq<Answer>): set<nat>
    requires Scorable(questions, answers)
  {
    set i: nat | i < |answers| && IsCorrectAt(questions, answers, i)
  }

  /** The count is the number of positions whose answer is non-null and names a correct choice. */
  lemma {:induction false} CorrectCountCounts(questions: seq<Question>, answers: seq<Answer>)
    requires Scorable(questions, answers)
    ensures CorrectCount(questions, answers) == |CorrectPositions(questions, answers)|
    decreases |answers|
  {
    if answers != [] {
      var n := |answers| - 1;
      CorrectCountCounts(questions, answers[..n]);
      CorrectPositionsStep(questions, answers);
    }
  }

  /** The correct positions of a list are those of its prefix, plus the last
      position when it is correct. */
  lemma CorrectPositionsStep(questions: seq<Question>, answers: seq<Answer>)
    requires Scorable(questions, answers) && answers != []
    ensures var n := |answers| - 1;
      Scorable(questions, answers[..n]) &&
      CorrectPositions(questions, answers) ==
        CorrectPositions(questions, answers[..n]) + (if IsCorrectAt(questions, answers, n) then {n} else {})
  {
    var n := |answers| - 1;
    var prefix := answers[..n];
    assert forall i :: 0 <= i < n ==> prefix[i] == answers[i];
    assert Scorable(questions, prefix);
    var before := CorrectPositions(questions, prefix);
    var after := CorrectPositions(questions, answers);
    forall i: nat | i < n ensures (i in after <==> i in before) {
      assert IsCorrectAt(questions, prefix, i) == IsCorrectAt(questions, answers, i);
    }
  }

  /** A log that holds the timeout marker cannot be scored: the lookup throws. */
  lemma TimeoutMarkerNotScorable(questions: seq<Question>, answers: seq<Answer>, i: nat)
    requires i < |answers| && answers[i] == Some(TimeoutMarker)
    ensures !Scorable(questions, answers)
  {
  }

  /** A null answer is never correct and reads "Skipped". */
  function AnswerText(q: Question, answer: Answer): (t: string)
    requires answer.Some? ==> 0 <= answer.value < |q.choices|
    ensures answer.None? ==> t == "Skipped"
    ensures answer.Some? ==> t == q.choices[answer.value].text
  {
    if answer.Some? then q.choices[answer.value].text else "Skipped"
  }

  /** `choices.find(c => c.is_correct)`, as a position. */
  function FirstCorrect(choices: seq<Choice>): (r: Option<nat>)
    ensures r.Some? ==> r.value < |choices| && choices[r.value].isCorrect
    ensures r.Some? ==> forall j :: 0 <= j < r.value ==> !choices[j].isCorrect
    ensures r.None? <==> forall j :: 0 <= j < |choices| ==> !choices[j].isCorrect
    decreases |choices|
  {
    if choices == [] then None
    else if choices[0].isCorrect then Some(0)
    else match FirstCorrect(choices[1..])
      case None => None
      case Some(k) => Some(k + 1)
  }

  /** The reported correct answer: `find(...)?.text || 'Unknown'`. */
  function CorrectAnswerText(q: Question): (t: string)
    ensures t != ""
    ensures t == "Unknown" || exists j :: 0 <= j < |q.choices| && q.choices[j].isCorrect && t == q.choices[j].text
    ensures FirstCorrect(q.choices).None? ==> t == "Unknown"
  {
    match FirstCorrect(q.choices)
    case Some(k) => if q.choices[k].text != "" then q.choices[k].text else "Unknown"
    case None => "Unknown"
  }

  /** Whether the user's answer to `q` is correct (`isCorrect` in the review list). */
  predicate AnsweredCorrectly(q: Question, answer: Answer)
    requires answer.Some? ==> 0 <= answer.value < |q.choices|
  {
    answer.Some? && q.choices[answer.value].isCorrect
  }

  /** The correct-answer box: shown when the answer is not correct and some choice is. */
  function ShowCorrectBox(q: Question, answer: Answer): (show: bool)
    requires answer.Some? ==> 0 <= answer.value < |q.choices|
    ensures show ==> FirstCorrect(q.choices).Some? && answer != Some(FirstCorrect(q.choices).value)
  {
    !AnsweredCorrectly(q, answer) && FirstCorrect(q.choices).Some?
  }

  /** The box appears exactly when some choice is correct but not the one chosen
      (a skipped question included), and "Unknown" is reported only when no choice
      is correct or the first correct one has empty text. */
  lemma CorrectAnswerReport(q: Question, answer: Answer)
    requires answer.Some? ==> 0 <= answer.value < |q.choices|
    ensures ShowCorrectBox(q, answer) <==>
      (exists j :: 0 <= j < |q.choices| && q.choices[j].isCorrect) && !(answer.Some? && q.choices[answer.value].isCorrect)
    ensures CorrectAnswerText(q) == "Unknown" <==>
      (forall j :: 0 <= j < |q.choices| ==> !q.choices[j].isCorrect)
      || q.choices[FirstCorrect(q.choices).value].text in {"", "Unknown"}
  {
  }
}
