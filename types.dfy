/** The typed question shapes the quiz works on once input has been validated. */
module Types {
  import opened Wrappers

  datatype Choice = Choice(text: string, isCorrect: bool, explanation: Option<string>)

  datatype Question = Question(
    id: string,
    question: string,
    backgroundKnowledge: Option<string>,
    explanation: Option<string>,
    choices: seq<Choice>)

  datatype QuizMode = Learning | Test

  /** One slot of the answer log, `number | null`: a choice index, the timeout
      marker -1, or `null` for a question that was never answered. */
  type Answer = Option<int>

  const TimeoutMarker: int := -1
}
