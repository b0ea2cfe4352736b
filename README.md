# Quiz app core, modelled in Dafny

The quiz app loads a JSON array of multiple-choice questions. It validates and repairs that array, then draws a quiz from the pool. After an unbiased shuffle, questions whose ids are in the stored history come last. The app itself never writes that history: `addToHistory` has no caller, so only ids already in storage are moved back. The user answers one question at a time, in one of two modes:

- **Learning mode** shows feedback after each answer.
- **Test mode** runs a 30-second countdown per question.

At the end the app scores the answers. The model covers six parts of the app:

- **Validator** (`Validation`, `ValidationErrors`, `ValidationProperties`). Errors are values, rendered to the exact messages of the app. Repairs are modelled: a fresh id for a falsy `id`, and `is_correct: false` for an absent flag. Proofs:
  - The imperative checker equals a functional specification.
  - An input is accepted exactly when every repaired item is a well-formed question.
  - Errors come grouped by item, in order.
- **History** (`History`). The recent-question list: new ids first, de-duplicated, capped at 50.
- **Question selection** (`Selector`):
  - Fisher–Yates shuffle, proved to be a permutation.
  - The comparator sort, proved to be the unique stable sort that puts unseen questions first.
  - The `slice` that takes `count` questions.
- **Question card** (`QuestionCard`): the key map, when a key or a click submits and when Enter moves on, and how choices are marked.
- **Quiz runner** (`QuizRunner`):
  - The answer, next and timer handlers, as step functions on a `Session` value.
  - A `Runner` class that performs the same steps in place.
  - Lemmas about the progress invariants these steps keep and about how a quiz ends.
- **Result scoring** (`ResultSummary`) and **screen switch** (`App`).

`Math.random`, `crypto.randomUUID` and `localStorage` are replaced by parameters:

- `js` holds the shuffle draws. `js[i]` is the `j` drawn at loop step `i`, with `js[i] <= i`.
- `freshId(k)` is the id generated for item `k`.
- `history` is the stored history.

Behaviour of the code worth knowing:

- A negative `count` keeps all but the last `|count|` questions, by JavaScript's `slice` rule (`Selector.FilterQuestions`, `App.App.StartQuiz`).
- The quiz screen can only be left by finishing the quiz: `onFinish` is the runner's only way back to App.
- Once the answers are handed to `onFinish`, App shows the result screen and the runner is unmounted. The model keeps a finished session unchanged under every event (`QuizRunner.FinishedIsFinal`).
- A timeout on the last question hands `onFinish` the answers as they stood before the timeout. The last slot stays null, although the runner's own list holds the marker -1 (`QuizRunner.LastTimeoutHandsOverNull`).
- A timeout on any earlier question leaves -1 in the list that is handed over. The result screen's lookup `choices[-1].is_correct` then throws. `ResultSummary.Scorable` states what scoring needs, and `QuizRunner.FinishedListScorable` proves a list can be scored exactly when it holds no timeout marker.

## Model

| member | source | states |
|---|---|---|
| ValidationErrors.NatToString | src/utils/validation.ts:26 | the decimal index in a message is non-empty and all digits |
| ValidationErrors.ParseNatToString | src/utils/validation.ts:26 | the decimal rendering of an index reads back as the same index |
| ValidationErrors.InfixOfConcat | src/utils/validation.ts:26-74 | a piece placed inside a message can be found in it |
| ValidationErrors.RenderLocates | src/utils/validation.ts:26-74 | every per-item message names its item as `index i ` or `question i `, and every per-choice message names both `Choice c ` and `question i ` |
| ValidationErrors.ItemMessageLocates | src/utils/validation.ts:26-74 | every message about an item but no choice contains `index i ` |
| ValidationErrors.ChoiceMessageLocates | src/utils/validation.ts:55-67 | every message about a choice contains `Choice c ` and `question i ` |
| ValidationErrors.ChoiceLocates | src/utils/validation.ts:55-67 | a choice message carries both the choice tag and the question tag |
| ValidationErrors.Render | src/utils/validation.ts:14-74 | every message text is non-empty and ends with a full stop |
| Validation.RepairChoices | src/utils/validation.ts:52-72 | repairing choices keeps their number |
| Validation.RepairChoice | src/utils/validation.ts:64-65 | repairing a choice only adds `is_correct` when absent; every existing property is kept, and a non-object is left alone |
| Validation.ChoiceErrors | src/utils/validation.ts:53-68 | every error of one choice names that choice and its question, and the non-object error is raised exactly for a non-object |
| Validation.ItemErrors | src/utils/validation.ts:25-76 | a non-object gets only the non-object error; an object without a string `question` gets that error, and one without a `choices` array gets that error |
| Validation.RepairItem | src/utils/validation.ts:30-33 | repairing an object item ensures it has an `id` and keeps every property other than `id` and `choices`; a non-object is left alone |
| Validation.Repaired | src/utils/validation.ts:22-82 | the input after the scan: an array of the same length, or the input itself when it is not an array |
| Validation.RepairAll | src/utils/validation.ts:22-82 | repairing keeps the number of items |
| Validation.Validate | src/utils/validation.ts:9-89 | valid iff no errors; an invalid result carries no data; a non-array yields exactly the "top-level array" error, an empty array exactly the "empty" error; a valid result's data is the repaired items |
| Validation.GatherEmpty | src/utils/validation.ts:22-82 | a loop collects no errors iff no step reports one |
| Validation.NoErrorsAllObjects | src/utils/validation.ts:25-28 | when no error is reported, every item is an object |
| Validation.PushedAllObjects | src/utils/validation.ts:81 | when every item is an object, the pushed list is the list of repaired items |
| Validation.CheckChoices | src/utils/validation.ts:51-75 | the choice loop yields exactly the specified choice errors, the repaired choices, and whether some choice is truthily correct |
| Validation.ChoicesStep | src/utils/validation.ts:52-72 | one more choice adds its errors, its repaired form and its correctness mark |
| Validation.CheckChoice | src/utils/validation.ts:53-71 | one choice's callback yields exactly its errors, its repaired form, and whether it marks the question correct |
| Validation.CheckItem | src/utils/validation.ts:30-81 | the checks on one object item yield exactly the specified item errors and repaired item |
| Validation.CheckFields | src/utils/validation.ts:31-45 | the id, question, background and explanation checks yield exactly the specified errors in order |
| Validation.ValidateQuestionsJSON | src/utils/validation.ts:9-89 | the imperative validator returns exactly the specified result and leaves the input repaired as specified |
| Validation.ScanItem | src/utils/validation.ts:22-82 | one element's callback reports a non-object and pushes nothing, or checks, repairs and pushes an object |
| Validation.ScanStep | src/utils/validation.ts:22-82 | one more element adds its errors and its pushed item |
| ValidationProperties.ToChoice | src/types.ts:1-5 | a well-formed choice becomes a `Choice` with its text and a flag that is true only for JSON `true` |
| ValidationProperties.ToQuestion | src/types.ts:7-13 | a well-formed question has a non-empty id, at least one choice and a correct choice |
| ValidationProperties.ChoiceAccepted | src/utils/validation.ts:53-68 | a choice draws no error iff its repaired form is a well-formed choice |
| ValidationProperties.ChoicesAccepted | src/utils/validation.ts:48-76 | a choices array draws no error iff every repaired choice is well formed and one has `is_correct` equal to `true` |
| ValidationProperties.EachChoiceAccepted | src/utils/validation.ts:52-72 | the choices' own checks are silent iff every repaired choice is well formed |
| ValidationProperties.CorrectAfterRepair | src/utils/validation.ts:69-75 | for well-formed repaired choices, the truthiness test finds a correct choice iff one has `is_correct` equal to `true` |
| ValidationProperties.ItemAccepted | src/utils/validation.ts:25-76 | an item draws no error iff its repaired form is a well-formed question |
| ValidationProperties.RepairKeepsFields | src/utils/validation.ts:31-35 | repairing an object item gives it a non-empty string id exactly when its id was not a truthy non-string, and leaves the other fields alone |
| ValidationProperties.ValidIffWellFormed | src/utils/validation.ts:9-89 | the input is accepted iff it is a non-empty array whose repaired items are all well-formed questions |
| ValidationProperties.AcceptedQuestions | src/utils/validation.ts:84-88 | accepted data converts to a non-empty list of questions, each with an id and a correct choice |
| ValidationProperties.About | src/utils/validation.ts:22-82 | filtering errors by location keeps exactly the errors about that location |
| ValidationProperties.AboutConcat | src/utils/validation.ts:22-82 | filtering by location distributes over concatenation |
| ValidationProperties.AboutNone | src/utils/validation.ts:22-82 | errors about other locations filter to nothing |
| ValidationProperties.AboutAll | src/utils/validation.ts:22-82 | errors all about one location filter to themselves |
| ValidationProperties.GatherInOrder | src/utils/validation.ts:22-82 | errors collected by a `forEach` loop are located inside the list and ordered by location |
| ValidationProperties.GatherAbout | src/utils/validation.ts:22-82 | the errors about position i are exactly what step i reported |
| ValidationProperties.ChoiceErrorsTagged | src/utils/validation.ts:53-68 | each choice check reports only errors about its own choice |
| ValidationProperties.ItemErrorsTagged | src/utils/validation.ts:25-76 | each item check reports only errors about its own item |
| ValidationProperties.ChoicesOfOneItem | src/utils/validation.ts:52-72 | every choice error of an item names that item and a choice |
| ValidationProperties.ErrorsInOrder | src/utils/validation.ts:22-82 | errors are listed item by item, and within an item choice by choice |
| ValidationProperties.ErrorsOfItem | src/utils/validation.ts:22-82 | the errors about item i are exactly that item's own checks |
| ValidationProperties.NonObjectItem | src/utils/validation.ts:25-28 | a non-object item draws exactly the "not a valid object" error and is left as it was |
| ValidationProperties.IdRepairPolicy | src/utils/validation.ts:31-35 | a falsy id is replaced by the fresh id without error; a truthy non-string id draws the id error and is kept |
| ValidationProperties.ErrorOfItemIn | src/utils/validation.ts:22-82 | an error about item i is reported iff item i's own checks raise it |
| ValidationProperties.IdErrorIn | src/utils/validation.ts:31-35 | the id error is raised iff the id is truthy and not a string |
| ValidationProperties.RepairedAt | src/utils/validation.ts:22-82 | the repaired input is an array of the same length whose item i is item i repaired |
| ValidationProperties.IsCorrectRepairPolicy | src/utils/validation.ts:64-68 | an absent `is_correct` becomes false; a present non-boolean one draws the type error and is kept |
| ValidationProperties.ChoiceErrorsAt | src/utils/validation.ts:52-72 | errors about choice c are exactly choice c's own errors |
| ValidationProperties.NoCorrectChoicePolicy | src/utils/validation.ts:51-75 | the "at least one correct" error appears iff no choice has a truthy `is_correct` |
| History.Cap | src/types.ts:36 | the capped list keeps the first `min(n, 50)` entries: it is a prefix of its input of exactly that length |
| History.AddToHistory | src/types.ts:34-38 | the new history has no duplicates, at most 50 entries, and only ids from the inputs |
| History.FirstIndex | src/types.ts:36 | the first occurrence of an id is at the returned position and nowhere before it |
| History.DedupAfterProps | src/types.ts:36 | de-duplication keeps exactly the ids not yet seen, each once |
| History.DedupAfter | src/types.ts:36 | de-duplicating against seen ids never lengthens the list |
| History.Dedup | src/types.ts:36 | the `Set` spread has no duplicates and holds exactly the ids of its input |
| History.FirstIndexTail | src/types.ts:36 | the first occurrence in a list is one past the first occurrence in its tail |
| History.DedupFirstOccurrenceOrder | src/types.ts:36 | de-duplication keeps only ids of the list, in the order of their first occurrence |
| History.ShiftOrder | src/types.ts:36 | an order by first occurrence in the tail, without the head, is an order in the whole list, also with the head in front |
| History.FirstIndexShift | src/types.ts:36 | first occurrences in the tail are one less than in the whole list |
| History.DedupAfterConcat | src/types.ts:36 | de-duplicating a concatenation de-duplicates the second part against the first |
| History.DedupAfterFresh | src/types.ts:36 | a duplicate-free list of unseen ids is unchanged |
| History.DedupAfterSeen | src/types.ts:36 | a list of already seen ids vanishes |
| History.MergeOrder | src/types.ts:36 | the new history is the new ids de-duplicated, then the old entries that are not among them in their old order, capped at 50 |
| History.FirstFiftyWin | src/types.ts:36 | at least 50 distinct new ids leave exactly their first 50 |
| History.Rollover | src/types.ts:36 | 50 or more distinct new ids replace the history by their first 50 |
| History.AddToHistoryIdempotent | src/types.ts:34-38 | recording the same ids twice gives the same history as recording them once |
| History.IdempotentWhenFull | src/types.ts:36 | the idempotence case where the new ids fill the cap |
| History.IdempotentWhenRoom | src/types.ts:36 | the idempotence case where old entries remain |
| Selector.Swap | src/types.ts:47 | a swap permutes the list |
| Selector.ShuffleBelowPermutes | src/types.ts:44-48 | the remaining Fisher–Yates steps permute the list |
| Selector.ShufflePermutes | src/types.ts:44-48 | the shuffled pool is a permutation of the pool |
| Selector.Shuffle | src/types.ts:44-48 | the shuffled copy has the pool's length (it is a permutation by `Selector.ShufflePermutes`) |
| Selector.ShuffleInPlace | src/types.ts:45-48 | the in-place loop leaves the array holding the specified shuffle of its old contents |
| Selector.SwapAt | src/types.ts:47 | the destructuring swap exchanges two array cells |
| Selector.ShuffleBelowStep | src/types.ts:45-48 | one loop iteration is the swap at i followed by the swaps below i |
| Selector.Select | src/types.ts:51-57 | the unseen (or seen) questions of a list, in order |
| Selector.SelectCount | src/types.ts:51-57 | each question occurs in its class's selection as often as in the list |
| Selector.SelectOfPermutation | src/types.ts:51-57 | permuted lists have permuted selections |
| Selector.SelectConcat | src/types.ts:51-57 | selection distributes over concatenation |
| Selector.SelectAll | src/types.ts:51-57 | a list all of one class selects to itself |
| Selector.PartitionIsStableSort | src/types.ts:51-57 | unseen-then-seen is a permutation, unseen questions come first, and within each class the shuffled order is kept |
| Selector.PartitionPermutes | src/types.ts:51-57 | the partition is a permutation |
| Selector.PartitionKeepsGroups | src/types.ts:51-57 | the partition puts unseen questions first and keeps each group's order |
| Selector.UnseenFirstSplits | src/types.ts:51-57 | a list with unseen questions first is its unseen part followed by its seen part |
| Selector.StablePartition | src/types.ts:51-57 | the sorted list puts every unseen question before every seen one (permutation and stability in `Selector.PartitionIsStableSort`) |
| Selector.StableSortIsPartition | src/types.ts:51-57 | any permutation that puts unseen first and keeps each class's order equals the partition, so the sort's result is determined |
| Selector.FilterQuestions | src/types.ts:40-61 | the in-place shuffle loop, the sort and the slice return a prefix of the stable partition of the shuffle; it has `min(count, n)` questions for `count >= 0` and `n + count` (at least 0) for a negative count; every question comes from the pool and unseen questions come first; when `count` covers all unseen questions, all of them are included |
| Selector.SelectedFacts | src/types.ts:40-61 | a prefix of the sorted shuffle with the slice's length has the promised size for either sign of `count`, comes from the pool, keeps unseen questions first and covers them when `count` allows |
| Selector.SortedPermutes | src/types.ts:44-57 | the shuffled and sorted pool is a permutation of the pool with unseen questions first |
| Selector.SliceLength | src/types.ts:60 | `slice(0, min(count, n))` keeps `min(count, n)` elements for `count >= 0` and `max(n + count, 0)` for `count < 0` |
| Selector.SelectedCoversUnseen | src/types.ts:60 | when `count` is at least the number of unseen questions, the result holds every one of them |
| Selector.SameMultisetSameLength | src/types.ts:51-57 | a permutation has the same length |
| Selector.PrefixKeeps | src/types.ts:60 | a prefix of a sorted list keeps unseen questions first and comes from the list |
| Selector.PrefixHoldsUnseen | src/types.ts:60 | a prefix at least as long as the unseen part holds all unseen questions |
| QuestionCard.LowerAscii | src/components/QuestionCard.tsx:34 | lowering a key keeps its length |
| QuestionCard.KeyChoiceExact | src/components/QuestionCard.tsx:34-40 | a key picks choice i iff it is the digit i+1 or the letter for i in either case |
| QuestionCard.KeyChoiceNone | src/components/QuestionCard.tsx:36-40 | every other key, Enter included, picks no choice |
| QuestionCard.KeyboardMatchesClick | src/components/QuestionCard.tsx:34-45 | pressing choice i's key does what clicking choice i does |
| QuestionCard.KeySubmitsOnlyWhenOpen | src/components/QuestionCard.tsx:42-54 | a key submits only while feedback is hidden, only an existing choice, and only the choice it names; Enter moves on iff feedback is shown or a choice is selected |
| QuestionCard.KeyAction | src/components/QuestionCard.tsx:32-55 | a key submits only while feedback is hidden, only an existing choice, and only a choice the key names; it moves on only for Enter with feedback shown or a choice selected |
| QuestionCard.ClickAction | src/components/QuestionCard.tsx:102 | a click never moves on, and submits exactly the clicked choice while feedback is hidden |
| QuestionCard.StatusClass | src/components/QuestionCard.tsx:90-96 | "correct" only with feedback on a correct choice, "incorrect" only with feedback on the selected wrong choice, "selected" only without feedback on the selected choice |
| QuestionCard.ExplanationShown | src/components/QuestionCard.tsx:109 | a choice explanation is rendered exactly when feedback is shown and the choice carries a status mark |
| QuestionCard.CardMarks | src/components/QuestionCard.tsx:90-109 | with feedback, correct choices are marked correct, at most one is marked incorrect, and explanations show exactly for marked choices; without feedback only the selected choice is marked |
| QuizRunner.Start | src/components/QuizRunner.tsx:16-21 | the quiz starts on the first question of the given questions and mode, with every answer null, feedback hidden and a 30-second timer |
| QuizRunner.AnswerStep | src/components/QuizRunner.tsx:61-71 | an answered question is never re-answered; otherwise only the current slot is set, and learning mode shows feedback; questions and mode are kept, and a finished session is left as it is |
| QuizRunner.NextStep | src/components/QuizRunner.tsx:27-37 | the answers, questions and mode are unchanged; before the last question it advances with feedback hidden and, in test mode, a full timer; on the last it hands the answers to `onFinish` and changes nothing else; a finished session is left as it is |
| QuizRunner.TickStep | src/components/QuizRunner.tsx:39-59 | the timer runs only in test mode on an unanswered question of an unfinished quiz; it counts down by one; at zero it writes the marker -1, then advances with a full timer, or on the last question stays there and hands over the answers as they were before the marker |
| QuizRunner.KeyStep | src/components/QuizRunner.tsx:100-107 | a key press keeps the session well formed |
| QuizRunner.ClickStep | src/components/QuizRunner.tsx:100-107 | a choice click keeps the session well formed |
| QuizRunner.StartIsOrderly | src/components/QuizRunner.tsx:16-21 | a non-empty quiz starts well formed, in order and without a Next button |
| QuizRunner.NextOffered | src/components/QuizRunner.tsx:111-122 | the Next button is rendered only when the card's Enter rule would also move on: feedback is shown or the current question is answered |
| QuizRunner.EnterMatchesNextButton | src/components/QuizRunner.tsx:104-122 | Enter moves on exactly when the Next button is shown |
| QuizRunner.AnswerKeepsOrder | src/components/QuizRunner.tsx:61-71 | answering keeps earlier questions answered, later ones unanswered, and feedback tied to the current answer |
| QuizRunner.NextKeepsOrder | src/components/QuizRunner.tsx:27-37 | moving on from an answered question keeps that order |
| QuizRunner.OfferedMeansAnswered | src/components/QuizRunner.tsx:111-122 | the Next button is shown exactly when the current question is answered |
| QuizRunner.TickKeepsOrder | src/components/QuizRunner.tsx:39-59 | the timer keeps that order |
| QuizRunner.EventsKeepOrder | src/components/QuizRunner.tsx:27-122 | every key press, click, Next click and timer tick keeps that order |
| QuizRunner.EnterOrAnsweredMoves | src/components/QuestionCard.tsx:48-54 | a key moves on only from an answered question |
| QuizRunner.EventsKeepRange | src/components/QuizRunner.tsx:39-71 | recorded answers are always an existing choice or the timeout marker |
| QuizRunner.AnswerKeepsRange | src/components/QuizRunner.tsx:61-71 | answering with an existing choice keeps answers in range |
| QuizRunner.TickKeepsRange | src/components/QuizRunner.tsx:45-51 | the timer records only the timeout marker |
| QuizRunner.FinishByNextIsComplete | src/components/QuizRunner.tsx:34-36 | finishing through Next hands over a list in which every question is answered |
| QuizRunner.LastTimeoutHandsOverNull | src/components/QuizRunner.tsx:45-51 | a timeout on the last question finishes with that slot still null in the handed-over list |
| QuizRunner.EarlierTimeoutRecordsMarker | src/components/QuizRunner.tsx:45-51 | a timeout on an earlier question records -1 and moves on |
| QuizRunner.FinishedListScorable | src/components/ResultSummary.tsx:19-21 | a handed-over list can be scored iff it holds no timeout marker |
| QuizRunner.FinishedIsFinal | src/App.tsx:24-27 | once the answers are handed over, no event changes the session |
| QuizRunner.LastTimeoutIsFinal | src/components/QuizRunner.tsx:45-51 | the list handed over by a timeout on the last question, with its null last slot, is not replaced by a later Next or key press |
| QuizRunner.Runner.constructor | src/components/QuizRunner.tsx:16-21 | the component's state starts as the initial session |
| QuizRunner.Runner.HandleAnswer | src/components/QuizRunner.tsx:61-71 | the in-place handler performs the answer step |
| QuizRunner.Runner.HandleNext | src/components/QuizRunner.tsx:27-37 | the in-place handler performs the next step |
| QuizRunner.Runner.Tick | src/components/QuizRunner.tsx:39-59 | the in-place timer performs the tick step |
| QuizRunner.Runner.PressKey | src/components/QuestionCard.tsx:32-55 | a key press performs the key step |
| QuizRunner.Runner.ClickChoice | src/components/QuestionCard.tsx:102 | a click performs the click step |
| QuizRunner.Runner.ClickNext | src/components/QuizRunner.tsx:111-122 | the Next button performs the next step |
| ResultSummary.CorrectCount | src/components/ResultSummary.tsx:19-21 | the score is between 0 and the number of answers |
| ResultSummary.CorrectCountCounts | src/components/ResultSummary.tsx:19-21 | the score is the number of positions whose answer names a correct choice |
| ResultSummary.CorrectPositionsStep | src/components/ResultSummary.tsx:19-21 | the correct positions of a list are those of its prefix plus the last one when correct |
| ResultSummary.TimeoutMarkerNotScorable | src/components/ResultSummary.tsx:20 | a list holding -1 cannot be scored |
| ResultSummary.Scorable | src/components/ResultSummary.tsx:19-21 | what the reduce needs in order not to throw: each non-null answer names an existing choice; a list of nulls can always be scored |
| ResultSummary.AnswerText | src/components/ResultSummary.tsx:116 | a null answer reads "Skipped", any other the text of the choice it names |
| ResultSummary.FirstCorrect | src/components/ResultSummary.tsx:119-125 | the first choice marked correct, or none exactly when no choice is correct |
| ResultSummary.CorrectAnswerText | src/components/ResultSummary.tsx:31 | the reported correct answer is never empty: the text of a correct choice, or "Unknown" when no choice is correct |
| ResultSummary.ShowCorrectBox | src/components/ResultSummary.tsx:119 | the box appears only when some choice is correct and the first correct choice is not the one chosen |
| ResultSummary.CorrectAnswerReport | src/components/ResultSummary.tsx:119-125 | the correct-answer box appears iff some choice is correct and the user's is not; "Unknown" is reported iff no choice is correct or the first correct text is empty or "Unknown" |
| App.App.constructor | src/App.tsx:12-15 | the app starts on the config screen with no questions, learning mode and no answers |
| App.App.StartQuiz | src/App.tsx:17-22 | starting stores a prefix of the stable partition of the shuffled pool: `min(count, n)` questions for `count >= 0`, all but the last `|count|` for `count < 0`; unseen questions come first and all of them are kept when `count` allows; the screen switches to the quiz in the chosen mode |
| App.App.FinishQuiz | src/App.tsx:24-27 | finishing stores the handed-over answers and switches to results |
| App.App.Restart | src/App.tsx:29-33 | restarting clears questions and answers, keeps the mode and returns to config |

## Left out

- Reading and writing `localStorage`, and `getHistory`: the stored history is a parameter, and `addToHistory` is modelled as a function from the old history to the new one. The app's screens never call `addToHistory`, so the model does not call it either.
- `Math.random` and `crypto.randomUUID`: replaced by the draw list `js` and the id source `freshId`.
- JSON parsing and the configuration screen, ConfigScreen.tsx: it is not part of this model, and validation starts from a parsed JSON value.
- JSON object key order, and repairs written onto an array item: JSON serialisation drops such properties, so they have no representation here.
- `count` that is NaN or fractional, which `Number(...)` can produce: `count` is an integer.
- Key lower-casing for characters outside ASCII: no such character lowers to `1`-`4` or `a`-`d`.
- The `onNext` presence check in the card: the runner always passes `onNext`.
- QuizRunner.Runner.constructor: does not require a non-empty quiz. An empty quiz is accepted, and the source then fails while rendering the card; the session invariants are stated only for non-empty quizzes.
- QuizRunner.KeyStep: states only that the session stays well formed. Its effect is the dispatch to `AnswerStep`, `NextStep` or nothing, which those members specify.
- QuizRunner.ClickStep: the same as KeyStep, for clicks.
- Presentation: progress percentage, timer formatting, score percentage (floating point), CSS classes as strings, the background toggle, and the clipboard texts for an AI assistant.
- The `QuizState` interface in types.ts: it is declared but no component uses it.
- Events after the quiz is finished: the runner is unmounted once it calls `onFinish`, so the `Runner` methods require an unfinished session, and the step functions leave a finished one unchanged.
- Timers: one second of the interval is `Tick`; clearing and rescheduling of the interval is not modelled.
