/**
 * The input gating and feedback rules of one question's card: which key picks
 * which choice, when a key or a click submits an answer, when Enter moves on,
 * and how each choice is marked once feedback is shown.
 */
module QuestionCard {
  import opened Wrappers
  import opened Types

  /** What a key press or a click asks the quiz runner to do. */
  datatype Action = SubmitAnswer(choice: nat) | GoNext | Ignore

  /** `toLowerCase` on the letters that matter here; no other character lowers to
      one of `1`-`4` or `a`-`d`, so ASCII folding decides the same comparisons. */
  function LowerAscii(s: string): (r: string)
    ensures |r| == |s|
  {
    seq(|s|, k requires 0 <= k < |s| => if 'A' <= s[k] <= 'Z' then (s[k] - 'A' + 'a') as char else s[k])
  }

  /** `choiceIndex` as `handleKeyPress` computes it: 0-3 for `1`-`4` or `a`-`d`
      in either case, -1 for every other key. */
  function KeyChoice(key: string): (i: int)
    ensures -1 <= i <= 3
  {
    var k := LowerAscii(key);
    if k == "1" || k == "a" then 0
    else if k == "2" || k == "b" then 1
    else if k == "3" || k == "c" then 2
    else if k == "4" || k == "d" then 3
    else -1
  }

  /** The keys that pick choice `i`: its digit, its lower-case and its upper-case letter. */
  predicate IsKeyFor(key: string, i: nat) {
    i < 4 && (key == ['1' + i as char] || key == ['a' + i as char] || key == ['A' + i as char])
  }

  /** The key map is exactly the intended one: a key picks choice `i` if and only
      if it is one of the three keys for `i`. */
  lemma KeyChoiceExact(key: string, i: nat)
    ensures KeyChoice(key) == i <==> IsKeyFor(key, i)
  {
    var k := LowerAscii(key);
    if |key| == 1 {
      assert k == [k[0]];
      assert 'A' <= key[0] <= 'Z' ==> k[0] == (key[0] - 'A' + 'a') as char;
      assert !('A' <= key[0] <= 'Z') ==> k[0] == key[0];
    } else {
      assert |k| != 1;
    }
  }

  /** Every other key, Enter included, picks nothing. */
  lemma KeyChoiceNone(key: string)
    ensures KeyChoice(key) == -1 <==> forall j: nat :: j < 4 ==> !IsKeyFor(key, j)
  {
    KeyChoiceExact(key, 0);
    KeyChoiceExact(key, 1);
    KeyChoiceExact(key, 2);
    KeyChoiceExact(key, 3);
  }

  /** `handleKeyPress`: a choice key submits when its choice exists and feedback is
      hidden (and then nothing else happens); otherwise Enter moves on when
      feedback is shown or a choice is selected. */
  function KeyAction(key: string, choiceCount: nat, showFeedback: bool, selected: Answer): (a: Action)
    ensures a.SubmitAnswer? ==> !showFeedback && a.choice < choiceCount && IsKeyFor(key, a.choice)
    ensures a.GoNext? ==> key == "Enter" && (showFeedback || selected.Some?)
  {
    var i := KeyChoice(key);
    if i != -1 && i < choiceCount && !showFeedback then
      KeyChoiceExact(key, i);
      SubmitAnswer(i)
    else if key == "Enter" && (showFeedback || selected.Some?) then GoNext
    else Ignore
  }

  /** The click handler of choice `i`'s button. */
  function ClickAction(i: nat, showFeedback: bool): (a: Action)
    ensures !a.GoNext?
    ensures a.SubmitAnswer? <==> !showFeedback
    ensures a.SubmitAnswer? ==> a.choice == i
  {
    if !showFeedback then SubmitAnswer(i) else Ignore
  }

  /** Pressing a key for choice `i` does what clicking choice `i` does, for the
      four choices that have keys. */
  lemma KeyboardMatchesClick(key: string, i: nat, choiceCount: nat, showFeedback: bool, selected: Answer)
    requires IsKeyFor(key, i) && i < choiceCount
    ensures KeyAction(key, choiceCount, showFeedback, selected) == ClickAction(i, showFeedback)
  {
    KeyChoiceExact(key, i);
  }

  /** A key submits an answer only when feedback is hidden, only for an existing
      choice, and only for the choice it names; Enter never submits. */
  lemma KeySubmitsOnlyWhenOpen(key: string, choiceCount: nat, showFeedback: bool, selected: Answer)
    ensures KeyAction(key, choiceCount, showFeedback, selected).SubmitAnswer? ==>
      var i := KeyAction(key, choiceCount, showFeedback, selected).choice;
      !showFeedback && i < choiceCount && IsKeyFor(key, i)
    ensures KeyAction("Enter", choiceCount, showFeedback, selected) == if showFeedback || selected.Some? then GoNext else Ignore
  {
    var a := KeyAction(key, choiceCount, showFeedback, selected);
    if a.SubmitAnswer? {
      KeyChoiceExact(key, a.choice);
    }
    assert LowerAscii("Enter") == "enter";
  }

  datatype Status = Plain | Correct | Incorrect | Selected

  /** `statusClass` of choice `index`. */
  function StatusClass(choice: Choice, index: nat, selected: Answer, showFeedback: bool): (st: Status)
    ensures st == Correct ==> showFeedback && choice.isCorrect
    ensures st == Incorrect ==> showFeedback && !choice.isCorrect && selected == Some(index)
    ensures st == Selected ==> !showFeedback && selected == Some(index)
  {
    if showFeedback then
      if choice.isCorrect then Correct
      else if selected == Some(index) then Incorrect
      else Plain
    else if selected == Some(index) then Selected
    else Plain
  }

  /** Whether choice `index`'s explanation is rendered. */
  function ExplanationShown(choice: Choice, index: nat, selected: Answer, showFeedback: bool): (shown: bool)
    ensures shown <==> showFeedback && StatusClass(choice, index, selected, showFeedback) != Plain
  {
    showFeedback && (selected == Some(index) || choice.isCorrect)
  }

  /** Marks over a whole card. With feedback shown, correct choices are marked
      correct, at most one choice (the selected one, if wrong) is marked
      incorrect, nothing is marked selected, and an explanation is shown exactly
      for the marked choices. With feedback hidden, only the selected choice is
      marked and no explanation is shown. */
  lemma CardMarks(choices: seq<Choice>, selected: Answer, showFeedback: bool)
    ensures showFeedback ==> forall i :: 0 <= i < |choices| ==>
      && (StatusClass(choices[i], i, selected, true) == Correct <==> choices[i].isCorrect)
      && (StatusClass(choices[i], i, selected, true) != Selected)
      && (ExplanationShown(choices[i], i, selected, true) <==> StatusClass(choices[i], i, selected, true) != Plain)
    ensures showFeedback ==> forall i, j :: 0 <= i < j < |choices| ==>
      !(StatusClass(choices[i], i, selected, true) == Incorrect && StatusClass(choices[j], j, selected, true) == Incorrect)
    ensures !showFeedback ==> forall i :: 0 <= i < |choices| ==>
      && (StatusClass(choices[i], i, selected, false) != Plain <==> selected == Some(i))
      && StatusClass(choices[i], i, selected, false) in {Plain, Selected}
      && !ExplanationShown(choices[i], i, selected, false)
  {
  }
}
