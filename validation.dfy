/**
 * `validateQuestionsJSON`: checks an untyped value against the question and
 * choice shapes, collecting every problem as a located message, and repairs
 * the input on the way (a falsy `id` gets a fresh one, an absent `is_correct`
 * becomes `false`). Acceptance is all-or-nothing.
 *
 * The specification is given as functions (ItemErrors, RepairItem, Validate,
 * Repaired); the method ValidateQuestionsJSON is the scan the source performs
 * and is proved to compute exactly them.
 */
module Validation {
  import opened Wrappers
  import opened Json
  import opened Types
  import opened ValidationErrors

  datatype ValidationResult = ValidationResult(isValid: bool, errors: seq<ValidationError>, data: seq<Json>)

  // ---------------------------------------------------------------- choices

  /** The errors one choice contributes, in the order the checks run. */
  function ChoiceErrors(choice: Json, c: nat, index: nat): (r: seq<ValidationError>)
    ensures forall e :: e in r ==> ItemOf(e) == Some(index) && ChoiceOf(e) == Some(c)
    ensures !IsObject(choice) <==> ChoiceNotObject(index, c) in r
  {
    if !IsObject(choice) then [ChoiceNotObject(index, c)]
    else
      (if !IsString(Prop(choice, "text")) then [ChoiceTextNotString(index, c)] else [])
      + (if BadOptionalString(Prop(choice, "explanation")) then [ChoiceExplanationNotString(index, c)] else [])
      + (var ic := Prop(choice, "is_correct");
         if ic.Some? && !ic.value.JBool? then [ChoiceIsCorrectNotBoolean(index, c)] else [])
  }

  /** The in-place repair of one choice: an absent `is_correct` becomes `false`.
      On an array the property would be set but is not part of its JSON. */
  function RepairChoice(choice: Json): (r: Json)
    ensures !choice.JObj? ==> r == choice
    ensures choice.JObj? ==> r.JObj? && r.fields.Keys == choice.fields.Keys + {"is_correct"}
    ensures choice.JObj? ==> forall k :: k in choice.fields ==> r.fields[k] == choice.fields[k]
  {
    if choice.JObj? && "is_correct" !in choice.fields then JObj(choice.fields["is_correct" := JBool(false)])
    else choice
  }

  /** Whether the scan sets `hasCorrectChoice` on this choice. */
  predicate MarksCorrect(choice: Json) {
    IsObject(choice) && TruthyProp(Prop(choice, "is_correct"))
  }

  /** The error list a `forEach` over `xs` builds when the callback for element
      `k` pushes `check(xs[k], k)`: the checks' errors, concatenated in order. */
  function Gather<T>(xs: seq<T>, check: (T, nat) -> seq<ValidationError>): seq<ValidationError>
    decreases |xs|
  {
    if xs == [] then [] else Gather(xs[..|xs| - 1], check) + check(xs[|xs| - 1], |xs| - 1)
  }

  function ChoicesErrors(cs: seq<Json>, index: nat): seq<ValidationError> {
    Gather(cs, (c: Json, k: nat) => ChoiceErrors(c, k, index))
  }

  function RepairChoices(cs: seq<Json>): (r: seq<Json>)
    ensures |r| == |cs|
  {
    seq(|cs|, k requires 0 <= k < |cs| => RepairChoice(cs[k]))
  }

  predicate HasCorrectChoice(cs: seq<Json>) {
    exists k :: 0 <= k < |cs| && MarksCorrect(cs[k])
  }

  // ---------------------------------------------------------------- items

  /** One check's contribution: its error when the check fails, nothing otherwise. */
  function When(failed: bool, e: ValidationError): seq<ValidationError> {
    if failed then [e] else []
  }

  /** The `id` check: only a truthy `id` that is not a string is an error. */
  predicate BadId(item: Json) {
    TruthyProp(Prop(item, "id")) && !Prop(item, "id").value.JStr?
  }

  /** The errors one element of the input array contributes, in check order. */
  function ItemErrors(item: Json, index: nat): (r: seq<ValidationError>)
    ensures !IsObject(item) ==> r == [ItemNotObject(index)]
    ensures IsObject(item) && !IsString(Prop(item, "question")) ==> QuestionNotString(index) in r
    ensures IsObject(item) && !(Prop(item, "choices").Some? && Prop(item, "choices").value.JArr?) ==>
      ChoicesNotArray(index) in r
  {
    if !IsObject(item) then [ItemNotObject(index)]
    else FieldErrors(item, index) + ChoicesPartErrors(Prop(item, "choices"), index)
  }

  /** The checks on `id`, `question`, `background_knowledge` and `explanation`. */
  function FieldErrors(item: Json, index: nat): seq<ValidationError> {
    When(BadId(item), IdNotString(index))
    + When(!IsString(Prop(item, "question")), QuestionNotString(index))
    + When(BadOptionalString(Prop(item, "background_knowledge")), BackgroundNotString(index))
    + When(BadOptionalString(Prop(item, "explanation")), ExplanationNotString(index))
  }

  function ChoicesPartErrors(choices: Option<Json>, index: nat): seq<ValidationError> {
    if !(choices.Some? && choices.value.JArr?) then [ChoicesNotArray(index)]
    else
      ChoicesErrors(choices.value.items, index)
      + (if HasCorrectChoice(choices.value.items) then [] else [NoCorrectChoice(index)])
  }

  /** The in-place repair of one element: a falsy `id` is replaced by `freshId`,
      and the choices of a `choices` array are repaired. Non-objects are left alone. */
  function RepairItem(item: Json, freshId: string): (r: Json)
    ensures !item.JObj? ==> r == item
    ensures item.JObj? ==> r.JObj? && r.fields.Keys == item.fields.Keys + {"id"}
    ensures item.JObj? ==> forall k :: k in item.fields && k != "id" && k != "choices" ==> r.fields[k] == item.fields[k]
  {
    if !item.JObj? then item
    else
      var f := if TruthyProp(Prop(item, "id")) then item.fields else item.fields["id" := JStr(freshId)];
      if "choices" in f && f["choices"].JArr? then JObj(f["choices" := JArr(RepairChoices(f["choices"].items))])
      else JObj(f)
  }

  // ---------------------------------------------------------------- batch

  function AllErrors(items: seq<Json>): seq<ValidationError> {
    Gather(items, ItemErrors)
  }

  function RepairAll(items: seq<Json>, freshId: nat -> string): (r: seq<Json>)
    ensures |r| == |items|
  {
    seq(|items|, k requires 0 <= k < |items| => RepairItem(items[k], freshId(k)))
  }

  /** The elements pushed onto `validated`: the repaired objects, skipping non-objects. */
  function Pushed(items: seq<Json>, freshId: nat -> string): seq<Json>
    decreases |items|
  {
    if items == [] then []
    else
      var n := |items| - 1;
      Pushed(items[..n], freshId) + (if IsObject(items[n]) then [RepairItem(items[n], freshId(n))] else [])
  }

  /** The input as the caller sees it after the scan: repairs stay in it whatever the verdict. */
  function Repaired(data: Json, freshId: nat -> string): (r: Json)
    ensures r.JArr? <==> data.JArr?
    ensures data.JArr? ==> |r.items| == |data.items|
    ensures !data.JArr? ==> r == data
  {
    if data.JArr? then JArr(RepairAll(data.items, freshId)) else data
  }

  /** The returned `ValidationResult`. */
  function Validate(data: Json, freshId: nat -> string): (r: ValidationResult)
    ensures r.isValid <==> r.errors == []
    ensures !r.isValid ==> r.data == []
    ensures !data.JArr? ==> r.errors == [NotAnArray]
    ensures data.JArr? && data.items == [] ==> r.errors == [EmptyArray]
    ensures r.isValid ==> data.JArr? && r.data == RepairAll(data.items, freshId)
  {
    if !data.JArr? then ValidationResult(false, [NotAnArray], [])
    else if data.items == [] then ValidationResult(false, [EmptyArray], [])
    else
      var errors := AllErrors(data.items);
      if errors == [] then
        NoErrorsAllObjects(data.items);
        PushedAllObjects(data.items, freshId);
        ValidationResult(true, errors, Pushed(data.items, freshId))
      else ValidationResult(false, errors, [])
  }

  /** A gathered list is empty exactly when every check came back empty. */
  lemma {:induction false} GatherEmpty<T>(xs: seq<T>, check: (T, nat) -> seq<ValidationError>)
    ensures Gather(xs, check) == [] <==> forall k :: 0 <= k < |xs| ==> check(xs[k], k) == []
    decreases |xs|
  {
    if xs != [] {
      var n := |xs| - 1;
      var p := xs[..n];
      GatherEmpty(p, check);
      assert forall k :: 0 <= k < n ==> p[k] == xs[k];
    }
  }

  lemma NoErrorsAllObjects(items: seq<Json>)
    requires AllErrors(items) == []
    ensures forall k :: 0 <= k < |items| ==> IsObject(items[k])
  {
    GatherEmpty(items, ItemErrors);
  }

  lemma {:induction false} PushedAllObjects(items: seq<Json>, freshId: nat -> string)
    requires forall k :: 0 <= k < |items| ==> IsObject(items[k])
    ensures Pushed(items, freshId) == RepairAll(items, freshId)
    decreases |items|
  {
    if items != [] {
      var n := |items| - 1;
      PushedAllObjects(items[..n], freshId);
      assert RepairAll(items, freshId) == RepairAll(items[..n], freshId) + [RepairItem(items[n], freshId(n))];
    }
  }

  // ---------------------------------------------------------------- the scan

  /** The `item.choices.forEach` loop: checks each choice, repairs it in place
      and raises `hasCorrectChoice` on a choice whose `is_correct` is truthy. */
  method CheckChoices(cs: seq<Json>, index: nat) returns (errors: seq<ValidationError>, fixed: seq<Json>, hasCorrect: bool)
    ensures errors == ChoicesErrors(cs, index)
    ensures fixed == RepairChoices(cs)
    ensures hasCorrect <==> HasCorrectChoice(cs)
  {
    errors, fixed, hasCorrect := [], [], false;
    var c := 0;
    while c < |cs|
      invariant 0 <= c <= |cs|
      invariant errors == ChoicesErrors(cs[..c], index)
      invariant fixed == RepairChoices(cs[..c])
      invariant hasCorrect == HasCorrectChoice(cs[..c])
    {
      ChoicesStep(cs, c, index);
      var choiceErrors, fixedChoice, marks := CheckChoice(cs[c], c, index);
      errors := errors + choiceErrors;
      fixed := fixed + [fixedChoice];
      if marks {
        hasCorrect := true;
      }
      c := c + 1;
    }
    assert cs[..|cs|] == cs;
  }

  /** Extending the scanned choices by one adds that choice's errors. */
  lemma ChoicesStep(cs: seq<Json>, c: nat, index: nat)
    requires c < |cs|
    ensures ChoicesErrors(cs[..c + 1], index) == ChoicesErrors(cs[..c], index) + ChoiceErrors(cs[c], c, index)
    ensures RepairChoices(cs[..c + 1]) == RepairChoices(cs[..c]) + [RepairChoice(cs[c])]
    ensures HasCorrectChoice(cs[..c + 1]) == (HasCorrectChoice(cs[..c]) || MarksCorrect(cs[c]))
  {
    var next := cs[..c + 1];
    assert next[..c] == cs[..c] && next[c] == cs[c];
    if MarksCorrect(cs[c]) {
      assert MarksCorrect(next[c]);
    }
    if HasCorrectChoice(cs[..c]) {
      var k :| 0 <= k < c && MarksCorrect(cs[..c][k]);
      assert MarksCorrect(next[k]);
    }
  }

  /** The inner `forEach` callback for choice `c`. */
  method CheckChoice(choice: Json, c: nat, index: nat) returns (errors: seq<ValidationError>, fixed: Json, marks: bool)
    ensures errors == ChoiceErrors(choice, c, index)
    ensures fixed == RepairChoice(choice)
    ensures marks == MarksCorrect(choice)
  {
    fixed := choice;
    if !IsObject(choice) {
      return [ChoiceNotObject(index, c)], fixed, false;
    }
    errors := [];
    if !IsString(Prop(choice, "text")) {
      errors := errors + [ChoiceTextNotString(index, c)];
    }
    if BadOptionalString(Prop(choice, "explanation")) {
      errors := errors + [ChoiceExplanationNotString(index, c)];
    }
    var isCorrect := Prop(choice, "is_correct");
    if isCorrect.None? {
      if choice.JObj? {
        fixed := JObj(choice.fields["is_correct" := JBool(false)]);
      }
    } else if !isCorrect.value.JBool? {
      errors := errors + [ChoiceIsCorrectNotBoolean(index, c)];
    }
    marks := TruthyProp(Prop(fixed, "is_correct"));
  }

  /** The body of the outer `forEach` callback for an element that is an object
      (or an array): field checks and in-place repairs. */
  method CheckItem(item: Json, index: nat, freshId: string) returns (errors: seq<ValidationError>, fixed: Json)
    requires IsObject(item)
    ensures errors == ItemErrors(item, index)
    ensures fixed == RepairItem(item, freshId)
  {
    fixed := item;
    if !TruthyProp(Prop(item, "id")) && item.JObj? {
      fixed := JObj(item.fields["id" := JStr(freshId)]);
    }
    errors := CheckFields(item, index);
    var choices := Prop(item, "choices");
    if !(choices.Some? && choices.value.JArr?) {
      errors := errors + [ChoicesNotArray(index)];
    } else {
      var choiceErrors, fixedChoices, hasCorrect := CheckChoices(choices.value.items, index);
      errors := errors + choiceErrors;
      if !hasCorrect {
        errors := errors + [NoCorrectChoice(index)];
      }
      fixed := JObj(fixed.fields["choices" := JArr(fixedChoices)]);
    }
  }

  /** The checks on `id`, `question`, `background_knowledge` and `explanation`, in that order. */
  method CheckFields(item: Json, index: nat) returns (errors: seq<ValidationError>)
    ensures errors == FieldErrors(item, index)
  {
    errors := [];
    var id := Prop(item, "id");
    if TruthyProp(id) && !id.value.JStr? {
      errors := errors + [IdNotString(index)];
    }
    if !IsString(Prop(item, "question")) {
      errors := errors + [QuestionNotString(index)];
    }
    if BadOptionalString(Prop(item, "background_knowledge")) {
      errors := errors + [BackgroundNotString(index)];
    }
    if BadOptionalString(Prop(item, "explanation")) {
      errors := errors + [ExplanationNotString(index)];
    }
  }

  /** `validateQuestionsJSON`. `freshId(i)` stands for the `crypto.randomUUID()`
      drawn when element `i` has a falsy `id`; `repaired` is the caller's input
      as it stands after the in-place repairs. */
  method ValidateQuestionsJSON(data: Json, freshId: nat -> string) returns (result: ValidationResult, repaired: Json)
    ensures result == Validate(data, freshId)
    ensures repaired == Repaired(data, freshId)
  {
    if !data.JArr? {
      return ValidationResult(false, [NotAnArray], []), data;
    }
    var items := data.items;
    if |items| == 0 {
      return ValidationResult(false, [EmptyArray], []), data;
    }
    var errors: seq<ValidationError> := [];
    var validated: seq<Json> := [];
    var fixed: seq<Json> := [];
    var i := 0;
    while i < |items|
      invariant 0 <= i <= |items|
      invariant errors == AllErrors(items[..i])
      invariant validated == Pushed(items[..i], freshId)
      invariant |fixed| == i && forall k :: 0 <= k < i ==> fixed[k] == RepairItem(items[k], freshId(k))
    {
      ScanStep(items, i, freshId);
      var itemErrors, pushed, fixedItem := ScanItem(items[i], i, freshId(i));
      errors := errors + itemErrors;
      validated := validated + pushed;
      fixed := fixed + [fixedItem];
      i := i + 1;
    }
    assert items[..|items|] == items;
    assert fixed == RepairAll(items, freshId);
    result := ValidationResult(|errors| == 0, errors, if |errors| == 0 then validated else []);
    repaired := JArr(fixed);
  }

  /** The outer `forEach` callback for element `index`: a non-object is reported
      and skipped; an object is checked, repaired and pushed onto `validated`. */
  method ScanItem(item: Json, index: nat, freshId: string) returns (errors: seq<ValidationError>, pushed: seq<Json>, fixed: Json)
    ensures errors == ItemErrors(item, index)
    ensures pushed == if IsObject(item) then [RepairItem(item, freshId)] else []
    ensures fixed == RepairItem(item, freshId)
  {
    if !IsObject(item) {
      return [ItemNotObject(index)], [], item;
    }
    errors, fixed := CheckItem(item, index, freshId);
    pushed := [fixed];
  }

  /** Extending the scanned prefix by one element adds that element's errors and pushes. */
  lemma ScanStep(items: seq<Json>, i: nat, freshId: nat -> string)
    requires i < |items|
    ensures AllErrors(items[..i + 1]) == AllErrors(items[..i]) + ItemErrors(items[i], i)
    ensures Pushed(items[..i + 1], freshId) == Pushed(items[..i], freshId) + (if IsObject(items[i]) then [RepairItem(items[i], freshId(i))] else [])
  {
    var next := items[..i + 1];
    assert next[..i] == items[..i] && next[i] == items[i];
  }
}
