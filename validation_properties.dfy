/**
 * What the validator promises: acceptance means every repaired element has
 * the `Question` shape (and conversely), every error is located and reported
 * in item order, and the repair policy for `id` and `is_correct`.
 */
module ValidationProperties {
  import opened Wrappers
  import opened Json
  import opened Types
  import opened ValidationErrors
  import opened Validation

  // ------------------------------------------------- the shape, independently

  /** A JSON value that reads as a `Choice`. */
  predicate WellFormedChoice(c: Json) {
    && c.JObj?
    && IsString(Prop(c, "text"))
    && !BadOptionalString(Prop(c, "explanation"))
    && Prop(c, "is_correct").Some? && Prop(c, "is_correct").value.JBool?
  }

  /** A JSON value that reads as a `Question` whose id is non-empty and that has a correct choice. */
  predicate WellFormedQuestion(q: Json) {
    && q.JObj?
    && IsString(Prop(q, "id")) && Prop(q, "id").value.s != ""
    && IsString(Prop(q, "question"))
    && !BadOptionalString(Prop(q, "background_knowledge"))
    && !BadOptionalString(Prop(q, "explanation"))
    && Prop(q, "choices").Some? && Prop(q, "choices").value.JArr?
    && ChoicesWellFormed(Prop(q, "choices").value.items)
  }

  /** Every choice reads as a `Choice` and at least one of them is correct. */
  predicate ChoicesWellFormed(cs: seq<Json>) {
    && (forall k :: 0 <= k < |cs| ==> WellFormedChoice(cs[k]))
    && (exists k :: 0 <= k < |cs| && Prop(cs[k], "is_correct") == Some(JBool(true)))
  }

  function OptionalString(v: Option<Json>): Option<string> {
    if v.Some? && v.value.JStr? then Some(v.value.s) else None
  }

  function ToChoice(c: Json): (r: Choice)
    requires WellFormedChoice(c)
    ensures Some(r.text) == OptionalString(Prop(c, "text"))
    ensures r.isCorrect <==> Prop(c, "is_correct") == Some(JBool(true))
  {
    Choice(Prop(c, "text").value.s, Prop(c, "is_correct").value.b, OptionalString(Prop(c, "explanation")))
  }

  /** The `item as Question` cast, for an element the validator accepted. */
  function ToQuestion(q: Json): (r: Question)
    requires WellFormedQuestion(q)
    ensures r.id != ""
    ensures |r.choices| == |Prop(q, "choices").value.items| > 0
    ensures exists k :: 0 <= k < |r.choices| && r.choices[k].isCorrect
  {
    var cs := Prop(q, "choices").value.items;
    var choices := seq(|cs|, k requires 0 <= k < |cs| => ToChoice(cs[k]));
    var k :| 0 <= k < |cs| && Prop(cs[k], "is_correct") == Some(JBool(true));
    assert choices[k].isCorrect;
    Question(Prop(q, "id").value.s, Prop(q, "question").value.s,
             OptionalString(Prop(q, "background_knowledge")), OptionalString(Prop(q, "explanation")), choices)
  }

  // ------------------------------------------------- acceptance <==> shape

  lemma ChoiceAccepted(c: Json, k: nat, index: nat)
    ensures ChoiceErrors(c, k, index) == [] <==> WellFormedChoice(RepairChoice(c))
  {
  }

  lemma ChoicesAccepted(cs: seq<Json>, index: nat)
    ensures ChoicesPartErrors(Some(JArr(cs)), index) == [] <==> ChoicesWellFormed(RepairChoices(cs))
  {
    EachChoiceAccepted(cs, index);
    if forall k :: 0 <= k < |cs| ==> WellFormedChoice(RepairChoices(cs)[k]) {
      CorrectAfterRepair(cs);
    }
  }

  /** The choices' own checks are silent exactly when every repaired choice is well formed. */
  lemma EachChoiceAccepted(cs: seq<Json>, index: nat)
    ensures ChoicesErrors(cs, index) == [] <==> forall k :: 0 <= k < |cs| ==> WellFormedChoice(RepairChoices(cs)[k])
  {
    var check := (c: Json, k: nat) => ChoiceErrors(c, k, index);
    GatherEmpty(cs, check);
    forall k | 0 <= k < |cs| ensures check(cs[k], k) == [] <==> WellFormedChoice(RepairChoices(cs)[k]) {
      ChoiceAccepted(cs[k], k, index);
    }
  }

  /** Among well-formed repaired choices, the scan's truthiness test marks exactly
      those whose flag is `true`. */
  lemma CorrectAfterRepair(cs: seq<Json>)
    requires forall k :: 0 <= k < |cs| ==> WellFormedChoice(RepairChoices(cs)[k])
    ensures HasCorrectChoice(cs) <==> exists k :: 0 <= k < |cs| && Prop(RepairChoices(cs)[k], "is_correct") == Some(JBool(true))
  {
    var fixed := RepairChoices(cs);
    assert forall k :: 0 <= k < |cs| ==>
      (MarksCorrect(cs[k]) <==> Prop(fixed[k], "is_correct") == Some(JBool(true)));
  }

  lemma ItemAccepted(item: Json, index: nat, freshId: string)
    requires freshId != ""
    ensures ItemErrors(item, index) == [] <==> WellFormedQuestion(RepairItem(item, freshId))
  {
    if item.JObj? {
      var r := RepairItem(item, freshId);
      var ch := Prop(item, "choices");
      RepairKeepsFields(item, freshId);
      assert FieldErrors(item, index) == [] <==>
        !BadId(item) && IsString(Prop(item, "question"))
        && !BadOptionalString(Prop(item, "background_knowledge")) && !BadOptionalString(Prop(item, "explanation"));
      if ch.Some? && ch.value.JArr? {
        ChoicesAccepted(ch.value.items, index);
      }
    }
  }

  /** The repair of an object item sets a usable id when the old one is falsy,
      leaves the other fields alone, and repairs a `choices` array in place. */
  lemma RepairKeepsFields(item: Json, freshId: string)
    requires item.JObj? && freshId != ""
    ensures var r := RepairItem(item, freshId);
      && r.JObj?
      && (IsString(Prop(r, "id")) && Prop(r, "id").value.s != "" <==> !BadId(item))
      && Prop(r, "question") == Prop(item, "question")
      && Prop(r, "background_knowledge") == Prop(item, "background_knowledge")
      && Prop(r, "explanation") == Prop(item, "explanation")
      && (var ch := Prop(item, "choices");
          if ch.Some? && ch.value.JArr? then Prop(r, "choices") == Some(JArr(RepairChoices(ch.value.items)))
          else Prop(r, "choices") == ch)
  {
  }

  /** The batch is accepted exactly when the input is a non-empty array and every
      element, once repaired, has the `Question` shape with a correct choice. */
  lemma ValidIffWellFormed(data: Json, freshId: nat -> string)
    requires forall k :: freshId(k) != ""
    ensures Validate(data, freshId).isValid <==>
      && data.JArr? && |data.items| > 0
      && forall k :: 0 <= k < |data.items| ==> WellFormedQuestion(RepairAll(data.items, freshId)[k])
  {
    if data.JArr? && |data.items| > 0 {
      var items := data.items;
      GatherEmpty(items, ItemErrors);
      forall k | 0 <= k < |items|
        ensures ItemErrors(items[k], k) == [] <==> WellFormedQuestion(RepairAll(items, freshId)[k])
      {
        ItemAccepted(items[k], k, freshId(k));
      }
    }
  }

  /** What an accepted batch hands on: typed questions with non-empty ids and a correct choice each. */
  function AcceptedQuestions(data: Json, freshId: nat -> string): (qs: seq<Question>)
    requires forall k :: freshId(k) != ""
    requires Validate(data, freshId).isValid
    ensures |qs| == |Validate(data, freshId).data| > 0
    ensures forall k :: 0 <= k < |qs| ==> qs[k].id != "" && exists c :: 0 <= c < |qs[k].choices| && qs[k].choices[c].isCorrect
  {
    ValidIffWellFormed(data, freshId);
    var items := Validate(data, freshId).data;
    seq(|items|, k requires 0 <= k < |items| => ToQuestion(items[k]))
  }

  // ------------------------------------------------- location and order

  /** Every error a check raises for position `k` is located at `k` by `loc`. */
  ghost predicate Tags<T(!new)>(check: (T, nat) -> seq<ValidationError>, loc: ValidationError -> Option<nat>) {
    forall x, k: nat, e :: e in check(x, k) ==> loc(e) == Some(k)
  }

  /** The errors of `errs` that `loc` places at `i`, in the order they were reported. */
  function About(errs: seq<ValidationError>, loc: ValidationError -> Option<nat>, i: nat): (r: seq<ValidationError>)
    ensures forall e :: e in r <==> e in errs && loc(e) == Some(i)
    decreases |errs|
  {
    if errs == [] then []
    else (if loc(errs[0]) == Some(i) then [errs[0]] else []) + About(errs[1..], loc, i)
  }

  lemma {:induction false} AboutConcat(a: seq<ValidationError>, b: seq<ValidationError>, loc: ValidationError -> Option<nat>, i: nat)
    ensures About(a + b, loc, i) == About(a, loc, i) + About(b, loc, i)
    decreases |a|
  {
    if a != [] {
      var head := if loc(a[0]) == Some(i) then [a[0]] else [];
      assert (a + b)[0] == a[0];
      assert (a + b)[1..] == a[1..] + b;
      assert About(a + b, loc, i) == head + About(a[1..] + b, loc, i);
      AboutConcat(a[1..], b, loc, i);
      assert About(a, loc, i) == head + About(a[1..], loc, i);
    } else {
      assert a + b == b;
    }
  }

  lemma AboutNone(errs: seq<ValidationError>, loc: ValidationError -> Option<nat>, i: nat)
    requires forall e :: e in errs ==> loc(e) != Some(i)
    ensures About(errs, loc, i) == []
  {
    if About(errs, loc, i) != [] {
      assert About(errs, loc, i)[0] in About(errs, loc, i);
    }
  }

  lemma {:induction false} AboutAll(errs: seq<ValidationError>, loc: ValidationError -> Option<nat>, i: nat)
    requires forall e :: e in errs ==> loc(e) == Some(i)
    ensures About(errs, loc, i) == errs
    decreases |errs|
  {
    if errs != [] {
      assert errs[0] in errs;
      assert forall e :: e in errs[1..] ==> e in errs;
      AboutAll(errs[1..], loc, i);
    }
  }

  /** Gathered errors are located at positions of `xs`, in non-decreasing position order. */
  lemma {:induction false} GatherInOrder<T(!new)>(xs: seq<T>, check: (T, nat) -> seq<ValidationError>, loc: ValidationError -> Option<nat>)
    requires Tags(check, loc)
    ensures forall e :: e in Gather(xs, check) ==> loc(e).Some? && loc(e).value < |xs|
    ensures forall a, b :: 0 <= a < b < |Gather(xs, check)| ==>
      loc(Gather(xs, check)[a]).value <= loc(Gather(xs, check)[b]).value
    decreases |xs|
  {
    if xs != [] {
      var n := |xs| - 1;
      GatherInOrder(xs[..n], check, loc);
      var p, q := Gather(xs[..n], check), check(xs[n], n);
      assert Gather(xs, check) == p + q;
      assert forall e :: e in q ==> loc(e) == Some(n);
      assert forall a :: 0 <= a < |p| ==> p[a] in p;
      assert forall b :: 0 <= b < |q| ==> q[b] in q;
    }
  }

  /** The errors located at position `i` are exactly what the check for `xs[i]` raised. */
  lemma {:induction false} GatherAbout<T(!new)>(xs: seq<T>, check: (T, nat) -> seq<ValidationError>, loc: ValidationError -> Option<nat>, i: nat)
    requires Tags(check, loc) && i < |xs|
    ensures About(Gather(xs, check), loc, i) == check(xs[i], i)
    decreases |xs|
  {
    var n := |xs| - 1;
    var p, q := Gather(xs[..n], check), check(xs[n], n);
    assert Gather(xs, check) == p + q;
    AboutConcat(p, q, loc, i);
    assert forall e :: e in q ==> loc(e) == Some(n);
    if i == n {
      GatherInOrder(xs[..n], check, loc);
      AboutNone(p, loc, i);
      AboutAll(q, loc, i);
    } else {
      GatherAbout(xs[..n], check, loc, i);
      assert xs[..n][i] == xs[i];
      AboutNone(q, loc, i);
    }
  }

  lemma ChoiceErrorsTagged(index: nat)
    ensures Tags((c: Json, k: nat) => ChoiceErrors(c, k, index), ChoiceOf)
  {
    var check := (c: Json, k: nat) => ChoiceErrors(c, k, index);
    forall x, k: nat, e | e in check(x, k) ensures ChoiceOf(e) == Some(k) {
      assert check(x, k) == ChoiceErrors(x, k, index);
    }
  }

  lemma ItemErrorsTagged()
    ensures Tags(ItemErrors, ItemOf)
  {
    forall x, k: nat, e | e in ItemErrors(x, k) ensures ItemOf(e) == Some(k) {
      var ch := Prop(x, "choices");
      if IsObject(x) && ch.Some? && ch.value.JArr? {
        ChoicesOfOneItem(ch.value.items, k);
      }
    }
  }

  /** All choice errors of a question carry that question's index. */
  lemma {:induction false} ChoicesOfOneItem(cs: seq<Json>, index: nat)
    ensures forall e :: e in ChoicesErrors(cs, index) ==> ItemOf(e) == Some(index) && ChoiceOf(e).Some?
    decreases |cs|
  {
    if cs != [] {
      var n := |cs| - 1;
      ChoicesOfOneItem(cs[..n], index);
      assert ChoicesErrors(cs, index) == ChoicesErrors(cs[..n], index) + ChoiceErrors(cs[n], n, index);
    }
  }

  /** Every error of a scanned array names an element of it, and errors come in
      item order; within one question, choice errors come in choice order. */
  lemma ErrorsInOrder(items: seq<Json>, cs: seq<Json>, index: nat)
    ensures forall e :: e in AllErrors(items) ==> ItemOf(e).Some? && ItemOf(e).value < |items|
    ensures forall a, b :: 0 <= a < b < |AllErrors(items)| ==>
      ItemOf(AllErrors(items)[a]).value <= ItemOf(AllErrors(items)[b]).value
    ensures forall e :: e in ChoicesErrors(cs, index) ==> ChoiceOf(e).Some?
    ensures forall a, b :: 0 <= a < b < |ChoicesErrors(cs, index)| ==>
      ChoiceOf(ChoicesErrors(cs, index)[a]).value <= ChoiceOf(ChoicesErrors(cs, index)[b]).value < |cs|
  {
    ItemErrorsTagged();
    GatherInOrder(items, ItemErrors, ItemOf);
    ChoiceErrorsTagged(index);
    var check := (c: Json, k: nat) => ChoiceErrors(c, k, index);
    GatherInOrder(cs, check, ChoiceOf);
    assert forall a :: 0 <= a < |ChoicesErrors(cs, index)| ==> ChoicesErrors(cs, index)[a] in Gather(cs, check);
  }

  /** The errors about element `i` are exactly the ones its own checks raise, in
      their order: nothing short-circuits, and no other element's checks mention it. */
  lemma ErrorsOfItem(items: seq<Json>, i: nat)
    requires i < |items|
    ensures About(AllErrors(items), ItemOf, i) == ItemErrors(items[i], i)
  {
    ItemErrorsTagged();
    GatherAbout(items, ItemErrors, ItemOf, i);
  }

  /** An element that is falsy or not an object yields exactly one error, and is
      left as it is (and is not passed on, see Validation.Pushed). */
  lemma NonObjectItem(items: seq<Json>, freshId: nat -> string, i: nat)
    requires i < |items| && !IsObject(items[i])
    ensures About(AllErrors(items), ItemOf, i) == [ItemNotObject(i)]
    ensures RepairAll(items, freshId)[i] == items[i]
  {
    ErrorsOfItem(items, i);
    assert RepairAll(items, freshId)[i] == RepairItem(items[i], freshId(i));
  }

  // ------------------------------------------------- repair policy

  /** `id`: a falsy id (absent, "", 0, null, false) is replaced by the fresh id and is
      not an error; a truthy non-string id is reported and left as it is. The
      repair is in the caller's input whatever the verdict. */
  lemma IdRepairPolicy(data: Json, freshId: nat -> string, i: nat)
    requires data.JArr? && i < |data.items| && data.items[i].JObj?
    ensures var item, fixed := data.items[i], Repaired(data, freshId).items[i];
      && (!TruthyProp(Prop(item, "id")) ==>
           Prop(fixed, "id") == Some(JStr(freshId(i))) && IdNotString(i) !in Validate(data, freshId).errors)
      && (TruthyProp(Prop(item, "id")) && !Prop(item, "id").value.JStr? ==>
           Prop(fixed, "id") == Prop(item, "id") && IdNotString(i) in Validate(data, freshId).errors)
  {
    ErrorOfItemIn(data, freshId, i, IdNotString(i));
    IdErrorIn(data.items[i], i);
  }

  /** An error about item `i` is reported exactly when item `i`'s own checks raise it. */
  lemma ErrorOfItemIn(data: Json, freshId: nat -> string, i: nat, e: ValidationError)
    requires data.JArr? && i < |data.items| && ItemOf(e) == Some(i)
    ensures e in Validate(data, freshId).errors <==> e in ItemErrors(data.items[i], i)
  {
    ErrorsOfItem(data.items, i);
    assert Validate(data, freshId).errors == AllErrors(data.items);
    assert e in AllErrors(data.items) <==> e in About(AllErrors(data.items), ItemOf, i);
  }

  /** The id error is raised by an object item exactly when its id is truthy and not a string. */
  lemma IdErrorIn(item: Json, i: nat)
    requires item.JObj?
    ensures IdNotString(i) in ItemErrors(item, i) <==> BadId(item)
  {
    var ch := Prop(item, "choices");
    if ch.Some? && ch.value.JArr? {
      ChoicesOfOneItem(ch.value.items, i);
    }
  }

  /** In the repaired input, element `i` is `RepairItem` of the original, and a
      `choices` array in it is replaced by its repaired choices. */
  lemma RepairedAt(data: Json, freshId: nat -> string, i: nat)
    requires data.JArr? && i < |data.items|
    ensures Repaired(data, freshId).JArr? && |Repaired(data, freshId).items| == |data.items|
    ensures Repaired(data, freshId).items[i] == RepairItem(data.items[i], freshId(i))
    ensures var ch := Prop(data.items[i], "choices");
      ch.Some? && ch.value.JArr? ==>
        Prop(Repaired(data, freshId).items[i], "choices") == Some(JArr(RepairChoices(ch.value.items)))
  {
  }

  /** `is_correct`: absent becomes `false` with no error; present and not a boolean is
      reported and left as it is. Again the repair survives a failed batch. */
  lemma IsCorrectRepairPolicy(data: Json, freshId: nat -> string, i: nat, c: nat)
    requires data.JArr? && i < |data.items| && data.items[i].JObj?
    requires Prop(data.items[i], "choices").Some? && Prop(data.items[i], "choices").value.JArr?
    requires c < |Prop(data.items[i], "choices").value.items|
    requires Prop(data.items[i], "choices").value.items[c].JObj?
    ensures var cs := Prop(data.items[i], "choices").value.items;
      && Prop(Repaired(data, freshId).items[i], "choices") == Some(JArr(RepairChoices(cs)))
      && (Prop(cs[c], "is_correct").None? ==>
           Prop(RepairChoice(cs[c]), "is_correct") == Some(JBool(false))
           && ChoiceIsCorrectNotBoolean(i, c) !in Validate(data, freshId).errors)
      && (Prop(cs[c], "is_correct").Some? && !Prop(cs[c], "is_correct").value.JBool? ==>
           RepairChoice(cs[c]) == cs[c]
           && ChoiceIsCorrectNotBoolean(i, c) in Validate(data, freshId).errors)
  {
    var cs := Prop(data.items[i], "choices").value.items;
    RepairedAt(data, freshId, i);
    var e := ChoiceIsCorrectNotBoolean(i, c);
    ErrorOfItemIn(data, freshId, i, e);
    ChoiceErrorsAt(cs, i, c);
    assert e in ItemErrors(data.items[i], i) <==> e in ChoicesErrors(cs, i);
  }

  /** A choice-level error about choice `c` is among the choices' errors exactly
      when that choice's own checks raise it. */
  lemma ChoiceErrorsAt(cs: seq<Json>, index: nat, c: nat)
    requires c < |cs|
    ensures forall e :: ChoiceOf(e) == Some(c) ==> (e in ChoicesErrors(cs, index) <==> e in ChoiceErrors(cs[c], c, index))
  {
    ChoiceErrorsTagged(index);
    GatherAbout(cs, (x: Json, k: nat) => ChoiceErrors(x, k, index), ChoiceOf, c);
  }

  /** The "at least one correct choice" error is raised for a question with a
      `choices` array exactly when no object choice has a truthy `is_correct`. */
  lemma NoCorrectChoicePolicy(data: Json, freshId: nat -> string, i: nat)
    requires data.JArr? && i < |data.items| && data.items[i].JObj?
    requires Prop(data.items[i], "choices").Some? && Prop(data.items[i], "choices").value.JArr?
    ensures var cs := Prop(data.items[i], "choices").value.items;
      NoCorrectChoice(i) in Validate(data, freshId).errors <==>
        !exists k :: 0 <= k < |cs| && IsObject(cs[k]) && TruthyProp(Prop(cs[k], "is_correct"))
  {
    var cs := Prop(data.items[i], "choices").value.items;
    ErrorOfItemIn(data, freshId, i, NoCorrectChoice(i));
    ChoicesOfOneItem(cs, i);
    assert NoCorrectChoice(i) in ItemErrors(data.items[i], i) <==> !HasCorrectChoice(cs);
  }
}
