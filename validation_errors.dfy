/**
 * The validator's diagnostics: one constructor per message the validator can
 * emit, carrying the item (and choice) position, and the rendering of each as
 * the exact human-readable text the user sees.
 */
module ValidationErrors {
  import opened Wrappers

  datatype ValidationError =
    | NotAnArray
    | EmptyArray
    | ItemNotObject(index: nat)
    | IdNotString(index: nat)
    | QuestionNotString(index: nat)
    | BackgroundNotString(index: nat)
    | ExplanationNotString(index: nat)
    | ChoicesNotArray(index: nat)
    | ChoiceNotObject(index: nat, choice: nat)
    | ChoiceTextNotString(index: nat, choice: nat)
    | ChoiceExplanationNotString(index: nat, choice: nat)
    | ChoiceIsCorrectNotBoolean(index: nat, choice: nat)
    | NoCorrectChoice(index: nat)

  /** The item an error is about; the two structural errors are about no item. */
  function ItemOf(e: ValidationError): Option<nat> {
    match e
    case NotAnArray => None
    case EmptyArray => None
    case _ => Some(e.index)
  }

  /** The choice an error is about, for the four choice-level errors. */
  function ChoiceOf(e: ValidationError): Option<nat> {
    match e
    case ChoiceNotObject(_, c) => Some(c)
    case ChoiceTextNotString(_, c) => Some(c)
    case ChoiceExplanationNotString(_, c) => Some(c)
    case ChoiceIsCorrectNotBoolean(_, c) => Some(c)
    case _ => None
  }

  predicate IsDigit(ch: char) {
    '0' <= ch <= '9'
  }

  /** Decimal rendering of a position, as template-literal interpolation writes it. */
  function NatToString(n: nat): (s: string)
    ensures |s| > 0
    ensures forall k :: 0 <= k < |s| ==> IsDigit(s[k])
    decreases n
  {
    var d := ['0' + (n % 10) as char];
    if n < 10 then d else NatToString(n / 10) + d
  }

  /** Decimal reading of a string of digits, as the `(\d+)` capture is read back. */
  function ParseNat(s: string): nat
    decreases |s|
  {
    if s == [] then 0
    else 10 * ParseNat(s[..|s| - 1]) + (if IsDigit(s[|s| - 1]) then (s[|s| - 1] - '0') as nat else 0)
  }

  lemma {:induction false} ParseNatToString(n: nat)
    ensures ParseNat(NatToString(n)) == n
    decreases n
  {
    var s := NatToString(n);
    if n >= 10 {
      ParseNatToString(n / 10);
      assert s[..|s| - 1] == NatToString(n / 10);
    }
  }

  /** The two location tags the message texts embed. */
  function IndexTag(i: nat): string { "index " + NatToString(i) + " " }
  function QuestionTag(i: nat): string { "question " + NatToString(i) + " " }
  function ChoiceTag(c: nat): string { "Choice " + NatToString(c) + " " }

  /** The message text pushed onto the error list. */
  function Render(e: ValidationError): (m: string)
    ensures |m| > 0 && m[|m| - 1] == '.'
  {
    match e
    case NotAnArray => "Input must be a top-level JSON array of questions."
    case EmptyArray => "No questions found in the array. The array is empty."
    case ItemNotObject(i) => "Item at " + IndexTag(i) + "is not a valid object."
    case IdNotString(i) => "Question at " + IndexTag(i) + "'id' must be a string if provided."
    case QuestionNotString(i) => "Question at " + IndexTag(i) + "must have a string 'question'."
    case BackgroundNotString(i) =>
      "Question at " + IndexTag(i) + "'background_knowledge' must be a string if provided."
    case ExplanationNotString(i) => "Question at " + IndexTag(i) + "'explanation' must be a string if provided."
    case ChoicesNotArray(i) => "Question at " + IndexTag(i) + "must have a 'choices' array."
    case ChoiceNotObject(i, c) => ChoiceTag(c) + "in " + QuestionTag(i) + "is not a valid object."
    case ChoiceTextNotString(i, c) => ChoiceTag(c) + "in " + QuestionTag(i) + "must have a string 'text'."
    case ChoiceExplanationNotString(i, c) =>
      ChoiceTag(c) + "in " + QuestionTag(i) + "'explanation' must be a string if provided."
    case ChoiceIsCorrectNotBoolean(i, c) =>
      ChoiceTag(c) + "in " + QuestionTag(i) + "'is_correct' must be a boolean."
    case NoCorrectChoice(i) =>
      "Question at " + IndexTag(i) + "must have at least one choice where 'is_correct' is true."
  }

  /** `key` occurs somewhere inside `msg`. */
  predicate IsInfix(key: string, msg: string)
    decreases |msg|
  {
    key <= msg || (|msg| > 0 && IsInfix(key, msg[1..]))
  }

  lemma {:induction false} InfixOfConcat(pre: string, key: string, post: string)
    ensures IsInfix(key, pre + key + post)
    decreases |pre|
  {
    if pre != [] {
      InfixOfConcat(pre[1..], key, post);
      assert (pre + key + post)[1..] == pre[1..] + key + post;
    }
  }

  /** Every message about an item names that item as `index i` or `question i`,
      and every message about a choice also names it as `Choice c`; the number
      is always followed by a space, so it is never a prefix of a longer one. */
  lemma RenderLocates(e: ValidationError)
    ensures ItemOf(e).Some? ==>
      IsInfix(IndexTag(ItemOf(e).value), Render(e)) || IsInfix(QuestionTag(ItemOf(e).value), Render(e))
    ensures ChoiceOf(e).Some? ==>
      IsInfix(QuestionTag(ItemOf(e).value), Render(e)) && IsInfix(ChoiceTag(ChoiceOf(e).value), Render(e))
  {
    if ChoiceOf(e).Some? {
      ChoiceMessageLocates(e);
    } else if ItemOf(e).Some? {
      ItemMessageLocates(e);
    }
  }

  lemma ItemMessageLocates(e: ValidationError)
    requires ItemOf(e).Some? && ChoiceOf(e).None?
    ensures IsInfix(IndexTag(ItemOf(e).value), Render(e))
  {
    var i := ItemOf(e).value;
    match e
    case ItemNotObject(_) => InfixOfConcat("Item at ", IndexTag(i), "is not a valid object.");
    case IdNotString(_) => InfixOfConcat("Question at ", IndexTag(i), "'id' must be a string if provided.");
    case QuestionNotString(_) => InfixOfConcat("Question at ", IndexTag(i), "must have a string 'question'.");
    case BackgroundNotString(_) =>
      InfixOfConcat("Question at ", IndexTag(i), "'background_knowledge' must be a string if provided.");
    case ExplanationNotString(_) =>
      InfixOfConcat("Question at ", IndexTag(i), "'explanation' must be a string if provided.");
    case ChoicesNotArray(_) => InfixOfConcat("Question at ", IndexTag(i), "must have a 'choices' array.");
    case NoCorrectChoice(_) =>
      InfixOfConcat("Question at ", IndexTag(i), "must have at least one choice where 'is_correct' is true.");
  }

  lemma ChoiceMessageLocates(e: ValidationError)
    requires ChoiceOf(e).Some?
    ensures ItemOf(e).Some?
    ensures IsInfix(QuestionTag(ItemOf(e).value), Render(e)) && IsInfix(ChoiceTag(ChoiceOf(e).value), Render(e))
  {
    match e
    case ChoiceNotObject(i, c) => ChoiceLocates(i, c, "is not a valid object.");
    case ChoiceTextNotString(i, c) => ChoiceLocates(i, c, "must have a string 'text'.");
    case ChoiceExplanationNotString(i, c) => ChoiceLocates(i, c, "'explanation' must be a string if provided.");
    case ChoiceIsCorrectNotBoolean(i, c) => ChoiceLocates(i, c, "'is_correct' must be a boolean.");
  }

  lemma ChoiceLocates(i: nat, c: nat, tail: string)
    ensures IsInfix(QuestionTag(i), ChoiceTag(c) + "in " + QuestionTag(i) + tail)
    ensures IsInfix(ChoiceTag(c), ChoiceTag(c) + "in " + QuestionTag(i) + tail)
  {
    var ct, qt := ChoiceTag(c), QuestionTag(i);
    var msg := ct + "in " + qt + tail;
    InfixOfConcat(ct + "in ", qt, tail);
    assert ct <= msg;
  }
}
