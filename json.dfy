/**
 * An untyped value as produced by `JSON.parse`: the input of the question
 * validator. A key that an object does not have reads as `undefined`, which
 * the model writes as `None`.
 */
module Json {
  import opened Wrappers

  datatype Json =
    | JNull
    | JBool(b: bool)
    | JNum(n: real)
    | JStr(s: string)
    | JArr(items: seq<Json>)
    | JObj(fields: map<string, Json>)

  /** JavaScript truthiness; `JSON.parse` never yields NaN, so the only falsy number is 0. */
  predicate Truthy(v: Json) {
    match v
    case JNull => false
    case JBool(b) => b
    case JNum(n) => n != 0.0
    case JStr(s) => s != ""
    case JArr(_) => true
    case JObj(_) => true
  }

  /** The test `!x || typeof x !== 'object'` fails exactly for arrays and objects:
      `null` is an object but falsy, and an array is an object too. */
  predicate IsObject(v: Json) {
    v.JArr? || v.JObj?
  }

  /** `typeof v === 'string'` for a value that may be `undefined`. */
  predicate IsString(v: Option<Json>) {
    v.Some? && v.value.JStr?
  }

  /** `v !== undefined && typeof v !== 'string'`: an optional string field of the wrong type. */
  predicate BadOptionalString(v: Option<Json>) {
    v.Some? && !v.value.JStr?
  }

  /** Property lookup `v.key`. The validator only reads the keys `id`, `question`,
      `background_knowledge`, `explanation`, `choices`, `text` and `is_correct`,
      none of which an array has. */
  function Prop(v: Json, key: string): (r: Option<Json>)
    ensures r.Some? <==> v.JObj? && key in v.fields
    ensures r.Some? ==> r.value == v.fields[key]
  {
    if v.JObj? && key in v.fields then Some(v.fields[key]) else None
  }

  /** Truthiness of a property that may be absent (`undefined` is falsy). */
  predicate TruthyProp(v: Option<Json>) {
    v.Some? && Truthy(v.value)
  }
}
