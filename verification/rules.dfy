/** The field rules the request schemas are built from, as the schema library applies them:
    the allowed-values list first, then the string type check, the empty-string check and the
    length bounds, in that order, stopping at the first failure. */
module Rules {
  import opened Wrappers

  /** A JSON value of a request body field. A number is kept as the decimal text it converts to
      (`2024`, `7`), since that text is what a date rule matches; `Other` is a boolean, an array or
      an object, which no rule here converts. */
  datatype Value = Str(text: string) | Num(text: string) | Null | Other

  /** The schema library's error keys that these schemas can raise. */
  datatype ErrorCode =
    | AnyRequired   // a required key is missing
    | AnyOnly       // a value outside the `valid(...)` list
    | StringBase    // not a string
    | StringEmpty   // the empty string where it is not allowed
    | StringMin     // shorter than the minimum length
    | StringMax     // longer than the maximum length
    | StringEmail   // not an email address
    | DateBase      // neither a date nor a string or number that converts to one
    | DateFormat    // a string that is not an ISO date
    | ObjectMin     // fewer keys than the object's minimum

  /** The first failing check of a body: which key, and which rule. */
  datatype FieldError = FieldError(field: string, code: ErrorCode)

  /** A string field's rule: whether `''` is explicitly allowed, and its length bounds. */
  datatype StringRule = StringRule(allowEmpty: bool, min: nat, max: Option<nat>)

  /** The strings a rule admits, stated independently of the order the checks run in. */
  predicate Admits(rule: StringRule, s: string) {
    if s == "" then rule.allowEmpty
    else rule.min <= |s| && (rule.max.Some? ==> |s| <= rule.max.value)
  }

  function CheckString(v: Value, rule: StringRule): (r: Result<string, ErrorCode>)
    ensures r.Success? <==> v.Str? && Admits(rule, v.text)
    ensures r.Success? ==> v == Str(r.value)
    ensures !v.Str? ==> r == Failure(StringBase)
    ensures v == Str("") && !rule.allowEmpty ==> r == Failure(StringEmpty)
    ensures v.Str? && v.text != "" && |v.text| < rule.min ==> r == Failure(StringMin)
    ensures r == Failure(StringMax) ==> v.Str? && rule.max.Some? && |v.text| > rule.max.value
  {
    match v
    case Str(s) =>
      if s == "" then
        if rule.allowEmpty then Success(s) else Failure(StringEmpty)
      else if |s| < rule.min then Failure(StringMin)
      else if rule.max.Some? && |s| > rule.max.value then Failure(StringMax)
      else Success(s)
    case _ => Failure(StringBase)
  }

  /** A key that may be absent: a missing required key fails with `AnyRequired`, a missing
      optional key passes with nothing; a present value goes through `check`. */
  function CheckKey<T>(key: Option<Value>, required: bool, check: Value -> Result<T, ErrorCode>)
    : (r: Result<Option<T>, ErrorCode>)
    ensures key.None? ==> (r.Success? <==> !required)
    ensures key.None? && required ==> r == Failure(AnyRequired)
    ensures r == Success(None) <==> key.None? && !required
    ensures key.Some? ==> match check(key.value)
                          case Success(x) => r == Success(Some(x))
                          case Failure(c) => r == Failure(c)
  {
    match key
    case None => if required then Failure(AnyRequired) else Success(None)
    case Some(v) =>
      match check(v)
      case Success(x) => Success(Some(x))
      case Failure(c) => Failure(c)
  }

  /** The value a typed optional field is written back as. */
  function Encode<T>(x: Option<T>, enc: T -> Value): (key: Option<Value>)
    ensures key.Some? <==> x.Some?
  {
    match x
    case None => None
    case Some(y) => Some(enc(y))
  }
}
