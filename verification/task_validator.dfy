/** The create and update schemas for task bodies, as validation functions that return the typed
    fields or the first failing key (keys are checked in schema order and the first failure stops
    validation). Whether a text is an ISO date that converts to a valid date is the parameter
    `isIso`. */
module TaskValidator {
  import opened Wrappers
  import opened Rules
  import opened TaskModel

  /** A task request body: each schema key absent (`None`) or carrying a JSON value. */
  datatype TaskBody = TaskBody(
    title: Option<Value>,
    description: Option<Value>,
    status: Option<Value>,
    priority: Option<Value>,
    dueDate: Option<Value>)

  const EmptyBody := TaskBody(None, None, None, None, None)

  const TitleRule := StringRule(false, 1, Some(200))
  const DescriptionRule := StringRule(true, 0, Some(1000))

  function CheckStatus(v: Value): (r: Result<Status, ErrorCode>)
    ensures r.Success? <==> v.Str? && ParseStatus(v.text).Some?
    ensures r.Success? ==> v == Str(StatusName(r.value))
    ensures r.Failure? ==> r.error == AnyOnly
  {
    if v.Str? && ParseStatus(v.text).Some? then Success(ParseStatus(v.text).value) else Failure(AnyOnly)
  }

  function CheckPriority(v: Value): (r: Result<Priority, ErrorCode>)
    ensures r.Success? <==> v.Str? && ParsePriority(v.text).Some?
    ensures r.Success? ==> v == Str(PriorityName(r.value))
    ensures r.Failure? ==> r.error == AnyOnly
  {
    if v.Str? && ParsePriority(v.text).Some? then Success(ParsePriority(v.text).value) else Failure(AnyOnly)
  }

  /** A due date as the schema converts it. */
  predicate IsIsoValue(v: Value, isIso: string -> bool) {
    (v.Str? || v.Num?) && isIso(v.text)
  }

  /** `null` is allowed and clears the date. A string or a number is converted when its text is
      an ISO date; a string that is not fails on the format, anything else on the type. */
  function CheckDueDate(v: Value, isIso: string -> bool): (r: Result<DueDate, ErrorCode>)
    ensures r.Success? <==> v == Null || IsIsoValue(v, isIso)
    ensures r.Success? ==> v == EncodeDueDate(r.value)
    ensures v.Str? && !isIso(v.text) ==> r == Failure(DateFormat)
    ensures v.Other? || (v.Num? && !isIso(v.text)) ==> r == Failure(DateBase)
  {
    match v
    case Null => Success(NoDueDate)
    case Str(t) => if isIso(t) then Success(DueOn(v)) else Failure(DateFormat)
    case Num(t) => if isIso(t) then Success(DueOn(v)) else Failure(DateBase)
    case Other => Failure(DateBase)
  }

  /** A number is judged by its decimal text: `2024` is a year and converts, `7` does not. */
  lemma NumbersJudgedByText(isIso: string -> bool)
    requires isIso("2024") && !isIso("7")
    ensures CheckDueDate(Num("2024"), isIso) == Success(DueOn(Num("2024")))
    ensures CheckDueDate(Num("7"), isIso) == Failure(DateBase)
    ensures CheckDueDate(Str("7"), isIso) == Failure(DateFormat)
  {
  }

  function EncodeDueDate(d: DueDate): Value {
    match d
    case NoDueDate => Null
    case DueOn(v) => v
  }

  /** The body a typed field record is sent as. */
  function EncodeFields(f: TaskFields): (b: TaskBody) {
    TaskBody(
      Encode(f.title, (s: string) => Str(s)),
      Encode(f.description, (s: string) => Str(s)),
      Encode(f.status, (s: Status) => Str(StatusName(s))),
      Encode(f.priority, (p: Priority) => Str(PriorityName(p))),
      Encode(f.dueDate, EncodeDueDate))
  }

  /** The typed fields both schemas accept, stated field by field. */
  predicate WellFormed(f: TaskFields, isIso: string -> bool) {
    && (f.title.Some? ==> 1 <= |f.title.value| <= 200)
    && (f.description.Some? ==> |f.description.value| <= 1000)
    && (f.dueDate.Some? && f.dueDate.value.DueOn? ==> IsIsoValue(f.dueDate.value.date, isIso))
  }

  /** The five keys in schema order; `titleRequired` is the one difference between the schemas. */
  function ValidateFields(b: TaskBody, isIso: string -> bool, titleRequired: bool): (r: Result<TaskFields, FieldError>)
    ensures r.Success? ==> WellFormed(r.value, isIso) && EncodeFields(r.value) == b
    ensures r.Success? && titleRequired ==> r.value.title.Some?
    ensures titleRequired && b.title.None? ==> r == Failure(FieldError("title", AnyRequired))
  {
    match CheckKey(b.title, titleRequired, (v: Value) => CheckString(v, TitleRule))
    case Failure(c) => Failure(FieldError("title", c))
    case Success(title) =>
      match CheckKey(b.description, false, (v: Value) => CheckString(v, DescriptionRule))
      case Failure(c) => Failure(FieldError("description", c))
      case Success(description) =>
        match CheckKey(b.status, false, CheckStatus)
        case Failure(c) => Failure(FieldError("status", c))
        case Success(status) =>
          match CheckKey(b.priority, false, CheckPriority)
          case Failure(c) => Failure(FieldError("priority", c))
          case Success(priority) =>
            match CheckKey(b.dueDate, false, (v: Value) => CheckDueDate(v, isIso))
            case Failure(c) => Failure(FieldError("dueDate", c))
            case Success(dueDate) => Success(TaskFields(title, description, status, priority, dueDate))
  }

  /** The create schema: `title` required, the other four optional. */
  function ValidateCreate(b: TaskBody, isIso: string -> bool): (r: Result<TaskFields, FieldError>)
    ensures r.Success? ==> r.value.title.Some? && WellFormed(r.value, isIso) && EncodeFields(r.value) == b
    ensures b.title.None? ==> r == Failure(FieldError("title", AnyRequired))
    ensures b.title == Some(Str("")) ==> r == Failure(FieldError("title", StringEmpty))
  {
    ValidateFields(b, isIso, true)
  }

  /** The update schema: every key optional, but at least one key must be present. */
  function ValidateUpdate(b: TaskBody, isIso: string -> bool): (r: Result<TaskFields, FieldError>)
    ensures r.Success? ==> r.value != NoFields && WellFormed(r.value, isIso) && EncodeFields(r.value) == b
    ensures b == EmptyBody ==> r == Failure(FieldError("", ObjectMin))
  {
    match ValidateFields(b, isIso, false)
    case Failure(e) => Failure(e)
    case Success(f) => if b == EmptyBody then Failure(FieldError("", ObjectMin)) else Success(f)
  }

  /** The messages the create schema overrides; `None` leaves the library's default text. */
  function CreateMessage(e: FieldError): (r: Option<string>)
    ensures r.Some? ==> e.field == "title"
    ensures e.field == "title" && e.code in {AnyRequired, StringEmpty} ==> r == Some("Title is required")
  {
    if e.field == "title" && e.code in {StringEmpty, AnyRequired} then Some("Title is required") else None
  }

  /** The message the update schema overrides. */
  function UpdateMessage(e: FieldError): (r: Option<string>)
    ensures r.Some? <==> e.code == ObjectMin
  {
    if e.code == ObjectMin then Some("At least one field must be provided for update") else None
  }

  /** An update naming no field fails on the object rule, with the overridden message. */
  lemma EmptyUpdateMessage(isIso: string -> bool)
    ensures ValidateUpdate(EmptyBody, isIso).Failure?
    ensures UpdateMessage(ValidateUpdate(EmptyBody, isIso).error)
         == Some("At least one field must be provided for update")
  {
  }

  /** A missing title and an empty title are reported the same way. */
  lemma MissingAndEmptyTitleSameMessage(b: TaskBody, isIso: string -> bool)
    requires b.title.None? || b.title == Some(Str(""))
    ensures ValidateCreate(b, isIso).Failure?
    ensures CreateMessage(ValidateCreate(b, isIso).error) == Some("Title is required")
  {
  }

  /** Every well-formed field record with a title is accepted by the create schema, unchanged:
      with the soundness half in `ValidateCreate`'s contract, the schema accepts exactly the
      encodings of well-formed records. */
  lemma CreateComplete(f: TaskFields, isIso: string -> bool)
    requires f.title.Some? && WellFormed(f, isIso)
    ensures ValidateCreate(EncodeFields(f), isIso) == Success(f)
  {
    FieldsComplete(f, isIso, true);
  }

  /** Every well-formed non-empty field record is accepted by the update schema, unchanged. */
  lemma UpdateComplete(f: TaskFields, isIso: string -> bool)
    requires f != NoFields && WellFormed(f, isIso)
    ensures ValidateUpdate(EncodeFields(f), isIso) == Success(f)
  {
    FieldsComplete(f, isIso, false);
  }

  lemma FieldsComplete(f: TaskFields, isIso: string -> bool, titleRequired: bool)
    requires WellFormed(f, isIso) && (titleRequired ==> f.title.Some?)
    ensures ValidateFields(EncodeFields(f), isIso, titleRequired) == Success(f)
  {
    var b := EncodeFields(f);
    if f.status.Some? {
      assert ParseStatus(StatusName(f.status.value)) == Some(f.status.value);
    }
    if f.priority.Some? {
      assert ParsePriority(PriorityName(f.priority.value)) == Some(f.priority.value);
    }
    if f.dueDate.Some? && f.dueDate.value.DueOn? {
      assert CheckDueDate(f.dueDate.value.date, isIso) == Success(f.dueDate.value);
    }
  }

  /** Any one valid field on its own is an acceptable update. */
  lemma SingleFieldUpdate(f: TaskFields, isIso: string -> bool)
    requires WellFormed(f, isIso)
    requires f.title.Some? || f.description.Some? || f.status.Some? || f.priority.Some? || f.dueDate.Some?
    ensures ValidateUpdate(EncodeFields(f), isIso).Success?
  {
    UpdateComplete(f, isIso);
  }

  /** Whatever the create schema accepts, the update schema accepts with the same result. */
  lemma CreateImpliesUpdate(b: TaskBody, isIso: string -> bool)
    requires ValidateCreate(b, isIso).Success?
    ensures ValidateUpdate(b, isIso) == ValidateCreate(b, isIso)
  {
    var f := ValidateCreate(b, isIso).value;
    UpdateComplete(f, isIso);
  }
}
