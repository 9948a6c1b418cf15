/** The register and login schemas, as validation functions returning the typed credentials or
    the first failing key. Whether a string is an email address is the parameter `isEmail`, and
    both schemas apply the same check. */
module AuthValidator {
  import opened Wrappers
  import opened Rules

  datatype RegisterBody = RegisterBody(name: Option<Value>, email: Option<Value>, password: Option<Value>)
  datatype LoginBody = LoginBody(email: Option<Value>, password: Option<Value>)

  datatype Registration = Registration(name: string, email: string, password: string)
  datatype Credentials = Credentials(email: string, password: string)

  const NameRule := StringRule(false, 2, Some(50))
  const RegisterPasswordRule := StringRule(false, 6, None)
  /** A required string with no length bound: only the empty string is refused. */
  const NonEmptyRule := StringRule(false, 0, None)

  /** A non-empty string that `isEmail` accepts. */
  function CheckEmail(v: Value, isEmail: string -> bool): (r: Result<string, ErrorCode>)
    ensures r.Success? <==> v.Str? && v.text != "" && isEmail(v.text)
    ensures r.Success? ==> v == Str(r.value)
    ensures v == Str("") ==> r == Failure(StringEmpty)
    ensures v.Str? && v.text != "" && !isEmail(v.text) ==> r == Failure(StringEmail)
  {
    match CheckString(v, NonEmptyRule)
    case Failure(c) => Failure(c)
    case Success(s) => if isEmail(s) then Success(s) else Failure(StringEmail)
  }

  /** What registration demands, field by field. */
  predicate WellFormedRegistration(r: Registration, isEmail: string -> bool) {
    && 2 <= |r.name| <= 50
    && r.email != "" && isEmail(r.email)
    && |r.password| >= 6
  }

  /** What login demands: a valid email and any non-empty password. */
  predicate WellFormedCredentials(c: Credentials, isEmail: string -> bool) {
    c.email != "" && isEmail(c.email) && c.password != ""
  }

  function EncodeRegistration(r: Registration): RegisterBody {
    RegisterBody(Some(Str(r.name)), Some(Str(r.email)), Some(Str(r.password)))
  }

  function EncodeCredentials(c: Credentials): LoginBody {
    LoginBody(Some(Str(c.email)), Some(Str(c.password)))
  }

  /** The register schema: name, email and password, all required, checked in that order. */
  function ValidateRegister(b: RegisterBody, isEmail: string -> bool): (r: Result<Registration, FieldError>)
    ensures r.Success? ==> WellFormedRegistration(r.value, isEmail) && EncodeRegistration(r.value) == b
    ensures b.name.None? ==> r == Failure(FieldError("name", AnyRequired))
    ensures b.name == Some(Str("")) ==> r == Failure(FieldError("name", StringEmpty))
    ensures b.email.None? || b.email == Some(Str("")) ==> r.Failure?
    ensures b.password.None? || b.password == Some(Str("")) ==> r.Failure?
  {
    match CheckKey(b.name, true, (v: Value) => CheckString(v, NameRule))
    case Failure(c) => Failure(FieldError("name", c))
    case Success(name) =>
      match CheckKey(b.email, true, (v: Value) => CheckEmail(v, isEmail))
      case Failure(c) => Failure(FieldError("email", c))
      case Success(email) =>
        match CheckKey(b.password, true, (v: Value) => CheckString(v, RegisterPasswordRule))
        case Failure(c) => Failure(FieldError("password", c))
        case Success(password) => Success(Registration(name.value, email.value, password.value))
  }

  /** The login schema: email and password, both required, checked in that order. */
  function ValidateLogin(b: LoginBody, isEmail: string -> bool): (r: Result<Credentials, FieldError>)
    ensures r.Success? ==> WellFormedCredentials(r.value, isEmail) && EncodeCredentials(r.value) == b
    ensures b.email.None? ==> r == Failure(FieldError("email", AnyRequired))
    ensures b.email == Some(Str("")) ==> r == Failure(FieldError("email", StringEmpty))
    ensures b.password.None? || b.password == Some(Str("")) ==> r.Failure?
  {
    match CheckKey(b.email, true, (v: Value) => CheckEmail(v, isEmail))
    case Failure(c) => Failure(FieldError("email", c))
    case Success(email) =>
      match CheckKey(b.password, true, (v: Value) => CheckString(v, NonEmptyRule))
      case Failure(c) => Failure(FieldError("password", c))
      case Success(password) => Success(Credentials(email.value, password.value))
  }

  /** The messages the register schema overrides; `None` leaves the library's default text. */
  function RegisterMessage(e: FieldError): (r: Option<string>)
    ensures e.field in {"name", "email", "password"} && e.code in {AnyRequired, StringEmpty} ==> r.Some?
    ensures LoginMessage(e).Some? ==> r == LoginMessage(e)
    ensures r.Some? ==> e.code != StringMax
  {
    match (e.field, e.code)
    case ("name", StringEmpty) => Some("Name is required")
    case ("name", AnyRequired) => Some("Name is required")
    case ("name", StringMin) => Some("Name must be at least 2 characters")
    case ("email", StringEmpty) => Some("Email is required")
    case ("email", AnyRequired) => Some("Email is required")
    case ("email", StringEmail) => Some("Please provide a valid email")
    case ("password", StringEmpty) => Some("Password is required")
    case ("password", AnyRequired) => Some("Password is required")
    case ("password", StringMin) => Some("Password must be at least 6 characters")
    case _ => None
  }

  /** The messages the login schema overrides: the register schema's, less those about length
      and the name. */
  function LoginMessage(e: FieldError): (r: Option<string>)
    ensures r.Some? ==> e.field in {"email", "password"} && e.code != StringMin
  {
    match (e.field, e.code)
    case ("email", StringEmpty) => Some("Email is required")
    case ("email", AnyRequired) => Some("Email is required")
    case ("email", StringEmail) => Some("Please provide a valid email")
    case ("password", StringEmpty) => Some("Password is required")
    case ("password", AnyRequired) => Some("Password is required")
    case _ => None
  }

  /** Every well-formed registration is accepted unchanged: with the soundness half in
      `ValidateRegister`'s contract, the schema accepts exactly the well-formed registrations. */
  lemma RegisterComplete(r: Registration, isEmail: string -> bool)
    requires WellFormedRegistration(r, isEmail)
    ensures ValidateRegister(EncodeRegistration(r), isEmail) == Success(r)
  {
  }

  /** Every well-formed pair of credentials is accepted unchanged. */
  lemma LoginComplete(c: Credentials, isEmail: string -> bool)
    requires WellFormedCredentials(c, isEmail)
    ensures ValidateLogin(EncodeCredentials(c), isEmail) == Success(c)
  {
  }

  /** A body that registers also logs in, with the same email and password. */
  lemma RegisterImpliesLogin(b: RegisterBody, isEmail: string -> bool)
    requires ValidateRegister(b, isEmail).Success?
    ensures ValidateLogin(LoginBody(b.email, b.password), isEmail)
         == Success(Credentials(ValidateRegister(b, isEmail).value.email, ValidateRegister(b, isEmail).value.password))
  {
    var r := ValidateRegister(b, isEmail).value;
    LoginComplete(Credentials(r.email, r.password), isEmail);
  }

  /** A password of one to five characters passes login but never registration. */
  lemma ShortPasswordLoginOnly(name: string, email: string, password: string, isEmail: string -> bool)
    requires 1 <= |password| <= 5
    requires 2 <= |name| <= 50 && email != "" && isEmail(email)
    ensures ValidateLogin(LoginBody(Some(Str(email)), Some(Str(password))), isEmail).Success?
    ensures ValidateRegister(RegisterBody(Some(Str(name)), Some(Str(email)), Some(Str(password))), isEmail)
         == Failure(FieldError("password", StringMin))
    ensures RegisterMessage(FieldError("password", StringMin)) == Some("Password must be at least 6 characters")
  {
    LoginComplete(Credentials(email, password), isEmail);
  }

  /** Both schemas judge the email the same way: once the name passes, registration fails on
      the email exactly when login does, with the same error. */
  lemma SameEmailCheck(b: RegisterBody, isEmail: string -> bool)
    requires CheckKey(b.name, true, (v: Value) => CheckString(v, NameRule)).Success?
    ensures var r := ValidateRegister(b, isEmail);
            var l := ValidateLogin(LoginBody(b.email, b.password), isEmail);
            (r.Failure? && r.error.field == "email") <==> (l.Failure? && l.error.field == "email")
    ensures var r := ValidateRegister(b, isEmail);
            var l := ValidateLogin(LoginBody(b.email, b.password), isEmail);
            r.Failure? && r.error.field == "email" ==> r.error == l.error
  {
  }

  /** A missing field and an empty one get the same message, for every field of both schemas. */
  lemma MissingAndEmptySameMessage(field: string)
    requires field in {"name", "email", "password"}
    ensures RegisterMessage(FieldError(field, AnyRequired)) == RegisterMessage(FieldError(field, StringEmpty)) != None
    ensures field != "name" ==>
      LoginMessage(FieldError(field, AnyRequired)) == LoginMessage(FieldError(field, StringEmpty)) != None
  {
  }
}
