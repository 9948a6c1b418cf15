/** Registration and login over the user store (a sequence of users in insertion order).
    Password hashing, hash comparison and token signing are the parameters `hash`, `compare`
    and `sign`; the generated user id is a parameter too. */
module AuthService {
  import opened Wrappers
  import opened TaskModel

  /** A stored user; `password` holds the hash, never the plaintext. */
  datatype User = User(id: UserId, name: string, email: string, password: string)

  /** What register and login hand back: the user and a token signed for the user's id. */
  datatype Session = Session(user: User, token: string)

  datatype Registered = Registered(users: seq<User>, session: Session)

  datatype AuthError = EmailTaken | InvalidCredentials

  function Message(e: AuthError): string {
    match e
    case EmailTaken => "User with this email already exists"
    case InvalidCredentials => "Invalid email or password"
  }

  /** No two users share an email. */
  predicate UniqueEmails(users: seq<User>) {
    forall i, j :: 0 <= i < j < |users| ==> users[i].email != users[j].email
  }

  predicate EmailTakenIn(users: seq<User>, email: string) {
    exists i :: 0 <= i < |users| && users[i].email == email
  }

  /** The index of the first user with exactly this email, as `findOne` returns it. */
  function FindByEmail(users: seq<User>, email: string): (r: Option<nat>)
    ensures r.Some? ==> r.value < |users| && users[r.value].email == email
    ensures r.Some? ==> forall j :: 0 <= j < r.value ==> users[j].email != email
    ensures r.None? <==> !EmailTakenIn(users, email)
  {
    if users == [] then None
    else if users[0].email == email then Some(0)
    else
      match FindByEmail(users[1..], email)
      case None =>
        assert !EmailTakenIn(users, email) by {
          forall i | 0 < i < |users|
            ensures users[i].email != email
          {
            assert users[1..][i - 1] == users[i];
          }
        }
        None
      case Some(k) => Some(k + 1)
  }

  /** Registers a new user unless the email is already taken; the stored password is its hash. */
  function Register(users: seq<User>, name: string, email: string, password: string, id: UserId,
                    hash: string -> string, sign: UserId -> string): (r: Result<Registered, AuthError>)
    requires forall k :: 0 <= k < |users| ==> users[k].id != id
    ensures r.Failure? <==> EmailTakenIn(users, email)
    ensures r.Failure? ==> r.error == EmailTaken
    ensures r.Success? ==>
      var u := r.value.session.user;
      && u == User(id, name, email, hash(password))
      && r.value.session.token == sign(u.id)
      && |r.value.users| == |users| + 1
      && r.value.users[..|users|] == users
      && r.value.users[|users|] == u
    ensures r.Success? && UniqueEmails(users) ==> UniqueEmails(r.value.users)
  {
    if FindByEmail(users, email).Some? then Failure(EmailTaken)
    else
      var u := User(id, name, email, hash(password));
      Success(Registered(users + [u], Session(u, sign(id))))
  }

  /** Logs in with an email and a password; an unknown email and a wrong password fail alike. */
  function Login(users: seq<User>, email: string, password: string,
                 compare: (string, string) -> bool, sign: UserId -> string): (r: Result<Session, AuthError>)
    ensures r.Failure? ==> r.error == InvalidCredentials
    ensures !EmailTakenIn(users, email) ==> r == Failure(InvalidCredentials)
    ensures r.Success? ==> r.value.user in users && r.value.user.email == email
                           && compare(password, r.value.user.password)
                           && r.value.token == sign(r.value.user.id)
    ensures UniqueEmails(users) ==>
      (r.Success? <==> exists i :: 0 <= i < |users| && users[i].email == email && compare(password, users[i].password))
  {
    match FindByEmail(users, email)
    case None => Failure(InvalidCredentials)
    case Some(i) =>
      var u := users[i];
      if !compare(password, u.password) then Failure(InvalidCredentials)
      else Success(Session(u, sign(u.id)))
  }

  /** An unknown email and a known email with the wrong password get the identical answer. */
  lemma LoginFailuresAlike(users: seq<User>, unknown: string, known: string, p: string, p': string,
                           compare: (string, string) -> bool, sign: UserId -> string)
    requires !EmailTakenIn(users, unknown)
    requires forall k :: 0 <= k < |users| && users[k].email == known ==> !compare(p', users[k].password)
    ensures Login(users, unknown, p, compare, sign) == Login(users, known, p', compare, sign)
    ensures Message(Login(users, unknown, p, compare, sign).error) == "Invalid email or password"
  {
  }

  /** A fresh registration can log in at once with the same password and gets the registered
      user back, provided the comparison accepts a password against its own hash. The login token
      is signed anew: `signLogin` stands for signing at login time, which need not give the token
      registration handed out. */
  lemma RegisterThenLogin(users: seq<User>, name: string, email: string, password: string, id: UserId,
                          hash: string -> string, compare: (string, string) -> bool,
                          sign: UserId -> string, signLogin: UserId -> string)
    requires forall k :: 0 <= k < |users| ==> users[k].id != id
    requires compare(password, hash(password))
    requires Register(users, name, email, password, id, hash, sign).Success?
    ensures var reg := Register(users, name, email, password, id, hash, sign).value;
            var l := Login(reg.users, email, password, compare, signLogin);
            && l.Success?
            && l.value.user == reg.session.user
            && l.value.token == signLogin(reg.session.user.id)
  {
    var reg := Register(users, name, email, password, id, hash, sign).value;
    var f := FindByEmail(reg.users, email);
    assert f == Some(|users|) by {
      assert reg.users[|users|].email == email;
      forall j | 0 <= j < |users|
        ensures reg.users[j].email != email
      {
        assert reg.users[j] == users[j];
      }
    }
  }

  /** A second registration with the same email fails and the store is left as it was. */
  lemma RegisterTwiceFails(users: seq<User>, name: string, name': string, email: string, password: string,
                           password': string, id: UserId, id': UserId, hash: string -> string, sign: UserId -> string)
    requires forall k :: 0 <= k < |users| ==> users[k].id != id
    requires Register(users, name, email, password, id, hash, sign).Success?
    requires forall k :: 0 <= k < |users| + 1 ==> Register(users, name, email, password, id, hash, sign).value.users[k].id != id'
    ensures Register(Register(users, name, email, password, id, hash, sign).value.users, name', email, password', id', hash, sign)
         == Failure(EmailTaken)
  {
    var reg := Register(users, name, email, password, id, hash, sign).value;
    assert reg.users[|users|].email == email;
  }

  /** With unique emails, exactly one user carries a freshly registered email. */
  lemma RegisteredEmailIsUnique(users: seq<User>, name: string, email: string, password: string, id: UserId,
                                hash: string -> string, sign: UserId -> string)
    requires forall k :: 0 <= k < |users| ==> users[k].id != id
    requires UniqueEmails(users)
    requires Register(users, name, email, password, id, hash, sign).Success?
    ensures var us := Register(users, name, email, password, id, hash, sign).value.users;
            forall k :: 0 <= k < |us| && us[k].email == email ==> k == |users|
  {
  }
}
