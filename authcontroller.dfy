/** Registration, login and logout over the user collection. Password hashing and
    token signing are collaborators passed in as functions: `hash` stands for a salted
    bcrypt hash already drawn, `matches` for bcrypt's compare, and `sign` for the token
    signer, which yields no token when it throws. */
module AuthController {
  import opened Wrappers
  import opened Errors

  const MissingFieldsMessage := "All fields are required"
  const TakenMessage := "Username or email already exists"
  const BadCredentialsMessage := "Invalid credentials"
  const SignFailedMessage := "Token generation failed"
  const LoggedOutMessage := "Logged out successfully"
  const WelcomePrefix := "Welcome back "

  /** `expiresIn: '1h'`: a token's lifetime in seconds. */
  const TokenLifetime := 3600

  /** The login cookie lives for one day, in milliseconds. */
  const CookieMaxAge := 86400000

  /** A stored user; `password` holds the hash. */
  datatype User = User(id: nat, username: string, email: string, password: string)

  /** The payload a token carries: `{ userId }` plus the expiry instant `exp` (seconds) the signer adds. */
  datatype Claims = Claims(userId: Option<nat>, exp: Option<int>)

  /** `res.cookie(name, value, { httpOnly, sameSite, maxAge })`. */
  datatype Cookie = Cookie(name: string, value: string, httpOnly: bool, sameSite: string, maxAge: nat)

  /** `201 { success, data: { username, email, token } }`. */
  datatype Registered = Registered(username: string, email: string, token: string)

  /** `{ success, message, data: { _id, username, email }, token }` with the token also set as a cookie. */
  datatype LoggedIn = LoggedIn(cookie: Cookie, message: string, id: nat, username: string, email: string, token: string)

  /** `{ success, message }` with the token cookie cleared. */
  datatype LoggedOut = LoggedOut(cookie: Cookie, message: string)

  /** JavaScript truthiness of a body field: absent and empty strings are falsy. */
  predicate Given(field: Option<string>)
  {
    field.Some? && field.value != ""
  }

  /** Emails are pairwise distinct, usernames are pairwise distinct, ids are distinct and below the next one. */
  predicate UsersValid(users: seq<User>, nextId: nat)
  {
    (forall i, j :: 0 <= i < |users| && 0 <= j < |users| && i != j ==>
       users[i].email != users[j].email && users[i].username != users[j].username && users[i].id != users[j].id)
    && (forall i :: 0 <= i < |users| ==> users[i].id < nextId)
  }

  /** `User.findOne({ $or: [{ email }, { username }] })` finds someone. */
  predicate Taken(users: seq<User>, username: string, email: string)
  {
    exists i :: 0 <= i < |users| && (users[i].email == email || users[i].username == username)
  }

  /** The two single-user queries: `User.findOne({ email })` and `User.findById(id)`. */
  datatype Query = ByEmail(email: string) | ById(id: nat)

  predicate Selects(q: Query, u: User)
  {
    match q
    case ByEmail(email) => u.email == email
    case ById(id) => u.id == id
  }

  /** The position of the first user the query selects, in insertion order. */
  function Find(users: seq<User>, q: Query): (r: Option<nat>)
    ensures r.Some? ==> r.value < |users| && Selects(q, users[r.value])
    ensures r.Some? ==> forall i :: 0 <= i < r.value ==> !Selects(q, users[i])
    ensures r.None? ==> forall i :: 0 <= i < |users| ==> !Selects(q, users[i])
  {
    if users == [] then None
    else if Selects(q, users[0]) then Some(0)
    else
      match Find(users[1..], q)
      case Some(i) => Some(i + 1)
      case None => None
  }

  /** The claims of a token issued at `now` for user `id`. */
  function IssuedClaims(id: nat, now: int): Claims
  {
    Claims(Some(id), Some(now + TokenLifetime))
  }

  /** `register`: the reply and the users afterwards. */
  function RegisterSpec(users: seq<User>, nextId: nat, username: Option<string>, email: Option<string>,
                        password: Option<string>, hash: string -> string, sign: Claims -> Option<string>, now: int)
    : (Result<Registered, AppError>, seq<User>)
  {
    if !Given(username) || !Given(email) || !Given(password) then
      (Failure(Raise(400, MissingFieldsMessage)), users)
    else if Taken(users, username.value, email.value) then
      (Failure(Raise(409, TakenMessage)), users)
    else
      var users' := users + [User(nextId, username.value, email.value, hash(password.value))];
      match sign(IssuedClaims(nextId, now))
      case None => (Failure(Unexpected(SignFailedMessage)), users')
      case Some(token) => (Success(Registered(username.value, email.value, token)), users')
  }

  /** `login`: the reply; the user collection is only read. */
  function LoginSpec(users: seq<User>, email: Option<string>, password: Option<string>,
                     matches: (string, string) -> bool, sign: Claims -> Option<string>, now: int)
    : Result<LoggedIn, AppError>
  {
    if !Given(email) || !Given(password) then Failure(Raise(400, MissingFieldsMessage))
    else
      match Find(users, ByEmail(email.value))
      case None => Failure(Raise(401, BadCredentialsMessage))
      case Some(i) =>
        if !matches(password.value, users[i].password) then Failure(Raise(401, BadCredentialsMessage))
        else
          match sign(IssuedClaims(users[i].id, now))
          case None => Failure(Unexpected(SignFailedMessage))
          case Some(token) =>
            Success(LoggedIn(Cookie("token", token, true, "strict", CookieMaxAge), WelcomePrefix + users[i].username,
                             users[i].id, users[i].username, users[i].email, token))
  }

  /** `logout`: always succeeds and clears the cookie. */
  function Logout(): (r: LoggedOut)
    ensures r.cookie.name == "token" && r.cookie.value == "" && r.cookie.maxAge == 0
    ensures r.cookie.httpOnly && r.cookie.sameSite == "strict"
    ensures r.message == LoggedOutMessage
  {
    LoggedOut(Cookie("token", "", true, "strict", 0), LoggedOutMessage)
  }

  /** A missing field, or a taken username or email, leaves the users as they were; every other
      request adds exactly one user, holding the hash and not the password. */
  lemma RegisterEffect(users: seq<User>, nextId: nat, username: Option<string>, email: Option<string>,
                       password: Option<string>, hash: string -> string, sign: Claims -> Option<string>, now: int)
    ensures var (r, users') := RegisterSpec(users, nextId, username, email, password, hash, sign, now);
            (r.Failure? && r.error.statusCode.Some? ==> users' == users)
            && (users' != users ==> users' == users + [User(nextId, username.value, email.value, hash(password.value))])
            && (r.Success? ==> users' != users && r.value.username == username.value && r.value.email == email.value)
  {
  }

  /** Registration keeps emails and usernames unique. */
  lemma RegisterKeepsValid(users: seq<User>, nextId: nat, username: Option<string>, email: Option<string>,
                           password: Option<string>, hash: string -> string, sign: Claims -> Option<string>, now: int)
    requires UsersValid(users, nextId)
    ensures UsersValid(RegisterSpec(users, nextId, username, email, password, hash, sign, now).1, nextId + 1)
  {
    var users' := RegisterSpec(users, nextId, username, email, password, hash, sign, now).1;
    if users' != users {
      var u := users'[|users|];
      assert forall i :: 0 <= i < |users| ==> users'[i] == users[i];
      forall i | 0 <= i < |users| ensures users[i].email != u.email && users[i].username != u.username {
        assert !(users[i].email == email.value || users[i].username == username.value);
      }
    }
  }

  /** A second registration reusing either the email or the username is refused with 409. */
  lemma SecondRegistrationConflicts(users: seq<User>, nextId: nat, username: string, email: string, password: string,
                                    username2: string, email2: string, password2: string,
                                    hash: string -> string, sign: Claims -> Option<string>, now: int, later: int)
    requires username != "" && email != "" && password != "" && username2 != "" && email2 != "" && password2 != ""
    requires !Taken(users, username, email)
    requires username2 == username || email2 == email
    ensures var users' := RegisterSpec(users, nextId, Some(username), Some(email), Some(password), hash, sign, now).1;
            RegisterSpec(users', nextId + 1, Some(username2), Some(email2), Some(password2), hash, sign, later)
              == (Failure(Raise(409, TakenMessage)), users')
  {
    var users' := RegisterSpec(users, nextId, Some(username), Some(email), Some(password), hash, sign, now).1;
    assert users'[|users|].email == email && users'[|users|].username == username;
  }

  /** An unknown email and a wrong password are answered identically. */
  lemma LoginFailuresIndistinguishable(users: seq<User>, email: string, other: string, password: string,
                                       matches: (string, string) -> bool, sign: Claims -> Option<string>, now: int)
    requires email != "" && other != "" && password != ""
    requires forall i :: 0 <= i < |users| ==> users[i].email != other
    requires Find(users, ByEmail(email)).Some? && !matches(password, users[Find(users, ByEmail(email)).value].password)
    ensures LoginSpec(users, Some(email), Some(password), matches, sign, now)
         == LoginSpec(users, Some(other), Some(password), matches, sign, now)
         == Failure(Raise(401, BadCredentialsMessage))
  {
    LoginWrongPassword(users, email, password, matches, sign, now);
    LoginUnknownEmail(users, other, password, matches, sign, now);
  }

  /** An email that no user has is refused with 401. */
  lemma LoginUnknownEmail(users: seq<User>, email: string, password: string,
                          matches: (string, string) -> bool, sign: Claims -> Option<string>, now: int)
    requires email != "" && password != ""
    requires forall i :: 0 <= i < |users| ==> users[i].email != email
    ensures LoginSpec(users, Some(email), Some(password), matches, sign, now) == Failure(Raise(401, BadCredentialsMessage))
  {
    assert Find(users, ByEmail(email)).None?;
  }

  /** A known email with a password the stored hash rejects is refused with 401. */
  lemma LoginWrongPassword(users: seq<User>, email: string, password: string,
                           matches: (string, string) -> bool, sign: Claims -> Option<string>, now: int)
    requires email != "" && password != ""
    requires Find(users, ByEmail(email)).Some? && !matches(password, users[Find(users, ByEmail(email)).value].password)
    ensures LoginSpec(users, Some(email), Some(password), matches, sign, now) == Failure(Raise(401, BadCredentialsMessage))
  {
  }

  /** A user who has just registered can log in with the same email and password, provided the
      hash accepts the password it was made from; the cookie and the body carry the same token. */
  lemma RegisterThenLogin(users: seq<User>, nextId: nat, username: string, email: string, password: string,
                          hash: string -> string, matches: (string, string) -> bool,
                          sign: Claims -> Option<string>, now: int, later: int)
    requires UsersValid(users, nextId)
    requires username != "" && email != "" && password != ""
    requires !Taken(users, username, email)
    requires matches(password, hash(password))
    requires sign(IssuedClaims(nextId, later)).Some?
    ensures var users' := RegisterSpec(users, nextId, Some(username), Some(email), Some(password), hash, sign, now).1;
            var r := LoginSpec(users', Some(email), Some(password), matches, sign, later);
            r.Success? && r.value.username == username && r.value.id == nextId
            && r.value.message == WelcomePrefix + username
            && r.value.cookie.value == r.value.token == sign(IssuedClaims(nextId, later)).value
  {
    var users' := RegisterSpec(users, nextId, Some(username), Some(email), Some(password), hash, sign, now).1;
    var found := Find(users', ByEmail(email));
    assert users'[|users|].email == email;
    forall i | 0 <= i < |users| ensures users'[i].email != email {
      assert users'[i] == users[i];
      assert !(users[i].email == email || users[i].username == username);
    }
  }

  /** The user collection. */
  class UserStore {
    var users: seq<User>
    var nextId: nat

    ghost predicate Valid()
      reads this
    {
      UsersValid(users, nextId)
    }

    constructor ()
      ensures Valid() && users == [] && nextId == 0
    {
      users := [];
      nextId := 0;
    }

    /** `register`. A signer failure is reported after the user has been created. */
    method Register(username: Option<string>, email: Option<string>, password: Option<string>,
                    hash: string -> string, sign: Claims -> Option<string>, now: int)
      returns (r: Result<Registered, AppError>)
      requires Valid()
      modifies this
      ensures Valid()
      ensures (r, users) == RegisterSpec(old(users), old(nextId), username, email, password, hash, sign, now)
      ensures nextId == if users == old(users) then old(nextId) else old(nextId) + 1
    {
      RegisterKeepsValid(users, nextId, username, email, password, hash, sign, now);
      if !Given(username) || !Given(email) || !Given(password) {
        return Failure(Raise(400, MissingFieldsMessage));
      }
      if Taken(users, username.value, email.value) {
        return Failure(Raise(409, TakenMessage));
      }
      var id := nextId;
      users := users + [User(id, username.value, email.value, hash(password.value))];
      nextId := nextId + 1;
      var token := sign(IssuedClaims(id, now));
      if token.None? {
        return Failure(Unexpected(SignFailedMessage));
      }
      r := Success(Registered(username.value, email.value, token.value));
    }

    /** `login`: answers from the stored users without changing them. */
    method Login(email: Option<string>, password: Option<string>, matches: (string, string) -> bool,
                 sign: Claims -> Option<string>, now: int)
      returns (r: Result<LoggedIn, AppError>)
      ensures r == LoginSpec(users, email, password, matches, sign, now)
    {
      if !Given(email) || !Given(password) {
        return Failure(Raise(400, MissingFieldsMessage));
      }
      var found := Find(users, ByEmail(email.value));
      if found.None? || !matches(password.value, users[found.value].password) {
        return Failure(Raise(401, BadCredentialsMessage));
      }
      var user := users[found.value];
      var token := sign(IssuedClaims(user.id, now));
      if token.None? {
        return Failure(Unexpected(SignFailedMessage));
      }
      r := Success(LoggedIn(Cookie("token", token.value, true, "strict", CookieMaxAge), WelcomePrefix + user.username,
                            user.id, user.username, user.email, token.value));
    }
  }
}
