/** Registration and login. Hashing, password comparison and token
    signing are the opaque functions `hash`, `compare` and `sign`; the
    signing secret is the `JWT_SECRET` setting, absent or empty when not
    configured. */
module UserController {

  import opened Common
  import opened Text
  import opened Collection
  import opened UserModel
  import opened Database

  /** Why a registration was refused, in the order the checks run. */
  datatype RegisterError = MissingField | InvalidEmail | ShortPassword | AccountTaken | SaveRejected

  /** The handler's own length rule (the schema asks for 8, on the hash). */
  const MinPasswordLength := 6

  /** The token payload `{ id, email }`. */
  datatype Claims = Claims(id: Id, email: string)

  datatype LoginResult = LoggedIn(token: string) | LoginFailed(status: int)

  /** A secret is configured when the setting is present and non-empty. */
  predicate Configured(secret: Option<string>) {
    secret.Some? && secret.value != ""
  }

  /** `findOne({ $or: [{ username }, { email }] })`: the schema's setters
      cast the filter values as they cast stored ones. */
  predicate Taken(users: map<Id, User>, username: string, email: string) {
    exists id :: id in users && (users[id].username == Trim(username) || users[id].email == NormaliseEmail(email))
  }

  /** The guard chain of `registerUser`: presence, then the address
      pattern, then length, then uniqueness; the first failure answers. */
  function RegisterGuard(users: map<Id, User>, username: string, email: string, password: string): (r: Option<RegisterError>)
    ensures r.None? <==>
      && username != "" && email != "" && password != ""
      && (exists at, dot :: SplitsAsEmail(email, at, dot))
      && Utf16Length(password) >= MinPasswordLength
      && !Taken(users, username, email)
    ensures username == "" || email == "" || password == "" ==> r == Some(MissingField)
    ensures var present := username != "" && email != "" && password != "";
      && (present && !MatchesEmail(email) ==> r == Some(InvalidEmail))
      && (present && MatchesEmail(email) && Utf16Length(password) < MinPasswordLength ==> r == Some(ShortPassword))
      && (present && MatchesEmail(email) && Utf16Length(password) >= MinPasswordLength && Taken(users, username, email) ==>
            r == Some(AccountTaken))
    ensures r != Some(SaveRejected)
  {
    EmailCheckIsPattern(email);
    if username == "" || email == "" || password == "" then Some(MissingField)
    else if !MatchesEmail(email) then Some(InvalidEmail)
    else if Utf16Length(password) < MinPasswordLength then Some(ShortPassword)
    else if Taken(users, username, email) then Some(AccountTaken)
    else None
  }

  /** `registerUser`: after the guard chain, the user is cast (trimmed
      name, trimmed lower-case address, the hash as password, empty
      defaults) and saved, which runs the schema's validators. */
  method Register(db: Db, username: string, email: string, password: string, hash: string -> string)
    returns (status: int, err: Option<RegisterError>)
    requires db.Valid()
    modifies db`users, db`nextId, db`clock
    ensures db.Valid()
    ensures status == (if err.None? then StatusCreated else StatusBadRequest)
    ensures err.Some? ==> db.users == old(db.users)
    ensures RegisterGuard(old(db.users), username, email, password).Some? ==>
      err == RegisterGuard(old(db.users), username, email, password)
    ensures RegisterGuard(old(db.users), username, email, password).None? ==>
      err == (if SchemaValid(Cast(username, email, hash(password))) then None else Some(SaveRejected))
    ensures err.None? ==>
      db.users == old(db.users)[old(db.nextId) := Cast(username, email, hash(password))]
  {
    err := RegisterGuard(db.users, username, email, password);
    if err.Some? {
      return StatusBadRequest, err;
    }
    var u := Cast(username, email, hash(password));
    if !SchemaValid(u) {
      return StatusBadRequest, Some(SaveRejected);
    }
    assert !Taken(db.users, username, email);
    var _ := db.InsertUser(u);
    status := StatusCreated;
  }

  /** The filter `{ email }`, its value cast by the schema's setters. */
  function WithEmail(email: string): User -> bool {
    (u: User) => u.email == NormaliseEmail(email)
  }

  /** `id` holds the oldest user with the address, the one `findOne`
      returns; under the unique index it is the only one. */
  predicate FirstWithEmail(users: map<Id, User>, email: string, id: Id) {
    && id in users && users[id].email == NormaliseEmail(email)
    && forall other :: other in users && users[other].email == NormaliseEmail(email) ==> id <= other
  }

  /** `jwt.sign` accepts the `expiresIn` option only when it is given and
      non-empty; `JWT_EXPIRES_IN` unset passes `undefined`, and the
      library's option check throws. */
  predicate ExpirySet(expiresIn: Option<string>) {
    expiresIn.Some? && expiresIn.value != ""
  }

  /** What `loginUser` answers once `findOne` has returned `user`, stored
      under `id`: 400 when the request has no password (`bcrypt.compare`
      rejects its arguments and the `catch` answers), 401 for a wrong
      password, 500 without a secret, 400 again when `jwt.sign` throws on
      an unset expiry, otherwise a token signed over the id and the stored
      address. */
  function LoginAs(id: Id, user: User, password: Option<string>,
                   compare: (string, string) -> bool, secret: Option<string>, expiresIn: Option<string>,
                   sign: (Claims, string) -> string): (r: LoginResult)
    ensures r != LoginFailed(StatusNotFound)
    ensures r == LoginFailed(StatusBadRequest) <==>
      password.None? || (compare(password.value, user.password) && Configured(secret) && !ExpirySet(expiresIn))
    ensures password.Some? ==>
      && (!compare(password.value, user.password) ==> r == LoginFailed(StatusUnauthorized))
      && (compare(password.value, user.password) && !Configured(secret) ==> r == LoginFailed(StatusServerError))
      && (compare(password.value, user.password) && Configured(secret) && ExpirySet(expiresIn) ==>
            r == LoggedIn(sign(Claims(id, user.email), secret.value)))
  {
    if password.None? then LoginFailed(StatusBadRequest)
    else if !compare(password.value, user.password) then LoginFailed(StatusUnauthorized)
    else if !Configured(secret) then LoginFailed(StatusServerError)
    else if !ExpirySet(expiresIn) then LoginFailed(StatusBadRequest)
    else LoggedIn(sign(Claims(id, user.email), secret.value))
  }

  /** `loginUser`: 404 for an unknown address; otherwise the answer for
      the oldest user with the address, the one `findOne` returns. */
  function Login(users: map<Id, User>, bound: nat, email: string, password: Option<string>,
                 compare: (string, string) -> bool, secret: Option<string>, expiresIn: Option<string>,
                 sign: (Claims, string) -> string): (r: LoginResult)
    requires KeysBelow(users, bound)
    ensures r == LoginFailed(StatusNotFound) <==>
      forall id :: id in users ==> users[id].email != NormaliseEmail(email)
    ensures r == LoginFailed(StatusBadRequest) <==>
      && (exists id :: id in users && users[id].email == NormaliseEmail(email))
      && (|| password.None?
          || exists id :: FirstWithEmail(users, email, id) && compare(password.value, users[id].password)
               && Configured(secret) && !ExpirySet(expiresIn))
    ensures r == LoginFailed(StatusUnauthorized) ==>
      password.Some? &&
      exists id :: id in users && users[id].email == NormaliseEmail(email) && !compare(password.value, users[id].password)
    ensures r == LoginFailed(StatusServerError) ==> !Configured(secret)
    ensures r.LoggedIn? ==> Configured(secret) && ExpirySet(expiresIn) && password.Some?
    ensures r.LoggedIn? ==>
      password.Some? &&
      exists id :: id in users && users[id].email == NormaliseEmail(email)
        && compare(password.value, users[id].password)
        && r.token == sign(Claims(id, users[id].email), secret.value)
    ensures password.Some? ==> forall id :: FirstWithEmail(users, email, id) ==>
      && (!compare(password.value, users[id].password) ==> r == LoginFailed(StatusUnauthorized))
      && (compare(password.value, users[id].password) && !Configured(secret) ==> r == LoginFailed(StatusServerError))
      && (compare(password.value, users[id].password) && Configured(secret) && !ExpirySet(expiresIn) ==>
            r == LoginFailed(StatusBadRequest))
      && (compare(password.value, users[id].password) && Configured(secret) && ExpirySet(expiresIn) ==>
            r == LoggedIn(sign(Claims(id, users[id].email), secret.value)))
  {
    var found := FindFirst(users, WithEmail(email), bound);
    assert forall id :: id in users && users[id].email == NormaliseEmail(email) ==> id in Matching(users, WithEmail(email));
    match found
    case None => LoginFailed(StatusNotFound)
    case Some(id) =>
      assert FirstWithEmail(users, email, id);
      assert forall other :: FirstWithEmail(users, email, other) ==> other == id;
      LoginAs(id, users[id], password, compare, secret, expiresIn, sign)
  }

  /** Under the unique email index, any user with the address is the one
      the login lookup takes, so Login's answers apply to that user. */
  lemma UniqueEmailIsFirst(users: map<Id, User>, email: string, id: Id)
    requires UniqueAccounts(users)
    requires id in users && users[id].email == NormaliseEmail(email)
    ensures FirstWithEmail(users, email, id)
  {
  }

  /** A user who has just registered can log in with the same address and
      password, and the token names their new id: the stored address is
      the cast one, which the login filter casts the same way. */
  lemma {:induction false} RegisteredUserCanLogIn(
    users: map<Id, User>, k: Id, username: string, email: string, password: string,
    hash: string -> string, compare: (string, string) -> bool, secret: Option<string>,
    expiresIn: Option<string>, sign: (Claims, string) -> string)
    requires KeysBelow(users, k) && UniqueAccounts(users)
    requires RegisterGuard(users, username, email, password).None?
    requires compare(password, hash(password)) && Configured(secret) && ExpirySet(expiresIn)
    ensures var u := Cast(username, email, hash(password));
      && UniqueAccounts(users[k := u])
      && KeysBelow(users[k := u], k + 1)
      && Login(users[k := u], k + 1, email, Some(password), compare, secret, expiresIn, sign)
         == LoggedIn(sign(Claims(k, NormaliseEmail(email)), secret.value))
  {
    var u := Cast(username, email, hash(password));
    assert !Taken(users, username, email);
    assert forall id :: id in users ==> users[id].username != u.username && users[id].email != u.email;
    InsertKeepsAccountsUnique(users, k, u);
    FreshAccountLogsIn(users, k, u, email, password, compare, secret, expiresIn, sign);
  }

  /** Adding a user whose address no one else has makes a login with that
      address find exactly the new user. */
  lemma {:induction false} FreshAccountLogsIn(
    users: map<Id, User>, k: Id, u: User, email: string, password: string,
    compare: (string, string) -> bool, secret: Option<string>, expiresIn: Option<string>,
    sign: (Claims, string) -> string)
    requires KeysBelow(users, k)
    requires u.email == NormaliseEmail(email)
    requires forall id :: id in users ==> users[id].email != u.email
    requires compare(password, u.password) && Configured(secret) && ExpirySet(expiresIn)
    ensures KeysBelow(users[k := u], k + 1)
      && Login(users[k := u], k + 1, email, Some(password), compare, secret, expiresIn, sign)
         == LoggedIn(sign(Claims(k, u.email), secret.value))
  {
    var after := users[k := u];
    assert KeysBelow(after, k + 1);
    LookupFindsNewUser(users, k, u, email);
    assert after[k] == u && compare(password, after[k].password);
    assert Login(after, k + 1, email, Some(password), compare, secret, expiresIn, sign)
        == LoggedIn(sign(Claims(k, after[k].email), secret.value));
  }

  /** The login lookup by address finds the added user when no one else
      has that address. */
  lemma {:induction false} LookupFindsNewUser(users: map<Id, User>, k: Id, u: User, email: string)
    requires KeysBelow(users, k)
    requires u.email == NormaliseEmail(email)
    requires forall id :: id in users ==> users[id].email != u.email
    ensures FindFirst(users[k := u], WithEmail(email), k + 1) == Some(k)
  {
    var after := users[k := u];
    var keep := WithEmail(email);
    assert forall other :: other in users ==> !keep(users[other]);
    assert forall other :: other in after && other != k ==> after[other] == users[other];
    assert forall other :: other in Matching(after, keep) ==> other == k;
    assert k in Matching(after, keep);
    FindFirstUnique(after, keep, k + 1, k);
  }
}
