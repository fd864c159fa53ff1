/** The `protect` gate in front of the authenticated routes: it takes the
    token from the `Authorization` header, verifies it and loads the user.
    Verification is the opaque function `verify`, which yields the signed
    claims or fails. */
module AuthMiddleware {

  import opened Common
  import opened Text
  import opened UserModel
  import opened UserController

  /** The secret used when `JWT_SECRET` is not configured. */
  const DefaultSecret := "your_jwt_secret_key"

  /** `req.user`: the stored user without its password. */
  datatype RequestUser = RequestUser(id: Id, username: string, email: string, profilePicture: string, bio: string)

  /** Either `next()` with the loaded user, or a refusal with a status. */
  datatype GateResult = Next(user: RequestUser) | Refused(status: int)

  /** The scheme check is only a prefix test on "Bearer"; the token is then
      the second space-separated field, when there is one. */
  function BearerToken(header: Option<string>): (t: Option<string>)
    ensures t.Some? ==> header.Some? && StartsWith(header.value, "Bearer") && ' ' !in t.value
    ensures header.Some? && StartsWith(header.value, "Bearer") ==>
      t == Field(header.value, ' ', 1)
  {
    if header.Some? && StartsWith(header.value, "Bearer") then Field(header.value, ' ', 1) else None
  }

  /** "Bearer", a space and a token without spaces give back the token. */
  lemma {:induction false} BearerTokenRoundTrip(token: string)
    requires ' ' !in token
    ensures BearerToken(Some("Bearer " + token)) == Some(token)
  {
    var parts := ["Bearer", token];
    assert Join(parts, ' ') == "Bearer " + token by {
      assert Join(parts[1..], ' ') == token;
    }
    SplitJoin(parts, ' ');
  }

  /** The key `jwt.verify` is given. */
  function VerifyKey(secret: Option<string>): (k: string)
    ensures k != ""
    ensures Configured(secret) ==> k == secret.value
  {
    if Configured(secret) then secret.value else DefaultSecret
  }

  /** `protect`: 401 without a non-empty token, 401 when verification
      fails, 401 when the token's user is gone; otherwise `next()` with
      that user. */
  function Protect(header: Option<string>, secret: Option<string>,
                   verify: (string, string) -> Option<Claims>, users: map<Id, User>): (r: GateResult)
    ensures r.Refused? ==> r.status == StatusUnauthorized
    ensures r.Next? <==>
      var t := BearerToken(header);
      && t.Some? && t.value != ""
      && verify(t.value, VerifyKey(secret)).Some?
      && verify(t.value, VerifyKey(secret)).value.id in users
    ensures r.Next? ==>
      var id := verify(BearerToken(header).value, VerifyKey(secret)).value.id;
      var u := users[id];
      r.user == RequestUser(id, u.username, u.email, u.profilePicture, u.bio)
  {
    match BearerToken(header)
    case None => Refused(StatusUnauthorized)
    case Some(token) =>
      if token == "" then Refused(StatusUnauthorized)
      else
        match verify(token, VerifyKey(secret))
        case None => Refused(StatusUnauthorized)
        case Some(claims) =>
          if claims.id !in users then Refused(StatusUnauthorized)
          else
            var u := users[claims.id];
            Next(RequestUser(claims.id, u.username, u.email, u.profilePicture, u.bio))
  }

  /** A token from a successful login, sent as "Bearer <token>", passes the
      gate as the user who logged in, provided the token has no spaces and
      verification with the signing secret gives back the signed claims. */
  lemma {:induction false} LoginTokenPassesGate(
    users: map<Id, User>, bound: nat, email: string, password: Option<string>,
    compare: (string, string) -> bool, secret: Option<string>, expiresIn: Option<string>,
    sign: (Claims, string) -> string, verify: (string, string) -> Option<Claims>)
    requires Collection.KeysBelow(users, bound)
    requires Login(users, bound, email, password, compare, secret, expiresIn, sign).LoggedIn?
    requires forall c: Claims, key: string :: verify(sign(c, key), key) == Some(c)
    requires forall c: Claims, key: string :: ' ' !in sign(c, key) && sign(c, key) != ""
    ensures var token := Login(users, bound, email, password, compare, secret, expiresIn, sign).token;
      && Protect(Some("Bearer " + token), secret, verify, users).Next?
      && Protect(Some("Bearer " + token), secret, verify, users).user.email == NormaliseEmail(email)
  {
    var token := Login(users, bound, email, password, compare, secret, expiresIn, sign).token;
    var id :| id in users && users[id].email == NormaliseEmail(email)
      && compare(password.value, users[id].password)
      && token == sign(Claims(id, users[id].email), secret.value);
    BearerTokenRoundTrip(token);
    assert verify(token, VerifyKey(secret)) == Some(Claims(id, users[id].email));
  }
}
