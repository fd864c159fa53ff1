/** The browser side of authentication: finding the token in
    `document.cookie`, the two request/response interceptors, and what
    login, register and logout leave in the cookie jar and in
    `localStorage`. */
module AuthService {

  import opened Common
  import opened Text
  import opened Collection
  import AuthMiddleware

  /** A `;`-separated piece of the cookie string that, once trimmed,
      starts with "token=". */
  predicate IsTokenPiece(piece: string) {
    StartsWith(Trim(piece), "token=")
  }

  /** `document.cookie.split(";").find(...)`: the first token piece. */
  function FindTokenPiece(pieces: seq<string>): (r: Option<string>)
    ensures r.Some? ==> r.value in pieces && IsTokenPiece(r.value)
    ensures r.Some? <==> exists i :: 0 <= i < |pieces| && IsTokenPiece(pieces[i])
  {
    Find(pieces, IsTokenPiece)
  }

  /** `find` returns the first token piece: when the piece at `i` is one
      and none before it is, that piece is the one found. */
  lemma {:induction false} FindTokenPieceIsFirst(pieces: seq<string>, i: nat)
    requires i < |pieces| && IsTokenPiece(pieces[i])
    requires forall j :: 0 <= j < i ==> !IsTokenPiece(pieces[j])
    ensures FindTokenPiece(pieces) == Some(pieces[i])
  {
    FindIsFirst(pieces, IsTokenPiece, i);
  }

  /** `isAuthenticated`: some piece of the cookie string is a token piece,
      exactly when the request interceptor's `find` picks one. */
  function IsAuthenticated(cookie: string): (b: bool)
    ensures b <==> FindTokenPiece(Split(cookie, ';')).Some?
  {
    var pieces := Split(cookie, ';');
    assert forall i :: 0 <= i < |pieces| ==> pieces[i] in pieces;
    exists piece :: piece in pieces && IsTokenPiece(piece)
  }

  /** A token piece contains '='. */
  lemma TokenPieceHasEquals(piece: string)
    requires IsTokenPiece(piece)
    ensures '=' in piece
  {
    var t := Trim(piece);
    var k :| OccursAt(piece, t, k);
    assert t[5] == '=';
    assert piece[k + 5] == t[5];
  }

  /** Every token piece contains '='. */
  lemma TokenPiecesHaveEquals()
    ensures forall piece :: IsTokenPiece(piece) ==> '=' in piece
  {
    forall piece | IsTokenPiece(piece) ensures '=' in piece {
      TokenPieceHasEquals(piece);
    }
  }

  /** The value the request interceptor sends: the text between the first
      and the second '=' of the first token piece. */
  function TokenValue(cookie: string): (v: Option<string>)
    ensures v.Some? <==> IsAuthenticated(cookie)
    ensures v.Some? ==> '=' !in v.value
    ensures v.Some? ==> ReadFromFirstPassing(Split(cookie, ';'), IsTokenPiece, v.value)
  {
    TokenPiecesHaveEquals();
    PieceValue(Split(cookie, ';'), IsTokenPiece)
  }

  /** `v` is the text of `piece` after its first '=', up to the next '='
      or to the end of the piece: `piece.split("=")[1]`. */
  predicate ValueAfterFirstEquals(piece: string, v: string) {
    exists k ::
      && 0 <= k < |piece| && piece[k] == '=' && '=' !in piece[..k]
      && k + 1 + |v| <= |piece| && piece[k + 1..k + 1 + |v|] == v
      && (k + 1 + |v| == |piece| || piece[k + 1 + |v|] == '=')
  }

  /** `v` is read from the first piece that passes `keep`: that piece
      passes, no earlier one does, and `v` follows its first '='. */
  predicate ReadFromFirstPassing(pieces: seq<string>, keep: string -> bool, v: string) {
    exists i ::
      && 0 <= i < |pieces| && keep(pieces[i])
      && (forall j :: 0 <= j < i ==> !keep(pieces[j]))
      && ValueAfterFirstEquals(pieces[i], v)
  }

  /** `pieces.find(keep)?.split("=")[1]` for a test that only passes
      pieces holding '=': the second '='-field of the first passing piece. */
  function PieceValue(pieces: seq<string>, keep: string -> bool): (v: Option<string>)
    requires forall piece :: keep(piece) ==> '=' in piece
    ensures v.Some? <==> exists i :: 0 <= i < |pieces| && keep(pieces[i])
    ensures v.Some? ==> '=' !in v.value
    ensures v.Some? ==> ReadFromFirstPassing(pieces, keep, v.value)
  {
    match Find(pieces, keep)
    case None => None
    case Some(piece) =>
      FoundPieceValue(pieces, keep);
      Field(piece, '=', 1)
  }

  /** The piece `find` returns under any test, when it holds '=', is the
      first passing piece, and its second '='-field is the text after its
      first '='. */
  lemma {:induction false} FoundPieceValue(pieces: seq<string>, keep: string -> bool)
    requires Find(pieces, keep).Some? && '=' in Find(pieces, keep).value
    ensures Field(Find(pieces, keep).value, '=', 1).Some?
    ensures ReadFromFirstPassing(pieces, keep, Field(Find(pieces, keep).value, '=', 1).value)
  {
    var piece := Find(pieces, keep).value;
    FindFoundFirst(pieces, keep);
    SplitSecondPiece(piece, '=');
    var k := IndexOf(piece, '=');
    assert ValueAfterFirstEquals(piece, Field(piece, '=', 1).value) by {
      assert 0 <= k < |piece| && piece[k] == '=' && '=' !in piece[..k];
    }
  }

  /** A value that can sit in a cookie piece and be read back whole:
      non-empty, no ';', no '=', no white space. */
  predicate CookieSafe(v: string) {
    v != "" && ';' !in v && '=' !in v && HasNoSpace(v)
  }

  /** Request headers, by name. */
  type Headers = map<string, string>

  /** The request interceptor: `Authorization: Bearer <value>` when the
      cookie holds a token piece, the headers untouched otherwise. */
  function InterceptRequest(cookie: string, headers: Headers): (r: Headers)
    ensures !IsAuthenticated(cookie) ==> r == headers
    ensures IsAuthenticated(cookie) ==>
      r == headers["Authorization" := "Bearer " + TokenValue(cookie).value]
  {
    match TokenValue(cookie)
    case None => headers
    case Some(v) => headers["Authorization" := "Bearer " + v]
  }

  /** A cookie whose first token piece carries a value without spaces
      yields a header from which the server's gate reads that same value. */
  lemma {:induction false} InterceptedTokenReachesGate(cookie: string, headers: Headers)
    requires IsAuthenticated(cookie) && ' ' !in TokenValue(cookie).value
    ensures AuthMiddleware.BearerToken(Some(InterceptRequest(cookie, headers)["Authorization"]))
         == TokenValue(cookie)
  {
    AuthMiddleware.BearerTokenRoundTrip(TokenValue(cookie).value);
  }

  /** What `getCurrentUser` ends in: null, the parsed user, or the
      SyntaxError that `JSON.parse` throws on text that is not JSON. */
  datatype CurrentUser<J> = NoUser | ParsedUser(user: J) | ParseError

  /** `JSON.stringify(undefined)` is `undefined`, which `localStorage`
      stores as this text; no JSON parser accepts it. */
  const UndefinedText := "undefined"

  /** The browser state the service touches: the `token` cookie (absent
      once expired), the `user` entry of `localStorage`, and the page
      location. Other cookies are not part of this model. */
  class Session {
    var token: Option<string>
    var storedUser: Option<string>
    var location: string

    /** `document.cookie` as the browser reports it with only the token
        cookie set. */
    function Cookie(): string
      reads this
    {
      if token.Some? then "token=" + token.value else ""
    }

    constructor (location: string)
      ensures token == None && storedUser == None && this.location == location
    {
      token, storedUser, this.location := None, None, location;
    }

    /** What `login` and `register` do with a response: the token cookie
        and the serialised user are written only when the response carries
        a (non-empty) token. `responseUser` is the JSON text of the
        response's `user`, `None` when the response has no such field. */
    method PersistAuthResponse(responseToken: Option<string>, responseUser: Option<string>)
      modifies this`token, this`storedUser
      ensures responseToken.Some? && responseToken.value != "" ==>
        && token == responseToken
        && storedUser == Some(if responseUser.Some? then responseUser.value else UndefinedText)
      ensures !(responseToken.Some? && responseToken.value != "") ==>
        token == old(token) && storedUser == old(storedUser)
      ensures responseToken.Some? && CookieSafe(responseToken.value) ==>
        IsAuthenticated(Cookie()) && TokenValue(Cookie()) == responseToken
    {
      if responseToken.Some? && responseToken.value != "" {
        token := responseToken;
        storedUser := Some(if responseUser.Some? then responseUser.value else UndefinedText);
        if CookieSafe(token.value) {
          StoredTokenIsSent(token.value);
        }
      }
    }

    /** `logout`: expires the token cookie and removes the stored user. */
    method Logout()
      modifies this`token, this`storedUser
      ensures token == None && storedUser == None
      ensures !IsAuthenticated(Cookie())
      ensures forall parse: string -> Option<string> :: GetCurrentUser(parse) == NoUser
    {
      token, storedUser := None, None;
      assert Split("", ';') == [""];
    }

    /** The response interceptor: a 401 expires the token cookie and sends
        the page to /login; any other failure leaves both alone. */
    method OnResponseError(status: Option<int>)
      modifies this`token, this`location
      ensures status == Some(StatusUnauthorized) ==> token == None && location == "/login"
      ensures status != Some(StatusUnauthorized) ==> token == old(token) && location == old(location)
    {
      if status == Some(StatusUnauthorized) {
        token, location := None, "/login";
      }
    }

    /** `getCurrentUser`: null when no (or an empty) user text is stored,
        otherwise the text given to `JSON.parse`, here the partial `parse`,
        which throws when the text is not JSON. */
    function GetCurrentUser<J>(parse: string -> Option<J>): (r: CurrentUser<J>)
      reads this
      ensures r == NoUser <==> storedUser.None? || storedUser.value == ""
      ensures storedUser.Some? && storedUser.value != "" ==>
        (r == ParseError <==> parse(storedUser.value).None?)
      ensures r.ParsedUser? ==> storedUser.Some? && parse(storedUser.value) == Some(r.user)
    {
      if storedUser.None? || storedUser.value == "" then NoUser
      else if parse(storedUser.value).None? then ParseError
      else ParsedUser(parse(storedUser.value).value)
    }
  }

  /** A login answer carries a token but no `user`, so the text "undefined"
      is stored and reading the current user back throws. */
  method LoginAnswerNotRestored<J>(session: Session, responseToken: string, parse: string -> Option<J>)
    requires responseToken != ""
    requires parse(UndefinedText).None?
    modifies session
    ensures session.token == Some(responseToken)
    ensures session.GetCurrentUser(parse) == ParseError
  {
    session.PersistAuthResponse(Some(responseToken), None);
  }

  /** An answer that carries the user as JSON text stores it, and reading
      the current user back gives the parsed user. */
  method UserAnswerRestored<J>(session: Session, responseToken: string, userJson: string, parse: string -> Option<J>)
    requires responseToken != "" && userJson != ""
    requires parse(userJson).Some?
    modifies session
    ensures session.token == Some(responseToken)
    ensures session.GetCurrentUser(parse) == ParsedUser(parse(userJson).value)
  {
    session.PersistAuthResponse(Some(responseToken), Some(userJson));
  }

  /** With a token cookie holding a value free of ';', '=' and spaces,
      the session counts as authenticated and sends exactly that value. */
  lemma {:induction false} StoredTokenIsSent(v: string)
    requires ';' !in v && '=' !in v && HasNoSpace(v)
    ensures IsAuthenticated("token=" + v)
    ensures TokenValue("token=" + v) == Some(v)
  {
    var c := "token=" + v;
    TokenCookieIsOnePiece(v);
    assert FindTokenPiece([c]) == Some(c);
    TokenPieceValue(v);
  }

  /** "token=<v>" is a single cookie piece, and a token piece. */
  lemma TokenCookieIsOnePiece(v: string)
    requires ';' !in v && HasNoSpace(v)
    ensures Split("token=" + v, ';') == ["token=" + v]
    ensures IsTokenPiece("token=" + v)
  {
    var c := "token=" + v;
    assert ';' !in c;
    PrefixHasNoSpace();
    NoSpaceConcat("token=", v);
    TrimKeepsUnspaced(c);
    PrefixOfTokenCookie(v);
  }

  lemma PrefixHasNoSpace()
    ensures HasNoSpace("token=")
  {
    assert "token=" == ['t', 'o', 'k', 'e', 'n', '='];
    assert !IsSpace('t') && !IsSpace('o') && !IsSpace('k') && !IsSpace('e') && !IsSpace('n') && !IsSpace('=');
  }

  lemma PrefixOfTokenCookie(v: string)
    ensures StartsWith("token=" + v, "token=")
  {
    assert ("token=" + v)[..6] == "token=";
  }

  lemma NoSpaceConcat(a: string, b: string)
    requires HasNoSpace(a) && HasNoSpace(b)
    ensures HasNoSpace(a + b)
  {
    forall i | 0 <= i < |a + b| ensures !IsSpace((a + b)[i]) {
      if i >= |a| { assert (a + b)[i] == b[i - |a|]; }
    }
  }

  /** The second '='-field of "token=<v>" is `v`. */
  lemma TokenPieceValue(v: string)
    requires '=' !in v
    ensures Field("token=" + v, '=', 1) == Some(v)
  {
    SplitJoin(["token", v], '=');
    assert Join(["token", v], '=') == "token=" + v by {
      assert Join(["token", v][1..], '=') == v;
    }
  }
}
