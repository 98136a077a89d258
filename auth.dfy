/** The `auth` middleware: extracting the bearer token and verifying it. */
module Auth {
  import opened Wrappers
  import opened JsString
  import opened Records

  /** "Token manquant" or "Token invalide"; both answer 401. */
  datatype AuthError = MissingToken | InvalidToken

  /** `req.headers.authorization?.split(" ")[1]`, kept only when truthy. */
  function BearerToken(authorization: Option<string>): (token: Option<string>)
    ensures token.Some? ==> token.value != "" && ' ' !in token.value
  {
    if authorization.None? then None
    else
      var parts := Split(authorization.value, ' ');
      if |parts| < 2 || parts[1] == "" then None else Some(parts[1])
  }

  /** The actor the middleware puts in `req.user`: the verified token's claims. */
  function Authenticate(authorization: Option<string>, verify: string -> Option<Claims>): Result<Claims, AuthError>
  {
    match BearerToken(authorization)
    case None => Failure(MissingToken)
    case Some(token) =>
      match verify(token)
      case None => Failure(InvalidToken)
      case Some(claims) => Success(claims)
  }

  /** `"<scheme> <token>"`, possibly followed by more space-separated words,
      yields exactly `token`, and the actor is whatever verification says. */
  lemma {:induction false} AuthenticateBearer(scheme: string, token: string, tail: string, verify: string -> Option<Claims>)
    requires ' ' !in scheme && ' ' !in token && token != ""
    requires tail == "" || tail[0] == ' '
    ensures BearerToken(Some(scheme + " " + token + tail)) == Some(token)
    ensures Authenticate(Some(scheme + " " + token + tail), verify)
      == if verify(token).Some? then Success(verify(token).value) else Failure(InvalidToken)
  {
    var header := scheme + " " + token + tail;
    if tail == "" {
      assert header == scheme + [' '] + token;
      SplitAfter(scheme, ' ', token);
      SplitWithout(token, ' ');
    } else {
      assert header == scheme + [' '] + (token + [' '] + tail[1..]);
      SplitAfter(scheme, ' ', token + [' '] + tail[1..]);
      SplitAfter(token, ' ', tail[1..]);
    }
  }

  /** A first space that ends the header or is followed by another space
      leaves an empty second word, which is not truthy: no token. */
  lemma {:induction false} AuthenticateEmptyToken(scheme: string, tail: string, verify: string -> Option<Claims>)
    requires ' ' !in scheme
    requires tail == "" || tail[0] == ' '
    ensures BearerToken(Some(scheme + " " + tail)) == None
    ensures Authenticate(Some(scheme + " " + tail), verify) == Failure(MissingToken)
  {
    assert scheme + " " + tail == scheme + [' '] + tail;
    SplitAfter(scheme, ' ', tail);
    if tail != "" {
      assert tail == "" + [' '] + tail[1..];
      SplitAfter("", ' ', tail[1..]);
    }
  }

  /** A header without a space, or no header at all, carries no token. */
  lemma {:induction false} AuthenticateNoSpace(header: string, verify: string -> Option<Claims>)
    requires ' ' !in header
    ensures Authenticate(Some(header), verify) == Failure(MissingToken)
    ensures Authenticate(None, verify) == Failure(MissingToken)
  {
    SplitWithout(header, ' ');
  }
}
