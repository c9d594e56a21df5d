/**
 * Bearer-token authentication and the two role guards. Signature and
 * expiry checking of the token is an oracle `verify` passed in by the
 * caller: it yields the decoded claims, or None for a token it rejects.
 */
module AuthMiddleware {
  import opened Wrappers
  import opened Text

  /** The decoded token payload: `{ idusuario, tipousuario }`. */
  datatype Claims = Claims(idusuario: int, tipousuario: string)

  datatype AuthError = NoToken | BadToken

  /** Both authentication failures answer 401. */
  function AuthStatus(e: AuthError): (status: int)
    ensures status == 401
  {
    401
  }

  /**
   * `authHeader && authHeader.split(" ")[1]`, kept only when it is truthy:
   * the second space-separated piece of a non-empty header.
   */
  function BearerToken(header: Option<string>): (t: Option<string>)
    ensures t.Some? ==> t.value != "" && ' ' !in t.value
    ensures header.None? || header.value == "" ==> t.None?
  {
    if header.None? || header.value == "" then None
    else
      var pieces := Split(header.value, ' ');
      if |pieces| >= 2 && pieces[1] != "" then Some(pieces[1]) else None
  }

  /**
   * The token is the text between the first space of the header and the
   * next space (or the end); a header without a space, or with two spaces
   * in a row after the scheme, carries no token.
   */
  lemma {:induction false} BearerTokenPosition(h: string)
    ensures var i := IndexOf(h, ' ');
            var rest := if i < |h| then h[i + 1..] else "";
            var token := rest[..IndexOf(rest, ' ')];
            BearerToken(Some(h)) == (if i < |h| && token != "" then Some(token) else None)
  {
    var i := IndexOf(h, ' ');
    if h != "" && i < |h| {
      var rest := h[i + 1..];
      var pieces := Split(h, ' ');
      assert pieces == [h[..i]] + Split(rest, ' ');
      var j := IndexOf(rest, ' ');
      if j < |rest| {
        assert Split(rest, ' ')[0] == rest[..j];
      } else {
        assert Split(rest, ' ') == [rest];
        assert rest[..j] == rest;
      }
    }
  }

  /** Round trip with the client: a header `scheme + " " + token` yields the token back. */
  lemma BearerRoundTrip(scheme: string, token: string)
    requires scheme != "" && ' ' !in scheme
    requires token != "" && ' ' !in token
    ensures BearerToken(Some(scheme + " " + token)) == Some(token)
  {
    var h := scheme + " " + token;
    assert Join([scheme, token], ' ') == h by {
      assert Join([scheme, token][1..], ' ') == token;
    }
    SplitJoin([scheme, token], ' ');
  }

  /** The incoming request: its Authorization header and the `req.user` the middleware sets. */
  class Request {
    const authorization: Option<string>
    var user: Option<Claims>

    constructor (authorization: Option<string>)
      ensures this.authorization == authorization && user == None
    {
      this.authorization := authorization;
      user := None;
    }
  }

  /**
   * `authMiddleware`: 401 without a token or with a token `verify` rejects;
   * otherwise `req.user` becomes the decoded payload and the request goes on.
   */
  method Authenticate(req: Request, verify: string -> Option<Claims>) returns (r: Result<(), AuthError>)
    modifies req`user
    ensures r == Err(NoToken) <==> BearerToken(req.authorization).None?
    ensures r == Err(BadToken) <==>
      BearerToken(req.authorization).Some? && verify(BearerToken(req.authorization).value).None?
    ensures r.Err? ==> req.user == old(req.user)
    ensures r.Ok? ==> req.user == verify(BearerToken(req.authorization).value) && req.user.Some?
  {
    var token := BearerToken(req.authorization);
    if token.None? {
      return Err(NoToken);
    }
    var decoded := verify(token.value);
    if decoded.None? {
      return Err(BadToken);
    }
    req.user := decoded;
    r := Ok(());
  }

  /** The role guards answer 403. */
  datatype GuardError = Forbidden

  /** `requireOfertante`: passes a present user whose role is "ofertante". */
  function RequireOfertante(user: Option<Claims>): (r: Result<(), GuardError>)
    ensures r.Ok? <==> user.Some? && user.value.tipousuario == "ofertante"
  {
    if user.None? || user.value.tipousuario != "ofertante" then Err(Forbidden) else Ok(())
  }

  /** `requireConsumidor`: passes a present user whose role is "consumidor". */
  function RequireConsumidor(user: Option<Claims>): (r: Result<(), GuardError>)
    ensures r.Ok? <==> user.Some? && user.value.tipousuario == "consumidor"
  {
    if user.None? || user.value.tipousuario != "consumidor" then Err(Forbidden) else Ok(())
  }

  /** No request passes both role guards. */
  lemma GuardsExclusive(user: Option<Claims>)
    ensures !(RequireOfertante(user).Ok? && RequireConsumidor(user).Ok?)
  {
  }
}
