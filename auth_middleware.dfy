/**
 * `verifyToken`: the middleware in front of the protected routes. It reads
 * the Authorization header, takes the second space-separated field as the
 * token, verifies it, and either answers the request itself or attaches the
 * verified payload to the request and passes it on.
 *
 * Signature verification (`jwt.verify` with the server secret) is a parameter:
 * a function from a token to its payload, or to nothing when it is rejected.
 */
module AuthMiddleware {
  import opened Common
  import opened Text

  /** The payload of a verified token. */
  datatype Claims = Claims(id: int, email: string)

  /** How a call ends: the middleware responds, or it calls `next()`. */
  datatype Outcome = Respond(status: int, error: string) | Next

  const NoTokenError: string := "Access Denied: No Token Provided"
  const MalformedError: string := "Access Denied: Malformed Token"
  const InvalidError: string := "Invalid Token"

  /**
   * `tokenHeader.split(' ')[1]`, kept only when it is a non-empty string:
   * `undefined` (fewer than two fields) and `""` are both falsy. A token found
   * is a whole field: non-empty, without spaces, and between separators.
   */
  function BearerToken(header: string): (t: Option<string>)
    ensures t.Some? ==> t.value != "" && Free(t.value, ' ')
    ensures t.Some? ==> |Split(header, ' ')| >= 2 && Split(header, ' ')[1] == t.value
  {
    var fields := Split(header, ' ');
    SplitFieldsFree(header, ' ');
    if |fields| >= 2 && fields[1] != "" then Some(fields[1]) else None
  }

  /**
   * Whatever word comes first (it is never compared with "Bearer"), a header
   * made of that word, one space and a space-free token yields the token,
   * whether or not more space-separated text follows.
   */
  lemma SchemeThenToken(scheme: string, token: string, more: Option<string>)
    requires Free(scheme, ' ') && Free(token, ' ') && token != ""
    ensures BearerToken(scheme + " " + token + (if more.Some? then " " + more.value else "")) == Some(token)
  {
    SplitOfFree(scheme, ' ');
    SplitOfFree(token, ' ');
    if more.Some? {
      var tail := token + [' '] + more.value;
      SplitAround(token, ' ', more.value);
      assert scheme + " " + token + (" " + more.value) == scheme + [' '] + tail;
      SplitAround(scheme, ' ', tail);
      assert Split(scheme + [' '] + tail, ' ') == [scheme] + ([token] + Split(more.value, ' '));
    } else {
      assert scheme + " " + token + "" == scheme + [' '] + token;
      SplitAround(scheme, ' ', token);
    }
  }

  /** A header with no space at all has no second field: "Bearer" alone is malformed. */
  lemma NoSpaceIsMalformed(header: string)
    requires Free(header, ' ')
    ensures BearerToken(header) == None
  {
    SplitOfFree(header, ' ');
  }

  /** Two spaces after the first word leave an empty second field: "Bearer  x" is malformed. */
  lemma DoubleSpaceIsMalformed(scheme: string, rest: string)
    requires Free(scheme, ' ')
    ensures BearerToken(scheme + "  " + rest) == None
  {
    SplitOfFree(scheme, ' ');
    assert scheme + "  " + rest == scheme + [' '] + ("" + [' '] + rest);
    SplitAround(scheme, ' ', "" + [' '] + rest);
    SplitAround("", ' ', rest);
  }

  /** The incoming request; `user` is what the middleware attaches. */
  class Request {
    const authorization: Option<string>
    var user: Option<Claims>

    constructor (authorization: Option<string>)
      ensures this.authorization == authorization && user == None
    {
      this.authorization := authorization;
      user := None;
    }
  }

  /**
   * The middleware. Each call ends in exactly one outcome: a response (401 with
   * no header or a malformed one, 400 when verification fails) or `Next`,
   * in which case the verified payload is attached to the request.
   */
  method VerifyToken(req: Request, verify: string -> Option<Claims>) returns (outcome: Outcome)
    modifies req
    // no header, or an empty one
    ensures (req.authorization == None || req.authorization == Some("")) ==>
      outcome == Respond(401, NoTokenError) && req.user == old(req.user)
    // a header without a usable second field
    ensures req.authorization.Some? && req.authorization.value != "" && BearerToken(req.authorization.value) == None ==>
      outcome == Respond(401, MalformedError) && req.user == old(req.user)
    // a token that does not verify: 400, not 401
    ensures req.authorization.Some? && BearerToken(req.authorization.value).Some?
            && verify(BearerToken(req.authorization.value).value) == None ==>
      outcome == Respond(400, InvalidError) && req.user == old(req.user)
    // a verified token: the payload is attached and the request goes on
    ensures req.authorization.Some? && BearerToken(req.authorization.value).Some?
            && verify(BearerToken(req.authorization.value).value).Some? ==>
      outcome == Next && req.user == verify(BearerToken(req.authorization.value).value)
    ensures outcome.Next? <==>
      req.authorization.Some? && BearerToken(req.authorization.value).Some?
      && verify(BearerToken(req.authorization.value).value).Some?
  {
    var header := req.authorization;
    if header == None || header.value == "" {
      return Respond(401, NoTokenError);
    }
    var token := BearerToken(header.value);
    if token == None {
      return Respond(401, MalformedError);
    }
    var verified := verify(token.value);
    if verified == None {
      return Respond(400, InvalidError);
    }
    req.user := verified;
    outcome := Next;
  }
}
