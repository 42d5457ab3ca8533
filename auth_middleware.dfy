/** The `requireAuth` pre-handler of the Fastify API (api/src/auth/auth.middleware.ts): it reads
    a bearer token (section 2.1 of RFC 6750) from the `authorization` header and either sets the
    request's `userId` or answers 401. `jwt.verify` is a parameter that yields the decoded
    `userId`, or `None` where it throws (bad signature, expiry, malformed or empty token). */
module AuthMiddleware {
  import opened Common

  const BearerPrefix: string := "Bearer "
  const MsgMissingHeader: string := "Missing or invalid authorization header"
  const MsgInvalidToken: string := "Invalid or expired token"

  datatype AuthOutcome = Authenticated(userId: string) | Rejected(message: string)

  /** The token: the header minus its first seven characters. */
  function Token(header: string): (t: string)
    requires StartsWith(header, BearerPrefix)
    ensures header == BearerPrefix + t
  {
    header[7..]
  }

  /** What `requireAuth` decides for a header value (`None` when the header is absent). */
  function Authorize(header: Option<string>, verify: string -> Option<string>): (r: AuthOutcome)
    ensures header.None? || !StartsWith(header.value, BearerPrefix) ==> r == Rejected(MsgMissingHeader)
    ensures header.Some? && StartsWith(header.value, BearerPrefix) ==>
      r == (if verify(Token(header.value)).Some? then Authenticated(verify(Token(header.value)).value)
            else Rejected(MsgInvalidToken))
  {
    if header.None? || header.value == [] || !StartsWith(header.value, BearerPrefix) then Rejected(MsgMissingHeader)
    else
      match verify(header.value[7..])
      case Some(uid) => Authenticated(uid)
      case None => Rejected(MsgInvalidToken)
  }

  /** The scheme name is matched case-sensitively and needs its trailing space. */
  lemma SchemeIsCaseSensitive(token: string, verify: string -> Option<string>)
    ensures Authorize(Some("bearer " + token), verify) == Rejected(MsgMissingHeader)
    ensures Authorize(Some("Bearer"), verify) == Rejected(MsgMissingHeader)
  {
    assert ("bearer " + token)[0] != BearerPrefix[0];
  }

  /** The token handed to `verify` is exactly what follows "Bearer ". */
  lemma TokenRoundTrip(token: string, verify: string -> Option<string>)
    ensures Token(BearerPrefix + token) == token
    ensures Authorize(Some(BearerPrefix + token), verify) ==
      (if verify(token).Some? then Authenticated(verify(token).value) else Rejected(MsgInvalidToken))
  {
    assert StartsWith(BearerPrefix + token, BearerPrefix) by {
      assert (BearerPrefix + token)[..7] == BearerPrefix;
    }
    assert (BearerPrefix + token)[7..] == token;
  }

  /** The fields of the Fastify request that `requireAuth` reads and writes. */
  class Request {
    const authorization: Option<string>
    var userId: Option<string>

    constructor(authorization: Option<string>)
      ensures this.authorization == authorization && userId == None
    {
      this.authorization := authorization;
      userId := None;
    }
  }

  /** The reply: its status code and error body once one is sent. */
  class Reply {
    var sent: bool
    var status: int
    var error: string

    constructor()
      ensures !sent
    {
      sent := false;
      status := 200;
      error := [];
    }
  }

  /** `requireAuth(request, reply)`: exactly one of "userId set" and "401 sent" happens. */
  method RequireAuth(request: Request, reply: Reply, verify: string -> Option<string>)
    requires !reply.sent
    modifies request, reply
    ensures Authorize(request.authorization, verify).Authenticated? ==>
      request.userId == Some(Authorize(request.authorization, verify).userId) && !reply.sent
    ensures Authorize(request.authorization, verify).Rejected? ==>
      request.userId == old(request.userId) && reply.sent && reply.status == 401
      && reply.error == Authorize(request.authorization, verify).message
    ensures reply.sent <==> Authorize(request.authorization, verify).Rejected?
  {
    var authHeader := request.authorization;
    if authHeader.None? || authHeader.value == [] || !StartsWith(authHeader.value, BearerPrefix) {
      reply.sent, reply.status, reply.error := true, 401, MsgMissingHeader;
      return;
    }
    var token := authHeader.value[7..];
    var decoded := verify(token);
    if decoded.Some? {
      request.userId := Some(decoded.value);
    } else {
      reply.sent, reply.status, reply.error := true, 401, MsgInvalidToken;
    }
  }
}
