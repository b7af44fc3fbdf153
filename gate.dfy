/**
 * The `requireAuth` middleware of src/middleware/requireAuth.ts: it lets a
 * request through to the next handler, with an identity attached, or
 * answers it with a 401 response itself.
 */
module Gate {
  import opened Wrappers
  import opened Session
  import opened Auth

  /** What the middleware attaches as `req.user`; the id is undefined when the token has no subject. */
  datatype GateUser = GateUser(id: Option<int>, email: Option<string>)

  /** The middleware's decision for a request carrying these cookies. */
  datatype Verdict = Admit(user: GateUser) | Reject(response: Response)

  /**
   * No access cookie: 401 "Unauthenticated". A token that fails to verify:
   * 401 "Invalid token". Any verified token, with or without a subject:
   * the request goes on carrying the token's subject and e-mail.
   */
  function Decide(lib: Primitives, jar: Jar): (v: Verdict)
    ensures CookieToken(jar, AccessCookie).None? ==> v == Reject(Denied(Unauthenticated))
    ensures v.Admit? <==> CookieToken(jar, AccessCookie).Some? && lib.verify(CookieToken(jar, AccessCookie).value).Some?
    ensures v.Reject? && CookieToken(jar, AccessCookie).Some? ==> v.response == Denied(InvalidToken)
    ensures v.Admit? ==>
              var c := lib.verify(CookieToken(jar, AccessCookie).value).value;
              v.user == GateUser(c.sub, c.email)
  {
    match CookieToken(jar, AccessCookie)
    case None => Reject(Denied(Unauthenticated))
    case Some(token) =>
      match lib.verify(token)
      case None => Reject(Denied(InvalidToken))
      case Some(c) => Admit(GateUser(c.sub, c.email))
  }

  /** An incoming request: its cookies and the identity slot the middleware fills in. */
  class Request {
    const cookies: Jar
    var user: Option<GateUser>

    constructor (cookies: Jar)
      ensures this.cookies == cookies && user == None
    {
      this.cookies := cookies;
      user := None;
    }
  }

  /**
   * `requireAuth(req, res, next)`. Returns whether `next` is called (once)
   * and the response written otherwise: exactly one of the two happens.
   * Only an admitted request has its identity slot written.
   */
  method RequireAuth(lib: Primitives, req: Request) returns (next: bool, written: Option<Response>)
    modifies req
    ensures next <==> written.None?
    ensures match Decide(lib, req.cookies)
              case Admit(u) => next && req.user == Some(u)
              case Reject(resp) => written == Some(resp) && req.user == old(req.user)
  {
    var token := CookieToken(req.cookies, AccessCookie);
    if token.None? {
      return false, Some(Denied(Unauthenticated));
    }
    var payload := lib.verify(token.value);
    if payload.None? {
      return false, Some(Denied(InvalidToken));
    }
    req.user := Some(GateUser(payload.value.sub, payload.value.email));
    next, written := true, None;
  }

  /** Wherever the middleware refuses a request, `me` gives the very same response. */
  lemma RejectMatchesMe(s: AuthService, jar: Jar)
    ensures Decide(s.lib, jar).Reject? ==> s.Me(jar) == Decide(s.lib, jar).response
  {
  }

  /**
   * The one difference: the middleware admits a verified token that has
   * no (truthy) subject, where `me` refuses it; that is the only way the
   * two can disagree, and the admitted identity then has no usable id.
   */
  lemma AdmitWithoutSubject(s: AuthService, jar: Jar)
    ensures (Decide(s.lib, jar).Admit? && s.Me(jar).status != 200) <==>
              (CookieToken(jar, AccessCookie).Some? &&
               var c := s.lib.verify(CookieToken(jar, AccessCookie).value);
               c.Some? && !HasSubject(c.value))
    ensures Decide(s.lib, jar).Admit? && s.Me(jar).status != 200 ==>
              s.Me(jar) == Denied(InvalidToken) &&
              (Decide(s.lib, jar).user.id.None? || Decide(s.lib, jar).user.id == Some(0))
  {
  }

  /** When both accept, they name the same identity. */
  lemma AdmitMatchesMe(s: AuthService, jar: Jar)
    requires s.Me(jar).status == 200
    ensures Decide(s.lib, jar).Admit?
    ensures Decide(s.lib, jar).user == GateUser(Some(s.Me(jar).body.subject), s.Me(jar).body.tokenEmail)
  {
  }
}
