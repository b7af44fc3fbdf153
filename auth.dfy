/**
 * The authentication routes of src/routes/auth.ts as a session state
 * machine: a user store keyed by e-mail, request-body validation, and
 * the register, login, logout, refresh and me handlers. Each handler's
 * response is the value it returns: a status, a JSON body and the cookie
 * writes in the order the handler makes them.
 */
module Auth {
  import opened Wrappers
  import opened Text
  import opened Session

  /** One member of a JSON request body. */
  datatype Field = Absent | Str(s: string) | NotString

  datatype RegisterBody = RegisterBody(email: Field, password: Field, name: Field)
  datatype LoginBody = LoginBody(email: Field, password: Field)

  /** The places a schema check can fail; the body may also not be an object at all. */
  datatype Issue = NotAnObject | EmailIssue | PasswordIssue | NameIssue

  datatype Parsed<T> = Accepted(value: T) | Rejected(issues: set<Issue>)

  datatype RegisterInput = RegisterInput(email: string, password: string, name: Option<string>)
  datatype LoginInput = LoginInput(email: string, password: string)

  const MinPasswordLength := 6

  predicate EmailOk(lib: Primitives, f: Field) {
    f.Str? && lib.isEmail(f.s)
  }

  /** A given name is trimmed and must then be non-empty; an absent name is fine. */
  predicate NameOk(f: Field) {
    f.Absent? || (f.Str? && Trim(f.s) != [])
  }

  /**
   * A password is a string of at least six UTF-16 code units, the unit
   * JavaScript's `length` counts.
   */
  predicate PasswordOk(f: Field) {
    f.Str? && Utf16Length(f.s) >= MinPasswordLength
  }

  /**
   * `RegisterDto.safeParse`: every failing field is reported; an accepted
   * body has a well-formed e-mail, a password of at least six code units,
   * and a name that is either null or trimmed and non-empty.
   */
  function ParseRegister(lib: Primitives, body: Option<RegisterBody>): (r: Parsed<RegisterInput>)
    ensures body.None? ==> r == Rejected({NotAnObject})
    ensures body.Some? ==>
              (r.Accepted? <==> EmailOk(lib, body.value.email) && body.value.password.Str?
                                && PasswordOk(body.value.password) && NameOk(body.value.name))
    ensures r.Rejected? ==> r.issues != {}
    ensures r.Rejected? && body.Some? ==>
              (EmailIssue in r.issues <==> !EmailOk(lib, body.value.email)) &&
              (PasswordIssue in r.issues <==> !PasswordOk(body.value.password)) &&
              (NameIssue in r.issues <==> !NameOk(body.value.name))
    ensures r.Accepted? ==>
              r.value == RegisterInput(body.value.email.s, body.value.password.s,
                                       if body.value.name.Str? then Some(Trim(body.value.name.s)) else None)
    ensures r.Accepted? ==>
              lib.isEmail(r.value.email) && Utf16Length(r.value.password) >= MinPasswordLength &&
              (r.value.name.Some? ==> r.value.name.value != [] && Trim(r.value.name.value) == r.value.name.value) &&
              (r.value.name.None? <==> body.value.name.Absent?)
  {
    match body
    case None => Rejected({NotAnObject})
    case Some(b) =>
      var issues :=
        (if EmailOk(lib, b.email) then {} else {EmailIssue}) +
        (if PasswordOk(b.password) then {} else {PasswordIssue}) +
        (if NameOk(b.name) then {} else {NameIssue});
      if issues != {} then Rejected(issues)
      else
        assert EmailIssue !in issues && PasswordIssue !in issues && NameIssue !in issues;
        var name := if b.name.Str? then Some(Trim(b.name.s)) else None;
        TrimIdempotent(if b.name.Str? then b.name.s else []);
        Accepted(RegisterInput(b.email.s, b.password.s, name))
  }

  /** `LoginDto.safeParse`: a well-formed e-mail and any text as password. */
  function ParseLogin(lib: Primitives, body: Option<LoginBody>): (r: Parsed<LoginInput>)
    ensures body.None? ==> r == Rejected({NotAnObject})
    ensures body.Some? ==> (r.Accepted? <==> EmailOk(lib, body.value.email) && body.value.password.Str?)
    ensures r.Rejected? ==> r.issues != {}
    ensures r.Accepted? ==> r.value == LoginInput(body.value.email.s, body.value.password.s)
  {
    match body
    case None => Rejected({NotAnObject})
    case Some(b) =>
      var issues :=
        (if EmailOk(lib, b.email) then {} else {EmailIssue}) +
        (if b.password.Str? then {} else {PasswordIssue});
      if issues != {} then Rejected(issues)
      else
        assert EmailIssue !in issues && PasswordIssue !in issues;
        Accepted(LoginInput(b.email.s, b.password.s))
  }

  /** A stored user: the password is kept only as its hash; the name may be null. */
  datatype User = User(id: int, email: string, passwordHash: string, name: Option<string>)

  /** A JSON response body. */
  datatype Body =
    | Public(id: int, email: string, name: Option<string>)  // {id, email, name}
    | Identity(subject: int, tokenEmail: Option<string>)    // {id, email} from a token
    | Message(text: string)                                 // {message}
    | Confirmed                                             // {ok: true}
    | Issues(issues: set<Issue>)                            // the formatted schema error

  /** What a handler ends with: the response it writes, or an exception thrown before it writes one. */
  datatype Response =
    | Response(status: int, body: Body, cookies: seq<CookieWrite>)
    | Thrown

  const EmailTaken := "Email already used"
  const InvalidCredentials := "Invalid credentials"
  const NoRefreshToken := "No refresh token"
  const InvalidRefreshToken := "Invalid refresh token"
  const Unauthenticated := "Unauthenticated"
  const InvalidToken := "Invalid token"

  function PublicView(u: User): Body {
    Public(u.id, u.email, u.name)
  }

  /** The claims both token kinds are signed with for a user: the id as subject and the e-mail. */
  function ClaimsOf(u: User): Claims {
    Claims(Some(u.id), Some(u.email))
  }

  /** A 401 response with a message and no cookie writes. */
  function Denied(text: string): Response {
    Response(401, Message(text), [])
  }

  class AuthService {
    const lib: Primitives
    const accessExpires: Expires
    const refreshExpires: Expires

    /** The user table, keyed by its unique e-mail column. */
    var users: map<string, User>
    /** The id the table's auto-increment gives the next user. */
    var nextId: int

    ghost predicate Valid()
      reads this
    {
      && nextId >= 1
      && (forall e :: e in users ==> users[e].email == e && 1 <= users[e].id < nextId)
      && (forall e, f :: e in users && f in users && e != f ==> users[e].id != users[f].id)
    }

    /** The expiry policies come from the two environment settings, read once at start-up. */
    constructor (lib: Primitives, accessSetting: Option<string>, refreshSetting: Option<string>)
      ensures Valid()
      ensures this.lib == lib && users == map[]
      ensures accessExpires == ParseExpires(accessSetting, AccessDefault)
      ensures refreshExpires == ParseExpires(refreshSetting, RefreshDefault)
    {
      this.lib := lib;
      accessExpires := ParseExpires(accessSetting, AccessDefault);
      refreshExpires := ParseExpires(refreshSetting, RefreshDefault);
      users := map[];
      nextId := 1;
    }

    /** Whether the signer accepts both expiry policies, without which `signTokens` throws. */
    predicate Signable() {
      lib.signable(accessExpires) && lib.signable(refreshExpires)
    }

    /** `signTokens` followed by `setAuthCookies`; `None` when `signTokens` throws. */
    function SessionCookies(c: Claims): (w: Option<seq<CookieWrite>>)
      ensures w.Some? <==> Signable()
      ensures w.Some? ==> w.value == AuthCookies(SignTokens(lib, accessExpires, refreshExpires, c).value)
    {
      match SignTokens(lib, accessExpires, refreshExpires, c)
      case None => None
      case Some(t) => Some(AuthCookies(t))
    }

    /**
     * POST /auth/register. A rejected body gives 400 with the issues, a
     * taken e-mail gives 409; neither touches the store. Otherwise exactly
     * one user is added under that e-mail with the next id, a session is
     * opened for it, and its public view is returned; when the signer
     * rejects a policy the handler throws, but the user is already stored.
     */
    method Register(body: Option<RegisterBody>, salt: int) returns (r: Response)
      requires Valid()
      modifies this
      ensures Valid()
      ensures ParseRegister(lib, body).Rejected? ==>
                r == Response(400, Issues(ParseRegister(lib, body).issues), []) &&
                users == old(users) && nextId == old(nextId)
      ensures ParseRegister(lib, body).Accepted? && ParseRegister(lib, body).value.email in old(users) ==>
                r == Response(409, Message(EmailTaken), []) && users == old(users) && nextId == old(nextId)
      ensures ParseRegister(lib, body).Accepted? && ParseRegister(lib, body).value.email !in old(users) ==>
                var input := ParseRegister(lib, body).value;
                var u := User(old(nextId), input.email, lib.hash(input.password, salt), input.name);
                && users == old(users)[input.email := u]
                && nextId == old(nextId) + 1
                && |users| == |old(users)| + 1
                && (Signable() ==> r == Response(200, PublicView(u), SessionCookies(ClaimsOf(u)).value))
                && (!Signable() ==> r == Thrown)
    {
      var parsed := ParseRegister(lib, body);
      if parsed.Rejected? {
        return Response(400, Issues(parsed.issues), []);
      }
      var input := parsed.value;
      if input.email in users {
        return Response(409, Message(EmailTaken), []);
      }
      var hash := lib.hash(input.password, salt);
      var user := User(nextId, input.email, hash, input.name);
      users := users[input.email := user];
      nextId := nextId + 1;
      var cookies := SessionCookies(ClaimsOf(user));
      if cookies.None? {
        return Thrown;
      }
      r := Response(200, PublicView(user), cookies.value);
    }

    /**
     * POST /auth/login. An unknown e-mail and a wrong password give the
     * same 401 response; a match opens a session for the stored user and
     * returns its public view, or throws when the signer rejects a policy.
     * The store is only read.
     */
    function Login(body: Option<LoginBody>): (r: Response)
      reads this
      ensures ParseLogin(lib, body).Rejected? ==> r == Response(400, Issues(ParseLogin(lib, body).issues), [])
      ensures ParseLogin(lib, body).Accepted? ==>
                var input := ParseLogin(lib, body).value;
                var credentialsOk := input.email in users && lib.check(input.password, users[input.email].passwordHash);
                && (r.Response? && r.status == 200 <==> credentialsOk && Signable())
                && (r.Thrown? <==> credentialsOk && !Signable())
      ensures ParseLogin(lib, body).Accepted? && r.Response? && r.status != 200 ==> r == Denied(InvalidCredentials)
      ensures r.Response? && r.status == 401 ==> r == Denied(InvalidCredentials)
      ensures r.Response? && r.status == 200 ==>
                var u := users[ParseLogin(lib, body).value.email];
                r == Response(200, PublicView(u), SessionCookies(ClaimsOf(u)).value)
    {
      match ParseLogin(lib, body)
      case Rejected(issues) => Response(400, Issues(issues), [])
      case Accepted(input) =>
        if input.email !in users then Denied(InvalidCredentials)
        else
          var u := users[input.email];
          if !lib.check(input.password, u.passwordHash) then Denied(InvalidCredentials)
          else
            match SessionCookies(ClaimsOf(u))
            case None => Thrown
            case Some(w) => Response(200, PublicView(u), w)
    }

    /** POST /auth/logout: always succeeds and clears both cookies; reads nothing. */
    function Logout(): (r: Response)
      ensures r.Response? && r.status == 200 && r.body == Confirmed
      ensures forall jar :: CookieToken(Receive(jar, r.cookies), AccessCookie).None?
      ensures forall jar :: CookieToken(Receive(jar, r.cookies), RefreshCookie).None?
    {
      var w := [ClearCookie(AccessCookie), ClearCookie(RefreshCookie)];
      assert forall jar :: Receive(jar, w) == jar - {AccessCookie} - {RefreshCookie} by {
        forall jar ensures Receive(jar, w) == jar - {AccessCookie} - {RefreshCookie} {
          var j1 := jar - {AccessCookie};
          assert Receive(jar, w) == Receive(j1, w[1..]);
          assert Receive(j1, w[1..]) == Receive(j1 - {RefreshCookie}, w[1..][1..]);
          assert w[1..][1..] == [];
        }
      }
      Response(200, Confirmed, w)
    }

    /**
     * POST /auth/refresh: without a refresh cookie, 401 "No refresh token";
     * a token that does not verify, or verifies without a subject, 401
     * "Invalid refresh token"; otherwise both tokens are signed again from
     * the token's own subject and e-mail. A signer that rejects a policy
     * throws inside the handler's `try`, and the `catch` answers "Invalid
     * refresh token" too. The store is never read.
     */
    function Refresh(jar: Jar): (r: Response)
      ensures r.Response?
      ensures CookieToken(jar, RefreshCookie).None? ==> r == Denied(NoRefreshToken)
      ensures CookieToken(jar, RefreshCookie).Some? ==>
                var claims := lib.verify(CookieToken(jar, RefreshCookie).value);
                && (r.status == 200 <==> claims.Some? && HasSubject(claims.value) && Signable())
                && (r.status != 200 ==> r == Denied(InvalidRefreshToken))
                && (r.status == 200 ==>
                      r == Response(200, Confirmed, SessionCookies(Claims(claims.value.sub, claims.value.email)).value))
    {
      match CookieToken(jar, RefreshCookie)
      case None => Denied(NoRefreshToken)
      case Some(token) =>
        match lib.verify(token)
        case None => Denied(InvalidRefreshToken)
        case Some(c) =>
          if !HasSubject(c) then Denied(InvalidRefreshToken)
          else
            match SessionCookies(Claims(c.sub, c.email))
            case None => Denied(InvalidRefreshToken)
            case Some(w) => Response(200, Confirmed, w)
    }

    /**
     * GET /auth/me: without an access cookie, 401 "Unauthenticated"; a
     * token that does not verify, or verifies without a subject, 401
     * "Invalid token"; otherwise the identity the token names. The store
     * is never read.
     */
    function Me(jar: Jar): (r: Response)
      ensures r.Response? && r.cookies == []
      ensures CookieToken(jar, AccessCookie).None? ==> r == Denied(Unauthenticated)
      ensures CookieToken(jar, AccessCookie).Some? ==>
                var claims := lib.verify(CookieToken(jar, AccessCookie).value);
                && (r.status == 200 <==> claims.Some? && HasSubject(claims.value))
                && (r.status != 200 ==> r == Denied(InvalidToken))
                && (r.status == 200 ==> r.body == Identity(claims.value.sub.value, claims.value.email))
    {
      match CookieToken(jar, AccessCookie)
      case None => Denied(Unauthenticated)
      case Some(token) =>
        match lib.verify(token)
        case None => Denied(InvalidToken)
        case Some(c) =>
          if !HasSubject(c) then Denied(InvalidToken)
          else Response(200, Identity(c.sub.value, c.email), [])
    }
  }

  /** A registered user can log in with the password it registered with, and gets its own id back. */
  lemma LoginWithStoredPassword(s: AuthService, email: string, password: string, salt: int)
    requires Sound(s.lib) && s.Signable() && s.lib.isEmail(email)
    requires email in s.users && s.users[email].passwordHash == s.lib.hash(password, salt)
    ensures var r := s.Login(Some(LoginBody(Str(email), Str(password))));
            r.Response? && r.status == 200 && r.body.Public? && r.body.id == s.users[email].id && r.body.email == s.users[email].email
  {
    var lib := s.lib;
    assert lib.check(password, lib.hash(password, salt));
    assert ParseLogin(lib, Some(LoginBody(Str(email), Str(password)))).value == LoginInput(email, password);
  }

  /**
   * Registering a fresh e-mail and then logging in with the same password
   * succeeds, and both responses carry the same public view.
   */
  method RegisterThenLogin(s: AuthService, email: string, password: string, salt: int)
    returns (registered: Response, loggedIn: Response)
    requires s.Valid() && Sound(s.lib) && s.Signable()
    requires s.lib.isEmail(email) && Utf16Length(password) >= MinPasswordLength && email !in s.users
    modifies s
    ensures registered.Response? && registered.status == 200 && loggedIn.Response? && loggedIn.status == 200
    ensures registered.body == loggedIn.body == Public(old(s.nextId), email, None)
  {
    registered := s.Register(Some(RegisterBody(Str(email), Str(password), Absent)), salt);
    LoginWithStoredPassword(s, email, password, salt);
    loggedIn := s.Login(Some(LoginBody(Str(email), Str(password))));
  }

  /** After a successful login the browser holds an access token that `me` accepts for the same user. */
  lemma MeAfterLogin(s: AuthService, body: Option<LoginBody>, jar: Jar)
    requires s.Valid() && Sound(s.lib)
    requires s.Login(body).Response? && s.Login(body).status == 200
    ensures var u := s.users[ParseLogin(s.lib, body).value.email];
            s.Me(Receive(jar, s.Login(body).cookies)) == Response(200, Identity(u.id, Some(u.email)), [])
  {
    var u := s.users[ParseLogin(s.lib, body).value.email];
    var t := SignTokens(s.lib, s.accessExpires, s.refreshExpires, ClaimsOf(u)).value;
    ReceiveAuthCookies(jar, t);
  }

  /** A refresh keeps the session's subject: afterwards `me` names the subject the refresh token carried. */
  lemma MeAfterRefresh(s: AuthService, jar: Jar)
    requires Sound(s.lib)
    requires s.Refresh(jar).status == 200
    ensures var c := s.lib.verify(jar[RefreshCookie]).value;
            s.Me(Receive(jar, s.Refresh(jar).cookies)) == Response(200, Identity(c.sub.value, c.email), [])
  {
    var c := s.lib.verify(jar[RefreshCookie]).value;
    var t := SignTokens(s.lib, s.accessExpires, s.refreshExpires, Claims(c.sub, c.email)).value;
    ReceiveAuthCookies(jar, t);
  }

  /**
   * With an expiry policy the signer rejects, no session can be opened:
   * `login` never answers 200 (a matching password makes it throw) and
   * `refresh` always answers 401.
   */
  lemma UnsignableOpensNoSession(s: AuthService, body: Option<LoginBody>, jar: Jar)
    requires !s.Signable()
    ensures !(s.Login(body).Response? && s.Login(body).status == 200)
    ensures s.Refresh(jar).status == 401
  {
  }

  /** After logout neither `me` nor `refresh` finds a session. */
  lemma LogoutEndsSession(s: AuthService, jar: Jar)
    ensures s.Me(Receive(jar, s.Logout().cookies)) == Denied(Unauthenticated)
    ensures s.Refresh(Receive(jar, s.Logout().cookies)) == Denied(NoRefreshToken)
  {
  }
}
