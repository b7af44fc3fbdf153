/**
 * Token issue and cookie handling shared by the authentication routes
 * (src/routes/auth.ts): the expiry-policy reader, the abstract JSON Web
 * Token signer and verifier, the two session cookies, and how a browser
 * stores what a response sets.
 */
module Session {
  import opened Wrappers
  import opened Text

  /** A token lifetime: a count of seconds, or a duration text such as "15m" or "7d". */
  datatype Expires = Seconds(n: int) | Span(text: string)

  const AccessDefault: Expires := Span("15m")
  const RefreshDefault: Expires := Span("7d")

  /**
   * `parseExpires`: a missing, empty or blank setting gives the fallback;
   * a setting that reads as a number gives that many seconds; any other
   * setting is passed on as a duration text, unchanged.
   */
  function ParseExpires(setting: Option<string>, fallback: Expires): (r: Expires)
    ensures setting.None? || AllSpace(setting.value) ==> r == fallback
    ensures setting.Some? && !AllSpace(setting.value) ==>
              (r.Seconds? <==> ParseNumber(setting.value).Some? && Finite(ParseNumber(setting.value).value))
    ensures setting.Some? && !AllSpace(setting.value) && r.Seconds? ==>
              ParseNumber(setting.value) == Some(r.n)
    ensures setting.Some? && !AllSpace(setting.value) && r.Span? ==> r.text == setting.value
  {
    if setting.None? || setting.value == [] || Trim(setting.value) == [] then fallback
    else
      match ParseNumber(setting.value)
      case Some(n) => if Finite(n) then Seconds(n) else Span(setting.value)
      case None => Span(setting.value)
  }

  /** Unset or blank settings give the two defaults, "15m" and "7d". */
  lemma ParseExpiresDefaults()
    ensures ParseExpires(None, AccessDefault) == Span("15m")
    ensures ParseExpires(Some(" \t"), RefreshDefault) == Span("7d")
  {
    assert AllSpace(" \t");
  }

  /** A setting written as a decimal number is that many seconds. */
  lemma ParseExpiresSeconds(n: nat, fallback: Expires)
    requires n < OverflowBound
    ensures ParseExpires(Some(Show(n)), fallback) == Seconds(n)
  {
    ParseShow(n);
    assert !AllSpace(Show(n)) by { assert !IsSpace(Show(n)[0]); }
  }

  /** A number too large for a double reads as Infinity, so the text is kept as a span. */
  lemma ParseExpiresOverflow(n: nat, fallback: Expires)
    requires n >= OverflowBound
    ensures ParseExpires(Some(Show(n)), fallback) == Span(Show(n))
  {
    ParseShow(n);
    assert !AllSpace(Show(n)) by { assert !IsSpace(Show(n)[0]); }
  }

  /** The claims a session token carries: the subject (a user id) and the e-mail. */
  datatype Claims = Claims(sub: Option<int>, email: Option<string>)

  /** JavaScript truthiness of the subject claim: absent and 0 are falsy. */
  predicate HasSubject(c: Claims)
    ensures c.sub.None? ==> !HasSubject(c)
    ensures c.sub == Some(0) ==> !HasSubject(c)
    ensures c.sub.Some? && c.sub.value != 0 ==> HasSubject(c)
  {
    c.sub.Some? && c.sub.value != 0
  }

  /**
   * The foreign libraries the routes call, as uninterpreted functions:
   * token signing and verification (one shared secret), which expiry
   * policies the signer accepts (it throws on any other, such as a
   * duration text it cannot read), salted password hashing and
   * comparison, and the e-mail format check.
   */
  datatype Primitives = Primitives(
    sign: (Claims, Expires) -> string,
    signable: Expires -> bool,
    verify: string -> Option<Claims>,
    hash: (string, int) -> string,
    check: (string, string) -> bool,
    isEmail: string -> bool)

  /**
   * What the libraries are relied on for: a token signed under a policy
   * the signer accepts is a non-empty text that verifies to the claims it
   * was signed with, and a password matches its own hash.
   */
  ghost predicate Sound(lib: Primitives) {
    && (forall c, p :: lib.signable(p) ==> lib.sign(c, p) != [])
    && (forall c, p :: lib.signable(p) ==> lib.verify(lib.sign(c, p)) == Some(c))
    && (forall pw, salt :: lib.check(pw, lib.hash(pw, salt)))
  }

  datatype TokenPair = TokenPair(accessToken: string, refreshToken: string)

  /**
   * `signTokens`: both tokens carry the same claims, under the access and
   * the refresh policy. `None` is the signer throwing, which happens
   * exactly when one of the two policies is not one it accepts.
   */
  function SignTokens(lib: Primitives, access: Expires, refresh: Expires, c: Claims): (t: Option<TokenPair>)
    ensures t.Some? <==> lib.signable(access) && lib.signable(refresh)
    ensures Sound(lib) && t.Some? ==>
              lib.verify(t.value.accessToken) == Some(c) && lib.verify(t.value.refreshToken) == Some(c)
    ensures Sound(lib) && t.Some? ==> t.value.accessToken != [] && t.value.refreshToken != []
  {
    if lib.signable(access) && lib.signable(refresh) then Some(TokenPair(lib.sign(c, access), lib.sign(c, refresh)))
    else None
  }

  datatype SameSite = Lax | Strict | NoSameSite

  datatype CookieOptions = CookieOptions(httpOnly: bool, sameSite: SameSite, secure: bool, maxAgeMs: int)

  /** One `res.cookie` or `res.clearCookie` call. */
  datatype CookieWrite = SetCookie(name: string, value: string, options: CookieOptions) | ClearCookie(name: string)

  const AccessCookie := "access_token"
  const RefreshCookie := "refresh_token"

  const AccessMaxAgeMs := 15 * 60 * 1000
  const RefreshMaxAgeMs := 7 * 24 * 60 * 60 * 1000

  /** The Max-Age attribute (section 4.1.2.2 of RFC 6265, in seconds) sent for a max-age given in milliseconds. */
  function MaxAgeSeconds(ms: int): int {
    ms / 1000
  }

  /**
   * `setAuthCookies`: the access token and then the refresh token, both
   * HttpOnly (section 4.1.2.6 of RFC 6265), SameSite=Lax and not Secure;
   * the access cookie lives 15 minutes, the refresh cookie 7 days.
   */
  function AuthCookies(t: TokenPair): (w: seq<CookieWrite>)
    ensures |w| == 2 && w[0].SetCookie? && w[1].SetCookie?
    ensures w[0].name == AccessCookie && w[0].value == t.accessToken
    ensures w[1].name == RefreshCookie && w[1].value == t.refreshToken
    ensures forall i :: 0 <= i < 2 ==>
              w[i].options.httpOnly && w[i].options.sameSite == Lax && !w[i].options.secure
    ensures MaxAgeSeconds(w[0].options.maxAgeMs) == 15 * 60
    ensures MaxAgeSeconds(w[1].options.maxAgeMs) == 7 * 24 * 60 * 60
    ensures w[0].options.maxAgeMs == 900000 && w[1].options.maxAgeMs == 604800000
    ensures w[0].options.maxAgeMs < w[1].options.maxAgeMs
  {
    var common := CookieOptions(true, Lax, false, 0);
    [ SetCookie(AccessCookie, t.accessToken, common.(maxAgeMs := AccessMaxAgeMs)),
      SetCookie(RefreshCookie, t.refreshToken, common.(maxAgeMs := RefreshMaxAgeMs)) ]
  }

  /** Cookies a browser sends back, by name. */
  type Jar = map<string, string>

  /** `req.cookies?.name`, treating the empty value as absent as the `!token` guards do. */
  function CookieToken(jar: Jar, name: string): (r: Option<string>)
    ensures r.Some? <==> name in jar && jar[name] != []
    ensures r.Some? ==> r.value == jar[name]
  {
    if name in jar && jar[name] != [] then Some(jar[name]) else None
  }

  /**
   * The browser's side of a response (section 5.3 of RFC 6265, without
   * expiry): each set cookie is stored under its name, each cleared cookie
   * is dropped, in the order the response wrote them.
   */
  function Receive(jar: Jar, writes: seq<CookieWrite>): (r: Jar)
    ensures forall n :: n in r && (forall i :: 0 <= i < |writes| ==> writes[i].name != n) ==> n in jar && r[n] == jar[n]
    decreases |writes|
  {
    if writes == [] then jar
    else
      var j := match writes[0]
        case SetCookie(n, v, _) => jar[n := v]
        case ClearCookie(n) => jar - {n};
      Receive(j, writes[1..])
  }

  /** After the session cookies are set, the browser sends back exactly the two new tokens. */
  lemma {:induction false} ReceiveAuthCookies(jar: Jar, t: TokenPair)
    ensures var r := Receive(jar, AuthCookies(t));
            AccessCookie in r && r[AccessCookie] == t.accessToken &&
            RefreshCookie in r && r[RefreshCookie] == t.refreshToken
  {
    var w := AuthCookies(t);
    var j1 := jar[AccessCookie := t.accessToken];
    var j2 := j1[RefreshCookie := t.refreshToken];
    assert Receive(jar, w) == Receive(j1, w[1..]);
    assert Receive(j1, w[1..]) == Receive(j2, w[2..]);
    assert w[2..] == [];
  }
}
