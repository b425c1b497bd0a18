/**
 The admin authentication: credential checking, signed session tokens, the
 session cookie, and the same-origin guard on mutating requests.
 HMAC-SHA256, JSON serialisation, base64url and URI escaping are parameters;
 the lemmas state what they assume of them.
 */
module Auth {
  import opened Wrappers
  import opened Json
  import opened Text
  import Utf8
  import Env

  /** Eight hours, in milliseconds. */
  const SessionMaxAge := 8 * 60 * 60 * 1000
  /** Tokens of any other version are refused. */
  const TokenVersion := "v2"

  // ---------------------------------------------------------------------------
  // Credentials

  /** `secureCompare(a, b)`: an empty side fails; otherwise the UTF-8 bytes
      must have the same length and be equal. */
  function SecureCompare(a: string, b: string): (r: bool)
    ensures r <==> a != "" && a == b
  {
    if a == "" || b == "" then false
    else
      var bytesA := Utf8.Encode(a);
      var bytesB := Utf8.Encode(b);
      if |bytesA| != |bytesB| then false
      else if bytesA == bytesB then Utf8.EncodeInjective(a, b); true
      else false
  }

  /** ADMIN_USERNAME, ADMIN_PASSWORD and SESSION_SECRET; an unset variable
      reads as the empty string, which is just as falsy. */
  datatype Credentials = Credentials(adminUsername: string, adminPassword: string, sessionSecret: string)

  /** `validateCredentials(username, password)`. */
  function ValidateCredentials(cfg: Credentials, username: string, password: string): (r: bool)
    ensures cfg.adminUsername == "" || cfg.adminPassword == "" ==> !r
    ensures r <==> cfg.adminUsername != "" && cfg.adminPassword != ""
                   && username == cfg.adminUsername && password == cfg.adminPassword
  {
    if cfg.adminUsername == "" || cfg.adminPassword == "" then false
    else SecureCompare(username, cfg.adminUsername) && SecureCompare(password, cfg.adminPassword)
  }

  // ---------------------------------------------------------------------------
  // Session tokens

  /** The primitives the token code calls. */
  datatype Crypto = Crypto(
    /** Hex HMAC-SHA256 of a message under a key. */
    hmac: (string, string) -> string,
    /** `JSON.stringify` of a plain object. */
    stringify: Object -> string,
    /** `JSON.stringify`, then the UTF-8 bytes in base64url. */
    encode: Object -> string,
    /** base64url (then base64) decoding and `JSON.parse`; None when the
        parse throws. */
    decode: string -> Option<Value>)

  /** The signed fields of a new session. */
  function Payload(username: string, now: int, nonce: string, fingerprint: string): Object {
    map["version" := Str(TokenVersion), "username" := Str(username), "timestamp" := Num(now),
        "nonce" := Str(nonce), "fingerprint" := Str(fingerprint)]
  }

  /** The payload with its signature added. */
  function Signed(payload: Object, secret: string, c: Crypto): Object {
    payload["signature" := Str(c.hmac(secret, c.stringify(payload)))]
  }

  const SecretMissing := "SESSION_SECRET not configured"

  /** `generateSessionToken(username)` at time now, with the random nonce and
      fingerprint given. */
  function GenerateSessionToken(secret: string, username: string, now: int, nonce: string, fingerprint: string, c: Crypto)
    : (r: Result<string, string>)
    ensures r.Failure? <==> secret == ""
    ensures r.Failure? ==> r.error == SecretMissing
  {
    if secret == "" then Failure(SecretMissing)
    else Success(c.encode(Signed(Payload(username, now, nonce, fingerprint), secret, c)))
  }

  /** `Date.now() - timestamp` as a number, None when it is NaN. Strings and
      arrays convert to NaN here (see the README). */
  function Age(now: int, timestamp: Value): Option<int> {
    match timestamp
    case Num(n) => Some(now - n)
    case Null => Some(now)
    case Bool(b) => Some(now - if b then 1 else 0)
    case _ => None
  }

  /** `Date.now() - payload.timestamp > SESSION_MAX_AGE`; NaN compares false. */
  predicate Expired(now: int, timestamp: Value) {
    Age(now, timestamp).Some? && Age(now, timestamp).value > SessionMaxAge
  }

  /** What makes a decoded token acceptable: the current version, a non-empty
      signature equal to the HMAC of the other fields, and an age within the
      limit. */
  predicate Genuine(decoded: Object, secret: string, now: int, c: Crypto) {
    var payload := decoded - {"signature"};
    var expected := c.hmac(secret, c.stringify(payload));
    && Get(payload, "version") == Str(TokenVersion)
    && expected != ""
    && Get(decoded, "signature") == Str(expected)
    && !Expired(now, Get(payload, "timestamp"))
  }

  /** `verifySessionToken(token)`: the payload without its signature, or None
      for null. Decoded values other than objects carry no version (null
      throws), so they are refused. */
  function VerifySessionToken(token: string, secret: string, now: int, c: Crypto): (r: Option<Object>)
    ensures token == "" || secret == "" ==> r.None?
    ensures r.Some? <==>
      && token != "" && secret != ""
      && c.decode(token).Some? && c.decode(token).value.Obj?
      && Genuine(c.decode(token).value.fields, secret, now, c)
    ensures r.Some? ==> r.value == c.decode(token).value.fields - {"signature"}
    ensures r.Some? ==> "signature" !in r.value
  {
    if token == "" || secret == "" then None
    else match c.decode(token)
      case None => None
      case Some(decoded) =>
        if !decoded.Obj? then None
        else
          var payload := decoded.fields - {"signature"};
          if !StrictEquals(Get(payload, "version"), Str(TokenVersion)) then None
          else
            var expected := c.hmac(secret, c.stringify(payload));
            var signature := Get(decoded.fields, "signature");
            if !(signature.Str? && SecureCompare(signature.s, expected)) then None
            else if Expired(now, Get(payload, "timestamp")) then None
            else Some(payload)
  }

  /** What the token codec must do for a signed object: decode what it
      encodes, into a non-empty token. */
  predicate RoundTrips(c: Crypto, o: Object) {
    c.encode(o) != "" && c.decode(c.encode(o)) == Some(Obj(o))
  }

  /** A token generated with a secret verifies with the same secret, at most
      eight hours later, and gives back the payload it was generated from. */
  lemma VerifyGenerated(secret: string, username: string, t: int, nonce: string, fingerprint: string, c: Crypto, now: int)
    requires secret != ""
    requires RoundTrips(c, Signed(Payload(username, t, nonce, fingerprint), secret, c))
    requires c.hmac(secret, c.stringify(Payload(username, t, nonce, fingerprint))) != ""
    requires now - t <= SessionMaxAge
    ensures GenerateSessionToken(secret, username, t, nonce, fingerprint, c).Success?
    ensures VerifySessionToken(GenerateSessionToken(secret, username, t, nonce, fingerprint, c).value, secret, now, c)
            == Some(Payload(username, t, nonce, fingerprint))
  {
    var p := Payload(username, t, nonce, fingerprint);
    SignatureRemoved(p, secret, c);
  }

  lemma SignatureRemoved(p: Object, secret: string, c: Crypto)
    requires "signature" !in p
    ensures Signed(p, secret, c) - {"signature"} == p
  {
  }

  /** The same token is refused once more than eight hours have passed. */
  lemma GeneratedTokenExpires(secret: string, username: string, t: int, nonce: string, fingerprint: string, c: Crypto, now: int)
    requires secret != ""
    requires RoundTrips(c, Signed(Payload(username, t, nonce, fingerprint), secret, c))
    requires now - t > SessionMaxAge
    ensures VerifySessionToken(GenerateSessionToken(secret, username, t, nonce, fingerprint, c).value, secret, now, c).None?
  {
    var p := Payload(username, t, nonce, fingerprint);
    SignatureRemoved(p, secret, c);
  }

  /** A token signed under another secret is refused whenever the two
      secrets sign its payload differently. */
  lemma ForeignSecretRefused(other: string, secret: string, username: string, t: int, nonce: string, fingerprint: string, c: Crypto, now: int)
    requires other != "" && secret != ""
    requires RoundTrips(c, Signed(Payload(username, t, nonce, fingerprint), other, c))
    requires var m := c.stringify(Payload(username, t, nonce, fingerprint)); c.hmac(other, m) != c.hmac(secret, m)
    ensures VerifySessionToken(GenerateSessionToken(other, username, t, nonce, fingerprint, c).value, secret, now, c).None?
  {
    var p := Payload(username, t, nonce, fingerprint);
    SignatureRemoved(p, other, c);
  }

  // ---------------------------------------------------------------------------
  // Reading the token from a request

  const CookiePrefix := "admin_token="

  /** The pattern `admin_token=([^;]+)` matches at position j. */
  predicate CookieAt(h: string, j: int) {
    j + |CookiePrefix| < |h| && OccursAt(h, CookiePrefix, j) && h[j + |CookiePrefix|] != ';'
  }

  /** The leftmost match at or after position i. */
  function FirstCookieAt(h: string, i: nat): (r: Option<nat>)
    requires i <= |h|
    ensures r.Some? ==> i <= r.value && CookieAt(h, r.value)
    ensures r.Some? ==> forall k :: i <= k < r.value ==> !CookieAt(h, k)
    ensures r.None? ==> forall k :: i <= k <= |h| ==> !CookieAt(h, k)
    decreases |h| - i
  {
    if i + |CookiePrefix| >= |h| then None
    else if CookieAt(h, i) then Some(i)
    else FirstCookieAt(h, i + 1)
  }

  /** The captured group of a match at j: everything up to the next ';'. */
  function CapturedAt(h: string, j: nat): (r: string)
    requires CookieAt(h, j)
    ensures r != [] && forall k :: 0 <= k < |r| ==> r[k] != ';'
    ensures OccursAt(h, CookiePrefix + r, j)
    ensures j + |CookiePrefix| + |r| == |h| || h[j + |CookiePrefix| + |r|] == ';'
  {
    var start := j + |CookiePrefix|;
    var stop := FindFrom(h, ';', start);
    var r := if stop < 0 then h[start..] else h[start..stop];
    assert h[j..j + |CookiePrefix| + |r|] == h[j..start] + r;
    r
  }

  /** `cookieHeader.match(/admin_token=([^;]+)/)[1]`, None when there is no
      match. */
  function CookieMatch(h: string): Option<string> {
    match FirstCookieAt(h, 0)
    case None => None
    case Some(j) => Some(CapturedAt(h, j))
  }

  /** The header token: what follows "Bearer ", or nothing. */
  function BearerToken(authHeader: string): string {
    if StartsWith(authHeader, "Bearer ") then authHeader[7..] else ""
  }

  /** The token a request presents, None when decodeURIComponent throws on the
      cookie's value; the empty string means no token. A cookie token wins
      over a header token. */
  function RequestToken(cookieHeader: string, authHeader: string, decodeUri: string -> Option<string>): (r: Option<string>)
    ensures CookieMatch(cookieHeader).Some? && decodeUri(CookieMatch(cookieHeader).value).None? <==> r.None?
    ensures (CookieMatch(cookieHeader).Some? ==> decodeUri(CookieMatch(cookieHeader).value) == Some("")) ==>
      r == Some(BearerToken(authHeader))
    ensures CookieMatch(cookieHeader).Some? && decodeUri(CookieMatch(cookieHeader).value).Some?
            && decodeUri(CookieMatch(cookieHeader).value).value != "" ==>
      r == decodeUri(CookieMatch(cookieHeader).value)
  {
    match CookieMatch(cookieHeader)
    case None => Some(BearerToken(authHeader))
    case Some(raw) =>
      match decodeUri(raw)
      case None => None
      case Some(cookieToken) => Some(if cookieToken != "" then cookieToken else BearerToken(authHeader))
  }

  /** `isAuthenticated(request)`: a missing header reads as the empty string.
      None when decodeURIComponent throws, which the caller does not catch. */
  function IsAuthenticated(cookieHeader: string, authHeader: string, decodeUri: string -> Option<string>,
                           secret: string, now: int, c: Crypto): (r: Option<bool>)
    ensures r.None? <==> RequestToken(cookieHeader, authHeader, decodeUri).None?
    ensures RequestToken(cookieHeader, authHeader, decodeUri) == Some("") ==> r == Some(false)
    ensures r == Some(true) <==>
      && RequestToken(cookieHeader, authHeader, decodeUri).Some?
      && VerifySessionToken(RequestToken(cookieHeader, authHeader, decodeUri).value, secret, now, c).Some?
  {
    match RequestToken(cookieHeader, authHeader, decodeUri)
    case None => None
    case Some(token) => if token == "" then Some(false) else Some(VerifySessionToken(token, secret, now, c).Some?)
  }

  /** A request with neither a cookie match nor a "Bearer " header is not
      authenticated. */
  lemma NoTokenNoSession(cookieHeader: string, authHeader: string, decodeUri: string -> Option<string>,
                         secret: string, now: int, c: Crypto)
    requires CookieMatch(cookieHeader).None? && !StartsWith(authHeader, "Bearer ")
    ensures IsAuthenticated(cookieHeader, authHeader, decodeUri, secret, now, c) == Some(false)
  {
  }

  // ---------------------------------------------------------------------------
  // Response headers

  /** Joins the parts with "; ", as `parts.join('; ')`. */
  function JoinOptions(parts: seq<string>): string {
    if parts == [] then "" else if |parts| == 1 then parts[0] else parts[0] + "; " + JoinOptions(parts[1..])
  }

  /** The joined text ends with the last part. */
  lemma {:induction false} JoinEndsWithLast(parts: seq<string>)
    requires parts != []
    ensures EndsWith(JoinOptions(parts), parts[|parts| - 1])
  {
    if |parts| > 1 {
      JoinEndsWithLast(parts[1..]);
    }
  }

  /** The cookie options of `createAuthHeaders(token, isProduction)`, with
      encodeURIComponent given as encodeUri. */
  function AuthCookieOptions(token: string, isProduction: bool, encodeUri: string -> string): (opts: seq<string>)
    ensures |opts| == if isProduction then 6 else 5
    ensures opts[0] == CookiePrefix + encodeUri(token)
    ensures opts[|opts| - 1] == if isProduction then "Secure" else "Max-Age=28800"
    ensures "Path=/" in opts && "HttpOnly" in opts && "SameSite=Strict" in opts
    ensures "Max-Age=28800" in opts && "Max-Age=0" !in opts
    ensures "Secure" in opts <==> isProduction
  {
    MaxAgeText();
    var options := [CookiePrefix + encodeUri(token), "Path=/", "HttpOnly", "SameSite=Strict",
                    "Max-Age=" + NatToString(SessionMaxAge / 1000)];
    assert options[4] == "Max-Age=28800";
    if isProduction then options + ["Secure"] else options
  }

  lemma MaxAgeText()
    ensures NatToString(SessionMaxAge / 1000) == "28800"
  {
    assert SessionMaxAge / 1000 == 28800;
    assert NatToString(2) == ['2'];
    assert NatToString(28) == ['2', '8'];
    assert NatToString(288) == ['2', '8', '8'];
    assert NatToString(2880) == ['2', '8', '8', '0'];
    assert NatToString(28800) == ['2', '8', '8', '0', '0'];
  }

  /** The Set-Cookie value of `createAuthHeaders(token, isProduction)`. */
  function CreateAuthHeaders(token: string, isProduction: bool, encodeUri: string -> string): (r: string)
    ensures EndsWith(r, if isProduction then "Secure" else "Max-Age=28800")
  {
    var opts := AuthCookieOptions(token, isProduction, encodeUri);
    JoinEndsWithLast(opts);
    JoinOptions(opts)
  }

  const LogoutOptions := [CookiePrefix, "Path=/", "HttpOnly", "SameSite=Strict", "Max-Age=0"]

  /** The Set-Cookie value of `createLogoutHeaders()`: an empty token that
      expires at once. */
  function CreateLogoutHeaders(): (r: string)
    ensures EndsWith(r, "Max-Age=0")
    ensures CookiePair(r) == CookiePrefix
    ensures CookieMatch(CookiePair(r)) == None
  {
    JoinEndsWithLast(LogoutOptions);
    FirstPairOfJoin(LogoutOptions);
    assert FirstCookieAt(CookiePrefix, 0) == None;
    JoinOptions(LogoutOptions)
  }

  /** The name=value pair of a Set-Cookie value, which is what the browser
      sends back in its Cookie header. */
  function CookiePair(setCookie: string): string {
    var i := FindFrom(setCookie, ';', 0);
    if i < 0 then setCookie else setCookie[..i]
  }

  /** The pair of a joined option list is its first option, when that holds
      no ';'. */
  lemma FirstPairOfJoin(parts: seq<string>)
    requires |parts| > 1
    requires forall k :: 0 <= k < |parts[0]| ==> parts[0][k] != ';'
    ensures CookiePair(JoinOptions(parts)) == parts[0]
  {
    var p := parts[0];
    var h := JoinOptions(parts);
    assert h == p + ("; " + JoinOptions(parts[1..]));
    assert h[|p|] == ';';
    assert forall k :: 0 <= k < |p| ==> h[k] == p[k];
    assert h[..|p|] == p;
  }

  /** A cookie set at login presents the token again: the browser's Cookie
      header matches and decodes to it, provided URI escaping round-trips and
      leaves no ';'. */
  lemma AuthCookieCarriesToken(token: string, isProduction: bool, encodeUri: string -> string,
                               decodeUri: string -> Option<string>, authHeader: string)
    requires encodeUri(token) != "" && ';' !in encodeUri(token)
    requires decodeUri(encodeUri(token)) == Some(token) && token != ""
    ensures RequestToken(CookiePair(CreateAuthHeaders(token, isProduction, encodeUri)), authHeader, decodeUri) == Some(token)
  {
    var e := encodeUri(token);
    var pair := CookiePrefix + e;
    assert forall k :: 0 <= k < |pair| ==> pair[k] != ';' by {
      forall k | 0 <= k < |pair| ensures pair[k] != ';' {
        if k >= |CookiePrefix| {
          assert pair[k] == e[k - |CookiePrefix|];
        }
      }
    }
    FirstPairOfJoin(AuthCookieOptions(token, isProduction, encodeUri));
    assert CookieAt(pair, 0);
    assert FindFrom(pair, ';', |CookiePrefix|) == -1;
    assert CapturedAt(pair, 0) == e;
  }

  /** Logging in and presenting the cookie authenticates for eight hours. */
  lemma LoginAuthenticates(cfg: Credentials, username: string, t: int, nonce: string, fingerprint: string, c: Crypto,
                           isProduction: bool, encodeUri: string -> string, decodeUri: string -> Option<string>,
                           authHeader: string, now: int)
    requires cfg.sessionSecret != ""
    requires RoundTrips(c, Signed(Payload(username, t, nonce, fingerprint), cfg.sessionSecret, c))
    requires c.hmac(cfg.sessionSecret, c.stringify(Payload(username, t, nonce, fingerprint))) != ""
    requires now - t <= SessionMaxAge
    requires var token := GenerateSessionToken(cfg.sessionSecret, username, t, nonce, fingerprint, c).value;
      encodeUri(token) != "" && ';' !in encodeUri(token) && decodeUri(encodeUri(token)) == Some(token)
    ensures var token := GenerateSessionToken(cfg.sessionSecret, username, t, nonce, fingerprint, c).value;
      var cookie := CookiePair(CreateAuthHeaders(token, isProduction, encodeUri));
      IsAuthenticated(cookie, authHeader, decodeUri, cfg.sessionSecret, now, c) == Some(true)
  {
    var token := GenerateSessionToken(cfg.sessionSecret, username, t, nonce, fingerprint, c).value;
    VerifyGenerated(cfg.sessionSecret, username, t, nonce, fingerprint, c, now);
    AuthCookieCarriesToken(token, isProduction, encodeUri, decodeUri, authHeader);
  }

  // ---------------------------------------------------------------------------
  // Origin check

  /** `validateRequestOrigin(request)`: the Origin and Host headers (None when
      absent), and `new URL(origin).host` as urlHost, None when the URL
      constructor throws. */
  function ValidateRequestOrigin(env: Env.Env, origin: Option<string>, host: Option<string>,
                                 urlHost: string -> Option<string>): (r: bool)
    ensures !Env.IsProduction(env) ==> r
    ensures origin.None? || origin == Some("") ==> r
    ensures Env.IsProduction(env) && origin.Some? && origin.value != "" ==>
      (r <==> urlHost(origin.value).Some? && host == urlHost(origin.value))
  {
    if env.nodeEnv != Some("production") then true
    else if origin.None? || origin.value == "" then true
    else match urlHost(origin.value)
      case None => false
      case Some(originHost) => host == Some(originHost)
  }
}
