/**
 The fixed-window rate limiter of the request middleware: a map from
 "<ip>:<type>" keys to a request count and the start of the current window,
 read and updated with an explicit clock `now` in milliseconds.
 */
module RateLimit {
  import opened Wrappers
  import opened Text

  /** One minute, in milliseconds. */
  const Window: int := 60 * 1000

  /** `RATE_LIMIT_MAX_REQUESTS[type] || RATE_LIMIT_MAX_REQUESTS.api`. The
      middleware only passes the three table names. */
  function MaxRequests(limitType: string): (m: nat)
    ensures m >= 1
    ensures limitType != "auth" && limitType != "upload" ==> m == 60
  {
    if limitType == "api" then 60
    else if limitType == "auth" then 10
    else if limitType == "upload" then 20
    else 60
  }

  datatype Record = Record(count: int, windowStart: int)

  type Store = map<string, Record>

  /** What checkRateLimit reports. retryAfter is present on a denial only. */
  datatype Decision = Decision(allowed: bool, remaining: int, retryAfter: Option<int>)

  datatype Checked = Checked(store: Store, decision: Decision)

  /** A window has run out once more than Window milliseconds have passed. */
  predicate Expired(r: Record, now: int) {
    now - r.windowStart > Window
  }

  /** `Math.ceil(x / 1000)` for a non-negative x. */
  function CeilSeconds(x: nat): (s: nat)
    ensures s * 1000 >= x && (s == 0 || (s - 1) * 1000 < x)
  {
    (x + 999) / 1000
  }

  /** `checkRateLimit(key, type)` at time now. */
  function CheckRateLimit(store: Store, key: string, limitType: string, now: int): (r: Checked)
    ensures key in r.store
    ensures forall k :: k != key ==> (k in r.store <==> k in store)
    ensures forall k :: k in store && k != key ==> r.store[k] == store[k]
    ensures r.decision.allowed <==> key !in store || r.store[key] != store[key]
    ensures r.decision.allowed ==> r.decision.remaining == MaxRequests(limitType) - r.store[key].count
  {
    var max := MaxRequests(limitType);
    if key !in store || Expired(store[key], now) then
      Checked(store[key := Record(1, now)], Decision(true, max - 1, None))
    else
      var rec := store[key];
      if rec.count >= max then
        Checked(store, Decision(false, 0, Some(CeilSeconds(Window - (now - rec.windowStart)))))
      else
        Checked(store[key := rec.(count := rec.count + 1)], Decision(true, max - rec.count - 1, None))
  }

  /** A key without a live window starts a new one: count 1 from now. */
  lemma FreshWindowStarts(store: Store, key: string, limitType: string, now: int)
    requires key !in store || Expired(store[key], now)
    ensures var r := CheckRateLimit(store, key, limitType, now);
      && r.decision == Decision(true, MaxRequests(limitType) - 1, None)
      && r.store[key] == Record(1, now)
  {
  }

  /** A full window denies with nothing remaining, and the wait it reports is
      the rest of the window rounded up to seconds: between 0 and 60 once the
      window has started. */
  lemma FullWindowDenies(store: Store, key: string, limitType: string, now: int)
    requires key in store && !Expired(store[key], now)
    requires store[key].count >= MaxRequests(limitType)
    ensures var r := CheckRateLimit(store, key, limitType, now);
      && !r.decision.allowed && r.decision.remaining == 0 && r.decision.retryAfter.Some?
      && r.decision.retryAfter.value >= 0
      && (store[key].windowStart <= now ==> r.decision.retryAfter.value <= 60)
  {
  }

  /** Inside a window that still has room, the request is counted. */
  lemma OpenWindowCounts(store: Store, key: string, limitType: string, now: int)
    requires key in store && !Expired(store[key], now)
    requires store[key].count < MaxRequests(limitType)
    ensures var r := CheckRateLimit(store, key, limitType, now);
      && r.decision.allowed
      && r.store[key] == store[key].(count := store[key].count + 1)
  {
  }

  /** A count that starts at most the limit stays at most the limit. */
  lemma CountStaysBounded(store: Store, key: string, limitType: string, now: int)
    requires key in store ==> store[key].count <= MaxRequests(limitType)
    ensures CheckRateLimit(store, key, limitType, now).store[key].count <= MaxRequests(limitType)
  {
  }

  /** How many of the requests at the given times checkRateLimit allows. */
  function AllowedCount(store: Store, key: string, limitType: string, times: seq<int>): nat
    decreases |times|
  {
    if times == [] then 0
    else
      var r := CheckRateLimit(store, key, limitType, times[0]);
      (if r.decision.allowed then 1 else 0) + AllowedCount(r.store, key, limitType, times[1..])
  }

  /** Within one window at most the limit's remainder is allowed. */
  lemma {:induction false} WindowAllowsAtMostRest(store: Store, key: string, limitType: string, times: seq<int>)
    requires key in store && 0 <= store[key].count <= MaxRequests(limitType)
    requires forall i :: 0 <= i < |times| ==> !Expired(store[key], times[i])
    ensures AllowedCount(store, key, limitType, times) <= MaxRequests(limitType) - store[key].count
  {
    if times != [] {
      var r := CheckRateLimit(store, key, limitType, times[0]);
      assert r.store[key].windowStart == store[key].windowStart;
      assert r.store[key].count == store[key].count + (if r.decision.allowed then 1 else 0);
      WindowAllowsAtMostRest(r.store, key, limitType, times[1..]);
    }
  }

  /** At most the limit of requests per key is allowed in any window: counted
      from the request that opens it, no more than MaxRequests requests within
      the next Window milliseconds get through. */
  lemma AtMostMaxPerWindow(store: Store, key: string, limitType: string, times: seq<int>)
    requires |times| >= 1 && (key !in store || Expired(store[key], times[0]))
    requires forall i :: 1 <= i < |times| ==> times[i] - times[0] <= Window
    ensures AllowedCount(store, key, limitType, times) <= MaxRequests(limitType)
  {
    var r := CheckRateLimit(store, key, limitType, times[0]);
    assert r.store[key] == Record(1, times[0]);
    forall i | 0 <= i < |times[1..]|
      ensures !Expired(r.store[key], times[1..][i])
    {
      assert times[1..][i] == times[i + 1];
    }
    WindowAllowsAtMostRest(r.store, key, limitType, times[1..]);
  }

  /** `cleanupRateLimits()` at time now: drops the expired entries. */
  function Cleanup(store: Store, now: int): (r: Store)
    ensures forall k :: k in r <==> k in store && !Expired(store[k], now)
    ensures forall k :: k in r ==> r[k] == store[k]
  {
    map k | k in store && !Expired(store[k], now) :: store[k]
  }

  /** Cleaning up changes no later decision: an entry it drops has expired,
      and stays expired, so the next request for its key opens a new window
      either way. */
  lemma CleanupKeepsDecisions(store: Store, key: string, limitType: string, now: int, t: int)
    requires t >= now
    ensures CheckRateLimit(Cleanup(store, now), key, limitType, t).decision ==
            CheckRateLimit(store, key, limitType, t).decision
    ensures CheckRateLimit(Cleanup(store, now), key, limitType, t).store[key] ==
            CheckRateLimit(store, key, limitType, t).store[key]
  {
    if key in store && Expired(store[key], now) {
      assert Expired(store[key], t);
    }
  }

  /** Cleaning up twice at the same time removes nothing more. */
  lemma CleanupIdempotent(store: Store, now: int)
    ensures Cleanup(Cleanup(store, now), now) == Cleanup(store, now)
  {
  }

  // ---------------------------------------------------------------------------
  // Client address and bucket selection

  /** The part of s before its first ','. */
  function FirstField(s: string): (f: string)
    ensures StartsWith(s, f) && ',' !in f
    ensures ',' !in s ==> f == s
  {
    var i := FindFrom(s, ',', 0);
    if i < 0 then s else s[..i]
  }

  /** `forwarded.split(',')[0]` is the part before the first comma. */
  lemma FirstFieldIsSplit(s: string)
    ensures Split(s, ',')[0] == FirstField(s)
  {
  }

  /** `getClientIP(request)`, given the x-forwarded-for and x-real-ip headers
      (None when a header is absent). */
  function GetClientIP(forwarded: Option<string>, realIP: Option<string>): (ip: string)
    ensures forwarded.Some? && forwarded.value != "" ==> ip == Trim(FirstField(forwarded.value))
    ensures (forwarded.None? || forwarded.value == "") && realIP.Some? && realIP.value != "" ==> ip == realIP.value
    ensures (forwarded.None? || forwarded.value == "") && (realIP.None? || realIP.value == "") ==> ip == "unknown"
  {
    if forwarded.Some? && forwarded.value != "" then
      FirstFieldIsSplit(forwarded.value);
      Trim(Split(forwarded.value, ',')[0])
    else if realIP.Some? && realIP.value != "" then realIP.value
    else "unknown"
  }

  /** The bucket a request is counted in, or None when its path is not under
      /api/. */
  function LimitType(pathname: string, httpMethod: string): (t: Option<string>)
    ensures t.Some? <==> StartsWith(pathname, "/api/")
    ensures t.Some? && pathname == "/api/upload" ==> MaxRequests(t.value) == 20
    ensures t.Some? && pathname == "/api/auth" && httpMethod == "POST" ==> MaxRequests(t.value) == 10
    ensures t.Some? && pathname != "/api/upload" && (pathname != "/api/auth" || httpMethod != "POST") ==>
      MaxRequests(t.value) == 60
  {
    if !StartsWith(pathname, "/api/") then None
    else if pathname == "/api/upload" then Some("upload")
    else if pathname == "/api/auth" && httpMethod == "POST" then Some("auth")
    else Some("api")
  }

  /** The rate-limit key `${clientIP}:${rateLimitType}`. */
  function LimitKey(ip: string, limitType: string): string {
    ip + ":" + limitType
  }

  /** A key names its address and bucket: bucket names hold no ':', so the
      key's last ':' separates the two, even for IPv6 addresses. */
  lemma LimitKeyInjective(ip1: string, t1: string, ip2: string, t2: string)
    requires ':' !in t1 && ':' !in t2
    ensures LimitKey(ip1, t1) == LimitKey(ip2, t2) <==> ip1 == ip2 && t1 == t2
  {
    assert LimitKey(ip1, t1) == (ip1 + ":") + t1;
    assert LimitKey(ip2, t2) == (ip2 + ":") + t2;
    LastPartAfter(ip1 + ":", t1, ':');
    LastPartAfter(ip2 + ":", t2, ':');
    if LimitKey(ip1, t1) == LimitKey(ip2, t2) {
      assert t1 == t2;
      assert ip1 + ":" == LimitKey(ip1, t1)[..|ip1| + 1];
      assert ip1 == (ip1 + ":")[..|ip1|];
    }
  }

  // ---------------------------------------------------------------------------
  // The middleware decision

  /** What the middleware does with a request: answer 429, or pass it on,
      with the X-RateLimit-Remaining value for /api/ paths and the no-store
      cache header for /admin paths. */
  datatype Response =
    | TooManyRequests(retryAfter: int)
    | PassOn(remaining: Option<int>, noStore: bool)

  datatype Handled = Handled(store: Store, response: Response)

  /** `middleware(request)`. sweep stands for the one-in-a-hundred random
      cleanup draw. */
  function Middleware(store: Store, pathname: string, httpMethod: string,
                      forwarded: Option<string>, realIP: Option<string>, now: int, sweep: bool): (h: Handled)
    ensures !StartsWith(pathname, "/api/") ==>
      h == Handled(if sweep then Cleanup(store, now) else store, PassOn(None, StartsWith(pathname, "/admin")))
  {
    var ip := GetClientIP(forwarded, realIP);
    var s := if sweep then Cleanup(store, now) else store;
    match LimitType(pathname, httpMethod)
    case None => Handled(s, PassOn(None, StartsWith(pathname, "/admin")))
    case Some(t) => Limited(s, ip, t, now)
  }

  /** An /api/ request counted in the bucket of its address and type. */
  function Limited(s: Store, ip: string, t: string, now: int): (h: Handled)
    ensures h.store == CheckRateLimit(s, LimitKey(ip, t), t, now).store
  {
    var r := CheckRateLimit(s, LimitKey(ip, t), t, now);
    if !r.decision.allowed then Handled(r.store, TooManyRequests(r.decision.retryAfter.GetOr(0)))
    else Handled(r.store, PassOn(Some(r.decision.remaining), false))
  }

  /** An /api/ request is counted in the bucket of its address and type, and
      is answered 429 exactly when checkRateLimit denies it. */
  lemma MiddlewareUsesBucket(store: Store, pathname: string, httpMethod: string,
                             forwarded: Option<string>, realIP: Option<string>, now: int, sweep: bool)
    requires StartsWith(pathname, "/api/")
    ensures var s := if sweep then Cleanup(store, now) else store;
      var t := LimitType(pathname, httpMethod).value;
      var r := CheckRateLimit(s, LimitKey(GetClientIP(forwarded, realIP), t), t, now);
      var h := Middleware(store, pathname, httpMethod, forwarded, realIP, now, sweep);
      && h.store == r.store
      && (h.response.TooManyRequests? <==> !r.decision.allowed)
  {
    var s := if sweep then Cleanup(store, now) else store;
    var t := LimitType(pathname, httpMethod).value;
    assert Middleware(store, pathname, httpMethod, forwarded, realIP, now, sweep)
      == Limited(s, GetClientIP(forwarded, realIP), t, now);
  }
}
