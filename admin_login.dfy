/** app/api/auth/admin-login/route.ts: the admin log-in handler and its
    in-memory rate limiter. Each client address gets an entry counting the
    attempts made in the current 15-minute window; the sixth attempt in a
    window is refused before the request body is even read. The credential
    check is a parameter (the admin it finds, if any), and so is the clock. */
module AdminLogin {
  import opened Text
  import opened Ledger

  const MaxAttempts: int := 5
  const WindowMs: int := 15 * 60 * 1000
  const KeyPrefix: string := "login:"

  /** `x.split(',')[0]`: the part of `s` before its first comma. */
  function FirstField(s: string): (f: string)
    ensures |f| <= |s| && f == s[..|f|]
    ensures ',' !in f
    ensures |f| < |s| ==> s[|f|] == ','
  {
    if s == [] || s[0] == ',' then []
    else
      var f := FirstField(s[1..]);
      assert s[1..][..|f|] == s[1..|f| + 1];
      [s[0]] + f
  }

  /** The address the limiter keys on: the trimmed first entry of
      `x-forwarded-for` when that is non-empty, else `x-real-ip` when
      non-empty, else "unknown". An absent header is None. */
  function ClientIp(forwarded: Option<string>, realIp: Option<string>): (ip: string)
    ensures ip != ""
  {
    var first := if forwarded.Some? && forwarded.value != "" then Trim(FirstField(forwarded.value)) else "";
    if first != "" then first
    else if realIp.Some? && realIp.value != "" then realIp.value
    else "unknown"
  }

  /** `getRateLimitKey(request)`. */
  function GetRateLimitKey(forwarded: Option<string>, realIp: Option<string>): (key: string)
    ensures |key| > |KeyPrefix| && key[..|KeyPrefix|] == KeyPrefix
  {
    KeyPrefix + ClientIp(forwarded, realIp)
  }

  lemma {:induction false} FirstFieldOf(a: string, rest: string)
    requires ',' !in a
    requires rest == [] || rest[0] == ','
    ensures FirstField(a + rest) == a
  {
    if a == [] {
      assert a + rest == rest;
    } else {
      assert (a + rest)[0] == a[0];
      assert (a + rest)[1..] == a[1..] + rest;
      FirstFieldOf(a[1..], rest);
    }
  }

  /** The first entry of `x-forwarded-for` decides the key, whatever white
      space surrounds it and whatever entries follow it. */
  lemma KeyUsesFirstForwardedEntry(pre: string, entry: string, post: string, rest: string,
                                   realIp: Option<string>)
    requires AllSpace(pre) && AllSpace(post)
    requires entry != [] && !IsJsSpace(entry[0]) && !IsJsSpace(entry[|entry| - 1])
    requires ',' !in pre + entry + post
    requires rest == [] || rest[0] == ','
    ensures GetRateLimitKey(Some(pre + entry + post + rest), realIp) == KeyPrefix + entry
  {
    FirstFieldOf(pre + entry + post, rest);
    TrimPadded(pre, entry, post);
  }

  /** Without a usable forwarded entry the key falls back to `x-real-ip`
      and then to "unknown". */
  lemma KeyFallsBack(forwarded: Option<string>, realIp: Option<string>)
    requires forwarded.None? || AllSpace(FirstField(forwarded.value))
    ensures realIp.Some? && realIp.value != "" ==> GetRateLimitKey(forwarded, realIp) == KeyPrefix + realIp.value
    ensures (realIp.None? || realIp.value == "") ==> GetRateLimitKey(forwarded, realIp) == KeyPrefix + "unknown"
  {
    if forwarded.Some? {
      var f := FirstField(forwarded.value);
      assert f + [] + [] == f;
      TrimPadded(f, [], []);
    }
  }

  /** One `rateLimitMap` value. */
  datatype RateLimitEntry = RateLimitEntry(count: int, resetAt: int)

  /** What `checkRateLimit` answers and the entry it leaves for the key. */
  datatype Verdict = Verdict(allowed: bool, remaining: int, entry: RateLimitEntry)

  predicate Expired(entry: Option<RateLimitEntry>, now: int)
  {
    entry.None? || now > entry.value.resetAt
  }

  predicate InRange(e: RateLimitEntry)
  {
    1 <= e.count <= MaxAttempts
  }

  /** `checkRateLimit` for a key whose entry is `entry`, at time `now`. */
  function Check(entry: Option<RateLimitEntry>, now: int): (v: Verdict)
    ensures v.allowed <==> Expired(entry, now) || entry.value.count < MaxAttempts
    ensures Expired(entry, now) ==> v.entry == RateLimitEntry(1, now + WindowMs)
    ensures !v.allowed ==> v.remaining == 0 && entry == Some(v.entry)
    ensures v.allowed && !Expired(entry, now) ==>
              v.entry == entry.value.(count := entry.value.count + 1)
    // What is reported is the number of further attempts the window allows.
    ensures v.allowed ==> v.remaining == MaxAttempts - v.entry.count
    // Counts stay between 1 and 5, so `remaining` is never negative.
    ensures (entry.None? || InRange(entry.value)) ==> InRange(v.entry) && 0 <= v.remaining < MaxAttempts
  {
    if Expired(entry, now) then Verdict(true, MaxAttempts - 1, RateLimitEntry(1, now + WindowMs))
    else if entry.value.count >= MaxAttempts then Verdict(false, 0, entry.value)
    else
      var e := entry.value.(count := entry.value.count + 1);
      Verdict(true, MaxAttempts - e.count, e)
  }

  function Min(a: int, b: int): int
  {
    if a <= b then a else b
  }

  /** How many of the calls at `times`, made one after the other against the
      entry `entry`, are allowed. */
  function Allowed(entry: Option<RateLimitEntry>, times: seq<int>): nat
    decreases |times|
  {
    if times == [] then 0
    else
      var v := Check(entry, times[0]);
      (if v.allowed then 1 else 0) + Allowed(Some(v.entry), times[1..])
  }

  /** Before the window of `e` ends, exactly the attempts it has left are
      allowed and every later one is refused. */
  lemma {:induction false} AllowedWithinWindow(e: RateLimitEntry, times: seq<int>)
    requires 0 <= e.count <= MaxAttempts
    requires forall i :: 0 <= i < |times| ==> times[i] <= e.resetAt
    ensures Allowed(Some(e), times) == Min(|times|, MaxAttempts - e.count)
    decreases |times|
  {
    if times != [] {
      var v := Check(Some(e), times[0]);
      assert v.entry.resetAt == e.resetAt;
      AllowedWithinWindow(v.entry, times[1..]);
    }
  }

  /** A window opens with the first call after the previous one expired;
      of all the calls made within it, exactly the first five are allowed. */
  lemma AtMostFivePerWindow(entry: Option<RateLimitEntry>, times: seq<int>)
    requires times != [] && Expired(entry, times[0])
    requires forall i :: 0 <= i < |times| ==> times[i] <= times[0] + WindowMs
    ensures Allowed(entry, times) == Min(|times|, MaxAttempts)
  {
    var v := Check(entry, times[0]);
    AllowedWithinWindow(v.entry, times[1..]);
  }

  /** The `remaining` of an allowed check is exactly the number of further
      attempts the window allows; the 401 answer reports one fewer. */
  lemma ReportedRemainingIsOneShort(entry: Option<RateLimitEntry>, now: int, times: seq<int>)
    requires entry.None? || InRange(entry.value)
    requires Check(entry, now).allowed
    requires |times| >= MaxAttempts
    requires forall i :: 0 <= i < |times| ==> now <= times[i] <= Check(entry, now).entry.resetAt
    ensures var v := Check(entry, now);
            && Allowed(Some(v.entry), times) == v.remaining
            && (v.remaining > 0 ==> Max0(v.remaining - 1) == v.remaining - 1)
  {
    var v := Check(entry, now);
    AllowedWithinWindow(v.entry, times);
  }

  /** The module-level `rateLimitMap`. */
  class RateLimiter {
    var entries: map<string, RateLimitEntry>

    ghost predicate Valid()
      reads this
    {
      forall key :: key in entries ==> InRange(entries[key])
    }

    constructor ()
      ensures Valid() && entries == map[]
    {
      entries := map[];
    }

    function Lookup(key: string): (e: Option<RateLimitEntry>)
      reads this
      ensures e.Some? <==> key in entries
      ensures e.Some? ==> e.value == entries[key]
    {
      if key in entries then Some(entries[key]) else None
    }

    /** `checkRateLimit(key)` at time `now`: only the entry for `key` changes. */
    method CheckRateLimit(key: string, now: int) returns (allowed: bool, remaining: int)
      requires Valid()
      modifies this
      ensures Valid()
      ensures var v := Check(old(Lookup(key)), now);
              && allowed == v.allowed && remaining == v.remaining
              && entries == old(entries)[key := v.entry]
      ensures 0 <= remaining < MaxAttempts
    {
      if key !in entries || now > entries[key].resetAt {
        entries := entries[key := RateLimitEntry(1, now + WindowMs)];
        return true, MaxAttempts - 1;
      }
      var entry := entries[key];
      if entry.count >= MaxAttempts {
        assert entries == entries[key := entry];
        return false, 0;
      }
      entry := entry.(count := entry.count + 1);
      entries := entries[key := entry];
      return true, MaxAttempts - entry.count;
    }

    /** `rateLimitMap.delete(key)`. */
    method Delete(key: string)
      requires Valid()
      modifies this
      ensures Valid()
      ensures entries == old(entries) - {key}
    {
      entries := entries - {key};
    }
  }

  datatype LoginResponse =
    | TooManyAttempts                       // 429
    | CredentialsRequired                   // 400
    | InvalidCredentials(remaining: int)    // 401
    | LoggedIn(username: string)            // 200, with the session cookie

  function Max0(n: int): int
  {
    if n > 0 then n else 0
  }

  /** `POST /api/auth/admin-login`. An absent username or password is "";
      `admin` is the username `verifyAdminCredentials` returns, or None when
      the credentials are wrong. */
  method Login(limiter: RateLimiter, forwarded: Option<string>, realIp: Option<string>, now: int,
               username: string, password: string, admin: Option<string>)
    returns (response: LoginResponse)
    requires limiter.Valid()
    modifies limiter
    ensures limiter.Valid()
    ensures var key := GetRateLimitKey(forwarded, realIp);
            var v := Check(old(limiter.Lookup(key)), now);
            // The limiter is consulted first: a refused call changes nothing,
            // whatever the credentials.
            && (!v.allowed ==> response == TooManyAttempts && limiter.entries == old(limiter.entries))
            && (v.allowed && (username == "" || password == "") ==>
                  response == CredentialsRequired && limiter.entries == old(limiter.entries)[key := v.entry])
            && (v.allowed && username != "" && password != "" && admin.None? ==>
                  && response == InvalidCredentials(Max0(v.remaining - 1))
                  && limiter.entries == old(limiter.entries)[key := v.entry])
            // A successful log-in forgets the key's attempts.
            && (v.allowed && username != "" && password != "" && admin.Some? ==>
                  response == LoggedIn(admin.value) && limiter.entries == old(limiter.entries) - {key})
  {
    var key := GetRateLimitKey(forwarded, realIp);
    var allowed, remaining := limiter.CheckRateLimit(key, now);
    if !allowed {
      return TooManyAttempts;
    }
    if username == "" || password == "" {
      return CredentialsRequired;
    }
    if admin.None? {
      return InvalidCredentials(Max0(remaining - 1));
    }
    limiter.Delete(key);
    response := LoggedIn(admin.value);
  }
}
