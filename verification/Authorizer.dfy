/**
 The gateway's bearer token authorizer with its two timed caches: the secret, and the tokens
 that were accepted. A request is one step; the clock never goes back. `secret` is what the
 secret store answers at each instant, None where the call fails or the secret is empty.
 */
module Authorizer {
  import opened Utf16
  import opened Wrappers

  type Time = int
  type Secret = Time -> Option<Text>

  const CACHE_TTL_MS: int := 4 * 60 * 1000
  const EVICTION_SIZE: nat := 100

  /** One turn of the comparison's accumulator. */
  function Mix(d: CodeUnit, x: CodeUnit, y: CodeUnit): CodeUnit {
    d | (x ^ y)
  }

  lemma XorZero(x: CodeUnit, y: CodeUnit)
    ensures (x ^ y) == 0 <==> x == y
  {
  }

  lemma OrZero(d: CodeUnit, e: CodeUnit)
    ensures (d | e) == 0 <==> d == 0 && e == 0
  {
  }

  lemma MixZero(d: CodeUnit, x: CodeUnit, y: CodeUnit)
    ensures Mix(d, x, y) == 0 <==> d == 0 && x == y
  {
    XorZero(x, y);
    OrZero(d, x ^ y);
  }

  /** Texts of one length are compared in full, with no early exit. */
  method ConstantTimeEquals(a: Text, b: Text) returns (equal: bool)
    ensures equal <==> a == b
  {
    hide Mix;
    if |a| != |b| {
      return false;
    }
    var diff: CodeUnit := 0;
    for i := 0 to |a|
      invariant diff == 0 <==> a[..i] == b[..i]
    {
      TakeOneMore(a, i);
      TakeOneMore(b, i);
      MixZero(diff, a[i], b[i]);
      diff := Mix(diff, a[i], b[i]);
    }
    assert a[..|a|] == a && b[..|b|] == b;
    return diff == 0;
  }

  datatype Cache = Cache(tokens: map<Text, Time>, secret: Option<Text>, secretExpiry: Time)

  /** Eight minutes: a cached token on top of a cached secret. */
  const EIGHT_MINUTES: int := 480000

  /** The caches as a fresh instance has them. */
  const COLD := Cache(map[], None, 0)

  /** The cached secret while it lasts (an empty one does not count), the store's otherwise. */
  function Expected(c: Cache, secret: Secret, now: Time): Option<Text> {
    if c.secret.Some? && c.secret.value != [] && now < c.secretExpiry then c.secret else secret(now)
  }

  function Fetched(c: Cache, secret: Secret, now: Time): Cache {
    if c.secret.Some? && c.secret.value != [] && now < c.secretExpiry then c
    else if secret(now).Some? then c.(secret := secret(now), secretExpiry := now + CACHE_TTL_MS)
    else c
  }

  function Evicted(tokens: map<Text, Time>, now: Time): map<Text, Time> {
    map t | t in tokens && now < tokens[t] :: tokens[t]
  }

  function Remembered(tokens: map<Text, Time>, token: Text, now: Time): map<Text, Time> {
    var more := tokens[token := now + CACHE_TTL_MS];
    if |more| > EVICTION_SIZE then Evicted(more, now) else more
  }

  /** The token is cached for 4 minutes; no live entry is lost, and none at all up to a hundred; beyond that only live ones stay. */
  lemma RememberedIs(tokens: map<Text, Time>, token: Text, now: Time)
    ensures var r := Remembered(tokens, token, now);
            && token in r && r[token] == now + EIGHT_MINUTES / 2
            && (forall t <- r :: t == token || (t in tokens && r[t] == tokens[t]))
            && (forall t <- tokens :: now < tokens[t] ==> t in r)
            && (|tokens| < 100 ==> tokens.Keys <= r.Keys)
            && (|r| > 100 ==> forall t <- r :: now < r[t])
  {
    var more := tokens[token := now + CACHE_TTL_MS];
    assert more.Keys == tokens.Keys + {token} && |more.Keys| == |more| && |tokens.Keys| == |tokens|;
  }

  /** A request carries a token where one follows "Bearer " in its header; an empty one is none. */
  predicate Carries(token: Option<Text>) {
    token.Some? && token.value != []
  }

  predicate Authorizes(c: Cache, token: Option<Text>, secret: Secret, now: Time) {
    Carries(token) && ((token.value in c.tokens && now < c.tokens[token.value]) || Expected(c, secret, now) == token)
  }

  function Next(c: Cache, token: Option<Text>, secret: Secret, now: Time): Cache {
    if !Carries(token) || (token.value in c.tokens && now < c.tokens[token.value]) then c
    else
      var d := Fetched(c, secret, now);
      if Expected(c, secret, now) == token then d.(tokens := Remembered(d.tokens, token.value, now)) else d
  }

  class Instance {
    var tokenCache: map<Text, Time>
    var cachedSecretValue: Option<Text>
    var secretCacheExpiry: Time

    constructor ()
      ensures Caches() == COLD
    {
      tokenCache, cachedSecretValue, secretCacheExpiry := map[], None, 0;
    }

    function Caches(): Cache
      reads this
    {
      Cache(tokenCache, cachedSecretValue, secretCacheExpiry)
    }

    method GetExpectedToken(secret: Secret, now: Time) returns (token: Option<Text>)
      modifies this`cachedSecretValue, this`secretCacheExpiry
      ensures token == Expected(old(Caches()), secret, now)
      ensures Caches() == Fetched(old(Caches()), secret, now)
      ensures var cached := old(cachedSecretValue);
              if cached.Some? && cached.value != [] && now < old(secretCacheExpiry) then token == cached
              else token == secret(now) && (token.Some? ==> cachedSecretValue == token && secretCacheExpiry == now + EIGHT_MINUTES / 2)
    {
      if cachedSecretValue.Some? && cachedSecretValue.value != [] && now < secretCacheExpiry {
        return cachedSecretValue;
      }
      token := secret(now);
      if token.Some? {
        cachedSecretValue := token;
        secretCacheExpiry := now + CACHE_TTL_MS;
      }
    }

    method EvictStaleTokens(now: Time)
      modifies this`tokenCache
      ensures tokenCache == Evicted(old(tokenCache), now)
      ensures forall t :: t in tokenCache <==> t in old(tokenCache) && now < old(tokenCache)[t]
      ensures forall t <- tokenCache :: tokenCache[t] == old(tokenCache)[t]
    {
      tokenCache := map t | t in tokenCache && now < tokenCache[t] :: tokenCache[t];
    }

    method Handler(token: Option<Text>, secret: Secret, now: Time) returns (isAuthorized: bool)
      modifies this
      ensures isAuthorized == Authorizes(old(Caches()), token, secret, now)
      ensures Caches() == Next(old(Caches()), token, secret, now)
      ensures token.None? || token.value == [] ==> !isAuthorized && Caches() == old(Caches())
      ensures !isAuthorized ==> tokenCache == old(tokenCache)
    {
      if !Carries(token) {
        return false;
      }
      if token.value in tokenCache && now < tokenCache[token.value] {
        return true;
      }
      var expected := GetExpectedToken(secret, now);
      if expected.None? {
        return false;
      }
      isAuthorized := ConstantTimeEquals(token.value, expected.value);
      if isAuthorized {
        tokenCache := tokenCache[token.value := now + CACHE_TTL_MS];
        if |tokenCache| > EVICTION_SIZE {
          EvictStaleTokens(now);
        }
      }
    }
  }

  // ---- runs ----

  datatype Request = Request(token: Option<Text>, now: Time)

  function After(requests: seq<Request>, secret: Secret): Cache {
    if requests == [] then COLD
    else Next(After(Init(requests), secret), Last(requests).token, secret, Last(requests).now)
  }

  ghost predicate Ordered(requests: seq<Request>) {
    forall i, j | 0 <= i < j < |requests| :: requests[i].now <= requests[j].now
  }

  /** The secret had this value at some instant in (since, until]. */
  ghost predicate WasSecret(secret: Secret, token: Text, since: Time, until: Time) {
    exists t :: since < t <= until && secret(t) == Some(token)
  }

  /** A cached secret is at most 4 minutes from its fetch; a cached token's secret at most 4 before its acceptance. */
  ghost predicate Inv(c: Cache, secret: Secret, now: Time) {
    && (c.secret.Some? ==> secret(c.secretExpiry - CACHE_TTL_MS) == c.secret && c.secretExpiry - CACHE_TTL_MS <= now)
    && (forall t <- c.tokens :: Backed(c.tokens[t], secret, t, now))
  }

  ghost predicate Backed(expiry: Time, secret: Secret, token: Text, now: Time) {
    && expiry - CACHE_TTL_MS <= now
    && WasSecret(secret, token, expiry - 2 * CACHE_TTL_MS, expiry - CACHE_TTL_MS)
  }

  /** An expected token was the secret within the last 4 minutes. */
  lemma ExpectedIsRecent(c: Cache, secret: Secret, now: Time)
    requires Inv(c, secret, now) && Expected(c, secret, now).Some?
    ensures WasSecret(secret, Expected(c, secret, now).value, now - CACHE_TTL_MS, now)
  {
    if c.secret.Some? && c.secret.value != [] && now < c.secretExpiry {
      assert secret(c.secretExpiry - CACHE_TTL_MS) == c.secret;
    } else {
      assert secret(now) == Expected(c, secret, now);
    }
  }

  lemma NextKeeps(c: Cache, token: Option<Text>, secret: Secret, now: Time)
    requires Inv(c, secret, now)
    ensures Inv(Next(c, token, secret, now), secret, now)
  {
    if Expected(c, secret, now).Some? { ExpectedIsRecent(c, secret, now); }
  }

  lemma {:induction false} AlwaysInv(requests: seq<Request>, secret: Secret, now: Time)
    requires Ordered(requests) && (requests == [] || Last(requests).now <= now)
    ensures Inv(After(requests, secret), secret, now)
  {
    if requests == [] {
    } else {
      var before, r := Init(requests), Last(requests);
      assert before != [] ==> Last(before) == requests[|requests| - 2];
      AlwaysInv(before, secret, r.now);
      NextKeeps(After(before, secret), r.token, secret, r.now);
    }
  }

  /** An accepted token goes on being accepted for 4 minutes, whatever the secret is by then. */
  lemma AcceptedStaysAccepted(c: Cache, token: Text, secret: Secret, now: Time, other: Secret, later: Time)
    requires Authorizes(c, Some(token), secret, now) && !(token in c.tokens && now < c.tokens[token])
    requires now <= later < now + EIGHT_MINUTES / 2
    ensures Authorizes(Next(c, Some(token), secret, now), Some(token), other, later)
  {
  }

  /** A token accepted at T was the secret at some instant in (T - 8 min + 1 ms, T]. */
  lemma AcceptedTokenWasSecret(requests: seq<Request>, secret: Secret, token: Text, now: Time)
    requires Ordered(requests) && (requests == [] || Last(requests).now <= now)
    requires Authorizes(After(requests, secret), Some(token), secret, now)
    ensures WasSecret(secret, token, now - EIGHT_MINUTES + 1, now)
  {
    var c := After(requests, secret);
    AlwaysInv(requests, secret, now);
    if token in c.tokens && now < c.tokens[token] {
      assert Backed(c.tokens[token], secret, token, now);
    } else {
      ExpectedIsRecent(c, secret, now);
    }
  }

  /** The caches are off: with both of them cold or run out, acceptance is being the secret now. */
  lemma UncachedIsExact(c: Cache, secret: Secret, token: Text, now: Time)
    requires token != [] && now >= c.secretExpiry && (token in c.tokens ==> now >= c.tokens[token])
    ensures Authorizes(c, Some(token), secret, now) <==> secret(now) == Some(token)
  {
  }

  /** The bound is sharp: the secret of a single millisecond is still accepted 8 minutes less 2 ms later. */
  lemma EightMinutesAreReached(token: Text, other: Text)
    requires token != [] && other != [] && other != token
    ensures var secret: Secret := (t: Time) => if t == 0 then Some(token) else Some(other);
            var requests := [Request(Some(other), 0), Request(Some(token), CACHE_TTL_MS - 1)];
            Authorizes(After(requests, secret), Some(token), secret, EIGHT_MINUTES - 2)
  {
    var secret: Secret := (t: Time) => if t == 0 then Some(token) else Some(other);
    var d, e := Request(Some(other), 0), Request(Some(token), CACHE_TTL_MS - 1);
    assert Init([d, e]) == [d] && Init([d]) == [];
    assert After([], secret) == COLD;
    var c := After([d], secret);
    assert c == Next(COLD, d.token, secret, 0);
    assert c == Cache(map[], Some(token), CACHE_TTL_MS);
  }
}
