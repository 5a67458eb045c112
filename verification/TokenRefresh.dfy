/**
 Single-flight token refresh. Callers that find a refresh of their key under way wait for it
 instead of starting one. The grant itself is exchanged as in section 6 of RFC 6749, which
 lets the server leave the refresh token out of its answer.
 */
module TokenRefresh {
  import opened Utf16
  import opened Wrappers
  import opened Ids

  type TaskId = nat
  type CallerId = nat

  datatype Grant = Grant(accessToken: Text, refreshToken: Option<Text>, expiresAt: Option<int>)

  /** A refresh token that is there and not the empty string. */
  predicate Usable(g: Grant) {
    g.refreshToken.Some? && g.refreshToken.value != []
  }

  predicate Expiring(g: Grant, now: int, leadTime: int) {
    g.expiresAt.Some? && g.expiresAt.value < now + leadTime
  }

  function Key(user: Text, provider: Text): Text {
    user + [COLON, COLON] + provider
  }

  /** What the token endpoint answers, after parsing. */
  datatype Answer = NetworkError | Rejected | NotJson | ParserThrew | Parsed(grant: Grant)

  datatype Result = Got(grant: Grant) | Null | Threw

  /** The parsed grant, with the previous refresh token where the answer has none. */
  function Next(parsed: Grant, previous: Grant): Grant {
    parsed.(refreshToken := if parsed.refreshToken.Some? then parsed.refreshToken else previous.refreshToken)
  }

  /** A refresh always stores a refresh token; it is a usable one unless the answer's was the empty string. */
  lemma RefreshTokenSurvives(parsed: Grant, previous: Grant)
    requires Usable(previous)
    ensures Next(parsed, previous).refreshToken.Some?
    ensures Usable(Next(parsed, previous)) <==> parsed.refreshToken != Some([])
    ensures Next(parsed, previous).refreshToken == if parsed.refreshToken.None? then previous.refreshToken else parsed.refreshToken
    ensures Next(parsed, previous).accessToken == parsed.accessToken && Next(parsed, previous).expiresAt == parsed.expiresAt
  {
  }

  type Storage = map<(Text, Text), Grant>

  /** What a refresh of the grant comes to, given the endpoint's answer and whether the storage obeys. */
  function Refreshed(
    configured: set<Text>, storage: Storage, user: Text, provider: Text, previous: Grant, answer: Answer, storageOk: bool)
    : (Result, Storage)
  {
    if provider !in configured then (Null, storage)
    else if !Usable(previous) then (Got(previous), storage)
    else
      match answer
      case Parsed(g) =>
        if storageOk then (Got(Next(g, previous)), storage[(user, provider) := Next(g, previous)]) else (Threw, storage)
      case ParserThrew => (Threw, storage)
      case _ => (Null, if storageOk then storage - {(user, provider)} else storage)
  }

  class TokenRefresher {
    var inflight: map<Text, TaskId>
    var storage: Storage
    const configured: set<Text>

    constructor (configured: set<Text>)
      ensures inflight == map[] && storage == map[] && this.configured == configured
    {
      this.configured := configured;
      inflight, storage := map[], map[];
    }

    /** Join the refresh under way, or register the candidate as one. */
    method RefreshCoalesced(user: Text, provider: Text, candidate: TaskId) returns (task: TaskId)
      modifies this`inflight
      ensures var key := Key(user, provider);
              if key in old(inflight) then task == old(inflight)[key] && inflight == old(inflight)
              else task == candidate && inflight == old(inflight)[key := candidate]
    {
      var key := user + [COLON, COLON] + provider;
      if key in inflight {
        return inflight[key];
      }
      task := candidate;
      inflight := inflight[key := task];
    }

    /** A refresh that nothing interrupts, given what the endpoint answers and whether the storage obeys. */
    method DoRefresh(user: Text, provider: Text, previous: Grant, answer: Answer, storageOk: bool) returns (result: Result)
      modifies this`storage
      ensures (result, storage) == Refreshed(configured, old(storage), user, provider, previous, answer, storageOk)
      ensures provider !in configured ==> result == Null && storage == old(storage)
      ensures provider in configured && (previous.refreshToken.None? || previous.refreshToken == Some([])) ==>
                result == Got(previous) && storage == old(storage)
      ensures provider in configured && previous.refreshToken.Some? && previous.refreshToken != Some([]) ==>
                match answer
                case Parsed(g) =>
                  if storageOk then result == Got(Next(g, previous)) && storage == old(storage)[(user, provider) := Next(g, previous)]
                  else result == Threw && storage == old(storage)
                case ParserThrew => result == Threw && storage == old(storage)
                case _ => result == Null && storage == if storageOk then old(storage) - {(user, provider)} else old(storage)
    {
      if provider !in configured {
        return Null;
      }
      if previous.refreshToken.None? || previous.refreshToken.value == [] {
        return Got(previous);
      }
      match answer
      case ParserThrew => return Threw;
      case Parsed(parsed) =>
        var token := if parsed.refreshToken.Some? then parsed.refreshToken else previous.refreshToken;
        var next := parsed.(refreshToken := token);
        if !storageOk { return Threw; }
        storage := storage[(user, provider) := next];
        return Got(next);
      case _ =>
        if storageOk { storage := storage - {(user, provider)}; }
        return Null;
    }
  }

  // ---- keys ----

  predicate SuffixOf(s: Text, t: Text) {
    |s| <= |t| && t[|t| - |s|..] == s
  }

  /** Two providers share a key for some pair of users exactly when one's "::name" ends the other's. */
  lemma KeysCollideIff(p: Text, q: Text)
    ensures (exists u, v :: Key(u, p) == Key(v, q)) <==>
              SuffixOf([COLON, COLON] + p, [COLON, COLON] + q) || SuffixOf([COLON, COLON] + q, [COLON, COLON] + p)
  {
    var cp, cq := [COLON, COLON] + p, [COLON, COLON] + q;
    if u, v :| Key(u, p) == Key(v, q) {
      assert Key(u, p) == u + cp && Key(v, q) == v + cq;
      Suffixes(u, cp, v, cq);
    }
    if SuffixOf(cp, cq) { SuffixGivesUser(p, q); }
    if SuffixOf(cq, cp) { SuffixGivesUser(q, p); }
  }

  lemma Suffixes(u: Text, cp: Text, v: Text, cq: Text)
    requires u + cp == v + cq
    ensures SuffixOf(cp, cq) || SuffixOf(cq, cp)
  {
    var k := u + cp;
    assert k[|k| - |cp|..] == cp && (v + cq)[|v + cq| - |cq|..] == cq;
    if |cp| <= |cq| {
      assert cq[|cq| - |cp|..] == k[|k| - |cp|..];
    } else {
      assert cp[|cp| - |cq|..] == k[|k| - |cq|..];
    }
  }

  lemma SuffixGivesUser(p: Text, q: Text)
    requires SuffixOf([COLON, COLON] + p, [COLON, COLON] + q)
    ensures Key(([COLON, COLON] + q)[..|q| - |p|], p) == Key([], q)
  {
    var cp, cq := [COLON, COLON] + p, [COLON, COLON] + q;
    assert cq == cq[..|q| - |p|] + cp;
    assert Key(cq[..|q| - |p|], p) == cq[..|q| - |p|] + cp && Key([], q) == cq;
  }

  /** Names without a colon never share a key with another name or another user. */
  lemma PlainKeysDistinct(u: Text, p: Text, v: Text, q: Text)
    requires COLON !in p && COLON !in q && Key(u, p) == Key(v, q)
    ensures u == v && p == q
  {
    assert Key(u, p) == (u + [COLON]) + [COLON] + p && Key(v, q) == (v + [COLON]) + [COLON] + q;
    LastColonSplits(u + [COLON], p, v + [COLON], q);
    assert u == (u + [COLON])[..|u|] && v == (v + [COLON])[..|v|];
  }
}
