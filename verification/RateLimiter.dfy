/**
 The sliding-window limiter. A check counts in one Redis pipeline and, if both counts are
 under their limits, adds itself in a second one; other checks may run in between. The
 sorted sets hold one member per admitted check, scored with its clock reading.

 Assumed: one clock that never goes back, read in one step with the first pipeline; unique
 members; Redis answers. An admitted check is one whose second pipeline ran.
 */
module RateLimiter {
  import opened Utf16

  type Member = nat
  type Time = int

  datatype Key = User(name: nat) | Workspace(name: nat)

  type ZSet = map<Member, Time>
  type ZSets = map<Key, ZSet>

  const WINDOW_MS: int := 60 * 60 * 1000
  const EXPIRY_MS: int := (60 * 60 + 10) * 1000

  /** One hour, the window the limits are about. */
  const HOUR_MS: int := 3600000

  datatype Limits = Limits(userPerHour: nat, workspacePerHour: nat) {
    function Of(k: Key): nat {
      if k.User? then userPerHour else workspacePerHour
    }
  }

  function ZGet(sets: ZSets, k: Key): ZSet {
    if k in sets then sets[k] else map[]
  }

  /** ZREMRANGEBYSCORE key -inf (t - window): scores up to and including the bound go. */
  function Live(z: ZSet, t: Time): ZSet {
    map m | m in z && z[m] > t - WINDOW_MS :: z[m]
  }

  /** What stays is what is younger than an hour. */
  lemma LiveIsLastHour(z: ZSet, t: Time, m: Member)
    ensures m in Live(z, t) <==> m in z && z[m] > t - HOUR_MS
    ensures m in Live(z, t) ==> Live(z, t)[m] == z[m]
  {
  }

  function Pruned(sets: ZSets, u: Key, w: Key, t: Time): ZSets {
    sets[u := Live(ZGet(sets, u), t)][w := Live(ZGet(sets, w), t)]
  }

  function Added(sets: ZSets, u: Key, w: Key, t: Time, m: Member): ZSets {
    sets[u := ZGet(sets, u)[m := t]][w := ZGet(sets, w)[m := t]]
  }

  datatype Verdict = Verdict(allowed: bool, remaining: int, resetAt: Time, limitedBy: seq<Key>)

  function Decide(limits: Limits, u: Key, w: Key, t: Time, userCount: nat, workspaceCount: nat): Verdict {
    if userCount >= limits.userPerHour then Verdict(false, 0, t + WINDOW_MS, [u])
    else if workspaceCount >= limits.workspacePerHour then
      Verdict(false, limits.workspacePerHour - workspaceCount, t + WINDOW_MS, [w])
    else Verdict(true, limits.userPerHour - userCount - 1, t + WINDOW_MS, [])
  }

  /** The shared store, changed by the two pipelines of a check. */
  class Redis {
    var sets: ZSets
    var expireAt: map<Key, Time>

    constructor ()
      ensures sets == map[] && expireAt == map[]
    {
      sets, expireAt := map[], map[];
    }

    method CountPipeline(u: Key, w: Key, t: Time) returns (userCount: nat, workspaceCount: nat)
      requires u.User? && w.Workspace?
      modifies this
      ensures sets == Pruned(old(sets), u, w, t) && expireAt == old(expireAt)
      ensures userCount == |Live(ZGet(old(sets), u), t)| && workspaceCount == |Live(ZGet(old(sets), w), t)|
    {
      var user, workspace := ZGet(sets, u), ZGet(sets, w);
      user := map m | m in user && user[m] > t - WINDOW_MS :: user[m];
      workspace := map m | m in workspace && workspace[m] > t - WINDOW_MS :: workspace[m];
      sets := sets[u := user];
      sets := sets[w := workspace];
      userCount, workspaceCount := |sets[u]|, |sets[w]|;
    }

    method AddPipeline(u: Key, w: Key, t: Time, m: Member, clock: Time)
      requires u.User? && w.Workspace?
      modifies this
      ensures sets == Added(old(sets), u, w, t, m)
      ensures expireAt == old(expireAt)[u := clock + HOUR_MS + 10000][w := clock + HOUR_MS + 10000]
    {
      sets := sets[u := ZGet(sets, u)[m := t]];
      sets := sets[w := ZGet(sets, w)[m := t]];
      expireAt := expireAt[u := clock + EXPIRY_MS];
      expireAt := expireAt[w := clock + EXPIRY_MS];
    }

    /** One check that nothing interrupts. */
    method Check(limits: Limits, u: Key, w: Key, t: Time, m: Member) returns (v: Verdict)
      requires u.User? && w.Workspace?
      modifies this
      ensures v == Decide(limits, u, w, t, |Live(ZGet(old(sets), u), t)|, |Live(ZGet(old(sets), w), t)|)
      ensures var userCount, workspaceCount := |Live(ZGet(old(sets), u), t)|, |Live(ZGet(old(sets), w), t)|;
              && (v.allowed <==> userCount < limits.userPerHour && workspaceCount < limits.workspacePerHour)
              && v.limitedBy == (if v.allowed then [] else if userCount >= limits.userPerHour then [u] else [w])
              && v.remaining == (if v.allowed then limits.userPerHour - userCount - 1
                                 else if v.limitedBy == [u] then 0 else limits.workspacePerHour - workspaceCount)
              && v.resetAt == t + HOUR_MS
      ensures sets == if v.allowed then Added(Pruned(old(sets), u, w, t), u, w, t, m) else Pruned(old(sets), u, w, t)
    {
      var userCount, workspaceCount := CountPipeline(u, w, t);
      if userCount >= limits.userPerHour {
        return Verdict(false, 0, t + WINDOW_MS, [u]);
      }
      if workspaceCount >= limits.workspacePerHour {
        return Verdict(false, limits.workspacePerHour - workspaceCount, t + WINDOW_MS, [w]);
      }
      AddPipeline(u, w, t, m, t);
      return Verdict(true, limits.userPerHour - userCount - 1, t + WINDOW_MS, []);
    }
  }

  // ---- interleaved checks ----

  datatype Phase = Counted | Admitted | Dropped

  /** A check that passed its count; Dropped if it never got to add itself. */
  datatype Passed = Passed(user: Key, workspace: Key, stamp: Time, phase: Phase) {
    predicate On(k: Key) {
      k == user || k == workspace
    }
  }

  datatype State = State(limits: Limits, clock: Time, sets: ZSets, expireAt: map<Key, Time>, checks: map<Member, Passed>)

  function Initial(limits: Limits): State {
    State(limits, 0, map[], map[], map[])
  }

  datatype Label =
    | Tick(ms: nat)
    | Count(m: Member, user: nat, workspace: nat)
    | Add(m: Member)
    | Drop(m: Member)
    | Expire(k: Key)

  function Apply(s: State, l: Label): State {
    match l
    case Tick(ms) => s.(clock := s.clock + ms)
    case Count(m, user, workspace) =>
      if m in s.checks then s else CountStep(s, m, User(user), Workspace(workspace))
    case Add(m) =>
      if m !in s.checks || s.checks[m].phase != Counted then s else AddStep(s, m)
    case Drop(m) =>
      if m !in s.checks || s.checks[m].phase != Counted then s
      else s.(checks := s.checks[m := s.checks[m].(phase := Dropped)])
    case Expire(k) =>
      // Redis removes a key whose time has come
      if k !in s.expireAt || s.clock < s.expireAt[k] then s
      else s.(sets := s.sets - {k}, expireAt := s.expireAt - {k})
  }

  function CountStep(s: State, m: Member, u: Key, w: Key): State
    requires m !in s.checks && u.User? && w.Workspace?
  {
    var sets := Pruned(s.sets, u, w, s.clock);
    var v := Decide(s.limits, u, w, s.clock, |sets[u]|, |sets[w]|);
    var t := s.(sets := sets);
    if v.allowed then t.(checks := s.checks[m := Passed(u, w, s.clock, Counted)]) else t
  }

  function AddStep(s: State, m: Member): State
    requires m in s.checks
  {
    var c := s.checks[m];
    s.(sets := Added(s.sets, c.user, c.workspace, c.stamp, m),
       expireAt := s.expireAt[c.user := s.clock + EXPIRY_MS][c.workspace := s.clock + EXPIRY_MS],
       checks := s.checks[m := c.(phase := Admitted)])
  }

  function After(limits: Limits, ls: seq<Label>): State {
    if ls == [] then Initial(limits) else Apply(After(limits, Init(ls)), Last(ls))
  }

  // ---- the store holds exactly the live admissions ----

  predicate CheckOk(s: State, m: Member)
    requires m in s.checks
  {
    var c := s.checks[m];
    && c.user.User? && c.workspace.Workspace? && c.stamp <= s.clock
  }

  /** A member of a set is an admission on its key, and its key outlives it by ten seconds. */
  predicate MemberOk(s: State, k: Key, m: Member)
    requires k in s.sets && m in s.sets[k]
  {
    && m in s.checks && s.checks[m].phase == Admitted && s.checks[m].On(k) && s.sets[k][m] == s.checks[m].stamp
    && k in s.expireAt && s.checks[m].stamp + EXPIRY_MS <= s.expireAt[k]
  }

  /** No admission still inside the window is missing from its set. */
  predicate NotLost(s: State, k: Key, m: Member)
    requires m in s.checks
  {
    s.checks[m].phase == Admitted && s.checks[m].On(k) && s.checks[m].stamp > s.clock - WINDOW_MS ==> m in ZGet(s.sets, k)
  }

  ghost predicate StoreOk(s: State) {
    && (forall m <- s.checks :: CheckOk(s, m))
    && (forall k, m | k in s.sets && m in s.sets[k] :: MemberOk(s, k, m))
    && (forall k, m | m in s.checks :: NotLost(s, k, m))
  }

  lemma CountKeepsMembers(s: State, m: Member, u: Key, w: Key)
    requires StoreOk(s) && m !in s.checks && u.User? && w.Workspace?
    ensures var t := CountStep(s, m, u, w); forall k, m' | k in t.sets && m' in t.sets[k] :: MemberOk(t, k, m')
  {
    hide Decide, CheckOk, NotLost;
    var t := CountStep(s, m, u, w);
    forall k, m' | k in t.sets && m' in t.sets[k] ensures MemberOk(t, k, m') {
      assert k in s.sets && m' in s.sets[k] && MemberOk(s, k, m');
      assert t.sets[k][m'] == s.sets[k][m'];
    }
  }

  lemma CountLosesNone(s: State, m: Member, u: Key, w: Key)
    requires StoreOk(s) && m !in s.checks && u.User? && w.Workspace?
    ensures var t := CountStep(s, m, u, w); forall k, m' | m' in t.checks :: NotLost(t, k, m')
  {
    var t := CountStep(s, m, u, w);
    forall k, m' | m' in t.checks ensures NotLost(t, k, m') {
      if m' in s.checks && m' in ZGet(s.sets, k) { assert MemberOk(s, k, m'); }
      if m' in s.checks { assert NotLost(s, k, m'); }
    }
  }

  lemma CountKeepsStore(s: State, m: Member, u: Key, w: Key)
    requires StoreOk(s) && m !in s.checks && u.User? && w.Workspace?
    ensures StoreOk(CountStep(s, m, u, w))
  {
    hide MemberOk, NotLost;
    CountKeepsMembers(s, m, u, w);
    CountLosesNone(s, m, u, w);
    forall m' <- CountStep(s, m, u, w).checks ensures CheckOk(CountStep(s, m, u, w), m') {
      if m' in s.checks { assert CheckOk(s, m'); }
    }
  }

  lemma AddKeepsStore(s: State, m: Member)
    requires StoreOk(s) && m in s.checks && s.checks[m].phase == Counted
    ensures StoreOk(AddStep(s, m))
  {
    var t := AddStep(s, m);
    assert CheckOk(s, m);
    forall k, m' | k in t.sets && m' in t.sets[k] ensures MemberOk(t, k, m') {
      if m' != m {
        assert k in s.sets && m' in s.sets[k] && MemberOk(s, k, m');
        assert CheckOk(s, m');
      }
    }
    forall k, m' | m' in t.checks ensures NotLost(t, k, m') {
      assert NotLost(s, k, m');
    }
  }

  /** Time passing, a check given up, and a key expiring: an expired key holds no live admission. */
  lemma OtherKeepsStore(s: State, l: Label)
    requires StoreOk(s) && !l.Count? && !l.Add?
    ensures StoreOk(Apply(s, l))
  {
    var t := Apply(s, l);
    forall k, m | k in t.sets && m in t.sets[k] ensures MemberOk(t, k, m) {
      assert MemberOk(s, k, m);
    }
    forall k, m | m in t.checks ensures NotLost(t, k, m) {
      assert NotLost(s, k, m);
      if m in ZGet(s.sets, k) { assert MemberOk(s, k, m); }
    }
  }

  lemma StepKeepsStore(s: State, l: Label)
    requires StoreOk(s)
    ensures StoreOk(Apply(s, l))
  {
    hide StoreOk;
    if l.Count? {
      if l.m !in s.checks { CountKeepsStore(s, l.m, User(l.user), Workspace(l.workspace)); }
    } else if l.Add? {
      if l.m in s.checks && s.checks[l.m].phase == Counted { AddKeepsStore(s, l.m); }
    } else {
      OtherKeepsStore(s, l);
    }
  }

  lemma {:induction false} StoreAlwaysOk(limits: Limits, ls: seq<Label>)
    ensures StoreOk(After(limits, ls))
  {
    if ls == [] {
    } else {
      StoreAlwaysOk(limits, Init(ls));
      StepKeepsStore(After(limits, Init(ls)), Last(ls));
    }
  }

  // ---- who is in a window ----

  /** Checks on the key stamped in (end - window, end] that passed their count. */
  function InWindow(s: State, k: Key, end: Time): set<Member> {
    set m | m in s.checks && s.checks[m].phase != Dropped && s.checks[m].On(k)
            && end - HOUR_MS < s.checks[m].stamp <= end
  }

  function AdmittedIn(s: State, k: Key, end: Time): set<Member> {
    set m | m in InWindow(s, k, end) && s.checks[m].phase == Admitted
  }

  /** Checks on the key between their count and their add. */
  function InFlight(s: State, k: Key): set<Member> {
    set m | m in s.checks && s.checks[m].phase == Counted && s.checks[m].On(k)
  }

  /** The pruned set of a key is the key's admissions within the last hour: nothing lost, nothing extra. */
  lemma CountIsExact(s: State, k: Key)
    requires StoreOk(s)
    ensures Live(ZGet(s.sets, k), s.clock).Keys == AdmittedIn(s, k, s.clock)
    ensures |Live(ZGet(s.sets, k), s.clock)| == |AdmittedIn(s, k, s.clock)|
  {
    var z := Live(ZGet(s.sets, k), s.clock);
    forall m ensures m in z.Keys <==> m in AdmittedIn(s, k, s.clock) {
      if m in z { assert MemberOk(s, k, m) && CheckOk(s, m); }
      if m in AdmittedIn(s, k, s.clock) { assert NotLost(s, k, m) && CheckOk(s, m); assert MemberOk(s, k, m); }
    }
    assert |z.Keys| == |z|;
  }

  /** A check passes its count exactly when both keys have room left in the last hour. */
  lemma PassesIffRoom(s: State, m: Member, u: Key, w: Key)
    requires StoreOk(s) && m !in s.checks && u.User? && w.Workspace?
    ensures m in CountStep(s, m, u, w).checks <==>
              |AdmittedIn(s, u, s.clock)| < s.limits.Of(u) && |AdmittedIn(s, w, s.clock)| < s.limits.Of(w)
  {
    CountIsExact(s, u);
    CountIsExact(s, w);
  }

  // ---- the bound ----

  /** No hour has seen more than limit + c - 1 checks pass, on any key. */
  ghost predicate Bounded(s: State, c: nat) {
    forall k, end :: |InWindow(s, k, end)| <= s.limits.Of(k) + c - 1
  }

  lemma SubsetSize<T>(a: set<T>, b: set<T>)
    requires a <= b
    ensures |a| <= |b|
    decreases b
  {
    if a != {} {
      var x :| x in a;
      SubsetSize(a - {x}, b - {x});
    }
  }

  lemma UnionSize<T>(a: set<T>, b: set<T>)
    ensures |a + b| <= |a| + |b|
  {
    assert a + b == a + (b - a) && a !! (b - a);
    SubsetSize(b - a, b);
  }

  /**
   The step that matters. A window that reaches the new stamp holds, of the admitted, only
   those the pipeline has just counted; everyone else in it is in flight.
   */
  lemma CountKeepsBound(s: State, m: Member, u: Key, w: Key, c: nat, k: Key, end: Time)
    requires StoreOk(s) && m !in s.checks && u.User? && w.Workspace?
    requires |InWindow(s, k, end)| <= s.limits.Of(k) + c - 1
    requires var t := CountStep(s, m, u, w); |InFlight(t, k)| <= c
    ensures var t := CountStep(s, m, u, w); |InWindow(t, k, end)| <= t.limits.Of(k) + c - 1
  {
    var t := CountStep(s, m, u, w);
    if m !in t.checks || end < s.clock || (k != u && k != w) {
      assert InWindow(t, k, end) == InWindow(s, k, end);
    } else {
      hide StoreOk, Decide, Pruned, InWindow, AdmittedIn, InFlight, CountStep;
      var admitted, flying := AdmittedIn(s, k, s.clock), InFlight(t, k);
      assert |admitted| < s.limits.Of(k) by { PassesIffRoom(s, m, u, w); }
      WindowIsCounted(s, m, u, w, k, end);
      SubsetSize(InWindow(t, k, end), admitted + flying);
      UnionSize(admitted, flying);
      assert t.limits == s.limits by { LimitsAsBefore(s, m, u, w); }
    }
  }

  lemma LimitsAsBefore(s: State, m: Member, u: Key, w: Key)
    requires m !in s.checks && u.User? && w.Workspace?
    ensures CountStep(s, m, u, w).limits == s.limits
  {
    hide Decide, Pruned;
  }

  lemma WindowIsCounted(s: State, m: Member, u: Key, w: Key, k: Key, end: Time)
    requires StoreOk(s) && m !in s.checks && u.User? && w.Workspace? && end >= s.clock
    ensures InWindow(CountStep(s, m, u, w), k, end) <= AdmittedIn(s, k, s.clock) + InFlight(CountStep(s, m, u, w), k)
  {
    assert forall x <- s.checks :: CheckOk(s, x);
    hide StoreOk, Decide, Pruned;
    assert InWindow(CountStep(s, m, u, w), k, end) <= AdmittedIn(s, k, s.clock) + InFlight(CountStep(s, m, u, w), k);
  }

  lemma StepKeepsBound(s: State, l: Label, c: nat)
    requires StoreOk(s) && Bounded(s, c)
    requires forall k :: |InFlight(Apply(s, l), k)| <= c
    ensures Bounded(Apply(s, l), c)
  {
    hide StoreOk;
    var t := Apply(s, l);
    forall k, end ensures |InWindow(t, k, end)| <= t.limits.Of(k) + c - 1 {
      assert |InWindow(s, k, end)| <= s.limits.Of(k) + c - 1;
      if l.Count? && l.m !in s.checks {
        assert t == CountStep(s, l.m, User(l.user), Workspace(l.workspace)) && |InFlight(t, k)| <= c;
        CountKeepsBound(s, l.m, User(l.user), Workspace(l.workspace), c, k, end);
      } else {
        SubsetSize(InWindow(t, k, end), InWindow(s, k, end));
      }
    }
  }

  /** Never more than c checks on one key between their count and their add. */
  ghost predicate AtMostInFlight(limits: Limits, ls: seq<Label>, c: nat) {
    forall n, k | 0 <= n <= |ls| :: |InFlight(After(limits, ls[..n]), k)| <= c
  }

  lemma {:induction false} AlwaysBounded(limits: Limits, ls: seq<Label>, c: nat)
    requires c >= 1 && AtMostInFlight(limits, ls, c)
    ensures Bounded(After(limits, ls), c)
  {
    if ls == [] {
    } else {
      var before := Init(ls);
      forall n, k | 0 <= n <= |before| ensures |InFlight(After(limits, before[..n]), k)| <= c {
        assert before[..n] == ls[..n];
      }
      AlwaysBounded(limits, before, c);
      StoreAlwaysOk(limits, before);
      var s := After(limits, before);
      forall k ensures |InFlight(Apply(s, Last(ls)), k)| <= c {
        assert ls[..|ls|] == ls && |InFlight(After(limits, ls[..|ls|]), k)| <= c;
      }
      StepKeepsBound(s, Last(ls), c);
    }
  }

  /** At most limit + c - 1 admissions are stamped within any hour, per user and per workspace. */
  lemma AdmissionBound(limits: Limits, ls: seq<Label>, c: nat, k: Key, end: Time)
    requires c >= 1 && AtMostInFlight(limits, ls, c)
    ensures |AdmittedIn(After(limits, ls), k, end)| <= limits.Of(k) + c - 1
  {
    var s := After(limits, ls);
    AlwaysBounded(limits, ls, c);
    LimitsStay(limits, ls);
    SubsetSize(AdmittedIn(s, k, end), InWindow(s, k, end));
  }

  lemma {:induction false} LimitsStay(limits: Limits, ls: seq<Label>)
    ensures After(limits, ls).limits == limits
  {
    if ls == [] {
    } else {
      LimitsStay(limits, Init(ls));
    }
  }

  /** Checks that do not overlap keep to the limit itself. */
  lemma SerialChecksMeetTheLimit(limits: Limits, ls: seq<Label>, k: Key, end: Time)
    requires AtMostInFlight(limits, ls, 1)
    ensures |AdmittedIn(After(limits, ls), k, end)| <= limits.Of(k)
  {
    AdmissionBound(limits, ls, 1, k, end);
  }

  // ---- the bound is reached ----

  /** n members from a on. */
  function Members(a: nat, n: nat): (r: set<Member>)
    ensures |r| == n && forall m :: m in r <==> a <= m < a + n
  {
    if n == 0 then {} else Members(a, n - 1) + {a + n - 1}
  }

  /** n admissions and then f checks in flight, all of one user at time 0. */
  function Crowd(n: nat, f: nat): (r: map<Member, Passed>)
    ensures forall m: Member :: m in r <==> m < n + f
    ensures forall m <- r :: r[m] == Passed(User(0), Workspace(0), 0, if m < n then Admitted else Counted)
  {
    if f > 0 then Crowd(n, f - 1)[n + f - 1 := Passed(User(0), Workspace(0), 0, Counted)]
    else if n > 0 then Crowd(n - 1, 0)[n - 1 := Passed(User(0), Workspace(0), 0, Admitted)]
    else map[]
  }

  predicate Crowded(s: State, limit: nat, n: nat, f: nat) {
    s.limits == Limits(limit, limit) && s.clock == 0 && s.checks == Crowd(n, f)
  }

  lemma CrowdCounts(s: State, limit: nat, n: nat, f: nat)
    requires Crowded(s, limit, n, f)
    ensures |AdmittedIn(s, User(0), 0)| == n && |AdmittedIn(s, Workspace(0), 0)| == n
    ensures forall k :: |InFlight(s, k)| <= f
  {
    hide Members;
    forall k | k == User(0) || k == Workspace(0) ensures |AdmittedIn(s, k, 0)| == n {
      assert AdmittedIn(s, k, 0) == Members(0, n);
    }
    forall k ensures |InFlight(s, k)| <= f { SubsetSize(InFlight(s, k), Members(n, f)); }
  }

  lemma CountsIntoCrowd(s: State, limit: nat, n: nat, f: nat)
    requires StoreOk(s) && Crowded(s, limit, n, f) && n < limit
    ensures Crowded(CountStep(s, n + f, User(0), Workspace(0)), limit, n, f + 1)
  {
    hide StoreOk, Live, Pruned, AdmittedIn, InFlight;
    CrowdCounts(s, limit, n, f);
    assert n + f !in s.checks;
    PassesIffRoom(s, n + f, User(0), Workspace(0));
  }

  lemma AddsToCrowd(s: State, limit: nat, n: nat, f: nat)
    requires Crowded(s, limit, n, f) && f > 0
    ensures Crowded(AddStep(s, n), limit, n + 1, f - 1)
  {
    hide Crowd;
    assert AddStep(s, n).checks == Crowd(n + 1, f - 1);
  }

  lemma PlayCrowd(limit: nat, ls: seq<Label>, l: Label, n: nat, f: nat, c: nat) returns (more: seq<Label>)
    requires AtMostInFlight(Limits(limit, limit), ls, c) && f <= c
    requires Crowded(Apply(After(Limits(limit, limit), ls), l), limit, n, f)
    ensures Crowded(After(Limits(limit, limit), more), limit, n, f) && AtMostInFlight(Limits(limit, limit), more, c)
  {
    hide Crowded, InFlight, Apply;
    var limits := Limits(limit, limit);
    more := ls + [l];
    assert Init(more) == ls;
    CrowdCounts(After(limits, more), limit, n, f);
    forall i, k | 0 <= i <= |more| ensures |InFlight(After(limits, more[..i]), k)| <= c {
      if i <= |ls| { assert more[..i] == ls[..i]; } else { assert more[..i] == more; }
    }
  }

  /** Checks that count while there is room: n one after the other, then f that overlap. */
  lemma {:induction false} FillUp(limit: nat, n: nat, f: nat, c: nat) returns (ls: seq<Label>)
    requires f <= c && c >= 1 && (if f > 0 then n < limit else n <= limit)
    ensures Crowded(After(Limits(limit, limit), ls), limit, n, f) && AtMostInFlight(Limits(limit, limit), ls, c)
    decreases n, f
  {
    hide StoreOk, InFlight, CountStep, AddStep, Crowd;
    var limits := Limits(limit, limit);
    if f > 0 {
      ls := FillUp(limit, n, f - 1, c);
      StoreAlwaysOk(limits, ls);
      CountsIntoCrowd(After(limits, ls), limit, n, f - 1);
      ls := PlayCrowd(limit, ls, Count(n + f - 1, 0, 0), n, f, c);
    } else if n > 0 {
      ls := FillUp(limit, n - 1, 1, c);
      AddsToCrowd(After(limits, ls), limit, n - 1, 1);
      ls := PlayCrowd(limit, ls, Add(n - 1), n, 0, c);
    } else {
      ls := [];
      CrowdCounts(Initial(limits), limit, 0, 0);
    }
  }

  /** Whoever has counted may add, whatever the others added meanwhile. */
  lemma {:induction false} LetAdd(limit: nat, c: nat, added: nat) returns (ls: seq<Label>)
    requires limit >= 1 && c >= 1 && added <= c
    ensures Crowded(After(Limits(limit, limit), ls), limit, limit - 1 + added, c - added)
    ensures AtMostInFlight(Limits(limit, limit), ls, c)
    decreases added
  {
    hide InFlight, AddStep, Crowd;
    if added == 0 {
      ls := FillUp(limit, limit - 1, c, c);
    } else {
      ls := LetAdd(limit, c, added - 1);
      var n := limit - 1 + (added - 1);
      AddsToCrowd(After(Limits(limit, limit), ls), limit, n, c - added + 1);
      ls := PlayCrowd(limit, ls, Add(n), n + 1, c - added, c);
    }
  }

  /** However large the limit and c, some run with at most c checks in flight admits limit + c - 1 in one hour. */
  lemma BoundIsReached(limit: nat, c: nat) returns (ls: seq<Label>)
    requires limit >= 1 && c >= 1
    ensures AtMostInFlight(Limits(limit, limit), ls, c)
    ensures |AdmittedIn(After(Limits(limit, limit), ls), User(0), 0)| == limit + c - 1
  {
    ls := LetAdd(limit, c, c);
    CrowdCounts(After(Limits(limit, limit), ls), limit, limit + c - 1, 0);
  }
}
