/**
 Interleaved calls of getValidToken and refresh. A caller reads the stored grant, later goes
 on with what it read, and either answers at once or waits for a refresh task; a task advances
 by one awaited call at a time. Other processes may change the storage at any moment.
 */
module RefreshProtocol {
  import opened Utf16
  import opened Wrappers
  import opened TokenRefresh
  import Ids

  /** `parsed` is the grant the endpoint answered with. */
  datatype TaskPoint =
    | Fetching
    | Storing(parsed: Grant)
    | Purging
    | Emitting
    | Settled(result: Result)
    | Finished(result: Result)

  datatype Task = Task(user: Text, provider: Text, previous: Grant, point: TaskPoint)

  datatype CallerPoint =
    | Asked
    | Has(grant: Option<Grant>)
    | Waits(task: TaskId)
    | Answered(value: Result)
    | AnsweredBy(task: TaskId, value: Result)

  /** `wantsGrant` tells refresh from getValidToken. */
  datatype Caller = Caller(user: Text, provider: Text, wantsGrant: bool, point: CallerPoint)

  datatype State = State(
    configured: set<Text>,
    leadTime: int,
    storage: Storage,
    inflight: map<Text, TaskId>,
    tasks: map<TaskId, Task>,
    callers: map<CallerId, Caller>)

  function Initial(configured: set<Text>, leadTime: int): State {
    State(configured, leadTime, map[], map[], map[], map[])
  }

  datatype Label =
    | Call(c: CallerId, user: Text, provider: Text, wantsGrant: bool)
    | Read(c: CallerId)
    | GoOn(c: CallerId, now: int, candidate: TaskId)
    | Respond(t: TaskId, answer: Answer)
    | Store(t: TaskId, ok: bool)
    | Finish(t: TaskId)
    | Wake(c: CallerId)
    | Elsewhere(user: Text, provider: Text, grant: Option<Grant>)

  function Apply(s: State, l: Label): State {
    match l
    case Call(c, user, provider, wantsGrant) =>
      if c in s.callers then s else s.(callers := s.callers[c := Caller(user, provider, wantsGrant, Asked)])
    case Read(c) =>
      if c !in s.callers || s.callers[c].point != Asked then s
      else
        var k := s.callers[c];
        Turn(s, c, Has(if (k.user, k.provider) in s.storage then Some(s.storage[(k.user, k.provider)]) else None))
    case GoOn(c, now, candidate) =>
      if c !in s.callers || !s.callers[c].point.Has? then s else GoOnStep(s, c, now, candidate)
    case Respond(t, answer) =>
      if t !in s.tasks || s.tasks[t].point != Fetching then s else Step(s, t, Responded(answer))
    case Store(t, ok) =>
      if t !in s.tasks then s else StoreStep(s, t, ok)
    case Finish(t) =>
      if t !in s.tasks || !s.tasks[t].point.Settled? then s
      else Step(s, t, Finished(s.tasks[t].point.result)).(inflight := s.inflight - {TaskKey(s.tasks[t])})
    case Wake(c) =>
      if c !in s.callers || !s.callers[c].point.Waits? then s
      else
        var t := s.callers[c].point.task;
        if t !in s.tasks || !s.tasks[t].point.Finished? then s
        else Turn(s, c, AnsweredBy(t, s.tasks[t].point.result))
    case Elsewhere(user, provider, grant) =>
      s.(storage := if grant.Some? then s.storage[(user, provider) := grant.value] else s.storage - {(user, provider)})
  }

  function TaskKey(t: Task): Text {
    Key(t.user, t.provider)
  }

  function CallerKey(c: Caller): Text {
    Key(c.user, c.provider)
  }

  function Turn(s: State, c: CallerId, p: CallerPoint): State
    requires c in s.callers
  {
    s.(callers := s.callers[c := s.callers[c].(point := p)])
  }

  function Step(s: State, t: TaskId, p: TaskPoint): State
    requires t in s.tasks
  {
    s.(tasks := s.tasks[t := s.tasks[t].(point := p)])
  }

  /** isExpiring, then refreshCoalesced, without an await between them. */
  function GoOnStep(s: State, c: CallerId, now: int, candidate: TaskId): State
    requires c in s.callers && s.callers[c].point.Has?
  {
    var k := s.callers[c];
    var key := CallerKey(k);
    if k.point.grant.None? then Turn(s, c, Answered(Null))
    else
      var g := k.point.grant.value;
      if !k.wantsGrant && !Expiring(g, now, s.leadTime) then Turn(s, c, Answered(Got(g)))
      else if key in s.inflight then Turn(s, c, Waits(s.inflight[key]))
      else if candidate in s.tasks then s
      else
        Turn(s, c, Waits(candidate)).(
          inflight := s.inflight[key := candidate],
          tasks := s.tasks[candidate := Task(k.user, k.provider, g, FirstPoint(s.configured, k.provider, g))])
  }

  /** doRefresh up to its first await. */
  function FirstPoint(configured: set<Text>, provider: Text, previous: Grant): TaskPoint {
    if provider !in configured then Settled(Null)
    else if !Usable(previous) then Settled(Got(previous))
    else Fetching
  }

  function Responded(answer: Answer): TaskPoint {
    match answer
    case Parsed(g) => Storing(g)
    case ParserThrew => Settled(Threw)
    case _ => Purging
  }

  /** The await on the storage or the emitter; a failed delete or emit is only logged. */
  function StoreStep(s: State, t: TaskId, ok: bool): State
    requires t in s.tasks
  {
    var k := s.tasks[t];
    match k.point
    case Storing(parsed) =>
      var next := Next(parsed, k.previous);
      if ok then Step(s, t, Settled(Got(next))).(storage := s.storage[(k.user, k.provider) := next])
      else Step(s, t, Settled(Threw))
    case Purging => Step(s, t, Emitting).(storage := if ok then s.storage - {(k.user, k.provider)} else s.storage)
    case Emitting => Step(s, t, Settled(Null))
    case _ => s
  }

  function After(configured: set<Text>, leadTime: int, ls: seq<Label>): State {
    if ls == [] then Initial(configured, leadTime) else Apply(After(configured, leadTime, Init(ls)), Last(ls))
  }

  // ---- the invariant ----

  predicate Running(t: Task) {
    !t.point.Finished?
  }

  /** The map leads from each key to a running task of that key. */
  ghost predicate EntriesOk(s: State) {
    forall k <- s.inflight :: s.inflight[k] in s.tasks && TaskKey(s.tasks[s.inflight[k]]) == k && Running(s.tasks[s.inflight[k]])
  }

  ghost predicate TaskOk(s: State, t: TaskId)
    requires t in s.tasks
  {
    var k := s.tasks[t];
    && (Running(k) ==> TaskKey(k) in s.inflight && s.inflight[TaskKey(k)] == t)
    && (k.point == Fetching ==> Usable(k.previous))
    && (k.point.Storing? ==> Usable(k.previous))
  }

  ghost predicate CallerOk(s: State, c: CallerId)
    requires c in s.callers
  {
    var k := s.callers[c];
    match k.point
    case Waits(t) => t in s.tasks && TaskKey(s.tasks[t]) == CallerKey(k)
    case AnsweredBy(t, v) =>
      t in s.tasks && TaskKey(s.tasks[t]) == CallerKey(k) && s.tasks[t].point == Finished(v)
    case _ => true
  }

  ghost predicate Inv(s: State) {
    && EntriesOk(s)
    && (forall t <- s.tasks :: TaskOk(s, t))
    && (forall c <- s.callers :: CallerOk(s, c))
  }

  /** A caller's turn that leaves the tasks alone. */
  lemma TurnKeeps(s: State, c: CallerId, k: Caller)
    requires Inv(s) && CallerOk(s.(callers := s.callers[c := k]), c)
    ensures Inv(s.(callers := s.callers[c := k]))
  {
    var t := s.(callers := s.callers[c := k]);
    forall c0 <- t.callers ensures CallerOk(t, c0) {
      if c0 != c { assert CallerOk(s, c0); }
    }
    forall x <- t.tasks ensures TaskOk(t, x) { assert TaskOk(s, x); }
  }

  /** A new task is registered under its key in the step that creates it. */
  lemma StartKeeps(s: State, c: CallerId, candidate: TaskId)
    requires Inv(s) && c in s.callers && s.callers[c].point.Has? && s.callers[c].point.grant.Some?
    requires CallerKey(s.callers[c]) !in s.inflight && candidate !in s.tasks
    ensures var k := s.callers[c];
            var g := k.point.grant.value;
            Inv(Turn(s, c, Waits(candidate)).(
                  inflight := s.inflight[CallerKey(k) := candidate],
                  tasks := s.tasks[candidate := Task(k.user, k.provider, g, FirstPoint(s.configured, k.provider, g))]))
  {
    hide Key, Usable;
    var k := s.callers[c];
    var g := k.point.grant.value;
    var t := Turn(s, c, Waits(candidate)).(
      inflight := s.inflight[CallerKey(k) := candidate],
      tasks := s.tasks[candidate := Task(k.user, k.provider, g, FirstPoint(s.configured, k.provider, g))]);
    forall c0 <- t.callers ensures CallerOk(t, c0) {
      assert CallerOk(s, c0);
    }
    forall x <- t.tasks ensures TaskOk(t, x) {
      if x != candidate { assert TaskOk(s, x); }
    }
  }

  /** A task's step that does not finish it. */
  lemma TaskKeeps(s: State, t: TaskId, p: TaskPoint, storage: Storage)
    requires Inv(s) && t in s.tasks && Running(s.tasks[t]) && !p.Finished? && p != Fetching
    requires p.Storing? ==> Usable(s.tasks[t].previous)
    ensures Inv(Step(s, t, p).(storage := storage))
  {
    hide Key, Usable;
    var u := Step(s, t, p).(storage := storage);
    forall c <- u.callers ensures CallerOk(u, c) { assert CallerOk(s, c); }
    forall x <- u.tasks ensures TaskOk(u, x) { assert TaskOk(s, x); }
  }

  /** Finishing takes exactly the task's own key out of the map. */
  lemma FinishKeeps(s: State, t: TaskId)
    requires Inv(s) && t in s.tasks && s.tasks[t].point.Settled?
    ensures Inv(Apply(s, Finish(t)))
  {
    hide Key, Usable;
    var u := Apply(s, Finish(t));
    assert TaskOk(s, t);
    forall c <- u.callers ensures CallerOk(u, c) { assert CallerOk(s, c); }
    forall x <- u.tasks ensures TaskOk(u, x) {
      assert TaskOk(s, x);
    }
  }

  lemma CallerStepKeeps(s: State, l: Label)
    requires Inv(s) && (l.Call? || l.Read? || l.GoOn? || l.Wake?)
    ensures Inv(Apply(s, l))
  {
    hide Key, Usable;
    var t := Apply(s, l);
    if l.c !in s.callers {
      if l.Call? { TurnKeeps(s, l.c, t.callers[l.c]); }
    } else if l.GoOn? {
      var k := s.callers[l.c];
      if k.point.Has? {
        if k.point.grant.Some? && (k.wantsGrant || Expiring(k.point.grant.value, l.now, s.leadTime)) && CallerKey(k) !in s.inflight {
          if l.candidate !in s.tasks { StartKeeps(s, l.c, l.candidate); }
        } else {
          TurnKeeps(s, l.c, t.callers[l.c]);
        }
      }
    } else if t != s {
      assert CallerOk(s, l.c);
      TurnKeeps(s, l.c, t.callers[l.c]);
    }
  }

  lemma TaskStepKeeps(s: State, l: Label)
    requires Inv(s) && (l.Respond? || l.Store? || l.Finish?) && l.t in s.tasks
    ensures Inv(Apply(s, l))
  {
    hide Key, Usable;
    var p := s.tasks[l.t].point;
    assert TaskOk(s, l.t);
    if l.Respond? && p == Fetching {
      TaskKeeps(s, l.t, Responded(l.answer), s.storage);
    } else if l.Store? && (p.Storing? || p.Purging? || p.Emitting?) {
      TaskKeeps(s, l.t, Apply(s, l).tasks[l.t].point, Apply(s, l).storage);
    } else if l.Finish? && p.Settled? {
      FinishKeeps(s, l.t);
    }
  }

  lemma StepKeeps(s: State, l: Label)
    requires Inv(s)
    ensures Inv(Apply(s, l))
  {
    hide Key, Usable;
    if l.Elsewhere? {
      var t := Apply(s, l);
      forall c <- t.callers ensures CallerOk(t, c) { assert CallerOk(s, c); }
      forall x <- t.tasks ensures TaskOk(t, x) { assert TaskOk(s, x); }
    } else if l.Respond? || l.Store? || l.Finish? {
      if l.t in s.tasks { TaskStepKeeps(s, l); }
    } else {
      CallerStepKeeps(s, l);
    }
  }

  lemma {:induction false} AlwaysInv(configured: set<Text>, leadTime: int, ls: seq<Label>)
    ensures Inv(After(configured, leadTime, ls))
  {
    if ls == [] {
    } else {
      AlwaysInv(configured, leadTime, Init(ls));
      StepKeeps(After(configured, leadTime, Init(ls)), Last(ls));
    }
  }

  // ---- what holds of every run ----

  /** The map holds exactly the keys of the running tasks, and no two run under one key. */
  lemma SingleFlight(configured: set<Text>, leadTime: int, ls: seq<Label>)
    ensures var s := After(configured, leadTime, ls);
            && s.inflight.Keys == (set t | t in s.tasks && Running(s.tasks[t]) :: TaskKey(s.tasks[t]))
            && forall t, u | t in s.tasks && u in s.tasks && Running(s.tasks[t]) && Running(s.tasks[u])
                             && TaskKey(s.tasks[t]) == TaskKey(s.tasks[u]) :: t == u
  {
    hide Key;
    AlwaysInv(configured, leadTime, ls);
    var s := After(configured, leadTime, ls);
    assert forall t <- s.tasks :: TaskOk(s, t);
    var keys := set t | t in s.tasks && Running(s.tasks[t]) :: TaskKey(s.tasks[t]);
    forall k ensures k in s.inflight.Keys <==> k in keys {
      if k in s.inflight { assert s.inflight[k] in s.tasks; }
    }
  }

  /** Two callers that joined one task and were answered were answered alike. */
  lemma JoinedCallersAgree(configured: set<Text>, leadTime: int, ls: seq<Label>, c: CallerId, d: CallerId)
    requires var s := After(configured, leadTime, ls);
             && c in s.callers && d in s.callers && s.callers[c].point.AnsweredBy? && s.callers[d].point.AnsweredBy?
             && s.callers[c].point.task == s.callers[d].point.task
    ensures var s := After(configured, leadTime, ls); s.callers[c].point.value == s.callers[d].point.value
  {
    AlwaysInv(configured, leadTime, ls);
    var s := After(configured, leadTime, ls);
    assert CallerOk(s, c) && CallerOk(s, d);
  }

  /** Everybody asks for provider names without a colon. */
  predicate PlainCalls(ls: seq<Label>) {
    forall l <- ls :: l.Call? ==> Ids.COLON !in l.provider
  }

  ghost predicate PlainNames(s: State) {
    && (forall c <- s.callers :: Ids.COLON !in s.callers[c].provider)
    && (forall t <- s.tasks :: Ids.COLON !in s.tasks[t].provider)
  }

  lemma StepKeepsPlainNames(s: State, l: Label)
    requires PlainNames(s) && (l.Call? ==> Ids.COLON !in l.provider)
    ensures PlainNames(Apply(s, l))
  {
    hide Usable, Expiring, FirstPoint, Responded, Next, TaskKey, CallerKey;
  }

  lemma {:induction false} CallsArePlain(configured: set<Text>, leadTime: int, ls: seq<Label>)
    requires PlainCalls(ls)
    ensures PlainNames(After(configured, leadTime, ls))
  {
    if ls == [] {
    } else {
      assert Last(ls) in ls && forall l <- Init(ls) :: l in ls;
      CallsArePlain(configured, leadTime, Init(ls));
      StepKeepsPlainNames(After(configured, leadTime, Init(ls)), Last(ls));
    }
  }

  /** With colon-free provider names a caller waits for, and gets, its own user's and provider's refresh. */
  lemma JoinedTaskIsOwn(configured: set<Text>, leadTime: int, ls: seq<Label>, c: CallerId)
    requires PlainCalls(ls)
    requires var s := After(configured, leadTime, ls);
             c in s.callers && (s.callers[c].point.Waits? || s.callers[c].point.AnsweredBy?)
    ensures var s := After(configured, leadTime, ls);
            var t := s.callers[c].point.task;
            t in s.tasks && s.tasks[t].user == s.callers[c].user && s.tasks[t].provider == s.callers[c].provider
  {
    AlwaysInv(configured, leadTime, ls);
    CallsArePlain(configured, leadTime, ls);
    var s := After(configured, leadTime, ls);
    assert CallerOk(s, c);
    var t := s.tasks[s.callers[c].point.task];
    PlainKeysDistinct(t.user, t.provider, s.callers[c].user, s.callers[c].provider);
  }

  // ---- what a caller is answered ----

  lemma StepKeepsLeadTime(s: State, l: Label)
    ensures Apply(s, l).leadTime == s.leadTime
  {
    hide Usable, Expiring, FirstPoint, Responded, Next, TaskKey, CallerKey;
  }

  lemma {:induction false} LeadTimeStays(configured: set<Text>, leadTime: int, ls: seq<Label>)
    ensures After(configured, leadTime, ls).leadTime == leadTime
  {
    hide Apply;
    if ls == [] {
    } else {
      LeadTimeStays(configured, leadTime, Init(ls));
      StepKeepsLeadTime(After(configured, leadTime, Init(ls)), Last(ls));
    }
  }

  /** The grant does not run out within the lead time. */
  predicate Lasts(g: Grant, now: int, leadTime: int) {
    match g.expiresAt
    case None => true
    case Some(end) => now + leadTime <= end
  }

  /** The step answers the caller on the spot with the grant it had read. */
  predicate AnswersAtOnce(s: State, l: Label, c: CallerId, g: Grant, leadTime: int) {
    && l.GoOn? && l.c == c && c in s.callers && !s.callers[c].wantsGrant
    && s.callers[c].point == Has(Some(g)) && Lasts(g, l.now, leadTime)
  }

  lemma OnlyLastingIsAnswered(s: State, l: Label, c: CallerId, g: Grant)
    requires var t := Apply(s, l); c in t.callers && t.callers[c].point == Answered(Got(g))
    ensures AnswersAtOnce(s, l, c, g, s.leadTime) || (c in s.callers && s.callers[c].point == Answered(Got(g)))
  {
    hide Usable, FirstPoint, Responded, Next, TaskKey, CallerKey;
  }

  /** A grant that a caller gets without a refresh did not run out within the lead time when the caller was answered. */
  lemma {:induction false} AnsweredGrantLasts(configured: set<Text>, leadTime: int, ls: seq<Label>, c: CallerId, g: Grant) returns (n: nat)
    requires var s := After(configured, leadTime, ls); c in s.callers && s.callers[c].point == Answered(Got(g))
    ensures n < |ls| && AnswersAtOnce(After(configured, leadTime, ls[..n]), ls[n], c, g, leadTime)
  {
    hide Apply, AnswersAtOnce, Key;
    if ls == [] {
      assert false;
    } else {
      var before := Init(ls);
      OnlyLastingIsAnswered(After(configured, leadTime, before), Last(ls), c, g);
      LeadTimeStays(configured, leadTime, before);
      if AnswersAtOnce(After(configured, leadTime, before), Last(ls), c, g, leadTime) {
        n := |before|;
        assert ls[..n] == before;
      } else {
        n := AnsweredGrantLasts(configured, leadTime, before, c, g);
        assert before[..n] == ls[..n];
      }
    }
  }

  /**
   A caller goes on with what it has read: without a grant it gets nothing; getValidToken gets a
   grant that lasts at once; in every other case the caller waits for a running task of its key.
   */
  lemma GoOnIff(configured: set<Text>, leadTime: int, ls: seq<Label>, c: CallerId, now: int, candidate: TaskId)
    requires var s := After(configured, leadTime, ls); c in s.callers && s.callers[c].point.Has? && candidate !in s.tasks
    ensures var s, t := After(configured, leadTime, ls), Apply(After(configured, leadTime, ls), GoOn(c, now, candidate));
            var k, p := s.callers[c], t.callers[c].point;
            && t.storage == s.storage
            && match k.point.grant
               case None => p == Answered(Null)
               case Some(g) =>
                 if !k.wantsGrant && Lasts(g, now, leadTime) then p == Answered(Got(g)) && t.tasks == s.tasks
                 else p.Waits? && p.task in t.tasks && Running(t.tasks[p.task]) && TaskKey(t.tasks[p.task]) == CallerKey(k)
  {
    AlwaysInv(configured, leadTime, ls);
    LeadTimeStays(configured, leadTime, ls);
    hide Key, Usable, After;
  }

  // ---- what a refresh stores ----

  /** The step stores this task's grant: a refresh token is in it, a usable one unless the answer's was empty. */
  predicate StoresGrant(s: State, l: Label, k: (Text, Text), g: Grant) {
    && l.Store? && l.t in s.tasks && s.tasks[l.t].point.Storing?
    && k == (s.tasks[l.t].user, s.tasks[l.t].provider)
    && g == Next(s.tasks[l.t].point.parsed, s.tasks[l.t].previous)
    && g.refreshToken.Some? && (Usable(g) <==> s.tasks[l.t].point.parsed.refreshToken != Some([]))
  }

  /** What the services' own steps leave in the storage was there before or is stored by a task, under its own user and provider. */
  lemma StoredGrantKeepsRefreshToken(configured: set<Text>, leadTime: int, ls: seq<Label>, l: Label)
    requires !l.Elsewhere?
    ensures var s, t := After(configured, leadTime, ls), Apply(After(configured, leadTime, ls), l);
            forall k <- t.storage :: (k in s.storage && t.storage[k] == s.storage[k]) || StoresGrant(s, l, k, t.storage[k])
  {
    hide Key;
    AlwaysInv(configured, leadTime, ls);
    var s := After(configured, leadTime, ls);
    if l.Store? && l.t in s.tasks {
      assert TaskOk(s, l.t);
      var k := s.tasks[l.t];
      if k.point.Storing? { RefreshTokenSurvives(k.point.parsed, k.previous); }
    }
  }

  /** The grant a task is about to store is the one the endpoint gave it. */
  lemma {:induction false} AnswerWasGiven(configured: set<Text>, leadTime: int, ls: seq<Label>, t: TaskId) returns (n: nat)
    requires var s := After(configured, leadTime, ls); t in s.tasks && s.tasks[t].point.Storing?
    ensures n < |ls| && ls[n] == Respond(t, Parsed(After(configured, leadTime, ls).tasks[t].point.parsed))
  {
    hide Key, Usable, Next;
    if ls == [] {
      assert false;
    } else {
      hide Apply;
      var s, l := After(configured, leadTime, Init(ls)), Last(ls);
      OnlyAnswersAreStored(s, l, t);
      if t in s.tasks && s.tasks[t].point.Storing? {
        n := AnswerWasGiven(configured, leadTime, Init(ls), t);
      } else {
        n := |ls| - 1;
      }
    }
  }

  lemma OnlyAnswersAreStored(s: State, l: Label, t: TaskId)
    requires t in Apply(s, l).tasks && Apply(s, l).tasks[t].point.Storing?
    ensures var p := Apply(s, l).tasks[t].point;
            if t in s.tasks && s.tasks[t].point.Storing? then s.tasks[t].point == p else l == Respond(t, Parsed(p.parsed))
  {
    hide Usable, Next, Expiring, TaskKey, CallerKey;
  }

  // ---- a refresh that nothing disturbs ----

  lemma Play(configured: set<Text>, leadTime: int, ls: seq<Label>, l: Label) returns (more: seq<Label>)
    ensures After(configured, leadTime, more) == Apply(After(configured, leadTime, ls), l)
  {
    more := ls + [l];
    assert Init(more) == ls;
  }

  /** A caller nobody knows, with a grant in the storage and no refresh of its key under way. */
  predicate MayRefresh(s: State, c: CallerId, user: Text, provider: Text, task: TaskId) {
    c !in s.callers && task !in s.tasks && Key(user, provider) !in s.inflight && (user, provider) in s.storage
  }

  lemma StorageIsRead(configured: set<Text>, leadTime: int, before: seq<Label>, c: CallerId, user: Text, provider: Text, wantsGrant: bool)
    returns (ls: seq<Label>)
    requires c !in After(configured, leadTime, before).callers
    ensures var s := After(configured, leadTime, before);
            After(configured, leadTime, ls) ==
            s.(callers := s.callers[c := Caller(user, provider, wantsGrant,
                 Has(if (user, provider) in s.storage then Some(s.storage[(user, provider)]) else None))])
  {
    var s := After(configured, leadTime, before);
    var asked := s.callers[c := Caller(user, provider, wantsGrant, Asked)];
    ls := Play(configured, leadTime, before, Call(c, user, provider, wantsGrant));
    hide After;
    assert After(configured, leadTime, ls) == s.(callers := asked);
    ls := Play(configured, leadTime, ls, Read(c));
  }

  /** Without a stored grant both calls answer null, and nothing else happens. */
  lemma UnknownAlone(configured: set<Text>, leadTime: int, before: seq<Label>, c: CallerId, user: Text, provider: Text, wantsGrant: bool)
    returns (ls: seq<Label>)
    requires var s := After(configured, leadTime, before); c !in s.callers && (user, provider) !in s.storage
    ensures var s := After(configured, leadTime, before);
            After(configured, leadTime, ls) == s.(callers := s.callers[c := Caller(user, provider, wantsGrant, Answered(Null))])
  {
    hide Key, After;
    ls := StorageIsRead(configured, leadTime, before, c, user, provider, wantsGrant);
    ls := Play(configured, leadTime, ls, GoOn(c, 0, 0));
  }

  /** getValidToken answers a stored grant that lasts, and nothing else happens. */
  lemma ValidAlone(configured: set<Text>, leadTime: int, before: seq<Label>, c: CallerId, user: Text, provider: Text, now: int)
    returns (ls: seq<Label>)
    requires var s := After(configured, leadTime, before);
             c !in s.callers && (user, provider) in s.storage && Lasts(s.storage[(user, provider)], now, leadTime)
    ensures var s := After(configured, leadTime, before);
            After(configured, leadTime, ls) ==
            s.(callers := s.callers[c := Caller(user, provider, false, Answered(Got(s.storage[(user, provider)])))])
  {
    LeadTimeStays(configured, leadTime, before);
    hide Key, After;
    ls := StorageIsRead(configured, leadTime, before, c, user, provider, false);
    ls := Play(configured, leadTime, ls, GoOn(c, now, 0));
  }

  /** A refresh, or getValidToken with a grant that does not last, starts a task. */
  lemma RefreshStarts(
    configured: set<Text>, leadTime: int, before: seq<Label>, c: CallerId, user: Text, provider: Text, wantsGrant: bool, now: int, task: TaskId)
    returns (ls: seq<Label>)
    requires MayRefresh(After(configured, leadTime, before), c, user, provider, task)
    requires wantsGrant || !Lasts(After(configured, leadTime, before).storage[(user, provider)], now, leadTime)
    ensures var s := After(configured, leadTime, before);
            var g := s.storage[(user, provider)];
            After(configured, leadTime, ls) ==
            s.(callers := s.callers[c := Caller(user, provider, wantsGrant, Waits(task))],
               inflight := s.inflight[Key(user, provider) := task],
               tasks := s.tasks[task := Task(user, provider, g, FirstPoint(s.configured, provider, g))])
  {
    LeadTimeStays(configured, leadTime, before);
    hide Key, FirstPoint, After;
    ls := StorageIsRead(configured, leadTime, before, c, user, provider, wantsGrant);
    ls := Play(configured, leadTime, ls, GoOn(c, now, task));
  }

  /** The awaits of a refresh in a row. */
  lemma TaskSettles(configured: set<Text>, leadTime: int, before: seq<Label>, task: TaskId, answer: Answer, ok: bool)
    returns (ls: seq<Label>)
    requires var s := After(configured, leadTime, before);
             task in s.tasks && s.tasks[task].point == FirstPoint(s.configured, s.tasks[task].provider, s.tasks[task].previous)
    ensures var s := After(configured, leadTime, before);
            var k := s.tasks[task];
            var (result, storage) := Refreshed(s.configured, s.storage, k.user, k.provider, k.previous, answer, ok);
            After(configured, leadTime, ls) == s.(storage := storage, tasks := s.tasks[task := k.(point := Settled(result))])
  {
    hide Key, Usable, Next, After;
    ls := before;
    var s := After(configured, leadTime, before);
    if s.tasks[task].point == Fetching {
      ls := Play(configured, leadTime, ls, Respond(task, answer));
      if answer.Parsed? {
        ls := Play(configured, leadTime, ls, Store(task, ok));
      } else if answer != ParserThrew {
        ls := Play(configured, leadTime, ls, Store(task, ok));
        ls := Play(configured, leadTime, ls, Store(task, ok));
      }
    }
  }

  lemma RefreshEnds(configured: set<Text>, leadTime: int, before: seq<Label>, c: CallerId, task: TaskId, result: Result)
    returns (ls: seq<Label>)
    requires var s := After(configured, leadTime, before);
             c in s.callers && s.callers[c].point == Waits(task) && task in s.tasks && s.tasks[task].point == Settled(result)
    ensures var s, t := After(configured, leadTime, before), After(configured, leadTime, ls);
            && t.storage == s.storage && t.inflight == s.inflight - {TaskKey(s.tasks[task])}
            && t.callers == s.callers[c := s.callers[c].(point := AnsweredBy(task, result))]
  {
    hide Key, After;
    ls := Play(configured, leadTime, before, Finish(task));
    ls := Play(configured, leadTime, ls, Wake(c));
  }

  /**
   The steps of an undisturbed refresh, or of getValidToken with a grant that does not last, do
   what the refresh does in one go, whatever the endpoint answers.
   */
  lemma RefreshAlone(
    configured: set<Text>, leadTime: int, before: seq<Label>, c: CallerId, user: Text, provider: Text, wantsGrant: bool, now: int,
    task: TaskId, answer: Answer, ok: bool)
    returns (ls: seq<Label>)
    requires MayRefresh(After(configured, leadTime, before), c, user, provider, task)
    requires wantsGrant || !Lasts(After(configured, leadTime, before).storage[(user, provider)], now, leadTime)
    ensures var s, t := After(configured, leadTime, before), After(configured, leadTime, ls);
            var (result, storage) := Refreshed(s.configured, s.storage, user, provider, s.storage[(user, provider)], answer, ok);
            && t.storage == storage && t.inflight == s.inflight
            && t.callers == s.callers[c := Caller(user, provider, wantsGrant, AnsweredBy(task, result))]
  {
    hide Key, FirstPoint, Refreshed, After, Apply, Lasts;
    var s := After(configured, leadTime, before);
    ls := RefreshStarts(configured, leadTime, before, c, user, provider, wantsGrant, now, task);
    ls := TaskSettles(configured, leadTime, ls, task, answer, ok);
    var (result, _) := Refreshed(s.configured, s.storage, user, provider, s.storage[(user, provider)], answer, ok);
    ls := RefreshEnds(configured, leadTime, ls, c, task, result);
  }

  /** So an answer with an empty refresh token, which is not nullish, replaces a usable one. */
  lemma EmptyTokenIsStored(user: Text, provider: Text, previous: Grant, parsed: Grant) returns (ls: seq<Label>)
    requires Usable(previous) && parsed.refreshToken == Some([])
    ensures var s := After({provider}, 0, ls);
            && s.storage == map[(user, provider) := parsed] && !Usable(parsed)
            && s.callers == map[0 := Caller(user, provider, true, AnsweredBy(0, Got(parsed)))]
  {
    hide Key;
    ls := Play({provider}, 0, [], Elsewhere(user, provider, Some(previous)));
    var s := After({provider}, 0, ls);
    assert s == Initial({provider}, 0).(storage := map[(user, provider) := previous]);
    ls := RefreshAlone({provider}, 0, ls, 0, user, provider, true, 0, 0, Parsed(parsed), true);
  }
}
