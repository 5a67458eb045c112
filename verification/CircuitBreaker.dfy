/**
 The circuit breaker with a rolling failure window. Calls overlap, so a call is two steps:
 its start, which may be refused, and its outcome.
 */
module CircuitBreaker {
  import opened Utf16

  datatype CircuitState = Closed | Open | HalfOpen

  datatype Options = Options(failureThreshold: nat, windowMs: int, halfOpenAfterMs: int)

  datatype Breaker = Breaker(state: CircuitState, failures: seq<int>, openedAt: int)

  /** The failures not older than the window at time t. */
  function InWindow(failures: seq<int>, t: int, o: Options): seq<int> {
    if failures == [] then []
    else InWindow(Init(failures), t, o) + if Last(failures) >= t - o.windowMs then [Last(failures)] else []
  }

  /** How many of the failures are no older than the window at time t, counted one by one. */
  function Recent(failures: seq<int>, t: int, o: Options): nat {
    |set i | 0 <= i < |failures| && failures[i] >= t - o.windowMs|
  }

  lemma {:induction false} InWindowCounts(failures: seq<int>, t: int, o: Options)
    ensures |InWindow(failures, t, o)| == Recent(failures, t, o)
  {
    var all := set i | 0 <= i < |failures| && failures[i] >= t - o.windowMs;
    if failures == [] {
      assert all == {};
    } else {
      var n := |failures| - 1;
      InWindowCounts(Init(failures), t, o);
      var before := set i | 0 <= i < n && Init(failures)[i] >= t - o.windowMs;
      assert all == before + if failures[n] >= t - o.windowMs then {n} else {};
    }
  }

  lemma CountOneMore(h: seq<int>, last: int, x: int)
    ensures multiset(h + [last])[x] == multiset(h)[x] + if x == last then 1 else 0
  {
  }

  /** Pruning keeps each failure as often as it is there, and none that is too old. */
  lemma {:induction false} InWindowKeeps(failures: seq<int>, t: int, o: Options, x: int)
    ensures multiset(InWindow(failures, t, o))[x] == if x >= t - o.windowMs then multiset(failures)[x] else 0
  {
    if failures == [] {
    } else {
      var before, last := Init(failures), Last(failures);
      var kept := InWindow(before, t, o);
      assert InWindow(failures, t, o) == if last >= t - o.windowMs then kept + [last] else kept;
      assert failures == before + [last];
      InWindowKeeps(before, t, o, x);
      hide InWindow;
      CountOneMore(before, last, x);
      CountOneMore(kept, last, x);
    }
  }

  function Due(b: Breaker, t: int, o: Options): Breaker {
    if b.state == Open && t - b.openedAt >= o.halfOpenAfterMs then b.(state := HalfOpen) else b
  }

  function Success(b: Breaker): Breaker {
    if b.state == HalfOpen then Breaker(Closed, [], b.openedAt) else b
  }

  /** A call that started at `start` fails at `now`. */
  function Failure(b: Breaker, start: int, now: int, o: Options): Breaker {
    if b.state == HalfOpen then b.(state := Open, openedAt := start)
    else
      var failures := InWindow(b.failures + [now], now, o);
      if |failures| >= o.failureThreshold then Breaker(Open, failures, now) else b.(failures := failures)
  }

  class Circuit {
    const options: Options
    var state: CircuitState
    var failures: seq<int>
    var openedAt: int

    constructor (options: Options)
      ensures this.options == options && Model() == Breaker(Closed, [], 0)
    {
      this.options := options;
      state, failures, openedAt := Closed, [], 0;
    }

    function Model(): Breaker
      reads this
    {
      Breaker(state, failures, openedAt)
    }

    method PruneOldFailures(t: int)
      modifies this`failures
      ensures failures == InWindow(old(failures), t, options)
      ensures |failures| == Recent(old(failures), t, options)
      ensures forall x :: multiset(failures)[x] == if x >= t - options.windowMs then multiset(old(failures))[x] else 0
    {
      var kept := [];
      for i := 0 to |failures|
        invariant failures == old(failures)
        invariant kept == InWindow(failures[..i], t, options)
      {
        TakeOneMore(failures, i);
        if failures[i] >= t - options.windowMs { kept := kept + [failures[i]]; }
      }
      assert failures[..|failures|] == failures;
      InWindowCounts(failures, t, options);
      forall x ensures multiset(kept)[x] == if x >= t - options.windowMs then multiset(failures)[x] else 0 {
        InWindowKeeps(failures, t, options, x);
      }
      failures := kept;
    }

    method TransitionToHalfOpenIfDue(t: int)
      modifies this`state
      ensures Model() == Due(old(Model()), t, options)
      ensures state == if old(state) == Open && t - openedAt >= options.halfOpenAfterMs then HalfOpen else old(state)
    {
      if state == Open && t - openedAt >= options.halfOpenAfterMs { state := HalfOpen; }
    }

    /** The state as it is reported, which first lets a pause run out. */
    method State(t: int) returns (reported: CircuitState)
      modifies this`state
      ensures Model() == Due(old(Model()), t, options) && reported == state
    {
      TransitionToHalfOpenIfDue(t);
      return state;
    }

    /** exec up to its await: false is CircuitOpenError. */
    method Start(t: int) returns (dispatched: bool)
      modifies this
      ensures Model() == Due(old(Model()), t, options)
      ensures dispatched <==> Model().state != Open
    {
      TransitionToHalfOpenIfDue(t);
      dispatched := state != Open;
    }

    method Succeeded()
      modifies this
      ensures Model() == Success(old(Model()))
      ensures if old(state) == HalfOpen then state == Closed && failures == [] else state == old(state) && failures == old(failures)
    {
      if state == HalfOpen { state, failures := Closed, []; }
    }

    method Failed(start: int, now: int)
      modifies this
      ensures Model() == Failure(old(Model()), start, now, options)
      ensures old(state) == HalfOpen ==> state == Open && openedAt == start && failures == old(failures)
      ensures old(state) != HalfOpen ==>
                && |failures| == Recent(old(failures) + [now], now, options)
                && state == (if |failures| >= options.failureThreshold then Open else old(state))
                && openedAt == (if |failures| >= options.failureThreshold then now else old(openedAt))
    {
      if state == HalfOpen {
        state, openedAt := Open, start;
        return;
      }
      failures := failures + [now];
      PruneOldFailures(now);
      if |failures| >= options.failureThreshold { state, openedAt := Open, now; }
    }

    method Reset()
      modifies this
      ensures Model() == Breaker(Closed, [], old(openedAt))
    {
      state, failures := Closed, [];
    }
  }

  // ---- overlapping calls ----

  type CallId = nat

  /** `history` holds every counted failure since the breaker last closed, never pruned. */
  datatype State = State(b: Breaker, clock: int, calls: map<CallId, int>, history: seq<int>)

  function Initial(clock: int): State {
    State(Breaker(Closed, [], 0), clock, map[], [])
  }

  datatype Label =
    | Tick(ms: nat)
    | Begin(c: CallId)
    | Succeed(c: CallId)
    | Fail(c: CallId)
    | Ask
    | ResetAll

  predicate Dispatches(s: State, c: CallId, o: Options) {
    c !in s.calls && Due(s.b, s.clock, o).state != Open
  }

  function Apply(s: State, l: Label, o: Options): State {
    match l
    case Tick(ms) => s.(clock := s.clock + ms)
    case Begin(c) =>
      var b := Due(s.b, s.clock, o);
      if Dispatches(s, c, o) then s.(b := b, calls := s.calls[c := s.clock]) else s.(b := b)
    case Succeed(c) =>
      if c !in s.calls then s
      else s.(b := Success(s.b), calls := s.calls - {c}, history := if s.b.state == HalfOpen then [] else s.history)
    case Fail(c) =>
      if c !in s.calls then s
      else s.(b := Failure(s.b, s.calls[c], s.clock, o), calls := s.calls - {c},
              history := if s.b.state == HalfOpen then s.history else s.history + [s.clock])
    case Ask => s.(b := Due(s.b, s.clock, o))
    case ResetAll => s.(b := Breaker(Closed, [], s.b.openedAt), history := [])
  }

  function Play(s: State, ls: seq<Label>, o: Options): State {
    if ls == [] then s else Apply(Play(s, Init(ls), o), Last(ls), o)
  }

  function After(clock: int, ls: seq<Label>, o: Options): State {
    Play(Initial(clock), ls, o)
  }

  /** How many counted failures since the last close lie in the window that ends at t. */
  function Count(s: State, t: int, o: Options): nat {
    Recent(s.history, t, o)
  }

  ghost predicate Ascending(h: seq<int>, bound: int) {
    (forall i, j | 0 <= i < j < |h| :: h[i] <= h[j]) && (forall i | 0 <= i < |h| :: h[i] <= bound)
  }

  /** The pruned list is the full history seen through the window of its last failure. */
  ghost predicate Inv(s: State, o: Options) {
    && Ascending(s.history, s.clock)
    && s.b.failures == (if s.history == [] then [] else InWindow(s.history, Last(s.history), o))
    && (s.b.state == Closed ==> |s.b.failures| < o.failureThreshold)
    && (forall c <- s.calls :: s.calls[c] <= s.clock)
    && (s.b.state == Open ==> s.b.openedAt <= s.clock)
    && (s.b.state == HalfOpen ==> s.clock - s.b.openedAt >= o.halfOpenAfterMs)
  }

  /** Pruning at an earlier time first changes nothing. */
  lemma {:induction false} PruneTwice(h: seq<int>, t: int, u: int, o: Options)
    requires t <= u
    ensures InWindow(InWindow(h, t, o), u, o) == InWindow(h, u, o)
  {
    if h == [] {
    } else {
      PruneTwice(Init(h), t, u, o);
      var kept := InWindow(Init(h), t, o);
      assert Init(kept + [Last(h)]) == kept;
      Nothing(kept);
    }
  }

  lemma PruneAfterAppend(h: seq<int>, now: int, o: Options)
    requires h == [] || Last(h) <= now
    ensures var pruned := if h == [] then [] else InWindow(h, Last(h), o);
            InWindow(pruned + [now], now, o) == InWindow(h + [now], now, o)
  {
    var pruned := if h == [] then [] else InWindow(h, Last(h), o);
    if h != [] { PruneTwice(h, Last(h), now, o); }
    assert Init(pruned + [now]) == pruned && Init(h + [now]) == h;
  }

  lemma StepKeeps(s: State, l: Label, o: Options)
    requires Inv(s, o) && o.failureThreshold >= 1
    ensures Inv(Apply(s, l, o), o)
  {
    hide InWindow;
    if l.Fail? && l.c in s.calls && s.b.state != HalfOpen { PruneAfterAppend(s.history, s.clock, o); }
  }

  lemma {:induction false} AlwaysInv(clock: int, ls: seq<Label>, o: Options)
    requires o.failureThreshold >= 1
    ensures Inv(After(clock, ls, o), o)
  {
    if ls == [] {
    } else {
      AlwaysInv(clock, Init(ls), o);
      StepKeeps(After(clock, Init(ls), o), Last(ls), o);
    }
  }

  // ---- what holds of every run ----

  /**
   A counted failure leaves the list as long as the full count of the last window, and opens
   the breaker exactly when that count has reached the threshold.
   */
  lemma OpensAtThreshold(s: State, o: Options, c: CallId)
    requires Inv(s, o) && c in s.calls && s.b.state != HalfOpen
    ensures var t := Apply(s, Fail(c), o);
            var n := Count(t, s.clock, o);
            && |t.b.failures| == n
            && t.b.state == (if n >= o.failureThreshold then Open else s.b.state)
            && t.b.openedAt == (if n >= o.failureThreshold then s.clock else s.b.openedAt)
  {
    hide InWindow, Recent;
    PruneAfterAppend(s.history, s.clock, o);
    InWindowCounts(s.history + [s.clock], s.clock, o);
  }

  /** A closed breaker has fewer failures in the window than the threshold. */
  lemma ClosedMeansFew(clock: int, ls: seq<Label>, o: Options)
    requires o.failureThreshold >= 1 && After(clock, ls, o).b.state == Closed
    ensures Count(After(clock, ls, o), After(clock, ls, o).clock, o) < o.failureThreshold
  {
    var s := After(clock, ls, o);
    AlwaysInv(clock, ls, o);
    InWindowCounts(s.history, s.clock, o);
    if s.history != [] { LaterWindowIsSmaller(s.history, Last(s.history), s.clock, o); }
  }

  lemma {:induction false} LaterWindowIsSmaller(h: seq<int>, t: int, u: int, o: Options)
    requires t <= u
    ensures |InWindow(h, u, o)| <= |InWindow(h, t, o)|
  {
    if h == [] {
    } else {
      LaterWindowIsSmaller(Init(h), t, u, o);
    }
  }

  /** In every run, calls are dispatched exactly while the breaker is closed or halfOpenAfterMs has passed since it opened. */
  lemma DispatchesIff(clock: int, ls: seq<Label>, o: Options, c: CallId)
    requires o.failureThreshold >= 1 && c !in After(clock, ls, o).calls
    ensures var s := After(clock, ls, o);
            Dispatches(s, c, o) <==> s.b.state == Closed || s.clock - s.b.openedAt >= o.halfOpenAfterMs
  {
    AlwaysInv(clock, ls, o);
  }

  /** The reported state is open exactly when a call would be refused. */
  lemma AskTellsRefusal(s: State, o: Options, c: CallId)
    requires c !in s.calls
    ensures Apply(s, Ask, o).b.state == Open <==> !Dispatches(s, c, o)
    ensures Apply(s, Ask, o).history == s.history && Apply(s, Ask, o).calls == s.calls
  {
  }

  /**
   Once a counted failure has opened the breaker, no call is dispatched for halfOpenAfterMs,
   whatever other calls do, unless an operator resets it.
   */
  lemma {:induction false} StaysOpen(s: State, ls: seq<Label>, o: Options, since: int)
    requires s.b.state == Open && s.b.openedAt >= since && s.clock >= since
    requires forall l <- ls :: l != ResetAll
    requires Play(s, ls, o).clock - since < o.halfOpenAfterMs
    ensures Play(s, ls, o).b.state == Open && Play(s, ls, o).b.openedAt >= since
    ensures forall c :: !Dispatches(Play(s, ls, o), c, o)
  {
    if ls == [] {
    } else {
      ClockAdvances(s, Init(ls), o);
      ClockAdvances(s, ls, o);
      assert Last(ls) in ls && forall l <- Init(ls) :: l in ls;
      StaysOpen(s, Init(ls), o, since);
    }
  }

  lemma {:induction false} ClockAdvances(s: State, ls: seq<Label>, o: Options)
    ensures Play(s, ls, o).clock >= s.clock
    ensures ls != [] ==> Play(s, ls, o).clock >= Play(s, Init(ls), o).clock
  {
    if ls == [] {
    } else {
      ClockAdvances(s, Init(ls), o);
    }
  }

  function Fails(ls: seq<Label>): nat {
    if ls == [] then 0 else Fails(Init(ls)) + if Last(ls).Fail? then 1 else 0
  }

  /** The breaker is closed and knows of no failure. */
  predicate Clean(s: State) {
    s.b.state == Closed && s.b.failures == [] && s.history == []
  }

  lemma {:induction false} WindowIsShorter(h: seq<int>, t: int, o: Options)
    ensures |InWindow(h, t, o)| <= |h|
  {
    if h == [] {
    } else {
      WindowIsShorter(Init(h), t, o);
    }
  }

  /** From a clean start it takes a threshold of failures to open the breaker. */
  lemma {:induction false} CleanStaysClosed(s: State, ls: seq<Label>, o: Options)
    requires Clean(s) && Fails(ls) < o.failureThreshold
    ensures Play(s, ls, o).b.state == Closed && |Play(s, ls, o).b.failures| <= Fails(ls)
  {
    hide InWindow;
    if ls == [] {
    } else {
      CleanStaysClosed(s, Init(ls), o);
      var before := Play(s, Init(ls), o);
      WindowIsShorter(before.b.failures + [before.clock], before.clock, o);
    }
  }

  /** A probe that succeeds closes the breaker and forgets every failure. */
  lemma ClosingForgets(s: State, c: CallId, ls: seq<Label>, o: Options)
    requires c in s.calls && s.b.state == HalfOpen && Fails(ls) < o.failureThreshold
    ensures Play(Apply(s, Succeed(c), o), ls, o).b.state == Closed
  {
    CleanStaysClosed(Apply(s, Succeed(c), o), ls, o);
  }

  /** So does a reset, in any state. */
  lemma ResetForgets(s: State, ls: seq<Label>, o: Options)
    requires Fails(ls) < o.failureThreshold
    ensures Play(Apply(s, ResetAll, o), ls, o).b.state == Closed
  {
    CleanStaysClosed(Apply(s, ResetAll, o), ls, o);
  }

  /** Reopened by a probe that started at `start`, and left alone by failures since. */
  ghost predicate PausedSince(s: State, start: int, o: Options) {
    s.b.openedAt == start && (s.b.state != Open ==> s.clock - start >= o.halfOpenAfterMs)
  }

  lemma {:induction false} StaysPaused(s: State, ls: seq<Label>, o: Options, start: int)
    requires PausedSince(s, start, o) && forall l <- ls :: !l.Fail? && l != ResetAll
    ensures PausedSince(Play(s, ls, o), start, o)
  {
    if ls == [] {
    } else {
      assert Last(ls) in ls && forall l <- Init(ls) :: l in ls;
      StaysPaused(s, Init(ls), o, start);
    }
  }

  /**
   After a failed probe the pause is counted from the probe's start, not from its failure: as
   long as no other call fails and nobody resets, a call is refused exactly while
   halfOpenAfterMs has not passed since that start.
   */
  lemma ReopenedRefusesIff(s: State, c: CallId, o: Options, ls: seq<Label>, d: CallId)
    requires c in s.calls && s.b.state == HalfOpen
    requires forall l <- ls :: !l.Fail? && l != ResetAll
    requires d !in Play(Apply(s, Fail(c), o), ls, o).calls
    ensures var t := Play(Apply(s, Fail(c), o), ls, o);
            Dispatches(t, d, o) <==> t.clock - s.calls[c] >= o.halfOpenAfterMs
  {
    StaysPaused(Apply(s, Fail(c), o), ls, o, s.calls[c]);
  }
}
