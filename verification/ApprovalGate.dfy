/**
 The Statuspage approval gate as a transition system over one incident's items; the last
 section puts incidents side by side. A request advances by one awaited call at a time and
 may stop at any of them. `trace` is history: the audit rows as they were really inserted,
 interleaved with the calls that publish.
 */
module ApprovalGate {
  import opened Utf16
  import opened Wrappers
  import opened AuditTrail

  type RequestId = nat

  datatype Status = PENDING_APPROVAL | PUBLISHED | REJECTED

  /** An update of a missing item creates one without a body. */
  datatype Item = Item(status: Status, body: Option<Text>)

  datatype Entry =
    | Inserted(row: Row)
    | IncidentCreated(draftId: DraftId, body: Text)

  /** `ms` is when the approval row was written, be it inserted or dropped because its key was taken. */
  datatype Point =
    | Begun
    | Loaded(body: Text)
    | Logged(body: Text, ms: nat)
    | Verified(body: Text, ms: nat)
    | Created(body: Text, ms: nat, statuspageId: nat)
    | Recorded(body: Text, ms: nat, statuspageId: nat)
    | Done
    | Failed

  datatype Request =
    | Create(user: UserId, body: Text, stored: Option<DraftId>, created: bool)
    | Approve(user: UserId, draftId: DraftId, point: Point)
    | Reject(user: UserId, draftId: DraftId, updated: bool, rejected: bool)

  datatype State = State(
    clock: nat,
    drafts: map<DraftId, Item>,
    trail: Trail,
    requests: map<RequestId, Request>,
    trace: seq<Entry>)

  const NEW_INCIDENT := State(0, map[], map[], map[], [])

  datatype Label =
    | Tick(ms: nat)
    | Arrive(r: RequestId, request: Request)
    | Advance(r: RequestId, answer: nat)
    | OtherAudit(user: UserId, kind: nat)

  predicate Fresh(q: Request) {
    match q
    case Create(_, _, stored, finished) => stored.None? && !finished
    case Approve(_, _, p) => p == Begun
    case Reject(_, _, updated, finished) => !updated && !finished
  }

  function Audit(s: State, row: Row): State {
    s.(trail := Written(s.trail, s.clock, row),
       trace := if Taken(s.trail, s.clock, row) then s.trace else s.trace + [Inserted(row)])
  }

  function Apply(s: State, l: Label, sha: Text -> Digest): State {
    match l
    case Tick(ms) => s.(clock := s.clock + ms)
    case Arrive(r, q) => if r in s.requests || !Fresh(q) then s else s.(requests := s.requests[r := q])
    case OtherAudit(user, kind) => Audit(s, OtherRow(user, kind))
    case Advance(r, answer) =>
      if r !in s.requests then s
      else
        match s.requests[r]
        case Create(_, _, _, _) => AdvanceCreate(s, r, sha)
        case Approve(_, _, _) => AdvanceApprove(s, r, answer, sha)
        case Reject(_, _, _, _) => AdvanceReject(s, r)
  }

  function AdvanceCreate(s: State, r: RequestId, sha: Text -> Digest): State
    requires r in s.requests && s.requests[r].Create?
  {
    var q := s.requests[r];
    if q.created then s
    else if q.stored.None? then
      // the draft id is the millisecond, so a second draft in it replaces the first
      s.(drafts := s.drafts[s.clock := Item(PENDING_APPROVAL, Some(q.body))],
         requests := s.requests[r := q.(stored := Some(s.clock))])
    else
      Audit(s, CreatedRow(q.user, q.stored.value, sha(q.body))).(requests := s.requests[r := q.(created := true)])
  }

  function Go(s: State, r: RequestId, p: Point): State
    requires r in s.requests && s.requests[r].Approve?
  {
    s.(requests := s.requests[r := s.requests[r].(point := p)])
  }

  function AdvanceApprove(s: State, r: RequestId, answer: nat, sha: Text -> Digest): State
    requires r in s.requests && s.requests[r].Approve?
  {
    var q := s.requests[r];
    match q.point
    case Begun =>
      if q.draftId !in s.drafts then Go(s, r, Failed)
      else
        var item := s.drafts[q.draftId];
        if item.status != PENDING_APPROVAL || item.body.None? then Go(s, r, Failed)
        else Go(s, r, Loaded(item.body.value))
    case Loaded(body) =>
      var row := ApprovedRow(q.user, q.draftId, sha(body));
      Go(Audit(s, row), r, Logged(body, s.clock))
    case Logged(body, ms) =>
      if ApprovalKeys(s.trail) != {} then Go(s, r, Verified(body, ms)) else Go(s, r, Failed)
    case Verified(body, ms) =>
      Go(s, r, Created(body, ms, answer)).(trace := s.trace + [IncidentCreated(q.draftId, body)])
    case Created(body, ms, id) =>
      Go(Audit(s, PublishedRow(q.user, q.draftId, sha(body), id)), r, Recorded(body, ms, id))
    case Recorded(_, _, _) =>
      Go(s, r, Done).(drafts := Updated(s.drafts, q.draftId, PUBLISHED))
    case Done => s
    case Failed => s
  }

  function Updated(drafts: map<DraftId, Item>, id: DraftId, status: Status): map<DraftId, Item> {
    drafts[id := if id in drafts then drafts[id].(status := status) else Item(status, None)]
  }

  function AdvanceReject(s: State, r: RequestId): State
    requires r in s.requests && s.requests[r].Reject?
  {
    var q := s.requests[r];
    if q.rejected then s
    else if !q.updated then
      s.(drafts := Updated(s.drafts, q.draftId, REJECTED), requests := s.requests[r := q.(updated := true)])
    else
      Audit(s, RejectedRow(q.user, q.draftId)).(requests := s.requests[r := q.(rejected := true)])
  }

  function After(ls: seq<Label>, sha: Text -> Digest): State {
    if ls == [] then NEW_INCIDENT else Apply(After(Init(ls), sha), Last(ls), sha)
  }

  // ---- the invariant ----

  /** An approval row naming the draft and carrying the hash was really inserted before position n. */
  ghost predicate ApprovedBefore(trace: seq<Entry>, n: nat, draftId: DraftId, hash: Digest) {
    exists j: nat :: j < n && j < |trace| && Names(trace[j], draftId, hash)
  }

  predicate Names(e: Entry, draftId: DraftId, hash: Digest) {
    e.Inserted? && IsOwn(e.row, draftId, hash)
  }

  predicate IsOwn(row: Row, draftId: DraftId, hash: Digest) {
    row.ApprovedRow? && row.draftId == draftId && row.sha256 == hash
  }

  /** The trail holds an approval row that names the draft and carries the hash. */
  ghost predicate OwnRow(trail: Trail, draftId: DraftId, hash: Digest) {
    exists k :: k in trail && IsOwn(trail[k], draftId, hash)
  }

  /** Some approval row of the incident was inserted before position n. */
  ghost predicate SomeApprovalBefore(trace: seq<Entry>, n: nat) {
    exists j: nat :: j < n && j < |trace| && IsApproval(trace[j])
  }

  predicate IsApproval(e: Entry) {
    e.Inserted? && e.row.ApprovedRow?
  }

  predicate PastLog(p: Point) {
    p.Logged? || p.Verified? || p.Created? || p.Recorded?
  }

  ghost predicate RequestOk(s: State, q: Request) {
    q.Approve? && PastLog(q.point) ==> SortKey(q.point.ms, DraftApproved) in s.trail
  }

  predicate Publishes(e: Entry) {
    e.IncidentCreated? || e.row.PublishedRow?
  }

  /** What a publishing call, or the record of one, must have before it in the trace. */
  ghost predicate CallOk(trace: seq<Entry>, k: nat)
    requires k < |trace|
  {
    Publishes(trace[k]) ==> SomeApprovalBefore(trace, k)
  }

  /** The trail holds exactly the rows the trace shows as inserted, and every publish has an approval. */
  ghost predicate Inv(s: State) {
    && Filed(s.trail)
    && (forall k <- s.trail :: Inserted(s.trail[k]) in s.trace)
    && (forall e <- s.trace :: e.Inserted? ==> e.row in s.trail.Values)
    && (forall r <- s.requests :: RequestOk(s, s.requests[r]))
    && (forall k | 0 <= k < |s.trace| :: CallOk(s.trace, k))
    && (forall k <- s.trail :: k.action == Published ==> ApprovalKeys(s.trail) != {})
  }

  // ---- every step keeps it ----

  lemma LongerTrace(a: seq<Entry>, b: seq<Entry>)
    requires a <= b
    ensures SomeApprovalBefore(a, |a|) ==> SomeApprovalBefore(b, |a|) && SomeApprovalBefore(b, |b|)
    ensures forall k | 0 <= k < |a| :: CallOk(a, k) ==> CallOk(b, k)
  {
    if SomeApprovalBefore(a, |a|) {
      var j: nat :| j < |a| && IsApproval(a[j]);
      assert IsApproval(b[j]);
    }
    forall k | 0 <= k < |a| && CallOk(a, k) ensures CallOk(b, k) {
      if Publishes(a[k]) {
        var j: nat :| j < k && IsApproval(a[j]);
        assert IsApproval(b[j]);
      }
    }
  }

  lemma AuditKeepsRows(s: State, row: Row)
    requires Inv(s) && !Taken(s.trail, s.clock, row)
    ensures var t := Audit(s, row);
            && (forall k <- t.trail :: Inserted(t.trail[k]) in t.trace)
            && (forall e <- t.trace :: e.Inserted? ==> e.row in t.trail.Values)
  {
    hide CallOk, RequestOk;
    var t, key := Audit(s, row), SortKey(s.clock, row.Action());
    forall e <- t.trace | e.Inserted? ensures e.row in t.trail.Values {
      if e in s.trace {
        var k :| k in s.trail && s.trail[k] == e.row;
        assert t.trail[k] == e.row;
      } else {
        assert t.trail[key] == e.row;
      }
    }
  }

  lemma MoreApprovals(a: Trail, b: Trail)
    requires a.Keys <= b.Keys
    ensures ApprovalKeys(a) != {} ==> ApprovalKeys(b) != {}
  {
    if ApprovalKeys(a) != {} {
      var k :| k in ApprovalKeys(a);
      assert k in ApprovalKeys(b);
    }
  }

  lemma AuditKeepsCalls(s: State, row: Row)
    requires Inv(s) && (row.PublishedRow? ==> SomeApprovalBefore(s.trace, |s.trace|))
    ensures var t := Audit(s, row); forall k | 0 <= k < |t.trace| :: CallOk(t.trace, k)
  {
    hide SomeApprovalBefore, RequestOk;
    LongerTrace(s.trace, Audit(s, row).trace);
  }

  lemma AuditKeepsTrail(s: State, row: Row)
    requires Inv(s) && (row.PublishedRow? ==> ApprovalKeys(s.trail) != {})
    ensures var t := Audit(s, row);
            Filed(t.trail) && forall k <- t.trail :: k.action == Published ==> ApprovalKeys(t.trail) != {}
  {
    hide CallOk, RequestOk;
    MoreApprovals(s.trail, Audit(s, row).trail);
  }

  /** Writing a row, inserted or collapsed. */
  lemma AuditKeeps(s: State, row: Row)
    requires Inv(s) && (row.PublishedRow? ==> SomeApprovalBefore(s.trace, |s.trace|) && ApprovalKeys(s.trail) != {})
    ensures Inv(Audit(s, row))
  {
    var t := Audit(s, row);
    if !Taken(s.trail, s.clock, row) {
      AuditKeepsRows(s, row);
      AuditKeepsCalls(s, row);
      AuditKeepsTrail(s, row);
      hide SomeApprovalBefore, CallOk, ApprovalKeys, Filed;
    }
  }

  /** A step that leaves the trail and the trace alone only has its own request to answer for. */
  lemma RequestKeeps(s: State, r: RequestId, q: Request, drafts: map<DraftId, Item>)
    requires Inv(s) && RequestOk(s, q)
    ensures Inv(s.(requests := s.requests[r := q], drafts := drafts))
  {
    hide CallOk;
  }

  /** The approval row of an approving request is in the trail, so its consistent read finds one. */
  lemma VerifyPasses(s: State, q: Request)
    requires q.Approve? && PastLog(q.point) && SortKey(q.point.ms, DraftApproved) in s.trail
    ensures ApprovalKeys(s.trail) != {}
  {
    assert SortKey(q.point.ms, DraftApproved) in ApprovalKeys(s.trail);
  }

  /** So does the trace: whoever took the key inserted an approval row of this incident. */
  lemma SomeApprovalInserted(s: State, q: Request)
    requires Inv(s) && RequestOk(s, q) && q.Approve? && PastLog(q.point)
    ensures SomeApprovalBefore(s.trace, |s.trace|)
  {
    var key := SortKey(q.point.ms, DraftApproved);
    assert Inserted(s.trail[key]) in s.trace;
    var j :| 0 <= j < |s.trace| && s.trace[j] == Inserted(s.trail[key]);
    assert IsApproval(s.trace[j]);
  }

  lemma PublishKeeps(s: State, r: RequestId, answer: nat, sha: Text -> Digest)
    requires Inv(s) && r in s.requests && s.requests[r].Approve? && s.requests[r].point.Verified?
    ensures Inv(AdvanceApprove(s, r, answer, sha))
  {
    var q := s.requests[r];
    assert RequestOk(s, q);
    SomeApprovalInserted(s, q);
    var t := s.(trace := s.trace + [IncidentCreated(q.draftId, q.point.body)]);
    LongerTrace(s.trace, t.trace);
    hide SomeApprovalBefore;
    assert CallOk(t.trace, |s.trace|);
    assert Inv(t);
    RequestKeeps(t, r, AdvanceApprove(s, r, answer, sha).requests[r], s.drafts);
  }

  lemma ApproveKeeps(s: State, r: RequestId, answer: nat, sha: Text -> Digest)
    requires Inv(s) && r in s.requests && s.requests[r].Approve?
    ensures Inv(AdvanceApprove(s, r, answer, sha))
  {
    hide SomeApprovalBefore, CallOk, Inv;
    var t, q := AdvanceApprove(s, r, answer, sha), s.requests[r];
    assert RequestOk(s, q) by { InvRequest(s, r); }
    match q.point
    case Loaded(body) =>
      var row := ApprovedRow(q.user, q.draftId, sha(body));
      AuditKeeps(s, row);
      RequestKeeps(Audit(s, row), r, t.requests[r], s.drafts);
    case Verified(_, _) =>
      PublishKeeps(s, r, answer, sha);
    case Created(body, _, id) =>
      var row := PublishedRow(q.user, q.draftId, sha(body), id);
      SomeApprovalInserted(s, q);
      VerifyPasses(s, q);
      AuditKeeps(s, row);
      assert RequestOk(Audit(s, row), q) by { InvRequest(Audit(s, row), r); }
      RequestKeeps(Audit(s, row), r, t.requests[r], s.drafts);
    case Begun => RequestKeeps(s, r, t.requests[r], s.drafts);
    case Logged(_, _) => RequestKeeps(s, r, t.requests[r], s.drafts);
    case Recorded(_, _, _) => RequestKeeps(s, r, t.requests[r], t.drafts);
    case Done =>
    case Failed =>
  }

  lemma InvRequest(s: State, r: RequestId)
    requires Inv(s) && r in s.requests
    ensures RequestOk(s, s.requests[r])
  {
  }

  lemma StepKeeps(s: State, l: Label, sha: Text -> Digest)
    requires Inv(s)
    ensures Inv(Apply(s, l, sha))
  {
    hide SomeApprovalBefore, CallOk;
    var t := Apply(s, l, sha);
    match l
    case Tick(_) =>
    case Arrive(r, q) => if r !in s.requests && Fresh(q) { RequestKeeps(s, r, q, s.drafts); }
    case OtherAudit(user, kind) => AuditKeeps(s, OtherRow(user, kind));
    case Advance(r, answer) =>
      if r in s.requests {
        match s.requests[r]
        case Approve(_, _, _) => ApproveKeeps(s, r, answer, sha);
        case Create(user, body, stored, finished) =>
          if stored.Some? && !finished {
            var row := CreatedRow(user, stored.value, sha(body));
            AuditKeeps(s, row);
            RequestKeeps(Audit(s, row), r, t.requests[r], s.drafts);
          } else if !finished {
            RequestKeeps(s, r, t.requests[r], t.drafts);
          }
        case Reject(user, draftId, updated, finished) =>
          if updated && !finished {
            AuditKeeps(s, RejectedRow(user, draftId));
            RequestKeeps(Audit(s, RejectedRow(user, draftId)), r, t.requests[r], s.drafts);
          } else if !finished {
            RequestKeeps(s, r, t.requests[r], t.drafts);
          }
      }
  }

  lemma {:induction false} AlwaysInv(ls: seq<Label>, sha: Text -> Digest)
    ensures Inv(After(ls, sha))
  {
    if ls == [] {
    } else {
      AlwaysInv(Init(ls), sha);
      StepKeeps(After(Init(ls), sha), Last(ls), sha);
    }
  }

  // ---- what holds of every run ----

  /**
   However calls interleave, collapse and stop, no incident is published, and no publish is
   recorded, before an approval row of this incident was inserted.
   */
  lemma PublishedOnlyAfterApproval(ls: seq<Label>, sha: Text -> Digest, k: nat)
    requires k < |After(ls, sha).trace| && Publishes(After(ls, sha).trace[k])
    ensures SomeApprovalBefore(After(ls, sha).trace, k)
  {
    AlwaysInv(ls, sha);
    assert CallOk(After(ls, sha).trace, k);
  }

  /** The gate's own check never refuses a request that has written its approval, collapsed or not. */
  lemma GateNeverRefuses(ls: seq<Label>, sha: Text -> Digest, r: RequestId, answer: nat)
    requires var s := After(ls, sha); r in s.requests && s.requests[r].Approve? && s.requests[r].point.Logged?
    ensures AdvanceApprove(After(ls, sha), r, answer, sha).requests[r].point.Verified?
  {
    AlwaysInv(ls, sha);
    VerifyPasses(After(ls, sha), After(ls, sha).requests[r]);
  }

  /** The audit of published rows finds no violation in any reachable log. */
  lemma AuditIsClean(w: AuditWriter, runs: map<nat, seq<Label>>, published: seq<(nat, Row)>, sha: Text -> Digest)
    requires forall i <- runs :: w.TrailOf(i) == After(runs[i], sha).trail
    requires forall p <- published :: p.0 in runs && p.1.PublishedRow? && p.1 in w.TrailOf(p.0).Values
    ensures w.Unapproved(published) == []
  {
    forall p <- published ensures AuditTrail.Approved(w.TrailOf(p.0)) {
      AlwaysInv(runs[p.0], sha);
      var trail := w.TrailOf(p.0);
      var k :| k in trail && trail[k] == p.1;
      ApprovedIff(trail);
    }
    w.NoViolationsIff(published);
  }

  // ---- what one step does ----

  /** A request that a step does not move is as it was, or has just arrived. */
  lemma OthersStay(s: State, l: Label, r: RequestId, sha: Text -> Digest)
    requires !(l.Advance? && l.r == r && r in s.requests)
    ensures var t := Apply(s, l, sha);
            if r in s.requests then r in t.requests && t.requests[r] == s.requests[r]
            else r in t.requests ==> Fresh(t.requests[r])
  {
    hide Written, Taken, ApprovalKeys;
  }

  /** The step is an approval write for this draft and hash, and its key is free. */
  predicate InsertsOwn(s: State, l: Label, draftId: DraftId, hash: Digest, sha: Text -> Digest) {
    && l.Advance? && l.r in s.requests && s.requests[l.r].Approve? && s.requests[l.r].point.Loaded?
    && s.requests[l.r].draftId == draftId && sha(s.requests[l.r].point.body) == hash
    && SortKey(s.clock, DraftApproved) !in s.trail
  }

  /** A step adds at most one entry, and it names the draft with the hash exactly when the step inserts such a row. */
  lemma StepAdds(s: State, l: Label, draftId: DraftId, hash: Digest, sha: Text -> Digest)
    ensures var a, b := s.trace, Apply(s, l, sha).trace;
            a == b || (|b| == |a| + 1 && a == Init(b))
    ensures InsertsOwn(s, l, draftId, hash, sha) <==>
              Apply(s, l, sha).trace != s.trace && Names(Last(Apply(s, l, sha).trace), draftId, hash)
  {
    hide Written, ApprovalKeys;
  }

  lemma WhoPublishes(s: State, l: Label, sha: Text -> Digest)
    ensures var a, b := s.trace, Apply(s, l, sha).trace;
            a != b && b != [] && Last(b).IncidentCreated? ==>
              && l.Advance? && l.r in s.requests && s.requests[l.r].Approve? && s.requests[l.r].point.Verified?
              && Last(b) == IncidentCreated(s.requests[l.r].draftId, s.requests[l.r].point.body)
  {
    hide ApprovalKeys;
  }

  // ---- only pending drafts are published ----

  /** The step loads, for this request, a draft that is pending with this body. */
  predicate LoadsPending(s: State, l: Label, r: RequestId, draftId: DraftId, body: Text) {
    && l.Advance? && l.r == r && r in s.requests
    && s.requests[r].Approve? && s.requests[r].point == Begun && s.requests[r].draftId == draftId
    && draftId in s.drafts && s.drafts[draftId] == Item(PENDING_APPROVAL, Some(body))
  }

  /** The request is past its load, with this draft and body. */
  predicate Carries(s: State, r: RequestId, draftId: DraftId, body: Text) {
    && r in s.requests && s.requests[r].Approve? && s.requests[r].draftId == draftId
    && (s.requests[r].point.Loaded? || PastLog(s.requests[r].point)) && s.requests[r].point.body == body
  }

  lemma OnlyPendingIsLoaded(s: State, l: Label, r: RequestId, draftId: DraftId, body: Text, sha: Text -> Digest)
    requires Carries(Apply(s, l, sha), r, draftId, body)
    ensures LoadsPending(s, l, r, draftId, body) || Carries(s, r, draftId, body)
  {
    hide Written, Taken, ApprovalKeys, Updated;
    if l.Advance? && l.r == r && r in s.requests {
      assert s.requests[r].Approve? ==> Apply(s, l, sha) == AdvanceApprove(s, r, l.answer, sha);
    } else {
      OthersStay(s, l, r, sha);
    }
  }

  /** What a request carries it loaded from a draft that was pending then. */
  lemma {:induction false} CarriedWasPending(ls: seq<Label>, r: RequestId, draftId: DraftId, body: Text, sha: Text -> Digest) returns (n: nat)
    requires Carries(After(ls, sha), r, draftId, body)
    ensures n < |ls| && LoadsPending(After(ls[..n], sha), ls[n], r, draftId, body)
  {
    if ls == [] {
      assert false;
    } else {
      hide Apply, LoadsPending, Carries;
      var before := Init(ls);
      OnlyPendingIsLoaded(After(before, sha), Last(ls), r, draftId, body, sha);
      if LoadsPending(After(before, sha), Last(ls), r, draftId, body) {
        n := |before|;
        assert ls[..n] == before;
      } else {
        n := CarriedWasPending(before, r, draftId, body, sha);
        assert before[..n] == ls[..n];
      }
    }
  }

  /** Every incident created in a run has the body of a draft that was pending when the publishing request loaded it. */
  lemma {:induction false} PublishedWasPending(ls: seq<Label>, k: nat, sha: Text -> Digest) returns (n: nat)
    requires k < |After(ls, sha).trace| && After(ls, sha).trace[k].IncidentCreated?
    ensures n < |ls| && ls[n].Advance?
    ensures var e := After(ls, sha).trace[k]; LoadsPending(After(ls[..n], sha), ls[n], ls[n].r, e.draftId, e.body)
  {
    if ls == [] {
      assert false;
    } else {
      var before, l := Init(ls), Last(ls);
      var s := After(before, sha);
      StepAdds(s, l, 0, 0, sha);
      WhoPublishes(s, l, sha);
      hide Apply, LoadsPending;
      if k < |s.trace| {
        n := PublishedWasPending(before, k, sha);
      } else {
        var q := s.requests[l.r];
        n := CarriedWasPending(before, l.r, q.draftId, q.point.body, sha);
        assert LoadsPending(After(before[..n], sha), before[n], before[n].r, q.draftId, q.point.body) by {
          LoaderIs(After(before[..n], sha), before[n], l.r, q.draftId, q.point.body);
        }
      }
      assert before[..n] == ls[..n] && before[n] == ls[n];
    }
  }

  lemma LoaderIs(s: State, l: Label, r: RequestId, draftId: DraftId, body: Text)
    requires LoadsPending(s, l, r, draftId, body)
    ensures l.Advance? && l.r == r
  {
  }

  /** An approval of a draft that is missing or no longer pending fails, and nothing else happens. */
  lemma RefusedAlone(s: State, r: RequestId, user: UserId, draftId: DraftId, answer: nat, sha: Text -> Digest)
    requires r !in s.requests
    requires draftId !in s.drafts || s.drafts[draftId].status != PENDING_APPROVAL
    ensures Apply(Apply(s, Arrive(r, Approve(user, draftId, Begun)), sha), Advance(r, answer), sha) ==
            s.(requests := s.requests[r := Approve(user, draftId, Failed)])
  {
    hide Written, Taken, ApprovalKeys;
  }

  /** A rejection replaces the status, whatever it was, and then leaves its row. */
  lemma RejectAlone(s: State, r: RequestId, user: UserId, draftId: DraftId, sha: Text -> Digest)
    requires r !in s.requests
    ensures var t := Apply(Apply(Apply(s, Arrive(r, Reject(user, draftId, false, false)), sha), Advance(r, 0), sha), Advance(r, 0), sha);
            && t.trail == Written(s.trail, s.clock, RejectedRow(user, draftId))
            && t.drafts == s.drafts[draftId := Item(REJECTED, if draftId in s.drafts then s.drafts[draftId].body else None)]
  {
    hide Written, Taken, AdvanceApprove, AdvanceCreate;
    var s0 := Apply(s, Arrive(r, Reject(user, draftId, false, false)), sha);
    assert Apply(s0, Advance(r, 0), sha).requests[r] == Reject(user, draftId, true, false);
  }

  /** A new draft is pending under its millisecond, and then leaves its row. */
  lemma CreateAlone(s: State, r: RequestId, user: UserId, body: Text, sha: Text -> Digest)
    requires r !in s.requests
    ensures var t := Apply(Apply(Apply(s, Arrive(r, Create(user, body, None, false)), sha), Advance(r, 0), sha), Advance(r, 0), sha);
            && t.trail == Written(s.trail, s.clock, CreatedRow(user, s.clock, sha(body)))
            && t.drafts == s.drafts[s.clock := Item(PENDING_APPROVAL, Some(body))]
  {
    hide Written, Taken, AdvanceApprove, AdvanceReject;
    var s0 := Apply(s, Arrive(r, Create(user, body, None, false)), sha);
    assert Apply(s0, Advance(r, 0), sha).requests[r] == Create(user, body, Some(s.clock), false);
  }

  // ---- when a publish has an approval row of its own ----

  /** The request has loaded this draft and is about to write its approval. */
  predicate Approves(s: State, r: RequestId, draftId: DraftId, body: Text) {
    r in s.requests && s.requests[r].Approve? && s.requests[r].draftId == draftId && s.requests[r].point == Loaded(body)
  }

  /** The trail tells what the trace tells: rows are neither lost nor replaced. */
  lemma TrailTellsApproval(s: State, draftId: DraftId, hash: Digest)
    requires Inv(s)
    ensures ApprovedBefore(s.trace, |s.trace|, draftId, hash) <==> OwnRow(s.trail, draftId, hash)
  {
    if ApprovedBefore(s.trace, |s.trace|, draftId, hash) {
      var j: nat :| j < |s.trace| && Names(s.trace[j], draftId, hash);
      assert s.trace[j] in s.trace;
      var k :| k in s.trail && s.trail[k] == s.trace[j].row;
      assert IsOwn(s.trail[k], draftId, hash);
    }
    if OwnRow(s.trail, draftId, hash) {
      var k :| k in s.trail && IsOwn(s.trail[k], draftId, hash);
      var j :| 0 <= j < |s.trace| && s.trace[j] == Inserted(s.trail[k]);
      assert Names(s.trace[j], draftId, hash);
    }
  }

  lemma StepOwnIff(s: State, l: Label, draftId: DraftId, hash: Digest, sha: Text -> Digest)
    ensures var t := Apply(s, l, sha);
            ApprovedBefore(t.trace, |t.trace|, draftId, hash) <==>
              ApprovedBefore(s.trace, |s.trace|, draftId, hash) || InsertsOwn(s, l, draftId, hash, sha)
  {
    hide Names, InsertsOwn, Apply;
    var a, b := s.trace, Apply(s, l, sha).trace;
    StepAdds(s, l, draftId, hash, sha);
    if j: nat :| j < |a| && Names(a[j], draftId, hash) { assert Names(b[j], draftId, hash); }
    if j: nat :| j < |b| && Names(b[j], draftId, hash) { assert j < |a| ==> Names(a[j], draftId, hash); }
    if a != b && Names(Last(b), draftId, hash) { assert Names(b[|b| - 1], draftId, hash); }
  }

  /** Some step of `more`, taken after ls, inserts an approval row for this draft and hash. */
  ghost predicate OwnInsertedIn(ls: seq<Label>, more: seq<Label>, draftId: DraftId, hash: Digest, sha: Text -> Digest) {
    exists n :: 0 <= n < |more| && InsertsOwn(After(ls + more[..n], sha), more[n], draftId, hash, sha)
  }

  lemma OwnInsertedInit(ls: seq<Label>, more: seq<Label>, draftId: DraftId, hash: Digest, sha: Text -> Digest)
    requires more != []
    ensures OwnInsertedIn(ls, more, draftId, hash, sha) <==>
              OwnInsertedIn(ls, Init(more), draftId, hash, sha)
              || InsertsOwn(After(ls + Init(more), sha), Last(more), draftId, hash, sha)
  {
    hide InsertsOwn, After;
    var init := Init(more);
    assert forall n | 0 <= n < |init| :: init[..n] == more[..n] && init[n] == more[n];
    assert more[..|more| - 1] == init;
    if OwnInsertedIn(ls, init, draftId, hash, sha) {
      var n :| 0 <= n < |init| && InsertsOwn(After(ls + init[..n], sha), init[n], draftId, hash, sha);
      assert InsertsOwn(After(ls + more[..n], sha), more[n], draftId, hash, sha);
    }
    if OwnInsertedIn(ls, more, draftId, hash, sha) {
      var n :| 0 <= n < |more| && InsertsOwn(After(ls + more[..n], sha), more[n], draftId, hash, sha);
      if n < |init| { assert InsertsOwn(After(ls + init[..n], sha), init[n], draftId, hash, sha); }
    }
    if InsertsOwn(After(ls + init, sha), Last(more), draftId, hash, sha) {
      assert InsertsOwn(After(ls + more[..|more| - 1], sha), more[|more| - 1], draftId, hash, sha);
    }
  }

  /** Over any stretch of a run, a draft has an own row afterwards iff it had one or some approval of it found its key free. */
  lemma {:induction false} OwnRowLaterIff(ls: seq<Label>, more: seq<Label>, draftId: DraftId, hash: Digest, sha: Text -> Digest)
    ensures var s, t := After(ls, sha), After(ls + more, sha);
            ApprovedBefore(t.trace, |t.trace|, draftId, hash) <==>
              ApprovedBefore(s.trace, |s.trace|, draftId, hash) || OwnInsertedIn(ls, more, draftId, hash, sha)
  {
    hide ApprovedBefore, InsertsOwn;
    if more == [] {
      Nothing(ls);
    } else {
      OwnRowLaterIff(ls, Init(more), draftId, hash, sha);
      OwnInsertedInit(ls, more, draftId, hash, sha);
      assert Init(ls + more) == ls + Init(more) && Last(ls + more) == Last(more);
      StepOwnIff(After(ls + Init(more), sha), Last(more), draftId, hash, sha);
    }
  }

  /**
   After a request's approval write its draft has an approval row of its own exactly when the
   key of this millisecond was free or the trail already held such a row.
   */
  lemma OwnRowIff(ls: seq<Label>, r: RequestId, answer: nat, draftId: DraftId, body: Text, sha: Text -> Digest)
    requires Approves(After(ls, sha), r, draftId, body)
    ensures var s, t := After(ls, sha), After(ls + [Advance(r, answer)], sha);
            ApprovedBefore(t.trace, |t.trace|, draftId, sha(body)) <==>
              SortKey(s.clock, DraftApproved) !in s.trail || OwnRow(s.trail, draftId, sha(body))
  {
    hide ApprovedBefore, OwnRow, Apply;
    var s := After(ls, sha);
    AlwaysInv(ls, sha);
    TrailTellsApproval(s, draftId, sha(body));
    assert Init(ls + [Advance(r, answer)]) == ls;
    StepOwnIff(s, Advance(r, answer), draftId, sha(body), sha);
  }

  /** A request past its approval write stays with the draft and the body it has loaded. */
  ghost predicate HasLoaded(s: State, r: RequestId, draftId: DraftId, body: Text) {
    && r in s.requests && s.requests[r].Approve? && s.requests[r].draftId == draftId
    && (PastLog(s.requests[r].point) ==> s.requests[r].point.body == body)
    && s.requests[r].point != Begun && !s.requests[r].point.Loaded?
  }

  lemma StepKeepsLoaded(s: State, l: Label, r: RequestId, draftId: DraftId, body: Text, sha: Text -> Digest)
    requires HasLoaded(s, r, draftId, body)
    ensures HasLoaded(Apply(s, l, sha), r, draftId, body)
  {
    hide Written, Taken, ApprovalKeys, Updated, AdvanceCreate, AdvanceReject;
    if l.Advance? && l.r == r {
      assert Apply(s, l, sha) == AdvanceApprove(s, r, l.answer, sha);
    } else {
      OthersStay(s, l, r, sha);
    }
  }

  lemma {:induction false} StaysLoaded(ls: seq<Label>, more: seq<Label>, r: RequestId, draftId: DraftId, body: Text, sha: Text -> Digest)
    requires HasLoaded(After(ls, sha), r, draftId, body)
    ensures HasLoaded(After(ls + more, sha), r, draftId, body)
  {
    hide HasLoaded, Apply;
    if more == [] {
      Nothing(ls);
    } else {
      StaysLoaded(ls, Init(more), r, draftId, body, sha);
      assert Init(ls + more) == ls + Init(more) && Last(ls + more) == Last(more);
      StepKeepsLoaded(After(ls + Init(more), sha), Last(more), r, draftId, body, sha);
    }
  }

  /** From its loaded draft to its publish, with anything in between. */
  ghost predicate PublishesLater(ls: seq<Label>, r: RequestId, answer: nat, between: seq<Label>, draftId: DraftId, body: Text, sha: Text -> Digest) {
    && Approves(After(ls, sha), r, draftId, body)
    && var s := After(ls + [Advance(r, answer)] + between, sha);
       r in s.requests && s.requests[r].Approve? && s.requests[r].point.Verified?
  }

  /**
   A request publishes the draft and body it loaded, and that publish has an approval row of its
   own before it exactly when, at the request's approval write, the key was free or the trail
   held such a row, or another approval of the same draft and hash found its key free since.
   */
  lemma PublishedBodyWasApprovedIff(
    ls: seq<Label>, r: RequestId, answer: nat, between: seq<Label>, id: nat, draftId: DraftId, body: Text, sha: Text -> Digest)
    requires PublishesLater(ls, r, answer, between, draftId, body, sha)
    ensures var s, u := After(ls, sha), After(ls + [Advance(r, answer)] + between, sha);
            var t := Apply(u, Advance(r, id), sha);
            && t.trace == u.trace + [IncidentCreated(draftId, body)]
            && (ApprovedBefore(t.trace, |u.trace|, draftId, sha(body)) <==>
                  || SortKey(s.clock, DraftApproved) !in s.trail
                  || OwnRow(s.trail, draftId, sha(body))
                  || OwnInsertedIn(ls + [Advance(r, answer)], between, draftId, sha(body), sha))
  {
    var start := ls + [Advance(r, answer)];
    var u := After(start + between, sha);
    LoadedAfterLog(ls, r, answer, draftId, body, sha);
    StaysLoaded(start, between, r, draftId, body, sha);
    OwnRowIff(ls, r, answer, draftId, body, sha);
    OwnRowLaterIff(start, between, draftId, sha(body), sha);
    hide OwnRow, OwnInsertedIn;
    PrefixTellsApproval(u.trace, IncidentCreated(draftId, body), draftId, sha(body));
  }

  lemma LoadedAfterLog(ls: seq<Label>, r: RequestId, answer: nat, draftId: DraftId, body: Text, sha: Text -> Digest)
    requires Approves(After(ls, sha), r, draftId, body)
    ensures HasLoaded(After(ls + [Advance(r, answer)], sha), r, draftId, body)
  {
    hide Written, Taken;
    assert Init(ls + [Advance(r, answer)]) == ls;
  }

  lemma PrefixTellsApproval(trace: seq<Entry>, e: Entry, draftId: DraftId, hash: Digest)
    ensures ApprovedBefore(trace + [e], |trace|, draftId, hash) <==> ApprovedBefore(trace, |trace|, draftId, hash)
  {
    if j: nat :| j < |trace| && Names(trace[j], draftId, hash) { assert Names((trace + [e])[j], draftId, hash); }
    if j: nat :| j < |trace| && Names((trace + [e])[j], draftId, hash) { assert Names(trace[j], draftId, hash); }
  }

  // ---- runs that lose no approval ----

  /** The step is an approval write that is dropped, and the trail has no row of the draft with this hash. */
  ghost predicate Loses(s: State, l: Label, sha: Text -> Digest) {
    && l.Advance? && l.r in s.requests && s.requests[l.r].Approve? && s.requests[l.r].point.Loaded?
    && SortKey(s.clock, DraftApproved) in s.trail
    && !OwnRow(s.trail, s.requests[l.r].draftId, sha(s.requests[l.r].point.body))
  }

  ghost predicate LosesNone(ls: seq<Label>, sha: Text -> Digest) {
    forall n | 0 <= n < |ls| :: !Loses(After(ls[..n], sha), ls[n], sha)
  }

  ghost predicate OwnsRow(s: State, q: Request, sha: Text -> Digest) {
    q.Approve? && PastLog(q.point) ==> OwnRow(s.trail, q.draftId, sha(q.point.body))
  }

  ghost predicate OwnCall(trace: seq<Entry>, k: nat, sha: Text -> Digest)
    requires k < |trace|
  {
    trace[k].IncidentCreated? ==> ApprovedBefore(trace, k, trace[k].draftId, sha(trace[k].body))
  }

  ghost predicate AllOwn(s: State, sha: Text -> Digest) {
    && (forall r <- s.requests :: OwnsRow(s, s.requests[r], sha))
    && (forall k | 0 <= k < |s.trace| :: OwnCall(s.trace, k, sha))
  }

  lemma TrailGrows(s: State, l: Label, sha: Text -> Digest)
    ensures var t := Apply(s, l, sha); forall k <- s.trail :: k in t.trail && t.trail[k] == s.trail[k]
  {
  }

  lemma OwnRowStays(a: Trail, b: Trail, draftId: DraftId, hash: Digest)
    requires OwnRow(a, draftId, hash) && forall k <- a :: k in b && b[k] == a[k]
    ensures OwnRow(b, draftId, hash)
  {
    var k :| k in a && IsOwn(a[k], draftId, hash);
    assert IsOwn(b[k], draftId, hash);
  }

  /** The request that moves has its own row once it is past its approval write. */
  lemma MoverOwnsRow(s: State, r: RequestId, answer: nat, sha: Text -> Digest)
    requires r in s.requests && OwnsRow(s, s.requests[r], sha) && !Loses(s, Advance(r, answer), sha)
    ensures var t := Apply(s, Advance(r, answer), sha); OwnsRow(t, t.requests[r], sha)
  {
    hide ApprovalKeys, OwnRow;
    var t, q := Apply(s, Advance(r, answer), sha), s.requests[r];
    if q.Approve? {
      if q.point.Loaded? {
        var row := ApprovedRow(q.user, q.draftId, sha(q.point.body));
        if Taken(s.trail, s.clock, row) {
          assert t.trail == s.trail;
        } else {
          NewRowIsOwn(s.trail, s.clock, row);
        }
      } else if PastLog(q.point) {
        TrailGrows(s, Advance(r, answer), sha);
        OwnRowStays(s.trail, t.trail, q.draftId, sha(q.point.body));
      }
    }
  }

  lemma NewRowIsOwn(trail: Trail, ms: nat, row: Row)
    requires row.ApprovedRow? && !Taken(trail, ms, row)
    ensures OwnRow(Written(trail, ms, row), row.draftId, row.sha256)
  {
    assert IsOwn(Written(trail, ms, row)[SortKey(ms, row.Action())], row.draftId, row.sha256);
  }

  lemma RequestsOwnRows(s: State, l: Label, sha: Text -> Digest)
    requires AllOwn(s, sha) && !Loses(s, l, sha)
    ensures var t := Apply(s, l, sha); forall r <- t.requests :: OwnsRow(t, t.requests[r], sha)
  {
    hide OwnRow, Apply, OwnCall, Loses;
    var t := Apply(s, l, sha);
    TrailGrows(s, l, sha);
    forall r <- t.requests ensures OwnsRow(t, t.requests[r], sha) {
      if l.Advance? && l.r == r && r in s.requests {
        MoverOwnsRow(s, r, l.answer, sha);
      } else {
        OthersStay(s, l, r, sha);
        var q := t.requests[r];
        if q.Approve? && PastLog(q.point) { OwnRowStays(s.trail, t.trail, q.draftId, sha(q.point.body)); }
      }
    }
  }

  lemma CallsOwnRows(s: State, l: Label, sha: Text -> Digest)
    requires Inv(s) && AllOwn(s, sha)
    ensures var b := Apply(s, l, sha).trace; forall k | 0 <= k < |b| :: OwnCall(b, k, sha)
  {
    var a, b := s.trace, Apply(s, l, sha).trace;
    StepAdds(s, l, 0, 0, sha);
    WhoPublishes(s, l, sha);
    assert a != b ==> b == a + [Last(b)];
    hide Apply, Inv, ApprovedBefore, OwnRow, OwnCall, OwnsRow;
    forall k | 0 <= k < |b| ensures OwnCall(b, k, sha) {
      if k < |a| {
        assert OwnCall(a, k, sha);
        EarlierCall(a, b, k, sha);
      } else if Last(b).IncidentCreated? {
        assert OwnsRow(s, s.requests[l.r], sha);
        LastCall(s, b, s.requests[l.r], sha);
      }
    }
  }

  lemma EarlierCall(a: seq<Entry>, b: seq<Entry>, k: nat, sha: Text -> Digest)
    requires a <= b && k < |a| && OwnCall(a, k, sha)
    ensures OwnCall(b, k, sha)
  {
    hide ApprovedBefore;
    if a[k].IncidentCreated? { EarlierTellsApproval(a, b, k, a[k].draftId, sha(a[k].body)); }
  }

  lemma LastCall(s: State, b: seq<Entry>, q: Request, sha: Text -> Digest)
    requires Inv(s) && q.Approve? && q.point.Verified? && OwnsRow(s, q, sha)
    requires b == s.trace + [IncidentCreated(q.draftId, q.point.body)]
    ensures OwnCall(b, |s.trace|, sha)
  {
    hide ApprovedBefore, OwnRow;
    TrailTellsApproval(s, q.draftId, sha(q.point.body));
    EarlierTellsApproval(s.trace, b, |s.trace|, q.draftId, sha(q.point.body));
  }

  lemma EarlierTellsApproval(a: seq<Entry>, b: seq<Entry>, k: nat, draftId: DraftId, hash: Digest)
    requires a <= b && k <= |a|
    ensures ApprovedBefore(b, k, draftId, hash) <==> ApprovedBefore(a, k, draftId, hash)
  {
    if j: nat :| j < k && Names(a[j], draftId, hash) { assert Names(b[j], draftId, hash); }
    if j: nat :| j < k && j < |b| && Names(b[j], draftId, hash) { assert Names(a[j], draftId, hash); }
  }

  lemma {:induction false} LosesNoneOwnsAll(ls: seq<Label>, sha: Text -> Digest)
    requires LosesNone(ls, sha)
    ensures AllOwn(After(ls, sha), sha)
  {
    if ls == [] {
    } else {
      hide Loses, AllOwn;
      var before := Init(ls);
      forall n | 0 <= n < |before| ensures !Loses(After(before[..n], sha), before[n], sha) {
        assert before[..n] == ls[..n];
      }
      LosesNoneOwnsAll(before, sha);
      AlwaysInv(before, sha);
      assert ls[..|ls| - 1] == before;
      StepKeepsAllOwn(After(before, sha), Last(ls), sha);
    }
  }

  lemma StepKeepsAllOwn(s: State, l: Label, sha: Text -> Digest)
    requires Inv(s) && AllOwn(s, sha) && !Loses(s, l, sha)
    ensures AllOwn(Apply(s, l, sha), sha)
  {
    RequestsOwnRows(s, l, sha);
    CallsOwnRows(s, l, sha);
  }

  /** Then every publish follows an approval row naming its draft, with the hash of the body sent. */
  lemma PublishedBodyWasApproved(ls: seq<Label>, sha: Text -> Digest, k: nat)
    requires LosesNone(ls, sha)
    requires k < |After(ls, sha).trace| && After(ls, sha).trace[k].IncidentCreated?
    ensures var e := After(ls, sha).trace[k]; ApprovedBefore(After(ls, sha).trace, k, e.draftId, sha(e.body))
  {
    LosesNoneOwnsAll(ls, sha);
    assert OwnCall(After(ls, sha).trace, k, sha);
  }

  // ---- two approvals in one millisecond ----

  lemma Play(ls: seq<Label>, l: Label, sha: Text -> Digest) returns (more: seq<Label>)
    ensures After(more, sha) == Apply(After(ls, sha), l, sha)
  {
    more := ls + [l];
    assert Init(more) == ls;
  }

  lemma TwoDrafts(a: Text, b: Text, sha: Text -> Digest) returns (ls: seq<Label>)
    ensures var s := After(ls, sha);
            && s.drafts == map[0 := Item(PENDING_APPROVAL, Some(a)), 1 := Item(PENDING_APPROVAL, Some(b))]
            && s.trail == map[] && s.trace == [] && s.clock == 1 && s.requests.Keys == {0, 1}
  {
    ls := Play([], Arrive(0, Create(0, a, None, false)), sha);
    ls := Play(ls, Advance(0, 0), sha);
    ls := Play(ls, Tick(1), sha);
    ls := Play(ls, Arrive(1, Create(0, b, None, false)), sha);
    ls := Play(ls, Advance(1, 0), sha);
  }

  lemma ApproveLogs(before: seq<Label>, r: RequestId, user: UserId, draftId: DraftId, body: Text, sha: Text -> Digest) returns (ls: seq<Label>)
    requires var s := After(before, sha); r !in s.requests && draftId in s.drafts && s.drafts[draftId] == Item(PENDING_APPROVAL, Some(body))
    ensures var s := After(before, sha);
            After(ls, sha) ==
              Audit(s, ApprovedRow(user, draftId, sha(body))).(requests := s.requests[r := Approve(user, draftId, Logged(body, s.clock))])
  {
    hide ApprovalKeys, Written, Taken, AdvanceCreate, AdvanceReject, After;
    var s := After(before, sha);
    ls := Play(before, Arrive(r, Approve(user, draftId, Begun)), sha);
    ls := Play(ls, Advance(r, 0), sha);
    assert After(ls, sha) == s.(requests := s.requests[r := Approve(user, draftId, Loaded(body))]);
    ls := Play(ls, Advance(r, 0), sha);
  }

  lemma WrittenKey(s: State, row: Row)
    ensures SortKey(s.clock, row.Action()) in Written(s.trail, s.clock, row)
  {
  }

  /** An approve request that nothing disturbs, from its click to its publish. */
  lemma ApproveNow(before: seq<Label>, r: RequestId, user: UserId, draftId: DraftId, body: Text, id: nat, sha: Text -> Digest)
    returns (ls: seq<Label>)
    requires var s := After(before, sha); r !in s.requests && draftId in s.drafts && s.drafts[draftId] == Item(PENDING_APPROVAL, Some(body))
    ensures var s := After(before, sha);
            var logged := Audit(s, ApprovedRow(user, draftId, sha(body)));
            After(ls, sha) == logged.(trace := logged.trace + [IncidentCreated(draftId, body)],
                                      requests := s.requests[r := Approve(user, draftId, Created(body, s.clock, id))])
  {
    hide ApprovalKeys, Written, Taken, After;
    var s := After(before, sha);
    ls := ApproveLogs(before, r, user, draftId, body, sha);
    var t := After(ls, sha);
    VerifyPasses(t, t.requests[r]) by { WrittenKey(s, ApprovedRow(user, draftId, sha(body))); }
    ls := Play(ls, Advance(r, 0), sha);
    ls := Play(ls, Advance(r, id), sha);
  }

  lemma PublishEnds(before: seq<Label>, r: RequestId, pause: nat, sha: Text -> Digest) returns (ls: seq<Label>)
    requires var s := After(before, sha); r in s.requests && s.requests[r].Approve? && s.requests[r].point.Created?
    ensures var s, t := After(before, sha), After(ls, sha);
            var q := s.requests[r];
            var row := PublishedRow(q.user, q.draftId, sha(q.point.body), q.point.statuspageId);
            t == Audit(s.(clock := s.clock + pause), row).(
                   requests := s.requests[r := q.(point := Done)], drafts := Updated(s.drafts, q.draftId, PUBLISHED))
  {
    hide ApprovalKeys, Written, Taken, Updated, After;
    ls := Play(before, Tick(pause), sha);
    ls := Play(ls, Advance(r, 0), sha);
    ls := Play(ls, Advance(r, 0), sha);
  }

  /** Such a request's steps, with a pause before the publish is recorded, do what the call does in one go. */
  lemma ApproveAlone(before: seq<Label>, r: RequestId, user: UserId, draftId: DraftId, body: Text, id: nat, pause: nat, sha: Text -> Digest)
    returns (ls: seq<Label>)
    requires var s := After(before, sha); r !in s.requests && draftId in s.drafts && s.drafts[draftId] == Item(PENDING_APPROVAL, Some(body))
    ensures var s, t := After(before, sha), After(ls, sha);
            var row := ApprovedRow(user, draftId, sha(body));
            && t.requests == s.requests[r := Approve(user, draftId, Done)]
            && t.drafts == s.drafts[draftId := s.drafts[draftId].(status := PUBLISHED)]
            && t.trail == Written(Written(s.trail, s.clock, row), s.clock + pause, PublishedRow(user, draftId, row.sha256, id))
            && Audit(s, row).trace + [IncidentCreated(draftId, body)] <= t.trace
  {
    hide ApprovalKeys, Written, Taken, After;
    ls := ApproveNow(before, r, user, draftId, body, id, sha);
    ls := PublishEnds(ls, r, pause, sha);
  }

  /** The second publish then has no approval row of its own anywhere in the trace. */
  lemma SameMillisecondApprovalIsLost(a: Text, b: Text, sha: Text -> Digest) returns (ls: seq<Label>)
    ensures var trace := After(ls, sha).trace;
            && |trace| == 3 && trace[2] == IncidentCreated(1, b)
            && !exists h :: ApprovedBefore(trace, |trace|, 1, h)
  {
    ls := TwoDrafts(a, b, sha);
    ls := ApproveNow(ls, 2, 0, 0, a, 0, sha);
    ls := ApproveNow(ls, 3, 0, 1, b, 0, sha);
  }

  // ---- many incidents ----

  /** Each incident has its own items; a step of one leaves the others alone. */
  function Service(ls: seq<(nat, Label)>, sha: Text -> Digest): map<nat, State> {
    if ls == [] then map[]
    else
      var before, (i, l) := Service(Init(ls), sha), Last(ls);
      before[i := Apply(if i in before then before[i] else NEW_INCIDENT, l, sha)]
  }

  /** The steps addressed to the incident. */
  function OwnSteps(ls: seq<(nat, Label)>, i: nat): seq<Label> {
    if ls == [] then [] else OwnSteps(Init(ls), i) + if Last(ls).0 == i then [Last(ls).1] else []
  }

  /** Each incident has lived through exactly the steps addressed to it. */
  lemma {:induction false} EveryIncidentIsARun(ls: seq<(nat, Label)>, i: nat, sha: Text -> Digest)
    ensures i in Service(ls, sha) <==> OwnSteps(ls, i) != []
    ensures i in Service(ls, sha) ==> Service(ls, sha)[i] == After(OwnSteps(ls, i), sha)
  {
    hide Apply;
    if ls == [] {
    } else {
      EveryIncidentIsARun(Init(ls), i, sha);
      var own := OwnSteps(Init(ls), i);
      if Last(ls).0 == i {
        assert Init(own + [Last(ls).1]) == own;
      } else {
        Nothing(own);
      }
    }
  }
}
