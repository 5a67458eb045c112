/**
 The edit and approve handlers as a transition system over one draft. Every statement the
 handlers issue names its draft, so drafts do not disturb each other; the last section puts
 any number of them side by side again.

 A request is a program counter that advances by one awaited call at a time; a request that
 never advances again is one that crashed, lost its connection or saw the call fail. The
 log interleaves the audit rows with the emails, so their order is visible. `versions` and
 `winner` are history: every text the draft has had, and the request whose guarded update
 moved it out of PENDING.
 */
module DraftLifecycle {
  import opened Utf16
  import opened Wrappers
  import opened EditDistance
  import opened Drafts

  type RequestId = nat

  datatype Entry =
    | Audit(event: Event)
    | Emailed(sender: RequestId, text: Text, messageId: MessageId)

  /** The draft a request read, and which of the draft's versions that text was. */
  datatype Seen = Seen(text: Text, version: nat)

  datatype EditPoint = EditBegun | EditRead(seen: Seen) | EditLogged(seen: Seen) | EditAnswered(code: nat)

  datatype ApprovePoint =
    | Begun
    | Allowed
    | Read(seen: Seen)
    | Won(seen: Seen)
    | Recorded(seen: Seen)
    | Mailed(seen: Seen, messageId: MessageId, recipients: nat)
    | SentRecorded(seen: Seen, messageId: MessageId, recipients: nat)
    | Analysed(seen: Seen, messageId: MessageId, recipients: nat)
    | Marked(seen: Seen, messageId: MessageId, recipients: nat)
    | Confirmed(seen: Seen, messageId: MessageId, recipients: nat)
    | Refused(code: nat)

  datatype Request =
    | Edit(user: UserId, text: Text, edit: EditPoint)
    | Approve(user: UserId, point: ApprovePoint)

  datatype State = State(
    id: DraftId,
    row: Row,
    log: seq<Entry>,
    requests: map<RequestId, Request>,
    versions: seq<Text>,
    winner: Option<RequestId>)

  function Generated(id: DraftId, runId: nat, text: Text): State {
    State(id, NewRow(runId, text), [], map[], [text], None)
  }

  /** `allow`, `messageId` and `recipients` are what the outside world answers to the call. */
  datatype Label =
    | Arrive(r: RequestId, request: Request)
    | Advance(r: RequestId, allow: bool, messageId: MessageId, recipients: nat)

  predicate Fresh(q: Request) {
    match q
    case Edit(_, text, p) => p == EditBegun && Accepts(text)
    case Approve(_, p) => p == Begun
  }

  function Apply(s: State, l: Label): State {
    match l
    case Arrive(r, q) =>
      if r in s.requests || !Fresh(q) then s else s.(requests := s.requests[r := q])
    case Advance(r, allow, messageId, recipients) =>
      if r !in s.requests then s
      else if s.requests[r].Edit? then AdvanceEdit(s, r)
      else AdvanceApprove(s, r, allow, messageId, recipients)
  }

  function ReadDraft(s: State): Seen {
    Seen(CurrentText(s.row), if s.versions == [] then 0 else |s.versions| - 1)
  }

  function Move(s: State, r: RequestId, p: EditPoint): State
    requires r in s.requests && s.requests[r].Edit?
  {
    s.(requests := s.requests[r := s.requests[r].(edit := p)])
  }

  function AdvanceEdit(s: State, r: RequestId): State
    requires r in s.requests && s.requests[r].Edit?
  {
    var q := s.requests[r];
    match q.edit
    case EditBegun => Move(s, r, if s.row.status != PENDING then EditAnswered(409) else EditRead(ReadDraft(s)))
    case EditRead(seen) =>
      Move(s, r, EditLogged(seen)).(log := s.log + [Audit(EditEvent(s.id, q.user, seen.text, q.text))])
    case EditLogged(seen) =>
      Move(s, r, EditAnswered(200)).(
        row := EditRow(s.row, q.text),
        versions := if s.row.status == PENDING then s.versions + [q.text] else s.versions)
    case EditAnswered(_) => s
  }

  function Go(s: State, r: RequestId, p: ApprovePoint): State
    requires r in s.requests && s.requests[r].Approve?
  {
    s.(requests := s.requests[r := s.requests[r].(point := p)])
  }

  function AdvanceApprove(s: State, r: RequestId, allow: bool, messageId: MessageId, recipients: nat): State
    requires r in s.requests && s.requests[r].Approve?
  {
    var q := s.requests[r];
    match q.point
    case Begun => Go(s, r, if allow then Allowed else Refused(403))
    case Allowed => Go(s, r, if s.row.status != PENDING then Refused(409) else Read(ReadDraft(s)))
    case Read(seen) =>
      if s.row.status != PENDING then Go(s, r, Refused(500))
      else Go(s, r, Won(seen)).(row := ApproveRow(s.row, q.user), winner := Some(r))
    case Won(seen) =>
      Go(s, r, Recorded(seen)).(log := s.log + [Audit(ApprovedEvent(s.id, q.user))])
    case Recorded(seen) =>
      Go(s, r, Mailed(seen, messageId, recipients)).(log := s.log + [Emailed(r, seen.text, messageId)])
    case Mailed(seen, m, n) =>
      Go(s, r, SentRecorded(seen, m, n)).(log := s.log + [Audit(SentEvent(s.id, m, n))])
    case SentRecorded(seen, m, n) => Go(s, r, Analysed(seen, m, n))
    case Analysed(seen, m, n) => Go(s, r, Marked(seen, m, n)).(row := SendRow(s.row))
    case Marked(seen, m, n) => Go(s, r, Confirmed(seen, m, n))
    case Confirmed(_, _, _) => s
    case Refused(_) => s
  }

  /** The state after the labels, in order. */
  function After(s: State, ls: seq<Label>): State {
    if ls == [] then s else Apply(After(s, Init(ls)), Last(ls))
  }

  // ---- what the log says ----

  predicate IsEdit(e: Entry) {
    e.Audit? && e.event.HumanEdit?
  }

  /** Characters of edit the HUMAN_EDIT rows add up to. */
  function Charged(log: seq<Entry>): nat {
    if log == [] then 0
    else Charged(Init(log)) + if IsEdit(Last(log)) then Last(log).event.distance else 0
  }

  /** The approvals, emails and send records, in order. */
  function Effects(log: seq<Entry>): seq<Entry> {
    if log == [] then []
    else Effects(Init(log)) + if IsEdit(Last(log)) then [] else [Last(log)]
  }

  lemma Append(log: seq<Entry>, e: Entry)
    ensures Charged(log + [e]) == Charged(log) + if IsEdit(e) then e.event.distance else 0
    ensures Effects(log + [e]) == Effects(log) + if IsEdit(e) then [] else [e]
  {
    assert Init(log + [e]) == log;
  }

  /** How far an approve request has come: 0 until its guarded update succeeded. */
  function Stage(p: ApprovePoint): nat {
    match p
    case Won(_) => 1
    case Recorded(_) => 2
    case Mailed(_, _, _) => 3
    case SentRecorded(_, _, _) => 4
    case Analysed(_, _, _) => 5
    case Marked(_, _, _) => 6
    case Confirmed(_, _, _) => 7
    case _ => 0
  }

  /** What a winning request at this point has left in the log. */
  function Expected(id: DraftId, r: RequestId, user: UserId, p: ApprovePoint): seq<Entry> {
    var n := Stage(p);
    (if n >= 2 then [Audit(ApprovedEvent(id, user))] else [])
    + (if n >= 3 then [Emailed(r, p.seen.text, p.messageId)] else [])
    + (if n >= 4 then [Audit(SentEvent(id, p.messageId, p.recipients))] else [])
  }

  // ---- the invariant ----

  predicate VersionsOk(s: State) {
    s.versions != [] && s.versions[0] == s.row.fullText && Last(s.versions) == CurrentText(s.row)
  }

  /** The ledger pays for getting from the generated text to t. */
  predicate Paid(s: State, t: Text) {
    Distance(s.row.fullText, t) <= Charged(s.log)
  }

  /** The log holds a HUMAN_EDIT row for the change to t from one of the draft's first n versions. */
  ghost predicate EditRecorded(s: State, t: Text, n: int) {
    exists k, v :: 0 <= k < |s.log| && 0 <= v < n && v < |s.versions| && RecordsEdit(s.log[k], s.id, s.versions[v], t)
  }

  predicate RecordsEdit(e: Entry, id: DraftId, base: Text, t: Text) {
    && IsEdit(e) && e.event.draftId == id
    && e.event.distance == Distance(base, t) && e.event.originalLength == |base| && e.event.editedLength == |t|
  }

  predicate SeenOk(s: State, seen: Seen) {
    seen.version < |s.versions| && s.versions[seen.version] == seen.text && Paid(s, seen.text)
  }

  ghost predicate RequestOk(s: State, r: RequestId, q: Request) {
    match q
    case Edit(_, text, p) =>
      && ((p.EditRead? || p.EditLogged?) ==> SeenOk(s, p.seen))
      && (p.EditLogged? ==> Paid(s, text) && EditRecorded(s, text, |s.versions|))
    case Approve(_, p) =>
      && (p.Read? || Stage(p) > 0 ==> SeenOk(s, p.seen))
      && (Stage(p) > 0 ==> s.winner == Some(r))
  }

  ghost predicate RowOk(s: State) {
    && Paid(s, CurrentText(s.row))
    && (s.row.editedText.Some? ==> EditRecorded(s, s.row.editedText.value, |s.versions| - 1))
    && (s.row.status == PENDING <==> s.winner.None?)
    && (s.winner.None? ==> Effects(s.log) == [])
    && (s.winner.Some? ==> WinnerOk(s, s.winner.value))
  }

  predicate WinnerOk(s: State, r: RequestId) {
    && r in s.requests
    && var q := s.requests[r];
       && q.Approve? && Stage(q.point) > 0
       && s.row.approvedBy == Some(q.user)
       && Effects(s.log) == Expected(s.id, r, q.user, q.point)
       && (s.row.status == SENT <==> Stage(q.point) >= 6)
  }

  ghost predicate Inv(s: State) {
    && VersionsOk(s)
    && RowOk(s)
    && forall r <- s.requests :: RequestOk(s, r, s.requests[r])
  }

  // ---- every step keeps it ----

  /** Nothing recorded is ever taken back. */
  ghost predicate Grows(s: State, t: State) {
    && t.id == s.id
    && t.row.fullText == s.row.fullText
    && s.versions <= t.versions
    && s.log <= t.log
    && Charged(s.log) <= Charged(t.log)
    && (s.winner.Some? ==> t.winner == s.winner)
  }

  lemma GrowsKeepsEditRecorded(s: State, t: State, text: Text, n: int, m: int)
    requires Grows(s, t) && EditRecorded(s, text, n) && n <= m
    ensures EditRecorded(t, text, m)
  {
    var k, v :| 0 <= k < |s.log| && 0 <= v < n && v < |s.versions| && RecordsEdit(s.log[k], s.id, s.versions[v], text);
    assert t.log[k] == s.log[k] && t.versions[v] == s.versions[v];
  }

  /** A step that touched one request only has to answer for that one and for the row. */
  lemma LocalKeeps(s: State, t: State, r: RequestId)
    requires Inv(s) && Grows(s, t) && VersionsOk(t) && RowOk(t)
    requires forall r0 <- t.requests :: r0 != r ==> r0 in s.requests && t.requests[r0] == s.requests[r0]
    requires r in t.requests ==> RequestOk(t, r, t.requests[r])
    ensures Inv(t)
  {
    hide Distance, Charged;
    forall r0 <- t.requests ensures RequestOk(t, r0, t.requests[r0]) {
      if r0 != r {
        assert RequestOk(s, r0, s.requests[r0]);
        var q := s.requests[r0];
        if q.Edit? && q.edit.EditLogged? { GrowsKeepsEditRecorded(s, t, q.text, |s.versions|, |t.versions|); }
      }
    }
  }

  /** A step that changes nothing but its own request. */
  lemma QuietKeeps(s: State, r: RequestId, q: Request)
    requires Inv(s) && RequestOk(s, r, q) && s.winner != Some(r)
    ensures var t := s.(requests := s.requests[r := q]); Inv(t) && Grows(s, t)
  {
    hide Distance, Charged, Effects, EditRecorded;
    var t := s.(requests := s.requests[r := q]);
    if s.row.editedText.Some? { GrowsKeepsEditRecorded(s, t, s.row.editedText.value, |s.versions| - 1, |t.versions| - 1); }
    if q.Edit? && q.edit.EditLogged? { GrowsKeepsEditRecorded(s, t, q.text, |s.versions|, |t.versions|); }
    LocalKeeps(s, t, r);
  }

  /** The ledger pays for the edited text: it paid for the base, and the triangle inequality does the rest. */
  lemma LogEditKeeps(s: State, r: RequestId)
    requires Inv(s) && r in s.requests && s.requests[r].Edit? && s.requests[r].edit.EditRead?
    ensures var t := AdvanceEdit(s, r); Inv(t) && Grows(s, t)
  {
    hide Distance, Charged, Effects;
    var t, q := AdvanceEdit(s, r), s.requests[r];
    var seen := q.edit.seen;
    assert RequestOk(s, r, q);
    Append(s.log, Audit(EditEvent(s.id, q.user, seen.text, q.text)));
    Triangle(s.row.fullText, seen.text, q.text);
    assert RecordsEdit(t.log[|s.log|], t.id, t.versions[seen.version], q.text);
    if s.row.editedText.Some? { GrowsKeepsEditRecorded(s, t, s.row.editedText.value, |s.versions| - 1, |t.versions| - 1); }
    LocalKeeps(s, t, r);
  }

  lemma SaveEditKeeps(s: State, r: RequestId)
    requires Inv(s) && r in s.requests && s.requests[r].Edit? && s.requests[r].edit.EditLogged?
    ensures var t := AdvanceEdit(s, r); Inv(t) && Grows(s, t)
  {
    hide Distance, Charged, Effects, EditRecorded;
    var t, q := AdvanceEdit(s, r), s.requests[r];
    assert RequestOk(s, r, q);
    if s.row.status == PENDING {
      GrowsKeepsEditRecorded(s, t, q.text, |s.versions|, |t.versions| - 1);
      LocalKeeps(s, t, r);
    } else {
      QuietKeeps(s, r, t.requests[r]);
    }
  }

  lemma EditKeeps(s: State, r: RequestId)
    requires Inv(s) && r in s.requests && s.requests[r].Edit?
    ensures var t := AdvanceEdit(s, r); Inv(t) && Grows(s, t)
  {
    hide Distance, Charged, Effects, EditRecorded;
    var t := AdvanceEdit(s, r);
    match s.requests[r].edit
    case EditBegun => QuietKeeps(s, r, t.requests[r]);
    case EditRead(_) => LogEditKeeps(s, r);
    case EditLogged(_) => SaveEditKeeps(s, r);
    case EditAnswered(_) =>
  }

  /** The guarded update: only a pending draft has no winner, so it gets its first one. */
  lemma WinKeeps(s: State, r: RequestId)
    requires Inv(s) && r in s.requests && s.requests[r].Approve? && s.requests[r].point.Read?
    requires s.row.status == PENDING
    ensures var t := AdvanceApprove(s, r, false, 0, 0); Inv(t) && Grows(s, t)
  {
    hide Distance, Charged, Effects, EditRecorded;
    var t := AdvanceApprove(s, r, false, 0, 0);
    assert RequestOk(s, r, s.requests[r]);
    if s.row.editedText.Some? { GrowsKeepsEditRecorded(s, t, s.row.editedText.value, |s.versions| - 1, |t.versions| - 1); }
    LocalKeeps(s, t, r);
  }

  /** The winner's log entries come one after the other, and only from it. */
  lemma WinnerLogKeeps(s: State, r: RequestId, messageId: MessageId, recipients: nat)
    requires Inv(s) && r in s.requests && s.requests[r].Approve? && 1 <= Stage(s.requests[r].point) <= 3
    ensures var t := AdvanceApprove(s, r, false, messageId, recipients); Inv(t) && Grows(s, t)
  {
    hide Distance, Charged, Effects, EditRecorded;
    var t := AdvanceApprove(s, r, false, messageId, recipients);
    assert RequestOk(s, r, s.requests[r]);
    Append(s.log, t.log[|s.log|]);
    if s.row.editedText.Some? { GrowsKeepsEditRecorded(s, t, s.row.editedText.value, |s.versions| - 1, |t.versions| - 1); }
    LocalKeeps(s, t, r);
  }

  lemma WinnerRowOk(s: State, r: RequestId)
    requires Inv(s) && r in s.requests && s.requests[r].Approve? && 4 <= Stage(s.requests[r].point)
    ensures var t := AdvanceApprove(s, r, false, 0, 0);
            Grows(s, t) && VersionsOk(t) && RowOk(t) && RequestOk(t, r, t.requests[r])
  {
    hide Distance, Charged, Effects, EditRecorded;
    var t := AdvanceApprove(s, r, false, 0, 0);
    assert RequestOk(s, r, s.requests[r]);
    if s.row.editedText.Some? { GrowsKeepsEditRecorded(s, t, s.row.editedText.value, |s.versions| - 1, |t.versions| - 1); }
  }

  lemma WinnerRowKeeps(s: State, r: RequestId)
    requires Inv(s) && r in s.requests && s.requests[r].Approve? && 4 <= Stage(s.requests[r].point)
    ensures var t := AdvanceApprove(s, r, false, 0, 0); Inv(t) && Grows(s, t)
  {
    WinnerRowOk(s, r);
    hide Inv, Grows, VersionsOk, RowOk, RequestOk, Stage;
    LocalKeeps(s, AdvanceApprove(s, r, false, 0, 0), r);
  }

  lemma ApproveKeeps(s: State, r: RequestId, allow: bool, messageId: MessageId, recipients: nat)
    requires Inv(s) && r in s.requests && s.requests[r].Approve?
    ensures var t := AdvanceApprove(s, r, allow, messageId, recipients); Inv(t) && Grows(s, t)
  {
    hide Distance, Charged, Effects, EditRecorded;
    var t, p := AdvanceApprove(s, r, allow, messageId, recipients), s.requests[r].point;
    assert RequestOk(s, r, s.requests[r]);
    if Stage(p) >= 4 {
      WinnerRowKeeps(s, r);
    } else if Stage(p) > 0 {
      WinnerLogKeeps(s, r, messageId, recipients);
    } else if p.Read? && s.row.status == PENDING {
      WinKeeps(s, r);
    } else if !p.Refused? {
      QuietKeeps(s, r, t.requests[r]);
    }
  }

  lemma StepKeeps(s: State, l: Label)
    requires Inv(s)
    ensures Inv(Apply(s, l)) && Grows(s, Apply(s, l))
  {
    match l
    case Arrive(r, q) => if r !in s.requests && Fresh(q) { QuietKeeps(s, r, q); }
    case Advance(r, allow, m, n) =>
      if r in s.requests {
        if s.requests[r].Edit? { EditKeeps(s, r); } else { ApproveKeeps(s, r, allow, m, n); }
      }
  }

  lemma {:induction false} AlwaysInv(s: State, ls: seq<Label>)
    requires Inv(s)
    ensures Inv(After(s, ls)) && Grows(s, After(s, ls))
  {
    if ls == [] {
    } else {
      AlwaysInv(s, Init(ls));
      StepKeeps(After(s, Init(ls)), Last(ls));
    }
  }

  lemma GeneratedInv(id: DraftId, runId: nat, text: Text)
    ensures Inv(Generated(id, runId, text))
  {
    ZeroIffEqual(text, text);
  }

  // ---- what holds of every run ----

  /** However edits interleave, the recorded distances add up to at least the real change. */
  lemma LedgerCoversChange(id: DraftId, runId: nat, text: Text, ls: seq<Label>)
    ensures var s := After(Generated(id, runId, text), ls); Distance(text, CurrentText(s.row)) <= Charged(s.log)
  {
    GeneratedInv(id, runId, text);
    AlwaysInv(Generated(id, runId, text), ls);
  }

  /** A stored edit has its HUMAN_EDIT row, taken against a version of the draft before the stored one. */
  lemma StoredEditIsLogged(id: DraftId, runId: nat, text: Text, ls: seq<Label>)
    ensures var s := After(Generated(id, runId, text), ls);
            s.row.editedText.Some? ==> EditRecorded(s, s.row.editedText.value, |s.versions| - 1)
  {
    GeneratedInv(id, runId, text);
    AlwaysInv(Generated(id, runId, text), ls);
  }

  /** The request is about to write its HUMAN_EDIT row, against a version the draft already has. */
  predicate WritesEdit(s: State, l: Label) {
    && l.Advance? && l.r in s.requests && s.requests[l.r].Edit? && s.requests[l.r].edit.EditRead?
    && var seen := s.requests[l.r].edit.seen;
       seen.version < |s.versions| && s.versions[seen.version] == seen.text
  }

  lemma StepWritesEdit(s: State, l: Label)
    requires Inv(s)
    ensures var t := Apply(s, l);
            t.log == s.log || (|t.log| == |s.log| + 1 && Init(t.log) == s.log)
    ensures var t := Apply(s, l);
            t.log != s.log && IsEdit(Last(t.log)) ==>
              WritesEdit(s, l)
              && var q := s.requests[l.r]; Last(t.log) == Audit(EditEvent(s.id, q.user, q.edit.seen.text, q.text))
  {
    hide Distance, Charged, Effects, EditRecorded;
    if l.Advance? && l.r in s.requests { assert RequestOk(s, l.r, s.requests[l.r]); }
  }

  /**
   Every HUMAN_EDIT row of the ledger was written by an edit request, for the change from a text
   the draft had by then to the text the request brings.
   */
  lemma {:induction false} LedgerRowHasEarlierBase(id: DraftId, runId: nat, text: Text, ls: seq<Label>, k: nat) returns (n: nat)
    requires var log := After(Generated(id, runId, text), ls).log; k < |log| && IsEdit(log[k])
    ensures n < |ls|
    ensures var s, l := After(Generated(id, runId, text), ls[..n]), ls[n];
            && |s.log| == k && WritesEdit(s, l)
            && var q := s.requests[l.r];
               After(Generated(id, runId, text), ls).log[k] == Audit(EditEvent(id, q.user, q.edit.seen.text, q.text))
  {
    hide Distance, Charged, Effects, EditRecorded, Apply, WritesEdit, IsEdit;
    var g := Generated(id, runId, text);
    if ls == [] {
      assert false;
    } else {
      var s, before := After(g, Init(ls)), Init(ls);
      GeneratedInv(id, runId, text);
      AlwaysInv(g, before);
      StepWritesEdit(s, Last(ls));
      if k < |s.log| {
        n := LedgerRowHasEarlierBase(id, runId, text, before, k);
        assert before[..n] == ls[..n] && before[n] == ls[n];
      } else {
        n := |ls| - 1;
        assert ls[..n] == before;
      }
    }
  }

  /**
   The approvals, emails and send records are an initial part of: one approval, one email, one
   send record. The email comes from the request that won the guarded update and carries the
   version that request read.
   */
  ghost predicate InOrder(s: State) {
    var e := Effects(s.log);
    && |e| <= 3
    && (s.row.status == PENDING ==> e == [])
    && (s.row.status == SENT ==> |e| == 3)
    && (|e| > 0 ==> s.row.approvedBy.Some? && e[0] == Audit(ApprovedEvent(s.id, s.row.approvedBy.value)))
    && (|e| > 1 ==> e[1].Emailed? && s.winner == Some(e[1].sender) && FromRead(s, e[1]))
    && (|e| > 2 ==> e[2].Audit? && e[2].event.SentEvent? && e[2].event.draftId == s.id
                    && e[2].event.messageId == e[1].messageId)
  }

  ghost predicate FromRead(s: State, e: Entry)
    requires e.Emailed?
  {
    && e.sender in s.requests
    && var q := s.requests[e.sender];
       && q.Approve? && Stage(q.point) >= 3
       && q.point.seen.version < |s.versions|
       && e.text == q.point.seen.text == s.versions[q.point.seen.version]
  }

  lemma EffectsInOrder(id: DraftId, runId: nat, text: Text, ls: seq<Label>)
    ensures InOrder(After(Generated(id, runId, text), ls))
  {
    var s := After(Generated(id, runId, text), ls);
    GeneratedInv(id, runId, text);
    AlwaysInv(Generated(id, runId, text), ls);
    if s.winner.Some? {
      var r := s.winner.value;
      assert WinnerOk(s, r) && RequestOk(s, r, s.requests[r]);
    }
  }

  /** Two log entries that are no edits keep their order among the effects. */
  lemma {:induction false} EffectsKeepOrder(log: seq<Entry>, i: nat, j: nat) returns (p: nat, q: nat)
    requires i <= j < |log| && !IsEdit(log[i]) && !IsEdit(log[j])
    ensures p <= q < |Effects(log)| && Effects(log)[p] == log[i] && Effects(log)[q] == log[j]
    ensures i < j ==> p < q
  {
    var rest := Init(log);
    if j < |rest| {
      p, q := EffectsKeepOrder(rest, i, j);
    } else {
      q := |Effects(rest)|;
      p := q;
      if i < |rest| {
        var _, p' := EffectsKeepOrder(rest, i, i);
        p := p';
      }
    }
  }

  /** No draft is emailed twice, whoever asks and however often. */
  lemma AtMostOneEmail(id: DraftId, runId: nat, text: Text, ls: seq<Label>, i: nat, j: nat)
    requires var log := After(Generated(id, runId, text), ls).log;
             i < |log| && j < |log| && log[i].Emailed? && log[j].Emailed?
    ensures i == j
  {
    hide Distance, Charged, Effects, FromRead;
    var log := After(Generated(id, runId, text), ls).log;
    EffectsInOrder(id, runId, text, ls);
    if i < j { var p, q := EffectsKeepOrder(log, i, j); }
    if j < i { var p, q := EffectsKeepOrder(log, j, i); }
  }

  function Rank(s: Status): nat {
    match s
    case PENDING => 0
    case APPROVED => 1
    case SENT => 2
  }

  /** One step moves the status by at most one place, and writes no text outside PENDING. */
  lemma OneStepForward(s: State, l: Label)
    requires Inv(s)
    ensures var t := Apply(s, l);
            && Rank(s.row.status) <= Rank(t.row.status) <= Rank(s.row.status) + 1
            && (s.row.status != PENDING ==> CurrentText(t.row) == CurrentText(s.row) && t.versions == s.versions)
            && (t.row.status != PENDING ==> CurrentText(t.row) == CurrentText(s.row))
  {
    hide Distance, Charged, Effects, EditRecorded;
    if l.Advance? && l.r in s.requests {
      assert RequestOk(s, l.r, s.requests[l.r]);
    }
  }

  /** The status only moves forward, and a text that left PENDING is final. */
  lemma {:induction false} ForwardOnly(s: State, ls: seq<Label>)
    requires Inv(s)
    ensures var t := After(s, ls);
            && Rank(s.row.status) <= Rank(t.row.status)
            && (s.row.status != PENDING ==> CurrentText(t.row) == CurrentText(s.row))
  {
    if ls == [] {
    } else {
      ForwardOnly(s, Init(ls));
      AlwaysInv(s, Init(ls));
      OneStepForward(After(s, Init(ls)), Last(ls));
    }
  }

  // ---- only approvers approve ----

  /** An approve request that is past its check of who asks. */
  predicate PastCheck(q: Request) {
    q.Approve? && q.point != Begun && q.point != Refused(403)
  }

  /** The step is the check of this request's user, and the user is an approver. */
  predicate PassesCheck(s: State, l: Label, r: RequestId, user: UserId) {
    l.Advance? && l.r == r && l.allow && r in s.requests && s.requests[r] == Approve(user, Begun)
  }

  lemma OnlyTheCheckLetsPast(s: State, l: Label, r: RequestId)
    requires var t := Apply(s, l); r in t.requests && PastCheck(t.requests[r])
    ensures var q := Apply(s, l).requests[r];
            PassesCheck(s, l, r, q.user) || (r in s.requests && PastCheck(s.requests[r]) && s.requests[r].user == q.user)
  {
    hide Distance;
  }

  /** Whoever got past the check was found to be an approver, in that request's own first step. */
  lemma {:induction false} PastCheckWasAllowed(s: State, ls: seq<Label>, r: RequestId) returns (n: nat)
    requires s.requests == map[]
    requires var t := After(s, ls); r in t.requests && PastCheck(t.requests[r])
    ensures n < |ls| && PassesCheck(After(s, ls[..n]), ls[n], r, After(s, ls).requests[r].user)
  {
    if ls == [] {
      assert false;
    } else {
      hide Apply, PassesCheck, PastCheck;
      var before := Init(ls);
      OnlyTheCheckLetsPast(After(s, before), Last(ls), r);
      if PassesCheck(After(s, before), Last(ls), r, After(s, ls).requests[r].user) {
        n := |before|;
        assert ls[..n] == before;
      } else {
        n := PastCheckWasAllowed(s, before, r);
        assert before[..n] == ls[..n];
      }
    }
  }

  /** The request that won the guarded update is one whose user was checked, and that user is the recorded approver. */
  lemma WinnerWasAllowed(id: DraftId, runId: nat, text: Text, ls: seq<Label>, r: RequestId) returns (n: nat)
    requires After(Generated(id, runId, text), ls).winner == Some(r)
    ensures n < |ls|
    ensures var g := Generated(id, runId, text);
            After(g, ls).row.approvedBy.Some? && PassesCheck(After(g, ls[..n]), ls[n], r, After(g, ls).row.approvedBy.value)
  {
    hide Distance, Charged, Effects, EditRecorded, PassesCheck;
    GeneratedInv(id, runId, text);
    AlwaysInv(Generated(id, runId, text), ls);
    assert WinnerOk(After(Generated(id, runId, text), ls), r);
    n := PastCheckWasAllowed(Generated(id, runId, text), ls, r);
  }

  /** So no email is sent for a user who is not an approver. */
  lemma EmailSenderWasAllowed(id: DraftId, runId: nat, text: Text, ls: seq<Label>, i: nat) returns (n: nat)
    requires var log := After(Generated(id, runId, text), ls).log; i < |log| && log[i].Emailed?
    ensures n < |ls|
    ensures var g := Generated(id, runId, text);
            After(g, ls).row.approvedBy.Some?
            && PassesCheck(After(g, ls[..n]), ls[n], After(g, ls).log[i].sender, After(g, ls).row.approvedBy.value)
  {
    hide Distance, Charged, Effects, PassesCheck, FromRead;
    EffectsInOrder(id, runId, text, ls);
    var p, _ := EffectsKeepOrder(After(Generated(id, runId, text), ls).log, i, i);
    n := WinnerWasAllowed(id, runId, text, ls, After(Generated(id, runId, text), ls).log[i].sender);
  }

  // ---- the emailed text against the stored one ----

  ghost predicate WonWith(s: State, r: RequestId, seen: Seen) {
    s.winner == Some(r) && r in s.requests && s.requests[r].Approve?
    && Stage(s.requests[r].point) > 0 && s.requests[r].point.seen == seen
  }

  lemma WinnerKeepsSeen(s: State, r: RequestId, seen: Seen, l: Label)
    requires Inv(s) && WonWith(s, r, seen)
    ensures WonWith(Apply(s, l), r, seen)
  {
    hide Distance, Charged, Effects, EditRecorded;
    if l.Advance? && l.r in s.requests { assert RequestOk(s, l.r, s.requests[l.r]); }
  }

  lemma {:induction false} WinnerKeepsWhatItRead(s: State, r: RequestId, seen: Seen, ls: seq<Label>)
    requires Inv(s) && WonWith(s, r, seen)
    ensures WonWith(After(s, ls), r, seen)
  {
    if ls == [] {
    } else {
      WinnerKeepsWhatItRead(s, r, seen, Init(ls));
      AlwaysInv(s, Init(ls));
      WinnerKeepsSeen(After(s, Init(ls)), r, seen, Last(ls));
    }
  }

  /**
   The email need not carry the stored text. It does exactly when the row, at the guarded
   update, still held the text the winning request had read.
   */
  lemma EmailIsStoredTextIff(s: State, r: RequestId, ls: seq<Label>, i: nat)
    requires Inv(s) && s.row.status == PENDING
    requires r in s.requests && s.requests[r].Approve? && s.requests[r].point.Read?
    requires var t := After(Apply(s, Advance(r, true, 0, 0)), ls); i < |t.log| && t.log[i].Emailed?
    ensures var t := After(Apply(s, Advance(r, true, 0, 0)), ls);
            t.log[i].text == CurrentText(t.row) <==> s.requests[r].point.seen.text == CurrentText(s.row)
  {
    hide Distance, Charged, Effects, EditRecorded;
    var won := Apply(s, Advance(r, true, 0, 0));
    var seen := s.requests[r].point.seen;
    var t := After(won, ls);
    StepKeeps(s, Advance(r, true, 0, 0));
    AlwaysInv(won, ls);
    ForwardOnly(won, ls);
    assert WonWith(won, r, seen);
    WinnerKeepsWhatItRead(won, r, seen, ls);
    var p, _ := EffectsKeepOrder(t.log, i, i);
    assert WinnerOk(t, r);
  }

  lemma Play(s: State, ls: seq<Label>, l: Label) returns (more: seq<Label>)
    ensures After(s, more) == Apply(After(s, ls), l)
  {
    more := ls + [l];
    assert Init(more) == ls;
  }

  lemma ApprovalReads(a: CodeUnit) returns (ls: seq<Label>)
    ensures var s := Generated(0, 0, [a]);
            After(s, ls) == s.(requests := map[0 := Approve(0, Read(Seen([a], 0)))])
  {
    var s := Generated(0, 0, [a]);
    ls := Play(s, [], Arrive(0, Approve(0, Begun)));
    ls := Play(s, ls, Advance(0, true, 0, 0));
    ls := Play(s, ls, Advance(0, true, 0, 0));
  }

  /** An approval reads the draft; then an edit is read, logged and saved. */
  lemma OvertakenApproval(a: CodeUnit, b: CodeUnit) returns (ls: seq<Label>)
    ensures var s := After(Generated(0, 0, [a]), ls);
            && s.requests == map[0 := Approve(0, Read(Seen([a], 0))), 1 := Edit(0, [b], EditAnswered(200))]
            && s.row == NewRow(0, [a]).(editedText := Some([b])) && s.log == [Audit(EditEvent(0, 0, [a], [b]))]
  {
    hide Distance, After;
    var s := Generated(0, 0, [a]);
    ls := ApprovalReads(a);
    ls := Play(s, ls, Arrive(1, Edit(0, [b], EditBegun)));
    ls := Play(s, ls, Advance(1, true, 0, 0));
    assert After(s, ls).requests[1] == Edit(0, [b], EditRead(Seen([a], 0)));
    ls := Play(s, ls, Advance(1, true, 0, 0));
    ls := Play(s, ls, Advance(1, true, 0, 0));
  }

  /** The approval then goes through, and mails what it had read. */
  lemma EmailCanBeStale(a: CodeUnit, b: CodeUnit) returns (ls: seq<Label>)
    requires a != b
    ensures var s := After(Generated(0, 0, [a]), ls);
            |s.log| == 3 && s.log[2].Emailed? && s.log[2].text == [a] && CurrentText(s.row) == [b] != s.log[2].text
  {
    hide Distance, After;
    var s := Generated(0, 0, [a]);
    ls := OvertakenApproval(a, b);
    ls := Play(s, ls, Advance(0, true, 0, 0));
    assert After(s, ls).requests[0].point == Won(Seen([a], 0));
    ls := Play(s, ls, Advance(0, true, 0, 0));
    ls := Play(s, ls, Advance(0, true, 7, 1));
  }

  // ---- a request that nothing overtakes ----

  /** n steps of one request. */
  function Steps(s: State, r: RequestId, n: nat, messageId: MessageId, recipients: nat): State {
    if n == 0 then s else Apply(Steps(s, r, n - 1, messageId, recipients), Advance(r, true, messageId, recipients))
  }

  lemma OneMoreStep(s: State, r: RequestId, n: nat, messageId: MessageId, recipients: nat)
    ensures Steps(s, r, 0, messageId, recipients) == s
    ensures Steps(s, r, n + 1, messageId, recipients) == Apply(Steps(s, r, n, messageId, recipients), Advance(r, true, messageId, recipients))
  {
  }

  /** The steps of an edit in a row do what the handler does in one go. */
  lemma EditAlone(s: State, r: RequestId, user: UserId, text: Text)
    requires r !in s.requests && Accepts(text)
    ensures var t := Steps(Apply(s, Arrive(r, Edit(user, text, EditBegun))), r, 3, 0, 0);
            if s.row.status != PENDING then t == s.(requests := s.requests[r := Edit(user, text, EditAnswered(409))])
            else t.row == s.row.(editedText := Some(text)) && t.log == s.log + [Audit(EditEvent(s.id, user, CurrentText(s.row), text))]
                 && t.requests == s.requests[r := Edit(user, text, EditAnswered(200))]
  {
    hide Distance, Steps;
    var s0 := Apply(s, Arrive(r, Edit(user, text, EditBegun)));
    OneMoreStep(s0, r, 0, 0, 0);
    OneMoreStep(s0, r, 1, 0, 0);
    OneMoreStep(s0, r, 2, 0, 0);
    assert Steps(s0, r, 1, 0, 0) == s0.(requests := s.requests[r := Edit(user, text, if s.row.status != PENDING then EditAnswered(409) else EditRead(ReadDraft(s)))]);
  }

  /** A user who is no approver is refused, and nothing else happens. */
  lemma RefusedAlone(s: State, r: RequestId, user: UserId, messageId: MessageId, recipients: nat)
    requires r !in s.requests
    ensures Apply(Apply(s, Arrive(r, Approve(user, Begun))), Advance(r, false, messageId, recipients)) ==
            s.(requests := s.requests[r := Approve(user, Refused(403))])
  {
    hide Distance;
  }

  /** An approval of a draft that is not pending ends in a conflict, and nothing else happens. */
  lemma ConflictAlone(s: State, r: RequestId, user: UserId, messageId: MessageId, recipients: nat)
    requires r !in s.requests && s.row.status != PENDING
    ensures Steps(Apply(s, Arrive(r, Approve(user, Begun))), r, 2, messageId, recipients) ==
            s.(requests := s.requests[r := Approve(user, Refused(409))])
  {
    hide Distance, Steps;
    var s0 := Apply(s, Arrive(r, Approve(user, Begun)));
    OneMoreStep(s0, r, 0, messageId, recipients);
    OneMoreStep(s0, r, 1, messageId, recipients);
    assert Steps(s0, r, 1, messageId, recipients) == s.(requests := s.requests[r := Approve(user, Allowed)]);
  }

  /** What comes after the status has left PENDING: a second approval fails, and an edit is answered 200 but not stored. */
  lemma OvertakenRequests(s: State, r: RequestId, allow: bool, messageId: MessageId, recipients: nat)
    requires r in s.requests && s.row.status != PENDING
    ensures var q, t := s.requests[r], Apply(s, Advance(r, allow, messageId, recipients));
            && (q.Approve? && q.point.Read? ==> t == s.(requests := s.requests[r := q.(point := Refused(500))]))
            && (q.Edit? && q.edit.EditLogged? ==> t == s.(requests := s.requests[r := q.(edit := EditAnswered(200))]))
  {
    hide Distance;
  }

  /** A refused or answered request does nothing more. */
  lemma AnswersAreFinal(s: State, r: RequestId, allow: bool, messageId: MessageId, recipients: nat)
    requires r in s.requests
    requires var q := s.requests[r]; if q.Edit? then q.edit.EditAnswered? else q.point.Refused? || q.point.Confirmed?
    ensures Apply(s, Advance(r, allow, messageId, recipients)) == s
  {
  }

  /** The first three steps of an approval that may go ahead win the guarded update. */
  lemma ApproveWins(s: State, r: RequestId, user: UserId, messageId: MessageId, recipients: nat)
    requires r !in s.requests && s.row.status == PENDING
    ensures Steps(Apply(s, Arrive(r, Approve(user, Begun))), r, 3, messageId, recipients) ==
            s.(row := ApproveRow(s.row, user), winner := Some(r), requests := s.requests[r := Approve(user, Won(ReadDraft(s)))])
  {
    hide Distance, Steps;
    var s0 := Apply(s, Arrive(r, Approve(user, Begun)));
    OneMoreStep(s0, r, 0, messageId, recipients);
    OneMoreStep(s0, r, 1, messageId, recipients);
    OneMoreStep(s0, r, 2, messageId, recipients);
    assert Steps(s0, r, 1, messageId, recipients) == s.(requests := s.requests[r := Approve(user, Allowed)]);
    assert Steps(s0, r, 2, messageId, recipients) == s.(requests := s.requests[r := Approve(user, Read(ReadDraft(s)))]);
  }

  /** The approval row, the email and the send record, after six steps. */
  lemma ApproveRecords(s: State, r: RequestId, user: UserId, messageId: MessageId, recipients: nat)
    requires r !in s.requests && s.row.status == PENDING
    ensures Steps(Apply(s, Arrive(r, Approve(user, Begun))), r, 6, messageId, recipients) ==
            s.(row := s.row.(status := APPROVED, approvedBy := Some(user)), winner := Some(r),
               log := s.log + [Audit(ApprovedEvent(s.id, user)), Emailed(r, CurrentText(s.row), messageId),
                               Audit(SentEvent(s.id, messageId, recipients))],
               requests := s.requests[r := Approve(user, SentRecorded(ReadDraft(s), messageId, recipients))])
  {
    hide Distance, Steps;
    var s0, seen := Apply(s, Arrive(r, Approve(user, Begun))), ReadDraft(s);
    ApproveWins(s, r, user, messageId, recipients);
    OneMoreStep(s0, r, 3, messageId, recipients);
    OneMoreStep(s0, r, 4, messageId, recipients);
    OneMoreStep(s0, r, 5, messageId, recipients);
    assert Steps(s0, r, 4, messageId, recipients).requests == s.requests[r := Approve(user, Recorded(seen))];
    assert Steps(s0, r, 5, messageId, recipients).requests == s.requests[r := Approve(user, Mailed(seen, messageId, recipients))];
  }

  /** The steps of an approval do what the handler does in one go, and then the email is the stored text. */
  lemma ApproveAlone(s: State, r: RequestId, user: UserId, messageId: MessageId, recipients: nat)
    requires r !in s.requests && s.row.status == PENDING
    ensures Steps(Apply(s, Arrive(r, Approve(user, Begun))), r, 9, messageId, recipients) ==
            s.(row := s.row.(status := SENT, approvedBy := Some(user)), winner := Some(r),
               log := s.log + [Audit(ApprovedEvent(s.id, user)), Emailed(r, CurrentText(s.row), messageId),
                               Audit(SentEvent(s.id, messageId, recipients))],
               requests := s.requests[r := Approve(user, Confirmed(ReadDraft(s), messageId, recipients))])
  {
    hide Distance, Steps;
    var s0, seen := Apply(s, Arrive(r, Approve(user, Begun))), ReadDraft(s);
    ApproveRecords(s, r, user, messageId, recipients);
    OneMoreStep(s0, r, 6, messageId, recipients);
    OneMoreStep(s0, r, 7, messageId, recipients);
    OneMoreStep(s0, r, 8, messageId, recipients);
    assert Steps(s0, r, 7, messageId, recipients).requests == s.requests[r := Approve(user, Analysed(seen, messageId, recipients))];
    assert Steps(s0, r, 8, messageId, recipients).requests == s.requests[r := Approve(user, Marked(seen, messageId, recipients))];
  }

  // ---- many drafts ----

  datatype ServiceLabel = Create(id: DraftId, runId: nat, text: Text) | On(id: DraftId, step: Label)

  /** Creating an existing draft and addressing a missing one change nothing. */
  function Serve(drafts: map<DraftId, State>, l: ServiceLabel): map<DraftId, State> {
    match l
    case Create(id, runId, text) => if id in drafts then drafts else drafts[id := Generated(id, runId, text)]
    case On(id, step) => if id in drafts then drafts[id := Apply(drafts[id], step)] else drafts
  }

  function Service(ls: seq<ServiceLabel>): map<DraftId, State> {
    if ls == [] then map[] else Serve(Service(Init(ls)), Last(ls))
  }

  /** The steps addressed to the draft since it exists. */
  function OwnSteps(ls: seq<ServiceLabel>, id: DraftId): seq<Label> {
    if ls == [] then []
    else OwnSteps(Init(ls), id) + if Last(ls).On? && Last(ls).id == id && id in Service(Init(ls)) then [Last(ls).step] else []
  }

  lemma {:induction false} CreatedIff(ls: seq<ServiceLabel>, id: DraftId)
    ensures id in Service(ls) <==> exists n :: 0 <= n < |ls| && ls[n].Create? && ls[n].id == id
  {
    hide Apply;
    if ls == [] {
    } else {
      CreatedIff(Init(ls), id);
      assert forall n | 0 <= n < |Init(ls)| :: Init(ls)[n] == ls[n];
      if Last(ls).Create? && Last(ls).id == id { assert ls[|ls| - 1].id == id; }
    }
  }

  lemma {:induction false} NoOwnStepsBefore(ls: seq<ServiceLabel>, id: DraftId)
    requires id !in Service(ls)
    ensures OwnSteps(ls, id) == []
  {
    if ls == [] {
    } else {
      NoOwnStepsBefore(Init(ls), id);
    }
  }

  /** Each draft of a service has lived through exactly the steps addressed to it, so all of the above holds of it. */
  lemma {:induction false} EveryDraftIsARun(ls: seq<ServiceLabel>, id: DraftId) returns (runId: nat, text: Text)
    requires id in Service(ls)
    ensures Service(ls)[id] == After(Generated(id, runId, text), OwnSteps(ls, id))
    ensures exists n :: 0 <= n < |ls| && ls[n] == Create(id, runId, text)
  {
    hide Apply;
    var before, l := Service(Init(ls)), Last(ls);
    if id !in before {
      runId, text := l.runId, l.text;
      NoOwnStepsBefore(Init(ls), id);
      assert ls[|ls| - 1] == Create(id, runId, text);
    } else {
      runId, text := EveryDraftIsARun(Init(ls), id);
      var own := OwnSteps(Init(ls), id);
      var n :| 0 <= n < |Init(ls)| && Init(ls)[n] == Create(id, runId, text);
      assert ls[n] == Create(id, runId, text);
      if l.On? && l.id == id {
        assert Init(own + [l.step]) == own;
      } else {
        Nothing(own);
      }
    }
  }
}
