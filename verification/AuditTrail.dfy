/**
 The audit rows of an incident. A row's key is its millisecond and its action, and writing to
 a key that is taken silently keeps the row that is there.
 */
module AuditTrail {
  import opened Utf16
  import opened Wrappers

  type DraftId = nat
  type UserId = nat
  type Digest = nat

  datatype Action = DraftCreated | DraftApproved | Published | ApprovalRejected | OtherAction(kind: nat)

  /** The per-action details that matter here. */
  datatype Row =
    | CreatedRow(actor: UserId, draftId: DraftId, sha256: Digest)
    | ApprovedRow(actor: UserId, draftId: DraftId, sha256: Digest)
    | PublishedRow(actor: UserId, draftId: DraftId, sha256: Digest, statuspageId: nat)
    | RejectedRow(actor: UserId, draftId: DraftId)
    | OtherRow(actor: UserId, kind: nat)
  {
    function Action(): Action {
      match this
      case CreatedRow(_, _, _) => DraftCreated
      case ApprovedRow(_, _, _) => DraftApproved
      case PublishedRow(_, _, _, _) => Published
      case RejectedRow(_, _) => ApprovalRejected
      case OtherRow(_, k) => OtherAction(k)
    }
  }

  /** AUDIT#<ms>#<action> */
  datatype SortKey = SortKey(ms: nat, action: Action)

  type Trail = map<SortKey, Row>

  predicate Taken(trail: Trail, ms: nat, row: Row) {
    SortKey(ms, row.Action()) in trail
  }

  /** PutItem with attribute_not_exists(SK), the failure swallowed. */
  function Written(trail: Trail, ms: nat, row: Row): Trail {
    if Taken(trail, ms, row) then trail else trail[SortKey(ms, row.Action()) := row]
  }

  /** What the consistent query for approval rows returns. */
  function ApprovalKeys(trail: Trail): set<SortKey> {
    set k | k in trail && k.action == DraftApproved
  }

  ghost predicate Approved(trail: Trail) {
    exists k :: k in trail && k.action == DraftApproved
  }

  lemma ApprovedIff(trail: Trail)
    ensures Approved(trail) <==> ApprovalKeys(trail) != {}
  {
    if Approved(trail) {
      var k :| k in trail && k.action == DraftApproved;
      assert k in ApprovalKeys(trail);
    }
  }

  /** Every row sits under its own action. */
  ghost predicate Filed(trail: Trail) {
    forall k <- trail :: trail[k].Action() == k.action
  }

  class AuditWriter {
    var incidents: map<nat, Trail>

    constructor ()
      ensures incidents == map[]
    {
      incidents := map[];
    }

    function TrailOf(incident: nat): Trail
      reads this
    {
      if incident in incidents then incidents[incident] else map[]
    }

    method Write(incident: nat, ms: nat, row: Row)
      modifies this
      ensures TrailOf(incident) == Written(old(TrailOf(incident)), ms, row)
      ensures var trail, key := old(TrailOf(incident)), SortKey(ms, row.Action());
              TrailOf(incident) == if key in trail then trail else trail[key := row]
      ensures forall i | i != incident :: TrailOf(i) == old(TrailOf(i))
    {
      var trail := if incident in incidents then incidents[incident] else map[];
      var key := SortKey(ms, row.Action());
      if key !in trail {
        incidents := incidents[incident := trail[key := row]];
      }
    }

    method WriteStatuspageApproval(incident: nat, ms: nat, approver: UserId, body: Text, draftId: DraftId, sha: Text -> Digest)
      returns (sha256: Digest)
      modifies this
      ensures sha256 == sha(body)
      ensures TrailOf(incident) == Written(old(TrailOf(incident)), ms, ApprovedRow(approver, draftId, sha256))
      ensures forall i | i != incident :: TrailOf(i) == old(TrailOf(i))
      ensures Approved(TrailOf(incident))
    {
      sha256 := sha(body);
      Write(incident, ms, ApprovedRow(approver, draftId, sha256));
      var key := SortKey(ms, DraftApproved);
      assert key in TrailOf(incident) && key.action == DraftApproved;
    }

    /** The consistent read before a publish; false is AutoPublishNotPermitted. */
    method VerifyApprovalBeforePublish(incident: nat) returns (ok: bool)
      ensures ok <==> Approved(TrailOf(incident))
    {
      var trail := if incident in incidents then incidents[incident] else map[];
      var items := ApprovalKeys(trail);
      ok := items != {};
      ApprovedIff(trail);
    }

    /** Which of the published rows, listed with their incident, have no approval beside them. */
    method AuditApprovalGateViolations(published: seq<(nat, Row)>) returns (violations: seq<(nat, Row)>)
      ensures violations == Unapproved(published)
    {
      violations := [];
      for n := 0 to |published|
        invariant violations == Unapproved(published[..n])
      {
        assert Init(published[..n + 1]) == published[..n];
        var ok := VerifyApprovalBeforePublish(published[n].0);
        if !ok {
          violations := violations + [published[n]];
        }
      }
      assert published[..|published|] == published;
    }

    ghost function Unapproved(published: seq<(nat, Row)>): seq<(nat, Row)>
      reads this
    {
      if published == [] then []
      else Unapproved(Init(published)) + if Approved(TrailOf(Last(published).0)) then [] else [Last(published)]
    }

    /** The audit reports a published row, as often as it was published, exactly when its incident has no approval. */
    lemma {:induction false} ViolationsIff(published: seq<(nat, Row)>, p: (nat, Row))
      ensures multiset(Unapproved(published))[p] == if Approved(TrailOf(p.0)) then 0 else multiset(published)[p]
    {
      if published == [] {
      } else {
        ViolationsIff(Init(published), p);
        assert published == Init(published) + [Last(published)];
      }
    }

    /** So it finds nothing exactly when every published row's incident has an approval. */
    lemma {:induction false} NoViolationsIff(published: seq<(nat, Row)>)
      ensures Unapproved(published) == [] <==> forall p <- published :: Approved(TrailOf(p.0))
    {
      if published == [] {
      } else {
        NoViolationsIff(Init(published));
      }
    }
  }
}
