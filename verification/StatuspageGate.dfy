/**
 The calls of the approval gate run from start to end with nothing in between; ApprovalGate
 takes the same calls apart and interleaves them. `posts` are the incidents created so far at
 the status page; None as its answer is a call that failed there.
 */
module StatuspageGate {
  import opened Utf16
  import opened Wrappers
  import opened AuditTrail
  import opened ApprovalGate

  type ItemKey = (nat, DraftId)

  datatype Outcome = NotFound | NotPending | PublishFailed | PublishedAs(statuspageId: nat)

  /** No write takes an approval away. */
  lemma ApprovalStays(trail: Trail, ms: nat, row: Row)
    requires AuditTrail.Approved(trail)
    ensures AuditTrail.Approved(Written(trail, ms, row))
  {
    var k :| k in trail && k.action == DraftApproved;
    assert k in Written(trail, ms, row);
  }

  class StatuspageApprovalGate {
    const audit: AuditWriter
    var items: map<ItemKey, Item>
    var posts: seq<(nat, Text)>

    constructor ()
      ensures fresh(audit) && items == map[] && posts == [] && audit.incidents == map[]
    {
      audit := new AuditWriter();
      items, posts := map[], [];
    }

    method CreateDraft(incident: nat, body: Text, user: UserId, ms: nat, sha: Text -> Digest) returns (draftId: DraftId)
      modifies this, audit
      ensures draftId == ms && posts == old(posts)
      ensures items == old(items)[(incident, draftId) := Item(PENDING_APPROVAL, Some(body))]
      ensures audit.TrailOf(incident) == Written(old(audit.TrailOf(incident)), ms, CreatedRow(user, draftId, sha(body)))
      ensures audit.TrailOf(incident).Keys == old(audit.TrailOf(incident)).Keys + {SortKey(ms, DraftCreated)}
      ensures forall i | i != incident :: audit.TrailOf(i) == old(audit.TrailOf(i))
    {
      draftId := ms;
      var hash := sha(body);
      items := items[(incident, draftId) := Item(PENDING_APPROVAL, Some(body))];
      audit.Write(incident, ms, CreatedRow(user, draftId, hash));
    }

    /** Only a pending draft is posted, and not without an approval row; a failed post leaves the draft pending, with that row written. */
    method ApproveAndPublish(incident: nat, draftId: DraftId, user: UserId, ms: nat, answer: Option<nat>, later: nat, sha: Text -> Digest)
      returns (outcome: Outcome)
      modifies this, audit
      ensures var k := (incident, draftId);
              && (outcome.NotFound? <==> k !in old(items))
              && (k in old(items) && (old(items)[k].status != PENDING_APPROVAL || old(items)[k].body.None?) ==> outcome.NotPending?)
              && (k in old(items) && old(items)[k].status == PENDING_APPROVAL && old(items)[k].body.Some? ==>
                    outcome == match answer { case None => PublishFailed case Some(id) => PublishedAs(id) })
      ensures outcome.NotFound? || outcome.NotPending? ==>
                items == old(items) && posts == old(posts) && audit.TrailOf(incident) == old(audit.TrailOf(incident))
      ensures outcome.PublishFailed? || outcome.PublishedAs? ==>
                var k, item := (incident, draftId), old(items)[(incident, draftId)];
                var row := ApprovedRow(user, draftId, sha(item.body.value));
                var trail := Written(old(audit.TrailOf(incident)), ms, row);
                if outcome.PublishFailed? then items == old(items) && posts == old(posts) && audit.TrailOf(incident) == trail
                else
                  && items == old(items)[k := item.(status := PUBLISHED)]
                  && posts == old(posts) + [(incident, item.body.value)]
                  && audit.TrailOf(incident) == Written(trail, later, PublishedRow(user, draftId, row.sha256, outcome.statuspageId))
      ensures outcome.PublishedAs? || outcome.PublishFailed? ==> AuditTrail.Approved(audit.TrailOf(incident))
      ensures outcome.PublishedAs? ==>
                audit.TrailOf(incident).Keys == old(audit.TrailOf(incident)).Keys + {SortKey(ms, DraftApproved), SortKey(later, Published)}
      ensures forall i | i != incident :: audit.TrailOf(i) == old(audit.TrailOf(i))
    {
      var k := (incident, draftId);
      if k !in items {
        return NotFound;
      }
      var item := items[k];
      if item.status != PENDING_APPROVAL || item.body.None? {
        return NotPending;
      }
      var hash := audit.WriteStatuspageApproval(incident, ms, user, item.body.value, draftId, sha);
      var ok := audit.VerifyApprovalBeforePublish(incident);
      assert ok;  // the row just written is read back
      if answer.None? {
        return PublishFailed;
      }
      posts := posts + [(incident, item.body.value)];
      ApprovalStays(audit.TrailOf(incident), later, PublishedRow(user, draftId, hash, answer.value));
      audit.Write(incident, later, PublishedRow(user, draftId, hash, answer.value));
      items := items[k := item.(status := PUBLISHED)];
      return PublishedAs(answer.value);
    }

    method RejectDraft(incident: nat, draftId: DraftId, user: UserId, ms: nat)
      modifies this, audit
      ensures posts == old(posts)
      ensures var k := (incident, draftId);
              items == old(items)[k := if k in old(items) then old(items)[k].(status := REJECTED) else Item(REJECTED, None)]
      ensures audit.TrailOf(incident) == Written(old(audit.TrailOf(incident)), ms, RejectedRow(user, draftId))
      ensures audit.TrailOf(incident).Keys == old(audit.TrailOf(incident)).Keys + {SortKey(ms, ApprovalRejected)}
      ensures forall i | i != incident :: audit.TrailOf(i) == old(audit.TrailOf(i))
    {
      var k := (incident, draftId);
      items := items[k := if k in items then items[k].(status := REJECTED) else Item(REJECTED, None)];
      audit.Write(incident, ms, RejectedRow(user, draftId));
    }
  }
}
