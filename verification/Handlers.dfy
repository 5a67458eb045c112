/**
 The edit and approve handlers run from start to end with nothing in between, against the
 same table and audit log; DraftLifecycle takes the same calls apart and interleaves them.
 */
module Handlers {
  import opened Utf16
  import opened Wrappers
  import opened Drafts
  import opened HtmlEscape

  datatype Email = Email(draftId: DraftId, html: Text, text: Text)

  class Api {
    const drafts: DraftTable
    const audit: AuditWriter
    var outbox: seq<Email>

    constructor ()
      ensures fresh(drafts) && fresh(audit) && outbox == [] && drafts.rows == map[] && audit.events == []
    {
      drafts := new DraftTable();
      audit := new AuditWriter();
      outbox := [];
    }

    /** 400 for a text the schema refuses, 404 for no such draft, 409 for one that is not pending. */
    method PostEdits(id: DraftId, user: UserId, editedText: Text) returns (code: nat)
      modifies drafts, audit
      ensures code in {200, 400, 404, 409}
      ensures code == 400 <==> |editedText| == 0 || |editedText| > 100000
      ensures code == 404 <==> code != 400 && id !in old(drafts.rows)
      ensures code == 409 ==> id in old(drafts.rows) && old(drafts.rows)[id].status != PENDING
      ensures code != 200 ==> drafts.rows == old(drafts.rows) && audit.events == old(audit.events)
      ensures code == 200 ==>
                && id in old(drafts.rows) && old(drafts.rows)[id].status == PENDING
                && drafts.rows == old(drafts.rows)[id := old(drafts.rows)[id].(editedText := Some(editedText))]
                && audit.events == old(audit.events) + [EditEvent(id, user, CurrentText(old(drafts.rows)[id]), editedText)]
    {
      if !Accepts(editedText) {
        return 400;
      }
      var draft := drafts.FindById(id);
      if draft.None? {
        return 404;
      }
      if draft.value.status != PENDING {
        return 409;
      }
      var distance, rate := audit.HumanEdit(id, user, draft.value.fullText, editedText);
      drafts.SaveEditCheckpoint(id, editedText);
      return 200;
    }

    /** A whole approval: the email carries the stored text, in both its forms, and everything is recorded. */
    method PostApprove(id: DraftId, user: UserId, isApprover: bool, messageId: MessageId, recipients: nat) returns (code: nat)
      modifies this, drafts, audit
      ensures code in {200, 403, 404, 409}
      ensures code == 403 <==> !isApprover
      ensures code == 404 <==> isApprover && id !in old(drafts.rows)
      ensures code == 409 ==> id in old(drafts.rows) && old(drafts.rows)[id].status != PENDING
      ensures code == 200 ==> id in old(drafts.rows) && old(drafts.rows)[id].status == PENDING
      ensures code != 200 ==> drafts.rows == old(drafts.rows) && audit.events == old(audit.events) && outbox == old(outbox)
      ensures code == 200 ==>
                var row := old(drafts.rows)[id];
                && drafts.rows == old(drafts.rows)[id := row.(status := SENT, approvedBy := Some(user))]
                && audit.events == old(audit.events) + [ApprovedEvent(id, user), SentEvent(id, messageId, recipients)]
                && outbox == old(outbox) + [Email(id, EscapedBody(CurrentText(row)), CurrentText(row))]
                && Unescape(Last(outbox).html) == CurrentText(drafts.rows[id])
    {
      if !isApprover {
        return 403;
      }
      var draft := drafts.FindById(id);
      if draft.None? {
        return 404;
      }
      if draft.value.status != PENDING {
        return 409;
      }
      var text := draft.value.fullText;
      var ok := drafts.Approve(id, user);
      assert ok;  // nothing came between, so the guard matches
      audit.Approved(id, user);
      outbox := outbox + [Email(id, EscapedBody(text), text)];
      UnescapeUndoes(text);
      audit.Sent(id, messageId, recipients);
      drafts.MarkSent(id);
      return 200;
    }
  }
}
