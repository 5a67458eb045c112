/**
 The draft table and the audit log of the newsletter service. Every write to the table is
 one SQL statement whose WHERE clause guards the current status.
 */
module Drafts {
  import opened Utf16
  import opened Wrappers
  import EditDistance

  type DraftId = nat
  type UserId = nat
  type MessageId = nat

  /** EXPIRED and FAILED exist in the schema but no statement of the service writes them. */
  datatype Status = PENDING | APPROVED | SENT

  datatype Row = Row(runId: nat, status: Status, fullText: Text, editedText: Option<Text>, approvedBy: Option<UserId>)

  /** What a reader of the row is given: the edited text if there is one. */
  function CurrentText(row: Row): Text {
    if row.editedText.Some? then row.editedText.value else row.fullText
  }

  datatype Draft = Draft(runId: nat, status: Status, fullText: Text)

  /** UPDATE ... SET edited_text WHERE status = 'PENDING'. */
  function EditRow(row: Row, text: Text): Row {
    if row.status == PENDING then row.(editedText := Some(text)) else row
  }

  /** UPDATE ... SET status = 'APPROVED' WHERE status = 'PENDING'. */
  function ApproveRow(row: Row, user: UserId): Row {
    if row.status == PENDING then row.(status := APPROVED, approvedBy := Some(user)) else row
  }

  /** UPDATE ... SET status = 'SENT' WHERE status IN ('APPROVED', 'PENDING'). */
  function SendRow(row: Row): Row {
    if row.status in {APPROVED, PENDING} then row.(status := SENT) else row
  }

  function NewRow(runId: nat, fullText: Text): Row {
    Row(runId, PENDING, fullText, None, None)
  }

  const MAX_EDIT: nat := 100000

  /** What the request schema lets through as an edit. */
  predicate Accepts(editedText: Text) {
    0 < |editedText| <= MAX_EDIT
  }

  type Rows = map<DraftId, Row>

  class DraftTable {
    var rows: Rows

    constructor ()
      ensures rows == map[]
    {
      rows := map[];
    }

    method Create(id: DraftId, runId: nat, fullText: Text)
      requires id !in rows
      modifies this
      ensures rows == old(rows)[id := NewRow(runId, fullText)]
      ensures rows == old(rows)[id := Row(runId, PENDING, fullText, None, None)]
    {
      rows := rows[id := Row(runId, PENDING, fullText, None, None)];
    }

    method FindById(id: DraftId) returns (draft: Option<Draft>)
      ensures draft.None? <==> id !in rows
      ensures id in rows ==> draft.value == Draft(rows[id].runId, rows[id].status, CurrentText(rows[id]))
      ensures id in rows ==>
                draft.value.fullText == match rows[id].editedText { case Some(edited) => edited case None => rows[id].fullText }
    {
      if id !in rows {
        return None;
      }
      var row := rows[id];
      var text := match row.editedText { case Some(edited) => edited case None => row.fullText };
      return Some(Draft(row.runId, row.status, text));
    }

    method SaveEditCheckpoint(id: DraftId, editedText: Text)
      modifies this
      ensures rows == if id in old(rows) then old(rows)[id := EditRow(old(rows)[id], editedText)] else old(rows)
      ensures rows == if id in old(rows) && old(rows)[id].status == PENDING
                      then old(rows)[id := old(rows)[id].(editedText := Some(editedText))] else old(rows)
    {
      if id in rows && rows[id].status == PENDING {
        rows := rows[id := rows[id].(editedText := Some(editedText))];
      }
    }

    /** Fails when the guard matched no row. */
    method Approve(id: DraftId, user: UserId) returns (ok: bool)
      modifies this
      ensures rows == if id in old(rows) then old(rows)[id := ApproveRow(old(rows)[id], user)] else old(rows)
      ensures ok <==> id in old(rows) && old(rows)[id].status == PENDING
      ensures rows == if ok then old(rows)[id := old(rows)[id].(status := APPROVED, approvedBy := Some(user))] else old(rows)
    {
      var rowCount := 0;
      if id in rows && rows[id].status == PENDING {
        rows := rows[id := rows[id].(status := APPROVED, approvedBy := Some(user))];
        rowCount := 1;
      }
      ok := rowCount != 0;
    }

    method MarkSent(id: DraftId)
      modifies this
      ensures rows == if id in old(rows) then old(rows)[id := SendRow(old(rows)[id])] else old(rows)
      ensures rows == if id in old(rows) && old(rows)[id].status != SENT
                      then old(rows)[id := old(rows)[id].(status := SENT)] else old(rows)
    {
      if id in rows && (rows[id].status == APPROVED || rows[id].status == PENDING) {
        rows := rows[id := rows[id].(status := SENT)];
      }
    }
  }

  // ---- the audit log ----

  datatype Event =
    | HumanEdit(draftId: DraftId, actor: UserId, distance: nat, ratePct: real, originalLength: nat, editedLength: nat)
    | ApprovedEvent(draftId: DraftId, actor: UserId)
    | SentEvent(draftId: DraftId, messageId: MessageId, recipients: nat)

  function EditRate(distance: nat, original: Text): real {
    distance as real / (if |original| >= 1 then |original| else 1) as real
  }

  lemma RateIsPerCharacter(distance: nat, original: Text)
    ensures EditRate(distance, original) * (if original == [] then 1 else |original|) as real == distance as real
  {
    var n := if |original| >= 1 then |original| else 1;
    assert (distance as real / n as real) * n as real == distance as real;
  }

  /** Percentage with two decimals, rounded half up. */
  function RoundedPct(rate: real): real {
    (rate * 10000.0 + 0.5).Floor as real / 100.0
  }

  /** The recorded percentage is the multiple of 0.01 nearest to the rate. */
  lemma RoundedPctIsNearest(rate: real) returns (hundredths: int)
    ensures RoundedPct(rate) * 100.0 == hundredths as real
    ensures -0.5 < hundredths as real - rate * 10000.0 <= 0.5
  {
    hundredths := (rate * 10000.0 + 0.5).Floor;
  }

  function EditEvent(id: DraftId, user: UserId, original: Text, edited: Text): Event {
    var d := EditDistance.Distance(original, edited);
    HumanEdit(id, user, d, RoundedPct(EditRate(d, original)), |original|, |edited|)
  }

  type Analytics = map<MessageId, DraftId>

  class AuditWriter {
    var events: seq<Event>
    var analytics: Analytics

    constructor ()
      ensures events == [] && analytics == map[]
    {
      events, analytics := [], map[];
    }

    /** The recorded distance is that of a cheapest edit script from the original text; the rate is per original character. */
    method HumanEdit(id: DraftId, user: UserId, original: Text, edited: Text) returns (distance: nat, rate: real)
      modifies this
      ensures events == old(events) + [EditEvent(id, user, original, edited)]
      ensures analytics == old(analytics)
      ensures EditDistance.IsEditDistance(original, edited, distance)
      ensures Last(events) == Event.HumanEdit(id, user, distance, RoundedPct(rate), |original|, |edited|)
      ensures rate * (if original == [] then 1 else |original|) as real == distance as real
    {
      hide EditDistance.IsEditDistance, EditDistance.Distance, EditRate, RoundedPct;
      distance := EditDistance.LevenshteinDistance(original, edited);
      rate := EditRate(distance, original);
      RateIsPerCharacter(distance, original);
      events := events + [Event.HumanEdit(id, user, distance, RoundedPct(rate), |original|, |edited|)];
    }

    method Approved(id: DraftId, user: UserId)
      modifies this
      ensures events == old(events) + [ApprovedEvent(id, user)] && analytics == old(analytics)
    {
      events := events + [ApprovedEvent(id, user)];
    }

    method Sent(id: DraftId, messageId: MessageId, recipients: nat)
      modifies this
      ensures events == old(events) + [SentEvent(id, messageId, recipients)]
      ensures analytics == if messageId in old(analytics) then old(analytics) else old(analytics)[messageId := id]
    {
      events := events + [SentEvent(id, messageId, recipients)];
      // ON CONFLICT (ses_message_id) DO NOTHING
      if messageId !in analytics {
        analytics := analytics[messageId := id];
      }
    }
  }
}
