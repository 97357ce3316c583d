/** The audit log every repository function appends to, inside its own transaction. */
module Audit {
  import opened Common

  datatype Action =
    | AccreditationRequested
    | AccreditationInformationRequested
    | AccreditationEscalated
    | AccreditationApproved
    | AccreditationDeclined
    | AccreditationActivated
    | AccreditationLapsed
    | AccreditationPartyChanged
    | AccreditationInterviewRecorded
    | AccreditationTrainingConfirmed
    | BusinessCreated
    | BusinessStatusChanged
    | AffiliationRequested
    | AffiliationConfirmed
    | AffiliationEnded
    | RelationshipConsented
    | RelationshipInvited
    | RelationshipDeclined
    | RelationshipRevoked
    | RelationshipEnded
    | RulesetCreated
    | RulesetPublished
    | ClientUserRoleChanged

  datatype SubjectType =
    | AccreditationSubject
    | BusinessSubject
    | AffiliationSubject
    | RelationshipSubject
    | RulesetSubject
    | ClientUserSubject

  datatype AuditRow = AuditRow(
    occurredAt: Time, actor: Actor, action: Action, subjectType: SubjectType, subject: Id)

  class AuditLog {
    var rows: seq<AuditRow>

    constructor ()
      ensures rows == []
    {
      rows := [];
    }

    /** Appends one row through the caller's open transaction; nothing ever rewrites a row. */
    method RecordAuditEvent(row: AuditRow)
      modifies this
      ensures rows == old(rows) + [row]
    {
      rows := rows + [row];
    }
  }
}
