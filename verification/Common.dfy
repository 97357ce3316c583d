/** Vocabulary shared by every module: identifiers, transaction times, actors, errors. */
module Common {

  /** A row's id is its position in its table, so a new row's id is fresh by construction. */
  type Id = nat

  /** The transaction time `now()`, in days. */
  type Time = real

  datatype Option<+T> = None | Some(value: T)

  datatype Result<+T, +E> = Ok(value: T) | Throw(error: E)

  /** The authorization context a repository function runs under. */
  datatype Actor =
    | Broker(id: Id)
    | ClientUser(id: Id, organisation: Id)
    | PlatformAdmin(id: Id)
    | System

  /** The exceptions the repository functions throw, and the constraint violations of the schema. */
  datatype Error =
    | InsufficientRole
    | AccreditationNotFound
    | InvalidAccreditationTransition
    | NoBusinessAffiliation
    | NoActiveRelationship
    | RowSecurityViolation
    | UniqueViolation
    | BusinessNotFound
    | BusinessNotAffiliatable
    | AlreadyAffiliated
    | NotAffiliated
    | AffiliationNotFound
    | CannotConfirmOwnAffiliation
    | AffiliationNotPending
    | RelationshipNotFound
    | InvalidRelationshipTransition
    | BrokerNotFound
    | RulesetNotFound
    | InvalidRulesetTransition
    | InvalidRulesetDefinition
    | NoSuchRead
    | ClientUserNotFound
    | InvalidCurrentPassword
    | InvalidResetToken
    | RefreshTokenReuseDetected
}
