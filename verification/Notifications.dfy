/** The notifications log, and the preferences that decide which notifications are suppressed. */
module Notifications {
  import opened Common

  datatype Category =
    | ProfileSubmitted | BusinessSubmitted | AccreditationQueueEntry | AccreditationInformationRequired
    | AccreditationApproved | AccreditationDeclined | AccreditationActivated
    | IdentityVerificationSubmitted | IdentityVerificationComplete | IdentityVerificationQueueEntry

  /** Tied to an outcome the recipient must not miss. */
  predicate Mandatory(c: Category) {
    || c == AccreditationInformationRequired || c == AccreditationApproved
    || c == AccreditationDeclined || c == IdentityVerificationComplete
  }

  datatype Recipient = BrokerRecipient(id: Id) | ClientUserRecipient(id: Id)

  datatype Notification = Notification(recipient: Recipient, category: Category, suppressed: bool)

  datatype Failure = MandatoryCategory | RecipientNotFound

  /** `emails` holds the recipients that exist; a preference row exists only once someone set one. */
  datatype State = State(
    emails: map<Recipient, string>, preferences: map<(Recipient, Category), bool>, notifications: seq<Notification>)

  datatype Op =
    | AddRecipient(recipient: Recipient, email: string)
    | CreateNotification(recipient: Recipient, category: Category)
    | SetPreference(recipient: Recipient, category: Category, enabled: bool)

  function Enabled(s: State, recipient: Recipient, category: Category): bool {
    (recipient, category) in s.preferences ==> s.preferences[(recipient, category)]
  }

  function Try(s: State, op: Op): Result<State, Failure> {
    match op
    case AddRecipient(recipient, email) => Ok(s.(emails := s.emails[recipient := email]))
    case CreateNotification(recipient, category) =>
      if recipient !in s.emails then Throw(RecipientNotFound)
      else Ok(s.(notifications := s.notifications + [Notification(recipient, category, !Enabled(s, recipient, category))]))
    case SetPreference(recipient, category, enabled) =>
      if !enabled && Mandatory(category) then Throw(MandatoryCategory)
      else Ok(s.(preferences := s.preferences[(recipient, category) := enabled]))
  }

  datatype Run = Start | Then(prev: Run, op: Op)

  function Exec(r: Run): State {
    match r
    case Start => State(map[], map[], [])
    case Then(prev, op) =>
      match Try(Exec(prev), op) {
        case Throw(_) => Exec(prev)
        case Ok(s) => s
      }
  }

  /** The four outcomes that can never be turned off. */
  predicate CannotBeTurnedOff(c: Category) {
    match c
    case AccreditationInformationRequired => true
    case AccreditationApproved => true
    case AccreditationDeclined => true
    case IdentityVerificationComplete => true
    case _ => false
  }

  /** What the recipient last asked for, refused requests aside; enabled when they never asked. */
  function LastChoice(r: Run, recipient: Recipient, category: Category): bool {
    match r
    case Start => true
    case Then(prev, op) =>
      if op.SetPreference? && op.recipient == recipient && op.category == category && (op.enabled || !CannotBeTurnedOff(category))
      then op.enabled
      else LastChoice(prev, recipient, category)
  }

  /** The address last given for a recipient, if any. */
  function LastAddress(r: Run, recipient: Recipient): Option<string> {
    match r
    case Start => None
    case Then(prev, op) =>
      if op.AddRecipient? && op.recipient == recipient then Some(op.email) else LastAddress(prev, recipient)
  }

  lemma {:induction false} AddressesAreLastGiven(r: Run, recipient: Recipient)
    ensures LastAddress(r, recipient)
         == if recipient in Exec(r).emails then Some(Exec(r).emails[recipient]) else None
  {
    if r.Then? {
      AddressesAreLastGiven(r.prev, recipient);
    }
  }

  /** A notification is refused only to a recipient nobody added, a preference only when it turns off one of the four. */
  lemma CallsSucceedIff(r: Run, op: Op)
    ensures op.AddRecipient? ==> Try(Exec(r), op).Ok?
    ensures op.CreateNotification? ==>
              if LastAddress(r, op.recipient) == None then Try(Exec(r), op) == Throw(RecipientNotFound) else Try(Exec(r), op).Ok?
    ensures op.SetPreference? ==>
              if !op.enabled && CannotBeTurnedOff(op.category) then Try(Exec(r), op) == Throw(MandatoryCategory) else Try(Exec(r), op).Ok?
    ensures Try(Exec(r), op).Ok? ==>
              |Try(Exec(r), op).value.notifications| == |Exec(r).notifications| + if op.CreateNotification? then 1 else 0
  {
    if op.CreateNotification? {
      AddressesAreLastGiven(r, op.recipient);
    }
  }

  lemma {:induction false} PreferencesFollowChoices(r: Run, recipient: Recipient, category: Category)
    ensures Enabled(Exec(r), recipient, category) == LastChoice(r, recipient, category)
    ensures CannotBeTurnedOff(category) ==> LastChoice(r, recipient, category)
  {
    if r.Then? {
      PreferencesFollowChoices(r.prev, recipient, category);
    }
  }

  /** The call that created notification `i`, with everything before it. */
  function CreatedBy(r: Run, i: nat): Run
    requires i < |Exec(r).notifications|
  {
    if i < |Exec(r.prev).notifications| then CreatedBy(r.prev, i) else r
  }

  /**
   * A notification in the log is suppressed exactly when its recipient's last choice before it was
   * created disabled the category; later choices do not rewrite it, and a mandatory one never is.
   */
  lemma {:induction false} SuppressedIffDisabled(r: Run, i: nat)
    requires i < |Exec(r).notifications|
    ensures var n := Exec(r).notifications[i];
            && CreatedBy(r, i).Then? && CreatedBy(r, i).op == CreateNotification(n.recipient, n.category)
            && (n.suppressed <==> !LastChoice(CreatedBy(r, i).prev, n.recipient, n.category))
            && (CannotBeTurnedOff(n.category) ==> !n.suppressed)
  {
    if i < |Exec(r.prev).notifications| {
      SuppressedIffDisabled(r.prev, i);
    } else {
      PreferencesFollowChoices(r.prev, r.op.recipient, r.op.category);
    }
  }

  class NotificationRepository {
    var emails: map<Recipient, string>
    var preferences: map<(Recipient, Category), bool>
    var notifications: seq<Notification>

    constructor ()
      ensures Contents() == Exec(Start)
    {
      emails, preferences, notifications := map[], map[], [];
    }

    function Contents(): State
      reads this
    {
      State(emails, preferences, notifications)
    }

    /** Inserts the row, suppressed or not, and says whether an email should go out, and where. */
    method Create(recipient: Recipient, category: Category) returns (r: Result<(Id, string, bool), Failure>)
      modifies this`notifications
      ensures match Try(old(Contents()), CreateNotification(recipient, category)) {
                case Throw(e) => r == Throw(e) && Contents() == old(Contents())
                case Ok(s) =>
                  && Contents() == s
                  && r == Ok((|old(notifications)|, old(emails)[recipient], old(Enabled(Contents(), recipient, category))))
              }
    {
      if recipient !in emails {
        return Throw(RecipientNotFound);
      }
      var enabled := true;
      if (recipient, category) in preferences {
        enabled := preferences[(recipient, category)];
      }
      var id := |notifications|;
      notifications := notifications + [Notification(recipient, category, !enabled)];
      return Ok((id, emails[recipient], enabled));
    }

    method Prefer(recipient: Recipient, category: Category, enabled: bool) returns (r: Result<(), Failure>)
      modifies this`preferences
      ensures match Try(old(Contents()), SetPreference(recipient, category, enabled)) {
                case Throw(e) => r == Throw(e) && Contents() == old(Contents())
                case Ok(s) => r == Ok(()) && Contents() == s
              }
    {
      if !enabled && Mandatory(category) {
        return Throw(MandatoryCategory);
      }
      preferences := preferences[(recipient, category) := enabled];
      return Ok(());
    }
  }
}
