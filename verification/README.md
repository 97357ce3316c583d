# Broker accreditation platform: verified model

A Dafny model of the repository functions of the broker accreditation platform, and proofs of what
they keep over whole runs. `dafny verify dfyconfig.toml` checks the project.

## What is modelled

Each repository function is a transaction over tables. The model gives it as a total function from
state to result (`Try...` / `Perform`), with the error paths the code has. Most also stand as methods
of a repository class whose fields are the tables, updated statement by statement, with the code's
loops; each method is proved to do exactly what its function says. Role changes, business status
changes and reads, verification outcomes, profile photos, membership updates, business saves, and
adding or renaming a principal have the function only. The theorems are about the functions, and
about runs: lists of calls with their transaction times, starting from empty tables.

| Modules | Subject |
|---|---|
| `Common`, `Audit` | identifiers, times, actors, errors; the append-only audit log |
| `Platform`, `PlatformRepository` | affiliations, relationships, rulesets, roles and accreditations as one state machine |
| `Automaton`, `Lifecycle`, `Completeness`, `LifecycleTheorems` | the automaton of accreditation histories; soundness, completeness, and what follows |
| `Reconstruction` | the as-of reconstruction of statuses from the audit log |
| `AccreditationOrigins`, `AffiliationOrigins`, `RelationshipOrigins`, `RulesetOrigins`, `AuditTrail` | when each call succeeds, and which call of the run gave every row each of its values |
| `Records`, `Deadlines` | decisions, training confirmations, platform identifiers and training deadlines over runs |
| `Steps`, `Invariants`, `Reachability` | what one call may change, and the invariants of every run |
| `AffiliationTrust` | how affiliates of a business were let in |
| `Rulesets`, `RulesetDefinitions`, `RulesetEvaluator` | draft/publish/supersede chains; validation and evaluation of untyped JSON |
| `Relationships`, `Billing` | consent, effective dates and metering |
| `Temporal`, `PastRecords`, `Documents` | check results and evidence: insert-then-close versions, as-of reads, required documents |
| `Sessions`, `SessionOrigins` | refresh-token families, reuse detection, password changes and resets |
| `Columns`, `BusinessStatuses`, `Profiles`, `ProfileOrigins`, `Businesses`, `BusinessOrigins` | onboarding: partial saves, outstanding items, submit gates |
| `Authorization`, `Notifications` | session actors, system windows, atomicity; suppression of notifications |
| `Abn`, `Migrate` | the ABN checksum; the migration runner |

Assumptions:

- A call of `withAuthorizationContext` is one atomic step and steps are serial; a throw leaves the
  state it began in. `Authorization` proves the second part, with requests interleaved on a pool of
  connections, from the begin/commit/rollback code; it takes from the database that statements of an
  aborted transaction fail, that its commit is a rollback, and that transaction-local settings end
  with the transaction.
  A function that opens two such transactions is two steps, so other calls may come between them:
  what the first one read is remembered in `lookups`, and any later second step may use it.
- `now()` is the transaction's time. It strictly increases from one transaction to the next where a
  theorem says `Clocked`; the temporal tables need only that it never goes back.
- A new row's id is its position in its table, so ids are fresh. Random tokens are fresh and hashing
  is injective, so a token is named by its row and a stored hash by its plain text.
- `RETURNING` lists rows in table order. Column defaults, unique indexes and the row policies used
  are those of `db/migrations` (0007, 0018, 0021, 0023, 0024, 0026).

Where the code and its documentation differ:

- An accreditation active some time after its pair's affiliation ended need not have a party change
  in its log since that end: if it was already flagged, the end logs nothing for it, and it can be
  readmitted directly (`ReadmittedUnshown`, with a whole run in `PartyChangeIsNotRepeated`). The
  party change, escalation and senior approval are guaranteed exactly when the end did not find it
  flagged (`ReadmissionAlwaysShowsIff`); the last two are there in any case (`ActiveAfterEnd`).
- `reconstructAsOf` is documented as the state at a past date, but picks businesses by the broker's
  affiliations at the time of the call. `ReadsThePastIff` gives the exact condition under which that
  makes no difference, and `LeavingHidesThePast` a run in which it loses a row.

## Model

The first 104 rows, down to `Migrate.AddedFilesRunInOrderIff`, are the main results: statements about
every run, state or input. The next 69, down to `Authorization.UninterruptedRequest`, are supporting
results: what one call does, and the lemmas the main results stand on. The last 32 are refinements:
methods proved against the functions the results are about.

| member | source | states |
|---|---|---|
| Lifecycle.LogReplaysToStatusAt | src/modules/brokers/brokers.repository.ts:550-606 | at the end of any run, folding an accreditation's rows up to any time gives exactly the status it had then, and none exactly when it did not exist yet |
| Reconstruction.OrderedReadsReplay | src/modules/brokers/brokers.repository.ts:588-602 | whatever order `ORDER BY occurred_at` gives to equal times, the rows read come back in insertion order and fold to the status at that time |
| PlatformRepository.ReconstructionIsThePast | src/modules/brokers/brokers.repository.ts:577-606 | in every run the reconstruction's list is exactly the broker's accreditations existing at the date, each once, in table order, with its status then |
| Lifecycle.HistoriesAreAccepted | src/modules/accreditation/accreditation.repository.ts:473-651 | soundness: every history a run logs is a word of the automaton, which ends at the row's status and decision step |
| Completeness.EveryWordHappens | src/modules/accreditation/accreditation.repository.ts:121-237 | completeness: every word the automaton accepts is the history of an accreditation in some clocked run |
| Completeness.Realise | src/modules/accreditation/accreditation.repository.ts:473-651 | from any reachable state, every event the automaton allows an accreditation can be brought about next |
| LifecycleTheorems.DecisionAuthority | src/modules/accreditation/accreditation.repository.ts:540-625 | a decision by anyone but a senior approver directly follows the creation and there is at most one; after an escalation or information request every decision is a senior approver's |
| LifecycleTheorems.StepNeverResets | src/modules/accreditation/accreditation.repository.ts:510-531 | once at the senior step, an accreditation stays there in every continuation |
| LifecycleTheorems.LifecycleShape | src/modules/accreditation/accreditation.repository.ts:560-651 | declined is absorbing, pending has a deadline, and between an activation or lapse and a later activation lie an escalation and a senior approval |
| LifecycleTheorems.RequestedMeansAffiliated | src/modules/accreditation/accreditation.repository.ts:150-164 | a requested accreditation's pair holds an active affiliation in every reachable state |
| LifecycleTheorems.ActiveAfterEnd | src/modules/accreditation/accreditation.repository.ts:698-725 | an accreditation active some time after such an end was escalated and then approved by a senior approver since |
| LifecycleTheorems.ReadmissionAlwaysShowsIff | src/modules/accreditation/accreditation.repository.ts:698-725 | at the end of an affiliation: every continuation in which the accreditation is active shows a party change, an escalation and a senior approval in its log since, exactly when the end did not find it flagged already |
| LifecycleTheorems.UnflaggedReadmissionShows | src/modules/accreditation/accreditation.repository.ts:698-725 | an accreditation the end found unflagged, active later, has all three in its log since |
| LifecycleTheorems.ReadmittedUnshown | src/modules/accreditation/accreditation.repository.ts:707-712 | one the end found flagged can be escalated, approved and activated with no party change since |
| LifecycleTheorems.PartyChangeIsNotRepeated | src/modules/accreditation/accreditation.repository.ts:707-712 | a run in which the party change is not logged again after an affiliation's end |
| AccreditationOrigins.AccreditationsAreTraced | src/modules/accreditation/accreditation.repository.ts:149-185 | every accreditation was inserted by one call, for its broker or the system, when the broker was active in the business, linked to the lender and free in the scope, with the version its read had resolved |
| AccreditationOrigins.RelationshipIsOfThePair | src/modules/accreditation/accreditation.repository.ts:158-164 | in every reachable state an accreditation's relationship is one of its own broker and lender, and it was active and open when the accreditation was asked for |
| AccreditationOrigins.ToldUnlinkedIff | src/modules/accreditation/accreditation.repository.ts:158-163 | an affiliated caller is told there is no active relationship exactly when no row of that broker and lender is active with no end date |
| AccreditationOrigins.CapturedVersionWasCurrent | src/modules/accreditation/accreditation.repository.ts:138-148 | the captured version was the published one of the request's lender, brand, role, scope and pathway at some time before the request, and none when that key had none then |
| AccreditationOrigins.StepTouches | src/modules/accreditation/accreditation.repository.ts:473-725 | no call changes an accreditation but one on it by its lender's side, a sweep of its lender, or its own broker leaving the business it is held through |
| AccreditationOrigins.DecisionsAreTraced | src/modules/accreditation/accreditation.repository.ts:540-625 | a decision on record was made by a call then, an approval for what is pending, active or lapsed and a decline for what is declined, and at the senior step by a client user stored as senior approver at that moment |
| PlatformRepository.OutstandingItemsNeverFail | src/modules/accreditation/accreditation.repository.ts:403-449 | in every run, evaluating a captured ruleset never fails and gives the owed groups of the definition as captured |
| Records.DecisionsMirrorLog | src/modules/accreditation/accreditation.repository.ts:451-470 | in every run the decisions table is the decision rows of the audit log, in order |
| Records.PlatformIdMeansActivated | src/modules/accreditation/training.repository.ts:82-93 | a broker holds a platform id exactly when the log shows an activation of some accreditation of theirs |
| Records.PlatformIdsAreUnique | src/modules/accreditation/training.repository.ts:82-93 | no two brokers ever hold the same platform id, not even at different times |
| Records.ActivatedAtIsLogged | src/modules/accreditation/training.repository.ts:70-80 | the activation column is set exactly when the log shows an activation |
| Records.FirstValuesAreKept | src/modules/accreditation/training.repository.ts:26-41 | platform ids and first training confirmations never change |
| Deadlines.PendingIsDueAfterApproval | src/modules/accreditation/accreditation.repository.ts:547-590 | in every run a pending accreditation is due after its approval by the number at `training.deadlineDays` of its captured definition, and by 60 days when none was captured or it has no such number |
| Deadlines.LapsesOnlyPastDeadline | src/modules/accreditation/training.repository.ts:137-144 | only its own lender's sweep lapses an accreditation, from pending, strictly after those days |
| Deadlines.SweepLapsesExactly | src/modules/accreditation/training.repository.ts:131-144 | in every run a sweep by the system or the lender's own client user lapses exactly the lender's pending accreditations whose days have passed, and changes no other row |
| AuditTrail.EveryRowIsTraced | src/modules/audit/audit.repository.ts:25-41 | every row of the audit log stands for one call of the run, made then, by the actor and about the subject it names |
| AuditTrail.EveryCallIsLogged | src/modules/audit/audit.repository.ts:25-41 | a successful call leaves one row that stands for it, a read none, and a sweep only rows for what it hit |
| AffiliationOrigins.ReadsWereSo | src/modules/businesses/businesses.repository.ts:411-429 | whatever a call carries from its first transaction into its second was so at some earlier point of the run |
| AffiliationTrust.EveryAffiliateIsTrusted | src/modules/businesses/businesses.repository.ts:460-493 | every active affiliation has a finite chain of confirmations, each by another broker active in the business then, back to the founder |
| AffiliationTrust.EveryFormerAffiliateWasTrusted | src/modules/businesses/businesses.repository.ts:460-493 | the same for any affiliation that was ever active |
| AffiliationTrust.AbandonedForever | src/modules/businesses/businesses.repository.ts:411-528 | a business left with no active affiliate never regains one |
| AffiliationTrust.OneLiveAffiliationPerPair | src/modules/businesses/businesses.repository.ts:430-436 | a pair never holds two live affiliations |
| Reachability.OneAccreditationPerScope | db/migrations/0024_accreditations.sql:60-71 | in every run at most one accreditation of a broker, lender, brand, role and product scope is not declined |
| Reachability.Reachable | src/modules/accreditation/accreditation.repository.ts:121-237 | every reachable state satisfies the invariant: existing businesses, one live row per pair and per scope, coherent statuses, captured versions once published |
| RulesetDefinitions.ValidIffDecodes | src/modules/rulesets/ruleset-validation.ts:17-26 | the validator accepts a condition exactly when it decodes, nested ones included |
| RulesetDefinitions.AcceptedByName | src/modules/rulesets/ruleset-validation.ts:17-26 | the validator accepts exactly `always`, `lt` and `gte` with a number, `all_of` and `any_of` with a non-empty array of accepted conditions |
| RulesetDefinitions.ComparesByName | src/modules/rulesets/ruleset-evaluator.ts:11-17 | `always` is true, `lt` is experience strictly below the literal, `gte` at least it, and neither is true of an unknown experience |
| RulesetDefinitions.ListsByName | src/modules/rulesets/ruleset-evaluator.ts:18-22 | on an accepted condition `all_of` is true exactly when every nested condition is, `any_of` exactly when some is |
| RulesetDefinitions.RawEvaluationIsTotal | src/modules/rulesets/ruleset-evaluator.ts:11-24 | on an accepted condition of any depth, evaluating the raw JSON succeeds and agrees with the decoded condition |
| RulesetDefinitions.MonotoneInKnowledge | src/modules/rulesets/ruleset-evaluator.ts:11-24 | a condition true with unknown experience is true for every experience |
| RulesetDefinitions.OnlyLiteralsDistinguish | src/modules/rulesets/ruleset-evaluator.ts:11-24 | two experience values no literal of the condition separates get the same truth |
| RulesetEvaluator.ValidDefinitionIffDecodes | src/modules/rulesets/ruleset-validation.ts:30-65 | the validator accepts a definition exactly when all its groups decode |
| RulesetEvaluator.DecodesWhatIsWritten | src/modules/rulesets/ruleset-validation.ts:36-53 | a group is decoded from exactly the JSON that writes it, member by member |
| RulesetEvaluator.OutstandingItemsAreTotal | src/modules/rulesets/ruleset-evaluator.ts:34-48 | on an accepted definition the raw evaluation succeeds and lists the decoded groups' requirements |
| RulesetEvaluator.OutstandingItemsAreAsked | src/modules/rulesets/ruleset-evaluator.ts:26-53 | read off the stored JSON: first the profile's groups, then the business's, those whose condition holds and none of whose alternatives is met, in definition order, each with its own id and label |
| RulesetEvaluator.ListsEachOwedGroupOnce | src/modules/rulesets/ruleset-evaluator.ts:34-48 | the list holds each owed group of the subject exactly once, in definition order |
| RulesetEvaluator.ProfileAndBusinessPartition | src/modules/accreditation/accreditation.repository.ts:442-447 | the profile and business lists together hold every owed group exactly once |
| RulesetEvaluator.EvidenceNeverAdds | src/modules/rulesets/ruleset-evaluator.ts:26-48 | adding documents or membership never adds an outstanding group |
| RulesetEvaluator.StatingExperienceNeverRemoves | src/modules/rulesets/ruleset-evaluator.ts:34-48 | stating an unknown experience never removes one |
| Reachability.CapturedRulesetsStayEvaluable | src/modules/accreditation/accreditation.repository.ts:138-185 | a captured version was published for its key, stays captured, keeps its JSON though superseded, and decodes and evaluates |
| Reachability.VersionsFormOnePath | src/modules/rulesets/rulesets.repository.ts:92-136 | per key the ever-published versions form one path by publication time, ending at the only published one, which resolve returns |
| Reachability.RulesetsOnlyMoveForward | src/modules/rulesets/rulesets.repository.ts:92-122 | versions only go draft, published, superseded; key, number and JSON never change |
| Rulesets.VersionsAreOneToN | src/modules/rulesets/rulesets.repository.ts:44-55 | a key's version numbers are exactly 1 to n, each once |
| RelationshipOrigins.ConsentsAreTraced | src/modules/relationships/relationships.repository.ts:60-225 | whatever was ever active, its own broker consented to in a call, to the version and at the time on record |
| RelationshipOrigins.ClosingsAreTraced | src/modules/relationships/relationships.repository.ts:228-319 | a relationship is declined or revoked only by its broker and ended only by its organisation, at the time and for the reason on record |
| Billing.RelationshipsAreBilledOnce | src/modules/relationships/relationships.repository.ts:86-225 | per organisation and broker, linked events are as many as the pair's relationships that were active at some time of the run |
| Billing.EverActiveIffWasActive | src/modules/relationships/relationships.repository.ts:184-319 | a status of active, revoked or ended means, in every run, that the relationship was once active |
| Reachability.ClosedRelationshipsAreFrozen | src/modules/relationships/relationships.repository.ts:228-319 | declined, revoked and ended relationships never change; an activation's consent date stays |
| Temporal.AsOfIsThePast | src/modules/brokers/brokers.repository.ts:614-634 | the as-of filter passes exactly the rows that were current at the time, with the content they had |
| Temporal.AtMostOneValid | src/modules/brokers/brokers.repository.ts:614-634 | for every key and time, at most one row |
| Temporal.ValidFromFirstWrite | src/modules/brokers/brokers.repository.ts:614-634 | one row exactly when the key had been written by then: no gap, ever |
| Temporal.VersionsFormOnePath | src/modules/verification/check-result.repository.ts:25-53 | superseded_by links a key's versions into one path in insertion order, each ending when the next begins, the last one current |
| Temporal.RowLastsUntilNextWrite | src/modules/evidence/evidence.repository.ts:122-156 | after any writes, the row of each write holds what was written, from then until the next write of the same subject and type |
| Temporal.PayloadsAreNeverSuperseded | src/modules/evidence/evidence.repository.ts:43-58 | nothing supersedes a provider payload: the filter passes it at every date from its capture on |
| PastRecords.ReadsThePastIff | src/modules/brokers/brokers.repository.ts:608-634 | at the end of any run, picking businesses by present affiliations reads exactly the record of the past date when and only when no business joined or left since had anything on file then |
| PastRecords.OwnRecordsAreAlwaysRead | src/modules/brokers/brokers.repository.ts:614-634 | what was written about the broker is read as of exactly the dates from then until it was next written, whatever happened to the broker's affiliations |
| PastRecords.LeavingHidesThePast | src/modules/brokers/brokers.repository.ts:608-612 | a run in which a broker founds a business, a check is recorded, the broker leaves, and the check is no longer in the reconstruction as of its own time |
| Documents.ReportsExactlyWhatIsMissing | src/modules/evidence/evidence.repository.ts:231-256 | whatever was superseded before, a document is reported missing or expired exactly when it is asked for and has no current version, or an expired one |
| SessionOrigins.PasswordsMoveOnlyBySetting | src/modules/identity/identity.repository.ts:477-566 | whatever the call, a password is set exactly by a change giving the current one or a redemption of an unused, unexpired reset token of the account, and every other password stays |
| SessionOrigins.ChangesPasswordIff | src/modules/identity/identity.repository.ts:485-491 | a change succeeds exactly when the account exists and the given password is its current one; it then sets that account's password only, and otherwise throws and changes nothing |
| SessionOrigins.PasswordsAreTraced | src/modules/identity/identity.repository.ts:477-566 | in every run a password is the one its account started with, or that of the last call that set it |
| SessionOrigins.TokensAreTraced | src/modules/identity/identity.repository.ts:662-746 | every token was issued by a sign-in or by the rotation of a live, unexpired token of the account, for thirty days |
| SessionOrigins.RevocationsAreTraced | src/modules/identity/identity.repository.ts:685-765 | a token was revoked by a sign-out of its account everywhere, or by its own rotation or sign-out, at the time on record |
| SessionOrigins.SignedOutTokensAreRevoked | src/modules/identity/identity.repository.ts:685-765 | and each of those leaves it revoked in every continuation |
| SessionOrigins.LogIsWhatHappened | src/modules/identity/identity.repository.ts:302-566 | the security log is exactly the events of the calls that succeeded, and of the reuses detected, in order |
| Sessions.RotationsUseNewChains | src/modules/identity/identity.repository.ts:685-755 | after a reuse detection, password change, reset or deactivation, every later successful rotation of the account uses a chain issued wholly after it |
| Sessions.OnlyReuseCommitsAndThrows | src/modules/identity/identity.repository.ts:691-753 | a throwing call changes the state exactly when it presented a revoked token, and then no live token of the account is left |
| Sessions.RotatesAtMostOnce | src/modules/identity/identity.repository.ts:685-755 | no run rotates a token twice |
| Sessions.RotationsFormChains | src/modules/identity/identity.repository.ts:730-741 | replaced_by points forward, within the account and injectively; live tokens are tails of disjoint paths |
| Sessions.RotationConserves | src/modules/identity/identity.repository.ts:726-746 | rotation keeps the account and every account's number of live tokens |
| Sessions.RedeemsAtMostOnce | src/modules/identity/identity.repository.ts:538-566 | a reset token is redeemed at most once, before expiry, and sets the password |
| Profiles.SubmittedIsComplete | src/modules/brokers/brokers.repository.ts:102-312 | in every run a submitted profile has nothing outstanding |
| ProfileOrigins.SubmittedIsFilledIn | src/modules/brokers/brokers.repository.ts:191-233 | column by column: in every run a submitted profile has all that its licence type asks for, a complete address, a membership and an attestation |
| Profiles.LockedIsFrozen | src/modules/brokers/brokers.repository.ts:35-37 | while a profile is not editable its data and memberships do not change |
| Businesses.SubmittedIsComplete | src/modules/businesses/businesses.repository.ts:226-369 | in every run a submitted business has nothing outstanding |
| BusinessOrigins.SubmittedIsFilledIn | src/modules/businesses/businesses.repository.ts:274-301 | column by column: in every run a submitted business has all that is asked of its entity type, and a principal |
| Authorization.AllOrNothing | src/db/authorization-context.ts:33-58 | a request commits all its rows, windows included, exactly when nothing was rejected or raised and the commit went through, and none otherwise; its connection goes back as it came |
| Authorization.StatementsRunAsTheirActor | src/db/authorization-context.ts:33-58 | whatever settings its connection came with, every statement runs under its request's actor, or in a window with only the actor type changed |
| Authorization.PoolHoldsWholeRequests | src/db/authorization-context.ts:33-58 | however requests interleave on a pool, the database holds exactly the successful requests' rows, each whole, and every connection not in use has no transaction and no actor |
| Authorization.EveryStatementRanAsItsActor | src/db/authorization-context.ts:33-58 | however they interleave, every statement sent ran under its own request's actor or in a system window of it |
| Notifications.SuppressedIffDisabled | src/modules/notifications/notification.repository.ts:56-149 | a notification is suppressed exactly when the recipient's last choice before it disabled the category; a mandatory one never is |
| Abn.OneWrongDigitIsCaught | src/modules/businesses/providers/abn-lookup.provider.ts:44-52 | changing any one digit of a valid number, as written, makes it invalid |
| Abn.SwappedDigitsAreCaught | src/modules/businesses/providers/abn-lookup.provider.ts:44-52 | so does swapping any two unequal digits |
| Abn.EverySuffixCompletes | src/modules/businesses/providers/abn-lookup.provider.ts:44-52 | every nine digits have a valid prefix not starting with zero |
| Abn.AtMostTwoPrefixes | src/modules/businesses/providers/abn-lookup.provider.ts:44-52 | two prefixes are valid exactly when they are 10 and 99 and the residue is zero |
| Migrate.ResumableRuns | db/migrate.ts:44-65 | runs failing anywhere, then a success, leave the schema of every file once in sorted order; a further run changes nothing |
| Migrate.AppliedIsPrefix | db/migrate.ts:51-65 | after any runs over fixed files, what is applied is a prefix of their order |
| Migrate.NoFileRunsTwice | db/migrate.ts:44-65 | whatever the directory held at each run, no file is applied twice |
| Migrate.AddedFilesRunInOrderIff | db/migrate.ts:47-52 | files added later leave everything applied in sorted order exactly when they sort after all applied ones |
| AccreditationOrigins.CallSucceedsIff | src/modules/accreditation/accreditation.repository.ts:330-358 | when each call on one accreditation succeeds, and what it throws otherwise: the caller's kind, the row policy, the status, the decision step |
| AccreditationOrigins.RequestSucceedsIff | src/modules/accreditation/accreditation.repository.ts:149-185 | when a request succeeds, and which of the five refusals comes first |
| AccreditationOrigins.InterviewsAreTraced | src/modules/accreditation/accreditation.repository.ts:654-690 | a recommendation on record is one the lender's side gave |
| AccreditationOrigins.ActivationsAreTraced | src/modules/accreditation/training.repository.ts:60-80 | an activation on record was made by the lender's side, then |
| AccreditationOrigins.PartyChangesAreTraced | src/modules/accreditation/accreditation.repository.ts:698-725 | a party change on record is its own broker having left the business, then |
| AccreditationOrigins.ConfirmationsAreTraced | src/modules/accreditation/training.repository.ts:26-41 | a training confirmation names the caller and the notes of the first call that gave it |
| AccreditationOrigins.RolesAreLastGiven | src/modules/identity/identity.repository.ts:271-299 | the stored role the decision check reads is the one last given |
| AffiliationOrigins.AffiliationsAreTraced | src/modules/businesses/businesses.repository.ts:411-458 | every affiliation began with its broker founding the business, or asking to join one seen verified or active |
| AffiliationOrigins.EndsAreTraced | src/modules/businesses/businesses.repository.ts:504-528 | an affiliation is ended only by its own broker, at the time and for the reason on record |
| RulesetOrigins.VersionsAreTraced | src/modules/rulesets/rulesets.repository.ts:44-82 | every version has the key, name and definition some call drafted it with |
| RulesetOrigins.PublicationsAreTraced | src/modules/rulesets/rulesets.repository.ts:92-122 | a version no longer a draft was published by a call on that draft at the time on record |
| RulesetOrigins.SupersessionsAreTraced | src/modules/rulesets/rulesets.repository.ts:104-112 | a superseded version was the published one when the draft it names was published for the same key |
| RulesetOrigins.ResolvesThePublished | src/modules/rulesets/rulesets.repository.ts:126-136 | a key resolves to a version exactly when that is published for it |
| RelationshipOrigins.RelationshipsAreTraced | src/modules/relationships/relationships.repository.ts:8-12 | every relationship was asked for by its broker or offered by an invitation, and shares lender data in full for a lender panel, aggregator data in full for an aggregator, and only the membership for an association |
| RelationshipOrigins.EventsAreTraced | src/modules/relationships/relationships.repository.ts:86-225 | every metering event is an activation between the two it names, at its own moment |
| Documents.CatalogueAsks | src/modules/evidence/document-catalog.ts:46-127 | the catalogue asks five documents of every broker, a mentoring letter of those stating less than two years, and two of every business |
| ProfileOrigins.ColumnsAreLastSent | src/modules/brokers/brokers.repository.ts:102-140 | in every run a column holds what was last sent for it and taken |
| BusinessOrigins.ColumnsAreLastSent | src/modules/businesses/businesses.repository.ts:92-272 | in every run a column holds what was last sent for it and taken; only a sole trader's name is filled in |
| Abn.ValidIffWeightedSum | src/modules/businesses/providers/abn-lookup.provider.ts:44-52 | a number is valid exactly when it has eleven digits, blanks aside, and 89 divides their sum weighted 10, 1, 3, 5, 7, 9, 11, 13, 15, 17, 19, the first digit less one |
| AffiliationOrigins.CallsSucceedIff | src/modules/businesses/businesses.repository.ts:411-528 | when each affiliation call succeeds, and what it throws otherwise |
| AffiliationOrigins.StatusesAreLastSet | src/modules/businesses/businesses.repository.ts:330-369 | a business's status is the one last set, and draft until then |
| RelationshipOrigins.CallsSucceedIff | src/modules/relationships/relationships.repository.ts:60-319 | when each relationship call succeeds, and what it throws otherwise |
| RulesetOrigins.CallsSucceedIff | src/modules/rulesets/rulesets.repository.ts:92-103 | a publication needs an existing draft the validator accepts |
| PlatformRepository.ReadsOutstandingIff | src/modules/accreditation/accreditation.repository.ts:403-412 | who may read what is outstanding: administrators, the lender's side, and the broker |
| PastRecords.ReconstructsReadNow | src/modules/brokers/brokers.repository.ts:608-634 | the set of active businesses and the scope pick exactly the rows of the broker and of the businesses the broker has an active affiliation in |
| SessionOrigins.RotatesIff | src/modules/identity/identity.repository.ts:698-724 | a rotation by the state of the token presented: reuse when revoked, rejection when unknown or expired, success otherwise |
| SessionOrigins.AccountCallsSucceedIff | src/modules/identity/identity.repository.ts:302-566 | when a redemption, a reset request and a change of activity succeed |
| SessionOrigins.ResetsAreTraced | src/modules/identity/identity.repository.ts:510-535 | a reset token was asked for by its account and expires an hour later |
| SessionOrigins.MembersAreTraced | src/modules/identity/identity.repository.ts:302-325 | a client user's organisation never changes, and its activity is what its own organisation last set |
| ProfileOrigins.CallsSucceedIff | src/modules/brokers/brokers.repository.ts:102-430 | when each profile call succeeds, and what it throws otherwise |
| ProfileOrigins.OutstandingInOrder | src/modules/brokers/brokers.repository.ts:191-233 | the reported list, item by item in its order |
| ProfileOrigins.MembershipIdsAreFresh | src/modules/brokers/brokers.repository.ts:318-346 | no membership id is on file twice |
| BusinessOrigins.CallsSucceedIff | src/modules/businesses/businesses.repository.ts:92-709 | when each business call succeeds, and what it throws otherwise |
| BusinessOrigins.OutstandingInOrder | src/modules/businesses/businesses.repository.ts:274-301 | the reported list, item by item in its order |
| Documents.ReportsInOrder | src/modules/evidence/evidence.repository.ts:239-251 | the reported documents come in the order of the catalogue |
| Notifications.CallsSucceedIff | src/modules/notifications/notification.repository.ts:72-139 | only a recipient nobody added is refused a notification, and only turning off one of the four mandatory categories is refused |
| Abn.OnlyDigitsCount | src/modules/businesses/providers/abn-lookup.provider.ts:44-46 | a blank anywhere changes nothing, and any other character that is not a digit makes the number invalid |
| Migrate.LessIffFirstDifference | db/migrate.ts:47-49 | names compare by the first code unit where they differ, a prefix first |
| Migrate.SqlFilesEndInSql | db/migrate.ts:47-49 | the files of a run are those whose name ends in `.sql` |
| Reconstruction.HistoryTimesIncrease | src/modules/audit/audit.repository.ts:26-42 | one accreditation's rows have strictly increasing times in every run: no call logs two rows about it |
| Reconstruction.OneTimeOrder | src/modules/brokers/brokers.repository.ts:589-594 | rows at distinct times have one time order, however permuted |
| Reconstruction.ListingMembers | src/modules/brokers/brokers.repository.ts:582-606 | the list holds exactly the broker's accreditations whose history folds to a status, with that status |
| Lifecycle.StepFollows | src/modules/accreditation/accreditation.repository.ts:341-343 | any call moves any accreditation along the automaton by exactly the events it logs for it, at most one |
| Lifecycle.EndAffiliationEvents | src/modules/businesses/businesses.repository.ts:504-528 | ending an affiliation logs a party change for exactly the accreditations it flags |
| Lifecycle.DeadlineEvents | src/modules/accreditation/training.repository.ts:131-155 | the deadline sweep logs a lapse for exactly the overdue accreditations it reaches |
| Automaton.ReadmissionNeedsSenior | src/modules/accreditation/training.repository.ts:60-113 | from active, lapsed, party-changed or information-required, becoming active takes an escalation, then a senior approval |
| LifecycleTheorems.EndFlagsHeldAccreditations | src/modules/accreditation/accreditation.repository.ts:698-725 | the end of an affiliation leaves each accreditation held through the pair declined or flagged, and logs it exactly when it was neither |
| Steps.StepMovesAccreditations | src/modules/accreditation/accreditation.repository.ts:473-725 | no call of the platform changes the accreditations table in any way but those listed |
| Steps.StepMovesAffiliations | src/modules/businesses/businesses.repository.ts:92-528 | no call changes the affiliations table but by founding, requesting, confirming by another active affiliate, or leaving |
| Invariants.StepKeepsOneLivePerScope | db/migrations/0024_accreditations.sql:60-71 | at most one accreditation that is not declined per broker, lender, brand, role and product scope |
| Deadlines.SweepLeavesNoneOverdue | src/modules/accreditation/training.repository.ts:137-144 | after a sweep nothing its caller reaches is pending past its deadline, and nothing else changed |
| Deadlines.SweepSucceedsIff | src/modules/accreditation/training.repository.ts:131-136 | a sweep is refused to brokers and administrators only; another lender's client user sweeps nothing |
| Rulesets.StepKeepsPath | src/modules/rulesets/rulesets.repository.ts:92-122 | publishing extends the key's path by the new version and leaves other keys' paths |
| Relationships.StepKeepsInv | src/modules/relationships/relationships.repository.ts:60-319 | every call keeps consent, dates and scope coherent with the status, and billing equal to activations |
| Documents.ByTypeIsCurrent | src/modules/evidence/evidence.repository.ts:237 | the map by type holds exactly the current versions, whatever the order of the rows |
| Sessions.SignOutRevokes | src/modules/identity/identity.repository.ts:316-320 | a sign-out event revokes every live token of the account at its own time and leaves every other token as it was |
| Profiles.OutstandingIsExact | src/modules/brokers/brokers.repository.ts:191-233 | the list names exactly what the completeness rules miss |
| Profiles.SubmitsExactlyWhenComplete | src/modules/brokers/brokers.repository.ts:274-290 | submission succeeds exactly on an editable profile with nothing missing |
| Businesses.OutstandingIsExact | src/modules/businesses/businesses.repository.ts:274-301 | the list names exactly what is missing |
| Businesses.StepMoves | src/modules/businesses/businesses.repository.ts:594-709 | outside the editable statuses nothing changes; removed principals never return |
| Businesses.SoleTraderIsNotAskedTwice | src/modules/businesses/businesses.repository.ts:92-170 | a sole trader's new business never asks for a legal name, a trustee or a principal |
| Authorization.ActivationIsAtomic | src/modules/accreditation/training.repository.ts:60-113 | an activation whose notification has no recipient leaves nothing behind |
| Authorization.RejectionIsFinal | src/db/authorization-context.ts:33-58 | after a rejected statement nothing of the transaction succeeds or is written |
| Authorization.OnlySessionSettingsStay | src/db/authorization-context.ts:40-47 | settings not local to the transaction would stay on the connection after a commit; local ones and rolled-back ones do not |
| Authorization.NotificationRestoresActor | src/modules/notifications/notification.repository.ts:69-102 | created or not, a notification leaves the transaction under its caller |
| Abn.ChecksumIsModular | src/modules/businesses/providers/abn-lookup.provider.ts:49-51 | the sign of the remainder does not matter on these sums |
| Migrate.RunAppliesPending | db/migrate.ts:51-65 | one run applies the pending files up to the broken one it names |
| Migrate.FilesAreSorted | db/migrate.ts:47-49 | the files of a run are the .sql names of the listing, strictly sorted, whatever order it came in |
| Authorization.UninterruptedRequest | src/db/authorization-context.ts:33-58 | on the pool, a request nothing interrupts does what one call of the client does on that connection |
| PlatformRepository.AccreditationRepository.ReadHistory | src/modules/brokers/brokers.repository.ts:589-594 | the history read is a time-ordered permutation of the selected rows |
| PlatformRepository.AccreditationRepository.ReconstructAsOf | src/modules/brokers/brokers.repository.ts:577-606 | the loops return the list of the folds of some ordered reads of the log |
| PlatformRepository.AccreditationRepository.RequestAccreditation | src/modules/accreditation/accreditation.repository.ts:149-205 | the second transaction of a request leaves exactly the specified state, and throws exactly the specified errors |
| PlatformRepository.AccreditationRepository.Approve | src/modules/accreditation/accreditation.repository.ts:560-612 | approval: guard, role check, deadline from the captured ruleset (`PendingIsDueAfterApproval` says which), decision and audit rows |
| PlatformRepository.AccreditationRepository.Decline | src/modules/accreditation/accreditation.repository.ts:614-651 | the same for a decline |
| PlatformRepository.AccreditationRepository.Escalate | src/modules/accreditation/accreditation.repository.ts:510-531 | escalation sets status and step, with decision and audit rows |
| PlatformRepository.AccreditationRepository.RequestMoreInformation | src/modules/accreditation/accreditation.repository.ts:473-507 | the same for an information request |
| PlatformRepository.AccreditationRepository.AssertCanDecide | src/modules/accreditation/accreditation.repository.ts:540-545 | at the senior step only a client user whose stored role is senior approver passes |
| PlatformRepository.AccreditationRepository.FlagPartyChanged | src/modules/accreditation/accreditation.repository.ts:698-725 | flags exactly the rows held through the pair, returns their ids and logs one row each |
| PlatformRepository.AccreditationRepository.EndAffiliation | src/modules/businesses/businesses.repository.ts:504-528 | ends the caller's own live affiliation and flags, in one step |
| PlatformRepository.AccreditationRepository.ConfirmAffiliation | src/modules/businesses/businesses.repository.ts:460-493 | all five refusals and the confirmation |
| PlatformRepository.AccreditationRepository.CheckTrainingDeadlines | src/modules/accreditation/training.repository.ts:131-155 | lapses exactly the overdue rows, logs and returns them |
| PlatformRepository.AccreditationRepository.ActivateAccreditation | src/modules/accreditation/training.repository.ts:60-93 | activation from pending only, and a platform id when the broker has none |
| Rulesets.RulesetsRepository.Publish | src/modules/rulesets/rulesets.repository.ts:92-122 | the supersede loop and the publication leave exactly the specified table |
| Rulesets.RulesetsRepository.NextVersion | src/modules/rulesets/rulesets.repository.ts:49-55 | one more than the highest number of the key |
| Relationships.RelationshipsRepository.AcceptInvitation | src/modules/relationships/relationships.repository.ts:184-225 | acceptance by the invited broker only, with consent, audit row and metering event |
| Relationships.RelationshipsRepository.RevokeRelationship | src/modules/relationships/relationships.repository.ts:257-286 | revocation of the caller's own active relationship only |
| Temporal.TemporalTable.Record | src/modules/evidence/evidence.repository.ts:122-156 | find, insert, close: exactly the specified table |
| Temporal.TemporalTable.Store | src/modules/evidence/evidence.repository.ts:23-69 | a provider payload supersedes nothing |
| Temporal.TemporalTable.SelectAsOf | src/modules/brokers/brokers.repository.ts:614-634 | returns exactly the typed rows of the broker and of the given businesses that are valid at the date, in order |
| Sessions.SessionRepository.RotateToken | src/modules/identity/identity.repository.ts:685-755 | commits the outcome and throws only afterwards |
| Sessions.SessionRepository.RedeemReset | src/modules/identity/identity.repository.ts:538-566 | token, password and revocations in one step, or a throw and nothing |
| Documents.ComputeDocumentOutstandingItems | src/modules/evidence/evidence.repository.ts:231-256 | the loops compute the specified list |
| Profiles.ProfileRepository.ComputeOutstandingItems | src/modules/brokers/brokers.repository.ts:191-233 | the pushes compute that list, in order |
| Profiles.ProfileRepository.Submit | src/modules/brokers/brokers.repository.ts:274-312 | gate and status change in one step; the refusal carries the list |
| Businesses.BusinessRepository.Submit | src/modules/businesses/businesses.repository.ts:330-369 | gate and status change in one step |
| Businesses.BusinessRepository.Create | src/modules/businesses/businesses.repository.ts:92-189 | the new business, the sole trader's name and principal |
| Authorization.Client.WithAuthorizationContext | src/db/authorization-context.ts:33-58 | begin, settings, the loop over the callback's statements, commit or rollback, release |
| Authorization.Client.RunWindow | src/modules/notifications/notification.repository.ts:69-102 | sets `system`, runs the body, restores, in the try/finally and the plain form |
| Notifications.NotificationRepository.Create | src/modules/notifications/notification.repository.ts:70-99 | the row, its suppression, the recipient's address and whether to send |
| Migrate.Runner.Up | db/migrate.ts:51-65 | the loop leaves exactly the specified database and failing file |
| PlatformRepository.AccreditationRepository.ReconstructRecords | src/modules/brokers/brokers.repository.ts:608-634 | returns exactly the typed rows valid at the date of the broker, and of the businesses in which the broker has an active affiliation now, in order |

## Left out

- PlatformRepository.AccreditationRepository.RequestAccreditation: does not model the licence-holder columns, the pathway column beyond its use in the key, or the queue notifications.
- PlatformRepository.AccreditationRepository.Approve: does not model the rationale text or the notification; `Authorization` shows that notifications commit or roll back with their call.
- PlatformRepository.AccreditationRepository.Decline: does not model the rationale text or the notification.
- PlatformRepository.AccreditationRepository.Escalate: does not model the rationale text.
- PlatformRepository.AccreditationRepository.RequestMoreInformation: does not model the itemised reasons or the notification.
- Platform.TryUpdateClientUserRole: does not model which organisation a client user belongs to, so its not-found error is left out; any role change is possible.
- Platform.TryAffiliation: does not model the checks behind a business's status changes, which `Businesses` models; any status change is possible.
- Profiles.Try: does not model the provider calls of identity verification, only their effect on the status; the guard against a second verification is left out, so more runs are covered.
- AuditTrail.EveryRowIsTraced: does not model that the code logs the system's own ruleset calls as an administrator without an id, nor the row policy that keeps brokers and client users from making them; the model logs the caller it is given.
- RulesetEvaluator.ValidDefinitionIffDecodes: does not model the message texts and paths of validation failures, only whether they are thrown.
- PlatformRepository.AccreditationRepository.ReconstructAsOf: does not return the check results and documents, which `ReconstructRecords` does; neither models the rounding of the date to milliseconds.
- Temporal.TemporalTable.Record: does not model the audit row, object storage, content hashes, retention dates or the derived expiry date.
- Temporal.TemporalTable.Store: does not model the audit row, object storage, content hashes or retention dates.
- Sessions.SessionRepository.RotateToken: does not model user agents and addresses; the lifetime of a token is the default of 30 days.
- Profiles.ProfileRepository.ComputeOutstandingItems: does not model type errors the database would raise on malformed column values; a first or last name set to null is modelled.
- Profiles.ProfileRepository.Submit: does not model the audit row or the notification.
- Businesses.BusinessRepository.Submit: does not model the audit row or the notification.
- Businesses.BusinessRepository.Create: does not model the audit row, visibility of a business to its caller, or the founding affiliation, which `Platform` models.
- Migrate.FilesAreSorted: does not model names beyond the Basic Multilingual Plane, where the default sort compares code units.
- Authorization.PoolHoldsWholeRequests: does not model other connections running inside a system window; requests interleave between the pieces of their callbacks.
- Sign-in, MFA enrolment, client organisations and client-user administration other than roles and activation.
- The web interface, controllers, guards and field-level validation of requests.
- Foreign services: identity verification, business registers, geocoding, email, object storage.
- Cryptography: password and token hashing, encryption, signatures.
- Joined list queries, access history, and seed or purge scripts.
- Interleaving inside a transaction and isolation levels.
