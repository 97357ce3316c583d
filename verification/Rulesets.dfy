/** Ruleset versions: drafts, publication, supersession and resolution, per key. */
module Rulesets {
  import opened Common
  import opened Audit
  import opened RulesetDefinitions
  import opened RulesetEvaluator

  datatype Key = Key(organisation: Id, brand: string, role: string, productScope: string, pathway: string)

  datatype VersionStatus = Draft | Published | Superseded

  datatype RulesetVersion = RulesetVersion(
    key: Key,
    version: nat,
    name: string,
    status: VersionStatus,
    definition: Json,
    supersededBy: Option<Id>,
    publishedAt: Option<Time>)

  datatype RulesetOp =
    | CreateDraft(ctx: Actor, key: Key, name: string, definition: Json)
    | Publish(ctx: Actor, id: Id)

  datatype Effect = Effect(rows: seq<RulesetVersion>, row: AuditRow)

  /** `COALESCE(MAX(version_number), 0)` over the key's rows. */
  function MaxVersion(rows: seq<RulesetVersion>, key: Key): nat {
    if rows == [] then 0
    else
      var before := MaxVersion(rows[..|rows| - 1], key);
      var last := rows[|rows| - 1];
      if last.key == key && last.version > before then last.version else before
  }

  predicate IsPublished(row: RulesetVersion, key: Key) {
    row.key == key && row.status == Published
  }

  /** The statement that flips the key's published row. */
  function SupersedeRow(row: RulesetVersion, key: Key, successor: Id): RulesetVersion {
    if IsPublished(row, key) then row.(status := Superseded, supersededBy := Some(successor)) else row
  }

  function Supersede(rows: seq<RulesetVersion>, key: Key, successor: Id): seq<RulesetVersion> {
    seq(|rows|, i requires 0 <= i < |rows| => SupersedeRow(rows[i], key, successor))
  }

  function Log(ctx: Actor, action: Action, id: Id, at: Time): AuditRow {
    AuditRow(at, ctx, action, RulesetSubject, id)
  }

  /** One repository call as one serial transaction; a throw changes nothing. */
  function Try(rows: seq<RulesetVersion>, op: RulesetOp, at: Time): Result<Effect, Error> {
    match op
    case CreateDraft(ctx, key, name, definition) =>
      var row := RulesetVersion(key, MaxVersion(rows, key) + 1, name, Draft, definition, None, None);
      Ok(Effect(rows + [row], Log(ctx, RulesetCreated, |rows|, at)))
    case Publish(ctx, id) =>
      if id >= |rows| then Throw(RulesetNotFound)
      else if rows[id].status != Draft then Throw(InvalidRulesetTransition)
      else if !ValidDefinition(rows[id].definition) then Throw(InvalidRulesetDefinition)
      else
        Ok(Effect(AfterPublish(rows, id, at), Log(ctx, RulesetPublished, id, at)))
  }

  /** The key's published row flipped to superseded, then this row to published. */
  function AfterPublish(rows: seq<RulesetVersion>, id: Id, at: Time): seq<RulesetVersion>
    requires id < |rows|
  {
    var flipped := Supersede(rows, rows[id].key, id);
    flipped[id := flipped[id].(status := Published, publishedAt := Some(at))]
  }

  /** The first row the exact-match query returns; `None` when the key has no published version. */
  function Resolve(rows: seq<RulesetVersion>, key: Key): Option<Id> {
    if rows == [] then None
    else
      match Resolve(rows[..|rows| - 1], key)
      case Some(id) => Some(id)
      case None => if IsPublished(rows[|rows| - 1], key) then Some(|rows| - 1) else None
  }

  // ---------------------------------------------------------------- version numbers

  function CountKey(rows: seq<RulesetVersion>, key: Key): nat {
    if rows == [] then 0
    else CountKey(rows[..|rows| - 1], key) + (if rows[|rows| - 1].key == key then 1 else 0)
  }

  /** Each row's number is its rank among the rows of its key, in creation order. */
  ghost predicate Numbered(rows: seq<RulesetVersion>) {
    forall i | 0 <= i < |rows| :: rows[i].version == CountKey(rows[..i + 1], rows[i].key)
  }

  lemma PrefixNumbered(rows: seq<RulesetVersion>)
    requires Numbered(rows) && rows != []
    ensures Numbered(rows[..|rows| - 1])
  {
    var front := rows[..|rows| - 1];
    forall i | 0 <= i < |front|
      ensures front[i].version == CountKey(front[..i + 1], front[i].key)
    {
      assert front[..i + 1] == rows[..i + 1];
    }
  }

  lemma {:induction false} MaxVersionIsCount(rows: seq<RulesetVersion>, key: Key)
    requires Numbered(rows)
    ensures MaxVersion(rows, key) == CountKey(rows, key)
  {
    if rows != [] {
      var n := |rows| - 1;
      PrefixNumbered(rows);
      MaxVersionIsCount(rows[..n], key);
      assert rows[..n + 1] == rows;
    }
  }

  /** A key's version numbers are exactly 1..n, none missing and none twice. */
  lemma {:induction false} VersionsAreOneToN(rows: seq<RulesetVersion>, key: Key, v: nat) returns (i: nat)
    requires Numbered(rows) && 1 <= v <= CountKey(rows, key)
    ensures i < |rows| && rows[i].key == key && rows[i].version == v
    ensures forall j | 0 <= j < |rows| && rows[j].key == key && rows[j].version == v :: j == i
    ensures forall j | 0 <= j < |rows| && rows[j].key == key :: 1 <= rows[j].version <= CountKey(rows, key)
  {
    var n := |rows| - 1;
    PrefixNumbered(rows);
    assert rows[..n + 1] == rows;
    forall j | 0 <= j < |rows| && rows[j].key == key
      ensures 1 <= rows[j].version <= CountKey(rows, key)
    {
      CountIsMonotone(rows, key, j + 1);
    }
    if rows[n].key == key && rows[n].version == v {
      i := n;
      forall j | 0 <= j < n && rows[j].key == key
        ensures rows[j].version < v
      {
        CountIsMonotone(rows[..n], key, j + 1);
      }
    } else {
      i := VersionsAreOneToN(rows[..n], key, v);
      assert rows[i] == rows[..n][i];
      forall j | 0 <= j < |rows| && rows[j].key == key && rows[j].version == v
        ensures j == i
      {
        assert j != n;
        assert rows[..n][j] == rows[j];
      }
    }
  }

  lemma {:induction false} CountIsMonotone(rows: seq<RulesetVersion>, key: Key, m: nat)
    requires m <= |rows|
    ensures CountKey(rows[..m], key) <= CountKey(rows, key)
    ensures m > 0 && rows[m - 1].key == key ==> CountKey(rows[..m], key) >= 1
  {
    if m == |rows| {
      assert rows[..m] == rows;
    } else {
      assert rows[..|rows| - 1][..m] == rows[..m];
      CountIsMonotone(rows[..|rows| - 1], key, m);
    }
  }

  // ---------------------------------------------------------------- the publication path

  /**
   * `path` lists the key's ever-published rows in the order they were published, whatever their
   * version numbers: each is superseded by the next, and only the last is still published.
   */
  ghost predicate IsPublicationPath(rows: seq<RulesetVersion>, key: Key, path: seq<Id>) {
    && (forall k | 0 <= k < |path| :: path[k] < |rows| && EverPublished(rows[path[k]], key))
    && (forall i | 0 <= i < |rows| && EverPublished(rows[i], key) :: i in path)
    && (forall j, k | 0 <= j < k < |path| :: Precedes(rows, path[j], path[k]))
    && (forall j, k | 0 <= j < k < |path| && k == j + 1 :: IsSupersededBy(rows[path[j]], path[k]))
    && (path != [] ==> IsCurrent(rows[path[|path| - 1]]))
  }

  predicate EverPublished(row: RulesetVersion, key: Key) {
    row.key == key && row.status != Draft && row.publishedAt.Some?
  }

  predicate Precedes(rows: seq<RulesetVersion>, earlier: Id, later: Id) {
    && earlier < |rows| && rows[earlier].publishedAt.Some?
    && later < |rows| && rows[later].publishedAt.Some?
    && earlier != later && rows[earlier].publishedAt.value < rows[later].publishedAt.value
  }

  predicate IsSupersededBy(row: RulesetVersion, successor: Id) {
    row.status == Superseded && row.supersededBy == Some(successor)
  }

  predicate IsCurrent(row: RulesetVersion) {
    row.status == Published && row.supersededBy == None
  }

  /** A draft was never published; anything ever published passed the validator. */
  predicate WellFormed(row: RulesetVersion) {
    && (row.status == Draft ==> row.publishedAt == None && row.supersededBy == None)
    && (row.status != Draft ==> row.publishedAt.Some? && ValidDefinition(row.definition))
  }

  ghost predicate Inv(rows: seq<RulesetVersion>) {
    Numbered(rows) && forall i | 0 <= i < |rows| :: WellFormed(rows[i])
  }

  ghost predicate PublishedBefore(rows: seq<RulesetVersion>, at: Time) {
    forall i | 0 <= i < |rows| && rows[i].publishedAt.Some? :: rows[i].publishedAt.value < at
  }

  /** How the key's publication path grows: by one row at each successful publication of that key. */
  function ExtendPath(path: seq<Id>, rows: seq<RulesetVersion>, op: RulesetOp, at: Time, key: Key): seq<Id> {
    if op.Publish? && Try(rows, op, at).Ok? && rows[op.id].key == key then path + [op.id] else path
  }

  lemma {:induction false} CountAfterSupersede(rows: seq<RulesetVersion>, rows': seq<RulesetVersion>, key: Key)
    requires |rows| == |rows'| && forall i | 0 <= i < |rows| :: rows'[i].key == rows[i].key
    ensures CountKey(rows', key) == CountKey(rows, key)
  {
    if rows != [] {
      CountAfterSupersede(rows[..|rows| - 1], rows'[..|rows| - 1], key);
    }
  }

  lemma DraftKeepsInv(rows: seq<RulesetVersion>, draft: RulesetVersion)
    requires Inv(rows) && WellFormed(draft) && draft.version == MaxVersion(rows, draft.key) + 1
    ensures Inv(rows + [draft])
  {
    MaxVersionIsCount(rows, draft.key);
    NumberedAppend(rows, draft);
  }

  lemma CountAppend(rows: seq<RulesetVersion>, row: RulesetVersion)
    ensures CountKey(rows + [row], row.key) == CountKey(rows, row.key) + 1
  {
    assert (rows + [row])[..|rows|] == rows;
  }

  lemma NumberedAppend(rows: seq<RulesetVersion>, draft: RulesetVersion)
    requires Numbered(rows) && draft.version == CountKey(rows, draft.key) + 1
    ensures Numbered(rows + [draft])
  {
    var rows' := rows + [draft];
    forall i | 0 <= i < |rows'|
      ensures rows'[i].version == CountKey(rows'[..i + 1], rows'[i].key)
    {
      if i < |rows| {
        assert rows'[i] == rows[i] && rows'[..i + 1] == rows[..i + 1];
      } else {
        CountAppend(rows, draft);
        assert rows'[..i + 1] == rows';
      }
    }
  }

  lemma PublishKeepsInv(rows: seq<RulesetVersion>, id: Id, at: Time)
    requires Inv(rows) && id < |rows| && rows[id].status == Draft && ValidDefinition(rows[id].definition)
    ensures Inv(AfterPublish(rows, id, at))
  {
    var rows' := AfterPublish(rows, id, at);
    forall i | 0 <= i < |rows'|
      ensures rows'[i].version == CountKey(rows'[..i + 1], rows'[i].key)
    {
      assert rows'[i].key == rows[i].key && rows'[i].version == rows[i].version;
      CountAfterSupersede(rows[..i + 1], rows'[..i + 1], rows[i].key);
    }
  }

  lemma StepKeepsInv(rows: seq<RulesetVersion>, op: RulesetOp, at: Time)
    requires Inv(rows)
    ensures Try(rows, op, at).Ok? ==> Inv(Try(rows, op, at).value.rows)
  {
    match op {
      case CreateDraft(ctx, key, name, definition) =>
        var draft := RulesetVersion(key, MaxVersion(rows, key) + 1, name, Draft, definition, None, None);
        DraftKeepsInv(rows, draft);
        assert Try(rows, op, at).Ok? ==> Try(rows, op, at).value.rows == rows + [draft];
      case Publish(ctx, id) =>
        if Try(rows, op, at).Ok? {
          PublishKeepsInv(rows, id, at);
        }
    }
  }

  /** Rows are only added; key, number and definition never change; status only moves forward. */
  lemma StepIsForward(rows: seq<RulesetVersion>, op: RulesetOp, at: Time)
    ensures Try(rows, op, at).Ok? ==> Forward(rows, Try(rows, op, at).value.rows)
  {
  }

  predicate Forward(rows: seq<RulesetVersion>, rows': seq<RulesetVersion>) {
    && |rows| <= |rows'|
    && (forall i | 0 <= i < |rows| ::
          && rows'[i].key == rows[i].key && rows'[i].version == rows[i].version && rows'[i].definition == rows[i].definition
          && (rows[i].status != Draft ==> rows'[i].status != Draft && rows'[i].publishedAt == rows[i].publishedAt)
          && (rows[i].status == Superseded ==> rows'[i] == rows[i]))
  }

  /** `rows'` is `rows` after row `id` of `key` was published at `at`. */
  ghost predicate PublishedInto(rows: seq<RulesetVersion>, rows': seq<RulesetVersion>, key: Key, id: Id, at: Time) {
    && |rows'| == |rows|
    && id < |rows|
    && rows[id].key == key && rows[id].status == Draft
    && rows'[id] == rows[id].(status := Published, publishedAt := Some(at))
    && (forall i | 0 <= i < |rows| && i != id :: rows'[i] == SupersedeRow(rows[i], key, id))
  }

  lemma PathStaysOrdered(rows: seq<RulesetVersion>, rows': seq<RulesetVersion>, key: Key, id: Id, at: Time, path: seq<Id>)
    requires PublishedInto(rows, rows', key, id, at) && PublishedBefore(rows, at)
    requires forall k | 0 <= k < |path| :: path[k] < |rows| && EverPublished(rows[path[k]], key)
    requires forall j, k | 0 <= j < k < |path| :: Precedes(rows, path[j], path[k])
    ensures forall k | 0 <= k < |path| + 1 ::
              (path + [id])[k] < |rows'| && EverPublished(rows'[(path + [id])[k]], key)
    ensures forall j, k | 0 <= j < k < |path| + 1 :: Precedes(rows', (path + [id])[j], (path + [id])[k])
  {
    var path', n := path + [id], |path|;
    forall k | 0 <= k < n + 1
      ensures path'[k] < |rows'| && EverPublished(rows'[path'[k]], key)
    {
      if k < n {
        assert EverPublished(rows[path[k]], key);
      }
    }
    forall j, k | 0 <= j < k < n + 1
      ensures Precedes(rows', path'[j], path'[k])
    {
      assert EverPublished(rows[path[j]], key);
      if k < n {
        assert Precedes(rows, path[j], path[k]);
      }
    }
  }

  lemma PathStaysLinked(rows: seq<RulesetVersion>, rows': seq<RulesetVersion>, key: Key, id: Id, at: Time, path: seq<Id>)
    requires PublishedInto(rows, rows', key, id, at)
    requires forall k | 0 <= k < |path| :: path[k] < |rows| && EverPublished(rows[path[k]], key)
    requires forall j, k | 0 <= j < k < |path| && k == j + 1 :: IsSupersededBy(rows[path[j]], path[k])
    requires path != [] ==> IsCurrent(rows[path[|path| - 1]])
    ensures forall j, k | 0 <= j < k < |path| + 1 && k == j + 1 ::
              (path + [id])[j] < |rows'| && IsSupersededBy(rows'[(path + [id])[j]], (path + [id])[k])
  {
    var path', n := path + [id], |path|;
    forall j, k | 0 <= j < k < n + 1 && k == j + 1
      ensures path'[j] < |rows'| && IsSupersededBy(rows'[path'[j]], path'[k])
    {
      assert EverPublished(rows[path[j]], key) && path[j] != id;
      if k < n {
        assert IsSupersededBy(rows[path[j]], path[k]);
      } else {
        assert IsPublished(rows[path[j]], key);
      }
    }
  }

  lemma PathStaysComplete(rows: seq<RulesetVersion>, rows': seq<RulesetVersion>, key: Key, id: Id, at: Time, path: seq<Id>)
    requires PublishedInto(rows, rows', key, id, at)
    requires forall i | 0 <= i < |rows| && EverPublished(rows[i], key) :: i in path
    ensures forall i | 0 <= i < |rows'| && EverPublished(rows'[i], key) :: i in path + [id]
  {
    forall i | 0 <= i < |rows'| && EverPublished(rows'[i], key)
      ensures i in path + [id]
    {
      if i != id {
        assert EverPublished(rows[i], key) || rows[i].publishedAt.None?;
      }
    }
  }

  lemma PublishExtendsPath(rows: seq<RulesetVersion>, id: Id, at: Time, path: seq<Id>)
    requires Inv(rows) && PublishedBefore(rows, at)
    requires id < |rows| && rows[id].status == Draft
    requires IsPublicationPath(rows, rows[id].key, path)
    ensures IsPublicationPath(AfterPublish(rows, id, at), rows[id].key, path + [id])
  {
    var key, rows' := rows[id].key, AfterPublish(rows, id, at);
    PathStaysOrdered(rows, rows', key, id, at, path);
    PathStaysLinked(rows, rows', key, id, at, path);
    PathStaysComplete(rows, rows', key, id, at, path);
    assert (path + [id])[|path|] == id;
  }

  /** Every call keeps each key's publication path a single path ending at its published row. */
  lemma StepKeepsPath(rows: seq<RulesetVersion>, op: RulesetOp, at: Time, key: Key, path: seq<Id>)
    requires Inv(rows) && PublishedBefore(rows, at)
    requires IsPublicationPath(rows, key, path)
    ensures Try(rows, op, at).Ok? ==>
              IsPublicationPath(Try(rows, op, at).value.rows, key, ExtendPath(path, rows, op, at, key))
  {
    var r := Try(rows, op, at);
    if r.Ok? {
      if op.Publish? && rows[op.id].key == key {
        PublishExtendsPath(rows, op.id, at, path);
      } else {
        OtherKeysUntouched(rows, r.value.rows, key, path);
      }
    }
  }

  /** A table that differs only in other keys' rows and new drafts has the same path for this key. */
  lemma OtherKeysUntouched(rows: seq<RulesetVersion>, rows': seq<RulesetVersion>, key: Key, path: seq<Id>)
    requires |rows| <= |rows'|
    requires forall i | 0 <= i < |rows| :: rows'[i] == rows[i] || (rows[i].key != key && rows'[i].key != key)
    requires forall i | |rows| <= i < |rows'| :: rows'[i].status == Draft
    requires IsPublicationPath(rows, key, path)
    ensures IsPublicationPath(rows', key, path)
  {
    forall k | 0 <= k < |path|
      ensures rows'[path[k]] == rows[path[k]]
    {
      assert EverPublished(rows[path[k]], key);
    }
    forall j, k | 0 <= j < k < |path|
      ensures Precedes(rows', path[j], path[k])
    {
      assert Precedes(rows, path[j], path[k]);
    }
    forall i | 0 <= i < |rows'| && EverPublished(rows'[i], key)
      ensures i in path
    {
      assert EverPublished(rows[i], key);
    }
  }

  /** What `Resolve` returns is the end of the path, and it is the only published row of the key. */
  lemma {:induction false} ResolveFindsFirst(rows: seq<RulesetVersion>, key: Key)
    ensures match Resolve(rows, key)
            case Some(id) => id < |rows| && IsPublished(rows[id], key)
            case None => forall i | 0 <= i < |rows| :: !IsPublished(rows[i], key)
  {
    if rows != [] {
      var front := rows[..|rows| - 1];
      ResolveFindsFirst(front, key);
      if Resolve(rows, key).None? {
        forall i | 0 <= i < |rows|
          ensures !IsPublished(rows[i], key)
        {
          if i < |front| {
            assert rows[i] == front[i];
          }
        }
      }
    }
  }

  lemma ResolveIsEndOfPath(rows: seq<RulesetVersion>, key: Key, path: seq<Id>)
    requires Inv(rows) && IsPublicationPath(rows, key, path)
    ensures Resolve(rows, key) == if path == [] then None else Some(path[|path| - 1])
    ensures forall i | 0 <= i < |rows| && IsPublished(rows[i], key) :: Resolve(rows, key) == Some(i)
  {
    ResolveFindsFirst(rows, key);
    forall i | 0 <= i < |rows| && IsPublished(rows[i], key)
      ensures path != [] && i == path[|path| - 1]
    {
      assert EverPublished(rows[i], key);
      var k :| 0 <= k < |path| && path[k] == i;
      assert k == |path| - 1 || IsSupersededBy(rows[path[k]], path[k + 1]);
    }
  }

  // ---------------------------------------------------------------- the repository

  class RulesetsRepository {
    var rows: seq<RulesetVersion>
    const audit: AuditLog

    constructor (audit: AuditLog)
      ensures rows == [] && this.audit == audit
    {
      rows := [];
      this.audit := audit;
    }

    /** What the call `op` at `at` must leave behind: its effect, or nothing at all if it throws. */
    twostate predicate Performed(op: RulesetOp, at: Time, new r: Result<Id, Error>)
      reads this, audit
    {
      match Try(old(rows), op, at)
      case Throw(e) => r == Throw(e) && rows == old(rows) && audit.rows == old(audit.rows)
      case Ok(effect) =>
        r == Ok(effect.row.subject) && rows == effect.rows && audit.rows == old(audit.rows) + [effect.row]
    }

    method NextVersion(key: Key) returns (next: nat)
      ensures next == MaxVersion(rows, key) + 1
    {
      next := 1;
      for i := 0 to |rows|
        invariant next == MaxVersion(rows[..i], key) + 1
      {
        assert rows[..i + 1][..i] == rows[..i];
        if rows[i].key == key && rows[i].version >= next {
          next := rows[i].version + 1;
        }
      }
      assert rows[..|rows|] == rows;
    }

    method CreateDraft(ctx: Actor, key: Key, name: string, definition: Json, now: Time) returns (r: Result<Id, Error>)
      modifies this, audit
      ensures Performed(RulesetOp.CreateDraft(ctx, key, name, definition), now, r)
    {
      var versionNumber := NextVersion(key);
      var id := |rows|;
      rows := rows + [RulesetVersion(key, versionNumber, name, Draft, definition, None, None)];
      audit.RecordAuditEvent(Log(ctx, RulesetCreated, id, now));
      return Ok(id);
    }

    method Publish(ctx: Actor, id: Id, now: Time) returns (r: Result<Id, Error>)
      modifies this, audit
      ensures Performed(RulesetOp.Publish(ctx, id), now, r)
    {
      if id >= |rows| {
        return Throw(RulesetNotFound);
      }
      var version := rows[id];
      if version.status != Draft {
        return Throw(InvalidRulesetTransition);
      }
      if !ValidDefinition(version.definition) {
        return Throw(InvalidRulesetDefinition);
      }
      for i := 0 to |rows|
        modifies this
        invariant |rows| == |old(rows)|
        invariant forall j | 0 <= j < i :: rows[j] == SupersedeRow(old(rows)[j], version.key, id)
        invariant forall j | i <= j < |rows| :: rows[j] == old(rows)[j]
      {
        if rows[i].key == version.key && rows[i].status == Published {
          rows := rows[i := rows[i].(status := Superseded, supersededBy := Some(id))];
        }
      }
      assert rows == Supersede(old(rows), version.key, id);
      rows := rows[id := rows[id].(status := Published, publishedAt := Some(now))];
      audit.RecordAuditEvent(Log(ctx, RulesetPublished, id, now));
      return Ok(id);
    }

    method ResolveKey(key: Key) returns (found: Option<Id>)
      ensures found == Resolve(rows, key)
    {
      found := None;
      for i := 0 to |rows|
        invariant found == Resolve(rows[..i], key)
      {
        assert rows[..i + 1][..i] == rows[..i];
        if found.None? && rows[i].key == key && rows[i].status == Published {
          found := Some(i);
        }
      }
      assert rows[..|rows|] == rows;
    }
  }
}
