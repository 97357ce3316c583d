/** When a ruleset call succeeds, and which calls drafted, published and superseded every version. */
module RulesetOrigins {
  import opened Common
  import opened RulesetEvaluator
  import opened Rulesets
  import P = Platform
  import Reachability

  // ---------------------------------------------------------------- one call

  /** A draft is always taken; a publication needs a draft whose definition the validator accepts. */
  lemma CallsSucceedIff(rows: seq<RulesetVersion>, op: RulesetOp, at: Time)
    ensures match op
            case CreateDraft(_, _, _, _) => Try(rows, op, at).Ok?
            case Publish(_, id) =>
              if id >= |rows| then Try(rows, op, at) == Throw(RulesetNotFound)
              else if rows[id].status != Draft then Try(rows, op, at) == Throw(InvalidRulesetTransition)
              else if !ValidDefinition(rows[id].definition) then Try(rows, op, at) == Throw(InvalidRulesetDefinition)
              else Try(rows, op, at).Ok?
  {
  }

  /** The version was drafted in this call, as given. */
  predicate Drafts(rows: seq<RulesetVersion>, op: RulesetOp, i: Id, row: RulesetVersion) {
    && i == |rows| && op.CreateDraft?
    && row.key == op.key && row.name == op.name && row.definition == op.definition
  }

  /** The draft was published in this call. */
  predicate Publishes(rows: seq<RulesetVersion>, op: RulesetOp, at: Time, i: Id, row: RulesetVersion) {
    && op.Publish? && op.id == i < |rows| && rows[i].status == Draft
    && row == rows[i].(status := Published, publishedAt := Some(at))
  }

  /** The published version gave way in this call to the draft published for its own key. */
  predicate GivesWay(rows: seq<RulesetVersion>, op: RulesetOp, i: Id, row: RulesetVersion) {
    && op.Publish? && i < |rows| && op.id < |rows| && op.id != i
    && rows[op.id].key == rows[i].key && rows[op.id].status == Draft && rows[i].status == Published
    && row == rows[i].(status := Superseded, supersededBy := Some(op.id))
  }

  predicate RowMoves(rows: seq<RulesetVersion>, op: RulesetOp, at: Time, i: Id, row: RulesetVersion) {
    if i < |rows| then row == rows[i] || Publishes(rows, op, at, i, row) || GivesWay(rows, op, i, row)
    else Drafts(rows, op, i, row) && row.status == Draft && row.publishedAt == None && row.supersededBy == None
  }

  lemma CallMovesRows(rows: seq<RulesetVersion>, op: RulesetOp, at: Time, i: Id)
    requires Try(rows, op, at).Ok? && i < |Try(rows, op, at).value.rows|
    ensures RowMoves(rows, op, at, i, Try(rows, op, at).value.rows[i])
  {
  }

  /** A draft taken is on file; a version published is its key's only published one. */
  lemma CallIsOnFile(rows: seq<RulesetVersion>, op: RulesetOp, at: Time)
    requires Try(rows, op, at).Ok?
    ensures var after := Try(rows, op, at).value.rows;
            match op
            case CreateDraft(_, _, _, _) => |after| == |rows| + 1
            case Publish(_, id) =>
              && |after| == |rows| && id < |after| && after[id].status == Published
              && forall j | 0 <= j < |after| && after[j].key == after[id].key && after[j].status == Published :: j == id
  {
  }

  // ---------------------------------------------------------------- whole runs

  function RowsOf(r: P.Run): seq<RulesetVersion> {
    P.Exec(r).rulesets
  }

  lemma StepMovesRows(r: P.Run, i: Id)
    requires r.Then? && i < |RowsOf(r)|
    ensures || (i < |RowsOf(r.prev)| && RowsOf(r)[i] == RowsOf(r.prev)[i])
            || (r.op.OnRuleset? && RowMoves(RowsOf(r.prev), r.op.ruleset, r.at, i, RowsOf(r)[i]))
  {
    var db := P.Exec(r.prev);
    if r.op.OnRuleset? {
      if Try(db.rulesets, r.op.ruleset, r.at).Ok? {
        CallMovesRows(db.rulesets, r.op.ruleset, r.at, i);
        hide RowMoves;
      }
    } else {
      Reachability.RulesetsStep(db, r.op, r.at);
    }
  }

  /** Every version is as some call drafted it. */
  lemma {:induction false} VersionsAreTraced(r: P.Run, i: Id) returns (s: P.Run)
    requires i < |RowsOf(r)|
    ensures P.Extends(r, s) && s.Then? && s.op.OnRuleset? && Drafts(RowsOf(s.prev), s.op.ruleset, i, RowsOf(r)[i])
  {
    StepMovesRows(r, i);
    hide P.Exec;
    if i < |RowsOf(r.prev)| {
      s := VersionsAreTraced(r.prev, i);
    } else {
      s := r;
    }
  }

  /** A version no longer a draft was published by a call on that draft, at the time on record. */
  lemma {:induction false} PublicationsAreTraced(r: P.Run, i: Id) returns (s: P.Run)
    requires i < |RowsOf(r)| && RowsOf(r)[i].status != Draft
    ensures P.Extends(r, s) && s.Then? && s.op.OnRuleset? && s.op.ruleset.Publish? && s.op.ruleset.id == i
    ensures i < |RowsOf(s.prev)| && RowsOf(s.prev)[i].status == Draft && RowsOf(r)[i].publishedAt == Some(s.at)
  {
    StepMovesRows(r, i);
    hide P.Exec;
    if i < |RowsOf(r.prev)| && RowsOf(r.prev)[i].status != Draft {
      s := PublicationsAreTraced(r.prev, i);
    } else {
      s := r;
    }
  }

  /** A superseded version gave way to the draft its successor was, when that was published for the same key. */
  lemma {:induction false} SupersessionsAreTraced(r: P.Run, i: Id) returns (s: P.Run)
    requires i < |RowsOf(r)| && (RowsOf(r)[i].status == Superseded || RowsOf(r)[i].supersededBy.Some?)
    ensures P.Extends(r, s) && s.Then? && s.op.OnRuleset? && GivesWay(RowsOf(s.prev), s.op.ruleset, i, RowsOf(r)[i])
  {
    StepMovesRows(r, i);
    hide P.Exec;
    if i < |RowsOf(r.prev)| && RowsOf(r)[i] == RowsOf(r.prev)[i] {
      s := SupersessionsAreTraced(r.prev, i);
    } else if i < |RowsOf(r.prev)| && !GivesWay(RowsOf(r.prev), r.op.ruleset, i, RowsOf(r)[i]) {
      DraftsHaveNoSuccessor(r.prev, i);
    } else {
      s := r;
    }
  }

  lemma DraftsHaveNoSuccessor(r: P.Run, i: Id)
    requires i < |RowsOf(r)| && RowsOf(r)[i].status == Draft
    ensures RowsOf(r)[i].supersededBy == None && RowsOf(r)[i].publishedAt == None
  {
    Reachability.Reachable(r);
    hide P.Exec;
    assert WellFormed(RowsOf(r)[i]);
  }

  /** What resolves for a key is its one published version, and nothing resolves exactly when it has none. */
  lemma ResolvesThePublished(r: P.Run, key: Key)
    requires P.Clocked(r)
    ensures forall i: Id :: Resolve(RowsOf(r), key) == Some(i)
                       <==> i < |RowsOf(r)| && RowsOf(r)[i].key == key && RowsOf(r)[i].status == Published
  {
    Reachability.VersionsFormOnePath(r, key);
    hide P.Exec;
    ResolveFindsFirst(RowsOf(r), key);
    forall i: Id ensures Resolve(RowsOf(r), key) == Some(i)
                    <==> i < |RowsOf(r)| && RowsOf(r)[i].key == key && RowsOf(r)[i].status == Published {
      assert i < |RowsOf(r)| ==> (IsPublished(RowsOf(r)[i], key) <==> RowsOf(r)[i].key == key && RowsOf(r)[i].status == Published);
    }
  }
}
