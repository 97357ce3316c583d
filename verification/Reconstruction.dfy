/**
 * The reconstruction as the code runs it: each accreditation's rows read ORDER BY occurred_at,
 * whatever order the database gives to equal times, then folded.
 */
module Reconstruction {
  import opened Common
  import opened Audit
  import opened Platform
  import opened Lifecycle

  /** The rows the query selects for one accreditation, in insertion order. */
  function Select(log: seq<AuditRow>, id: Id, t: Time): seq<AuditRow> {
    if log == [] then []
    else
      var last := log[|log| - 1];
      Select(log[..|log| - 1], id, t) + if Selected(last, id, t) then [last] else []
  }

  predicate TimeOrdered(rows: seq<AuditRow>) {
    forall i, j | 0 <= i < j < |rows| :: rows[i].occurredAt <= rows[j].occurredAt
  }

  predicate StrictlyTimeOrdered(rows: seq<AuditRow>) {
    forall i, j | 0 <= i < j < |rows| :: rows[i].occurredAt < rows[j].occurredAt
  }

  /** What the query may return: the selected rows, in any order that sorts them by time. */
  ghost predicate OrderedRead(history: seq<AuditRow>, log: seq<AuditRow>, id: Id, t: Time) {
    multiset(history) == multiset(Select(log, id, t)) && TimeOrdered(history)
  }

  /** Inserting a row before every later one keeps the read ordered. */
  lemma InsertOrdered(history: seq<AuditRow>, row: AuditRow, p: nat)
    requires TimeOrdered(history) && p <= |history|
    requires p == 0 || history[p - 1].occurredAt <= row.occurredAt
    requires forall j | p <= j < |history| :: row.occurredAt < history[j].occurredAt
    ensures TimeOrdered(history[..p] + [row] + history[p..])
    ensures multiset(history[..p] + [row] + history[p..]) == multiset(history + [row])
  {
    InsertKeepsElements(history, row, p);
    var after := history[..p] + [row] + history[p..];
    forall i, j | 0 <= i < j < |after| ensures after[i].occurredAt <= after[j].occurredAt {
      var x, y := if i < p then i else i - 1, if j < p then j else j - 1;
      assert i != p ==> after[i] == history[x];
      assert j != p ==> after[j] == history[y];
      assert i < p ==> history[i].occurredAt <= history[p - 1].occurredAt;
    }
  }

  lemma InsertKeepsElements<T>(s: seq<T>, x: T, p: nat)
    requires p <= |s|
    ensures multiset(s[..p] + [x] + s[p..]) == multiset(s + [x])
  {
    assert s == s[..p] + s[p..];
  }

  /** The read carried one row further: inserted in place when selected, unchanged when not. */
  lemma OrderedReadExtends(history: seq<AuditRow>, log: seq<AuditRow>, row: AuditRow, id: Id, t: Time, p: nat)
    requires OrderedRead(history, log, id, t)
    requires p <= |history| && (p == 0 || history[p - 1].occurredAt <= row.occurredAt)
    requires forall j | p <= j < |history| :: row.occurredAt < history[j].occurredAt
    ensures OrderedRead(if Selected(row, id, t) then history[..p] + [row] + history[p..] else history, log + [row], id, t)
  {
    InsertOrdered(history, row, p);
    assert (log + [row])[..|log|] == log;
    assert Select(log + [row], id, t) == Select(log, id, t) + if Selected(row, id, t) then [row] else [];
    assert multiset(history + [row]) == multiset(history) + multiset{row};
    assert Select(log, id, t) + [] == Select(log, id, t);
  }

  /** The fold over a history, unmapped actions skipped. */
  function Replay(history: seq<AuditRow>): Option<AccreditationStatus> {
    if history == [] then None
    else
      var mapped := StatusByAction(history[|history| - 1].action);
      if mapped.Some? then mapped else Replay(history[..|history| - 1])
  }

  lemma {:induction false} SelectConcat(log: seq<AuditRow>, rows: seq<AuditRow>, id: Id, t: Time)
    ensures Select(log + rows, id, t) == Select(log, id, t) + Select(rows, id, t)
  {
    if rows == [] {
      assert log + rows == log;
    } else {
      assert (log + rows)[..|log + rows| - 1] == log + rows[..|rows| - 1];
      SelectConcat(log, rows[..|rows| - 1], id, t);
    }
  }

  lemma {:induction false} SelectedRows(log: seq<AuditRow>, id: Id, t: Time)
    ensures forall i | 0 <= i < |Select(log, id, t)| :: Select(log, id, t)[i] in log
  {
    if log != [] {
      SelectedRows(log[..|log| - 1], id, t);
    }
  }

  lemma {:induction false} ReplayIsStatusAsOf(log: seq<AuditRow>, id: Id, t: Time)
    ensures Replay(Select(log, id, t)) == StatusAsOf(log, id, t)
  {
    if log != [] {
      var rows := Select(log[..|log| - 1], id, t);
      var last := log[|log| - 1];
      ReplayIsStatusAsOf(log[..|log| - 1], id, t);
      assert rows + [] == rows && (rows + [last])[..|rows|] == rows;
    }
  }

  // ---------------------------------------------------------------- one row per call

  lemma SelectAppend(rows: seq<AuditRow>, row: AuditRow, id: Id, t: Time)
    ensures Select(rows + [row], id, t) == Select(rows, id, t) + if Selected(row, id, t) then [row] else []
  {
    assert (rows + [row])[..|rows|] == rows;
  }

  /** A sweep writes at most one row about an accreditation, and none about one beyond the table. */
  lemma {:induction false} SweepSelectsOne(hits: seq<bool>, actor: Actor, action: Action, at: Time, id: Id, t: Time)
    ensures |Select(SweepRows(hits, actor, action, at), id, t)| <= if id < |hits| then 1 else 0
  {
    if hits != [] {
      var n := |hits| - 1;
      var front, hit := hits[..n], hits[n];
      SweepSelectsOne(front, actor, action, at, id, t);
      SweepSnoc(front, hit, actor, action, at);
      assert hits == front + [hit];
      hide SweepRows, Select;
      if hit {
        SelectAppend(SweepRows(front, actor, action, at), AuditRow(at, actor, action, AccreditationSubject, n), id, t);
      } else {
        assert SweepRows(front, actor, action, at) + [] == SweepRows(front, actor, action, at);
      }
    }
  }

  lemma SelectFromFew(rows: seq<AuditRow>, id: Id, t: Time)
    requires |rows| <= 1
    ensures |Select(rows, id, t)| <= 1
  {
    if |rows| == 1 {
      assert rows[..0] == [];
    }
  }

  lemma OneRowPerEnd(db: Db, broker: Id, affiliation: Id, reason: Option<string>, at: Time, id: Id, t: Time)
    ensures var r := TryEndAffiliation(db, broker, affiliation, reason, at);
            r.Ok? ==> |Select(r.value.rows, id, t)| <= 1
  {
    if TryEndAffiliation(db, broker, affiliation, reason, at).Ok? {
      var hits := FlagHits(db.accreditations, broker, db.affiliations[affiliation].business);
      var row := AuditRow(at, Broker(broker), AffiliationEnded, AffiliationSubject, affiliation);
      SelectConcat([row], SweepRows(hits, Broker(broker), AccreditationPartyChanged, at), id, t);
      SweepSelectsOne(hits, Broker(broker), AccreditationPartyChanged, at, id, t);
      SelectAppend([], row, id, t);
      assert [] + [row] == [row];
    }
  }

  lemma OneRowPerAccreditationCall(db: Db, op: AccreditationOp, at: Time, id: Id, t: Time)
    ensures var r := TryAccreditation(db, op, at);
            r.Ok? ==> |Select(r.value.rows, id, t)| <= 1
  {
    var r := TryAccreditation(db, op, at);
    if op.CheckTrainingDeadlines? {
      SweepSelectsOne(LapseHits(db.accreditations, op.ctx, op.lender, at), op.ctx, AccreditationLapsed, at, id, t);
    } else if r.Ok? {
      SelectFromFew(r.value.rows, id, t);
    }
  }

  /** No call writes two rows about one accreditation. */
  lemma OneRowPerCall(db: Db, op: Op, at: Time, id: Id, t: Time)
    ensures |Select(Appended(db, op, at), id, t)| <= 1
  {
    match op {
      case OnAffiliation(EndAffiliation(broker, affiliation, reason)) => OneRowPerEnd(db, broker, affiliation, reason, at, id, t);
      case OnAccreditation(a) => OneRowPerAccreditationCall(db, a, at, id, t);
      case _ => SelectFromFew(Appended(db, op, at), id, t);
    }
  }

  predicate WrittenBy(rows: seq<AuditRow>, at: Time) {
    forall i | 0 <= i < |rows| :: rows[i].occurredAt <= at
  }

  /** Every row of the log was written by a call of the run. */
  lemma {:induction false} RowsArePast(r: Run, at: Time)
    requires Clocked(r) && (r.Then? ==> r.at <= at)
    ensures WrittenBy(Exec(r).audit, at)
  {
    if r.Then? {
      RowsArePast(r.prev, at);
      AppendedNow(Exec(r.prev), r.op, r.at);
      AuditGrows(Exec(r.prev), r.op, r.at);
    }
  }

  lemma {:induction false} HistoryTimesIncrease(r: Run, id: Id, t: Time)
    requires Clocked(r)
    ensures StrictlyTimeOrdered(Select(Exec(r).audit, id, t))
  {
    if r.Then? {
      var db := Exec(r.prev);
      HistoryTimesIncrease(r.prev, id, t);
      if r.prev.Then? {
        RowsArePast(r.prev, r.prev.at);
      }
      AppendedNow(db, r.op, r.at);
      AuditGrows(db, r.op, r.at);
      SelectConcat(db.audit, Appended(db, r.op, r.at), id, t);
      OneRowPerCall(db, r.op, r.at, id, t);
      SelectedRows(db.audit, id, t);
      SelectedRows(Appended(db, r.op, r.at), id, t);
    }
  }

  // ---------------------------------------------------------------- ordering by time

  /** The latest row comes last in either order. */
  lemma LastRowsAgree(a: seq<AuditRow>, b: seq<AuditRow>)
    requires StrictlyTimeOrdered(a) && TimeOrdered(b) && multiset(a) == multiset(b) && a != []
    ensures |a| == |b| && a[|a| - 1] == b[|b| - 1]
  {
    assert |a| == |multiset(a)| && |b| == |multiset(b)|;
    var n := |a| - 1;
    assert b[n] in multiset(a) && a[n] in multiset(b);
    var i :| 0 <= i <= n && a[i] == b[n];
    var j :| 0 <= j <= n && b[j] == a[n];
  }

  lemma LastOfMultiset<T>(s: seq<T>)
    requires s != []
    ensures multiset(s) == multiset(s[..|s| - 1]) + multiset{s[|s| - 1]}
  {
    assert s == s[..|s| - 1] + [s[|s| - 1]];
  }

  lemma Cancel<T>(x: multiset<T>, y: multiset<T>, e: T)
    requires x + multiset{e} == y + multiset{e}
    ensures x == y
  {
    assert x == x + multiset{e} - multiset{e};
  }

  lemma SameWithoutLast<T>(a: seq<T>, b: seq<T>)
    requires a != [] && b != [] && multiset(a) == multiset(b) && a[|a| - 1] == b[|b| - 1]
    ensures multiset(a[..|a| - 1]) == multiset(b[..|b| - 1])
  {
    LastOfMultiset(a);
    LastOfMultiset(b);
    Cancel(multiset(a[..|a| - 1]), multiset(b[..|b| - 1]), a[|a| - 1]);
  }

  /** Rows at distinct times have one time order, however they are permuted. */
  lemma {:induction false} OneTimeOrder(a: seq<AuditRow>, b: seq<AuditRow>)
    requires StrictlyTimeOrdered(a) && TimeOrdered(b) && multiset(a) == multiset(b)
    ensures a == b
  {
    if a == [] {
      assert |b| == |multiset(b)|;
    } else {
      LastRowsAgree(a, b);
      SameWithoutLast(a, b);
      OneTimeOrder(a[..|a| - 1], b[..|b| - 1]);
      assert a == a[..|a| - 1] + [a[|a| - 1]] && b == b[..|b| - 1] + [b[|b| - 1]];
    }
  }

  /**
   * Whatever order a query ORDER BY occurred_at may return, at the end of any run folding it gives
   * exactly the status the accreditation had at `t`, and none if it did not exist then.
   */
  lemma OrderedReadsReplay(r: Run, id: Id, t: Time, history: seq<AuditRow>)
    requires Clocked(r) && OrderedRead(history, Exec(r).audit, id, t)
    ensures history == Select(Exec(r).audit, id, t)
    ensures Replay(history) == StatusOf(Exec(UpTo(r, t)), id)
  {
    HistoryTimesIncrease(r, id, t);
    OneTimeOrder(Select(Exec(r).audit, id, t), history);
    ReplayIsStatusAsOf(Exec(r).audit, id, t);
    LogReplaysToStatusAt(r, id, t);
  }

  // ---------------------------------------------------------------- the reconstruction's list

  datatype Reconstructed = Reconstructed(id: Id, status: AccreditationStatus)

  /** The list the reconstruction builds from the histories it read. */
  function Listing(accreditations: seq<Accreditation>, histories: seq<seq<AuditRow>>, broker: Id): seq<Reconstructed>
    requires |histories| == |accreditations|
  {
    if accreditations == [] then []
    else
      var n := |accreditations| - 1;
      var status := Replay(histories[n]);
      Listing(accreditations[..n], histories[..n], broker)
      + if accreditations[n].request.broker == broker && status.Some? then [Reconstructed(n, status.value)] else []
  }

  lemma ListingSnoc(accreditations: seq<Accreditation>, histories: seq<seq<AuditRow>>, broker: Id, a: Accreditation, history: seq<AuditRow>)
    requires |histories| == |accreditations|
    ensures var status := Replay(history);
            Listing(accreditations + [a], histories + [history], broker)
            == Listing(accreditations, histories, broker)
               + if a.request.broker == broker && status.Some? then [Reconstructed(|accreditations|, status.value)] else []
  {
    var n := |accreditations|;
    assert (accreditations + [a])[..n] == accreditations && (histories + [history])[..n] == histories;
  }

  ghost predicate HistoriesRead(histories: seq<seq<AuditRow>>, log: seq<AuditRow>, t: Time) {
    forall i | 0 <= i < |histories| :: OrderedRead(histories[i], log, i, t)
  }

  /** What the reconstruction may return: the list of the folds of some ordered reads. */
  ghost predicate IsReconstruction(result: seq<Reconstructed>, accreditations: seq<Accreditation>, log: seq<AuditRow>, broker: Id, t: Time) {
    exists histories: seq<seq<AuditRow>> ::
      |histories| == |accreditations| && HistoriesRead(histories, log, t) && result == Listing(accreditations, histories, broker)
  }

  /** Each accreditation at most once, in table order. */
  predicate InTableOrder(result: seq<Reconstructed>, n: nat) {
    && (forall i | 0 <= i < |result| :: result[i].id < n)
    && (forall i, j | 0 <= i < j < |result| :: result[i].id < result[j].id)
  }

  lemma {:induction false} ListingIsInTableOrder(accreditations: seq<Accreditation>, histories: seq<seq<AuditRow>>, broker: Id)
    requires |histories| == |accreditations|
    ensures InTableOrder(Listing(accreditations, histories, broker), |accreditations|)
  {
    if accreditations != [] {
      var n := |accreditations| - 1;
      ListingIsInTableOrder(accreditations[..n], histories[..n], broker);
      var status := Replay(histories[n]);
      if accreditations[n].request.broker == broker && status.Some? {
        assert Listing(accreditations, histories, broker)
            == Listing(accreditations[..n], histories[..n], broker) + [Reconstructed(n, status.value)];
      } else {
        assert Listing(accreditations, histories, broker) == Listing(accreditations[..n], histories[..n], broker);
      }
    }
  }

  lemma HistoriesReadSnoc(histories: seq<seq<AuditRow>>, history: seq<AuditRow>, log: seq<AuditRow>, t: Time)
    requires HistoriesRead(histories, log, t) && OrderedRead(history, log, |histories|, t)
    ensures HistoriesRead(histories + [history], log, t)
  {
    hide OrderedRead;
  }

  lemma {:induction false} ListingMembers(accreditations: seq<Accreditation>, histories: seq<seq<AuditRow>>, broker: Id, x: Reconstructed)
    requires |histories| == |accreditations|
    ensures x in Listing(accreditations, histories, broker)
       <==> x.id < |accreditations| && accreditations[x.id].request.broker == broker && Replay(histories[x.id]) == Some(x.status)
  {
    if accreditations != [] {
      var n := |accreditations| - 1;
      ListingMembers(accreditations[..n], histories[..n], broker, x);
    }
  }
}
