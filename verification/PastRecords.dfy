/**
 * The records half of the reconstruction: check results and documents as of a past date, picked
 * by the affiliations the broker has when the reconstruction is run.
 */
module PastRecords {
  import opened Common
  import opened Platform
  import T = Temporal

  /** The subject is the broker, or a business in which the broker has an active affiliation at the end of `r`. */
  predicate OfBroker(r: Run, subject: T.Subject, broker: Id) {
    || subject == T.ProfileSubject(broker)
    || exists a | 0 <= a < |Exec(r).affiliations| ::
         var row := Exec(r).affiliations[a];
         row.broker == broker && row.status == AffiliationActive && subject == T.BusinessSubject(row.business)
  }

  /** The rows read at the end of `r` as of `t`. */
  predicate ReadNow<P>(r: Run, v: T.Version<P>, broker: Id, t: Time) {
    && v.kind.Some? && v.validFrom <= t && (v.validTo.Some? ==> t < v.validTo.value)
    && OfBroker(r, v.subject, broker)
  }

  /** What the broker's record held at `t`: current typed rows of the broker and of their businesses then. */
  predicate HeldThen<P>(r: Run, w: T.Writes<P>, broker: Id, t: Time, i: nat) {
    var past := T.Rows(T.UpTo(w, t));
    && i < |past| && past[i].validTo.None? && past[i].kind.Some?
    && OfBroker(UpTo(r, t), past[i].subject, broker)
  }

  /** The set of active businesses the query builds and its scope pick the broker's rows and no others. */
  lemma ReconstructsReadNow<P>(r: Run, v: T.Version<P>, broker: Id, t: Time)
    ensures ReadNow(r, v, broker, t) <==> T.Reconstructs(v, broker, ActiveBusinesses(Exec(r).affiliations, broker), t)
  {
    hide Exec;
    var rows := Exec(r).affiliations;
    var businesses := ActiveBusinesses(rows, broker);
    T.ReadsOwnAndBusinessRows(v, broker, businesses, t);
    if b :| b in businesses && v.subject == T.BusinessSubject(b) {
      var a :| 0 <= a < |rows| && rows[a].broker == broker && rows[a].status == AffiliationActive && rows[a].business == b;
    }
    if a :| 0 <= a < |rows| && rows[a].broker == broker && rows[a].status == AffiliationActive && v.subject == T.BusinessSubject(rows[a].business) {
      assert rows[a].business in businesses;
    }
  }

  /**
   * What was written about the broker is read back as of any date from then until it was next
   * written, and at no other, whatever happened to the broker's affiliations.
   */
  lemma OwnRecordsAreAlwaysRead<P>(r: Run, w: T.Writes<P>, first: T.Writes<P>, broker: Id, t: Time) returns (i: nat)
    requires first.Write? && T.Extends(w, first) && first.subject == T.ProfileSubject(broker) && first.kind.Some?
    ensures i < |T.Rows(w)| && T.Rows(w)[i].payload == first.payload && T.Rows(w)[i].kind == first.kind
    ensures ReadNow(r, T.Rows(w)[i], broker, t)
       <==> first.at <= t && (T.NextWrite(w, first).Some? ==> t < T.NextWrite(w, first).value)
  {
    hide Exec;
    i := T.RowLastsUntilNextWrite(w, first);
  }

  /** The reconstruction at the end of `r` reads exactly what the record held at `t`. */
  ghost predicate ReadsThePast<P>(r: Run, w: T.Writes<P>, broker: Id, t: Time) {
    forall i: nat | i < |T.Rows(w)| :: ReadNow(r, T.Rows(w)[i], broker, t) <==> HeldThen(r, w, broker, t, i)
  }

  /** The businesses the broker was active in at `t` and is not at the end of `r`, or the reverse. */
  function JoinedOrLeftSince(r: Run, broker: Id, t: Time): set<Id> {
    var now, before := ActiveBusinesses(Exec(r).affiliations, broker), ActiveBusinesses(Exec(UpTo(r, t)).affiliations, broker);
    (now - before) + (before - now)
  }

  lemma HeldThenIsReadThen<P>(r: Run, w: T.Writes<P>, broker: Id, t: Time, i: nat)
    requires T.Clocked(w) && i < |T.Rows(w)|
    ensures HeldThen(r, w, broker, t, i) <==> ReadNow(UpTo(r, t), T.Rows(w)[i], broker, t)
  {
    hide Exec;
    T.AsOfIsThePast(w, t, i);
    assert T.ValidAt(T.Rows(w)[i], t)
       <==> T.Rows(w)[i].validFrom <= t && (T.Rows(w)[i].validTo.Some? ==> t < T.Rows(w)[i].validTo.value);
  }

  /**
   * Picking businesses by the present affiliations reads the past record exactly when no business
   * the broker has joined or left since had anything on file at the time.
   */
  lemma ReadsThePastIff<P>(r: Run, w: T.Writes<P>, broker: Id, t: Time)
    requires T.Clocked(w)
    ensures ReadsThePast(r, w, broker, t)
       <==> forall b | b in JoinedOrLeftSince(r, broker, t) :: !T.OnFile(T.Rows(T.UpTo(w, t)), b)
  {
    hide Exec;
    var rows := T.Rows(w);
    var now, before := ActiveBusinesses(Exec(r).affiliations, broker), ActiveBusinesses(Exec(UpTo(r, t)).affiliations, broker);
    T.SameRowsIff(w, broker, now, before, t);
    forall i: nat | i < |rows| ensures HeldThen(r, w, broker, t, i) <==> T.Reconstructs(rows[i], broker, before, t) {
      HeldThenIsReadThen(r, w, broker, t, i);
      ReconstructsReadNow(UpTo(r, t), rows[i], broker, t);
    }
    forall i: nat | i < |rows| ensures ReadNow(r, rows[i], broker, t) <==> T.Reconstructs(rows[i], broker, now, t) {
      ReconstructsReadNow(r, rows[i], broker, t);
    }
  }

  /**
   * A run that loses a row of the past: a broker founds a business, a check of it is recorded, the
   * broker leaves, and the reconstruction as of the check's own time no longer returns it.
   */
  lemma LeavingHidesThePast<P>(kind: string, payload: P) returns (r: Run, w: T.Writes<P>)
    ensures Clocked(r) && T.Clocked(w)
    ensures r == Then(Then(Start, OnAffiliation(CreateBusiness(0)), 0.0), OnAffiliation(EndAffiliation(0, 0, None)), 2.0)
    ensures w == T.Write(T.NoWrites, T.BusinessSubject(0), Some(kind), payload, 1.0)
    ensures HeldThen(r, w, 0, 1.0, 0) && !ReadNow(r, T.Rows(w)[0], 0, 1.0)
    ensures !ReadsThePast(r, w, 0, 1.0)
  {
    var founded := Then(Start, OnAffiliation(CreateBusiness(0)), 0.0);
    r := Then(founded, OnAffiliation(EndAffiliation(0, 0, None)), 2.0);
    w := T.Write(T.NoWrites, T.BusinessSubject(0), Some(kind), payload, 1.0);
    assert Exec(founded).affiliations == [Affiliation(0, 0, AffiliationActive, None, None)];
    assert Exec(r).affiliations == [Affiliation(0, 0, Ended, Some(2.0), None)];
    assert UpTo(r, 1.0) == founded && T.UpTo(w, 1.0) == w;
    assert Exec(founded).affiliations[0].business in ActiveBusinesses(Exec(founded).affiliations, 0);
  }
}
