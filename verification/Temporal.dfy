/**
 * The temporal tables: check results and evidence. A write inserts a new version and closes the
 * current one of its key; the as-of filter reads the table as it was at a past time.
 */
module Temporal {
  import opened Common

  datatype Subject = ProfileSubject(id: Id) | BusinessSubject(id: Id) | PrincipalSubject(id: Id)

  /** A version; `kind` is the check or document type, absent on provider payloads. */
  datatype Version<+P> = Version(
    subject: Subject, kind: Option<string>, payload: P,
    validFrom: Time, validTo: Option<Time>, supersededBy: Option<Id>)

  predicate Keyed<P>(v: Version<P>, subject: Subject, kind: string) {
    v.subject == subject && v.kind == Some(kind)
  }

  /** The first current version of a key. */
  function Current<P>(rows: seq<Version<P>>, subject: Subject, kind: string): (r: Option<Id>)
    ensures r.Some? ==> r.value < |rows| && Keyed(rows[r.value], subject, kind) && rows[r.value].validTo.None?
    ensures r.None? ==> forall i | 0 <= i < |rows| :: Keyed(rows[i], subject, kind) ==> rows[i].validTo.Some?
  {
    if rows == [] then None
    else
      var n := |rows| - 1;
      var before := Current(rows[..n], subject, kind);
      if before.Some? then before
      else if Keyed(rows[n], subject, kind) && rows[n].validTo.None? then Some(n)
      else None
  }

  /** A write without a kind closes nothing. */
  function Close<P>(rows: seq<Version<P>>, subject: Subject, kind: Option<string>, now: Time): seq<Version<P>> {
    var current := if kind.Some? then Current(rows, subject, kind.value) else None;
    if current.None? then rows
    else rows[current.value := rows[current.value].(validTo := Some(now), supersededBy := Some(|rows|))]
  }

  function Put<P>(rows: seq<Version<P>>, subject: Subject, kind: Option<string>, payload: P, now: Time): seq<Version<P>> {
    Close(rows, subject, kind, now) + [Version(subject, kind, payload, now, None, None)]
  }

  /** The writes made so far, each with its transaction time. */
  datatype Writes<+P> = NoWrites | Write(prev: Writes<P>, subject: Subject, kind: Option<string>, payload: P, at: Time)

  function Rows<P>(w: Writes<P>): seq<Version<P>> {
    match w
    case NoWrites => []
    case Write(prev, subject, kind, payload, at) => Put(Rows(prev), subject, kind, payload, at)
  }

  /** Several writes may share one time; time never goes back. */
  predicate Clocked<P>(w: Writes<P>) {
    w.Write? ==> Clocked(w.prev) && (w.prev.Write? ==> w.prev.at <= w.at)
  }

  function UpTo<P>(w: Writes<P>, t: Time): Writes<P> {
    if w.NoWrites? || w.at <= t then w else UpTo(w.prev, t)
  }

  /** `later` continues `w`. */
  predicate Extends<P(==)>(later: Writes<P>, w: Writes<P>) {
    later == w || (later.Write? && Extends(later.prev, w))
  }

  // ---------------------------------------------------------------- supersession

  /** The versions of a key, in insertion order. */
  function PathOf<P>(rows: seq<Version<P>>, subject: Subject, kind: string): (p: seq<Id>)
    ensures forall k | 0 <= k < |p| :: p[k] < |rows| && Keyed(rows[p[k]], subject, kind)
    ensures forall k, l | 0 <= k < l < |p| :: p[k] < p[l]
  {
    if rows == [] then []
    else
      var n := |rows| - 1;
      PathOf(rows[..n], subject, kind) + if Keyed(rows[n], subject, kind) then [n] else []
  }

  lemma {:induction false} EveryVersionOnPath<P>(rows: seq<Version<P>>, subject: Subject, kind: string, i: nat) returns (k: nat)
    requires i < |rows| && Keyed(rows[i], subject, kind)
    ensures k < |PathOf(rows, subject, kind)| && PathOf(rows, subject, kind)[k] == i
  {
    if i == |rows| - 1 {
      k := |PathOf(rows, subject, kind)| - 1;
    } else {
      k := EveryVersionOnPath(rows[..|rows| - 1], subject, kind, i);
    }
  }

  /** Version `k` of the path names its successor and ends exactly when it begins; the last one is current. */
  predicate Succeeds<P>(rows: seq<Version<P>>, path: seq<Id>, k: nat)
    requires k < |path|
  {
    && path[k] < |rows|
    && if k == |path| - 1 then rows[path[k]].supersededBy == None && rows[path[k]].validTo == None
       else
         && path[k + 1] < |rows|
         && rows[path[k]].supersededBy == Some(path[k + 1])
         && rows[path[k]].validTo == Some(rows[path[k + 1]].validFrom)
  }

  predicate GapFree<P>(rows: seq<Version<P>>, path: seq<Id>) {
    forall k: nat | k < |path| :: Succeeds(rows, path, k)
  }

  /** Closing a version changes no key. */
  lemma {:induction false} PathAfterClose<P>(rows: seq<Version<P>>, closed: seq<Version<P>>, subject: Subject, kind: string)
    requires |closed| == |rows|
    requires forall i | 0 <= i < |rows| :: closed[i].subject == rows[i].subject && closed[i].kind == rows[i].kind
    ensures PathOf(closed, subject, kind) == PathOf(rows, subject, kind)
  {
    if rows != [] {
      PathAfterClose(rows[..|rows| - 1], closed[..|rows| - 1], subject, kind);
    }
  }

  lemma PathAfterPut<P>(rows: seq<Version<P>>, subject: Subject, kind: Option<string>, payload: P, now: Time, s: Subject, k: string)
    ensures PathOf(Put(rows, subject, kind, payload, now), s, k)
         == PathOf(rows, s, k) + if s == subject && kind == Some(k) then [|rows|] else []
  {
    var closed := Close(rows, subject, kind, now);
    PathAfterClose(rows, closed, s, k);
    assert Put(rows, subject, kind, payload, now)[..|rows|] == closed;
  }

  /** The open version of a gap-free path is the one a write of the key closes. */
  lemma CurrentIsLast<P>(rows: seq<Version<P>>, s: Subject, k: string)
    requires GapFree(rows, PathOf(rows, s, k))
    ensures var path := PathOf(rows, s, k);
            Current(rows, s, k) == if path == [] then None else Some(path[|path| - 1])
  {
    var path := PathOf(rows, s, k);
    if path != [] {
      assert Succeeds(rows, path, |path| - 1);
      var j := EveryVersionOnPath(rows, s, k, Current(rows, s, k).value);
      assert Succeeds(rows, path, j);
    }
  }

  lemma VersionAfterPut<P>(rows: seq<Version<P>>, subject: Subject, kind: Option<string>, payload: P, now: Time, i: nat)
    requires i < |rows|
    ensures var after := Put(rows, subject, kind, payload, now);
            && after[|rows|] == Version(subject, kind, payload, now, None, None)
            && after[i].validFrom == rows[i].validFrom
            && (if kind.Some? && Current(rows, subject, kind.value) == Some(i)
                then after[i].validTo == Some(now) && after[i].supersededBy == Some(|rows|)
                else after[i] == rows[i])
  {
  }

  /** A version of the path keeps its successor, or is the last one and gets the new version when that is of the key. */
  lemma PutKeepsSucceeds<P>(rows: seq<Version<P>>, subject: Subject, kind: Option<string>, payload: P, now: Time, s: Subject, k: string, i: nat)
    requires GapFree(rows, PathOf(rows, s, k)) && i < |PathOf(rows, s, k)|
    ensures var path := PathOf(rows, s, k) + if s == subject && kind == Some(k) then [|rows|] else [];
            Succeeds(Put(rows, subject, kind, payload, now), path, i)
  {
    var path, after := PathOf(rows, s, k), Put(rows, subject, kind, payload, now);
    CurrentIsLast(rows, s, k);
    assert Succeeds(rows, path, i) && Keyed(rows[path[i]], s, k);
    assert |after| == |rows| + 1;
    VersionAfterPut(rows, subject, kind, payload, now, path[i]);
    if i < |path| - 1 {
      VersionAfterPut(rows, subject, kind, payload, now, path[i + 1]);
    }
    hide Put, PathOf, Current, GapFree;
  }

  lemma PutKeepsGapFree<P>(rows: seq<Version<P>>, subject: Subject, kind: Option<string>, payload: P, now: Time, s: Subject, k: string)
    requires GapFree(rows, PathOf(rows, s, k))
    ensures GapFree(Put(rows, subject, kind, payload, now), PathOf(Put(rows, subject, kind, payload, now), s, k))
  {
    var path, after := PathOf(rows, s, k), Put(rows, subject, kind, payload, now);
    PathAfterPut(rows, subject, kind, payload, now, s, k);
    assert |after| == |rows| + 1 && after[|rows|] == Version(subject, kind, payload, now, None, None);
    hide Put, PathOf;
    var path' := PathOf(after, s, k);
    forall i: nat | i < |path'| ensures Succeeds(after, path', i) {
      if i < |path| {
        PutKeepsSucceeds(rows, subject, kind, payload, now, s, k, i);
      }
    }
  }

  /**
   * After any writes, a key's versions form one path in insertion order, each superseded by the
   * next at the moment the next begins, and ending at the only current one.
   */
  lemma {:induction false} VersionsFormOnePath<P>(w: Writes<P>, s: Subject, k: string)
    ensures GapFree(Rows(w), PathOf(Rows(w), s, k))
  {
    if w.Write? {
      VersionsFormOnePath(w.prev, s, k);
      PutKeepsGapFree(Rows(w.prev), w.subject, w.kind, w.payload, w.at, s, k);
    }
  }

  lemma OneCurrent<P>(w: Writes<P>, i: nat, j: nat, s: Subject, k: string)
    requires i < |Rows(w)| && j < |Rows(w)| && Keyed(Rows(w)[i], s, k) && Keyed(Rows(w)[j], s, k)
    requires Rows(w)[i].validTo.None? && Rows(w)[j].validTo.None?
    ensures i == j
  {
    VersionsFormOnePath(w, s, k);
    var path := PathOf(Rows(w), s, k);
    var a := EveryVersionOnPath(Rows(w), s, k, i);
    var b := EveryVersionOnPath(Rows(w), s, k, j);
    assert Succeeds(Rows(w), path, a) && Succeeds(Rows(w), path, b);
  }

  lemma {:induction false} PayloadsStayCurrent<P>(w: Writes<P>, i: nat)
    requires i < |Rows(w)| && Rows(w)[i].kind.None?
    ensures Rows(w)[i].validTo.None? && Rows(w)[i].supersededBy.None?
  {
    if w.Write? && i < |Rows(w.prev)| {
      PayloadsStayCurrent(w.prev, i);
    }
  }

  // ---------------------------------------------------------------- reading the past

  /** The as-of filter. */
  predicate ValidAt<P>(v: Version<P>, t: Time) {
    v.validFrom <= t && (v.validTo.None? || v.validTo.value > t)
  }

  predicate SameContent<P(==)>(v: Version<P>, u: Version<P>) {
    v.subject == u.subject && v.kind == u.kind && v.payload == u.payload && v.validFrom == u.validFrom
  }

  lemma {:induction false} WrittenInThePast<P>(w: Writes<P>, t: Time)
    requires Clocked(w) && (w.Write? ==> w.at <= t)
    ensures forall i | 0 <= i < |Rows(w)| ::
              Rows(w)[i].validFrom <= t && (Rows(w)[i].validTo.Some? ==> Rows(w)[i].validTo.value <= t)
  {
    if w.Write? {
      WrittenInThePast(w.prev, t);
    }
  }

  /**
   * The as-of theorem: whatever was written since, the filter at `t` passes exactly the rows that
   * were current in the table as it stood at `t`, and their content is what it was then.
   */
  lemma {:induction false} AsOfIsThePast<P>(w: Writes<P>, t: Time, i: nat)
    requires Clocked(w) && i < |Rows(w)|
    ensures ValidAt(Rows(w)[i], t) <==> i < |Rows(UpTo(w, t))| && Rows(UpTo(w, t))[i].validTo.None?
    ensures i < |Rows(UpTo(w, t))| ==> SameContent(Rows(w)[i], Rows(UpTo(w, t))[i])
  {
    if w.at <= t {
      WrittenInThePast(w, t);
    } else if i < |Rows(w.prev)| {
      AsOfIsThePast(w.prev, t, i);
    } else {
      TableGrows(w.prev, t);
    }
  }

  function Count<P>(w: Writes<P>): nat {
    if w.NoWrites? then 0 else Count(w.prev) + 1
  }

  lemma {:induction false} ExtendsIsLonger<P>(later: Writes<P>, w: Writes<P>)
    requires Extends(later, w)
    ensures Count(w) <= Count(later) && (Count(w) == Count(later) ==> w == later)
  {
    if later != w {
      ExtendsIsLonger(later.prev, w);
    }
  }

  lemma OnlyItself<P>(w: Writes<P>, s: Writes<P>)
    requires Extends(w, s) && Extends(s, w)
    ensures s == w
  {
    ExtendsIsLonger(w, s);
    ExtendsIsLonger(s, w);
  }

  /** Time never goes back, and may stand still. */
  lemma {:induction false} ClockedIff<P(!new)>(w: Writes<P>)
    ensures Clocked(w)
       <==> forall s, u | Extends(w, s) && Extends(s, u) && s.Write? && u.Write? :: u.at <= s.at
  {
    if w.Write? {
      ClockedIff(w.prev);
      if Clocked(w) {
        forall s, u | Extends(w, s) && Extends(s, u) && s.Write? && u.Write? ensures u.at <= s.at {
          if u == w {
            OnlyItself(w, s);
          } else if s == w {
            assert Extends(w.prev, u) && Extends(w.prev, w.prev) && w.prev.Write?;
          } else {
            assert Extends(w.prev, s);
          }
        }
      } else {
        assert Extends(w, w) && Extends(w.prev, w.prev) && Extends(w, w.prev);
        if !Clocked(w.prev) {
          var s, u :| Extends(w.prev, s) && Extends(s, u) && s.Write? && u.Write? && u.at > s.at;
          assert Extends(w, s);
        }
      }
    }
  }

  /** When the subject and kind that `first` wrote were next written, by the end of `w`. */
  function NextWrite<P(==)>(w: Writes<P>, first: Writes<P>): Option<Time>
    requires first.Write? && Extends(w, first)
  {
    if w == first then None
    else if NextWrite(w.prev, first).Some? then NextWrite(w.prev, first)
    else if w.kind.Some? && w.kind == first.kind && w.subject == first.subject then Some(w.at)
    else None
  }

  /** One more write closes a row exactly when the row is open and of the subject and kind written. */
  lemma WriteCloses<P>(w: Writes<P>, i: nat)
    requires w.Write? && i < |Rows(w.prev)|
    ensures i < |Rows(w)| && Rows(w)[i].subject == Rows(w.prev)[i].subject && Rows(w)[i].kind == Rows(w.prev)[i].kind
    ensures Rows(w)[i].payload == Rows(w.prev)[i].payload && Rows(w)[i].validFrom == Rows(w.prev)[i].validFrom
    ensures Rows(w)[i].validTo
         == if Rows(w.prev)[i].validTo.None? && w.kind.Some? && Rows(w.prev)[i].kind == w.kind && Rows(w.prev)[i].subject == w.subject
            then Some(w.at) else Rows(w.prev)[i].validTo
  {
    var rows := Rows(w.prev);
    VersionAfterPut(rows, w.subject, w.kind, w.payload, w.at, i);
    if w.kind.Some? && Keyed(rows[i], w.subject, w.kind.value) && rows[i].validTo.None? {
      OneCurrent(w.prev, i, Current(rows, w.subject, w.kind.value).value, w.subject, w.kind.value);
    }
  }

  /**
   * The row a write inserts holds what was written, from then until the next write of the same
   * subject and kind, and for ever when there is none.
   */
  lemma {:induction false} RowLastsUntilNextWrite<P>(w: Writes<P>, first: Writes<P>) returns (i: nat)
    requires first.Write? && Extends(w, first)
    ensures i == |Rows(first)| - 1 && i < |Rows(w)|
    ensures Rows(w)[i].subject == first.subject && Rows(w)[i].kind == first.kind
    ensures Rows(w)[i].payload == first.payload && Rows(w)[i].validFrom == first.at
    ensures Rows(w)[i].validTo == NextWrite(w, first)
  {
    i := |Rows(first)| - 1;
    if w != first {
      var _ := RowLastsUntilNextWrite(w.prev, first);
      WriteCloses(w, i);
    }
  }

  lemma {:induction false} TableGrows<P>(w: Writes<P>, t: Time)
    ensures |Rows(UpTo(w, t))| <= |Rows(w)|
  {
    if w.Write? && w.at > t {
      TableGrows(w.prev, t);
    }
  }

  /** Nothing supersedes a provider payload: it is current from its capture on, at every later date. */
  lemma PayloadsAreNeverSuperseded<P>(w: Writes<P>, i: nat, t: Time)
    requires i < |Rows(w)| && Rows(w)[i].kind.None?
    ensures Rows(w)[i].validTo.None? && Rows(w)[i].supersededBy.None?
    ensures ValidAt(Rows(w)[i], t) <==> Rows(w)[i].validFrom <= t
  {
    PayloadsStayCurrent(w, i);
  }

  /** For every key and time the filter passes at most one row. */
  lemma AtMostOneValid<P>(w: Writes<P>, t: Time, i: nat, j: nat, s: Subject, k: string)
    requires Clocked(w) && i < |Rows(w)| && j < |Rows(w)|
    requires Keyed(Rows(w)[i], s, k) && Keyed(Rows(w)[j], s, k)
    requires ValidAt(Rows(w)[i], t) && ValidAt(Rows(w)[j], t)
    ensures i == j
  {
    AsOfIsThePast(w, t, i);
    AsOfIsThePast(w, t, j);
    OneCurrent(UpTo(w, t), i, j, s, k);
  }

  /** It passes one exactly when the key had been written by `t`. */
  lemma ValidFromFirstWrite<P>(w: Writes<P>, t: Time, s: Subject, k: string)
    requires Clocked(w)
    ensures (exists i | 0 <= i < |Rows(w)| :: Keyed(Rows(w)[i], s, k) && ValidAt(Rows(w)[i], t))
       <==> (exists i | 0 <= i < |Rows(UpTo(w, t))| :: Keyed(Rows(UpTo(w, t))[i], s, k))
  {
    var past := Rows(UpTo(w, t));
    TableGrows(w, t);
    if i :| 0 <= i < |Rows(w)| && Keyed(Rows(w)[i], s, k) && ValidAt(Rows(w)[i], t) {
      AsOfIsThePast(w, t, i);
      assert Keyed(past[i], s, k);
    }
    if i :| 0 <= i < |past| && Keyed(past[i], s, k) {
      var last := CurrentVersion(UpTo(w, t), i, s, k);
      AsOfIsThePast(w, t, last);
      assert Keyed(Rows(w)[last], s, k);
    }
  }

  lemma CurrentVersion<P>(w: Writes<P>, i: nat, s: Subject, k: string) returns (last: nat)
    requires i < |Rows(w)| && Keyed(Rows(w)[i], s, k)
    ensures last < |Rows(w)| && Keyed(Rows(w)[last], s, k) && Rows(w)[last].validTo.None?
  {
    VersionsFormOnePath(w, s, k);
    var path := PathOf(Rows(w), s, k);
    var _ := EveryVersionOnPath(Rows(w), s, k, i);
    last := path[|path| - 1];
    assert Succeeds(Rows(w), path, |path| - 1);
  }

  // ---------------------------------------------------------------- whose rows a reconstruction reads

  predicate InScope(subject: Subject, broker: Id, businesses: set<Id>) {
    match subject
    case ProfileSubject(id) => id == broker
    case BusinessSubject(id) => id in businesses
    case PrincipalSubject(_) => false
  }

  /** The rows a reconstruction as of `t` returns for a broker and a set of businesses. */
  predicate Reconstructs<P>(v: Version<P>, broker: Id, businesses: set<Id>, t: Time) {
    InScope(v.subject, broker, businesses) && v.kind.Some? && ValidAt(v, t)
  }

  /** A reconstruction reads typed rows valid at the date: the broker's own, and those of the businesses. */
  lemma ReadsOwnAndBusinessRows<P>(v: Version<P>, broker: Id, businesses: set<Id>, t: Time)
    ensures Reconstructs(v, broker, businesses, t)
       <==> && v.kind.Some? && v.validFrom <= t && (v.validTo.Some? ==> t < v.validTo.value)
            && (v.subject == ProfileSubject(broker) || exists b | b in businesses :: v.subject == BusinessSubject(b))
  {
  }

  ghost predicate SameReconstruction<P>(rows: seq<Version<P>>, broker: Id, now: set<Id>, past: set<Id>, t: Time) {
    forall i | 0 <= i < |rows| :: Reconstructs(rows[i], broker, now, t) <==> Reconstructs(rows[i], broker, past, t)
  }

  /** Whether anything of a kind was on file for the business. */
  predicate OnFile<P>(rows: seq<Version<P>>, business: Id) {
    exists i | 0 <= i < |rows| :: rows[i].subject == BusinessSubject(business) && rows[i].kind.Some?
  }

  /** What was on file for a business at `t` has a version the filter passes. */
  lemma FiledVersion<P>(w: Writes<P>, business: Id, t: Time) returns (last: nat)
    requires Clocked(w) && OnFile(Rows(UpTo(w, t)), business)
    ensures last < |Rows(w)| && Rows(w)[last].subject == BusinessSubject(business)
    ensures Rows(w)[last].kind.Some? && ValidAt(Rows(w)[last], t)
  {
    var asOf := Rows(UpTo(w, t));
    var i :| 0 <= i < |asOf| && asOf[i].subject == BusinessSubject(business) && asOf[i].kind.Some?;
    last := CurrentVersion(UpTo(w, t), i, BusinessSubject(business), asOf[i].kind.value);
    TableGrows(w, t);
    AsOfIsThePast(w, t, last);
  }

  /**
   * Two sets of businesses read the same rows as of `t` exactly when nothing was on file at `t`
   * for any business in only one of them.
   */
  lemma SameRowsIff<P>(w: Writes<P>, broker: Id, now: set<Id>, past: set<Id>, t: Time)
    requires Clocked(w)
    ensures SameReconstruction(Rows(w), broker, now, past, t)
       <==> forall b | b in (now - past) + (past - now) :: !OnFile(Rows(UpTo(w, t)), b)
  {
    var rows, asOf := Rows(w), Rows(UpTo(w, t));
    TableGrows(w, t);
    if SameReconstruction(rows, broker, now, past, t) {
      forall b | b in (now - past) + (past - now) ensures !OnFile(asOf, b) {
        if OnFile(asOf, b) {
          var last := FiledVersion(w, b, t);
          assert false;
        }
      }
    }
    if forall b | b in (now - past) + (past - now) :: !OnFile(asOf, b) {
      forall i | 0 <= i < |rows| ensures Reconstructs(rows[i], broker, now, t) <==> Reconstructs(rows[i], broker, past, t) {
        AsOfIsThePast(w, t, i);
        if rows[i].subject.BusinessSubject? && rows[i].kind.Some? && ValidAt(rows[i], t) {
          assert OnFile(asOf, rows[i].subject.id);
        }
      }
    }
  }

  // ---------------------------------------------------------------- the tables

  class TemporalTable<P> {
    var rows: seq<Version<P>>

    constructor ()
      ensures rows == []
    {
      rows := [];
    }

    /** Finds the current version, inserts the new one, then closes the old one, in one transaction. */
    method Record(subject: Subject, kind: string, payload: P, now: Time) returns (id: Id)
      modifies this
      ensures rows == Put(old(rows), subject, Some(kind), payload, now)
      ensures id == |old(rows)|
    {
      var current: Option<Id> := None;
      for i := 0 to |rows|
        invariant current == Current(rows[..i], subject, kind)
      {
        assert rows[..i + 1][..i] == rows[..i];
        if current.None? && Keyed(rows[i], subject, kind) && rows[i].validTo.None? {
          current := Some(i);
        }
      }
      assert rows[..|rows|] == rows;
      id := |rows|;
      rows := rows + [Version(subject, Some(kind), payload, now, None, None)];
      if current.Some? {
        rows := rows[current.value := rows[current.value].(validTo := Some(now), supersededBy := Some(id))];
      }
    }

    /** A provider payload: inserted, superseding nothing. */
    method Store(subject: Subject, payload: P, now: Time) returns (id: Id)
      modifies this
      ensures rows == Put(old(rows), subject, None, payload, now)
      ensures id == |old(rows)|
    {
      id := |rows|;
      rows := rows + [Version(subject, None, payload, now, None, None)];
    }

    /** The rows of a broker and their businesses as of `t`. */
    method SelectAsOf(broker: Id, businesses: set<Id>, t: Time) returns (ids: seq<Id>)
      ensures forall k, l | 0 <= k < l < |ids| :: ids[k] < ids[l]
      ensures forall i: nat :: i in ids
                <==> && i < |rows| && rows[i].kind.Some? && rows[i].validFrom <= t && (rows[i].validTo.Some? ==> t < rows[i].validTo.value)
                     && (rows[i].subject == ProfileSubject(broker) || exists b | b in businesses :: rows[i].subject == BusinessSubject(b))
    {
      ids := [];
      for i := 0 to |rows|
        invariant forall k, l | 0 <= k < l < |ids| :: ids[k] < ids[l]
        invariant forall k | 0 <= k < |ids| :: ids[k] < i
        invariant forall j: nat :: j in ids <==> j < i && Reconstructs(rows[j], broker, businesses, t)
      {
        if InScope(rows[i].subject, broker, businesses) && rows[i].kind.Some?
           && rows[i].validFrom <= t && (rows[i].validTo.None? || rows[i].validTo.value > t) {
          ids := ids + [i];
        }
      }
      forall i: nat | i < |rows| ensures i in ids <==> Reconstructs(rows[i], broker, businesses, t) {
        ReadsOwnAndBusinessRows(rows[i], broker, businesses, t);
      }
    }
  }
}
