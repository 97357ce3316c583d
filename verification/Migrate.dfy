/** The migration runner: sorted files, skip what is applied, one transaction a file. */
module Migrate {

  // ---------------------------------------------------------------- the order of files

  /** The order of the default sort: code unit by code unit. */
  predicate Less(a: string, b: string) {
    b != "" && (a == "" || a[0] < b[0] || (a[0] == b[0] && Less(a[1..], b[1..])))
  }

  lemma {:induction false} LessIsTotal(a: string, b: string)
    ensures a == b || Less(a, b) || Less(b, a)
    ensures !(Less(a, b) && Less(b, a)) && (a == b ==> !Less(a, b))
  {
    if a != "" && b != "" {
      LessIsTotal(a[1..], b[1..]);
      assert a == [a[0]] + a[1..] && b == [b[0]] + b[1..];
    }
  }

  lemma {:induction false} LessIsTransitive(a: string, b: string, c: string)
    requires Less(a, b) && Less(b, c)
    ensures Less(a, c)
  {
    if a != "" && b != "" && c != "" && a[0] == b[0] && b[0] == c[0] {
      LessIsTransitive(a[1..], b[1..], c[1..]);
    }
  }

  /** The two agree up to `k`, where the first has ended or has the smaller code unit. */
  predicate DifferAt(a: string, b: string, k: nat) {
    k <= |a| && k < |b| && a[..k] == b[..k] && (k == |a| || a[k] < b[k])
  }

  /** One name comes before another exactly when it does at the first place where they differ. */
  lemma {:induction false} LessIffFirstDifference(a: string, b: string)
    ensures Less(a, b) <==> exists k: nat | k < |b| :: DifferAt(a, b, k)
  {
    if b == "" {
    } else if a == "" {
      assert DifferAt(a, b, 0);
    } else if a[0] != b[0] {
      assert a[0] < b[0] ==> DifferAt(a, b, 0);
      forall k: nat | k < |b| && DifferAt(a, b, k) ensures k == 0 {
        if k > 0 {
          PrefixHeads(a, b, k);
        }
      }
    } else {
      LessIffFirstDifference(a[1..], b[1..]);
      forall k: nat | k < |b[1..]| ensures DifferAt(a[1..], b[1..], k) <==> DifferAt(a, b, k + 1) {
        ShiftedPrefix(a, b, k);
      }
      assert !DifferAt(a, b, 0);
      if k: nat :| k < |b| && DifferAt(a, b, k) {
        assert DifferAt(a[1..], b[1..], k - 1) <==> DifferAt(a, b, (k - 1) + 1);
      }
    }
  }

  lemma PrefixHeads(a: string, b: string, k: nat)
    requires 0 < k <= |a| && k <= |b| && a[..k] == b[..k]
    ensures a[0] == b[0]
  {
    assert a[..k][0] == b[..k][0];
  }

  lemma ShiftedPrefix(a: string, b: string, k: nat)
    requires a != "" && b != "" && a[0] == b[0]
    ensures DifferAt(a[1..], b[1..], k) <==> DifferAt(a, b, k + 1)
  {
    if k < |a| && k < |b| - 1 {
      assert a[..k + 1] == [a[0]] + a[1..][..k] && b[..k + 1] == [b[0]] + b[1..][..k];
      assert a[..k + 1][1..] == a[1..][..k] && b[..k + 1][1..] == b[1..][..k];
    }
  }

  predicate Sorted(names: seq<string>) {
    forall i, j | 0 <= i < j < |names| :: Less(names[i], names[j])
  }

  predicate IsSql(name: string) {
    |name| >= 4 && name[|name| - 4..] == ".sql"
  }

  /** The files of a run are those whose name is something followed by `.sql`. */
  lemma SqlFilesEndInSql(name: string)
    ensures IsSql(name) <==> exists stem :: name == stem + ['.', 's', 'q', 'l']
  {
    if IsSql(name) {
      assert name == name[..|name| - 4] + ['.', 's', 'q', 'l'];
    }
    if stem :| name == stem + ['.', 's', 'q', 'l'] {
      assert name[|stem|..] == ['.', 's', 'q', 'l'];
    }
  }

  function Insert(name: string, names: seq<string>): seq<string> {
    if names == [] || Less(name, names[0]) then [name] + names
    else [names[0]] + Insert(name, names[1..])
  }

  /** The files a run considers: the names ending in .sql, sorted. */
  function FilesOf(listing: seq<string>): seq<string> {
    if listing == [] then []
    else if IsSql(listing[0]) then Insert(listing[0], FilesOf(listing[1..]))
    else FilesOf(listing[1..])
  }

  predicate Distinct(names: seq<string>) {
    forall i, j | 0 <= i < j < |names| :: names[i] != names[j]
  }

  lemma {:induction false} InsertMembers(name: string, names: seq<string>, x: string)
    ensures x in Insert(name, names) <==> x == name || x in names
  {
    if names != [] && !Less(name, names[0]) {
      InsertMembers(name, names[1..], x);
    }
  }

  lemma {:induction false} InsertSorted(name: string, names: seq<string>)
    requires Sorted(names) && name !in names
    ensures Sorted(Insert(name, names))
  {
    if names == [] {
    } else if Less(name, names[0]) {
      forall j | 0 <= j < |names| ensures Less(name, names[j]) {
        if j > 0 {
          LessIsTransitive(name, names[0], names[j]);
        }
      }
    } else {
      var rest := Insert(name, names[1..]);
      InsertSorted(name, names[1..]);
      LessIsTotal(name, names[0]);
      forall j | 0 <= j < |rest| ensures Less(names[0], rest[j]) {
        InsertMembers(name, names[1..], rest[j]);
      }
    }
  }

  /** The files are the .sql names of the listing, in strictly increasing order, whatever order it came in. */
  lemma {:induction false} FilesAreSorted(listing: seq<string>, x: string)
    requires Distinct(listing)
    ensures Sorted(FilesOf(listing))
    ensures x in FilesOf(listing) <==> x in listing && IsSql(x)
  {
    if listing != [] {
      FilesAreSorted(listing[1..], x);
      FilesAreSorted(listing[1..], listing[0]);
      assert Distinct(listing[1..]) && listing[0] !in listing[1..];
      if IsSql(listing[0]) {
        InsertSorted(listing[0], FilesOf(listing[1..]));
        InsertMembers(listing[0], FilesOf(listing[1..]), x);
      }
    }
  }

  lemma SortedIsDistinct(names: seq<string>)
    requires Sorted(names)
    ensures Distinct(names)
  {
    forall i, j | 0 <= i < j < |names| ensures names[i] != names[j] {
      LessIsTotal(names[i], names[j]);
    }
  }

  // ---------------------------------------------------------------- one run

  /** The schema, and the recorded files in the order they were applied. */
  datatype Database<+S> = Database(schema: S, ran: seq<string>)

  datatype Outcome<+S> = UpToDate(db: Database<S>) | Failed(db: Database<S>, file: string)

  /** A successful file changes the schema and is recorded in the same transaction. */
  function Apply<S>(effect: (string, S) -> S, db: Database<S>, file: string): Database<S> {
    Database(effect(file, db.schema), db.ran + [file])
  }

  /** Considers the files in order; a broken one rolls back and stops the run. */
  function Migrate<S>(effect: (string, S) -> S, db: Database<S>, files: seq<string>, broken: set<string>): Outcome<S>
    decreases |files|
  {
    if files == [] then UpToDate(db)
    else if files[0] in db.ran then Migrate(effect, db, files[1..], broken)
    else if files[0] in broken then Failed(db, files[0])
    else Migrate(effect, Apply(effect, db, files[0]), files[1..], broken)
  }

  /** Every file of a list applied once, in order. */
  function ApplyAll<S>(effect: (string, S) -> S, schema: S, files: seq<string>): S {
    if files == [] then schema
    else effect(files[|files| - 1], ApplyAll(effect, schema, files[..|files| - 1]))
  }

  /** The files of a list not yet recorded. */
  function Pending(files: seq<string>, ran: seq<string>): seq<string> {
    if files == [] then []
    else (if files[0] in ran then [] else [files[0]]) + Pending(files[1..], ran)
  }

  lemma {:induction false} PendingMembers(files: seq<string>, ran: seq<string>, x: string)
    ensures x in Pending(files, ran) <==> x in files && x !in ran
  {
    if files != [] {
      PendingMembers(files[1..], ran, x);
    }
  }

  /** Recording a name that does not come again changes nothing about what is pending. */
  lemma {:induction false} PendingAfter(files: seq<string>, ran: seq<string>, name: string)
    requires name !in files
    ensures Pending(files, ran + [name]) == Pending(files, ran)
  {
    if files != [] {
      PendingAfter(files[1..], ran, name);
    }
  }

  /** The schema is what the recorded files, in their recorded order, make of the first one. */
  predicate Faithful<S(==)>(effect: (string, S) -> S, start: S, db: Database<S>) {
    db.schema == ApplyAll(effect, start, db.ran)
  }

  lemma ApplyKeepsFaithful<S>(effect: (string, S) -> S, start: S, db: Database<S>, file: string)
    requires Faithful(effect, start, db)
    ensures Faithful(effect, start, Apply(effect, db, file))
  {
    assert (db.ran + [file])[..|db.ran|] == db.ran;
  }

  /** The run applied `k` of the pending files: all of them, or those before the broken one it names. */
  predicate Applied<S>(db: Database<S>, pending: seq<string>, broken: set<string>, o: Outcome<S>, k: nat) {
    && k <= |pending|
    && o.db.ran == db.ran + pending[..k]
    && (o.UpToDate? ==> k == |pending|)
    && (o.Failed? ==> k < |pending| && pending[k] == o.file && o.file in broken)
  }

  /**
   * One run applies a prefix of the pending files, all of them when it succeeds; when it fails,
   * the next pending file is the broken one it names.
   */
  lemma {:induction false} RunAppliesPending<S>(effect: (string, S) -> S, start: S, db: Database<S>, files: seq<string>, broken: set<string>)
    returns (k: nat)
    requires Faithful(effect, start, db) && Distinct(files)
    ensures Faithful(effect, start, Migrate(effect, db, files, broken).db)
    ensures Applied(db, Pending(files, db.ran), broken, Migrate(effect, db, files, broken), k)
    decreases |files|
  {
    var pending := Pending(files, db.ran);
    if files == [] {
      k := 0;
      assert db.ran + pending[..0] == db.ran;
    } else if files[0] in db.ran {
      k := RunAppliesPending(effect, start, db, files[1..], broken);
      assert pending == Pending(files[1..], db.ran);
    } else if files[0] in broken {
      k := 0;
      assert db.ran + pending[..0] == db.ran;
    } else {
      var next := Apply(effect, db, files[0]);
      ApplyKeepsFaithful(effect, start, db, files[0]);
      var j := RunAppliesPending(effect, start, next, files[1..], broken);
      k := j + 1;
      PendingAfter(files[1..], db.ran, files[0]);
      assert pending == [files[0]] + Pending(files[1..], next.ran);
      assert next.ran + Pending(files[1..], next.ran)[..j] == db.ran + pending[..k];
    }
  }

  // ---------------------------------------------------------------- many runs

  /** Runs so far: each over some directory listing, with whatever files happen to be broken then. */
  datatype Runs = NoRuns | Run(prev: Runs, listing: seq<string>, broken: set<string>)

  function Exec<S>(effect: (string, S) -> S, start: S, r: Runs): Database<S> {
    match r
    case NoRuns => Database(start, [])
    case Run(prev, listing, broken) => Migrate(effect, Exec(effect, start, prev), FilesOf(listing), broken).db
  }

  predicate Succeeds<S>(effect: (string, S) -> S, start: S, r: Runs) {
    r.Run? && Migrate(effect, Exec(effect, start, r.prev), FilesOf(r.listing), r.broken).UpToDate?
  }

  predicate RealDirectories(r: Runs) {
    r.Run? ==> Distinct(r.listing) && RealDirectories(r.prev)
  }

  /** Every run saw the same files. */
  predicate SameFiles(r: Runs, files: seq<string>) {
    r.Run? ==> FilesOf(r.listing) == files && SameFiles(r.prev, files)
  }

  lemma {:induction false} PendingOfPrefix(files: seq<string>, k: nat)
    requires k <= |files| && Distinct(files)
    ensures Pending(files, files[..k]) == files[k..]
  {
    PendingSuffix(files, k, 0);
  }

  lemma {:induction false} PendingSuffix(files: seq<string>, k: nat, i: nat)
    requires i <= |files| && k <= |files| && Distinct(files)
    ensures Pending(files[i..], files[..k]) == if i <= k then files[k..] else files[i..]
    decreases |files| - i
  {
    if i < |files| {
      PendingSuffix(files, k, i + 1);
      assert files[i..][1..] == files[i + 1..];
      assert files[i] in files[..k] <==> i < k by {
        if i < k {
          assert files[..k][i] == files[i];
        }
      }
    }
  }

  /** One run over a database that holds the first `k` files leaves it holding the first `m` of them. */
  lemma RunExtendsPrefix<S>(effect: (string, S) -> S, start: S, db: Database<S>, files: seq<string>, k: nat, broken: set<string>)
    returns (m: nat)
    requires Distinct(files) && k <= |files| && db == Database(ApplyAll(effect, start, files[..k]), files[..k])
    ensures var o := Migrate(effect, db, files, broken);
            && k <= m <= |files|
            && o.db == Database(ApplyAll(effect, start, files[..m]), files[..m])
            && (o.UpToDate? ==> m == |files|)
            && (o.Failed? ==> m < |files| && files[m] == o.file && o.file in broken)
  {
    var j := RunAppliesPending(effect, start, db, files, broken);
    PendingOfPrefix(files, k);
    m := k + j;
    assert files[..k] + files[k..][..j] == files[..m];
  }

  /** With the files fixed, what has been applied is always a prefix of their order. */
  lemma {:induction false} AppliedIsPrefix<S>(effect: (string, S) -> S, start: S, r: Runs, files: seq<string>) returns (k: nat)
    requires Sorted(files) && SameFiles(r, files)
    ensures k <= |files| && Exec(effect, start, r) == Database(ApplyAll(effect, start, files[..k]), files[..k])
    ensures Succeeds(effect, start, r) ==> k == |files|
  {
    if r.NoRuns? {
      k := 0;
    } else {
      var before := AppliedIsPrefix(effect, start, r.prev, files);
      SortedIsDistinct(files);
      k := RunExtendsPrefix(effect, start, Exec(effect, start, r.prev), files, before, r.broken);
    }
  }

  /**
   * Any number of runs that fail anywhere, then one that succeeds: the schema is that of every
   * file applied once in sorted order, and any further run changes nothing, however broken the
   * files have become.
   */
  lemma ResumableRuns<S>(effect: (string, S) -> S, start: S, r: Runs, files: seq<string>, broken: set<string>)
    requires Sorted(files) && SameFiles(r, files) && Succeeds(effect, start, r)
    ensures Exec(effect, start, r) == Database(ApplyAll(effect, start, files), files)
    ensures Migrate(effect, Exec(effect, start, r), files, broken) == UpToDate(Exec(effect, start, r))
  {
    var k := AppliedIsPrefix(effect, start, r, files);
    assert files[..k] == files;
    SortedIsDistinct(files);
    var m := RunExtendsPrefix(effect, start, Exec(effect, start, r), files, |files|, broken);
  }

  /** Whatever the directory held at each run, no file is ever applied twice. */
  lemma {:induction false} NoFileRunsTwice<S>(effect: (string, S) -> S, start: S, r: Runs)
    requires RealDirectories(r)
    ensures Distinct(Exec(effect, start, r).ran) && Faithful(effect, start, Exec(effect, start, r))
  {
    if r.Run? {
      NoFileRunsTwice(effect, start, r.prev);
      var db, files := Exec(effect, start, r.prev), FilesOf(r.listing);
      FilesAreSorted(r.listing, "");
      SortedIsDistinct(files);
      var k := RunAppliesPending(effect, start, db, files, r.broken);
      var pending := Pending(files, db.ran);
      PendingDistinct(files, db.ran);
      var o := Migrate(effect, db, files, r.broken);
      forall i, j | 0 <= i < j < |o.db.ran| ensures o.db.ran[i] != o.db.ran[j] {
        if i < |db.ran| <= j {
          PendingMembers(files, db.ran, pending[j - |db.ran|]);
        }
      }
    }
  }

  lemma {:induction false} PendingDistinct(files: seq<string>, ran: seq<string>)
    requires Distinct(files)
    ensures Distinct(Pending(files, ran))
  {
    if files != [] {
      PendingDistinct(files[1..], ran);
      PendingMembers(files[1..], ran, files[0]);
    }
  }

  /** Appending one sorted list to another gives a sorted one exactly when it all comes after. */
  lemma SortedConcat(a: seq<string>, b: seq<string>)
    requires Sorted(a) && Sorted(b)
    ensures Sorted(a + b) <==> AllBefore(a, b)
  {
    if Sorted(a + b) {
      forall i, j | 0 <= i < |a| && 0 <= j < |b| ensures Less(a[i], b[j]) {
        assert Less((a + b)[i], (a + b)[|a| + j]);
      }
    }
    if AllBefore(a, b) {
      forall i, j | 0 <= i < j < |a + b| ensures Less((a + b)[i], (a + b)[j]) {
      }
    }
  }

  predicate AllBefore(a: seq<string>, b: seq<string>) {
    forall i, j | 0 <= i < |a| && 0 <= j < |b| :: Less(a[i], b[j])
  }

  /**
   * When files were added since, the next success has applied everything in sorted order exactly
   * when every file it added sorts after every file already applied.
   */
  lemma AddedFilesRunInOrderIff<S>(effect: (string, S) -> S, start: S, db: Database<S>, files: seq<string>, broken: set<string>)
    requires Faithful(effect, start, db) && Sorted(db.ran) && Sorted(files)
    requires forall x | x in db.ran :: x in files
    requires Migrate(effect, db, files, broken).UpToDate?
    ensures var after := Migrate(effect, db, files, broken).db;
            && (Sorted(after.ran) <==> AllBefore(db.ran, Pending(files, db.ran)))
            && (Sorted(after.ran) ==> after == Database(ApplyAll(effect, start, files), files))
  {
    SortedIsDistinct(files);
    var k := RunAppliesPending(effect, start, db, files, broken);
    var pending := Pending(files, db.ran);
    assert pending[..k] == pending;
    PendingSorted(files, db.ran);
    SortedConcat(db.ran, pending);
    if Sorted(db.ran + pending) {
      forall x ensures x in db.ran + pending <==> x in files {
        PendingMembers(files, db.ran, x);
      }
      SortedListsAgree(db.ran + pending, files);
    }
  }

  lemma {:induction false} PendingSorted(files: seq<string>, ran: seq<string>)
    requires Sorted(files)
    ensures Sorted(Pending(files, ran))
  {
    if files != [] {
      PendingSorted(files[1..], ran);
      var rest := Pending(files[1..], ran);
      forall j | 0 <= j < |rest| ensures Less(files[0], rest[j]) {
        PendingMembers(files[1..], ran, rest[j]);
        var m :| 0 <= m < |files[1..]| && files[1..][m] == rest[j];
        assert files[m + 1] == rest[j];
      }
    }
  }

  lemma Member(names: seq<string>) returns (x: string)
    requires names != []
    ensures x in names
  {
    x := names[0];
  }

  /** Two sorted lists with the same members are the same list. */
  lemma {:induction false} SortedListsAgree(a: seq<string>, b: seq<string>)
    requires Sorted(a) && Sorted(b) && forall x :: x in a <==> x in b
    ensures a == b
  {
    if a == [] {
      if b != [] {
        var x := Member(b);
        assert false;
      }
    } else {
      assert a[0] in b && |b| > 0 && b[0] in a;
      LessIsTotal(a[0], b[0]);
      var i :| 0 <= i < |b| && b[i] == a[0];
      var j :| 0 <= j < |a| && a[j] == b[0];
      assert a[0] == b[0];
      SortedIsDistinct(a);
      SortedIsDistinct(b);
      forall x ensures x in a[1..] <==> x in b[1..] {
        assert x in a[1..] <==> x in a && x != a[0];
        assert x in b[1..] <==> x in b && x != b[0];
      }
      SortedListsAgree(a[1..], b[1..]);
    }
  }

  // ---------------------------------------------------------------- the runner

  class Runner<S> {
    var schema: S
    var ran: seq<string>

    constructor (start: S)
      ensures schema == start && ran == []
    {
      schema, ran := start, [];
    }

    /** Applies what is pending file by file; a failure leaves everything before it committed. */
    method Up(effect: (string, S) -> S, listing: seq<string>, broken: set<string>) returns (failed: seq<string>)
      requires Distinct(listing)
      modifies this
      ensures var o := Migrate(effect, old(Database(schema, ran)), FilesOf(listing), broken);
              && Database(schema, ran) == o.db
              && failed == if o.Failed? then [o.file] else []
    {
      var applied := ran;
      var files := FilesOf(listing);
      FilesAreSorted(listing, "");
      SortedIsDistinct(files);
      for i := 0 to |files|
        invariant Migrate(effect, old(Database(schema, ran)), files, broken) == Migrate(effect, Database(schema, ran), files[i..], broken)
        invariant forall j | i <= j < |files| :: files[j] in applied <==> files[j] in ran
      {
        var file := files[i];
        assert files[i..][0] == file && files[i..][1..] == files[i + 1..];
        if file !in applied {
          if file in broken {
            return [file];
          }
          schema := effect(file, schema);
          ran := ran + [file];
        }
      }
      return [];
    }
  }
}
