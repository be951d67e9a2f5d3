/** The additive migration runner: all pending migrations in version order, in one transaction. */
module Migrations {
  import opened MigrationSql
  import opened Options

  /** A handler changes rows in the open transaction, or raises. */
  type Handler = Database -> Option<Database>

  datatype Migration = Migration(id: string, version: nat, statements: seq<Statement>, handler: Option<Handler>)

  // ---- One migration ----

  function ApplyStatements(db: Database, ss: seq<Statement>): Option<Database>
    decreases |ss|
  {
    if ss == [] then Some(db)
    else match ApplyStatement(db, ss[0])
      case None => None
      case Some(next) => ApplyStatements(next, ss[1..])
  }

  function ApplyMigration(db: Database, m: Migration): Option<Database> {
    match ApplyStatements(db, m.statements)
    case None => None
    case Some(next) =>
      match (if m.handler.Some? then m.handler.value(next) else Some(next))
      case None => None
      case Some(handled) => Some(handled.(version := m.version))
  }

  function ApplyAll(db: Database, ms: seq<Migration>): Option<Database>
    decreases |ms|
  {
    if ms == [] then Some(db)
    else match ApplyMigration(db, ms[0])
      case None => None
      case Some(next) => ApplyAll(next, ms[1..])
  }

  // ---- Which migrations are pending ----

  function Newer(ms: seq<Migration>, version: nat): seq<Migration> {
    if ms == [] then [] else (if ms[0].version > version then [ms[0]] else []) + Newer(ms[1..], version)
  }

  function Insert(m: Migration, ms: seq<Migration>): seq<Migration> {
    if ms == [] || m.version <= ms[0].version then [m] + ms else [ms[0]] + Insert(m, ms[1..])
  }

  function ByVersion(ms: seq<Migration>): seq<Migration> {
    if ms == [] then [] else Insert(ms[0], ByVersion(ms[1..]))
  }

  /** None is the failure after which the transaction is rolled back. */
  function Migrated(db: Database, ms: seq<Migration>, baseline: nat): Option<Database> {
    var pending := ByVersion(Newer(ms, db.version));
    if pending == [] then Some(if db.version == 0 then db.(version := baseline) else db)
    else ApplyAll(db, pending)
  }

  /** What the database holds afterwards. */
  function AfterRun(db: Database, ms: seq<Migration>, baseline: nat): Database {
    match Migrated(db, ms, baseline)
    case Some(after) => after
    case None => db
  }

  // ---- What a successful run has done ----

  /** One database after each statement, in order. */
  ghost predicate StatementChain(dbs: seq<Database>, before: Database, ss: seq<Statement>, after: Database) {
    && |dbs| == |ss| + 1 && dbs[0] == before && dbs[|ss|] == after
    && forall i :: 0 <= i < |ss| ==> ApplyStatement(dbs[i], ss[i]) == Some(dbs[i + 1])
  }

  /** What one migration does: its statements in order, then exactly what its handler makes of the result,
      then its version. */
  ghost predicate IsLink(before: Database, m: Migration, after: Database) {
    exists dbs: seq<Database>, mid: Database ::
      && StatementChain(dbs, before, m.statements, mid)
      && match m.handler
         case None => after == mid.(version := m.version)
         case Some(h) => h(mid).Some? && after == h(mid).value.(version := m.version)
  }

  /** One link for each migration, in order. */
  ghost predicate IsChain(dbs: seq<Database>, before: Database, ms: seq<Migration>, after: Database) {
    && |dbs| == |ms| + 1 && dbs[0] == before && dbs[|ms|] == after
    && forall i :: 0 <= i < |ms| ==> IsLink(dbs[i], ms[i], dbs[i + 1])
  }

  /** Exactly the migrations with a newer version, as often as they are given, in version order. */
  ghost predicate ArePending(pending: seq<Migration>, ms: seq<Migration>, version: nat) {
    && Ascending(pending)
    && forall m :: multiset(pending)[m] == if m.version > version then multiset(ms)[m] else 0
  }

  lemma {:induction false} StatementsAreChain(before: Database, ss: seq<Statement>, after: Database)
    ensures ApplyStatements(before, ss) == Some(after) <==> exists dbs :: StatementChain(dbs, before, ss, after)
    decreases |ss|
  {
    hide ApplyStatement;
    if ss == [] {
      if before == after { assert StatementChain([before], before, ss, after); }
    } else {
      var next := ApplyStatement(before, ss[0]);
      if next.Some? { StatementsAreChain(next.value, ss[1..], after); }
      if ApplyStatements(before, ss) == Some(after) {
        var rest :| StatementChain(rest, next.value, ss[1..], after);
        StatementChainFront(rest, before, next.value, ss, after);
      }
      if dbs :| StatementChain(dbs, before, ss, after) {
        StatementChainRest(dbs, before, ss, after);
      }
    }
  }

  lemma StatementChainFront(rest: seq<Database>, before: Database, next: Database, ss: seq<Statement>, after: Database)
    requires ss != [] && ApplyStatement(before, ss[0]) == Some(next) && StatementChain(rest, next, ss[1..], after)
    ensures StatementChain([before] + rest, before, ss, after)
  {
    hide ApplyStatement;
    var dbs := [before] + rest;
    forall i | 0 <= i < |ss| ensures ApplyStatement(dbs[i], ss[i]) == Some(dbs[i + 1]) {
      if i > 0 { assert ss[i] == ss[1..][i - 1] && dbs[i] == rest[i - 1] && dbs[i + 1] == rest[i]; }
    }
  }

  lemma StatementChainRest(dbs: seq<Database>, before: Database, ss: seq<Statement>, after: Database)
    requires ss != [] && StatementChain(dbs, before, ss, after)
    ensures ApplyStatement(before, ss[0]) == Some(dbs[1]) && StatementChain(dbs[1..], dbs[1], ss[1..], after)
  {
    hide ApplyStatement;
    var rest, tail := dbs[1..], ss[1..];
    forall i | 0 <= i < |tail| ensures ApplyStatement(rest[i], tail[i]) == Some(rest[i + 1]) {
      assert rest[i] == dbs[i + 1] && rest[i + 1] == dbs[i + 2] && tail[i] == ss[i + 1];
    }
  }

  lemma MigrationIsLink(before: Database, m: Migration, after: Database)
    ensures ApplyMigration(before, m) == Some(after) <==> IsLink(before, m, after)
  {
    hide ApplyStatements, StatementChain;
    if ApplyStatements(before, m.statements).Some? {
      var mid := ApplyStatements(before, m.statements).value;
      StatementsAreChain(before, m.statements, mid);
      var dbs :| StatementChain(dbs, before, m.statements, mid);
    }
    if IsLink(before, m, after) {
      var dbs: seq<Database>, mid: Database :|
        StatementChain(dbs, before, m.statements, mid) && match m.handler
         case None => after == mid.(version := m.version)
         case Some(h) => h(mid).Some? && after == h(mid).value.(version := m.version);
      StatementsAreChain(before, m.statements, mid);
    }
  }

  /** A run of migrations succeeds with a result exactly when there is a chain to it. */
  lemma {:induction false} ApplyingIsChain(before: Database, ms: seq<Migration>, after: Database)
    ensures ApplyAll(before, ms) == Some(after) <==> exists dbs :: IsChain(dbs, before, ms, after)
    decreases |ms|
  {
    hide ApplyMigration, IsLink;
    if ms == [] {
      if before == after { assert IsChain([before], before, ms, after); }
    } else {
      var next := ApplyMigration(before, ms[0]);
      if next.Some? {
        MigrationIsLink(before, ms[0], next.value);
        ApplyingIsChain(next.value, ms[1..], after);
      }
      if ApplyAll(before, ms) == Some(after) {
        var rest :| IsChain(rest, next.value, ms[1..], after);
        ChainFront(rest, before, next.value, ms, after);
      }
      if dbs :| IsChain(dbs, before, ms, after) {
        ChainRest(dbs, before, ms, after);
        MigrationIsLink(before, ms[0], dbs[1]);
      }
    }
  }

  lemma ChainFront(rest: seq<Database>, before: Database, next: Database, ms: seq<Migration>, after: Database)
    requires ms != [] && IsLink(before, ms[0], next) && IsChain(rest, next, ms[1..], after)
    ensures IsChain([before] + rest, before, ms, after)
  {
    hide IsLink;
    var dbs := [before] + rest;
    forall i | 0 <= i < |ms| ensures IsLink(dbs[i], ms[i], dbs[i + 1]) {
      if i > 0 { assert ms[i] == ms[1..][i - 1] && dbs[i] == rest[i - 1] && dbs[i + 1] == rest[i]; }
    }
  }

  lemma ChainRest(dbs: seq<Database>, before: Database, ms: seq<Migration>, after: Database)
    requires ms != [] && IsChain(dbs, before, ms, after)
    ensures IsLink(before, ms[0], dbs[1]) && IsChain(dbs[1..], dbs[1], ms[1..], after)
  {
    hide IsLink;
    var rest, tail := dbs[1..], ms[1..];
    forall i | 0 <= i < |tail| ensures IsLink(rest[i], tail[i], rest[i + 1]) {
      assert rest[i] == dbs[i + 1] && rest[i + 1] == dbs[i + 2] && tail[i] == ms[i + 1];
    }
  }

  lemma {:induction false} NewerCount(ms: seq<Migration>, version: nat, m: Migration)
    ensures multiset(Newer(ms, version))[m] == if m.version > version then multiset(ms)[m] else 0
  {
    if ms != [] {
      NewerCount(ms[1..], version, m);
      assert ms == [ms[0]] + ms[1..];
      assert multiset(Newer(ms, version)) == (if ms[0].version > version then multiset{ms[0]} else multiset{}) + multiset(Newer(ms[1..], version));
    }
  }

  lemma {:induction false} InsertCount(m: Migration, ms: seq<Migration>)
    ensures multiset(Insert(m, ms)) == multiset{m} + multiset(ms)
  {
    if ms != [] && m.version > ms[0].version {
      InsertCount(m, ms[1..]);
      assert ms == [ms[0]] + ms[1..];
    } else {
      assert Insert(m, ms) == [m] + ms;
    }
  }

  lemma {:induction false} ByVersionCount(ms: seq<Migration>)
    ensures multiset(ByVersion(ms)) == multiset(ms)
  {
    if ms != [] {
      ByVersionCount(ms[1..]);
      InsertCount(ms[0], ByVersion(ms[1..]));
      assert ms == [ms[0]] + ms[1..];
    }
  }

  lemma PendingIs(ms: seq<Migration>, version: nat)
    ensures ArePending(ByVersion(Newer(ms, version)), ms, version)
  {
    ByVersionAscends(Newer(ms, version));
    ByVersionCount(Newer(ms, version));
    forall m ensures multiset(Newer(ms, version))[m] == if m.version > version then multiset(ms)[m] else 0 { NewerCount(ms, version, m); }
  }

  /** A success: the answer names the pending migrations, and a chain of them leads to the new database; if
      there are none, only a database without a version gets the baseline. */
  ghost predicate Succeeded(before: Database, ms: seq<Migration>, baseline: nat, ids: seq<string>, after: Database) {
    exists pending: seq<Migration> ::
      && ArePending(pending, ms, before.version)
      && |ids| == |pending| && (forall i :: 0 <= i < |pending| ==> ids[i] == pending[i].id)
      && if pending == [] then after == (if before.version == 0 then before.(version := baseline) else before)
         else exists dbs :: IsChain(dbs, before, pending, after)
  }

  lemma SuccessIs(before: Database, ms: seq<Migration>, baseline: nat, ids: seq<string>, after: Database)
    requires Migrated(before, ms, baseline) == Some(after)
    requires var pending := ByVersion(Newer(ms, before.version));
             |ids| == |pending| && forall i :: 0 <= i < |pending| ==> ids[i] == pending[i].id
    ensures Succeeded(before, ms, baseline, ids, after)
  {
    hide ArePending, IsLink, IsChain, ApplyAll, ByVersion, Newer;
    var pending := ByVersion(Newer(ms, before.version));
    PendingIs(ms, before.version);
    if pending != [] { ApplyingIsChain(before, pending, after); }
  }

  class MigrationRunner {
    var db: Database

    constructor (db: Database)
      ensures this.db == db
    {
      this.db := db;
    }

    /** `run_migrations`: the identifiers applied, or None after an error. The open transaction changes
        the database statement by statement; an error puts back what was there when it began. */
    method RunMigrations(ms: seq<Migration>, baseline: nat) returns (applied: Option<seq<string>>)
      modifies this
      ensures applied.None? <==> Migrated(old(db), ms, baseline).None?
      ensures db == AfterRun(old(db), ms, baseline)
      ensures applied.Some? ==> Succeeded(old(db), ms, baseline, applied.value, db)
      ensures applied.None? ==> db == old(db)
    {
      hide ApplyMigration, Succeeded, ByVersion, Newer;
      var pending := ByVersion(Newer(ms, db.version));
      if pending == [] {
        if db.version == 0 { db := db.(version := baseline); }
        SuccessIs(old(db), ms, baseline, [], db);
        return Some([]);
      }
      var saved, ids := db, [];
      for i := 0 to |pending|
        invariant saved == old(db) && |ids| == i && forall k :: 0 <= k < i ==> ids[k] == pending[k].id
        invariant ApplyAll(saved, pending) == ApplyAll(db, pending[i..])
      {
        assert pending[i..][1..] == pending[i + 1..];
        var ok := RunOne(pending[i]);
        if !ok {
          db := saved;
          return None;
        }
        ids := ids + [pending[i].id];
      }
      SuccessIs(saved, ms, baseline, ids, db);
      return Some(ids);
    }

    /** One pending migration inside the transaction; after an error its first statements remain. */
    method RunOne(m: Migration) returns (ok: bool)
      modifies this
      ensures ok <==> ApplyMigration(old(db), m).Some?
      ensures ok ==> ApplyMigration(old(db), m) == Some(db)
      ensures ok ==> IsLink(old(db), m, db)
    {
      hide ApplyStatement, IsLink;
      for j := 0 to |m.statements|
        invariant ApplyStatements(old(db), m.statements) == ApplyStatements(db, m.statements[j..])
      {
        assert m.statements[j..][1..] == m.statements[j + 1..];
        var next := ApplyStatement(db, m.statements[j]);
        if next.None? { return false; }
        db := next.value;
      }
      if m.handler.Some? {
        var handled := m.handler.value(db);
        if handled.None? { return false; }
        db := handled.value;
      }
      db := db.(version := m.version);
      MigrationIsLink(old(db), m, db);
      return true;
    }
  }

  // ---- Reruns and batches ----

  lemma {:induction false} NewerIsNewer(ms: seq<Migration>, version: nat)
    ensures forall m :: m in Newer(ms, version) <==> m in ms && m.version > version
  {
    if ms != [] {
      NewerIsNewer(ms[1..], version);
      assert ms == [ms[0]] + ms[1..];
    }
  }

  lemma {:induction false} InsertKeeps(m: Migration, ms: seq<Migration>)
    ensures forall x :: x in Insert(m, ms) <==> x == m || x in ms
  {
    if ms != [] && m.version > ms[0].version {
      InsertKeeps(m, ms[1..]);
      assert ms == [ms[0]] + ms[1..];
    }
  }

  lemma {:induction false} ByVersionKeeps(ms: seq<Migration>)
    ensures forall x :: x in ByVersion(ms) <==> x in ms
  {
    if ms != [] {
      ByVersionKeeps(ms[1..]);
      InsertKeeps(ms[0], ByVersion(ms[1..]));
      assert ms == [ms[0]] + ms[1..];
    }
  }

  predicate Ascending(ms: seq<Migration>) {
    forall i, j :: 0 <= i < j < |ms| ==> ms[i].version <= ms[j].version
  }

  lemma {:induction false} InsertAscends(m: Migration, ms: seq<Migration>)
    requires Ascending(ms)
    ensures Ascending(Insert(m, ms))
  {
    if ms != [] && m.version > ms[0].version {
      InsertAscends(m, ms[1..]);
      InsertKeeps(m, ms[1..]);
      var r := Insert(m, ms[1..]);
      forall j | 0 <= j < |r| ensures ms[0].version <= r[j].version {
        assert r[j] in r;
        if r[j] in ms[1..] { var k :| 0 <= k < |ms[1..]| && ms[1..][k] == r[j]; assert ms[k + 1] == r[j]; }
      }
    }
  }

  lemma {:induction false} ByVersionAscends(ms: seq<Migration>)
    ensures Ascending(ByVersion(ms))
  {
    if ms != [] {
      ByVersionAscends(ms[1..]);
      InsertAscends(ms[0], ByVersion(ms[1..]));
    }
  }

  lemma {:induction false} ApplyInTwo(db: Database, a: seq<Migration>, b: seq<Migration>)
    ensures ApplyAll(db, a + b) == match ApplyAll(db, a) case None => None case Some(mid) => ApplyAll(mid, b)
    decreases |a|
  {
    if a == [] {
      assert a + b == b;
    } else {
      assert (a + b)[1..] == a[1..] + b;
      match ApplyMigration(db, a[0])
      case None =>
      case Some(next) => ApplyInTwo(next, a[1..], b);
    }
  }

  lemma {:induction false} LastVersionStays(db: Database, ms: seq<Migration>)
    requires ms != [] && ApplyAll(db, ms).Some?
    ensures ApplyAll(db, ms).value.version == ms[|ms| - 1].version
    decreases |ms|
  {
    hide ApplyMigration;
    SetsVersion(db, ms[0]);
    if |ms| == 1 {
      assert ms[1..] == [];
    } else {
      LastVersionStays(ApplyMigration(db, ms[0]).value, ms[1..]);
    }
  }

  lemma SetsVersion(db: Database, m: Migration)
    ensures ApplyMigration(db, m).Some? ==> ApplyMigration(db, m).value.version == m.version
  {
  }

  /** After a successful run nothing is pending, so running again changes nothing. */
  lemma RerunIsNoOp(db: Database, ms: seq<Migration>, baseline: nat)
    requires baseline > 0 && Migrated(db, ms, baseline).Some?
    requires forall m :: m in ms ==> m.version > baseline
    ensures var after := Migrated(db, ms, baseline).value;
            Newer(ms, after.version) == [] && Migrated(after, ms, baseline) == Some(after)
  {
    NothingToSort();
    hide ApplyAll, Newer, ByVersion;
    var after := Migrated(db, ms, baseline).value;
    var pending := ByVersion(Newer(ms, db.version));
    NewerIsNewer(ms, db.version);
    ByVersionKeeps(Newer(ms, db.version));
    if pending != [] {
      LastVersionStays(db, pending);
      ByVersionAscends(Newer(ms, db.version));
      forall m | m in ms ensures m.version <= after.version {
        if m.version > db.version {
          assert m in pending;
          var k :| 0 <= k < |pending| && pending[k] == m;
        }
      }
    }
    forall m | m in ms ensures m.version <= after.version {
      if m.version > db.version { assert m in pending; }
    }
    NothingNewer(ms, after.version);
  }

  lemma {:induction false} NothingNewer(ms: seq<Migration>, version: nat)
    requires forall m :: m in ms ==> m.version <= version
    ensures Newer(ms, version) == []
  {
    if ms != [] { NothingNewer(ms[1..], version); }
  }

  lemma {:induction false} AllNewer(ms: seq<Migration>, version: nat)
    requires forall m :: m in ms ==> m.version > version
    ensures Newer(ms, version) == ms
  {
    if ms != [] { AllNewer(ms[1..], version); }
  }

  lemma {:induction false} NewerConcat(a: seq<Migration>, b: seq<Migration>, version: nat)
    ensures Newer(a + b, version) == Newer(a, version) + Newer(b, version)
  {
    if a == [] {
      assert a + b == b;
    } else {
      assert (a + b)[1..] == a[1..] + b;
      NewerConcat(a[1..], b, version);
    }
  }

  lemma {:induction false} InsertBefore(m: Migration, a: seq<Migration>, b: seq<Migration>)
    requires forall x :: x in b ==> m.version < x.version
    ensures Insert(m, a + b) == Insert(m, a) + b
  {
    if a == [] {
      assert a + b == b;
      if b != [] { assert b[0] in b; }
    } else {
      assert (a + b)[1..] == a[1..] + b;
      if m.version > a[0].version { InsertBefore(m, a[1..], b); }
    }
  }

  ghost predicate AllBelow(a: seq<Migration>, b: seq<Migration>) {
    forall x, y :: x in a && y in b ==> x.version < y.version
  }

  lemma {:induction false} SortInTwo(a: seq<Migration>, b: seq<Migration>)
    requires AllBelow(a, b)
    ensures ByVersion(a + b) == ByVersion(a) + ByVersion(b)
  {
    if a == [] {
      assert a + b == b;
    } else {
      assert (a + b)[1..] == a[1..] + b;
      SortInTwo(a[1..], b);
      ByVersionKeeps(b);
      InsertBefore(a[0], ByVersion(a[1..]), ByVersion(b));
    }
  }

  /** Migrating in two batches split by version is migrating in one, and one fails when either would. */
  lemma TwoBatchesAreOne(db: Database, low: seq<Migration>, high: seq<Migration>, baseline: nat)
    requires baseline > 0 && AllBelow(low, high) && (db.version > 0 || low != [])
    requires forall m :: m in low + high ==> m.version > baseline
    ensures Migrated(db, low + high, baseline) ==
              match Migrated(db, low, baseline) case None => None case Some(mid) => Migrated(mid, high, baseline)
  {
    hide ApplyAll, ByVersion, Newer;
    var v := db.version;
    var l, h := Newer(low, v), Newer(high, v);
    NewerIsNewer(low, v);
    NewerIsNewer(high, v);
    NewerConcat(low, high, v);
    assert forall m :: m in low || m in high ==> m in low + high;
    SortInTwo(l, h);
    ByVersionKeeps(l);
    ByVersionKeeps(h);
    ApplyInTwo(db, ByVersion(l), ByVersion(h));
    if ByVersion(l) == [] {
      assert low != [] ==> low[0] in low && low[0] !in l;
      assert db.version > 0;
      assert ByVersion(l) + ByVersion(h) == ByVersion(h);
    } else if ApplyAll(db, ByVersion(l)).Some? {
      var mid := ApplyAll(db, ByVersion(l)).value;
      LastVersionStays(db, ByVersion(l));
      var last := ByVersion(l)[|ByVersion(l)| - 1];
      assert last in l;
      AllNewer(high, v);
      AllNewer(high, mid.version);
      if ByVersion(h) == [] { AppliedNothing(mid); }
    }
  }

  lemma NothingToSort()
    ensures ByVersion([]) == []
  {
  }

  /** A failing second batch leaves the first one applied, where one batch would leave nothing: the final
      databases agree exactly when the first batch fails, has nothing to do, or the second succeeds. */
  lemma BatchesLeaveTheSameIff(db: Database, low: seq<Migration>, high: seq<Migration>, baseline: nat)
    requires baseline > 0 && AllBelow(low, high) && (db.version > 0 || low != [])
    requires forall m :: m in low + high ==> m.version > baseline
    ensures var inTwo := if Migrated(db, low, baseline).None? then db else AfterRun(AfterRun(db, low, baseline), high, baseline);
            inTwo == AfterRun(db, low + high, baseline) <==>
              || Migrated(db, low, baseline).None?
              || Newer(low, db.version) == []
              || Migrated(AfterRun(db, low, baseline), high, baseline).Some?
  {
    hide ApplyAll, ByVersion, Newer;
    TwoBatchesAreOne(db, low, high, baseline);
    var l := Newer(low, db.version);
    NewerIsNewer(low, db.version);
    ByVersionKeeps(l);
    if Migrated(db, low, baseline).Some? {
      if l != [] {
        assert l[0] in ByVersion(l);
        LastVersionStays(db, ByVersion(l));
        assert ByVersion(l)[|ByVersion(l)| - 1] in l;
        assert AfterRun(db, low, baseline).version > db.version;
      } else {
        NothingToSort();
        assert low != [] ==> low[0] in low && low[0] in low + high && low[0] !in l;
        assert db.version > 0;
      }
    }
  }

  lemma AppliedNothing(db: Database)
    ensures ApplyAll(db, []) == Some(db)
  {
  }

  // ---- The schema only grows ----

  ghost predicate KeepsSchema(h: Handler) {
    forall db :: h(db).Some? ==> Extends(h(db).value, db)
  }

  /** No statement drops or renames a table or column in the way SQLite reads it, and the handler keeps
      the schema. */
  ghost predicate Additive(m: Migration) {
    && (forall i :: 0 <= i < |m.statements| ==> !Removes(Parse(m.statements[i])))
    && (m.handler.Some? ==> KeepsSchema(m.handler.value))
  }

  lemma {:induction false} StatementsExtend(db: Database, ss: seq<Statement>)
    requires ApplyStatements(db, ss).Some? && forall i :: 0 <= i < |ss| ==> !Removes(Parse(ss[i]))
    ensures Extends(ApplyStatements(db, ss).value, db)
    decreases |ss|
  {
    hide ApplyStatement, Parse, Removes;
    if ss != [] {
      AcceptedStatementLosesIff(db, ss[0]);
      var next := ApplyStatement(db, ss[0]).value;
      assert forall i :: 0 <= i < |ss[1..]| ==> ss[1..][i] == ss[i + 1];
      StatementsExtend(next, ss[1..]);
    }
  }

  lemma {:induction false} AppliedExtends(db: Database, ms: seq<Migration>)
    requires ApplyAll(db, ms).Some? && forall m :: m in ms ==> Additive(m)
    ensures Extends(ApplyAll(db, ms).value, db)
    decreases |ms|
  {
    hide Additive, ApplyMigration;
    if ms != [] {
      assert ms[0] in ms;
      OneExtends(db, ms[0]);
      AppliedExtends(ApplyMigration(db, ms[0]).value, ms[1..]);
    }
  }

  lemma OneExtends(db: Database, m: Migration)
    requires ApplyMigration(db, m).Some? && Additive(m)
    ensures Extends(ApplyMigration(db, m).value, db)
  {
    hide ApplyStatements, Removes, Parse;
    StatementsExtend(db, m.statements);
  }

  /** Additive migrations never lose a table or column, whichever of them are pending and wherever the
      run stops. */
  lemma SchemaOnlyGrows(db: Database, ms: seq<Migration>, baseline: nat)
    requires forall m :: m in ms ==> Additive(m)
    ensures Extends(AfterRun(db, ms, baseline), db)
  {
    hide Additive, ApplyAll;
    var pending := ByVersion(Newer(ms, db.version));
    NewerIsNewer(ms, db.version);
    ByVersionKeeps(Newer(ms, db.version));
    if Migrated(db, ms, baseline).Some? && pending != [] { AppliedExtends(db, pending); }
  }

  /** The runner's own check does not make a migration additive: one statement without comments that
      passes it and whose run succeeds shrinks the schema exactly when it drops or renames a column
      without the word COLUMN. */
  lemma CheckedMigrationShrinksIff(db: Database, m: Migration, s: Statement, baseline: nat)
    requires m.version > db.version && m.statements == [s] && m.handler.None?
    requires Migrated(db, [m], baseline).Some? && !HasComment(s)
    ensures Extends(AfterRun(db, [m], baseline), db) <==> !(DropsWithoutColumn(Body(s)) || RenamesWithoutColumn(Body(s)))
  {
    hide ApplyStatement, DropsWithoutColumn, RenamesWithoutColumn, HasComment;
    assert [m][1..] == [] && Newer([], db.version) == [] && ByVersion([]) == [];
    assert ByVersion(Newer([m], db.version)) == [m];
    assert m.statements[0] == s && m.statements[1..] == [];
    assert ApplyStatements(db, m.statements) == ApplyStatement(db, s);
    assert ApplyAll(db, [m]) == ApplyMigration(db, m) by { ApplyOneMigration(db, m); }
    AcceptedLosesOnlyWithoutColumn(db, s);
  }

  lemma ApplyOneMigration(db: Database, m: Migration)
    ensures ApplyAll(db, [m]) == ApplyMigration(db, m)
  {
    hide ApplyMigration;
    assert [m][1..] == [];
  }

  // ---- The backfill handler ----

  function Backfilled(r: Row): Row {
    if "workspace_id" !in r && "workspace" in r then r["workspace_id" := r["workspace"]] else r
  }

  /** `_backfill_runs_workspace_id`: raises when the table or a column is missing. */
  function Backfill(db: Database): Option<Database> {
    if "runs" !in db.columns || "runs" !in db.rows || !({"workspace_id", "workspace"} <= db.columns["runs"]) then None
    else
      var rs := db.rows["runs"];
      Some(db.(rows := db.rows["runs" := seq(|rs|, i requires 0 <= i < |rs| => Backfilled(rs[i]))]))
  }

  /** It fills only missing values from the legacy column, keeps the schema, and does nothing twice. */
  lemma BackfillFillsOnce(db: Database)
    requires Backfill(db).Some?
    ensures var after := Backfill(db).value;
            && after.columns == db.columns && after.version == db.version && after.rows.Keys == db.rows.Keys
            && (forall t :: t in db.rows && t != "runs" ==> after.rows[t] == db.rows[t])
            && |after.rows["runs"]| == |db.rows["runs"]|
            && (forall i :: 0 <= i < |db.rows["runs"]| ==>
                  var r, r' := db.rows["runs"][i], after.rows["runs"][i];
                  && ("workspace" in r ==> "workspace_id" in r')
                  && (forall c :: c in r ==> c in r' && r'[c] == r[c])
                  && (forall c :: c in r' && c !in r ==> c == "workspace_id" && "workspace" in r && r'[c] == r["workspace"]))
            && Backfill(after) == Some(after)
  {
    var after := Backfill(db).value;
    assert Backfill(after).value.rows["runs"] == after.rows["runs"];
    assert after.rows["runs" := after.rows["runs"]] == after.rows;
    assert Backfill(after).value.rows == after.rows;
  }

  /** Every run with a workspace has its identifier. */
  ghost predicate RunsHaveIds(db: Database) {
    "runs" in db.rows && forall r :: r in db.rows["runs"] && "workspace" in r ==> "workspace_id" in r
  }

  /** After a successful chain of migrations whose last one has the backfill handler, they all have. */
  lemma BackfilledAfterRun(dbs: seq<Database>, before: Database, pending: seq<Migration>, after: Database)
    requires pending != [] && pending[|pending| - 1].handler == Some(Backfill)
    requires IsChain(dbs, before, pending, after)
    ensures RunsHaveIds(after) && after.version == pending[|pending| - 1].version
  {
    hide StatementChain, Backfilled;
    var n := |pending| - 1;
    assert IsLink(dbs[n], pending[n], dbs[n + 1]);
    var steps: seq<Database>, mid: Database :|
      StatementChain(steps, dbs[n], pending[n].statements, mid) && Backfill(mid).Some?
      && after == Backfill(mid).value.(version := pending[n].version);
    BackfillFillsOnce(mid);
    forall r | r in after.rows["runs"] && "workspace" in r ensures "workspace_id" in r {
      var i :| 0 <= i < |after.rows["runs"]| && after.rows["runs"][i] == r;
      var row := mid.rows["runs"][i];
      assert "workspace" in row;
    }
  }
}
