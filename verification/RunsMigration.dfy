/** The migration that the runs database ships with, run on every database it can meet. */
module RunsMigration {
  import opened MigrationSql
  import opened Migrations
  import opened Options
  import opened PythonText

  function AddText(column: string): Statement {
    [Word("ALTER"), Word("TABLE"), Word("runs"), Word("ADD"), Word("COLUMN"), Word(column), Word("TEXT")]
  }

  function Required(column: string, kind: string): Statement {
    [Word(column), Word(kind), Word("NOT"), Word("NULL")]
  }

  function Optional(column: string): Statement {
    [Word(column), Word("TEXT")]
  }

  const PRIMARY_KEY: Statement :=
    [Word("PRIMARY"), Word("KEY"), Symbol('('), Word("run_id"), Symbol(','), Word("seq"), Symbol(')')]

  function ApprovalColumns(): seq<Statement> {
    [Required("run_id", "TEXT"), Required("seq", "INTEGER"), Required("decision", "TEXT"), Required("actor_id", "TEXT"),
     Required("actor_kind", "TEXT"), Optional("on_behalf_of"), Optional("reason"), Required("decided_at", "TEXT"), PRIMARY_KEY]
  }

  const CREATE: Statement :=
    [Word("CREATE"), Word("TABLE"), Word("IF"), Word("NOT"), Word("EXISTS"), Word("run_approvals"), Symbol('(')]

  function CreateApprovals(): Statement {
    CREATE + (Definitions(ApprovalColumns()) + [Symbol(')')])
  }

  const CREATE_INDEX: Statement :=
    [Word("CREATE"), Word("INDEX"), Word("IF"), Word("NOT"), Word("EXISTS"), Word("run_approvals_run_id_idx"), Word("ON"),
     Word("run_approvals"), Symbol('('), Word("run_id"), Symbol(','), Word("seq"), Word("ASC"), Symbol(')')]

  const NEW_COLUMNS: seq<string> := ["workspace_id", "created_by", "created_by_kind"]

  const APPROVALS: set<string> :=
    {"run_id", "seq", "decision", "actor_id", "actor_kind", "on_behalf_of", "reason", "decided_at"}

  function Runs0002(): Migration {
    Migration("0002_add_runs_principal_and_approvals", 2,
              [AddText("workspace_id"), AddText("created_by"), AddText("created_by_kind"), CreateApprovals(), CREATE_INDEX],
              Some(Backfill))
  }

  // ---- The statements pass the check ----

  /** No comment, no semicolon, and none of the words with which a forbidden pattern begins. */
  predicate Harmless(t: Token) {
    (t.Symbol? && t.c != ';') || (t.Word? && Lower(t.text) !in ["drop", "rename", "delete", "truncate"])
  }

  predicate AllHarmless(s: Statement) {
    forall i :: 0 <= i < |s| ==> Harmless(s[i])
  }

  lemma HarmlessIsSafe(s: Statement)
    requires AllHarmless(s)
    ensures IsSafe(s)
  {
    hide Lower;
    assert forall i :: 0 <= i < |s| ==> Harmless(s[i]);
  }

  lemma HarmlessJoin(a: Statement, b: Statement)
    requires AllHarmless(a) && AllHarmless(b)
    ensures AllHarmless(a + b)
  {
    hide Harmless;
  }

  lemma OtherWord(text: string)
    requires |text| < 3 || [LowerChar(text[0]), LowerChar(text[1]), LowerChar(text[2])] !in ["dro", "ren", "del", "tru"]
    ensures Harmless(Word(text))
  {
    var low := Lower(text);
    if |text| >= 3 {
      assert low[..3] == [LowerChar(text[0]), LowerChar(text[1]), LowerChar(text[2])];
      assert "drop"[..3] == "dro" && "rename"[..3] == "ren" && "delete"[..3] == "del" && "truncate"[..3] == "tru";
    }
  }

  lemma AlterWordsAreHarmless()
    ensures Harmless(Word("ALTER")) && Harmless(Word("TABLE")) && Harmless(Word("ADD")) && Harmless(Word("COLUMN"))
  {
    hide Harmless;
    OtherWord("ALTER");
    OtherWord("TABLE");
    OtherWord("ADD");
    OtherWord("COLUMN");
  }

  lemma CreateWordsAreHarmless()
    ensures Harmless(Word("CREATE")) && Harmless(Word("INDEX")) && Harmless(Word("IF")) && Harmless(Word("EXISTS"))
  {
    hide Harmless;
    OtherWord("CREATE");
    OtherWord("INDEX");
    OtherWord("IF");
    OtherWord("EXISTS");
  }

  lemma KeyWordsAreHarmless()
    ensures Harmless(Word("PRIMARY")) && Harmless(Word("KEY")) && Harmless(Word("ON")) && Harmless(Word("ASC"))
  {
    hide Harmless;
    OtherWord("PRIMARY");
    OtherWord("KEY");
    OtherWord("ON");
    OtherWord("ASC");
  }

  lemma TableNamesAreHarmless()
    ensures Harmless(Word("runs")) && Harmless(Word("run_approvals")) && Harmless(Word("run_approvals_run_id_idx"))
  {
    hide Harmless;
    OtherWord("runs");
    OtherWord("run_approvals");
    OtherWord("run_approvals_run_id_idx");
  }

  lemma NewColumnsAreHarmless()
    ensures Harmless(Word("workspace_id")) && Harmless(Word("created_by")) && Harmless(Word("created_by_kind"))
  {
    hide Harmless;
    OtherWord("workspace_id");
    OtherWord("created_by");
    OtherWord("created_by_kind");
  }

  lemma ApprovalNamesAreHarmless()
    ensures Harmless(Word("run_id")) && Harmless(Word("seq")) && Harmless(Word("decision")) && Harmless(Word("actor_id"))
    ensures Harmless(Word("actor_kind")) && Harmless(Word("on_behalf_of")) && Harmless(Word("reason")) && Harmless(Word("decided_at"))
  {
    hide Harmless;
    OtherWord("run_id");
    OtherWord("seq");
    OtherWord("decision");
    OtherWord("actor_id");
    OtherWord("actor_kind");
    OtherWord("on_behalf_of");
    OtherWord("reason");
    OtherWord("decided_at");
  }

  lemma AddIsSafe(column: string)
    requires column in NEW_COLUMNS
    ensures IsSafe(AddText(column))
  {
    hide Harmless, IsSafe;
    AlterWordsAreHarmless();
    TableNamesAreHarmless();
    NewColumnsAreHarmless();
    TypesAreHarmless();
    HarmlessIsSafe(AddText(column));
  }

  lemma ColumnsAreHarmless()
    ensures forall i :: 0 <= i < |ApprovalColumns()| ==> AllHarmless(ApprovalColumns()[i])
  {
    hide Harmless;
    TypesAreHarmless();
    ApprovalNamesAreHarmless();
    KeyWordsAreHarmless();
    SignsAreHarmless();
  }

  lemma TypesAreHarmless()
    ensures Harmless(Word("TEXT")) && Harmless(Word("INTEGER")) && Harmless(Word("NOT")) && Harmless(Word("NULL"))
  {
    hide Harmless;
    OtherWord("TEXT");
    OtherWord("INTEGER");
    OtherWord("NOT");
    OtherWord("NULL");
  }

  lemma SignsAreHarmless()
    ensures Harmless(Symbol('(')) && Harmless(Symbol(')')) && Harmless(Symbol(','))
  {
  }

  lemma {:induction false} DefinitionsAreHarmless(ds: seq<Statement>)
    requires forall i :: 0 <= i < |ds| ==> AllHarmless(ds[i])
    ensures AllHarmless(Definitions(ds))
    decreases |ds|
  {
    hide Harmless;
    SignsAreHarmless();
    if |ds| > 1 {
      DefinitionsAreHarmless(ds[1..]);
      HarmlessJoin([Symbol(',')], Definitions(ds[1..]));
      HarmlessJoin(ds[0], [Symbol(',')] + Definitions(ds[1..]));
    }
  }

  lemma CreateIsHarmless()
    ensures AllHarmless(CreateApprovals()) && IsSafe(CreateApprovals())
  {
    hide Harmless, IsSafe, ApprovalColumns, Definitions;
    CreateWordsAreHarmless();
    AlterWordsAreHarmless();
    TypesAreHarmless();
    TableNamesAreHarmless();
    SignsAreHarmless();
    ColumnsAreHarmless();
    DefinitionsAreHarmless(ApprovalColumns());
    HarmlessJoin(Definitions(ApprovalColumns()), [Symbol(')')]);
    HarmlessJoin(CREATE, Definitions(ApprovalColumns()) + [Symbol(')')]);
    HarmlessIsSafe(CreateApprovals());
  }

  lemma IndexIsHarmless()
    ensures AllHarmless(CREATE_INDEX) && IsSafe(CREATE_INDEX)
  {
    hide Harmless, IsSafe;
    CreateWordsAreHarmless();
    KeyWordsAreHarmless();
    TypesAreHarmless();
    TableNamesAreHarmless();
    ApprovalNamesAreHarmless();
    SignsAreHarmless();
    HarmlessIsSafe(CREATE_INDEX);
  }

  // ---- What SQLite reads ----

  /** The keywords of the statements, in lower case. */
  lemma Keywords()
    ensures Is(Word("ALTER"), "alter") && Is(Word("TABLE"), "table") && Is(Word("ADD"), "add") && Is(Word("COLUMN"), "column")
    ensures Is(Word("CREATE"), "create") && Is(Word("INDEX"), "index") && Is(Word("ON"), "on")
    ensures Is(Word("IF"), "if") && Is(Word("NOT"), "not") && Is(Word("EXISTS"), "exists")
  {
    assert Lower("ALTER") == "alter" && Lower("TABLE") == "table" && Lower("ADD") == "add" && Lower("COLUMN") == "column";
    assert Lower("CREATE") == "create" && Lower("INDEX") == "index" && Lower("ON") == "on";
    assert Lower("IF") == "if" && Lower("NOT") == "not" && Lower("EXISTS") == "exists";
  }

  /** A lower-case word that is no keyword reads as a name. */
  lemma PlainName(text: string)
    requires (forall i :: 0 <= i < |text| ==> !('A' <= text[i] <= 'Z')) && !Reserved(text)
    ensures IsName(Word(text)) && NameOf(Word(text)) == text
  {
    assert Lower(text) == text;
  }

  /** The keywords that begin like the migration's own names. */
  lemma KeywordsByLetter(w: string)
    requires Reserved(w)
    ensures |w| <= 11 && w != "" && (w[0] == 'r' ==> w == "references") && (w[0] == 's' ==> w == "select" || w == "set")
  {
  }

  lemma KeywordsWithACD(w: string)
    requires Reserved(w) && (|w| == 8 || |w| == 10)
    ensures w == "distinct" || w == "constraint" || w == "deferrable" || w == "references"
  {
  }

  lemma NamesAreFree(text: string)
    requires text in ["runs", "run_id", "seq", "reason", "decision", "actor_id", "created_by", "actor_kind", "decided_at"] || |text| > 11
    ensures !Reserved(text)
  {
    if Reserved(text) {
      KeywordsByLetter(text);
      if |text| == 8 || |text| == 10 { KeywordsWithACD(text); }
    }
  }

  lemma SmallLetters(text: string)
    requires text in ["runs", "run_approvals", "run_approvals_run_id_idx"] || text in NEW_COLUMNS || text in APPROVALS
    ensures forall i :: 0 <= i < |text| ==> !('A' <= text[i] <= 'Z')
  {
  }

  lemma OwnName(text: string)
    requires text in ["runs", "run_approvals", "run_approvals_run_id_idx"] || text in NEW_COLUMNS || text in APPROVALS
    ensures IsName(Word(text)) && NameOf(Word(text)) == text
  {
    hide IsName, NameOf, Reserved;
    SmallLetters(text);
    NamesAreFree(text);
    PlainName(text);
  }

  lemma AddTokens(column: string)
    ensures var s := AddText(column);
            && s != [] && !HasComment(s) && s[|s| - 1] != Symbol(';') && OneWord(s[2])
            && Captured(s[5], s[6..]) == Some(column) && SkipColumnIs(s)
  {
    var s := AddText(column);
    Keywords();
    assert s[6..] == [Word("TEXT")];
    assert s[4..][1..] == s[5..] && s[4..][0] == s[4];
  }

  predicate SkipColumnIs(s: Statement) {
    |s| == 7 && SkipColumn(s[4..]) == s[5..]
  }

  lemma AddReads(column: string)
    requires column in NEW_COLUMNS
    ensures AddedColumn(AddText(column)) == Some(("runs", column))
    ensures Parse(AddText(column)) == AddColumn("runs", column)
  {
    hide Lower, Is, IsName, NameOf, Captured, OneWord, HasComment, Parse;
    var s := AddText(column);
    Keywords();
    OwnName("runs");
    OwnName(column);
    AddTokens(column);
    assert AddedColumn(s) == Some(("runs", column));
    hide AddedColumn;
    ReadAsItStands(s);
    AlterAddReads(s, column);
  }

  lemma AlterAddReads(s: Statement, column: string)
    requires |s| == 7 && Is(s[0], "alter") && Is(s[1], "table") && IsName(s[2]) && Is(s[3], "add") && SkipColumnIs(s)
    requires IsName(s[5]) && s[6].Word?
    ensures ParseBody(s) == AddColumn(NameOf(s[2]), NameOf(s[5]))
  {
    hide Is, IsName, NameOf, SkipColumn;
    assert Begins(s, ["alter", "table"]);
    var r := s[5..];
    assert r == [s[5], s[6]];
    assert s[5] != Symbol(';') by { NameIsNoSign(s[5]); }
  }

  lemma NameIsNoSign(t: Token)
    requires IsName(t)
    ensures !t.Symbol?
  {
  }

  lemma HarmlessReads(s: Statement)
    requires AllHarmless(s) && s != []
    ensures Symbol(';') !in s && Parse(s) == ParseBody(s)
  {
    hide Parse, ParseBody, WithoutComments, Body;
    assert forall i :: 0 <= i < |s| ==> Harmless(s[i]);
    assert !HasComment(s);
    ReadAsItStands(s);
  }

  lemma {:induction false} WordsKeepLevel(s: Statement, depth: nat)
    requires forall i :: 0 <= i < |s| ==> !s[i].Symbol?
    ensures Level(s, depth) == Some(depth)
    decreases |s|
  {
    if s != [] { WordsKeepLevel(s[1..], depth); }
  }

  lemma PrimaryKeyIsDefinition()
    ensures IsDefinition(PRIMARY_KEY)
  {
    var s := PRIMARY_KEY;
    assert Level([], 0) == Some(0);
    assert Level([Symbol(')')], 1) == Some(0) by { assert [Symbol(')')][1..] == []; }
    var a: Statement := [Word("run_id"), Symbol(','), Word("seq"), Symbol(')')];
    assert a[1..][1..][1..] == [Symbol(')')];
    assert Level(a[1..][1..], 1) == Some(0);
    assert Level(a[1..], 1) == Some(0);
    assert Level(a, 1) == Some(0);
    assert s[1..][1..][1..] == a;
    assert Level(s[1..][1..], 0) == Some(0);
    assert Level(s[1..], 0) == Some(0);
  }

  lemma ApprovalsAreDefinitions()
    ensures forall i :: 0 <= i < |ApprovalColumns()| ==> IsDefinition(ApprovalColumns()[i])
  {
    var ds := ApprovalColumns();
    PrimaryKeyIsDefinition();
    forall i | 0 <= i < 8 ensures IsDefinition(ds[i]) { WordsKeepLevel(ds[i][1..], 0); }
  }

  lemma {:induction false} DefinitionsAre(ds: seq<Statement>)
    requires ds != [] && forall i :: 0 <= i < |ds| ==> ds[i] != []
    ensures Definitions(ds) != []
    decreases |ds|
  {
  }

  lemma ApprovalColumnsAre(c: string)
    ensures c in ColumnNames(Definitions(ApprovalColumns()) + [Symbol(')')], 1, true) <==> c in APPROVALS
  {
    hide IsDefinition, ColumnNames, Definitions;
    ApprovalsAreDefinitions();
    ColumnsAreDefined(ApprovalColumns(), c);
    ApprovalNames(c);
  }

  lemma ApprovalNames(c: string)
    ensures (exists i :: 0 <= i < |ApprovalColumns()| && NamesColumn(ApprovalColumns()[i], c)) <==> c in APPROVALS
  {
    hide NamesColumn;
    var ds := ApprovalColumns();
    FirstNames(c);
    if c in APPROVALS {
      assert NamesColumn(ds[0], c) || NamesColumn(ds[1], c) || NamesColumn(ds[2], c) || NamesColumn(ds[3], c)
        || NamesColumn(ds[4], c) || NamesColumn(ds[5], c) || NamesColumn(ds[6], c) || NamesColumn(ds[7], c);
    }
  }

  lemma FirstNames(c: string)
    ensures var ds := ApprovalColumns();
            && (NamesColumn(ds[0], c) <==> c == "run_id") && (NamesColumn(ds[1], c) <==> c == "seq")
            && (NamesColumn(ds[2], c) <==> c == "decision") && (NamesColumn(ds[3], c) <==> c == "actor_id")
            && (NamesColumn(ds[4], c) <==> c == "actor_kind") && (NamesColumn(ds[5], c) <==> c == "on_behalf_of")
            && (NamesColumn(ds[6], c) <==> c == "reason") && (NamesColumn(ds[7], c) <==> c == "decided_at")
            && !NamesColumn(ds[8], c)
  {
    hide IsName, NameOf;
    OwnName("run_id");
    OwnName("seq");
    OwnName("decision");
    OwnName("actor_id");
    OwnName("actor_kind");
    OwnName("on_behalf_of");
    OwnName("reason");
    OwnName("decided_at");
    PrimaryIsReserved();
  }

  lemma PrimaryIsReserved()
    ensures !IsName(Word("PRIMARY"))
  {
    assert Lower("PRIMARY") == "primary";
  }

  lemma CreateReads()
    ensures Parse(CreateApprovals()) == CreateTable("run_approvals", APPROVALS, true) && AddedColumn(CreateApprovals()).None?
  {
    hide Harmless, IsSafe, ApprovalColumns, Definitions, Lower, Is, IsName, NameOf, ColumnNames, Parse;
    var s := CreateApprovals();
    var tail := Definitions(ApprovalColumns()) + [Symbol(')')];
    CreateIsHarmless();
    HarmlessReads(s);
    Keywords();
    OwnName("run_approvals");
    assert forall i :: 0 <= i < 7 ==> s[i] == CREATE[i];
    assert s[6..] == [Symbol('(')] + tail && s[|s| - 1] == Symbol(')');
    DefinitionsNotEmpty();
    CreateBodyReads(s, tail);
    forall c ensures c in ColumnNames(tail, 1, true) <==> c in APPROVALS { ApprovalColumnsAre(c); }
    assert ColumnNames(tail, 1, true) == APPROVALS;
  }

  lemma DefinitionsNotEmpty()
    ensures Definitions(ApprovalColumns()) != []
  {
    DefinitionsAre(ApprovalColumns());
  }

  lemma CreateBodyReads(s: Statement, tail: Statement)
    requires |s| >= 8 && s[6..] == [Symbol('(')] + tail && s[|s| - 1] == Symbol(')') && Symbol(';') !in s
    requires Is(s[0], "create") && Is(s[1], "table") && Is(s[2], "if") && Is(s[3], "not") && Is(s[4], "exists") && IsName(s[5])
    ensures ParseBody(s) == CreateTable(NameOf(s[5]), ColumnNames(tail, 1, true), true) && AddedColumn(s).None?
  {
    hide Reserved, Lower, IsName, NameOf;
    assert s[6] == s[6..][0];
    assert ([Symbol('(')] + tail)[1..] == tail;
    assert !Begins(s, ["alter", "table"]) by { assert ["alter", "table"][0] == "alter"; }
    assert !Begins(s, ["drop", "table"]) by { assert ["drop", "table"][0] == "drop"; }
    assert Begins(s, ["create", "table", "if", "not", "exists"]);
  }

  lemma IndexReads()
    ensures Parse(CREATE_INDEX) == CreateIndex("run_approvals") && AddedColumn(CREATE_INDEX).None?
  {
    hide Harmless, AllHarmless, IsSafe, Lower, Is, IsName, NameOf, Parse, ParseBody, AddedColumn;
    IndexIsHarmless();
    HarmlessReads(CREATE_INDEX);
    Keywords();
    OwnName("run_approvals");
    OwnName("run_approvals_run_id_idx");
    IndexBodyReads(CREATE_INDEX);
  }

  lemma IndexBodyReads(s: Statement)
    requires |s| >= 11 && s[8] == Symbol('(') && s[|s| - 1] == Symbol(')') && Symbol(';') !in s
    requires Is(s[0], "create") && Is(s[1], "index") && Is(s[2], "if") && Is(s[3], "not") && Is(s[4], "exists")
    requires IsName(s[5]) && Is(s[6], "on") && IsName(s[7])
    ensures ParseBody(s) == CreateIndex(NameOf(s[7])) && AddedColumn(s).None?
  {
    hide Reserved, Lower, IsName, NameOf;
    assert !Begins(s, ["alter", "table"]) by { assert ["alter", "table"][0] == "alter"; }
    assert !Begins(s, ["drop", "table"]) by { assert ["drop", "table"][0] == "drop"; }
    assert !Begins(s, ["create", "table"]) by { assert ["create", "table"][1] == "table"; }
    assert !Begins(s, ["create", "table", "if", "not", "exists"]) by { assert ["create", "table", "if", "not", "exists"][1] == "table"; }
    assert Begins(s, ["create", "index", "if", "not", "exists"]);
  }

  // ---- What the migration does ----

  function WithColumn(db: Database, column: string): Database
    requires "runs" in db.columns
  {
    db.(columns := db.columns["runs" := db.columns["runs"] + {column}])
  }

  function WithApprovals(db: Database): Database {
    if "run_approvals" in db.columns then db
    else db.(columns := db.columns["run_approvals" := APPROVALS], rows := db.rows["run_approvals" := []])
  }

  lemma AddApplies(db: Database, column: string)
    requires "runs" in db.columns && column in NEW_COLUMNS
    ensures ApplyStatement(db, AddText(column)) == Some(WithColumn(db, column))
  {
    hide IsSafe, AddedColumn, Parse;
    AddIsSafe(column);
    AddReads(column);
    if column in db.columns["runs"] {
      assert db.columns["runs"] + {column} == db.columns["runs"];
      assert db.columns["runs" := db.columns["runs"]] == db.columns;
    }
  }

  lemma CreateApplies(db: Database)
    ensures ApplyStatement(db, CreateApprovals()) == Some(WithApprovals(db))
  {
    hide IsSafe, AddedColumn, Parse, Definitions, ApprovalColumns;
    CreateIsHarmless();
    CreateReads();
  }

  lemma IndexApplies(db: Database)
    requires "run_approvals" in db.columns
    ensures ApplyStatement(db, CREATE_INDEX) == Some(db)
  {
    hide IsSafe, AddedColumn, Parse;
    IndexIsHarmless();
    IndexReads();
  }

  lemma ThenRest(db: Database, s: Statement, rest: seq<Statement>)
    ensures ApplyStatements(db, [s] + rest) == match ApplyStatement(db, s) case None => None case Some(next) => ApplyStatements(next, rest)
  {
    hide ApplyStatement;
    assert ([s] + rest)[1..] == rest;
  }

  /** The database before the handler runs. */
  function Extended(db: Database): Database
    requires "runs" in db.columns
  {
    WithApprovals(WithColumn(WithColumn(WithColumn(db, "workspace_id"), "created_by"), "created_by_kind"))
  }

  lemma StatementsApply(db: Database)
    requires "runs" in db.columns
    ensures ApplyStatements(db, Runs0002().statements) == Some(Extended(db))
  {
    hide ApplyStatement, ApplyStatements, AddText, CreateApprovals;
    var a, b, c := AddText("workspace_id"), AddText("created_by"), AddText("created_by_kind");
    var d1 := WithColumn(db, "workspace_id");
    var d2 := WithColumn(d1, "created_by");
    var d3 := WithColumn(d2, "created_by_kind");
    assert Runs0002().statements == [a] + ([b] + ([c] + ([CreateApprovals()] + ([CREATE_INDEX] + []))));
    ThenRest(db, a, [b] + ([c] + ([CreateApprovals()] + ([CREATE_INDEX] + []))));
    ThenRest(d1, b, [c] + ([CreateApprovals()] + ([CREATE_INDEX] + [])));
    ThenRest(d2, c, [CreateApprovals()] + ([CREATE_INDEX] + []));
    ThenRest(d3, CreateApprovals(), [CREATE_INDEX] + []);
    ThenRest(Extended(db), CREATE_INDEX, []);
    AddApplies(db, "workspace_id");
    AddApplies(d1, "created_by");
    AddApplies(d2, "created_by_kind");
    CreateApplies(d3);
    IndexApplies(Extended(db));
    NoStatements(Extended(db));
  }

  lemma NoStatements(db: Database)
    ensures ApplyStatements(db, []) == Some(db)
  {
  }

  /** On every runs database older than version 2, whatever else it holds and however far an earlier attempt
      came, the migration succeeds: the three columns and the table of approvals are there, every run with a
      workspace has its identifier, and no run, no value and no other table or column is lost. */
  lemma RunsMigrationSucceeds(db: Database)
    requires "runs" in db.columns && "runs" in db.rows && "workspace" in db.columns["runs"] && db.version < 2
    ensures Migrated(db, [Runs0002()], 1).Some?
    ensures var after := Migrated(db, [Runs0002()], 1).value;
            && after.version == 2 && after.columns == Extended(db).columns && RunsHaveIds(after)
            && (forall t :: t in db.rows && t != "runs" && (t != "run_approvals" || t in db.columns) ==>
                  t in after.rows && after.rows[t] == db.rows[t])
            && |after.rows["runs"]| == |db.rows["runs"]|
            && forall i, c :: 0 <= i < |db.rows["runs"]| && c in db.rows["runs"][i] ==>
                 c in after.rows["runs"][i] && after.rows["runs"][i][c] == db.rows["runs"][i][c]
  {
    hide ApplyStatements, Backfill, Migrated, RunsHaveIds;
    StatementsApply(db);
    BackfillRuns(Extended(db));
    MigratedIs(db, Backfill(Extended(db)).value);
    BackfillFillsOnce(Extended(db));
    HasIds(Extended(db));
  }

  lemma MigratedIs(db: Database, filled: Database)
    requires "runs" in db.columns && db.version < 2
    requires ApplyStatements(db, Runs0002().statements) == Some(Extended(db)) && Backfill(Extended(db)) == Some(filled)
    ensures Migrated(db, [Runs0002()], 1) == Some(filled.(version := 2))
  {
    hide ApplyStatements, Backfill, Extended, ApplyAll, ByVersion, Newer;
    OnePending(db);
    ApplyOneMigration(db, Runs0002());
  }

  lemma HasIds(db: Database)
    requires "runs" in db.rows && Backfill(db).Some?
    ensures RunsHaveIds(Backfill(db).value.(version := 2))
  {
    hide Backfill, Backfilled;
    BackfillFillsOnce(db);
    var after := Backfill(db).value;
    forall r | r in after.rows["runs"] && "workspace" in r ensures "workspace_id" in r {
      var i :| 0 <= i < |after.rows["runs"]| && after.rows["runs"][i] == r;
      assert "workspace" in db.rows["runs"][i];
    }
  }

  lemma BackfillRuns(db: Database)
    requires "runs" in db.columns && "runs" in db.rows && {"workspace_id", "workspace"} <= db.columns["runs"]
    ensures Backfill(db).Some?
  {
  }

  lemma OnePending(db: Database)
    requires db.version < 2
    ensures ByVersion(Newer([Runs0002()], db.version)) == [Runs0002()]
  {
    var m := Runs0002();
    assert [m][1..] == [] && Newer([], db.version) == [] && ByVersion([]) == [];
  }
}
