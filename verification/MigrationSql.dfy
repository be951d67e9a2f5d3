/** Migration statements as the runner's text patterns see them, and as SQLite executes them. */
module MigrationSql {
  import opened Options
  import opened PythonText

  /** A row's non-NULL values. */
  type Row = map<string, string>

  datatype Database = Database(columns: map<string, set<string>>, rows: map<string, seq<Row>>, version: nat)

  /** A statement's text without its whitespace: words, quoted names and block comments with the words
      inside them, and other signs. */
  datatype Token = Word(text: string) | Quoted(words: seq<string>) | Symbol(c: char) | Comment(words: seq<string>)

  type Statement = seq<Token>

  predicate Is(t: Token, keyword: string) {
    t.Word? && Lower(t.text) == keyword
  }

  predicate Named(t: Token) {
    t.Word? || t.Quoted?
  }

  function Spaced(words: seq<string>): string {
    if words == [] then "" else if |words| == 1 then words[0] else words[0] + " " + Spaced(words[1..])
  }

  /** A quoted name is its words with single blanks between them. */
  function NameOf(t: Token): string
    requires Named(t)
  {
    if t.Word? then t.text else Spaced(t.words)
  }

  // ---- The runner's check ----

  predicate NextTo(words: seq<string>, a: string, b: string) {
    exists i :: 0 <= i < |words| - 1 && Lower(words[i]) == a && Lower(words[i + 1]) == b
  }

  /** The patterns look into quoted names and comments too. */
  predicate TokenHasPair(t: Token, a: string, b: string) {
    (t.Quoted? || t.Comment?) && NextTo(t.words, a, b)
  }

  predicate TokenHasWord(t: Token, a: string) {
    match t
    case Word(text) => Lower(text) == a
    case Quoted(words) => exists k :: 0 <= k < |words| && Lower(words[k]) == a
    case Symbol(_) => false
    case Comment(words) => exists k :: 0 <= k < |words| && Lower(words[k]) == a
  }

  /** `\ba\s+b\b`, ignoring case: two words with nothing but whitespace between them. */
  predicate HasPair(s: Statement, a: string, b: string) {
    || (exists i :: 0 <= i < |s| - 1 && Is(s[i], a) && Is(s[i + 1], b))
    || (exists i :: 0 <= i < |s| && TokenHasPair(s[i], a, b))
  }

  /** `\ba\b`, ignoring case. */
  predicate HasWord(s: Statement, a: string) {
    exists i :: 0 <= i < |s| && TokenHasWord(s[i], a)
  }

  /** The seven forbidden patterns. */
  predicate IsSafe(s: Statement) {
    && !HasPair(s, "drop", "table") && !HasPair(s, "drop", "column") && !HasPair(s, "drop", "index")
    && !HasPair(s, "rename", "to") && !HasPair(s, "rename", "column")
    && !HasWord(s, "truncate") && !HasPair(s, "delete", "from")
  }

  const FORBIDDEN_PAIRS: set<(string, string)> := {
    ("drop", "table"), ("drop", "column"), ("drop", "index"), ("rename", "to"), ("rename", "column"), ("delete", "from")
  }

  /** A statement passes exactly when none of these pairs and no TRUNCATE is found in it. */
  lemma SafeIff(s: Statement)
    ensures IsSafe(s) <==>
              && (forall a, b :: (a, b) in FORBIDDEN_PAIRS ==> !NextWords(s, a, b) && !InOneToken(s, a, b))
              && !HasWord(s, "truncate")
  {
    hide NextWords, InOneToken, HasPair, HasWord;
    forall a, b ensures HasPair(s, a, b) <==> NextWords(s, a, b) || InOneToken(s, a, b) { PairIff(s, a, b); }
  }

  /** No name or comment matches a pattern by itself. */
  predicate TokenIsSafe(t: Token) {
    && !TokenHasPair(t, "drop", "table") && !TokenHasPair(t, "drop", "column") && !TokenHasPair(t, "drop", "index")
    && !TokenHasPair(t, "rename", "to") && !TokenHasPair(t, "rename", "column")
    && !TokenHasWord(t, "truncate") && !TokenHasPair(t, "delete", "from")
  }

  ghost predicate Phrase(words: seq<string>, a: string, b: string) {
    exists before, x, y, rest :: words == before + [x, y] + rest && Lower(x) == a && Lower(y) == b
  }

  ghost predicate NextWords(s: Statement, a: string, b: string) {
    exists before, x, y, rest :: s == before + [Word(x), Word(y)] + rest && Lower(x) == a && Lower(y) == b
  }

  ghost predicate InOneToken(s: Statement, a: string, b: string) {
    exists words :: (Quoted(words) in s || Comment(words) in s) && Phrase(words, a, b)
  }

  /** A forbidden pair is found exactly as two words with nothing but whitespace between them, in any case:
      next to each other in the statement, or inside one quoted name or comment. */
  lemma PairIff(s: Statement, a: string, b: string)
    ensures HasPair(s, a, b) <==> NextWords(s, a, b) || InOneToken(s, a, b)
  {
    hide TokenHasPair, Is, NextWords, InOneToken;
    NextWordsIff(s, a, b);
    InOneTokenIff(s, a, b);
  }

  lemma NextWordsIff(s: Statement, a: string, b: string)
    ensures NextWords(s, a, b) <==> exists i :: 0 <= i < |s| - 1 && Is(s[i], a) && Is(s[i + 1], b)
  {
    hide Lower;
    if i :| 0 <= i < |s| - 1 && Is(s[i], a) && Is(s[i + 1], b) {
      assert s == s[..i] + [Word(s[i].text), Word(s[i + 1].text)] + s[i + 2..];
    }
    if before, x, y, rest :| s == before + [Word(x), Word(y)] + rest && Lower(x) == a && Lower(y) == b {
      var i := |before|;
      assert s[i] == Word(x) && s[i + 1] == Word(y);
      assert Is(s[i], a) && Is(s[i + 1], b);
    }
  }

  lemma InOneTokenIff(s: Statement, a: string, b: string)
    ensures InOneToken(s, a, b) <==> exists i :: 0 <= i < |s| && TokenHasPair(s[i], a, b)
  {
    hide Lower, NextTo, Phrase;
    if i :| 0 <= i < |s| && TokenHasPair(s[i], a, b) {
      PhraseIff(s[i].words, a, b);
      assert s[i] == (if s[i].Quoted? then Quoted(s[i].words) else Comment(s[i].words));
      assert s[i] in s;
    }
    if words :| (Quoted(words) in s || Comment(words) in s) && Phrase(words, a, b) {
      PhraseIff(words, a, b);
      var i :| 0 <= i < |s| && (s[i] == Quoted(words) || s[i] == Comment(words));
      assert TokenHasPair(s[i], a, b);
    }
  }

  lemma PhraseIff(words: seq<string>, a: string, b: string)
    ensures NextTo(words, a, b) <==> Phrase(words, a, b)
  {
    hide Lower;
    if i :| 0 <= i < |words| - 1 && Lower(words[i]) == a && Lower(words[i + 1]) == b {
      assert words == words[..i] + [words[i], words[i + 1]] + words[i + 2..];
    }
    if before, x, y, rest :| words == before + [x, y] + rest && Lower(x) == a && Lower(y) == b {
      assert words[|before|] == x && words[|before| + 1] == y;
    }
  }

  /** And a forbidden word wherever it stands. */
  lemma WordIff(s: Statement, a: string)
    ensures HasWord(s, a) <==>
              || (exists x :: Word(x) in s && Lower(x) == a)
              || (exists words, x :: (Quoted(words) in s || Comment(words) in s) && x in words && Lower(x) == a)
  {
    hide Lower;
    if i :| 0 <= i < |s| && TokenHasWord(s[i], a) {
      match s[i]
      case Word(x) => assert Word(x) in s;
      case Quoted(words) => assert Quoted(words) in s;
      case Comment(words) => assert Comment(words) in s;
      case _ =>
    }
    if x :| Word(x) in s && Lower(x) == a {
      var i :| 0 <= i < |s| && s[i] == Word(x);
      assert TokenHasWord(s[i], a);
    }
    if words, x :| (Quoted(words) in s || Comment(words) in s) && x in words && Lower(x) == a {
      var i :| 0 <= i < |s| && (s[i] == Quoted(words) || s[i] == Comment(words));
      assert TokenHasWord(s[i], a);
    }
  }

  predicate TokensAreSafe(s: Statement) {
    forall i :: 0 <= i < |s| ==> TokenIsSafe(s[i])
  }

  /** The name that the ADD COLUMN pattern captures: word characters, then a blank and something more. Of a
      quoted name of several words it takes the first, and the others for the definition. */
  function Captured(t: Token, following: Statement): Option<string> {
    var more := following != [] && following[0] != Symbol(';');
    match t
    case Word(text) => if more then Some(text) else None
    case Quoted(words) => if |words| >= 2 || (|words| == 1 && more) then Some(words[0]) else None
    case _ => None
  }

  predicate OneWord(t: Token) {
    t.Word? || (t.Quoted? && |t.words| == 1)
  }

  /** What the pattern for ADD COLUMN captures: it takes the word COLUMN for the name when nothing that could
      be a definition follows the next word. */
  function AddedColumn(s: Statement): Option<(string, string)> {
    if |s| < 5 || !Is(s[0], "alter") || !Is(s[1], "table") || !OneWord(s[2]) || !Is(s[3], "add") then None
    else
      var second := if Is(s[4], "column") && |s| >= 6 then Captured(s[5], s[6..]) else None;
      match (if second.Some? then second else Captured(s[4], s[5..]))
      case Some(column) => Some((NameOf(s[2]), column))
      case None => None
  }

  // ---- SQLite's reading ----

  datatype Sql =
    | Nothing
    | AddColumn(table: string, column: string)
    | DropColumn(table: string, column: string)
    | RenameColumn(table: string, from: string, to: string)
    | RenameTable(table: string, to: string)
    | DropTable(table: string, ifExists: bool)
    | CreateTable(table: string, columns: set<string>, ifNotExists: bool)
    | CreateIndex(table: string)
    | Invalid

  /** Keywords that cannot be used as names without quotes. */
  predicate Reserved(word: string) {
    || word in {"add", "all", "alter", "and", "as", "between", "case", "check", "collate", "commit", "constraint", "create"}
    || word in {"default", "deferrable", "delete", "distinct", "drop", "else", "escape", "except", "exists", "foreign", "from"}
    || word in {"group", "having", "in", "index", "insert", "intersect", "into", "is", "isnull", "join", "limit", "not"}
    || word in {"notnull", "null", "on", "or", "order", "primary", "references", "select", "set", "table", "then", "to"}
    || word in {"transaction", "union", "unique", "update", "using", "values", "when", "where"}
  }

  predicate IsName(t: Token) {
    t.Quoted? || (t.Word? && !Reserved(Lower(t.text)))
  }

  function WithoutComments(s: Statement): Statement {
    if s == [] then [] else (if s[0].Comment? then [] else [s[0]]) + WithoutComments(s[1..])
  }

  /** The statement before its closing semicolons. */
  function Body(s: Statement): (b: Statement)
    ensures b <= s
  {
    if s != [] && s[|s| - 1] == Symbol(';') then Body(s[..|s| - 1]) else s
  }

  /** The word COLUMN is optional. */
  function SkipColumn(s: Statement): Statement {
    if s != [] && Is(s[0], "column") then s[1..] else s
  }

  function ParseAlter(b: Statement): Sql
    requires |b| >= 4 && IsName(b[2])
  {
    var t, r := NameOf(b[2]), SkipColumn(b[4..]);
    if Is(b[3], "add") then
      (if r != [] && IsName(r[0]) && Symbol(';') !in r then AddColumn(t, NameOf(r[0])) else Invalid)
    else if Is(b[3], "drop") then
      (if |r| == 1 && IsName(r[0]) then DropColumn(t, NameOf(r[0])) else Invalid)
    else if Is(b[3], "rename") && |b| == 6 && Is(b[4], "to") && IsName(b[5]) then RenameTable(t, NameOf(b[5]))
    else if Is(b[3], "rename") && |r| == 3 && IsName(r[0]) && Is(r[1], "to") && IsName(r[2]) then
      RenameColumn(t, NameOf(r[0]), NameOf(r[2]))
    else Invalid
  }

  /** Column names of a table's definition: the first name after the opening parenthesis and after every
      comma at its level, unless a table constraint starts there. */
  function ColumnNames(s: Statement, depth: nat, starts: bool): set<string> {
    if s == [] then {}
    else if starts && IsName(s[0]) then {NameOf(s[0])} + ColumnNames(s[1..], depth, false)
    else if s[0] == Symbol('(') then ColumnNames(s[1..], depth + 1, depth == 0)
    else if s[0] == Symbol(')') then (if depth == 0 then {} else ColumnNames(s[1..], depth - 1, false))
    else ColumnNames(s[1..], depth, s[0] == Symbol(',') && depth == 1)
  }

  predicate Begins(b: Statement, keywords: seq<string>) {
    |keywords| <= |b| && forall i :: 0 <= i < |keywords| ==> Is(b[i], keywords[i])
  }

  function ParseCreate(b: Statement, skip: nat, ifNotExists: bool): Sql
    requires skip <= |b|
  {
    if |b| >= skip + 3 && IsName(b[skip]) && b[skip + 1] == Symbol('(') && b[|b| - 1] == Symbol(')') && Symbol(';') !in b then
      CreateTable(NameOf(b[skip]), ColumnNames(b[skip + 1..], 0, false), ifNotExists)
    else Invalid
  }

  function ParseIndex(b: Statement, skip: nat): Sql
    requires skip <= |b|
  {
    if |b| >= skip + 6 && IsName(b[skip]) && Is(b[skip + 1], "on") && IsName(b[skip + 2]) && b[skip + 3] == Symbol('(')
       && b[|b| - 1] == Symbol(')') && Symbol(';') !in b then CreateIndex(NameOf(b[skip + 2]))
    else Invalid
  }

  /** The schema statements of SQLite, without schema-qualified names. */
  function ParseBody(b: Statement): Sql {
    if b == [] then Nothing
    else if Begins(b, ["alter", "table"]) then (if |b| >= 4 && IsName(b[2]) then ParseAlter(b) else Invalid)
    else if Begins(b, ["drop", "table"]) then
      (if |b| == 3 && IsName(b[2]) then DropTable(NameOf(b[2]), false)
       else if |b| == 5 && Is(b[2], "if") && Is(b[3], "exists") && IsName(b[4]) then DropTable(NameOf(b[4]), true)
       else Invalid)
    else if Begins(b, ["create", "table", "if", "not", "exists"]) then ParseCreate(b, 5, true)
    else if Begins(b, ["create", "table"]) then ParseCreate(b, 2, false)
    else if Begins(b, ["create", "index", "if", "not", "exists"]) then ParseIndex(b, 5)
    else if Begins(b, ["create", "index"]) then ParseIndex(b, 2)
    else if Begins(b, ["create", "unique", "index", "if", "not", "exists"]) then ParseIndex(b, 6)
    else if Begins(b, ["create", "unique", "index"]) then ParseIndex(b, 3)
    else Invalid
  }

  function Parse(s: Statement): Sql {
    ParseBody(Body(WithoutComments(s)))
  }

  // ---- Execution ----

  function Renamed(r: Row, from: string, to: string): Row {
    if from in r then (r - {from})[to := r[from]] else r
  }

  function EachRow(rows: seq<Row>, change: Row -> Row): seq<Row> {
    seq(|rows|, i requires 0 <= i < |rows| => change(rows[i]))
  }

  function ChangeRows(db: Database, t: string, change: Row -> Row): map<string, seq<Row>> {
    if t in db.rows then db.rows[t := EachRow(db.rows[t], change)] else db.rows
  }

  /** None is SQLite's error. */
  function Execute(db: Database, q: Sql): Option<Database> {
    match q
    case Nothing => Some(db)
    case Invalid => None
    case AddColumn(t, c) =>
      if t !in db.columns || c in db.columns[t] then None
      else Some(db.(columns := db.columns[t := db.columns[t] + {c}]))
    case DropColumn(t, c) =>
      if t !in db.columns || c !in db.columns[t] || db.columns[t] == {c} then None
      else Some(db.(columns := db.columns[t := db.columns[t] - {c}], rows := ChangeRows(db, t, (r: Row) => r - {c})))
    case RenameColumn(t, from, to) =>
      if t !in db.columns || from !in db.columns[t] || (to in db.columns[t] && to != from) then None
      else Some(db.(columns := db.columns[t := db.columns[t] - {from} + {to}],
                    rows := ChangeRows(db, t, (r: Row) => Renamed(r, from, to))))
    case RenameTable(t, to) =>
      if t !in db.columns || to in db.columns then None
      else Some(db.(columns := (db.columns - {t})[to := db.columns[t]],
                    rows := (db.rows - {t})[to := if t in db.rows then db.rows[t] else []]))
    case DropTable(t, ifExists) =>
      if t in db.columns then Some(db.(columns := db.columns - {t}, rows := db.rows - {t}))
      else if ifExists then Some(db) else None
    case CreateTable(t, cs, ifNotExists) =>
      if t !in db.columns then Some(db.(columns := db.columns[t := cs], rows := db.rows[t := []]))
      else if ifNotExists then Some(db) else None
    case CreateIndex(t) => if t in db.columns then Some(db) else None
  }

  /** `_apply_statement`: None is a raised error; a column that exists already is skipped. */
  function ApplyStatement(db: Database, s: Statement): Option<Database> {
    if s == [] then Some(db)
    else if !IsSafe(s) then None
    else
      match AddedColumn(s)
      case Some((t, c)) => if t in db.columns && c in db.columns[t] then Some(db) else Execute(db, Parse(s))
      case None => Execute(db, Parse(s))
  }

  // ---- Column definitions ----

  /** The level of parentheses after some tokens, if it never falls below 0 and no comma stands at level 0. */
  function Level(s: Statement, depth: nat): Option<nat> {
    if s == [] then Some(depth)
    else if s[0] == Symbol('(') then Level(s[1..], depth + 1)
    else if s[0] == Symbol(')') then (if depth == 0 then None else Level(s[1..], depth - 1))
    else if s[0] == Symbol(',') && depth == 0 then None
    else Level(s[1..], depth)
  }

  /** A column's or constraint's definition: a first token that is no sign, and more within its parentheses. */
  predicate IsDefinition(d: Statement) {
    d != [] && !d[0].Symbol? && Level(d[1..], 0) == Some(0)
  }

  function Definitions(ds: seq<Statement>): Statement {
    if ds == [] then [] else if |ds| == 1 then ds[0] else ds[0] + ([Symbol(',')] + Definitions(ds[1..]))
  }

  lemma {:induction false} ColumnsBehind(s: Statement, more: Statement, depth: nat)
    requires Level(s, depth).Some?
    ensures ColumnNames(s + more, depth + 1, false) == ColumnNames(more, Level(s, depth).value + 1, false)
    decreases |s|
  {
    if s == [] {
      assert s + more == more;
    } else {
      assert (s + more)[0] == s[0] && (s + more)[1..] == s[1..] + more;
      var next := if s[0] == Symbol('(') then depth + 1 else if s[0] == Symbol(')') then depth - 1 else depth;
      ColumnsBehind(s[1..], more, next);
    }
  }

  predicate NamesColumn(d: Statement, c: string) {
    d != [] && IsName(d[0]) && NameOf(d[0]) == c
  }

  /** The columns of a table are the names with which the definitions between its parentheses begin, whatever
      types, defaults and constraints follow them; definitions that begin with a keyword are constraints. */
  lemma {:induction false} ColumnsAreDefined(ds: seq<Statement>, c: string)
    requires ds != [] && forall i :: 0 <= i < |ds| ==> IsDefinition(ds[i])
    ensures c in ColumnNames(Definitions(ds) + [Symbol(')')], 1, true) <==> exists i :: 0 <= i < |ds| && NamesColumn(ds[i], c)
    decreases |ds|
  {
    hide IsDefinition, NamesColumn, ColumnNames;
    var d, rest := ds[0], ds[1..];
    if rest == [] {
      FirstColumn(d, [Symbol(')')], c);
      NoMoreColumns([Symbol(')')]);
    } else {
      var more := Definitions(rest) + [Symbol(')')];
      ColumnsAreDefined(rest, c);
      assert Definitions(ds) + [Symbol(')')] == d + ([Symbol(',')] + more);
      FirstColumn(d, [Symbol(',')] + more, c);
      CommaStarts(more);
      if i :| 0 <= i < |rest| && NamesColumn(rest[i], c) { assert ds[i + 1] == rest[i]; }
      if i :| 0 < i < |ds| && NamesColumn(ds[i], c) { assert rest[i - 1] == ds[i]; }
    }
  }

  lemma FirstColumn(d: Statement, more: Statement, c: string)
    requires IsDefinition(d)
    ensures c in ColumnNames(d + more, 1, true) <==> NamesColumn(d, c) || c in ColumnNames(more, 1, false)
  {
    hide NameOf, IsName;
    assert (d + more)[0] == d[0] && (d + more)[1..] == d[1..] + more;
    ColumnsBehind(d[1..], more, 0);
  }

  lemma CommaStarts(more: Statement)
    ensures ColumnNames([Symbol(',')] + more, 1, false) == ColumnNames(more, 1, true)
  {
    assert ([Symbol(',')] + more)[1..] == more;
  }

  lemma NoMoreColumns(s: Statement)
    requires s == [Symbol(')')]
    ensures ColumnNames(s, 1, false) == {}
  {
    assert s[1..] == [];
  }

  // ---- What an accepted statement can lose ----

  /** Every table and every column is still there. */
  ghost predicate Extends(after: Database, before: Database) {
    forall t :: t in before.columns ==> t in after.columns && before.columns[t] <= after.columns[t]
  }

  predicate Removes(q: Sql) {
    q.DropColumn? || (q.RenameColumn? && q.from != q.to) || q.RenameTable? || q.DropTable?
  }

  lemma ExecutionLosesIff(db: Database, q: Sql)
    requires Execute(db, q).Some?
    ensures Extends(Execute(db, q).value, db) <==> !(Removes(q) && q.table in db.columns)
  {
    var after := Execute(db, q).value;
    match q
    case DropColumn(t, c) => assert c !in after.columns[t];
    case RenameColumn(t, from, to) => if from != to { assert from !in after.columns[t]; }
    case RenameTable(t, to) => assert t !in after.columns;
    case DropTable(t, _) => if t in db.columns { assert t !in after.columns; }
    case _ =>
  }

  // ---- What happens to the rows ----

  /** Every table has its rows, and no row holds a value for a column that its table does not have. */
  ghost predicate RowsFit(db: Database) {
    && db.rows.Keys == db.columns.Keys
    && forall t, i :: t in db.rows && 0 <= i < |db.rows[t]| ==> db.rows[t][i].Keys <= db.columns[t]
  }

  function Value(r: Row, c: string): Option<string> {
    if c in r then Some(r[c]) else None
  }

  /** Where the rows of a table are found afterwards, and the old name of one of its columns. */
  function TableAfter(q: Sql, t: string): string {
    if q.RenameTable? && q.table == t then q.to else t
  }

  function ColumnBefore(q: Sql, t: string, c: string): string {
    if q.RenameColumn? && q.table == t && c == q.to then q.from else c
  }

  /** Every row of every table that is still there is in its place with its value for every column that is
      still there, under whatever new name; a new column or table has no values. */
  ghost predicate RowsKept(db: Database, q: Sql, after: Database)
    requires RowsFit(db) && RowsFit(after)
  {
    && (forall t :: t in db.rows && TableAfter(q, t) in after.rows ==>
          var u := TableAfter(q, t);
          && |after.rows[u]| == |db.rows[t]|
          && forall i, c :: 0 <= i < |db.rows[t]| && c in after.columns[u] ==>
               Value(after.rows[u][i], c) == Value(db.rows[t][i], ColumnBefore(q, t, c)))
    && (forall t :: t in after.rows && (forall u :: u in db.rows ==> TableAfter(q, u) != t) ==> after.rows[t] == [])
  }

  /** Whatever a statement does, the rows still fit the tables and are kept. */
  lemma ExecutionKeepsRows(db: Database, q: Sql)
    requires RowsFit(db) && Execute(db, q).Some?
    ensures var after := Execute(db, q).value; RowsFit(after) && after.version == db.version && RowsKept(db, q, after)
  {
    hide Execute, RowsFit, RowsKept;
    if q.DropColumn? || q.RenameColumn? {
      ColumnChangeKeepsRows(db, q);
    } else if q.RenameTable? || q.DropTable? || q.CreateTable? {
      TableOpKeepsRows(db, q);
    } else {
      OtherKeepsRows(db, q);
    }
  }

  lemma OtherKeepsRows(db: Database, q: Sql)
    requires RowsFit(db) && Execute(db, q).Some? && (q.Nothing? || q.Invalid? || q.AddColumn? || q.CreateIndex?)
    ensures var after := Execute(db, q).value; RowsFit(after) && after.version == db.version && RowsKept(db, q, after)
  {
  }

  lemma ColumnChangeKeepsRows(db: Database, q: Sql)
    requires RowsFit(db) && Execute(db, q).Some? && (q.DropColumn? || q.RenameColumn?)
    ensures var after := Execute(db, q).value; RowsFit(after) && after.version == db.version && RowsKept(db, q, after)
  {
    if q.DropColumn? {
      ColumnOpKeepsRows(db, q, (r: Row) => r - {q.column});
    } else {
      ColumnOpKeepsRows(db, q, (r: Row) => Renamed(r, q.from, q.to));
    }
  }

  lemma TableOpKeepsRows(db: Database, q: Sql)
    requires RowsFit(db) && Execute(db, q).Some? && (q.RenameTable? || q.DropTable? || q.CreateTable?)
    ensures var after := Execute(db, q).value; RowsFit(after) && after.version == db.version && RowsKept(db, q, after)
  {
  }

  /** Which tables and columns there are afterwards. */
  lemma SchemaAfter(db: Database, q: Sql)
    requires Execute(db, q).Some?
    ensures var after := Execute(db, q).value;
            && (forall u :: u in after.columns <==>
                  || (q.CreateTable? && u == q.table)
                  || (exists t :: t in db.columns && u == TableAfter(q, t) && !(q.DropTable? && t == q.table)))
            && (forall t :: t in db.columns && !(q.DropTable? && t == q.table) ==>
                  forall c :: c in after.columns[TableAfter(q, t)] <==>
                    || (q.AddColumn? && t == q.table && c == q.column)
                    || (&& ColumnBefore(q, t, c) in db.columns[t]
                        && !(q.DropColumn? && t == q.table && c == q.column)
                        && !(q.RenameColumn? && t == q.table && c == q.from && c != q.to)))
            && (q.CreateTable? && q.table !in db.columns ==> after.columns[q.table] == q.columns)
  {
    if q.RenameTable? {
      forall u | u in Execute(db, q).value.columns ensures exists t :: t in db.columns && u == TableAfter(q, t) {
        assert u == TableAfter(q, if u == q.to then q.table else u);
      }
    } else {
      forall t ensures TableAfter(q, t) == t {}
    }
  }

  lemma ColumnOpKeepsRows(db: Database, q: Sql, change: Row -> Row)
    requires RowsFit(db) && Execute(db, q).Some? && (q.DropColumn? || q.RenameColumn?)
    requires forall r: Row :: change(r) == if q.DropColumn? then r - {q.column} else Renamed(r, q.from, q.to)
    ensures var t, after := q.table, Execute(db, q).value;
            && t in db.rows && after.rows == db.rows[t := EachRow(db.rows[t], change)]
            && forall i :: 0 <= i < |db.rows[t]| ==>
                 && after.rows[t][i] == change(db.rows[t][i]) && after.rows[t][i].Keys <= after.columns[t]
                 && forall c :: c in after.columns[t] ==> Value(after.rows[t][i], c) == Value(db.rows[t][i], ColumnBefore(q, t, c))
  {
    var t, after := q.table, Execute(db, q).value;
    var same := if q.DropColumn? then (r: Row) => r - {q.column} else (r: Row) => Renamed(r, q.from, q.to);
    assert forall i :: 0 <= i < |db.rows[t]| ==> EachRow(db.rows[t], same)[i] == EachRow(db.rows[t], change)[i];
    assert EachRow(db.rows[t], same) == EachRow(db.rows[t], change);
  }

  /** Leading tokens that are no comments stay in place. */
  lemma {:induction false} KeepsLeadingTokens(s: Statement, n: nat)
    requires n <= |s| && forall i :: 0 <= i < n ==> !s[i].Comment?
    ensures |WithoutComments(s)| >= n && WithoutComments(s)[..n] == s[..n]
    decreases n
  {
    if n > 0 {
      KeepsLeadingTokens(s[1..], n - 1);
      var rest := WithoutComments(s[1..]);
      assert WithoutComments(s) == [s[0]] + rest;
      assert WithoutComments(s)[..n] == [s[0]] + rest[..n - 1];
      assert s[..n] == [s[0]] + s[1..][..n - 1];
    }
  }

  lemma {:induction false} BodyKeepsStart(s: Statement, n: nat)
    requires n <= |s| && forall i :: 0 <= i < n ==> s[i] != Symbol(';')
    ensures |Body(s)| >= n && Body(s)[..n] == s[..n]
    decreases |s|
  {
    if |s| > n && s[|s| - 1] == Symbol(';') {
      BodyKeepsStart(s[..|s| - 1], n);
      assert s[..|s| - 1][..n] == s[..n];
    }
  }

  lemma NotComment(s: Statement)
    requires AddedColumn(s).Some?
    ensures forall i :: 0 <= i < 4 ==> !s[i].Comment? && !s[i].Symbol?
  {
    hide Reserved, Lower, Captured, NameOf;
  }

  /** What the ADD COLUMN pattern matches is never read as anything else. */
  lemma SkippedIsAddition(s: Statement)
    requires AddedColumn(s).Some?
    ensures Parse(s).AddColumn? || Parse(s).Invalid?
    ensures Parse(s).AddColumn? ==> Parse(s).table == AddedColumn(s).value.0
  {
    hide IsName, Is, NameOf, Captured;
    var w := WithoutComments(s);
    NotComment(s);
    KeepsLeadingTokens(s, 4);
    assert forall i :: 0 <= i < 4 ==> w[i] == w[..4][i] == s[..4][i] == s[i];
    BodyKeepsStart(w, 4);
    assert forall i :: 0 <= i < 4 ==> Body(w)[i] == Body(w)[..4][i] == w[..4][i] == w[i];
  }

  /** An accepted statement keeps every table and column exactly when SQLite does not read it as one
      that removes a table or column which is there. */
  lemma AcceptedStatementLosesIff(db: Database, s: Statement)
    requires ApplyStatement(db, s).Some?
    ensures Extends(ApplyStatement(db, s).value, db) <==> !(Removes(Parse(s)) && Parse(s).table in db.columns)
  {
    hide IsSafe, Parse, AddedColumn, Execute;
    if s == [] {
      assert Parse(s) == Nothing by { ReadNothing(); }
    } else {
      if AddedColumn(s).Some? { SkippedIsAddition(s); }
      if Execute(db, Parse(s)).Some? { ExecutionLosesIff(db, Parse(s)); }
    }
  }

  lemma ReadNothing()
    ensures Parse([]) == Nothing
  {
  }

  /** ALTER TABLE t DROP c: no word COLUMN before the name. */
  predicate DropsWithoutColumn(b: Statement) {
    && |b| == 5 && Begins(b, ["alter", "table"]) && IsName(b[2])
    && Is(b[3], "drop") && !Is(b[4], "column") && IsName(b[4])
  }

  /** ALTER TABLE t RENAME a TO b: no word COLUMN before the first name, and two different names. */
  predicate RenamesWithoutColumn(b: Statement) {
    && |b| == 7 && Begins(b, ["alter", "table"]) && IsName(b[2])
    && Is(b[3], "rename") && !Is(b[4], "column") && IsName(b[4]) && Is(b[5], "to") && IsName(b[6])
    && NameOf(b[4]) != NameOf(b[6])
  }

  predicate HasComment(s: Statement) {
    exists i :: 0 <= i < |s| && s[i].Comment?
  }

  lemma PairInBody(s: Statement, i: nat, a: string, b: string)
    requires i + 1 < |Body(s)| && Is(Body(s)[i], a) && Is(Body(s)[i + 1], b)
    ensures HasPair(s, a, b)
  {
    hide Is;
    assert s[i] == Body(s)[i] && s[i + 1] == Body(s)[i + 1];
  }

  lemma OneKeyword(t: Token)
    ensures !(Is(t, "add") && Is(t, "drop")) && !(Is(t, "add") && Is(t, "rename")) && !(Is(t, "drop") && Is(t, "rename"))
    ensures !(Is(t, "alter") && Is(t, "drop")) && !(Is(t, "to") && IsName(t))
  {
  }

  lemma AlterReads(b: Statement)
    requires |b| >= 4 && Begins(b, ["alter", "table"]) && IsName(b[2])
    ensures ParseAlter(b).DropColumn? <==>
              DropsWithoutColumn(b) || (|b| == 6 && Is(b[3], "drop") && Is(b[4], "column") && IsName(b[5]))
    ensures ParseAlter(b).RenameTable? ==> |b| == 6 && Is(b[3], "rename") && Is(b[4], "to")
    ensures ParseAlter(b).RenameColumn? && ParseAlter(b).from != ParseAlter(b).to ==>
              RenamesWithoutColumn(b) || (|b| == 8 && Is(b[3], "rename") && Is(b[4], "column"))
    ensures RenamesWithoutColumn(b) ==> ParseAlter(b).RenameColumn? && ParseAlter(b).from != ParseAlter(b).to
  {
    hide Is, IsName, Begins;
    OneKeyword(b[3]);
    if |b| >= 5 {
      OneKeyword(b[4]);
      var r := b[4..];
      assert r[0] == b[4] && (|b| >= 6 ==> r[1] == b[5]) && (|b| >= 7 ==> r[2] == b[6]);
      assert |b| >= 6 ==> r[1..][0] == b[5];
    }
  }

  lemma BodyReads(b: Statement)
    ensures Removes(ParseBody(b)) && !ParseBody(b).DropTable? ==>
              |b| >= 4 && Begins(b, ["alter", "table"]) && IsName(b[2]) && ParseBody(b) == ParseAlter(b)
    ensures ParseBody(b).DropTable? ==> |b| >= 2 && Is(b[0], "drop") && Is(b[1], "table")
    ensures DropsWithoutColumn(b) || RenamesWithoutColumn(b) ==> ParseBody(b) == ParseAlter(b)
  {
    hide Is, IsName;
  }

  /** Without comments the patterns see the keyword pairs that SQLite reads, so what they let through
      removes something only where SQLite makes the word COLUMN optional. */
  lemma UncheckedRemovals(s: Statement)
    requires IsSafe(s) && !HasComment(s)
    ensures Removes(Parse(s)) <==> DropsWithoutColumn(Body(s)) || RenamesWithoutColumn(Body(s))
    ensures !Parse(s).DropTable?
  {
    hide HasPair, HasWord, Is, IsName, Begins, ParseBody, ParseAlter, Body, DropsWithoutColumn, RenamesWithoutColumn;
    NoCommentsNoChange(s);
    var b := Body(s);
    BodyReads(b);
    if ParseBody(b).DropTable? { PairInBody(s, 0, "drop", "table"); }
    if |b| >= 4 && Begins(b, ["alter", "table"]) && IsName(b[2]) {
      AlterReads(b);
      if |b| == 6 && Is(b[3], "rename") && Is(b[4], "to") { PairInBody(s, 3, "rename", "to"); }
      if |b| >= 6 && Is(b[3], "drop") && Is(b[4], "column") { PairInBody(s, 3, "drop", "column"); }
      if |b| >= 6 && Is(b[3], "rename") && Is(b[4], "column") { PairInBody(s, 3, "rename", "column"); }
    }
    if DropsWithoutColumn(b) || RenamesWithoutColumn(b) { FormsAreAlter(b); }
  }

  lemma FormsAreAlter(b: Statement)
    requires DropsWithoutColumn(b) || RenamesWithoutColumn(b)
    ensures |b| >= 4 && Begins(b, ["alter", "table"]) && IsName(b[2])
  {
  }

  lemma {:induction false} NoCommentsNoChange(s: Statement)
    requires !HasComment(s)
    ensures WithoutComments(s) == s
  {
    if s != [] {
      assert !s[0].Comment?;
      assert forall i :: 0 <= i < |s[1..]| ==> s[1..][i] == s[i + 1];
      NoCommentsNoChange(s[1..]);
      assert s == [s[0]] + s[1..];
    }
  }

  /** The exact reach of the safety check: an accepted statement without comments loses a table or column
      if and only if it drops or renames a column without the word COLUMN. */
  lemma AcceptedLosesOnlyWithoutColumn(db: Database, s: Statement)
    requires ApplyStatement(db, s).Some? && !HasComment(s)
    ensures Extends(ApplyStatement(db, s).value, db) <==> !(DropsWithoutColumn(Body(s)) || RenamesWithoutColumn(Body(s)))
  {
    hide IsSafe, AddedColumn, Parse, Body, Extends;
    AcceptedStatementLosesIff(db, s);
    if s == [] {
      assert |Body(s)| <= |s|;
      ReadNothing();
    } else {
      UncheckedRemovals(s);
      if AddedColumn(s).Some? { SkippedIsAddition(s); }
    }
  }

  /** Adding a column twice: the repeat is skipped if and only if the pattern captures the name that
      SQLite adds, which takes a definition after the name; otherwise the repeat is an error. */
  lemma RepeatedAdditionIff(db: Database, s: Statement)
    requires Parse(s).AddColumn? && ApplyStatement(db, s).Some? && ApplyStatement(db, s) != Some(db)
    ensures var after := ApplyStatement(db, s).value;
            ApplyStatement(after, s) == if AddedColumn(s) == Some((Parse(s).table, Parse(s).column)) then Some(after) else None
  {
    hide IsSafe, AddedColumn, Parse;
    if AddedColumn(s).Some? { SkippedIsAddition(s); }
    if s == [] { ReadNothing(); }
  }

  /** An accepted addition adds its column, or finds it there, unless the pattern captures the name of
      another column that is there: then it is skipped in silence. */
  lemma AdditionTakesEffectIff(db: Database, s: Statement)
    requires Parse(s).AddColumn? && ApplyStatement(db, s).Some?
    ensures var t, c, after := Parse(s).table, Parse(s).column, ApplyStatement(db, s).value;
            && t in db.columns && t in after.columns
            && (c in after.columns[t] <==>
                  c in db.columns[t] || AddedColumn(s).None? || AddedColumn(s).value.1 !in db.columns[t])
  {
    hide IsSafe, AddedColumn, Parse;
    if AddedColumn(s).Some? { SkippedIsAddition(s); }
    if s == [] { ReadNothing(); }
  }

  /** The statement is accepted and column c of table t is gone. */
  ghost predicate LosesColumn(db: Database, s: Statement, t: string, c: string) {
    && t in db.columns && c in db.columns[t]
    && ApplyStatement(db, s).Some?
    && var after := ApplyStatement(db, s).value;
       t in after.columns && c !in after.columns[t]
  }

  /** ALTER TABLE t DROP c is accepted, and loses the column, exactly when neither name matches a pattern. */
  lemma DropWithoutColumnPasses(db: Database, s: Statement)
    requires DropsWithoutColumn(s)
    requires NameOf(s[2]) in db.columns && NameOf(s[4]) in db.columns[NameOf(s[2])] && db.columns[NameOf(s[2])] != {NameOf(s[4])}
    ensures ApplyStatement(db, s).Some? <==> TokensAreSafe(s)
    ensures TokensAreSafe(s) ==> LosesColumn(db, s, NameOf(s[2]), NameOf(s[4]))
  {
    DropIsSafe(s);
    ReadsPlainForm(s);
    hide Parse, IsSafe, AddedColumn, TokensAreSafe, NameOf, ApplyStatement, Execute, Is, IsName;
    NoAddition(db, s);
    ColumnIsGone(db, NameOf(s[2]), NameOf(s[4]), None);
  }

  lemma NoAddition(db: Database, s: Statement)
    requires s != [] && AddedColumn(s).None?
    ensures ApplyStatement(db, s) == if IsSafe(s) then Execute(db, Parse(s)) else None
  {
    hide IsSafe, AddedColumn, Parse, Execute;
  }

  lemma ColumnIsGone(db: Database, t: string, c: string, to: Option<string>)
    requires t in db.columns && c in db.columns[t] && match to case Some(x) => x !in db.columns[t] case None => db.columns[t] != {c}
    ensures var after := Execute(db, match to case Some(x) => RenameColumn(t, c, x) case None => DropColumn(t, c));
            after.Some? && t in after.value.columns && c !in after.value.columns[t]
  {
  }

  /** ALTER TABLE t RENAME a TO b is accepted, and loses column a, exactly when no name matches a pattern and
      a is not the word RENAME. */
  lemma RenameWithoutColumnPasses(db: Database, s: Statement)
    requires RenamesWithoutColumn(s)
    requires NameOf(s[2]) in db.columns && NameOf(s[4]) in db.columns[NameOf(s[2])] && NameOf(s[6]) !in db.columns[NameOf(s[2])]
    ensures ApplyStatement(db, s).Some? <==> TokensAreSafe(s) && !Is(s[4], "rename")
    ensures TokensAreSafe(s) && !Is(s[4], "rename") ==> LosesColumn(db, s, NameOf(s[2]), NameOf(s[4]))
  {
    RenameIsSafe(s);
    ReadsPlainForm(s);
    hide Parse, IsSafe, AddedColumn, TokensAreSafe, NameOf, ApplyStatement, Execute, Is, IsName;
    NoAddition(db, s);
    ColumnIsGone(db, NameOf(s[2]), NameOf(s[4]), Some(NameOf(s[6])));
  }

  lemma ReadsPlainForm(s: Statement)
    requires DropsWithoutColumn(s) || RenamesWithoutColumn(s)
    ensures Parse(s) == if |s| == 5 then DropColumn(NameOf(s[2]), NameOf(s[4])) else RenameColumn(NameOf(s[2]), NameOf(s[4]), NameOf(s[6]))
  {
    hide Parse, Lower;
    ReadAsItStands(s);
    BodyReads(s);
    OneKeyword(s[3]);
    var r := s[4..];
    assert r[0] == s[4] && (|s| == 7 ==> r[1] == s[5] && r[2] == s[6]);
  }

  /** A statement whose keywords do not pair up is safe exactly when each of its tokens is. */
  lemma SafeTokenByToken(s: Statement)
    requires forall i :: 0 <= i < |s| - 1 ==>
      && (Is(s[i], "drop") ==> !Is(s[i + 1], "table") && !Is(s[i + 1], "column") && !Is(s[i + 1], "index"))
      && (Is(s[i], "rename") ==> !Is(s[i + 1], "to") && !Is(s[i + 1], "column"))
      && (Is(s[i], "delete") ==> !Is(s[i + 1], "from"))
    ensures IsSafe(s) <==> TokensAreSafe(s)
  {
    hide Is, TokenHasPair, TokenHasWord;
    if !IsSafe(s) {
      OnlyInTokens(s, "drop", "table");
      OnlyInTokens(s, "drop", "column");
      OnlyInTokens(s, "drop", "index");
      OnlyInTokens(s, "rename", "to");
      OnlyInTokens(s, "rename", "column");
      OnlyInTokens(s, "delete", "from");
    }
  }

  lemma OnlyInTokens(s: Statement, a: string, b: string)
    requires forall i :: 0 <= i < |s| - 1 ==> !(Is(s[i], a) && Is(s[i + 1], b))
    ensures HasPair(s, a, b) ==> exists i :: 0 <= i < |s| && TokenHasPair(s[i], a, b)
  {
    hide Is, TokenHasPair;
  }

  lemma OneMeaning(t: Token, a: string, b: string)
    requires Is(t, a) && a != b
    ensures !Is(t, b) && t.Word?
  {
    hide Reserved, Lower;
  }

  lemma NotReserved(t: Token)
    requires IsName(t)
    ensures !Is(t, "table") && !Is(t, "index") && !Is(t, "drop") && !Is(t, "delete") && !Is(t, "from") && !Is(t, "to")
  {
    hide Lower;
  }

  lemma RenameIsSafe(s: Statement)
    requires RenamesWithoutColumn(s)
    ensures IsSafe(s) <==> TokensAreSafe(s) && !Is(s[4], "rename")
    ensures AddedColumn(s).None?
  {
    hide Is, IsName, TokenIsSafe, IsSafe;
    if Is(s[4], "rename") {
      RenameTo(s);
    } else {
      KeywordsOfRename(s);
      SafeTokenByToken(s);
    }
    NotAdding(s[3], "rename");
  }

  lemma NotAdding(t: Token, k: string)
    requires Is(t, k) && k != "add"
    ensures !Is(t, "add")
  {
    hide Reserved, Lower;
  }

  lemma RenameTo(s: Statement)
    requires |s| == 7 && Is(s[4], "rename") && Is(s[5], "to")
    ensures !IsSafe(s)
  {
    hide Is;
    assert HasPair(s, "rename", "to") by { assert Is(s[4], "rename") && Is(s[4 + 1], "to"); }
  }

  lemma KeywordsOfRename(s: Statement)
    requires RenamesWithoutColumn(s) && !Is(s[4], "rename")
    ensures forall i :: 0 <= i < |s| ==> !s[i].Comment? && !Is(s[i], "drop") && !Is(s[i], "delete")
    ensures forall i :: 0 <= i < |s| - 1 ==> Is(s[i], "rename") ==> !Is(s[i + 1], "to") && !Is(s[i + 1], "column")
    ensures !Is(s[3], "add")
  {
    hide Is, IsName;
    NameIsNoComment(s[2]);
    NameIsNoComment(s[4]);
    NameIsNoComment(s[6]);
    NotReserved(s[2]);
    NotReserved(s[4]);
    NotReserved(s[6]);
    Keyword(s[0], "alter");
    Keyword(s[1], "table");
    Keyword(s[3], "rename");
    Keyword(s[5], "to");
    OneMeaning(s[3], "rename", "add");
    OneMeaning(s[3], "rename", "to");
    OneMeaning(s[3], "rename", "column");
    OneMeaning(s[0], "alter", "rename");
    OneMeaning(s[1], "table", "rename");
    OneMeaning(s[5], "to", "rename");
  }

  lemma Keyword(t: Token, k: string)
    requires Is(t, k) && k != "drop" && k != "delete"
    ensures !t.Comment? && !Is(t, "drop") && !Is(t, "delete")
  {
    hide Reserved, Lower;
  }

  lemma NameIsNoComment(t: Token)
    requires IsName(t)
    ensures !t.Comment?
  {
  }

  lemma DropIsSafe(s: Statement)
    requires DropsWithoutColumn(s)
    ensures IsSafe(s) <==> TokensAreSafe(s)
    ensures AddedColumn(s).None?
  {
    hide Is, IsName, TokenIsSafe, IsSafe;
    NotReserved(s[2]);
    NotReserved(s[4]);
    NotAdding(s[3], "drop");
    NoOther(s[0], "alter");
    NoOther(s[1], "table");
    NoOther(s[3], "drop");
    OneMeaning(s[3], "drop", "to");
    OneMeaning(s[3], "drop", "column");
    SafeTokenByToken(s);
  }

  lemma NoOther(t: Token, k: string)
    requires Is(t, k) && k != "rename" && k != "delete"
    ensures !Is(t, "rename") && !Is(t, "delete") && (k != "drop" ==> !Is(t, "drop"))
  {
    hide Reserved, Lower;
  }

  /** A statement without comments and closing semicolon is read as it stands. */
  lemma ReadAsItStands(s: Statement)
    requires s != [] && !HasComment(s) && s[|s| - 1] != Symbol(';')
    ensures WithoutComments(s) == s && Body(s) == s && Parse(s) == ParseBody(s)
  {
    hide HasComment, ParseBody, WithoutComments;
    NoCommentsNoChange(s);
  }

  /** With a comment between the keywords even DROP TABLE passes. */
  lemma CommentHidesDropTable(db: Database, s: Statement)
    requires |s| == 4 && Is(s[0], "drop") && s[1] == Comment([]) && Is(s[2], "table") && IsName(s[3])
    requires NameOf(s[3]) in db.columns
    ensures ApplyStatement(db, s).Some? <==> TokensAreSafe(s)
    ensures TokensAreSafe(s) ==> NameOf(s[3]) !in ApplyStatement(db, s).value.columns
  {
    HiddenDropIsSafe(s);
    HiddenDropReads(s);
    hide IsSafe, Parse, NameOf, TokensAreSafe;
  }

  lemma NoKeyword(t: Token)
    requires t.Comment?
    ensures !Is(t, "drop") && !Is(t, "rename") && !Is(t, "delete")
    ensures !Is(t, "table") && !Is(t, "column") && !Is(t, "index")
  {
  }

  lemma HiddenDropIsSafe(s: Statement)
    requires |s| == 4 && Is(s[0], "drop") && s[1] == Comment([]) && Is(s[2], "table") && IsName(s[3])
    ensures IsSafe(s) <==> TokensAreSafe(s)
  {
    hide Is, IsName, TokenIsSafe, IsSafe;
    NoOther(s[0], "drop");
    NoOther(s[2], "table");
    NoKeyword(s[1]);
    SafeTokenByToken(s);
  }

  lemma HiddenDropReads(s: Statement)
    requires |s| == 4 && Is(s[0], "drop") && s[1] == Comment([]) && Is(s[2], "table") && IsName(s[3])
    ensures Parse(s) == DropTable(NameOf(s[3]), false)
  {
    hide Reserved, Lower;
    var tail, b := s[2..], [s[0], s[2], s[3]];
    assert s[1..][1..] == tail && tail[0] == s[2] && tail[1] == s[3];
    NoCommentsNoChange(tail);
    assert WithoutComments(s) == b;
    assert Body(b) == b;
    OneKeyword(s[0]);
    assert !Begins(b, ["alter", "table"]) by { assert ["alter", "table"][0] == "alter"; }
    assert Begins(b, ["drop", "table"]);
  }
}
