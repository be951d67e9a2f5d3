/** `workspace.toml` as a list of statements (TOML 1.0.0 without multi-line strings), and what an added
    skill path does to it. */
module SkillToml {
  import opened Collections
  import opened Options
  import opened PythonText
  import opened SkillConfig
  import opened SkillListReader
  import opened SkillListText

  // ---- Where a statement ends ----

  /** The lexer inside a statement; `Done` is behind the newline that ends it. */
  datatype Lexer = Reading(depth: int, quote: Option<char>, escaped: bool, comment: bool) | Done | Broken

  const START: Lexer := Reading(0, None, false, false)

  function Lex(st: Lexer, c: char): Lexer {
    match st
    case Done => Done
    case Broken => Broken
    case Reading(d, Some(q), e, _) =>
      if c == '\n' then Broken
      else if e then st.(escaped := false)
      else if c == '\\' && q == '"' then st.(escaped := true)
      else if c == q then st.(quote := None)
      else st
    case Reading(d, None, e, comment) =>
      if c == '\n' then (if d == 0 then Done else Reading(d, None, false, false))
      else if comment then st
      else if c == '#' then st.(comment := true)
      else if c == '"' || c == '\'' then st.(quote := Some(c))
      else if c == '[' then st.(depth := d + 1)
      else if c == ']' then (if d == 0 then Broken else st.(depth := d - 1))
      else st
  }

  /** Length of the statement at the start of `s`: to its newline or, outside brackets and quotes, to the
      end of the file. */
  function Extent(s: string, st: Lexer): Option<nat> {
    if st.Broken? then None
    else if st.Done? then Some(0)
    else if s == "" then (if st.depth == 0 && st.quote.None? then Some(0) else None)
    else Plus(1, Extent(s[1..], Lex(st, s[0])))
  }

  lemma {:induction false} ExtentInside(s: string, st: Lexer)
    ensures Extent(s, st).Some? ==> Extent(s, st).value <= |s|
    ensures s != "" && st.Reading? && Extent(s, st).Some? ==> Extent(s, st).value > 0
    decreases |s|
  {
    if s != "" && st.Reading? { ExtentInside(s[1..], Lex(st, s[0])); }
  }

  /** The file's statements. */
  function Document(s: string): Option<seq<string>>
    decreases |s|
  {
    if s == "" then Some([])
    else
      ExtentInside(s, START);
      match Extent(s, START)
      case None => None
      case Some(n) =>
        match Document(s[n..])
        case None => None
        case Some(more) => Some([s[..n]] + more)
  }

  /** The statements are the whole text, in order. */
  lemma {:induction false} DocumentIsWhole(s: string)
    requires Document(s).Some?
    ensures Flat(Document(s).value) == s
    decreases |s|
  {
    hide Extent;
    if s != "" {
      ExtentInside(s, START);
      var n := Extent(s, START).value;
      DocumentIsWhole(s[n..]);
      assert s == s[..n] + s[n..];
      assert Document(s).value[1..] == Document(s[n..]).value;
    }
  }

  function LexAll(s: string, st: Lexer): Lexer
    decreases |s|
  {
    if s == "" then st else LexAll(s[1..], Lex(st, s[0]))
  }

  lemma {:induction false} LexConcat(a: string, b: string, st: Lexer)
    ensures LexAll(a + b, st) == LexAll(b, LexAll(a, st))
    decreases |a|
  {
    if a == "" {
      assert a + b == b;
    } else {
      assert (a + b)[1..] == a[1..] + b;
      LexConcat(a[1..], b, Lex(st, a[0]));
    }
  }

  lemma {:induction false} LexStopped(s: string, st: Lexer)
    requires !st.Reading?
    ensures LexAll(s, st) == st
    decreases |s|
  {
    if s != "" { LexStopped(s[1..], st); }
  }

  /** A text that brings the lexer to the end of the statement with its last character, and not before. */
  ghost predicate IsLine(x: string) {
    x != "" && LexAll(x[..|x| - 1], START).Reading? && LexAll(x, START).Done?
  }

  lemma {:induction false} ExtentOf(a: string, b: string, st: Lexer)
    requires LexAll(a, st).Reading?
    ensures Extent(a + b, st) == Plus(|a|, Extent(b, LexAll(a, st)))
    decreases |a|
  {
    if a == "" {
      assert a + b == b;
    } else {
      assert (a + b)[1..] == a[1..] + b;
      if !Lex(st, a[0]).Reading? { LexStopped(a[1..], Lex(st, a[0])); }
      ExtentOf(a[1..], b, Lex(st, a[0]));
    }
  }

  /** A line ends in the same place whatever follows it. */
  lemma LineExtent(x: string, after: string)
    requires IsLine(x)
    ensures Extent(x + after, START) == Some(|x|)
  {
    hide Extent;
    var a, c := x[..|x| - 1], [x[|x| - 1]];
    assert x == a + c;
    assert x + after == a + (c + after);
    LexConcat(a, c, START);
    ExtentOf(a, c + after, START);
    OneMore(x[|x| - 1], after, LexAll(a, START));
  }

  lemma OneMore(c: char, after: string, st: Lexer)
    requires st.Reading? && LexAll([c], st).Done?
    ensures Extent([c] + after, st) == Some(1)
  {
    assert ([c] + after)[1..] == after && [c][1..] == "";
  }

  function Flat(lines: seq<string>): string {
    if lines == [] then "" else lines[0] + Flat(lines[1..])
  }

  ghost predicate AllLines(lines: seq<string>) {
    forall i :: 0 <= i < |lines| ==> IsLine(lines[i])
  }

  /** Complete statements are read the same whatever follows them. */
  lemma {:induction false} DocumentAfter(lines: seq<string>, rest: string)
    requires AllLines(lines)
    ensures Document(Flat(lines) + rest) ==
              match Document(rest) case None => None case Some(more) => Some(lines + more)
    decreases |lines|
  {
    hide IsLine, Extent;
    if lines == [] {
      assert Flat(lines) + rest == rest;
      assert Document(rest).Some? ==> lines + Document(rest).value == Document(rest).value;
    } else {
      var x, tail := lines[0], Flat(lines[1..]) + rest;
      assert Flat(lines) + rest == x + tail;
      assert IsLine(x);
      LineExtent(x, tail);
      NotEmpty(x);
      assert (x + tail)[..|x|] == x && (x + tail)[|x|..] == tail;
      DocumentAfter(lines[1..], rest);
      assert lines == [x] + lines[1..];
      if Document(rest).Some? { assert [x] + (lines[1..] + Document(rest).value) == lines + Document(rest).value; }
    }
  }

  lemma NotEmpty(x: string)
    requires IsLine(x)
    ensures x != ""
  {
  }

  // ---- What a statement says ----

  datatype Entry = Blank | Header | Pair(key: string, value: string) | Bad

  function TrimLeft(s: string): (r: string)
    ensures |r| <= |s|
  {
    if s != "" && (s[0] == ' ' || s[0] == '\t') then TrimLeft(s[1..]) else s
  }

  /** Nothing more on this line: its end, or a comment. */
  predicate EndsLine(s: string) {
    var t := TrimLeft(s);
    t == "" || t[0] == '\n' || (|t| >= 2 && t[0] == '\r' && t[1] == '\n') || t[0] == '#'
  }

  predicate IsBare(c: char) {
    'a' <= c <= 'z' || 'A' <= c <= 'Z' || '0' <= c <= '9' || c == '_' || c == '-' || c == '.'
  }

  function BareLength(s: string): (n: nat)
    ensures n <= |s|
  {
    if s == "" || !IsBare(s[0]) then 0 else 1 + BareLength(s[1..])
  }

  /** A bare (or dotted bare) key, a basic string or a literal string. */
  function ReadKey(s: string): Read<string> {
    if s == "" then Error
    else if s[0] == '"' then ReadString(s[1..])
    else if s[0] == '\'' then ReadLiteral(s[1..])
    else
      var n := BareLength(s);
      if n == 0 then Error else Ok(s[..n], s[n..])
  }

  function Interpret(statement: string): Entry {
    var s := TrimLeft(statement);
    if EndsLine(s) then Blank
    else if s[0] == '[' then Header
    else
      match ReadKey(s)
      case Error => Bad
      case Ok(key, rest) =>
        var t := TrimLeft(rest);
        if t != "" && t[0] == '=' then Pair(key, t[1..]) else Bad
  }

  /** A value that is a list of one-line strings. */
  function ReadList(value: string): Option<seq<string>> {
    var v := TrimLeft(value);
    if v == "" || v[0] != '[' then None
    else
      match ReadItems(v[1..])
      case Error => None
      case Ok(items, rest) => if EndsLine(rest) then Some(items) else None
  }

  predicate Readable(statement: string) {
    match Interpret(statement)
    case Bad => false
    case Pair(key, value) => key == "skills" ==> ReadList(value).Some?
    case _ => true
  }

  predicate AllReadable(statements: seq<string>) {
    statements == [] || (Readable(statements[0]) && AllReadable(statements[1..]))
  }

  /** The file parses. Values of other keys are not looked into. */
  predicate Parses(text: string) {
    match Document(text)
    case None => false
    case Some(statements) => AllReadable(statements)
  }

  /** The value of the top-level key `skills`: before any table header. */
  function TopSkills(statements: seq<string>): Option<seq<string>> {
    if statements == [] then None
    else
      match Interpret(statements[0])
      case Header => None
      case Pair(key, value) => if key == "skills" then ReadList(value) else TopSkills(statements[1..])
      case _ => TopSkills(statements[1..])
  }

  /** `tomllib.loads(text).get("skills")`, when it is a list of strings. */
  function Loads(text: string): Option<seq<string>> {
    if Parses(text) then TopSkills(Document(text).value) else None
  }

  // ---- One addition ----

  /** `add_skill_path_to_workspace_toml` with this parser: it reads the old file and checks the new one. */
  function AddPath(text: string, path: string): AddResult {
    match Loads(text)
    case None => NoWritableList
    case Some(items) =>
      match AddSkillPath(text, Skills(items), path, true)
      case Updated(updated) => AddSkillPath(text, Skills(items), path, Parses(updated))
      case other => other
  }

  /** Each outcome, exactly when it comes: no readable list or no line like it, the path listed already, no
      end of the list found, a text that does not parse; otherwise the line's list is replaced by the printed
      one, with the path behind the others. */
  lemma AdditionByOutcome(text: string, path: string)
    ensures var listed := Loads(text).Some? && path in Loads(text).value;
            var start := SkillsLineFrom(text, 0);
            var end := if start.Some? then ListEnd(text, start.value) else None;
            && (AddPath(text, path).AlreadyConfigured? <==> listed)
            && (AddPath(text, path).NoWritableList? <==> Loads(text).None? || (!listed && start.None?))
            && (AddPath(text, path).Malformed? <==> Loads(text).Some? && !listed && start.Some? && end.None?)
            && (AddPath(text, path).Updated? || AddPath(text, path).InvalidToml? <==>
                  Loads(text).Some? && !listed && end.Some?)
            && (Loads(text).Some? && !listed && end.Some? ==>
                  && start.value < end.value <= |text|
                  && var updated := text[..start.value] + RenderList(Loads(text).value + [path]) + text[end.value..];
                     AddPath(text, path) == if Parses(updated) then Updated(updated) else InvalidToml)
  {
    hide Loads, Parses, SkillsLineFrom, ListEnd, RenderList;
    var start := SkillsLineFrom(text, 0);
    if start.Some? { ListEndInside(text, start.value); }
  }

  /** No statement is a table header or the key `skills`, however it is quoted. */
  predicate BeforeSkills(statements: seq<string>) {
    forall i :: 0 <= i < |statements| ==>
      match Interpret(statements[i])
      case Header => false
      case Pair(key, _) => key != "skills"
      case _ => true
  }

  lemma {:induction false} TopSkillsOf(before: seq<string>, after: seq<string>)
    ensures TopSkills(before + after) == if BeforeSkills(before) then TopSkills(after) else TopSkills(before)
  {
    hide Interpret, ReadList;
    if before == [] {
      assert before + after == after;
    } else {
      assert (before + after)[1..] == before[1..] + after;
      TopSkillsOf(before[1..], after);
      assert forall i :: 0 <= i < |before[1..]| ==> before[1..][i] == before[i + 1];
      assert forall i :: 0 < i < |before| ==> before[i] == before[1..][i - 1];
    }
  }

  lemma {:induction false} AllReadableConcat(a: seq<string>, b: seq<string>)
    ensures AllReadable(a + b) <==> AllReadable(a) && AllReadable(b)
  {
    hide Readable;
    if a == [] {
      assert a + b == b;
    } else {
      assert (a + b)[1..] == a[1..] + b;
      AllReadableConcat(a[1..], b);
    }
  }

  // ---- The printed list as a statement ----

  lemma {:induction false} LexBody(body: string, depth: int)
    requires StaysQuoted(body, '"') && '\n' !in body
    ensures LexAll(body, Reading(depth, Some('"'), false, false)) == Reading(depth, Some('"'), false, false)
    decreases |body|
  {
    if body != "" {
      assert forall c :: c in body[1..] ==> c in body;
      assert body[0] in body;
      if body[0] == '\\' {
        assert body[1] in body && body[1..][1..] == body[2..] && forall c :: c in body[2..] ==> c in body;
        LexBody(body[2..], depth);
      } else {
        LexBody(body[1..], depth);
      }
    }
  }

  lemma EscapeHasNoNewline(c: char)
    ensures '\n' !in EscapeChar(c)
  {
    hide HexDigit;
    var n := c as int;
    if 0x1_0000 <= n {
      UnicodeEscapeHasNoNewline(0xD800 + (n - 0x1_0000) / 1024);
      UnicodeEscapeHasNoNewline(0xDC00 + (n - 0x1_0000) % 1024);
    } else if n >= 0x7F || n < 0x20 {
      UnicodeEscapeHasNoNewline(n);
    }
  }

  lemma UnicodeEscapeHasNoNewline(n: int)
    requires 0 <= n < 0x1_0000
    ensures '\n' !in UnicodeEscape(n)
  {
  }

  lemma {:induction false} EscapesHaveNoNewline(s: string)
    ensures '\n' !in EscapeAll(s)
  {
    if s != "" {
      hide EscapeChar;
      EscapeHasNoNewline(s[0]);
      EscapesHaveNoNewline(s[1..]);
    }
  }

  lemma LexItem(item: string, depth: int)
    requires depth > 0
    ensures LexAll("  " + JsonString(item) + ",\n", Reading(depth, None, false, false)) == Reading(depth, None, false, false)
  {
    hide StaysQuoted, EscapeAll;
    var st, body := Reading(depth, None, false, false), EscapeAll(item);
    var inside := Reading(depth, Some('"'), false, false);
    EscapedStaysQuoted(item);
    EscapesHaveNoNewline(item);
    LexBody(body, depth);
    assert "  " + JsonString(item) + ",\n" == "  \"" + (body + "\",\n");
    assert LexAll("  \"", st) == inside by { LexThree(' ', ' ', '"', st); }
    assert LexAll("\",\n", inside) == st by { LexThree('"', ',', '\n', inside); }
    LexConcat("  \"", body + "\",\n", st);
    LexConcat(body, "\",\n", inside);
  }

  lemma LexThree(a: char, b: char, c: char, st: Lexer)
    ensures LexAll([a, b, c], st) == Lex(Lex(Lex(st, a), b), c)
  {
    hide Lex;
    assert [a, b, c][1..] == [b, c] && [b, c][1..] == [c] && [c][1..] == "";
    assert LexAll([a, b, c], st) == LexAll([b, c], Lex(st, a));
    assert LexAll([b, c], Lex(st, a)) == LexAll([c], Lex(Lex(st, a), b));
    assert LexAll([c], Lex(Lex(st, a), b)) == LexAll("", Lex(Lex(Lex(st, a), b), c));
  }

  lemma {:induction false} LexItems(items: seq<string>, depth: int)
    requires depth > 0
    ensures LexAll(RenderItems(items), Reading(depth, None, false, false)) == Reading(depth, None, false, false)
  {
    hide LexAll, JsonString;
    var st := Reading(depth, None, false, false);
    if items == [] {
      assert LexAll("", st) == st by { LexNothing(st); }
    } else {
      LexItem(items[0], depth);
      LexItems(items[1..], depth);
      LexConcat("  " + JsonString(items[0]) + ",\n", RenderItems(items[1..]), st);
    }
  }

  lemma LexNothing(st: Lexer)
    ensures LexAll("", st) == st
  {
  }

  predicate Ordinary(s: string) {
    forall i :: 0 <= i < |s| ==> s[i] !in "\n#\"'[]"
  }

  lemma {:induction false} LexOrdinary(s: string, depth: int)
    requires Ordinary(s)
    ensures LexAll(s, Reading(depth, None, false, false)) == Reading(depth, None, false, false)
    decreases |s|
  {
    if s != "" { LexOrdinary(s[1..], depth); }
  }

  lemma LexOpening(depth: int)
    ensures LexAll("skills = [\n", Reading(depth, None, false, false)) ==
              if depth + 1 == 0 then Done else Reading(depth + 1, None, false, false)
  {
    hide LexAll;
    assert "skills = [\n" == "skills =" + " [\n";
    LexConcat("skills =", " [\n", Reading(depth, None, false, false));
    LexOrdinary("skills =", depth);
    LexThree(' ', '[', '\n', Reading(depth, None, false, false));
  }

  /** The printed list leaves the lexer where it was. */
  lemma LexPrinted(items: seq<string>, depth: int)
    requires depth >= 0
    ensures LexAll(RenderList(items), Reading(depth, None, false, false)) == Reading(depth, None, false, false)
  {
    hide LexAll, RenderItems;
    var st := Reading(depth, None, false, false);
    LexOpening(depth);
    assert RenderList(items) == "skills = [\n" + (RenderItems(items) + "]");
    LexConcat("skills = [\n", RenderItems(items) + "]", st);
    LexRestOfList(items, depth + 1);
  }

  lemma LexRestOfList(items: seq<string>, depth: int)
    requires depth > 0
    ensures LexAll(RenderItems(items) + "]", Reading(depth, None, false, false)) == Reading(depth - 1, None, false, false)
  {
    hide LexAll, RenderItems;
    LexItems(items, depth);
    LexConcat(RenderItems(items), "]", Reading(depth, None, false, false));
    LexOne(']', Reading(depth, None, false, false));
  }

  /** `x` is one whole statement in front of `rest`: it ends with its newline, or with the file. */
  ghost predicate IsStatement(x: string, rest: string) {
    IsLine(x) || (x != "" && rest == "" && LexAll(x, START).Reading? && LexAll(x, START).depth == 0 && LexAll(x, START).quote.None?)
  }

  lemma StatementFirst(x: string, rest: string)
    requires IsStatement(x, rest)
    ensures Document(x + rest) == match Document(rest) case None => None case Some(more) => Some([x] + more)
  {
    hide Extent, LexAll;
    if IsLine(x) {
      LineExtent(x, rest);
    } else {
      assert x + "" == x;
      ExtentOf(x, "", START);
      assert Extent("", LexAll(x, START)) == Some(0) by { NothingLeft(LexAll(x, START)); }
    }
    assert Extent(x + rest, START) == Some(|x|);
    assert (x + rest)[..|x|] == x && (x + rest)[|x|..] == rest;
  }

  lemma NothingLeft(st: Lexer)
    requires st.Reading? && st.depth == 0 && st.quote.None?
    ensures Extent("", st) == Some(0)
  {
  }

  /** What follows the list on its line: nothing or a comment, to the end of the line or of the file. */
  ghost predicate IsLineRest(tail: string, rest: string) {
    && EndsLine(tail)
    && (IsLine(tail) || (rest == "" && LexAll(tail, START).Reading? && LexAll(tail, START).depth == 0 && LexAll(tail, START).quote.None?))
  }

  lemma PrintedIsStatement(items: seq<string>, tail: string, rest: string)
    requires IsLineRest(tail, rest)
    ensures IsStatement(RenderList(items) + tail, rest)
  {
    hide LexAll, RenderItems, EndsLine;
    var x := RenderList(items) + tail;
    LexPrinted(items, 0);
    LexConcat(RenderList(items), tail, START);
    if IsLine(tail) {
      LexConcat(RenderList(items), tail[..|tail| - 1], START);
      assert x[..|x| - 1] == RenderList(items) + tail[..|tail| - 1];
    }
  }

  lemma PrintedKey(value: string)
    ensures Interpret("skills =" + value) == Pair("skills", value)
  {
    assert "skills =" + value == "skills" + (" =" + value);
    BareKeyReads("skills", value);
  }

  lemma BareKeyReads(key: string, value: string)
    requires key != "" && forall i :: 0 <= i < |key| ==> IsBare(key[i])
    ensures Interpret(key + (" =" + value)) == Pair(key, value)
  {
    hide BareLength;
    var s := key + (" =" + value);
    assert s[0] == key[0];
    BareRun(key, " =" + value);
    assert s[..|key|] == key && s[|key|..] == " =" + value;
    assert (" =" + value)[1..] == "=" + value && ("=" + value)[1..] == value;
    assert TrimLeft("=" + value) == "=" + value;
    assert TrimLeft(" =" + value) == "=" + value;
    assert TrimLeft(s) == s;
  }

  lemma {:induction false} BareRun(key: string, rest: string)
    requires (forall i :: 0 <= i < |key| ==> IsBare(key[i])) && (rest == "" || !IsBare(rest[0]))
    ensures BareLength(key + rest) == |key|
    decreases |key|
  {
    if key == "" {
      assert key + rest == rest;
    } else {
      assert (key + rest)[1..] == key[1..] + rest;
      BareRun(key[1..], rest);
    }
  }

  /** The printed list reads as the key `skills` with the same list, exactly within the plane. */
  lemma PrintedReads(items: seq<string>, tail: string)
    requires EndsLine(tail)
    ensures var value := " [\n" + (RenderItems(items) + ("]" + tail));
            && Interpret(RenderList(items) + tail) == Pair("skills", value)
            && ReadList(value) == if AllInBasicPlane(items) then Some(items) else None
  {
    hide Interpret, ReadItems, RenderItems, EndsLine, AllInBasicPlane;
    var body := RenderItems(items) + ("]" + tail);
    var value := " [\n" + body;
    assert RenderList(items) + tail == "skills =" + value;
    PrintedKey(value);
    assert value[1..] == "[\n" + body && ("[\n" + body)[1..] == "\n" + body;
    assert TrimLeft("[\n" + body) == "[\n" + body;
    assert TrimLeft(value) == "[\n" + body;
    SkipNewline(body);
    ReadUndoesPrint(items, tail);
  }

  /** A file whose list this code printed: how it parses, and what its top-level list is. */
  lemma FileWithList(lines: seq<string>, items: seq<string>, tail: string, rest: string)
    requires AllLines(lines) && IsLineRest(tail, rest) && Document(rest).Some?
    ensures var text := WithList(Flat(lines), items, tail + rest);
            && Document(text) == Some(lines + ([RenderList(items) + tail] + Document(rest).value))
            && (Parses(text) ==> Loads(text) == if BeforeSkills(lines) then Some(items) else TopSkills(lines))
            && (Parses(text) <==> AllReadable(lines) && AllInBasicPlane(items) && AllReadable(Document(rest).value))
  {
    hide *;
    var text, x, post := WithList(Flat(lines), items, tail + rest), RenderList(items) + tail, Document(rest).value;
    DocumentWithList(lines, items, tail, rest);
    ListStatement(items, tail, rest);
    AllReadableConcat(lines, [x] + post);
    SkillsFirst(x, post);
    TopSkillsOf(lines, [x] + post);
    ReadingOf(text, lines + ([x] + post));
  }

  lemma DocumentWithList(lines: seq<string>, items: seq<string>, tail: string, rest: string)
    requires AllLines(lines) && IsLineRest(tail, rest) && Document(rest).Some?
    ensures Document(WithList(Flat(lines), items, tail + rest)) == Some(lines + ([RenderList(items) + tail] + Document(rest).value))
  {
    hide *;
    var x := RenderList(items) + tail;
    PrintedIsStatement(items, tail, rest);
    StatementFirst(x, rest);
    WithListParts(Flat(lines), items, tail, rest);
    DocumentAfter(lines, x + rest);
  }

  lemma WithListParts(before: string, items: seq<string>, tail: string, rest: string)
    ensures WithList(before, items, tail + rest) == before + ((RenderList(items) + tail) + rest)
  {
    hide RenderList;
  }

  lemma ListStatement(items: seq<string>, tail: string, rest: string)
    requires IsLineRest(tail, rest)
    ensures var e := Interpret(RenderList(items) + tail);
            && e.Pair? && e.key == "skills"
            && ReadList(e.value) == if AllInBasicPlane(items) then Some(items) else None
  {
    hide RenderList, Interpret, ReadList, AllInBasicPlane, EndsLine, LexAll;
    PrintedReads(items, tail);
  }

  lemma ReadingOf(text: string, all: seq<string>)
    requires Document(text) == Some(all)
    ensures Parses(text) <==> AllReadable(all)
    ensures Parses(text) ==> Loads(text) == TopSkills(all)
  {
    hide Document, AllReadable, TopSkills;
  }

  lemma SkillsFirst(x: string, post: seq<string>)
    requires Interpret(x).Pair? && Interpret(x).key == "skills"
    ensures AllReadable([x] + post) <==> ReadList(Interpret(x).value).Some? && AllReadable(post)
    ensures TopSkills([x] + post) == ReadList(Interpret(x).value)
  {
    hide Interpret, ReadList;
    assert ([x] + post)[1..] == post;
  }

  /** One addition, on every file whose skills line starts a statement: it succeeds if and only if all
      strings of the new list lie in the Basic Multilingual Plane (and the rest of the file parses); then
      only that statement has changed, and the top-level list has gained the path if and only if neither
      a table header nor the key `skills` stands before that line. */
  lemma AdditionListsPathIff(lines: seq<string>, list: string, tail: string, rest: string, items: seq<string>, path: string)
    requires AllLines(lines) && IsLineRest(tail, rest) && Document(rest).Some?
    requires var original := Flat(lines) + (list + (tail + rest));
             && SkillsLineFrom(original, 0) == Some(|Flat(lines)|)
             && ListEnd(original, |Flat(lines)|) == Some(|Flat(lines)| + |list|)
             && Loads(original) == Some(items) && path !in items
    ensures var result := AddPath(Flat(lines) + (list + (tail + rest)), path);
            var text, post := WithList(Flat(lines), items + [path], tail + rest), Document(rest).value;
            && result == (if AllInBasicPlane(items + [path]) && AllReadable(post) then Updated(text) else InvalidToml)
            && Document(text) == Some(lines + ([RenderList(items + [path]) + tail] + post))
            && (result.Updated? ==> Loads(text) == Some(if BeforeSkills(lines) then items + [path] else items))
    ensures IsStatement(list + tail, rest) ==>
              Document(Flat(lines) + (list + (tail + rest))) == Some(lines + ([list + tail] + Document(rest).value))
  {
    hide RenderList, IsLine, Interpret, AllInBasicPlane, EndsLine, LexAll, Document, BeforeSkills, ListEnd, SkillsLineFrom,
      TopSkills, AllReadable, IsStatement;
    var original := Flat(lines) + (list + (tail + rest));
    var before := Flat(lines);
    assert original[..|before|] == before && original[|before| + |list|..] == tail + rest;
    FileWithList(lines, items + [path], tail, rest);
    DocumentAfter(lines, list + (tail + rest));
    var was := Document(list + (tail + rest)).value;
    AllReadableConcat(lines, was);
    TopSkillsOf(lines, was);
    if IsStatement(list + tail, rest) {
      StatementFirst(list + tail, rest);
      assert list + tail + rest == list + (tail + rest);
    }
  }

  // ---- Repeated additions ----

  /** Adding one path after another, until one is refused: the text, and how many were added. */
  function AddEach(text: string, paths: seq<string>): (string, nat)
    decreases |paths|
  {
    if paths == [] then (text, 0)
    else
      match AddPath(text, paths[0])
      case Updated(t) => var (last, n) := AddEach(t, paths[1..]); (last, n + 1)
      case _ => (text, 0)
  }

  /** How many paths come before the first one outside the Basic Multilingual Plane. */
  function PlanePrefix(paths: seq<string>): (n: nat)
    ensures n <= |paths|
  {
    if paths == [] || !InBasicPlane(paths[0]) then 0 else 1 + PlanePrefix(paths[1..])
  }

  lemma {:induction false} PlaneConcat(a: seq<string>, b: seq<string>)
    ensures AllInBasicPlane(a + b) <==> AllInBasicPlane(a) && AllInBasicPlane(b)
  {
    hide InBasicPlane;
    if a == [] {
      assert a + b == b;
    } else {
      assert (a + b)[1..] == a[1..] + b;
      PlaneConcat(a[1..], b);
    }
  }

  lemma {:induction false} WholePrefixIff(paths: seq<string>)
    ensures PlanePrefix(paths) == |paths| <==> AllInBasicPlane(paths)
  {
    hide InBasicPlane;
    if paths != [] { WholePrefixIff(paths[1..]); }
  }

  /** A file with a printed top-level list, and where its parts lie. */
  ghost predicate IsListFile(lines: seq<string>, items: seq<string>, tail: string, rest: string) {
    && AllLines(lines) && AllReadable(lines) && BeforeSkills(lines)
    && IsLineRest(tail, rest) && Document(rest).Some? && AllReadable(Document(rest).value)
    && SkillsLineFrom(WithList(Flat(lines), items, tail + rest), 0) == Some(|Flat(lines)|)
  }

  /** One addition to such a file. */
  lemma AddToListFile(lines: seq<string>, items: seq<string>, tail: string, rest: string, path: string)
    requires IsListFile(lines, items, tail, rest) && path !in items
    ensures var text := WithList(Flat(lines), items, tail + rest);
            && (AllInBasicPlane(items) ==> Loads(text) == Some(items))
            && (AddPath(text, path) == Updated(WithList(Flat(lines), items + [path], tail + rest))
                <==> AllInBasicPlane(items) && InBasicPlane(path))
            && (AddPath(text, path).Updated? ==> AllInBasicPlane(items) && InBasicPlane(path))
    ensures IsListFile(lines, items + [path], tail, rest)
  {
    hide RenderList, AllLines, IsLineRest, Interpret, InBasicPlane, Document, BeforeSkills, ListEnd, SkillsLineFrom, AllReadable, AddPath;
    var before, after := Flat(lines), tail + rest;
    var text := WithList(before, items, after);
    ListFileLoads(lines, items, tail, rest);
    PlaneConcat(items, [path]);
    OneInPlane(path);
    PrintedSplits(before, items, after);
    PrintedListIsFound(text, before, items, after);
    PrintedListIsFound(text, before, items + [path], after);
    if AllInBasicPlane(items) {
      AdditionListsPathIff(lines, RenderList(items), tail, rest, items, path);
    } else {
      NothingLoaded(text, path);
    }
  }

  lemma OneInPlane(path: string)
    ensures AllInBasicPlane([path]) <==> InBasicPlane(path)
  {
    assert [path][1..] == [];
  }

  lemma NothingLoaded(text: string, path: string)
    requires Loads(text).None?
    ensures AddPath(text, path) == NoWritableList
  {
  }

  lemma PrintedSplits(before: string, items: seq<string>, after: string)
    ensures WithList(before, items, after) == before + (RenderList(items) + after)
    ensures |before| < |WithList(before, items, after)| && WithList(before, items, after)[..|before|] == before
  {
    hide RenderItems;
  }

  lemma ListFileLoads(lines: seq<string>, items: seq<string>, tail: string, rest: string)
    requires IsListFile(lines, items, tail, rest)
    ensures Loads(WithList(Flat(lines), items, tail + rest)) == if AllInBasicPlane(items) then Some(items) else None
  {
    hide RenderList, AllLines, IsLineRest, Interpret, AllInBasicPlane, Document, BeforeSkills, SkillsLineFrom, AllReadable;
    FileWithList(lines, items, tail, rest);
  }

  /** Any sequence of distinct additions stops at the first path outside the Basic Multilingual Plane, and
      only there: up to it the paths are appended in order, all other text stays, and the list reads back. */
  lemma {:induction false} RepeatedAdditions(lines: seq<string>, items: seq<string>, tail: string, rest: string, paths: seq<string>)
    requires IsListFile(lines, items, tail, rest) && Distinct(items + paths)
    ensures var k := if AllInBasicPlane(items) then PlanePrefix(paths) else 0;
            var text := WithList(Flat(lines), items + paths[..k], tail + rest);
            && AddEach(WithList(Flat(lines), items, tail + rest), paths) == (text, k)
            && (AllInBasicPlane(items) ==> Loads(text) == Some(items + paths[..k]))
            && (k == |paths| <==> paths == [] || AllInBasicPlane(items + paths))
    decreases |paths|
  {
    hide IsListFile, Loads, AddPath, InBasicPlane, AllInBasicPlane, WithList, Flat;
    PlaneConcat(items, paths);
    WholePrefixIff(paths);
    ListFileLoads(lines, items, tail, rest);
    assert items + paths[..0] == items;
    if paths != [] {
      var p := paths[0];
      FreshPath(items, paths);
      AddToListFile(lines, items, tail, rest, p);
      PlaneConcat(items, [p]);
      OneInPlane(p);
      if AllInBasicPlane(items) && InBasicPlane(p) {
        var k := PlanePrefix(paths[1..]);
        assert items + [p] + paths[1..] == items + paths;
        RepeatedAdditions(lines, items + [p], tail, rest, paths[1..]);
        assert items + [p] + paths[1..][..k] == items + paths[..k + 1];
      }
    }
  }

  lemma FreshPath(items: seq<string>, paths: seq<string>)
    requires Distinct(items + paths) && paths != []
    ensures paths[0] !in items
  {
    assert forall i :: 0 <= i < |items| ==> (items + paths)[i] == items[i];
    assert (items + paths)[|items|] == paths[0];
  }

  // ---- A file whose top-level list is not the one that is edited ----

  const QUOTED_KEY: string := "\"skills\" = []\n"
  const TABLE: string := "[t]\n"

  lemma QuotedKeyLine()
    ensures IsLine(QUOTED_KEY)
    ensures Interpret(QUOTED_KEY) == Pair("skills", " []\n") && ReadList(" []\n") == Some([])
  {
    hide LexAll, Interpret, ReadList;
    QuotedKeyReads();
    var front := "\"" + ("skills" + ("\" =" + " []"));
    QuotedKeyLexes();
    LexConcat(front, "\n", START);
    LexOne('\n', START);
    assert QUOTED_KEY == front + "\n" && QUOTED_KEY[..|QUOTED_KEY| - 1] == front;
  }

  lemma QuotedKeyLexes()
    ensures LexAll("\"" + ("skills" + ("\" =" + " []")), START) == START
  {
    hide LexAll;
    var st := Reading(0, Some('"'), false, false);
    LexOne('"', START);
    LexQuotedWord("skills");
    LexThree('"', ' ', '=', st);
    LexThree(' ', '[', ']', START);
    LexConcat("\" =", " []", st);
    LexConcat("skills", "\" =" + " []", st);
    LexConcat("\"", "skills" + ("\" =" + " []"), START);
  }

  lemma LexOne(c: char, st: Lexer)
    ensures LexAll([c], st) == Lex(st, c)
  {
    assert [c][1..] == "";
  }

  lemma {:induction false} LexQuotedWord(s: string)
    requires forall i :: 0 <= i < |s| ==> s[i] !in "\n\\\""
    ensures LexAll(s, Reading(0, Some('"'), false, false)) == Reading(0, Some('"'), false, false)
    decreases |s|
  {
    if s != "" { LexQuotedWord(s[1..]); }
  }

  lemma {:induction false} ReadPlainString(s: string, rest: string)
    requires forall i :: 0 <= i < |s| ==> 'a' <= s[i] <= 'z'
    ensures ReadString(s + ("\"" + rest)) == Ok(s, rest)
    decreases |s|
  {
    var tail := "\"" + rest;
    if s == "" {
      assert s + tail == tail && tail[1..] == rest;
    } else {
      assert (s + tail)[1..] == s[1..] + tail;
      ReadPlainString(s[1..], rest);
      assert s == [s[0]] + s[1..];
    }
  }

  lemma QuotedKeyReads()
    ensures Interpret(QUOTED_KEY) == Pair("skills", " []\n") && ReadList(" []\n") == Some([])
  {
    hide ReadString, ReadList;
    EmptyListReads();
    var s := QUOTED_KEY;
    assert s[1..] == "skills" + ("\"" + " = []\n");
    ReadPlainString("skills", " = []\n");
    assert " = []\n"[1..] == "= []\n" && "= []\n"[1..] == " []\n";
    assert TrimLeft("= []\n") == "= []\n";
    assert TrimLeft(" = []\n") == "= []\n";
  }

  lemma EmptyListReads()
    ensures ReadList(" []\n") == Some([])
  {
    assert " []\n"[1..] == "[]\n" && "[]\n"[1..] == "]\n" && "]\n"[1..] == "\n";
    assert TrimLeft("[]\n") == "[]\n";
    assert TrimLeft(" []\n") == "[]\n";
  }

  lemma TableLine()
    ensures IsLine(TABLE) && Interpret(TABLE) == Header
  {
    assert TABLE[..3] == "[t]" && TABLE == "[t]" + "\n";
    LexThree('[', 't', ']', START);
    LexConcat("[t]", "\n", START);
    LexOne('\n', START);
  }

  lemma NewlineRest()
    ensures IsLineRest("\n", "") && Document("") == Some([])
  {
    LexOne('\n', START);
    LexNothing(START);
    assert "\n"[..0] == "";
  }

  lemma NotSkillsLines()
    ensures !IsSkillsLine(QUOTED_KEY) && !IsSkillsLine(TABLE)
  {
    hide IsSkillsLine;
    assert QUOTED_KEY[0] == '"' && TABLE[0] == '[';
    OtherFirst(QUOTED_KEY);
    OtherFirst(TABLE);
  }

  /** A skills line starts with the first letter of the word, blanks apart. */
  lemma OtherFirst(line: string)
    requires line != "" && !IsSpace(line[0]) && line[0] != 's'
    ensures !IsSkillsLine(line)
  {
    assert "skills"[0] == 's';
    if |line| >= 6 { assert line[..6][0] == line[0]; }
  }

  /** The first skills line of the file is the one behind the two others. */
  lemma EditedLine(items: seq<string>, after: string)
    ensures var c := WithList(QUOTED_KEY + TABLE, items, after);
            SkillsLineFrom(c, 0) == Some(|QUOTED_KEY + TABLE|)
  {
    hide RenderItems, IsSkillsLine, LineEnd;
    var before := QUOTED_KEY + TABLE;
    var c, n := WithList(before, items, after), |before|;
    var m := |QUOTED_KEY|;
    assert |RenderList(items)| >= 11;
    assert forall k :: 0 <= k < 11 ==> c[n + k] == "skills = [\n"[k];
    assert forall k :: 0 <= k < n ==> c[k] == before[k];
    PrintedLineEnd(c, 0, m);
    PrintedLineEnd(c, m, n);
    PrintedLineEnd(c, n, n + 11);
    assert c[0..m] == QUOTED_KEY && c[m..n] == TABLE && c[n..n + 11] == "skills = [\n";
    NotSkillsLines();
    PrintedLineIsSkillsLine();
    assert SkillsLineFrom(c, n) == Some(n);
    assert SkillsLineFrom(c, m) == Some(n);
  }

  /** A quoted top-level key and a table with its own `skills`: the addition succeeds, the file is valid,
      the top-level list is as empty as before, and the table's list has lost its items to the path. */
  lemma AdditionCanMissTheList(items: seq<string>, path: string)
    requires AllInBasicPlane(items) && InBasicPlane(path)
    ensures var original := WithList(QUOTED_KEY + TABLE, items, "\n");
            && Loads(original) == Some([])
            && AddPath(original, path) == Updated(WithList(QUOTED_KEY + TABLE, [path], "\n"))
            && Loads(AddPath(original, path).text) == Some([])
  {
    hide RenderList, LexAll, Interpret, ReadList, IsLineRest, IsLine, InBasicPlane, SkillsLineFrom, ListEnd, Document;
    var lines := [QUOTED_KEY, TABLE];
    var before := QUOTED_KEY + TABLE;
    var original := WithList(before, items, "\n");
    QuotedKeyLine();
    TableLine();
    NewlineRest();
    TwoLines();
    assert "\n" + "" == "\n";
    FileWithList(lines, items, "\n", "");
    assert lines[0] == QUOTED_KEY;
    EditedLine(items, "\n");
    ScanUndoesPrint(before, items, "\n");
    assert original == before + (RenderList(items) + "\n");
    assert [] + [path] == [path];
    OneInPlane(path);
    AdditionListsPathIff(lines, RenderList(items), "\n", "", [], path);
  }

  lemma TwoLines()
    requires Readable(QUOTED_KEY) && Readable(TABLE) && Interpret(QUOTED_KEY) == Pair("skills", " []\n")
    ensures Flat([QUOTED_KEY, TABLE]) == QUOTED_KEY + TABLE
    ensures AllReadable([QUOTED_KEY, TABLE]) && TopSkills([QUOTED_KEY, TABLE]) == ReadList(" []\n")
  {
    hide Readable, Interpret, ReadList;
    assert [QUOTED_KEY, TABLE][1..] == [TABLE] && [TABLE][1..] == [];
    assert Flat([TABLE]) == TABLE;
    assert AllReadable([TABLE]);
  }
}
