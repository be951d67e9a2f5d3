/** Files whose first line that looks like `skills =` does not start a statement. */
module SkillEditCases {
  import opened Options
  import opened PythonText
  import opened SkillConfig
  import opened SkillListReader
  import opened SkillListText
  import opened SkillReading
  import opened SkillToml

  /** `str.splitlines` breaks a line at U+2028; TOML does not, so what follows is still in the comment. */
  const OTHER_LIST: string := "a = [#\U{2028}"
  const QUOTED_LIST: string := "\"skills\" = [#\U{2028}"

  // ---- The two beginnings ----

  lemma OtherListLexes()
    ensures LexAll(OTHER_LIST, START) == Reading(1, None, false, true)
  {
    hide LexAll;
    assert OTHER_LIST == "a =" + " [#" + "\U{2028}";
    LexThree('a', ' ', '=', START);
    LexThree(' ', '[', '#', START);
    LexOne('\U{2028}', Reading(1, None, false, true));
    LexConcat("a =", " [#", START);
    LexConcat("a =" + " [#", "\U{2028}", START);
  }

  lemma QuotedListLexes()
    ensures LexAll(QUOTED_LIST, START) == Reading(1, None, false, true)
  {
    hide LexAll;
    var inside := Reading(0, Some('"'), false, false);
    var back := "\" =" + " [#";
    assert QUOTED_LIST == "\"" + ("skills" + back) + "\U{2028}";
    LexOne('"', START);
    LexQuotedWord("skills");
    LexThree('"', ' ', '=', inside);
    LexThree(' ', '[', '#', START);
    LexOne('\U{2028}', Reading(1, None, false, true));
    LexConcat("\" =", " [#", inside);
    LexConcat("skills", back, inside);
    LexConcat("\"", "skills" + back, START);
    LexConcat("\"" + ("skills" + back), "\U{2028}", START);
  }

  lemma OtherListKey(y: string)
    ensures Interpret(OTHER_LIST + y) == Pair("a", " [#\U{2028}" + y)
  {
    var value := " [#\U{2028}" + y;
    assert OTHER_LIST + y == "a" + (" =" + value);
    BareKeyReads("a", value);
  }

  lemma QuotedListKey(y: string)
    ensures Interpret(QUOTED_LIST + y) == Pair("skills", " [#\U{2028}" + y)
  {
    hide ReadString;
    var x := QUOTED_LIST + y;
    var value := " [#\U{2028}" + y;
    assert x[1..] == "skills" + ("\"" + (" =" + value));
    ReadPlainString("skills", " =" + value);
    assert (" =" + value)[1..] == "=" + value && ("=" + value)[1..] == value;
    assert TrimLeft("=" + value) == "=" + value;
    assert TrimLeft(" =" + value) == "=" + value;
    assert TrimLeft(x) == x;
  }

  lemma {:induction false} BreakLineEnd(c: string, i: nat, j: nat)
    requires i < j <= |c| && c[j - 1] == '\U{2028}' && forall k :: i <= k < j - 1 ==> c[k] !in LINE_BREAKS
    ensures LineEnd(c, i) == j
    decreases j - i
  {
    if i + 1 < j { BreakLineEnd(c, i + 1, j); }
  }

  /** Behind either beginning the rest is the first skills line. */
  lemma SkillsLineBehind(front: string, y: string)
    requires (front == OTHER_LIST || front == QUOTED_LIST) && |y| >= 10 && y[..10] == "skills = ["
    ensures SkillsLineFrom(front + y, 0) == Some(|front|)
  {
    hide IsSkillsLine, LineEnd;
    var c, n := front + y, |front|;
    assert forall k :: 0 <= k < n ==> c[k] == front[k];
    BreakLineEnd(c, 0, n);
    assert c[0..n] == front;
    FrontIsNoSkillsLine(front);
    SkillsLineStarts(c, n);
  }

  lemma FrontIsNoSkillsLine(front: string)
    requires front == OTHER_LIST || front == QUOTED_LIST
    ensures !IsSkillsLine(front)
  {
    hide IsSkillsLine;
    assert front[0] == 'a' || front[0] == '"';
    OtherFirst(front);
  }

  lemma SkillsLineStarts(c: string, n: nat)
    requires n + 10 <= |c| && c[n..n + 10] == "skills = ["
    ensures IsSkillsLine(c[n..LineEnd(c, n)])
  {
    hide LineEnd, IsSkillsLine;
    var word := "skills = [";
    forall k | n <= k < n + 10 ensures c[k] !in LINE_BREAKS { assert c[k] == c[n..n + 10][k - n] == word[k - n]; }
    LineIsLong(c, n, 10);
    var line := c[n..LineEnd(c, n)];
    assert line[..10] == word by { assert line[..10] == c[n..n + 10]; }
    assert line == "skills" + (" " + ("=" + line[8..])) by {
      assert line == line[..10][..6] + (line[..10][6..7] + (line[..10][7..8] + line[8..]));
    }
    IsOne(line, line[8..]);
  }

  lemma IsOne(line: string, more: string)
    requires line == "skills" + (" " + ("=" + more))
    ensures IsSkillsLine(line)
  {
    hide LStrip;
    LStripOf("", line);
    assert "" + line == line;
    assert line[..6] == "skills" && line[6..] == " " + ("=" + more);
    LStripOf(" ", "=" + more);
  }

  lemma {:induction false} LineIsLong(c: string, n: nat, m: nat)
    requires 0 < m && n + m <= |c| && forall k :: n <= k < n + m ==> c[k] !in LINE_BREAKS
    ensures LineEnd(c, n) >= n + m
    decreases m
  {
    if m > 1 { LineIsLong(c, n + 1, m - 1); }
  }

  // ---- A statement of another key ----

  lemma OtherStatement(items: seq<string>, t: string)
    requires LexAll(t, START).Done? && t != "" && LexAll(t[..|t| - 1], START).Reading?
    ensures IsLine(OTHER_LIST + RenderList(items) + t) && Readable(OTHER_LIST + RenderList(items) + t)
    ensures BeforeSkills([OTHER_LIST + RenderList(items) + t])
  {
    hide *;
    var front := OTHER_LIST + RenderList(items);
    OtherListLexes();
    LexConcat(OTHER_LIST, RenderList(items), START);
    CommentedList(items);
    EndedLine(front, t);
    assert front + t == OTHER_LIST + (RenderList(items) + t);
    OtherReadable(RenderList(items) + t);
  }

  lemma EndedLine(front: string, t: string)
    requires LexAll(front, START) == START
    requires LexAll(t, START).Done? && t != "" && LexAll(t[..|t| - 1], START).Reading?
    ensures IsLine(front + t)
  {
    hide LexAll;
    LexConcat(front, t, START);
    LexConcat(front, t[..|t| - 1], START);
    assert (front + t)[..|front + t| - 1] == front + t[..|t| - 1];
  }

  lemma OtherReadable(y: string)
    ensures Readable(OTHER_LIST + y) && BeforeSkills([OTHER_LIST + y])
  {
    hide Interpret;
    OtherListKey(y);
  }

  lemma CommentedList(items: seq<string>)
    ensures LexAll(RenderList(items), Reading(1, None, false, true)) == START
  {
    hide LexAll, RenderItems, RenderList;
    var st := Reading(1, None, false, true);
    var more := RenderItems(items) + "]";
    assert RenderList(items) == "skills = [" + ("\n" + more) by { hide *; ListSpelled(items); }
    LexCommented("skills = [");
    LexConcat("skills = [", "\n" + more, st);
    LexConcat("\n", more, st);
    LexOne('\n', st);
    LexRestOfList(items, 1);
  }

  lemma ListSpelled(items: seq<string>)
    ensures RenderList(items) == "skills = [" + ("\n" + (RenderItems(items) + "]"))
  {
    hide RenderItems;
  }

  lemma {:induction false} LexCommented(s: string)
    requires '\n' !in s
    ensures LexAll(s, Reading(1, None, false, true)) == Reading(1, None, false, true)
    decreases |s|
  {
    if s != "" {
      assert s[0] in s && forall c :: c in s[1..] ==> c in s;
      LexCommented(s[1..]);
    }
  }

  function TwoLists(inner: seq<string>, items: seq<string>): string {
    OTHER_LIST + RenderList(inner) + "\n" + (RenderList(items) + "\n")
  }

  lemma TwoListsLoad(inner: seq<string>, items: seq<string>)
    requires AllInBasicPlane(items)
    ensures Parses(TwoLists(inner, items)) && Loads(TwoLists(inner, items)) == Some(items)
  {
    hide RenderList, LexAll, AllInBasicPlane, Interpret, Document, IsLine, IsLineRest;
    var x := OTHER_LIST + RenderList(inner) + "\n";
    LexOne('\n', START);
    assert "\n"[..0] == "";
    LexNothing(START);
    OtherStatement(inner, "\n");
    NewlineRest();
    FlatOne(x);
    assert AllReadable([x]) by { assert [x][1..] == []; }
    assert "\n" + "" == "\n";
    FileWithList([x], items, "\n", "");
    assert WithList(x, items, "\n") == TwoLists(inner, items);
  }

  lemma FlatOne(x: string)
    ensures Flat([x]) == x
  {
    assert [x][1..] == [];
  }

  /** The list of another key, opened before such a break: the addition succeeds, goes into that list and
      overwrites it, and the top-level list stays, with no header and no key `skills` before the line. */
  lemma AdditionCanMissBehindBreak(inner: seq<string>, items: seq<string>, path: string)
    requires AllInBasicPlane(inner) && AllInBasicPlane(items) && InBasicPlane(path) && path !in items
    ensures var original := TwoLists(inner, items);
            && Loads(original) == Some(items)
            && AddPath(original, path) == Updated(TwoLists(items + [path], items))
            && Loads(TwoLists(items + [path], items)) == Some(items)
  {
    hide RenderList, SkillsLineFrom, ListEnd, AllInBasicPlane, Loads, Parses;
    var after := "\n" + (RenderList(items) + "\n");
    TwoListsLoad(inner, items);
    TwoListsLoad(items + [path], items);
    CutBehind(OTHER_LIST, inner, after);
    assert TwoLists(inner, items) == OTHER_LIST + (RenderList(inner) + after);
    assert TwoLists(items + [path], items) == OTHER_LIST + RenderList(items + [path]) + after;
    AdditionBehind(OTHER_LIST, inner, after, items, path);
  }

  lemma CutBehind(front: string, list: seq<string>, after: string)
    requires front == OTHER_LIST || front == QUOTED_LIST
    ensures var s := front + (RenderList(list) + after);
            SkillsLineFrom(s, 0) == Some(|front|) && ListEnd(s, |front|) == Some(|front| + |RenderList(list)|)
  {
    hide RenderItems, SkillsLineFrom, ListEnd, Scan;
    ListSpelled(list);
    var y := RenderList(list) + after;
    assert y[..10] == "skills = [";
    SkillsLineBehind(front, y);
    ScanUndoesPrint(front, list, after);
    assert front + y == front + RenderList(list) + after;
  }

  lemma AdditionBehind(front: string, list: seq<string>, after: string, items: seq<string>, path: string)
    requires var s := front + (RenderList(list) + after);
             && SkillsLineFrom(s, 0) == Some(|front|) && ListEnd(s, |front|) == Some(|front| + |RenderList(list)|)
             && Loads(s) == Some(items)
    requires path !in items && Parses(front + RenderList(items + [path]) + after)
    ensures AddPath(front + (RenderList(list) + after), path) == Updated(front + RenderList(items + [path]) + after)
  {
    hide RenderList, SkillsLineFrom, ListEnd, Loads, Parses;
    var s := front + (RenderList(list) + after);
    assert s[..|front|] == front && s[|front| + |RenderList(list)|..] == after;
  }

  // ---- The top-level list itself, under a quoted key ----

  lemma QuotedListLoads(items: seq<string>)
    requires AllInBasicPlane(items)
    ensures var s := QUOTED_LIST + (RenderList(items) + "\n");
            Parses(s) && Loads(s) == Some(items)
  {
    hide RenderList, RenderItems, LexAll, AllInBasicPlane, Interpret, IsLine, ReadItems;
    var y := RenderList(items) + "\n";
    var s := QUOTED_LIST + y;
    QuotedLine(items);
    assert s + "" == s;
    StatementFirst(s, "");
    QuotedListKey(y);
    QuotedListReads(items);
    assert Document("") == Some([]) by { NewlineRest(); }
    assert [s] + [] == [s] && [s][1..] == [];
    assert Readable(s) && AllReadable([s]);
  }

  lemma QuotedLine(items: seq<string>)
    ensures IsLine(QUOTED_LIST + (RenderList(items) + "\n"))
  {
    hide LexAll, RenderList;
    QuotedListLexes();
    CommentedList(items);
    LexConcat(QUOTED_LIST, RenderList(items), START);
    var front := QUOTED_LIST + RenderList(items);
    LexConcat(front, "\n", START);
    LexOne('\n', START);
    assert QUOTED_LIST + (RenderList(items) + "\n") == front + "\n";
    assert (front + "\n")[..|front + "\n"| - 1] == front;
  }

  lemma QuotedListReads(items: seq<string>)
    requires AllInBasicPlane(items)
    ensures ReadList(" [#\U{2028}" + (RenderList(items) + "\n")) == Some(items)
  {
    hide RenderList, RenderItems, AllInBasicPlane, ReadItems, SkipBlank;
    var y := RenderList(items) + "\n";
    var value := " [#\U{2028}" + y;
    var c := "#\U{2028}";
    assert value[1..] == "[" + (c + y) && ("[" + (c + y))[1..] == c + y;
    assert TrimLeft("[" + (c + y)) == "[" + (c + y);
    assert TrimLeft(value) == "[" + (c + y);
    PrintedForReader(items, "\n");
    SkipAround(c, y, 1);
    OnlyComment();
    SameSkip(c + y, RenderItems(items) + ("]" + "\n"));
    ReadUndoesPrint(items, "\n");
    assert TrimLeft("\n") == "\n";
  }

  lemma OnlyComment()
    ensures SkipBlank("#\U{2028}") == "" && LexAll("#\U{2028}", Plainly(1)) == Reading(1, None, false, true)
  {
    assert "#\U{2028}"[1..] == "\U{2028}" && "\U{2028}"[1..] == "";
    assert AfterLine("\U{2028}") == "";
    assert AfterLine("#\U{2028}") == "";
    LexConcat("#", "\U{2028}", Plainly(1));
    LexOne('#', Plainly(1));
    LexOne('\U{2028}', Reading(1, None, false, true));
    assert "#\U{2028}" == "#" + "\U{2028}";
  }

  /** A comment at the head of the top-level list, under a quoted key: the line starts no statement, and the
      path reaches the list all the same. */
  lemma AdditionCanHitFromComment(items: seq<string>, path: string)
    requires AllInBasicPlane(items + [path]) && AllInBasicPlane(items) && path !in items
    ensures var original := QUOTED_LIST + (RenderList(items) + "\n");
            && Loads(original) == Some(items)
            && AddPath(original, path).Updated? && Loads(AddPath(original, path).text) == Some(items + [path])
  {
    hide RenderList, SkillsLineFrom, ListEnd, AllInBasicPlane, Loads, Parses;
    QuotedListLoads(items);
    QuotedListLoads(items + [path]);
    CutBehind(QUOTED_LIST, items, "\n");
    assert QUOTED_LIST + (RenderList(items + [path]) + "\n") == QUOTED_LIST + RenderList(items + [path]) + "\n";
    AdditionBehind(QUOTED_LIST, items, "\n", items, path);
  }

  // ---- A scan that runs over whole statements ----

  const APOSTROPHE: string := "skills = [ '\n]\n"
  const CLOSING: string := "x = '] # '\n"

  /** An apostrophe in the comment sends the scan past the list, a top-level list and a table header to a
      string in the table, where it takes a bracket for the end. */
  function Swallowed(path: string): string {
    OTHER_LIST + APOSTROPHE + (RenderList([]) + "\n" + (TABLE + (CLOSING + (RenderList([path]) + "\n"))))
  }

  lemma ApostropheLine()
    ensures IsLine(OTHER_LIST + APOSTROPHE) && Readable(OTHER_LIST + APOSTROPHE) && BeforeSkills([OTHER_LIST + APOSTROPHE])
  {
    hide LexAll, Interpret;
    var st := Reading(1, None, false, true);
    var front := OTHER_LIST + ("skills = [ '" + "\n]");
    OtherListLexes();
    LexCommented("skills = [ '");
    assert "\n]" == ['\n'] + "]";
    LexConcat("\n", "]", st);
    LexOne('\n', st);
    LexOne(']', Plainly(1));
    LexConcat("skills = [ '", "\n]", st);
    LexConcat(OTHER_LIST, "skills = [ '" + "\n]", START);
    LexConcat(front, "\n", START);
    LexOne('\n', START);
    var x := OTHER_LIST + APOSTROPHE;
    assert x == front + "\n" && x[..|x| - 1] == front;
    OtherReadable(APOSTROPHE);
  }

  lemma ClosingLine()
    ensures IsLine(CLOSING) && Readable(CLOSING)
  {
    hide LexAll, Readable;
    var front := "x =" + (" '" + ("] #" + " '"));
    ClosingLexes();
    LexConcat(front, "\n", START);
    LexOne('\n', START);
    assert CLOSING == front + "\n" && CLOSING[..|CLOSING| - 1] == front;
    ClosingReads();
  }

  lemma ClosingLexes()
    ensures LexAll("x =" + (" '" + ("] #" + " '")), START) == START
  {
    hide LexAll;
    var inside := Reading(0, Some('\''), false, false);
    LexThree('x', ' ', '=', START);
    LexPair(' ', '\'', START);
    LexThree(']', ' ', '#', inside);
    LexPair(' ', '\'', inside);
    LexConcat("] #", " '", inside);
    LexConcat(" '", "] #" + " '", START);
    LexConcat("x =", " '" + ("] #" + " '"), START);
  }

  lemma LexPair(a: char, b: char, st: Lexer)
    ensures LexAll([a, b], st) == Lex(Lex(st, a), b)
  {
    hide Lex, LexAll;
    assert [a, b] == [a] + [b];
    LexConcat([a], [b], st);
    LexOne(a, st);
    LexOne(b, Lex(st, a));
  }

  lemma ClosingReads()
    ensures Readable(CLOSING)
  {
    var rest := " = '] # '\n";
    assert CLOSING == "x" + rest;
    BareRun("x", rest);
    assert CLOSING[..1] == "x" && CLOSING[1..] == rest;
    assert rest[1..][0] == '=' && TrimLeft(rest[1..]) == rest[1..];
    assert TrimLeft(rest) == rest[1..];
    assert TrimLeft(CLOSING) == CLOSING;
  }

  lemma SwallowedLoads(path: string)
    requires InBasicPlane(path)
    ensures Loads(Swallowed(path)) == Some([])
  {
    hide LexAll, Interpret, Document, IsLine, IsLineRest, RenderList, Readable, BeforeSkills, InBasicPlane;
    var x := OTHER_LIST + APOSTROPHE;
    var last := RenderList([path]) + "\n";
    ApostropheLine();
    TableLine();
    ClosingLine();
    NewlineRest();
    LastListLoads(path);
    StatementFirst(CLOSING, last);
    StatementFirst(TABLE, CLOSING + last);
    var rest := TABLE + (CLOSING + last);
    assert Document(rest) == Some([TABLE] + ([CLOSING] + Document(last).value));
    HeaderReadable(TABLE);
    FourReadable(Document(last).value);
    NewlineBefore(rest);
    FlatOne(x);
    assert AllReadable([x]) by { assert [x][1..] == []; }
    FileWithList([x], [], "\n", rest);
    assert "\n" + rest == "\n" + (TABLE + (CLOSING + last));
    assert WithList(x, [], "\n" + rest) == Swallowed(path);
  }

  lemma HeaderReadable(x: string)
    requires Interpret(x) == Header
    ensures Readable(x)
  {
    hide Interpret;
  }

  lemma NewlineBefore(rest: string)
    ensures IsLineRest("\n", rest)
  {
    hide LexAll;
    LexOne('\n', START);
    LexNothing(START);
    assert "\n"[..0] == "";
  }

  lemma FourReadable(more: seq<string>)
    requires Readable(TABLE) && Readable(CLOSING) && AllReadable(more)
    ensures AllReadable([TABLE] + ([CLOSING] + more))
  {
    hide Readable;
    assert ([TABLE] + ([CLOSING] + more))[1..] == [CLOSING] + more && ([CLOSING] + more)[1..] == more;
  }

  lemma LastListLoads(path: string)
    requires InBasicPlane(path)
    ensures Document(RenderList([path]) + "\n").Some? && AllReadable(Document(RenderList([path]) + "\n").value)
  {
    hide RenderList, Document, InBasicPlane, IsLineRest;
    NewlineRest();
    OneInPlane(path);
    FileWithList([], [path], "\n", "");
    assert "\n" + "" == "\n" && WithList("", [path], "\n") == RenderList([path]) + "\n" by { WithoutFront([path]); }
  }

  lemma WithoutFront(items: seq<string>)
    ensures WithList("", items, "\n") == RenderList(items) + "\n" && Flat([]) == ""
  {
    hide RenderList;
  }

  lemma {:induction false} RunPlainQuoted(s: string, depth: int)
    requires '\'' !in s && '\\' !in s
    ensures Run(s, Open(depth, Some('\''), false)) == Open(depth, Some('\''), false)
    decreases |s|
  {
    if s != "" {
      assert s[|s| - 1] in s && forall c :: c in s[..|s| - 1] ==> c in s;
      RunPlainQuoted(s[..|s| - 1], depth);
    }
  }

  /** Where the scan from the comment ends: at the bracket in the string. */
  lemma SwallowedEnd(y: string)
    ensures var between := "\n]\n" + (RenderList([]) + "\n" + (TABLE + "x = "));
            ListEnd(OTHER_LIST + "skills = [ '" + between + "']" + y, |OTHER_LIST|)
              == Some(|OTHER_LIST| + |"skills = [ '" + between + "']"|)
  {
    hide Scan, Run, Find, ListEnd, RenderList;
    var between := "\n]\n" + (RenderList([]) + "\n" + (TABLE + "x = "));
    BetweenIsPlain();
    var content := " '" + between + "'";
    var s := OTHER_LIST + "skills = [ '" + between + "']" + y;
    var opening := |OTHER_LIST| + 9;
    assert s[opening..] == ['['] + (content + ([']'] + y));
    FindBehind(s, opening);
    ListEndBehind(s, opening, content + ([']'] + y));
    QuotedContent(between);
    ScanRuns(content, [']'] + y, 1, None, false);
    ClosesHereIff(Open(1, None, false), y);
  }

  lemma BetweenIsPlain()
    ensures var between := "\n]\n" + (RenderList([]) + "\n" + (TABLE + "x = ")); '\'' !in between && '\\' !in between
  {
    assert RenderItems([]) == "";
    Unquoted("\n]\n");
    Unquoted("skills = [\n");
    Unquoted("]");
    Unquoted("\n");
    Unquoted(TABLE);
    Unquoted("x = ");
  }

  lemma Unquoted(s: string)
    requires s in ["\n]\n", "skills = [\n", "]", "\n", TABLE, "x = "]
    ensures '\'' !in s && '\\' !in s
  {
  }

  lemma ListEndBehind(s: string, opening: nat, tail: string)
    requires |OTHER_LIST| <= opening < |s| && Find(s, '[', |OTHER_LIST|) == Some(opening) && s[opening..] == ['['] + tail
    ensures ListEnd(s, |OTHER_LIST|) == Plus(opening, Plus(1, Scan(tail, 1, None, false)))
  {
    hide Scan, Find;
    ScanHead('[', tail, 0, None, false);
  }

  /** A quoted text between the brackets leaves the scanner where it was. */
  lemma QuotedContent(between: string)
    requires '\'' !in between && '\\' !in between
    ensures Run(" '" + between + "'", Open(1, None, false)) == Open(1, None, false)
  {
    hide Run;
    var content := " '" + between + "'";
    assert content == [' '] + (['\''] + (between + ['\'']));
    RunHead(' ', ['\''] + (between + ['\'']), Open(1, None, false));
    RunHead('\'', between + ['\''], Open(1, None, false));
    RunConcat(between, ['\''], Open(1, Some('\''), false));
    RunPlainQuoted(between, 1);
    RunLast(Open(1, Some('\''), false));
  }

  lemma RunLast(st: ScanState)
    ensures Run(['\''], st) == Step(st, '\'')
  {
    assert ['\''][..0] == "";
  }

  lemma FindBehind(s: string, opening: nat)
    requires opening == |OTHER_LIST| + 9 && opening < |s| && s[..opening + 1] == OTHER_LIST + "skills = ["
    ensures Find(s, '[', |OTHER_LIST|) == Some(opening)
  {
    hide Find;
    var n, word := |OTHER_LIST|, "skills = [";
    forall i | n <= i <= opening ensures s[i] == word[i - n] && (s[i] == '[' <==> i == opening) {
      assert s[i] == s[..opening + 1][i] == word[i - n];
    }
    FindIs(s, n, opening);
  }

  lemma {:induction false} FindIs(s: string, from: nat, at: nat)
    requires from <= at < |s| && s[at] == '[' && forall i :: from <= i < at ==> s[i] != '['
    ensures Find(s, '[', from) == Some(at)
    decreases at - from
  {
    if from < at { FindIs(s, from + 1, at); }
  }

  function Exposed(path: string): string {
    OTHER_LIST + RenderList([path]) + " # '\n" + (RenderList([path]) + "\n")
  }

  lemma ExposedLoads(path: string)
    requires InBasicPlane(path)
    ensures Parses(Exposed(path)) && Loads(Exposed(path)) == Some([path])
  {
    hide RenderList, LexAll, Interpret, Document, IsLine, IsLineRest, InBasicPlane, BeforeSkills;
    var x := OTHER_LIST + RenderList([path]) + " # '\n";
    TrailingComment();
    OtherStatement([path], " # '\n");
    NewlineRest();
    OneInPlane(path);
    FlatOne(x);
    assert AllReadable([x]) by { assert [x][1..] == []; }
    assert "\n" + "" == "\n";
    FileWithList([x], [path], "\n", "");
    assert WithList(x, [path], "\n") == Exposed(path);
  }

  lemma TrailingComment()
    ensures var t := " # '\n"; LexAll(t, START).Done? && t != "" && LexAll(t[..|t| - 1], START).Reading?
  {
    hide LexAll;
    var t := " # '\n";
    assert t == " #" + " '" + "\n" && t[..|t| - 1] == " #" + " '";
    LexPair(' ', '#', START);
    LexPair(' ', '\'', Reading(0, None, false, true));
    LexConcat(" #", " '", START);
    LexConcat(" #" + " '", "\n", START);
    LexOne('\n', Reading(0, None, false, true));
  }

  /** The path reaches the top-level list although the line starts no statement: the addition has removed
      the old list and a table header, and the table's own list is the top-level one now. */
  lemma AdditionCanSwallowStatements(path: string)
    requires InBasicPlane(path)
    ensures Loads(Swallowed(path)) == Some([])
    ensures AddPath(Swallowed(path), path) == Updated(Exposed(path)) && Loads(Exposed(path)) == Some([path])
  {
    hide *;
    SwallowedLoads(path);
    ExposedLoads(path);
    var y := " # '\n" + (RenderList([path]) + "\n");
    SwallowedText(path);
    SwallowedEnd(y);
    SwallowedStart(y);
    CutOut(Scanned(), y, path);
  }

  /** What the scan takes for the list. */
  function Scanned(): string {
    "skills = [ '" + ("\n]\n" + (RenderList([]) + "\n" + (TABLE + "x = "))) + "']"
  }

  lemma SwallowedText(path: string)
    ensures var y := " # '\n" + (RenderList([path]) + "\n");
            && Swallowed(path) == OTHER_LIST + (Scanned() + y)
            && OTHER_LIST + "skills = [ '" + ("\n]\n" + (RenderList([]) + "\n" + (TABLE + "x = "))) + "']" + y == OTHER_LIST + (Scanned() + y)
            && Exposed(path) == OTHER_LIST + RenderList([] + [path]) + y
  {
    hide RenderList;
    var list, bracket := RenderList([path]) + "\n", RenderList([]) + "\n";
    assert CLOSING == "x = " + ("']" + " # '\n") && APOSTROPHE == "skills = [ '" + "\n]\n";
    assert [] + [path] == [path];
  }

  lemma SwallowedStart(y: string)
    ensures SkillsLineFrom(OTHER_LIST + (Scanned() + y), 0) == Some(|OTHER_LIST|)
  {
    hide RenderList, SkillsLineFrom;
    var rest := Scanned() + y;
    assert rest[..10] == "skills = [";
    SkillsLineBehind(OTHER_LIST, rest);
  }

  lemma CutOut(list: string, y: string, path: string)
    requires var s := OTHER_LIST + (list + y);
             SkillsLineFrom(s, 0) == Some(|OTHER_LIST|) && ListEnd(s, |OTHER_LIST|) == Some(|OTHER_LIST| + |list|) && Loads(s) == Some([])
    requires Parses(OTHER_LIST + RenderList([] + [path]) + y)
    ensures AddPath(OTHER_LIST + (list + y), path) == Updated(OTHER_LIST + RenderList([] + [path]) + y)
  {
    hide RenderList, SkillsLineFrom, ListEnd, Loads, Parses;
    var s := OTHER_LIST + (list + y);
    assert s[..|OTHER_LIST|] == OTHER_LIST && s[|OTHER_LIST| + |list|..] == y;
  }
}
