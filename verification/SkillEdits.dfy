/** What an addition does to any file: which statements it replaces, and when the top-level list gains the
    path. */
module SkillEdits {
  import opened Options
  import opened PythonText
  import opened SkillConfig
  import opened SkillListReader
  import opened SkillListText
  import opened SkillReading
  import opened SkillToml

  // ---- The lexer over several statements ----

  ghost predicate Sane(st: Lexer) {
    st.Reading? ==>
      && st.depth >= 0 && (st.quote.None? ==> !st.escaped)
      && (st.quote.Some? ==> !st.comment && (st.quote.value == '"' || st.quote.value == '\''))
  }

  lemma {:induction false} LexAllIsSane(s: string, st: Lexer)
    requires Sane(st)
    ensures Sane(LexAll(s, st))
    decreases |s|
  {
    if s != "" { LexAllIsSane(s[1..], Lex(st, s[0])); }
  }

  function Restart(st: Lexer): Lexer {
    if st.Done? then START else st
  }

  /** The state after `s`, where every finished statement starts the next one. */
  function LexDoc(s: string, st: Lexer): Lexer
    decreases |s|
  {
    if s == "" then st else LexDoc(s[1..], Restart(Lex(st, s[0])))
  }

  /** Where a file may end. */
  predicate Final(st: Lexer) {
    st.Reading? && st.depth == 0 && st.quote.None?
  }

  lemma {:induction false} LexDocBroken(s: string)
    ensures LexDoc(s, Broken) == Broken
    decreases |s|
  {
    if s != "" { LexDocBroken(s[1..]); }
  }

  lemma {:induction false} LexDocConcat(a: string, b: string, st: Lexer)
    ensures LexDoc(a + b, st) == LexDoc(b, LexDoc(a, st))
    decreases |a|
  {
    if a == "" {
      assert a + b == b;
    } else {
      assert (a + b)[1..] == a[1..] + b;
      LexDocConcat(a[1..], b, Restart(Lex(st, a[0])));
    }
  }

  /** Inside one statement there is nothing to restart. */
  lemma {:induction false} LexDocInside(s: string, st: Lexer)
    requires LexAll(s, st).Reading?
    ensures LexDoc(s, st) == LexAll(s, st)
    decreases |s|
  {
    if s != "" {
      var next := Lex(st, s[0]);
      if !next.Reading? { LexStopped(s[1..], next); }
      LexDocInside(s[1..], next);
    }
  }

  function Deeper(st: Lexer, extra: int): Lexer
    requires st.Reading?
  {
    st.(depth := st.depth + extra)
  }

  lemma DeeperStep(st: Lexer, c: char, extra: int)
    requires st.Reading? && Sane(st) && extra > 0 && !Lex(st, c).Broken?
    ensures Restart(Lex(st, c)).Reading? && Sane(Restart(Lex(st, c)))
    ensures Restart(Lex(Deeper(st, extra), c)) == Deeper(Restart(Lex(st, c)), extra)
  {
  }

  /** A text that ends properly from one depth never does from a greater one. */
  lemma {:induction false} DeeperNeverEnds(s: string, st: Lexer, extra: int)
    requires st.Reading? && Sane(st) && extra > 0 && Final(LexDoc(s, st))
    ensures !Final(LexDoc(s, Deeper(st, extra)))
    decreases |s|
  {
    if s != "" {
      hide Lex, Sane;
      var c := s[0];
      if Lex(st, c).Broken? { LexDocBroken(s[1..]); }
      DeeperStep(st, c, extra);
      DeeperNeverEnds(s[1..], Restart(Lex(st, c)), extra);
    }
  }

  lemma SameDepth(s: string, a: nat, b: nat)
    requires Final(LexDoc(s, Plainly(a))) && Final(LexDoc(s, Plainly(b)))
    ensures a == b
  {
    if a < b {
      DeeperNeverEnds(s, Plainly(a), b - a);
    } else if b < a {
      DeeperNeverEnds(s, Plainly(b), a - b);
    }
  }

  lemma {:induction false} FinalExtent(s: string, st: Lexer)
    requires st.Reading? && Final(LexDoc(s, st))
    ensures Extent(s, st).Some?
    decreases |s|
  {
    if s != "" {
      var next := Lex(st, s[0]);
      if next.Broken? {
        LexDocBroken(s[1..]);
      } else if next.Reading? {
        FinalExtent(s[1..], next);
      }
    }
  }

  /** Two lexers that both read the rest of a file to a proper end agree on where the statement they are in
      ends, whatever quotes, comments and brackets they are in. */
  lemma {:induction false} SameExtent(s: string, u: Lexer, v: Lexer)
    requires u.Reading? && v.Reading? && Sane(u) && Sane(v) && Final(LexDoc(s, u)) && Final(LexDoc(s, v))
    ensures Extent(s, u).Some? && Extent(s, u) == Extent(s, v)
    decreases |s|
  {
    FinalExtent(s, u);
    if s != "" {
      var c, rest := s[0], s[1..];
      if Lex(u, c).Broken? || Lex(v, c).Broken? {
        LexDocBroken(rest);
      } else if c == '\n' {
        assert Restart(Lex(u, c)) == Plainly(u.depth) && Restart(Lex(v, c)) == Plainly(v.depth);
        SameDepth(rest, u.depth, v.depth);
        assert Lex(u, c) == Lex(v, c);
      } else {
        SameExtent(rest, Lex(u, c), Lex(v, c));
      }
    }
  }

  // ---- Statements and positions ----

  /** What the lexer is doing anywhere in a statement, and how much of the statement is left. */
  lemma {:induction false} ExtentStates(s: string, st: Lexer, m: nat)
    requires st.Reading? && Extent(s, st).Some? && m <= Extent(s, st).value <= |s|
    ensures var n, at := Extent(s, st).value, LexAll(s[..m], st);
            && (m < n ==> at.Reading?)
            && (at.Reading? ==> Extent(s[m..], at) == Some(n - m))
            && (m == n ==> at.Done? || (n == |s| && Final(at)))
    decreases |s|
  {
    hide Extent, Lex;
    if m == 0 {
      assert s[..0] == "" && s[0..] == s;
      if s != "" { ExtentStep(s, st); } else { ExtentAtEnd(st); }
    } else {
      ExtentStep(s, st);
      var next := Lex(st, s[0]);
      assert s[..m][1..] == s[1..][..m - 1] && s[m..] == s[1..][m - 1..];
      if next.Reading? {
        ExtentStates(s[1..], next, m - 1);
      } else {
        assert s[..1] == [s[0]] && [s[0]][1..] == "";
      }
    }
  }

  lemma ExtentStep(s: string, st: Lexer)
    requires st.Reading? && s != "" && Extent(s, st).Some?
    ensures var next, n := Lex(st, s[0]), Extent(s, st).value;
            if next.Reading? then n >= 1 && Extent(s[1..], next) == Some(n - 1) else next.Done? && n == 1
  {
    hide Lex;
  }

  lemma ExtentAtEnd(st: Lexer)
    requires st.Reading? && Extent("", st).Some?
    ensures Final(st) && Extent("", st) == Some(0)
  {
  }

  lemma {:induction false} ExtentLexes(s: string, st: Lexer)
    requires st.Reading? && Extent(s, st).Some?
    ensures Extent(s, st).value <= |s|
    ensures LexDoc(s, st) == LexDoc(s[Extent(s, st).value..], START) || (Extent(s, st).value == |s| && Final(LexDoc(s, st)))
    decreases |s|
  {
    if s != "" {
      var next := Lex(st, s[0]);
      if next.Reading? {
        ExtentLexes(s[1..], next);
        assert s[1..][Extent(s[1..], next).value..] == s[Extent(s, st).value..];
      }
    }
  }

  /** A file that falls into statements ends properly. */
  lemma {:induction false} DocumentLexes(s: string)
    requires Document(s).Some?
    ensures Final(LexDoc(s, START))
    decreases |s|
  {
    hide Extent;
    if s != "" {
      ExtentInside(s, START);
      ExtentLexes(s, START);
      DocumentLexes(s[Extent(s, START).value..]);
    }
  }

  /** Statement k holds position `pos`, and the statements before and behind it. */
  ghost predicate Holds(s: string, all: seq<string>, k: nat, pos: nat) {
    && k < |all| && pos < |s| && AllLines(all[..k])
    && s == Flat(all[..k]) + (all[k] + Flat(all[k + 1..]))
    && |Flat(all[..k])| <= pos < |Flat(all[..k])| + |all[k]|
    && Extent(all[k] + Flat(all[k + 1..]), START) == Some(|all[k]|)
    && Document(all[k] + Flat(all[k + 1..])) == Some(all[k..])
    && Document(Flat(all[k + 1..])) == Some(all[k + 1..])
  }

  lemma {:induction false} StatementAt(s: string, pos: nat) returns (k: nat)
    requires Document(s).Some? && pos < |s|
    ensures Holds(s, Document(s).value, k, pos)
    decreases |s|
  {
    hide Extent, IsLine;
    var all := Document(s).value;
    ExtentInside(s, START);
    var n := Extent(s, START).value;
    DocumentIsWhole(s);
    DocumentIsWhole(s[n..]);
    assert all[1..] == Document(s[n..]).value && all[0] == s[..n] && s == s[..n] + s[n..];
    if pos < n {
      k := 0;
      assert all[..0] == [] && all[0..] == all;
    } else {
      FirstIsLine(s);
      var i := StatementAt(s[n..], pos - n);
      k := i + 1;
      LaterStatement(s, all, n, i, pos);
    }
  }

  lemma FirstIsLine(s: string)
    requires s != "" && Extent(s, START).Some? && 0 < Extent(s, START).value < |s|
    ensures IsLine(s[..Extent(s, START).value])
  {
    hide Extent, LexAll;
    var n := Extent(s, START).value;
    ExtentStates(s, START, n - 1);
    ExtentStates(s, START, n);
    assert s[..n][..n - 1] == s[..n - 1];
  }

  lemma LaterStatement(s: string, all: seq<string>, n: nat, i: nat, pos: nat)
    requires all != [] && n <= |s| && n <= pos && all[0] == s[..n] && IsLine(all[0])
    requires Holds(s[n..], all[1..], i, pos - n)
    ensures Holds(s, all, i + 1, pos)
  {
    hide Extent, IsLine, Document;
    var later := all[1..];
    assert all[..i + 1] == [all[0]] + later[..i];
    assert all[..i + 1][1..] == later[..i];
    assert all[i + 1] == later[i] && all[i + 2..] == later[i + 1..] && all[i + 1..] == later[i..];
    assert s == s[..n] + s[n..];
    assert Flat(all[..i + 1]) == all[0] + Flat(later[..i]);
  }

  // ---- The printed list in the middle of a statement ----

  lemma {:induction false} LexInQuote(s: string, st: Lexer)
    requires st.Reading? && Sane(st) && st.quote.Some? && forall i :: 0 <= i < |s| ==> s[i] !in "\n\\\"'"
    ensures LexAll(s, st).Reading? && LexAll(s, st).quote == st.quote
    decreases |s|
  {
    if s != "" { LexInQuote(s[1..], Lex(st, s[0])); }
  }

  lemma {:induction false} LexInComment(s: string, depth: int)
    requires '\n' !in s
    ensures LexAll(s, Reading(depth, None, false, true)) == Reading(depth, None, false, true)
    decreases |s|
  {
    if s != "" {
      assert s[0] in s && forall c :: c in s[1..] ==> c in s;
      LexInComment(s[1..], depth);
    }
  }

  lemma PrintedParts(items: seq<string>)
    ensures RenderList(items) == "skills = [" + ("\n" + (RenderItems(items) + "]"))
  {
    hide RenderItems;
  }

  /** Inside a quote the printed list breaks the file. */
  lemma PrintedInQuote(items: seq<string>, rest: string, st: Lexer)
    requires st.Reading? && Sane(st) && st.quote.Some?
    ensures LexDoc(RenderList(items) + rest, st) == Broken
  {
    hide LexDoc, LexAll, RenderItems, RenderList;
    PrintedParts(items);
    var more := RenderItems(items) + "]" + rest;
    assert RenderList(items) + rest == "skills = [" + (['\n'] + more);
    LexInQuote("skills = [", st);
    var at := LexAll("skills = [", st);
    LexDocConcat("skills = [", ['\n'] + more, st);
    LexDocInside("skills = [", st);
    LexDocHead('\n', more, at);
    LexDocBroken(more);
  }

  lemma LexDocHead(c: char, s: string, st: Lexer)
    ensures LexDoc([c] + s, st) == LexDoc(s, Restart(Lex(st, c)))
  {
    assert ([c] + s)[1..] == s;
  }

  /** Inside brackets, behind a comment sign, it closes one level instead of opening one. */
  lemma PrintedInComment(items: seq<string>, depth: int)
    requires depth > 0
    ensures LexAll(RenderList(items), Reading(depth, None, false, true)) == Plainly(depth - 1)
  {
    hide LexAll, RenderItems, RenderList;
    var st := Reading(depth, None, false, true);
    PrintedParts(items);
    var more := RenderItems(items) + "]";
    LexInComment("skills = [", depth);
    LexConcat("skills = [", "\n" + more, st);
    LexConcat("\n", more, st);
    LexOne('\n', st);
    LexRestOfList(items, depth);
  }

  /** The first printed item cannot stand as a statement of its own. */
  lemma ItemIsNoStatement(item: string)
    ensures IsLine("  " + JsonString(item) + ",\n") && !Readable("  " + JsonString(item) + ",\n")
  {
    ItemIsLine(item);
    hide StaysQuoted, EscapeAll, ReadString, InBasicPlane, IsLine, ReadList;
    var quoted := EscapeAll(item) + ("\"" + ",\n");
    var x := "  " + JsonString(item) + ",\n";
    assert x == "  " + ("\"" + quoted);
    assert x[1..] == " " + ("\"" + quoted) && x[1..][1..] == "\"" + quoted && ("\"" + quoted)[1..] == quoted;
    assert TrimLeft("\"" + quoted) == "\"" + quoted;
    assert TrimLeft(x[1..]) == "\"" + quoted;
    assert TrimLeft(x) == "\"" + quoted;
    ReadEscapedString(item, ",\n");
    assert TrimLeft(",\n") == ",\n";
  }

  lemma ItemIsLine(item: string)
    ensures IsLine("  " + JsonString(item) + ",\n")
  {
    hide StaysQuoted, EscapeAll, LexAll;
    var body := EscapeAll(item);
    var inside := Reading(0, Some('"'), false, false);
    EscapedStaysQuoted(item);
    EscapesHaveNoNewline(item);
    LexBody(body, 0);
    LexThree(' ', ' ', '"', START);
    LexConcat("\"", ",", inside);
    LexOne('"', inside);
    LexOne(',', START);
    LexConcat(body, "\"" + ",", inside);
    LexConcat("  \"", body + ("\"" + ","), START);
    var front := "  \"" + (body + ("\"" + ","));
    assert LexAll(front, START) == START;
    LexConcat(front, "\n", START);
    LexOne('\n', START);
    var x := "  " + JsonString(item) + ",\n";
    assert x == front + "\n" && x[..|x| - 1] == front;
  }

  /** Behind a comment sign outside brackets the printed list leaves its items without a key. */
  lemma PrintedInTopComment(p: string, items: seq<string>, rest: string)
    requires items != [] && LexAll(p, START) == Reading(0, None, false, true)
    requires Document(p + RenderList(items) + rest).Some?
    ensures !AllReadable(Document(p + RenderList(items) + rest).value)
  {
    hide LexAll, RenderItems, RenderList, IsLine, Document, JsonString, Readable;
    PrintedParts(items);
    var first := p + "skills = [" + "\n";
    var item := "  " + JsonString(items[0]) + ",\n";
    FirstItem(items);
    var more := RenderItems(items[1..]) + "]" + rest;
    assert p + RenderList(items) + rest == first + (item + more);
    CommentLine(p);
    StatementFirst(first, item + more);
    ItemIsNoStatement(items[0]);
    StatementFirst(item, more);
    var all := Document(p + RenderList(items) + rest).value;
    assert all[1..] == Document(item + more).value && all[1..][0] == item;
  }

  lemma FirstItem(items: seq<string>)
    requires items != []
    ensures RenderItems(items) == "  " + JsonString(items[0]) + ",\n" + RenderItems(items[1..])
  {
  }

  lemma CommentLine(p: string)
    requires LexAll(p, START) == Reading(0, None, false, true)
    ensures IsLine(p + "skills = [" + "\n")
  {
    hide LexAll;
    LexConcat(p, "skills = [", START);
    LexInComment("skills = [", 0);
    var front := p + "skills = [";
    LexConcat(front, "\n", START);
    LexOne('\n', Reading(0, None, false, true));
    assert (front + "\n")[..|front + "\n"| - 1] == front;
  }

  /** Where a printed list can stand in a file that parses: outside quotes, and behind a comment sign only
      inside brackets. The lexer is then back to plain reading behind it. */
  lemma PrintedIn(p: string, items: seq<string>, rest: string)
    requires items != [] && LexAll(p, START).Reading?
    requires Document(p + RenderList(items) + rest).Some? && AllReadable(Document(p + RenderList(items) + rest).value)
    ensures var st := LexAll(p, START);
            && st.quote.None? && (st.comment ==> st.depth > 0)
            && LexAll(p + RenderList(items), START) == Plainly(if st.comment then st.depth - 1 else st.depth)
            && st.depth >= 0
  {
    hide LexAll, LexDoc, RenderList, Document, AllReadable;
    var st := LexAll(p, START);
    LexAllIsSane(p, START);
    DocumentLexes(p + RenderList(items) + rest);
    assert p + RenderList(items) + rest == p + (RenderList(items) + rest);
    LexDocConcat(p, RenderList(items) + rest, START);
    LexDocInside(p, START);
    if st.quote.Some? {
      PrintedInQuote(items, rest, st);
    } else {
      if st.comment && st.depth == 0 { PrintedInTopComment(p, items, rest); }
      LexConcat(p, RenderList(items), START);
      if st.comment {
        PrintedInComment(items, st.depth);
      } else {
        LexPrinted(items, st.depth);
      }
    }
  }

  // ---- Which statements an addition replaces ----

  /** The text before the printed list in its statement, and the text behind it. */
  function Lead(s: string, all: seq<string>, k: nat, start: nat): string
    requires k <= |all| && |Flat(all[..k])| <= start <= |s|
  {
    s[|Flat(all[..k])|..start]
  }

  function Trail(s: string, all: seq<string>, j: nat, end: nat): string
    requires j < |all| && end <= |Flat(all[..j])| + |all[j]| <= |s|
  {
    s[end..|Flat(all[..j])| + |all[j]|]
  }

  lemma PartsOf(s: string, all: seq<string>, k: nat, pos: nat)
    requires Holds(s, all, k, pos)
    ensures var n := |Flat(all[..k])|;
            && n + |all[k]| <= |s| && s[..n] == Flat(all[..k]) && s[n..] == all[k] + Flat(all[k + 1..])
            && s[n..n + |all[k]|] == all[k] && s[n + |all[k]|..] == Flat(all[k + 1..])
  {
    hide Document, Extent, AllLines, Flat;
  }

  lemma BehindClosing(x: string, m: nat, len: nat)
    requires Document(x).Some? && Extent(x, START) == Some(len) && 0 < m <= len <= |x| && x[m - 1] == ']'
    ensures var at := LexAll(x[..m], START);
            at.Reading? && Sane(at) && Final(LexDoc(x[m..], at)) && Extent(x[m..], at) == Some(len - m)
  {
    hide Document, Extent, LexDoc, LexAll;
    var a := x[..m];
    assert x == a + x[m..];
    ExtentStates(x, START, m - 1);
    ExtentStates(x, START, m);
    assert a == x[..m - 1] + [x[m - 1]];
    LexConcat(x[..m - 1], [']'], START);
    LexOne(']', LexAll(x[..m - 1], START));
    LexAllIsSane(a, START);
    DocumentLexes(x);
    LexDocConcat(a, x[m..], START);
    LexDocInside(a, START);
  }

  /** Behind a closing bracket of statement j: how the rest of the file is lexed there. */
  lemma BehindBracket(s: string, all: seq<string>, j: nat, end: nat)
    requires 0 < end <= |s| && Holds(s, all, j, end - 1) && s[end - 1] == ']'
    ensures end <= |Flat(all[..j])| + |all[j]| <= |s|
    ensures var at := LexAll(s[|Flat(all[..j])|..end], START);
            && at.Reading? && Sane(at) && Final(LexDoc(s[end..], at))
            && Extent(s[end..], at) == Some(|Trail(s, all, j, end)|)
  {
    hide Document, Extent, LexDoc, Flat, AllLines, LexAll;
    PartsOf(s, all, j, end - 1);
    var n := |Flat(all[..j])|;
    var x, m := s[n..], end - n;
    assert x[..m] == s[n..end] && x[m..] == s[end..] && x[m - 1] == s[end - 1];
    BehindClosing(x, m, |all[j]|);
  }

  /** A statement with a printed list in it ends where the file's lexer without the list says it does. */
  lemma EditedStatement(lead: string, items: seq<string>, tail: string, u: Lexer, n: nat)
    requires items != [] && LexAll(lead, START).Reading?
    requires Document(lead + RenderList(items) + tail).Some? && AllReadable(Document(lead + RenderList(items) + tail).value)
    requires u.Reading? && Sane(u) && Final(LexDoc(tail, u)) && n <= |tail| && Extent(tail, u) == Some(n)
    requires Document(tail[n..]).Some?
    ensures Document(lead + RenderList(items) + tail) == Some([lead + RenderList(items) + tail[..n]] + Document(tail[n..]).value)
    ensures var st := LexAll(lead, START);
            st.quote.None? && st.depth >= 0 && (st.comment ==> st.depth > 0)
  {
    hide *;
    PrintedIn(lead, items, tail);
    var front := lead + RenderList(items);
    var v := LexAll(front, START);
    var st := LexAll(lead, START);
    PlainlyIsSane(if st.comment then st.depth - 1 else st.depth);
    DocumentLexes(front + tail);
    LexDocConcat(front, tail, START);
    LexDocInside(front, START);
    SameExtent(tail, u, v);
    ExtentOf(front, tail, START);
    PlusIs(|front|, n);
    assert tail == tail[..n] + tail[n..];
    NotEmptyList(items);
    OneStatement(front, tail[..n], tail[n..]);
  }

  lemma EditedFile(lines: seq<string>, lead: string, items: seq<string>, tail: string, u: Lexer, n: nat)
    requires items != [] && AllLines(lines) && LexAll(lead, START).Reading?
    requires Parses(Flat(lines) + (lead + RenderList(items) + tail))
    requires u.Reading? && Sane(u) && Final(LexDoc(tail, u)) && n <= |tail| && Extent(tail, u) == Some(n)
    requires Document(tail[n..]).Some?
    ensures Document(Flat(lines) + (lead + RenderList(items) + tail)) ==
              Some(lines + ([lead + RenderList(items) + tail[..n]] + Document(tail[n..]).value))
    ensures CanHold(LexAll(lead, START))
  {
    hide Document, Extent, LexDoc, Flat, AllLines, RenderList, LexAll, AllReadable;
    DocumentAfter(lines, lead + RenderList(items) + tail);
    ReadableBehind(lines, lead + RenderList(items) + tail);
    EditedStatement(lead, items, tail, u, n);
  }

  /** `text` is `s` with the statements from k to j replaced by one that holds the printed list. */
  ghost predicate LocalEdit(s: string, all: seq<string>, text: string, start: nat, end: nat, items: seq<string>, k: nat, j: nat) {
    && k < |all| && j < |all| && |Flat(all[..k])| <= start <= |s| && end <= |Flat(all[..j])| + |all[j]| <= |s|
    && Document(text) == Some(all[..k] + ([Lead(s, all, k, start) + RenderList(items) + Trail(s, all, j, end)] + all[j + 1..]))
    && CanHold(LexAll(Lead(s, all, k, start), START))
  }

  lemma LeadPart(s: string, all: seq<string>, k: nat, start: nat)
    requires Holds(s, all, k, start)
    ensures k < |all| && AllLines(all[..k]) && |Flat(all[..k])| <= start < |s|
    ensures s[..start] == Flat(all[..k]) + Lead(s, all, k, start) && LexAll(Lead(s, all, k, start), START).Reading?
  {
    hide Document, Extent, LexDoc, Flat, AllLines, LexAll;
    PartsOf(s, all, k, start);
    LeadIsInside(s, all, k, start);
    assert s[..start] == s[..|Flat(all[..k])|] + Lead(s, all, k, start);
  }

  lemma TrailPart(s: string, all: seq<string>, j: nat, end: nat)
    requires 0 < end <= |s| && Holds(s, all, j, end - 1) && s[end - 1] == ']'
    ensures j < |all| && |Flat(all[..j])| < end <= |Flat(all[..j])| + |all[j]| <= |s|
    ensures var n := |Trail(s, all, j, end)|;
            && n <= |s[end..]| && s[end..][..n] == Trail(s, all, j, end) && Document(s[end..][n..]) == Some(all[j + 1..])
  {
    hide Document, Extent, LexDoc, Flat, AllLines, LexAll;
    PartsOf(s, all, j, end - 1);
    assert s[end..][|Trail(s, all, j, end)|..] == s[|Flat(all[..j])| + |all[j]|..];
  }

  /** An accepted addition replaces the statements from the one that holds the skills line to the one that
      holds the end of the scanned list by a single statement, and keeps all others. */
  lemma EditIsLocal(s: string, all: seq<string>, start: nat, end: nat, items: seq<string>, k: nat, j: nat)
    requires 0 < end <= |s| && start <= |s| && s[end - 1] == ']' && items != []
    requires Holds(s, all, k, start) && Holds(s, all, j, end - 1)
    requires Parses(s[..start] + RenderList(items) + s[end..])
    ensures LocalEdit(s, all, s[..start] + RenderList(items) + s[end..], start, end, items, k, j)
  {
    hide *;
    LeadPart(s, all, k, start);
    TrailPart(s, all, j, end);
    BehindBracket(s, all, j, end);
    var lead, trail, tail := Lead(s, all, k, start), Trail(s, all, j, end), s[end..];
    FourTogether(Flat(all[..k]), lead, RenderList(items), tail);
    EditedFile(all[..k], lead, items, tail, LexAll(s[|Flat(all[..j])|..end], START), |trail|);
    IsLocal(s, all, s[..start] + RenderList(items) + tail, start, end, items, k, j);
  }

  lemma FourTogether(a: string, b: string, c: string, d: string)
    ensures (a + b) + c + d == a + (b + c + d)
  {
  }

  lemma IsLocal(s: string, all: seq<string>, text: string, start: nat, end: nat, items: seq<string>, k: nat, j: nat)
    requires k < |all| && j < |all| && |Flat(all[..k])| <= start <= |s| && end <= |Flat(all[..j])| + |all[j]| <= |s|
    requires Document(text) == Some(all[..k] + ([Lead(s, all, k, start) + RenderList(items) + Trail(s, all, j, end)] + all[j + 1..]))
    requires CanHold(LexAll(Lead(s, all, k, start), START))
    ensures LocalEdit(s, all, text, start, end, items, k, j)
  {
  }

  lemma LeadIsInside(s: string, all: seq<string>, k: nat, start: nat)
    requires Holds(s, all, k, start)
    ensures LexAll(Lead(s, all, k, start), START).Reading?
  {
    hide Document, Extent, LexDoc, Flat, AllLines, LexAll;
    PartsOf(s, all, k, start);
    var n := |Flat(all[..k])|;
    ExtentStates(s[n..], START, start - n);
    assert s[n..][..start - n] == Lead(s, all, k, start);
  }

  lemma PlainlyIsSane(depth: int)
    requires depth >= 0
    ensures Plainly(depth).Reading? && Sane(Plainly(depth))
  {
  }

  lemma PlusIs(m: nat, n: nat)
    ensures Plus(m, Some(n)) == Some(m + n)
  {
  }

  lemma NotEmptyList(items: seq<string>)
    ensures RenderList(items) != ""
  {
  }

  lemma ReadableBehind(lines: seq<string>, rest: string)
    requires AllLines(lines) && Parses(Flat(lines) + rest)
    ensures Document(rest).Some? && AllReadable(Document(rest).value)
  {
    hide IsLine, Document, Readable;
    DocumentAfter(lines, rest);
    AllReadableConcat(lines, Document(rest).value);
  }

  lemma OneStatement(front: string, trail: string, after: string)
    requires Extent(front + (trail + after), START) == Some(|front| + |trail|) && front != "" && Document(after).Some?
    ensures Document(front + (trail + after)) == Some([front + trail] + Document(after).value)
  {
    hide Extent, Document;
    var y, n := front + (trail + after), |front| + |trail|;
    assert y[..n] == front + trail && y[n..] == after;
    FirstStatement(y, n);
  }

  lemma FirstStatement(y: string, n: nat)
    requires Extent(y, START) == Some(n) && 0 < n <= |y| && Document(y[n..]).Some?
    ensures Document(y) == Some([y[..n]] + Document(y[n..]).value)
  {
    hide Extent;
  }

  // ---- Where the skills line and the end of its list lie ----

  lemma {:induction false} LineEndsInBreak(c: string, i: nat)
    requires i < |c|
    ensures LineEnd(c, i) < |c| ==> c[LineEnd(c, i) - 1] in LINE_BREAKS
    decreases |c| - i
  {
    if !(c[i] == '\r' && i + 1 < |c| && c[i + 1] == '\n') && !(c[i] in LINE_BREAKS || i + 1 == |c|) {
      LineEndsInBreak(c, i + 1);
    }
  }

  /** A skills line that is not the first line follows a line break. */
  lemma {:induction false} SkillsLineFollowsBreak(c: string, i: nat)
    requires i <= |c| && SkillsLineFrom(c, i).Some?
    ensures SkillsLineFrom(c, i).value > i ==> c[SkillsLineFrom(c, i).value - 1] in LINE_BREAKS
    ensures var r := SkillsLineFrom(c, i).value; IsSkillsLine(c[r..LineEnd(c, r)])
    decreases |c| - i
  {
    hide IsSkillsLine, LineEnd;
    var j := LineEnd(c, i);
    if !IsSkillsLine(c[i..j]) {
      LineEndsInBreak(c, i);
      SkillsLineFollowsBreak(c, j);
    }
  }

  lemma {:induction false} SpacesOnly(b: string)
    requires forall i :: 0 <= i < |b| ==> b[i] in LINE_BREAKS
    ensures LStrip(b) == ""
    decreases |b|
  {
    if b != "" {
      assert b[0] in LINE_BREAKS;
      assert forall i :: 0 <= i < |b[1..]| ==> b[1..][i] == b[i + 1];
      BreaksAreSpaces(b[0]);
      SpacesOnly(b[1..]);
    }
  }

  lemma BreaksAreSpaces(c: char)
    requires c in LINE_BREAKS
    ensures IsSpace(c)
  {
  }

  /** The line at i, from its first character. */
  lemma LineShape(c: string, i: nat)
    requires i < |c|
    ensures c[i] in {'\r', '\n'} ==> forall k :: i <= k < LineEnd(c, i) ==> c[k] in LINE_BREAKS
    ensures c[i] in {' ', '\t'} && i + 1 < |c| ==> LineEnd(c, i) == LineEnd(c, i + 1)
  {
  }

  /** A skills line goes on behind its indentation with neither an end nor a comment, all in one statement. */
  lemma {:induction false} SkillsLineGoesOn(c: string, start: nat, stop: nat)
    requires start < |c| && start < stop <= |c| && IsSkillsLine(c[start..LineEnd(c, start)])
    requires stop == |c| || c[stop - 1] == '\n'
    ensures GoesOn(c[start..stop])
    decreases |c| - start
  {
    hide IsSpace, LineEnd, IsSkillsLine;
    var line, ch := c[start..LineEnd(c, start)], c[start];
    LineShape(c, start);
    NotBlankLine(line);
    if ch == ' ' || ch == '\t' {
      if start + 1 < |c| {
        IndentedLine(c, start);
        SkillsLineGoesOn(c, start + 1, stop);
        assert c[start..stop][1..] == c[start + 1..stop];
      } else {
        OneCharLine(c, start);
      }
    } else if ch == '\r' || ch == '\n' {
      SpacesOnly(line);
    }
  }

  lemma NotBlankLine(line: string)
    requires IsSkillsLine(line)
    ensures LStrip(line) != "" && (line != "" ==> line[0] != '#')
  {
    assert line != "" && line[0] == '#' ==> LStrip(line) == line;
  }

  lemma IndentedLine(c: string, start: nat)
    requires start + 1 < |c| && c[start] in {' ', '\t'} && IsSkillsLine(c[start..LineEnd(c, start)])
    ensures IsSkillsLine(c[start + 1..LineEnd(c, start + 1)])
  {
    LineShape(c, start);
    hide LineEnd;
    assert c[start..LineEnd(c, start)][1..] == c[start + 1..LineEnd(c, start + 1)];
  }

  lemma OneCharLine(c: string, start: nat)
    requires start + 1 == |c| && c[start] in {' ', '\t'}
    ensures !IsSkillsLine(c[start..LineEnd(c, start)])
  {
    assert LineEnd(c, start) == |c|;
    assert c[start..|c|] == [c[start]] && [c[start]][1..] == "";
  }

  lemma {:induction false} ScanEndsAtBracket(s: string, depth: int, quote: Option<char>, escaped: bool)
    ensures Scan(s, depth, quote, escaped).Some? ==>
              1 <= Scan(s, depth, quote, escaped).value <= |s| && s[Scan(s, depth, quote, escaped).value - 1] == ']'
    decreases |s|
  {
    if s != "" {
      var st := Step(Open(depth, quote, escaped), s[0]);
      if st.Open? { ScanEndsAtBracket(s[1..], st.depth, st.quote, st.escaped); }
    }
  }

  lemma ListEndIsBracket(content: string, start: nat)
    requires start <= |content| && ListEnd(content, start).Some?
    ensures start < ListEnd(content, start).value <= |content| && content[ListEnd(content, start).value - 1] == ']'
  {
    var opening := Find(content, '[', start).value;
    ScanEndsAtBracket(content[opening..], 0, None, false);
    hide Scan;
  }

  // ---- When the top-level list gains the path ----

  /** A list of the key `skills` has been opened, and only blanks and comments stand in it so far. */
  predicate OpensList(value: string) {
    var v := TrimLeft(value);
    v != "" && v[0] == '[' && SkipBlank(v[1..]) == ""
  }

  /** Whether a list printed behind `lead` in statement k, replacing statements k to j, is what the file's
      top-level list then is: the line starts the statement; or it stands in a comment at the head of the
      top-level list itself, whose key is quoted; or the scan has swallowed whole statements up to another
      list with these very items, which the file then has for its top-level one. */
  ghost predicate Gains(all: seq<string>, k: nat, j: nat, lead: string, items: seq<string>) {
    && k < |all| && j < |all| && BeforeSkills(all[..k])
    && (|| lead == ""
        || match Interpret(lead)
           case Pair(key, value) =>
             if key == "skills" then OpensList(value) else k < j && TopSkills(all[j + 1..]) == Some(items)
           case _ => false)
  }

  lemma RestOfStatement(s: string, all: seq<string>, k: nat, start: nat)
    requires Holds(s, all, k, start)
    ensures var stop := |Flat(all[..k])| + |all[k]|;
            && start < stop <= |s| && (stop == |s| || s[stop - 1] == '\n')
            && all[k] == Lead(s, all, k, start) + s[start..stop]
  {
    hide Document, LexDoc, Flat, AllLines, Extent, LexAll;
    PartsOf(s, all, k, start);
    var n, m := |Flat(all[..k])|, |all[k]|;
    var x := s[n..];
    StatementEnds(x, m);
    assert x[m - 1] == s[n + m - 1];
    assert all[k] == s[n..n + m] == s[n..start] + s[start..n + m];
  }

  lemma StatementEnds(x: string, m: nat)
    requires Extent(x, START) == Some(m) && 0 < m <= |x|
    ensures m == |x| || x[m - 1] == '\n'
  {
    hide Extent, LexAll;
    ExtentStates(x, START, m - 1);
    ExtentStates(x, START, m);
    assert x[..m] == x[..m - 1] + [x[m - 1]];
    LexConcat(x[..m - 1], [x[m - 1]], START);
    LexOne(x[m - 1], LexAll(x[..m - 1], START));
  }

  /** A statement that starts with the printed list reads as that list whenever it can be read. */
  lemma StartsWithPrinted(items: seq<string>, trail: string, more: seq<string>)
    requires AllReadable([RenderList(items) + trail] + more)
    ensures TopSkills([RenderList(items) + trail] + more) == Some(items)
  {
    hide ReadItems, RenderItems, RenderList, EndsLine, AllInBasicPlane;
    var body := RenderItems(items) + ("]" + trail);
    var value := " [\n" + body;
    var x := RenderList(items) + trail;
    assert ([x] + more)[0] == x && ([x] + more)[1..] == more;
    assert x == "skills =" + value by { PrintedSpelled(items, trail); }
    PrintedKey(value);
    ValueReads(items, trail);
  }

  lemma PrintedSpelled(items: seq<string>, trail: string)
    ensures RenderList(items) + trail == "skills =" + (" [\n" + (RenderItems(items) + ("]" + trail)))
  {
    hide RenderItems;
  }

  lemma ValueReads(items: seq<string>, trail: string)
    ensures var r := ReadList(" [\n" + (RenderItems(items) + ("]" + trail))); r.Some? ==> r == Some(items)
  {
    hide ReadItems, RenderItems, EndsLine, AllInBasicPlane;
    var body := RenderItems(items) + ("]" + trail);
    var value := " [\n" + body;
    assert value[1..] == "[\n" + body && ("[\n" + body)[1..] == "\n" + body;
    assert TrimLeft("[\n" + body) == "[\n" + body;
    assert TrimLeft(value) == "[\n" + body;
    SkipNewline(body);
    ReadUndoesPrint(items, trail);
  }

  /** A top-level list with the printed one inside it has its items exactly when nothing but blanks and
      comments stands before them. */
  lemma ReadsAround(w: string, items: seq<string>, trail: string)
    requires items != [] && w != "" && w[|w| - 1] in LINE_BREAKS && CanHold(LexAll(w, START))
    requires ReadList(w + (RenderList(items) + trail)).Some?
    ensures ReadList(w + (RenderList(items) + trail)) == Some(items) <==> OpensList(w)
  {
    hide ReadItems, RenderList, EndsLine, LexAll, TrimLeft, SkipBlank;
    var y := RenderList(items) + trail;
    BlankEnd(w);
    TrimAround(w, y, 0);
    var v := TrimLeft(w);
    assert (v + y)[0] == v[0] && (v + y)[1..] == v[1..] + y && v == [v[0]] + v[1..];
    LexStep(v[0], v[1..], START);
    if v[0] == '[' { ListAround(v[1..], items, trail); }
  }

  lemma KeepsOrder(s: string, all: seq<string>, k: nat, j: nat, a: nat, b: nat)
    requires Holds(s, all, k, a) && Holds(s, all, j, b) && a <= b
    ensures k <= j
  {
    hide Document, Extent, AllLines;
    if j < k {
      FlatGrows(all, j + 1, k);
      FlatOneMore(all, j);
    }
  }

  lemma {:induction false} FlatConcat(a: seq<string>, b: seq<string>)
    ensures Flat(a + b) == Flat(a) + Flat(b)
  {
    if a == [] {
      assert a + b == b;
    } else {
      assert (a + b)[1..] == a[1..] + b;
      FlatConcat(a[1..], b);
    }
  }

  lemma FlatOneMore(all: seq<string>, j: nat)
    requires j < |all|
    ensures |Flat(all[..j + 1])| == |Flat(all[..j])| + |all[j]|
  {
    assert all[..j + 1] == all[..j] + [all[j]] && [all[j]][1..] == [];
    FlatConcat(all[..j], [all[j]]);
  }

  lemma FlatGrows(all: seq<string>, i: nat, k: nat)
    requires i <= k <= |all|
    ensures |Flat(all[..i])| <= |Flat(all[..k])|
  {
    assert all[..k] == all[..i] + all[i..k];
    FlatConcat(all[..i], all[i..k]);
  }

  /** What the top-level list is after statements k to j have become one. */
  lemma TopSkillsAfter(all: seq<string>, k: nat, j: nat, lead: string, u: string, items: seq<string>, trail: string, was: seq<string>)
    requires k <= j < |all| && items != [] && items != was
    requires all[k] == lead + u && GoesOn(u) && CanHold(LexAll(lead, START)) && (lead != "" ==> lead[|lead| - 1] in LINE_BREAKS)
    requires AllReadable(all) && TopSkills(all) == Some(was)
    requires AllReadable(all[..k] + ([lead + RenderList(items) + trail] + all[j + 1..]))
    ensures TopSkills(all[..k] + ([lead + RenderList(items) + trail] + all[j + 1..])) == Some(items) <==> Gains(all, k, j, lead, items)
  {
    hide *;
    var x, rest := lead + RenderList(items) + trail, all[j + 1..];
    FromStatement(all, k);
    ReplacedTop(all[..k], [all[k]] + all[k + 1..], [x] + rest, was, items);
    if BeforeSkills(all[..k]) {
      if lead == "" {
        NoLead(items, trail);
        StartsWithPrinted(items, trail, rest);
      } else {
        InsideAStatement(all, k, j, lead, u, items, trail, was);
      }
    }
    GainsIs(all, k, j, lead, items);
  }

  lemma FromStatement(all: seq<string>, k: nat)
    requires k < |all|
    ensures all == all[..k] + ([all[k]] + all[k + 1..])
  {
  }

  lemma NoLead(items: seq<string>, trail: string)
    ensures "" + RenderList(items) + trail == RenderList(items) + trail
  {
    hide RenderList;
  }

  lemma GainsIs(all: seq<string>, k: nat, j: nat, lead: string, items: seq<string>)
    requires k < |all| && j < |all|
    ensures !BeforeSkills(all[..k]) ==> !Gains(all, k, j, lead, items)
    ensures BeforeSkills(all[..k]) && lead == "" ==> Gains(all, k, j, lead, items)
  {
    hide BeforeSkills;
  }

  /** Of two files that agree up to a point, one with a top-level list: what the other's can be. */
  lemma ReplacedTop(before: seq<string>, here: seq<string>, there: seq<string>, was: seq<string>, items: seq<string>)
    requires AllReadable(before + here) && AllReadable(before + there) && TopSkills(before + here) == Some(was) && was != items
    ensures AllReadable(here) && AllReadable(there)
    ensures TopSkills(before + there) == Some(items) <==> BeforeSkills(before) && TopSkills(there) == Some(items)
    ensures BeforeSkills(before) ==> TopSkills(here) == Some(was)
    ensures !BeforeSkills(before) ==> TopSkills(before + there) == Some(was)
  {
    hide *;
    TopSkillsOf(before, here);
    TopSkillsOf(before, there);
    AllReadableConcat(before, here);
    AllReadableConcat(before, there);
  }

  lemma TopOfFirst(x: string, more: seq<string>)
    requires AllReadable([x] + more)
    ensures Readable(x)
    ensures Interpret(x).Header? ==> TopSkills([x] + more) == None
    ensures Interpret(x).Pair? ==>
              TopSkills([x] + more) == if Interpret(x).key == "skills" then ReadList(Interpret(x).value) else TopSkills(more)
  {
    hide Interpret, ReadList;
    assert ([x] + more)[1..] == more;
  }

  lemma InsideAStatement(all: seq<string>, k: nat, j: nat, lead: string, u: string, items: seq<string>, trail: string, was: seq<string>)
    requires k <= j < |all| && items != [] && items != was && lead != "" && BeforeSkills(all[..k])
    requires all[k] == lead + u && GoesOn(u) && CanHold(LexAll(lead, START)) && lead[|lead| - 1] in LINE_BREAKS
    requires AllReadable([all[k]] + all[k + 1..]) && TopSkills([all[k]] + all[k + 1..]) == Some(was)
    requires AllReadable([lead + RenderList(items) + trail] + all[j + 1..])
    ensures TopSkills([lead + RenderList(items) + trail] + all[j + 1..]) == Some(items) <==> Gains(all, k, j, lead, items)
  {
    hide *;
    var y := RenderList(items) + trail;
    assert lead + RenderList(items) + trail == lead + y;
    TopOfFirst(all[k], all[k + 1..]);
    TopOfFirst(lead + y, all[j + 1..]);
    var key, w := KeyOfLead(lead, u, items, trail);
    GainsInside(all, k, j, lead, key, w, items);
    if key == "skills" {
      InsideItsList(lead, w, items, trail, all[j + 1..]);
    } else if j == k {
      assert all[j + 1..] == all[k + 1..];
    }
  }

  /** The statement's key and the part of its value in front of the line. */
  lemma KeyOfLead(lead: string, u: string, items: seq<string>, trail: string) returns (key: string, w: string)
    requires lead != "" && lead[|lead| - 1] in LINE_BREAKS && CanHold(LexAll(lead, START)) && GoesOn(u) && Readable(lead + u)
    ensures Interpret(lead + u).Pair? ==> Interpret(lead + u) == Pair(key, w + u)
    ensures !Interpret(lead + u).Header? ==>
              && Interpret(lead + (RenderList(items) + trail)) == Pair(key, w + (RenderList(items) + trail))
              && Interpret(lead) == Pair(key, w) && Interpret(lead + u).Pair?
              && w != "" && w[|w| - 1] in LINE_BREAKS && CanHold(LexAll(w, START))
  {
    hide *;
    if !Interpret(lead + u).Header? {
      var y := RenderList(items) + trail;
      PrintedForReader(items, trail);
      BreakIsNoKey(lead[|lead| - 1]);
      ReadableIsNotBad(lead + u);
      key, w := KeyStays(lead, u, y);
      KeyBehind(lead, key, w, u);
      KeyBehind(lead, key, w, y);
      KeyBehind(lead, key, w, "");
      assert lead + "" == lead && w + "" == w;
    } else {
      key, w := "", "";
      HeaderIsNoPair(lead + u);
    }
  }

  lemma HeaderIsNoPair(x: string)
    requires Interpret(x).Header?
    ensures !Interpret(x).Pair?
  {
    hide Interpret;
  }

  lemma KeyBehind(p: string, key: string, w: string, y: string)
    requires HasKey(p, key, w, y)
    ensures Interpret(p + y) == Pair(key, w + y) && w != "" && w[|w| - 1] == p[|p| - 1]
    ensures LexAll(w, START) == LexAll(p, START)
  {
    hide Interpret, LexAll;
  }

  /** What `Gains` says of a line inside a statement. */
  lemma GainsInside(all: seq<string>, k: nat, j: nat, lead: string, key: string, w: string, items: seq<string>)
    requires k < |all| && j < |all| && BeforeSkills(all[..k]) && lead != "" && Interpret(lead) == Pair(key, w)
    ensures Gains(all, k, j, lead, items) <==>
              if key == "skills" then OpensList(w) else k < j && TopSkills(all[j + 1..]) == Some(items)
  {
    hide Interpret, OpensList, BeforeSkills, TopSkills;
  }

  lemma InsideItsList(lead: string, w: string, items: seq<string>, trail: string, more: seq<string>)
    requires w != "" && w[|w| - 1] in LINE_BREAKS && items != [] && CanHold(LexAll(w, START))
    requires Readable(lead + (RenderList(items) + trail))
    requires Interpret(lead + (RenderList(items) + trail)) == Pair("skills", w + (RenderList(items) + trail))
    ensures ReadList(w + (RenderList(items) + trail)) == Some(items) <==> OpensList(w)
  {
    hide *;
    ReadableList(lead + (RenderList(items) + trail));
    ReadsAround(w, items, trail);
  }

  lemma BreakIsNoKey(c: char)
    requires c in LINE_BREAKS
    ensures !IsBare(c) && c !in " \t\"'="
  {
  }

  lemma ReadableIsNotBad(x: string)
    requires Readable(x)
    ensures !Interpret(x).Bad?
  {
  }

  lemma ReadableList(x: string)
    requires Readable(x) && Interpret(x).Pair? && Interpret(x).key == "skills"
    ensures ReadList(Interpret(x).value).Some?
  {
  }

  /** What an accepted addition did: the text it made, and where it cut. */
  lemma AdditionCuts(s: string, path: string)
    requires AddPath(s, path).Updated?
    ensures Loads(s).Some? && path !in Loads(s).value
    ensures SkillsLineFrom(s, 0).Some? && SkillsLineFrom(s, 0).value < |s| && ListEnd(s, SkillsLineFrom(s, 0).value).Some?
    ensures var start := SkillsLineFrom(s, 0).value;
            var end := ListEnd(s, start).value;
            && start < end <= |s| && s[end - 1] == ']'
            && AddPath(s, path).text == s[..start] + RenderList(Loads(s).value + [path]) + s[end..]
            && Parses(AddPath(s, path).text)
  {
    hide RenderList, SkillsLineFrom, ListEnd, Loads, Parses;
    var start := SkillsLineFrom(s, 0).value;
    ListEndIsBracket(s, start);
    ListEndInside(s, start);
  }

  /** A file's statements and list, the first skills line, and the end of the list scanned from there. */
  ghost predicate CutsAt(s: string, all: seq<string>, was: seq<string>, start: nat, end: nat) {
    && Document(s) == Some(all) && Loads(s) == Some(was)
    && SkillsLineFrom(s, 0) == Some(start) && start < |s| && ListEnd(s, start) == Some(end)
    && start < end <= |s|
  }

  /** What became of a file with an accepted addition: statements k to j have become one with the printed
      list, and the top-level list has gained the path if and only if `Gains` says so. */
  ghost predicate Edited(s: string, path: string, all: seq<string>, was: seq<string>, start: nat, end: nat, k: nat, j: nat)
    requires AddPath(s, path).Updated?
  {
    var text := AddPath(s, path).text;
    && CutsAt(s, all, was, start, end) && k <= j && Holds(s, all, k, start) && Holds(s, all, j, end - 1)
    && LocalEdit(s, all, text, start, end, was + [path], k, j)
    && (Loads(text) == Some(was + [path]) <==> Gains(all, k, j, Lead(s, all, k, start), was + [path]))
  }

  lemma CutIsLocal(s: string, all: seq<string>, items: seq<string>, text: string, start: nat, end: nat, k: nat, j: nat)
    requires 0 < end <= |s| && start <= |s| && s[end - 1] == ']' && items != []
    requires Holds(s, all, k, start) && Holds(s, all, j, end - 1)
    requires text == s[..start] + RenderList(items) + s[end..] && Parses(text)
    ensures LocalEdit(s, all, text, start, end, items, k, j)
  {
    hide *;
    EditIsLocal(s, all, start, end, items, k, j);
  }

  /** The statement that holds the first skills line, in front of that line and from there on. */
  lemma CutStatement(s: string, all: seq<string>, start: nat, k: nat) returns (u: string)
    requires SkillsLineFrom(s, 0) == Some(start) && Holds(s, all, k, start)
    ensures k < |all| && |Flat(all[..k])| <= start <= |s|
    ensures all[k] == Lead(s, all, k, start) + u && GoesOn(u)
    ensures var lead := Lead(s, all, k, start); lead != "" ==> lead[|lead| - 1] in LINE_BREAKS
  {
    hide *;
    LeadEndsInBreak(s, all, k, start);
    RestOfStatement(s, all, k, start);
    SkillsLineFollowsBreak(s, 0);
    var stop := |Flat(all[..k])| + |all[k]|;
    SkillsLineGoesOn(s, start, stop);
    u := s[start..stop];
  }

  lemma CutGains(s: string, all: seq<string>, was: seq<string>, items: seq<string>, text: string, start: nat, end: nat, k: nat, j: nat)
    requires SkillsLineFrom(s, 0) == Some(start) && items != [] && items != was && Parses(text)
    requires AllReadable(all) && TopSkills(all) == Some(was)
    requires Holds(s, all, k, start) && k <= j && LocalEdit(s, all, text, start, end, items, k, j)
    ensures k < |all| && |Flat(all[..k])| <= start <= |s|
    ensures Loads(text) == Some(items) <==> Gains(all, k, j, Lead(s, all, k, start), items)
  {
    hide *;
    var u := CutStatement(s, all, start, k);
    EditedParts(s, all, text, start, end, items, k, j);
    LoadsParts(text);
    TopSkillsAfter(all, k, j, Lead(s, all, k, start), u, items, Trail(s, all, j, end), was);
  }

  lemma WhereItCuts(s: string, path: string) returns (all: seq<string>, was: seq<string>, start: nat, end: nat)
    requires AddPath(s, path).Updated?
    ensures CutsAt(s, all, was, start, end) && s[end - 1] == ']' && AllReadable(all) && TopSkills(all) == Some(was)
    ensures AddPath(s, path).text == s[..start] + RenderList(was + [path]) + s[end..] && Parses(AddPath(s, path).text)
  {
    hide Document, RenderList, SkillsLineFrom, ListEnd, AddPath, AllReadable, TopSkills;
    AdditionCuts(s, path);
    all, was := Document(s).value, Loads(s).value;
    start := SkillsLineFrom(s, 0).value;
    end := ListEnd(s, start).value;
  }

  /** For every file, whatever stands in it, an accepted addition does what `Edited` says. */
  lemma AdditionGainsIff(s: string, path: string)
    returns (all: seq<string>, was: seq<string>, start: nat, end: nat, k: nat, j: nat)
    requires AddPath(s, path).Updated?
    ensures Edited(s, path, all, was, start, end, k, j)
  {
    hide Loads, AddPath, RenderList, SkillsLineFrom, ListEnd, Document, AllReadable, TopSkills, Holds, LocalEdit, Gains, Parses, Lead;
    all, was, start, end := WhereItCuts(s, path);
    var text, items := AddPath(s, path).text, was + [path];
    k := StatementAt(s, start);
    j := StatementAt(s, end - 1);
    KeepsOrder(s, all, k, j, start, end - 1);
    CutIsLocal(s, all, items, text, start, end, k, j);
    CutGains(s, all, was, items, text, start, end, k, j);
  }

  lemma LoadsParts(s: string)
    requires Parses(s)
    ensures Document(s).Some? && AllReadable(Document(s).value) && Loads(s) == TopSkills(Document(s).value)
  {
  }

  lemma LeadEndsInBreak(s: string, all: seq<string>, k: nat, start: nat)
    requires SkillsLineFrom(s, 0) == Some(start) && Holds(s, all, k, start)
    ensures k < |all| && |Flat(all[..k])| <= start <= |s|
    ensures var lead := Lead(s, all, k, start); lead != "" ==> lead[|lead| - 1] in LINE_BREAKS
  {
    hide Document, Extent, AllLines, Flat, SkillsLineFrom;
    SkillsLineFollowsBreak(s, 0);
  }

  lemma EditedParts(s: string, all: seq<string>, text: string, start: nat, end: nat, items: seq<string>, k: nat, j: nat)
    requires LocalEdit(s, all, text, start, end, items, k, j)
    ensures k < |all| && j < |all| && |Flat(all[..k])| <= start <= |s| && end <= |Flat(all[..j])| + |all[j]| <= |s|
    ensures Document(text) == Some(all[..k] + ([Lead(s, all, k, start) + RenderList(items) + Trail(s, all, j, end)] + all[j + 1..]))
    ensures CanHold(LexAll(Lead(s, all, k, start), START))
  {
  }

  /** All other statements are kept exactly when the scan ended in the statement in which it began. */
  lemma OthersKeptIff(s: string, path: string, all: seq<string>, was: seq<string>, start: nat, end: nat, k: nat, j: nat)
    requires AddPath(s, path).Updated? && Edited(s, path, all, was, start, end, k, j)
    ensures var text := AddPath(s, path).text;
            && Document(text).Some?
            && (|Document(text).value| == |all| <==> j == k)
            && (j == k ==> forall i :: 0 <= i < |all| && i != k ==> Document(text).value[i] == all[i])
  {
    hide AddPath, Document, RenderList, Holds, CutsAt, Gains;
    var x := Lead(s, all, k, start) + RenderList(was + [path]) + Trail(s, all, j, end);
    if j == k {
      assert all[..k] + ([x] + all[k + 1..]) == all[k := x];
    }
  }

  /** In a file whose scan ends where it began and whose edited statement is not a list under a quoted key
      `skills`, the path reaches the top-level list if and only if the first skills line starts a statement
      and neither a table header nor the key `skills` stands before it. */
  lemma OrdinaryFileGainsIff(s: string, path: string, all: seq<string>, was: seq<string>, start: nat, end: nat, k: nat, j: nat)
    requires AddPath(s, path).Updated? && Edited(s, path, all, was, start, end, k, j)
    requires k == j < |all| && |Flat(all[..k])| <= start <= |s|
    requires Lead(s, all, k, start) != "" ==>
               !Interpret(Lead(s, all, k, start)).Pair? || Interpret(Lead(s, all, k, start)).key != "skills"
    ensures Loads(AddPath(s, path).text) == Some(was + [path]) <==> Lead(s, all, k, start) == "" && BeforeSkills(all[..k])
  {
    hide AddPath, Loads, Holds, LocalEdit, CutsAt, Interpret, BeforeSkills;
  }
}
