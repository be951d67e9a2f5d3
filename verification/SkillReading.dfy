/** How far reading a key or a list depends on the text at hand: the readers and the lexer agree on where
    strings, comments and items end. */
module SkillReading {
  import opened Options
  import opened SkillListReader
  import opened SkillListText
  import opened SkillToml

  function Plainly(depth: int): Lexer {
    Reading(depth, None, false, false)
  }

  function InString(depth: int, q: char): Lexer {
    Reading(depth, Some(q), false, false)
  }

  // ---- Strings ----

  lemma {:induction false} HexDigits(s: string, acc: int)
    requires HexNumber(s, acc).Some?
    ensures forall i :: 0 <= i < |s| ==> HexValue(s[i]).Some?
    decreases |s|
  {
    if s != "" {
      HexDigits(s[1..], 16 * acc + HexValue(s[0]).value);
      assert s == [s[0]] + s[1..];
    }
  }

  lemma {:induction false} LexHex(s: string, depth: int)
    requires forall i :: 0 <= i < |s| ==> HexValue(s[i]).Some?
    ensures LexAll(s, InString(depth, '"')) == InString(depth, '"')
    decreases |s|
  {
    if s != "" {
      assert forall i :: 0 <= i < |s[1..]| ==> s[1..][i] == s[i + 1];
      LexHex(s[1..], depth);
    }
  }

  /** How many characters one character of a basic string takes. */
  function CharSize(s: string): (n: nat)
    requires s != ""
    ensures n >= 1
  {
    if s[0] != '\\' then 1 else if |s| < 2 then 2 else if s[1] == 'u' then 6 else if s[1] == 'U' then 10 else 2
  }

  lemma ReadCharSize(s: string)
    requires s != "" && ReadChar(s).Ok?
    ensures CharSize(s) <= |s| && ReadChar(s).rest == s[CharSize(s)..]
  {
    hide ScalarEscape;
  }

  /** A character that lies within `a` is read the same whatever follows. */
  lemma ReadCharLocal(a: string, y: string)
    requires a != "" && CharSize(a + y) <= |a|
    ensures ReadChar(a + y).Ok? ==> ReadChar(a) == Read.Ok(ReadChar(a + y).value, a[CharSize(a + y)..])
    ensures ReadChar(a).Ok? ==> ReadChar(a + y) == Read.Ok(ReadChar(a).value, ReadChar(a).rest + y)
    ensures CharSize(a) == CharSize(a + y)
  {
    hide ScalarEscape;
    var s := a + y;
    assert s[0] == a[0];
    if |a| >= 2 { assert s[1] == a[1] && s[2..] == a[2..] + y; }
    if |a| >= 6 { assert s[2..6] == a[2..6] && s[6..] == a[6..] + y; }
    if |a| >= 10 { assert s[2..10] == a[2..10] && s[10..] == a[10..] + y; }
    assert s[1..] == a[1..] + y;
  }

  /** The lexer stays in the string over each character, and over a part of it. */
  lemma LexChar(s: string, m: nat, depth: int)
    requires s != "" && s[0] != '"' && ReadChar(s).Ok? && m <= CharSize(s)
    ensures CharSize(s) <= |s|
    ensures var st := LexAll(s[..m], InString(depth, '"'));
            st.Reading? && st.quote == Some('"') && (m == CharSize(s) ==> st == InString(depth, '"'))
  {
    ReadCharSize(s);
    var inside := InString(depth, '"');
    if m == 0 {
      assert s[..0] == "";
    } else if s[0] != '\\' {
      assert s[..1] == [s[0]] && [s[0]][1..] == "";
    } else {
      var escaped := inside.(escaped := true);
      assert s[..m] == [s[0]] + s[1..m];
      LexStep(s[0], s[1..m], inside);
      if m >= 2 {
        assert s[1..m] == [s[1]] + s[2..m];
        LexStep(s[1], s[2..m], escaped);
        if m > 2 {
          HexDigits(s[2..CharSize(s)], 0);
          assert forall i :: 0 <= i < m - 2 ==> s[2..m][i] == s[2..CharSize(s)][i];
          LexHex(s[2..m], depth);
        } else {
          assert s[2..2] == "";
        }
      } else {
        assert s[1..1] == "";
      }
    }
  }

  lemma LexStep(c: char, s: string, st: Lexer)
    ensures LexAll([c] + s, st) == LexAll(s, Lex(st, c))
  {
    assert ([c] + s)[1..] == s;
  }

  lemma CharInside(a: string, y: string, n: nat, depth: int)
    requires a != "" && a[0] != '"' && ReadChar(a + y).Ok? && n == CharSize(a + y) <= |a|
    ensures n > 0 && (a + y)[n..] == a[n..] + y
    ensures ReadChar(a + y).rest == a[n..] + y && ReadChar(a).Ok? && ReadChar(a).rest == a[n..]
    ensures LexAll(a, InString(depth, '"')) == LexAll(a[n..], InString(depth, '"'))
  {
    hide ReadChar, LexAll;
    var s := a + y;
    ReadCharSize(s);
    ReadCharLocal(a, y);
    LexChar(s, n, depth);
    assert s[..n] == a[..n] && a == a[..n] + a[n..] && s[n..] == a[n..] + y;
    LexConcat(a[..n], a[n..], InString(depth, '"'));
  }

  /** If the lexer is outside the string at the end of `a`, the string ends within `a`. */
  lemma {:induction false} BasicInside(a: string, y: string, depth: int)
    requires LexAll(a, InString(depth, '"')).Reading? && LexAll(a, InString(depth, '"')).quote.None?
    requires ReadString(a + y).Ok?
    ensures ReadString(a).Ok? && |ReadString(a).rest| < |a| && ReadString(a).rest == a[|a| - |ReadString(a).rest|..]
    ensures LexAll(ReadString(a).rest, Plainly(depth)) == LexAll(a, InString(depth, '"'))
    ensures a[|a| - |ReadString(a).rest| - 1] == '"'
    decreases |a|
  {
    hide ReadChar, LexAll;
    EmptyLexes(InString(depth, '"'));
    var s := a + y;
    assert s[0] == a[0] && s[1..] == a[1..] + y;
    if a[0] == '"' {
      QuoteCloses(a, depth);
    } else {
      ReadCharSize(s);
      if CharSize(s) > |a| { assert s[..|a|] == a; LexChar(s, |a|, depth); }
      CharInside(a, y, CharSize(s), depth);
      BasicInside(a[CharSize(s)..], y, depth);
    }
  }

  lemma EmptyLexes(st: Lexer)
    ensures LexAll("", st) == st
  {
  }

  lemma QuoteCloses(a: string, depth: int)
    requires a != "" && a[0] == '"'
    ensures LexAll(a, InString(depth, '"')) == LexAll(a[1..], Plainly(depth))
  {
  }

  /** A string that ends within `a` is read the same whatever follows. */
  lemma {:induction false} BasicLocal(a: string, y: string)
    requires ReadString(a).Ok?
    ensures ReadString(a + y) == Read.Ok(ReadString(a).value, ReadString(a).rest + y)
    decreases |a|
  {
    hide ReadChar;
    var s := a + y;
    assert s[0] == a[0] && s[1..] == a[1..] + y;
    if a[0] != '"' {
      ReadCharSize(a);
      SizeInside(a, y);
      ReadCharLocal(a, y);
      BasicLocal(ReadChar(a).rest, y);
    }
  }

  lemma SizeInside(a: string, y: string)
    requires a != "" && CharSize(a) <= |a|
    ensures CharSize(a + y) == CharSize(a)
  {
  }

  lemma {:induction false} LiteralInside(a: string, y: string, depth: int)
    requires LexAll(a, InString(depth, '\'')).Reading? && LexAll(a, InString(depth, '\'')).quote.None?
    requires ReadLiteral(a + y).Ok?
    ensures ReadLiteral(a).Ok? && |ReadLiteral(a).rest| < |a| && ReadLiteral(a).rest == a[|a| - |ReadLiteral(a).rest|..]
    ensures LexAll(ReadLiteral(a).rest, Plainly(depth)) == LexAll(a, InString(depth, '\''))
    ensures a[|a| - |ReadLiteral(a).rest| - 1] == '\''
    decreases |a|
  {
    var s := a + y;
    assert a != "";
    assert s[0] == a[0] && s[1..] == a[1..] + y;
    if a[0] != '\'' { LiteralInside(a[1..], y, depth); }
  }

  lemma {:induction false} LiteralLocal(a: string, y: string)
    requires ReadLiteral(a).Ok?
    ensures ReadLiteral(a + y) == Read.Ok(ReadLiteral(a).value, ReadLiteral(a).rest + y)
    decreases |a|
  {
    var s := a + y;
    assert s[0] == a[0] && s[1..] == a[1..] + y;
    if a[0] != '\'' { LiteralLocal(a[1..], y); }
  }

  // ---- Blanks, newlines and comments between items ----

  lemma {:induction false} AfterLineLocal(c: string, y: string)
    ensures '\n' in c ==> AfterLine(c + y) == AfterLine(c) + y
    ensures '\n' !in c ==> AfterLine(c) == "" && AfterLine(c + y) == AfterLine(y)
    decreases |c|
  {
    if c == "" {
      assert c + y == y;
    } else {
      assert (c + y)[1..] == c[1..] + y;
      assert '\n' in c <==> c[0] == '\n' || '\n' in c[1..] by { assert c == [c[0]] + c[1..]; }
      if c[0] != '\n' { AfterLineLocal(c[1..], y); }
    }
  }

  lemma {:induction false} LexComment(c: string, depth: int)
    requires depth > 0
    ensures LexAll(c, Reading(depth, None, false, true)) ==
              if '\n' in c then LexAll(AfterLine(c), Plainly(depth)) else Reading(depth, None, false, true)
    decreases |c|
  {
    if c != "" {
      assert '\n' in c <==> c[0] == '\n' || '\n' in c[1..] by { assert c == [c[0]] + c[1..]; }
      if c[0] != '\n' { LexComment(c[1..], depth); }
    }
  }

  lemma CommentAround(c: string, y: string, depth: int)
    requires depth > 0 && c != "" && c[0] == '#'
    ensures |AfterLine(c)| < |c| && AfterLine(c) == c[|c| - |AfterLine(c)|..]
    ensures SkipBlank(c) == SkipBlank(AfterLine(c)) && SkipBlank(c + y) == SkipBlank(AfterLine(c + y))
    ensures '\n' in c ==> AfterLine(c + y) == AfterLine(c) + y && LexAll(c, Plainly(depth)) == LexAll(AfterLine(c), Plainly(depth))
    ensures '\n' !in c ==> AfterLine(c) == "" && AfterLine(c + y) == AfterLine(y)
    ensures '\n' !in c ==> LexAll(c, Plainly(depth)) == Reading(depth, None, false, true)
  {
    AfterLineLocal(c, y);
    AfterLineIsSuffix(c);
    CommentLexed(c, depth);
    assert (c + y)[0] == '#';
    hide AfterLine, LexAll;
  }

  lemma CommentLexed(c: string, depth: int)
    requires depth > 0 && c != "" && c[0] == '#'
    ensures LexAll(c, Plainly(depth)) == if '\n' in c then LexAll(AfterLine(c), Plainly(depth)) else Reading(depth, None, false, true)
  {
    LexComment(c[1..], depth);
    assert '\n' in c <==> '\n' in c[1..] by { assert c == [c[0]] + c[1..]; }
    assert AfterLine(c) == AfterLine(c[1..]);
  }

  /** What skipping leaves of `c`, and what it does to the text behind `c`. */
  lemma {:induction false} SkipAround(c: string, y: string, depth: int)
    requires depth > 0
    ensures SkipBlank(c) != "" ==>
              SkipBlank(c + y) == SkipBlank(c) + y && LexAll(SkipBlank(c), Plainly(depth)) == LexAll(c, Plainly(depth))
    ensures SkipBlank(c) == "" ==>
              || (LexAll(c, Plainly(depth)) == Plainly(depth) && SkipBlank(c + y) == SkipBlank(y))
              || (LexAll(c, Plainly(depth)) == Reading(depth, None, false, true) && SkipBlank(c + y) == SkipBlank(AfterLine(y)))
    ensures |SkipBlank(c)| <= |c| && SkipBlank(c) == c[|c| - |SkipBlank(c)|..]
    decreases |c|
  {
    hide SkipBlank, LexAll, AfterLine;
    if c == "" {
      NothingToSkip(y, depth);
      assert c + y == y;
    } else if c[0] == ' ' || c[0] == '\t' || c[0] == '\n' || c[0] == '\r' {
      BlankAround(c, y, depth);
      SkipAround(c[1..], y, depth);
    } else if c[0] == '#' {
      CommentAround(c, y, depth);
      NothingToSkip(y, depth);
      SkipAround(AfterLine(c), y, depth);
    } else {
      NothingSkipped(c, y);
    }
  }

  lemma NothingToSkip(y: string, depth: int)
    ensures SkipBlank("") == "" && LexAll("", Plainly(depth)) == Plainly(depth)
  {
  }

  lemma BlankAround(c: string, y: string, depth: int)
    requires depth > 0 && c != "" && (c[0] == ' ' || c[0] == '\t' || c[0] == '\n' || c[0] == '\r')
    ensures SkipBlank(c) == SkipBlank(c[1..]) && SkipBlank(c + y) == SkipBlank(c[1..] + y)
    ensures LexAll(c, Plainly(depth)) == LexAll(c[1..], Plainly(depth))
  {
    assert (c + y)[1..] == c[1..] + y;
  }

  lemma NothingSkipped(c: string, y: string)
    requires c != "" && c[0] != ' ' && c[0] != '\t' && c[0] != '\n' && c[0] != '\r' && c[0] != '#'
    ensures SkipBlank(c) == c && SkipBlank(c + y) == c + y && c[0..] == c
  {
  }

  lemma {:induction false} AfterLineIsSuffix(c: string)
    ensures AfterLine(c) == c[|c| - |AfterLine(c)|..]
    decreases |c|
  {
    if c != "" && c[0] != '\n' { AfterLineIsSuffix(c[1..]); }
  }

  // ---- The end of a line ----

  lemma {:induction false} TrimText(p: string, y: string)
    ensures TrimLeft(p) != "" ==> TrimLeft(p + y) == TrimLeft(p) + y
    ensures TrimLeft(p) == "" ==> TrimLeft(p + y) == TrimLeft(y)
    decreases |p|
  {
    if p == "" {
      assert p + y == y;
    } else {
      assert (p + y)[0] == p[0] && (p + y)[1..] == p[1..] + y;
      if p[0] == ' ' || p[0] == '\t' { TrimText(p[1..], y); }
    }
  }

  lemma {:induction false} TrimLexed(p: string, depth: int)
    ensures LexAll(TrimLeft(p), Plainly(depth)) == LexAll(p, Plainly(depth))
    decreases |p|
  {
    if p != "" && (p[0] == ' ' || p[0] == '\t') { TrimLexed(p[1..], depth); }
  }

  lemma {:induction false} TrimSuffix(p: string)
    ensures |TrimLeft(p)| <= |p| && TrimLeft(p) == p[|p| - |TrimLeft(p)|..]
    decreases |p|
  {
    if p != "" && (p[0] == ' ' || p[0] == '\t') { TrimSuffix(p[1..]); }
  }

  lemma TrimAround(p: string, y: string, depth: int)
    ensures TrimLeft(p) != "" ==> TrimLeft(p + y) == TrimLeft(p) + y
    ensures TrimLeft(p) == "" ==> TrimLeft(p + y) == TrimLeft(y)
    ensures LexAll(TrimLeft(p), Plainly(depth)) == LexAll(p, Plainly(depth))
    ensures |TrimLeft(p)| <= |p| && TrimLeft(p) == p[|p| - |TrimLeft(p)|..]
  {
    hide *;
    TrimText(p, y);
    TrimLexed(p, depth);
    TrimSuffix(p);
  }

  lemma {:induction false} TopCommentStays(s: string)
    ensures var st := LexAll(s, Reading(0, None, false, true)); st.Done? || st == Reading(0, None, false, true)
    decreases |s|
  {
    if s != "" {
      if s[0] == '\n' { LexStopped(s[1..], Done); } else { TopCommentStays(s[1..]); }
    }
  }

  /** The lexer's states in which a printed list can stand. */
  ghost predicate CanHold(st: Lexer) {
    st.Reading? && st.quote.None? && st.depth >= 0 && (st.comment ==> st.depth > 0)
  }

  /** The next thing on the line is neither its end nor a comment. */
  predicate GoesOn(y: string) {
    TrimLeft(y) != "" && TrimLeft(y)[0] !in "\r\n#"
  }

  lemma GoesOnStarts(y: string)
    requires GoesOn(y)
    ensures y != "" && y[0] != '\n'
  {
  }

  /** Where a printed list can stand, the line so far is neither at its end nor a comment. */
  lemma NoLineEndYet(z: string)
    requires CanHold(LexAll(z, START)) && TrimLeft(z) != ""
    ensures var t := TrimLeft(z);
            t[0] != '\n' && t[0] != '#' && (|t| >= 2 && t[0] == '\r' ==> t[1] != '\n')
  {
    hide LexAll;
    TrimLexed(z, 0);
    var t := TrimLeft(z);
    assert t == [t[0]] + t[1..];
    LexStep(t[0], t[1..], START);
    if t[0] == '\n' {
      LexStopped(t[1..], Done);
    } else if t[0] == '#' {
      TopCommentStays(t[1..]);
    } else if |t| >= 2 && t[0] == '\r' && t[1] == '\n' {
      assert t[1..] == [t[1]] + t[2..];
      LexStep(t[1], t[2..], START);
      LexStopped(t[2..], Done);
    }
  }

  lemma NoLineEndAlone(z: string)
    requires CanHold(LexAll(z, START)) && TrimLeft(z) != ""
    ensures !EndsLine(z)
  {
    hide LexAll;
    NoLineEndYet(z);
  }

  /** Where the statement goes on, its line has not ended. */
  lemma NoLineEnd(z: string, y: string)
    requires CanHold(LexAll(z, START)) && GoesOn(y)
    ensures !EndsLine(z + y)
  {
    hide LexAll;
    TrimText(z, y);
    var t := TrimLeft(z);
    if t != "" {
      NoLineEndYet(z);
      GoesOnStarts(y);
      assert (t + y)[0] == t[0] && (t + y)[1] == if |t| >= 2 then t[1] else y[0];
    }
  }

  // ---- The key of a statement ----

  lemma {:induction false} BareLocal(t: string, y: string)
    requires t != "" && !IsBare(t[|t| - 1])
    ensures BareLength(t) < |t| && BareLength(t + y) == BareLength(t)
    ensures LexAll(t[BareLength(t)..], START) == LexAll(t, START)
    decreases |t|
  {
    assert (t + y)[0] == t[0] && (t + y)[1..] == t[1..] + y;
    if IsBare(t[0]) {
      assert t[1..][|t[1..]| - 1] == t[|t| - 1];
      BareLocal(t[1..], y);
      assert t[1..][BareLength(t[1..])..] == t[BareLength(t)..];
    } else {
      assert t[0..] == t;
    }
  }

  /** What remains of a text behind its key. */
  ghost predicate BehindKey(t: string, key: string, r: string, y: string) {
    && ReadKey(t + y) == Read.Ok(key, r + y) && r != "" && t != "" && r[|r| - 1] == t[|t| - 1]
    && LexAll(r, START) == LexAll(t, START)
  }

  /** If the lexer is outside quotes at the end of `t`, and `t` does not end in its key, the key is in `t`. */
  lemma KeyIsLocal(t: string, u: string, v: string) returns (key: string, r: string)
    requires t != "" && !IsBare(t[|t| - 1]) && t[|t| - 1] != '"' && t[|t| - 1] != '\''
    requires CanHold(LexAll(t, START)) && ReadKey(t + u).Ok?
    ensures BehindKey(t, key, r, u) && BehindKey(t, key, r, v) && BehindKey(t, key, r, "")
  {
    hide ReadString, ReadLiteral, LexAll, BehindKey, ReadKey, CanHold;
    assert (t + u)[0] == t[0];
    if t[0] == '"' {
      BasicKey(t, u);
      key, r := ReadString(t[1..]).value, ReadString(t[1..]).rest;
      BasicKeyRead(t, u);
      BasicKeyRead(t, v);
      BasicKeyRead(t, "");
    } else if t[0] == '\'' {
      LiteralKey(t, u);
      key, r := ReadLiteral(t[1..]).value, ReadLiteral(t[1..]).rest;
      LiteralKeyRead(t, u);
      LiteralKeyRead(t, v);
      LiteralKeyRead(t, "");
    } else {
      var n := BareLength(t);
      key, r := t[..n], t[n..];
      BareKeyRead(t, u, u);
      BareKeyRead(t, u, v);
      BareKeyRead(t, u, "");
    }
  }

  lemma BasicKey(t: string, u: string)
    requires t != "" && t[0] == '"' && t[|t| - 1] != '"' && CanHold(LexAll(t, START)) && ReadKey(t + u).Ok?
    ensures ReadString(t[1..]).Ok?
    ensures var r := ReadString(t[1..]).rest; r != "" && r[|r| - 1] == t[|t| - 1] && LexAll(r, START) == LexAll(t, START)
  {
    hide ReadString, LexAll;
    assert (t + u)[0] == t[0] && (t + u)[1..] == t[1..] + u;
    assert t == [t[0]] + t[1..];
    LexStep(t[0], t[1..], START);
    BasicInside(t[1..], u, 0);
  }

  lemma BasicKeyRead(t: string, y: string)
    requires t != "" && t[0] == '"' && ReadString(t[1..]).Ok?
    requires var r := ReadString(t[1..]).rest; r != "" && r[|r| - 1] == t[|t| - 1] && LexAll(r, START) == LexAll(t, START)
    ensures BehindKey(t, ReadString(t[1..]).value, ReadString(t[1..]).rest, y)
  {
    hide ReadString, LexAll;
    assert (t + y)[0] == t[0] && (t + y)[1..] == t[1..] + y;
    BasicLocal(t[1..], y);
  }

  lemma LiteralKey(t: string, u: string)
    requires t != "" && t[0] == '\'' && t[|t| - 1] != '\'' && CanHold(LexAll(t, START)) && ReadKey(t + u).Ok?
    ensures ReadLiteral(t[1..]).Ok?
    ensures var r := ReadLiteral(t[1..]).rest; r != "" && r[|r| - 1] == t[|t| - 1] && LexAll(r, START) == LexAll(t, START)
  {
    hide ReadLiteral, LexAll;
    assert (t + u)[0] == t[0] && (t + u)[1..] == t[1..] + u;
    assert t == [t[0]] + t[1..];
    LexStep(t[0], t[1..], START);
    LiteralInside(t[1..], u, 0);
  }

  lemma LiteralKeyRead(t: string, y: string)
    requires t != "" && t[0] == '\'' && ReadLiteral(t[1..]).Ok?
    requires var r := ReadLiteral(t[1..]).rest; r != "" && r[|r| - 1] == t[|t| - 1] && LexAll(r, START) == LexAll(t, START)
    ensures BehindKey(t, ReadLiteral(t[1..]).value, ReadLiteral(t[1..]).rest, y)
  {
    hide ReadLiteral, LexAll;
    assert (t + y)[0] == t[0] && (t + y)[1..] == t[1..] + y;
    LiteralLocal(t[1..], y);
  }

  lemma BareKeyRead(t: string, u: string, y: string)
    requires t != "" && t[0] != '"' && t[0] != '\'' && !IsBare(t[|t| - 1]) && ReadKey(t + u).Ok?
    ensures BareLength(t) < |t| && BehindKey(t, t[..BareLength(t)], t[BareLength(t)..], y)
  {
    hide LexAll, IsBare, BareLength, ReadString, ReadLiteral;
    var n := BareLength(t);
    BareLocal(t, u);
    BareLocal(t, y);
    assert (t + u)[0] == t[0] && (t + y)[0] == t[0];
    assert n > 0;
    assert (t + y)[..n] == t[..n] && (t + y)[n..] == t[n..] + y;
    assert t[n..][|t[n..]| - 1] == t[|t| - 1];
  }

  /** The value of a statement as far as `p` goes. */
  ghost predicate HasKey(p: string, key: string, w: string, y: string) {
    && Interpret(p + y) == Pair(key, w + y) && w != "" && p != "" && w[|w| - 1] == p[|p| - 1]
    && LexAll(w, START) == LexAll(p, START)
  }

  /** A statement that is cut inside its value keeps its key, whatever follows the cut. */
  lemma KeyStays(p: string, u: string, v: string) returns (key: string, w: string)
    requires p != "" && !IsBare(p[|p| - 1]) && p[|p| - 1] !in " \t\"'="
    requires CanHold(LexAll(p, START)) && GoesOn(u) && GoesOn(v)
    requires !Interpret(p + u).Bad? && !Interpret(p + u).Header?
    ensures HasKey(p, key, w, u) && HasKey(p, key, w, v) && HasKey(p, key, w, "")
  {
    hide ReadKey, LexAll, EndsLine, Interpret, TrimLeft, CanHold, HasKey, GoesOn;
    TrimAround(p, u, 0);
    BlankEnd(p);
    NoLineEndYet(p);
    var t := TrimLeft(p);
    var r;
    KeyIsRead(p, u);
    key, r := KeyIsLocal(t, u, v);
    BlankEnd(r);
    TrimAround(r, u, 0);
    EqualsSign(p, t, key, r, u);
    w := TrimLeft(r)[1..];
    StatementIs(p, t, key, r, u);
    NoLineEnd(p, v);
    StatementIs(p, t, key, r, v);
    NoLineEndAlone(p);
    assert p + "" == p && t + "" == t && r + "" == r;
    StatementIs(p, t, key, r, "");
  }

  lemma KeyIsRead(p: string, u: string)
    requires p != "" && CanHold(LexAll(p, START)) && GoesOn(u) && TrimLeft(p) != ""
    requires !Interpret(p + u).Bad? && !Interpret(p + u).Header?
    ensures ReadKey(TrimLeft(p) + u).Ok? && !EndsLine(p + u) && TrimLeft(p)[0] != '['
  {
    hide LexAll, ReadKey, EndsLine;
    NoLineEnd(p, u);
    TrimText(p, u);
    TrimmedLine(p + u);
    assert (TrimLeft(p) + u)[0] == TrimLeft(p)[0];
  }

  lemma EqualsSign(p: string, t: string, key: string, r: string, u: string)
    requires TrimLeft(p) == t != "" && t[0] != '[' && !EndsLine(p + u) && !Interpret(p + u).Bad?
    requires ReadKey(t + u) == Read.Ok(key, r + u) && TrimLeft(r) != ""
    ensures TrimLeft(r)[0] == '='
  {
    hide LexAll, ReadKey, EndsLine;
    TrimText(p, u);
    TrimText(r, u);
    TrimmedLine(p + u);
    assert (t + u)[0] == t[0] && (TrimLeft(r) + u)[0] == TrimLeft(r)[0];
  }

  /** Putting key, equals sign and value together again. */
  lemma StatementIs(p: string, t: string, key: string, r: string, y: string)
    requires p != "" && TrimLeft(p) == t != "" && t[0] != '[' && !EndsLine(p + y) && BehindKey(t, key, r, y)
    requires TrimLeft(r) != "" && TrimLeft(r)[0] == '=' && TrimLeft(r)[|TrimLeft(r)| - 1] == r[|r| - 1] != '='
    requires t[|t| - 1] == p[|p| - 1] && LexAll(t, START) == LexAll(p, START)
    ensures HasKey(p, key, TrimLeft(r)[1..], y)
  {
    hide LexAll, ReadKey, EndsLine, Interpret, TrimLeft;
    var e := TrimLeft(r);
    assert LexAll(e, START) == LexAll(r, START) by { TrimLexed(r, 0); }
    BehindSign(e, y);
    assert e[1..][|e[1..]| - 1] == e[|e| - 1];
    assert Interpret(p + y) == Pair(key, e[1..] + y) by { TrimmedStatement(p, t, key, r, y); }
  }

  lemma TrimmedStatement(p: string, t: string, key: string, r: string, y: string)
    requires TrimLeft(p) == t != "" && t[0] != '[' && !EndsLine(p + y) && ReadKey(t + y) == Read.Ok(key, r + y)
    requires TrimLeft(r) != "" && TrimLeft(r)[0] == '='
    ensures Interpret(p + y) == Pair(key, TrimLeft(r)[1..] + y)
  {
    hide ReadKey, EndsLine, Interpret, TrimLeft;
    TrimText(p, y);
    TrimText(r, y);
    TrimmedLine(p + y);
    BehindSign(TrimLeft(r), y);
    assert (t + y)[0] == t[0];
    InterpretIs(p + y, key, r + y);
  }

  /** The sign in front of a value, which more text may follow. */
  lemma BehindSign(e: string, y: string)
    requires e != "" && e[0] == '='
    ensures (e + y)[0] == '=' && (e + y)[1..] == e[1..] + y
    ensures LexAll(e, START) == LexAll(e[1..], START)
  {
    hide LexAll;
    assert e == [e[0]] + e[1..];
    LexStep('=', e[1..], START);
  }

  lemma InterpretIs(x: string, key: string, rest: string)
    requires TrimLeft(x) != "" && !EndsLine(TrimLeft(x)) && TrimLeft(x)[0] != '[' && ReadKey(TrimLeft(x)) == Read.Ok(key, rest)
    requires TrimLeft(rest) != "" && TrimLeft(rest)[0] == '='
    ensures Interpret(x) == Pair(key, TrimLeft(rest)[1..])
  {
    hide EndsLine, ReadKey, TrimLeft;
  }

  lemma {:induction false} BlankEnd(p: string)
    requires p != "" && p[|p| - 1] != ' ' && p[|p| - 1] != '\t'
    ensures TrimLeft(p) != "" && TrimLeft(p)[|TrimLeft(p)| - 1] == p[|p| - 1]
    decreases |p|
  {
    if p[0] == ' ' || p[0] == '\t' {
      assert p[1..][|p[1..]| - 1] == p[|p| - 1];
      BlankEnd(p[1..]);
    }
  }

  lemma TrimmedLine(s: string)
    ensures EndsLine(TrimLeft(s)) == EndsLine(s)
  {
    TrimTwice(s);
  }

  lemma {:induction false} TrimTwice(s: string)
    ensures TrimLeft(TrimLeft(s)) == TrimLeft(s)
    decreases |s|
  {
    if s != "" && (s[0] == ' ' || s[0] == '\t') { TrimTwice(s[1..]); }
  }

  // ---- A list with a printed list inside it ----

  /** The printed list as the reader meets it behind a comment sign, and outside one. */
  lemma PrintedForReader(items: seq<string>, t: string)
    ensures var y := RenderList(items) + t;
            && AfterLine(y) == RenderItems(items) + ("]" + t)
            && y != "" && y[0] == 's' && GoesOn(y) && SkipBlank(y) == y
  {
    hide RenderItems, RenderList, GoesOn, AfterLine, SkipBlank;
    var more := RenderItems(items) + ("]" + t);
    assert RenderList(items) + t == "skills = [" + ("\n" + more) by { hide *; PrintedSpelled(items, t); }
    FirstLine(more);
    WordGoesOn(RenderList(items) + t);
  }

  lemma PrintedSpelled(items: seq<string>, t: string)
    ensures RenderList(items) + t == "skills = [" + ("\n" + (RenderItems(items) + ("]" + t)))
  {
    hide RenderItems;
  }

  lemma FirstLine(more: string)
    ensures AfterLine("skills = [" + ("\n" + more)) == more
  {
    hide AfterLine;
    var word := "skills = [";
    assert '\n' !in word;
    AfterLineLocal(word, "\n" + more);
    BreakEndsLine(more);
  }

  lemma BreakEndsLine(more: string)
    ensures AfterLine("\n" + more) == more
  {
    assert ("\n" + more)[1..] == more;
  }

  lemma WordGoesOn(y: string)
    requires y != "" && y[0] == 's'
    ensures GoesOn(y) && SkipBlank(y) == y
  {
  }

  /** Behind items, the printed items cannot go on a list: a comma is missing. */
  lemma ItemsNeedComma(items: seq<string>, t: string)
    requires items != []
    ensures var u := SkipBlank(RenderItems(items) + ("]" + t)); u != "" && u[0] == '"'
    ensures ReadItems(RenderItems(items) + ("]" + t)).Ok? ==>
              ReadItems(RenderItems(items) + ("]" + t)) == Read.Ok(items, t)
  {
    ReadUndoesPrint(items, t);
    hide ReadItems, JsonString, EscapeAll, AllInBasicPlane;
    var s := RenderItems(items) + ("]" + t);
    assert JsonString(items[0]) == "\"" + (EscapeAll(items[0]) + "\"") by { JsonStarts(items[0]); }
    assert s[0] == ' ' && s[1] == ' ' && s[2] == '"';
    assert s[1..][0] == ' ' && s[1..][1..][0] == '"';
    assert SkipBlank(s[1..][1..]) == s[1..][1..];
    assert SkipBlank(s[1..]) == s[1..][1..];
  }

  lemma JsonStarts(item: string)
    ensures JsonString(item) == "\"" + (EscapeAll(item) + "\"")
  {
  }

  /** What an item's reading leaves, when it is read within `c`. */
  lemma ItemInside(c: string, y: string, depth: int) returns (r: string)
    requires c != "" && (c[0] == '"' || c[0] == '\'') && CanHold(LexAll(c, Plainly(depth)))
    requires (if c[0] == '"' then ReadString(c[1..] + y) else ReadLiteral(c[1..] + y)).Ok?
    ensures (if c[0] == '"' then ReadString(c[1..] + y) else ReadLiteral(c[1..] + y)).rest == r + y
    ensures |r| < |c| && LexAll(r, Plainly(depth)) == LexAll(c, Plainly(depth))
  {
    hide ReadString, ReadLiteral, LexAll;
    assert c == [c[0]] + c[1..];
    LexStep(c[0], c[1..], Plainly(depth));
    if c[0] == '"' {
      BasicInside(c[1..], y, depth);
      BasicLocal(c[1..], y);
      r := ReadString(c[1..]).rest;
    } else {
      LiteralInside(c[1..], y, depth);
      LiteralLocal(c[1..], y);
      r := ReadLiteral(c[1..]).rest;
    }
  }

  lemma SameSkip(a: string, b: string)
    requires SkipBlank(a) == SkipBlank(b)
    ensures ReadItems(a) == ReadItems(b)
  {
    hide SkipBlank, ReadString, ReadLiteral;
  }

  lemma NoItemAt(s: string, y: string)
    requires SkipBlank(s) == y && y != "" && y[0] == 's'
    ensures ReadItems(s).Error?
  {
    hide SkipBlank;
  }

  /** A list that closes before the printed one has something other than its line's end behind it. */
  lemma ClosedBefore(u: string, y: string)
    requires u != "" && u[0] == ']' && CanHold(LexAll(u, Plainly(1))) && GoesOn(y)
    ensures !EndsLine(u[1..] + y)
  {
    hide LexAll, EndsLine;
    assert u == [u[0]] + u[1..];
    LexStep(u[0], u[1..], Plainly(1));
    NoLineEnd(u[1..], y);
  }

  lemma BehindComma(u: string)
    requires u != "" && u[0] == ','
    ensures LexAll(u[1..], Plainly(1)) == LexAll(u, Plainly(1))
  {
    assert u == [u[0]] + u[1..];
    LexStep(u[0], u[1..], Plainly(1));
  }

  /** The rest of a list behind one of its items. */
  function ReadMore(item: string, rest: string): Read<seq<string>> {
    var u := SkipBlank(rest);
    if u == "" then Error
    else if u[0] == ']' then Read.Ok([item], u[1..])
    else if u[0] != ',' then Error
    else
      match ReadItems(u[1..])
      case Error => Error
      case Ok(items, rest') => Read.Ok([item] + items, rest')
  }

  lemma ReadItemThen(s: string)
    requires var t := SkipBlank(s); t != "" && (t[0] == '"' || t[0] == '\'')
    ensures var t := SkipBlank(s);
            ReadItems(s) == match (if t[0] == '"' then ReadString(t[1..]) else ReadLiteral(t[1..]))
                            case Error => Error
                            case Ok(item, rest) => ReadMore(item, rest)
  {
    hide SkipBlank, ReadString, ReadLiteral;
  }

  lemma OtherItemFails(s: string)
    requires var t := SkipBlank(s); t == "" || (t[0] != '"' && t[0] != '\'' && t[0] != ']')
    ensures ReadItems(s).Error?
  {
    hide SkipBlank, ReadString, ReadLiteral;
  }

  lemma ClosingItems(s: string)
    requires var t := SkipBlank(s); t != "" && t[0] == ']'
    ensures ReadItems(s) == Read.Ok([], SkipBlank(s)[1..])
  {
    hide SkipBlank, ReadString, ReadLiteral;
  }

  /** When a list that holds a printed list can be read, the list reads as the printed items if nothing but
      blanks and comments stands before them, and as more items otherwise. */
  lemma {:induction false} ListAround(c: string, items: seq<string>, t: string)
    requires items != [] && CanHold(LexAll(c, Plainly(1)))
    requires ReadItems(c + (RenderList(items) + t)).Ok? && EndsLine(ReadItems(c + (RenderList(items) + t)).rest)
    ensures var v := ReadItems(c + (RenderList(items) + t)).value;
            if SkipBlank(c) == "" then v == items else |v| > |items|
    decreases |c|, 1
  {
    hide *;
    var y := RenderList(items) + t;
    var s := c + y;
    PrintedForReader(items, t);
    ItemsNeedComma(items, t);
    SkipAround(c, y, 1);
    if SkipBlank(c) == "" {
      if SkipBlank(s) == y {
        NoItemAt(s, y);
      } else {
        SameSkip(s, RenderItems(items) + ("]" + t));
      }
    } else {
      var u := SkipBlank(c);
      assert SkipBlank(s) == u + y && (u + y)[0] == u[0] && (u + y)[1..] == u[1..] + y;
      if u[0] == ']' {
        ClosingItems(s);
        ClosedBefore(u, y);
      } else if u[0] == '"' || u[0] == '\'' {
        ReadItemThen(s);
        ItemAround(u, items, t);
      } else {
        OtherItemFails(s);
      }
    }
  }

  lemma {:induction false} ItemAround(u: string, items: seq<string>, t: string)
    requires items != [] && CanHold(LexAll(u, Plainly(1))) && u != "" && (u[0] == '"' || u[0] == '\'')
    requires var y := RenderList(items) + t;
             var first := if u[0] == '"' then ReadString(u[1..] + y) else ReadLiteral(u[1..] + y);
             first.Ok? && ReadMore(first.value, first.rest).Ok? && EndsLine(ReadMore(first.value, first.rest).rest)
    ensures var y := RenderList(items) + t;
            var first := if u[0] == '"' then ReadString(u[1..] + y) else ReadLiteral(u[1..] + y);
            |ReadMore(first.value, first.rest).value| > |items|
    decreases |u|, 0
  {
    var y := RenderList(items) + t;
    var first := if u[0] == '"' then ReadString(u[1..] + y) else ReadLiteral(u[1..] + y);
    var r := ItemInside(u, y, 1);
    MoreAround(first.value, r, |u|, items, t);
  }

  lemma {:induction false} MoreAround(item: string, r: string, bound: nat, items: seq<string>, t: string)
    requires items != [] && CanHold(LexAll(r, Plainly(1))) && |r| < bound
    requires ReadMore(item, r + (RenderList(items) + t)).Ok? && EndsLine(ReadMore(item, r + (RenderList(items) + t)).rest)
    ensures |ReadMore(item, r + (RenderList(items) + t)).value| > |items|
    decreases |r| + 1, 0
  {
    hide RenderList, RenderItems, LexAll, EndsLine, ReadItems, SkipBlank;
    var y := RenderList(items) + t;
    PrintedForReader(items, t);
    ItemsNeedComma(items, t);
    SkipAround(r, y, 1);
    var u := SkipBlank(r);
    if u != "" {
      assert (u + y)[0] == u[0] && (u + y)[1..] == u[1..] + y;
      if u[0] == ']' {
        ClosedBefore(u, y);
      } else if u[0] == ',' {
        BehindComma(u);
        ListAround(u[1..], items, t);
        if SkipBlank(u[1..]) == "" { assert |[item] + items| > |items|; }
      }
    }
  }
}
