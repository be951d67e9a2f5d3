/** Adding a skill path to `workspace.toml` by replacing the text of its top-level skills list. */
module SkillConfig {
  import opened Options
  import opened PythonText
  import opened SkillListText

  // ---- Finding the list ----

  /** `str.splitlines` breaks lines at more characters than TOML does. */
  const LINE_BREAKS: set<char> := {
    '\n', '\r', '\U{000B}', '\U{000C}', '\U{001C}', '\U{001D}', '\U{001E}', '\U{0085}', '\U{2028}', '\U{2029}'
  }

  /** The index just after the line that starts at i. */
  function LineEnd(c: string, i: nat): (j: nat)
    requires i < |c|
    ensures i < j <= |c|
    ensures forall k :: i <= k < j - 2 ==> c[k] !in LINE_BREAKS
    decreases |c| - i
  {
    if c[i] == '\r' && i + 1 < |c| && c[i + 1] == '\n' then i + 2
    else if c[i] in LINE_BREAKS || i + 1 == |c| then i + 1
    else LineEnd(c, i + 1)
  }

  predicate StartsWith(s: string, p: string) {
    |p| <= |s| && s[..|p|] == p
  }

  /** A line ends behind its first line break, a carriage return and a newline counting as one, or at the end
      of the text. */
  lemma {:induction false} LineEndIs(c: string, i: nat)
    requires i < |c|
    ensures var j := LineEnd(c, i);
            && i < j <= |c| && (j < |c| ==> c[j - 1] in LINE_BREAKS && !(c[j - 1] == '\r' && c[j] == '\n'))
            && forall k :: i <= k < j - 1 && c[k] in LINE_BREAKS ==> k == j - 2 && c[k] == '\r' && c[k + 1] == '\n'
    decreases |c| - i
  {
    if !(c[i] in LINE_BREAKS) && i + 1 < |c| { LineEndIs(c, i + 1); }
  }


  predicate IsSkillsLine(line: string) {
    var stripped := LStrip(line);
    StartsWith(stripped, "skills") && StartsWith(LStrip(stripped[6..]), "=")
  }

  /** The word, blanks in front of it and between it and an equals sign, and anything behind that. */
  ghost predicate WordAndSign(line: string) {
    exists lead, gap, rest :: line == lead + ("skills" + (gap + ("=" + rest))) && AllSpaces(lead) && AllSpaces(gap)
  }

  lemma SkillsLineIff(line: string)
    ensures IsSkillsLine(line) <==> WordAndSign(line)
  {
    hide IsSkillsLine, WordAndSign;
    if IsSkillsLine(line) { SkillsLinePieces(line); }
    if WordAndSign(line) { PiecesAreSkillsLine(line); }
  }

  lemma SkillsLinePieces(line: string)
    requires IsSkillsLine(line)
    ensures WordAndSign(line)
  {
    hide IsSpace, LStrip;
    var stripped := LStrip(line);
    var lead := LStripPieces(line);
    var behind := stripped[6..];
    var gap := LStripPieces(behind);
    var rest := LStrip(behind)[1..];
    assert LStrip(behind) == "=" + rest;
    assert stripped == "skills" + (gap + ("=" + rest)) by { assert stripped == stripped[..6] + behind; }
    assert line == lead + ("skills" + (gap + ("=" + rest)));
  }

  lemma PiecesAreSkillsLine(line: string)
    requires WordAndSign(line)
    ensures IsSkillsLine(line)
  {
    hide IsSpace, LStrip;
    var lead, gap, rest :| line == lead + ("skills" + (gap + ("=" + rest))) && AllSpaces(lead) && AllSpaces(gap);
    LettersAreNoBlanks();
    var behind := gap + ("=" + rest);
    LStripOf(lead, "skills" + behind);
    LStripOf(gap, "=" + rest);
    var stripped := LStrip(line);
    assert stripped == "skills" + behind && stripped[6..] == behind;
  }

  lemma LettersAreNoBlanks()
    ensures !IsSpace('s') && !IsSpace('=')
  {
  }

  function SkillsLineFrom(c: string, i: nat): (r: Option<nat>)
    requires i <= |c|
    ensures r.Some? ==> i <= r.value < |c|
    decreases |c| - i
  {
    if i == |c| then None
    else
      var j := LineEnd(c, i);
      if IsSkillsLine(c[i..j]) then Some(i) else SkillsLineFrom(c, j)
  }

  // ---- Replacing it ----

  /** What the TOML parser said about the file's top-level `skills` value. */
  datatype Parsed = NotStrings | Skills(items: seq<string>)

  datatype AddResult = Updated(text: string) | NoWritableList | AlreadyConfigured | Malformed | InvalidToml

  /** `reparses` is whether the TOML parser accepts the new text. */
  function AddSkillPath(original: string, parsed: Parsed, path: string, reparses: bool): AddResult {
    match parsed
    case NotStrings => NoWritableList
    case Skills(items) =>
      if path in items then AlreadyConfigured
      else
        match SkillsLineFrom(original, 0)
        case None => NoWritableList
        case Some(start) =>
          match ListEnd(original, start)
          case None => Malformed
          case Some(end) =>
            ListEndInside(original, start);
            var updated := original[..start] + RenderList(items + [path]) + original[end..];
            if reparses then Updated(updated) else InvalidToml
  }

  lemma ListEndInside(content: string, start: nat)
    requires start <= |content|
    ensures ListEnd(content, start).Some? ==> start < ListEnd(content, start).value <= |content|
  {
    var found := Find(content, '[', start);
    if found.Some? { ScanStaysInside(content[found.value..], 0, None, false); }
  }

  // ---- The list is found again ----

  /** A file whose first skills line starts at |before| with a list this code printed. */
  function WithList(before: string, items: seq<string>, after: string): string {
    before + RenderList(items) + after
  }

  lemma PrintedLineIsSkillsLine()
    ensures IsSkillsLine("skills = [\n")
  {
    hide LStrip;
    var s := "skills = [\n";
    LStripOf("", s);
    assert "" + s == s;
    LStripOf(" ", "= [\n");
    assert s[6..] == " " + "= [\n" && s[..6] == "skills";
  }

  lemma {:induction false} PrintedLineEnd(c: string, i: nat, j: nat)
    requires i < j <= |c| && c[j - 1] == '\n'
    requires forall k :: i <= k < j - 1 ==> c[k] !in LINE_BREAKS
    ensures LineEnd(c, i) == j
    decreases j - i
  {
    if i + 1 < j { PrintedLineEnd(c, i + 1, j); }
  }

  /** A line that ends before `stop` is the same line in a file that agrees up to there. */
  lemma {:induction false} SameLine(c: string, d: string, i: nat, stop: nat)
    requires i < stop < |c| && stop < |d| && c[..stop] == d[..stop]
    requires LineEnd(c, i) <= stop && d[stop] != '\n'
    ensures LineEnd(d, i) == LineEnd(c, i)
    decreases stop - i
  {
    assert c[i] == c[..stop][i] == d[..stop][i] == d[i];
    if i + 1 < stop {
      assert c[i + 1] == c[..stop][i + 1] == d[..stop][i + 1] == d[i + 1];
      if LineEnd(c, i) > i + 1 && !(c[i] == '\r' && c[i + 1] == '\n') { SameLine(c, d, i + 1, stop); }
    }
  }

  lemma {:induction false} SameSkillsLine(c: string, d: string, i: nat, start: nat)
    requires i <= start < |c| && start < |d| && c[..start] == d[..start]
    requires SkillsLineFrom(c, i) == Some(start)
    requires d[start] != '\n' && IsSkillsLine(d[start..LineEnd(d, start)])
    ensures SkillsLineFrom(d, i) == Some(start)
    decreases start - i
  {
    hide IsSkillsLine, LineEnd;
    if i < start {
      var j := LineEnd(c, i);
      assert SkillsLineFrom(c, j) == Some(start);
      SameLine(c, d, i, start);
      SameSlice(c, d, i, j, start);
      SameSkillsLine(c, d, j, start);
    }
  }

  lemma SameSlice(c: string, d: string, i: nat, j: nat, n: nat)
    requires i <= j <= n <= |c| && n <= |d| && c[..n] == d[..n]
    ensures c[i..j] == d[i..j]
  {
    assert c[i..j] == c[..n][i..j] && d[i..j] == d[..n][i..j];
  }

  lemma PrintedListIsFound(c: string, before: string, items: seq<string>, after: string)
    requires SkillsLineFrom(c, 0) == Some(|before|) && |before| < |c| && c[..|before|] == before
    ensures SkillsLineFrom(WithList(before, items, after), 0) == Some(|before|)
    ensures ListEnd(WithList(before, items, after), |before|) == Some(|before| + |RenderList(items)|)
  {
    hide LStrip, ListEnd, Scan, RenderItems, IsSkillsLine, SkillsLineFrom;
    var d, n := WithList(before, items, after), |before|;
    assert |RenderList(items)| >= 11;
    assert forall k :: 0 <= k < 11 ==> d[n + k] == "skills = [\n"[k];
    PrintedLineEnd(d, n, n + 11);
    assert d[n..n + 11] == "skills = [\n";
    PrintedLineIsSkillsLine();
    assert d[..n] == before;
    SameSkillsLine(c, d, 0, n);
    ScanUndoesPrint(before, items, after);
  }

  lemma AdditionIs(original: string, items: seq<string>, path: string)
    requires AddSkillPath(original, Skills(items), path, true).Updated?
    ensures SkillsLineFrom(original, 0).Some?
    ensures var start := SkillsLineFrom(original, 0).value;
            && ListEnd(original, start).Some? && start < ListEnd(original, start).value <= |original|
            && AddSkillPath(original, Skills(items), path, true).text ==
                 WithList(original[..start], items + [path], original[ListEnd(original, start).value..])
  {
    hide ListEnd, SkillsLineFrom, RenderList;
    ListEndInside(original, SkillsLineFrom(original, 0).value);
  }

  lemma ThreeParts(s: string, i: nat, j: nat)
    requires i <= j <= |s|
    ensures s == s[..i] + s[i..j] + s[j..] && |s[..i]| == i && |s[i..j]| == j - i
  {
  }

  /** The text is `before`, the list and `after`; the new one differs in the list only, and has it in the
      same place. */
  ghost predicate ReplacesList(original: string, text: string, items: seq<string>, before: string, list: string, after: string) {
    && original == before + list + after
    && text == WithList(before, items, after)
    && SkillsLineFrom(original, 0) == Some(|before|)
    && SkillsLineFrom(text, 0) == Some(|before|)
    && ListEnd(original, |before|) == Some(|before| + |list|)
  }

  /** One addition keeps the text before and after the list, and the result is again such a file. */
  lemma AddKeepsSurroundings(original: string, items: seq<string>, path: string)
    requires AddSkillPath(original, Skills(items), path, true).Updated?
    ensures exists before, list, after ::
              ReplacesList(original, AddSkillPath(original, Skills(items), path, true).text, items + [path], before, list, after)
  {
    hide *;
    AdditionIs(original, items, path);
    var start := SkillsLineFrom(original, 0).value;
    var end := ListEnd(original, start).value;
    var text := AddSkillPath(original, Skills(items), path, true).text;
    ThreeParts(original, start, end);
    PrintedListIsFound(original, original[..start], items + [path], original[end..]);
    ReplacedAt(original, text, items + [path], start, end);
  }

  lemma ReplacedAt(original: string, text: string, items: seq<string>, start: nat, end: nat)
    requires start <= end <= |original| && original == original[..start] + original[start..end] + original[end..]
    requires text == WithList(original[..start], items, original[end..])
    requires SkillsLineFrom(original, 0) == Some(start) && SkillsLineFrom(text, 0) == Some(start)
    requires ListEnd(original, start) == Some(end)
    ensures ReplacesList(original, text, items, original[..start], original[start..end], original[end..])
  {
    hide WithList, SkillsLineFrom, ListEnd;
  }
}

/** Reading the printed list back with the rules for TOML basic strings (TOML 1.0.0, "String"). */
module SkillListReader {
  import opened Options
  import opened SkillListText

  function HexValue(c: char): Option<int> {
    if '0' <= c <= '9' then Some((c - '0') as int)
    else if 'a' <= c <= 'f' then Some((c - 'a') as int + 10)
    else if 'A' <= c <= 'F' then Some((c - 'A') as int + 10)
    else None
  }

  function HexNumber(s: string, acc: int): Option<int>
    decreases |s|
  {
    if s == "" then Some(acc)
    else
      match HexValue(s[0])
      case None => None
      case Some(d) => HexNumber(s[1..], 16 * acc + d)
  }

  /** A code point escape denotes a Unicode scalar value, so surrogates are errors. */
  function ScalarEscape(digits: string): Option<char> {
    match HexNumber(digits, 0)
    case None => None
    case Some(n) => if 0 <= n < 0xD800 || 0xE000 <= n < 0x11_0000 then Some(n as char) else None
  }

  datatype Read<T> = Ok(value: T, rest: string) | Error

  /** One character of a basic string, which is not its closing quote. */
  function ReadChar(s: string): (r: Read<char>)
    requires s != ""
    ensures r.Ok? ==> |r.rest| < |s|
  {
    if s[0] != '\\' then
      (if (s[0] as int < 0x20 && s[0] != '\t') || s[0] as int == 0x7F then Error else Ok(s[0], s[1..]))
    else if |s| < 2 then Error
    else
      match s[1]
      case 'b' => Ok(8 as char, s[2..])
      case 't' => Ok('\t', s[2..])
      case 'n' => Ok('\n', s[2..])
      case 'f' => Ok(12 as char, s[2..])
      case 'r' => Ok('\r', s[2..])
      case '"' => Ok('"', s[2..])
      case '\\' => Ok('\\', s[2..])
      case 'u' => if |s| < 6 then Error else (match ScalarEscape(s[2..6]) case Some(c) => Ok(c, s[6..]) case None => Error)
      case 'U' => if |s| < 10 then Error else (match ScalarEscape(s[2..10]) case Some(c) => Ok(c, s[10..]) case None => Error)
      case _ => Error
  }

  /** A basic string after its opening quote. */
  function ReadString(s: string): (r: Read<string>)
    ensures r.Ok? ==> |r.rest| < |s|
    decreases |s|
  {
    if s == "" then Error
    else if s[0] == '"' then Ok("", s[1..])
    else
      match ReadChar(s)
      case Error => Error
      case Ok(c, rest) =>
        match ReadString(rest)
        case Error => Error
        case Ok(more, rest') => Ok([c] + more, rest')
  }

  /** A literal string after its opening apostrophe: no escapes, no newline. */
  function ReadLiteral(s: string): (r: Read<string>)
    ensures r.Ok? ==> |r.rest| < |s|
    decreases |s|
  {
    if s == "" || (s[0] as int < 0x20 && s[0] != '\t') || s[0] as int == 0x7F then Error
    else if s[0] == '\'' then Ok("", s[1..])
    else
      match ReadLiteral(s[1..])
      case Error => Error
      case Ok(more, rest) => Ok([s[0]] + more, rest)
  }

  function AfterLine(s: string): (r: string)
    ensures |r| <= |s|
    ensures s != "" ==> |r| < |s|
  {
    if s == "" then "" else if s[0] == '\n' then s[1..] else AfterLine(s[1..])
  }

  /** Blanks, newlines and comments between the items. */
  function SkipBlank(s: string): (r: string)
    ensures |r| <= |s|
    decreases |s|
  {
    if s == "" then s
    else if s[0] == ' ' || s[0] == '\t' || s[0] == '\n' || s[0] == '\r' then SkipBlank(s[1..])
    else if s[0] == '#' then SkipBlank(AfterLine(s))
    else s
  }

  /** The items of an array of one-line strings, after its opening bracket or a comma. */
  function ReadItems(s: string): Read<seq<string>>
    decreases |s|
  {
    var t := SkipBlank(s);
    if t == "" then Error
    else if t[0] == ']' then Ok([], t[1..])
    else if t[0] != '"' && t[0] != '\'' then Error
    else
      match (if t[0] == '"' then ReadString(t[1..]) else ReadLiteral(t[1..]))
      case Error => Error
      case Ok(item, rest) =>
        var u := SkipBlank(rest);
        if u == "" then Error
        else if u[0] == ']' then Ok([item], u[1..])
        else if u[0] != ',' then Error
        else
          match ReadItems(u[1..])
          case Error => Error
          case Ok(items, rest') => Ok([item] + items, rest')
  }

  predicate InBasicPlane(s: string) {
    forall i :: 0 <= i < |s| ==> s[i] as int < 0x1_0000
  }

  lemma HexDigitValue(d: int)
    requires 0 <= d < 16
    ensures HexValue(HexDigit(d)) == Some(d)
  {
  }

  lemma ReadUnicodeEscape(n: int, rest: string)
    requires 0 <= n < 0x1_0000
    ensures ReadChar(UnicodeEscape(n) + rest) == if 0xD800 <= n < 0xE000 then Error else Ok(n as char, rest)
  {
    var s := UnicodeEscape(n) + rest;
    var a, b, c, d := n / 4096, n / 256 % 16, n / 16 % 16, n % 16;
    var h := [HexDigit(a), HexDigit(b), HexDigit(c), HexDigit(d)];
    assert s[2..6] == h && s[6..] == rest;
    HexDigitValue(a);
    HexDigitValue(b);
    HexDigitValue(c);
    HexDigitValue(d);
    assert h[1..] == [HexDigit(b), HexDigit(c), HexDigit(d)] && h[1..][1..] == [HexDigit(c), HexDigit(d)];
    assert h[1..][1..][1..] == [HexDigit(d)] && h[1..][1..][1..][1..] == "";
    assert n / 256 == n / 16 / 16 && n / 4096 == n / 16 / 16 / 16;
    assert HexNumber("", n) == Some(n);
    assert HexNumber(h[1..][1..][1..], 16 * (16 * a + b) + c) == Some(n);
    assert HexNumber(h[1..][1..], 16 * a + b) == Some(n);
    assert HexNumber(h[1..], a) == Some(n);
    assert HexNumber(h, 0) == Some(n);
  }

  lemma ReadShortEscape(c: char, rest: string)
    requires var n := c as int; 0x20 <= n < 0x7F || c == '\n' || c == '\r' || c == '\t' || n == 8 || n == 12
    ensures ReadChar(EscapeChar(c) + rest) == Ok(c, rest) && (EscapeChar(c) + rest)[0] != '"'
  {
    hide ScalarEscape;
    var s := EscapeChar(c) + rest;
    assert s[|EscapeChar(c)|..] == rest;
  }

  /** One printed character reads back as itself, unless it lies outside the Basic Multilingual Plane:
      its surrogate pair is not valid TOML. */
  lemma ReadEscaped(c: char, rest: string)
    ensures ReadChar(EscapeChar(c) + rest) == if c as int < 0x1_0000 then Ok(c, rest) else Error
    ensures (EscapeChar(c) + rest)[0] != '"'
  {
    hide ReadChar;
    var n := c as int;
    if 0x20 <= n < 0x7F || c == '\n' || c == '\r' || c == '\t' || n == 8 || n == 12 {
      ReadShortEscape(c, rest);
    } else if n < 0x1_0000 {
      ReadUnicodeEscape(n, rest);
    } else {
      var high, low := UnicodeEscape(0xD800 + (n - 0x1_0000) / 1024), UnicodeEscape(0xDC00 + (n - 0x1_0000) % 1024);
      assert EscapeChar(c) + rest == high + (low + rest);
      ReadUnicodeEscape(0xD800 + (n - 0x1_0000) / 1024, low + rest);
    }
  }

  lemma {:induction false} ReadEscapedString(s: string, rest: string)
    ensures ReadString(EscapeAll(s) + ("\"" + rest)) == if InBasicPlane(s) then Ok(s, rest) else Error
  {
    hide ReadChar, EscapeChar;
    var tail := "\"" + rest;
    if s == "" {
      assert EscapeAll(s) + tail == tail && tail[1..] == rest;
    } else {
      var t := EscapeAll(s[1..]) + tail;
      assert EscapeAll(s) + tail == EscapeChar(s[0]) + t;
      ReadEscaped(s[0], t);
      ReadEscapedString(s[1..], rest);
      assert s == [s[0]] + s[1..];
      assert InBasicPlane(s) <==> s[0] as int < 0x1_0000 && InBasicPlane(s[1..]);
    }
  }

  lemma ReadOneItem(item: string, more: string)
    ensures ReadItems("  " + JsonString(item) + ",\n" + more) ==
              if !InBasicPlane(item) then Error
              else (match ReadItems(more) case Error => Error case Ok(items, rest) => Ok([item] + items, rest))
  {
    hide ReadString, EscapeAll, InBasicPlane, ReadChar;
    var quoted := EscapeAll(item) + ("\"" + (",\n" + more));
    var s := "  " + JsonString(item) + ",\n" + more;
    assert s == "  " + ("\"" + quoted);
    assert s[1..] == " " + ("\"" + quoted) && s[1..][1..] == "\"" + quoted;
    assert ("\"" + quoted)[1..] == quoted;
    assert SkipBlank("\"" + quoted) == "\"" + quoted;
    assert SkipBlank(s[1..]) == "\"" + quoted;
    assert SkipBlank(s) == "\"" + quoted;
    ReadEscapedString(item, ",\n" + more);
    assert SkipBlank(",\n" + more) == ",\n" + more;
    assert (",\n" + more)[1..] == "\n" + more;
    SkipNewline(more);
  }

  predicate AllInBasicPlane(items: seq<string>) {
    items == [] || (InBasicPlane(items[0]) && AllInBasicPlane(items[1..]))
  }

  /** The printed list reads back as the same list exactly when every string lies in the Basic
      Multilingual Plane; otherwise the new file is not valid TOML and the addition is refused. */
  lemma {:induction false} ReadUndoesPrint(items: seq<string>, rest: string)
    ensures ReadItems(RenderItems(items) + ("]" + rest)) == if AllInBasicPlane(items) then Ok(items, rest) else Error
  {
    hide InBasicPlane, JsonString, ReadString;
    var close := "]" + rest;
    if items == [] {
      assert RenderItems(items) + close == close && close[1..] == rest;
    } else {
      var more := RenderItems(items[1..]) + close;
      assert RenderItems(items) + close == "  " + JsonString(items[0]) + ",\n" + more;
      ReadOneItem(items[0], more);
      ReadUndoesPrint(items[1..], rest);
      assert items == [items[0]] + items[1..];
    }
  }

  lemma SkipNewline(s: string)
    ensures ReadItems("\n" + s) == ReadItems(s)
  {
    hide ReadString;
    assert ("\n" + s)[1..] == s;
    assert SkipBlank("\n" + s) == SkipBlank(s);
  }
}
