/** The text of the workspace's skills list: how it is printed, scanned and read back. */
module SkillListText {
  import opened Options

  // ---- Printing: json.dumps with its default ASCII escapes ----

  function HexDigit(d: int): char
    requires 0 <= d < 16
  {
    if d < 10 then '0' + d as char else 'a' + (d - 10) as char
  }

  function UnicodeEscape(n: int): (s: string)
    requires 0 <= n < 0x1_0000
    ensures |s| == 6
  {
    ['\\', 'u', HexDigit(n / 4096), HexDigit(n / 256 % 16), HexDigit(n / 16 % 16), HexDigit(n % 16)]
  }

  function EscapeChar(c: char): (s: string)
    ensures 1 <= |s| <= 12
  {
    var n := c as int;
    if c == '"' then "\\\""
    else if c == '\\' then "\\\\"
    else if c == '\n' then "\\n"
    else if c == '\r' then "\\r"
    else if c == '\t' then "\\t"
    else if n == 8 then "\\b"
    else if n == 12 then "\\f"
    else if 0x20 <= n < 0x7F then [c]
    else if n < 0x1_0000 then UnicodeEscape(n)
    else UnicodeEscape(0xD800 + (n - 0x1_0000) / 1024) + UnicodeEscape(0xDC00 + (n - 0x1_0000) % 1024)
  }

  function EscapeAll(s: string): string {
    if s == "" then "" else EscapeChar(s[0]) + EscapeAll(s[1..])
  }

  function JsonString(s: string): string {
    "\"" + EscapeAll(s) + "\""
  }

  function RenderItems(items: seq<string>): string {
    if items == [] then "" else "  " + JsonString(items[0]) + ",\n" + RenderItems(items[1..])
  }

  function RenderList(items: seq<string>): string {
    "skills = [\n" + RenderItems(items) + "]"
  }

  // ---- Scanning for the end of the list ----

  function Plus(n: nat, r: Option<nat>): Option<nat> {
    match r
    case Some(k) => Some(n + k)
    case None => None
  }

  /** Characters from here to just after the bracket that closes the list, if there is one. */
  function Scan(s: string, depth: int, quote: Option<char>, escaped: bool): Option<nat> {
    if s == "" then None
    else
      var c, rest := s[0], s[1..];
      match quote
      case Some(q) =>
        if escaped then Plus(1, Scan(rest, depth, quote, false))
        else if c == '\\' then Plus(1, Scan(rest, depth, quote, true))
        else if c == q then Plus(1, Scan(rest, depth, None, false))
        else Plus(1, Scan(rest, depth, quote, false))
      case None =>
        if c == '\'' || c == '"' then Plus(1, Scan(rest, depth, Some(c), escaped))
        else if c == '[' then Plus(1, Scan(rest, depth + 1, None, escaped))
        else if c == ']' then (if depth == 1 then Some(1) else Plus(1, Scan(rest, depth - 1, None, escaped)))
        else Plus(1, Scan(rest, depth, None, escaped))
  }

  /** `str.find` of one character. */
  function Find(s: string, c: char, from: nat): (r: Option<nat>)
    requires from <= |s|
    ensures r.Some? ==> from <= r.value < |s| && s[r.value] == c
    ensures r.Some? ==> forall i :: from <= i < r.value ==> s[i] != c
    ensures r.None? ==> forall i :: from <= i < |s| ==> s[i] != c
    decreases |s| - from
  {
    if from == |s| then None else if s[from] == c then Some(from) else Find(s, c, from + 1)
  }

  /** Where the list that opens first at or after `start` ends. */
  function ListEnd(content: string, start: nat): Option<nat>
    requires start <= |content|
  {
    match Find(content, '[', start)
    case None => None
    case Some(opening) => Plus(opening, Scan(content[opening..], 0, None, false))
  }

  /** The scanner: one pass with a nesting depth, the open quote and an escape flag. */
  method MatchingListEnd(content: string, start: nat) returns (end: Option<nat>)
    requires start <= |content|
    ensures end == ListEnd(content, start)
    ensures end.Some? ==> start < end.value <= |content| && content[end.value - 1] == ']'
  {
    var found := Find(content, '[', start);
    if found.None? { return None; }
    var opening := found.value;
    var depth := 0;
    var quote: Option<char> := None;
    var escaped := false;
    var index := opening;
    while index < |content|
      invariant opening <= index <= |content|
      invariant index > opening ==> depth != 0 || quote.Some?
      invariant index == opening ==> depth == 0 && quote.None?
      invariant quote.None? ==> !escaped
      invariant depth >= 0
      invariant index > opening ==> depth >= 1
      invariant ListEnd(content, start) == Plus(index, Scan(content[index..], depth, quote, escaped))
    {
      var c := content[index];
      assert content[index..][1..] == content[index + 1..];
      if quote.Some? {
        if escaped {
          escaped := false;
        } else if c == '\\' {
          escaped := true;
        } else if c == quote.value {
          quote := None;
        }
      } else if c == '\'' || c == '"' {
        quote := Some(c);
      } else if c == '[' {
        depth := depth + 1;
      } else if c == ']' {
        depth := depth - 1;
        if depth == 0 { return Some(index + 1); }
      }
      index := index + 1;
    }
    return None;
  }

  // ---- The scanner as an automaton ----

  datatype ScanState = Open(depth: int, quote: Option<char>, escaped: bool) | Closed

  function Step(st: ScanState, c: char): ScanState {
    match st
    case Closed => Closed
    case Open(d, Some(q), e) => if e then Open(d, Some(q), false) else if c == '\\' then Open(d, Some(q), true)
                                else if c == q then Open(d, None, false) else st
    case Open(d, None, e) => if c == '\'' || c == '"' then Open(d, Some(c), e)
                             else if c == '[' then Open(d + 1, None, e)
                             else if c == ']' then (if d == 1 then Closed else Open(d - 1, None, e)) else st
  }

  /** The state after reading `s`. */
  function Run(s: string, st: ScanState): ScanState {
    if s == "" then st else Step(Run(s[..|s| - 1], st), s[|s| - 1])
  }

  lemma {:induction false} RunHead(c: char, s: string, st: ScanState)
    ensures Run([c] + s, st) == Run(s, Step(st, c))
    decreases |s|
  {
    if s == "" {
      assert [c] + s == [c] && [c][..0] == "";
    } else {
      RunHead(c, s[..|s| - 1], st);
      assert ([c] + s)[..|s|] == [c] + s[..|s| - 1];
    }
  }

  lemma {:induction false} RunConcat(a: string, b: string, st: ScanState)
    ensures Run(a + b, st) == Run(b, Run(a, st))
    decreases |b|
  {
    if b == "" {
      assert a + b == a;
    } else {
      RunConcat(a, b[..|b| - 1], st);
      assert (a + b)[..|a + b| - 1] == a + b[..|b| - 1];
    }
  }

  lemma {:induction false} RunClosed(s: string)
    ensures Run(s, Closed) == Closed
    decreases |s|
  {
    if s != "" { RunClosed(s[..|s| - 1]); }
  }

  lemma {:induction false} ScanStaysInside(s: string, depth: int, quote: Option<char>, escaped: bool)
    ensures Scan(s, depth, quote, escaped).Some? ==> 1 <= Scan(s, depth, quote, escaped).value <= |s|
    decreases |s|
  {
    if s != "" {
      var st := Step(Open(depth, quote, escaped), s[0]);
      if st.Open? { ScanStaysInside(s[1..], st.depth, st.quote, st.escaped); }
    }
  }

  lemma ScanHead(c: char, s: string, depth: int, quote: Option<char>, escaped: bool)
    requires quote.None? ==> !escaped
    ensures var st := Step(Open(depth, quote, escaped), c);
            Scan([c] + s, depth, quote, escaped) == if st.Closed? then Some(1) else Plus(1, Scan(s, st.depth, st.quote, st.escaped))
  {
    assert ([c] + s)[1..] == s;
  }

  /** The scanner's answer on a text is decided by the automaton's state after any first part of it. */
  lemma {:induction false} ScanRuns(a: string, b: string, depth: int, quote: Option<char>, escaped: bool)
    requires quote.None? ==> !escaped
    ensures var st := Run(a, Open(depth, quote, escaped));
            && (st.Closed? ==> Scan(a + b, depth, quote, escaped).Some? && Scan(a + b, depth, quote, escaped).value <= |a|)
            && (st.Open? ==> Scan(a + b, depth, quote, escaped) == Plus(|a|, Scan(b, st.depth, st.quote, st.escaped)))
            && (st.Open? && st.quote.None? ==> !st.escaped)
    decreases |a|
  {
    hide Scan;
    if a == "" {
      assert a + b == b;
    } else {
      var c, rest := a[0], a[1..];
      var st := Step(Open(depth, quote, escaped), c);
      assert a == [c] + rest && a + b == [c] + (rest + b);
      RunHead(c, rest, Open(depth, quote, escaped));
      ScanHead(c, rest + b, depth, quote, escaped);
      if st.Open? {
        ScanRuns(rest, b, st.depth, st.quote, st.escaped);
      } else {
        RunClosed(rest);
      }
    }
  }

  lemma ListEndScans(before: string, tail: string)
    requires '[' !in before
    ensures ListEnd(before + (['['] + tail), 0) == Plus(|before| + 1, Scan(tail, 1, None, false))
  {
    hide Scan;
    var text := before + (['['] + tail);
    FindFirst(text, |before|);
    assert text[|before|..] == ['['] + tail;
    ScanHead('[', tail, 0, None, false);
  }

  lemma FindFirst(text: string, n: nat)
    requires n < |text| && text[n] == '[' && forall i :: 0 <= i < n ==> text[i] != '['
    ensures Find(text, '[', 0) == Some(n)
  {
  }

  lemma ClosesHereIff(st: ScanState, after: string)
    requires st.Open? && (st.quote.None? ==> !st.escaped)
    ensures Scan([']'] + after, st.depth, st.quote, st.escaped) == Some(1) <==> st == Open(1, None, false)
  {
    hide Scan;
    ScanHead(']', after, st.depth, st.quote, st.escaped);
    var next := Step(st, ']');
    if next.Open? { ScanStaysInside(after, next.depth, next.quote, next.escaped); }
  }

  /** Whatever stands between a list's brackets, the scanner stops at the closing one if and only if
      reading the content leaves it at the list's own level and outside quotes. */
  lemma ListEndsAtBracketIff(before: string, content: string, after: string)
    requires '[' !in before
    ensures ListEnd(before + "[" + content + "]" + after, 0) == Some(|before| + |content| + 2) <==>
              Run(content, Open(1, None, false)) == Open(1, None, false)
  {
    hide Scan, Run, ListEnd;
    var tail := content + ([']'] + after);
    assert before + "[" + content + "]" + after == before + (['['] + tail);
    ListEndScans(before, tail);
    ScanRuns(content, [']'] + after, 1, None, false);
    var st := Run(content, Open(1, None, false));
    if st.Open? { ClosesHereIff(st, after); }
  }

  /** What lies between the brackets of a list, as far as the scanner distinguishes it. */
  datatype Piece = Plain(text: string) | Quoted(quote: char, body: string) | Comment(note: string) | Nested(inner: seq<Piece>)

  function PieceText(p: Piece): string {
    match p
    case Plain(text) => text
    case Quoted(q, body) => [q] + body + [q]
    case Comment(note) => "#" + note + "\n"
    case Nested(inner) => "[" + PiecesText(inner) + "]"
  }

  function PiecesText(ps: seq<Piece>): string {
    if ps == [] then "" else PieceText(ps[0]) + PiecesText(ps[1..])
  }

  /** Read from inside a quote, the body leaves the scanner inside it, with no escape pending. */
  predicate StaysQuoted(body: string, q: char) {
    || body == ""
    || (body[0] == '\\' && |body| >= 2 && StaysQuoted(body[2..], q))
    || (body[0] != '\\' && body[0] != q && StaysQuoted(body[1..], q))
  }

  function Apostrophes(s: string): nat {
    if s == "" then 0 else Apostrophes(s[..|s| - 1]) + if s[|s| - 1] == '\'' then 1 else 0
  }

  predicate Quiet(s: string) {
    forall i :: 0 <= i < |s| ==> s[i] !in "'\"[]"
  }

  /** A comment may hold apostrophes, which the scanner takes for quotes, but nothing else it acts on. */
  predicate OnlyApostrophes(s: string) {
    forall i :: 0 <= i < |s| ==> s[i] !in "\"[]\\"
  }

  predicate Scannable(p: Piece) {
    match p
    case Plain(text) => Quiet(text)
    case Comment(note) => OnlyApostrophes(note) && Apostrophes(note) % 2 == 0
    case Quoted(q, body) => (q == '\'' || q == '"') && StaysQuoted(body, q)
    case Nested(inner) => forall i :: 0 <= i < |inner| ==> Scannable(inner[i])
  }

  lemma {:induction false} ScanBody(body: string, q: char, rest: string, depth: int)
    requires StaysQuoted(body, q)
    ensures Scan(body + rest, depth, Some(q), false) == Plus(|body|, Scan(rest, depth, Some(q), false))
    decreases |body|
  {
    hide Scan;
    if body == "" {
      assert body + rest == rest;
    } else if body[0] == '\\' {
      assert body + rest == [body[0]] + ([body[1]] + (body[2..] + rest));
      ScanHead(body[0], [body[1]] + (body[2..] + rest), depth, Some(q), false);
      ScanHead(body[1], body[2..] + rest, depth, Some(q), true);
      ScanBody(body[2..], q, rest, depth);
    } else {
      assert body + rest == [body[0]] + (body[1..] + rest);
      ScanHead(body[0], body[1..] + rest, depth, Some(q), false);
      ScanBody(body[1..], q, rest, depth);
    }
  }

  lemma {:induction false} ScanPlain(text: string, rest: string, depth: int)
    requires Scannable(Plain(text))
    ensures Scan(text + rest, depth, None, false) == Plus(|text|, Scan(rest, depth, None, false))
    decreases |text|
  {
    if text == "" {
      assert text + rest == rest;
    } else {
      assert (text + rest)[1..] == text[1..] + rest;
      ScanPlain(text[1..], rest, depth);
    }
  }

  lemma {:induction false} RunNote(note: string, depth: int)
    requires OnlyApostrophes(note)
    ensures Run(note, Open(depth, None, false)) == Open(depth, if Apostrophes(note) % 2 == 0 then None else Some('\''), false)
    decreases |note|
  {
    if note != "" { RunNote(note[..|note| - 1], depth); }
  }

  lemma RunComment(note: string, depth: int)
    requires OnlyApostrophes(note)
    ensures Run("#" + note + "\n", Open(depth, None, false)) == Open(depth, if Apostrophes(note) % 2 == 0 then None else Some('\''), false)
  {
    RunNote(note, depth);
    var st := Open(depth, None, false);
    assert "#" + note + "\n" == ['#'] + note + ['\n'];
    RunHead('#', note, st);
    assert ("#" + note + "\n")[..|note| + 1] == ['#'] + note;
  }

  lemma ScanQuoted(q: char, body: string, rest: string, depth: int)
    requires Scannable(Quoted(q, body))
    ensures Scan([q] + body + [q] + rest, depth, None, false) == Plus(|body| + 2, Scan(rest, depth, None, false))
  {
    hide Scan, StaysQuoted;
    assert [q] + body + [q] + rest == [q] + (body + ([q] + rest));
    ScanHead(q, body + ([q] + rest), depth, None, false);
    ScanBody(body, q, [q] + rest, depth);
    ScanHead(q, rest, depth, Some(q), false);
  }

  lemma {:induction false} ScanPiece(p: Piece, rest: string, depth: int)
    requires Scannable(p) && depth >= 1
    ensures Scan(PieceText(p) + rest, depth, None, false) == Plus(|PieceText(p)|, Scan(rest, depth, None, false))
    decreases p, 0
  {
    hide Scan, StaysQuoted, Run;
    match p
    case Plain(text) => ScanPlain(text, rest, depth);
    case Quoted(q, body) => ScanQuoted(q, body, rest, depth);
    case Comment(note) =>
      RunComment(note, depth);
      ScanRuns(PieceText(p), rest, depth, None, false);
    case Nested(inner) =>
      var tail := PiecesText(inner) + ([']'] + rest);
      assert PieceText(p) + rest == ['['] + tail;
      ScanHead('[', tail, depth, None, false);
      ScanPieces(inner, [']'] + rest, depth + 1);
      ScanHead(']', rest, depth + 1, None, false);
  }

  lemma {:induction false} ScanPieces(ps: seq<Piece>, rest: string, depth: int)
    requires (forall i :: 0 <= i < |ps| ==> Scannable(ps[i])) && depth >= 1
    ensures Scan(PiecesText(ps) + rest, depth, None, false) == Plus(|PiecesText(ps)|, Scan(rest, depth, None, false))
    decreases ps
  {
    if ps == [] {
      assert PiecesText(ps) + rest == rest;
    } else {
      assert PiecesText(ps) + rest == PieceText(ps[0]) + (PiecesText(ps[1..]) + rest);
      ScanPiece(ps[0], PiecesText(ps[1..]) + rest, depth);
      ScanPieces(ps[1..], rest, depth);
    }
  }

  /** For every list of scannable pieces, nested to any depth and with any text around it, the scanner
      stops exactly behind the bracket that closes the list. */
  lemma ScanStopsAtClosingBracket(before: string, ps: seq<Piece>, after: string)
    requires forall i :: 0 <= i < |ps| ==> Scannable(ps[i])
    requires '[' !in before
    ensures ListEnd(before + "[" + PiecesText(ps) + "]" + after, 0) == Some(|before| + |PiecesText(ps)| + 2)
  {
    hide Scan, ListEnd, Scannable;
    var tail := PiecesText(ps) + ([']'] + after);
    assert before + "[" + PiecesText(ps) + "]" + after == before + (['['] + tail);
    ListEndScans(before, tail);
    ScanPieces(ps, [']'] + after, 1);
    ScanHead(']', after, 1, None, false);
  }

  // ---- The printed list is scannable ----

  function ItemPieces(items: seq<string>): seq<Piece> {
    if items == [] then []
    else [Plain("  ")] + ([Quoted('"', EscapeAll(items[0]))] + ([Plain(",\n")] + ItemPieces(items[1..])))
  }

  lemma {:induction false} StaysQuotedConcat(a: string, b: string, q: char)
    requires StaysQuoted(a, q) && StaysQuoted(b, q)
    ensures StaysQuoted(a + b, q)
    decreases |a|
  {
    if a == "" {
      assert a + b == b;
    } else if a[0] == '\\' {
      assert (a + b)[2..] == a[2..] + b;
      StaysQuotedConcat(a[2..], b, q);
    } else {
      assert (a + b)[1..] == a[1..] + b;
      StaysQuotedConcat(a[1..], b, q);
    }
  }

  lemma UnicodeEscapeStaysQuoted(n: int)
    requires 0 <= n < 0x1_0000
    ensures StaysQuoted(UnicodeEscape(n), '"')
  {
    var s := UnicodeEscape(n);
    assert StaysQuoted(s[6..], '"');
    assert s[5..][1..] == s[6..] && s[4..][1..] == s[5..] && s[3..][1..] == s[4..] && s[2..][1..] == s[3..];
    assert StaysQuoted(s[5..], '"');
    assert StaysQuoted(s[4..], '"');
    assert StaysQuoted(s[3..], '"');
    assert StaysQuoted(s[2..], '"');
  }

  lemma PairStaysQuoted(hi: int, lo: int)
    requires 0 <= hi < 0x1_0000 && 0 <= lo < 0x1_0000
    ensures StaysQuoted(UnicodeEscape(hi) + UnicodeEscape(lo), '"')
  {
    hide StaysQuoted, UnicodeEscape;
    UnicodeEscapeStaysQuoted(hi);
    UnicodeEscapeStaysQuoted(lo);
    StaysQuotedConcat(UnicodeEscape(hi), UnicodeEscape(lo), '"');
  }

  lemma ShortStaysQuoted(e: string)
    requires (|e| == 2 && e[0] == '\\') || (|e| == 1 && e[0] != '\\' && e[0] != '"')
    ensures StaysQuoted(e, '"')
  {
    assert StaysQuoted("", '"');
    assert e[|e|..] == "";
  }

  lemma EscapeStaysQuoted(c: char)
    ensures StaysQuoted(EscapeChar(c), '"')
  {
    hide StaysQuoted, UnicodeEscape;
    var e, n := EscapeChar(c), c as int;
    if |e| <= 2 {
      ShortStaysQuoted(e);
    } else if n < 0x1_0000 {
      UnicodeEscapeStaysQuoted(n);
    } else {
      PairStaysQuoted(0xD800 + (n - 0x1_0000) / 1024, 0xDC00 + (n - 0x1_0000) % 1024);
    }
  }

  lemma {:induction false} EscapedStaysQuoted(s: string)
    ensures StaysQuoted(EscapeAll(s), '"')
  {
    if s != "" {
      hide EscapeChar;
      EscapeStaysQuoted(s[0]);
      EscapedStaysQuoted(s[1..]);
      StaysQuotedConcat(EscapeChar(s[0]), EscapeAll(s[1..]), '"');
    }
  }

  lemma MorePieces(p: Piece, ps: seq<Piece>)
    ensures PiecesText([p] + ps) == PieceText(p) + PiecesText(ps)
  {
    hide PieceText;
    assert ([p] + ps)[1..] == ps;
  }

  lemma AllScannable(p: Piece, ps: seq<Piece>)
    requires Scannable(p) && forall i :: 0 <= i < |ps| ==> Scannable(ps[i])
    ensures forall i :: 0 <= i < |[p] + ps| ==> Scannable(([p] + ps)[i])
  {
    hide Scannable;
  }

  lemma {:induction false} RenderedScannable(items: seq<string>)
    ensures forall i :: 0 <= i < |ItemPieces(items)| ==> Scannable(ItemPieces(items)[i])
  {
    if items != [] {
      hide EscapeAll, Scannable;
      var quoted, comma, rest := Quoted('"', EscapeAll(items[0])), Plain(",\n"), ItemPieces(items[1..]);
      RenderedScannable(items[1..]);
      ItemScannable(items[0]);
      AllScannable(comma, rest);
      AllScannable(quoted, [comma] + rest);
      AllScannable(Plain("  "), [quoted] + ([comma] + rest));
    }
  }

  lemma {:induction false} RenderedText(items: seq<string>)
    ensures PiecesText(ItemPieces(items)) == RenderItems(items)
  {
    if items == [] {
      NoPieces();
    } else {
      hide EscapeAll, PiecesText, PieceText, Scannable, JsonString;
      var quoted, comma, rest := Quoted('"', EscapeAll(items[0])), Plain(",\n"), ItemPieces(items[1..]);
      RenderedText(items[1..]);
      ItemScannable(items[0]);
      MorePieces(comma, rest);
      MorePieces(quoted, [comma] + rest);
      MorePieces(Plain("  "), [quoted] + ([comma] + rest));
      FourParts("  ", JsonString(items[0]), ",\n", RenderItems(items[1..]));
    }
  }

  lemma FourParts(a: string, b: string, c: string, d: string)
    ensures a + (b + (c + d)) == a + b + c + d
  {
  }

  /** The printed items are pieces that the scanner can read. */
  lemma RenderedPieces(items: seq<string>)
    ensures PiecesText(ItemPieces(items)) == RenderItems(items)
    ensures forall i :: 0 <= i < |ItemPieces(items)| ==> Scannable(ItemPieces(items)[i])
  {
    hide *;
    RenderedText(items);
    RenderedScannable(items);
  }

  lemma ItemScannable(item: string)
    ensures Scannable(Plain("  ")) && Scannable(Plain(",\n")) && Scannable(Quoted('"', EscapeAll(item)))
    ensures PieceText(Plain("  ")) == "  " && PieceText(Plain(",\n")) == ",\n"
    ensures PieceText(Quoted('"', EscapeAll(item))) == JsonString(item)
  {
    hide EscapeAll, StaysQuoted;
    EscapedStaysQuoted(item);
  }

  lemma NoPieces()
    ensures PiecesText([]) == ""
  {
  }

  /** Scanning undoes printing: on a printed list, whatever strings it holds and whatever follows, the
      scanner finds exactly its end. */
  lemma ScanUndoesPrint(before: string, items: seq<string>, after: string)
    ensures ListEnd(before + RenderList(items) + after, |before|) == Some(|before| + |RenderList(items)|)
  {
    hide Scan, RenderItems, ItemPieces, Scannable, Find;
    RenderedPieces(items);
    var ps := [Plain("\n")] + ItemPieces(items);
    PlainScannable("\n");
    assert ps[1..] == ItemPieces(items);
    assert RenderList(items) == "skills = " + "[" + PiecesText(ps) + "]";
    var tail := RenderList(items) + after;
    assert tail == "skills = " + "[" + PiecesText(ps) + "]" + after;
    ScanStopsAtClosingBracket("skills = ", ps, after);
    assert |RenderList(items)| == 9 + |PiecesText(ps)| + 2;
    var content := before + RenderList(items) + after;
    assert content == before + tail;
    FindShift(before, tail, '[', 0);
    var opening := Find(tail, '[', 0).value;
    assert content[|before| + opening..] == tail[opening..];
  }

  lemma PlainScannable(text: string)
    requires Quiet(text)
    ensures Scannable(Plain(text))
  {
  }

  lemma {:induction false} FindShift(before: string, tail: string, c: char, from: nat)
    requires from <= |tail|
    ensures Find(before + tail, c, |before| + from) == Plus(|before|, Find(tail, c, from))
    decreases |tail| - from
  {
    if from < |tail| && tail[from] != c { FindShift(before, tail, c, from + 1); }
  }

  // ---- What the scanner cannot read ----

  function TrailingBackslashes(s: string): nat {
    if s == "" || s[|s| - 1] != '\\' then 0 else 1 + TrailingBackslashes(s[..|s| - 1])
  }

  /** A TOML literal string, whose backslashes mean themselves, is scanned correctly exactly when an
      even number of backslashes precedes its closing quote. */
  lemma {:induction false} LiteralStringScannable(body: string)
    requires '\'' !in body
    ensures StaysQuoted(body, '\'') <==> TrailingBackslashes(body) % 2 == 0
    decreases |body|
  {
    if body != "" {
      if body[0] != '\\' {
        LiteralStringScannable(body[1..]);
        TrailingOfTail(body, 1);
      } else if |body| >= 2 {
        LiteralStringScannable(body[2..]);
        TrailingOfTail(body, 2);
      } else {
        assert body[..0] == "";
      }
    }
  }

  /** Dropping a non-backslash, or a backslash pair, keeps the parity of the trailing run. */
  lemma {:induction false} TrailingOfTail(s: string, n: nat)
    requires (n == 1 && |s| >= 1 && s[0] != '\\') || (n == 2 && |s| >= 2 && s[0] == '\\')
    ensures TrailingBackslashes(s) % 2 == TrailingBackslashes(s[n..]) % 2
    decreases |s|
  {
    if |s| > n {
      assert s[n..][|s[n..]| - 1] == s[|s| - 1];
      if s[|s| - 1] == '\\' {
        assert s[n..][..|s[n..]| - 1] == s[..|s| - 1][n..];
        TrailingOfTail(s[..|s| - 1], n);
      }
    } else if n == 2 {
      assert s[..|s| - 1] == [s[0]] && s[..|s| - 1][..0] == "";
    }
  }

  lemma {:induction false} RunQuiet(s: string, depth: int)
    requires Quiet(s)
    ensures Run(s, Open(depth, None, false)) == Open(depth, None, false)
    decreases |s|
  {
    if s != "" { RunQuiet(s[..|s| - 1], depth); }
  }

  lemma {:induction false} RunInQuote(s: string, depth: int, q: char, escaped: bool)
    requires q !in s && q != '\\'
    ensures var st := Run(s, Open(depth, Some(q), escaped)); st.Open? && st.quote == Some(q)
    decreases |s|
  {
    if s != "" {
      assert s[|s| - 1] in s && forall c :: c in s[..|s| - 1] ==> c in s;
      RunInQuote(s[..|s| - 1], depth, q, escaped);
    }
  }

  lemma {:induction false} RunLiteral(body: string, depth: int)
    requires '\'' !in body
    ensures Run(body, Open(depth, Some('\''), false)) == Open(depth, Some('\''), TrailingBackslashes(body) % 2 == 1)
    decreases |body|
  {
    if body != "" {
      assert body[|body| - 1] in body && forall c :: c in body[..|body| - 1] ==> c in body;
      RunLiteral(body[..|body| - 1], depth);
    }
  }

  /** What the scanner can be in: quotes are the two TOML has, and an escape is pending inside them only. */
  predicate Sound(st: ScanState) {
    st.Open? ==> if st.quote.None? then !st.escaped else st.quote.value in "'\""
  }

  lemma {:induction false} RunStaysSound(s: string, st: ScanState)
    requires Sound(st)
    ensures Sound(Run(s, st))
    decreases |s|
  {
    if s != "" { RunStaysSound(s[..|s| - 1], st); }
  }

  /** Text without quotes and brackets brings the scanner back neither from a quote nor from another level. */
  lemma QuietTail(st: ScanState, tail: string)
    requires Sound(st) && Quiet(tail)
    ensures Run(tail, st) == Open(1, None, false) <==> st == Open(1, None, false)
  {
    if st.Closed? {
      RunClosed(tail);
    } else if st.quote.Some? {
      assert st.quote.value !in tail;
      RunInQuote(tail, st.depth, st.quote.value, st.escaped);
    } else {
      RunQuiet(tail, st.depth);
    }
  }

  /** A list with one TOML literal string ends, for the scanner, at its own bracket if and only if an even
      number of backslashes precedes the closing apostrophe. */
  lemma LiteralListEndsIff(before: string, lead: string, body: string, tail: string, after: string)
    requires '[' !in before && Quiet(lead) && Quiet(tail) && '\'' !in body
    ensures var content := lead + "'" + body + "'" + tail;
            ListEnd(before + "[" + content + "]" + after, 0) == Some(|before| + |content| + 2) <==>
              TrailingBackslashes(body) % 2 == 0
  {
    hide Run, Quiet, ListEnd;
    var st := Open(1, None, false);
    var content := lead + "'" + body + "'" + tail;
    ListEndsAtBracketIff(before, content, after);
    assert content == lead + (['\''] + (body + (['\''] + tail)));
    RunQuiet(lead, 1);
    RunConcat(lead, ['\''] + (body + (['\''] + tail)), st);
    RunHead('\'', body + (['\''] + tail), st);
    RunConcat(body, ['\''] + tail, Open(1, Some('\''), false));
    RunLiteral(body, 1);
    RunHead('\'', tail, Open(1, Some('\''), TrailingBackslashes(body) % 2 == 1));
    QuietTail(Step(Open(1, Some('\''), TrailingBackslashes(body) % 2 == 1), '\''), tail);
  }

  /** Comments are the other cause, whatever they hold: a list with one comment ends at its own bracket if
      and only if reading the comment's text leaves the scanner as it was. */
  lemma CommentListEndsIff(before: string, lead: string, note: string, tail: string, after: string)
    requires '[' !in before && Quiet(lead) && Quiet(tail)
    ensures var content := lead + ("#" + note + "\n") + tail;
            ListEnd(before + "[" + content + "]" + after, 0) == Some(|before| + |content| + 2) <==>
              Run(note, Open(1, None, false)) == Open(1, None, false)
  {
    hide Run, ListEnd;
    var st := Open(1, None, false);
    var content := lead + ("#" + note + "\n") + tail;
    ListEndsAtBracketIff(before, content, after);
    var start, rest := lead + "#", "\n" + tail;
    assert content == start + (note + rest);
    RunQuiet(start, 1);
    RunConcat(start, note + rest, st);
    RunConcat(note, rest, st);
    RunStaysSound(note, st);
    QuietTail(Run(note, st), rest);
  }

  /** A comment in which the scanner acts on apostrophes only is harmless exactly when their number is even. */
  lemma ApostropheCommentEndsIff(before: string, lead: string, note: string, tail: string, after: string)
    requires '[' !in before && Quiet(lead) && Quiet(tail) && OnlyApostrophes(note)
    ensures var content := lead + ("#" + note + "\n") + tail;
            ListEnd(before + "[" + content + "]" + after, 0) == Some(|before| + |content| + 2) <==> Apostrophes(note) % 2 == 0
  {
    hide Run, Quiet, ListEnd;
    CommentListEndsIff(before, lead, note, tail, after);
    RunNote(note, 1);
  }

  /** Valid TOML that the scanner reports as malformed: a literal string ending in a backslash, and a quote
      or an opening bracket in a comment inside the list. */
  lemma ScannerRejectsValidToml()
    ensures ListEnd("a=['\\']", 0) == None
    ensures forall c :: c in "'\"[" ==> ListEnd("a=[#" + [c] + "\n]", 0) == None
  {
    var s := "['\\']";
    assert s[1..] == "'\\']" && s[1..][1..] == "\\']" && s[1..][1..][1..] == "']" && s[1..][1..][1..][1..] == "]";
    assert Scan("]", 1, Some('\''), false) == None by { assert "]"[1..] == ""; }
    assert Scan("']", 1, Some('\''), true) == None by { assert "']"[1..] == "]"; }
    assert Scan("\\']", 1, Some('\''), false) == None;
    assert Scan(s[1..], 1, None, false) == None;
    assert Scan(s, 0, None, false) == None;
    assert "a=['\\']"[2..] == s && Find("a=['\\']", '[', 0) == Some(2);
    forall c | c in "'\"[" ensures ListEnd("a=[#" + [c] + "\n]", 0) == None { CommentHidesEnd(c); }
  }

  lemma CommentHidesEnd(c: char)
    requires c in "'\"["
    ensures ListEnd("a=[#" + [c] + "\n]", 0) == None
  {
    var t := "[#" + [c] + "\n]";
    assert t[1..] == "#" + [c] + "\n]" && t[1..][1..] == [c] + "\n]" && t[1..][1..][1..] == "\n]" && "\n]"[1..] == "]" && "]"[1..] == "";
    if c == '[' {
      assert Scan("]", 2, None, false) == None;
      assert Scan("\n]", 2, None, false) == None;
    } else {
      assert Scan("]", 1, Some(c), false) == None;
      assert Scan("\n]", 1, Some(c), false) == None;
    }
    assert Scan([c] + "\n]", 1, None, false) == None;
    assert Scan(t[1..], 1, None, false) == None;
    assert Scan(t, 0, None, false) == None;
    var text := "a=[#" + [c] + "\n]";
    assert text[2..] == t && Find(text, '[', 0) == Some(2);
  }

  /** And valid TOML whose list the scanner cuts short: it stops at a bracket inside a comment. */
  lemma ScannerStopsInsideComment()
    ensures ListEnd("a=[#]\n]", 0) == Some(5)
  {
    var t := "[#]\n]";
    assert t[1..] == "#]\n]" && t[1..][1..] == "]\n]";
    assert Scan(t[1..][1..], 1, None, false) == Some(1);
    assert Scan(t[1..], 1, None, false) == Some(2);
    assert Scan(t, 0, None, false) == Some(3);
    assert "a=[#]\n]"[2..] == t && Find("a=[#]\n]", '[', 0) == Some(2);
  }
}
