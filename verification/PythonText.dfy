/** The character classes and the trimming that Python's `str` methods use. */
module PythonText {

  const SPACES: set<char> := {
    '\U{0009}', '\U{000A}', '\U{000B}', '\U{000C}', '\U{000D}', '\U{001C}', '\U{001D}', '\U{001E}',
    '\U{001F}', '\U{0020}', '\U{0085}', '\U{00A0}', '\U{1680}', '\U{2000}', '\U{2001}', '\U{2002}',
    '\U{2003}', '\U{2004}', '\U{2005}', '\U{2006}', '\U{2007}', '\U{2008}', '\U{2009}', '\U{200A}',
    '\U{2028}', '\U{2029}', '\U{202F}', '\U{205F}', '\U{3000}'
  }

  /** `str.isspace` on one character, which is also `\s` in a regular expression. */
  predicate IsSpace(c: char) {
    c in SPACES
  }

  predicate AllSpaces(s: string) {
    forall i :: 0 <= i < |s| ==> IsSpace(s[i])
  }

  function LStrip(s: string): (r: string)
    ensures |r| <= |s|
    ensures r == "" || !IsSpace(r[0])
  {
    if s == "" || !IsSpace(s[0]) then s else LStrip(s[1..])
  }

  function RStrip(s: string): (r: string)
    ensures |r| <= |s|
    ensures r == "" || !IsSpace(r[|r| - 1])
  {
    if s == "" || !IsSpace(s[|s| - 1]) then s else RStrip(s[..|s| - 1])
  }

  function Strip(s: string): string {
    RStrip(LStrip(s))
  }

  lemma {:induction false} LStripPieces(s: string) returns (lead: string)
    ensures s == lead + LStrip(s) && AllSpaces(lead)
  {
    if s == "" || !IsSpace(s[0]) {
      lead := "";
    } else {
      var rest := LStripPieces(s[1..]);
      lead := [s[0]] + rest;
      assert s == [s[0]] + s[1..];
    }
  }

  lemma {:induction false} RStripPieces(s: string) returns (trail: string)
    ensures s == RStrip(s) + trail && AllSpaces(trail)
  {
    if s == "" || !IsSpace(s[|s| - 1]) {
      trail := "";
    } else {
      var rest := RStripPieces(s[..|s| - 1]);
      trail := rest + [s[|s| - 1]];
      assert s == s[..|s| - 1] + [s[|s| - 1]];
    }
  }

  lemma {:induction false} LStripOf(blank: string, s: string)
    requires AllSpaces(blank) && (s == "" || !IsSpace(s[0]))
    ensures LStrip(blank + s) == s
  {
    if blank == "" {
      assert blank + s == s;
    } else {
      assert (blank + s)[1..] == blank[1..] + s;
      LStripOf(blank[1..], s);
    }
  }

  lemma {:induction false} RStripOf(s: string, blank: string)
    requires AllSpaces(blank) && (s == "" || !IsSpace(s[|s| - 1]))
    ensures RStrip(s + blank) == s
  {
    if blank == "" {
      assert s + blank == s;
    } else {
      assert (s + blank)[..|s + blank| - 1] == s + blank[..|blank| - 1];
      RStripOf(s, blank[..|blank| - 1]);
    }
  }

  lemma StripPieces(s: string) returns (lead: string, trail: string)
    ensures s == lead + (Strip(s) + trail) && AllSpaces(lead) && AllSpaces(trail)
    ensures Strip(s) == "" || !IsSpace(Strip(s)[|Strip(s)| - 1])
  {
    lead := LStripPieces(s);
    trail := RStripPieces(LStrip(s));
  }

  /** `str.lower` on the ASCII letters; every other character is kept. */
  function LowerChar(c: char): char {
    if 'A' <= c <= 'Z' then c - 'A' + 'a' else c
  }

  function Lower(s: string): (r: string)
    ensures |r| == |s|
  {
    seq(|s|, i requires 0 <= i < |s| => LowerChar(s[i]))
  }

  /** Trimming never reaches behind a character that is no blank. */
  lemma {:induction false} RStripBehind(body: string, rest: string) returns (tail: string)
    requires body != "" && !IsSpace(body[|body| - 1])
    ensures RStrip(body + rest) == body + tail
    decreases |rest|
  {
    hide IsSpace;
    if rest == "" {
      assert body + rest == body;
      tail := "";
    } else if IsSpace(rest[|rest| - 1]) {
      assert (body + rest)[..|body + rest| - 1] == body + rest[..|rest| - 1];
      tail := RStripBehind(body, rest[..|rest| - 1]);
    } else {
      tail := rest;
    }
    assert body + "" == body;
  }

  lemma LowerKeepsSpaces(s: string, i: nat)
    requires i < |s|
    ensures IsSpace(Lower(s)[i]) <==> IsSpace(s[i])
  {
  }
}
