/** What a human's answer to a policy prompt means, by the words it is written with. */
module PolicyReplies {
  import opened Policy
  import opened PythonText

  predicate IsSeparator(c: char) {
    IsSpace(c) || c == '-'
  }

  predicate AllSeparators(s: string) {
    forall i :: 0 <= i < |s| ==> IsSeparator(s[i])
  }

  /** What may stand between two words: an underscore, or blanks and hyphens in any number. */
  predicate IsGap(gap: string) {
    gap == "_" || (gap != "" && AllSeparators(gap))
  }

  /** The word in any case, with blanks around it. */
  ghost predicate Word(text: string, word: string) {
    exists lead, body, trail :: text == lead + (body + trail) && AllSpaces(lead) && AllSpaces(trail) && Lower(body) == word
  }

  /** Two words in any case with a gap between them, and blanks around. */
  ghost predicate TwoWords(text: string, first: string, second: string) {
    exists lead, body, trail, gap ::
      && text == lead + (body + trail) && AllSpaces(lead) && AllSpaces(trail)
      && IsGap(gap) && Lower(body) == first + (gap + second)
  }

  /** The word at the beginning, in any case and behind blanks, with anything after it. */
  ghost predicate Prefixed(text: string, word: string) {
    exists lead, body, rest :: text == lead + (body + rest) && AllSpaces(lead) && Lower(body) == word
  }

  /** The texts for each reply. */
  ghost predicate SaysYes(text: string) {
    Word(text, "approved") || Word(text, "approve") || Word(text, "y") || Word(text, "yes")
  }

  ghost predicate SaysSession(text: string) {
    Word(text, "session") || TwoWords(text, "approve", "session") || TwoWords(text, "session", "approve")
  }

  ghost predicate SaysAlways(text: string) {
    TwoWords(text, "always", "approve")
  }

  ghost predicate SaysNever(text: string) {
    TwoWords(text, "always", "deny")
  }

  ghost predicate SaysNo(text: string) {
    Word(text, "rejected") || Word(text, "reject") || Word(text, "n") || Word(text, "no") || Prefixed(text, "rejected:")
  }

  ghost predicate Means(text: string, reply: Reply) {
    match reply
    case Once => SaysYes(text)
    case ForSession => SaysSession(text)
    case Always => SaysAlways(text)
    case Never => SaysNever(text)
    case Rejected => SaysNo(text)
    case Unsupported => !SaysYes(text) && !SaysSession(text) && !SaysAlways(text) && !SaysNever(text) && !SaysNo(text)
  }

  // ---- Joining words ----

  predicate Plain(w: string) {
    forall i :: 0 <= i < |w| ==> w[i] != '_' && !IsSeparator(w[i])
  }

  lemma {:induction false} JoinHead(s: string, w: string, rest: string)
    requires Plain(w) && JoinWords(s, false) == w + rest
    ensures |w| <= |s| && s[..|w|] == w && JoinWords(s[|w|..], false) == rest
    decreases |w|
  {
    if w == "" {
      assert w + rest == rest && s[0..] == s;
    } else {
      assert (w + rest)[0] == w[0] && (w + rest)[1..] == w[1..] + rest;
      JoinHead(s[1..], w[1..], rest);
      assert s == [s[0]] + s[1..] && w == [w[0]] + w[1..];
    }
  }

  lemma {:induction false} JoinOf(w: string, s: string)
    requires Plain(w)
    ensures JoinWords(w + s, false) == w + JoinWords(s, false)
    decreases |w|
  {
    if w == "" {
      assert w + s == s;
    } else {
      assert (w + s)[1..] == w[1..] + s;
      JoinOf(w[1..], s);
      assert w == [w[0]] + w[1..];
    }
  }

  lemma JoinsToWordIff(s: string, w: string)
    requires Plain(w)
    ensures JoinWords(s, false) == w <==> s == w
  {
    assert w + "" == w;
    if JoinWords(s, false) == w {
      JoinHead(s, w, "");
      assert s[|w|..] == "";
    }
    if s == w { JoinOf(w, ""); }
  }

  lemma {:induction false} RunOfSeparators(s: string, w: string) returns (run: string)
    requires Plain(w) && w != "" && JoinWords(s, true) == w
    ensures s == run + w && AllSeparators(run)
    decreases |s|
  {
    if IsSeparator(s[0]) {
      var r := RunOfSeparators(s[1..], w);
      run := [s[0]] + r;
    } else {
      assert JoinWords(s, true) == JoinWords(s, false);
      JoinsToWordIff(s, w);
      run := "";
    }
  }

  lemma {:induction false} JoinOfRun(run: string, w: string)
    requires AllSeparators(run) && Plain(w)
    ensures JoinWords(run + w, true) == w
    decreases |run|
  {
    if run == "" {
      assert run + w == w;
      JoinsToWordIff(w, w);
      if w != "" { assert JoinWords(w, true) == JoinWords(w, false); }
    } else {
      assert (run + w)[1..] == run[1..] + w;
      JoinOfRun(run[1..], w);
    }
  }

  lemma JoinsToTwoIff(s: string, first: string, second: string)
    requires Plain(first) && Plain(second) && second != ""
    ensures JoinWords(s, false) == first + ("_" + second) <==> exists gap :: IsGap(gap) && s == first + (gap + second)
  {
    if JoinWords(s, false) == first + ("_" + second) {
      JoinHead(s, first, "_" + second);
      var t := s[|first|..];
      assert ("_" + second)[0] == '_' && ("_" + second)[1..] == second;
      var gap: string;
      if IsSeparator(t[0]) {
        var run := RunOfSeparators(t[1..], second);
        gap := [t[0]] + run;
      } else {
        JoinsToWordIff(t[1..], second);
        gap := "_";
      }
      assert t == [t[0]] + t[1..];
      assert t == gap + second;
      assert s == first + (gap + second) && IsGap(gap);
    }
    if gap :| IsGap(gap) && s == first + (gap + second) {
      JoinOf(first, gap + second);
      JoinOfGap(gap, second);
    }
  }

  lemma JoinOfGap(gap: string, w: string)
    requires IsGap(gap) && Plain(w)
    ensures JoinWords(gap + w, false) == "_" + w
  {
    assert (gap + w)[0] == gap[0] && (gap + w)[1..] == gap[1..] + w;
    if IsSeparator(gap[0]) {
      JoinOfRun(gap[1..], w);
    } else {
      assert gap[1..] + w == w;
      JoinsToWordIff(w, w);
    }
  }

  // ---- Blanks around ----

  lemma Stripped(lead: string, body: string, trail: string)
    requires AllSpaces(lead) && AllSpaces(trail)
    requires body != "" && !IsSpace(body[0]) && !IsSpace(body[|body| - 1])
    ensures Strip(lead + (body + trail)) == body
  {
    LStripOf(lead, body + trail);
    RStripOf(body, trail);
  }

  /** The stripped text in lower case is such a body exactly when the text is the body between blanks. */
  lemma StrippedIff(text: string, w: string)
    requires w != "" && !IsSpace(w[0]) && !IsSpace(w[|w| - 1])
    ensures Lower(Strip(text)) == w <==>
              exists lead, body, trail :: text == lead + (body + trail) && AllSpaces(lead) && AllSpaces(trail) && Lower(body) == w
  {
    hide IsSpace;
    var lead, trail := StripPieces(text);
    if lead, body, trail :| text == lead + (body + trail) && AllSpaces(lead) && AllSpaces(trail) && Lower(body) == w {
      LowerKeepsSpaces(body, 0);
      LowerKeepsSpaces(body, |body| - 1);
      Stripped(lead, body, trail);
    }
  }

  lemma WordIff(text: string, w: string)
    requires Plain(w) && w != ""
    ensures Word(text, w) <==> JoinWords(Lower(Strip(text)), false) == w
  {
    hide IsSpace;
    assert !IsSeparator(w[0]) && !IsSeparator(w[|w| - 1]);
    StrippedIff(text, w);
    JoinsToWordIff(Lower(Strip(text)), w);
  }

  lemma TwoWordsIff(text: string, first: string, second: string)
    requires Plain(first) && Plain(second) && first != "" && second != ""
    ensures TwoWords(text, first, second) <==> JoinWords(Lower(Strip(text)), false) == first + ("_" + second)
  {
    hide IsSpace, Strip, Lower, JoinWords;
    JoinsToTwoIff(Lower(Strip(text)), first, second);
    if TwoWords(text, first, second) {
      var lead, body, trail, gap :| text == lead + (body + trail) && AllSpaces(lead) && AllSpaces(trail)
        && IsGap(gap) && Lower(body) == first + (gap + second);
      EdgesOf(first, gap, second);
      StrippedIff(text, first + (gap + second));
    }
    if gap :| IsGap(gap) && Lower(Strip(text)) == first + (gap + second) {
      EdgesOf(first, gap, second);
      StrippedIff(text, first + (gap + second));
    }
  }

  lemma EdgesOf(first: string, gap: string, second: string)
    requires Plain(first) && Plain(second) && first != "" && second != ""
    ensures var w := first + (gap + second); w != "" && !IsSpace(w[0]) && !IsSpace(w[|w| - 1])
  {
    hide IsSpace;
    var w := first + (gap + second);
    assert w[0] == first[0] && w[|w| - 1] == second[|second| - 1];
    assert !IsSeparator(first[0]) && !IsSeparator(second[|second| - 1]);
  }

  lemma PrefixedIff(text: string, w: string)
    requires Plain(w) && w != ""
    ensures Prefixed(text, w) <==> Under(JoinWords(Lower(Strip(text)), false), w)
  {
    hide IsSpace, Strip;
    var raw := Strip(text);
    var low := Lower(raw);
    if Under(JoinWords(low, false), w) {
      var n := JoinWords(low, false);
      assert n == w + n[|w|..];
      JoinHead(low, w, n[|w|..]);
      var lead, trail := StripPieces(text);
      var body := raw[..|w|];
      assert raw == body + raw[|w|..];
      assert text == lead + (body + (raw[|w|..] + trail));
      assert Lower(body) == w;
    }
    if Prefixed(text, w) {
      var lead, body, rest :| text == lead + (body + rest) && AllSpaces(lead) && Lower(body) == w;
      var tail := StripBehind(lead, body, rest, w);
      assert Lower(body + tail) == w + Lower(tail);
      JoinOf(w, Lower(tail));
    }
  }

  lemma StripBehind(lead: string, body: string, rest: string, w: string) returns (tail: string)
    requires AllSpaces(lead) && Plain(w) && w != "" && Lower(body) == w
    ensures Strip(lead + (body + rest)) == body + tail
  {
    hide IsSpace;
    assert !IsSeparator(w[0]) && !IsSeparator(w[|w| - 1]);
    LowerKeepsSpaces(body, 0);
    LowerKeepsSpaces(body, |body| - 1);
    LStripOf(lead, body + rest);
    tail := RStripBehind(body, rest);
  }

  // ---- Every text ----

  lemma WordsArePlain()
    ensures Plain("approved") && Plain("approve") && Plain("y") && Plain("yes") && Plain("session") && Plain("always")
    ensures Plain("deny") && Plain("rejected") && Plain("reject") && Plain("n") && Plain("no") && Plain("rejected:")
  {
    hide Plain;
    LettersArePlain("approved");
    LettersArePlain("approve");
    LettersArePlain("y");
    LettersArePlain("yes");
    LettersArePlain("session");
    LettersArePlain("always");
    LettersArePlain("deny");
    LettersArePlain("rejected");
    LettersArePlain("reject");
    LettersArePlain("n");
    LettersArePlain("no");
    LettersArePlain("rejected:");
  }

  lemma LettersArePlain(w: string)
    requires forall i :: 0 <= i < |w| ==> 'a' <= w[i] <= 'z' || w[i] == ':'
    ensures Plain(w)
  {
    hide IsSeparator;
    forall i | 0 <= i < |w| ensures w[i] != '_' && !IsSeparator(w[i]) { LetterIsPlain(w[i]); }
  }

  lemma LetterIsPlain(c: char)
    requires 'a' <= c <= 'z' || c == ':'
    ensures !IsSeparator(c)
  {
  }

  lemma NormalFormOf(text: string, n: string)
    requires n == JoinWords(Lower(Strip(text)), false)
    ensures SaysYes(text) <==> n in ["approved", "approve", "y", "yes"]
    ensures SaysSession(text) <==> n in ["session", "approve_session", "session_approve"]
    ensures SaysAlways(text) <==> n == "always_approve"
    ensures SaysNever(text) <==> n == "always_deny"
    ensures SaysNo(text) <==> Under(n, "rejected:") || n in ["rejected", "reject", "n", "no"]
  {
    hide JoinWords, Strip, Lower, Under, Plain, Word, TwoWords, Prefixed;
    WordsArePlain();
    WordIff(text, "approved");
    WordIff(text, "approve");
    WordIff(text, "y");
    WordIff(text, "yes");
    WordIff(text, "session");
    WordIff(text, "rejected");
    WordIff(text, "reject");
    WordIff(text, "n");
    WordIff(text, "no");
    PrefixedIff(text, "rejected:");
    TwoWordsIff(text, "approve", "session");
    TwoWordsIff(text, "session", "approve");
    TwoWordsIff(text, "always", "approve");
    TwoWordsIff(text, "always", "deny");
    assert "approve" + ("_" + "session") == "approve_session" && "session" + ("_" + "approve") == "session_approve";
    assert "always" + ("_" + "approve") == "always_approve" && "always" + ("_" + "deny") == "always_deny";
  }

  /** A text is read as a reply exactly when it is written with that reply's words. */
  lemma ReplyIsWhatItSays(text: string, reply: Reply)
    ensures NormalizeReply(text) == reply <==> Means(text, reply)
  {
    hide JoinWords, Strip, Lower, SaysYes, SaysSession, SaysAlways, SaysNever, SaysNo;
    var n := JoinWords(Lower(Strip(text)), false);
    NormalFormOf(text, n);
    if Strip(text) == "" { NothingJoined(); }
    assert Under(n, "rejected:") ==> |n| >= 9 && n[..9][0] == n[0] == 'r';
  }

  lemma NothingJoined()
    ensures JoinWords(Lower(""), false) == ""
  {
  }
}
