/** The skill registry: canonical names and aliases never overlap. */
module SkillRegistry {
  import opened Options
  import opened PythonText

  /** A skill whose own name and aliases passed its constructor's checks. */
  datatype Skill = Skill(name: string, aliases: seq<string>) {
    predicate Valid() {
      && name != "" && name !in aliases && "" !in aliases
      && forall i, j :: 0 <= i < j < |aliases| ==> aliases[i] != aliases[j]
    }

    function Words(): set<string> {
      {name} + set a | a in aliases
    }
  }

  /** Names are compared without blanks around them and in lower case. */
  function Normalized(text: string): string {
    Lower(Strip(text))
  }

  function NormalizedAll(texts: seq<string>): (ns: seq<string>)
    ensures |ns| == |texts| && forall i :: 0 <= i < |texts| ==> ns[i] == Normalized(texts[i])
  {
    seq(|texts|, i requires 0 <= i < |texts| => Normalized(texts[i]))
  }

  predicate AllDifferent(names: seq<string>) {
    forall i, j :: 0 <= i < j < |names| ==> names[i] != names[j]
  }

  /** The constructor: it normalizes all names, and raises for a blank one or a repeated one. */
  function MakeSkill(name: string, aliases: seq<string>): Option<Skill> {
    var n, others := Normalized(name), NormalizedAll(aliases);
    if n == "" || "" in others || n in others || !AllDifferent(others) then None else Some(Skill(n, others))
  }

  /** A skill is made exactly when none of its names is all blanks and no two are the same word. */
  lemma MakeSkillIff(name: string, aliases: seq<string>)
    ensures MakeSkill(name, aliases).Some? <==>
              && !AllSpaces(name) && (forall i :: 0 <= i < |aliases| ==> !AllSpaces(aliases[i]))
              && (forall i :: 0 <= i < |aliases| ==> Normalized(name) != Normalized(aliases[i]))
              && (forall i, j :: 0 <= i < j < |aliases| ==> Normalized(aliases[i]) != Normalized(aliases[j]))
  {
    hide Normalized, AllSpaces;
    NormalForm(name);
    forall i | 0 <= i < |aliases| ensures Normalized(aliases[i]) == "" <==> AllSpaces(aliases[i]) { NormalForm(aliases[i]); }
  }

  /** It is valid, its words are the given ones normalized, and making it from its own names gives it again. */
  lemma MadeSkillIs(name: string, aliases: seq<string>)
    requires MakeSkill(name, aliases).Some?
    ensures var s := MakeSkill(name, aliases).value;
            && s.Valid() && s.name == Normalized(name) && |s.aliases| == |aliases|
            && (forall i :: 0 <= i < |aliases| ==> s.aliases[i] == Normalized(aliases[i]))
            && MakeSkill(s.name, s.aliases) == Some(s)
  {
    hide Normalized;
    NormalForm(name);
    forall i | 0 <= i < |aliases| ensures Normalized(Normalized(aliases[i])) == Normalized(aliases[i]) { NormalForm(aliases[i]); }
    assert NormalizedAll(NormalizedAll(aliases)) == NormalizedAll(aliases);
  }

  lemma NormalForm(text: string)
    ensures Normalized(text) == "" <==> AllSpaces(text)
    ensures Normalized(Normalized(text)) == Normalized(text)
  {
    hide IsSpace;
    var lead, trail := StripPieces(text);
    var raw := Strip(text);
    if raw == "" {
      assert text == lead + trail;
    } else {
      assert raw[0] == text[|lead|] by { assert text == lead + raw + trail; }
      StripStarts(text);
      var low := Lower(raw);
      LowerKeepsSpaces(raw, 0);
      LowerKeepsSpaces(raw, |raw| - 1);
      LStripOf("", low);
      RStripOf(low, "");
      assert "" + low == low && low + "" == low;
      LowerTwice(raw);
    }
  }

  lemma StripStarts(text: string)
    requires Strip(text) != ""
    ensures !IsSpace(Strip(text)[0]) && !IsSpace(Strip(text)[|Strip(text)| - 1])
  {
    hide IsSpace;
    var s := LStrip(text);
    var trail := RStripPieces(s);
    assert s[0] == RStrip(s)[0];
  }

  lemma LowerTwice(s: string)
    ensures Lower(Lower(s)) == Lower(s)
  {
  }

  /** The registered skills in registration order; names are the keys of the source's dictionary. */
  type Skills = seq<Skill>

  /** A new skill is accepted when it shares no word with a registered one. */
  predicate Acceptable(skills: Skills, s: Skill) {
    forall i :: 0 <= i < |skills| ==> skills[i].Words() !! s.Words()
  }

  ghost predicate Disjoint(skills: Skills) {
    && (forall i :: 0 <= i < |skills| ==> skills[i].Valid())
    && forall i, j :: 0 <= i < j < |skills| ==> skills[i].Words() !! skills[j].Words()
  }

  /** Registering one after another; None when one is refused. */
  function RegisterAll(skills: Skills, more: seq<Skill>): Option<Skills>
    decreases |more|
  {
    if more == [] then Some(skills)
    else if Acceptable(skills, more[0]) then RegisterAll(skills + [more[0]], more[1..])
    else None
  }

  /** The first word of a task, lower-cased and trimmed: what a command is matched by. */
  function FirstWord(text: string): string {
    WordPrefix(Lower(Strip(text)))
  }

  function WordPrefix(s: string): string {
    if s == "" || IsSpace(s[0]) then "" else [s[0]] + WordPrefix(s[1..])
  }

  predicate Matches(s: Skill, text: string) {
    var w := FirstWord(text);
    w != "" && (w == s.name || w in s.aliases)
  }

  /** The text's first word, in any case, is one of the skill's words: blanks, the word, and then a blank and
      anything, or nothing. */
  ghost predicate StartsWithWordOf(s: Skill, text: string) {
    exists lead, word, rest ::
      && text == lead + (word + rest) && AllSpaces(lead) && word != "" && NoSpaces(word)
      && (rest == "" || IsSpace(rest[0])) && Lower(word) in s.Words()
  }

  predicate NoSpaces(word: string) {
    forall i :: 0 <= i < |word| ==> !IsSpace(word[i])
  }

  /** A command matches a skill exactly when it starts with one of its words. */
  lemma MatchesIff(s: Skill, text: string)
    ensures Matches(s, text) <==> StartsWithWordOf(s, text)
  {
    hide Matches, StartsWithWordOf;
    if Matches(s, text) { MatchStartsWithWord(s, text); }
    if StartsWithWordOf(s, text) { WordMatches(s, text); }
  }

  lemma MatchStartsWithWord(s: Skill, text: string)
    requires Matches(s, text)
    ensures StartsWithWordOf(s, text)
  {
    hide IsSpace, Strip, WordPrefix;
    var lead, trail := StripPieces(text);
    var raw := Strip(text);
    var n := PrefixLength(Lower(raw));
    var word, rest := raw[..n], raw[n..] + trail;
    assert text == lead + (word + rest);
    assert Lower(word) == Lower(raw)[..n];
    forall i | 0 <= i < n ensures !IsSpace(word[i]) { LowerKeepsSpaces(raw, i); }
    if n < |raw| { LowerKeepsSpaces(raw, n); } else if trail != "" { assert rest == trail; }
  }

  lemma WordMatches(s: Skill, text: string)
    requires StartsWithWordOf(s, text)
    ensures Matches(s, text)
  {
    hide IsSpace, Strip, WordPrefix;
    var lead, word, rest :| text == lead + (word + rest) && AllSpaces(lead) && word != "" && NoSpaces(word)
      && (rest == "" || IsSpace(rest[0])) && Lower(word) in s.Words();
    var tail := WordKept(lead, word, rest);
    assert Lower(word + tail) == Lower(word) + Lower(tail);
    forall i | 0 <= i < |word| ensures !IsSpace(Lower(word)[i]) { LowerKeepsSpaces(word, i); }
    if tail != "" { LowerKeepsSpaces(tail, 0); }
    PrefixOf(Lower(word), Lower(tail));
  }

  lemma {:induction false} PrefixLength(s: string) returns (n: nat)
    ensures n <= |s| && WordPrefix(s) == s[..n] && NoSpaces(s[..n]) && (n < |s| ==> IsSpace(s[n]))
  {
    hide IsSpace;
    if s == "" || IsSpace(s[0]) {
      n := 0;
    } else {
      var m := PrefixLength(s[1..]);
      n := m + 1;
      assert s[..n] == [s[0]] + s[1..][..m];
    }
  }

  lemma {:induction false} PrefixOf(word: string, rest: string)
    requires NoSpaces(word) && (rest == "" || IsSpace(rest[0]))
    ensures WordPrefix(word + rest) == word
    decreases |word|
  {
    hide IsSpace;
    if word == "" {
      assert word + rest == rest;
    } else {
      assert (word + rest)[1..] == word[1..] + rest;
      PrefixOf(word[1..], rest);
    }
  }

  lemma WordKept(lead: string, word: string, rest: string) returns (tail: string)
    requires AllSpaces(lead) && word != "" && NoSpaces(word) && (rest == "" || IsSpace(rest[0]))
    ensures Strip(lead + (word + rest)) == word + tail && (tail == "" || IsSpace(tail[0]))
  {
    hide IsSpace;
    LStripOf(lead, word + rest);
    tail := RStripBehind(word, rest);
    var trail := RStripPieces(word + rest);
    assert word + rest == (word + tail) + trail;
    assert tail != "" ==> tail[0] == (word + rest)[|word|] == rest[0];
  }

  /** The first registered skill that matches. */
  function FirstMatch(skills: Skills, text: string): (found: Option<Skill>)
    ensures found.Some? ==> found.value in skills && Matches(found.value, text)
    ensures found.None? <==> forall s :: s in skills ==> !Matches(s, text)
  {
    if skills == [] then None
    else
      assert skills == [skills[0]] + skills[1..];
      if Matches(skills[0], text) then Some(skills[0]) else FirstMatch(skills[1..], text)
  }

  class Registry {
    var skills: Skills

    ghost predicate Valid()
      reads this
    {
      Disjoint(skills)
    }

    constructor ()
      ensures Valid() && skills == []
    {
      skills := [];
    }

    /** `register`: refused when the name or an alias is already some skill's name or alias. */
    method Register(s: Skill) returns (ok: bool)
      requires Valid() && s.Valid()
      modifies this
      ensures Valid()
      ensures ok <==> Acceptable(old(skills), s)
      ensures skills == if ok then old(skills) + [s] else old(skills)
    {
      ok := CheckCollisions(s);
      if ok { skills := skills + [s]; }
    }

    /** The collision tests in the source's order: names first, then skill by skill. */
    method CheckCollisions(s: Skill) returns (ok: bool)
      requires Valid() && s.Valid()
      ensures ok <==> Acceptable(skills, s)
    {
      hide Skill.Words;
      for i := 0 to |skills|
        invariant forall k :: 0 <= k < i ==> skills[k].name != s.name
      {
        if skills[i].name == s.name {
          SharedWord(skills[i], s, s.name);
          return false;
        }
      }
      for i := 0 to |skills|
        invariant forall k :: 0 <= k < i ==> skills[k].Words() !! s.Words()
      {
        if s.name in skills[i].aliases {
          SharedWord(skills[i], s, s.name);
          return false;
        }
        for j := 0 to |s.aliases|
          invariant forall k :: 0 <= k < j ==> s.aliases[k] != skills[i].name && s.aliases[k] !in skills[i].aliases
        {
          if s.aliases[j] == skills[i].name || s.aliases[j] in skills[i].aliases {
            SharedWord(skills[i], s, s.aliases[j]);
            return false;
          }
        }
        NoSharedWord(skills[i], s);
      }
      return true;
    }

    /** `register_many`: a shadow registry takes the whole batch first. */
    method RegisterMany(batch: seq<Skill>) returns (ok: bool)
      requires Valid() && forall i :: 0 <= i < |batch| ==> batch[i].Valid()
      modifies this
      ensures Valid()
      ensures ok <==> RegisterAll(old(skills), batch).Some?
      ensures skills == if ok then RegisterAll(old(skills), batch).value else old(skills)
    {
      hide Skill.Words, Acceptable;
      var shadow := new Registry();
      for i := 0 to |skills|
        invariant skills == old(skills) && fresh(shadow) && shadow.Valid() && shadow.skills == skills[..i]
      {
        StillAcceptable(skills, i);
        var copied := shadow.Register(skills[i]);
        assert skills[..i + 1] == skills[..i] + [skills[i]];
      }
      assert skills[..|skills|] == skills;
      for i := 0 to |batch|
        invariant skills == old(skills) && fresh(shadow) && shadow.Valid()
        invariant RegisterAll(skills, batch) == RegisterAll(shadow.skills, batch[i..])
        invariant shadow.skills == skills + batch[..i]
      {
        assert batch[i..][1..] == batch[i + 1..] && batch[..i + 1] == batch[..i] + [batch[i]];
        ok := shadow.Register(batch[i]);
        if !ok { return; }
        assert skills + batch[..i] + [batch[i]] == skills + batch[..i + 1];
      }
      assert batch[..|batch|] == batch;
      skills := skills + batch;
      return true;
    }

    /** `deterministic_match`: the first registered skill that matches. */
    method DeterministicMatch(text: string) returns (found: Option<Skill>)
      requires Valid()
      ensures found == FirstMatch(skills, text)
      ensures found.Some? ==> forall s :: s in skills && Matches(s, text) ==> s == found.value
    {
      hide Skill.Words, FirstWord, Matches;
      for i := 0 to |skills|
        invariant FirstMatch(skills, text) == FirstMatch(skills[i..], text)
      {
        assert skills[i..][1..] == skills[i + 1..];
        if Matches(skills[i], text) {
          AtMostOneMatch(skills, text, i);
          return Some(skills[i]);
        }
      }
      return None;
    }
  }

  lemma SharedWord(a: Skill, b: Skill, w: string)
    requires (w == a.name || w in a.aliases) && (w == b.name || w in b.aliases)
    ensures !(a.Words() !! b.Words())
  {
    assert w in a.Words() && w in b.Words();
  }

  lemma NoSharedWord(a: Skill, b: Skill)
    requires a.name != b.name && b.name !in a.aliases
    requires forall k :: 0 <= k < |b.aliases| ==> b.aliases[k] != a.name && b.aliases[k] !in a.aliases
    ensures a.Words() !! b.Words()
  {
    forall w | w in b.Words()
      ensures w !in a.Words()
    {
      if w != b.name { var k :| 0 <= k < |b.aliases| && b.aliases[k] == w; }
    }
  }

  lemma StillAcceptable(skills: Skills, i: nat)
    requires Disjoint(skills) && i < |skills|
    ensures Acceptable(skills[..i], skills[i])
  {
    hide Skill.Words;
  }

  lemma AtMostOneMatch(skills: Skills, text: string, i: nat)
    requires Disjoint(skills) && i < |skills| && Matches(skills[i], text)
    ensures forall s :: s in skills && Matches(s, text) ==> s == skills[i]
  {
    hide Skill.Words, FirstWord;
    forall s | s in skills && Matches(s, text)
      ensures s == skills[i]
    {
      var j :| 0 <= j < |skills| && skills[j] == s;
      if i != j { SharedWord(skills[i], s, FirstWord(text)); }
    }
  }

  /** The match does not depend on the order of registration: the same skills give the same answer. */
  lemma MatchIgnoresOrder(a: Skills, b: Skills, text: string)
    requires Disjoint(a) && multiset(a) == multiset(b)
    ensures FirstMatch(a, text) == FirstMatch(b, text)
  {
    hide Skill.Words, FirstWord, Matches, Disjoint, FirstMatch;
    assert forall s :: s in a <==> s in multiset(a);
    assert forall s :: s in b <==> s in multiset(b);
    if FirstMatch(a, text).Some? {
      var i :| 0 <= i < |a| && a[i] == FirstMatch(a, text).value;
      AtMostOneMatch(a, text, i);
    }
  }

  /** Registering a batch keeps every earlier skill, appends the batch in order, and keeps all words apart. */
  lemma {:induction false} BatchAppends(skills: Skills, batch: seq<Skill>)
    requires Disjoint(skills) && forall i :: 0 <= i < |batch| ==> batch[i].Valid()
    ensures RegisterAll(skills, batch).Some? ==> RegisterAll(skills, batch).value == skills + batch && Disjoint(skills + batch)
    ensures RegisterAll(skills, batch).Some? <==> Disjoint(skills + batch)
    decreases |batch|
  {
    hide Skill.Words;
    if batch == [] {
      assert skills + batch == skills;
    } else {
      var grown := skills + [batch[0]];
      assert grown + batch[1..] == skills + batch;
      var all := skills + batch;
      assert all[|skills|] == batch[0];
      assert forall i :: 0 <= i < |skills| ==> all[i] == skills[i];
      if Acceptable(skills, batch[0]) { BatchAppends(grown, batch[1..]); }
    }
  }
}
