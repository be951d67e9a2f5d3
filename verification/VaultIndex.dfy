/** The note index: built in full, patched for some notes, and checked for staleness. */
module VaultIndex {
  import opened Collections
  import opened Options

  /** A readable note: its words in order, its title, and when its file changed. */
  datatype Note = Note(tokens: seq<string>, title: Option<string>, mtime: int)

  type Vault = map<string, Note>

  datatype Entry = Entry(mtime: int, docLen: nat, title: Option<string>, termFreqs: map<string, nat>)

  type Docs = map<string, Entry>

  /** `NotAnObject` is JSON of another kind, such as a list. */
  datatype IndexFile = Missing | Unreadable | NotAnObject | Stored(docs: Docs)

  /** How many notes an indexing read and how many entries it dropped. */
  datatype Counted = Counted(indexed: nat, deleted: nat)

  datatype Status = Unindexed | Broken | Ready | Stale

  // ---- Term counts ----

  function Counts(tokens: seq<string>): (tf: map<string, nat>)
    ensures forall t :: t in tf <==> t in tokens
  {
    if tokens == [] then map[]
    else
      var tf, t := Counts(tokens[..|tokens| - 1]), tokens[|tokens| - 1];
      assert tokens == tokens[..|tokens| - 1] + [t];
      tf[t := (if t in tf then tf[t] else 0) + 1]
  }

  lemma CountsOfOneMore(tokens: seq<string>, i: nat)
    requires i < |tokens|
    ensures var tf, t := Counts(tokens[..i]), tokens[i];
            Counts(tokens[..i + 1]) == tf[t := (if t in tf then tf[t] else 0) + 1]
  {
    assert tokens[..i + 1][..i] == tokens[..i];
  }

  method TermFreqs(tokens: seq<string>) returns (tf: map<string, nat>)
    ensures tf == Counts(tokens)
  {
    tf := map[];
    assert tokens[..0] == [];
    for i := 0 to |tokens|
      invariant tf == Counts(tokens[..i])
    {
      hide Counts;
      var t := tokens[i];
      CountsOfOneMore(tokens, i);
      tf := tf[t := (if t in tf then tf[t] else 0) + 1];
    }
    assert tokens[..|tokens|] == tokens;
  }

  ghost function Total(tf: map<string, nat>): nat {
    if tf == map[] then 0
    else
      assert tf.Keys != {};
      var t :| t in tf;
      tf[t] + Total(tf - {t})
  }

  lemma {:induction false} TotalWithout(tf: map<string, nat>, t: string)
    requires t in tf
    ensures Total(tf) == tf[t] + Total(tf - {t})
    decreases |tf|
  {
    var u :| u in tf && Total(tf) == tf[u] + Total(tf - {u});
    if u != t {
      TotalWithout(tf - {u}, t);
      TotalWithout(tf - {t}, u);
      assert tf - {u} - {t} == tf - {t} - {u};
    }
  }

  /** Each count is the word's number of occurrences. */
  lemma {:induction false} CountsAreOccurrences(tokens: seq<string>, t: string)
    requires t in tokens
    ensures Counts(tokens)[t] == multiset(tokens)[t] > 0
  {
    var rest, last := tokens[..|tokens| - 1], tokens[|tokens| - 1];
    assert tokens == rest + [last];
    if t in rest { CountsAreOccurrences(rest, t); }
  }

  /** The counts of a note add up to its length. */
  lemma {:induction false} CountsAddUp(tokens: seq<string>)
    ensures Total(Counts(tokens)) == |tokens|
  {
    hide Total;
    if tokens == [] {
      assert Total(map[]) == 0 by { TotalOfNothing(); }
    } else {
      var rest, t := tokens[..|tokens| - 1], tokens[|tokens| - 1];
      CountsAddUp(rest);
      var tf := Counts(tokens);
      TotalWithout(tf, t);
      if t in Counts(rest) { TotalWithout(Counts(rest), t); }
      assert tf - {t} == Counts(rest) - {t};
      assert t !in Counts(rest) ==> Counts(rest) - {t} == Counts(rest);
    }
  }

  lemma TotalOfNothing()
    ensures Total(map[]) == 0
  {
  }

  // ---- The index ----

  function EntryOf(n: Note): Entry {
    Entry(n.mtime, |n.tokens|, n.title, Counts(n.tokens))
  }

  function Build(vault: Vault): Docs {
    map ref | ref in vault :: EntryOf(vault[ref])
  }

  /** Patching: the named notes are re-read or dropped, the rest is kept. */
  function Patched(docs: Docs, refs: set<string>, vault: Vault): Docs {
    (map ref | ref in docs && ref !in refs :: docs[ref]) + (map ref | ref in refs && ref in vault :: EntryOf(vault[ref]))
  }

  /** Patching an index that agreed with an older vault gives the index of the new one exactly when the
      named notes cover every note that was added, removed or changed since. */
  lemma PatchIsRebuildIff(before: Vault, after: Vault, refs: set<string>)
    ensures Patched(Build(before), refs, after) == Build(after) <==>
              forall ref :: ref !in refs ==>
                (ref in before <==> ref in after) && (ref in before && ref in after ==> EntryOf(before[ref]) == EntryOf(after[ref]))
  {
    hide EntryOf;
    var p, b := Patched(Build(before), refs, after), Build(after);
    if p == b {
      forall ref | ref !in refs
        ensures (ref in before <==> ref in after) && (ref in before && ref in after ==> EntryOf(before[ref]) == EntryOf(after[ref]))
      {
        assert ref in p <==> ref in b;
        if ref in before && ref in after { assert p[ref] == b[ref]; }
      }
    }
  }

  lemma PatchOneMore(docs: Docs, refs: set<string>, ref: string, vault: Vault)
    ensures Patched(docs, refs + {ref}, vault) ==
              if ref in vault then Patched(docs, refs, vault)[ref := EntryOf(vault[ref])] else Patched(docs, refs, vault) - {ref}
  {
    hide EntryOf;
  }

  lemma NothingPatched(docs: Docs, vault: Vault)
    ensures Patched(docs, ElementsOf([]), vault) == docs
  {
    hide EntryOf;
  }

  /** How often a list of references names a note that is there. */
  function Present(refs: seq<string>, vault: Vault): nat {
    if refs == [] then 0 else Present(refs[..|refs| - 1], vault) + if refs[|refs| - 1] in vault then 1 else 0
  }

  /** That is the number of places in the list at which such a note is named. */
  lemma {:induction false} PresentIs(refs: seq<string>, vault: Vault)
    ensures Present(refs, vault) == |set i | 0 <= i < |refs| && refs[i] in vault|
    decreases |refs|
  {
    var here := set i | 0 <= i < |refs| && refs[i] in vault;
    if refs == [] {
      assert here == {};
    } else {
      var n := |refs| - 1;
      PresentIs(refs[..n], vault);
      var before := set i | 0 <= i < n && refs[..n][i] in vault;
      assert here == if refs[n] in vault then before + {n} else before;
    }
  }

  /** The entries of named notes that are no longer there. */
  function Vanished(refs: seq<string>, docs: Docs, vault: Vault): set<string> {
    ElementsOf(refs) * docs.Keys - vault.Keys
  }

  lemma NothingVanished(docs: Docs, vault: Vault)
    ensures Vanished([], docs, vault) == {}
  {
  }

  lemma VanishedIs(refs: seq<string>, docs: Docs, vault: Vault)
    ensures Vanished(refs, docs, vault) == ElementsOf(refs) * docs.Keys - vault.Keys
  {
  }

  lemma OneMoreVanished(seen: set<string>, ref: string, keys: set<string>, present: set<string>)
    ensures (seen + {ref}) * keys - present ==
              (seen * keys - present) + if ref in keys && ref !in present then {ref} else {}
  {
  }

  lemma StillIndexed(docs: Docs, seen: set<string>, ref: string, vault: Vault)
    requires ref !in vault
    ensures ref in Patched(docs, seen, vault) <==> ref in docs && ref !in seen
  {
    hide EntryOf;
  }

  lemma OneMore(a: set<string>, x: string)
    ensures |a + {x}| == |a| + if x in a then 0 else 1
  {
    if x in a { assert a + {x} == a; }
  }

  lemma VanishedOneMore(refs: seq<string>, i: nat, docs: Docs, vault: Vault)
    requires i < |refs|
    ensures |Vanished(refs[..i + 1], docs, vault)| == |Vanished(refs[..i], docs, vault)|
              + if refs[i] !in vault && refs[i] in Patched(docs, ElementsOf(refs[..i]), vault) then 1 else 0
  {
    hide Patched, ElementsOf;
    var seen, ref := ElementsOf(refs[..i]), refs[i];
    ElementsOfSnoc(refs, i);
    OneMoreVanished(seen, ref, docs.Keys, vault.Keys);
    assert ref in Vanished(refs[..i], docs, vault) <==> ref in seen && ref in docs && ref !in vault;
    hide Vanished;
    if ref !in vault {
      StillIndexed(docs, seen, ref, vault);
      if ref in docs {
        OneMore(Vanished(refs[..i], docs, vault), ref);
      }
    }
  }

  /** The index covers exactly the vault's notes, and none of their files is newer than its entry. */
  ghost predicate IsReady(notes: Vault, file: IndexFile) {
    && file.Stored? && file.docs.Keys == notes.Keys
    && forall ref :: ref in notes ==> notes[ref].mtime <= file.docs[ref].mtime
  }

  class MarkdownVault {
    var notes: Vault
    var indexFile: IndexFile

    constructor (notes: Vault)
      ensures this.notes == notes && indexFile == Missing
    {
      this.notes, indexFile := notes, Missing;
    }

    function LoadedDocs(): Docs
      reads this
    {
      if indexFile.Stored? then indexFile.docs else map[]
    }

    method ReadNote(ref: string) returns (e: Entry)
      requires ref in notes
      ensures e == EntryOf(notes[ref])
    {
      var n := notes[ref];
      var tf := TermFreqs(n.tokens);
      return Entry(n.mtime, |n.tokens|, n.title, tf);
    }

    /** `index()`: every note is read, in the order in which the directory lists them, then vanished ones
        go. None is the exception for an index file that is no object. */
    method Index(listing: seq<string>) returns (counts: Option<Counted>)
      requires Distinct(listing) && ElementsOf(listing) == notes.Keys
      modifies this`indexFile
      ensures counts.None? <==> old(indexFile).NotAnObject?
      ensures indexFile == if counts.None? then old(indexFile) else Stored(Build(notes))
      ensures counts.Some? ==> counts.value == Counted(|notes|, |old(LoadedDocs()).Keys - notes.Keys|)
    {
      hide EntryOf;
      if indexFile.NotAnObject? { return None; }
      var docs, indexed := ReadAll(LoadedDocs(), listing);
      DistinctCardinality(listing);
      var deleted;
      docs, deleted := DropVanished(docs);
      assert docs == Build(notes);
      indexFile := Stored(docs);
      return Some(Counted(indexed, deleted));
    }

    method ReadAll(loaded: Docs, listing: seq<string>) returns (docs: Docs, indexed: nat)
      requires ElementsOf(listing) == notes.Keys
      ensures docs.Keys == loaded.Keys + notes.Keys && indexed == |listing|
      ensures forall ref :: ref in notes ==> docs[ref] == EntryOf(notes[ref])
    {
      hide EntryOf, Counts;
      docs, indexed := loaded, 0;
      for i := 0 to |listing|
        invariant indexed == i
        invariant docs.Keys == loaded.Keys + ElementsOf(listing[..i])
        invariant forall ref :: ref in ElementsOf(listing[..i]) ==> ref in notes && docs[ref] == EntryOf(notes[ref])
      {
        ElementsOfSnoc(listing, i);
        assert listing[i] in ElementsOf(listing);
        var e := ReadNote(listing[i]);
        docs := docs[listing[i] := e];
        indexed := indexed + 1;
      }
      assert listing[..|listing|] == listing;
    }

    method DropVanished(read: Docs) returns (docs: Docs, deleted: nat)
      ensures docs.Keys == read.Keys * notes.Keys && deleted == |read.Keys - notes.Keys|
      ensures forall ref :: ref in docs ==> docs[ref] == read[ref]
    {
      docs, deleted := read, 0;
      var gone := read.Keys - notes.Keys;
      while gone != {}
        invariant gone <= read.Keys - notes.Keys && deleted + |gone| == |read.Keys - notes.Keys|
        invariant forall ref :: ref in docs <==> ref in read && (ref in notes || ref in gone)
        invariant forall ref :: ref in docs ==> docs[ref] == read[ref]
        decreases |gone|
      {
        var ref :| ref in gone;
        docs := docs - {ref};
        deleted := deleted + 1;
        gone := gone - {ref};
      }
    }

    /** `index(refs)`: only the named notes, one after another, each time they are named. */
    method IndexRefs(refs: seq<string>) returns (counts: Option<Counted>)
      modifies this`indexFile
      ensures counts.None? <==> old(indexFile).NotAnObject?
      ensures indexFile == if counts.None? then old(indexFile) else Stored(Patched(old(LoadedDocs()), ElementsOf(refs), notes))
      ensures counts.Some? ==>
                counts.value == Counted(|set i | 0 <= i < |refs| && refs[i] in notes|, |ElementsOf(refs) * old(LoadedDocs()).Keys - notes.Keys|)
    {
      hide EntryOf, Patched, Vanished, ElementsOf;
      if indexFile.NotAnObject? { return None; }
      var docs, indexed, deleted := LoadedDocs(), 0, 0;
      ghost var loaded := docs;
      NothingPatched(docs, notes);
      NothingVanished(docs, notes);
      for i := 0 to |refs|
        invariant docs == Patched(loaded, ElementsOf(refs[..i]), notes)
        invariant indexed == Present(refs[..i], notes)
        invariant deleted == |Vanished(refs[..i], loaded, notes)|
      {
        var ref := refs[i];
        ElementsOfSnoc(refs, i);
        PatchOneMore(loaded, ElementsOf(refs[..i]), ref, notes);
        VanishedOneMore(refs, i, loaded, notes);
        assert refs[..i + 1][..i] == refs[..i];
        if ref !in notes {
          if ref in docs { deleted := deleted + 1; }
          docs := docs - {ref};
        } else {
          var e := ReadNote(ref);
          docs := docs[ref := e];
          indexed := indexed + 1;
        }
      }
      assert refs[..|refs|] == refs;
      VanishedIs(refs, loaded, notes);
      PresentIs(refs, notes);
      indexFile := Stored(docs);
      return Some(Counted(indexed, deleted));
    }

    /** `reindex()`: drop the file, then index. */
    method Reindex(listing: seq<string>)
      requires Distinct(listing) && ElementsOf(listing) == notes.Keys
      modifies this`indexFile
      ensures indexFile == Stored(Build(notes))
    {
      indexFile := Missing;
      var _ := Index(listing);
    }

    /** `index_status()`: stale at the first unindexed or newer note, or when the counts differ. */
    method IndexStatus() returns (status: Status)
      ensures status == Unindexed <==> indexFile.Missing?
      ensures status == Broken <==> indexFile.Unreadable? || indexFile.NotAnObject?
      ensures status == Ready <==> IsReady(notes, indexFile)
    {
      if indexFile.Missing? { return Unindexed; }
      if indexFile.Unreadable? || indexFile.NotAnObject? { return Broken; }
      var docs := indexFile.docs;
      var todo, found := notes.Keys, 0;
      while todo != {}
        invariant todo <= notes.Keys && found + |todo| == |notes.Keys|
        invariant forall ref :: ref in notes && ref !in todo ==> ref in docs && notes[ref].mtime <= docs[ref].mtime
        decreases |todo|
      {
        var ref :| ref in todo;
        found := found + 1;
        if ref !in docs || notes[ref].mtime > docs[ref].mtime { return Stale; }
        todo := todo - {ref};
      }
      SameSizeSubset(notes.Keys, docs.Keys);
      if found != |docs| { return Stale; }
      return Ready;
    }
  }

  /** A subset of the same size is the whole set. */
  lemma SameSizeSubset<T>(a: set<T>, b: set<T>)
    requires a <= b
    ensures |a| == |b| <==> a == b
  {
    if |a| == |b| {
      assert |b - a| == |b| - |a|;
      assert b - a == {};
    }
  }

  /** Status reports ready while a rebuild would store something else if and only if the notes are the
      same, no file's time is later than the one stored, and the entry of some note would differ: an edit
      that kept or lowered the file's time. */
  lemma ReadyButOutOfDateIff(before: Vault, after: Vault)
    ensures IsReady(after, Stored(Build(before))) && Build(before) != Build(after) <==>
              && before.Keys == after.Keys
              && (forall ref :: ref in after ==> after[ref].mtime <= before[ref].mtime)
              && (exists ref :: ref in after && EntryOf(before[ref]) != EntryOf(after[ref]))
  {
    hide EntryOf;
    BuildKeepsTimes(before);
    if before.Keys == after.Keys {
      if forall ref :: ref in after ==> EntryOf(before[ref]) == EntryOf(after[ref]) {
        assert Build(before) == Build(after);
      } else {
        var ref :| ref in after && EntryOf(before[ref]) != EntryOf(after[ref]);
        assert Build(before)[ref] != Build(after)[ref];
      }
    }
  }

  lemma BuildKeepsTimes(vault: Vault)
    ensures Build(vault).Keys == vault.Keys
    ensures forall ref :: ref in vault ==> Build(vault)[ref].mtime == vault[ref].mtime
  {
    hide Counts;
  }

  /** File times that never go back, and that tell every edit apart. */
  ghost predicate TimesTellEdits(before: Vault, after: Vault) {
    forall ref :: ref in before && ref in after ==>
                    && before[ref].mtime <= after[ref].mtime
                    && (before[ref].mtime == after[ref].mtime ==> before[ref] == after[ref])
  }

  /** An index built from an older vault reports ready exactly when rebuilding it would change nothing. */
  lemma ReadyMeansRebuilt(before: Vault, after: Vault)
    requires TimesTellEdits(before, after)
    ensures IsReady(after, Stored(Build(before))) <==> Build(before) == Build(after)
  {
    hide EntryOf, Build;
    BuildKeepsTimes(before);
    BuildKeepsTimes(after);
    ReadyButOutOfDateIff(before, after);
  }

  /** Such edits exist: one that keeps the file's time, and one that puts an older file in its place. */
  lemma ReadyCanBeOutOfDate()
    ensures exists before: Vault, after: Vault :: IsReady(after, Stored(Build(before))) && Build(before) != Build(after)
    ensures exists before: Vault, after: Vault ::
              && IsReady(after, Stored(Build(before))) && Build(before) != Build(after)
              && forall ref :: ref in after && ref in before ==> after[ref].mtime < before[ref].mtime
  {
    hide Build, IsReady;
    var before: Vault := map["a" := Note([], None, 5)];
    ReplacedNote(5);
    ReplacedNote(3);
    assert forall ref :: ref in before ==> ref == "a";
  }

  lemma ReplacedNote(time: int)
    requires time <= 5
    ensures var before: Vault, after: Vault := map["a" := Note([], None, 5)], map["a" := Note(["x"], None, time)];
            IsReady(after, Stored(Build(before))) && Build(before) != Build(after)
  {
    hide Build, Counts, IsReady;
    var before: Vault, after: Vault := map["a" := Note([], None, 5)], map["a" := Note(["x"], None, time)];
    assert EntryOf(before["a"]).docLen == 0 && EntryOf(after["a"]).docLen == 1;
    ReadyButOutOfDateIff(before, after);
  }
}
