/**
 * The glossary merge: which entry a conflict strategy chooses in each group of equal
 * source terms, what an executed merge does to the entry table, and why repeating a merge
 * changes nothing. Choices are specified on sets of entries; the store works on sorted lists.
 */
module GlossaryMerge {
  import opened BatchTypes

  type Translations = seq<(string, string)>

  /** The bookkeeping keys a merge writes into an entry's metadata; they carry no meaning. */
  datatype Bookkeeping =
    Bookkeeping(mergeSources: Option<seq<nat>>, mergedAt: Option<int>, updatedAt: Option<int>)

  /** A database row. Translations keep their order, which the source text can depend on. */
  datatype Entry = Entry(
    glossary: nat,
    translations: Translations,
    abbreviations: map<string, seq<string>>,
    variants: map<string, seq<string>>,
    metadata: map<string, string>,
    book: Bookkeeping)

  type Table = map<nat, Entry>

  datatype Strategy = KeepFirst | KeepLast | KeepTarget | SkipConflicts | UnknownStrategy

  /** A merge under way; `normal` strips, folds case and collapses white space. */
  datatype Merge = Merge(sources: seq<nat>, target: nat, strategy: Strategy, normal: string -> string)

  // ---------------------------------------------------------------- the meaning of an entry

  function AsMap(ts: Translations): map<string, string> {
    if ts == [] then map[] else AsMap(ts[..|ts| - 1])[ts[|ts| - 1].0 := ts[|ts| - 1].1]
  }

  function FirstText(ts: Translations): string {
    if ts == [] then "" else if ts[0].1 != "" then ts[0].1 else FirstText(ts[1..])
  }

  function Get(m: map<string, string>, k: string): string {
    if k in m then m[k] else ""
  }

  function SourceText(e: Entry): string {
    var lang := Get(e.metadata, "source_lang");
    if Get(e.metadata, "source_text") != "" then Get(e.metadata, "source_text")
    else if lang != "" && Get(AsMap(e.translations), lang) != "" then Get(AsMap(e.translations), lang)
    else if Get(AsMap(e.translations), "en") != "" then Get(AsMap(e.translations), "en")
    else FirstText(e.translations)
  }

  /** The normalized source term an entry is grouped by; entries without one are left out. */
  function Term(m: Merge, e: Entry): string {
    m.normal(SourceText(e))
  }

  /** As in a dictionary, the last text of a language counts. */
  lemma {:induction false} AsMapIs(ts: Translations, k: string)
    ensures k in AsMap(ts) <==> exists i :: 0 <= i < |ts| && ts[i].0 == k
    ensures k in AsMap(ts) ==> exists i :: IsLastOf(ts, k, i) && AsMap(ts)[k] == ts[i].1
  {
    if ts != [] {
      var front := ts[..|ts| - 1];
      AsMapIs(front, k);
      assert forall i :: 0 <= i < |front| ==> front[i] == ts[i];
      if ts[|ts| - 1].0 == k {
        assert IsLastOf(ts, k, |ts| - 1);
      } else if k in AsMap(front) {
        var i :| IsLastOf(front, k, i) && AsMap(front)[k] == front[i].1;
        assert IsLastOf(ts, k, i);
      }
    }
  }

  predicate IsLastOf(ts: Translations, k: string, i: int) {
    0 <= i < |ts| && ts[i].0 == k && forall j :: i < j < |ts| ==> ts[j].0 != k
  }

  /**
   * Where the source text comes from: the metadata, else the translation into the source language, else
   * the English one, else the first that is not empty; so it is empty only when all of these are.
   */
  lemma {:induction false} SourceTextIs(e: Entry)
    ensures var given, lang := Get(e.metadata, "source_text"), Get(e.metadata, "source_lang");
            var texts := AsMap(e.translations);
            var inLang, english := if lang == "" then "" else Get(texts, lang), Get(texts, "en");
            if given != "" then SourceText(e) == given
            else if inLang != "" then SourceText(e) == inLang
            else if english != "" then SourceText(e) == english
            else SourceText(e) != "" ==>
                   exists i :: IsFirstText(e.translations, i) && SourceText(e) == e.translations[i].1
    ensures SourceText(e) == "" <==>
            Get(e.metadata, "source_text") == "" && forall i :: 0 <= i < |e.translations| ==> e.translations[i].1 == ""
  {
    FirstTextIs(e.translations);
    if forall i :: 0 <= i < |e.translations| ==> e.translations[i].1 == "" {
      NoTexts(e.translations, Get(e.metadata, "source_lang"));
      NoTexts(e.translations, "en");
    }
  }

  predicate IsFirstText(ts: Translations, i: int) {
    0 <= i < |ts| && ts[i].1 != "" && forall j :: 0 <= j < i ==> ts[j].1 == ""
  }

  lemma {:induction false} FirstTextIs(ts: Translations)
    ensures FirstText(ts) == "" <==> forall i :: 0 <= i < |ts| ==> ts[i].1 == ""
    ensures FirstText(ts) != "" ==> exists i :: IsFirstText(ts, i) && FirstText(ts) == ts[i].1
  {
    if ts != [] {
      FirstTextIs(ts[1..]);
      assert forall i :: 1 <= i < |ts| ==> ts[i] == ts[1..][i - 1];
      if ts[0].1 != "" {
        assert IsFirstText(ts, 0);
      } else if FirstText(ts[1..]) != "" {
        var i :| IsFirstText(ts[1..], i) && FirstText(ts[1..]) == ts[1..][i].1;
        assert IsFirstText(ts, i + 1);
      }
    }
  }

  lemma {:induction false} NoTexts(ts: Translations, k: string)
    requires forall i :: 0 <= i < |ts| ==> ts[i].1 == ""
    ensures Get(AsMap(ts), k) == ""
  {
    AsMapIs(ts, k);
  }

  datatype Meaning = Meaning(
    translations: map<string, string>,
    abbreviations: map<string, seq<string>>,
    variants: map<string, seq<string>>,
    metadata: map<string, string>)

  /** The semantic payload: everything but the bookkeeping, translations without their order. */
  function MeaningOf(e: Entry): Meaning {
    Meaning(AsMap(e.translations), e.abbreviations, e.variants, e.metadata)
  }

  /** Entries mean the same when they differ at most in the order of their translations and in bookkeeping. */
  lemma {:induction false} SameMeaningIff(a: Entry, b: Entry)
    ensures MeaningOf(a) == MeaningOf(b) <==>
            && a.abbreviations == b.abbreviations && a.variants == b.variants && a.metadata == b.metadata
            && AsMap(a.translations) == AsMap(b.translations)
  {
  }

  /** Equal in everything a merge copies. */
  predicate SameContent(a: Entry, b: Entry) {
    a.translations == b.translations && a.abbreviations == b.abbreviations &&
    a.variants == b.variants && a.metadata == b.metadata
  }

  // ---------------------------------------------------------------- order and groups

  function IndexOf(s: seq<nat>, x: nat): (i: nat)
    ensures i <= |s|
    ensures i < |s| <==> x in s
    ensures i < |s| ==> s[i] == x
    ensures forall j :: 0 <= j < i ==> s[j] != x
  {
    if s == [] then 0 else if s[0] == x then 0 else IndexOf(s[1..], x) + 1
  }

  /** The order of the sorted query: by glossary priority, then by entry id. */
  predicate Before(m: Merge, t: Table, a: nat, b: nat)
    requires a in t && b in t
  {
    var pa, pb := IndexOf(m.sources, t[a].glossary), IndexOf(m.sources, t[b].glossary);
    pa < pb || (pa == pb && a < b)
  }

  predicate InScope(m: Merge, e: Entry) {
    e.glossary in m.sources || e.glossary == m.target
  }

  /** The entries of the merge that share a term. */
  function Group(m: Merge, t: Table, term: string): set<nat> {
    set id | id in t && InScope(m, t[id]) && Term(m, t[id]) == term
  }

  function Candidates(m: Merge, t: Table, term: string): set<nat> {
    set id | id in Group(m, t, term) && t[id].glossary in m.sources
  }

  function InTarget(m: Merge, t: Table, term: string): set<nat> {
    set id | id in Group(m, t, term) && t[id].glossary == m.target
  }

  predicate IsFirst(m: Merge, t: Table, s: set<nat>, id: nat)
    requires s <= t.Keys
  {
    id in s && forall x :: x in s && x != id ==> Before(m, t, id, x)
  }

  predicate IsLast(m: Merge, t: Table, s: set<nat>, id: nat)
    requires s <= t.Keys
  {
    id in s && forall x :: x in s && x != id ==> Before(m, t, x, id)
  }

  lemma {:induction false} FirstExists(m: Merge, t: Table, s: set<nat>)
    requires s <= t.Keys && s != {}
    ensures exists id :: IsFirst(m, t, s, id)
  {
    var x :| x in s;
    if s == {x} {
      assert IsFirst(m, t, s, x);
    } else {
      FirstExists(m, t, s - {x});
      var y :| IsFirst(m, t, s - {x}, y);
      var least := if Before(m, t, x, y) then x else y;
      assert forall z :: z in s ==> z == x || z in s - {x};
      assert IsFirst(m, t, s, least);
    }
  }

  lemma {:induction false} LastExists(m: Merge, t: Table, s: set<nat>)
    requires s <= t.Keys && s != {}
    ensures exists id :: IsLast(m, t, s, id)
  {
    var x :| x in s;
    if s == {x} {
      assert IsLast(m, t, s, x);
    } else {
      LastExists(m, t, s - {x});
      var y :| IsLast(m, t, s - {x}, y);
      var most := if Before(m, t, y, x) then x else y;
      assert forall z :: z in s ==> z == x || z in s - {x};
      assert IsLast(m, t, s, most);
    }
  }

  function First(m: Merge, t: Table, s: set<nat>): (id: nat)
    requires s <= t.Keys && s != {}
    ensures IsFirst(m, t, s, id)
  {
    FirstExists(m, t, s);
    var id :| IsFirst(m, t, s, id);
    id
  }

  function Last(m: Merge, t: Table, s: set<nat>): (id: nat)
    requires s <= t.Keys && s != {}
    ensures IsLast(m, t, s, id)
  {
    LastExists(m, t, s);
    var id :| IsLast(m, t, s, id);
    id
  }

  // ---------------------------------------------------------------- what happens to a group

  /** Two entries of the group mean different things. */
  predicate Conflict(m: Merge, t: Table, term: string) {
    exists a, b :: a in Group(m, t, term) && b in Group(m, t, term) && MeaningOf(t[a]) != MeaningOf(t[b])
  }

  predicate Skipped(m: Merge, t: Table, term: string) {
    Conflict(m, t, term) && m.strategy == SkipConflicts
  }

  /** The entry whose content the strategy keeps. */
  function Chosen(m: Merge, t: Table, term: string): (id: nat)
    requires Candidates(m, t, term) != {}
    ensures id in Group(m, t, term)
  {
    if Conflict(m, t, term) && m.strategy == KeepTarget && InTarget(m, t, term) != {} then
      First(m, t, InTarget(m, t, term))
    else if Conflict(m, t, term) && m.strategy == KeepLast then
      Last(m, t, Candidates(m, t, term))
    else
      First(m, t, Candidates(m, t, term))
  }

  /**
   * Which entry that is: in a conflict kept for the target the oldest entry of the target, if it has
   * one; in a conflict kept last the newest entry of the selected glossary that comes last among those
   * with the term; else the oldest entry of the one that comes first.
   */
  lemma {:induction false} ChosenByStrategy(m: Merge, t: Table, term: string)
    requires Candidates(m, t, term) != {}
    ensures var c := Chosen(m, t, term);
            if Conflict(m, t, term) && m.strategy == KeepTarget && InTarget(m, t, term) != {} then
              t[c].glossary == m.target && forall x :: x in InTarget(m, t, term) ==> c <= x
            else
              t[c].glossary in m.sources &&
              forall x :: x in Candidates(m, t, term) ==>
                var a, b := IndexOf(m.sources, t[c].glossary), IndexOf(m.sources, t[x].glossary);
                if Conflict(m, t, term) && m.strategy == KeepLast then b < a || (a == b && x <= c)
                else a < b || (a == b && c <= x)
  {
    hide Conflict, MeaningOf, Term;
  }

  /** The term is merged into the target: it has a source entry and is not skipped. */
  predicate Handled(m: Merge, t: Table, term: string) {
    term != "" && Candidates(m, t, term) != {} && !Skipped(m, t, term)
  }

  /** An entry of the merge has the term. */
  predicate InGroup(m: Merge, t: Table, term: string, id: nat) {
    id in t && (t[id].glossary in m.sources || t[id].glossary == m.target) && m.normal(SourceText(t[id])) == term
  }

  /** Exactly which terms are merged: those with a source entry whose entries, if conflicts are skipped, agree. */
  lemma {:induction false} HandledIff(m: Merge, t: Table, term: string)
    ensures Handled(m, t, term) <==>
            && term != ""
            && (exists id :: InGroup(m, t, term, id) && t[id].glossary in m.sources)
            && (m.strategy == SkipConflicts ==>
                  forall a, b :: InGroup(m, t, term, a) && InGroup(m, t, term, b) ==>
                    MeaningOf(t[a]) == MeaningOf(t[b]))
  {
    hide MeaningOf, SourceText;
    forall id: nat ensures InGroup(m, t, term, id) <==> id in Group(m, t, term) {
    }
    if id: nat :| InGroup(m, t, term, id) && t[id].glossary in m.sources {
      assert id in Candidates(m, t, term);
    }
  }

  predicate Updates(m: Merge, t: Table, id: nat)
    requires id in t
  {
    var term := Term(m, t[id]);
    Handled(m, t, term) && InTarget(m, t, term) != {} && First(m, t, InTarget(m, t, term)) == id
  }

  predicate Creates(m: Merge, t: Table, term: string) {
    Handled(m, t, term) && InTarget(m, t, term) == {}
  }

  /** Row `id` got the content chosen for its term, and nothing but that and bookkeeping changed. */
  predicate Overwritten(m: Merge, t: Table, t': Table, id: nat)
    requires id in t && id in t' && Candidates(m, t, Term(m, t[id])) != {}
  {
    t'[id].glossary == t[id].glossary && SameContent(t'[id], t[Chosen(m, t, Term(m, t[id]))])
  }

  /** Row `id` is new and holds the content chosen for a term the target did not have. */
  predicate Added(m: Merge, t: Table, t': Table, id: nat)
    requires id in t'
  {
    var term := Term(m, t'[id]);
    t'[id].glossary == m.target && Creates(m, t, term) && SameContent(t'[id], t[Chosen(m, t, term)])
  }

  ghost predicate HasNew(m: Merge, t: Table, t': Table, term: string) {
    exists id :: id in t' && id !in t && Term(m, t'[id]) == term
  }

  /** What an executed merge does to the table; ids of new rows are arbitrary. */
  ghost predicate Executes(m: Merge, t: Table, t': Table) {
    && t.Keys <= t'.Keys
    && (forall id :: id in t ==> if Updates(m, t, id) then Overwritten(m, t, t', id) else t'[id] == t[id])
    && (forall id :: id in t' && id !in t ==> Added(m, t, t', id))
    && (forall a, b :: a in t' && a !in t && b in t' && b !in t && Term(m, t'[a]) == Term(m, t'[b]) ==> a == b)
    && (forall term :: Creates(m, t, term) ==> HasNew(m, t, t', term))
  }
}
