/**
 * Laws of an executed glossary merge, for all four conflict strategies and whether or not
 * the target is also a source.
 */
module MergeLaws {
  import opened BatchTypes
  import opened GlossaryMerge

  lemma {:induction false} SameContentSameMeaning(m: Merge, a: Entry, b: Entry)
    requires SameContent(a, b)
    ensures MeaningOf(a) == MeaningOf(b) && Term(m, a) == Term(m, b)
  {
  }

  /** An existing row keeps its glossary and its term. */
  lemma {:induction false} RowKeepsTerm(m: Merge, t: Table, t': Table, id: nat)
    requires Executes(m, t, t') && id in t
    ensures t'[id].glossary == t[id].glossary && Term(m, t'[id]) == Term(m, t[id])
  {
    if Updates(m, t, id) {
      assert Overwritten(m, t, t', id);
      SameContentSameMeaning(m, t'[id], t[Chosen(m, t, Term(m, t[id]))]);
    }
  }

  /** A new row carries the term it was created for and lies in the target. */
  lemma {:induction false} NewRow(m: Merge, t: Table, t': Table, id: nat)
    requires Executes(m, t, t') && id in t' && id !in t
    ensures t'[id].glossary == m.target && InScope(m, t'[id])
    ensures Creates(m, t, Term(m, t'[id]))
    ensures MeaningOf(t'[id]) == MeaningOf(t[Chosen(m, t, Term(m, t'[id]))])
  {
    assert Added(m, t, t', id);
    SameContentSameMeaning(m, t'[id], t[Chosen(m, t, Term(m, t'[id]))]);
  }

  /** The group of a term after a merge: the old group and the new rows of that term. */
  lemma {:induction false} GroupAfter(m: Merge, t: Table, t': Table, term: string, id: nat)
    requires Executes(m, t, t')
    ensures id in t ==> (id in Group(m, t', term) <==> id in Group(m, t, term))
    ensures id in t' && id !in t ==> (id in Group(m, t', term) <==> Term(m, t'[id]) == term)
  {
    if id in t {
      RowKeepsTerm(m, t, t', id);
    } else if id in t' {
      NewRow(m, t, t', id);
    }
  }

  /** Priorities only depend on the glossaries of rows, so the order of old rows is kept. */
  lemma {:induction false} OrderKept(m: Merge, t: Table, t': Table, a: nat, b: nat)
    requires Executes(m, t, t') && a in t && b in t
    ensures Before(m, t', a, b) <==> Before(m, t, a, b)
  {
    RowKeepsTerm(m, t, t', a);
    RowKeepsTerm(m, t, t', b);
  }

  /** No row outside the target changes at all. */
  lemma {:induction false} OutsideTargetUnchanged(m: Merge, t: Table, t': Table, id: nat)
    requires Executes(m, t, t') && id in t && t[id].glossary != m.target
    ensures id in t' && t'[id] == t[id]
  {
  }

  /** A group without conflict never changes what a row of the target means. */
  lemma {:induction false} NoConflictNoChange(m: Merge, t: Table, t': Table, id: nat)
    requires Executes(m, t, t') && id in t && !Conflict(m, t, Term(m, t[id]))
    ensures MeaningOf(t'[id]) == MeaningOf(t[id])
  {
    if Updates(m, t, id) {
      var term := Term(m, t[id]);
      var c := Chosen(m, t, term);
      assert Overwritten(m, t, t', id);
      SameContentSameMeaning(m, t'[id], t[c]);
      assert id in Group(m, t, term) && c in Group(m, t, term);
    }
  }

  /** Every term that is handled ends up in the target with the content its strategy chose. */
  lemma {:induction false} HandledTermArrives(m: Merge, t: Table, t': Table, term: string) returns (id: nat)
    requires Executes(m, t, t') && Handled(m, t, term)
    ensures id in t' && t'[id].glossary == m.target && Term(m, t'[id]) == term
    ensures SameContent(t'[id], t[Chosen(m, t, term)])
  {
    if InTarget(m, t, term) == {} {
      assert Creates(m, t, term);
      assert HasNew(m, t, t', term);
      id :| id in t' && id !in t && Term(m, t'[id]) == term;
      assert Added(m, t, t', id);
    } else {
      id := First(m, t, InTarget(m, t, term));
      assert id in InTarget(m, t, term);
      assert Updates(m, t, id);
      assert Overwritten(m, t, t', id);
      RowKeepsTerm(m, t, t', id);
    }
  }

  // ---------------------------------------------------------------- running the same merge again

  /** What rows of a group mean after the merge was meant in the group before it. */
  lemma {:induction false} NoNewMeaning(m: Merge, t: Table, t': Table, term: string, id: nat) returns (old_id: nat)
    requires Executes(m, t, t') && id in Group(m, t', term)
    ensures old_id in Group(m, t, term) && MeaningOf(t'[id]) == MeaningOf(t[old_id])
  {
    GroupAfter(m, t, t', term, id);
    if id !in t {
      NewRow(m, t, t', id);
      old_id := Chosen(m, t, term);
    } else if Updates(m, t, id) {
      old_id := Chosen(m, t, term);
      assert Overwritten(m, t, t', id);
      SameContentSameMeaning(m, t'[id], t[old_id]);
    } else {
      old_id := id;
    }
  }

  lemma {:induction false} ConflictIsOld(m: Merge, t: Table, t': Table, term: string)
    requires Executes(m, t, t') && Conflict(m, t', term)
    ensures Conflict(m, t, term)
  {
    var a, b :| a in Group(m, t', term) && b in Group(m, t', term) && MeaningOf(t'[a]) != MeaningOf(t'[b]);
    var a0 := NoNewMeaning(m, t, t', term, a);
    var b0 := NoNewMeaning(m, t, t', term, b);
  }

  /** A term that was not handled is not handled the second time either. */
  lemma {:induction false} UnhandledStays(m: Merge, t: Table, t': Table, term: string)
    requires Executes(m, t, t') && !Handled(m, t, term)
    ensures !Handled(m, t', term)
  {
    forall id ensures id in Group(m, t', term) <==> id in Group(m, t, term) {
      GroupAfter(m, t, t', term, id);
      if id in t' && id !in t && Term(m, t'[id]) == term {
        NewRow(m, t, t', id);
      }
    }
    forall id | id in Group(m, t, term) ensures t'[id] == t[id] {
      assert !Updates(m, t, id);
    }
    assert Group(m, t', term) == Group(m, t, term);
    assert Candidates(m, t', term) == Candidates(m, t, term);
  }

  /** After the first run every handled term is in the target, so the second run creates nothing. */
  lemma {:induction false} NothingToCreate(m: Merge, t: Table, t': Table, term: string)
    requires Executes(m, t, t')
    ensures !Creates(m, t', term)
  {
    if Handled(m, t, term) {
      var id := HandledTermArrives(m, t, t', term);
      assert id in Group(m, t', term);
      assert id in InTarget(m, t', term);
    } else {
      UnhandledStays(m, t, t', term);
    }
  }

  /** The row of the target that stands for a handled term after the first run. */
  function Holder(m: Merge, t': Table, term: string): nat
    requires InTarget(m, t', term) != {}
  {
    First(m, t', InTarget(m, t', term))
  }

  lemma {:induction false} HolderOfCreated(m: Merge, t: Table, t': Table, term: string, n: nat)
    requires Executes(m, t, t') && Creates(m, t, term)
    requires n in t' && n !in t && Term(m, t'[n]) == term
    ensures InTarget(m, t', term) == {n}
  {
    forall id ensures id in InTarget(m, t', term) <==> id == n {
      GroupAfter(m, t, t', term, id);
      if id in t' && id !in t && Term(m, t'[id]) == term {
        NewRow(m, t, t', id);
      }
      if id in t {
        RowKeepsTerm(m, t, t', id);
        assert id in InTarget(m, t', term) ==> id in InTarget(m, t, term);
      }
    }
  }

  lemma {:induction false} HolderOfUpdated(m: Merge, t: Table, t': Table, term: string, id: nat)
    requires Executes(m, t, t') && id in t && Updates(m, t, id) && Term(m, t[id]) == term
    ensures InTarget(m, t', term) == InTarget(m, t, term)
    ensures Candidates(m, t', term) == Candidates(m, t, term)
    ensures First(m, t', InTarget(m, t', term)) == id
  {
    forall x ensures x in Group(m, t', term) <==> x in Group(m, t, term) {
      GroupAfter(m, t, t', term, x);
      if x in t' && x !in t && Term(m, t'[x]) == term {
        NewRow(m, t, t', x);
      }
    }
    forall x | x in Group(m, t, term) ensures t'[x].glossary == t[x].glossary {
      RowKeepsTerm(m, t, t', x);
    }
    var s := InTarget(m, t, term);
    assert InTarget(m, t', term) == s;
    SameFirst(m, t, t', s);
  }

  lemma {:induction false} SameFirst(m: Merge, t: Table, t': Table, s: set<nat>)
    requires Executes(m, t, t') && s <= t.Keys && s != {}
    ensures First(m, t', s) == First(m, t, s)
    ensures Last(m, t', s) == Last(m, t, s)
  {
    var f, l := First(m, t, s), Last(m, t, s);
    forall x | x in s
      ensures Before(m, t', f, x) <==> Before(m, t, f, x)
      ensures Before(m, t', x, l) <==> Before(m, t, x, l)
    {
      OrderKept(m, t, t', f, x);
      OrderKept(m, t, t', x, l);
    }
    assert IsFirst(m, t', s, f) && IsFirst(m, t', s, First(m, t', s));
    assert IsLast(m, t', s, l) && IsLast(m, t', s, Last(m, t', s));
  }

  lemma {:induction false} UnchangedUnlessHolder(m: Merge, t: Table, t': Table, term: string, c: nat)
    requires Executes(m, t, t') && c in Group(m, t, term)
    requires InTarget(m, t, term) == {} || c != First(m, t, InTarget(m, t, term))
    ensures t'[c] == t[c]
  {
  }

  /** In a conflict that is neither skipped nor kept for the target, the choice is among the candidates. */
  function PlainChoice(m: Merge, t: Table, term: string): nat
    requires Candidates(m, t, term) != {}
  {
    if m.strategy == KeepLast then Last(m, t, Candidates(m, t, term)) else First(m, t, Candidates(m, t, term))
  }

  lemma {:induction false} CandidatesAfterCreate(m: Merge, t: Table, t': Table, term: string, n: nat)
    requires Executes(m, t, t') && Creates(m, t, term)
    requires n in t' && n !in t && Term(m, t'[n]) == term
    ensures Candidates(m, t', term) - {n} == Candidates(m, t, term)
  {
    HolderOfCreated(m, t, t', term, n);
    forall x ensures x in Candidates(m, t', term) && x != n <==> x in Candidates(m, t, term) {
      GroupAfter(m, t, t', term, x);
      if x in t {
        RowKeepsTerm(m, t, t', x);
      } else if x in t' && Term(m, t'[x]) == term {
        NewRow(m, t, t', x);
        assert x in InTarget(m, t', term);
      }
    }
  }

  /** The second choice is the row just created, or the first choice again. */
  lemma {:induction false} CreatedOrChosen(m: Merge, t: Table, t': Table, term: string, n: nat)
    requires Executes(m, t, t') && Candidates(m, t, term) != {} && Candidates(m, t', term) != {}
    requires Candidates(m, t', term) - {n} == Candidates(m, t, term)
    ensures PlainChoice(m, t', term) == n || PlainChoice(m, t', term) == PlainChoice(m, t, term)
  {
    hide Executes, First, Last, Candidates;
    GroupInTable(m, t, term);
    GroupInTable(m, t', term);
    SameFirst(m, t, t', Candidates(m, t, term));
    SmallerSet(m, t', Candidates(m, t', term), n);
  }

  lemma {:induction false} GroupInTable(m: Merge, t: Table, term: string)
    ensures Candidates(m, t, term) <= Group(m, t, term) <= t.Keys
    ensures InTarget(m, t, term) <= Group(m, t, term)
  {
  }

  lemma {:induction false} PlainChoiceIsChosen(m: Merge, t: Table, term: string)
    requires Candidates(m, t, term) != {} && Conflict(m, t, term)
    requires InTarget(m, t, term) == {} || m.strategy != KeepTarget
    ensures Chosen(m, t, term) == PlainChoice(m, t, term) && PlainChoice(m, t, term) in Group(m, t, term)
  {
    hide Conflict, First, Last, Candidates, InTarget;
    GroupInTable(m, t, term);
  }

  lemma {:induction false} ChoiceAfterCreate(m: Merge, t: Table, t': Table, term: string)
    requires Executes(m, t, t') && Creates(m, t, term) && Conflict(m, t, term)
    requires InTarget(m, t', term) != {} && Candidates(m, t', term) != {}
    ensures MeaningOf(t'[PlainChoice(m, t', term)]) == MeaningOf(t'[Holder(m, t', term)])
  {
    hide PlainChoice, Chosen, MeaningOf, Conflict, Group, Candidates, InTarget, Before, Term;
    assert HasNew(m, t, t', term);
    var n :| n in t' && n !in t && Term(m, t'[n]) == term;
    hide Executes;
    HolderOfCreated(m, t, t', term, n);
    NewRow(m, t, t', n);
    CandidatesAfterCreate(m, t, t', term, n);
    CreatedOrChosen(m, t, t', term, n);
    PlainChoiceIsChosen(m, t, term);
    if PlainChoice(m, t', term) != n {
      UnchangedUnlessHolder(m, t, t', term, PlainChoice(m, t, term));
    }
  }

  /** Taking another element away does not change the first or last one. */
  lemma {:induction false} SmallerSet(m: Merge, t: Table, s: set<nat>, n: nat)
    requires s <= t.Keys && s - {n} != {}
    ensures First(m, t, s) != n ==> First(m, t, s) == First(m, t, s - {n})
    ensures Last(m, t, s) != n ==> Last(m, t, s) == Last(m, t, s - {n})
  {
    var f, l := First(m, t, s), Last(m, t, s);
    var f', l' := First(m, t, s - {n}), Last(m, t, s - {n});
    assert f' in s && l' in s;
    assert f != n ==> f in s - {n};
    assert l != n ==> l in s - {n};
  }

  lemma {:induction false} ChoiceAfterUpdate(m: Merge, t: Table, t': Table, term: string, h: nat)
    requires Executes(m, t, t') && Conflict(m, t, term)
    requires h in t && Updates(m, t, h) && Term(m, t[h]) == term && m.strategy != KeepTarget
    requires InTarget(m, t', term) != {} && Candidates(m, t', term) != {}
    ensures MeaningOf(t'[PlainChoice(m, t', term)]) == MeaningOf(t'[Holder(m, t', term)])
  {
    HolderOfUpdated(m, t, t', term, h);
    var cands := Candidates(m, t, term);
    SameFirst(m, t, t', cands);
    var c := PlainChoice(m, t, term);
    assert PlainChoice(m, t', term) == c;
    assert Chosen(m, t, term) == c;
    assert Overwritten(m, t, t', h);
    SameContentSameMeaning(m, t'[h], t[c]);
    if c != h {
      UnchangedUnlessHolder(m, t, t', term, c);
    }
  }

  /** What the second run would choose already means what the row of the target means. */
  lemma {:induction false} ChosenMeansHolder(m: Merge, t: Table, t': Table, term: string)
    requires Executes(m, t, t') && Handled(m, t', term) && InTarget(m, t', term) != {}
    ensures MeaningOf(t'[Chosen(m, t', term)]) == MeaningOf(t'[Holder(m, t', term)])
  {
    hide MeaningOf, First, Term;
    if Conflict(m, t', term) && m.strategy != KeepTarget {
      ConflictIsOld(m, t, t', term);
      if !Handled(m, t, term) {
        UnhandledStays(m, t, t', term);
      }
      if InTarget(m, t, term) == {} {
        ChoiceAfterCreate(m, t, t', term);
      } else {
        ChoiceAfterUpdate(m, t, t', term, First(m, t, InTarget(m, t, term)));
      }
      assert Chosen(m, t', term) == PlainChoice(m, t', term);
    } else {
      assert Holder(m, t', term) in InTarget(m, t', term);
    }
  }

  lemma {:induction false} SecondRunAddsNothing(m: Merge, t: Table, t1: Table, t2: Table, id: nat)
    requires Executes(m, t, t1) && Executes(m, t1, t2) && id in t2
    ensures id in t1
  {
    if id !in t1 {
      NewRow(m, t1, t2, id);
      NothingToCreate(m, t, t1, Term(m, t2[id]));
    }
  }

  lemma {:induction false} SecondRunKeepsMeaning(m: Merge, t: Table, t1: Table, t2: Table, id: nat)
    requires Executes(m, t, t1) && Executes(m, t1, t2) && id in t1
    ensures id in t2 && MeaningOf(t2[id]) == MeaningOf(t1[id]) && t2[id].glossary == t1[id].glossary
  {
    if Updates(m, t1, id) {
      var term := Term(m, t1[id]);
      ChosenMeansHolder(m, t, t1, term);
      assert Overwritten(m, t1, t2, id);
      SameContentSameMeaning(m, t2[id], t1[Chosen(m, t1, term)]);
    }
  }

  /** Merging twice is merging once: the second run adds no row and changes no row's meaning. */
  lemma {:induction false} MergeIsIdempotent(m: Merge, t: Table, t1: Table, t2: Table)
    requires Executes(m, t, t1) && Executes(m, t1, t2)
    ensures t2.Keys == t1.Keys
    ensures forall id :: id in t1 ==> MeaningOf(t2[id]) == MeaningOf(t1[id]) && t2[id].glossary == t1[id].glossary
  {
    assert t1.Keys <= t2.Keys;
    forall id | id in t2 ensures id in t1 {
      SecondRunAddsNothing(m, t, t1, t2, id);
    }
    hide Executes;
    forall id | id in t1
      ensures MeaningOf(t2[id]) == MeaningOf(t1[id]) && t2[id].glossary == t1[id].glossary
    {
      SecondRunKeepsMeaning(m, t, t1, t2, id);
    }
  }

  // ---------------------------------------------------------------- the preview's counts

  function CountIf(terms: seq<string>, p: string -> bool): nat {
    if terms == [] then 0 else CountIf(terms[..|terms| - 1], p) + (if p(terms[|terms| - 1]) then 1 else 0)
  }

  /** The positions whose term has the property. */
  function Positions(terms: seq<string>, p: string -> bool): (s: set<nat>)
    ensures forall i: nat :: i in s <==> i < |terms| && p(terms[i])
  {
    set i: nat | i < |terms| && p(terms[i])
  }

  lemma {:induction false} CountIs(terms: seq<string>, p: string -> bool)
    ensures CountIf(terms, p) == |Positions(terms, p)|
  {
    hide Positions;
    if terms == [] {
      assert Positions(terms, p) == {};
    } else {
      var last := |terms| - 1;
      CountIs(terms[..last], p);
      if p(terms[last]) {
        assert Positions(terms, p) - {last} == Positions(terms[..last], p);
        assert last in Positions(terms, p);
      } else {
        assert Positions(terms, p) == Positions(terms[..last], p);
      }
    }
  }

  predicate Duplicate(m: Merge, t: Table, term: string) {
    !Conflict(m, t, term) && |Group(m, t, term)| > 1
  }

  /** A term counts as duplicate when it has two rows at least, and all of them mean the same. */
  lemma {:induction false} DuplicateIff(m: Merge, t: Table, term: string)
    ensures Duplicate(m, t, term) <==>
            && (exists a, b :: a != b && InGroup(m, t, term, a) && InGroup(m, t, term, b))
            && (forall a, b :: InGroup(m, t, term, a) && InGroup(m, t, term, b) ==> MeaningOf(t[a]) == MeaningOf(t[b]))
  {
    hide MeaningOf, SourceText;
    var s := Group(m, t, term);
    forall id: nat ensures InGroup(m, t, term, id) <==> id in s {
    }
    MoreThanOne(s);
  }

  lemma {:induction false} MoreThanOne(s: set<nat>)
    ensures |s| > 1 <==> exists a, b :: a in s && b in s && a != b
  {
    if s != {} {
      var a :| a in s;
      assert |s| == |s - {a}| + 1;
      if s - {a} == {} {
        assert s == {a};
      } else {
        var b :| b in s - {a};
      }
    }
  }

  predicate HasSource(m: Merge, t: Table, term: string) {
    Candidates(m, t, term) != {}
  }

  datatype PreviewCounts = PreviewCounts(conflicts: nat, duplicates: nat, planned: int)

  datatype MergeCounts = MergeCounts(created: nat, updated: nat, duplicates: nat, conflicts: nat, skipped: nat)

  // The properties of a term that the preview and the merge count.

  function Conflicting(m: Merge, t: Table): string -> bool { k => Conflict(m, t, k) }
  function Duplicated(m: Merge, t: Table): string -> bool { k => Duplicate(m, t, k) }
  function Created(m: Merge, t: Table): string -> bool { k => Creates(m, t, k) }
  function Updated(m: Merge, t: Table): string -> bool { k => Handled(m, t, k) && InTarget(m, t, k) != {} }
  function Left(m: Merge, t: Table): string -> bool { k => HasSource(m, t, k) && Skipped(m, t, k) }
  function NotSkipped(m: Merge, t: Table): string -> bool { k => !Skipped(m, t, k) }

  function WithSource(m: Merge, t: Table, p: string -> bool): string -> bool { k => HasSource(m, t, k) && p(k) }
  function TargetOnly(m: Merge, t: Table, p: string -> bool): string -> bool { k => !HasSource(m, t, k) && p(k) }

  function Preview(m: Merge, t: Table, terms: seq<string>): PreviewCounts {
    var conflicts := CountIf(terms, Conflicting(m, t));
    PreviewCounts(conflicts, CountIf(terms, Duplicated(m, t)),
                  |terms| - (if m.strategy == SkipConflicts then conflicts else 0))
  }

  function Executed(m: Merge, t: Table, terms: seq<string>): MergeCounts {
    MergeCounts(
      CountIf(terms, Created(m, t)),
      CountIf(terms, Updated(m, t)),
      CountIf(terms, WithSource(m, t, Duplicated(m, t))),
      CountIf(terms, WithSource(m, t, Conflicting(m, t))),
      CountIf(terms, Left(m, t)))
  }

  lemma {:induction false} CountSplits(m: Merge, t: Table, terms: seq<string>, p: string -> bool)
    ensures CountIf(terms, p) == CountIf(terms, WithSource(m, t, p)) + CountIf(terms, TargetOnly(m, t, p))
  {
    if terms != [] {
      CountSplits(m, t, terms[..|terms| - 1], p);
    }
  }

  lemma {:induction false} CountHandled(m: Merge, t: Table, terms: seq<string>)
    requires forall i :: 0 <= i < |terms| ==> terms[i] != ""
    ensures CountIf(terms, WithSource(m, t, NotSkipped(m, t))) ==
            CountIf(terms, Created(m, t)) + CountIf(terms, Updated(m, t))
  {
    if terms != [] {
      CountHandled(m, t, terms[..|terms| - 1]);
    }
  }

  lemma {:induction false} CountNotSkipped(m: Merge, t: Table, terms: seq<string>)
    ensures CountIf(terms, NotSkipped(m, t)) ==
            |terms| - (if m.strategy == SkipConflicts then CountIf(terms, Conflicting(m, t)) else 0)
  {
    if terms != [] {
      CountNotSkipped(m, t, terms[..|terms| - 1]);
    }
  }

  /** The preview also counts the terms whose only entries lie in the target; the merge does not. */
  lemma {:induction false} PreviewSurplus(m: Merge, t: Table, terms: seq<string>)
    requires forall i :: 0 <= i < |terms| ==> terms[i] != ""
    ensures var p, e := Preview(m, t, terms), Executed(m, t, terms);
            && p.conflicts == e.conflicts + CountIf(terms, TargetOnly(m, t, Conflicting(m, t)))
            && p.duplicates == e.duplicates + CountIf(terms, TargetOnly(m, t, Duplicated(m, t)))
            && p.planned == e.created + e.updated + CountIf(terms, TargetOnly(m, t, NotSkipped(m, t)))
  {
    CountSplits(m, t, terms, Conflicting(m, t));
    CountSplits(m, t, terms, Duplicated(m, t));
    CountSplits(m, t, terms, NotSkipped(m, t));
    CountHandled(m, t, terms);
    CountNotSkipped(m, t, terms);
  }

  lemma {:induction false} CountIsZero(terms: seq<string>, p: string -> bool)
    ensures CountIf(terms, p) == 0 <==> forall k :: k in terms ==> !p(k)
  {
    if terms != [] {
      CountIsZero(terms[..|terms| - 1], p);
      assert terms == terms[..|terms| - 1] + [terms[|terms| - 1]];
    }
  }

  /** The preview's counts are those of the merge exactly when no term concerned is only in the target. */
  lemma {:induction false} PreviewIsExactIff(m: Merge, t: Table, terms: seq<string>)
    requires forall i :: 0 <= i < |terms| ==> terms[i] != ""
    ensures var p, e := Preview(m, t, terms), Executed(m, t, terms);
            && (p.conflicts == e.conflicts <==> forall k :: k in terms && Conflict(m, t, k) ==> HasSource(m, t, k))
            && (p.duplicates == e.duplicates <==> forall k :: k in terms && Duplicate(m, t, k) ==> HasSource(m, t, k))
            && (p.planned == e.created + e.updated <==>
                forall k :: k in terms && !Skipped(m, t, k) ==> HasSource(m, t, k))
  {
    PreviewSurplus(m, t, terms);
    hide CountIf, Conflict, Duplicate, Candidates, Skipped;
    CountIsZero(terms, TargetOnly(m, t, Conflicting(m, t)));
    CountIsZero(terms, TargetOnly(m, t, Duplicated(m, t)));
    CountIsZero(terms, TargetOnly(m, t, NotSkipped(m, t)));
  }

  /** They are equal when the target is new or is itself a source. */
  lemma {:induction false} PreviewIsExact(m: Merge, t: Table, terms: seq<string>)
    requires forall i :: 0 <= i < |terms| ==> terms[i] != "" && Group(m, t, terms[i]) != {}
    requires m.target in m.sources || forall id :: id in t ==> t[id].glossary != m.target
    ensures var p, e := Preview(m, t, terms), Executed(m, t, terms);
            p.conflicts == e.conflicts && p.duplicates == e.duplicates && p.planned == e.created + e.updated
  {
    forall k | k in terms ensures HasSource(m, t, k) {
      var id :| id in Group(m, t, k);
      assert id in Candidates(m, t, k);
    }
    PreviewIsExactIff(m, t, terms);
  }

  /** The surplus occurs: a single entry, in a target that is no source, is planned by the preview and not merged. */
  lemma {:induction false} PreviewPlansATargetOnlyTerm(normal: string -> string)
    requires normal("iron") != ""
    ensures var iron := Entry(3, [("en", "iron")], map[], map[], map[], Bookkeeping(None, None, None));
            var m := Merge([1, 2], 3, KeepFirst, normal);
            var t: Table := map[7 := iron];
            var terms := [normal("iron")];
            && Group(m, t, terms[0]) == {7}
            && Preview(m, t, terms).planned == 1
            && Executed(m, t, terms).created + Executed(m, t, terms).updated == 0
  {
    var iron := Entry(3, [("en", "iron")], map[], map[], map[], Bookkeeping(None, None, None));
    var m := Merge([1, 2], 3, KeepFirst, normal);
    var t: Table := map[7 := iron];
    var term := normal("iron");
    assert AsMap(iron.translations)["en"] == "iron" by {
      assert iron.translations[..0] == [];
    }
    assert SourceText(iron) == "iron";
    assert Group(m, t, term) == {7};
    assert Candidates(m, t, term) == {};
    assert !Handled(m, t, term);
    assert [term][..0] == [];
    assert CountIf([term], Created(m, t)) == CountIf([term], Updated(m, t)) == 0;
  }
}
