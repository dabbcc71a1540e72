/**
 * The glossary store: validating a merge request, grouping the sorted entries, the read-only
 * preview, and the merge that overwrites and adds rows in place. The list operations are
 * proved to make the choices that are specified on sets.
 */
module MergeStore {
  import opened BatchTypes
  import opened GlossaryMerge
  import opened MergeLaws

  datatype Glossary = Glossary(game: string, name: string)

  datatype Mode = NewGlossary(name: string) | ExistingGlossary(id: nat)

  datatype Request = Request(glossaryIds: seq<nat>, mode: Mode, strategy: Strategy)

  datatype MergeError =
    | UnknownStrategyError | KeepTargetNeedsTarget | TooFewGlossaries | MissingGlossary
    | DifferentGames | NameRequired | NameTaken

  /** Text helpers that are foreign here: stripping a name, lower-casing it, normalizing a term. */
  datatype TextTools = TextTools(strip: string -> string, lower: string -> string, normal: string -> string)

  // ---------------------------------------------------------------- validation

  /** The ids without repetitions, in the order of their first occurrence. */
  function Unique(ids: seq<nat>): (r: seq<nat>)
    ensures forall x :: x in r <==> x in ids
    ensures forall i, j :: 0 <= i < j < |r| ==> r[i] != r[j]
  {
    if ids == [] then []
    else
      var r := Unique(ids[..|ids| - 1]);
      if ids[|ids| - 1] in r then r else r + [ids[|ids| - 1]]
  }

  lemma {:induction false} IndexInFront(l: seq<nat>, x: nat, y: nat)
    ensures IndexOf(l + [x], y) == if y in l then IndexOf(l, y) else if y == x then |l| else |l| + 1
  {
    var i := IndexOf(l + [x], y);
    assert forall j :: 0 <= j < |l| ==> (l + [x])[j] == l[j];
    assert (l + [x])[|l|] == x;
  }

  /** The glossaries keep the order in which they were first selected. */
  lemma {:induction false} UniqueInOrder(ids: seq<nat>, x: nat, y: nat)
    requires x in ids && y in ids
    ensures IndexOf(Unique(ids), x) < IndexOf(Unique(ids), y) <==> IndexOf(ids, x) < IndexOf(ids, y)
  {
    hide IndexOf;
    var front, last := ids[..|ids| - 1], ids[|ids| - 1];
    assert ids == front + [last];
    IndexInFront(front, last, x);
    IndexInFront(front, last, y);
    IndexInFront(Unique(front), last, x);
    IndexInFront(Unique(front), last, y);
    if x in front && y in front {
      UniqueInOrder(front, x, y);
    }
  }

  function Requested(req: Request): seq<nat> {
    var sources := Unique(req.glossaryIds);
    if req.mode.ExistingGlossary? && req.mode.id !in sources then sources + [req.mode.id] else sources
  }

  /** Why preparing a merge fails, if it does; the checks are made in this order. */
  function Problem(tools: TextTools, glossaries: map<nat, Glossary>, req: Request): Option<MergeError> {
    var ids := Requested(req);
    if |Unique(req.glossaryIds)| < 2 then Some(TooFewGlossaries)
    else if exists i :: 0 <= i < |ids| && ids[i] !in glossaries then Some(MissingGlossary)
    else if exists i :: 0 <= i < |ids| && glossaries[ids[i]].game != glossaries[ids[0]].game then Some(DifferentGames)
    else if req.mode.ExistingGlossary? then None
    else if tools.strip(req.mode.name) == "" then Some(NameRequired)
    else if exists id :: id in glossaries && glossaries[id].game == glossaries[ids[0]].game &&
                         tools.lower(glossaries[id].name) == tools.lower(tools.strip(req.mode.name))
    then Some(NameTaken)
    else None
  }

  /** Why executing a merge fails, if it does. */
  function Refusal(tools: TextTools, glossaries: map<nat, Glossary>, req: Request): Option<MergeError> {
    if req.strategy == UnknownStrategy then Some(UnknownStrategyError)
    else if req.mode.NewGlossary? && req.strategy == KeepTarget then Some(KeepTargetNeedsTarget)
    else Problem(tools, glossaries, req)
  }

  /** The glossaries a request is about: the selected ones, and the target if it exists already. */
  function Concerned(req: Request): set<nat> {
    Elements(req.glossaryIds) + (if req.mode.ExistingGlossary? then {req.mode.id} else {})
  }

  ghost predicate OneGame(glossaries: map<nat, Glossary>, ids: set<nat>) {
    forall a, b :: a in ids && b in ids && a in glossaries && b in glossaries ==>
      glossaries[a].game == glossaries[b].game
  }

  /** Another glossary of the game has the name, up to case. */
  ghost predicate NameInUse(tools: TextTools, glossaries: map<nat, Glossary>, ids: set<nat>, name: string) {
    exists a, b :: a in ids && a in glossaries && b in glossaries && glossaries[b].game == glossaries[a].game &&
                   tools.lower(glossaries[b].name) == tools.lower(name)
  }

  /** Exactly why preparing a merge fails; each reason presupposes that those before it do not apply. */
  lemma {:induction false} ProblemIff(tools: TextTools, glossaries: map<nat, Glossary>, req: Request)
    ensures var problem, ids := Problem(tools, glossaries, req), Concerned(req);
            var enough, known := |Elements(req.glossaryIds)| >= 2, ids <= glossaries.Keys;
            var named := req.mode.NewGlossary? ==> tools.strip(req.mode.name) != "";
            && (problem == Some(TooFewGlossaries) <==> !enough)
            && (problem == Some(MissingGlossary) <==> enough && !known)
            && (problem == Some(DifferentGames) <==> enough && known && !OneGame(glossaries, ids))
            && (problem == Some(NameRequired) <==> enough && known && OneGame(glossaries, ids) && !named)
            && (problem == Some(NameTaken) <==>
                  enough && known && OneGame(glossaries, ids) && named && req.mode.NewGlossary? &&
                  NameInUse(tools, glossaries, ids, tools.strip(req.mode.name)))
            && (problem.None? <==>
                  enough && known && OneGame(glossaries, ids) && named &&
                  (req.mode.NewGlossary? ==> !NameInUse(tools, glossaries, ids, tools.strip(req.mode.name))))
  {
    hide Unique, Requested, Concerned, OneGame, Elements;
    RequestedIsConcerned(req);
    var list, ids := Requested(req), Concerned(req);
    if |Unique(req.glossaryIds)| >= 2 {
      if ids <= glossaries.Keys {
        KnownIds(list, ids, glossaries);
        GameOfAll(glossaries, list, ids);
      } else {
        var id :| id in ids && id !in glossaries;
        assert id in list;
      }
    }
  }

  lemma {:induction false} RequestedIsConcerned(req: Request)
    ensures |Unique(req.glossaryIds)| == |Elements(req.glossaryIds)|
    ensures forall id :: id in Requested(req) <==> id in Concerned(req)
    ensures |Unique(req.glossaryIds)| >= 2 ==> Requested(req) != [] && Requested(req)[0] in Concerned(req)
  {
    hide Unique;
    DistinctSize(Unique(req.glossaryIds));
    assert Elements(Unique(req.glossaryIds)) == Elements(req.glossaryIds);
    assert |Unique(req.glossaryIds)| >= 2 ==> Requested(req)[0] in Requested(req);
  }

  function Elements(l: seq<nat>): (s: set<nat>)
    ensures forall x :: x in s <==> x in l
  {
    set x | x in l
  }

  lemma {:induction false} DistinctSize(l: seq<nat>)
    requires forall i, j :: 0 <= i < j < |l| ==> l[i] != l[j]
    ensures |Elements(l)| == |l|
  {
    hide Elements;
    if l == [] {
      assert Elements(l) == {};
    } else {
      var front, last := l[..|l| - 1], l[|l| - 1];
      DistinctSize(front);
      assert l == front + [last];
      assert Elements(l) - {last} == Elements(front);
      assert last in Elements(l);
    }
  }

  lemma {:induction false} KnownIds(list: seq<nat>, ids: set<nat>, glossaries: map<nat, Glossary>)
    requires ids <= glossaries.Keys && forall id :: id in list <==> id in ids
    ensures forall i :: 0 <= i < |list| ==> list[i] in glossaries
  {
    forall i | 0 <= i < |list| ensures list[i] in glossaries {
      assert list[i] in list;
    }
  }

  lemma {:induction false} GameOfAll(glossaries: map<nat, Glossary>, list: seq<nat>, ids: set<nat>)
    requires list != [] && ids <= glossaries.Keys && forall id :: id in list <==> id in ids
    requires forall i :: 0 <= i < |list| ==> list[i] in glossaries
    ensures OneGame(glossaries, ids) <==>
            forall i :: 0 <= i < |list| ==> glossaries[list[i]].game == glossaries[list[0]].game
    ensures OneGame(glossaries, ids) ==>
              forall a :: a in ids ==> glossaries[a].game == glossaries[list[0]].game
  {
    assert list[0] in list;
    if OneGame(glossaries, ids) {
      forall i | 0 <= i < |list| ensures glossaries[list[i]].game == glossaries[list[0]].game {
        assert list[i] in list;
      }
    }
    if forall i :: 0 <= i < |list| ==> glossaries[list[i]].game == glossaries[list[0]].game {
      forall a | a in ids ensures glossaries[a].game == glossaries[list[0]].game {
        assert a in list;
      }
    }
  }

  /** An executed merge also refuses unknown strategies, and keeping the target of a merge that has none. */
  lemma {:induction false} RefusalIff(tools: TextTools, glossaries: map<nat, Glossary>, req: Request)
    ensures var refusal := Refusal(tools, glossaries, req);
            && (refusal == Some(UnknownStrategyError) <==>
                  req.strategy !in {KeepFirst, KeepLast, KeepTarget, SkipConflicts})
            && (refusal == Some(KeepTargetNeedsTarget) <==> req.strategy == KeepTarget && req.mode.NewGlossary?)
            && (refusal != Some(UnknownStrategyError) && refusal != Some(KeepTargetNeedsTarget) ==>
                  refusal == Problem(tools, glossaries, req))
  {
  }

  // ---------------------------------------------------------------- sorted groups

  ghost predicate Increasing(m: Merge, t: Table, l: seq<nat>) {
    forall i, j :: 0 <= i < j < |l| ==> l[i] in t && l[j] in t && Before(m, t, l[i], l[j])
  }

  /** The list enumerates the set in the order of the sorted query. */
  ghost predicate Sorted(m: Merge, t: Table, s: set<nat>, l: seq<nat>) {
    s <= t.Keys && (forall id :: id in l <==> id in s) && Increasing(m, t, l)
  }

  /** Rows of glossaries that were selected earlier come first, then those with smaller ids. */
  ghost predicate ByGlossaryThenId(m: Merge, t: Table, l: seq<nat>) {
    && (forall i :: 0 <= i < |l| ==> l[i] in t)
    && (forall i, j :: 0 <= i < j < |l| ==>
          var a, b := IndexOf(m.sources, t[l[i]].glossary), IndexOf(m.sources, t[l[j]].glossary);
          a < b || (a == b && l[i] < l[j]))
  }

  /** The query with its ordering. */
  function Listing(m: Merge, t: Table, s: set<nat>): (l: seq<nat>)
    requires s <= t.Keys
    ensures Sorted(m, t, s, l)
  {
    if s == {} then []
    else
      var f := First(m, t, s);
      var rest := Listing(m, t, s - {f});
      FirstThenRest(m, t, s, rest);
      [f] + rest
  }

  lemma {:induction false} FirstThenRest(m: Merge, t: Table, s: set<nat>, rest: seq<nat>)
    requires s != {} && s <= t.Keys && Sorted(m, t, s - {First(m, t, s)}, rest)
    ensures Sorted(m, t, s, [First(m, t, s)] + rest)
  {
    hide Before, First;
    var f := First(m, t, s);
    assert f in s && forall x :: x in rest ==> Before(m, t, f, x);
  }

  function Scope(m: Merge, t: Table): set<nat> {
    set id | id in t && InScope(m, t[id])
  }

  /** The terms of a merge in some order, each once, without the empty term. */
  ghost predicate TermsOf(m: Merge, t: Table, terms: seq<string>) {
    && (forall i :: 0 <= i < |terms| ==> terms[i] != "" && Group(m, t, terms[i]) != {})
    && (forall term :: term != "" && Group(m, t, term) != {} ==> term in terms)
    && (forall i, j :: 0 <= i < j < |terms| ==> terms[i] != terms[j])
  }

  /** The part of a group that lies in a prefix of the listing. */
  function Part(m: Merge, t: Table, l: seq<nat>, term: string): set<nat>
    requires forall id :: id in l ==> id in t
  {
    set id | id in l && Term(m, t[id]) == term
  }

  ghost predicate Grouped(m: Merge, t: Table, l: seq<nat>, terms: seq<string>, groups: map<string, seq<nat>>)
    requires forall id :: id in l ==> id in t
  {
    && (forall i :: 0 <= i < |terms| ==> terms[i] != "" && terms[i] in groups)
    && (forall term :: term in groups ==> term in terms)
    && (forall i, j :: 0 <= i < j < |terms| ==> terms[i] != terms[j])
    && (forall term :: term in groups ==> groups[term] != [] && Sorted(m, t, Part(m, t, l, term), groups[term]))
    && (forall id :: id in l && Term(m, t[id]) != "" ==> Term(m, t[id]) in groups)
  }

  lemma {:induction false} PartGrows(m: Merge, t: Table, l: seq<nat>, id: nat, term: string)
    requires id in t && forall x :: x in l ==> x in t
    ensures Part(m, t, l + [id], term) ==
            if Term(m, t[id]) == term then Part(m, t, l, term) + {id} else Part(m, t, l, term)
  {
  }

  lemma {:induction false} PartSize(m: Merge, t: Table, l: seq<nat>, id: nat, term: string)
    requires id in t && id !in l && forall x :: x in l ==> x in t
    ensures |Part(m, t, l + [id], term)| == |Part(m, t, l, term)| + (if Term(m, t[id]) == term then 1 else 0)
  {
    PartGrows(m, t, l, id, term);
  }

  /** A list in order stays so when an id after all of its ids is appended. */
  lemma {:induction false} SortedGrows(m: Merge, t: Table, s: set<nat>, l: seq<nat>, id: nat)
    requires Sorted(m, t, s, l) && id in t && forall x :: x in s ==> Before(m, t, x, id)
    ensures Sorted(m, t, s + {id}, l + [id])
  {
  }

  /** An entry of a known term goes to the end of the group of the term. */
  lemma {:induction false} GroupGrows(m: Merge, t: Table, l: seq<nat>, id: nat, terms: seq<string>,
                                      groups: map<string, seq<nat>>)
    requires id in t && forall x :: x in l ==> x in t && Before(m, t, x, id)
    requires Grouped(m, t, l, terms, groups) && Term(m, t[id]) in groups
    ensures Grouped(m, t, l + [id], terms, groups[Term(m, t[id]) := groups[Term(m, t[id])] + [id]])
  {
    hide Sorted, Term, Before;
    var term := Term(m, t[id]);
    SortedGrows(m, t, Part(m, t, l, term), groups[term], id);
    hide Part;
    forall other ensures Part(m, t, l + [id], other) ==
                         if term == other then Part(m, t, l, other) + {id} else Part(m, t, l, other)
    {
      PartGrows(m, t, l, id, other);
    }
  }

  /** An entry of a new term starts a group. */
  lemma {:induction false} GroupStarts(m: Merge, t: Table, l: seq<nat>, id: nat, terms: seq<string>,
                                       groups: map<string, seq<nat>>)
    requires id in t && forall x :: x in l ==> x in t
    requires Grouped(m, t, l, terms, groups) && Term(m, t[id]) !in groups && Term(m, t[id]) != ""
    ensures Grouped(m, t, l + [id], terms + [Term(m, t[id])], groups[Term(m, t[id]) := [id]])
  {
    var term := Term(m, t[id]);
    assert Sorted(m, t, {id}, [id]);
    hide Sorted, Term, Before;
    assert Part(m, t, l, term) == {};
    hide Part;
    forall other ensures Part(m, t, l + [id], other) ==
                         if term == other then Part(m, t, l, other) + {id} else Part(m, t, l, other)
    {
      PartGrows(m, t, l, id, other);
    }
  }

  /** Looking at one more entry keeps the groups of the part of the listing seen so far. */
  lemma {:induction false} GroupOneMore(m: Merge, t: Table, l: seq<nat>, id: nat, terms: seq<string>,
                                        groups: map<string, seq<nat>>)
    requires id in t && forall x :: x in l ==> x in t && Before(m, t, x, id)
    requires Grouped(m, t, l, terms, groups)
    ensures var term := Term(m, t[id]);
            if term == "" then Grouped(m, t, l + [id], terms, groups)
            else if term in groups then Grouped(m, t, l + [id], terms, groups[term := groups[term] + [id]])
            else Grouped(m, t, l + [id], terms + [term], groups[term := [id]])
  {
    hide Part, Sorted, Term, Before;
    var term := Term(m, t[id]);
    if term == "" {
      forall other | other in groups ensures Part(m, t, l + [id], other) == Part(m, t, l, other) {
        PartGrows(m, t, l, id, other);
      }
    } else {
      hide Grouped;
      if term in groups {
        GroupGrows(m, t, l, id, terms, groups);
      } else {
        GroupStarts(m, t, l, id, terms, groups);
      }
    }
  }

  lemma {:induction false} BeforeRest(m: Merge, t: Table, s: set<nat>, l: seq<nat>, k: nat)
    requires Sorted(m, t, s, l) && k < |l|
    ensures l[k] in t && forall x :: x in l[..k] ==> x in t && Before(m, t, x, l[k])
    ensures l[k] !in l[..k]
  {
    assert l[k] in l;
  }

  lemma {:induction false} NothingGrouped(m: Merge, t: Table)
    ensures Grouped(m, t, [], [], map[]) && Part(m, t, [], "") == {}
  {
  }

  lemma {:induction false} SortedIn(m: Merge, t: Table, s: set<nat>, l: seq<nat>)
    requires Sorted(m, t, s, l)
    ensures forall id :: id in l ==> id in t
  {
  }

  lemma {:induction false} ScopeIn(m: Merge, t: Table)
    ensures Scope(m, t) <= t.Keys
  {
  }

  method GroupEntries(m: Merge, t: Table)
    returns (terms: seq<string>, groups: map<string, seq<nat>>, emptyCount: nat)
    ensures TermsOf(m, t, terms)
    ensures forall term :: term in terms ==> term in groups && Sorted(m, t, Group(m, t, term), groups[term])
    ensures forall term :: term in terms ==> ByGlossaryThenId(m, t, groups[term])
    ensures forall term, id :: term in terms ==> (id in groups[term] <==> InGroup(m, t, term, id))
    ensures emptyCount == |Group(m, t, "")|
  {
    hide *;
    ScopeIn(m, t);
    var listing := Listing(m, t, Scope(m, t));
    terms, groups, emptyCount := [], map[], 0;
    NothingGrouped(m, t);
    SortedIn(m, t, Scope(m, t), listing);
    assert listing[..0] == [];
    for k := 0 to |listing|
      invariant forall x :: x in listing ==> x in t
      invariant Grouped(m, t, listing[..k], terms, groups)
      invariant emptyCount == |Part(m, t, listing[..k], "")|
    {
      var term := Term(m, t[listing[k]]);
      assert listing[..k + 1] == listing[..k] + [listing[k]];
      BeforeRest(m, t, Scope(m, t), listing, k);
      PartSize(m, t, listing[..k], listing[k], "");
      GroupOneMore(m, t, listing[..k], listing[k], terms, groups);
      if term == "" {
        emptyCount := emptyCount + 1;
      } else if term in groups {
        groups := groups[term := groups[term] + [listing[k]]];
      } else {
        terms := terms + [term];
        groups := groups[term := [listing[k]]];
      }
    }
    assert listing[..|listing|] == listing;
    PartIsGroup(m, t, listing, "");
    GroupsComplete(m, t, listing, terms, groups);
    forall term | term in terms ensures ByGlossaryThenId(m, t, groups[term]) {
      SortedByGlossary(m, t, Group(m, t, term), groups[term]);
    }
    forall term, id: nat | term in terms ensures id in groups[term] <==> InGroup(m, t, term, id) {
      SortedMembers(m, t, term, groups[term], id);
    }
  }

  lemma {:induction false} SortedMembers(m: Merge, t: Table, term: string, l: seq<nat>, id: nat)
    requires Sorted(m, t, Group(m, t, term), l)
    ensures id in l <==> InGroup(m, t, term, id)
  {
    hide SourceText;
  }

  lemma {:induction false} SortedByGlossary(m: Merge, t: Table, s: set<nat>, l: seq<nat>)
    requires Sorted(m, t, s, l)
    ensures ByGlossaryThenId(m, t, l)
  {
    forall i | 0 <= i < |l| ensures l[i] in t {
      assert l[i] in l;
    }
  }

  lemma {:induction false} PartIsGroup(m: Merge, t: Table, listing: seq<nat>, term: string)
    requires Sorted(m, t, Scope(m, t), listing)
    ensures Part(m, t, listing, term) == Group(m, t, term)
  {
  }

  lemma {:induction false} GroupsComplete(m: Merge, t: Table, listing: seq<nat>, terms: seq<string>,
                                          groups: map<string, seq<nat>>)
    requires Sorted(m, t, Scope(m, t), listing) && Grouped(m, t, listing, terms, groups)
    ensures TermsOf(m, t, terms)
    ensures forall term :: term in terms ==> term in groups && Sorted(m, t, Group(m, t, term), groups[term])
  {
    forall term ensures Part(m, t, listing, term) == Group(m, t, term) {
      PartIsGroup(m, t, listing, term);
    }
    forall i | 0 <= i < |terms| ensures Group(m, t, terms[i]) != {} {
      assert groups[terms[i]][0] in groups[terms[i]];
    }
    forall term | term != "" && Group(m, t, term) != {} ensures term in terms {
      var id :| id in Group(m, t, term);
      assert id in listing;
    }
  }

  // ---------------------------------------------------------------- choosing on lists

  function Pick(t: Table, l: seq<nat>, p: Entry -> bool): seq<nat>
    requires forall id :: id in l ==> id in t
  {
    if l == [] then []
    else Pick(t, l[..|l| - 1], p) + (if p(t[l[|l| - 1]]) then [l[|l| - 1]] else [])
  }

  lemma {:induction false} PickMembers(t: Table, l: seq<nat>, p: Entry -> bool)
    requires forall id :: id in l ==> id in t
    ensures forall id :: id in Pick(t, l, p) <==> id in l && p(t[id])
  {
    if l != [] {
      assert l == l[..|l| - 1] + [l[|l| - 1]];
      PickMembers(t, l[..|l| - 1], p);
    }
  }

  lemma {:induction false} PickIncreasing(m: Merge, t: Table, l: seq<nat>, p: Entry -> bool)
    requires (forall id :: id in l ==> id in t) && Increasing(m, t, l)
    ensures Increasing(m, t, Pick(t, l, p))
  {
    if l != [] {
      var front, last := l[..|l| - 1], l[|l| - 1];
      PickIncreasing(m, t, front, p);
      PickMembers(t, front, p);
      var picked := Pick(t, front, p);
      forall i | 0 <= i < |picked| ensures Before(m, t, picked[i], last) {
        assert picked[i] in front;
      }
    }
  }

  lemma {:induction false} PickSorted(m: Merge, t: Table, s: set<nat>, l: seq<nat>, p: Entry -> bool)
    requires Sorted(m, t, s, l)
    ensures Sorted(m, t, (set id | id in s && p(t[id])), Pick(t, l, p))
  {
    PickMembers(t, l, p);
    PickIncreasing(m, t, l, p);
  }

  /** In a sorted list the ends are the first and the last element of the set. */
  lemma {:induction false} SortedEnds(m: Merge, t: Table, s: set<nat>, l: seq<nat>)
    requires Sorted(m, t, s, l)
    ensures l == [] <==> s == {}
    ensures l != [] ==> l[0] == First(m, t, s) && l[|l| - 1] == Last(m, t, s)
  {
    if l != [] {
      assert l[0] in l && l[|l| - 1] in l;
      assert IsFirst(m, t, s, l[0]) && IsLast(m, t, s, l[|l| - 1]);
      assert IsFirst(m, t, s, First(m, t, s)) && IsLast(m, t, s, Last(m, t, s));
    }
  }

  lemma {:induction false} SortedSize(m: Merge, t: Table, s: set<nat>, l: seq<nat>)
    requires Sorted(m, t, s, l)
    ensures |l| == |s|
  {
    if l == [] {
      SortedEnds(m, t, s, l);
    } else {
      var front, last := l[..|l| - 1], l[|l| - 1];
      assert l == front + [last];
      assert last in l;
      forall x ensures x in front <==> x in s - {last} {
        assert x in l <==> x in front || x == last;
      }
      SortedSize(m, t, s - {last}, front);
    }
  }

  predicate ListConflict(t: Table, l: seq<nat>)
    requires forall id :: id in l ==> id in t
  {
    exists i, j :: 0 <= i < |l| && 0 <= j < |l| && MeaningOf(t[l[i]]) != MeaningOf(t[l[j]])
  }

  lemma {:induction false} ListConflictIsConflict(m: Merge, t: Table, term: string, l: seq<nat>)
    requires Sorted(m, t, Group(m, t, term), l)
    ensures ListConflict(t, l) <==> Conflict(m, t, term)
  {
    if Conflict(m, t, term) {
      var a, b :| a in Group(m, t, term) && b in Group(m, t, term) && MeaningOf(t[a]) != MeaningOf(t[b]);
      assert a in l && b in l;
      var i :| 0 <= i < |l| && l[i] == a;
      var j :| 0 <= j < |l| && l[j] == b;
    }
    if ListConflict(t, l) {
      var i, j :| 0 <= i < |l| && 0 <= j < |l| && MeaningOf(t[l[i]]) != MeaningOf(t[l[j]]);
      assert l[i] in l && l[j] in l;
    }
  }

  datatype Decision = NoSource | SkipConflict | Write(target: Option<nat>, chosen: nat)

  function SourceRows(m: Merge): Entry -> bool { (e: Entry) => e.glossary in m.sources }
  function TargetRows(m: Merge): Entry -> bool { (e: Entry) => e.glossary == m.target }

  /** What is done with a group, decided on its sorted list of rows. */
  function Decide(m: Merge, t: Table, l: seq<nat>): Decision
    requires forall id :: id in l ==> id in t
  {
    var candidates := Pick(t, l, SourceRows(m));
    var inTarget := Pick(t, l, TargetRows(m));
    if candidates == [] then NoSource
    else if ListConflict(t, l) && m.strategy == SkipConflicts then SkipConflict
    else
      Write(if inTarget == [] then None else Some(inTarget[0]),
            if ListConflict(t, l) && m.strategy == KeepTarget && inTarget != [] then inTarget[0]
            else if ListConflict(t, l) && m.strategy == KeepLast then candidates[|candidates| - 1]
            else candidates[0])
  }

  /** The decision on the list is the one specified on the set. */
  lemma {:induction false} DecideIsSpecified(m: Merge, t: Table, term: string, l: seq<nat>)
    requires term != "" && Sorted(m, t, Group(m, t, term), l)
    ensures match Decide(m, t, l)
            case NoSource => !HasSource(m, t, term)
            case SkipConflict => HasSource(m, t, term) && Skipped(m, t, term)
            case Write(target, chosen) =>
              && Handled(m, t, term) && chosen == Chosen(m, t, term)
              && (target.None? <==> InTarget(m, t, term) == {})
              && (target.Some? ==> target.value == First(m, t, InTarget(m, t, term)))
  {
    hide Pick, ListConflict, Conflict, First, Last, Candidates, InTarget;
    CandidateList(m, t, term, l);
    TargetList(m, t, term, l);
    ListConflictIsConflict(m, t, term, l);
  }

  lemma {:induction false} CandidateList(m: Merge, t: Table, term: string, l: seq<nat>)
    requires Sorted(m, t, Group(m, t, term), l)
    ensures var r := Pick(t, l, SourceRows(m));
            && (r == [] <==> Candidates(m, t, term) == {})
            && (r != [] ==> r[0] == First(m, t, Candidates(m, t, term)) &&
                            r[|r| - 1] == Last(m, t, Candidates(m, t, term)))
  {
    hide Increasing, Pick, First, Last, Term, Before;
    PickSorted(m, t, Group(m, t, term), l, SourceRows(m));
    assert (set id | id in Group(m, t, term) && SourceRows(m)(t[id])) == Candidates(m, t, term);
    SortedEnds(m, t, Candidates(m, t, term), Pick(t, l, SourceRows(m)));
  }

  lemma {:induction false} TargetList(m: Merge, t: Table, term: string, l: seq<nat>)
    requires Sorted(m, t, Group(m, t, term), l)
    ensures var r := Pick(t, l, TargetRows(m));
            && (r == [] <==> InTarget(m, t, term) == {})
            && (r != [] ==> r[0] == First(m, t, InTarget(m, t, term)))
  {
    hide Increasing, Pick, First, Last, Term, Before;
    PickSorted(m, t, Group(m, t, term), l, TargetRows(m));
    assert (set id | id in Group(m, t, term) && TargetRows(m)(t[id])) == InTarget(m, t, term);
    SortedEnds(m, t, InTarget(m, t, term), Pick(t, l, TargetRows(m)));
  }

  lemma {:induction false} PickSame(t: Table, t': Table, l: seq<nat>, p: Entry -> bool)
    requires forall id :: id in l ==> id in t && id in t' && t'[id] == t[id]
    ensures Pick(t', l, p) == Pick(t, l, p)
  {
    if l != [] {
      PickSame(t, t', l[..|l| - 1], p);
    }
  }

  lemma {:induction false} DecideSame(m: Merge, t: Table, t': Table, l: seq<nat>)
    requires forall id :: id in l ==> id in t && id in t' && t'[id] == t[id]
    ensures Decide(m, t', l) == Decide(m, t, l) && ListConflict(t', l) == ListConflict(t, l)
  {
    PickSame(t, t', l, SourceRows(m));
    PickSame(t, t', l, TargetRows(m));
    assert forall i :: 0 <= i < |l| ==> l[i] in l;
  }

  // ---------------------------------------------------------------- one group after another

  ghost predicate OldRow(m: Merge, t: Table, t': Table, done: seq<string>, id: nat)
    requires id in t && id in t'
  {
    if Updates(m, t, id) && Term(m, t[id]) in done then Overwritten(m, t, t', id) else t'[id] == t[id]
  }

  ghost predicate OldRows(m: Merge, t: Table, t': Table, done: seq<string>) {
    t.Keys <= t'.Keys && forall id :: id in t ==> OldRow(m, t, t', done, id)
  }

  ghost predicate NewRows(m: Merge, t: Table, t': Table, done: seq<string>) {
    && (forall id :: id in t' && id !in t ==> Added(m, t, t', id) && Term(m, t'[id]) in done)
    && (forall a, b :: a in t' && a !in t && b in t' && b !in t && Term(m, t'[a]) == Term(m, t'[b]) ==> a == b)
  }

  ghost predicate AllCreated(m: Merge, t: Table, t': Table, done: seq<string>) {
    forall term :: term in done && Creates(m, t, term) ==> HasNew(m, t, t', term)
  }

  /** The merge as far as the terms in `done` are concerned. */
  ghost predicate PartlyExecutes(m: Merge, t: Table, t': Table, done: seq<string>) {
    OldRows(m, t, t', done) && NewRows(m, t, t', done) && AllCreated(m, t, t', done)
  }

  lemma {:induction false} StepNothing(m: Merge, t: Table, t': Table, done: seq<string>, term: string)
    requires PartlyExecutes(m, t, t', done) && !Handled(m, t, term)
    ensures PartlyExecutes(m, t, t', done + [term])
  {
    hide Handled, Overwritten, Added, HasNew;
    forall id | id in t ensures OldRow(m, t, t', done + [term], id) {
      assert OldRow(m, t, t', done, id);
    }
    assert !Creates(m, t, term);
    assert AllCreated(m, t, t', done + [term]);
    assert NewRows(m, t, t', done + [term]);
  }

  lemma {:induction false} StepUpdate(m: Merge, t: Table, t': Table, done: seq<string>, term: string, h: nat,
                                      row: Entry)
    requires PartlyExecutes(m, t, t', done) && term !in done
    requires Handled(m, t, term) && InTarget(m, t, term) != {} && h == First(m, t, InTarget(m, t, term))
    requires row.glossary == t[h].glossary && SameContent(row, t[Chosen(m, t, term)])
    ensures PartlyExecutes(m, t, t'[h := row], done + [term])
  {
    assert h in InTarget(m, t, term);
    UpdatedOldRows(m, t, t', done, term, h, row);
    SameNewRows(m, t, t', t'[h := row], done, term, h);
  }

  lemma {:induction false} UpdatedOldRows(m: Merge, t: Table, t': Table, done: seq<string>, term: string,
                                          h: nat, row: Entry)
    requires OldRows(m, t, t', done) && term !in done
    requires Handled(m, t, term) && InTarget(m, t, term) != {} && h == First(m, t, InTarget(m, t, term))
    requires row.glossary == t[h].glossary && SameContent(row, t[Chosen(m, t, term)])
    ensures OldRows(m, t, t'[h := row], done + [term])
  {
    assert h in InTarget(m, t, term);
    assert Term(m, t[h]) == term && Updates(m, t, h);
    assert OldRow(m, t, t'[h := row], done + [term], h);
    forall id | id in t && id != h ensures !(Updates(m, t, id) && Term(m, t[id]) == term) {
    }
    hide Handled, Chosen, InTarget, Updates, Term, SameContent, OldRow;
    forall id | id in t && id != h ensures OldRow(m, t, t'[h := row], done + [term], id) {
      assert OldRow(m, t, t', done, id);
      OtherOldRow(m, t, t', t'[h := row], done, term, id);
    }
  }

  lemma {:induction false} OtherOldRow(m: Merge, t: Table, t': Table, t2: Table, done: seq<string>, term: string,
                                       id: nat)
    requires id in t && id in t' && id in t2 && t2[id] == t'[id]
    requires OldRow(m, t, t', done, id) && !(Updates(m, t, id) && Term(m, t[id]) == term)
    ensures OldRow(m, t, t2, done + [term], id)
  {
    hide Updates, Term, SameContent, Chosen;
  }

  /** Replacing an old row leaves the new rows as they are. */
  lemma {:induction false} SameNewRows(m: Merge, t: Table, t': Table, t2: Table, done: seq<string>,
                                       term: string, h: nat)
    requires NewRows(m, t, t', done) && AllCreated(m, t, t', done) && !Creates(m, t, term)
    requires h in t && t2.Keys == t'.Keys && forall id :: id in t' && id != h ==> t2[id] == t'[id]
    ensures NewRows(m, t, t2, done + [term]) && AllCreated(m, t, t2, done + [term])
  {
    hide Creates, Chosen;
    forall id | id in t2 && id !in t ensures Added(m, t, t2, id) && Term(m, t2[id]) in done {
      assert Added(m, t, t', id);
    }
    forall k | k in done + [term] && Creates(m, t, k) ensures HasNew(m, t, t2, k) {
      assert HasNew(m, t, t', k);
      var id :| id in t' && id !in t && Term(m, t'[id]) == k;
      assert id in t2 && Term(m, t2[id]) == k;
    }
  }

  lemma {:induction false} StepCreate(m: Merge, t: Table, t': Table, done: seq<string>, term: string, n: nat,
                                      row: Entry)
    requires PartlyExecutes(m, t, t', done) && term !in done
    requires Creates(m, t, term) && n !in t'
    requires row.glossary == m.target && SameContent(row, t[Chosen(m, t, term)])
    ensures PartlyExecutes(m, t, t'[n := row], done + [term])
  {
    CreatedOldRows(m, t, t', done, term, n, row);
    CreatedNewRows(m, t, t', done, term, n, row);
    CreatedHasNew(m, t, t', done, term, n, row);
  }

  lemma {:induction false} CreatedOldRows(m: Merge, t: Table, t': Table, done: seq<string>, term: string,
                                          n: nat, row: Entry)
    requires OldRows(m, t, t', done) && n !in t' && Creates(m, t, term)
    ensures OldRows(m, t, t'[n := row], done + [term])
  {
    forall id | id in t && Updates(m, t, id) ensures Term(m, t[id]) != term {
    }
    hide Updates, Creates;
    forall id | id in t ensures OldRow(m, t, t'[n := row], done + [term], id) {
      assert OldRow(m, t, t', done, id);
    }
  }

  lemma {:induction false} CreatedNewRows(m: Merge, t: Table, t': Table, done: seq<string>, term: string,
                                          n: nat, row: Entry)
    requires NewRows(m, t, t', done) && term !in done && Creates(m, t, term) && n !in t' && n !in t
    requires row.glossary == m.target && SameContent(row, t[Chosen(m, t, term)])
    ensures NewRows(m, t, t'[n := row], done + [term]) && Term(m, row) == term
  {
    var t2 := t'[n := row];
    SameContentSameMeaning(m, row, t[Chosen(m, t, term)]);
    assert Term(m, row) == term;
    hide Creates, Chosen, SameContent, Term;
    forall id | id in t2 && id !in t ensures Added(m, t, t2, id) && Term(m, t2[id]) in done + [term] {
      if id != n {
        assert Added(m, t, t', id);
      }
    }
  }

  lemma {:induction false} CreatedHasNew(m: Merge, t: Table, t': Table, done: seq<string>, term: string,
                                         n: nat, row: Entry)
    requires AllCreated(m, t, t', done) && n !in t' && n !in t && Term(m, row) == term
    ensures AllCreated(m, t, t'[n := row], done + [term])
  {
    hide Creates, Term;
    var t2 := t'[n := row];
    forall k | k in done + [term] && Creates(m, t, k) ensures HasNew(m, t, t2, k) {
      if k == term {
        assert n in t2 && n !in t && Term(m, t2[n]) == term;
      } else {
        assert HasNew(m, t, t', k);
        var id :| id in t' && id !in t && Term(m, t'[id]) == k;
        assert id in t2 && Term(m, t2[id]) == k;
      }
    }
  }

  lemma {:induction false} AllTermsDone(m: Merge, t: Table, t': Table, terms: seq<string>)
    requires TermsOf(m, t, terms) && PartlyExecutes(m, t, t', terms)
    ensures Executes(m, t, t')
  {
    forall id | id in t
      ensures if Updates(m, t, id) then Overwritten(m, t, t', id) else t'[id] == t[id]
    {
      assert OldRow(m, t, t', terms, id);
      if Updates(m, t, id) {
        assert id in InTarget(m, t, Term(m, t[id]));
      }
    }
    forall term | Creates(m, t, term) ensures term in terms {
      var id :| id in Candidates(m, t, term);
      assert id in Group(m, t, term);
    }
  }

  /** The rows of a term that is still to come are untouched. */
  lemma {:induction false} RowsToCome(m: Merge, t: Table, t': Table, done: seq<string>, term: string, id: nat)
    requires PartlyExecutes(m, t, t', done) && term !in done && id in Group(m, t, term)
    ensures id in t' && t'[id] == t[id]
  {
    assert OldRow(m, t, t', done, id);
  }

  // ---------------------------------------------------------------- the store

  datatype Outcome<T> = Done(value: T) | Refused(error: MergeError)

  ghost predicate Bounds(s: set<nat>, bound: nat) {
    forall x :: x in s ==> x <= bound
  }

  lemma {:induction false} HasBound(s: set<nat>) returns (bound: nat)
    ensures Bounds(s, bound)
  {
    if s == {} {
      bound := 0;
    } else {
      var x :| x in s;
      var b := HasBound(s - {x});
      bound := if x > b then x else b;
      assert forall y :: y in s ==> y == x || y in s - {x};
    }
  }

  lemma {:induction false} FreshExists(s: set<nat>)
    ensures exists id: nat :: id !in s
  {
    var bound := HasBound(s);
    assert bound + 1 !in s;
  }

  /** The merge a request stands for, once the id of its target is known. */
  function MergeOf(tools: TextTools, req: Request, target: nat): Merge {
    Merge(Unique(req.glossaryIds), target, req.strategy, tools.normal)
  }

  /** The content of `chosen` in the row `row`, which keeps its own id and glossary. */
  function CopyContent(row: Entry, chosen: Entry): Entry {
    row.(translations := chosen.translations, abbreviations := chosen.abbreviations, variants := chosen.variants)
  }

  /** The metadata written by a merge: that of the chosen row, with the lineage and the time. */
  function Stamp(row: Entry, chosen: Entry, lineage: seq<nat>, now: int): Entry {
    row.(metadata := chosen.metadata,
         book := chosen.book.(mergeSources := Some(lineage), mergedAt := Some(now)))
  }

  lemma {:induction false} FirstSourceKnown(tools: TextTools, glossaries: map<nat, Glossary>, req: Request)
    requires Refusal(tools, glossaries, req).None?
    ensures |Unique(req.glossaryIds)| >= 2 && Unique(req.glossaryIds)[0] in glossaries
  {
    assert Requested(req)[0] == Unique(req.glossaryIds)[0];
  }

  lemma {:induction false} FirstIsFirst(ids: seq<nat>)
    requires Unique(ids) != []
    ensures ids != [] && Unique(ids)[0] == ids[0]
  {
    if |ids| > 1 {
      FirstIsFirst(ids[..|ids| - 1]);
    }
  }

  /** The row carries the time of the merge and the rows it comes from. */
  predicate StampedWith(row: Entry, lineage: seq<nat>, now: int) {
    row.book.mergeSources == Some(lineage) && row.book.mergedAt == Some(now)
  }

  /** The row was written by the merge: from the rows with its term, in the order of the sorted query. */
  ghost predicate Stamped(m: Merge, t: Table, row: Entry, now: int) {
    row.book.mergeSources.Some? && StampedWith(row, row.book.mergeSources.value, now) &&
    Sorted(m, t, Group(m, t, Term(m, row)), row.book.mergeSources.value)
  }

  lemma {:induction false} TermOfChosen(m: Merge, t: Table, term: string, row: Entry)
    requires Candidates(m, t, term) != {} && SameContent(row, t[Chosen(m, t, term)])
    ensures Term(m, row) == term
  {
    SameContentSameMeaning(m, row, t[Chosen(m, t, term)]);
    hide Chosen;
    assert Chosen(m, t, term) in Group(m, t, term);
  }

  /** Every row that is new or different has the term and carries the group as its lineage. */
  ghost predicate WritesStamped(m: Merge, t: Table, t': Table, term: string, group: seq<nat>, now: int) {
    forall id :: id in t' && (id in t ==> t'[id] != t[id]) ==>
      StampedWith(t'[id], group, now) && Term(m, t'[id]) == term
  }

  lemma {:induction false} NothingWritten(m: Merge, t: Table, term: string, group: seq<nat>, now: int)
    ensures WritesStamped(m, t, t, term, group, now)
  {
  }

  lemma {:induction false} OneWritten(m: Merge, t: Table, id: nat, row: Entry, term: string, group: seq<nat>, now: int)
    requires StampedWith(row, group, now) && Term(m, row) == term
    ensures WritesStamped(m, t, t[id := row], term, group, now)
  {
    hide Term;
  }

  /** Every row that is new or different was written by the merge. */
  ghost predicate AllStamped(m: Merge, t: Table, t': Table, now: int) {
    forall id :: id in t' && (id in t ==> t'[id] != t[id]) ==> Stamped(m, t, t'[id], now)
  }

  lemma {:induction false} MoreStamped(m: Merge, t: Table, t1: Table, t2: Table, term: string, group: seq<nat>,
                                       now: int)
    requires AllStamped(m, t, t1, now) && Sorted(m, t, Group(m, t, term), group) && t1.Keys <= t2.Keys
    requires WritesStamped(m, t1, t2, term, group, now)
    ensures AllStamped(m, t, t2, now)
  {
    hide Sorted, Term, Group;
  }

  class GlossaryStore {
    var glossaries: map<nat, Glossary>
    var entries: Table

    constructor (glossaries: map<nat, Glossary>, entries: Table)
      ensures this.glossaries == glossaries && this.entries == entries
    {
      this.glossaries, this.entries := glossaries, entries;
    }

    /** The id of the request's target; a new glossary gets an id no glossary and no row uses. */
    method TargetId(req: Request) returns (id: nat)
      ensures req.mode.ExistingGlossary? ==> id == req.mode.id
      ensures req.mode.NewGlossary? ==>
                id !in glossaries && id !in req.glossaryIds && forall e :: e in entries ==> entries[e].glossary != id
    {
      match req.mode {
        case ExistingGlossary(target) => id := target;
        case NewGlossary(_) =>
          var used := glossaries.Keys + (set e | e in entries :: entries[e].glossary)
                      + (set k | k in req.glossaryIds);
          FreshExists(used);
          id :| id !in used;
          assert forall e :: e in entries ==> entries[e].glossary in used;
      }
    }

    /** Counts what a merge would do and changes nothing. */
    method PreviewMerge(tools: TextTools, req: Request)
      returns (r: Outcome<PreviewCounts>, target: nat, terms: seq<string>)
      ensures r.Refused? <==> Problem(tools, glossaries, req).Some?
      ensures r.Refused? ==> Some(r.error) == Problem(tools, glossaries, req)
      ensures r.Done? ==> var m := MergeOf(tools, req, target);
                          TermsOf(m, entries, terms) && r.value == Preview(m, entries, terms)
      ensures r.Done? ==> if req.mode.ExistingGlossary? then target == req.mode.id
                          else forall e :: e in entries ==> entries[e].glossary != target
    {
      target, terms := 0, [];
      var problem := Problem(tools, glossaries, req);
      if problem.Some? {
        r := Refused(problem.value);
        return;
      }
      target := TargetId(req);
      var counts;
      terms, counts := PreviewGroups(MergeOf(tools, req, target), entries);
      r := Done(counts);
    }

    /** Executes a merge, all of it or nothing. */
    method MergeGlossaries(tools: TextTools, req: Request, now: int)
      returns (r: Outcome<MergeCounts>, target: nat, terms: seq<string>)
      modifies this
      ensures r.Refused? <==> Refusal(tools, old(glossaries), req).Some?
      ensures r.Refused? ==> Some(r.error) == Refusal(tools, old(glossaries), req)
      ensures r.Refused? ==> entries == old(entries) && glossaries == old(glossaries)
      ensures r.Done? ==> var m := MergeOf(tools, req, target);
                          && TermsOf(m, old(entries), terms)
                          && Executes(m, old(entries), entries)
                          && r.value == Executed(m, old(entries), terms)
                          && |entries| == |old(entries)| + r.value.created
                          && AllStamped(m, old(entries), entries, now)
      ensures r.Done? ==> if req.mode.ExistingGlossary?
                          then target == req.mode.id && glossaries == old(glossaries)
                          else target !in old(glossaries) && target in glossaries &&
                               glossaries - {target} == old(glossaries) &&
                               req.glossaryIds != [] && req.glossaryIds[0] in old(glossaries) &&
                               glossaries[target] == Glossary(old(glossaries)[req.glossaryIds[0]].game,
                                                              tools.strip(req.mode.name)) &&
                               forall e :: e in old(entries) ==> old(entries)[e].glossary != target
    {
      target, terms := 0, [];
      hide Executes, Executed, TermsOf, MergeOf, AllStamped, Unique, Refusal, Problem;
      var refusal := Refusal(tools, glossaries, req);
      if refusal.Some? {
        r := Refused(refusal.value);
        return;
      }
      target := TargetId(req);
      if req.mode.NewGlossary? {
        AddGlossary(tools, req, target);
      }
      var counts;
      terms, counts := MergeGroups(MergeOf(tools, req, target), now);
      r := Done(counts);
    }

    /** The new glossary belongs to the game of the first selected one. */
    method AddGlossary(tools: TextTools, req: Request, target: nat)
      requires Refusal(tools, glossaries, req).None? && req.mode.NewGlossary? && target !in glossaries
      modifies this`glossaries
      ensures target in glossaries && glossaries - {target} == old(glossaries)
      ensures req.glossaryIds != [] && req.glossaryIds[0] in old(glossaries)
      ensures glossaries[target] == Glossary(old(glossaries)[req.glossaryIds[0]].game, tools.strip(req.mode.name))
    {
      hide Refusal;
      FirstSourceKnown(tools, glossaries, req);
      FirstIsFirst(req.glossaryIds);
      var source := Unique(req.glossaryIds)[0];
      glossaries := glossaries[target := Glossary(glossaries[source].game, tools.strip(req.mode.name))];
    }

    method MergeGroups(m: Merge, now: int) returns (terms: seq<string>, counts: MergeCounts)
      modifies this`entries
      ensures TermsOf(m, old(entries), terms) && Executes(m, old(entries), entries)
      ensures counts == Executed(m, old(entries), terms)
      ensures |entries| == |old(entries)| + counts.created
      ensures AllStamped(m, old(entries), entries, now)
    {
      hide *;
      ghost var t := entries;
      var groups, emptyCount;
      terms, groups, emptyCount := GroupEntries(m, entries);
      counts := MergeCounts(0, 0, 0, 0, 0);
      NothingMerged(m, t, now);
      TermsFacts(m, t, terms);
      assert terms[..0] == [];
      for i := 0 to |terms|
        invariant PartlyExecutes(m, t, entries, terms[..i])
        invariant counts == Executed(m, t, terms[..i]) && |entries| == |t| + counts.created
        invariant AllStamped(m, t, entries, now)
      {
        ghost var before := entries;
        var term := terms[i];
        assert terms[..i + 1] == terms[..i] + [term];
        counts := MergeGroup(m, t, terms[..i], term, groups[term], counts, now);
        MoreStamped(m, t, before, entries, term, groups[term], now);
      }
      assert terms[..|terms|] == terms;
      AllTermsDone(m, t, entries, terms);
    }

    /** One group: decides on its current rows and writes the target's row. */
    method MergeGroup(m: Merge, ghost t: Table, ghost done: seq<string>, term: string, group: seq<nat>,
                      counts: MergeCounts, now: int)
      returns (counts': MergeCounts)
      requires PartlyExecutes(m, t, entries, done) && term !in done && term != ""
      requires Sorted(m, t, Group(m, t, term), group) && counts == Executed(m, t, done)
      modifies this`entries
      ensures PartlyExecutes(m, t, entries, done + [term])
      ensures counts' == Executed(m, t, done + [term])
      ensures old(entries).Keys <= entries.Keys && |entries| - |old(entries)| == counts'.created - counts.created
      ensures WritesStamped(m, old(entries), entries, term, group, now)
    {
      NothingWritten(m, entries, term, group, now);
      hide WritesStamped, PartlyExecutes, Executed, Conflict, Sorted, Decide, ListConflict, MeaningOf, IsFirst, IsLast,
           Chosen, Term;
      RowsStillThere(m, t, entries, done, term, group);
      DecideIsSpecified(m, t, term, group);
      DecideSame(m, t, entries, group);
      ListConflictIsConflict(m, t, term, group);
      SortedSize(m, t, Group(m, t, term), group);
      CountOneMore(m, t, done, term);
      counts' := counts;
      var decision := Decide(m, entries, group);
      if decision.NoSource? {
        StepNothing(m, t, entries, done, term);
        return;
      }
      if ListConflict(entries, group) {
        counts' := counts'.(conflicts := counts'.conflicts + 1);
      } else if |group| > 1 {
        counts' := counts'.(duplicates := counts'.duplicates + 1);
      }
      if decision.SkipConflict? {
        counts' := counts'.(skipped := counts'.skipped + 1);
        StepNothing(m, t, entries, done, term);
        return;
      }
      ChosenIsThere(m, t, term, group);
      var chosen := entries[decision.chosen];
      if decision.target.Some? {
        var h := decision.target.value;
        var row := entries[h];
        if decision.chosen != h {
          row := CopyContent(row, chosen);
        }
        row := Stamp(row, chosen, group, now);
        StepUpdate(m, t, entries, done, term, h, row);
        TermOfChosen(m, t, term, row);
        OneWritten(m, entries, h, row, term, group, now);
        entries := entries[h := row];
        counts' := counts'.(updated := counts'.updated + 1);
      } else {
        FreshExists(entries.Keys);
        var n: nat :| n !in entries;
        var row := Stamp(CopyContent(chosen.(glossary := m.target), chosen), chosen, group, now);
        StepCreate(m, t, entries, done, term, n, row);
        TermOfChosen(m, t, term, row);
        OneWritten(m, entries, n, row, term, group, now);
        entries := entries[n := row];
        counts' := counts'.(created := counts'.created + 1);
      }
    }
  }

  lemma {:induction false} NothingMerged(m: Merge, t: Table, now: int)
    ensures PartlyExecutes(m, t, t, []) && Executed(m, t, []) == MergeCounts(0, 0, 0, 0, 0)
    ensures AllStamped(m, t, t, now)
  {
  }

  lemma {:induction false} TermsFacts(m: Merge, t: Table, terms: seq<string>)
    requires TermsOf(m, t, terms)
    ensures forall i :: 0 <= i < |terms| ==> terms[i] != "" && terms[i] !in terms[..i]
  {
  }

  method PreviewGroups(m: Merge, t: Table) returns (terms: seq<string>, counts: PreviewCounts)
    ensures TermsOf(m, t, terms) && counts == Preview(m, t, terms)
  {
    var groups, emptyCount;
    terms, groups, emptyCount := GroupEntries(m, t);
    var conflicts, duplicates := 0, 0;
    hide TermsOf, Group, Sorted, ListConflict, Conflict;
    for i := 0 to |terms|
      invariant conflicts == CountIf(terms[..i], Conflicting(m, t))
      invariant duplicates == CountIf(terms[..i], Duplicated(m, t))
    {
      var group := groups[terms[i]];
      assert terms[..i + 1][..i] == terms[..i];
      SortedIn(m, t, Group(m, t, terms[i]), group);
      ListConflictIsConflict(m, t, terms[i], group);
      SortedSize(m, t, Group(m, t, terms[i]), group);
      if ListConflict(t, group) {
        conflicts := conflicts + 1;
      } else if |group| > 1 {
        duplicates := duplicates + 1;
      }
    }
    assert terms[..|terms|] == terms;
    counts := PreviewCounts(conflicts, duplicates,
                            |terms| - (if m.strategy == SkipConflicts then conflicts else 0));
  }

  lemma {:induction false} RowsStillThere(m: Merge, t: Table, t': Table, done: seq<string>, term: string,
                                          group: seq<nat>)
    requires PartlyExecutes(m, t, t', done) && term !in done && Sorted(m, t, Group(m, t, term), group)
    ensures forall id :: id in group ==> id in t && id in t' && t'[id] == t[id]
  {
    forall id | id in group ensures id in t && id in t' && t'[id] == t[id] {
      RowsToCome(m, t, t', done, term, id);
    }
  }

  lemma {:induction false} ChosenIsThere(m: Merge, t: Table, term: string, group: seq<nat>)
    requires Sorted(m, t, Group(m, t, term), group) && Candidates(m, t, term) != {}
    ensures Chosen(m, t, term) in group
    ensures InTarget(m, t, term) != {} ==> First(m, t, InTarget(m, t, term)) in group
  {
    assert InTarget(m, t, term) != {} ==> First(m, t, InTarget(m, t, term)) in InTarget(m, t, term);
  }

  lemma {:induction false} CountOneMore(m: Merge, t: Table, done: seq<string>, term: string)
    ensures var e, e' := Executed(m, t, done), Executed(m, t, done + [term]);
            && e'.created == e.created + (if Creates(m, t, term) then 1 else 0)
            && e'.updated == e.updated + (if Handled(m, t, term) && InTarget(m, t, term) != {} then 1 else 0)
            && e'.duplicates == e.duplicates + (if HasSource(m, t, term) && Duplicate(m, t, term) then 1 else 0)
            && e'.conflicts == e.conflicts + (if HasSource(m, t, term) && Conflict(m, t, term) then 1 else 0)
            && e'.skipped == e.skipped + (if HasSource(m, t, term) && Skipped(m, t, term) then 1 else 0)
  {
    assert (done + [term])[..|done|] == done;
  }
}
