/**
 * The glossary health reviewer: repair cases are cut greedily into batches under a size and
 * a token limit, each batch is reviewed with one structured retry, and the advice is put
 * back into the order of the cases.
 */
module ReviewBatches {
  import opened BatchTypes

  const MAX_BATCH_SIZE: nat := 12
  const MAX_BATCH_INPUT_TOKENS: nat := 2200
  const MAX_STRUCTURED_RESPONSE_ATTEMPTS: nat := 2

  datatype Evidence = Evidence(entryId: string, detail: string)

  datatype Issue = Issue(code: string, items: seq<Evidence>)

  datatype Case = Case(caseId: string, entryId: string, issueCode: string, detail: string)

  // ---------------------------------------------------------------- cases

  function CaseId(code: string, entryId: string): string {
    code + ":" + entryId
  }

  function MakeCase(code: string, e: Evidence): Case {
    Case(CaseId(code, e.entryId), e.entryId, code, e.detail)
  }

  predicate HasId(cases: seq<Case>, id: string) {
    exists i :: 0 <= i < |cases| && cases[i].caseId == id
  }

  /** Looking at one finding: empty fields and ids seen before are skipped. */
  function AddCase(cases: seq<Case>, code: string, e: Evidence): seq<Case> {
    if code == "" || e.entryId == "" || HasId(cases, CaseId(code, e.entryId)) then cases
    else cases + [MakeCase(code, e)]
  }

  function AddItems(cases: seq<Case>, code: string, items: seq<Evidence>): seq<Case> {
    if items == [] then cases
    else AddCase(AddItems(cases, code, items[..|items| - 1]), code, items[|items| - 1])
  }

  function Cases(issues: seq<Issue>): seq<Case> {
    if issues == [] then []
    else
      var last := issues[|issues| - 1];
      AddItems(Cases(issues[..|issues| - 1]), last.code, last.items)
  }

  lemma {:induction false} OneMoreItem(cases: seq<Case>, code: string, items: seq<Evidence>, j: nat)
    requires j < |items|
    ensures AddItems(cases, code, items[..j + 1]) == AddCase(AddItems(cases, code, items[..j]), code, items[j])
  {
    assert items[..j + 1][..j] == items[..j];
  }

  lemma {:induction false} OneMoreIssue(issues: seq<Issue>, i: nat)
    requires i < |issues|
    ensures Cases(issues[..i + 1]) == AddItems(Cases(issues[..i]), issues[i].code, issues[i].items)
  {
    assert issues[..i + 1][..i] == issues[..i];
  }

  lemma {:induction false} OneMoreId(cases: seq<Case>, c: Case, id: string)
    ensures HasId(cases + [c], id) <==> HasId(cases, id) || id == c.caseId
  {
    assert (cases + [c])[|cases|] == c;
    if HasId(cases, id) {
      var k :| 0 <= k < |cases| && cases[k].caseId == id;
      assert (cases + [c])[k] == cases[k];
    }
  }

  method BuildCases(issues: seq<Issue>) returns (cases: seq<Case>)
    ensures cases == Cases(issues)
  {
    hide Cases, AddItems, HasId, CaseId;
    NoIssues();
    cases := [];
    var seen: set<string> := {};
    for i := 0 to |issues|
      invariant cases == Cases(issues[..i])
      invariant forall id :: id in seen <==> HasId(cases, id)
    {
      OneMoreIssue(issues, i);
      var code, items := issues[i].code, issues[i].items;
      ghost var start := cases;
      NoItems(start, code);
      for j := 0 to |items|
        invariant cases == AddItems(start, code, items[..j])
        invariant forall id :: id in seen <==> HasId(cases, id)
      {
        OneMoreItem(start, code, items, j);
        var e := items[j];
        if code == "" || e.entryId == "" {
          continue;
        }
        var id := CaseId(code, e.entryId);
        if id in seen {
          continue;
        }
        forall x ensures HasId(cases + [MakeCase(code, e)], x) <==> x in seen + {id} {
          OneMoreId(cases, MakeCase(code, e), x);
        }
        seen := seen + {id};
        cases := cases + [MakeCase(code, e)];
      }
      assert items[..|items|] == items;
    }
    assert issues[..|issues|] == issues;
  }

  lemma {:induction false} NoIssues()
    ensures Cases([]) == [] && forall id :: !HasId([], id)
  {
  }

  lemma {:induction false} NoItems(cases: seq<Case>, code: string)
    ensures AddItems(cases, code, []) == cases
  {
  }

  ghost predicate DistinctCases(cases: seq<Case>) {
    forall i, j :: 0 <= i < j < |cases| ==> cases[i].caseId != cases[j].caseId
  }

  ghost predicate WellNamed(cases: seq<Case>) {
    forall i :: 0 <= i < |cases| ==> cases[i].caseId == CaseId(cases[i].issueCode, cases[i].entryId)
  }

  lemma {:induction false} ItemsDistinct(cases: seq<Case>, code: string, items: seq<Evidence>)
    requires DistinctCases(cases) && WellNamed(cases)
    ensures var r := AddItems(cases, code, items);
            && DistinctCases(r) && WellNamed(r) && cases <= r
            && (forall k :: 0 <= k < |items| && code != "" && items[k].entryId != "" ==>
                  HasId(r, CaseId(code, items[k].entryId)))
  {
    if items != [] {
      var front := items[..|items| - 1];
      ItemsDistinct(cases, code, front);
      var r0, r := AddItems(cases, code, front), AddItems(cases, code, items);
      forall k | 0 <= k < |items| && code != "" && items[k].entryId != ""
        ensures HasId(r, CaseId(code, items[k].entryId))
      {
        if k < |front| {
          var i :| 0 <= i < |r0| && r0[i].caseId == CaseId(code, items[k].entryId);
          assert r[i].caseId == CaseId(code, items[k].entryId);
        } else if !HasId(r0, CaseId(code, items[k].entryId)) {
          assert r[|r0|].caseId == CaseId(code, items[k].entryId);
        }
      }
    }
  }

  /** Case ids are distinct, and every complete finding has a case under its id. */
  lemma {:induction false} CasesCover(issues: seq<Issue>)
    ensures DistinctCases(Cases(issues)) && WellNamed(Cases(issues))
    ensures forall i, k :: 0 <= i < |issues| && 0 <= k < |issues[i].items| && issues[i].code != "" &&
                           issues[i].items[k].entryId != "" ==>
              HasId(Cases(issues), CaseId(issues[i].code, issues[i].items[k].entryId))
  {
    if issues != [] {
      var front, last := issues[..|issues| - 1], issues[|issues| - 1];
      CasesCover(front);
      ItemsDistinct(Cases(front), last.code, last.items);
      var r0, r := Cases(front), Cases(issues);
      forall i, k | 0 <= i < |issues| && 0 <= k < |issues[i].items| && issues[i].code != "" &&
                    issues[i].items[k].entryId != ""
        ensures HasId(r, CaseId(issues[i].code, issues[i].items[k].entryId))
      {
        if i < |front| {
          assert front[i] == issues[i];
          var id := CaseId(front[i].code, front[i].items[k].entryId);
          assert HasId(r0, id);
          var x :| 0 <= x < |r0| && r0[x].caseId == id;
          assert r[x].caseId == id;
        }
      }
    }
  }

  /** A finding with a code and an entry. */
  predicate Complete(issues: seq<Issue>, i: nat, k: nat) {
    i < |issues| && k < |issues[i].items| && issues[i].code != "" && issues[i].items[k].entryId != ""
  }

  /** The finding would get this case. */
  predicate FindingOf(issues: seq<Issue>, i: nat, k: nat, c: Case) {
    Complete(issues, i, k) &&
    c == Case(issues[i].code + ":" + issues[i].items[k].entryId, issues[i].items[k].entryId, issues[i].code,
              issues[i].items[k].detail)
  }

  lemma {:induction false} ItemCase(cases: seq<Case>, code: string, items: seq<Evidence>, x: nat) returns (k: nat)
    requires |cases| <= x < |AddItems(cases, code, items)|
    ensures k < |items| && code != "" && items[k].entryId != ""
    ensures AddItems(cases, code, items)[x] ==
            Case(code + ":" + items[k].entryId, items[k].entryId, code, items[k].detail)
    ensures !HasId(cases, AddItems(cases, code, items)[x].caseId)
    ensures forall j :: 0 <= j < k && items[j].entryId != "" ==> items[j].entryId != items[k].entryId
  {
    hide HasId;
    var front := items[..|items| - 1];
    var r0 := AddItems(cases, code, front);
    if x < |r0| {
      k := ItemCase(cases, code, front, x);
    } else {
      k := |items| - 1;
      ItemIds(cases, code, front);
      forall j | 0 <= j < k && items[j].entryId != "" ensures items[j].entryId != items[k].entryId {
        assert front[j] == items[j];
      }
    }
  }

  /** The ids known after some items: those known before and those of the items. */
  lemma {:induction false} ItemIds(cases: seq<Case>, code: string, items: seq<Evidence>)
    ensures cases <= AddItems(cases, code, items)
    ensures forall id :: HasId(cases, id) ==> HasId(AddItems(cases, code, items), id)
    ensures forall k :: 0 <= k < |items| && code != "" && items[k].entryId != "" ==>
              HasId(AddItems(cases, code, items), CaseId(code, items[k].entryId))
  {
    hide HasId, CaseId;
    if items != [] {
      var front, last := items[..|items| - 1], items[|items| - 1];
      ItemIds(cases, code, front);
      var r0 := AddItems(cases, code, front);
      forall id ensures HasId(r0, id) ==> HasId(AddCase(r0, code, last), id) {
        OneMoreId(r0, MakeCase(code, last), id);
      }
      OneMoreId(r0, MakeCase(code, last), CaseId(code, last.entryId));
    }
  }

  /** Each case is that of a complete finding, with its detail, and of the first one of that id. */
  lemma {:induction false} CaseIsFirstFinding(issues: seq<Issue>, x: nat) returns (i: nat, k: nat)
    requires x < |Cases(issues)|
    ensures FindingOf(issues, i, k, Cases(issues)[x])
    ensures forall i': nat, k': nat :: Complete(issues, i', k') && (i' < i || (i' == i && k' < k)) ==>
              issues[i'].code + ":" + issues[i'].items[k'].entryId != Cases(issues)[x].caseId
  {
    var front, last := issues[..|issues| - 1], issues[|issues| - 1];
    ItemIds(Cases(front), last.code, last.items);
    hide HasId;
    if x < |Cases(front)| {
      i, k := CaseIsFirstFinding(front, x);
      assert forall j :: 0 <= j < |front| ==> front[j] == issues[j];
    } else {
      i := |issues| - 1;
      k := ItemCase(Cases(front), last.code, last.items, x);
      CasesCover(front);
      forall i': nat, k': nat | Complete(issues, i', k') && (i' < i || (i' == i && k' < k))
        ensures issues[i'].code + ":" + issues[i'].items[k'].entryId != Cases(issues)[x].caseId
      {
        if i' < i {
          assert front[i'] == issues[i'];
          assert HasId(Cases(front), CaseId(front[i'].code, front[i'].items[k'].entryId));
        } else {
          IdsDiffer(last.code, last.items[k'].entryId, last.items[k].entryId);
        }
      }
    }
  }

  lemma {:induction false} IdsDiffer(code: string, entry1: string, entry2: string)
    ensures entry1 != entry2 ==> code + ":" + entry1 != code + ":" + entry2
  {
    assert (code + ":" + entry1)[|code| + 1..] == entry1;
    assert (code + ":" + entry2)[|code| + 1..] == entry2;
  }

  /** The cases come in the order of the findings: those of the first issues come first. */
  lemma {:induction false} CasesInOrder(issues: seq<Issue>, n: nat)
    requires n <= |issues|
    ensures Cases(issues[..n]) <= Cases(issues)
  {
    if n == |issues| {
      assert issues[..n] == issues;
    } else {
      var front, last := issues[..|issues| - 1], issues[|issues| - 1];
      CasesInOrder(front, n);
      assert front[..n] == issues[..n];
      ItemIds(Cases(front), last.code, last.items);
    }
  }

  /** The first code, with the separator, begins the second one. */
  predicate Begins(code1: string, code2: string) {
    code1 + ":" <= code2
  }

  /** Equal case ids of different codes: the longer code begins with the shorter one and the separator. */
  lemma {:induction false} SharedIdBegins(code1: string, entry1: string, code2: string, entry2: string)
    requires CaseId(code1, entry1) == CaseId(code2, entry2)
    ensures code1 == code2 ==> entry1 == entry2
    ensures |code1| == |code2| ==> code1 == code2
    ensures |code1| < |code2| ==> Begins(code1, code2)
    ensures |code2| < |code1| ==> Begins(code2, code1)
  {
    var id := CaseId(code1, entry1);
    assert id[..|code1|] == code1 && id[|code1| + 1..] == entry1 && id[|code1|] == ':';
    assert id[..|code2|] == code2 && id[|code2| + 1..] == entry2 && id[|code2|] == ':';
    if |code1| < |code2| {
      assert code2[..|code1| + 1] == id[..|code1| + 1] == code1 + ":";
    }
    if |code2| < |code1| {
      assert code1[..|code2| + 1] == id[..|code2| + 1] == code2 + ":";
    }
  }

  lemma {:induction false} BeginsShares(code1: string, code2: string) returns (entry1: string, entry2: string)
    requires Begins(code1, code2)
    ensures CaseId(code1, entry1) == CaseId(code2, entry2)
    ensures entry1 != "" && entry2 != ""
  {
    entry2 := "x";
    entry1 := code2[|code1| + 1..] + (":" + entry2);
    assert code2 == code1 + ":" + code2[|code1| + 1..];
  }

  /** Different codes can give equal case ids if and only if one, with the separator, begins the other. */
  lemma {:induction false} CodesCollideIff(code1: string, code2: string)
    requires code1 != code2
    ensures (exists entry1, entry2 :: CaseId(code1, entry1) == CaseId(code2, entry2)) <==>
            Begins(code1, code2) || Begins(code2, code1)
  {
    hide CaseId, Begins;
    if entry1, entry2 :| CaseId(code1, entry1) == CaseId(code2, entry2) {
      SharedIdBegins(code1, entry1, code2, entry2);
    }
    if Begins(code1, code2) {
      var entry1, entry2 := BeginsShares(code1, code2);
    }
    if Begins(code2, code1) {
      var entry2, entry1 := BeginsShares(code2, code1);
    }
  }

  /** No code in use, with the separator, begins another one. */
  ghost predicate CodesApart(codes: set<string>) {
    forall code1, code2 :: code1 in codes && code2 in codes && code1 != "" ==> !Begins(code1, code2)
  }

  /** With such codes a case id determines the finding. */
  lemma {:induction false} CaseIdIsInjective(codes: set<string>, code1: string, entry1: string, code2: string,
                                             entry2: string)
    requires CodesApart(codes) && code1 in codes && code2 in codes && code1 != "" && code2 != ""
    requires CaseId(code1, entry1) == CaseId(code2, entry2)
    ensures code1 == code2 && entry1 == entry2
  {
    hide CaseId, Begins;
    SharedIdBegins(code1, entry1, code2, entry2);
  }

  ghost predicate HasCase(cases: seq<Case>, code: string, entryId: string) {
    exists x :: 0 <= x < |cases| && cases[x].issueCode == code && cases[x].entryId == entryId
  }

  /** Every finding with a code and an entry has a case of its own. */
  ghost predicate EveryFindingHasItsCase(issues: seq<Issue>) {
    forall i, k :: 0 <= i < |issues| && 0 <= k < |issues[i].items| && issues[i].code != "" &&
                   issues[i].items[k].entryId != "" ==>
      HasCase(Cases(issues), issues[i].code, issues[i].items[k].entryId)
  }

  ghost predicate UsesCodes(issues: seq<Issue>, codes: set<string>) {
    forall i :: 0 <= i < |issues| ==> issues[i].code in codes
  }

  ghost predicate CodesFrom(cases: seq<Case>, codes: set<string>) {
    forall c :: c in cases ==> c.issueCode in codes && c.issueCode != ""
  }

  lemma {:induction false} ItemsCodes(cases: seq<Case>, code: string, items: seq<Evidence>, codes: set<string>)
    requires code in codes && CodesFrom(cases, codes)
    ensures CodesFrom(AddItems(cases, code, items), codes)
  {
    if items == [] {
      assert AddItems(cases, code, items) == cases;
    } else {
      ItemsCodes(cases, code, items[..|items| - 1], codes);
    }
  }

  lemma {:induction false} CasesCodes(issues: seq<Issue>, codes: set<string>)
    requires UsesCodes(issues, codes)
    ensures CodesFrom(Cases(issues), codes)
  {
    if issues == [] {
      assert Cases(issues) == [];
    } else {
      var front, last := issues[..|issues| - 1], issues[|issues| - 1];
      CasesCodes(front, codes);
      ItemsCodes(Cases(front), last.code, last.items, codes);
    }
  }

  lemma {:induction false} ApartGivesCases(issues: seq<Issue>, codes: set<string>)
    requires CodesApart(codes) && UsesCodes(issues, codes)
    ensures EveryFindingHasItsCase(issues)
  {
    hide CodesApart, CaseId, Cases;
    CasesCover(issues);
    CasesCodes(issues, codes);
    var cases := Cases(issues);
    forall i, k | 0 <= i < |issues| && 0 <= k < |issues[i].items| && issues[i].code != "" &&
                  issues[i].items[k].entryId != ""
      ensures HasCase(cases, issues[i].code, issues[i].items[k].entryId)
    {
      var code, entryId := issues[i].code, issues[i].items[k].entryId;
      assert HasId(cases, CaseId(code, entryId));
      var x :| 0 <= x < |cases| && cases[x].caseId == CaseId(code, entryId);
      assert cases[x] in cases;
      CaseIdIsInjective(codes, cases[x].issueCode, cases[x].entryId, code, entryId);
    }
  }

  /** When one code begins another, some report with two different findings gives a single case. */
  lemma {:induction false} ColonMergesFindings(code1: string, code2: string) returns (issues: seq<Issue>)
    requires code1 != "" && Begins(code1, code2)
    ensures UsesCodes(issues, {code1, code2}) && |Cases(issues)| == 1 && !EveryFindingHasItsCase(issues)
  {
    var entry1, entry2 := BeginsShares(code1, code2);
    hide CaseId;
    var e1, e2 := Evidence(entry1, ""), Evidence(entry2, "");
    var first, second := Issue(code1, [e1]), Issue(code2, [e2]);
    issues := [first, second];
    OneItem([], code1, e1);
    assert issues[..1] == [first] && [first][..0] == [];
    assert Cases([first]) == [MakeCase(code1, e1)];
    assert Cases([first])[0].caseId == CaseId(code2, entry2);
    OneItem(Cases([first]), code2, e2);
    assert Cases(issues) == [MakeCase(code1, e1)];
    assert issues[1].items[0].entryId == entry2;
    assert !HasCase(Cases(issues), code2, entry2);
  }

  lemma {:induction false} OneItem(cases: seq<Case>, code: string, e: Evidence)
    ensures AddItems(cases, code, [e]) == AddCase(cases, code, e)
  {
    assert [e][..0] == [];
    assert AddItems(cases, code, []) == cases;
  }

  /**
   * The exact condition: all reports with these codes keep all findings apart if and only if no code
   * begins another.
   */
  lemma {:induction false} FindingsKeptApartIff(codes: set<string>)
    ensures (forall issues :: UsesCodes(issues, codes) ==> EveryFindingHasItsCase(issues)) <==> CodesApart(codes)
  {
    hide EveryFindingHasItsCase, Begins;
    if CodesApart(codes) {
      forall issues | UsesCodes(issues, codes) ensures EveryFindingHasItsCase(issues) {
        ApartGivesCases(issues, codes);
      }
    } else {
      var code1, code2 :| code1 in codes && code2 in codes && code1 != "" && Begins(code1, code2);
      var issues := ColonMergesFindings(code1, code2);
      assert UsesCodes(issues, codes);
    }
  }

  /** The codes of the glossary health check. */
  const ISSUE_CODES: set<string> := {
    "empty_source", "missing_translation", "edge_whitespace",
    "placeholder_mismatch", "duplicate_term", "conflicting_translation"
  }

  lemma {:induction false} CodesHaveNoSeparator()
    ensures forall code :: code in ISSUE_CODES ==> ':' !in code
  {
  }

  /** They meet the condition, so no finding of a health report is ever merged with another. */
  lemma {:induction false} HealthReportsKeepFindings(issues: seq<Issue>)
    requires UsesCodes(issues, ISSUE_CODES)
    ensures EveryFindingHasItsCase(issues)
  {
    CodesHaveNoSeparator();
    hide EveryFindingHasItsCase, Cases, ISSUE_CODES, UsesCodes;
    forall code1, code2 | code1 in ISSUE_CODES && code2 in ISSUE_CODES ensures !Begins(code1, code2) {
      assert (code1 + ":")[|code1|] == ':';
    }
    ApartGivesCases(issues, ISSUE_CODES);
  }

  // ---------------------------------------------------------------- token estimate

  function CountCjk(s: string, cjk: char -> bool): (r: nat)
    ensures r <= |s|
  {
    if s == "" then 0 else CountCjk(s[1..], cjk) + (if cjk(s[0]) then 1 else 0)
  }

  /** The positions of CJK characters. */
  function CjkAt(s: string, cjk: char -> bool): (r: set<nat>)
    ensures forall i: nat :: i in r <==> i < |s| && cjk(s[i])
  {
    set i: nat | i < |s| && cjk(s[i])
  }

  lemma {:induction false} CountCjkSplits(a: string, c: char, cjk: char -> bool)
    ensures CountCjk(a + [c], cjk) == CountCjk(a, cjk) + (if cjk(c) then 1 else 0)
  {
    if a == "" {
      assert "" + [c] == [c] && [c][1..] == "";
    } else {
      assert (a + [c])[1..] == a[1..] + [c];
      CountCjkSplits(a[1..], c, cjk);
    }
  }

  lemma {:induction false} CountCjkIs(s: string, cjk: char -> bool)
    ensures CountCjk(s, cjk) == |CjkAt(s, cjk)|
  {
    hide CjkAt;
    if s == "" {
      assert CjkAt(s, cjk) == {};
    } else {
      var last := |s| - 1;
      var front := s[..last];
      CountCjkIs(front, cjk);
      CountCjkSplits(front, s[last], cjk);
      assert s == front + [s[last]];
      if cjk(s[last]) {
        assert last in CjkAt(s, cjk) && CjkAt(s, cjk) - {last} == CjkAt(front, cjk);
      } else {
        assert CjkAt(s, cjk) == CjkAt(front, cjk);
      }
    }
  }

  /** One token for a CJK character, a quarter, rounded up, for the others, and at least one. */
  function EstimateTokens(serialized: string, cjk: char -> bool): (r: nat)
    ensures r >= 1
    ensures |serialized| <= 4 * r
    ensures serialized != "" ==>
              var c := CountCjk(serialized, cjk); |serialized| - c <= 4 * (r - c) < |serialized| - c + 4
  {
    var c := CountCjk(serialized, cjk);
    var t := c + (|serialized| - c + 3) / 4;
    if t < 1 then 1 else t
  }

  // ---------------------------------------------------------------- greedy batching

  type Cost = Case -> nat

  /** How cases are written for the model, and which characters count as CJK. */
  datatype Wire = Wire(serialize: Case -> string, cjk: char -> bool)

  /** The cost of a case is the token estimate of its serialization. */
  function CaseTokens(w: Wire): Cost {
    (c: Case) => EstimateTokens(w.serialize(c), w.cjk)
  }

  function Tokens(batch: seq<Case>, cost: Cost): nat {
    if batch == [] then 0 else Tokens(batch[..|batch| - 1], cost) + cost(batch[|batch| - 1])
  }

  /** A batch within both limits; a single case may exceed the token budget. */
  ghost predicate ValidBatch(batch: seq<Case>, cost: Cost) {
    1 <= |batch| <= MAX_BATCH_SIZE && (|batch| == 1 || Tokens(batch, cost) <= MAX_BATCH_INPUT_TOKENS)
  }

  /** An order-preserving partition of the cases into valid batches. */
  ghost predicate Partition(batches: seq<seq<Case>>, cases: seq<Case>, cost: Cost) {
    Flatten(batches) == cases && forall i :: 0 <= i < |batches| ==> ValidBatch(batches[i], cost)
  }

  /** The length of the first batch, when `n` cases are already in it. */
  function Fill(cases: seq<Case>, n: nat, cost: Cost): (r: nat)
    requires 1 <= n <= |cases|
    ensures n <= r <= |cases|
    decreases |cases| - n
  {
    if n < |cases| && n < MAX_BATCH_SIZE && Tokens(cases[..n], cost) + cost(cases[n]) <= MAX_BATCH_INPUT_TOKENS
    then Fill(cases, n + 1, cost) else n
  }

  function Greedy(cases: seq<Case>, cost: Cost): seq<seq<Case>>
    decreases |cases|
  {
    if cases == [] then []
    else var k := Fill(cases, 1, cost); [cases[..k]] + Greedy(cases[k..], cost)
  }

  /** The greedy choice has taken all of `current` so far. */
  ghost predicate Filling(current: seq<Case>, rest: seq<Case>, cost: Cost) {
    current != [] ==> Fill(current + rest, 1, cost) == Fill(current + rest, |current|, cost)
  }

  predicate Exceeds(current: seq<Case>, c: Case, cost: Cost) {
    |current| >= MAX_BATCH_SIZE || (current != [] && Tokens(current, cost) + cost(c) > MAX_BATCH_INPUT_TOKENS)
  }

  lemma {:induction false} CloseBatch(current: seq<Case>, rest: seq<Case>, cost: Cost)
    requires current != [] && Filling(current, rest, cost)
    requires rest == [] || Exceeds(current, rest[0], cost)
    ensures Greedy(current + rest, cost) == [current] + Greedy(rest, cost)
  {
    assert (current + rest)[..|current|] == current && (current + rest)[|current|..] == rest;
  }

  lemma {:induction false} ExtendBatch(current: seq<Case>, rest: seq<Case>, cost: Cost)
    requires rest != [] && Filling(current, rest, cost) && !Exceeds(current, rest[0], cost)
    ensures Filling(current + [rest[0]], rest[1..], cost)
    ensures current + [rest[0]] + rest[1..] == current + rest
  {
    assert current + [rest[0]] + rest[1..] == current + rest;
    assert (current + rest)[..|current|] == current;
  }

  method BuildBatches(cases: seq<Case>, cost: Cost) returns (batches: seq<seq<Case>>)
    ensures batches == Greedy(cases, cost)
  {
    hide Greedy, Fill, Filling, Tokens;
    batches := [];
    var current: seq<Case>, currentTokens := [], 0;
    NoTokens(cost);
    assert current + cases[0..] == cases;
    StartBatch(cases, cost);
    for i := 0 to |cases|
      invariant currentTokens == Tokens(current, cost)
      invariant i > 0 ==> current != []
      invariant Filling(current, cases[i..], cost)
      invariant batches + Greedy(current + cases[i..], cost) == Greedy(cases, cost)
    {
      var c := cases[i];
      var caseTokens := cost(c);
      ghost var rest := cases[i..];
      assert rest[1..] == cases[i + 1..];
      var wouldExceedSize := |current| >= MAX_BATCH_SIZE;
      var wouldExceedTokens := current != [] && currentTokens + caseTokens > MAX_BATCH_INPUT_TOKENS;
      if wouldExceedSize || wouldExceedTokens {
        CloseBatch(current, rest, cost);
        assert batches + ([current] + Greedy(rest, cost)) == batches + [current] + Greedy(rest, cost);
        batches := batches + [current];
        current, currentTokens := [], 0;
        assert current + rest == rest;
        StartBatch(rest, cost);
      }
      ExtendBatch(current, rest, cost);
      TokensOneMore(current, c, cost);
      current := current + [c];
      currentTokens := currentTokens + caseTokens;
    }
    assert cases[|cases|..] == [];
    assert current + [] == current;
    if current != [] {
      CloseBatch(current, [], cost);
      batches := batches + [current];
    }
    NoCases(cost);
  }

  lemma {:induction false} NoTokens(cost: Cost)
    ensures Tokens([], cost) == 0
  {
  }

  lemma {:induction false} TokensOneMore(current: seq<Case>, c: Case, cost: Cost)
    ensures Tokens(current + [c], cost) == Tokens(current, cost) + cost(c)
  {
    assert (current + [c])[..|current|] == current;
  }

  lemma {:induction false} StartBatch(rest: seq<Case>, cost: Cost)
    ensures Filling([], rest, cost)
  {
  }

  lemma {:induction false} NoCases(cost: Cost)
    ensures Greedy([], cost) == []
  {
  }

  lemma {:induction false} TokensAppend(a: seq<Case>, b: seq<Case>, cost: Cost)
    ensures Tokens(a + b, cost) == Tokens(a, cost) + Tokens(b, cost)
  {
    if b == [] {
      assert a + b == a;
    } else {
      assert (a + b)[..|a + b| - 1] == a + b[..|b| - 1];
      TokensAppend(a, b[..|b| - 1], cost);
    }
  }

  /** Non-empty pieces of valid batches are valid. */
  lemma {:induction false} PieceIsValid(a: seq<Case>, b: seq<Case>, cost: Cost)
    requires ValidBatch(a + b, cost)
    ensures a != [] ==> ValidBatch(a, cost)
    ensures b != [] ==> ValidBatch(b, cost)
  {
    TokensAppend(a, b, cost);
  }

  lemma {:induction false} LongerIsInvalid(cases: seq<Case>, n: nat, k: nat, cost: Cost)
    requires n <= k <= |cases| && n >= 1 && !ValidBatch(cases[..n], cost)
    ensures !ValidBatch(cases[..k], cost)
  {
    assert cases[..k] == cases[..n] + cases[n..k];
    if ValidBatch(cases[..k], cost) {
      PieceIsValid(cases[..n], cases[n..k], cost);
    }
  }

  lemma {:induction false} OneMoreCase(cases: seq<Case>, n: nat, cost: Cost)
    requires 1 <= n < |cases|
    ensures ValidBatch(cases[..n + 1], cost) <==>
            n < MAX_BATCH_SIZE && Tokens(cases[..n], cost) + cost(cases[n]) <= MAX_BATCH_INPUT_TOKENS
  {
    assert cases[..n + 1][..n] == cases[..n];
  }

  /** The greedy batch is valid, and no longer prefix is. */
  lemma {:induction false} FillIsLongest(cases: seq<Case>, n: nat, cost: Cost)
    requires 1 <= n <= |cases| && ValidBatch(cases[..n], cost)
    ensures ValidBatch(cases[..Fill(cases, n, cost)], cost)
    ensures forall k :: Fill(cases, n, cost) < k <= |cases| ==> !ValidBatch(cases[..k], cost)
    decreases |cases| - n
  {
    hide ValidBatch, Tokens;
    var r := Fill(cases, n, cost);
    if n < |cases| {
      OneMoreCase(cases, n, cost);
      if r > n {
        FillIsLongest(cases, n + 1, cost);
      } else {
        forall k | n < k <= |cases| ensures !ValidBatch(cases[..k], cost) {
          LongerIsInvalid(cases, n + 1, k, cost);
        }
      }
    }
  }

  lemma {:induction false} GreedyPartitions(cases: seq<Case>, cost: Cost)
    ensures Partition(Greedy(cases, cost), cases, cost)
    decreases |cases|
  {
    if cases != [] {
      var k := Fill(cases, 1, cost);
      FillIsLongest(cases, 1, cost);
      GreedyPartitions(cases[k..], cost);
      assert cases[..k] + cases[k..] == cases;
    }
  }

  function Chars(batch: seq<Case>, w: Wire): nat {
    if batch == [] then 0 else Chars(batch[..|batch| - 1], w) + |w.serialize(batch[|batch| - 1])|
  }

  lemma {:induction false} CharsWithinTokens(batch: seq<Case>, w: Wire)
    ensures Chars(batch, w) <= 4 * Tokens(batch, CaseTokens(w))
  {
    hide EstimateTokens;
    if batch != [] {
      CharsWithinTokens(batch[..|batch| - 1], w);
    }
  }

  /**
   * With the token estimate as cost, a batch of two cases or more has at most four characters per token
   * of the budget.
   */
  lemma {:induction false} BatchTextIsBounded(cases: seq<Case>, w: Wire, i: nat)
    requires i < |Greedy(cases, CaseTokens(w))|
    ensures var batch := Greedy(cases, CaseTokens(w))[i];
            |batch| >= 2 ==> Chars(batch, w) <= 4 * MAX_BATCH_INPUT_TOKENS
  {
    hide Greedy, Tokens, Chars, CaseTokens;
    GreedyPartitions(cases, CaseTokens(w));
    CharsWithinTokens(Greedy(cases, CaseTokens(w))[i], w);
  }

  /** Dropping the first `k` cases of a partition leaves a partition with no more batches. */
  lemma {:induction false} Trim(batches: seq<seq<Case>>, cases: seq<Case>, k: nat, cost: Cost)
    returns (rest: seq<seq<Case>>)
    requires Partition(batches, cases, cost) && k <= |cases|
    ensures Partition(rest, cases[k..], cost) && |rest| <= |batches|
    decreases |batches|
  {
    if k == 0 {
      assert cases[0..] == cases;
      rest := batches;
    } else {
      var b := batches[0];
      assert cases == b + Flatten(batches[1..]);
      assert Partition(batches[1..], Flatten(batches[1..]), cost);
      if k < |b| {
        assert b == b[..k] + b[k..];
        PieceIsValid(b[..k], b[k..], cost);
        rest := [b[k..]] + batches[1..];
        assert rest[1..] == batches[1..];
        assert cases[k..] == b[k..] + Flatten(batches[1..]);
      } else {
        assert cases[k..] == Flatten(batches[1..])[k - |b|..];
        rest := Trim(batches[1..], Flatten(batches[1..]), k - |b|, cost);
      }
    }
  }

  /** No order-preserving partition into valid batches has fewer batches than the greedy one. */
  lemma {:induction false} GreedyIsOptimal(cases: seq<Case>, batches: seq<seq<Case>>, cost: Cost)
    requires Partition(batches, cases, cost)
    ensures |Greedy(cases, cost)| <= |batches|
    decreases |cases|
  {
    if cases != [] {
      var k := Fill(cases, 1, cost);
      var b := batches[0];
      assert cases == b + Flatten(batches[1..]);
      assert cases[..|b|] == b;
      FillIsLongest(cases, 1, cost);
      assert |b| <= k;
      assert Partition(batches[1..], cases[|b|..], cost);
      var rest := Trim(batches[1..], cases[|b|..], k - |b|, cost);
      assert cases[|b|..][k - |b|..] == cases[k..];
      GreedyIsOptimal(cases[k..], rest, cost);
    }
  }

  // ---------------------------------------------------------------- reviewing a batch

  datatype Advice = Advice(caseId: string, entryId: string, issueCode: string, text: string)

  /** What comes back for a batch: no answer, an answer that is not the requested JSON, or advice. */
  datatype Reply = RequestFailed | Malformed | Advised(advice: seq<Advice>)

  datatype ReviewError = ModelError | StructureError

  datatype Review = Reviewed(advice: seq<Advice>) | Failed(error: ReviewError)

  /** `reply` is the model, per batch and attempt; `accepts` the checks on a suggestion's content. */
  datatype Reviewer = Reviewer(
    reply: (seq<Case>, nat) -> Reply,
    accepts: (Advice, Case) -> bool)

  predicate Fits(r: Reviewer, a: Advice, c: Case) {
    a.entryId == c.entryId && a.issueCode == c.issueCode && r.accepts(a, c)
  }

  /** The advice answers the batch: each case once, nothing else, every suggestion acceptable. */
  ghost predicate Answers(r: Reviewer, batch: seq<Case>, advice: seq<Advice>) {
    && (forall i :: 0 <= i < |advice| ==> AnswersOne(r, batch, advice[i]))
    && (forall i, j :: 0 <= i < j < |advice| ==> advice[i].caseId != advice[j].caseId)
    && (forall k :: 0 <= k < |batch| ==> HasAdvice(advice, batch[k].caseId))
  }

  ghost predicate AnswersOne(r: Reviewer, batch: seq<Case>, a: Advice) {
    exists k :: 0 <= k < |batch| && batch[k].caseId == a.caseId && Fits(r, a, batch[k])
  }

  ghost predicate HasAdvice(advice: seq<Advice>, id: string) {
    exists i :: 0 <= i < |advice| && advice[i].caseId == id
  }

  /** One advice for each case of the batch, in the order of the batch. */
  ghost predicate Aligned(r: Reviewer, batch: seq<Case>, advice: seq<Advice>) {
    |advice| == |batch| &&
    forall k :: 0 <= k < |batch| ==> advice[k].caseId == batch[k].caseId && Fits(r, advice[k], batch[k])
  }

  /** A suggestion for the case with all that the checks ask for. */
  ghost predicate GoodFor(r: Reviewer, a: Advice, c: Case) {
    a.caseId == c.caseId && a.entryId == c.entryId && a.issueCode == c.issueCode && r.accepts(a, c)
  }

  ghost predicate HasGoodAdvice(r: Reviewer, advice: seq<Advice>, c: Case) {
    exists i :: 0 <= i < |advice| && GoodFor(r, advice[i], c)
  }

  function Ids(ids: seq<string>): (s: set<string>)
    ensures forall id :: id in s <==> id in ids
  {
    set id | id in ids
  }

  predicate AllDifferent(ids: seq<string>) {
    forall i, j :: 0 <= i < j < |ids| ==> ids[i] != ids[j]
  }

  lemma {:induction false} IdCount(ids: seq<string>)
    ensures |Ids(ids)| <= |ids| && (|Ids(ids)| == |ids| <==> AllDifferent(ids))
  {
    hide Ids;
    if ids == [] {
      assert Ids(ids) == {};
    } else {
      var front, last := ids[..|ids| - 1], ids[|ids| - 1];
      assert ids == front + [last];
      IdCount(front);
      if last in front {
        assert Ids(ids) == Ids(front);
        var i :| 0 <= i < |front| && front[i] == last;
        assert ids[i] == ids[|ids| - 1];
      } else {
        assert Ids(ids) - {last} == Ids(front) && last in Ids(ids);
        assert AllDifferent(front) ==> AllDifferent(ids);
      }
    }
  }

  function AdviceIds(advice: seq<Advice>): (ids: seq<string>)
    ensures |ids| == |advice| && forall i :: 0 <= i < |advice| ==> ids[i] == advice[i].caseId
  {
    seq(|advice|, i requires 0 <= i < |advice| => advice[i].caseId)
  }

  function CaseIds(batch: seq<Case>): (ids: seq<string>)
    ensures |ids| == |batch| && forall k :: 0 <= k < |batch| ==> ids[k] == batch[k].caseId
  {
    seq(|batch|, k requires 0 <= k < |batch| => batch[k].caseId)
  }

  /** Advice answers a batch exactly when there is as much of it as there are cases, and each has a good one. */
  lemma {:induction false} AnswersIff(r: Reviewer, batch: seq<Case>, advice: seq<Advice>)
    requires DistinctCases(batch)
    ensures Answers(r, batch, advice) <==>
            |advice| == |batch| && forall k :: 0 <= k < |batch| ==> HasGoodAdvice(r, advice, batch[k])
  {
    if Answers(r, batch, advice) {
      AnswerIsComplete(r, batch, advice);
    }
    if |advice| == |batch| && forall k :: 0 <= k < |batch| ==> HasGoodAdvice(r, advice, batch[k]) {
      CompleteIsAnswer(r, batch, advice);
    }
  }

  lemma {:induction false} AnswerIsComplete(r: Reviewer, batch: seq<Case>, advice: seq<Advice>)
    requires DistinctCases(batch) && Answers(r, batch, advice)
    ensures |advice| == |batch| && forall k :: 0 <= k < |batch| ==> HasGoodAdvice(r, advice, batch[k])
  {
    hide Fits;
    forall id ensures id in AdviceIds(advice) <==> id in CaseIds(batch) {
      if id in AdviceIds(advice) {
        var i :| 0 <= i < |advice| && AdviceIds(advice)[i] == id;
        assert AnswersOne(r, batch, advice[i]);
        var k :| 0 <= k < |batch| && batch[k].caseId == advice[i].caseId;
        assert CaseIds(batch)[k] == id;
      }
      if id in CaseIds(batch) {
        var k :| 0 <= k < |batch| && CaseIds(batch)[k] == id;
        assert HasAdvice(advice, batch[k].caseId);
        var i :| 0 <= i < |advice| && advice[i].caseId == id;
        assert AdviceIds(advice)[i] == id;
      }
    }
    assert Ids(AdviceIds(advice)) == Ids(CaseIds(batch));
    IdCount(AdviceIds(advice));
    IdCount(CaseIds(batch));
    EachHasGood(r, batch, advice);
  }

  lemma {:induction false} EachHasGood(r: Reviewer, batch: seq<Case>, advice: seq<Advice>)
    requires DistinctCases(batch) && Answers(r, batch, advice)
    ensures forall k :: 0 <= k < |batch| ==> HasGoodAdvice(r, advice, batch[k])
  {
    forall k | 0 <= k < |batch| ensures HasGoodAdvice(r, advice, batch[k]) {
      var i :| 0 <= i < |advice| && advice[i].caseId == batch[k].caseId;
      assert AnswersOne(r, batch, advice[i]);
      assert GoodFor(r, advice[i], batch[k]);
    }
  }

  lemma {:induction false} CompleteIsAnswer(r: Reviewer, batch: seq<Case>, advice: seq<Advice>)
    requires DistinctCases(batch) && |advice| == |batch|
    requires forall k :: 0 <= k < |batch| ==> HasGoodAdvice(r, advice, batch[k])
    ensures Answers(r, batch, advice)
  {
    hide Fits;
    forall id | id in CaseIds(batch) ensures id in AdviceIds(advice) {
      var k :| 0 <= k < |batch| && CaseIds(batch)[k] == id;
      assert HasGoodAdvice(r, advice, batch[k]);
      var i :| 0 <= i < |advice| && GoodFor(r, advice[i], batch[k]);
      assert AdviceIds(advice)[i] == id;
    }
    IdCount(AdviceIds(advice));
    IdCount(CaseIds(batch));
    assert AllDifferent(CaseIds(batch));
    SubsetSameSize(Ids(CaseIds(batch)), Ids(AdviceIds(advice)));
    AllAnswer(r, batch, advice);
  }

  lemma {:induction false} AllAnswer(r: Reviewer, batch: seq<Case>, advice: seq<Advice>)
    requires AllDifferent(AdviceIds(advice)) && Ids(CaseIds(batch)) == Ids(AdviceIds(advice))
    requires forall k :: 0 <= k < |batch| ==> HasGoodAdvice(r, advice, batch[k])
    ensures Answers(r, batch, advice)
  {
    forall i | 0 <= i < |advice| ensures AnswersOne(r, batch, advice[i]) {
      assert AdviceIds(advice)[i] in Ids(AdviceIds(advice));
      var k :| 0 <= k < |batch| && CaseIds(batch)[k] == AdviceIds(advice)[i];
      assert HasGoodAdvice(r, advice, batch[k]);
      var j :| 0 <= j < |advice| && GoodFor(r, advice[j], batch[k]);
      assert AdviceIds(advice)[j] == AdviceIds(advice)[i];
      assert j == i;
    }
    forall k | 0 <= k < |batch| ensures HasAdvice(advice, batch[k].caseId) {
      assert HasGoodAdvice(r, advice, batch[k]);
    }
    forall i, j | 0 <= i < j < |advice| ensures advice[i].caseId != advice[j].caseId {
      assert AdviceIds(advice)[i] != AdviceIds(advice)[j];
    }
  }

  lemma {:induction false} SubsetSameSize(a: set<string>, b: set<string>)
    requires a <= b && |b| <= |a|
    ensures a == b
  {
    assert b == a + (b - a);
  }

  /** The cases of a batch by their id. */
  method CasesById(batch: seq<Case>) returns (expected: map<string, Case>)
    requires DistinctCases(batch)
    ensures ById(batch, expected)
  {
    expected := map[];
    for k := 0 to |batch|
      invariant ById(batch[..k], expected)
    {
      assert batch[..k + 1] == batch[..k] + [batch[k]];
      expected := expected[batch[k].caseId := batch[k]];
    }
    assert batch[..|batch|] == batch;
  }

  ghost predicate ById(batch: seq<Case>, expected: map<string, Case>) {
    && (forall k :: 0 <= k < |batch| ==> batch[k].caseId in expected && expected[batch[k].caseId] == batch[k])
    && (forall id :: id in expected ==> expected[id] in batch && expected[id].caseId == id)
  }

  /** The part of the advice seen so far, filed by case id. */
  ghost predicate Filed(r: Reviewer, batch: seq<Case>, advice: seq<Advice>, byId: map<string, Advice>) {
    && (forall id :: id in byId <==> HasAdvice(advice, id))
    && (forall id :: id in byId ==> byId[id] in advice && byId[id].caseId == id)
    && (forall j :: 0 <= j < |advice| ==> AnswersOne(r, batch, advice[j]))
    && (forall j, k :: 0 <= j < k < |advice| ==> advice[j].caseId != advice[k].caseId)
  }

  lemma {:induction false} FileOneMore(r: Reviewer, batch: seq<Case>, advice: seq<Advice>, byId: map<string,
                                       Advice>, a: Advice)
    requires Filed(r, batch, advice, byId) && AnswersOne(r, batch, a) && a.caseId !in byId
    ensures Filed(r, batch, advice + [a], byId[a.caseId := a])
  {
    HasAdviceGrows(advice, a);
    forall j | 0 <= j < |advice| ensures advice[j].caseId != a.caseId {
      assert HasAdvice(advice, advice[j].caseId);
    }
  }

  lemma {:induction false} HasAdviceGrows(advice: seq<Advice>, a: Advice)
    ensures forall id :: HasAdvice(advice + [a], id) <==> HasAdvice(advice, id) || a.caseId == id
  {
    forall id | HasAdvice(advice, id) || a.caseId == id ensures HasAdvice(advice + [a], id) {
      if a.caseId == id {
        assert (advice + [a])[|advice|].caseId == id;
      } else {
        var i :| 0 <= i < |advice| && advice[i].caseId == id;
        assert (advice + [a])[i].caseId == id;
      }
    }
  }

  /** Files the advice; None for an unknown case, a repeated case or an unacceptable suggestion. */
  method FileAdvice(r: Reviewer, batch: seq<Case>, advice: seq<Advice>) returns (filed: Option<map<string, Advice>>)
    requires DistinctCases(batch)
    ensures filed.Some? ==> Filed(r, batch, advice, filed.value)
    ensures filed.None? ==> !Answers(r, batch, advice)
  {
    var expected := CasesById(batch);
    var byId: map<string, Advice> := map[];
    for i := 0 to |advice|
      invariant Filed(r, batch, advice[..i], byId)
    {
      var a := advice[i];
      assert advice[..i + 1] == advice[..i] + [a];
      if a.caseId !in expected {
        return None;
      }
      if a.caseId in byId {
        var j :| 0 <= j < i && advice[..i][j].caseId == a.caseId;
        assert advice[j].caseId == advice[i].caseId;
        return None;
      }
      if !Fits(r, a, expected[a.caseId]) {
        return None;
      }
      FileOneMore(r, batch, advice[..i], byId, a);
      byId := byId[a.caseId := a];
    }
    assert advice[..|advice|] == advice;
    return Some(byId);
  }

  ghost function AdviceFor(advice: seq<Advice>, id: string): (a: Advice)
    requires HasAdvice(advice, id)
    ensures a in advice && a.caseId == id
  {
    var i :| 0 <= i < |advice| && advice[i].caseId == id;
    advice[i]
  }

  /** The advice in the order of the batch. */
  ghost function Alignment(batch: seq<Case>, advice: seq<Advice>): seq<Advice>
    requires forall k :: 0 <= k < |batch| ==> HasAdvice(advice, batch[k].caseId)
  {
    seq(|batch|, k requires 0 <= k < |batch| => AdviceFor(advice, batch[k].caseId))
  }

  /** One attempt's advice, put into the order of the batch; None is a structured-output error. */
  method AlignAdvice(r: Reviewer, batch: seq<Case>, advice: seq<Advice>) returns (result: Option<seq<Advice>>)
    requires DistinctCases(batch)
    ensures result.Some? <==> Answers(r, batch, advice)
    ensures result.Some? ==> result.value == Alignment(batch, advice)
  {
    var filed := FileAdvice(r, batch, advice);
    if filed.None? {
      return None;
    }
    var byId := filed.value;
    var aligned: seq<Advice> := [];
    for k := 0 to |batch|
      invariant |aligned| == k
      invariant forall j :: 0 <= j < k ==> batch[j].caseId in byId && aligned[j] == byId[batch[j].caseId]
    {
      if batch[k].caseId !in byId {
        assert !HasAdvice(advice, batch[k].caseId);
        return None;
      }
      aligned := aligned + [byId[batch[k].caseId]];
    }
    forall k | 0 <= k < |batch| ensures byId[batch[k].caseId] == AdviceFor(advice, batch[k].caseId) {
      assert byId[batch[k].caseId] in advice && AdviceFor(advice, batch[k].caseId) in advice;
    }
    return Some(aligned);
  }

  // ---------------------------------------------------------------- retry and concurrency

  /** A batch's outcome: the first answer of at most two attempts; only structural errors are retried. */
  ghost function Outcome(r: Reviewer, batch: seq<Case>, attempt: nat): Review
    decreases MAX_STRUCTURED_RESPONSE_ATTEMPTS - attempt
  {
    if attempt >= MAX_STRUCTURED_RESPONSE_ATTEMPTS then Failed(StructureError)
    else
      match r.reply(batch, attempt)
      case RequestFailed => Failed(ModelError)
      case Malformed => Outcome(r, batch, attempt + 1)
      case Advised(advice) =>
        if Answers(r, batch, advice) then Reviewed(Alignment(batch, advice)) else Outcome(r, batch, attempt + 1)
  }

  method ReviewBatch(r: Reviewer, batch: seq<Case>) returns (result: Review)
    requires DistinctCases(batch)
    ensures result == Outcome(r, batch, 0)
  {
    for attempt := 0 to MAX_STRUCTURED_RESPONSE_ATTEMPTS
      invariant Outcome(r, batch, attempt) == Outcome(r, batch, 0)
    {
      match r.reply(batch, attempt) {
        case RequestFailed =>
          return Failed(ModelError);
        case Malformed =>
        case Advised(advice) =>
          var aligned := AlignAdvice(r, batch, advice);
          if aligned.Some? {
            return Reviewed(aligned.value);
          }
      }
    }
    return Failed(StructureError);
  }

  lemma {:induction false} OutcomeAligned(r: Reviewer, batch: seq<Case>, attempt: nat)
    requires DistinctCases(batch)
    ensures Outcome(r, batch, attempt).Reviewed? ==> Aligned(r, batch, Outcome(r, batch, attempt).advice)
    decreases MAX_STRUCTURED_RESPONSE_ATTEMPTS - attempt
  {
    if attempt < MAX_STRUCTURED_RESPONSE_ATTEMPTS {
      OutcomeAligned(r, batch, attempt + 1);
      if r.reply(batch, attempt).Advised? && Answers(r, batch, r.reply(batch, attempt).advice) {
      }
    }
  }

  /** The attempt's answer is no good, so that the next attempt is made. */
  ghost predicate Rejected(r: Reviewer, batch: seq<Case>, attempt: nat) {
    match r.reply(batch, attempt)
    case RequestFailed => false
    case Malformed => true
    case Advised(advice) => !Answers(r, batch, advice)
  }

  /** The attempt is the first one not rejected. */
  ghost predicate Decides(r: Reviewer, batch: seq<Case>, attempt: nat) {
    attempt < MAX_STRUCTURED_RESPONSE_ATTEMPTS && !Rejected(r, batch, attempt) &&
    forall a: nat :: a < attempt ==> Rejected(r, batch, a)
  }

  lemma {:induction false} OutcomeFrom(r: Reviewer, batch: seq<Case>, attempt: nat)
    requires attempt <= MAX_STRUCTURED_RESPONSE_ATTEMPTS && forall a: nat :: a < attempt ==> Rejected(r, batch, a)
    ensures Outcome(r, batch, attempt) == Failed(StructureError) ==>
              forall a: nat :: a < MAX_STRUCTURED_RESPONSE_ATTEMPTS ==> Rejected(r, batch, a)
    ensures Outcome(r, batch, attempt) == Failed(ModelError) ==>
              exists a: nat :: Decides(r, batch, a) && r.reply(batch, a).RequestFailed?
    ensures Outcome(r, batch, attempt).Reviewed? ==>
              exists a: nat :: Decides(r, batch, a) && AnsweredBy(r, batch, a, Outcome(r, batch, attempt).advice)
    decreases MAX_STRUCTURED_RESPONSE_ATTEMPTS - attempt
  {
    hide Answers;
    if attempt < MAX_STRUCTURED_RESPONSE_ATTEMPTS {
      if Rejected(r, batch, attempt) {
        OutcomeFrom(r, batch, attempt + 1);
      } else {
        assert Decides(r, batch, attempt);
        if r.reply(batch, attempt).Advised? {
          TakenFromAnswer(r, batch, r.reply(batch, attempt).advice);
        }
      }
    }
  }

  /** The advice is that of the attempt's answer, in the order of the batch. */
  ghost predicate AnsweredBy(r: Reviewer, batch: seq<Case>, attempt: nat, advice: seq<Advice>) {
    && r.reply(batch, attempt).Advised? && Answers(r, batch, r.reply(batch, attempt).advice)
    && |advice| == |batch|
    && forall k :: 0 <= k < |batch| ==>
         advice[k] in r.reply(batch, attempt).advice && advice[k].caseId == batch[k].caseId
  }

  lemma {:induction false} TakenFromAnswer(r: Reviewer, batch: seq<Case>, answer: seq<Advice>)
    requires Answers(r, batch, answer)
    ensures var advice := Alignment(batch, answer);
            |advice| == |batch| &&
            forall k :: 0 <= k < |batch| ==> advice[k] in answer && advice[k].caseId == batch[k].caseId
  {
  }

  /**
   * How the review of a batch ends: with a model error when a request fails, without another attempt; with a
   * structural error when both answers are rejected; else with the advice of the first good answer.
   */
  lemma {:induction false} OutcomeIff(r: Reviewer, batch: seq<Case>)
    ensures Outcome(r, batch, 0) == Failed(ModelError) <==>
            exists a: nat :: Decides(r, batch, a) && r.reply(batch, a).RequestFailed?
    ensures Outcome(r, batch, 0) == Failed(StructureError) <==>
            forall a: nat :: a < MAX_STRUCTURED_RESPONSE_ATTEMPTS ==> Rejected(r, batch, a)
    ensures Outcome(r, batch, 0).Reviewed? <==> exists a: nat :: Decides(r, batch, a) && r.reply(batch, a).Advised?
    ensures Outcome(r, batch, 0).Reviewed? ==>
              exists a: nat :: Decides(r, batch, a) && AnsweredBy(r, batch, a, Outcome(r, batch, 0).advice)
  {
    hide Outcome, Answers;
    OutcomeFrom(r, batch, 0);
    forall a: nat, b: nat | Decides(r, batch, a) && Decides(r, batch, b) ensures a == b {
      assert a < b ==> Rejected(r, batch, a);
      assert b < a ==> Rejected(r, batch, b);
    }
    match Outcome(r, batch, 0)
    case Failed(ModelError) =>
      var a: nat :| Decides(r, batch, a) && r.reply(batch, a).RequestFailed?;
    case Failed(StructureError) =>
    case Reviewed(advice) =>
      var a: nat :| Decides(r, batch, a) && AnsweredBy(r, batch, a, advice);
  }

  /** The batches' outcomes taken in order: the first failure, or all advice joined. */
  ghost function ReviewOf(r: Reviewer, batches: seq<seq<Case>>): Review {
    if batches == [] then Reviewed([])
    else
      var first := Outcome(r, batches[0], 0);
      var rest := ReviewOf(r, batches[1..]);
      if first.Failed? then first
      else if rest.Failed? then rest
      else Reviewed(first.advice + rest.advice)
  }

  lemma {:induction false} NothingReviewed(r: Reviewer)
    ensures ReviewOf(r, []) == Reviewed([])
  {
  }

  lemma {:induction false} ReviewStep(r: Reviewer, batches: seq<seq<Case>>, i: nat)
    requires i < |batches|
    ensures ReviewOf(r, batches[i..]) ==
            if Outcome(r, batches[i], 0).Failed? then Outcome(r, batches[i], 0)
            else Joined(Outcome(r, batches[i], 0).advice, ReviewOf(r, batches[i + 1..]))
  {
    assert batches[i..][1..] == batches[i + 1..];
  }

  /** Reviews the batches one after the other; the first failure ends the review. */
  method ReviewSequentially(r: Reviewer, batches: seq<seq<Case>>) returns (result: Review)
    requires forall i :: 0 <= i < |batches| ==> DistinctCases(batches[i])
    ensures result == ReviewOf(r, batches)
  {
    hide Outcome, ReviewOf;
    var advice: seq<Advice> := [];
    NothingReviewed(r);
    assert batches[0..] == batches;
    for i := 0 to |batches|
      invariant ReviewOf(r, batches) == Joined(advice, ReviewOf(r, batches[i..]))
    {
      ReviewStep(r, batches, i);
      var one := ReviewBatch(r, batches[i]);
      if one.Failed? {
        return one;
      }
      advice := advice + one.advice;
    }
    assert batches[|batches|..] == [];
    return Reviewed(advice);
  }

  function Joined(advice: seq<Advice>, rest: Review): Review {
    if rest.Failed? then rest else Reviewed(advice + rest.advice)
  }

  /** Reviews all batches, finishing in any order, and then reads the results in batch order. */
  method ReviewConcurrently(r: Reviewer, batches: seq<seq<Case>>) returns (result: Review)
    requires forall i :: 0 <= i < |batches| ==> DistinctCases(batches[i])
    ensures result == ReviewOf(r, batches)
  {
    hide Outcome, ReviewOf;
    var results: map<nat, Review> := map[];
    var waiting := Range(|batches|);
    while waiting != {}
      invariant forall i :: i in waiting ==> i < |batches|
      invariant forall i: nat :: i < |batches| && i !in waiting ==>
                  i in results && results[i] == Outcome(r, batches[i], 0)
      decreases waiting
    {
      var i :| i in waiting;
      var one := ReviewBatch(r, batches[i]);
      results := results[i := one];
      waiting := waiting - {i};
    }
    NothingReviewed(r);
    assert batches[0..] == batches;
    var advice: seq<Advice> := [];
    for i := 0 to |batches|
      invariant ReviewOf(r, batches) == Joined(advice, ReviewOf(r, batches[i..]))
    {
      ReviewStep(r, batches, i);
      if results[i].Failed? {
        return results[i];
      }
      advice := advice + results[i].advice;
    }
    assert batches[|batches|..] == [];
    return Reviewed(advice);
  }

  /** The whole review: the result is the same for every concurrency limit and completion order. */
  method ReviewReport(r: Reviewer, issues: seq<Issue>, w: Wire, concurrencyLimit: int) returns (result: Review)
    ensures result == ReviewOf(r, Greedy(Cases(issues), CaseTokens(w)))
  {
    var cases := BuildCases(issues);
    var cost := CaseTokens(w);
    var batches := BuildBatches(cases, cost);
    CasesCover(issues);
    GreedyPartitions(cases, cost);
    PartsAreDistinct(batches);
    if |batches| == 0 {
      return Reviewed([]);
    }
    var limit := if concurrencyLimit < 1 then 1 else concurrencyLimit;
    var workers := if limit < |batches| then limit else |batches|;
    if workers == 1 {
      result := ReviewSequentially(r, batches);
    } else {
      result := ReviewConcurrently(r, batches);
    }
  }

  /** The review fails as its first failing batch does, and else has the advice of all batches in their order. */
  lemma {:induction false} ReviewIff(r: Reviewer, batches: seq<seq<Case>>, error: ReviewError)
    ensures ReviewOf(r, batches) == Failed(error) <==> exists i: nat :: FailsFirst(r, batches, i, error)
    ensures ReviewOf(r, batches).Reviewed? <==>
            forall i :: 0 <= i < |batches| ==> Outcome(r, batches[i], 0).Reviewed?
    ensures ReviewOf(r, batches).Reviewed? ==>
              ReviewOf(r, batches).advice ==
              Flatten(seq(|batches|, (i: nat) requires i < |batches| =>
                if Outcome(r, batches[i], 0).Reviewed? then Outcome(r, batches[i], 0).advice else []))
  {
    hide Outcome;
    if batches != [] {
      var rest := batches[1..];
      ReviewIff(r, rest, error);
      assert forall i :: 0 <= i < |rest| ==> rest[i] == batches[i + 1];
      var parts := seq(|batches|, (i: nat) requires i < |batches| =>
        if Outcome(r, batches[i], 0).Reviewed? then Outcome(r, batches[i], 0).advice else []);
      assert parts[1..] == seq(|rest|, (i: nat) requires i < |rest| =>
        if Outcome(r, rest[i], 0).Reviewed? then Outcome(r, rest[i], 0).advice else []);
      if i: nat :| FailsFirst(r, rest, i, error) {
        assert Outcome(r, batches[0], 0).Reviewed? ==> FailsFirst(r, batches, i + 1, error);
      }
      if i: nat :| FailsFirst(r, batches, i, error) {
        assert i > 0 ==> FailsFirst(r, rest, i - 1, error);
      }
      assert Outcome(r, batches[0], 0) == Failed(error) ==> FailsFirst(r, batches, 0, error);
    }
  }

  ghost predicate FailsFirst(r: Reviewer, batches: seq<seq<Case>>, i: nat, error: ReviewError) {
    i < |batches| && Outcome(r, batches[i], 0) == Failed(error) &&
    forall j :: 0 <= j < i ==> Outcome(r, batches[j], 0).Reviewed?
  }

  lemma {:induction false} PartsAreDistinct(batches: seq<seq<Case>>)
    requires DistinctCases(Flatten(batches))
    ensures forall i :: 0 <= i < |batches| ==> DistinctCases(batches[i])
  {
    if batches != [] {
      var all := Flatten(batches);
      assert all == batches[0] + Flatten(batches[1..]);
      assert forall i :: 0 <= i < |batches[0]| ==> all[i] == batches[0][i];
      assert forall i :: 0 <= i < |Flatten(batches[1..])| ==> all[|batches[0]| + i] == Flatten(batches[1..])[i];
      PartsAreDistinct(batches[1..]);
    }
  }

  lemma {:induction false} ReviewAligned(r: Reviewer, batches: seq<seq<Case>>)
    requires forall i :: 0 <= i < |batches| ==> DistinctCases(batches[i])
    ensures ReviewOf(r, batches).Reviewed? ==> Aligned(r, Flatten(batches), ReviewOf(r, batches).advice)
  {
    if batches != [] {
      OutcomeAligned(r, batches[0], 0);
      ReviewAligned(r, batches[1..]);
    }
  }

  /** A successful review returns exactly one acceptable advice for each case, in the order of the cases. */
  lemma {:induction false} SuccessfulReviewIsAligned(r: Reviewer, issues: seq<Issue>, cost: Cost)
    ensures var review := ReviewOf(r, Greedy(Cases(issues), cost));
            review.Reviewed? ==> Aligned(r, Cases(issues), review.advice)
    ensures var cases, review := Cases(issues), ReviewOf(r, Greedy(Cases(issues), cost));
            review.Reviewed? ==>
              && |review.advice| == |cases|
              && forall k :: 0 <= k < |cases| ==>
                   && review.advice[k].caseId == cases[k].caseId && review.advice[k].entryId == cases[k].entryId
                   && review.advice[k].issueCode == cases[k].issueCode && r.accepts(review.advice[k], cases[k])
  {
    CasesCover(issues);
    GreedyPartitions(Cases(issues), cost);
    PartsAreDistinct(Greedy(Cases(issues), cost));
    ReviewAligned(r, Greedy(Cases(issues), cost));
  }
}
