/**
 * Glossary term matching: the match tiers of an entry, the fuzzy confidences, and the
 * two-stage deduplication (best per entry id, then best per normalized source term).
 */
module TermMatching {
  import opened BatchTypes
  import opened EditDistance
  import opened Strings

  datatype Kind = Exact | Phonetic | Variant | Abbreviation | Partial | Fuzzy

  datatype Match =
    Match(source: string, target: string, id: string, kind: Kind, confidence: real, priority: int)

  datatype Entry = Entry(
    id: string, source: string, target: string,
    variants: seq<string>, abbreviations: seq<string>, priority: int)

  /**
   * The text to match against (already lower-case) and the helpers that are foreign here: case
   * mapping, phonetics, the abbreviation search, the tokenizer, and the normalization of a term.
   */
  datatype Matcher = Matcher(
    text: string,
    isCjk: bool,
    strict: bool,
    lower: string -> string,
    sounds: string -> bool,
    abbreviated: string -> bool,
    tokens: string -> seq<string>,
    normal: string -> string)

  predicate Contains(hay: string, needle: string) {
    exists i: nat :: i <= |hay| && OccursAt(hay, needle, i)
  }

  /** The needle stands somewhere in the text, with a text before and a text behind it. */
  lemma {:induction false} ContainsIff(hay: string, needle: string)
    ensures Contains(hay, needle) <==> exists before, behind :: hay == before + (needle + behind)
  {
    if Contains(hay, needle) {
      var i: nat :| i <= |hay| && OccursAt(hay, needle, i);
      assert hay == hay[..i] + (needle + hay[i + |needle|..]);
    }
    if before, behind :| hay == before + (needle + behind) {
      assert OccursAt(hay, needle, |before|);
    }
  }

  // ---------------------------------------------------------------- fuzzy confidence

  function MaxDistance(word: string): (r: nat)
    ensures r >= 1
  {
    if |word| / 4 < 1 then 1 else |word| / 4
  }

  predicate SimilarWord(word1: string, word2: string) {
    |word1| >= 3 && |word2| >= 3 && Dist(word1, word2) <= MaxDistance(word1)
  }

  function SingleWordFuzzy(source: string, text: string): Option<real> {
    if SimilarWord(source, text)
    then Some(0.6 - (Dist(source, text) as real / MaxDistance(source) as real) * 0.3)
    else None
  }

  /** A source token is found when some text token equals it or is similar to it. */
  predicate TokenFound(token: string, textTokens: seq<string>) {
    |token| >= 2 && exists k :: 0 <= k < |textTokens| && |textTokens[k]| >= 2 &&
                                (token == textTokens[k] || SimilarWord(token, textTokens[k]))
  }

  function FoundCount(sourceTokens: seq<string>, textTokens: seq<string>): (r: nat)
    ensures r <= |sourceTokens|
  {
    if sourceTokens == [] then 0
    else FoundCount(Front(sourceTokens), textTokens) + (if TokenFound(Last(sourceTokens), textTokens) then 1 else 0)
  }

  function MultiWordFuzzy(sourceTokens: seq<string>, textTokens: seq<string>): Option<real> {
    var matched := FoundCount(sourceTokens, textTokens);
    if matched > 0 && matched as real / |sourceTokens| as real > 0.5
    then Some(0.3 + (matched as real / |sourceTokens| as real) * 0.3)
    else None
  }

  function FuzzyMatch(m: Matcher, source: string): Option<real> {
    if m.strict then None
    else if |m.tokens(source)| == 1 then SingleWordFuzzy(source, m.text)
    else MultiWordFuzzy(m.tokens(source), m.tokens(m.text))
  }

  /** The confidence of the partial tier needs a non-empty text; the source's test implies that. */
  function PartialMatch(m: Matcher, source: string): Option<(Kind, real)> {
    var fuzzy := FuzzyMatch(m, source);
    if |source| > 3 && Contains(m.text, m.lower(source)) && |m.text| > 0 &&
       |source| as real / |m.text| as real > 0.3
    then Some((Partial, 0.7 + (|source| as real / |m.text| as real) * 0.2))
    else if fuzzy.Some? then Some((Fuzzy, fuzzy.value))
    else None
  }

  method IsSimilarWord(word1: string, word2: string) returns (similar: bool)
    ensures similar == SimilarWord(word1, word2)
    ensures similar <==> |word1| >= 3 && |word2| >= 3 && (Dist(word1, word2) <= 1 || 4 * Dist(word1, word2) <= |word1|)
  {
    if |word1| < 3 || |word2| < 3 {
      return false;
    }
    var distance := Levenshtein(word1, word2);
    var maxDistance := if 1 >= |word1| / 4 then 1 else |word1| / 4;
    return distance <= maxDistance;
  }

  method CheckMultiWord(sourceTokens: seq<string>, textTokens: seq<string>) returns (r: Option<real>)
    ensures r == MultiWordFuzzy(sourceTokens, textTokens)
  {
    var matched := 0;
    for i := 0 to |sourceTokens|
      invariant matched == FoundCount(sourceTokens[..i], textTokens)
    {
      assert Front(sourceTokens[..i + 1]) == sourceTokens[..i];
      var token := sourceTokens[i];
      if |token| >= 2 {
        var k, found := 0, false;
        while k < |textTokens| && !found
          invariant k <= |textTokens|
          invariant found ==> TokenFound(token, textTokens)
          invariant !found ==> forall j :: 0 <= j < k && |textTokens[j]| >= 2 ==>
                                 token != textTokens[j] && !SimilarWord(token, textTokens[j])
        {
          if |textTokens[k]| >= 2 {
            var similar := IsSimilarWord(token, textTokens[k]);
            found := token == textTokens[k] || similar;
          }
          k := k + 1;
        }
        if found {
          matched := matched + 1;
        }
      }
    }
    assert sourceTokens[..|sourceTokens|] == sourceTokens;
    if matched > 0 {
      var ratio := matched as real / |sourceTokens| as real;
      if ratio > 0.5 {
        return Some(0.3 + ratio * 0.3);
      }
    }
    return None;
  }

  /** A single word scores 0.6 when it is equal, 0.3 at the greatest distance, and evenly less in between. */
  lemma {:induction false} SingleWordScore(source: string, text: string)
    ensures SingleWordFuzzy(source, text).Some? <==> NearWord(source, text)
    ensures SingleWordFuzzy(source, text).Some? ==>
              var far, distance := if |source| < 4 then 1 else |source| / 4, Dist(source, text);
              SingleWordFuzzy(source, text).value * far as real == 0.6 * far as real - 0.3 * distance as real
  {
    hide Dist, SimilarWord, NearWord;
    SimilarIsNear(source, text);
    var far, distance := MaxDistance(source) as real, Dist(source, text) as real;
    if SimilarWord(source, text) {
      Evenly(distance, far);
      assert SingleWordFuzzy(source, text).value == 0.6 - (distance / far) * 0.3;
    }
  }

  lemma {:induction false} SimilarIsNear(word1: string, word2: string)
    ensures SimilarWord(word1, word2) <==> NearWord(word1, word2)
  {
  }

  lemma {:induction false} Evenly(x: real, y: real)
    requires y > 0.0
    ensures (0.6 - (x / y) * 0.3) * y == 0.6 * y - 0.3 * x
  {
    ScaledBack(x, y);
    var share := x / y;
    assert (0.6 - share * 0.3) * y == 0.6 * y - 0.3 * (share * y);
  }

  lemma {:induction false} ScaledBack(x: real, y: real)
    requires y > 0.0
    ensures (x / y) * y == x
  {
  }

  /** When a token is found: it equals a token of the text, or both are long enough and near to each other. */
  lemma {:induction false} TokenFoundIff(token: string, textTokens: seq<string>)
    ensures TokenFound(token, textTokens) <==>
            |token| >= 2 && (token in textTokens || exists word :: word in textTokens && NearWord(token, word))
  {
    if TokenFound(token, textTokens) {
      var k :| 0 <= k < |textTokens| && |textTokens[k]| >= 2 &&
               (token == textTokens[k] || SimilarWord(token, textTokens[k]));
      assert textTokens[k] in textTokens;
      assert SimilarWord(token, textTokens[k]) ==> NearWord(token, textTokens[k]);
    }
    if word :| word in textTokens && NearWord(token, word) {
      assert SimilarWord(token, word);
    }
  }

  predicate NearWord(word1: string, word2: string) {
    |word1| >= 3 && |word2| >= 3 && (Dist(word1, word2) <= 1 || 4 * Dist(word1, word2) <= |word1|)
  }

  /** The positions of the tokens that are found. */
  function FoundAt(sourceTokens: seq<string>, textTokens: seq<string>): (s: set<nat>)
    ensures forall i: nat :: i in s <==> i < |sourceTokens| && TokenFound(sourceTokens[i], textTokens)
  {
    set i: nat | i < |sourceTokens| && TokenFound(sourceTokens[i], textTokens)
  }

  lemma {:induction false} FoundCountIs(sourceTokens: seq<string>, textTokens: seq<string>)
    ensures FoundCount(sourceTokens, textTokens) == |FoundAt(sourceTokens, textTokens)|
  {
    hide FoundAt, TokenFound;
    var all := FoundAt(sourceTokens, textTokens);
    if sourceTokens == [] {
      assert all == {};
    } else {
      var last := |sourceTokens| - 1;
      FoundCountIs(Front(sourceTokens), textTokens);
      if TokenFound(Last(sourceTokens), textTokens) {
        assert last in all && all - {last} == FoundAt(Front(sourceTokens), textTokens);
      } else {
        assert all == FoundAt(Front(sourceTokens), textTokens);
      }
    }
  }

  /** Several words score when more than half of them are found: 0.3, and the found share of another 0.3. */
  lemma {:induction false} MultiWordScore(sourceTokens: seq<string>, textTokens: seq<string>)
    ensures var found, all := |FoundAt(sourceTokens, textTokens)|, |sourceTokens|;
            && (MultiWordFuzzy(sourceTokens, textTokens).Some? <==> 2 * found > all)
            && (MultiWordFuzzy(sourceTokens, textTokens).Some? ==>
                  MultiWordFuzzy(sourceTokens, textTokens).value * all as real ==
                  0.3 * all as real + 0.3 * found as real)
  {
    FoundCountIs(sourceTokens, textTokens);
    var found, all := FoundCount(sourceTokens, textTokens), |sourceTokens|;
    if all > 0 {
      var share := found as real / all as real;
      ScaledBack(found as real, all as real);
      OverHalf(found as real, all as real, share);
      assert (0.3 + share * 0.3) * all as real == 0.3 * all as real + 0.3 * (share * all as real);
    }
  }

  lemma {:induction false} OverHalf(x: real, y: real, share: real)
    requires y > 0.0 && share * y == x
    ensures share > 0.5 <==> 2.0 * x > y
  {
    assert share > 0.5 ==> share * y > 0.5 * y;
    assert share <= 0.5 ==> share * y <= 0.5 * y;
  }

  lemma {:induction false} RatioBounds(a: nat, b: nat)
    requires b > 0 && a <= b
    ensures 0.0 <= a as real / b as real <= 1.0
  {
  }

  /** Every fuzzy confidence lies in [0.3, 0.6]. */
  lemma {:induction false} FuzzyRange(m: Matcher, source: string)
    requires FuzzyMatch(m, source).Some?
    ensures 0.3 <= FuzzyMatch(m, source).value <= 0.6
  {
    if |m.tokens(source)| == 1 {
      RatioBounds(Dist(source, m.text), MaxDistance(source));
    } else {
      RatioBounds(FoundCount(m.tokens(source), m.tokens(m.text)), |m.tokens(source)|);
    }
  }

  // ---------------------------------------------------------------- tiers

  function MakeMatch(e: Entry, kind: Kind, confidence: real): Match {
    Match(e.source, e.target, e.id, kind, confidence, e.priority)
  }

  predicate ExactHit(m: Matcher, e: Entry) {
    Contains(m.text, m.lower(e.source))
  }

  predicate PhoneticHit(m: Matcher, e: Entry) {
    m.isCjk && |e.source| > 1 && m.sounds(e.source)
  }

  predicate VariantHit(m: Matcher, e: Entry) {
    exists k :: 0 <= k < |e.variants| && Contains(m.text, m.lower(e.variants[k]))
  }

  predicate AbbreviationHit(m: Matcher, e: Entry) {
    exists k :: 0 <= k < |e.abbreviations| && m.abbreviated(e.abbreviations[k])
  }

  function EntryMatches(m: Matcher, e: Entry): seq<Match> {
    if e.source == "" || e.target == "" then []
    else if ExactHit(m, e) then [MakeMatch(e, Exact, 1.0)]
    else if PhoneticHit(m, e) then [MakeMatch(e, Phonetic, 0.85)]
    else if VariantHit(m, e) then [MakeMatch(e, Variant, 0.9)]
    else
      (if AbbreviationHit(m, e) then [MakeMatch(e, Abbreviation, 0.85)] else []) +
      (match PartialMatch(m, e.source)
       case Some((kind, confidence)) => [MakeMatch(e, kind, confidence)]
       case None => [])
  }

  /** Whatever an entry matches by has its own confidence range, and the partial tier is never reached. */
  lemma {:induction false} TierConfidence(m: Matcher, e: Entry, x: Match)
    requires x in EntryMatches(m, e)
    ensures x.id == e.id && x.source == e.source && x.priority == e.priority
    ensures x.kind != Partial
    ensures x.kind == Fuzzy <==> x.confidence <= 0.6
    ensures x.kind == Fuzzy ==> x.confidence >= 0.3
    ensures x.kind != Fuzzy ==> x.confidence >= 0.85
  {
    if FuzzyMatch(m, e.source).Some? {
      FuzzyRange(m, e.source);
    }
  }

  /**
   * Exactly what an entry matches by: the first of the exact, phonetic and variant tiers that applies; if
   * none does, an abbreviation and a fuzzy match, both if both apply.
   */
  lemma {:induction false} MatchesIff(m: Matcher, e: Entry, kind: Kind, confidence: real)
    ensures var exact := Contains(m.text, m.lower(e.source));
            var phonetic := m.isCjk && |e.source| > 1 && m.sounds(e.source);
            var variant := exists v :: v in e.variants && Contains(m.text, m.lower(v));
            MakeMatch(e, kind, confidence) in EntryMatches(m, e) <==>
            && e.source != "" && e.target != ""
            && match kind
               case Exact => exact && confidence == 1.0
               case Phonetic => !exact && phonetic && confidence == 0.85
               case Variant => !exact && !phonetic && variant && confidence == 0.9
               case Abbreviation =>
                 !exact && !phonetic && !variant && confidence == 0.85 &&
                 exists a :: a in e.abbreviations && m.abbreviated(a)
               case Fuzzy => !exact && !phonetic && !variant && FuzzyMatch(m, e.source) == Some(confidence)
               case Partial => false
  {
    hide FuzzyMatch, Contains;
    ListedHits(m, e);
    hide VariantHit, AbbreviationHit;
  }

  lemma {:induction false} ListedHits(m: Matcher, e: Entry)
    ensures VariantHit(m, e) <==> exists v :: v in e.variants && Contains(m.text, m.lower(v))
    ensures AbbreviationHit(m, e) <==> exists a :: a in e.abbreviations && m.abbreviated(a)
  {
    hide Contains;
    if k :| 0 <= k < |e.variants| && Contains(m.text, m.lower(e.variants[k])) {
      assert e.variants[k] in e.variants;
    }
    if k :| 0 <= k < |e.abbreviations| && m.abbreviated(e.abbreviations[k]) {
      assert e.abbreviations[k] in e.abbreviations;
    }
  }

  /** Every match of an entry is of this form. */
  lemma {:induction false} MatchesAreMade(m: Matcher, e: Entry, x: Match)
    requires x in EntryMatches(m, e)
    ensures x == MakeMatch(e, x.kind, x.confidence)
    ensures x.source == e.source && x.target == e.target && x.id == e.id && x.priority == e.priority
  {
    hide FuzzyMatch, ExactHit, PhoneticHit, VariantHit, AbbreviationHit;
  }

  /** Fuzzy matching: never in strict mode; by distance for one token, by the share of found tokens else. */
  lemma {:induction false} FuzzyIff(m: Matcher, source: string)
    ensures FuzzyMatch(m, source).Some? <==>
            && !m.strict
            && if |m.tokens(source)| == 1 then NearWord(source, m.text)
               else 2 * |FoundAt(m.tokens(source), m.tokens(m.text))| > |m.tokens(source)|
  {
    hide FoundAt;
    SingleWordScore(source, m.text);
    MultiWordScore(m.tokens(source), m.tokens(m.text));
  }

  // ---------------------------------------------------------------- keeping the best match per key

  /** Python's tuple order on (priority, confidence). */
  predicate Less(a: (int, real), b: (int, real)) {
    a.0 < b.0 || (a.0 == b.0 && a.1 < b.1)
  }

  /** The position of a key in an insertion-ordered dictionary, or its length. */
  function Find(dict: seq<Match>, key: Match -> string, k: string): (i: nat)
    ensures i <= |dict|
    ensures i < |dict| ==> key(dict[i]) == k
    ensures forall j :: 0 <= j < i ==> key(dict[j]) != k
  {
    if dict == [] then 0
    else if key(dict[0]) == k then 0
    else Find(dict[1..], key, k) + 1
  }

  /** Inserts a match, or replaces the one under the same key when the new one ranks strictly higher. */
  function Upsert(dict: seq<Match>, key: Match -> string, rank: Match -> (int, real), m: Match): seq<Match> {
    var i := Find(dict, key, key(m));
    if i == |dict| then dict + [m]
    else if Less(rank(dict[i]), rank(m)) then dict[i := m]
    else dict
  }

  function KeepBest(ms: seq<Match>, key: Match -> string, rank: Match -> (int, real)): seq<Match> {
    if ms == [] then [] else Upsert(KeepBest(Front(ms), key, rank), key, rank, Last(ms))
  }

  ghost predicate DistinctBy(dict: seq<Match>, key: Match -> string) {
    forall i, j :: 0 <= i < j < |dict| ==> key(dict[i]) != key(dict[j])
  }

  /** Some kept match has the same key and does not rank lower. */
  ghost predicate Covered(dict: seq<Match>, key: Match -> string, rank: Match -> (int, real), m: Match) {
    exists i :: 0 <= i < |dict| && key(dict[i]) == key(m) && !Less(rank(dict[i]), rank(m))
  }

  lemma {:induction false} UpsertCovers(dict: seq<Match>, key: Match -> string, rank: Match -> (int, real),
                                        m: Match, x: Match)
    requires x == m || Covered(dict, key, rank, x)
    ensures Covered(Upsert(dict, key, rank, m), key, rank, x)
  {
    var dict' := Upsert(dict, key, rank, m);
    var i := Find(dict, key, key(m));
    if x == m {
      assert key(dict'[i]) == key(m) && !Less(rank(dict'[i]), rank(m));
    } else {
      var j :| 0 <= j < |dict| && key(dict[j]) == key(x) && !Less(rank(dict[j]), rank(x));
      assert key(dict'[j]) == key(x) && !Less(rank(dict'[j]), rank(x));
    }
  }

  lemma {:induction false} UpsertKeeps(dict: seq<Match>, key: Match -> string, rank: Match -> (int, real), m: Match)
    requires DistinctBy(dict, key)
    ensures DistinctBy(Upsert(dict, key, rank, m), key)
    ensures forall x :: x in Upsert(dict, key, rank, m) ==> x in dict || x == m
  {
    hide Less;
  }

  /** One match per key, each taken from the input, and no input ranks above the one kept for its key. */
  lemma {:induction false} KeepBestIsBest(ms: seq<Match>, key: Match -> string, rank: Match -> (int, real))
    ensures var r := KeepBest(ms, key, rank);
            && DistinctBy(r, key)
            && (forall x :: x in r ==> x in ms)
            && (forall x :: x in ms ==> Covered(r, key, rank, x))
  {
    if ms != [] {
      hide Less, Find;
      KeepBestIsBest(Front(ms), key, rank);
      var dict := KeepBest(Front(ms), key, rank);
      UpsertKeeps(dict, key, rank, Last(ms));
      hide Upsert;
      assert ms == Front(ms) + [Last(ms)];
      forall x | x in ms ensures Covered(KeepBest(ms, key, rank), key, rank, x) {
        assert x in Front(ms) || x == Last(ms);
        UpsertCovers(dict, key, rank, Last(ms), x);
      }
    }
  }

  /** No match with the same key ranks higher than the k-th, and none before it ranks equally. */
  ghost predicate WinsAt(ms: seq<Match>, key: Match -> string, rank: Match -> (int, real), k: nat) {
    k < |ms| &&
    forall j :: 0 <= j < |ms| && key(ms[j]) == key(ms[k]) ==>
      !Less(rank(ms[k]), rank(ms[j])) && (j < k ==> Less(rank(ms[j]), rank(ms[k])))
  }

  lemma {:induction false} LessThrough(a: (int, real), b: (int, real), c: (int, real))
    requires !Less(b, a) && Less(b, c)
    ensures Less(a, c)
  {
  }

  lemma {:induction false} WinnerStays(ms: seq<Match>, key: Match -> string, rank: Match -> (int, real), k: nat)
    requires ms != [] && WinsAt(Front(ms), key, rank, k)
    requires key(Last(ms)) == key(ms[k]) ==> !Less(rank(ms[k]), rank(Last(ms)))
    ensures WinsAt(ms, key, rank, k)
  {
    assert forall j :: 0 <= j < |ms| - 1 ==> Front(ms)[j] == ms[j];
  }

  /** A kept match wins its key. */
  lemma {:induction false} KeptWins(ms: seq<Match>, key: Match -> string, rank: Match -> (int, real), i: nat)
    returns (k: nat)
    requires i < |KeepBest(ms, key, rank)|
    ensures WinsAt(ms, key, rank, k) && ms[k] == KeepBest(ms, key, rank)[i]
    decreases |ms|
  {
    hide Less;
    var dict := KeepBest(Front(ms), key, rank);
    var last := |ms| - 1;
    KeepBestIsBest(Front(ms), key, rank);
    assert forall j :: 0 <= j < last ==> Front(ms)[j] == ms[j];
    var f := Find(dict, key, key(ms[last]));
    if i == f && (f == |dict| || Less(rank(dict[f]), rank(ms[last]))) {
      k := last;
      if f < |dict| {
        var best := KeptWins(Front(ms), key, rank, f);
        forall j | 0 <= j < last && key(ms[j]) == key(ms[last]) ensures Less(rank(ms[j]), rank(ms[last])) {
          LessThrough(rank(ms[j]), rank(ms[best]), rank(ms[last]));
        }
      } else {
        forall j | 0 <= j < last ensures key(ms[j]) != key(ms[last]) {
          assert Covered(dict, key, rank, Front(ms)[j]);
        }
      }
      LastWins(ms, key, rank);
    } else {
      k := KeptWins(Front(ms), key, rank, i);
      assert key(dict[i]) == key(ms[last]) ==> i == f;
      WinnerStays(ms, key, rank, k);
    }
  }

  lemma {:induction false} LastWins(ms: seq<Match>, key: Match -> string, rank: Match -> (int, real))
    requires ms != []
    requires forall j :: 0 <= j < |ms| - 1 && key(ms[j]) == key(Last(ms)) ==> Less(rank(ms[j]), rank(Last(ms)))
    ensures WinsAt(ms, key, rank, |ms| - 1)
  {
  }

  /** The winners are kept, and only they. */
  lemma {:induction false} KeepBestIsWinners(ms: seq<Match>, key: Match -> string, rank: Match -> (int, real), m: Match)
    ensures m in KeepBest(ms, key, rank) <==> exists k: nat :: WinsAt(ms, key, rank, k) && ms[k] == m
  {
    hide Less, KeepBest;
    var r := KeepBest(ms, key, rank);
    KeepBestIsBest(ms, key, rank);
    if m in r {
      var i :| 0 <= i < |r| && r[i] == m;
      var k := KeptWins(ms, key, rank, i);
    }
    if k: nat :| WinsAt(ms, key, rank, k) && ms[k] == m {
      assert Covered(r, key, rank, m);
      var i :| 0 <= i < |r| && key(r[i]) == key(m) && !Less(rank(r[i]), rank(m));
      var k' := KeptWins(ms, key, rank, i);
      assert k == k';
    }
  }

  /** The keys stand in the order in which they first occur among the matches. */
  ghost predicate InOrder(ms: seq<Match>, key: Match -> string, dict: seq<Match>) {
    && (forall i :: 0 <= i < |dict| ==> Find(ms, key, key(dict[i])) < |ms|)
    && (forall i, j :: 0 <= i < j < |dict| ==> Find(ms, key, key(dict[i])) < Find(ms, key, key(dict[j])))
  }

  /** The matches are kept in the order in which their keys first occurred. */
  lemma {:induction false} KeepBestOrder(ms: seq<Match>, key: Match -> string, rank: Match -> (int, real))
    ensures InOrder(ms, key, KeepBest(ms, key, rank))
  {
    if ms == [] {
      NothingKept(key, rank);
    } else {
      var front, last := Front(ms), Last(ms);
      hide Less, Find, InOrder, Upsert, Covered, DistinctBy;
      assert ms == front + [last];
      KeepBestOrder(front, key, rank);
      KeepBestIsBest(front, key, rank);
      var dict := KeepBest(front, key, rank);
      if Find(dict, key, key(last)) == |dict| {
        NotYetFound(front, dict, key, rank, last);
      }
      UpsertInOrder(front, dict, key, rank, last);
    }
  }

  lemma {:induction false} UpsertInOrder(front: seq<Match>, dict: seq<Match>, key: Match -> string,
                                         rank: Match -> (int, real), last: Match)
    requires InOrder(front, key, dict)
    requires Find(dict, key, key(last)) == |dict| ==> Find(front, key, key(last)) == |front|
    ensures InOrder(front + [last], key, Upsert(dict, key, rank, last))
  {
    hide Find, Upsert;
    var r := Upsert(dict, key, rank, last);
    UpsertKeys(dict, key, rank, last);
    FindInFront(front, last, key, key(last));
    forall i | 0 <= i < |dict|
      ensures Find(front + [last], key, key(r[i])) == Find(front, key, key(dict[i])) < |front|
    {
      FindInFront(front, last, key, key(dict[i]));
    }
  }

  /** Inserting keeps the keys in their places, and puts a new one at the end. */
  lemma {:induction false} UpsertKeys(dict: seq<Match>, key: Match -> string, rank: Match -> (int, real), m: Match)
    ensures var r := Upsert(dict, key, rank, m);
            && |r| == (if Find(dict, key, key(m)) == |dict| then |dict| + 1 else |dict|)
            && (forall i :: 0 <= i < |dict| ==> key(r[i]) == key(dict[i]))
            && (Find(dict, key, key(m)) == |dict| ==> r[|dict|] == m)
  {
    hide Less, Find;
  }

  lemma {:induction false} FindInFront(front: seq<Match>, last: Match, key: Match -> string, k: string)
    ensures Find(front + [last], key, k) ==
            if Find(front, key, k) < |front| then Find(front, key, k)
            else if key(last) == k then |front| else |front| + 1
  {
    var i, j := Find(front + [last], key, k), Find(front, key, k);
    assert forall x :: 0 <= x < |front| ==> (front + [last])[x] == front[x];
    assert (front + [last])[|front|] == last;
  }

  lemma {:induction false} NotYetFound(front: seq<Match>, dict: seq<Match>, key: Match -> string,
                                       rank: Match -> (int, real), last: Match)
    requires Find(dict, key, key(last)) == |dict| && forall x :: x in front ==> Covered(dict, key, rank, x)
    ensures Find(front, key, key(last)) == |front|
  {
    forall i | 0 <= i < |front| ensures key(front[i]) != key(last) {
      assert Covered(dict, key, rank, front[i]);
    }
  }

  lemma {:induction false} KeepBestOfDistinct(ms: seq<Match>, key: Match -> string, rank: Match -> (int, real))
    requires DistinctBy(ms, key)
    ensures KeepBest(ms, key, rank) == ms
  {
    if ms != [] {
      KeepBestOfDistinct(Front(ms), key, rank);
      hide Find;
      assert Find(Front(ms), key, key(Last(ms))) == |Front(ms)|;
      assert ms == Front(ms) + [Last(ms)];
    }
  }

  // ---------------------------------------------------------------- deduplication

  function IdKey(): Match -> string {
    (m: Match) => m.id
  }

  function TermKey(normal: string -> string): Match -> string {
    (m: Match) => normal(m.source)
  }

  function ByConfidence(): Match -> (int, real) {
    (m: Match) => (0, m.confidence)
  }

  function ByPriority(): Match -> (int, real) {
    (m: Match) => (m.priority, m.confidence)
  }

  function Deduplicated(ms: seq<Match>, normal: string -> string): seq<Match> {
    KeepBest(KeepBest(ms, IdKey(), ByConfidence()), TermKey(normal), ByPriority())
  }

  lemma {:induction false} NothingKept(key: Match -> string, rank: Match -> (int, real))
    ensures KeepBest([], key, rank) == []
  {
  }

  lemma {:induction false} KeepOneMore(ms: seq<Match>, k: nat, key: Match -> string, rank: Match -> (int, real))
    requires k < |ms|
    ensures KeepBest(ms[..k + 1], key, rank) == Upsert(KeepBest(ms[..k], key, rank), key, rank, ms[k])
  {
    assert Front(ms[..k + 1]) == ms[..k];
  }

  method DeduplicateMatches(ms: seq<Match>, normal: string -> string) returns (r: seq<Match>)
    ensures r == Deduplicated(ms, normal)
  {
    hide KeepBest, Find;
    NothingKept(IdKey(), ByConfidence());
    NothingKept(TermKey(normal), ByPriority());
    var unique: seq<Match> := [];
    for k := 0 to |ms|
      invariant unique == KeepBest(ms[..k], IdKey(), ByConfidence())
    {
      KeepOneMore(ms, k, IdKey(), ByConfidence());
      var i := Find(unique, IdKey(), ms[k].id);
      if i == |unique| {
        unique := unique + [ms[k]];
      } else if ms[k].confidence > unique[i].confidence {
        unique := unique[i := ms[k]];
      }
    }
    assert ms[..|ms|] == ms;
    r := [];
    for k := 0 to |unique|
      invariant r == KeepBest(unique[..k], TermKey(normal), ByPriority())
    {
      KeepOneMore(unique, k, TermKey(normal), ByPriority());
      var m := unique[k];
      var i := Find(r, TermKey(normal), normal(m.source));
      if i == |r| {
        r := r + [m];
      } else if m.priority > r[i].priority || (m.priority == r[i].priority && m.confidence > r[i].confidence) {
        r := r[i := m];
      }
    }
    assert unique[..|unique|] == unique;
  }

  /** Matches of one id share their term and priority, as when ids are primary keys of entries. */
  ghost predicate IdDetermines(ms: seq<Match>) {
    forall x, y :: x in ms && y in ms && x.id == y.id ==> x.source == y.source && x.priority == y.priority
  }

  /** A kept match of the term has a higher priority, or the same and no less confidence. */
  ghost predicate HeldBy(r: seq<Match>, normal: string -> string, y: Match) {
    exists i :: 0 <= i < |r| && normal(r[i].source) == normal(y.source) &&
                (y.priority < r[i].priority || (y.priority == r[i].priority && y.confidence <= r[i].confidence))
  }

  /**
   * When an id fixes term and priority, exactly one match is kept for each normalized term, and
   * no match of the whole input, not only of the first stage's survivors, ranks above it.
   */
  lemma {:induction false} DeduplicationIsMaximal(ms: seq<Match>, normal: string -> string)
    requires IdDetermines(ms)
    ensures var r := Deduplicated(ms, normal);
            && DistinctBy(r, TermKey(normal))
            && (forall x :: x in r ==> x in ms)
            && (forall x :: x in ms ==> Covered(r, TermKey(normal), ByPriority(), x))
    ensures var r := Deduplicated(ms, normal);
            && (forall i, j :: 0 <= i < j < |r| ==> normal(r[i].source) != normal(r[j].source))
            && (forall y :: y in ms ==> HeldBy(r, normal, y))
  {
    var s := KeepBest(ms, IdKey(), ByConfidence());
    var r := Deduplicated(ms, normal);
    KeepBestIsBest(ms, IdKey(), ByConfidence());
    KeepBestIsBest(s, TermKey(normal), ByPriority());
    forall x | x in ms ensures Covered(r, TermKey(normal), ByPriority(), x) {
      CoveredThrough(s, r, normal, x);
    }
    KeptByFields(ms, r, normal);
  }

  lemma {:induction false} KeptByFields(ms: seq<Match>, r: seq<Match>, normal: string -> string)
    requires DistinctBy(r, TermKey(normal)) && forall x :: x in ms ==> Covered(r, TermKey(normal), ByPriority(), x)
    ensures forall i, j :: 0 <= i < j < |r| ==> normal(r[i].source) != normal(r[j].source)
    ensures forall y :: y in ms ==> HeldBy(r, normal, y)
  {
    forall i, j | 0 <= i < j < |r| ensures normal(r[i].source) != normal(r[j].source) {
      assert TermKey(normal)(r[i]) != TermKey(normal)(r[j]);
    }
    forall y | y in ms ensures HeldBy(r, normal, y) {
      assert Covered(r, TermKey(normal), ByPriority(), y);
      var i :| 0 <= i < |r| && TermKey(normal)(r[i]) == TermKey(normal)(y) &&
               !Less(ByPriority()(r[i]), ByPriority()(y));
      assert normal(r[i].source) == normal(y.source);
    }
  }

  /** What covers the best match of an id covers every match of that id. */
  lemma {:induction false} CoveredThrough(s: seq<Match>, r: seq<Match>, normal: string -> string, x: Match)
    requires Covered(s, IdKey(), ByConfidence(), x)
    requires forall y :: y in s && y.id == x.id ==> y.source == x.source && y.priority == x.priority
    requires forall y :: y in s ==> Covered(r, TermKey(normal), ByPriority(), y)
    ensures Covered(r, TermKey(normal), ByPriority(), x)
  {
    var i :| 0 <= i < |s| && IdKey()(s[i]) == IdKey()(x) && !Less(ByConfidence()(s[i]), ByConfidence()(x));
    assert s[i] in s;
    var j :| 0 <= j < |r| && TermKey(normal)(r[j]) == TermKey(normal)(s[i]) &&
             !Less(ByPriority()(r[j]), ByPriority()(s[i]));
    assert TermKey(normal)(r[j]) == TermKey(normal)(x) && !Less(ByPriority()(r[j]), ByPriority()(x));
  }

  /** The k-th match is the first of the most confident ones with its id. */
  ghost predicate WinsItsId(ms: seq<Match>, k: nat) {
    k < |ms| &&
    forall j :: 0 <= j < |ms| && ms[j].id == ms[k].id ==>
      ms[j].confidence <= ms[k].confidence && (j < k ==> ms[j].confidence < ms[k].confidence)
  }

  ghost predicate HasTerm(ms: seq<Match>, normal: string -> string, term: string) {
    exists i :: 0 <= i < |ms| && normal(ms[i].source) == term
  }

  ghost predicate HasWinner(ms: seq<Match>, normal: string -> string, term: string) {
    exists k: nat :: WinsItsId(ms, k) && normal(ms[k].source) == term
  }

  /** The exact condition, for any ids: a term is in the result if and only if some match with it wins its id. */
  lemma {:induction false} TermSurvivesIff(ms: seq<Match>, normal: string -> string, term: string)
    ensures HasTerm(Deduplicated(ms, normal), normal, term) <==> HasWinner(ms, normal, term)
  {
    hide KeepBest;
    var s := KeepBest(ms, IdKey(), ByConfidence());
    var r := Deduplicated(ms, normal);
    KeepBestIsBest(s, TermKey(normal), ByPriority());
    if HasTerm(r, normal, term) {
      var i :| 0 <= i < |r| && normal(r[i].source) == term;
      assert r[i] in s;
      KeepBestIsWinners(ms, IdKey(), ByConfidence(), r[i]);
      var k: nat :| WinsAt(ms, IdKey(), ByConfidence(), k) && ms[k] == r[i];
      WinningIsWinning(ms, k);
    }
    if HasWinner(ms, normal, term) {
      var k: nat :| WinsItsId(ms, k) && normal(ms[k].source) == term;
      WinningIsWinning(ms, k);
      KeepBestIsWinners(ms, IdKey(), ByConfidence(), ms[k]);
      assert Covered(r, TermKey(normal), ByPriority(), ms[k]);
      var i :| 0 <= i < |r| && TermKey(normal)(r[i]) == TermKey(normal)(ms[k]) &&
               !Less(ByPriority()(r[i]), ByPriority()(ms[k]));
      assert normal(r[i].source) == term;
    }
  }

  lemma {:induction false} WinningIsWinning(ms: seq<Match>, k: nat)
    ensures WinsItsId(ms, k) <==> WinsAt(ms, IdKey(), ByConfidence(), k)
  {
  }

  /** Where an id first occurs, or the length. */
  function FirstWithId(ms: seq<Match>, id: string): (i: nat)
    ensures i <= |ms|
    ensures i < |ms| ==> ms[i].id == id
    ensures forall j :: 0 <= j < i ==> ms[j].id != id
  {
    Find(ms, IdKey(), id)
  }

  /**
   * Match `l` gives way to match `k` of its term: by priority, then by confidence, and between equals the
   * one whose id occurred first stays.
   */
  predicate GivesWay(ms: seq<Match>, l: nat, k: nat)
    requires l < |ms| && k < |ms|
  {
    || ms[l].priority < ms[k].priority
    || (ms[l].priority == ms[k].priority &&
        (|| ms[l].confidence < ms[k].confidence
         || (ms[l].confidence == ms[k].confidence && FirstWithId(ms, ms[k].id) < FirstWithId(ms, ms[l].id))))
  }

  /** The k-th match wins its id, and all other such winners with its term give way to it. */
  ghost predicate WinsItsTerm(ms: seq<Match>, normal: string -> string, k: nat) {
    k < |ms| && WinsItsId(ms, k) &&
    forall l: nat :: l < |ms| && WinsItsId(ms, l) && l != k && normal(ms[l].source) == normal(ms[k].source) ==>
      GivesWay(ms, l, k)
  }

  lemma {:induction false} OneWinner(ms: seq<Match>, k: nat, l: nat)
    requires WinsItsId(ms, k) && WinsItsId(ms, l)
    ensures ms[k].id == ms[l].id ==> k == l
  {
  }

  ghost predicate IsWinner(ms: seq<Match>, m: Match) {
    exists k: nat :: k < |ms| && WinsItsId(ms, k) && ms[k] == m
  }

  /** The winners of the ids, in the order in which the ids first occurred, make up the first stage's result. */
  ghost predicate FirstStage(ms: seq<Match>, s: seq<Match>) {
    && (forall a :: 0 <= a < |s| ==> IsWinner(ms, s[a]))
    && (forall k: nat :: k < |ms| && WinsItsId(ms, k) ==> ms[k] in s)
    && (forall a, b :: 0 <= a < b < |s| ==> FirstWithId(ms, s[a].id) < FirstWithId(ms, s[b].id))
  }

  lemma {:induction false} WinsInRange(ms: seq<Match>, key: Match -> string, rank: Match -> (int, real), k: nat)
    requires WinsAt(ms, key, rank, k)
    ensures k < |ms|
  {
  }

  lemma {:induction false} FirstStageIs(ms: seq<Match>)
    ensures FirstStage(ms, KeepBest(ms, IdKey(), ByConfidence()))
  {
    hide KeepBest, WinsAt, WinsItsId, Less;
    var s := KeepBest(ms, IdKey(), ByConfidence());
    KeepBestOrder(ms, IdKey(), ByConfidence());
    forall a | 0 <= a < |s| ensures IsWinner(ms, s[a]) {
      var k := KeptWins(ms, IdKey(), ByConfidence(), a);
      WinsInRange(ms, IdKey(), ByConfidence(), k);
      WinningIsWinning(ms, k);
    }
    forall k: nat | k < |ms| && WinsItsId(ms, k) ensures ms[k] in s {
      WinningIsWinning(ms, k);
      KeepBestIsWinners(ms, IdKey(), ByConfidence(), ms[k]);
    }
    forall a, b | 0 <= a < b < |s| ensures FirstWithId(ms, s[a].id) < FirstWithId(ms, s[b].id) {
      assert Find(ms, IdKey(), IdKey()(s[a])) < Find(ms, IdKey(), IdKey()(s[b]));
    }
  }

  /**
   * What is kept, for any ids and in terms of the fields alone: the matches that win their id by
   * confidence, the earliest of equals, and then their term by priority and confidence.
   */
  lemma {:induction false} KeptIff(ms: seq<Match>, normal: string -> string, m: Match)
    ensures m in Deduplicated(ms, normal) <==> exists k: nat :: k < |ms| && WinsItsTerm(ms, normal, k) && ms[k] == m
  {
    hide KeepBest, WinsItsId, Less, GivesWay;
    var s := KeepBest(ms, IdKey(), ByConfidence());
    FirstStageIs(ms);
    KeepBestIsWinners(s, TermKey(normal), ByPriority(), m);
    if m in Deduplicated(ms, normal) {
      var a: nat :| WinsAt(s, TermKey(normal), ByPriority(), a) && s[a] == m;
      var k: nat :| k < |ms| && WinsItsId(ms, k) && ms[k] == s[a];
      WinnerWinsItsTerm(ms, s, normal, a, k);
    }
    if k: nat :| k < |ms| && WinsItsTerm(ms, normal, k) && ms[k] == m {
      var a :| 0 <= a < |s| && s[a] == ms[k];
      TermWinnerWins(ms, s, normal, a, k);
    }
  }

  lemma {:induction false} WinnerWinsItsTerm(ms: seq<Match>, s: seq<Match>, normal: string -> string, a: nat, k: nat)
    requires FirstStage(ms, s) && WinsAt(s, TermKey(normal), ByPriority(), a)
    requires k < |ms| && WinsItsId(ms, k) && ms[k] == s[a]
    ensures WinsItsTerm(ms, normal, k)
  {
    hide WinsItsId, FirstWithId;
    forall l: nat | l < |ms| && WinsItsId(ms, l) && l != k && normal(ms[l].source) == normal(ms[k].source)
      ensures GivesWay(ms, l, k)
    {
      var b :| 0 <= b < |s| && s[b] == ms[l];
      OneWinner(ms, k, l);
      assert TermKey(normal)(s[b]) == TermKey(normal)(s[a]);
      assert b < a ==> Less(ByPriority()(s[b]), ByPriority()(s[a]));
      assert !Less(ByPriority()(s[a]), ByPriority()(s[b]));
    }
  }

  lemma {:induction false} TermWinnerWins(ms: seq<Match>, s: seq<Match>, normal: string -> string, a: nat, k: nat)
    requires FirstStage(ms, s) && WinsItsTerm(ms, normal, k) && a < |s| && ms[k] == s[a]
    ensures WinsAt(s, TermKey(normal), ByPriority(), a)
  {
    hide WinsItsId, FirstWithId;
    forall b | 0 <= b < |s| && TermKey(normal)(s[b]) == TermKey(normal)(s[a])
      ensures !Less(ByPriority()(s[a]), ByPriority()(s[b])) &&
              (b < a ==> Less(ByPriority()(s[b]), ByPriority()(s[a])))
    {
      var l: nat :| l < |ms| && WinsItsId(ms, l) && ms[l] == s[b];
      assert b < a ==> FirstWithId(ms, s[b].id) < FirstWithId(ms, s[a].id);
      assert l != k ==> GivesWay(ms, l, k);
    }
  }

  /** When all ids are equal, at most one match survives, so of two different terms at least one is lost. */
  lemma {:induction false} SharedIdLosesATerm(ms: seq<Match>, normal: string -> string, id: string)
    requires forall x :: x in ms ==> x.id == id
    ensures |Deduplicated(ms, normal)| <= 1
    ensures forall s, t ::
              HasTerm(Deduplicated(ms, normal), normal, s) && HasTerm(Deduplicated(ms, normal), normal, t) ==> s == t
  {
    hide KeepBest;
    var s := KeepBest(ms, IdKey(), ByConfidence());
    KeepBestIsBest(ms, IdKey(), ByConfidence());
    forall i | 0 <= i < |s| ensures IdKey()(s[i]) == id {
      assert s[i] in s;
    }
    assert |s| >= 2 ==> IdKey()(s[0]) != IdKey()(s[1]);
    KeepBestOfDistinct(s, TermKey(normal), ByPriority());
  }

  /** Deduplicating twice is deduplicating once, for every input. */
  lemma {:induction false} DeduplicationIsIdempotent(ms: seq<Match>, normal: string -> string)
    ensures Deduplicated(Deduplicated(ms, normal), normal) == Deduplicated(ms, normal)
  {
    var s := KeepBest(ms, IdKey(), ByConfidence());
    var r := Deduplicated(ms, normal);
    KeepBestIsBest(ms, IdKey(), ByConfidence());
    KeepBestIsBest(s, TermKey(normal), ByPriority());
    forall i, j | 0 <= i < j < |r| ensures IdKey()(r[i]) != IdKey()(r[j]) {
      assert TermKey(normal)(r[i]) != TermKey(normal)(r[j]);
      assert r[i] in s && r[j] in s;
    }
    KeepBestOfDistinct(r, IdKey(), ByConfidence());
    KeepBestOfDistinct(r, TermKey(normal), ByPriority());
  }

  // ---------------------------------------------------------------- the whole matching

  function AllMatches(m: Matcher, entries: seq<Entry>): seq<Match> {
    if entries == [] then [] else AllMatches(m, Front(entries)) + EntryMatches(m, Last(entries))
  }

  /** The matches come in the order of the entries. */
  lemma {:induction false} MatchesInOrder(m: Matcher, a: seq<Entry>, b: seq<Entry>)
    ensures AllMatches(m, a + b) == AllMatches(m, a) + AllMatches(m, b)
  {
    hide EntryMatches;
    if b == [] {
      assert a + b == a;
    } else {
      assert Front(a + b) == a + Front(b);
      MatchesInOrder(m, a, Front(b));
    }
  }

  lemma {:induction false} MatchesOfOne(m: Matcher, e: Entry)
    ensures AllMatches(m, [e]) == EntryMatches(m, e)
  {
    hide EntryMatches;
    assert Front([e]) == [];
  }

  method SmartTermMatching(m: Matcher, entries: seq<Entry>) returns (r: seq<Match>)
    ensures r == Deduplicated(AllMatches(m, entries), m.normal)
  {
    var matches: seq<Match> := [];
    for k := 0 to |entries|
      invariant matches == AllMatches(m, entries[..k])
    {
      assert Front(entries[..k + 1]) == entries[..k];
      var found := MatchEntry(m, entries[k]);
      matches := matches + found;
    }
    assert entries[..|entries|] == entries;
    r := DeduplicateMatches(matches, m.normal);
  }

  method MatchEntry(m: Matcher, e: Entry) returns (r: seq<Match>)
    ensures r == EntryMatches(m, e)
  {
    r := [];
    if e.source == "" || e.target == "" {
      return;
    }
    if Contains(m.text, m.lower(e.source)) {
      return [MakeMatch(e, Exact, 1.0)];
    }
    if m.isCjk && |e.source| > 1 && m.sounds(e.source) {
      return [MakeMatch(e, Phonetic, 0.85)];
    }
    for k := 0 to |e.variants|
      invariant forall j :: 0 <= j < k ==> !Contains(m.text, m.lower(e.variants[j]))
    {
      if Contains(m.text, m.lower(e.variants[k])) {
        return [MakeMatch(e, Variant, 0.9)];
      }
    }
    for k := 0 to |e.abbreviations|
      invariant forall j :: 0 <= j < k ==> !m.abbreviated(e.abbreviations[j])
      invariant r == []
    {
      if m.abbreviated(e.abbreviations[k]) {
        r := [MakeMatch(e, Abbreviation, 0.85)];
        break;
      }
    }
    match PartialMatch(m, e.source) {
      case Some(p) => r := r + [MakeMatch(e, p.0, p.1)];
      case None =>
    }
  }

  ghost predicate DistinctIds(entries: seq<Entry>) {
    forall i, j :: 0 <= i < j < |entries| ==> entries[i].id != entries[j].id
  }

  lemma {:induction false} MatchOwner(m: Matcher, entries: seq<Entry>, x: Match) returns (k: nat)
    requires x in AllMatches(m, entries)
    ensures k < |entries| && x in EntryMatches(m, entries[k])
  {
    if x in EntryMatches(m, Last(entries)) {
      k := |entries| - 1;
    } else {
      k := MatchOwner(m, Front(entries), x);
    }
  }

  lemma {:induction false} OwnedMatch(m: Matcher, entries: seq<Entry>, k: nat, x: Match)
    requires k < |entries| && x in EntryMatches(m, entries[k])
    ensures x in AllMatches(m, entries)
  {
    if k < |entries| - 1 {
      OwnedMatch(m, Front(entries), k, x);
    }
  }

  /** A collected match comes from the one entry with its id. */
  lemma {:induction false} MatchOfEntry(m: Matcher, entries: seq<Entry>, x: Match, k: nat)
    requires DistinctIds(entries) && k < |entries|
    requires x in AllMatches(m, entries) && x.id == entries[k].id
    ensures x in EntryMatches(m, entries[k])
  {
    hide EntryMatches, AllMatches;
    var o := MatchOwner(m, entries, x);
    TierConfidence(m, entries[o], x);
  }

  /** Distinct entry ids fix term and priority of every match, as the maximality theorem needs. */
  lemma {:induction false} EntryIdsDetermine(m: Matcher, entries: seq<Entry>)
    requires DistinctIds(entries)
    ensures IdDetermines(AllMatches(m, entries))
  {
    hide EntryMatches, AllMatches;
    var ms := AllMatches(m, entries);
    forall x, y | x in ms && y in ms && x.id == y.id ensures x.source == y.source && x.priority == y.priority {
      var i := MatchOwner(m, entries, x);
      TierConfidence(m, entries[i], x);
      MatchOfEntry(m, entries, y, i);
      TierConfidence(m, entries[i], y);
    }
  }

  lemma {:induction false} AbbreviationIsCollected(m: Matcher, e: Entry, x: Match)
    requires x in EntryMatches(m, e) && x.kind == Fuzzy && AbbreviationHit(m, e)
    ensures MakeMatch(e, Abbreviation, 0.85) in EntryMatches(m, e)
  {
  }

  /** A match kept for its id has the highest confidence among the matches with that id. */
  lemma {:induction false} KeptHasHighestConfidence(ms: seq<Match>, x: Match, y: Match)
    requires x in KeepBest(ms, IdKey(), ByConfidence()) && y in ms && x.id == y.id
    ensures x.confidence >= y.confidence
  {
    var s := KeepBest(ms, IdKey(), ByConfidence());
    KeepBestIsBest(ms, IdKey(), ByConfidence());
    assert Covered(s, IdKey(), ByConfidence(), y);
    var i :| 0 <= i < |s| && IdKey()(s[i]) == IdKey()(y) && !Less(ByConfidence()(s[i]), ByConfidence()(y));
    var j :| 0 <= j < |s| && s[j] == x;
    assert IdKey()(s[i]) == IdKey()(s[j]);
  }

  /**
   * An entry that matches by abbreviation never survives as a fuzzy match, although both matches
   * are collected; and no result is of the partial tier.
   */
  lemma {:induction false} AbbreviationBeatsFuzzy(m: Matcher, entries: seq<Entry>, k: nat, x: Match)
    requires DistinctIds(entries) && k < |entries|
    requires x in Deduplicated(AllMatches(m, entries), m.normal) && x.id == entries[k].id
    ensures x.kind != Partial
    ensures AbbreviationHit(m, entries[k]) ==> x.kind != Fuzzy
  {
    hide EntryMatches, AllMatches, KeepBest;
    var ms := AllMatches(m, entries);
    var e := entries[k];
    KeepBestIsBest(ms, IdKey(), ByConfidence());
    KeepBestIsBest(KeepBest(ms, IdKey(), ByConfidence()), TermKey(m.normal), ByPriority());
    MatchOfEntry(m, entries, x, k);
    TierConfidence(m, e, x);
    if AbbreviationHit(m, e) && x.kind == Fuzzy {
      AbbreviationIsCollected(m, e, x);
      OwnedMatch(m, entries, k, MakeMatch(e, Abbreviation, 0.85));
      KeptHasHighestConfidence(ms, x, MakeMatch(e, Abbreviation, 0.85));
    }
  }
}
