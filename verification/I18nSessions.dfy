/**
 * The translation of one language: batches of untranslated strings, each followed by a save,
 * over any number of sessions that may stop after any save.
 */
module I18nSessions {
  import opened BatchTypes
  import opened I18nTree

  const BATCH_SIZE: nat := 100
  const ATTEMPTS: nat := 4

  type Mapping = map<Path, string>

  // ---------------------------------------------------------------- one model call

  /** What one attempt gives: an exception, a JSON value that is no list, or a list of texts. */
  datatype Attempt = Raised | NotAList | Texts(texts: seq<string>)

  predicate Good(a: Attempt, n: nat) {
    a.Texts? && |a.texts| == n
  }

  /** The texts are those of the first attempt, among the first `left` ones, that gave a list of that length. */
  ghost predicate FirstGood(n: nat, attempts: seq<Attempt>, left: nat, texts: seq<string>) {
    exists i :: 0 <= i < |attempts| && i < left && attempts[i] == Texts(texts) && |texts| == n &&
                forall j :: 0 <= j < i ==> !Good(attempts[j], n)
  }

  lemma {:induction false} FirstGoodLater(n: nat, attempts: seq<Attempt>, left: nat, texts: seq<string>)
    requires attempts != [] && left > 0 && !Good(attempts[0], n) && FirstGood(n, attempts[1..], left - 1, texts)
    ensures FirstGood(n, attempts, left, texts)
  {
    var i :| 0 <= i < |attempts[1..]| && i < left - 1 && attempts[1..][i] == Texts(texts) &&
             forall j :: 0 <= j < i ==> !Good(attempts[1..][j], n);
    assert attempts[i + 1] == Texts(texts);
    forall j | 0 <= j < i + 1 ensures !Good(attempts[j], n) {
      assert j > 0 ==> attempts[1..][j - 1] == attempts[j];
    }
  }

  /** The first list of the right length among the first `left` attempts. */
  function Accepted(n: nat, attempts: seq<Attempt>, left: nat): (r: Option<seq<string>>)
    ensures r.Some? ==> |r.value| == n
    ensures r.Some? <==> exists i :: 0 <= i < |attempts| && i < left && Good(attempts[i], n)
    ensures r.Some? ==> FirstGood(n, attempts, left, r.value)
  {
    if attempts == [] || left == 0 then None
    else if Good(attempts[0], n) then Some(attempts[0].texts)
    else
      var rest := Accepted(n, attempts[1..], left - 1);
      assert forall i :: 1 <= i < |attempts| ==> attempts[i] == attempts[1..][i - 1];
      if rest.Some? then
        FirstGoodLater(n, attempts, left, rest.value);
        rest
      else rest
  }

  /** Attempts beyond the scripted ones raise; `None` is the RuntimeError after the last attempt. */
  method TranslateBatch(texts: seq<string>, attempts: seq<Attempt>) returns (translated: Option<seq<string>>)
    ensures translated.Some? ==> FirstGood(|texts|, attempts, ATTEMPTS, translated.value)
    ensures translated.None? ==> forall i :: 0 <= i < |attempts| && i < ATTEMPTS ==> !Good(attempts[i], |texts|)
    ensures translated == Accepted(|texts|, attempts, ATTEMPTS)
  {
    hide FirstGood;
    for attempt := 0 to ATTEMPTS
      invariant attempt <= |attempts| ==>
                  Accepted(|texts|, attempts, ATTEMPTS) == Accepted(|texts|, attempts[attempt..], ATTEMPTS - attempt)
      invariant attempt > |attempts| ==> Accepted(|texts|, attempts, ATTEMPTS) == None
    {
      if attempt < |attempts| {
        assert attempts[attempt..][1..] == attempts[attempt + 1..];
        if Good(attempts[attempt], |texts|) {
          return Some(attempts[attempt].texts);
        }
      }
    }
    return None;
  }

  // ---------------------------------------------------------------- what is left to translate

  /** The existing file holds a text for the leaf other than the English one. */
  predicate IsDone(l: Leaf, existing: Mapping) {
    l.path in existing && existing[l.path] != l.text
  }

  function Done(leaves: seq<Leaf>, existing: Mapping): Mapping {
    if leaves == [] then map[]
    else
      var l := leaves[|leaves| - 1];
      var front := Done(leaves[..|leaves| - 1], existing);
      if IsDone(l, existing) then front[l.path := existing[l.path]] else front
  }

  function Todo(leaves: seq<Leaf>, existing: Mapping): seq<Leaf> {
    if leaves == [] then []
    else
      var l := leaves[|leaves| - 1];
      var front := Todo(leaves[..|leaves| - 1], existing);
      if IsDone(l, existing) then front else front + [l]
  }

  lemma {:induction false} DoneIs(leaves: seq<Leaf>, existing: Mapping, path: Path)
    ensures path in Done(leaves, existing) <==>
            exists i :: 0 <= i < |leaves| && leaves[i].path == path && IsDone(leaves[i], existing)
    ensures path in Done(leaves, existing) ==> path in existing && Done(leaves, existing)[path] == existing[path]
  {
    if leaves != [] {
      var front := leaves[..|leaves| - 1];
      DoneIs(front, existing, path);
      assert forall i :: 0 <= i < |front| ==> leaves[i] == front[i];
    }
  }

  lemma {:induction false} TodoIs(leaves: seq<Leaf>, existing: Mapping, l: Leaf)
    ensures l in Todo(leaves, existing) <==> l in leaves && !IsDone(l, existing)
  {
    if leaves != [] {
      TodoIs(leaves[..|leaves| - 1], existing, l);
      assert leaves == leaves[..|leaves| - 1] + [leaves[|leaves| - 1]];
    }
  }

  /** What is to be translated stays in the order of the tree. */
  lemma {:induction false} TodoInOrder(a: seq<Leaf>, b: seq<Leaf>, existing: Mapping)
    ensures Todo(a + b, existing) == Todo(a, existing) + Todo(b, existing)
  {
    if b == [] {
      assert a + b == a;
    } else {
      assert (a + b)[..|a + b| - 1] == a + b[..|b| - 1];
      TodoInOrder(a, b[..|b| - 1], existing);
    }
  }

  // ---------------------------------------------------------------- batches

  function Assign(m: Mapping, chunk: seq<Leaf>, texts: seq<string>): Mapping
    requires |texts| == |chunk|
  {
    if chunk == [] then m
    else
      var last := |chunk| - 1;
      Assign(m, chunk[..last], texts[..last])[chunk[last].path := texts[last]]
  }

  function FirstBatch(todo: seq<Leaf>): seq<Leaf> {
    if |todo| <= BATCH_SIZE then todo else todo[..BATCH_SIZE]
  }

  /** A batch is the next hundred strings, or what is left. */
  lemma {:induction false} FirstBatchIs(todo: seq<Leaf>)
    ensures FirstBatch(todo) <= todo && |FirstBatch(todo)| == if |todo| < 100 then |todo| else 100
  {
  }

  function AttemptsOf(scripts: seq<seq<Attempt>>): seq<Attempt> {
    if scripts == [] then [] else scripts[0]
  }

  /** The mapping with the translations of a batch, when its model call succeeds. */
  function NextMapping(m: Mapping, chunk: seq<Leaf>, attempts: seq<Attempt>): Option<Mapping> {
    var answer := Accepted(|chunk|, attempts, ATTEMPTS);
    if answer.None? then None else Some(Assign(m, chunk, answer.value))
  }

  /** The mapping after each batch that was translated and saved; a failing batch ends the program. */
  function Mappings(m: Mapping, todo: seq<Leaf>, scripts: seq<seq<Attempt>>): seq<Mapping>
    decreases |todo|
  {
    if todo == [] then []
    else
      var chunk := FirstBatch(todo);
      var next := NextMapping(m, chunk, AttemptsOf(scripts));
      if next.None? then []
      else [next.value] + Mappings(next.value, todo[|chunk|..], if scripts == [] then [] else scripts[1..])
  }

  /** No batch fails. */
  predicate AllAnswered(todo: seq<Leaf>, scripts: seq<seq<Attempt>>)
    decreases |todo|
  {
    todo == [] ||
    (Accepted(|FirstBatch(todo)|, AttemptsOf(scripts), ATTEMPTS).Some? &&
     AllAnswered(todo[|FirstBatch(todo)|..], if scripts == [] then [] else scripts[1..]))
  }

  // ---------------------------------------------------------------- sessions

  datatype File = Missing | Unreadable | Saved(tree: Tree)

  /** A file that cannot be read counts as one that says nothing. */
  function Existing(file: File): Mapping {
    if file.Saved? then MapOf(Collect(file.tree, [])) else map[]
  }

  function DoneIn(en: Tree, file: File): Mapping {
    Done(Collect(en, []), Existing(file))
  }

  function SessionMappings(en: Tree, file: File, scripts: seq<seq<Attempt>>): seq<Mapping> {
    Mappings(DoneIn(en, file), Todo(Collect(en, []), Existing(file)), scripts)
  }

  /** One whole session: the trees it saves, in order, and whether it ran to its end. */
  method TranslateLanguage(en: Tree, file: File, scripts: seq<seq<Attempt>>) returns (saves: seq<Tree>, ok: bool)
    ensures var ms := SessionMappings(en, file, scripts);
            |saves| == |ms| && forall i :: 0 <= i < |ms| ==> saves[i] == Replace(en, [], ms[i])
    ensures ok <==> AllAnswered(Todo(Collect(en, []), Existing(file)), scripts)
  {
    hide Collect, Replace, MapOf, Accepted, Mappings, AllAnswered;
    var english := new Collected();
    english.Traverse(en, []);
    assert english.leaves == Collect(en, []);
    var existing := ReadExisting(file);
    var mapping, todo := SplitDone(english.leaves, existing);
    saves, ok := TranslateBatches(en, mapping, todo, scripts);
  }

  /** The batch loop: translate, extend the mapping, save the whole tree. */
  method TranslateBatches(en: Tree, start: Mapping, todo: seq<Leaf>, scripts: seq<seq<Attempt>>)
    returns (saves: seq<Tree>, ok: bool)
    ensures var ms := Mappings(start, todo, scripts);
            |saves| == |ms| && forall i :: 0 <= i < |ms| ==> saves[i] == Replace(en, [], ms[i])
    ensures ok <==> AllAnswered(todo, scripts)
  {
    hide *;
    var mapping := start;
    ghost var all := Mappings(start, todo, scripts);
    saves, ok := [], true;
    var i, left := 0, scripts;
    assert todo[0..] == todo;
    while i < |todo|
      invariant i <= |todo|
      invariant |saves| <= |all| && all[|saves|..] == Mappings(mapping, todo[i..], left)
      invariant AllAnswered(todo, scripts) <==> AllAnswered(todo[i..], left)
      invariant forall k :: 0 <= k < |saves| ==> saves[k] == Replace(en, [], all[k])
    {
      BatchStep(mapping, todo, i, left);
      var next, size := TranslateNext(mapping, todo, i, AttemptsOf(left));
      if next.None? {
        return saves, false;
      }
      mapping := next.value;
      i, left := i + size, if left == [] then [] else left[1..];
      saves := saves + [Replace(en, [], mapping)];
    }
    NoBatchLeft(mapping, left);
    assert todo[i..] == [];
  }

  /** One batch: the mapping with its translations, if they came, and its size. */
  method TranslateNext(before: Mapping, todo: seq<Leaf>, i: nat, attempts: seq<Attempt>)
    returns (next: Option<Mapping>, size: nat)
    requires i < |todo|
    ensures next == NextMapping(before, FirstBatch(todo[i..]), attempts)
    ensures size == |FirstBatch(todo[i..])|
  {
    hide Accepted, Assign;
    var chunk := if i + BATCH_SIZE <= |todo| then todo[i..i + BATCH_SIZE] else todo[i..];
    assert chunk == FirstBatch(todo[i..]);
    var texts := seq(|chunk|, k requires 0 <= k < |chunk| => chunk[k].text);
    var translated := TranslateBatch(texts, attempts);
    if translated.None? {
      return None, |chunk|;
    }
    var mapping := AssignAll(before, chunk, translated.value);
    return Some(mapping), |chunk|;
  }

  lemma {:induction false} BatchStep(m: Mapping, todo: seq<Leaf>, i: nat, scripts: seq<seq<Attempt>>)
    requires i < |todo|
    ensures var chunk := FirstBatch(todo[i..]);
            var others := if scripts == [] then [] else scripts[1..];
            var next := NextMapping(m, chunk, AttemptsOf(scripts));
            && 0 < |chunk| <= |todo| - i
            && Mappings(m, todo[i..], scripts) ==
               (if next.None? then [] else [next.value] + Mappings(next.value, todo[i + |chunk|..], others))
            && (AllAnswered(todo[i..], scripts) <==> next.Some? && AllAnswered(todo[i + |chunk|..], others))
  {
    hide Accepted, Assign;
    var chunk := FirstBatch(todo[i..]);
    assert todo[i..][|chunk|..] == todo[i + |chunk|..];
  }

  lemma {:induction false} NoBatchLeft(m: Mapping, scripts: seq<seq<Attempt>>)
    ensures Mappings(m, [], scripts) == [] && AllAnswered([], scripts)
  {
  }

  method ReadExisting(file: File) returns (existing: Mapping)
    ensures existing == Existing(file)
  {
    if !file.Saved? {
      return map[];
    }
    var found := new Collected();
    found.Traverse(file.tree, []);
    assert found.leaves == Collect(file.tree, []);
    existing := MapOf(found.leaves);
  }

  method SplitDone(collected: seq<Leaf>, existing: Mapping) returns (mapping: Mapping, todo: seq<Leaf>)
    ensures mapping == Done(collected, existing)
    ensures todo == Todo(collected, existing)
  {
    mapping, todo := map[], [];
    for i := 0 to |collected|
      invariant mapping == Done(collected[..i], existing)
      invariant todo == Todo(collected[..i], existing)
    {
      assert collected[..i + 1][..i] == collected[..i];
      var l := collected[i];
      if l.path in existing && existing[l.path] != l.text {
        mapping := mapping[l.path := existing[l.path]];
      } else {
        todo := todo + [l];
      }
    }
    assert collected[..|collected|] == collected;
  }

  method AssignAll(before: Mapping, chunk: seq<Leaf>, texts: seq<string>) returns (mapping: Mapping)
    requires |texts| == |chunk|
    ensures mapping == Assign(before, chunk, texts)
  {
    mapping := before;
    for i := 0 to |chunk|
      invariant mapping == Assign(before, chunk[..i], texts[..i])
    {
      assert chunk[..i + 1][..i] == chunk[..i] && texts[..i + 1][..i] == texts[..i];
      mapping := mapping[chunk[i].path := texts[i]];
    }
    assert chunk[..|chunk|] == chunk && texts[..|chunk|] == texts;
  }

  /**
   * A session as it may end: `saved` saves reach the file; when `torn`, the program stops in the
   * middle of writing the next one.
   */
  datatype Session = Session(scripts: seq<seq<Attempt>>, saved: nat, torn: bool)

  predicate Torn(en: Tree, file: File, s: Session) {
    s.torn && s.saved < |SessionMappings(en, file, s.scripts)|
  }

  function AfterSession(en: Tree, file: File, s: Session): File {
    var ms := SessionMappings(en, file, s.scripts);
    if Torn(en, file, s) then Unreadable
    else if s.saved == 0 || ms == [] then file
    else Saved(Replace(en, [], ms[if s.saved <= |ms| then s.saved - 1 else |ms| - 1]))
  }

  function AfterSessions(en: Tree, file: File, ss: seq<Session>): File {
    if ss == [] then file
    else AfterSession(en, AfterSessions(en, file, ss[..|ss| - 1]), ss[|ss| - 1])
  }

  predicate NeverTorn(en: Tree, file: File, ss: seq<Session>) {
    ss == [] ||
    (NeverTorn(en, file, ss[..|ss| - 1]) && !Torn(en, AfterSessions(en, file, ss[..|ss| - 1]), ss[|ss| - 1]))
  }

  /** Everything in `a` is in `b`, unchanged. */
  predicate Keeps(a: Mapping, b: Mapping) {
    forall k :: k in a ==> k in b && b[k] == a[k]
  }

  // ---------------------------------------------------------------- the mappings of a session

  lemma {:induction false} AssignIs(m: Mapping, chunk: seq<Leaf>, texts: seq<string>, k: Path)
    requires |texts| == |chunk|
    ensures k in Assign(m, chunk, texts) <==> k in m || HasLeaf(chunk, k)
    ensures !HasLeaf(chunk, k) && k in m ==> Assign(m, chunk, texts)[k] == m[k]
    decreases |chunk|
  {
    if chunk != [] {
      var last := |chunk| - 1;
      var front := chunk[..last];
      AssignIs(m, front, texts[..last], k);
      assert forall i :: 0 <= i < |front| ==> chunk[i] == front[i];
      assert HasLeaf(chunk, k) <==> HasLeaf(front, k) || chunk[last].path == k by {
        if HasLeaf(front, k) {
          var i :| 0 <= i < |front| && front[i].path == k;
          assert chunk[i].path == k;
        }
        if HasLeaf(chunk, k) {
          var i :| 0 <= i < |chunk| && chunk[i].path == k;
          assert i < last ==> front[i].path == k;
        }
      }
    }
  }

  /** Each leaf of a batch gets the answer at its own position. */
  lemma {:induction false} BatchIsZipped(m: Mapping, chunk: seq<Leaf>, texts: seq<string>, i: nat)
    requires DistinctPaths(chunk) && |texts| == |chunk| && i < |chunk|
    ensures chunk[i].path in Assign(m, chunk, texts) && Assign(m, chunk, texts)[chunk[i].path] == texts[i]
    decreases |chunk|
  {
    if i < |chunk| - 1 {
      BatchIsZipped(m, chunk[..|chunk| - 1], texts[..|chunk| - 1], i);
    }
  }

  predicate Apart(m: Mapping, todo: seq<Leaf>) {
    forall i :: 0 <= i < |todo| ==> todo[i].path !in m
  }

  lemma {:induction false} OneBatch(m: Mapping, todo: seq<Leaf>, texts: seq<string>)
    requires DistinctPaths(todo) && Apart(m, todo) && |texts| == |FirstBatch(todo)|
    ensures var m' := Assign(m, FirstBatch(todo), texts);
            var rest := todo[|FirstBatch(todo)|..];
            && Keeps(m, m') && Apart(m', rest) && DistinctPaths(rest)
            && forall k :: k in m' <==> k in m || HasLeaf(FirstBatch(todo), k)
  {
    hide Assign;
    var chunk := FirstBatch(todo);
    var m' := Assign(m, chunk, texts);
    var rest := todo[|chunk|..];
    forall k: Path ensures k in m' <==> k in m || HasLeaf(chunk, k) {
      AssignIs(m, chunk, texts, k);
    }
    forall k | k in m ensures k in m' && m'[k] == m[k] {
      AssignIs(m, chunk, texts, k);
      assert forall i :: 0 <= i < |chunk| ==> chunk[i] == todo[i];
    }
    forall j | 0 <= j < |rest| ensures rest[j].path !in m' {
      assert rest[j] == todo[|chunk| + j];
      assert forall i :: 0 <= i < |chunk| ==> chunk[i] == todo[i];
    }
    assert forall j :: 0 <= j < |rest| ==> rest[j] == todo[|chunk| + j];
  }

  /** Every saved mapping keeps what was there, and only ever adds paths still to be translated. */
  lemma {:induction false} MappingsKeep(m: Mapping, todo: seq<Leaf>, scripts: seq<seq<Attempt>>, i: nat)
    requires DistinctPaths(todo) && Apart(m, todo) && i < |Mappings(m, todo, scripts)|
    ensures Keeps(m, Mappings(m, todo, scripts)[i])
    ensures forall k :: k in Mappings(m, todo, scripts)[i] ==> k in m || HasLeaf(todo, k)
    decreases |todo|
  {
    hide Assign, Accepted;
    var chunk := FirstBatch(todo);
    var answer := Accepted(|chunk|, AttemptsOf(scripts), ATTEMPTS);
    OneBatch(m, todo, answer.value);
    PartsHaveLeaf(todo);
    if i > 0 {
      MappingsKeep(Assign(m, chunk, answer.value), todo[|chunk|..], if scripts == [] then [] else scripts[1..], i - 1);
    }
  }

  /** How many strings the batch with this number has. */
  function SizeOf(todo: seq<Leaf>, batch: nat): int {
    if (batch + 1) * BATCH_SIZE <= |todo| then BATCH_SIZE else |todo| - batch * BATCH_SIZE
  }

  /** The mapping has the text at position `k` of the first good answer to the batch. */
  ghost predicate HasAnswer(m: Mapping, path: Path, size: int, attempts: seq<Attempt>, k: nat) {
    size >= 0 && path in m &&
    exists answer :: FirstGood(size, attempts, ATTEMPTS, answer) && k < |answer| && m[path] == answer[k]
  }

  /** What is saved for a string, from the save after its batch on. */
  lemma {:induction false} SavedIsAnswered(m: Mapping, todo: seq<Leaf>, scripts: seq<seq<Attempt>>, i: nat,
                                           batch: nat, k: nat)
    requires DistinctPaths(todo) && Apart(m, todo) && i < |Mappings(m, todo, scripts)|
    requires k < BATCH_SIZE && batch * BATCH_SIZE + k < |todo| && batch <= i
    ensures batch < |scripts|
    ensures HasAnswer(Mappings(m, todo, scripts)[i], todo[batch * BATCH_SIZE + k].path,
                      SizeOf(todo, batch), scripts[batch], k)
    decreases |todo|
  {
    hide Assign, FirstGood, Good, DistinctPaths, Apart, HasLeaf, Mappings, FirstBatch, HasAnswer, SizeOf, Keeps;
    var answer := FirstMapping(m, todo, scripts);
    var m' := Assign(m, FirstBatch(todo), answer);
    OneBatch(m, todo, answer);
    if batch == 0 {
      BatchSizes(todo, k);
      AnswerIsIn(m, todo, scripts[0], answer, k);
      if i > 0 {
        MappingsKeep(m', todo[|FirstBatch(todo)|..], scripts[1..], i - 1);
        AnswerStays(m', Mappings(m, todo, scripts)[i], todo[k].path, SizeOf(todo, 0), scripts[0], k);
      }
    } else {
      LaterBatch(todo, batch, k);
      SavedIsAnswered(m', todo[BATCH_SIZE..], scripts[1..], i - 1, batch - 1, k);
    }
  }

  lemma {:induction false} FirstMapping(m: Mapping, todo: seq<Leaf>, scripts: seq<seq<Attempt>>)
    returns (answer: seq<string>)
    requires Mappings(m, todo, scripts) != []
    ensures scripts != [] && 0 < |FirstBatch(todo)| <= |todo| && |answer| == |FirstBatch(todo)|
    ensures FirstGood(|FirstBatch(todo)|, scripts[0], ATTEMPTS, answer)
    ensures var m' := Assign(m, FirstBatch(todo), answer);
            Mappings(m, todo, scripts) == [m'] + Mappings(m', todo[|FirstBatch(todo)|..], scripts[1..])
  {
    hide Assign, FirstGood;
    answer := Accepted(|FirstBatch(todo)|, AttemptsOf(scripts), ATTEMPTS).value;
  }

  lemma {:induction false} BatchSizes(todo: seq<Leaf>, k: nat)
    requires k < BATCH_SIZE && k < |todo|
    ensures SizeOf(todo, 0) == |FirstBatch(todo)| > k
  {
  }

  lemma {:induction false} LaterBatch(todo: seq<Leaf>, batch: nat, k: nat)
    requires batch >= 1 && k < BATCH_SIZE && batch * BATCH_SIZE + k < |todo|
    ensures |FirstBatch(todo)| == BATCH_SIZE
    ensures SizeOf(todo[BATCH_SIZE..], batch - 1) == SizeOf(todo, batch)
    ensures todo[BATCH_SIZE..][(batch - 1) * BATCH_SIZE + k] == todo[batch * BATCH_SIZE + k]
  {
  }

  lemma {:induction false} AnswerIsIn(m: Mapping, todo: seq<Leaf>, attempts: seq<Attempt>, texts: seq<string>, k: nat)
    requires DistinctPaths(todo) && |texts| == |FirstBatch(todo)| && k < |FirstBatch(todo)|
    requires FirstGood(|FirstBatch(todo)|, attempts, ATTEMPTS, texts)
    ensures HasAnswer(Assign(m, FirstBatch(todo), texts), todo[k].path, |FirstBatch(todo)|, attempts, k)
  {
    hide Assign, FirstGood;
    BatchIsZipped(m, FirstBatch(todo), texts, k);
  }

  lemma {:induction false} AnswerStays(m: Mapping, m': Mapping, path: Path, size: int, attempts: seq<Attempt>, k: nat)
    requires HasAnswer(m, path, size, attempts, k) && Keeps(m, m')
    ensures HasAnswer(m', path, size, attempts, k)
  {
    hide FirstGood;
  }

  lemma {:induction false} PartsHaveLeaf(todo: seq<Leaf>)
    ensures forall k :: HasLeaf(FirstBatch(todo), k) || HasLeaf(todo[|FirstBatch(todo)|..], k) <==> HasLeaf(todo, k)
  {
    var chunk := FirstBatch(todo);
    var rest := todo[|chunk|..];
    assert todo == chunk + rest;
    forall k: Path ensures HasLeaf(chunk, k) || HasLeaf(rest, k) <==> HasLeaf(todo, k) {
      if HasLeaf(chunk, k) {
        var i :| 0 <= i < |chunk| && chunk[i].path == k;
        assert todo[i].path == k;
      }
      if HasLeaf(rest, k) {
        var i :| 0 <= i < |rest| && rest[i].path == k;
        assert todo[|chunk| + i].path == k;
      }
      if HasLeaf(todo, k) {
        var i :| 0 <= i < |todo| && todo[i].path == k;
        assert if i < |chunk| then chunk[i].path == k else rest[i - |chunk|].path == k;
      }
    }
  }

  lemma {:induction false} NoLeaf(leaves: seq<Leaf>)
    requires leaves == []
    ensures forall k :: !HasLeaf(leaves, k)
  {
  }

  /** When no batch fails, the last mapping holds every path that was to be translated. */
  lemma {:induction false} AllAnsweredCovers(m: Mapping, todo: seq<Leaf>, scripts: seq<seq<Attempt>>)
    requires DistinctPaths(todo) && Apart(m, todo) && todo != [] && AllAnswered(todo, scripts)
    ensures var ms := Mappings(m, todo, scripts);
            ms != [] && forall k :: HasLeaf(todo, k) ==> k in ms[|ms| - 1]
    decreases |todo|
  {
    hide Assign, Accepted, HasLeaf, Apart, DistinctPaths;
    var chunk := FirstBatch(todo);
    var answer := Accepted(|chunk|, AttemptsOf(scripts), ATTEMPTS);
    var m' := Assign(m, chunk, answer.value);
    var rest, others := todo[|chunk|..], if scripts == [] then [] else scripts[1..];
    OneBatch(m, todo, answer.value);
    PartsHaveLeaf(todo);
    if rest != [] {
      AllAnsweredCovers(m', rest, others);
      var ms := Mappings(m', rest, others);
      MappingsKeep(m', rest, others, |ms| - 1);
    } else {
      assert Mappings(m', rest, others) == [];
      NoLeaf(rest);
    }
  }

  lemma {:induction false} TodoDistinct(leaves: seq<Leaf>, existing: Mapping)
    requires DistinctPaths(leaves)
    ensures DistinctPaths(Todo(leaves, existing))
  {
    if leaves != [] {
      var front, l := leaves[..|leaves| - 1], leaves[|leaves| - 1];
      TodoDistinct(front, existing);
      var todo := Todo(front, existing);
      forall i | 0 <= i < |todo| ensures todo[i].path != l.path {
        TodoIs(front, existing, todo[i]);
        var j :| 0 <= j < |front| && front[j] == todo[i];
        assert leaves[j].path != l.path;
      }
    }
  }

  lemma {:induction false} StartIsApart(en: Tree, existing: Mapping)
    requires WellFormed(en)
    ensures DistinctPaths(Todo(Collect(en, []), existing))
    ensures Apart(Done(Collect(en, []), existing), Todo(Collect(en, []), existing))
    ensures forall k :: k in Done(Collect(en, []), existing) ==> HasLeaf(Collect(en, []), k)
    ensures forall k :: HasLeaf(Todo(Collect(en, []), existing), k) ==> HasLeaf(Collect(en, []), k)
  {
    hide Collect, Done, Todo;
    var leaves := Collect(en, []);
    PathsAreDistinct(en, []);
    TodoDistinct(leaves, existing);
    var todo := Todo(leaves, existing);
    forall i | 0 <= i < |todo| ensures todo[i].path !in Done(leaves, existing) && HasLeaf(leaves, todo[i].path) {
      TodoIs(leaves, existing, todo[i]);
      DoneIs(leaves, existing, todo[i].path);
      var j :| 0 <= j < |leaves| && leaves[j] == todo[i];
    }
    forall k | k in Done(leaves, existing) ensures HasLeaf(leaves, k) {
      DoneIs(leaves, existing, k);
    }
  }

  // ---------------------------------------------------------------- what a saved tree says

  /** After a save, the translations found on resuming are the mapped texts that differ from English. */
  lemma {:induction false} ResumeSeesSave(en: Tree, m: Mapping, i: nat)
    requires WellFormed(en) && i < |Collect(en, [])|
    requires forall k :: k in m ==> HasLeaf(Collect(en, []), k)
    ensures var l := Collect(en, [])[i];
            var existing := Existing(Saved(Replace(en, [], m)));
            && l.path in existing
            && existing[l.path] == (if l.path in m then m[l.path] else l.text)
  {
    hide Collect, Replace, MapOf;
    LeafKeysAvoidInner(en, [], m);
    CollectMappedIff(en, m);
    PathsAreDistinct(en, []);
    var leaves := Collect(en, []);
    var mapped := Mapped(leaves, m);
    assert DistinctPaths(mapped);
    MapOfAt(mapped, i);
  }

  lemma {:induction false} DoneAfterSave(en: Tree, m: Mapping, i: nat)
    requires WellFormed(en) && i < |Collect(en, [])|
    requires forall k :: k in m ==> HasLeaf(Collect(en, []), k)
    ensures var l := Collect(en, [])[i];
            var done := DoneIn(en, Saved(Replace(en, [], m)));
            && (l.path in done <==> l.path in m && m[l.path] != l.text)
            && (l.path in done ==> done[l.path] == m[l.path])
  {
    hide Collect, Replace, MapOf, Done;
    var leaves := Collect(en, []);
    var existing := Existing(Saved(Replace(en, [], m)));
    ResumeSeesSave(en, m, i);
    DoneIs(leaves, existing, leaves[i].path);
    PathsAreDistinct(en, []);
    assert forall j :: 0 <= j < |leaves| && leaves[j].path == leaves[i].path ==> j == i;
  }

  lemma {:induction false} DoneDiffersFromEnglish(en: Tree, file: File, i: nat)
    requires WellFormed(en) && i < |Collect(en, [])| && Collect(en, [])[i].path in DoneIn(en, file)
    ensures DoneIn(en, file)[Collect(en, [])[i].path] != Collect(en, [])[i].text
  {
    hide Collect, Done;
    var leaves := Collect(en, []);
    DoneIs(leaves, Existing(file), leaves[i].path);
    PathsAreDistinct(en, []);
    assert forall j :: 0 <= j < |leaves| && leaves[j].path == leaves[i].path ==> j == i;
  }

  lemma {:induction false} SessionMapping(en: Tree, file: File, scripts: seq<seq<Attempt>>, i: nat)
    requires WellFormed(en) && i < |SessionMappings(en, file, scripts)|
    ensures var m := SessionMappings(en, file, scripts)[i];
            Keeps(DoneIn(en, file), m) && forall k :: k in m ==> HasLeaf(Collect(en, []), k)
  {
    hide Collect, Mappings, Done, Todo;
    StartIsApart(en, Existing(file));
    MappingsKeep(DoneIn(en, file), Todo(Collect(en, []), Existing(file)), scripts, i);
  }

  // ---------------------------------------------------------------- main results

  /** Every saved tree has the English paths in the English order, with the mapped texts. */
  lemma {:induction false} SavesHaveEnglishShape(en: Tree, file: File, scripts: seq<seq<Attempt>>, i: nat)
    requires WellFormed(en) && i < |SessionMappings(en, file, scripts)|
    ensures var m := SessionMappings(en, file, scripts)[i];
            Collect(Replace(en, [], m), []) == Mapped(Collect(en, []), m)
  {
    hide *;
    SessionMapping(en, file, scripts, i);
    var m := SessionMappings(en, file, scripts)[i];
    LeafKeysAvoidInner(en, [], m);
    CollectMappedIff(en, m);
  }

  /** A save never loses a text that differs from the English one. */
  lemma {:induction false} SaveKeepsTranslations(en: Tree, file: File, scripts: seq<seq<Attempt>>, i: nat)
    requires WellFormed(en) && i < |SessionMappings(en, file, scripts)|
    ensures Keeps(DoneIn(en, file), DoneIn(en, Saved(Replace(en, [], SessionMappings(en, file, scripts)[i]))))
  {
    hide Collect, Replace, Mappings, SessionMappings, Done, DoneIn;
    var m := SessionMappings(en, file, scripts)[i];
    SessionMapping(en, file, scripts, i);
    var before, after := DoneIn(en, file), DoneIn(en, Saved(Replace(en, [], m)));
    forall k | k in before ensures k in after && after[k] == before[k] {
      var j :| 0 <= j < |Collect(en, [])| && Collect(en, [])[j].path == k;
      DoneAfterSave(en, m, j);
      DoneDiffersFromEnglish(en, file, j);
    }
  }

  /** A session keeps every translation exactly when it does not stop inside a write, or there was none. */
  lemma {:induction false} SessionKeepsIff(en: Tree, file: File, s: Session)
    requires WellFormed(en)
    ensures Keeps(DoneIn(en, file), DoneIn(en, AfterSession(en, file, s))) <==>
            (!Torn(en, file, s) || DoneIn(en, file) == map[])
  {
    hide Collect, Replace, SessionMappings, MapOf, Done, Torn;
    if Torn(en, file, s) {
      NothingInUnreadable(en);
      assert DoneIn(en, file) == map[] <==> forall k :: k !in DoneIn(en, file);
    } else {
      var ms := SessionMappings(en, file, s.scripts);
      if s.saved > 0 && ms != [] {
        SaveKeepsTranslations(en, file, s.scripts, if s.saved <= |ms| then s.saved - 1 else |ms| - 1);
      }
    }
  }

  lemma {:induction false} OneBatchAnswered(m: Mapping, todo: seq<Leaf>, good: Attempt)
    requires todo != [] && Good(good, |FirstBatch(todo)|)
    ensures Mappings(m, todo, [[good]]) != []
  {
    hide Assign;
    assert Good([good][0], |FirstBatch(todo)|);
    assert Accepted(|FirstBatch(todo)|, AttemptsOf([[good]]), ATTEMPTS).Some?;
  }

  /**
   * Whenever something is translated and something is left to translate, some session stops inside
   * its first write and so loses every translation.
   */
  lemma {:induction false} SomeSessionIsTorn(en: Tree, file: File) returns (s: Session)
    requires WellFormed(en) && Todo(Collect(en, []), Existing(file)) != []
    ensures Torn(en, file, s) && DoneIn(en, AfterSession(en, file, s)) == map[]
  {
    hide Collect, Done, Todo, Existing, Mappings, DoneIn, FirstBatch;
    var todo := Todo(Collect(en, []), Existing(file));
    var good := Texts(seq(|FirstBatch(todo)|, i => ""));
    s := Session([[good]], 0, true);
    OneBatchAnswered(DoneIn(en, file), todo, good);
    NothingInUnreadable(en);
  }

  /** For example: of two strings one is translated, the other one is left. */
  lemma {:induction false} TornSessionLosesAText() returns (s: Session)
    ensures var en := Dict([Field("a", Str("one")), Field("b", Str("two"))]);
            var file := Saved(Dict([Field("a", Str("eins"))]));
            && WellFormed(en)
            && DoneIn(en, file) == map[[Name("a")] := "eins"]
            && DoneIn(en, AfterSession(en, file, s)) == map[]
  {
    var en := Dict([Field("a", Str("one")), Field("b", Str("two"))]);
    var old_tree := Dict([Field("a", Str("eins"))]);
    var file := Saved(old_tree);
    var a, b := Leaf([Name("a")], "one"), Leaf([Name("b")], "two");
    TwoStrings(en, a, b);
    OneString(old_tree, Leaf([Name("a")], "eins"));
    var existing := Existing(file);
    assert existing == map[[Name("a")] := "eins"] by {
      assert [Leaf([Name("a")], "eins")][..0] == [];
    }
    assert [a, b][..1] == [a] && [a][..0] == [];
    assert [Name("a")][0] != [Name("b")][0];
    assert Done([a], existing) == map[[Name("a")] := "eins"];
    assert IsDone(a, existing) && !IsDone(b, existing);
    assert Todo([a], existing) == [];
    assert Todo([a, b], existing) == [b];
    s := SomeSessionIsTorn(en, file);
  }

  lemma {:induction false} TwoStrings(t: Tree, a: Leaf, b: Leaf)
    requires t.Dict? && |t.fields| == 2 && t.fields[0].key != t.fields[1].key
    requires t.fields[0].value == Str(a.text) && t.fields[1].value == Str(b.text)
    requires a.path == [Name(t.fields[0].key)] && b.path == [Name(t.fields[1].key)]
    ensures WellFormed(t) && Collect(t, []) == [a, b]
  {
    assert CollectFrom(t, 2, []) == [];
    assert [] + [ChildKey(t, 0)] == a.path && [] + [ChildKey(t, 1)] == b.path;
    assert Collect(Child(t, 0), a.path) == [a] && Collect(Child(t, 1), b.path) == [b];
    assert CollectFrom(t, 1, []) == [b] + CollectFrom(t, 2, []);
    assert CollectFrom(t, 0, []) == [a] + CollectFrom(t, 1, []);
  }

  lemma {:induction false} OneString(t: Tree, a: Leaf)
    requires t.Dict? && |t.fields| == 1 && t.fields[0].value == Str(a.text) && a.path == [Name(t.fields[0].key)]
    ensures Collect(t, []) == [a]
  {
    assert CollectFrom(t, 1, []) == [];
    assert [] + [ChildKey(t, 0)] == a.path;
    assert Collect(Child(t, 0), a.path) == [a];
    assert CollectFrom(t, 0, []) == [a] + CollectFrom(t, 1, []);
  }

  lemma {:induction false} NothingInUnreadable(en: Tree)
    ensures DoneIn(en, Unreadable) == map[]
  {
    hide Collect, Done;
    forall k: Path ensures k !in DoneIn(en, Unreadable) {
      DoneIs(Collect(en, []), map[], k);
    }
  }

  /** Over any number of sessions, none of which stops inside a write, no translation is ever lost or changed. */
  lemma {:induction false} SessionsKeepTranslations(en: Tree, file: File, ss: seq<Session>)
    requires WellFormed(en) && NeverTorn(en, file, ss)
    ensures Keeps(DoneIn(en, file), DoneIn(en, AfterSessions(en, file, ss)))
    decreases |ss|
  {
    hide DoneIn, AfterSession, Torn;
    if ss != [] {
      SessionsKeepTranslations(en, file, ss[..|ss| - 1]);
      SessionKeepsIff(en, AfterSessions(en, file, ss[..|ss| - 1]), ss[|ss| - 1]);
    }
  }

  /**
   * A session in which no batch fails leaves to the next one just the strings whose translation
   * equals the English text.
   */
  lemma {:induction false} FinishedSessionLeavesEchoes(en: Tree, file: File, scripts: seq<seq<Attempt>>, i: nat)
    requires WellFormed(en) && i < |Collect(en, [])|
    requires var todo := Todo(Collect(en, []), Existing(file)); todo != [] && AllAnswered(todo, scripts)
    ensures var ms := SessionMappings(en, file, scripts);
            && ms != []
            && var m := ms[|ms| - 1];
               var l := Collect(en, [])[i];
               && l.path in m
               && (l in Todo(Collect(en, []), Existing(Saved(Replace(en, [], m)))) <==> m[l.path] == l.text)
  {
    hide Collect, Replace, Mappings, Done, Todo, MapOf, AllAnswered;
    var leaves := Collect(en, []);
    var todo := Todo(leaves, Existing(file));
    StartIsApart(en, Existing(file));
    AllAnsweredCovers(DoneIn(en, file), todo, scripts);
    var ms := SessionMappings(en, file, scripts);
    var m := ms[|ms| - 1];
    SessionMapping(en, file, scripts, |ms| - 1);
    var l := leaves[i];
    TodoIs(leaves, Existing(file), l);
    DoneIs(leaves, Existing(file), l.path);
    if l in todo {
      var j :| 0 <= j < |todo| && todo[j] == l;
      assert HasLeaf(todo, l.path);
    } else {
      assert l.path in DoneIn(en, file);
    }
    ResumeSeesSave(en, m, i);
    TodoIs(leaves, Existing(Saved(Replace(en, [], m))), l);
  }
}
