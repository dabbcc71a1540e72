/**
 * The streaming batch scheduler: files are taken from a stream under back-pressure,
 * cut into batches, and emitted as soon as their last batch is back. Batches come
 * back in any order and may throw.
 */
module StreamScheduler {
  import opened BatchTypes

  /** A future is identified by the stream position of its file and its batch index. */
  type FutureId = (nat, nat)

  datatype Emission =
    Emission(pos: nat, texts: seq<Text>, warnings: seq<Warning>, failed: bool)

  /** What a run is given: the configuration, the stream, and what each batch's future will hold. */
  datatype Env = Env(cfg: Config, files: seq<FileTask>, outcome: BatchTask -> WorkerReply)

  /** The local variables of the scheduling loop. */
  datatype State = State(
    next: nat,
    exhausted: bool,
    futures: map<FutureId, BatchTask>,
    pending: int,
    buffers: map<string, map<nat, Processed>>,
    counts: map<string, nat>,
    warnings: map<string, seq<Warning>>,
    emitted: seq<Emission>,
    crashed: bool)

  const INIT: State := State(0, false, map[], 0, map[], map[], map[], [], false)

  function MaxPending(env: Env): nat {
    env.cfg.maxWorkers * 4
  }

  function Batches(env: Env, p: nat): seq<seq<Text>>
    requires p < |env.files|
  {
    Slices(env.files[p].texts, env.cfg.ChunkSize(env.files[p].provider))
  }

  function Count(env: Env, p: nat): nat
    requires p < |env.files|
  {
    |Batches(env, p)|
  }

  function BatchOf(env: Env, p: nat, i: nat): BatchTask
    requires p < |env.files| && i < Count(env, p)
  {
    var start := i * env.cfg.ChunkSize(env.files[p].provider);
    var texts := Batches(env, p)[i];
    BatchTask(p, env.files[p], i, start, start + |texts|, texts)
  }

  /** The future's result: an exception is replaced by a failed task holding the source texts. */
  function Settle(env: Env, b: BatchTask): (Processed, seq<Warning>) {
    match env.outcome(b)
    case Raised => (Processed(b, Some(b.texts), true, false), [])
    case Reply(t, failed, fellBack, ws) => (Processed(b, t, failed, fellBack), ws)
  }

  // ---------------------------------------------------------------- transitions

  /** Adds the futures of the first `n` batches of the file at `p`. */
  function AddFutures(env: Env, p: nat, n: nat, futures: map<FutureId, BatchTask>): map<FutureId, BatchTask>
    requires p < |env.files| && n <= Count(env, p)
  {
    if n == 0 then futures
    else AddFutures(env, p, n - 1, futures)[(p, n - 1) := BatchOf(env, p, n - 1)]
  }

  function SubmitNext(env: Env, st: State): State
    requires st.next < |env.files|
  {
    var p := st.next;
    var f := env.files[p];
    if f.texts == [] then
      st.(next := p + 1, emitted := st.emitted + [Emission(p, [], [], false)])
    else
      st.(next := p + 1,
          counts := st.counts[f.filename := Count(env, p)],
          buffers := st.buffers[f.filename := map[]],
          warnings := st.warnings[f.filename := []],
          futures := AddFutures(env, p, Count(env, p), st.futures),
          pending := st.pending + Count(env, p))
  }

  function Concat(sorted: seq<Processed>): seq<Text> {
    if sorted == [] then [] else sorted[0].Texts() + Concat(sorted[1..])
  }

  predicate HasAll(buffer: map<nat, Processed>, n: nat) {
    forall i: nat :: i < n ==> i in buffer
  }

  function Sorted(buffer: map<nat, Processed>, n: nat): seq<Processed>
    requires HasAll(buffer, n)
  {
    seq(n, (i: nat) requires i < n => buffer[i])
  }

  function Assemble(sorted: seq<Processed>, warnings: seq<Warning>): Emission
    requires sorted != []
  {
    Emission(sorted[0].task.pos, Concat(sorted), warnings, exists i: nat :: i < |sorted| && sorted[i].Bad())
  }

  /** Assembles and yields a complete file, and forgets it; a missing batch index is a KeyError. */
  function Emit(st: State, name: string): State
    requires name in st.buffers && name in st.counts
  {
    var n := st.counts[name];
    var ws := if name in st.warnings then st.warnings[name] else [];
    if n == 0 || !HasAll(st.buffers[name], n) then st.(crashed := true)
    else
      st.(emitted := st.emitted + [Assemble(Sorted(st.buffers[name], n), ws)],
          buffers := st.buffers - {name},
          counts := st.counts - {name},
          warnings := st.warnings - {name})
  }

  function Extend(warnings: map<string, seq<Warning>>, name: string, ws: seq<Warning>): map<string, seq<Warning>> {
    if ws == [] then warnings
    else warnings[name := (if name in warnings then warnings[name] else []) + ws]
  }

  function Put(buffer: map<nat, Processed>, i: nat, result: Processed): map<nat, Processed> {
    buffer[i := result]
  }

  /** The state after a result was stored in its buffer, before the check for completeness. */
  function Stored(env: Env, st: State, id: FutureId): State
    requires id in st.futures && st.futures[id].file.filename in st.buffers
  {
    var b := st.futures[id];
    var name := b.file.filename;
    var (processed, ws) := Settle(env, b);
    var buffer := Put(st.buffers[name], b.index, processed);
    st.(futures := st.futures - {id},
        pending := st.pending - 1,
        buffers := st.buffers[name := buffer],
        warnings := Extend(st.warnings, name, ws))
  }

  /** A file whose last batch is back is emitted; a missing count is a KeyError. */
  function EmitIfComplete(st: State, name: string): State
    requires name in st.buffers
  {
    if name !in st.counts then st.(crashed := true)
    else if |st.buffers[name]| == st.counts[name] then Emit(st, name)
    else st
  }

  /** Takes one finished future off the table; the result of a forgotten file is dropped. */
  function Finish(env: Env, st: State, id: FutureId): State
    requires id in st.futures
  {
    var name := st.futures[id].file.filename;
    if name !in st.buffers then st.(futures := st.futures - {id}, pending := st.pending - 1)
    else EmitIfComplete(Stored(env, st, id), name)
  }

  datatype Event = Submit | StopIteration | Complete(id: FutureId)

  /** When the loop can take a step: submissions are held back at the pending limit. */
  predicate Enabled(env: Env, st: State, e: Event) {
    match e
    case Submit => !st.exhausted && st.pending < MaxPending(env) && st.next < |env.files|
    case StopIteration => !st.exhausted && st.pending < MaxPending(env) && st.next >= |env.files|
    case Complete(id) => id in st.futures
  }

  function Apply(env: Env, st: State, e: Event): State
    requires Enabled(env, st, e)
  {
    match e
    case Submit => SubmitNext(env, st)
    case StopIteration => st.(exhausted := true)
    case Complete(id) => Finish(env, st, id)
  }

  /** The loop condition is false. */
  predicate Terminal(st: State) {
    st.exhausted && st.futures == map[]
  }

  // ---------------------------------------------------------------- specification

  /** Files with text have pairwise different names: the buffers are keyed by filename. */
  ghost predicate DistinctNames(files: seq<FileTask>) {
    forall p, q :: 0 <= p < q < |files| && files[p].texts != [] && files[q].texts != []
      ==> files[p].filename != files[q].filename
  }

  function Result(env: Env, p: nat, i: nat): Processed
    requires p < |env.files| && i < Count(env, p)
  {
    Settle(env, BatchOf(env, p, i)).0
  }

  /** Every batch of the file, processed, in batch order. */
  function Results(env: Env, p: nat): seq<Processed>
    requires p < |env.files|
  {
    seq(Count(env, p), (i: nat) requires i < Count(env, p) => Result(env, p, i))
  }

  /** The warnings of those of the first `n` batches whose index is in `done`. */
  ghost function WarningsOf(env: Env, p: nat, done: set<nat>, n: nat): multiset<Warning>
    requires p < |env.files| && n <= Count(env, p)
  {
    if n == 0 then multiset{}
    else WarningsOf(env, p, done, n - 1) +
         (if n - 1 in done then multiset(Settle(env, BatchOf(env, p, n - 1)).1) else multiset{})
  }

  /**
   * What must be emitted for a file: its batches in index order, whatever order they finished in,
   * flagged as failed exactly when some batch failed or fell back, with its own warnings.
   */
  ghost predicate Expected(env: Env, e: Emission) {
    && e.pos < |env.files|
    && e.texts == Concat(Results(env, e.pos))
    && (e.failed <==> exists i: nat :: i < Count(env, e.pos) && Result(env, e.pos, i).Bad())
    && multiset(e.warnings) == WarningsOf(env, e.pos, Range(Count(env, e.pos)), Count(env, e.pos))
  }

  /** In terms of the replies alone: what one batch contributes to the texts of its file. */
  function GivenTexts(env: Env, b: BatchTask): seq<Text> {
    match env.outcome(b)
    case Raised => b.texts
    case Reply(Some(t), _, _, _) => t
    case Reply(None, _, _, _) => []
  }

  function GivenWarnings(env: Env, b: BatchTask): seq<Warning> {
    match env.outcome(b)
    case Raised => []
    case Reply(_, _, _, ws) => ws
  }

  predicate Unfinished(env: Env, b: BatchTask) {
    match env.outcome(b)
    case Raised => true
    case Reply(_, failed, fellBack, _) => failed || fellBack
  }

  /** What the first `n` batches of the file contribute, batch by batch. */
  function AllTexts(env: Env, p: nat, n: nat): (r: seq<seq<Text>>)
    requires p < |env.files| && n <= Count(env, p)
    ensures |r| == n && forall i: nat :: i < n ==> r[i] == GivenTexts(env, BatchOf(env, p, i))
  {
    seq(n, (i: nat) requires i < n => GivenTexts(env, BatchOf(env, p, i)))
  }

  function AllWarnings(env: Env, p: nat, n: nat): (r: seq<seq<Warning>>)
    requires p < |env.files| && n <= Count(env, p)
    ensures |r| == n && forall i: nat :: i < n ==> r[i] == GivenWarnings(env, BatchOf(env, p, i))
  {
    seq(n, (i: nat) requires i < n => GivenWarnings(env, BatchOf(env, p, i)))
  }

  /**
   * What an expected emission says about the worker's replies: a thrown batch leaves its source texts
   * and flags the file, and so does a reply marked as failed or as fallen back; a reply leaves its own
   * texts, none if it has none; the warnings are those of the replies.
   */
  lemma {:induction false} ExpectedInFull(env: Env, e: Emission)
    requires e.pos < |env.files|
    ensures Expected(env, e) <==>
            && e.texts == Flatten(AllTexts(env, e.pos, Count(env, e.pos)))
            && (e.failed <==> exists i: nat :: i < Count(env, e.pos) && Unfinished(env, BatchOf(env, e.pos, i)))
            && multiset(e.warnings) == multiset(Flatten(AllWarnings(env, e.pos, Count(env, e.pos))))
  {
    hide Count, BatchOf, Concat, Flatten, WarningsOf, AllTexts, AllWarnings;
    var p, n := e.pos, Count(env, e.pos);
    ResultIsGiven(env, p);
    ConcatIsFlatten(Results(env, p), AllTexts(env, p, n));
    WarningsGiven(env, p, n);
  }

  lemma {:induction false} ResultIsGiven(env: Env, p: nat)
    requires p < |env.files|
    ensures forall i: nat :: i < Count(env, p) ==>
              && Result(env, p, i).Texts() == GivenTexts(env, BatchOf(env, p, i))
              && (Result(env, p, i).Bad() <==> Unfinished(env, BatchOf(env, p, i)))
  {
    hide Count, BatchOf;
  }

  lemma {:induction false} WarningsGiven(env: Env, p: nat, n: nat)
    requires p < |env.files| && n <= Count(env, p)
    ensures WarningsOf(env, p, Range(Count(env, p)), n) == multiset(Flatten(AllWarnings(env, p, n)))
  {
    hide Count, BatchOf, WarningsOf;
    if n == 0 {
      NoBatches(env, p, Range(Count(env, p)));
    } else {
      WarningsGiven(env, p, n - 1);
      OneMoreBatch(env, p, Range(Count(env, p)), n);
      var front, last := AllWarnings(env, p, n - 1), GivenWarnings(env, BatchOf(env, p, n - 1));
      assert AllWarnings(env, p, n) == front + [last];
      FlattenAppend(front, [last]);
      FlattenOne(last);
    }
  }

  lemma {:induction false} FlattenOne<T>(s: seq<T>)
    ensures Flatten([s]) == s
  {
  }

  lemma {:induction false} ConcatIsFlatten(results: seq<Processed>, parts: seq<seq<Text>>)
    requires |results| == |parts|
    requires forall i :: 0 <= i < |parts| ==> results[i].Texts() == parts[i]
    ensures Concat(results) == Flatten(parts)
  {
    if results != [] {
      ConcatIsFlatten(results[1..], parts[1..]);
    }
  }

  // ---------------------------------------------------------------- invariant

  ghost predicate EmittedAt(emitted: seq<Emission>, p: nat) {
    exists k :: 0 <= k < |emitted| && emitted[k].pos == p
  }

  /** The file at `p` has text, was submitted, and is not emitted yet. */
  ghost predicate Open(env: Env, st: State, p: nat) {
    p < st.next <= |env.files| && env.files[p].texts != [] && !EmittedAt(st.emitted, p)
  }

  ghost predicate FutureOk(env: Env, st: State, id: FutureId)
    requires id in st.futures
  {
    && Open(env, st, id.0)
    && id.1 < Count(env, id.0)
    && st.futures[id] == BatchOf(env, id.0, id.1)
    && env.files[id.0].filename in st.buffers
    && id.1 !in st.buffers[env.files[id.0].filename]
  }

  /** An open file's buffer holds exactly the results of the batches that are no longer outstanding. */
  ghost predicate BufferOk(env: Env, st: State, p: nat)
    requires Open(env, st, p)
  {
    var name := env.files[p].filename;
    && name in st.buffers
    && name in st.counts && st.counts[name] == Count(env, p)
    && name in st.warnings
    && var buffer := st.buffers[name];
       && multiset(st.warnings[name]) == WarningsOf(env, p, buffer.Keys, Count(env, p))
       && (forall i :: i in buffer ==> i < Count(env, p) && buffer[i] == Result(env, p, i))
       && (forall i: nat :: i < Count(env, p) ==> i in buffer || (p, i) in st.futures)
  }

  ghost predicate OpenOk(env: Env, st: State, p: nat)
    requires Open(env, st, p)
  {
    BufferOk(env, st, p) && |st.buffers[env.files[p].filename]| < Count(env, p)
  }

  /** Emissions are as expected, one for each file; those of files without text come at once. */
  ghost predicate EmittedOk(env: Env, st: State) {
    && (forall k :: 0 <= k < |st.emitted| ==> st.emitted[k].pos < st.next && Expected(env, st.emitted[k]))
    && (forall j, k :: 0 <= j < k < |st.emitted| ==> st.emitted[j].pos != st.emitted[k].pos)
    && (forall p: nat :: p < st.next <= |env.files| && env.files[p].texts == [] ==> EmittedAt(st.emitted, p))
  }

  ghost predicate Owned(env: Env, st: State, name: string) {
    exists p: nat :: Open(env, st, p) && env.files[p].filename == name
  }

  ghost predicate TablesOk(env: Env, st: State) {
    && !st.crashed
    && st.next <= |env.files|
    && (st.exhausted ==> st.next == |env.files|)
    && st.pending == |st.futures|
    && st.buffers.Keys == st.counts.Keys == st.warnings.Keys
  }

  ghost predicate NamesOwned(env: Env, st: State) {
    forall name :: name in st.buffers ==> Owned(env, st, name)
  }

  /** Files that are open at the same time have different names. */
  ghost predicate NamesApart(env: Env, st: State) {
    forall p: nat, q: nat :: Open(env, st, p) && Open(env, st, q) && p != q ==>
      env.files[p].filename != env.files[q].filename
  }

  ghost predicate FuturesOk(env: Env, st: State) {
    forall id :: id in st.futures ==> FutureOk(env, st, id)
  }

  ghost predicate FilesOk(env: Env, st: State) {
    forall p: nat :: Open(env, st, p) ==> OpenOk(env, st, p)
  }

  ghost predicate Inv(env: Env, st: State) {
    TablesOk(env, st) && NamesOwned(env, st) && NamesApart(env, st) &&
    FuturesOk(env, st) && FilesOk(env, st) && EmittedOk(env, st)
  }

  /** The next file has text and the name of a file that still has a buffer, which it resets. */
  predicate Clashes(env: Env, st: State, e: Event) {
    e.Submit? && st.next < |env.files| && env.files[st.next].texts != [] &&
    env.files[st.next].filename in st.buffers
  }

  // ---------------------------------------------------------------- submitting keeps the invariant

  lemma {:induction false} AddedKeys(env: Env, p: nat, n: nat, futures: map<FutureId, BatchTask>, id: FutureId)
    requires p < |env.files| && n <= Count(env, p)
    ensures id in AddFutures(env, p, n, futures) <==> id in futures || (id.0 == p && id.1 < n)
  {
    if n > 0 {
      AddedKeys(env, p, n - 1, futures, id);
    }
  }

  lemma {:induction false} AddedValues(env: Env, p: nat, n: nat, futures: map<FutureId, BatchTask>, id: FutureId)
    requires p < |env.files| && n <= Count(env, p)
    requires id in AddFutures(env, p, n, futures)
    ensures AddFutures(env, p, n, futures)[id] ==
            if id.0 == p && id.1 < n then BatchOf(env, p, id.1)
            else if id in futures then futures[id] else AddFutures(env, p, n, futures)[id]
  {
    if n > 0 && id != (p, n - 1) {
      AddedValues(env, p, n - 1, futures, id);
    }
  }

  lemma {:induction false} AddedSize(env: Env, p: nat, n: nat, futures: map<FutureId, BatchTask>)
    requires p < |env.files| && n <= Count(env, p)
    requires forall id :: id in futures ==> id.0 != p
    ensures |AddFutures(env, p, n, futures)| == |futures| + n
  {
    if n > 0 {
      AddedSize(env, p, n - 1, futures);
      AddedKeys(env, p, n - 1, futures, (p, n - 1));
    }
  }

  lemma {:induction false} NoWarningsYet(env: Env, p: nat, n: nat)
    requires p < |env.files| && n <= Count(env, p)
    ensures WarningsOf(env, p, {}, n) == multiset{}
  {
    if n > 0 {
      NoWarningsYet(env, p, n - 1);
    }
  }

  lemma {:induction false} NewNameIsFree(env: Env, st: State)
    requires DistinctNames(env.files) && NamesOwned(env, st) && Enabled(env, st, Submit)
    ensures !Clashes(env, st, Submit)
  {
    hide EmittedAt;
  }

  lemma {:induction false} EmittedSnoc(emitted: seq<Emission>, e: Emission, p: nat)
    ensures EmittedAt(emitted + [e], p) <==> EmittedAt(emitted, p) || e.pos == p
  {
    if EmittedAt(emitted, p) {
      var k :| 0 <= k < |emitted| && emitted[k].pos == p;
      assert (emitted + [e])[k].pos == p;
    }
    assert (emitted + [e])[|emitted|] == e;
  }

  /** Appending the emission of a file that was not emitted before. */
  lemma {:induction false} EmittedGrows(env: Env, st: State, st': State, e: Emission)
    requires EmittedOk(env, st)
    requires st'.emitted == st.emitted + [e] && Expected(env, e)
    requires st.next <= st'.next <= |env.files|
    requires e.pos < st'.next && !EmittedAt(st.emitted, e.pos)
    requires forall q: nat :: st.next <= q < st'.next && env.files[q].texts == [] ==> q == e.pos
    ensures EmittedOk(env, st')
  {
    hide Expected;
    forall q: nat | q < st'.next && env.files[q].texts == [] ensures EmittedAt(st'.emitted, q) {
      EmittedSnoc(st.emitted, e, q);
    }
    forall j | 0 <= j < |st.emitted| ensures st.emitted[j].pos != e.pos {
      assert !EmittedAt(st.emitted, e.pos);
    }
  }

  /** A file without text went by: the tables are as before. */
  ghost predicate Skipped(env: Env, st: State, st': State) {
    && st.next < |env.files| && env.files[st.next].texts == []
    && st'.next == st.next + 1
    && st'.futures == st.futures && st'.buffers == st.buffers
    && st'.counts == st.counts && st'.warnings == st.warnings
    && st'.emitted == st.emitted + [Emission(st.next, [], [], false)]
  }

  lemma {:induction false} SkippedOpen(env: Env, st: State, st': State)
    requires Skipped(env, st, st')
    ensures forall q: nat :: Open(env, st', q) <==> Open(env, st, q)
  {
    hide EmittedAt;
    forall q: nat ensures Open(env, st', q) <==> Open(env, st, q) {
      EmittedSnoc(st.emitted, Emission(st.next, [], [], false), q);
    }
  }

  lemma {:induction false} SkippedNames(env: Env, st: State, st': State)
    requires Skipped(env, st, st') && NamesOwned(env, st) && NamesApart(env, st)
    ensures NamesOwned(env, st') && NamesApart(env, st')
  {
    hide Open;
    SkippedOpen(env, st, st');
    forall name | name in st'.buffers ensures Owned(env, st', name) {
      assert Owned(env, st, name);
    }
  }

  lemma {:induction false} SkippedFutures(env: Env, st: State, st': State)
    requires Skipped(env, st, st') && FuturesOk(env, st)
    ensures FuturesOk(env, st')
  {
    hide EmittedAt;
    SkippedOpen(env, st, st');
    forall id | id in st'.futures ensures FutureOk(env, st', id) {
      assert FutureOk(env, st, id);
    }
  }

  lemma {:induction false} SkippedFiles(env: Env, st: State, st': State)
    requires Skipped(env, st, st') && FilesOk(env, st)
    ensures FilesOk(env, st')
  {
    hide EmittedAt;
    SkippedOpen(env, st, st');
    forall q: nat | Open(env, st', q) ensures OpenOk(env, st', q) {
      assert OpenOk(env, st, q);
    }
  }

  lemma {:induction false} SkippedEmission(env: Env, p: nat)
    requires p < |env.files| && env.files[p].texts == []
    ensures Expected(env, Emission(p, [], [], false))
  {
    assert Count(env, p) == 0;
    assert Results(env, p) == [];
  }

  lemma {:induction false} SubmitEmptyKeeps(env: Env, st: State)
    requires Inv(env, st) && Enabled(env, st, Submit)
    requires env.files[st.next].texts == []
    ensures Inv(env, SubmitNext(env, st))
  {
    hide NamesOwned, NamesApart, FuturesOk, FilesOk, Expected, Count;
    var st' := SubmitNext(env, st);
    SkippedNames(env, st, st');
    SkippedFutures(env, st, st');
    SkippedFiles(env, st, st');
    SkippedEmission(env, st.next);
    assert !EmittedAt(st.emitted, st.next);
    EmittedGrows(env, st, st', Emission(st.next, [], [], false));
  }

  /** The submitted batches are added to the futures, and nothing else. */
  ghost predicate FuturesAdded(env: Env, p: nat, futures: map<FutureId, BatchTask>, futures': map<FutureId, BatchTask>)
    requires p < |env.files|
  {
    && (forall id :: id in futures' <==> id in futures || (id.0 == p && id.1 < Count(env, p)))
    && (forall id :: id in futures ==> id.0 < p && futures'[id] == futures[id])
    && (forall i: nat :: i < Count(env, p) ==> futures'[(p, i)] == BatchOf(env, p, i))
  }

  /** The facts about a submission of a file with text that the parts of the invariant rest on. */
  ghost predicate Submitted(env: Env, st: State, st': State, p: nat) {
    && FilesOk(env, st) && EmittedOk(env, st)
    && p == st.next < |env.files|
    && st'.next == p + 1
    && env.files[p].texts != []
    && env.files[p].filename !in st.buffers
    && st'.buffers == st.buffers[env.files[p].filename := map[]]
    && st'.counts == st.counts[env.files[p].filename := Count(env, p)]
    && st'.warnings == st.warnings[env.files[p].filename := []]
    && st'.emitted == st.emitted
    && FuturesAdded(env, p, st.futures, st'.futures)
  }

  lemma {:induction false} SubmittedOpen(env: Env, st: State, st': State, p: nat)
    requires Submitted(env, st, st', p)
    ensures forall q: nat :: Open(env, st', q) <==> Open(env, st, q) || q == p
    ensures forall q: nat :: Open(env, st, q) ==> env.files[q].filename != env.files[p].filename
  {
    hide Count, Expected;
    forall q: nat | Open(env, st, q) ensures env.files[q].filename != env.files[p].filename {
      assert OpenOk(env, st, q);
    }
  }

  lemma {:induction false} SubmittedNames(env: Env, st: State, st': State, p: nat)
    requires Submitted(env, st, st', p) && NamesOwned(env, st) && NamesApart(env, st)
    ensures NamesOwned(env, st') && NamesApart(env, st')
  {
    hide EmittedAt, FilesOk, EmittedOk, Count;
    SubmittedOpen(env, st, st', p);
    forall n | n in st'.buffers ensures Owned(env, st', n) {
      if n == env.files[p].filename {
        assert Open(env, st', p);
      } else {
        assert Owned(env, st, n);
      }
    }
  }

  lemma {:induction false} SubmittedFutures(env: Env, st: State, st': State, p: nat)
    requires Submitted(env, st, st', p) && FuturesOk(env, st)
    ensures FuturesOk(env, st')
  {
    hide EmittedAt, FilesOk, EmittedOk, Count, BatchOf;
    SubmittedOpen(env, st, st', p);
    forall id | id in st'.futures ensures FutureOk(env, st', id) {
      if id.0 != p {
        assert FutureOk(env, st, id);
      }
    }
  }

  lemma {:induction false} SubmittedFiles(env: Env, st: State, st': State, p: nat)
    requires Submitted(env, st, st', p) && FilesOk(env, st)
    ensures FilesOk(env, st')
  {
    hide EmittedAt, EmittedOk, Result, WarningsOf;
    SubmittedOpen(env, st, st', p);
    SliceCount(env.files[p].texts, env.cfg.ChunkSize(env.files[p].provider));
    NoWarningsYet(env, p, Count(env, p));
    forall q: nat | Open(env, st', q) ensures OpenOk(env, st', q) {
      if q == p {
        assert st'.buffers[env.files[p].filename].Keys == {};
      } else {
        assert OpenOk(env, st, q);
      }
    }
  }

  lemma {:induction false} SubmittedEmitted(env: Env, st: State, st': State, p: nat)
    requires Submitted(env, st, st', p)
    ensures EmittedOk(env, st')
  {
    hide EmittedAt, FilesOk, Expected, Count;
  }

  lemma {:induction false} SubmitAdds(env: Env, p: nat, futures: map<FutureId, BatchTask>)
    requires p < |env.files| && forall id :: id in futures ==> id.0 < p
    ensures FuturesAdded(env, p, futures, AddFutures(env, p, Count(env, p), futures))
    ensures |AddFutures(env, p, Count(env, p), futures)| == |futures| + Count(env, p)
  {
    hide Count, BatchOf, AddFutures;
    var n := Count(env, p);
    AddedSize(env, p, n, futures);
    forall id: FutureId
      ensures id in AddFutures(env, p, n, futures) <==> id in futures || (id.0 == p && id.1 < n)
    {
      AddedKeys(env, p, n, futures, id);
    }
    forall id | id in futures ensures AddFutures(env, p, n, futures)[id] == futures[id] {
      AddedValues(env, p, n, futures, id);
    }
    forall i: nat | i < n ensures AddFutures(env, p, n, futures)[(p, i)] == BatchOf(env, p, i) {
      AddedValues(env, p, n, futures, (p, i));
    }
  }

  lemma {:induction false} SubmitIsSubmitted(env: Env, st: State)
    requires FuturesOk(env, st) && FilesOk(env, st) && EmittedOk(env, st)
    requires st.next < |env.files| && env.files[st.next].texts != [] && !Clashes(env, st, Submit)
    ensures Submitted(env, st, SubmitNext(env, st), st.next)
    ensures |SubmitNext(env, st).futures| == |st.futures| + Count(env, st.next)
  {
    hide FilesOk, EmittedOk, Count, BatchOf, AddFutures, FuturesAdded;
    forall id | id in st.futures ensures id.0 < st.next {
      assert FutureOk(env, st, id);
    }
    SubmitAdds(env, st.next, st.futures);
  }

  lemma {:induction false} SubmitTables(env: Env, st: State)
    requires TablesOk(env, st) && FuturesOk(env, st) && FilesOk(env, st) && EmittedOk(env, st)
    requires Enabled(env, st, Submit) && env.files[st.next].texts != [] && !Clashes(env, st, Submit)
    ensures TablesOk(env, SubmitNext(env, st))
  {
    hide FilesOk, FuturesOk, EmittedOk, Count, BatchOf;
    SubmitIsSubmitted(env, st);
  }

  lemma {:induction false} SubmitKeeps(env: Env, st: State)
    requires Inv(env, st) && Enabled(env, st, Submit) && !Clashes(env, st, Submit)
    ensures Inv(env, SubmitNext(env, st))
  {
    hide TablesOk, NamesOwned, NamesApart, FuturesOk, FilesOk, EmittedOk, SubmitNext;
    var p := st.next;
    if env.files[p].texts == [] {
      SubmitEmptyKeeps(env, st);
    } else {
      var st' := SubmitNext(env, st);
      SubmitIsSubmitted(env, st);
      SubmitTables(env, st);
      SubmittedNames(env, st, st', p);
      SubmittedFutures(env, st, st', p);
      SubmittedFiles(env, st, st', p);
      SubmittedEmitted(env, st, st', p);
    }
  }

  // ---------------------------------------------------------------- finishing keeps the invariant

  lemma {:induction false} SubsetSize<T>(a: set<T>, b: set<T>)
    requires a <= b
    ensures |a| <= |b|
    ensures |a| == |b| ==> a == b
  {
    if a != {} {
      var x :| x in a;
      SubsetSize(a - {x}, b - {x});
    }
  }

  lemma {:induction false} NoBatches(env: Env, p: nat, done: set<nat>)
    requires p < |env.files|
    ensures WarningsOf(env, p, done, 0) == multiset{}
  {
  }

  lemma {:induction false} OneMoreBatch(env: Env, p: nat, done: set<nat>, n: nat)
    requires p < |env.files| && 0 < n <= Count(env, p)
    ensures WarningsOf(env, p, done, n) ==
            WarningsOf(env, p, done, n - 1) +
            (if n - 1 in done then multiset(Settle(env, BatchOf(env, p, n - 1)).1) else multiset{})
  {
  }

  lemma {:induction false} WarningsAdd(env: Env, p: nat, done: set<nat>, i: nat, n: nat)
    requires p < |env.files| && n <= Count(env, p) && i < Count(env, p)
    requires i !in done
    ensures WarningsOf(env, p, done + {i}, n) ==
            WarningsOf(env, p, done, n) +
            (if i < n then multiset(Settle(env, BatchOf(env, p, i)).1) else multiset{})
  {
    hide Settle, Count, BatchOf, WarningsOf;
    if n == 0 {
      NoBatches(env, p, done);
      NoBatches(env, p, done + {i});
    } else {
      WarningsAdd(env, p, done, i, n - 1);
      OneMoreBatch(env, p, done, n);
      OneMoreBatch(env, p, done + {i}, n);
    }
  }

  /** Under the invariant no branch for a forgotten file or a missing count is taken. */
  lemma {:induction false} FinishShape(env: Env, st: State, id: FutureId)
    requires TablesOk(env, st) && id in st.futures && FutureOk(env, st, id)
    ensures var name := env.files[id.0].filename;
            && st.futures[id].file.filename == name
            && name in st.buffers && name in st.counts && name in st.warnings
            && Finish(env, st, id) ==
               (if |st.buffers[name]| + 1 == st.counts[name] then Emit(Stored(env, st, id), name)
                else Stored(env, st, id))
  {
  }

  /** The facts about a stored result that the parts of the invariant rest on. */
  ghost predicate Recorded(env: Env, st: State, st': State, id: FutureId) {
    && NamesApart(env, st) && FilesOk(env, st)
    && id in st.futures && FutureOk(env, st, id)
    && st'.next == st.next
    && st'.futures == st.futures - {id}
    && st'.counts == st.counts
    && st'.emitted == st.emitted
    && var name := env.files[id.0].filename;
       var (processed, ws) := Settle(env, BatchOf(env, id.0, id.1));
       && st'.buffers == st.buffers[name := Put(st.buffers[name], id.1, processed)]
       && name in st.warnings
       && st'.warnings == Extend(st.warnings, name, ws)
  }

  lemma {:induction false} RecordedOpen(env: Env, st: State, st': State, id: FutureId)
    requires Recorded(env, st, st', id)
    ensures forall q: nat :: Open(env, st', q) <==> Open(env, st, q)
    ensures forall q: nat :: Open(env, st, q) && q != id.0 ==> env.files[q].filename != env.files[id.0].filename
  {
    hide EmittedAt, FilesOk, Count;
  }

  lemma {:induction false} RecordedFutures(env: Env, st: State, st': State, id: FutureId)
    requires Recorded(env, st, st', id) && FuturesOk(env, st)
    ensures FuturesOk(env, st')
  {
    hide EmittedAt, FilesOk, Count, BatchOf;
    RecordedOpen(env, st, st', id);
    forall other | other in st'.futures ensures FutureOk(env, st', other) {
      assert FutureOk(env, st, other);
      assert other.0 == id.0 ==> other.1 != id.1;
    }
  }

  lemma {:induction false} RecordedNames(env: Env, st: State, st': State, id: FutureId)
    requires Recorded(env, st, st', id) && NamesOwned(env, st)
    ensures NamesOwned(env, st') && NamesApart(env, st')
  {
    hide Open, FilesOk;
    RecordedOpen(env, st, st', id);
    forall name | name in st'.buffers ensures Owned(env, st', name) {
      assert Owned(env, st, name);
    }
  }

  lemma {:induction false} RecordedWarnings(env: Env, st: State, st': State, id: FutureId)
    requires Recorded(env, st, st', id)
    ensures var name := env.files[id.0].filename;
            name in st'.warnings && name in st'.buffers &&
            multiset(st'.warnings[name]) ==
            WarningsOf(env, id.0, st'.buffers[name].Keys, Count(env, id.0))
  {
    hide Settle, Count, WarningsOf, EmittedAt, NamesApart, BatchOf, Result, Expected;
    var (p, i) := id;
    var name := env.files[p].filename;
    assert OpenOk(env, st, p);
    WarningsAdd(env, p, st.buffers[name].Keys, i, Count(env, p));
    assert st'.buffers[name].Keys == st.buffers[name].Keys + {i};
  }

  lemma {:induction false} RecordedBuffer(env: Env, st: State, st': State, id: FutureId)
    requires Recorded(env, st, st', id)
    ensures Open(env, st', id.0) && BufferOk(env, st', id.0)
  {
    RecordedWarnings(env, st, st', id);
    assert OpenOk(env, st, id.0);
  }

  lemma {:induction false} BufferSize(env: Env, st: State, p: nat)
    requires Open(env, st, p) && BufferOk(env, st, p)
    ensures env.files[p].filename in st.buffers
    ensures var buffer := st.buffers[env.files[p].filename];
            |buffer| <= Count(env, p) && (|buffer| == Count(env, p) ==> buffer.Keys == Range(Count(env, p)))
  {
    SubsetSize(st.buffers[env.files[p].filename].Keys, Range(Count(env, p)));
  }

  lemma {:induction false} RecordedOthers(env: Env, st: State, st': State, id: FutureId, q: nat)
    requires Recorded(env, st, st', id) && Open(env, st', q) && q != id.0
    ensures OpenOk(env, st', q)
  {
    RecordedOpen(env, st, st', id);
    assert OpenOk(env, st, q);
  }

  lemma {:induction false} StoredTables(env: Env, st: State, id: FutureId)
    requires TablesOk(env, st) && id in st.futures && FutureOk(env, st, id)
    ensures TablesOk(env, Stored(env, st, id))
  {
  }

  lemma {:induction false} StoredIsRecorded(env: Env, st: State, id: FutureId)
    requires NamesApart(env, st) && FilesOk(env, st)
    requires id in st.futures && FutureOk(env, st, id)
    ensures Recorded(env, st, Stored(env, st, id), id)
  {
    assert OpenOk(env, st, id.0);
  }

  lemma {:induction false} SameEmitted(env: Env, st: State, st': State)
    requires EmittedOk(env, st) && st'.emitted == st.emitted && st'.next == st.next
    ensures EmittedOk(env, st')
  {
  }

  lemma {:induction false} FinishIncompleteKeeps(env: Env, st: State, id: FutureId)
    requires Inv(env, st) && id in st.futures && FutureOk(env, st, id)
    requires |Stored(env, st, id).buffers[env.files[id.0].filename]| != Count(env, id.0)
    ensures Inv(env, Stored(env, st, id))
  {
    hide NamesOwned, Count, EmittedAt, EmittedOk, Expected, Result, WarningsOf, Settle;
    var st' := Stored(env, st, id);
    StoredIsRecorded(env, st, id);
    StoredTables(env, st, id);
    RecordedFutures(env, st, st', id);
    RecordedNames(env, st, st', id);
    SameEmitted(env, st, st');
    hide NamesApart, FuturesOk, TablesOk, Stored;
    forall q: nat | Open(env, st', q) ensures OpenOk(env, st', q) {
      if q == id.0 {
        RecordedBuffer(env, st, st', id);
        BufferSize(env, st', q);
      } else {
        RecordedOthers(env, st, st', id, q);
      }
    }
  }

  lemma {:induction false} FullBuffer(env: Env, st: State, p: nat)
    requires Open(env, st, p) && BufferOk(env, st, p) && env.files[p].filename in st.buffers
    requires st.buffers[env.files[p].filename].Keys == Range(Count(env, p))
    ensures Count(env, p) > 0 && HasAll(st.buffers[env.files[p].filename], Count(env, p))
    ensures Sorted(st.buffers[env.files[p].filename], Count(env, p)) == Results(env, p)
  {
    SliceCount(env.files[p].texts, env.cfg.ChunkSize(env.files[p].provider));
    hide Slices, Config.ChunkSize;
    var buffer, n := st.buffers[env.files[p].filename], Count(env, p);
    assert forall i: nat :: i < n ==> i in buffer;
    assert forall i: nat :: i < n ==> Sorted(buffer, n)[i] == Results(env, p)[i];
  }

  lemma {:induction false} AssembledIsExpected(env: Env, p: nat, warnings: seq<Warning>)
    requires p < |env.files| && Count(env, p) > 0
    requires multiset(warnings) == WarningsOf(env, p, Range(Count(env, p)), Count(env, p))
    ensures Assemble(Results(env, p), warnings).pos == p
    ensures Expected(env, Assemble(Results(env, p), warnings))
  {
    assert Results(env, p)[0] == Result(env, p, 0);
    assert forall i: nat :: i < Count(env, p) ==> Results(env, p)[i] == Result(env, p, i);
  }

  /** The facts about an emission that the parts of the invariant rest on. */
  ghost predicate Emitted(env: Env, st: State, st': State, p: nat) {
    && NamesApart(env, st)
    && Open(env, st, p) && (forall i: nat :: (p, i) !in st.futures)
    && var name := env.files[p].filename;
       && st'.next == st.next
       && st'.futures == st.futures
       && st'.buffers == st.buffers - {name}
       && st'.counts == st.counts - {name}
       && st'.warnings == st.warnings - {name}
       && |st'.emitted| == |st.emitted| + 1 && st.emitted == st'.emitted[..|st.emitted|]
       && st'.emitted[|st.emitted|].pos == p
  }

  lemma {:induction false} EmittedOpen(env: Env, st: State, st': State, p: nat)
    requires Emitted(env, st, st', p)
    ensures forall q: nat :: Open(env, st', q) <==> Open(env, st, q) && q != p
    ensures forall q: nat :: Open(env, st', q) ==> env.files[q].filename != env.files[p].filename
  {
    hide EmittedAt;
    var e := st'.emitted[|st.emitted|];
    assert st'.emitted == st.emitted + [e];
    forall q: nat ensures Open(env, st', q) <==> Open(env, st, q) && q != p {
      EmittedSnoc(st.emitted, e, q);
    }
  }

  lemma {:induction false} EmittedNames(env: Env, st: State, st': State, p: nat)
    requires Emitted(env, st, st', p) && NamesOwned(env, st)
    ensures NamesOwned(env, st') && NamesApart(env, st')
  {
    EmittedOpen(env, st, st', p);
    hide Open;
    forall name | name in st'.buffers ensures Owned(env, st', name) {
      assert Owned(env, st, name);
    }
  }

  lemma {:induction false} EmittedFutures(env: Env, st: State, st': State, p: nat)
    requires Emitted(env, st, st', p) && FuturesOk(env, st)
    ensures FuturesOk(env, st')
  {
    hide EmittedAt, NamesApart, Count, BatchOf;
    EmittedOpen(env, st, st', p);
    forall id | id in st'.futures ensures FutureOk(env, st', id) {
      assert FutureOk(env, st, id);
    }
  }

  lemma {:induction false} EmittedFiles(env: Env, st: State, st': State, p: nat)
    requires Emitted(env, st, st', p)
    requires forall q: nat :: Open(env, st, q) && q != p ==> OpenOk(env, st, q)
    ensures FilesOk(env, st')
  {
    hide EmittedAt, NamesApart, Count, WarningsOf, Result;
    EmittedOpen(env, st, st', p);
    forall q: nat | Open(env, st', q) ensures OpenOk(env, st', q) {
      assert OpenOk(env, st, q);
    }
  }

  /** Only the file whose buffer is full breaks the invariant, and it is ready to be emitted. */
  ghost predicate ReadyToEmit(env: Env, st: State, p: nat) {
    && NamesOwned(env, st) && NamesApart(env, st) && FuturesOk(env, st)
    && Open(env, st, p) && BufferOk(env, st, p)
    && st.buffers[env.files[p].filename].Keys == Range(Count(env, p))
    && (forall q: nat :: Open(env, st, q) && q != p ==> OpenOk(env, st, q))
  }

  lemma {:induction false} StoredReady(env: Env, st: State, id: FutureId)
    requires NamesApart(env, st) && FilesOk(env, st) && NamesOwned(env, st) && FuturesOk(env, st)
    requires id in st.futures && FutureOk(env, st, id)
    requires |Stored(env, st, id).buffers[env.files[id.0].filename]| == Count(env, id.0)
    ensures ReadyToEmit(env, Stored(env, st, id), id.0)
  {
    var st1 := Stored(env, st, id);
    StoredIsRecorded(env, st, id);
    RecordedFutures(env, st, st1, id);
    RecordedNames(env, st, st1, id);
    RecordedBuffer(env, st, st1, id);
    BufferSize(env, st1, id.0);
    forall q: nat | Open(env, st1, q) && q != id.0 ensures OpenOk(env, st1, q) {
      RecordedOthers(env, st, st1, id, q);
    }
  }

  /** A file with a full buffer is assembled from its results in order. */
  lemma {:induction false} EmitShape(env: Env, st: State, p: nat)
    requires TablesOk(env, st) && ReadyToEmit(env, st, p)
    ensures p < |env.files|
    ensures var name := env.files[p].filename;
            && name in st.warnings && name in st.buffers && name in st.counts && Count(env, p) > 0
            && Emit(st, name) ==
               st.(emitted := st.emitted + [Assemble(Results(env, p), st.warnings[name])],
                   buffers := st.buffers - {name},
                   counts := st.counts - {name},
                   warnings := st.warnings - {name})
  {
    hide NamesOwned, NamesApart, FuturesOk, WarningsOf, Assemble;
    FullBuffer(env, st, p);
  }

  lemma {:induction false} NothingOutstanding(env: Env, st: State, p: nat)
    requires ReadyToEmit(env, st, p)
    ensures forall i: nat :: (p, i) !in st.futures
  {
    hide NamesOwned, NamesApart, Open, OpenOk;
    forall id | id in st.futures ensures id.0 != p {
      assert FutureOk(env, st, id);
    }
  }

  lemma {:induction false} EmitIsEmitted(env: Env, st: State, p: nat)
    requires TablesOk(env, st) && ReadyToEmit(env, st, p)
    ensures var st' := Emit(st, env.files[p].filename);
            TablesOk(env, st') && Emitted(env, st, st', p) && Expected(env, st'.emitted[|st.emitted|])
  {
    hide Emit, NamesOwned, NamesApart, FuturesOk, Assemble, Expected, Open, OpenOk, Count, Results, WarningsOf, Result;
    EmitShape(env, st, p);
    NothingOutstanding(env, st, p);
    AssembledIsExpected(env, p, st.warnings[env.files[p].filename]);
  }

  lemma {:induction false} FinishFullKeeps(env: Env, st: State, id: FutureId)
    requires Inv(env, st) && id in st.futures && FutureOk(env, st, id)
    requires |Stored(env, st, id).buffers[env.files[id.0].filename]| == Count(env, id.0)
    ensures Inv(env, Emit(Stored(env, st, id), env.files[id.0].filename))
  {
    hide NamesOwned, Count, EmittedAt, Expected, Result, WarningsOf, Settle, BatchOf, Assemble;
    var p := id.0;
    var st1 := Stored(env, st, id);
    StoredTables(env, st, id);
    StoredIsRecorded(env, st, id);
    StoredReady(env, st, id);
    EmitIsEmitted(env, st1, p);
    var st2 := Emit(st1, env.files[p].filename);
    EmittedNames(env, st1, st2, p);
    EmittedFutures(env, st1, st2, p);
    EmittedFiles(env, st1, st2, p);
    FullEmission(env, st, st1, st2, id);
  }

  lemma {:induction false} FullEmission(env: Env, st: State, st1: State, st2: State, id: FutureId)
    requires EmittedOk(env, st) && Recorded(env, st, st1, id)
    requires Emitted(env, st1, st2, id.0)
    requires Expected(env, st2.emitted[|st.emitted|])
    ensures EmittedOk(env, st2)
  {
    hide NamesApart, FilesOk, Expected, Count, Settle;
    var e := st2.emitted[|st.emitted|];
    assert st2.emitted == st.emitted + [e];
    assert !EmittedAt(st.emitted, id.0);
    hide EmittedAt;
    EmittedGrows(env, st, st2, e);
  }

  lemma {:induction false} FinishKeeps(env: Env, st: State, id: FutureId)
    requires Inv(env, st) && id in st.futures
    ensures Inv(env, Finish(env, st, id))
  {
    var name := env.files[id.0].filename;
    FinishShape(env, st, id);
    assert OpenOk(env, st, id.0);
    assert |Stored(env, st, id).buffers[name]| == |st.buffers[name]| + 1;
    if |st.buffers[name]| + 1 == st.counts[name] {
      FinishFullKeeps(env, st, id);
    } else {
      FinishIncompleteKeeps(env, st, id);
    }
  }

  lemma {:induction false} ApplyKeeps(env: Env, st: State, e: Event)
    requires Inv(env, st) && Enabled(env, st, e) && !Clashes(env, st, e)
    ensures Inv(env, Apply(env, st, e))
  {
    match e
    case Submit => SubmitKeeps(env, st);
    case Complete(id) => FinishKeeps(env, st, id);
    case StopIteration => StopKeeps(env, st);
  }

  lemma {:induction false} StopKeeps(env: Env, st: State)
    requires Inv(env, st) && Enabled(env, st, StopIteration)
    ensures Inv(env, st.(exhausted := true))
  {
    var st' := st.(exhausted := true);
    assert forall q: nat :: Open(env, st', q) <==> Open(env, st, q);
    forall name | name in st'.buffers ensures Owned(env, st', name) {
      assert Owned(env, st, name);
    }
    forall id | id in st'.futures ensures FutureOk(env, st', id) {
      assert FutureOk(env, st, id);
    }
    forall q: nat | Open(env, st', q) ensures OpenOk(env, st', q) {
      assert OpenOk(env, st, q);
    }
  }

  /** The batch cut at index k*c of the file's texts is the file's k-th batch. */
  lemma {:induction false} CutIsBatch(env: Env, p: nat, k: nat)
    requires p < |env.files|
    ensures var f, c := env.files[p], env.cfg.ChunkSize(env.files[p].provider);
            k < Count(env, p) <==> k * c < |f.texts|
    ensures var f, c := env.files[p], env.cfg.ChunkSize(env.files[p].provider);
            k < Count(env, p) ==>
              var i := k * c;
              var texts := f.texts[i..if i + c <= |f.texts| then i + c else |f.texts|];
              && BatchOf(env, p, k) == BatchTask(p, f, k, i, i + |texts|, texts)
              && i / c == k
              && (k + 1) * c == i + c
  {
    var f, c := env.files[p], env.cfg.ChunkSize(env.files[p].provider);
    SliceIndex(f.texts, c, k);
    if k < Count(env, p) {
      SliceAt(f.texts, c, k);
      QuotientUnique(k * c, c, k, 0);
    }
  }

  lemma {:induction false} ConcatSnoc(a: seq<Processed>, r: Processed)
    ensures Concat(a + [r]) == Concat(a) + r.Texts()
  {
    if a == [] {
      assert a + [r] == [r];
    } else {
      assert (a + [r])[1..] == a[1..] + [r];
      ConcatSnoc(a[1..], r);
    }
  }
}
