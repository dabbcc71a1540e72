/**
 * The all-at-once scheduler: every batch of every file is numbered globally, all
 * futures are collected in completion order, and the results are grouped per file.
 * It agrees with the streaming scheduler for every worker that does not fail.
 */
module ParallelScheduler {
  import opened BatchTypes
  import opened StreamScheduler
  import opened StreamRuns
  import opened BatchWorker

  // ---------------------------------------------------------------- batch creation

  /** The number of batches of the first `n` files. */
  function Offset(env: Env, n: nat): nat
    requires n <= |env.files|
  {
    if n == 0 then 0 else Offset(env, n - 1) + Count(env, n - 1)
  }

  /** The i-th batch of the file at `p` under its global number. */
  function GlobalBatch(env: Env, p: nat, i: nat): BatchTask
    requires p < |env.files| && i < Count(env, p)
  {
    BatchOf(env, p, i).(index := Offset(env, p) + i)
  }

  /** The first `k` batches of the file at `p`. */
  function FileTasks(env: Env, p: nat, k: nat): (r: seq<BatchTask>)
    requires p < |env.files| && k <= Count(env, p)
    ensures |r| == k
  {
    seq(k, (i: nat) requires i < k => GlobalBatch(env, p, i))
  }

  function GlobalTasks(env: Env, n: nat): (r: seq<BatchTask>)
    requires n <= |env.files|
    ensures |r| == Offset(env, n)
  {
    if n == 0 then [] else GlobalTasks(env, n - 1) + FileTasks(env, n - 1, Count(env, n - 1))
  }

  method CreateBatchTasks(env: Env) returns (tasks: seq<BatchTask>)
    ensures tasks == GlobalTasks(env, |env.files|)
  {
    tasks := [];
    var globalIndex := 0;
    for p := 0 to |env.files|
      invariant tasks == GlobalTasks(env, p)
      invariant globalIndex == Offset(env, p)
    {
      var f := env.files[p];
      var fileTasks := CutFile(env, p, globalIndex);
      tasks := tasks + fileTasks;
      globalIndex := globalIndex + |fileTasks|;
    }
  }

  /** The batches of one file, numbered on from `globalIndex`; none for a file without text. */
  method CutFile(env: Env, p: nat, globalIndex: nat) returns (tasks: seq<BatchTask>)
    requires p < |env.files| && globalIndex == Offset(env, p)
    ensures tasks == FileTasks(env, p, Count(env, p))
  {
    var f := env.files[p];
    var chunk := env.cfg.ChunkSize(f.provider);
    tasks := [];
    var i := 0;
    while i < |f.texts|
      invariant |tasks| <= Count(env, p) && i == |tasks| * chunk
      invariant tasks == FileTasks(env, p, |tasks|)
      decreases |f.texts| - i
    {
      ghost var k := |tasks|;
      CutIsBatch(env, p, k);
      var texts := f.texts[i..if i + chunk <= |f.texts| then i + chunk else |f.texts|];
      var task := BatchTask(p, f, globalIndex + |tasks|, i, i + |texts|, texts);
      hide BatchOf, Slices, Config.ChunkSize;
      assert task == GlobalBatch(env, p, k);
      tasks := tasks + [task];
      assert tasks == FileTasks(env, p, k + 1);
      i := i + chunk;
    }
    CutIsBatch(env, p, |tasks|);
  }

  lemma {:induction false} GlobalTaskAt(env: Env, n: nat, p: nat, i: nat)
    requires p < n <= |env.files| && i < Count(env, p)
    ensures Offset(env, p) + i < Offset(env, n)
    ensures GlobalTasks(env, n)[Offset(env, p) + i] == GlobalBatch(env, p, i)
  {
    hide Count, GlobalBatch;
    if p < n - 1 {
      GlobalTaskAt(env, n - 1, p, i);
    }
  }

  /** Every position of the task list belongs to a batch of some file. */
  lemma {:induction false} TaskOwner(env: Env, n: nat, g: nat) returns (p: nat, i: nat)
    requires n <= |env.files| && g < Offset(env, n)
    ensures p < n && i < Count(env, p) && g == Offset(env, p) + i
  {
    if g < Offset(env, n - 1) {
      p, i := TaskOwner(env, n - 1, g);
    } else {
      p, i := n - 1, g - Offset(env, n - 1);
    }
  }

  // ---------------------------------------------------------------- collecting the futures

  type BatchKey = (string, nat)

  function KeyOf(t: BatchTask): BatchKey {
    (t.file.filename, t.index)
  }

  /** No exception reaches the caller and no batch is marked as failed. */
  predicate Succeeds(outcome: BatchTask -> WorkerReply, t: BatchTask) {
    outcome(t).Reply? && !outcome(t).failed
  }

  function ProcessedBy(outcome: BatchTask -> WorkerReply, t: BatchTask): Processed
    requires outcome(t).Reply?
  {
    Processed(t, outcome(t).translated, outcome(t).failed, outcome(t).fellBack)
  }

  /** The dictionary holds exactly the results of the tasks that are no longer waited for. */
  ghost predicate Collected(outcome: BatchTask -> WorkerReply, tasks: seq<BatchTask>, waiting: set<nat>,
                            results: map<BatchKey, Processed>)
  {
    && (forall j: nat :: j < |tasks| && j !in waiting ==>
          outcome(tasks[j]).Reply? && KeyOf(tasks[j]) in results &&
          results[KeyOf(tasks[j])] == ProcessedBy(outcome, tasks[j]))
    && (forall key :: key in results ==> FiledBy(tasks, key))
  }

  ghost predicate FiledBy(tasks: seq<BatchTask>, key: BatchKey) {
    exists j: nat :: j < |tasks| && KeyOf(tasks[j]) == key
  }

  ghost predicate DistinctKeys(tasks: seq<BatchTask>) {
    forall a, b :: 0 <= a < b < |tasks| ==> KeyOf(tasks[a]) != KeyOf(tasks[b])
  }

  lemma {:induction false} CollectStep(outcome: BatchTask -> WorkerReply, tasks: seq<BatchTask>, waiting: set<nat>,
                    results: map<BatchKey, Processed>, j: nat)
    requires DistinctKeys(tasks) && Collected(outcome, tasks, waiting, results)
    requires j in waiting && j < |tasks| && outcome(tasks[j]).Reply?
    ensures Collected(outcome, tasks, waiting - {j}, results[KeyOf(tasks[j]) := ProcessedBy(outcome, tasks[j])])
  {
    var results' := results[KeyOf(tasks[j]) := ProcessedBy(outcome, tasks[j])];
    forall key | key in results' ensures FiledBy(tasks, key) {
      if key != KeyOf(tasks[j]) {
        assert FiledBy(tasks, key);
      }
    }
  }

  /** Waits for all futures, in any completion order; one bad batch stops the whole workflow. */
  method ProcessBatchesParallel(outcome: BatchTask -> WorkerReply, tasks: seq<BatchTask>)
    returns (r: Option<map<BatchKey, Processed>>)
    requires DistinctKeys(tasks)
    ensures r.Some? <==> forall j: nat :: j < |tasks| ==> Succeeds(outcome, tasks[j])
    ensures r.Some? ==> Collected(outcome, tasks, {}, r.value)
  {
    hide Collected, DistinctKeys;
    var results: map<BatchKey, Processed> := map[];
    var waiting := Range(|tasks|);
    var anyFailed := false;
    NothingCollected(outcome, tasks);
    while waiting != {}
      invariant waiting <= Range(|tasks|)
      invariant Collected(outcome, tasks, waiting, results)
      invariant forall j: nat :: j < |tasks| && j !in waiting ==> outcome(tasks[j]).Reply?
      invariant anyFailed <==> exists j: nat :: j < |tasks| && j !in waiting && !Succeeds(outcome, tasks[j])
      decreases waiting
    {
      var j :| j in waiting;
      var t := tasks[j];
      if outcome(t).Raised? {
        assert !Succeeds(outcome, tasks[j]);
        return None;
      }
      CollectStep(outcome, tasks, waiting, results, j);
      if outcome(t).failed {
        anyFailed := true;
      }
      results := results[KeyOf(t) := ProcessedBy(outcome, t)];
      waiting := waiting - {j};
    }
    if anyFailed {
      return None;
    }
    return Some(results);
  }

  lemma {:induction false} NothingCollected(outcome: BatchTask -> WorkerReply, tasks: seq<BatchTask>)
    ensures Collected(outcome, tasks, Range(|tasks|), map[])
  {
  }

  // ---------------------------------------------------------------- grouping per file

  ghost predicate IsMin(s: set<nat>, m: nat) {
    m in s && forall x :: x in s ==> m <= x
  }

  lemma {:induction false} MinExists(s: set<nat>)
    requires s != {}
    ensures exists m :: IsMin(s, m)
  {
    var x :| x in s;
    if s == {x} {
      assert IsMin(s, x);
    } else {
      MinExists(s - {x});
      var m :| IsMin(s - {x}, m);
      LeastOf(s, x, m);
    }
  }

  lemma {:induction false} LeastOf(s: set<nat>, x: nat, m: nat)
    requires x in s && IsMin(s - {x}, m)
    ensures IsMin(s, if x < m then x else m)
  {
    forall y | y in s ensures y == x || m <= y {
      if y != x {
        assert y in s - {x};
      }
    }
  }

  function SetMin(s: set<nat>): (m: nat)
    requires s != {}
    ensures m in s && forall x :: x in s ==> m <= x
  {
    MinExists(s);
    var m :| m in s && forall x :: x in s ==> m <= x;
    m
  }

  /** The elements in increasing order. */
  function SortedKeys(s: set<nat>): (r: seq<nat>)
    ensures forall k :: k in r <==> k in s
    ensures forall i, j :: 0 <= i < j < |r| ==> r[i] < r[j]
  {
    if s == {} then [] else [SetMin(s)] + SortedKeys(s - {SetMin(s)})
  }

  lemma {:induction false} HasItsFirst(s: seq<nat>)
    ensures s == [] || s[0] in s
  {
  }

  /** An increasing list is determined by its elements. */
  lemma {:induction false} IncreasingIsUnique(a: seq<nat>, b: seq<nat>)
    requires forall i, j :: 0 <= i < j < |a| ==> a[i] < a[j]
    requires forall i, j :: 0 <= i < j < |b| ==> b[i] < b[j]
    requires forall k :: k in a <==> k in b
    ensures a == b
    decreases |a|
  {
    if a == [] {
      HasItsFirst(b);
    } else {
      assert a[0] in b && b != [] && b[0] in a;
      assert a[0] == b[0];
      forall k ensures k in a[1..] <==> k in b[1..] {
        assert k in a <==> k == a[0] || k in a[1..];
        assert k in b <==> k == b[0] || k in b[1..];
      }
      IncreasingIsUnique(a[1..], b[1..]);
    }
  }

  /** The batch indices filed under a name. */
  function IndicesOf(results: map<BatchKey, Processed>, name: string): (r: set<nat>)
    ensures forall k: nat :: k in r <==> (name, k) in results
  {
    set key | key in results && key.0 == name :: key.1
  }

  /** The batches filed under a name, in increasing order of their global index. */
  function FiledUnder(results: map<BatchKey, Processed>, name: string): seq<Processed> {
    var keys := SortedKeys(IndicesOf(results, name));
    seq(|keys|, (i: nat) requires i < |keys| => assert keys[i] in keys; results[(name, keys[i])])
  }

  /** A file with a bad batch, or with a wrong number of texts, falls back to its source texts. */
  function FileResult(f: FileTask, filed: seq<Processed>): seq<Text> {
    if f.texts == [] then []
    else if (exists i: nat :: i < |filed| && filed[i].Bad()) || |Concat(filed)| != |f.texts| then f.texts
    else Concat(filed)
  }

  function FileResults(files: seq<FileTask>, results: map<BatchKey, Processed>, n: nat): map<string, seq<Text>>
    requires n <= |files|
  {
    if n == 0 then map[]
    else
      var f := files[n - 1];
      FileResults(files, results, n - 1)[f.filename := FileResult(f, FiledUnder(results, f.filename))]
  }

  method CollectFileResults(files: seq<FileTask>, results: map<BatchKey, Processed>)
    returns (r: map<string, seq<Text>>)
    ensures r == FileResults(files, results, |files|)
  {
    hide FiledUnder, Concat;
    r := map[];
    for p := 0 to |files|
      invariant r == FileResults(files, results, p)
    {
      var f := files[p];
      if f.texts == [] {
        r := r[f.filename := []];
      } else {
        var texts := AssembleFile(f, FiledUnder(results, f.filename));
        r := r[f.filename := texts];
      }
    }
  }

  method AssembleFile(f: FileTask, filed: seq<Processed>) returns (r: seq<Text>)
    requires f.texts != []
    ensures r == FileResult(f, filed)
    ensures (exists i :: 0 <= i < |filed| && (filed[i].failed || filed[i].fellBack)) ==> r == f.texts
    ensures |r| == |f.texts|
    ensures (forall i :: 0 <= i < |filed| ==> !filed[i].failed && !filed[i].fellBack) ==>
              |Concat(filed)| == |f.texts| ==> r == Concat(filed)
  {
    hide Concat;
    NothingJoined();
    var texts: seq<Text>, failed := [], false;
    var i := 0;
    while i < |filed| && !failed
      invariant i <= |filed|
      invariant failed ==> exists j: nat :: j < |filed| && filed[j].Bad()
      invariant !failed ==> texts == Concat(filed[..i]) && forall j: nat :: j < i ==> !filed[j].Bad()
    {
      if filed[i].Bad() {
        failed := true;
      } else {
        ConcatSnoc(filed[..i], filed[i]);
        assert filed[..i] + [filed[i]] == filed[..i + 1];
        texts := texts + filed[i].Texts();
      }
      i := i + 1;
    }
    assert filed[..|filed|] == filed;
    r := if failed || |texts| != |f.texts| then f.texts else texts;
  }

  /** The whole all-at-once run: None is the exception that halts the workflow. */
  method ProcessFilesParallel(env: Env) returns (r: Option<map<string, seq<Text>>>)
    ensures r.Some? <==>
            forall p: nat, i: nat :: p < |env.files| && i < Count(env, p) ==>
              env.outcome(GlobalBatch(env, p, i)).Reply? && !env.outcome(GlobalBatch(env, p, i)).failed
    ensures r.Some? ==> exists results ::
              Collected(env.outcome, GlobalTasks(env, |env.files|), {}, results) &&
              r.value == FileResults(env.files, results, |env.files|)
  {
    hide GlobalTasks, Collected, FileResults, GlobalBatch, Count, Offset;
    var tasks := CreateBatchTasks(env);
    GlobalKeysDistinct(env);
    var results := ProcessBatchesParallel(env.outcome, tasks);
    forall p: nat, i: nat | p < |env.files| && i < Count(env, p)
      ensures Offset(env, p) + i < |tasks| && tasks[Offset(env, p) + i] == GlobalBatch(env, p, i)
    {
      GlobalTaskAt(env, |env.files|, p, i);
    }
    match results {
      case None =>
        var g: nat :| g < |tasks| && !Succeeds(env.outcome, tasks[g]);
        ghost var p, i := TaskOwner(env, |env.files|, g);
        assert tasks[g] == GlobalBatch(env, p, i);
        r := None;
      case Some(m) =>
        var files := CollectFileResults(env.files, m);
        r := Some(files);
    }
  }

  lemma {:induction false} TaskIndex(env: Env, g: nat)
    requires g < Offset(env, |env.files|)
    ensures GlobalTasks(env, |env.files|)[g].index == g
  {
    var p, i := TaskOwner(env, |env.files|, g);
    GlobalTaskAt(env, |env.files|, p, i);
  }

  /** Global numbers keep the keys apart, even for files of the same name. */
  lemma {:induction false} GlobalKeysDistinct(env: Env)
    ensures DistinctKeys(GlobalTasks(env, |env.files|))
  {
    forall g: nat | g < Offset(env, |env.files|) ensures GlobalTasks(env, |env.files|)[g].index == g {
      TaskIndex(env, g);
    }
  }

  // ---------------------------------------------------------------- agreement of the two schedulers

  /** A worker that always answers with as many texts as it was given and never falls back. */
  ghost predicate NeverFails(outcome: BatchTask -> WorkerReply) {
    KeepsLength(outcome) && forall b :: outcome(b).Reply? && !outcome(b).failed && !outcome(b).fellBack
  }

  ghost predicate IgnoresIndex(outcome: BatchTask -> WorkerReply) {
    forall b: BatchTask, j: nat :: outcome(b.(index := j)) == outcome(b)
  }

  function TextsOf(r: WorkerReply): seq<Text> {
    if r.Reply? && r.translated.Some? then r.translated.value else []
  }

  /** What a file should become: its slices, each mapped through the worker, joined in order. */
  function ChunkAndMap(env: Env, p: nat): seq<Text>
    requires p < |env.files|
  {
    Flatten(seq(Count(env, p), (i: nat) requires i < Count(env, p) => TextsOf(env.outcome(BatchOf(env, p, i)))))
  }

  lemma {:induction false} StreamIsChunkAndMap(env: Env, e: Emission)
    requires NeverFails(env.outcome) && Expected(env, e)
    ensures e.texts == ChunkAndMap(env, e.pos) && !e.failed
  {
    var p := e.pos;
    ConcatIsFlatten(Results(env, p),
      seq(Count(env, p), (i: nat) requires i < Count(env, p) => TextsOf(env.outcome(BatchOf(env, p, i)))));
  }

  // ---------------------------------------------------------------- what is filed under a name

  /** The global numbers of the batches of the first `n` files that have the name. */
  function NumbersOf(env: Env, n: nat, name: string): seq<nat>
    requires n <= |env.files|
  {
    if n == 0 then []
    else NumbersOf(env, n - 1, name) +
         (if env.files[n - 1].filename == name
          then seq(Count(env, n - 1), (i: nat) => Offset(env, n - 1) + i) else [])
  }

  /** What the batches of the first `n` files of the name gave, joined in the order of the files. */
  function JoinedUnder(env: Env, n: nat, name: string): seq<Text>
    requires n <= |env.files|
  {
    if n == 0 then []
    else JoinedUnder(env, n - 1, name) + (if env.files[n - 1].filename == name then BlockTexts(env, n - 1) else [])
  }

  /** What the batches of one file gave, under their global numbers. */
  function BlockTexts(env: Env, p: nat): seq<Text>
    requires p < |env.files|
  {
    Flatten(seq(Count(env, p), (i: nat) requires i < Count(env, p) => TextsOf(env.outcome(GlobalBatch(env, p, i)))))
  }

  lemma {:induction false} NumbersIncrease(env: Env, n: nat, name: string)
    requires n <= |env.files|
    ensures forall k :: k in NumbersOf(env, n, name) ==> k < Offset(env, n)
    ensures forall i, j :: 0 <= i < j < |NumbersOf(env, n, name)| ==>
              NumbersOf(env, n, name)[i] < NumbersOf(env, n, name)[j]
  {
    hide Count;
    if n > 0 {
      NumbersIncrease(env, n - 1, name);
      var front := NumbersOf(env, n - 1, name);
      assert forall i :: 0 <= i < |front| ==> front[i] in front;
    }
  }

  /** The global number k is that of a batch of the file at `p`, which has the name. */
  predicate HasNumber(env: Env, p: nat, name: string, k: nat)
    requires p < |env.files|
  {
    env.files[p].filename == name && Offset(env, p) <= k < Offset(env, p) + Count(env, p)
  }

  lemma {:induction false} BlockHas(start: nat, n: nat, k: nat)
    ensures k in seq(n, (i: nat) => start + i) <==> start <= k < start + n
  {
    if start <= k < start + n {
      assert seq(n, (i: nat) => start + i)[k - start] == k;
    }
  }

  lemma {:induction false} NumberedIs(env: Env, n: nat, name: string, k: nat)
    requires n <= |env.files|
    ensures k in NumbersOf(env, n, name) <==> exists p: nat :: p < n && HasNumber(env, p, name, k)
  {
    hide Count, Offset;
    if n > 0 {
      NumberedIs(env, n - 1, name, k);
      BlockHas(Offset(env, n - 1), Count(env, n - 1), k);
      assert HasNumber(env, n - 1, name, k) <==>
             env.files[n - 1].filename == name && Offset(env, n - 1) <= k < Offset(env, n - 1) + Count(env, n - 1);
    }
  }

  lemma {:induction false} GlobalKey(env: Env, p: nat, i: nat)
    requires p < |env.files| && i < Count(env, p)
    ensures KeyOf(GlobalBatch(env, p, i)) == (env.files[p].filename, Offset(env, p) + i)
  {
    hide Slices, Config.ChunkSize;
  }

  lemma {:induction false} IndexFiled(env: Env, results: map<BatchKey, Processed>, p: nat, i: nat)
    requires p < |env.files| && i < Count(env, p)
    requires Collected(env.outcome, GlobalTasks(env, |env.files|), {}, results)
    ensures var t := GlobalBatch(env, p, i);
            && (env.files[p].filename, Offset(env, p) + i) in results
            && env.outcome(t).Reply?
            && results[(env.files[p].filename, Offset(env, p) + i)] == ProcessedBy(env.outcome, t)
  {
    hide BatchOf, Slices, Config.ChunkSize, GlobalBatch, GlobalTasks, Count, Offset;
    GlobalTaskAt(env, |env.files|, p, i);
    GlobalKey(env, p, i);
  }

  /** A number is filed under a name exactly when it is that of a batch of a file of the name. */
  lemma {:induction false} FiledIs(env: Env, results: map<BatchKey, Processed>, name: string, k: nat)
    requires Collected(env.outcome, GlobalTasks(env, |env.files|), {}, results)
    ensures (name, k) in results <==> k in NumbersOf(env, |env.files|, name)
  {
    hide BatchOf, Slices, Config.ChunkSize, GlobalBatch, GlobalTasks, Count, Offset, NumbersOf;
    var n := |env.files|;
    NumberedIs(env, n, name, k);
    if (name, k) in results {
      assert FiledBy(GlobalTasks(env, n), (name, k));
      var g: nat :| g < |GlobalTasks(env, n)| && KeyOf(GlobalTasks(env, n)[g]) == (name, k);
      var q, i := TaskOwner(env, n, g);
      GlobalTaskAt(env, n, q, i);
      GlobalKey(env, q, i);
      assert HasNumber(env, q, name, k);
    }
    if p: nat :| p < n && HasNumber(env, p, name, k) {
      IndexFiled(env, results, p, k - Offset(env, p));
    }
  }

  /** The sorted numbers under a name are those of its files, file after file. */
  lemma {:induction false} SortedNumbers(env: Env, results: map<BatchKey, Processed>, name: string)
    requires Collected(env.outcome, GlobalTasks(env, |env.files|), {}, results)
    ensures SortedKeys(IndicesOf(results, name)) == NumbersOf(env, |env.files|, name)
  {
    hide Collected, GlobalTasks, SortedKeys, NumbersOf, IndicesOf, Offset;
    forall k: nat
      ensures k in SortedKeys(IndicesOf(results, name)) <==> k in NumbersOf(env, |env.files|, name)
    {
      FiledIs(env, results, name, k);
    }
    NumbersIncrease(env, |env.files|, name);
    IncreasingIsUnique(SortedKeys(IndicesOf(results, name)), NumbersOf(env, |env.files|, name));
  }

  predicate AllFiled(results: map<BatchKey, Processed>, name: string, numbers: seq<nat>) {
    forall k :: k in numbers ==> (name, k) in results
  }

  function FiledAs(results: map<BatchKey, Processed>, name: string, numbers: seq<nat>): seq<Processed>
    requires AllFiled(results, name, numbers)
  {
    seq(|numbers|, (i: nat) requires i < |numbers| => assert numbers[i] in numbers; results[(name, numbers[i])])
  }

  lemma {:induction false} ConcatAppend(a: seq<Processed>, b: seq<Processed>)
    ensures Concat(a + b) == Concat(a) + Concat(b)
  {
    if a == [] {
      assert a + b == b;
    } else {
      assert (a + b)[1..] == a[1..] + b;
      ConcatAppend(a[1..], b);
    }
  }

  /** The batches of one file, joined. */
  lemma {:induction false} BlockJoins(env: Env, results: map<BatchKey, Processed>, p: nat, block: seq<nat>)
    requires p < |env.files| && |block| == Count(env, p)
    requires forall i: nat :: i < |block| ==> block[i] == Offset(env, p) + i
    requires Collected(env.outcome, GlobalTasks(env, |env.files|), {}, results)
    requires AllFiled(results, env.files[p].filename, block)
    ensures Concat(FiledAs(results, env.files[p].filename, block)) == BlockTexts(env, p)
  {
    hide Collected, GlobalTasks, Count, Offset, GlobalBatch, Concat, Flatten;
    var name := env.files[p].filename;
    var filed := FiledAs(results, name, block);
    var parts := seq(Count(env, p), (i: nat) requires i < Count(env, p) =>
        TextsOf(env.outcome(GlobalBatch(env, p, i))));
    forall i: nat | i < |parts| ensures filed[i].Texts() == parts[i] {
      IndexFiled(env, results, p, i);
    }
    ConcatIsFlatten(filed, parts);
  }

  lemma {:induction false} NumbersJoin(env: Env, results: map<BatchKey, Processed>, n: nat, name: string)
    requires n <= |env.files| && AllFiled(results, name, NumbersOf(env, n, name))
    requires Collected(env.outcome, GlobalTasks(env, |env.files|), {}, results)
    ensures Concat(FiledAs(results, name, NumbersOf(env, n, name))) == JoinedUnder(env, n, name)
  {
    hide Collected, GlobalTasks, Count, Offset, BlockTexts, Concat;
    if n == 0 {
      assert FiledAs(results, name, []) == [];
      assert Concat([]) == [] by {
        NothingJoined();
      }
    } else {
      var front := NumbersOf(env, n - 1, name);
      assert AllFiled(results, name, front);
      NumbersJoin(env, results, n - 1, name);
      if env.files[n - 1].filename == name {
        var block := seq(Count(env, n - 1), (i: nat) => Offset(env, n - 1) + i);
        assert NumbersOf(env, n, name) == front + block;
        assert AllFiled(results, name, block);
        BlockJoins(env, results, n - 1, block);
        ConcatAppend(FiledAs(results, name, front), FiledAs(results, name, block));
        assert FiledAs(results, name, front + block) == FiledAs(results, name, front) + FiledAs(results, name, block);
      } else {
        assert NumbersOf(env, n, name) == front + [] == front;
      }
    }
  }

  lemma {:induction false} NothingJoined()
    ensures Concat([]) == []
  {
  }

  /** All results filed under a name, joined: those of its files, one file after the other. */
  lemma {:induction false} FiledJoins(env: Env, results: map<BatchKey, Processed>, name: string)
    requires Collected(env.outcome, GlobalTasks(env, |env.files|), {}, results)
    ensures Concat(FiledUnder(results, name)) == JoinedUnder(env, |env.files|, name)
  {
    hide Collected, GlobalTasks, NumbersOf, JoinedUnder, Concat, SortedKeys;
    var numbers := NumbersOf(env, |env.files|, name);
    SortedNumbers(env, results, name);
    assert AllFiled(results, name, numbers);
    NumbersJoin(env, results, |env.files|, name);
    assert FiledUnder(results, name) == FiledAs(results, name, numbers);
  }

  /** With a worker that never fails none of them is bad. */
  lemma {:induction false} FiledAreGood(env: Env, results: map<BatchKey, Processed>, name: string)
    requires Collected(env.outcome, GlobalTasks(env, |env.files|), {}, results) && NeverFails(env.outcome)
    ensures forall i: nat :: i < |FiledUnder(results, name)| ==> !FiledUnder(results, name)[i].Bad()
  {
    hide GlobalTasks, SortedKeys;
    forall key | key in results ensures !results[key].Bad() {
      assert FiledBy(GlobalTasks(env, |env.files|), key);
      var g: nat :| g < |GlobalTasks(env, |env.files|)| && KeyOf(GlobalTasks(env, |env.files|)[g]) == key;
      assert env.outcome(GlobalTasks(env, |env.files|)[g]).Reply?;
    }
  }

  /** Some batch of some file of the name came back marked. */
  ghost predicate HasMarked(env: Env, name: string) {
    exists q: nat, i: nat :: q < |env.files| && i < Count(env, q) && env.files[q].filename == name && Marked(env, q, i)
  }

  predicate Marked(env: Env, q: nat, i: nat)
    requires q < |env.files| && i < Count(env, q)
  {
    match env.outcome(GlobalBatch(env, q, i))
    case Raised => false
    case Reply(_, failed, fellBack, _) => failed || fellBack
  }

  lemma {:induction false} BadIffMarked(env: Env, results: map<BatchKey, Processed>, name: string)
    requires Collected(env.outcome, GlobalTasks(env, |env.files|), {}, results)
    ensures (exists j: nat :: j < |FiledUnder(results, name)| && FiledUnder(results, name)[j].Bad()) <==>
            HasMarked(env, name)
  {
    hide GlobalTasks, Collected, SortedKeys, Count, Offset, GlobalBatch;
    var keys, filed := SortedKeys(IndicesOf(results, name)), FiledUnder(results, name);
    if j: nat :| j < |filed| && filed[j].Bad() {
      assert keys[j] in keys;
      var q, i := FiledOwner(env, results, name, keys[j]);
      assert Marked(env, q, i);
    }
    if HasMarked(env, name) {
      var q: nat, i: nat :| q < |env.files| && i < Count(env, q) && env.files[q].filename == name && Marked(env, q, i);
      IndexFiled(env, results, q, i);
      assert Offset(env, q) + i in keys;
      var j :| 0 <= j < |keys| && keys[j] == Offset(env, q) + i;
      assert filed[j].Bad();
    }
  }

  lemma {:induction false} FiledOwner(env: Env, results: map<BatchKey, Processed>, name: string, k: nat)
    returns (q: nat, i: nat)
    requires Collected(env.outcome, GlobalTasks(env, |env.files|), {}, results) && (name, k) in results
    ensures q < |env.files| && i < Count(env, q) && env.files[q].filename == name
    ensures env.outcome(GlobalBatch(env, q, i)).Reply?
    ensures results[(name, k)] == ProcessedBy(env.outcome, GlobalBatch(env, q, i))
  {
    hide GlobalTasks, Count, Offset, GlobalBatch, ProcessedBy;
    assert FiledBy(GlobalTasks(env, |env.files|), (name, k));
    var g: nat :| g < |GlobalTasks(env, |env.files|)| && KeyOf(GlobalTasks(env, |env.files|)[g]) == (name, k);
    q, i := TaskOwner(env, |env.files|, g);
    GlobalTaskAt(env, |env.files|, q, i);
    GlobalKey(env, q, i);
    IndexFiled(env, results, q, i);
  }

  /**
   * What every file with text gets, for any names and any worker: its source texts if some batch of a file of
   * its name came back marked, or if the files of its name gave another number of texts than it has; else
   * what they gave.
   */
  lemma {:induction false} FileInFull(env: Env, results: map<BatchKey, Processed>, p: nat)
    requires p < |env.files| && env.files[p].texts != []
    requires Collected(env.outcome, GlobalTasks(env, |env.files|), {}, results)
    ensures var f, given := env.files[p], JoinedUnder(env, |env.files|, env.files[p].filename);
            FileResult(f, FiledUnder(results, f.filename)) ==
            if HasMarked(env, f.filename) || |given| != |f.texts| then f.texts else given
  {
    hide Collected, GlobalTasks, FiledUnder, JoinedUnder, HasMarked, Concat;
    FiledJoins(env, results, env.files[p].filename);
    BadIffMarked(env, results, env.files[p].filename);
  }

  // ---------------------------------------------------------------- which files keep their translation

  /** Another file with text has the name of the file at `p`. */
  ghost predicate Shared(files: seq<FileTask>, p: nat)
    requires p < |files|
  {
    exists q: nat :: q < |files| && q != p && files[q].texts != [] && files[q].filename == files[p].filename
  }

  /** The number of texts of the first `n` files of the name. */
  function TextCount(files: seq<FileTask>, n: nat, name: string): nat
    requires n <= |files|
  {
    if n == 0 then 0
    else TextCount(files, n - 1, name) + (if files[n - 1].filename == name then |files[n - 1].texts| else 0)
  }

  lemma {:induction false} BlockLength(env: Env, p: nat)
    requires NeverFails(env.outcome) && p < |env.files|
    ensures |BlockTexts(env, p)| == |env.files[p].texts|
  {
    var parts := seq(Count(env, p), (i: nat) requires i < Count(env, p) =>
        TextsOf(env.outcome(GlobalBatch(env, p, i))));
    forall i | 0 <= i < |parts| ensures |parts[i]| == |Batches(env, p)[i]| {
      assert GlobalBatch(env, p, i).texts == Batches(env, p)[i];
    }
    SameLengths(parts, Batches(env, p));
    FlattenLength(parts);
    FlattenLength(Batches(env, p));
  }

  lemma {:induction false} SameLengths(a: seq<seq<Text>>, b: seq<seq<Text>>)
    requires |a| == |b| && forall i :: 0 <= i < |a| ==> |a[i]| == |b[i]|
    ensures TotalLength(a) == TotalLength(b)
  {
    if a != [] {
      SameLengths(a[1..], b[1..]);
    }
  }

  lemma {:induction false} JoinedLength(env: Env, n: nat, name: string)
    requires NeverFails(env.outcome) && n <= |env.files|
    ensures |JoinedUnder(env, n, name)| == TextCount(env.files, n, name)
  {
    hide NeverFails, BlockTexts;
    if n > 0 {
      JoinedLength(env, n - 1, name);
      BlockLength(env, n - 1);
    }
  }

  /** The texts of the name, counted, are at least those of the files at `p` and at `q`. */
  lemma {:induction false} CountTwo(files: seq<FileTask>, n: nat, p: nat, q: nat)
    requires n <= |files| && p < |files| && q < |files| && p != q && files[p].filename == files[q].filename
    ensures TextCount(files, n, files[p].filename) >=
            (if p < n then |files[p].texts| else 0) + (if q < n then |files[q].texts| else 0)
  {
    if n > 0 {
      CountTwo(files, n - 1, p, q);
    }
  }

  lemma {:induction false} CountAlone(files: seq<FileTask>, n: nat, p: nat)
    requires n <= |files| && p < |files| && !Shared(files, p)
    ensures TextCount(files, n, files[p].filename) == if p < n then |files[p].texts| else 0
  {
    if n > 0 {
      CountAlone(files, n - 1, p);
    }
  }

  /** When no other file with text has the name, what is joined under it is the file's own. */
  lemma {:induction false} JoinedAlone(env: Env, n: nat, p: nat)
    requires n <= |env.files| && p < |env.files| && !Shared(env.files, p)
    ensures JoinedUnder(env, n, env.files[p].filename) == if p < n then BlockTexts(env, p) else []
  {
    hide BlockTexts;
    if n > 0 {
      JoinedAlone(env, n - 1, p);
      if n - 1 != p && env.files[n - 1].filename == env.files[p].filename {
        NoBlock(env, n - 1);
      }
    }
  }

  lemma {:induction false} NoBlock(env: Env, p: nat)
    requires p < |env.files| && env.files[p].texts == []
    ensures BlockTexts(env, p) == []
  {
    hide GlobalBatch, Count;
    EmptyHasNoBatch(env, p);
  }

  /**
   * For files of any names and a worker that never fails: a file with text is found to have as many
   * results as texts if and only if no other file with text has its name.
   */
  lemma {:induction false} EnoughResultsIff(env: Env, results: map<BatchKey, Processed>, p: nat)
    requires NeverFails(env.outcome) && p < |env.files| && env.files[p].texts != []
    requires Collected(env.outcome, GlobalTasks(env, |env.files|), {}, results)
    ensures |Concat(FiledUnder(results, env.files[p].filename))| == |env.files[p].texts| <==> !Shared(env.files, p)
  {
    hide NeverFails, Collected, GlobalTasks, FiledUnder, Concat, JoinedUnder, TextCount;
    var n := |env.files|;
    FiledJoins(env, results, env.files[p].filename);
    JoinedLength(env, n, env.files[p].filename);
    if Shared(env.files, p) {
      var q: nat :| q < n && q != p && env.files[q].texts != [] && env.files[q].filename == env.files[p].filename;
      CountTwo(env.files, n, p, q);
    } else {
      CountAlone(env.files, n, p);
    }
  }

  /** So such a file gets its source texts, although every batch succeeded. */
  lemma {:induction false} SharedFallsBack(env: Env, results: map<BatchKey, Processed>, p: nat)
    requires NeverFails(env.outcome) && p < |env.files| && env.files[p].texts != [] && Shared(env.files, p)
    requires Collected(env.outcome, GlobalTasks(env, |env.files|), {}, results)
    ensures FileResult(env.files[p], FiledUnder(results, env.files[p].filename)) == env.files[p].texts
  {
    hide NeverFails, Collected, GlobalTasks, FiledUnder, Shared, Concat;
    EnoughResultsIff(env, results, p);
  }

  lemma {:induction false} BlockIsChunkAndMap(env: Env, p: nat)
    requires IgnoresIndex(env.outcome) && p < |env.files|
    ensures BlockTexts(env, p) == ChunkAndMap(env, p)
  {
    hide BatchOf, GlobalBatch, Count, Flatten, IgnoresIndex, TextsOf;
    forall i: nat | i < Count(env, p)
      ensures TextsOf(env.outcome(GlobalBatch(env, p, i))) == TextsOf(env.outcome(BatchOf(env, p, i)))
    {
      SameOutcome(env, p, i);
    }
    assert seq(Count(env, p), (i: nat) requires i < Count(env, p) => TextsOf(env.outcome(GlobalBatch(env, p, i)))) ==
           seq(Count(env, p), (i: nat) requires i < Count(env, p) => TextsOf(env.outcome(BatchOf(env, p, i))));
  }

  lemma {:induction false} SameOutcome(env: Env, p: nat, i: nat)
    requires IgnoresIndex(env.outcome) && p < |env.files| && i < Count(env, p)
    ensures env.outcome(GlobalBatch(env, p, i)) == env.outcome(BatchOf(env, p, i))
  {
    hide BatchOf, Count, Offset;
    assert env.outcome(BatchOf(env, p, i).(index := Offset(env, p) + i)) == env.outcome(BatchOf(env, p, i));
  }

  /**
   * For files of any names and a worker that never fails and does not look at the batch number: the
   * all-at-once scheduler gives a file its slices mapped through the worker, unless another file with
   * text has its name; then it gives the source texts, although every batch succeeded.
   */
  lemma {:induction false} ParallelIsChunkAndMap(env: Env, results: map<BatchKey, Processed>, p: nat)
    requires p < |env.files| && NeverFails(env.outcome) && IgnoresIndex(env.outcome)
    requires Collected(env.outcome, GlobalTasks(env, |env.files|), {}, results)
    ensures FileResult(env.files[p], FiledUnder(results, env.files[p].filename)) ==
            if env.files[p].texts != [] && Shared(env.files, p) then env.files[p].texts else ChunkAndMap(env, p)
  {
    hide NeverFails, IgnoresIndex, Collected, GlobalTasks, FiledUnder, Concat, JoinedUnder, BlockTexts, ChunkAndMap,
         Shared;
    var name := env.files[p].filename;
    if env.files[p].texts == [] {
      EmptyFile(env, p);
    } else {
      FiledAreGood(env, results, name);
      EnoughResultsIff(env, results, p);
      if !Shared(env.files, p) {
        FiledJoins(env, results, name);
        JoinedAlone(env, |env.files|, p);
        BlockIsChunkAndMap(env, p);
      }
    }
  }

  lemma {:induction false} EmptyFile(env: Env, p: nat)
    requires p < |env.files| && env.files[p].texts == []
    ensures ChunkAndMap(env, p) == []
  {
    EmptyHasNoBatch(env, p);
  }

  /** Under a name, the table holds what the last file of the name got. */
  lemma {:induction false} FileResultsAt(files: seq<FileTask>, results: map<BatchKey, Processed>, n: nat, p: nat)
    requires p < n <= |files| && forall q :: p < q < n ==> files[q].filename != files[p].filename
    ensures files[p].filename in FileResults(files, results, n)
    ensures FileResults(files, results, n)[files[p].filename] ==
            FileResult(files[p], FiledUnder(results, files[p].filename))
  {
    hide FileResult, FiledUnder;
    if p < n - 1 {
      FileResultsAt(files, results, n - 1, p);
    }
  }

  /**
   * The two schedulers, for files of any names and every worker that never fails and does not look at
   * the batch number: a streaming run that is over and met no clash gives each file its slices mapped
   * through the worker. The all-at-once scheduler gives it the same texts, although it numbers batches
   * globally, unless another file with text has its name; then it gives the source texts. Its table
   * holds that under the file's name when no later file has the name.
   */
  lemma {:induction false} SchedulersAgree(env: Env, run: seq<Event>, results: map<BatchKey, Processed>, k: nat)
    requires NeverFails(env.outcome) && IgnoresIndex(env.outcome)
    requires Legal(env, INIT, run) && Terminal(After(env, INIT, run)) && ClashFree(env, INIT, run)
    requires Collected(env.outcome, GlobalTasks(env, |env.files|), {}, results)
    requires k < |After(env, INIT, run).emitted|
    ensures var e := After(env, INIT, run).emitted[k];
            && e.pos < |env.files| && !e.failed && e.texts == ChunkAndMap(env, e.pos)
            && var f := env.files[e.pos];
               var batched := FileResult(f, FiledUnder(results, f.filename));
               var table := FileResults(env.files, results, |env.files|);
               && batched == (if f.texts != [] && Shared(env.files, e.pos) then f.texts else e.texts)
               && ((forall q :: e.pos < q < |env.files| ==> env.files[q].filename != f.filename) ==>
                     f.filename in table && table[f.filename] == batched)
  {
    hide Legal, After, ClashFree, Terminal, NeverFails, IgnoresIndex, Collected, GlobalTasks, FiledUnder, FileResult,
      FileResults, ChunkAndMap, Shared;
    DeliveredIffClashFree(env, run);
    var e := After(env, INIT, run).emitted[k];
    assert Expected(env, e);
    StreamIsChunkAndMap(env, e);
    ParallelIsChunkAndMap(env, results, e.pos);
    if forall q :: e.pos < q < |env.files| ==> env.files[q].filename != env.files[e.pos].filename {
      FileResultsAt(env.files, results, |env.files|, e.pos);
    }
  }

  /**
   * The smallest case: two files of one name with one text each both get their source text, whatever the
   * worker said.
   */
  lemma {:induction false} TwoFilesFallBack(outcome: BatchTask -> WorkerReply, results: map<BatchKey, Processed>)
    requires NeverFails(outcome)
    requires var one, two := FileTask("a.yml", ["one"], ""), FileTask("a.yml", ["two"], "");
             var env := Env(Config(1, None), [one, two], outcome);
             Collected(outcome, GlobalTasks(env, 2), {}, results)
    ensures var one, two := FileTask("a.yml", ["one"], ""), FileTask("a.yml", ["two"], "");
            && FileResult(one, FiledUnder(results, "a.yml")) == ["one"]
            && FileResult(two, FiledUnder(results, "a.yml")) == ["two"]
            && FileResults([one, two], results, 2) == map["a.yml" := ["two"]]
  {
    var one, two := FileTask("a.yml", ["one"], ""), FileTask("a.yml", ["two"], "");
    var env := Env(Config(1, None), [one, two], outcome);
    hide NeverFails, Collected, GlobalTasks, FiledUnder, FileResult, FileResults;
    assert env.files[0] == one && env.files[1] == two;
    assert Shared(env.files, 0) by {
      assert env.files[1].texts != [];
    }
    assert Shared(env.files, 1) by {
      assert env.files[0].texts != [];
    }
    SharedFallsBack(env, results, 0);
    SharedFallsBack(env, results, 1);
    TableOfTwo(one, two, results);
  }

  lemma {:induction false} TableOfTwo(one: FileTask, two: FileTask, results: map<BatchKey, Processed>)
    ensures FileResults([one, two], results, 2) ==
            map[one.filename := FileResult(one, FiledUnder(results, one.filename))]
               [two.filename := FileResult(two, FiledUnder(results, two.filename))]
  {
    hide FileResult, FiledUnder;
    assert FileResults([one, two], results, 1) ==
           map[][one.filename := FileResult(one, FiledUnder(results, one.filename))];
  }
}
