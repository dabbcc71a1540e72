/**
 * Whole runs of the streaming scheduler: every legal sequence of submissions and
 * completions, under every pattern of failing batches and for files of any names.
 */
module StreamRuns {
  import opened BatchTypes
  import opened StreamScheduler

  /** Every event is enabled when it happens. */
  ghost predicate Legal(env: Env, st: State, run: seq<Event>)
    decreases |run|
  {
    run == [] || (Enabled(env, st, run[0]) && Legal(env, Apply(env, st, run[0]), run[1..]))
  }

  ghost function After(env: Env, st: State, run: seq<Event>): State
    requires Legal(env, st, run)
    decreases |run|
  {
    if run == [] then st else After(env, Apply(env, st, run[0]), run[1..])
  }

  lemma {:induction false} OneMoreEvent(env: Env, st: State, run: seq<Event>, e: Event)
    requires Legal(env, st, run) && Enabled(env, After(env, st, run), e)
    ensures Legal(env, st, run + [e]) && After(env, st, run + [e]) == Apply(env, After(env, st, run), e)
    decreases |run|
  {
    hide Enabled, Apply;
    if run == [] {
      assert [] + [e] == [e] && [e][1..] == [];
    } else {
      assert (run + [e])[1..] == run[1..] + [e];
      OneMoreEvent(env, Apply(env, st, run[0]), run[1..], e);
    }
  }

  /** No file is submitted while an earlier one of its name still has a buffer. */
  ghost predicate ClashFree(env: Env, st: State, run: seq<Event>)
    requires Legal(env, st, run)
    decreases |run|
  {
    run == [] || (!Clashes(env, st, run[0]) && ClashFree(env, Apply(env, st, run[0]), run[1..]))
  }

  lemma {:induction false} RunKeeps(env: Env, st: State, run: seq<Event>)
    requires Inv(env, st) && Legal(env, st, run) && ClashFree(env, st, run)
    ensures Inv(env, After(env, st, run))
    decreases |run|
  {
    hide Inv, Enabled, Apply, Clashes;
    if run != [] {
      ApplyKeeps(env, st, run[0]);
      RunKeeps(env, Apply(env, st, run[0]), run[1..]);
    }
  }

  lemma {:induction false} InitInv(env: Env)
    ensures Inv(env, INIT)
  {
  }

  /** When files with text have different names, no run has a clash. */
  lemma {:induction false} DistinctNeverClash(env: Env, st: State, run: seq<Event>)
    requires DistinctNames(env.files) && Inv(env, st) && Legal(env, st, run)
    ensures ClashFree(env, st, run)
    decreases |run|
  {
    hide Apply, DistinctNames, TablesOk, NamesOwned, NamesApart, FuturesOk, FilesOk, EmittedOk;
    if run != [] {
      if run[0].Submit? {
        NewNameIsFree(env, st);
      }
      ApplyKeeps(env, st, run[0]);
      DistinctNeverClash(env, Apply(env, st, run[0]), run[1..]);
    }
  }

  // ---------------------------------------------------------------- what holds for any names

  /** The table of futures and the counter are exact. */
  ghost predicate Basic(env: Env, st: State) {
    && st.next <= |env.files|
    && (st.exhausted ==> st.next == |env.files|)
    && st.pending == |st.futures|
    && forall id :: id in st.futures ==>
         id.0 < st.next && id.1 < Count(env, id.0) && st.futures[id] == BatchOf(env, id.0, id.1)
  }

  lemma {:induction false} InvIsBasic(env: Env, st: State)
    requires Inv(env, st)
    ensures Basic(env, st)
  {
    hide NamesOwned, NamesApart, FilesOk, EmittedOk, EmittedAt, Count, BatchOf;
    forall id | id in st.futures
      ensures id.0 < st.next && id.1 < Count(env, id.0) && st.futures[id] == BatchOf(env, id.0, id.1)
    {
      assert FutureOk(env, st, id);
    }
  }

  lemma {:induction false} EmptyHasNoBatch(env: Env, p: nat)
    requires p < |env.files|
    ensures Count(env, p) == 0 <==> env.files[p].texts == []
  {
    SliceCount(env.files[p].texts, env.cfg.ChunkSize(env.files[p].provider));
  }

  /** Submitting adds just the futures of the file's batches. */
  lemma {:induction false} BasicSubmit(env: Env, st: State)
    requires Basic(env, st) && st.next < |env.files| && !st.exhausted
    ensures Basic(env, SubmitNext(env, st))
    ensures forall id :: id in SubmitNext(env, st).futures <==>
              id in st.futures || (id.0 == st.next && id.1 < Count(env, st.next))
    ensures |SubmitNext(env, st).futures| == |st.futures| + Count(env, st.next)
    ensures SubmitNext(env, st).next == st.next + 1 && !SubmitNext(env, st).exhausted
  {
    hide Count, BatchOf, AddFutures, FuturesAdded, SubmitNext;
    SubmitProgress(env, st);
    SubmitAdds(env, st.next, st.futures);
    AddedAreBatches(env, st.next, st.futures, AddFutures(env, st.next, Count(env, st.next), st.futures));
  }

  /** An empty file adds no futures, so that it needs no case of its own. */
  lemma {:induction false} SubmitProgress(env: Env, st: State)
    requires st.next < |env.files|
    ensures var n, st' := Count(env, st.next), SubmitNext(env, st);
            && st'.futures == AddFutures(env, st.next, n, st.futures) && st'.pending == st.pending + n
            && st'.next == st.next + 1 && st'.exhausted == st.exhausted
  {
    hide Count;
    EmptyHasNoBatch(env, st.next);
  }

  lemma {:induction false} AddedAreBatches(env: Env, p: nat, futures: map<FutureId, BatchTask>,
                                           futures': map<FutureId, BatchTask>)
    requires p < |env.files| && FuturesAdded(env, p, futures, futures')
    ensures forall id :: id in futures' <==> id in futures || (id.0 == p && id.1 < Count(env, p))
    ensures forall id :: id in futures ==> futures'[id] == futures[id]
    ensures forall id :: id in futures' && id !in futures ==> futures'[id] == BatchOf(env, p, id.1)
  {
    hide Count, BatchOf;
    forall id | id in futures' && id !in futures ensures futures'[id] == BatchOf(env, p, id.1) {
      assert id == (p, id.1);
    }
  }

  /** The parts of the state that neither storing a result nor emitting a file touches. */
  ghost predicate SameProgress(st: State, st': State) {
    st'.pending == st.pending && st'.futures == st.futures && st'.next == st.next && st'.exhausted == st.exhausted
  }

  lemma {:induction false} EmitFrame(st: State, name: string)
    requires name in st.buffers && name in st.counts
    ensures SameProgress(st, Emit(st, name))
    ensures |Emit(st, name).emitted| + |Emit(st, name).buffers| == |st.emitted| + |st.buffers|
  {
    hide Assemble;
    assert st.buffers.Keys == (st.buffers - {name}).Keys + {name};
  }

  /** Storing a result adds no buffer and emits nothing. */
  lemma {:induction false} StoredFrame(env: Env, st: State, id: FutureId)
    requires id in st.futures && st.futures[id].file.filename in st.buffers
    ensures var name, st' := st.futures[id].file.filename, Stored(env, st, id);
            && SameProgress(st.(futures := st.futures - {id}, pending := st.pending - 1), st')
            && st'.emitted == st.emitted && st'.counts == st.counts
            && name in st'.buffers && |st'.buffers| == |st.buffers|
  {
    hide Settle, Extend, Put;
    assert Stored(env, st, id).buffers.Keys == st.buffers.Keys;
  }

  lemma {:induction false} FinishCases(env: Env, st: State, id: FutureId)
    requires id in st.futures
    ensures var name := st.futures[id].file.filename;
            if name !in st.buffers then
              Finish(env, st, id) == st.(futures := st.futures - {id}, pending := st.pending - 1)
            else
              var st' := Stored(env, st, id);
              if name !in st'.counts then Finish(env, st, id) == st'.(crashed := true)
              else Finish(env, st, id) == st' || (name in st'.buffers && Finish(env, st, id) == Emit(st', name))
  {
    hide Emit, Settle, Extend, Put;
  }

  lemma {:induction false} FinishProgress(env: Env, st: State, id: FutureId)
    requires id in st.futures
    ensures SameProgress(st.(futures := st.futures - {id}, pending := st.pending - 1), Finish(env, st, id))
    ensures |Finish(env, st, id).emitted| + |Finish(env, st, id).buffers| == |st.emitted| + |st.buffers|
  {
    hide Emit, Finish, Stored;
    FinishCases(env, st, id);
    var name := st.futures[id].file.filename;
    if name in st.buffers {
      StoredFrame(env, st, id);
      if name in st.counts {
        EmitFrame(Stored(env, st, id), name);
      }
    }
  }

  /** Taking a future removes it and no other. */
  lemma {:induction false} BasicFinish(env: Env, st: State, id: FutureId)
    requires Basic(env, st) && id in st.futures
    ensures Basic(env, Finish(env, st, id))
    ensures Finish(env, st, id).futures == st.futures - {id}
    ensures |Finish(env, st, id).futures| == |st.futures| - 1
    ensures Finish(env, st, id).next == st.next && Finish(env, st, id).exhausted == st.exhausted
  {
    hide Finish, Count, BatchOf;
    FinishProgress(env, st, id);
    RemoveSize(st.futures, id);
  }

  lemma {:induction false} RemoveSize<K, V>(m: map<K, V>, k: K)
    requires k in m
    ensures |m - {k}| == |m| - 1
  {
    assert m.Keys == (m - {k}).Keys + {k};
  }

  lemma {:induction false} BasicStep(env: Env, st: State, e: Event)
    requires Basic(env, st) && Enabled(env, st, e)
    ensures Basic(env, Apply(env, st, e))
  {
    hide Finish, SubmitNext, Count, BatchOf;
    match e
    case Submit => BasicSubmit(env, st);
    case Complete(id) => BasicFinish(env, st, id);
    case StopIteration =>
  }

  lemma {:induction false} RunBasic(env: Env, st: State, run: seq<Event>)
    requires Basic(env, st) && Legal(env, st, run)
    ensures Basic(env, After(env, st, run))
    decreases |run|
  {
    hide Basic, Enabled, Apply;
    if run != [] {
      BasicStep(env, st, run[0]);
      RunBasic(env, Apply(env, st, run[0]), run[1..]);
    }
  }

  // ---------------------------------------------------------------- back-pressure and progress

  /** The batch count of the largest of the first `n` files. */
  function Largest(env: Env, n: nat): (r: nat)
    requires n <= |env.files|
    ensures forall p: nat :: p < n ==> Count(env, p) <= r
  {
    if n == 0 then 0
    else var m := Largest(env, n - 1); if Count(env, n - 1) > m then Count(env, n - 1) else m
  }

  function PendingBound(env: Env): int {
    MaxPending(env) - 1 + Largest(env, |env.files|)
  }

  lemma {:induction false} StepPending(env: Env, st: State, e: Event)
    requires Enabled(env, st, e) && st.pending <= PendingBound(env)
    ensures Apply(env, st, e).pending <= PendingBound(env)
  {
    match e
    case Submit =>
    case Complete(id) => FinishProgress(env, st, id);
    case StopIteration =>
  }

  lemma {:induction false} PendingStaysBounded(env: Env, st: State, run: seq<Event>)
    requires Legal(env, st, run) && st.pending <= PendingBound(env)
    ensures After(env, st, run).pending <= PendingBound(env)
    decreases |run|
  {
    if run != [] {
      StepPending(env, st, run[0]);
      PendingStaysBounded(env, Apply(env, st, run[0]), run[1..]);
    }
  }

  /** Back-pressure: in every reachable state the counter is exact and bounded. */
  lemma {:induction false} BackPressure(env: Env, run: seq<Event>)
    requires 1 <= env.cfg.maxWorkers && Legal(env, INIT, run)
    ensures var st := After(env, INIT, run);
            && st.pending == |st.futures|
            && st.pending <= 4 * env.cfg.maxWorkers - 1 + Largest(env, |env.files|)
  {
    RunBasic(env, INIT, run);
    PendingStaysBounded(env, INIT, run);
  }

  /** A reachable state in which the loop goes on always allows a step. */
  lemma {:induction false} NeverStalls(env: Env, run: seq<Event>)
    requires 1 <= env.cfg.maxWorkers && Legal(env, INIT, run)
    requires !Terminal(After(env, INIT, run))
    ensures exists e :: Enabled(env, After(env, INIT, run), e)
  {
    var st := After(env, INIT, run);
    RunBasic(env, INIT, run);
    if st.futures == map[] {
      assert Enabled(env, st, Submit) || Enabled(env, st, StopIteration);
    } else {
      var id :| id in st.futures;
      assert Enabled(env, st, Complete(id));
    }
  }

  /** The steps the files from `p` on still cost: one to take the file, one for each batch. */
  ghost function WorkFrom(env: Env, p: nat): nat
    requires p <= |env.files|
    decreases |env.files| - p
  {
    if p == |env.files| then 0 else 1 + Count(env, p) + WorkFrom(env, p + 1)
  }

  ghost function WorkLeft(env: Env, st: State): nat
    requires st.next <= |env.files|
  {
    WorkFrom(env, st.next) + |st.futures| + (if st.exhausted then 0 else 1)
  }

  lemma {:induction false} BasicBound(env: Env, st: State)
    requires Basic(env, st)
    ensures st.next <= |env.files| && (st.exhausted ==> st.next == |env.files|)
  {
  }

  /** Every step, whichever it is, uses up exactly one unit of the remaining work. */
  lemma {:induction false} StepWorks(env: Env, st: State, e: Event)
    requires Basic(env, st) && Enabled(env, st, e)
    ensures Apply(env, st, e).next <= |env.files|
    ensures WorkLeft(env, Apply(env, st, e)) == WorkLeft(env, st) - 1
  {
    hide Finish, SubmitNext, Count, BatchOf, Basic;
    BasicBound(env, st);
    match e
    case Submit => BasicSubmit(env, st);
    case Complete(id) => BasicFinish(env, st, id);
    case StopIteration =>
  }

  lemma {:induction false} RunWorks(env: Env, st: State, run: seq<Event>)
    requires Basic(env, st) && Legal(env, st, run)
    ensures After(env, st, run).next <= |env.files|
    ensures WorkLeft(env, After(env, st, run)) == WorkLeft(env, st) - |run|
    decreases |run|
  {
    hide Basic, Enabled, Apply, WorkLeft;
    if run != [] {
      StepWorks(env, st, run[0]);
      BasicStep(env, st, run[0]);
      RunWorks(env, Apply(env, st, run[0]), run[1..]);
    } else {
      BasicBound(env, st);
    }
  }

  /** For files of any names a run is over after exactly one step per file, per batch, and one more. */
  lemma {:induction false} RunLength(env: Env, run: seq<Event>)
    requires Legal(env, INIT, run)
    ensures |run| <= WorkFrom(env, 0) + 1
    ensures Terminal(After(env, INIT, run)) <==> |run| == WorkFrom(env, 0) + 1
  {
    hide Legal, Count, BatchOf;
    var st := After(env, INIT, run);
    RunBasic(env, INIT, run);
    RunWorks(env, INIT, run);
    assert WorkFrom(env, |env.files|) == 0;
    if st.next < |env.files| {
      assert WorkFrom(env, st.next) > 0;
    }
  }

  // ---------------------------------------------------------------- delivery

  /** What a finished run leaves behind: each file emitted exactly once, as expected. */
  ghost predicate Delivered(env: Env, emitted: seq<Emission>) {
    && (forall k :: 0 <= k < |emitted| ==> Expected(env, emitted[k]))
    && (forall j, k :: 0 <= j < k < |emitted| ==> emitted[j].pos != emitted[k].pos)
    && (forall p: nat :: p < |env.files| ==> EmittedAt(emitted, p))
  }

  lemma {:induction false} NothingOpenAtTheEnd(env: Env, st: State, p: nat)
    requires FilesOk(env, st) && st.futures == map[]
    ensures !Open(env, st, p)
  {
    hide EmittedAt;
    if Open(env, st, p) {
      assert OpenOk(env, st, p);
      SubsetSize(Range(Count(env, p)), st.buffers[env.files[p].filename].Keys);
    }
  }

  lemma {:induction false} TerminalDelivers(env: Env, st: State)
    requires Inv(env, st) && Terminal(st)
    ensures Delivered(env, st.emitted) && !st.crashed
    ensures st.buffers == map[] && st.counts == map[] && st.warnings == map[] && st.pending == 0
  {
    hide FilesOk, Expected, FuturesOk;
    forall p: nat ensures !Open(env, st, p) {
      NothingOpenAtTheEnd(env, st, p);
    }
    assert forall name :: name !in st.buffers;
    forall p: nat | p < |env.files| ensures EmittedAt(st.emitted, p) {
      assert !Open(env, st, p);
    }
  }

  lemma {:induction false} StepCounts(env: Env, st: State, e: Event)
    requires Enabled(env, st, e)
    ensures var st' := Apply(env, st, e);
            |st'.emitted| + |st'.buffers| + st.next + (if Clashes(env, st, e) then 1 else 0) ==
            |st.emitted| + |st.buffers| + st'.next
  {
    hide SubmitNext, Finish;
    match e
    case Submit => SubmitCounts(env, st);
    case Complete(id) => FinishProgress(env, st, id);
    case StopIteration =>
  }

  lemma {:induction false} SubmitCounts(env: Env, st: State)
    requires st.next < |env.files|
    ensures var st' := SubmitNext(env, st);
            && st'.next == st.next + 1
            && |st'.emitted| + |st'.buffers| + (if Clashes(env, st, Submit) then 1 else 0) ==
               |st.emitted| + |st.buffers| + 1
  {
    hide SubmitNext;
    SubmitEither(env, st);
    PutSize(st.buffers, env.files[st.next].filename, map[]);
  }

  /** A submission emits an empty file, or gives its name an empty buffer. */
  lemma {:induction false} SubmitEither(env: Env, st: State)
    requires st.next < |env.files|
    ensures var f, st' := env.files[st.next], SubmitNext(env, st);
            && st'.next == st.next + 1
            && |st'.emitted| == |st.emitted| + (if f.texts == [] then 1 else 0)
            && st'.buffers == if f.texts == [] then st.buffers else st.buffers[f.filename := map[]]
  {
    hide AddFutures, Count;
  }

  lemma {:induction false} PutSize<K, V>(m: map<K, V>, k: K, v: V)
    ensures |m[k := v]| == |m| + (if k in m then 0 else 1)
  {
    assert m[k := v].Keys == m.Keys + {k};
  }

  /** Each submission of a file accounts for one emission or buffer, except a clash. */
  lemma {:induction false} RunCounts(env: Env, st: State, run: seq<Event>)
    requires Legal(env, st, run)
    ensures var st' := After(env, st, run);
            && |st'.emitted| + |st'.buffers| + st.next <= |st.emitted| + |st.buffers| + st'.next
            && (!ClashFree(env, st, run) ==>
                  |st'.emitted| + |st'.buffers| + st.next < |st.emitted| + |st.buffers| + st'.next)
    decreases |run|
  {
    hide Enabled, Apply, Clashes;
    if run != [] {
      StepCounts(env, st, run[0]);
      RunCounts(env, Apply(env, st, run[0]), run[1..]);
    }
  }

  lemma {:induction false} EnoughEmissions(emitted: seq<Emission>, positions: set<nat>)
    requires forall p :: p in positions ==> EmittedAt(emitted, p)
    ensures |positions| <= |emitted|
    decreases |emitted|
  {
    if emitted == [] {
      assert positions == {};
    } else {
      var front, e := emitted[..|emitted| - 1], emitted[|emitted| - 1];
      assert emitted == front + [e];
      forall p | p in positions - {e.pos} ensures EmittedAt(front, p) {
        EmittedSnoc(front, e, p);
      }
      EnoughEmissions(front, positions - {e.pos});
      SubsetSize(positions, positions - {e.pos} + {e.pos});
    }
  }

  /** With a clash behind it, no state of a run has delivered every file. */
  lemma {:induction false} ClashIsFinal(env: Env, run: seq<Event>)
    requires Legal(env, INIT, run) && !ClashFree(env, INIT, run)
    ensures !Delivered(env, After(env, INIT, run).emitted)
  {
    hide Legal, After, ClashFree, Expected, Count, BatchOf;
    var st := After(env, INIT, run);
    RunBasic(env, INIT, run);
    RunCounts(env, INIT, run);
    if Delivered(env, st.emitted) {
      EnoughEmissions(st.emitted, Range(|env.files|));
    }
  }

  /**
   * The exact condition, run by run: a run that is over has delivered every file once and as expected
   * if and only if no submission in it met the buffer of an earlier file of the same name.
   */
  lemma {:induction false} DeliveredIffClashFree(env: Env, run: seq<Event>)
    requires Legal(env, INIT, run) && Terminal(After(env, INIT, run))
    ensures Delivered(env, After(env, INIT, run).emitted) <==> ClashFree(env, INIT, run)
    ensures ClashFree(env, INIT, run) ==>
              var st := After(env, INIT, run);
              && !st.crashed
              && st.buffers == map[] && st.counts == map[] && st.warnings == map[] && st.pending == 0
  {
    hide Legal, After, ClashFree, Delivered, Terminal, Inv;
    if ClashFree(env, INIT, run) {
      InitInv(env);
      RunKeeps(env, INIT, run);
      TerminalDelivers(env, After(env, INIT, run));
    } else {
      ClashIsFinal(env, run);
    }
  }

  /**
   * Main theorem: when files with text have different names, then whatever the completion order and
   * the pattern of failures, a run makes progress until it has taken exactly one step per file and per
   * batch plus one, and a run that is over has delivered every file exactly once, assembled in batch
   * order, and holds nothing back.
   */
  lemma {:induction false} EveryRunDelivers(env: Env, run: seq<Event>)
    requires DistinctNames(env.files) && Legal(env, INIT, run)
    ensures |run| <= WorkFrom(env, 0) + 1
    ensures Terminal(After(env, INIT, run)) <==> |run| == WorkFrom(env, 0) + 1
    ensures Terminal(After(env, INIT, run)) ==>
              var st := After(env, INIT, run);
              && Delivered(env, st.emitted) && !st.crashed
              && st.buffers == map[] && st.counts == map[] && st.warnings == map[] && st.pending == 0
  {
    hide Legal, After, ClashFree, DistinctNames, Inv, Delivered, Terminal;
    InitInv(env);
    RunLength(env, run);
    DistinctNeverClash(env, INIT, run);
    if Terminal(After(env, INIT, run)) {
      DeliveredIffClashFree(env, run);
    }
  }

  /**
   * What becomes of each batch of a file, in terms of the worker's replies alone: in a run that is over
   * and met no clash, a file is flagged if and only if one of its batches threw, failed or fell back; its
   * texts are those of its batches in order, a thrown batch leaving its source texts; and its warnings
   * are those of the replies.
   */
  lemma {:induction false} EmissionsInFull(env: Env, run: seq<Event>, k: nat)
    requires Legal(env, INIT, run) && Terminal(After(env, INIT, run)) && ClashFree(env, INIT, run)
    requires k < |After(env, INIT, run).emitted|
    ensures var e := After(env, INIT, run).emitted[k];
            && e.pos < |env.files|
            && (e.failed <==> exists i: nat :: i < Count(env, e.pos) && Unfinished(env, BatchOf(env, e.pos, i)))
            && e.texts == Flatten(AllTexts(env, e.pos, Count(env, e.pos)))
            && multiset(e.warnings) == multiset(Flatten(AllWarnings(env, e.pos, Count(env, e.pos))))
  {
    hide Legal, After, ClashFree, Terminal, Count, BatchOf, Results, WarningsOf, Concat, Flatten;
    DeliveredIffClashFree(env, run);
    assert Expected(env, After(env, INIT, run).emitted[k]);
    ExpectedInFull(env, After(env, INIT, run).emitted[k]);
  }
}
