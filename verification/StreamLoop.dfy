/**
 * The scheduling loop itself, in the imperative form of the source: tables updated in
 * place, files submitted up to the pending limit, and each round of finished futures
 * drained in an arbitrary order. Each method is proved against the transition it performs,
 * and the loop against the runs of the step relation, for files of any names.
 */
module StreamLoop {
  import opened BatchTypes
  import opened StreamScheduler
  import opened StreamRuns

  class StreamRun {
    const env: Env
    var next: nat
    var exhausted: bool
    var futures: map<FutureId, BatchTask>
    var pending: int
    var buffers: map<string, map<nat, Processed>>
    var counts: map<string, nat>
    var warnings: map<string, seq<Warning>>
    var emitted: seq<Emission>
    var crashed: bool
    /** The events so far. */
    ghost var history: seq<Event>

    ghost function Abs(): State
      reads this
    {
      State(next, exhausted, futures, pending, buffers, counts, warnings, emitted, crashed)
    }

    constructor (env: Env)
      ensures this.env == env && Abs() == INIT && history == []
    {
      this.env, history := env, [];
      next, exhausted, futures, pending := 0, false, map[], 0;
      buffers, counts, warnings, emitted, crashed := map[], map[], map[], [], false;
    }

    /** The tables are where the events so far lead. */
    ghost predicate Traced()
      reads this
    {
      Legal(env, INIT, history) && Abs() == After(env, INIT, history)
    }

    method SubmitFile()
      requires next < |env.files|
      modifies this
      ensures Abs() == SubmitNext(env, old(Abs())) && history == old(history)
    {
      var p := next;
      var f := env.files[p];
      next := p + 1;
      if f.texts == [] {
        emitted := emitted + [Emission(p, [], [], false)];
        return;
      }
      var chunk := env.cfg.ChunkSize(f.provider);
      var total := (|f.texts| + chunk - 1) / chunk;
      SliceCount(f.texts, chunk);
      counts := counts[f.filename := total];
      buffers := buffers[f.filename := map[]];
      warnings := warnings[f.filename := []];
      SubmitBatches(p, chunk);
      pending := pending + counts[f.filename];
    }

    method SubmitBatches(p: nat, chunk: nat)
      requires p < |env.files| && chunk == env.cfg.ChunkSize(env.files[p].provider)
      modifies this`futures
      ensures futures == AddFutures(env, p, Count(env, p), old(futures))
    {
      var f := env.files[p];
      var i := 0;
      ghost var k: nat := 0;
      while i < |f.texts|
        invariant i == k * chunk && k <= Count(env, p)
        invariant futures == AddFutures(env, p, k, old(futures))
        decreases |f.texts| - i
      {
        CutIsBatch(env, p, k);
        var texts := f.texts[i..if i + chunk <= |f.texts| then i + chunk else |f.texts|];
        var index := i / chunk;
        futures := futures[(p, index) := BatchTask(p, f, index, i, i + |texts|, texts)];
        i := i + chunk;
        k := k + 1;
      }
      CutIsBatch(env, p, k);
    }

    /** The result of a finished future, or the failed task that replaces an exception. */
    method Collect(b: BatchTask) returns (processed: Processed, ws: seq<Warning>)
      ensures (processed, ws) == Settle(env, b)
    {
      match env.outcome(b) {
        case Reply(t, failed, fellBack, w) =>
          processed, ws := Processed(b, t, failed, fellBack), w;
        case Raised =>
          processed, ws := Processed(b, Some(b.texts), true, false), [];
      }
    }

    method StoreResult(name: string, index: nat, processed: Processed, ws: seq<Warning>)
      requires name in buffers
      modifies this`buffers, this`warnings
      ensures buffers == old(buffers)[name := Put(old(buffers)[name], index, processed)]
      ensures warnings == Extend(old(warnings), name, ws)
    {
      buffers := buffers[name := Put(buffers[name], index, processed)];
      if ws != [] {
        warnings := warnings[name := (if name in warnings then warnings[name] else []) + ws];
      }
    }

    method FinishFuture(id: FutureId)
      requires id in futures
      modifies this
      ensures Abs() == Finish(env, old(Abs()), id) && history == old(history)
      ensures futures == old(futures) - {id} && pending == old(pending) - 1
      ensures old(futures[id].file.filename !in buffers) ==>
                buffers == old(buffers) && warnings == old(warnings) && emitted == old(emitted)
      ensures old(futures[id].file.filename in buffers && futures[id].file.filename !in counts) ==> crashed
    {
      hide Settle, Put, Extend, Emit;
      var b := futures[id];
      futures := futures - {id};
      pending := pending - 1;
      var processed, ws := Collect(b);
      var name := b.file.filename;
      if name !in buffers {
        return;
      }
      StoreResult(name, b.index, processed, ws);
      if name !in counts {
        crashed := true;
      } else if |buffers[name]| == counts[name] {
        EmitFile(name);
      }
    }

    method JoinResults(sorted: seq<Processed>) returns (full: seq<Text>, failed: bool)
      ensures full == Concat(sorted)
      ensures failed <==> exists j: nat :: j < |sorted| && sorted[j].Bad()
    {
      full, failed := [], false;
      for i := 0 to |sorted|
        invariant full == Concat(sorted[..i])
        invariant failed <==> exists j: nat :: j < i && sorted[j].Bad()
      {
        if sorted[i].Bad() {
          failed := true;
        }
        ConcatSnoc(sorted[..i], sorted[i]);
        assert sorted[..i] + [sorted[i]] == sorted[..i + 1];
        full := full + sorted[i].Texts();
      }
      assert sorted[..|sorted|] == sorted;
    }

    method EmitFile(name: string)
      requires name in buffers && name in counts
      modifies this
      ensures Abs() == Emit(old(Abs()), name) && history == old(history)
      ensures futures == old(futures) && pending == old(pending)
      ensures (old(counts[name]) == 0 || exists i: nat :: i < old(counts[name]) && i !in old(buffers[name])) ==>
                crashed && emitted == old(emitted)
    {
      hide Concat;
      var n := counts[name];
      if n == 0 || !HasAll(buffers[name], n) {
        crashed := true;
        return;
      }
      var sorted := Sorted(buffers[name], n);
      var full, failed := JoinResults(sorted);
      var w := if name in warnings then warnings[name] else [];
      emitted := emitted + [Emission(sorted[0].task.pos, full, w, failed)];
      buffers := buffers - {name};
      counts := counts - {name};
      warnings := warnings - {name};
    }

    /** Submits files until the pending limit is reached or the stream is used up. */
    method Fill()
      requires Traced()
      modifies this
      ensures Traced() && (exhausted || pending >= 4 * env.cfg.maxWorkers)
      ensures old(history) <= history && (history == old(history) ==> Abs() == old(Abs()))
    {
      hide Legal, After, SubmitNext, WorkFrom;
      while !exhausted && pending < env.cfg.maxWorkers * 4
        invariant Traced() && old(history) <= history
        invariant history == old(history) ==> Abs() == old(Abs())
        decreases WorkFrom(env, 0) + 1 - |history|
      {
        RunLength(env, history);
        if next < |env.files| {
          OneMoreEvent(env, INIT, history, Submit);
          SubmitFile();
          history := history + [Submit];
        } else {
          OneMoreEvent(env, INIT, history, StopIteration);
          exhausted := true;
          history := history + [StopIteration];
        }
        RunLength(env, history);
      }
    }

    /** Takes the result of one finished future. */
    method TakeResult(id: FutureId)
      requires Traced() && id in futures && !crashed
      modifies this
      ensures Traced() && history == old(history) + [Complete(id)]
      ensures futures == old(futures) - {id}
    {
      hide Legal, After, Finish;
      OneMoreEvent(env, INIT, history, Complete(id));
      FinishProgress(env, Abs(), id);
      FinishFuture(id);
      history := history + [Complete(id)];
    }

    /** Takes the results of a set of finished futures, in an arbitrary order, until an exception if there is one. */
    method Drain(finished: set<FutureId>)
      requires Traced() && finished <= futures.Keys && !crashed
      modifies this
      ensures Traced() && old(history) <= history
      ensures !crashed ==> |history| == |old(history)| + |finished| && futures == old(futures) - finished
      ensures finished != {} ==> |history| > |old(history)|
    {
      hide *;
      var left := finished;
      while left != {} && !crashed
        invariant left <= finished && left <= futures.Keys
        invariant futures - left == old(futures) - finished
        invariant Traced() && old(history) <= history
        invariant |history| + |left| == |old(history)| + |finished|
        invariant crashed ==> |history| > |old(history)|
        decreases left
      {
        var id :| id in left;
        ghost var before := futures;
        TakeResult(id);
        assert before - {id} - (left - {id}) == before - left;
        left := left - {id};
      }
      assert futures - {} == futures;
    }

    /**
     * The whole loop, for every choice of which futures a wait finds finished and in which order: it
     * comes to an end, has performed a legal run, and has delivered every file if and only if that run
     * had no clash of names.
     */
    method Run()
      requires 1 <= env.cfg.maxWorkers && Abs() == INIT && history == []
      modifies this
      ensures Traced() && (crashed || Terminal(Abs()))
      ensures Delivered(env, emitted) <==> ClashFree(env, INIT, history)
      ensures ClashFree(env, INIT, history) ==> !crashed
      ensures ClashFree(env, INIT, history) ==>
                futures == map[] && buffers == map[] && counts == map[] && warnings == map[] && pending == 0
      ensures DistinctNames(env.files) ==> ClashFree(env, INIT, history)
    {
      NoEvents(env);
      hide Legal, After, ClashFree, Delivered, WorkFrom, DistinctNames;
      while !crashed && (!exhausted || futures != map[])
        invariant Traced()
        decreases WorkFrom(env, 0) + 1 - |history|
      {
        RunBasic(env, INIT, history);
        Fill();
        RunBasic(env, INIT, history);
        if futures != map[] && !crashed {
          var done :| done <= futures.Keys && done != {};
          Drain(done);
        }
        RunLength(env, history);
      }
      LoopIsOver(env, history);
    }
  }

  lemma {:induction false} NoEvents(env: Env)
    ensures Legal(env, INIT, []) && After(env, INIT, []) == INIT && Basic(env, INIT)
  {
  }

  /** What holds when the loop is left. */
  lemma {:induction false} LoopIsOver(env: Env, run: seq<Event>)
    requires Legal(env, INIT, run) && (After(env, INIT, run).crashed || Terminal(After(env, INIT, run)))
    ensures var st := After(env, INIT, run);
            && (Delivered(env, st.emitted) <==> ClashFree(env, INIT, run))
            && (ClashFree(env, INIT, run) ==> !st.crashed && Terminal(st))
            && (ClashFree(env, INIT, run) ==>
                  st.buffers == map[] && st.counts == map[] && st.warnings == map[] && st.pending == 0)
            && (DistinctNames(env.files) ==> ClashFree(env, INIT, run))
  {
    hide Legal, After, ClashFree, Delivered, Terminal, NamesOwned, NamesApart, FuturesOk, FilesOk, EmittedOk,
         DistinctNames;
    InitInv(env);
    if DistinctNames(env.files) {
      DistinctNeverClash(env, INIT, run);
    }
    if ClashFree(env, INIT, run) {
      RunKeeps(env, INIT, run);
      DeliveredIffClashFree(env, run);
    } else {
      ClashIsFinal(env, run);
    }
  }
}
