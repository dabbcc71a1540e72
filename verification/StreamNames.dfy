/**
 * What file names the streaming scheduler needs. Schedules are the runs of the loop on an executor
 * that starts batches in the order of their submission. The theorem says for every stream and every
 * number of workers whether all schedules deliver all files.
 */
module StreamNames {
  import opened BatchTypes
  import opened StreamScheduler
  import opened StreamRuns

  // ---------------------------------------------------------------- schedules

  /** The order in which batches are submitted. */
  predicate Before(a: FutureId, b: FutureId) {
    a.0 < b.0 || (a.0 == b.0 && a.1 < b.1)
  }

  function Earlier(s: set<FutureId>, id: FutureId): set<FutureId> {
    set x | x in s && Before(x, id)
  }

  /** Exactly these futures may be done: each was started, so fewer unfinished ones than workers came before it. */
  ghost predicate CanBeDone(env: Env, st: State, done: set<FutureId>) {
    done <= st.futures.Keys &&
    forall id :: id in done ==> |Earlier(st.futures.Keys - done, id)| < env.cfg.maxWorkers
  }

  /** The loop waits for futures only when it cannot submit. */
  predicate Waiting(env: Env, st: State) {
    st.exhausted || st.pending >= MaxPending(env)
  }

  /** The loop takes the next file, or notices that there is none, or takes all results that are there after a wait. */
  datatype Turn = TakeFile | EndOfStream | TakeResults(ids: seq<FutureId>)

  predicate AllOutstanding(st: State, ids: seq<FutureId>) {
    (forall i, j :: 0 <= i < j < |ids| ==> ids[i] != ids[j]) && forall id :: id in ids ==> id in st.futures
  }

  ghost predicate TurnOk(env: Env, st: State, t: Turn) {
    match t
    case TakeFile => Enabled(env, st, Submit)
    case EndOfStream => Enabled(env, st, StopIteration)
    case TakeResults(ids) =>
      Waiting(env, st) && ids != [] && AllOutstanding(st, ids) && CanBeDone(env, st, set id | id in ids)
  }

  /** The results are taken in the order in which the set of done futures happens to be iterated. */
  ghost function TakeAll(env: Env, st: State, ids: seq<FutureId>): State
    requires AllOutstanding(st, ids)
    decreases |ids|
  {
    if ids == [] then st
    else
      FinishProgress(env, st, ids[0]);
      TakeAll(env, Finish(env, st, ids[0]), ids[1..])
  }

  ghost function Then(env: Env, st: State, t: Turn): State
    requires TurnOk(env, st, t)
  {
    match t
    case TakeFile => SubmitNext(env, st)
    case EndOfStream => st.(exhausted := true)
    case TakeResults(ids) => TakeAll(env, st, ids)
  }

  ghost predicate Schedule(env: Env, st: State, turns: seq<Turn>)
    decreases |turns|
  {
    turns == [] || (TurnOk(env, st, turns[0]) && Schedule(env, Then(env, st, turns[0]), turns[1..]))
  }

  ghost function End(env: Env, st: State, turns: seq<Turn>): State
    requires Schedule(env, st, turns)
    decreases |turns|
  {
    if turns == [] then st else End(env, Then(env, st, turns[0]), turns[1..])
  }

  /** No turn takes a file whose name still has a buffer. */
  ghost predicate Quiet(env: Env, st: State, turns: seq<Turn>)
    requires Schedule(env, st, turns)
    decreases |turns|
  {
    turns == [] ||
    ((turns[0].TakeFile? ==> !Clashes(env, st, Submit)) && Quiet(env, Then(env, st, turns[0]), turns[1..]))
  }

  /** Every schedule that is over has delivered every file, and none raised. */
  ghost predicate AlwaysDelivers(env: Env) {
    forall turns :: Schedule(env, INIT, turns) && Terminal(End(env, INIT, turns)) ==>
      Delivered(env, End(env, INIT, turns).emitted) && !End(env, INIT, turns).crashed
  }

  // ---------------------------------------------------------------- schedules are runs

  lemma {:induction false} PrependEvent(env: Env, st: State, e: Event, rest: seq<Event>)
    requires Enabled(env, st, e) && Legal(env, Apply(env, st, e), rest)
    ensures Legal(env, st, [e] + rest)
    ensures After(env, st, [e] + rest) == After(env, Apply(env, st, e), rest)
    ensures ClashFree(env, st, [e] + rest) <==> !Clashes(env, st, e) && ClashFree(env, Apply(env, st, e), rest)
  {
    hide Enabled, Apply, Clashes;
    assert ([e] + rest)[1..] == rest;
  }

  /** Taking results one by one before the rest of a run. */
  lemma {:induction false} PrependResults(env: Env, st: State, ids: seq<FutureId>, rest: seq<Event>)
    returns (run: seq<Event>)
    requires AllOutstanding(st, ids) && Legal(env, TakeAll(env, st, ids), rest)
    ensures Legal(env, st, run) && After(env, st, run) == After(env, TakeAll(env, st, ids), rest)
    ensures ClashFree(env, st, run) <==> ClashFree(env, TakeAll(env, st, ids), rest)
    decreases |ids|
  {
    hide Finish, Legal, After, ClashFree;
    if ids == [] {
      run := rest;
    } else {
      FinishProgress(env, st, ids[0]);
      var tail := PrependResults(env, Finish(env, st, ids[0]), ids[1..], rest);
      PrependEvent(env, st, Complete(ids[0]), tail);
      run := [Complete(ids[0])] + tail;
    }
  }

  lemma {:induction false} ScheduleIsRun(env: Env, st: State, turns: seq<Turn>) returns (run: seq<Event>)
    requires Schedule(env, st, turns)
    ensures Legal(env, st, run) && After(env, st, run) == End(env, st, turns)
    ensures ClashFree(env, st, run) <==> Quiet(env, st, turns)
    decreases |turns|
  {
    if turns == [] {
      run := [];
    } else {
      var rest := ScheduleIsRun(env, Then(env, st, turns[0]), turns[1..]);
      run := PrependTurn(env, st, turns[0], rest);
    }
  }

  lemma {:induction false} PrependTurn(env: Env, st: State, t: Turn, rest: seq<Event>) returns (run: seq<Event>)
    requires TurnOk(env, st, t) && Legal(env, Then(env, st, t), rest)
    ensures Legal(env, st, run) && After(env, st, run) == After(env, Then(env, st, t), rest)
    ensures ClashFree(env, st, run) <==>
            (t.TakeFile? ==> !Clashes(env, st, Submit)) && ClashFree(env, Then(env, st, t), rest)
  {
    hide Legal, After, ClashFree, SubmitNext, TakeAll;
    match t
    case TakeFile =>
      PrependEvent(env, st, Submit, rest);
      run := [Submit] + rest;
    case EndOfStream =>
      PrependEvent(env, st, StopIteration, rest);
      run := [StopIteration] + rest;
    case TakeResults(ids) =>
      run := PrependResults(env, st, ids, rest);
  }

  /** A schedule that is over has delivered if and only if it is quiet, and then nothing was raised. */
  lemma {:induction false} DeliversIffQuiet(env: Env, turns: seq<Turn>)
    requires Schedule(env, INIT, turns) && Terminal(End(env, INIT, turns))
    ensures Delivered(env, End(env, INIT, turns).emitted) <==> Quiet(env, INIT, turns)
    ensures Quiet(env, INIT, turns) ==> !End(env, INIT, turns).crashed
  {
    hide Schedule, End, Quiet, Legal, After, ClashFree, Delivered, Terminal;
    var run := ScheduleIsRun(env, INIT, turns);
    DeliveredIffClashFree(env, run);
  }

  // ---------------------------------------------------------------- counting batches

  /** The number of batches of the files from `a` up to, but without, `b`. */
  ghost function BatchesIn(env: Env, a: nat, b: nat): nat
    requires b <= |env.files|
  {
    if b <= a then 0 else BatchesIn(env, a, b - 1) + Count(env, b - 1)
  }

  ghost function IdsOf(p: nat, n: nat): set<FutureId> {
    if n == 0 then {} else IdsOf(p, n - 1) + {(p, n - 1)}
  }

  lemma {:induction false} IdsOfSize(p: nat, n: nat)
    ensures |IdsOf(p, n)| == n && forall id: FutureId :: id in IdsOf(p, n) <==> id.0 == p && id.1 < n
  {
    if n > 0 {
      IdsOfSize(p, n - 1);
    }
  }

  ghost function IdsIn(env: Env, a: nat, b: nat): set<FutureId>
    requires b <= |env.files|
  {
    if b <= a then {} else IdsIn(env, a, b - 1) + IdsOf(b - 1, Count(env, b - 1))
  }

  lemma {:induction false} IdsInSize(env: Env, a: nat, b: nat)
    requires b <= |env.files|
    ensures |IdsIn(env, a, b)| == BatchesIn(env, a, b)
    ensures forall id: FutureId :: id in IdsIn(env, a, b) <==> a <= id.0 < b && id.1 < Count(env, id.0)
  {
    hide Count, IdsOf;
    if b > a {
      IdsInSize(env, a, b - 1);
      IdsOfSize(b - 1, Count(env, b - 1));
      UnionSize(IdsIn(env, a, b - 1), IdsOf(b - 1, Count(env, b - 1)));
    }
  }

  lemma {:induction false} UnionSize<T>(a: set<T>, b: set<T>)
    requires a !! b
    ensures |a + b| == |a| + |b|
  {
  }

  lemma {:induction false} BatchesInGrows(env: Env, a: nat, b: nat, c: nat)
    requires b <= c <= |env.files|
    ensures BatchesIn(env, a, b) <= BatchesIn(env, a, c)
    decreases c
  {
    hide Count;
    if b < c {
      BatchesInGrows(env, a, b, c - 1);
    }
  }

  // ---------------------------------------------------------------- the condition

  /**
   * Two files with text may only share a name when there is one worker, and the files between them
   * have enough batches to keep the later one back until the earlier one is complete.
   */
  ghost predicate Separated(env: Env) {
    forall p: nat, q: nat :: p < q < |env.files| && SameName(env, p, q) ==>
      env.cfg.maxWorkers == 1 && BatchesIn(env, p + 1, q) >= MaxPending(env) - 1
  }

  predicate SameName(env: Env, p: nat, q: nat)
    requires p < |env.files| && q < |env.files|
  {
    env.files[p].texts != [] && env.files[q].texts != [] && env.files[p].filename == env.files[q].filename
  }

  // ---------------------------------------------------------------- enough: one worker is first in, first out

  /** The outstanding batches are the last ones submitted. */
  ghost predicate Fifo(env: Env, st: State) {
    forall x: FutureId, y: FutureId ::
      (x in st.futures && Before(x, y) && y.0 < st.next <= |env.files| && y.1 < Count(env, y.0)) ==> y in st.futures
  }

  /** An open file waits for some batch. */
  lemma {:induction false} OpenWaits(env: Env, st: State, p: nat) returns (i: nat)
    requires FilesOk(env, st) && Open(env, st, p)
    ensures i < Count(env, p) && (p, i) in st.futures
  {
    hide EmittedAt, Result, WarningsOf;
    assert OpenOk(env, st, p);
    var buffer := st.buffers[env.files[p].filename];
    if forall j: nat :: j < Count(env, p) ==> j in buffer {
      SubsetSize(Range(Count(env, p)), buffer.Keys);
    }
    i :| i < Count(env, p) && i !in buffer;
  }

  lemma {:induction false} OneWorkerNoClash(env: Env, st: State)
    requires Separated(env) && env.cfg.maxWorkers == 1
    requires Inv(env, st) && Fifo(env, st) && Enabled(env, st, Submit)
    ensures !Clashes(env, st, Submit)
  {
    hide FuturesOk, FilesOk, EmittedOk, NamesApart, Count, EmittedAt;
    var q := st.next;
    if Clashes(env, st, Submit) {
      assert Owned(env, st, env.files[q].filename);
      var p: nat :| Open(env, st, p) && env.files[p].filename == env.files[q].filename;
      var i := OpenWaits(env, st, p);
      assert SameName(env, p, q);
      WaitingKeepsBack(env, st, p, i);
    }
  }

  /** First in, first out: with a batch of a file, all batches of the files after it are outstanding. */
  lemma {:induction false} WaitingKeepsBack(env: Env, st: State, p: nat, i: nat)
    requires Fifo(env, st) && (p, i) in st.futures && st.next <= |env.files|
    ensures |st.futures| >= 1 + BatchesIn(env, p + 1, st.next)
  {
    hide Count, IdsIn, BatchesIn;
    IdsInSize(env, p + 1, st.next);
    UnionSize({(p, i)}, IdsIn(env, p + 1, st.next));
    forall y | y in IdsIn(env, p + 1, st.next) ensures y in st.futures {
      assert Before((p, i), y);
    }
    SubsetSize({(p, i)} + IdsIn(env, p + 1, st.next), st.futures.Keys);
  }

  lemma {:induction false} TakeAllKeeps(env: Env, st: State, ids: seq<FutureId>)
    requires Inv(env, st) && AllOutstanding(st, ids)
    ensures Inv(env, TakeAll(env, st, ids))
    ensures TakeAll(env, st, ids).futures == st.futures - (set id | id in ids)
    ensures TakeAll(env, st, ids).next == st.next
    decreases |ids|
  {
    hide Inv, Finish;
    if ids == [] {
      assert st.futures - (set id | id in ids) == st.futures;
    } else {
      FinishProgress(env, st, ids[0]);
      FinishKeeps(env, st, ids[0]);
      TakeAllKeeps(env, Finish(env, st, ids[0]), ids[1..]);
      WithoutInTwoSteps(st.futures, ids);
    }
  }

  lemma {:induction false} WithoutInTwoSteps(m: map<FutureId, BatchTask>, ids: seq<FutureId>)
    requires ids != []
    ensures m - {ids[0]} - (set id | id in ids[1..]) == m - (set id | id in ids)
  {
    assert (set id | id in ids) == {ids[0]} + (set id | id in ids[1..]);
  }

  lemma {:induction false} FifoResults(env: Env, st: State, ids: seq<FutureId>)
    requires env.cfg.maxWorkers == 1 && Inv(env, st) && Fifo(env, st) && TurnOk(env, st, TakeResults(ids))
    ensures Fifo(env, TakeAll(env, st, ids))
  {
    hide Inv, TakeAll, Count, Waiting;
    TakeAllKeeps(env, st, ids);
    var done := set id | id in ids;
    forall x: FutureId, y: FutureId | x in st.futures && x !in done && y in done ensures !Before(x, y) {
      assert |Earlier(st.futures.Keys - done, y)| < 1;
      assert x !in Earlier(st.futures.Keys - done, y);
    }
  }

  lemma {:induction false} FifoSubmit(env: Env, st: State)
    requires Basic(env, st) && Fifo(env, st) && Enabled(env, st, Submit)
    ensures Fifo(env, SubmitNext(env, st))
  {
    hide SubmitNext, Count, BatchOf;
    BasicSubmit(env, st);
  }

  lemma {:induction false} FifoTurn(env: Env, st: State, t: Turn)
    requires Separated(env) && env.cfg.maxWorkers == 1 && Inv(env, st) && Fifo(env, st) && TurnOk(env, st, t)
    ensures t.TakeFile? ==> !Clashes(env, st, Submit)
    ensures Inv(env, Then(env, st, t)) && Fifo(env, Then(env, st, t))
  {
    hide Separated, Inv, Fifo, SubmitNext, TakeAll, Waiting, CanBeDone;
    match t
    case TakeFile =>
      OneWorkerNoClash(env, st);
      SubmitKeeps(env, st);
      InvIsBasic(env, st);
      FifoSubmit(env, st);
    case EndOfStream =>
      StopKeeps(env, st);
      FifoStop(env, st);
    case TakeResults(ids) =>
      TakeAllKeeps(env, st, ids);
      FifoResults(env, st, ids);
  }

  lemma {:induction false} FifoStop(env: Env, st: State)
    requires Fifo(env, st)
    ensures Fifo(env, st.(exhausted := true))
  {
    hide Count;
  }

  /** With one worker and separated names every schedule is quiet. */
  lemma {:induction false} OneWorkerQuiet(env: Env, st: State, turns: seq<Turn>)
    requires Separated(env) && env.cfg.maxWorkers == 1 && Inv(env, st) && Fifo(env, st)
    requires Schedule(env, st, turns)
    ensures Quiet(env, st, turns)
    decreases |turns|
  {
    hide Separated, Inv, Fifo, TurnOk, Then, Clashes;
    if turns != [] {
      FifoTurn(env, st, turns[0]);
      OneWorkerQuiet(env, Then(env, st, turns[0]), turns[1..]);
    }
  }

  // ---------------------------------------------------------------- necessary: holding a batch back

  lemma {:induction false} BeforeTotal(a: FutureId, b: FutureId)
    ensures a == b || Before(a, b) || Before(b, a)
  {
    assert a == (a.0, a.1) && b == (b.0, b.1);
  }

  lemma {:induction false} Earliest(s: set<FutureId>) returns (id: FutureId)
    requires s != {}
    ensures id in s && forall x :: x in s && x != id ==> Before(id, x)
    decreases |s|
  {
    var y :| y in s;
    if s == {y} {
      id := y;
    } else {
      var z := Earliest(s - {y});
      id := if Before(y, z) then y else z;
      assert forall x :: x in s ==> x == y || x in s - {y};
      BeforeTotal(y, z);
    }
  }

  /** A schedule from the state that is over in the end. */
  ghost predicate Finishes(env: Env, st: State, turns: seq<Turn>) {
    Schedule(env, st, turns) && Terminal(End(env, st, turns))
  }

  lemma {:induction false} PrependOk(env: Env, st: State, t: Turn, rest: seq<Turn>)
    requires TurnOk(env, st, t) && Finishes(env, Then(env, st, t), rest)
    ensures Finishes(env, st, [t] + rest)
    ensures Quiet(env, st, [t] + rest) ==>
              (t.TakeFile? ==> !Clashes(env, st, Submit)) && Quiet(env, Then(env, st, t), rest)
  {
    hide TurnOk, Then, Clashes, Terminal;
    assert ([t] + rest)[1..] == rest;
  }

  /** Taking a single result. */
  lemma {:induction false} OneResult(env: Env, st: State, id: FutureId)
    requires id in st.futures && Waiting(env, st) && |Earlier(st.futures.Keys - {id}, id)| < env.cfg.maxWorkers
    ensures TurnOk(env, st, TakeResults([id])) && Then(env, st, TakeResults([id])) == Finish(env, st, id)
  {
    hide Finish, Waiting;
    assert (set x | x in [id]) == {id};
    FinishProgress(env, st, id);
    assert [id][1..] == [];
    assert TakeAll(env, Finish(env, st, id), []) == Finish(env, st, id);
  }

  lemma {:induction false} EarliestCanBeDone(env: Env, st: State) returns (id: FutureId)
    requires st.futures != map[] && Waiting(env, st) && 1 <= env.cfg.maxWorkers
    ensures id in st.futures
    ensures TurnOk(env, st, TakeResults([id])) && Then(env, st, TakeResults([id])) == Finish(env, st, id)
    ensures forall x :: x in st.futures && x != id ==> Before(id, x)
  {
    hide Finish, Waiting, TurnOk, Then;
    assert st.futures.Keys != {};
    id := Earliest(st.futures.Keys);
    assert Earlier(st.futures.Keys - {id}, id) == {};
    OneResult(env, st, id);
  }

  /** Every state of the loop has a schedule that ends. */
  lemma {:induction false} ToTheEnd(env: Env, st: State) returns (turns: seq<Turn>)
    requires Basic(env, st) && 1 <= env.cfg.maxWorkers
    ensures Finishes(env, st, turns)
    decreases |env.files| - st.next, if st.exhausted then 0 else 1, |st.futures|
  {
    hide Finish, SubmitNext, Finishes, Count, BatchOf, CanBeDone, AllOutstanding;
    if Terminal(st) {
      turns := [];
      assert Finishes(env, st, turns) by {
        NothingLeft(env, st);
      }
      return;
    }
    var t: Turn;
    if Waiting(env, st) {
      var id := EarliestCanBeDone(env, st);
      BasicFinish(env, st, id);
      t := TakeResults([id]);
      turns := ToTheEnd(env, Finish(env, st, id));
    } else if st.next < |env.files| {
      BasicSubmit(env, st);
      t := TakeFile;
      turns := ToTheEnd(env, SubmitNext(env, st));
    } else {
      t := EndOfStream;
      turns := ToTheEnd(env, st.(exhausted := true));
    }
    PrependOk(env, st, t, turns);
    turns := [t] + turns;
  }

  lemma {:induction false} NothingLeft(env: Env, st: State)
    requires Terminal(st)
    ensures Finishes(env, st, [])
  {
  }

  /** With one worker the last batch of the earlier file is not the next to finish while the loop waits. */
  lemma {:induction false} HeldIsNotFirst(env: Env, st: State, p: nat, q: nat, id: FutureId)
    requires Basic(env, st) && env.cfg.maxWorkers == 1 && st.pending >= MaxPending(env)
    requires p < st.next <= q < |env.files| && BatchesIn(env, p + 1, q) < MaxPending(env) - 1
    requires id in st.futures && forall x :: x in st.futures && x != id ==> Before(id, x)
    ensures id != (p, Count(env, p) - 1)
  {
    hide Count, BatchOf, IdsIn, BatchesIn;
    BatchesInGrows(env, p + 1, st.next, q);
    IdsInSize(env, p + 1, st.next);
    if id.0 == p && id.1 == Count(env, p) - 1 {
      OnlyLaterFiles(env, st, id);
      SubsetSize(st.futures.Keys, {id} + IdsIn(env, p + 1, st.next));
    }
  }

  lemma {:induction false} OnlyLaterFiles(env: Env, st: State, id: FutureId)
    requires Basic(env, st) && id in st.futures && id.1 == Count(env, id.0) - 1
    requires forall x :: x in st.futures && x != id ==> Before(id, x)
    ensures st.futures.Keys <= {id} + IdsIn(env, id.0 + 1, st.next)
  {
    hide Count, BatchOf, IdsIn;
    IdsInSize(env, id.0 + 1, st.next);
    forall x | x in st.futures && x != id ensures x in IdsIn(env, id.0 + 1, st.next) {
      assert Before(id, x);
    }
  }

  /** Some other batch than the one held back can be the only one done. */
  lemma {:induction false} OtherCanBeDone(env: Env, st: State, p: nat, q: nat) returns (id: FutureId)
    requires Basic(env, st) && 1 <= env.cfg.maxWorkers && st.pending >= MaxPending(env)
    requires p < q < |env.files| && st.next <= q
    requires env.cfg.maxWorkers >= 2 || BatchesIn(env, p + 1, q) < MaxPending(env) - 1
    ensures id in st.futures && (p < st.next ==> id != (p, Count(env, p) - 1))
    ensures TurnOk(env, st, TakeResults([id])) && Then(env, st, TakeResults([id])) == Finish(env, st, id)
  {
    hide Finish, TurnOk, Then, Count, BatchOf;
    if env.cfg.maxWorkers == 1 || p >= st.next {
      id := EarliestCanBeDone(env, st);
      if p < st.next {
        HeldIsNotFirst(env, st, p, q, id);
      }
    } else {
      var held: FutureId := (p, if Count(env, p) > 0 then Count(env, p) - 1 else 0);
      var others := st.futures.Keys - {held};
      if others == {} {
        SubsetSize(st.futures.Keys, {held});
      }
      id := Earliest(others);
      forall x | x in Earlier(st.futures.Keys - {id}, id) ensures x == held {
        assert x in others ==> Before(id, x);
      }
      SubsetSize(Earlier(st.futures.Keys - {id}, id), {held});
      OneResult(env, st, id);
    }
  }

  /** The last batch of the earlier file is outstanding as soon as the file was submitted. */
  ghost predicate Held(env: Env, st: State, p: nat) {
    p < st.next <= |env.files| && Count(env, p) > 0 ==> (p, Count(env, p) - 1) in st.futures
  }

  lemma {:induction false} HeldFinish(env: Env, st: State, id: FutureId, p: nat)
    requires Basic(env, st) && id in st.futures && Held(env, st, p)
    requires p < |env.files| && (p < st.next ==> id != (p, Count(env, p) - 1))
    ensures Held(env, Finish(env, st, id), p)
  {
    hide Finish, Count, Basic;
    BasicFinish(env, st, id);
  }

  lemma {:induction false} HeldSubmit(env: Env, st: State, p: nat)
    requires Basic(env, st) && Held(env, st, p) && Enabled(env, st, Submit)
    ensures Held(env, SubmitNext(env, st), p)
  {
    hide SubmitNext, Count, BatchOf;
    BasicSubmit(env, st);
  }

  lemma {:induction false} HeldClashes(env: Env, st: State, p: nat, q: nat)
    requires Inv(env, st) && Held(env, st, p) && p < q == st.next < |env.files| && SameName(env, p, q)
    ensures Clashes(env, st, Submit)
  {
    hide NamesOwned, NamesApart, FilesOk, EmittedOk, Open, Count;
    EmptyHasNoBatch(env, p);
    assert FutureOk(env, st, (p, Count(env, p) - 1));
  }

  /** Held back until the later file comes, or some other clash comes first. */
  lemma {:induction false} Disturb(env: Env, st: State, p: nat, q: nat) returns (turns: seq<Turn>)
    requires Inv(env, st) && Held(env, st, p) && !st.exhausted && 1 <= env.cfg.maxWorkers
    requires p < q < |env.files| && st.next <= q && SameName(env, p, q)
    requires env.cfg.maxWorkers >= 2 || BatchesIn(env, p + 1, q) < MaxPending(env) - 1
    ensures Finishes(env, st, turns) && !Quiet(env, st, turns)
    decreases |env.files| - st.next, |st.futures|
  {
    hide Inv, Finish, SubmitNext, Finishes, Quiet, Clashes, Count, SameName, CanBeDone, AllOutstanding, Held,
         Basic;
    InvIsBasic(env, st);
    BasicBound(env, st);
    var t: Turn;
    if st.pending >= MaxPending(env) {
      var id := OtherCanBeDone(env, st, p, q);
      FinishKeeps(env, st, id);
      BasicFinish(env, st, id);
      HeldFinish(env, st, id, p);
      t := TakeResults([id]);
      turns := Disturb(env, Finish(env, st, id), p, q);
    } else {
      t := TakeFile;
      BasicSubmit(env, st);
      if Clashes(env, st, Submit) {
        turns := ToTheEnd(env, SubmitNext(env, st));
      } else {
        if st.next == q {
          HeldClashes(env, st, p, q);
        }
        SubmitKeeps(env, st);
        HeldSubmit(env, st, p);
        turns := Disturb(env, SubmitNext(env, st), p, q);
      }
    }
    PrependOk(env, st, t, turns);
    turns := [t] + turns;
  }

  /** Two files that are not kept apart: some schedule ends without having delivered every file. */
  lemma {:induction false} SharedNameLosesAFile(env: Env, p: nat, q: nat) returns (turns: seq<Turn>)
    requires 1 <= env.cfg.maxWorkers && p < q < |env.files| && SameName(env, p, q)
    requires env.cfg.maxWorkers >= 2 || BatchesIn(env, p + 1, q) < MaxPending(env) - 1
    ensures Schedule(env, INIT, turns) && Terminal(End(env, INIT, turns))
    ensures !Delivered(env, End(env, INIT, turns).emitted)
  {
    hide Inv, Quiet, Delivered, Schedule, End, Terminal;
    InitInv(env);
    turns := Disturb(env, INIT, p, q);
    DeliversIffQuiet(env, turns);
  }

  // ---------------------------------------------------------------- the exact condition

  /**
   * Every schedule delivers every file if and only if files with text have different names or, with a
   * single worker, equal names are kept apart by at least three batches of files in between.
   */
  lemma {:induction false} AlwaysDeliversIff(env: Env)
    requires 1 <= env.cfg.maxWorkers
    ensures AlwaysDelivers(env) <==> Separated(env)
  {
    hide Schedule, End, Quiet, Delivered, Terminal, Inv, Fifo, BatchesIn;
    if Separated(env) {
      forall turns | Schedule(env, INIT, turns) && Terminal(End(env, INIT, turns))
        ensures Delivered(env, End(env, INIT, turns).emitted) && !End(env, INIT, turns).crashed
      {
        SeparatedIsQuiet(env, turns);
        DeliversIffQuiet(env, turns);
      }
    } else {
      var p: nat, q: nat :| p < q < |env.files| && SameName(env, p, q) &&
                            !(env.cfg.maxWorkers == 1 && BatchesIn(env, p + 1, q) >= MaxPending(env) - 1);
      var turns := SharedNameLosesAFile(env, p, q);
    }
  }

  lemma {:induction false} SeparatedIsQuiet(env: Env, turns: seq<Turn>)
    requires 1 <= env.cfg.maxWorkers && Separated(env) && Schedule(env, INIT, turns)
    ensures Quiet(env, INIT, turns)
  {
    hide Schedule, End, Quiet, Inv, ClashFree, Legal, Separated, DistinctNames;
    InitInv(env);
    if env.cfg.maxWorkers == 1 {
      OneWorkerQuiet(env, INIT, turns);
    } else {
      SeparatedMeansDistinct(env);
      var run := ScheduleIsRun(env, INIT, turns);
      DistinctNeverClash(env, INIT, run);
    }
  }

  /** With two workers or more the condition is that files with text have different names. */
  lemma {:induction false} SeparatedMeansDistinct(env: Env)
    requires 2 <= env.cfg.maxWorkers
    ensures Separated(env) <==> DistinctNames(env.files)
  {
    hide BatchesIn;
    assert DistinctNames(env.files) ==> forall p: nat, q: nat :: p < q < |env.files| ==> !SameName(env, p, q);
    assert Separated(env) ==> forall p: nat, q: nat :: p < q < |env.files| ==> !SameName(env, p, q);
    assert (forall p: nat, q: nat :: p < q < |env.files| ==> !SameName(env, p, q)) ==> DistinctNames(env.files) by {
      if forall p: nat, q: nat :: p < q < |env.files| ==> !SameName(env, p, q) {
        forall p, q | 0 <= p < q < |env.files| && env.files[p].texts != [] && env.files[q].texts != []
          ensures env.files[p].filename != env.files[q].filename
        {
          assert !SameName(env, p, q);
        }
      }
    }
  }

  /** The smallest loss: two neighbours of one name with one text each, for any number of workers. */
  lemma {:induction false} TwoFilesOneName(workers: nat, outcome: BatchTask -> WorkerReply) returns (turns: seq<Turn>)
    requires workers >= 1
    ensures var one, two := FileTask("a.yml", ["one"], ""), FileTask("a.yml", ["two"], "");
            var env := Env(Config(workers, None), [one, two], outcome);
            && Schedule(env, INIT, turns) && Terminal(End(env, INIT, turns))
            && !Delivered(env, End(env, INIT, turns).emitted)
  {
    hide Schedule, End, Terminal, Delivered;
    var one, two := FileTask("a.yml", ["one"], ""), FileTask("a.yml", ["two"], "");
    var env := Env(Config(workers, None), [one, two], outcome);
    assert BatchesIn(env, 1, 1) == 0;
    turns := SharedNameLosesAFile(env, 0, 1);
  }
}
