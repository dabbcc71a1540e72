/**
 * The worker of a batch: the model call with retries and fallback to the source text,
 * and the wrapper that adds glossary warnings. It supplies the length contract the
 * schedulers rely on.
 */
module BatchWorker {
  import opened BatchTypes
  import opened StreamScheduler
  import opened StreamRuns

  const MAX_RETRIES: nat := 2

  /** One attempt: the call or the parser fails, or a list comes back (possibly the task's own list). */
  datatype Attempt =
    | CallFailed(message: string)
    | Parsed(texts: Option<seq<Text>>, isTaskList: bool)

  /** The foreign parts of a handler: prompt building, the calls, and the test for a context error. */
  datatype Handler = Handler(
    promptOk: BatchTask -> bool,
    attempt: (BatchTask, nat) -> Attempt,
    isContextError: string -> bool)

  const PARSE_ERROR := "Response parsing failed, triggering retry."

  predicate Accepted(h: Handler, b: BatchTask, a: nat) {
    match h.attempt(b, a)
    case CallFailed(_) => false
    case Parsed(texts, isTaskList) => texts.Some? && !isTaskList && |texts.value| == |b.texts|
  }

  function AttemptWarning(h: Handler, b: BatchTask, a: nat): Warning {
    var message := if h.attempt(b, a).CallFailed? then h.attempt(b, a).message else PARSE_ERROR;
    Warning(if h.isContextError(message) then "context_exceeded" else "api_error", message)
  }

  function AttemptWarnings(h: Handler, b: BatchTask, n: nat): seq<Warning> {
    if n == 0 then [] else AttemptWarnings(h, b, n - 1) + [AttemptWarning(h, b, n - 1)]
  }

  const FALLBACK_WARNING :=
    Warning("fallback_to_source", "Batch failed after retries and fell back to source text.")

  /** The first of the attempts `a..MAX_RETRIES` whose list is accepted, or MAX_RETRIES. */
  function FirstAccepted(h: Handler, b: BatchTask, a: nat): (r: nat)
    requires a <= MAX_RETRIES
    ensures a <= r <= MAX_RETRIES
    ensures forall k: nat :: a <= k < r ==> !Accepted(h, b, k)
    ensures r < MAX_RETRIES ==> Accepted(h, b, r)
    decreases MAX_RETRIES - a
  {
    if a == MAX_RETRIES || Accepted(h, b, a) then a else FirstAccepted(h, b, a + 1)
  }

  /** What the translation function does with a new task. */
  function TranslateReply(h: Handler, b: BatchTask): WorkerReply {
    var k := FirstAccepted(h, b, 0);
    if !h.promptOk(b) then Raised
    else if k < MAX_RETRIES then
      Reply(h.attempt(b, k).texts, false, false, AttemptWarnings(h, b, k))
    else
      Reply(Some(b.texts), true, true, AttemptWarnings(h, b, MAX_RETRIES) + [FALLBACK_WARNING])
  }

  /** The attempt gave these texts, a list of its own with one text for each text of the batch. */
  ghost predicate Gives(h: Handler, b: BatchTask, a: nat, translated: Option<seq<Text>>) {
    translated.Some? && |translated.value| == |b.texts| && h.attempt(b, a) == Parsed(translated, false)
  }

  ghost predicate GivesNothing(h: Handler, b: BatchTask, a: nat) {
    forall translated :: !Gives(h, b, a, translated)
  }

  /** The warning of an attempt that gave nothing: the error of the call, or that its answer was no good. */
  ghost predicate Explains(h: Handler, b: BatchTask, a: nat, w: Warning) {
    && w.message == (match h.attempt(b, a)
                     case CallFailed(message) => message
                     case Parsed(_, _) => "Response parsing failed, triggering retry.")
    && w.kind == if h.isContextError(w.message) then "context_exceeded" else "api_error"
  }

  /** A batch task as the workers see it: the fields below are set in place. */
  class TaskCell {
    const batch: BatchTask
    var translated: Option<seq<Text>>
    var failed: bool
    var fellBack: bool
    var warnings: seq<Warning>

    constructor (batch: BatchTask)
      ensures this.batch == batch && translated == None && !failed && !fellBack && warnings == []
    {
      this.batch := batch;
      translated, failed, fellBack, warnings := None, false, false, [];
    }

    /**
     * The retry loop; `raised` is an exception of the prompt builder, outside the loop's handler, which
     * leaves the task alone. The first list that is not the task's own and has the right length becomes the
     * translation; without one the task keeps its source texts. Each attempt before that leaves a warning.
     */
    method TranslateBatch(h: Handler) returns (raised: bool)
      requires translated == None && !failed && !fellBack && warnings == []
      modifies this
      ensures raised <==> !h.promptOk(batch)
      ensures raised ==> translated == None && !failed && !fellBack && warnings == []
      ensures !raised && !failed ==>
                exists a: nat :: a < MAX_RETRIES && Gives(h, batch, a, translated) && |warnings| == a &&
                  forall j: nat :: j < a ==> GivesNothing(h, batch, j)
      ensures failed ==>
                && translated == Some(batch.texts) && |warnings| == MAX_RETRIES + 1
                && warnings[MAX_RETRIES] ==
                   Warning("fallback_to_source", "Batch failed after retries and fell back to source text.")
                && forall j: nat :: j < MAX_RETRIES ==> GivesNothing(h, batch, j)
      ensures fellBack == failed
      ensures forall j: nat :: j < MAX_RETRIES && j < |warnings| ==> Explains(h, batch, j, warnings[j])
      ensures !raised ==> Reply(translated, failed, fellBack, warnings) == TranslateReply(h, batch)
    {
      if !h.promptOk(batch) {
        return true;
      }
      for attempt := 0 to MAX_RETRIES
        invariant translated == None && !failed && !fellBack
        invariant warnings == AttemptWarnings(h, batch, attempt) && |warnings| == attempt
        invariant FirstAccepted(h, batch, 0) == FirstAccepted(h, batch, attempt)
        invariant forall j: nat :: j < attempt ==> GivesNothing(h, batch, j) && Explains(h, batch, j, warnings[j])
      {
        var message := PARSE_ERROR;
        match h.attempt(batch, attempt) {
          case CallFailed(m) =>
            message := m;
          case Parsed(texts, isTaskList) =>
            if texts.Some? && !isTaskList && |texts.value| == |batch.texts| {
              translated := texts;
              assert Gives(h, batch, attempt, translated);
              return false;
            }
        }
        warnings := warnings +
          [Warning(if h.isContextError(message) then "context_exceeded" else "api_error", message)];
      }
      failed, fellBack, translated := true, true, Some(batch.texts);
      warnings := warnings + [FALLBACK_WARNING];
      return false;
    }
  }

  /** In a reply too, the texts are those of the first attempt that gave some. */
  lemma {:induction false} ReplyIsFirstGiven(h: Handler, b: BatchTask)
    ensures TranslateReply(h, b).Raised? <==> !h.promptOk(b)
    ensures TranslateReply(h, b).Reply? ==>
              var r := TranslateReply(h, b);
              && r.fellBack == r.failed
              && (!r.failed ==> exists a: nat :: a < MAX_RETRIES && Gives(h, b, a, r.translated) &&
                                  forall j: nat :: j < a ==> GivesNothing(h, b, j))
              && (r.failed ==> r.translated == Some(b.texts) &&
                               forall j: nat :: j < MAX_RETRIES ==> GivesNothing(h, b, j))
  {
    var k := FirstAccepted(h, b, 0);
    assert k < MAX_RETRIES ==> Gives(h, b, k, h.attempt(b, k).texts);
  }

  /** The length contract: a reply always carries as many texts as the batch, its own ones on failure. */
  lemma {:induction false} TranslateKeepsLength(h: Handler, b: BatchTask)
    ensures var r := TranslateReply(h, b);
            r.Reply? ==>
              && r.translated.Some? && |r.translated.value| == |b.texts|
              && (r.failed <==> forall a: nat :: a < MAX_RETRIES ==> !Accepted(h, b, a))
              && r.fellBack == r.failed
              && (r.failed ==> r.translated.value == b.texts)
              && |r.warnings| == (if r.failed then MAX_RETRIES + 1 else FirstAccepted(h, b, 0))
  {
    WarningCount(h, b, FirstAccepted(h, b, 0));
  }

  lemma {:induction false} WarningCount(h: Handler, b: BatchTask, n: nat)
    ensures |AttemptWarnings(h, b, n)| == n
  {
    if n > 0 {
      WarningCount(h, b, n - 1);
    }
  }

  // ---------------------------------------------------------------- the wrapper around the worker

  /** Runs the worker and adds the glossary validator's warnings; the validator may raise (None). */
  function ProcessSingleBatch(worker: BatchTask -> WorkerReply,
                              validate: (BatchTask, seq<Text>) -> Option<seq<Warning>>,
                              b: BatchTask): WorkerReply
  {
    match worker(b)
    case Raised => Raised
    case Reply(None, _, fellBack, ws) => Reply(None, true, fellBack, ws)
    case Reply(Some(t), failed, fellBack, ws) =>
      match validate(b, t)
      case None => Raised
      case Some(extra) => Reply(Some(t), failed, fellBack, ws + extra)
  }

  /** The wrapper for any worker: it only ever adds a failure flag, the validator's warnings, or its exception. */
  lemma {:induction false} WrapperAdds(worker: BatchTask -> WorkerReply,
                                      validate: (BatchTask, seq<Text>) -> Option<seq<Warning>>, b: BatchTask)
    ensures var w, r := worker(b), ProcessSingleBatch(worker, validate, b);
            && (r.Raised? <==> w.Raised? || (w.translated.Some? && validate(b, w.translated.value).None?))
            && (r.Reply? ==>
                  && r.translated == w.translated && r.fellBack == w.fellBack
                  && (r.failed <==> w.failed || w.translated.None?)
                  && w.warnings <= r.warnings
                  && (w.translated.None? ==> r.warnings == w.warnings)
                  && (w.translated.Some? ==> r.warnings[|w.warnings|..] == validate(b, w.translated.value).value))
  {
  }

  ghost predicate KeepsLength(outcome: BatchTask -> WorkerReply) {
    forall b :: outcome(b).Reply? ==>
      outcome(b).translated.Some? && |outcome(b).translated.value| == |b.texts|
  }

  /** Every batch is handed to the translating worker and its wrapper. */
  ghost predicate Translates(outcome: BatchTask -> WorkerReply, h: Handler,
                             validate: (BatchTask, seq<Text>) -> Option<seq<Warning>>)
  {
    forall b :: outcome(b) == ProcessSingleBatch(x => TranslateReply(h, x), validate, b)
  }

  // ---------------------------------------------------------------- emitted lengths

  function TotalLength(ss: seq<seq<Text>>): nat {
    if ss == [] then 0 else |ss[0]| + TotalLength(ss[1..])
  }

  lemma {:induction false} FlattenLength(ss: seq<seq<Text>>)
    ensures |Flatten(ss)| == TotalLength(ss)
  {
    if ss != [] {
      FlattenLength(ss[1..]);
    }
  }

  lemma {:induction false} ConcatLength(results: seq<Processed>, slices: seq<seq<Text>>)
    requires |results| == |slices|
    requires forall i :: 0 <= i < |results| ==> |results[i].Texts()| == |slices[i]|
    ensures |Concat(results)| == TotalLength(slices)
  {
    if results != [] {
      ConcatLength(results[1..], slices[1..]);
    }
  }

  lemma {:induction false} ExpectedLength(env: Env, e: Emission)
    requires KeepsLength(env.outcome) && Expected(env, e)
    ensures |e.texts| == |env.files[e.pos].texts|
  {
    var p := e.pos;
    assert forall i :: 0 <= i < Count(env, p) ==> |Results(env, p)[i].Texts()| == |Batches(env, p)[i]|;
    ConcatLength(Results(env, p), Batches(env, p));
    FlattenLength(Batches(env, p));
  }

  /**
   * With the translating worker, every finished run of the streaming scheduler without a clash of names
   * has emitted, for every file, exactly as many texts as the file has, however many calls failed.
   */
  lemma {:induction false} StreamKeepsLengths(env: Env, h: Handler,
                                             validate: (BatchTask, seq<Text>) -> Option<seq<Warning>>,
                                             run: seq<Event>)
    requires Translates(env.outcome, h, validate)
    requires Legal(env, INIT, run) && Terminal(After(env, INIT, run)) && ClashFree(env, INIT, run)
    ensures Delivered(env, After(env, INIT, run).emitted)
    ensures forall k :: 0 <= k < |After(env, INIT, run).emitted| ==>
              var e := After(env, INIT, run).emitted[k];
              e.pos < |env.files| && |e.texts| == |env.files[e.pos].texts|
  {
    hide Legal, After, ClashFree, Terminal, Translates;
    var emitted := After(env, INIT, run).emitted;
    DeliveredIffClashFree(env, run);
    TranslatingWorkerKeepsLength(env.outcome, h, validate);
    forall k | 0 <= k < |emitted|
      ensures emitted[k].pos < |env.files| && |emitted[k].texts| == |env.files[emitted[k].pos].texts|
    {
      ExpectedLength(env, emitted[k]);
    }
  }

  lemma {:induction false} TranslatingWorkerKeepsLength(outcome: BatchTask -> WorkerReply, h: Handler,
                                                       validate: (BatchTask, seq<Text>) -> Option<seq<Warning>>)
    requires Translates(outcome, h, validate)
    ensures KeepsLength(outcome)
  {
    hide TranslateReply;
    forall b | outcome(b).Reply?
      ensures outcome(b).translated.Some? && |outcome(b).translated.value| == |b.texts|
    {
      TranslateKeepsLength(h, b);
      assert outcome(b) == ProcessSingleBatch(x => TranslateReply(h, x), validate, b);
    }
  }

  // ---------------------------------------------------------------- from the attempts to the emitted file

  /** The first attempt that gave texts gave these. */
  ghost predicate FirstGiven(h: Handler, b: BatchTask, t: seq<Text>) {
    exists a: nat :: a < MAX_RETRIES && Gives(h, b, a, Some(t)) && forall j: nat :: j < a ==> GivesNothing(h, b, j)
  }

  /**
   * The batch is shipped with its source texts and a flag: its prompt could not be built, no attempt gave
   * texts, or the validator raised on the texts there were.
   */
  ghost predicate LeftInSource(h: Handler, validate: (BatchTask, seq<Text>) -> Option<seq<Warning>>, b: BatchTask) {
    || !h.promptOk(b)
    || (forall a: nat :: a < MAX_RETRIES ==> GivesNothing(h, b, a))
    || (exists t :: FirstGiven(h, b, t) && validate(b, t).None?)
  }

  lemma {:induction false} FirstGivenIsOne(h: Handler, b: BatchTask, t: seq<Text>, t': seq<Text>)
    requires FirstGiven(h, b, t) && FirstGiven(h, b, t')
    ensures t == t'
  {
    var a: nat :| a < MAX_RETRIES && Gives(h, b, a, Some(t)) && forall j: nat :: j < a ==> GivesNothing(h, b, j);
    var a': nat :| a' < MAX_RETRIES && Gives(h, b, a', Some(t')) && forall j: nat :: j < a' ==> GivesNothing(h, b, j);
    assert !GivesNothing(h, b, a) && !GivesNothing(h, b, a');
    assert a == a';
  }

  /** What a batch contributes to its file when it is handed to the translating worker and its wrapper. */
  lemma {:induction false} BatchInFull(env: Env, h: Handler,
                                      validate: (BatchTask, seq<Text>) -> Option<seq<Warning>>, b: BatchTask)
    requires Translates(env.outcome, h, validate)
    ensures Unfinished(env, b) <==> LeftInSource(h, validate, b)
    ensures if Unfinished(env, b) then GivenTexts(env, b) == b.texts else FirstGiven(h, b, GivenTexts(env, b))
    ensures env.outcome(b).Reply? ==>
              && validate(b, GivenTexts(env, b)).Some?
              && GivenWarnings(env, b) == TranslateReply(h, b).warnings + validate(b, GivenTexts(env, b)).value
  {
    hide TranslateReply, Gives;
    ReplyIsFirstGiven(h, b);
    assert env.outcome(b) == ProcessSingleBatch(x => TranslateReply(h, x), validate, b);
    TranslateKeepsLength(h, b);
    var r := TranslateReply(h, b);
    if r.Reply? && !r.failed {
      assert r.translated == Some(r.translated.value);
      var a: nat :| a < MAX_RETRIES && Gives(h, b, a, r.translated);
      assert !GivesNothing(h, b, a);
      assert FirstGiven(h, b, r.translated.value);
      forall t | FirstGiven(h, b, t) ensures t == r.translated.value {
        FirstGivenIsOne(h, b, t, r.translated.value);
      }
    }
  }

  /**
   * From the attempts to the emitted file: in a finished run without a clash, a file is flagged if and only
   * if one of its batches was left in its source texts, and otherwise holds, batch by batch, the first texts
   * an attempt gave.
   */
  lemma {:induction false} StreamTranslates(env: Env, h: Handler,
                                           validate: (BatchTask, seq<Text>) -> Option<seq<Warning>>,
                                           run: seq<Event>, k: nat)
    requires Translates(env.outcome, h, validate)
    requires Legal(env, INIT, run) && Terminal(After(env, INIT, run)) && ClashFree(env, INIT, run)
    requires k < |After(env, INIT, run).emitted|
    ensures var e := After(env, INIT, run).emitted[k];
            && e.pos < |env.files|
            && (e.failed <==>
                  exists i: nat :: i < Count(env, e.pos) && LeftInSource(h, validate, BatchOf(env, e.pos, i)))
            && e.texts == Flatten(AllTexts(env, e.pos, Count(env, e.pos)))
            && forall i: nat :: i < Count(env, e.pos) ==>
                 var b := BatchOf(env, e.pos, i);
                 if LeftInSource(h, validate, b) then AllTexts(env, e.pos, Count(env, e.pos))[i] == b.texts
                 else FirstGiven(h, b, AllTexts(env, e.pos, Count(env, e.pos))[i])
  {
    hide Legal, After, ClashFree, Terminal, Count, BatchOf, Translates, LeftInSource, FirstGiven, Unfinished,
         GivenTexts;
    EmissionsInFull(env, run, k);
    var p := After(env, INIT, run).emitted[k].pos;
    forall i: nat | i < Count(env, p)
      ensures Unfinished(env, BatchOf(env, p, i)) <==> LeftInSource(h, validate, BatchOf(env, p, i))
      ensures if LeftInSource(h, validate, BatchOf(env, p, i))
              then GivenTexts(env, BatchOf(env, p, i)) == BatchOf(env, p, i).texts
              else FirstGiven(h, BatchOf(env, p, i), GivenTexts(env, BatchOf(env, p, i)))
    {
      BatchInFull(env, h, validate, BatchOf(env, p, i));
    }
  }
}
