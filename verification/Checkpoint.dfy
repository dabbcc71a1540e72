/**
 * The checkpoint protocol: marking a file adds it to the in-memory set and then saves that
 * set, in two separate critical sections; writes may fail and the process may crash and
 * reload in between.
 */
module Checkpoint {
  import opened BatchTypes

  datatype Value = Num(n: int) | Str(s: string) | Files(files: seq<string>)

  type Metadata = map<string, Value>

  datatype Saved = Saved(metadata: Metadata, files: set<string>)

  // ---------------------------------------------------------------- the critical sections

  const RECENT := "recent_completed_files"

  function Base(metadata: Metadata, config: Metadata): Metadata {
    if metadata == map[] then config else metadata
  }

  function LastTen(s: seq<string>): (r: seq<string>)
    ensures |r| <= |s| && r == s[|s| - |r|..]
    ensures |r| <= 10 && (|r| < 10 ==> r == s)
  {
    if |s| <= 10 then s else s[|s| - 10..]
  }

  function Recent(metadata: Metadata): seq<string> {
    if RECENT in metadata && metadata[RECENT].Files?
    then metadata[RECENT].files else []
  }

  function Stamped(metadata: Metadata, config: Metadata, file: string, at: string, count: nat): Metadata {
    Base(metadata, config)["last_completed_file" := Str(file)]["last_saved_at" := Str(at)]
      ["completed_count" := Num(count)]
  }

  /** The metadata after a file was added at some time; the caller's progress metadata may override any key. */
  function MarkedMetadata(metadata: Metadata, config: Metadata, file: string, at: string, count: nat,
                          progress: Metadata): Metadata
  {
    var m := Stamped(metadata, config, file, at, count) + progress;
    m[RECENT := Files(LastTen(Recent(m) + [file]))]
  }

  /** What a save writes: the whole set, with a fresh count. */
  function Image(metadata: Metadata, config: Metadata, files: set<string>): Saved {
    Saved(Base(metadata, config)["completed_count" := Num(|files|)], files)
  }

  /** The metadata that counts before a mark or a save: the configuration, as long as there is none. */
  predicate Was(metadata: Metadata, config: Metadata, key: string, v: Option<Value>) {
    if |metadata| == 0 then v == (if key in config then Some(config[key]) else None)
    else v == (if key in metadata then Some(metadata[key]) else None)
  }

  function At(m: Metadata, key: string): Option<Value> {
    if key in m then Some(m[key]) else None
  }

  /** What a mark makes of most keys: the caller's progress metadata wins, and the rest stays. */
  lemma {:induction false} MarkedKeys(metadata: Metadata, config: Metadata, file: string, at: string, count: nat,
                                     progress: Metadata, key: string, was: Option<Value>)
    requires Was(metadata, config, key, was) && key != RECENT
    ensures At(MarkedMetadata(metadata, config, file, at, count, progress), key) ==
            if key in progress then Some(progress[key])
            else if key == "last_completed_file" then Some(Str(file))
            else if key == "last_saved_at" then Some(Str(at))
            else if key == "completed_count" then Some(Num(count))
            else was
  {
    hide Recent, LastTen;
  }

  /** The list of recent files is continued, from the progress metadata if that has one. */
  lemma {:induction false} MarkedRecent(metadata: Metadata, config: Metadata, file: string, at: string, count: nat,
                                       progress: Metadata, was: Option<Value>) returns (recent: seq<string>)
    requires Was(metadata, config, RECENT, was)
    ensures At(MarkedMetadata(metadata, config, file, at, count, progress), RECENT) ==
            Some(Files(recent))
    ensures var earlier := if RECENT in progress then Some(progress[RECENT]) else was;
            var files := if earlier.Some? && earlier.value.Files? then earlier.value.files else [];
            IsRecent(recent, files + [file])
  {
    hide Recent, LastTen, Was, IsRecent, At, Base;
    var m := Stamped(metadata, config, file, at, count) + progress;
    recent := LastTen(Recent(m) + [file]);
    RecentIs(m);
    TenIsRecent(Recent(m) + [file]);
    PutAt(m, RECENT, Files(recent));
    StampedAt(metadata, config, file, at, count, RECENT, was);
    OverAt(Stamped(metadata, config, file, at, count), progress, RECENT);
  }

  lemma {:induction false} PutAt(m: Metadata, key: string, v: Value)
    ensures At(m[key := v], key) == Some(v)
  {
  }

  lemma {:induction false} OverAt(m: Metadata, over: Metadata, key: string)
    ensures At(m + over, key) == if key in over then Some(over[key]) else At(m, key)
  {
  }

  lemma {:induction false} StampedAt(metadata: Metadata, config: Metadata, file: string, at: string, count: nat,
                                    key: string, was: Option<Value>)
    requires Was(metadata, config, key, was)
    requires key != "last_completed_file" && key != "last_saved_at" && key != "completed_count"
    ensures At(Stamped(metadata, config, file, at, count), key) == was
  {
  }

  lemma {:induction false} RecentIs(m: Metadata)
    ensures var v := At(m, RECENT);
            Recent(m) == if v.Some? && v.value.Files? then v.value.files else []
  {
  }

  lemma {:induction false} TenIsRecent(files: seq<string>)
    ensures IsRecent(LastTen(files), files)
  {
  }

  /** The last ten, or all of up to ten. */
  predicate IsRecent(recent: seq<string>, files: seq<string>) {
    |recent| == (if |files| < 10 then |files| else 10) && recent == files[|files| - |recent|..]
  }

  /** What a save writes for each key: a fresh count, and the rest as it was. */
  lemma {:induction false} ImageKeys(metadata: Metadata, config: Metadata, files: set<string>, key: string,
                                    was: Option<Value>)
    requires Was(metadata, config, key, was)
    ensures Image(metadata, config, files).files == files
    ensures At(Image(metadata, config, files).metadata, key) ==
            if key == "completed_count" then Some(Num(|files|)) else was
  {
  }

  // ---------------------------------------------------------------- the manager

  /** The checkpoint file; it outlives the managers. */
  class Disk {
    var file: Option<Saved>

    constructor ()
      ensures file == None
    {
      file := None;
    }
  }

  class CheckpointManager {
    const disk: Disk
    const config: Metadata
    var completed: set<string>
    var metadata: Metadata

    /** The manager and its file are what the protocol state says. */
    ghost predicate Matches(st: State)
      reads this, disk
    {
      config == st.config && completed == st.memory && metadata == st.metadata && disk.file == st.disk
    }

    /** Loads the file if there is one; an unreadable file counts as no progress. */
    constructor (disk: Disk, config: Metadata, readable: bool, ghost st: State)
      requires disk.file == st.disk && config == st.config
      ensures Matches(Step(st, CrashAndReload(readable)))
      ensures this.disk == disk && this.config == config
      ensures disk.file.None? ==> completed == {} && metadata == config
      ensures disk.file.Some? && readable ==>
                completed == disk.file.value.files && metadata == disk.file.value.metadata
      ensures disk.file.Some? && !readable ==> completed == {} && metadata == map[]
    {
      this.disk, this.config := disk, config;
      if disk.file.None? {
        completed, metadata := {}, config;
      } else if readable {
        completed, metadata := disk.file.value.files, disk.file.value.metadata;
      } else {
        completed, metadata := {}, map[];
      }
    }

    /** The first critical section of a mark. */
    method AddCompleted(file: string, at: string, progress: Metadata, ghost st: State, ghost thread: nat)
      requires Matches(st) && thread !in st.marking
      modifies this
      ensures Matches(Step(st, Add(thread, file, at, progress)))
      ensures completed == old(completed) + {file}
      ensures metadata == MarkedMetadata(old(metadata), config, file, at, |completed|, progress)
    {
      hide LastTen, Recent, Base;
      completed := completed + {file};
      metadata := Base(metadata, config);
      metadata := metadata["last_completed_file" := Str(file)];
      metadata := metadata["last_saved_at" := Str(at)];
      metadata := metadata["completed_count" := Num(|completed|)];
      metadata := metadata + progress;
      var recent := Recent(metadata) + [file];
      metadata := metadata[RECENT := Files(LastTen(recent))];
    }

    /** The second critical section; the temporary file is either moved in place or nothing happens. */
    method SaveCheckpoint(writeOk: bool, ghost st: State, ghost thread: nat)
      requires Matches(st) && thread in st.marking
      modifies disk
      ensures Matches(Step(st, Save(thread, writeOk)))
      ensures disk.file == if writeOk then Some(Image(metadata, config, completed)) else old(disk.file)
    {
      var m := Base(metadata, config);
      m := m["completed_count" := Num(|completed|)];
      if writeOk {
        disk.file := Some(Saved(m, completed));
      }
    }

    /** A mark that no other thread interrupts. */
    method MarkFileCompleted(file: string, at: string, progress: Metadata, writeOk: bool,
                             ghost st: State, ghost thread: nat)
      requires Matches(st) && thread !in st.marking
      modifies this, disk
      ensures Matches(Step(Step(st, Add(thread, file, at, progress)), Save(thread, writeOk)))
      ensures completed == old(completed) + {file}
      ensures metadata == MarkedMetadata(old(metadata), config, file, at, |completed|, progress)
      ensures disk.file == if writeOk then Some(Image(metadata, config, completed)) else old(disk.file)
    {
      AddCompleted(file, at, progress, st, thread);
      SaveCheckpoint(writeOk, Step(st, Add(thread, file, at, progress)), thread);
    }

    method ClearCheckpoint(removeOk: bool, ghost st: State)
      requires Matches(st)
      modifies disk
      ensures Matches(Step(st, Clear(removeOk)))
      ensures disk.file == if removeOk then None else old(disk.file)
    {
      if disk.file.Some? && removeOk {
        disk.file := None;
      }
    }

    method FilterPendingFiles(all: seq<string>) returns (pending: seq<string>)
      ensures pending == Pending(all, completed)
    {
      var snapshot := completed;
      pending := [];
      for i := 0 to |all|
        invariant pending == Pending(all[..i], snapshot)
      {
        assert all[..i + 1][..i] == all[..i];
        if all[i] !in snapshot {
          pending := pending + [all[i]];
        }
      }
      assert all[..|all|] == all;
    }
  }

  /** The files that are not completed, in their original order. */
  function Pending(all: seq<string>, done: set<string>): seq<string> {
    if all == [] then []
    else Pending(all[..|all| - 1], done) + (if all[|all| - 1] !in done then [all[|all| - 1]] else [])
  }

  // ---------------------------------------------------------------- the protocol

  /**
   * The shared state under any interleaving of marking threads. `marking` holds the threads that
   * are between their two critical sections; `returned` is history: the files whose mark has
   * returned after a successful write since the last clear.
   */
  datatype State = State(
    config: Metadata,
    memory: set<string>,
    metadata: Metadata,
    disk: Option<Saved>,
    marking: map<nat, string>,
    returned: set<string>)

  datatype Event =
    | Add(thread: nat, file: string, at: string, progress: Metadata)
    | Save(thread: nat, writeOk: bool)
    | Clear(removeOk: bool)
    | CrashAndReload(readable: bool)

  function OnDisk(st: State): set<string> {
    if st.disk.Some? then st.disk.value.files else {}
  }

  predicate Enabled(st: State, e: Event) {
    match e
    case Add(thread, _, _, _) => thread !in st.marking
    case Save(thread, _) => thread in st.marking
    case Clear(_) => true
    case CrashAndReload(_) => true
  }

  function Step(st: State, e: Event): State
    requires Enabled(st, e)
  {
    match e
    case Add(thread, file, at, progress) =>
      var memory := st.memory + {file};
      st.(memory := memory,
          metadata := MarkedMetadata(st.metadata, st.config, file, at, |memory|, progress),
          marking := st.marking[thread := file])
    case Save(thread, writeOk) =>
      var st' := st.(marking := st.marking - {thread});
      if writeOk then
        st'.(disk := Some(Image(st.metadata, st.config, st.memory)), returned := st.returned + {st.marking[thread]})
      else st'
    case Clear(removeOk) =>
      if removeOk then st.(disk := None, returned := {}) else st
    case CrashAndReload(readable) =>
      st.(marking := map[],
          memory := if st.disk.Some? && readable then st.disk.value.files else {},
          metadata := if st.disk.None? then st.config else if readable then st.disk.value.metadata else map[])
  }

  ghost predicate Inv(st: State) {
    && (forall thread :: thread in st.marking ==> st.marking[thread] in st.memory)
    && OnDisk(st) <= st.memory
    && st.returned <= OnDisk(st)
    && (st.disk.Some? ==>
          "completed_count" in st.disk.value.metadata &&
          st.disk.value.metadata["completed_count"] == Num(|st.disk.value.files|))
  }

  /** No reload finds a checkpoint file that it cannot read. */
  predicate ReadsItsFile(st: State, e: Event) {
    e.CrashAndReload? && st.disk.Some? ==> e.readable
  }

  lemma {:induction false} StepKeeps(st: State, e: Event)
    requires Inv(st) && Enabled(st, e) && ReadsItsFile(st, e)
    ensures Inv(Step(st, e))
    ensures !e.Clear? ==> OnDisk(st) <= OnDisk(Step(st, e)) && st.returned <= Step(st, e).returned
  {
  }

  /** An unreadable file keeps the invariant exactly when it held no files. */
  lemma {:induction false} UnreadableKeepsIff(st: State)
    requires Inv(st) && st.disk.Some?
    ensures Inv(Step(st, CrashAndReload(false))) <==> st.disk.value.files == {}
  {
  }

  ghost predicate Legal(st: State, run: seq<Event>)
    decreases |run|
  {
    run == [] || (Enabled(st, run[0]) && Legal(Step(st, run[0]), run[1..]))
  }

  /** All reloads of the run find a readable file, or none. */
  ghost predicate Readable(st: State, run: seq<Event>)
    requires Legal(st, run)
    decreases |run|
  {
    run == [] || (ReadsItsFile(st, run[0]) && Readable(Step(st, run[0]), run[1..]))
  }

  ghost function After(st: State, run: seq<Event>): State
    requires Legal(st, run)
    decreases |run|
  {
    if run == [] then st else After(Step(st, run[0]), run[1..])
  }

  predicate NoClear(run: seq<Event>) {
    forall i :: 0 <= i < |run| ==> !run[i].Clear?
  }

  function Fresh(config: Metadata): State {
    State(config, {}, config, None, map[], {})
  }

  lemma {:induction false} RunKeeps(st: State, run: seq<Event>)
    requires Inv(st) && Legal(st, run) && Readable(st, run)
    ensures Inv(After(st, run))
    ensures NoClear(run) ==> OnDisk(st) <= OnDisk(After(st, run)) && st.returned <= After(st, run).returned
    decreases |run|
  {
    hide Inv, Enabled, Step, OnDisk, ReadsItsFile;
    if run != [] {
      StepKeeps(st, run[0]);
      RunKeeps(Step(st, run[0]), run[1..]);
    }
  }

  /**
   * In every run from an empty directory, under every interleaving, failed write, crash and clear:
   * what is saved is in memory, the saved count is right, and every file whose mark returned after
   * a successful write is saved.
   */
  lemma {:induction false} SavedIsTrustworthy(config: Metadata, run: seq<Event>)
    requires Legal(Fresh(config), run) && Readable(Fresh(config), run)
    ensures var st := After(Fresh(config), run);
            && OnDisk(st) <= st.memory && st.returned <= OnDisk(st)
            && (st.disk.Some? ==>
                  "completed_count" in st.disk.value.metadata &&
                  st.disk.value.metadata["completed_count"] == Num(|st.disk.value.files|))
  {
    RunKeeps(Fresh(config), run);
  }

  lemma {:induction false} AfterSplit(st: State, a: seq<Event>, b: seq<Event>)
    requires Legal(st, a + b)
    ensures Legal(st, a) && Legal(After(st, a), b) && After(st, a + b) == After(After(st, a), b)
    ensures Readable(st, a + b) <==> Readable(st, a) && Readable(After(st, a), b)
    decreases |a|
  {
    hide Enabled, Step, ReadsItsFile;
    if a == [] {
      assert a + b == b;
    } else {
      assert (a + b)[1..] == a[1..] + b;
      AfterSplit(Step(st, a[0]), a[1..], b);
    }
  }

  predicate NoCrash(run: seq<Event>) {
    forall i :: 0 <= i < |run| ==> !run[i].CrashAndReload?
  }

  /** The files added in a run. */
  function Added(run: seq<Event>): set<string> {
    if run == [] then {} else (if run[0].Add? then {run[0].file} else {}) + Added(run[1..])
  }

  lemma {:induction false} AddedIs(run: seq<Event>, f: string)
    ensures f in Added(run) <==> exists i :: 0 <= i < |run| && run[i].Add? && run[i].file == f
  {
    if run != [] {
      AddedIs(run[1..], f);
      assert forall i :: 1 <= i < |run| ==> run[i] == run[1..][i - 1];
    }
  }

  /** Between crashes memory holds what it held, and the files added. */
  lemma {:induction false} MemoryIs(st: State, run: seq<Event>)
    requires Legal(st, run) && NoCrash(run)
    ensures After(st, run).memory == st.memory + Added(run)
    decreases |run|
  {
    hide MarkedMetadata, Image;
    if run != [] {
      MemoryIs(Step(st, run[0]), run[1..]);
    }
  }

  /**
   * Any successful write after a file was added saves it, also the write of another thread and also
   * when the file's own write failed; it then stays saved through further crashes until a clear.
   */
  lemma {:induction false} LaterWriteSavesIt(config: Metadata, before: seq<Event>, add: Event, between: seq<Event>,
                                            save: Event, later: seq<Event>)
    requires add.Add? && save.Save? && save.writeOk && NoCrash(between) && NoClear(later)
    requires var run := before + ([add] + (between + ([save] + later)));
             Legal(Fresh(config), run) && Readable(Fresh(config), run)
    ensures add.file in OnDisk(After(Fresh(config), before + ([add] + (between + ([save] + later)))))
  {
    hide Step, Inv, Enabled, OnDisk;
    var st0 := Fresh(config);
    FreshInv(config);
    AfterSplit(st0, before, [add] + (between + ([save] + later)));
    var st1 := After(st0, before);
    RunKeeps(st0, before);
    AfterSplit(st1, [add], between + ([save] + later));
    RunKeeps(st1, [add]);
    var st2 := After(st1, [add]);
    AfterSplit(st2, between, [save] + later);
    RunKeeps(st2, between);
    var st3 := After(st2, between);
    AfterSplit(st3, [save], later);
    RunKeeps(st3, [save]);
    AddThenSave(st1, add, between, save);
    RunKeeps(After(st3, [save]), later);
  }

  lemma {:induction false} FreshInv(config: Metadata)
    ensures Inv(Fresh(config))
  {
  }

  lemma {:induction false} OneStep(st: State, e: Event)
    requires Enabled(st, e)
    ensures Legal(st, [e]) && After(st, [e]) == Step(st, e)
  {
    hide Enabled, Step;
    assert [e][1..] == [];
  }

  /** A successful write saves what memory holds. */
  lemma {:induction false} SaveWritesMemory(st: State, save: Event)
    requires save.Save? && save.writeOk && Enabled(st, save)
    ensures OnDisk(Step(st, save)) == st.memory
  {
    hide Base;
  }

  lemma {:induction false} AddThenSave(st: State, add: Event, between: seq<Event>, save: Event)
    requires add.Add? && save.Save? && save.writeOk && NoCrash(between)
    requires Enabled(st, add) && Legal(Step(st, add), between) && Enabled(After(Step(st, add), between), save)
    ensures Legal(st, [add]) && Legal(After(st, [add]), between) && Legal(After(After(st, [add]), between), [save])
    ensures add.file in OnDisk(After(After(After(st, [add]), between), [save]))
  {
    hide Legal, After, OnDisk, MarkedMetadata;
    OneStep(st, add);
    MemoryIs(Step(st, add), between);
    var st3 := After(Step(st, add), between);
    OneStep(st3, save);
    SaveWritesMemory(st3, save);
  }

  /**
   * The exact loss, in every run: after a reload that could not read the file, the next successful
   * writes keep a file if and only if some mark added it again since that reload.
   */
  lemma {:induction false} UnreadableKeepsReadded(config: Metadata, before: seq<Event>, between: seq<Event>,
                                                 save: Event, f: string)
    requires Legal(Fresh(config), before) && After(Fresh(config), before).disk.Some?
    requires var st := Step(After(Fresh(config), before), CrashAndReload(false));
             Legal(st, between) && NoCrash(between) && save.Save? && save.writeOk && Enabled(After(st, between), save)
    ensures var st := Step(After(Fresh(config), before), CrashAndReload(false));
            f in OnDisk(Step(After(st, between), save)) <==>
            exists i :: 0 <= i < |between| && between[i].Add? && between[i].file == f
  {
    hide Legal, After, OnDisk;
    var st := Step(After(Fresh(config), before), CrashAndReload(false));
    assert st.memory == {};
    MemoryIs(st, between);
    SaveWritesMemory(After(st, between), save);
    AddedIs(between, f);
  }

  /** The smallest loss: of two files, the one saved before the unreadable reload is gone after the next write. */
  lemma {:induction false} UnreadableLosesAFile(config: Metadata, at: string)
    ensures var st := Step(Step(Fresh(config), Add(0, "a", at, map[])), Save(0, true));
            var st1 := Step(st, CrashAndReload(false));
            var st2 := Step(Step(st1, Add(0, "b", at, map[])), Save(0, true));
            "a" in st2.returned && "a" !in OnDisk(st2)
  {
    var st := Step(Step(Fresh(config), Add(0, "a", at, map[])), Save(0, true));
    assert "a" in st.returned;
  }

  // ---------------------------------------------------------------- resuming

  /** The unfinished files, each as often as it occurs, and only they. */
  lemma {:induction false} PendingIsTheRest(all: seq<string>, done: set<string>)
    ensures forall f :: f in Pending(all, done) <==> f in all && f !in done
    ensures forall f :: f !in done ==> multiset(Pending(all, done))[f] == multiset(all)[f]
  {
    if all != [] {
      PendingIsTheRest(all[..|all| - 1], done);
      assert all == all[..|all| - 1] + [all[|all| - 1]];
    }
  }

  lemma {:induction false} PendingInOrder(a: seq<string>, b: seq<string>, done: set<string>)
    ensures Pending(a + b, done) == Pending(a, done) + Pending(b, done)
  {
    if b == [] {
      assert a + b == a;
    } else {
      assert (a + b)[..|a + b| - 1] == a + b[..|b| - 1];
      PendingInOrder(a, b[..|b| - 1], done);
    }
  }

  /** After a reload, the files still to do are exactly those not saved, whatever had been marked. */
  lemma {:induction false} ReloadResumes(config: Metadata, run: seq<Event>, all: seq<string>, f: string)
    requires Legal(Fresh(config), run) && Readable(Fresh(config), run)
    ensures var st := After(Fresh(config), run);
            var st' := Step(st, CrashAndReload(true));
            && Pending(all, st'.memory) == Pending(all, OnDisk(st))
            && (f in Pending(all, st'.memory) <==> f in all && f !in OnDisk(st))
            && (f in st.returned ==> f !in Pending(all, st'.memory))
  {
    hide Legal, After, Step, Pending, Readable, OnDisk;
    FreshInv(config);
    RunKeeps(Fresh(config), run);
    var st := After(Fresh(config), run);
    ReloadReads(st);
    PendingIsTheRest(all, OnDisk(st));
  }

  lemma {:induction false} ReloadReads(st: State)
    ensures Step(st, CrashAndReload(true)).memory == OnDisk(st)
    ensures Inv(st) ==> st.returned <= OnDisk(st)
  {
    hide Base;
  }
}
