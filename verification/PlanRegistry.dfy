/**
 * The registry of agent plans: creation, consumption and release of plans, the bounded audit
 * trail, saves that may fail, and restarts from the saved file. Clock readings are integers
 * counting microseconds; every operation carries the readings it makes.
 */
module PlanRegistry {
  import opened BatchTypes

  const PLAN_TTL: int := 30 * 60 * 1_000_000
  const AUDIT_LIMIT: nat := 500

  datatype Status = Ready | AwaitingApproval | Consumed

  datatype Plan = Plan(project: string, dryRun: bool, details: string, status: Status,
                       createdAt: int, expiresAt: int, consumedAt: Option<int>)

  datatype Job = Job(project: string, planId: string, kind: string, createdAt: int,
                     lastSnapshot: Option<string>, updatedAt: Option<int>)

  datatype AuditEntry = AuditEntry(event: string, at: int, fields: map<string, string>)

  datatype Payload = Payload(plans: map<string, Plan>, jobs: map<string, Job>, audit: seq<AuditEntry>)

  const EMPTY: Payload := Payload(map[], map[], [])

  /** The payload in memory and the one in the file; a missing file is `None`. */
  datatype State = State(memory: Payload, disk: Option<Payload>)

  datatype Op =
    | Create(id: string, project: string, dryRun: bool, details: string, now: int, auditAt: int, saveWorks: bool)
    | Consume(id: string, approved: bool, now: int, stampedAt: int, auditAt: int, saveWorks: bool)
    | Release(id: string, saveWorks: bool)
    | RecordJob(jobId: string, project: string, planId: string, kind: string, now: int, auditAt: int, saveWorks: bool)
    | UpdateSnapshot(jobId: string, snapshot: string, now: int, saveWorks: bool)
    | RecordEvent(event: string, fields: map<string, string>, auditAt: int, saveWorks: bool)
    | Restart(readable: bool)

  /** How a call ends; all but the first are exceptions. */
  datatype Outcome = Done | SaveFailed | NotFound | AlreadyConsumed | Expired | ApprovalRequired

  // ---------------------------------------------------------------- one operation

  function LastEntries(log: seq<AuditEntry>): (r: seq<AuditEntry>)
    ensures |r| <= AUDIT_LIMIT
  {
    if |log| > AUDIT_LIMIT then log[|log| - AUDIT_LIMIT..] else log
  }

  /** Up to 500 entries are kept, and of more the newest 500. */
  lemma {:induction false} LastEntriesAre(log: seq<AuditEntry>)
    ensures exists older :: log == older + LastEntries(log) && (older == [] || |LastEntries(log)| == 500)
  {
    var older := log[..|log| - |LastEntries(log)|];
    assert log == older + LastEntries(log);
  }

  function Idle(dryRun: bool): Status {
    if dryRun then Ready else AwaitingApproval
  }

  /** Saving writes memory to the file, or raises and leaves the file alone. */
  function Save(s: State, works: bool): (State, Outcome) {
    if works then (s.(disk := Some(s.memory)), Done) else (s, SaveFailed)
  }

  /** What an operation adds to the audit trail. */
  function Entries(s: State, op: Op): seq<AuditEntry> {
    match op
    case Create(id, project, _, _, _, at, _) =>
      [AuditEntry("plan_created", at, map["project_id" := project, "plan_id" := id])]
    case Consume(id, _, _, _, at, _) =>
      if Check(s.memory, op) == Done then
        [AuditEntry("plan_consumed", at, map["project_id" := s.memory.plans[id].project, "plan_id" := id])]
      else []
    case RecordJob(jobId, project, _, kind, _, at, _) =>
      [AuditEntry("job_created", at, map["project_id" := project, "job_id" := jobId, "kind" := kind])]
    case RecordEvent(event, fields, at, _) => [AuditEntry(event, at, fields)]
    case _ => []
  }

  /** The guards of a consumption, in their order. */
  function Check(m: Payload, op: Op): (r: Outcome)
    requires op.Consume?
    ensures r == Done ==> op.id in m.plans
  {
    if op.id !in m.plans then NotFound
    else
      var plan := m.plans[op.id];
      if plan.consumedAt.Some? then AlreadyConsumed
      else if plan.expiresAt < op.now then Expired
      else if !plan.dryRun && !op.approved then ApprovalRequired
      else Done
  }

  /** Which refusal a consumption gets: each presupposes that those before it do not apply. */
  lemma {:induction false} CheckIff(m: Payload, op: Op)
    requires op.Consume?
    ensures Check(m, op) == NotFound <==> op.id !in m.plans
    ensures op.id in m.plans ==>
              var plan, check := m.plans[op.id], Check(m, op);
              && (check == AlreadyConsumed <==> plan.consumedAt.Some?)
              && (check == Expired <==> plan.consumedAt.None? && plan.expiresAt < op.now)
              && (check == ApprovalRequired <==>
                    plan.consumedAt.None? && op.now <= plan.expiresAt && !plan.dryRun && !op.approved)
              && (check == Done <==>
                    plan.consumedAt.None? && op.now <= plan.expiresAt && (plan.dryRun || op.approved))
  {
  }

  function Step(s: State, op: Op): (State, Outcome) {
    var m := s.memory;
    var audit := LastEntries(m.audit + Entries(s, op));
    match op
    case Create(id, project, dryRun, details, now, _, saveWorks) =>
      var plan := Plan(project, dryRun, details, Idle(dryRun), now, now + PLAN_TTL, None);
      Save(s.(memory := Payload(m.plans[id := plan], m.jobs, audit)), saveWorks)
    case Consume(id, _, _, stampedAt, _, saveWorks) =>
      var check := Check(m, op);
      if check != Done then (s, check)
      else
        var plan := m.plans[id].(consumedAt := Some(stampedAt), status := Consumed);
        Save(s.(memory := Payload(m.plans[id := plan], m.jobs, audit)), saveWorks)
    case Release(id, saveWorks) =>
      if id !in m.plans then (s, Done)
      else
        var plan := m.plans[id].(consumedAt := None, status := Idle(m.plans[id].dryRun));
        Save(s.(memory := m.(plans := m.plans[id := plan])), saveWorks)
    case RecordJob(jobId, project, planId, kind, now, _, saveWorks) =>
      var job := Job(project, planId, kind, now, None, None);
      Save(s.(memory := Payload(m.plans, m.jobs[jobId := job], audit)), saveWorks)
    case UpdateSnapshot(jobId, snapshot, now, saveWorks) =>
      if jobId !in m.jobs then (s, Done)
      else
        var job := m.jobs[jobId].(lastSnapshot := Some(snapshot), updatedAt := Some(now));
        Save(s.(memory := m.(jobs := m.jobs[jobId := job])), saveWorks)
    case RecordEvent(_, _, _, saveWorks) =>
      Save(s.(memory := m.(audit := audit)), saveWorks)
    case Restart(readable) =>
      (s.(memory := if readable && s.disk.Some? then s.disk.value else EMPTY), Done)
  }

  class AgentRegistry {
    var plans: map<string, Plan>
    var jobs: map<string, Job>
    var audit: seq<AuditEntry>
    var file: Option<Payload>

    ghost function Abs(): State
      reads this
    {
      State(Payload(plans, jobs, audit), file)
    }

    /** Starting is restarting: what was in memory before plays no part, and an unreadable file counts as empty. */
    constructor (saved: Option<Payload>, readable: bool)
      ensures file == saved
      ensures saved.Some? && readable ==> Abs().memory == saved.value
      ensures saved.None? || !readable ==> Abs().memory == EMPTY
      ensures forall before :: Step(State(before, saved), Restart(readable)).0 == Abs()
    {
      var p := if saved.Some? && readable then saved.value else EMPTY;
      plans, jobs, audit, file := p.plans, p.jobs, p.audit, saved;
    }

    method Audit(event: string, at: int, fields: map<string, string>)
      modifies this`audit
      ensures audit == LastEntries(old(audit) + [AuditEntry(event, at, fields)])
    {
      audit := audit + [AuditEntry(event, at, fields)];
      if |audit| > 500 {
        audit := audit[|audit| - 500..];
      }
    }

    method SaveFile(works: bool) returns (r: Outcome)
      modifies this`file
      ensures Save(old(Abs()), works) == (Abs(), r)
      ensures works ==> r == Done && file == Some(Payload(plans, jobs, audit))
      ensures !works ==> r == SaveFailed && file == old(file)
    {
      if !works {
        return SaveFailed;
      }
      file := Some(Payload(plans, jobs, audit));
      r := Done;
    }

    method CreatePlan(op: Op) returns (r: Outcome)
      requires op.Create?
      modifies this
      ensures (Abs(), r) == Step(old(Abs()), op)
      ensures plans == old(plans)[op.id := Plan(op.project, op.dryRun, op.details,
                                                if op.dryRun then Ready else AwaitingApproval,
                                                op.now, op.now + 30 * 60 * 1_000_000, None)]
      ensures jobs == old(jobs)
      ensures audit == LastEntries(
                old(audit) + [AuditEntry("plan_created", op.auditAt,
                                         map["project_id" := op.project, "plan_id" := op.id])])
      ensures r == (if op.saveWorks then Done else SaveFailed)
      ensures file == if op.saveWorks then Some(Payload(plans, jobs, audit)) else old(file)
    {
      var status := if op.dryRun then Ready else AwaitingApproval;
      var record := Plan(op.project, op.dryRun, op.details, status, op.now, op.now + PLAN_TTL, None);
      plans := plans[op.id := record];
      Audit("plan_created", op.auditAt, map["project_id" := op.project, "plan_id" := op.id]);
      r := SaveFile(op.saveWorks);
    }

    method ConsumePlan(op: Op) returns (r: Outcome)
      requires op.Consume?
      modifies this
      ensures (Abs(), r) == Step(old(Abs()), op)
      ensures r == NotFound <==> op.id !in old(plans)
      ensures op.id in old(plans) ==>
                var plan := old(plans)[op.id];
                && (r == AlreadyConsumed <==> plan.consumedAt.Some?)
                && (r == Expired <==> plan.consumedAt.None? && plan.expiresAt < op.now)
                && (r == ApprovalRequired <==>
                      plan.consumedAt.None? && op.now <= plan.expiresAt && !plan.dryRun && !op.approved)
      ensures r in {NotFound, AlreadyConsumed, Expired, ApprovalRequired} ==> Abs() == old(Abs())
      ensures r !in {NotFound, AlreadyConsumed, Expired, ApprovalRequired} ==>
                var plan := old(plans)[op.id];
                && plans == old(plans)[op.id := plan.(consumedAt := Some(op.stampedAt), status := Consumed)]
                && jobs == old(jobs)
                && audit == LastEntries(
                     old(audit) + [AuditEntry("plan_consumed", op.auditAt,
                                              map["project_id" := plan.project, "plan_id" := op.id])])
                && r == (if op.saveWorks then Done else SaveFailed)
                && file == if op.saveWorks then Some(Payload(plans, jobs, audit)) else old(file)
    {
      if op.id !in plans {
        return NotFound;
      }
      var record := plans[op.id];
      if record.consumedAt.Some? {
        return AlreadyConsumed;
      }
      if record.expiresAt < op.now {
        return Expired;
      }
      if !record.dryRun && !op.approved {
        return ApprovalRequired;
      }
      plans := plans[op.id := record.(consumedAt := Some(op.stampedAt), status := Consumed)];
      Audit("plan_consumed", op.auditAt, map["project_id" := record.project, "plan_id" := op.id]);
      r := SaveFile(op.saveWorks);
    }

    method ReleasePlan(op: Op) returns (r: Outcome)
      requires op.Release?
      modifies this
      ensures (Abs(), r) == Step(old(Abs()), op)
      ensures op.id !in old(plans) ==> r == Done && Abs() == old(Abs())
      ensures op.id in old(plans) ==>
                var plan := old(plans)[op.id];
                && plans == old(plans)[op.id := plan.(consumedAt := None,
                                                      status := if plan.dryRun then Ready else AwaitingApproval)]
                && jobs == old(jobs) && audit == old(audit)
                && r == (if op.saveWorks then Done else SaveFailed)
                && file == if op.saveWorks then Some(Payload(plans, jobs, audit)) else old(file)
    {
      if op.id !in plans {
        return Done;
      }
      var record := plans[op.id];
      var status := if record.dryRun then Ready else AwaitingApproval;
      plans := plans[op.id := record.(consumedAt := None, status := status)];
      r := SaveFile(op.saveWorks);
    }

    method AddJob(op: Op) returns (r: Outcome)
      requires op.RecordJob?
      modifies this
      ensures (Abs(), r) == Step(old(Abs()), op)
      ensures jobs == old(jobs)[op.jobId := Job(op.project, op.planId, op.kind, op.now, None, None)]
      ensures plans == old(plans)
      ensures audit == LastEntries(
                old(audit) + [AuditEntry("job_created", op.auditAt,
                                         map["project_id" := op.project, "job_id" := op.jobId, "kind" := op.kind])])
      ensures r == (if op.saveWorks then Done else SaveFailed)
      ensures file == if op.saveWorks then Some(Payload(plans, jobs, audit)) else old(file)
    {
      jobs := jobs[op.jobId := Job(op.project, op.planId, op.kind, op.now, None, None)];
      Audit("job_created", op.auditAt, map["project_id" := op.project, "job_id" := op.jobId, "kind" := op.kind]);
      r := SaveFile(op.saveWorks);
    }

    method SetSnapshot(op: Op) returns (r: Outcome)
      requires op.UpdateSnapshot?
      modifies this
      ensures (Abs(), r) == Step(old(Abs()), op)
      ensures op.jobId !in old(jobs) ==> r == Done && Abs() == old(Abs())
      ensures op.jobId in old(jobs) ==>
                var job := old(jobs)[op.jobId];
                && jobs == old(jobs)[op.jobId := job.(lastSnapshot := Some(op.snapshot), updatedAt := Some(op.now))]
                && plans == old(plans) && audit == old(audit)
                && r == (if op.saveWorks then Done else SaveFailed)
                && file == if op.saveWorks then Some(Payload(plans, jobs, audit)) else old(file)
    {
      if op.jobId !in jobs {
        return Done;
      }
      jobs := jobs[op.jobId := jobs[op.jobId].(lastSnapshot := Some(op.snapshot), updatedAt := Some(op.now))];
      r := SaveFile(op.saveWorks);
    }

    method AddEvent(op: Op) returns (r: Outcome)
      requires op.RecordEvent?
      modifies this
      ensures (Abs(), r) == Step(old(Abs()), op)
      ensures audit == LastEntries(old(audit) + [AuditEntry(op.event, op.auditAt, op.fields)])
      ensures plans == old(plans) && jobs == old(jobs)
      ensures r == (if op.saveWorks then Done else SaveFailed)
      ensures file == if op.saveWorks then Some(Payload(plans, jobs, audit)) else old(file)
    {
      Audit(op.event, op.auditAt, op.fields);
      r := SaveFile(op.saveWorks);
    }
  }

  // ---------------------------------------------------------------- runs

  /** The state after a run that started with nothing saved. */
  function After(ops: seq<Op>): State {
    if ops == [] then State(EMPTY, None) else Step(After(ops[..|ops| - 1]), ops[|ops| - 1]).0
  }

  function OutcomeAt(ops: seq<Op>, i: nat): Outcome
    requires i < |ops|
  {
    Step(After(ops[..i]), ops[i]).1
  }

  /** The i-th operation is a consumption of the plan, and succeeds. */
  predicate Consumes(ops: seq<Op>, i: nat, id: string) {
    i < |ops| && ops[i].Consume? && ops[i].id == id && OutcomeAt(ops, i) == Done
  }

  predicate Releases(op: Op, id: string) {
    op.Release? && op.id == id
  }

  predicate Creates(op: Op, id: string) {
    op.Create? && op.id == id
  }

  /** Identifiers are generated, and never twice. */
  predicate FreshIds(ops: seq<Op>) {
    forall i, j :: 0 <= i < j < |ops| && ops[i].Create? && ops[j].Create? ==> ops[i].id != ops[j].id
  }

  lemma {:induction false} AfterOneMore(ops: seq<Op>, i: nat)
    requires i < |ops|
    ensures After(ops[..i + 1]) == Step(After(ops[..i]), ops[i]).0
  {
    assert ops[..i + 1][..i] == ops[..i];
  }

  // ---------------------------------------------------------------- payload invariants

  /** Status and stamp agree, and the expiry is the creation plus the time to live. */
  predicate GoodPlan(p: Plan) {
    p.status == (if p.consumedAt.Some? then Consumed else Idle(p.dryRun)) && p.expiresAt == p.createdAt + PLAN_TTL
  }

  predicate GoodPayload(m: Payload) {
    |m.audit| <= AUDIT_LIMIT && forall id :: id in m.plans ==> GoodPlan(m.plans[id])
  }

  predicate Good(s: State) {
    GoodPayload(s.memory) && (s.disk.Some? ==> GoodPayload(s.disk.value))
  }

  /** The file is either left alone or holds what memory holds; a restart reads the file or nothing. */
  lemma {:induction false} StepShape(s: State, op: Op)
    ensures var s' := Step(s, op).0;
            && (s'.disk == s.disk || s'.disk == Some(s'.memory))
            && (op.Restart? ==>
                  s'.disk == s.disk && (s'.memory == EMPTY || (s.disk.Some? && s'.memory == s.disk.value)))
  {
    hide Entries, LastEntries, Check;
  }

  /** What a step does to one plan: it may create it, else it changes no more than status and stamp, together. */
  lemma {:induction false} StepPlan(s: State, op: Op, id: string)
    requires !op.Restart?
    ensures var (plans, plans') := (s.memory.plans, Step(s, op).0.memory.plans);
            && (id in plans' <==> id in plans || Creates(op, id))
            && (Creates(op, id) ==>
                  && plans'[id].dryRun == op.dryRun && plans'[id].createdAt == op.now
                  && plans'[id].project == op.project && GoodPlan(plans'[id]))
            && (id in plans && !Creates(op, id) ==>
                  && plans'[id].dryRun == plans[id].dryRun && plans'[id].createdAt == plans[id].createdAt
                  && plans'[id].project == plans[id].project
                  && (GoodPlan(plans[id]) ==> GoodPlan(plans'[id])))
  {
    hide Entries, LastEntries;
  }

  lemma {:induction false} StepAudit(s: State, op: Op)
    requires !op.Restart?
    ensures Step(s, op).0.memory.audit == s.memory.audit || |Step(s, op).0.memory.audit| <= AUDIT_LIMIT
  {
    hide Entries, LastEntries, Check;
  }

  lemma {:induction false} GoodStep(s: State, op: Op)
    requires Good(s)
    ensures Good(Step(s, op).0)
  {
    hide Step, GoodPlan;
    StepShape(s, op);
    if op.Restart? {
      assert GoodPayload(EMPTY);
    } else {
      StepAudit(s, op);
      var plans := Step(s, op).0.memory.plans;
      forall id | id in plans ensures GoodPlan(plans[id]) {
        StepPlan(s, op, id);
      }
    }
  }

  /** In every reachable state, in memory and on disk, status and consumption stamp agree. */
  lemma {:induction false} StatusAgrees(ops: seq<Op>)
    ensures Good(After(ops))
  {
    hide Step;
    if ops != [] {
      StatusAgrees(ops[..|ops| - 1]);
      GoodStep(After(ops[..|ops| - 1]), ops[|ops| - 1]);
    }
  }

  /** A plan in the registry carries what its creation gave it. */
  predicate FromCreation(ops: seq<Op>, id: string, p: Plan) {
    exists i :: 0 <= i < |ops| && Creates(ops[i], id) &&
                p.dryRun == ops[i].dryRun && p.createdAt == ops[i].now && p.project == ops[i].project
  }

  predicate AllFromCreation(ops: seq<Op>, m: Payload) {
    forall id :: id in m.plans ==> FromCreation(ops, id, m.plans[id])
  }

  lemma {:induction false} FromCreationGrows(ops: seq<Op>, more: seq<Op>, m: Payload)
    requires AllFromCreation(ops, m) && ops <= more
    ensures AllFromCreation(more, m)
  {
    forall id | id in m.plans ensures FromCreation(more, id, m.plans[id]) {
      var i :| 0 <= i < |ops| && Creates(ops[i], id) &&
               m.plans[id].dryRun == ops[i].dryRun && m.plans[id].createdAt == ops[i].now &&
               m.plans[id].project == ops[i].project;
      assert more[i] == ops[i];
    }
  }

  lemma {:induction false} PlansComeFromCreations(ops: seq<Op>)
    ensures AllFromCreation(ops, After(ops).memory)
    ensures After(ops).disk.Some? ==> AllFromCreation(ops, After(ops).disk.value)
  {
    hide Step, AllFromCreation, FromCreation;
    if ops == [] {
      NoPlans(ops);
    } else {
      var front, op := ops[..|ops| - 1], ops[|ops| - 1];
      PlansComeFromCreations(front);
      FromCreationGrows(front, ops, After(front).memory);
      if After(front).disk.Some? {
        FromCreationGrows(front, ops, After(front).disk.value);
      }
      StepShape(After(front), op);
      if op.Restart? {
        NoPlans(ops);
      } else {
        CreationStep(ops);
      }
    }
  }

  lemma {:induction false} NoPlans(ops: seq<Op>)
    ensures AllFromCreation(ops, EMPTY)
  {
  }

  lemma {:induction false} CreationStep(ops: seq<Op>)
    requires ops != [] && !ops[|ops| - 1].Restart?
    requires AllFromCreation(ops, After(ops[..|ops| - 1]).memory)
    ensures AllFromCreation(ops, After(ops).memory)
  {
    hide Step;
    var s, op := After(ops[..|ops| - 1]), ops[|ops| - 1];
    var plans := After(ops).memory.plans;
    forall id | id in plans ensures FromCreation(ops, id, plans[id]) {
      StepPlan(s, op, id);
      if Creates(op, id) {
        assert Creates(ops[|ops| - 1], id);
      } else {
        assert FromCreation(ops, id, s.memory.plans[id]);
      }
    }
  }

  /**
   * A successful consumption happens no later than the time to live after the plan's creation,
   * whatever was released in between, and with approval unless the plan was a dry run.
   */
  lemma {:induction false} ConsumedInTimeWithApproval(ops: seq<Op>, j: nat, id: string)
    requires Consumes(ops, j, id)
    ensures exists i :: 0 <= i < j && Creates(ops[i], id) &&
                        ops[j].now <= ops[i].now + PLAN_TTL && (ops[i].dryRun || ops[j].approved)
  {
    hide After;
    var front := ops[..j];
    PlansComeFromCreations(front);
    StatusAgrees(front);
    var p := After(front).memory.plans[id];
    assert FromCreation(front, id, p);
    var i :| 0 <= i < |front| && Creates(front[i], id) &&
             p.dryRun == front[i].dryRun && p.createdAt == front[i].now && p.project == front[i].project;
    assert front[i] == ops[i];
  }

  // ---------------------------------------------------------------- one consumption per release

  /** The plan is held wherever it is known. */
  predicate Held(s: State, id: string) {
    (id in s.memory.plans ==> s.memory.plans[id].consumedAt.Some?) &&
    (s.disk.Some? && id in s.disk.value.plans ==> s.disk.value.plans[id].consumedAt.Some?)
  }

  lemma {:induction false} HeldStep(s: State, op: Op, id: string)
    requires Held(s, id) && !Releases(op, id) && !Creates(op, id)
    ensures Held(Step(s, op).0, id)
  {
  }

  lemma {:induction false} HeldUntilReleased(ops: seq<Op>, i: nat, j: nat, id: string)
    requires FreshIds(ops) && Consumes(ops, i, id) && i < j <= |ops|
    requires forall k :: i < k < j ==> !Releases(ops[k], id)
    ensures Held(After(ops[..j]), id)
    decreases j
  {
    hide After;
    AfterOneMore(ops, j - 1);
    if j == i + 1 {
      assert Held(After(ops[..j]), id);
    } else {
      HeldUntilReleased(ops, i, j - 1, id);
      ConsumedWasCreated(ops, i, id);
      HeldStep(After(ops[..j - 1]), ops[j - 1], id);
    }
  }

  lemma {:induction false} ConsumedWasCreated(ops: seq<Op>, i: nat, id: string)
    requires FreshIds(ops) && Consumes(ops, i, id)
    ensures forall k :: i <= k < |ops| ==> !Creates(ops[k], id)
  {
    hide After;
    ConsumedInTimeWithApproval(ops, i, id);
    var c :| 0 <= c < i && Creates(ops[c], id);
    assert ops[i].Consume?;
  }

  /**
   * Two successful consumptions of a plan are separated by a release of it, for any failing
   * saves and restarts in between.
   */
  lemma {:induction false} OneConsumptionPerRelease(ops: seq<Op>, i: nat, j: nat, id: string)
    requires FreshIds(ops) && Consumes(ops, i, id) && Consumes(ops, j, id) && i < j
    ensures exists k :: i < k < j && Releases(ops[k], id)
  {
    hide After;
    if forall k :: i < k < j ==> !Releases(ops[k], id) {
      HeldUntilReleased(ops, i, j, id);
    }
  }

  // ---------------------------------------------------------------- exact behaviour without faults

  predicate Faultless(ops: seq<Op>) {
    forall i :: 0 <= i < |ops| ==> !ops[i].Restart? && ops[i].saveWorks
  }

  /** By the history: some successful consumption was not followed by a release. */
  predicate TakenAt(ops: seq<Op>, i: nat, id: string) {
    Consumes(ops, i, id) && forall k :: i < k < |ops| ==> !Releases(ops[k], id)
  }

  predicate Taken(ops: seq<Op>, id: string) {
    exists i :: 0 <= i < |ops| && TakenAt(ops, i, id)
  }

  predicate Created(ops: seq<Op>, id: string) {
    exists i :: 0 <= i < |ops| && Creates(ops[i], id)
  }

  lemma {:induction false} TakenOneMore(ops: seq<Op>, id: string)
    requires ops != []
    ensures var front, last := ops[..|ops| - 1], |ops| - 1;
            Taken(ops, id) <==> Consumes(ops, last, id) || (Taken(front, id) && !Releases(ops[last], id))
  {
    hide After, Step;
    var front, last := ops[..|ops| - 1], |ops| - 1;
    forall i: nat | i < last ensures Consumes(ops, i, id) <==> Consumes(front, i, id) {
      assert front[..i] == ops[..i];
    }
    if Taken(ops, id) {
      var i: nat :| i < |ops| && TakenAt(ops, i, id);
      if i < last {
        assert TakenAt(front, i, id);
      }
    }
    if Consumes(ops, last, id) {
      assert TakenAt(ops, last, id);
    }
    if Taken(front, id) && !Releases(ops[last], id) {
      var i: nat :| i < |front| && TakenAt(front, i, id);
      assert TakenAt(ops, i, id);
    }
  }

  lemma {:induction false} CreatedOneMore(ops: seq<Op>, id: string)
    requires ops != []
    ensures Created(ops, id) <==> Created(ops[..|ops| - 1], id) || Creates(ops[|ops| - 1], id)
  {
    var front := ops[..|ops| - 1];
    if Created(front, id) {
      var i :| 0 <= i < |front| && Creates(front[i], id);
      assert Creates(ops[i], id);
    }
    if Created(ops, id) {
      var i :| 0 <= i < |ops| && Creates(ops[i], id);
      assert i < |front| ==> Creates(front[i], id);
    }
  }

  lemma {:induction false} TakenWasCreated(ops: seq<Op>, id: string)
    requires Taken(ops, id)
    ensures Created(ops, id)
  {
    hide After;
    var i: nat :| i < |ops| && TakenAt(ops, i, id);
    ConsumedInTimeWithApproval(ops, i, id);
  }

  lemma {:induction false} HistoryStep(s: State, op: Op, id: string, created: bool, taken: bool)
    requires !op.Restart? && op.saveWorks
    requires id in s.memory.plans <==> created
    requires created ==> (s.memory.plans[id].consumedAt.Some? <==> taken)
    requires Creates(op, id) ==> !taken
    ensures var (s', r) := Step(s, op);
            var consumes := op.Consume? && op.id == id && r == Done;
            && (id in s'.memory.plans <==> created || Creates(op, id))
            && (id in s'.memory.plans ==>
                  (s'.memory.plans[id].consumedAt.Some? <==> consumes || (taken && !Releases(op, id))))
  {
  }

  /** Without faults the registry is its history: known iff created, held iff consumed and not released since. */
  lemma {:induction false} RegistryIsHistory(ops: seq<Op>, id: string)
    requires FreshIds(ops) && Faultless(ops)
    ensures id in After(ops).memory.plans <==> Created(ops, id)
    ensures Created(ops, id) ==> (After(ops).memory.plans[id].consumedAt.Some? <==> Taken(ops, id))
  {
    hide Step, Taken, Created;
    if ops == [] {
      NoHistory(id);
    } else {
      var front, op := ops[..|ops| - 1], ops[|ops| - 1];
      RegistryIsHistory(front, id);
      TakenOneMore(ops, id);
      CreatedOneMore(ops, id);
      if Creates(op, id) {
        CreatedOnce(ops, id);
        if Taken(front, id) {
          TakenWasCreated(front, id);
        }
      }
      HistoryStep(After(front), op, id, Created(front, id), Taken(front, id));
    }
  }

  lemma {:induction false} NoHistory(id: string)
    ensures !Created([], id) && !Taken([], id)
  {
  }

  lemma {:induction false} CreatedOnce(ops: seq<Op>, id: string)
    requires FreshIds(ops) && ops != [] && Creates(ops[|ops| - 1], id)
    ensures !Created(ops[..|ops| - 1], id)
  {
    var front := ops[..|ops| - 1];
    forall i | 0 <= i < |front| ensures !Creates(front[i], id) {
      assert front[i] == ops[i];
    }
  }

  /** Without faults a consumption succeeds if and only if the plan was created, is not taken, in time and approved. */
  lemma {:induction false} ConsumesIff(ops: seq<Op>, j: nat)
    requires j < |ops| && ops[j].Consume? && FreshIds(ops) && Faultless(ops)
    ensures Consumes(ops, j, ops[j].id) <==>
            !Taken(ops[..j], ops[j].id) &&
            exists i :: 0 <= i < j && Creates(ops[i], ops[j].id) &&
                        ops[j].now <= ops[i].now + PLAN_TTL && (ops[i].dryRun || ops[j].approved)
  {
    hide After, Taken;
    var front, id := ops[..j], ops[j].id;
    RegistryIsHistory(front, id);
    PlansComeFromCreations(front);
    StatusAgrees(front);
    assert forall i :: 0 <= i < j ==> front[i] == ops[i];
    if id in After(front).memory.plans {
      var p := After(front).memory.plans[id];
      assert FromCreation(front, id, p);
      var i :| 0 <= i < |front| && Creates(front[i], id) &&
               p.dryRun == front[i].dryRun && p.createdAt == front[i].now && p.project == front[i].project;
      assert forall c :: 0 <= c < j && Creates(ops[c], id) ==> c == i;
    }
  }

  // ---------------------------------------------------------------- the audit trail

  /** The untrimmed trails that go with memory and with the file. */
  datatype Trails = Trails(memory: seq<AuditEntry>, disk: seq<AuditEntry>)

  /** A restart falls back to the trail of the last save; an unreadable file starts a new one. */
  function TrailsAfter(ops: seq<Op>): Trails {
    if ops == [] then Trails([], [])
    else
      var front, op := ops[..|ops| - 1], ops[|ops| - 1];
      var t := TrailsAfter(front);
      if op.Restart? then t.(memory := if op.readable then t.disk else [])
      else
        var grown := t.memory + Entries(After(front), op);
        Trails(grown, if Saves(After(front), op) then grown else t.disk)
  }

  /** The operation gets as far as a save that works. */
  predicate Saves(s: State, op: Op) {
    match op
    case Restart(_) => false
    case Consume(_, _, _, _, _, works) => Check(s.memory, op) == Done && works
    case Release(id, works) => id in s.memory.plans && works
    case UpdateSnapshot(jobId, _, _, works) => jobId in s.memory.jobs && works
    case _ => op.saveWorks
  }

  lemma {:induction false} LastEntriesOfLast(log: seq<AuditEntry>, more: seq<AuditEntry>)
    ensures LastEntries(LastEntries(log) + more) == LastEntries(log + more)
  {
    if |log| > AUDIT_LIMIT {
      var cut := |log| - AUDIT_LIMIT;
      assert LastEntries(log) + more == (log + more)[cut..];
    }
  }

  lemma {:induction false} AuditStep(s: State, op: Op)
    requires !op.Restart?
    requires |s.memory.audit| <= AUDIT_LIMIT
    ensures Step(s, op).0.memory.audit == LastEntries(s.memory.audit + Entries(s, op))
  {
    hide Check, Entries, Idle;
    if op.Release? || op.UpdateSnapshot? || (op.Consume? && Check(s.memory, op) != Done) {
      NoEntries(s, op);
    }
    assert s.memory.audit + [] == s.memory.audit;
  }

  lemma {:induction false} NoEntries(s: State, op: Op)
    requires op.Release? || op.UpdateSnapshot? || (op.Consume? && Check(s.memory, op) != Done)
    ensures Entries(s, op) == []
  {
    hide Check;
  }

  lemma {:induction false} SaveStep(s: State, op: Op)
    requires !op.Restart?
    ensures Step(s, op).0.disk == if Saves(s, op) then Some(Step(s, op).0.memory) else s.disk
  {
    hide Check, Entries, LastEntries, Idle;
  }

  /** The audit is the last 500 entries of the full trail, in memory and in the file. */
  lemma {:induction false} AuditIsLastEntries(ops: seq<Op>)
    ensures After(ops).memory.audit == LastEntries(TrailsAfter(ops).memory)
    ensures After(ops).disk.Some? ==> After(ops).disk.value.audit == LastEntries(TrailsAfter(ops).disk)
    ensures After(ops).disk.None? ==> TrailsAfter(ops).disk == []
  {
    hide Step, Entries, Saves;
    if ops != [] {
      var front, op := ops[..|ops| - 1], ops[|ops| - 1];
      AuditIsLastEntries(front);
      if op.Restart? {
        RestartAudit(After(front), op);
      } else {
        AuditStep(After(front), op);
        SaveStep(After(front), op);
        LastEntriesOfLast(TrailsAfter(front).memory, Entries(After(front), op));
      }
    }
  }

  lemma {:induction false} RestartAudit(s: State, op: Op)
    requires op.Restart?
    ensures Step(s, op).0 == s.(memory := if op.readable && s.disk.Some? then s.disk.value else EMPTY)
  {
  }

  /** The entries of all operations, in order. */
  function AllEntries(ops: seq<Op>): seq<AuditEntry> {
    if ops == [] then []
    else AllEntries(ops[..|ops| - 1]) + Entries(After(ops[..|ops| - 1]), ops[|ops| - 1])
  }

  /** Without faults the audit holds the last 500 of all events of the run, on disk as in memory. */
  lemma {:induction false} AuditIsLastEvents(ops: seq<Op>)
    requires Faultless(ops)
    ensures After(ops).memory.audit == LastEntries(AllEntries(ops))
    ensures After(ops).disk.Some? ==> After(ops).disk.value.audit == LastEntries(AllEntries(ops))
    ensures After(ops).disk.None? ==> AllEntries(ops) == []
  {
    hide Step;
    AuditIsLastEntries(ops);
    TrailIsAllEntries(ops);
  }

  lemma {:induction false} TrailIsAllEntries(ops: seq<Op>)
    requires Faultless(ops)
    ensures TrailsAfter(ops).memory == TrailsAfter(ops).disk == AllEntries(ops)
  {
    hide Step, Saves, Entries;
    if ops != [] {
      TrailIsAllEntries(ops[..|ops| - 1]);
      var s, op := After(ops[..|ops| - 1]), ops[|ops| - 1];
      SavesWhatItRecords(s, op);
      assert AllEntries(ops[..|ops| - 1]) + [] == AllEntries(ops[..|ops| - 1]);
    }
  }

  lemma {:induction false} SavesWhatItRecords(s: State, op: Op)
    requires !op.Restart? && op.saveWorks
    ensures Saves(s, op) || Entries(s, op) == []
  {
  }

  /** What a successful operation saved survives an immediate restart. */
  lemma {:induction false} RestartRestores(ops: seq<Op>, op: Op)
    requires Saves(After(ops), op)
    ensures After(ops + [op, Restart(true)]).memory == After(ops + [op]).memory
  {
    hide After, Step;
    var s := After(ops);
    assert (ops + [op])[..|ops|] == ops;
    assert (ops + [op, Restart(true)])[..|ops| + 1] == ops + [op];
    AfterOneMore(ops + [op], |ops|);
    AfterOneMore(ops + [op, Restart(true)], |ops| + 1);
    assert (ops + [op])[..|ops| + 1] == ops + [op];
    assert (ops + [op, Restart(true)])[..|ops| + 2] == ops + [op, Restart(true)];
    SavedIsOnDisk(s, op);
    RestartReads(After(ops + [op]));
  }

  lemma {:induction false} SavedIsOnDisk(s: State, op: Op)
    requires Saves(s, op)
    ensures Step(s, op).0.disk == Some(Step(s, op).0.memory)
  {
  }

  lemma {:induction false} RestartReads(s: State)
    requires s.disk.Some?
    ensures Step(s, Restart(true)).0.memory == s.disk.value
  {
  }
}
