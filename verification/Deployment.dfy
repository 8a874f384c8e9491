/**
 * One application of the host as a crash-prone concurrent machine
 * (crates/bicdb-app-host/src/server.rs, over the migrations of database.rs and the
 * atomic file replacement of store.rs).
 *
 * Every lock-protected section is one step. At most one administrative operation
 * and one supervisor round are in progress; query threads, retirements of timed-out
 * executions and crashes interleave with them at will, and every step that can fail
 * may fail. Releases are content-addressed, so a release stands for its digest.
 */
module Deployment {
  import opened Prelude
  import opened Migrations

  // ---------------------------------------------------------------- state

  type Token = nat

  datatype Release = Release(digest: string, migrations: seq<Migration>)

  /** The record kept in deployment.json. */
  datatype Record = Record(release: Release, previous: Option<Release>, generation: nat, enabled: bool)

  const MAX_GENERATION: nat := 0xFFFF_FFFF_FFFF_FFFF

  datatype Execution = Execution(release: Release, token: Token)

  datatype App = App(deployment: Record, release: Release, process: Option<Execution>, token: Token)

  datatype Kind = Deploying | Launching | Stopping | Restarting | Recovering

  datatype Stage =
    | Fencing                              // replace the token
    | Draining                             // drop the running execution
    | Recording                            // set the non-serving record in memory
    | Loading                              // set the release in memory
    | Persisting                           // write the non-serving record
    | Locking                              // wait for the database lock
    | Preparing                            // migrate, holding the lock
    | Closing                              // release the lock after a stop
    | Installing                           // hand a fresh token to a new execution
    | Starting(token: Token)               // wait until it is ready
    | Publishing(execution: Execution)     // write the serving record
    | Occupying(execution: Execution)      // fill the execution slot
    | Enabling(execution: Execution)       // set the serving record in memory
    | Failing                              // replace the token after a failed activation
    | Disabling                            // write the non-serving record again
    | Disabled                             // set it in memory

  /** `target.release` is the code to run, `prepared` the release whose migrations are applied. */
  datatype Task = Task(kind: Kind, target: Record, prepared: Release, stage: Stage)

  datatype Actor = Admin | Supervisor

  datatype Holder = Nobody | Working(actor: Actor) | Querying(id: nat)

  datatype Query = Admitted(token: Token) | Executing(token: Token)

  /** `disk` and `history` survive a crash; `issued` records which release each token was given to. */
  datatype Host = Host(
    disk: Option<Record>, history: seq<Migration>,
    up: bool, app: Option<App>, admin: Option<Task>, gated: bool, supervisor: Option<Task>,
    lock: Holder, queries: map<nat, Query>, next: Token, issued: map<Token, Release>)

  const INITIAL := Host(None, [], false, None, None, false, None, Nobody, map[], 0, map[])

  // ---------------------------------------------------------------- steps

  /** How a fallible section ends; a file replacement may fail after it has taken effect. */
  datatype Outcome = Succeeds | Fails | FailsLate

  datatype Step =
    | Deploy(release: Release)
    | Start
    | Stop
    | Rollback
    | Supervise
    | Recover
    | Advance(actor: Actor, outcome: Outcome)
    | Retire
    | Admit(id: nat, bearer: Token)
    | Enter(id: nat)
    | Leave(id: nat)
    | Crash

  function WithApp(s: Host, app: App): Host {
    s.(app := Some(app))
  }

  /** Installs a token that no execution has ever been given. */
  function Rotated(s: Host, app: App): Host {
    s.(app := Some(app.(token := s.next)), next := s.next + 1)
  }

  function TaskOf(s: Host, actor: Actor): Option<Task> {
    if actor.Admin? then s.admin else s.supervisor
  }

  function At(s: Host, actor: Actor, task: Task, stage: Stage): Host {
    if actor.Admin? then s.(admin := Some(task.(stage := stage)))
    else s.(supervisor := Some(task.(stage := stage)))
  }

  function Finished(s: Host, actor: Actor): Host {
    if actor.Admin? then s.(admin := None, gated := false, up := true) else s.(supervisor := None)
  }

  function NonServing(record: Record): Record {
    record.(enabled := false)
  }

  /** What follows a failed preparation or activation. */
  function Abandoned(s: Host, actor: Actor, task: Task, app: App): Host {
    match task.kind
    case Deploying => At(s, actor, task, Failing)
    case Restarting => Finished(Rotated(s, app), actor)
    case _ => Finished(s, actor)
  }

  /** The write of `record`, then `next` on success and the end of the operation otherwise. */
  function Written(s: Host, actor: Actor, task: Task, record: Record, next: Stage, outcome: Outcome): Host {
    match outcome
    case Succeeds => At(s.(disk := Some(record)), actor, task, next)
    case Fails => Finished(s, actor)
    case FailsLate => Finished(s.(disk := Some(record)), actor)
  }

  function Prepared(s: Host, actor: Actor, task: Task, app: App, outcome: Outcome): Host {
    var wanted := task.prepared.migrations;
    if !outcome.Succeeds? || !(s.history <= wanted) then
      Abandoned(s.(lock := Nobody), actor, task, app)
    else if s.history == wanted then
      At(s.(lock := Nobody), actor, task, if task.kind.Launching? then Loading else Installing)
    else s.(history := s.history + [wanted[|s.history|]])
  }

  function Advanced(s: Host, actor: Actor, task: Task, app: App, outcome: Outcome): Option<Host> {
    match task.stage
    case Fencing => Some(At(Rotated(s, app), actor, task, Draining))
    case Draining =>
      Some(At(WithApp(s, app.(process := None)), actor, task,
              if task.kind.Deploying? then Recording else Persisting))
    case Recording =>
      Some(At(WithApp(s, app.(deployment := NonServing(task.target))), actor, task,
              if task.kind.Deploying? then Loading else Fencing))
    case Loading =>
      Some(At(WithApp(s, app.(release := task.target.release)), actor, task,
              if task.kind.Deploying? then Persisting else Installing))
    case Persisting => Some(Written(s, actor, task, NonServing(task.target), Locking, outcome))
    case Locking =>
      if s.lock.Nobody? then
        Some(At(s.(lock := Working(actor)), actor, task, if task.kind.Stopping? then Closing else Preparing))
      else None
    case Preparing => Some(Prepared(s, actor, task, app, outcome))
    case Closing => Some(Finished(s.(lock := Nobody), actor))
    case Installing =>
      if outcome.Succeeds? then
        Some(At(Rotated(s, app).(issued := s.issued[s.next := task.target.release]),
                actor, task, Starting(s.next)))
      else Some(Abandoned(s, actor, task, app))
    case Starting(token) =>
      if outcome.Succeeds? then
        var execution := Execution(task.target.release, token);
        Some(At(s, actor, task,
                if task.kind.Deploying? || task.kind.Launching? then Publishing(execution)
                else Occupying(execution)))
      else
        var revoked := Rotated(s, app);
        Some(Abandoned(revoked, actor, task, revoked.app.value))
    case Publishing(execution) =>
      Some(Written(s, actor, task, task.target,
                   if task.kind.Deploying? then Occupying(execution) else Enabling(execution), outcome))
    case Occupying(execution) =>
      var filled := WithApp(s, app.(process := Some(execution)));
      Some(if task.kind.Deploying? then At(filled, actor, task, Enabling(execution)) else Finished(filled, actor))
    case Enabling(execution) =>
      var serving := WithApp(s, app.(deployment := task.target));
      Some(if task.kind.Deploying? then Finished(serving, actor) else At(serving, actor, task, Occupying(execution)))
    case Failing => Some(At(Rotated(s, app), actor, task, Disabling))
    case Disabling => Some(Written(s, actor, task, NonServing(task.target), Disabled, outcome))
    case Disabled => Some(Finished(WithApp(s, app.(deployment := NonServing(task.target))), actor))
  }

  /** The management lock is free; an existing application's gate is free too. */
  predicate AdminFree(s: Host) {
    s.up && s.admin.None? && (s.app.Some? ==> s.supervisor.None?)
  }

  function BeginDeploy(s: Host, release: Release): Option<Host> {
    if !AdminFree(s) then None
    else match s.app
      case None =>
        // A new application is created before its gate can be taken.
        var target := Record(release, None, 1, true);
        Some(s.(app := Some(App(NonServing(target), release, None, s.next)), next := s.next + 1,
                admin := Some(Task(Deploying, target, release, Fencing)), gated := false))
      case Some(app) =>
        if app.deployment.generation >= MAX_GENERATION then None
        else
          var replaced := app.deployment.release;
          var target := Record(release, if replaced == release then None else Some(replaced),
                               app.deployment.generation + 1, true);
          Some(s.(admin := Some(Task(Deploying, target, release, Fencing)), gated := true))
  }

  function BeginRecover(s: Host): Option<Host> {
    if s.up || s.admin.Some? then None
    else match s.disk
      case None => Some(s.(up := true))
      case Some(record) =>
        var created := s.(app := Some(App(record, record.release, None, s.next)), next := s.next + 1);
        Some(if record.enabled
             then created.(admin := Some(Task(Recovering, record, record.release, Locking)), gated := false)
             else created.(up := true))
  }

  function BeginOperation(s: Host, step: Step): Option<Host>
    requires step.Start? || step.Stop? || step.Rollback? || step.Supervise?
  {
    if s.app.None? then None
    else
      var app := s.app.value;
      if step.Supervise? then
        if s.up && s.supervisor.None? && !s.gated && app.deployment.enabled then
          var vacated := Rotated(s, app.(process := None));
          Some(vacated.(supervisor := Some(Task(Restarting, app.deployment, app.release, Locking))))
        else None
      else if !AdminFree(s) then None
      else if step.Start? then
        if app.process.Some? then None
        else
          var target := app.deployment.(enabled := true);
          Some(s.(admin := Some(Task(Launching, target, target.release, Locking)), gated := true))
      else if step.Stop? then
        var target := NonServing(app.deployment);
        Some(s.(admin := Some(Task(Stopping, target, target.release, Recording)), gated := true))
      else if app.deployment.previous.None? then None
      else BeginDeploy(s, app.deployment.previous.value)
  }

  function QueryStep(s: Host, step: Step): Option<Host>
    requires step.Admit? || step.Enter? || step.Leave?
  {
    match step
    case Admit(id, bearer) =>
      // A token is known only to the execution it was issued to.
      if s.app.Some? && id !in s.queries && bearer in s.issued && bearer == s.app.value.token
      then Some(s.(queries := s.queries[id := Admitted(bearer)])) else None
    case Enter(id) =>
      if s.app.Some? && id in s.queries && s.queries[id].Admitted? && s.lock.Nobody? then
        var token := s.queries[id].token;
        if token == s.app.value.token
        then Some(s.(queries := s.queries[id := Executing(token)], lock := Querying(id)))
        else Some(s.(queries := s.queries - {id}))
      else None
    case Leave(id) =>
      if id in s.queries && s.queries[id].Executing?
      then Some(s.(queries := s.queries - {id}, lock := Nobody)) else None
  }

  /** The state after one step, or nothing when the step is not possible. */
  function Apply(s: Host, step: Step): Option<Host> {
    match step
    case Deploy(release) => BeginDeploy(s, release)
    case Recover => BeginRecover(s)
    case Advance(actor, outcome) =>
      var task := TaskOf(s, actor);
      if task.Some? && s.app.Some? then Advanced(s, actor, task.value, s.app.value, outcome) else None
    case Retire =>
      if s.app.Some? && s.app.value.process.Some?
      then Some(Rotated(s, s.app.value.(process := None))) else None
    case Crash =>
      Some(s.(up := false, app := None, admin := None, gated := false, supervisor := None,
              lock := Nobody, queries := map[]))
    case Admit(_, _) => QueryStep(s, step)
    case Enter(_) => QueryStep(s, step)
    case Leave(_) => QueryStep(s, step)
    case _ => BeginOperation(s, step)
  }

  /** The state after a run of steps, or nothing when some step of it is not possible. */
  function Run(s: Host, steps: seq<Step>): Option<Host> {
    if steps == [] then Some(s)
    else
      var before := Run(s, steps[..|steps| - 1]);
      if before.Some? then Apply(before.value, steps[|steps| - 1]) else None
  }

  // ---------------------------------------------------------------- the invariant

  predicate Runs(s: Host, release: Release) {
    s.history == release.migrations
  }

  /** From the successful preparation on, until the end of the operation. */
  predicate IsPrepared(task: Task) {
    match task.stage
    case Loading => task.kind.Launching?
    case Installing | Starting(_) | Publishing(_) | Occupying(_) | Enabling(_) => true
    case _ => false
  }

  predicate StageFits(task: Task) {
    match task.kind
    case Deploying => !task.stage.Closing?
    case Launching =>
      task.stage.Locking? || task.stage.Preparing? || task.stage.Loading? || task.stage.Installing?
      || task.stage.Starting? || task.stage.Publishing? || task.stage.Enabling? || task.stage.Occupying?
    case Stopping =>
      task.stage.Recording? || task.stage.Fencing? || task.stage.Draining? || task.stage.Persisting?
      || task.stage.Locking? || task.stage.Closing?
    case Restarting | Recovering =>
      task.stage.Locking? || task.stage.Preparing? || task.stage.Installing? || task.stage.Starting?
      || task.stage.Occupying?
  }

  /** Stages at which the operation has set the application's record to its target's release. */
  predicate HasRecorded(task: Task) {
    !(task.kind.Deploying? && (task.stage.Fencing? || task.stage.Draining? || task.stage.Recording?))
  }

  /** Stages at which the execution slot is known to be empty. */
  predicate HasVacated(task: Task) {
    match task.kind
    case Stopping => task.stage.Persisting? || task.stage.Locking? || task.stage.Closing?
    case Deploying => !task.stage.Fencing? && !task.stage.Draining? && !task.stage.Enabling?
    case _ => true
  }

  /** Stages at which the token in force is known not to have been given to anyone. */
  predicate IsFenced(task: Task) {
    match task.kind
    case Launching => false
    case Stopping => task.stage.Draining? || HasVacated(task)
    case Deploying =>
      task.stage.Draining? || task.stage.Recording? || task.stage.Loading? || task.stage.Persisting?
      || task.stage.Locking? || task.stage.Preparing? || task.stage.Installing?
      || task.stage.Disabling? || task.stage.Disabled?
    case Restarting | Recovering =>
      task.stage.Locking? || task.stage.Preparing? || task.stage.Installing?
  }

  predicate TaskInv(s: Host, actor: Actor, task: Task, app: App) {
    && StageFits(task)
    && task.prepared == task.target.release
    && (HasRecorded(task) ==> app.deployment.release == task.target.release)
    && (!(task.kind.Deploying? && task.stage.Loading?) ==> app.release == app.deployment.release)
    && (HasVacated(task) ==> app.process.None?)
    && (IsFenced(task) ==> app.token !in s.issued)
    && (IsPrepared(task) ==> Runs(s, task.prepared))
    && (task.stage.Preparing? || task.stage.Closing? <==> s.lock == Working(actor))
    && (task.stage.Starting? ==> HoldsToken(s, app, task.target.release, task.stage.token))
    && (task.stage.Publishing? || task.stage.Occupying? ||
        (task.stage.Enabling? && task.kind.Launching?) ==>
          && task.stage.execution.release == task.target.release
          && HoldsToken(s, app, task.target.release, task.stage.execution.token))
    && (task.kind.Deploying? && !s.gated ==> !app.deployment.enabled)
  }

  predicate HoldsToken(s: Host, app: App, release: Release, token: Token) {
    app.token == token && token in s.issued && s.issued[token] == release
  }

  predicate AppInv(s: Host, app: App) {
    && app.token < s.next
    && (app.token in s.issued ==>
          && s.issued[app.token] == app.deployment.release
          && Runs(s, s.issued[app.token]))
    && (app.process.Some? ==>
          && app.process.value.token in s.issued
          && s.issued[app.process.value.token] == app.process.value.release
          && Runs(s, app.process.value.release))
    && (s.admin.None? && s.supervisor.None? ==>
          app.release == app.deployment.release && !s.lock.Working?)
  }

  predicate QueryInv(s: Host) {
    && (forall id :: id in s.queries ==> s.queries[id].token in s.issued)
    && (forall id :: id in s.queries && s.queries[id].Executing? ==>
          s.lock == Querying(id) && Runs(s, s.issued[s.queries[id].token]))
    && (s.lock.Querying? ==> s.lock.id in s.queries && s.queries[s.lock.id].Executing?)
  }

  predicate Inv(s: Host) {
    && (forall token :: token in s.issued ==> token < s.next)
    && (s.app.None? ==>
          && s.admin.None? && s.supervisor.None? && s.lock.Nobody? && s.queries == map[])
    && (s.supervisor.Some? ==> s.admin.None? && s.up)
    && (s.admin.None? ==> !s.gated)
    && (s.admin.Some? ==> (s.up <==> !s.admin.value.kind.Recovering?) && !s.admin.value.kind.Restarting?)
    && (s.admin.Some? && !s.gated ==> s.admin.value.kind.Deploying? || s.admin.value.kind.Recovering?)
    && (s.supervisor.Some? ==> s.supervisor.value.kind.Restarting?)
    && (!s.up && s.admin.None? ==> s.app.None?)
    && QueryInv(s)
    && (s.app.Some? ==> AppInv(s, s.app.value))
    && (s.admin.Some? ==> s.app.Some? && TaskInv(s, Admin, s.admin.value, s.app.value))
    && (s.supervisor.Some? ==> s.app.Some? && TaskInv(s, Supervisor, s.supervisor.value, s.app.value))
    && (s.lock.Working? ==> TaskOf(s, s.lock.actor).Some?)
  }

  lemma DeployKeepsInv(s: Host, release: Release)
    requires Inv(s) && BeginDeploy(s, release).Some?
    ensures Inv(BeginDeploy(s, release).value)
  {
  }

  lemma RecoverKeepsInv(s: Host)
    requires Inv(s) && BeginRecover(s).Some?
    ensures Inv(BeginRecover(s).value)
  {
  }

  lemma OperationKeepsInv(s: Host, step: Step)
    requires step.Start? || step.Stop? || step.Rollback? || step.Supervise?
    requires Inv(s) && BeginOperation(s, step).Some?
    ensures Inv(BeginOperation(s, step).value)
  {
    if step.Rollback? {
      DeployKeepsInv(s, s.app.value.deployment.previous.value);
    }
  }

  lemma RetireKeepsInv(s: Host)
    requires Inv(s) && Apply(s, Retire).Some?
    ensures Inv(Apply(s, Retire).value)
  {
  }

  lemma AdmitKeepsInv(s: Host, id: nat, bearer: Token)
    requires Inv(s) && QueryStep(s, Admit(id, bearer)).Some?
    ensures Inv(QueryStep(s, Admit(id, bearer)).value)
  {
  }

  lemma EnterKeepsInv(s: Host, id: nat)
    requires Inv(s) && QueryStep(s, Enter(id)).Some?
    ensures Inv(QueryStep(s, Enter(id)).value)
  {
    var s' := QueryStep(s, Enter(id)).value;
    var token := s.queries[id].token;
    assert forall other :: other in s.queries ==> s.queries[other].Admitted?;
    assert token == s.app.value.token ==> Runs(s, s.issued[token]);
    assert QueryInv(s');
  }

  lemma LeaveKeepsInv(s: Host, id: nat)
    requires Inv(s) && QueryStep(s, Leave(id)).Some?
    ensures Inv(QueryStep(s, Leave(id)).value)
  {
  }

  lemma CrashKeepsInv(s: Host)
    requires Inv(s)
    ensures Inv(Apply(s, Crash).value)
  {
  }

  predicate AtWork(s: Host, actor: Actor, task: Task, app: App) {
    Inv(s) && TaskOf(s, actor) == Some(task) && s.app == Some(app)
  }

  lemma FenceKeepsInv(s: Host, actor: Actor, task: Task, app: App, outcome: Outcome)
    requires AtWork(s, actor, task, app)
    requires task.stage.Fencing? || task.stage.Draining? || task.stage.Failing?
    ensures Inv(Advanced(s, actor, task, app, outcome).value)
  {
    match task.stage
    case Fencing =>
    case Draining =>
    case _ =>
  }

  lemma RecordKeepsInv(s: Host, actor: Actor, task: Task, app: App, outcome: Outcome)
    requires AtWork(s, actor, task, app)
    requires task.stage.Recording? || task.stage.Loading? || task.stage.Disabled?
    ensures Inv(Advanced(s, actor, task, app, outcome).value)
  {
    match task.stage
    case Recording =>
    case Loading =>
    case _ =>
  }

  lemma WithdrawKeepsInv(s: Host, actor: Actor, task: Task, app: App, outcome: Outcome)
    requires AtWork(s, actor, task, app)
    requires task.stage.Persisting? || task.stage.Disabling?
    ensures Inv(Advanced(s, actor, task, app, outcome).value)
  {
  }

  lemma PublishKeepsInv(s: Host, actor: Actor, task: Task, app: App, outcome: Outcome)
    requires AtWork(s, actor, task, app)
    requires task.stage.Publishing?
    ensures Inv(Advanced(s, actor, task, app, outcome).value)
  {
  }

  lemma LockKeepsInv(s: Host, actor: Actor, task: Task, app: App, outcome: Outcome)
    requires AtWork(s, actor, task, app)
    requires task.stage.Locking? || task.stage.Closing?
    requires Advanced(s, actor, task, app, outcome).Some?
    ensures Inv(Advanced(s, actor, task, app, outcome).value)
  {
    match task.stage
    case Locking =>
    case _ =>
  }

  lemma RefusalKeepsInv(s: Host, actor: Actor, task: Task, app: App, outcome: Outcome)
    requires AtWork(s, actor, task, app)
    requires task.stage.Preparing? && (!outcome.Succeeds? || !(s.history <= task.prepared.migrations))
    ensures Inv(Prepared(s, actor, task, app, outcome))
  {
  }

  lemma MigrationKeepsInv(s: Host, actor: Actor, task: Task, app: App)
    requires AtWork(s, actor, task, app)
    requires task.stage.Preparing? && s.history < task.prepared.migrations
    ensures Inv(Prepared(s, actor, task, app, Succeeds))
  {
    assert app.token !in s.issued;
    assert app.process.None?;
  }

  lemma CompletionKeepsInv(s: Host, actor: Actor, task: Task, app: App)
    requires AtWork(s, actor, task, app)
    requires task.stage.Preparing? && s.history == task.prepared.migrations
    ensures Inv(Prepared(s, actor, task, app, Succeeds))
  {
  }

  lemma InstallKeepsInv(s: Host, actor: Actor, task: Task, app: App, outcome: Outcome)
    requires AtWork(s, actor, task, app)
    requires task.stage.Installing? && outcome.Succeeds?
    ensures Inv(Advanced(s, actor, task, app, outcome).value)
  {
    match task.kind
    case Deploying =>
    case Launching =>
    case _ =>
  }

  lemma NoInstallKeepsInv(s: Host, actor: Actor, task: Task, app: App, outcome: Outcome)
    requires AtWork(s, actor, task, app)
    requires task.stage.Installing? && !outcome.Succeeds?
    ensures Inv(Advanced(s, actor, task, app, outcome).value)
  {
  }

  lemma ReadyKeepsInv(s: Host, actor: Actor, task: Task, app: App)
    requires AtWork(s, actor, task, app)
    requires task.stage.Starting?
    ensures Inv(Advanced(s, actor, task, app, Succeeds).value)
  {
    match task.kind
    case Deploying =>
    case Launching =>
    case _ =>
  }

  lemma NotReadyKeepsInv(s: Host, actor: Actor, task: Task, app: App, outcome: Outcome)
    requires AtWork(s, actor, task, app)
    requires task.stage.Starting? && !outcome.Succeeds?
    ensures Inv(Advanced(s, actor, task, app, outcome).value)
  {
    match task.kind
    case Deploying =>
    case Restarting =>
    case _ =>
  }

  lemma OccupyKeepsInv(s: Host, actor: Actor, task: Task, app: App, outcome: Outcome)
    requires AtWork(s, actor, task, app)
    requires task.stage.Occupying? && actor.Admin?
    ensures Inv(Advanced(s, actor, task, app, outcome).value)
  {
    match task.kind
    case Deploying =>
    case _ =>
  }

  lemma ReoccupyKeepsInv(s: Host, actor: Actor, task: Task, app: App, outcome: Outcome)
    requires AtWork(s, actor, task, app)
    requires task.stage.Occupying? && actor.Supervisor?
    ensures Inv(Advanced(s, actor, task, app, outcome).value)
  {
  }

  lemma EnableKeepsInv(s: Host, actor: Actor, task: Task, app: App, outcome: Outcome)
    requires AtWork(s, actor, task, app)
    requires task.stage.Enabling?
    ensures Inv(Advanced(s, actor, task, app, outcome).value)
  {
  }

  lemma AdvanceKeepsInv(s: Host, actor: Actor, outcome: Outcome)
    requires Inv(s) && Apply(s, Advance(actor, outcome)).Some?
    ensures Inv(Apply(s, Advance(actor, outcome)).value)
  {
    var task, app := TaskOf(s, actor).value, s.app.value;
    match task.stage
    case Fencing | Draining | Failing => FenceKeepsInv(s, actor, task, app, outcome);
    case Recording | Loading | Disabled => RecordKeepsInv(s, actor, task, app, outcome);
    case Persisting | Disabling => WithdrawKeepsInv(s, actor, task, app, outcome);
    case Publishing(_) => PublishKeepsInv(s, actor, task, app, outcome);
    case Locking | Closing => LockKeepsInv(s, actor, task, app, outcome);
    case Preparing =>
      if !outcome.Succeeds? || !(s.history <= task.prepared.migrations) {
        RefusalKeepsInv(s, actor, task, app, outcome);
      } else if s.history == task.prepared.migrations {
        CompletionKeepsInv(s, actor, task, app);
      } else {
        MigrationKeepsInv(s, actor, task, app);
      }
    case Installing =>
      if outcome.Succeeds? {
        InstallKeepsInv(s, actor, task, app, outcome);
      } else {
        NoInstallKeepsInv(s, actor, task, app, outcome);
      }
    case Starting(_) =>
      if outcome.Succeeds? {
        ReadyKeepsInv(s, actor, task, app);
      } else {
        NotReadyKeepsInv(s, actor, task, app, outcome);
      }
    case Occupying(_) =>
      if actor.Admin? {
        OccupyKeepsInv(s, actor, task, app, outcome);
      } else {
        ReoccupyKeepsInv(s, actor, task, app, outcome);
      }
    case Enabling(_) => EnableKeepsInv(s, actor, task, app, outcome);
  }

  lemma StepKeepsInv(s: Host, step: Step)
    requires Inv(s) && Apply(s, step).Some?
    ensures Inv(Apply(s, step).value)
  {
    match step
    case Deploy(release) => DeployKeepsInv(s, release);
    case Recover => RecoverKeepsInv(s);
    case Advance(actor, outcome) => AdvanceKeepsInv(s, actor, outcome);
    case Retire => RetireKeepsInv(s);
    case Crash => CrashKeepsInv(s);
    case Admit(id, bearer) => AdmitKeepsInv(s, id, bearer);
    case Enter(id) => EnterKeepsInv(s, id);
    case Leave(id) => LeaveKeepsInv(s, id);
    case Start | Stop | Rollback | Supervise => OperationKeepsInv(s, step);
  }

  lemma {:induction false} RunKeepsInv(s: Host, steps: seq<Step>)
    requires Inv(s) && Run(s, steps).Some?
    ensures Inv(Run(s, steps).value)
  {
    if steps != [] {
      var before := steps[..|steps| - 1];
      RunKeepsInv(s, before);
      StepKeepsInv(Run(s, before).value, steps[|steps| - 1]);
    }
  }

  // ---------------------------------------------------------------- code never meets a foreign schema

  /**
   * In every run: an occupied slot holds a release whose migrations are exactly the
   * applied history, and a query executes only for a release of which that is true.
   */
  lemma NoCodeOnForeignSchema(steps: seq<Step>)
    requires Run(INITIAL, steps).Some?
    ensures var s := Run(INITIAL, steps).value;
            && (s.app.Some? && s.app.value.process.Some? ==>
                  s.history == s.app.value.process.value.release.migrations)
            && (forall id :: id in s.queries && s.queries[id].Executing? ==>
                  && s.queries[id].token in s.issued
                  && s.history == s.issued[s.queries[id].token].migrations)
  {
    RunKeepsInv(INITIAL, steps);
  }

  // ---------------------------------------------------------------- the fence

  /** Between waiting for the database and handing out the new token. */
  predicate IsReplacing(task: Task) {
    task.stage.Locking? || task.stage.Preparing? || task.stage.Installing?
  }

  /**
   * In every run, while a deployment, a supervisor restart or a recovery replaces an
   * execution: once it has the database no query is executing, no query is admitted,
   * and every query admitted earlier is refused when it asks for the database.
   */
  lemma ReplacementIsFenced(steps: seq<Step>, actor: Actor, id: nat, bearer: Token)
    requires Run(INITIAL, steps).Some?
    requires var task := TaskOf(Run(INITIAL, steps).value, actor);
             task.Some? && IsReplacing(task.value) && !task.value.kind.Launching? && !task.value.kind.Stopping?
    ensures var s := Run(INITIAL, steps).value;
            && (TaskOf(s, actor).value.stage.Preparing? ==> id in s.queries ==> s.queries[id].Admitted?)
            && Apply(s, Admit(id, bearer)).None?
            && (Apply(s, Enter(id)).Some? ==> id !in Apply(s, Enter(id)).value.queries)
  {
    RunKeepsInv(INITIAL, steps);
  }

  predicate IsStale(s: Host, token: Token) {
    token < s.next && (s.app.Some? ==> s.app.value.token != token)
  }

  predicate Writes(stage: Stage) {
    stage.Persisting? || stage.Publishing? || stage.Disabling?
  }

  predicate Records(stage: Stage) {
    stage.Recording? || stage.Loading? || stage.Disabled? || stage.Enabling?
  }

  lemma RotationKeepsStale(s: Host, actor: Actor, task: Task, app: App, outcome: Outcome, token: Token)
    requires IsStale(s, token) && s.app == Some(app) && (task.stage.Fencing? || task.stage.Failing?)
    ensures IsStale(Advanced(s, actor, task, app, outcome).value, token)
  {
  }

  lemma ActivationKeepsStale(s: Host, actor: Actor, task: Task, app: App, outcome: Outcome, token: Token)
    requires IsStale(s, token) && s.app == Some(app) && (task.stage.Installing? || task.stage.Starting?)
    ensures IsStale(Advanced(s, actor, task, app, outcome).value, token)
  {
    match task.stage
    case Installing =>
    case _ =>
  }

  lemma PreparationKeepsStale(s: Host, actor: Actor, task: Task, app: App, outcome: Outcome, token: Token)
    requires IsStale(s, token) && s.app == Some(app)
    ensures IsStale(Prepared(s, actor, task, app, outcome), token)
  {
  }

  lemma WriteKeepsStale(s: Host, actor: Actor, task: Task, app: App, outcome: Outcome, token: Token)
    requires IsStale(s, token) && s.app == Some(app) && Writes(task.stage)
    ensures IsStale(Advanced(s, actor, task, app, outcome).value, token)
  {
  }

  lemma RecordKeepsStale(s: Host, actor: Actor, task: Task, app: App, outcome: Outcome, token: Token)
    requires IsStale(s, token) && s.app == Some(app) && Records(task.stage)
    ensures IsStale(Advanced(s, actor, task, app, outcome).value, token)
  {
    match task.stage
    case Recording =>
    case Loading =>
    case Enabling(_) =>
    case _ =>
  }

  lemma SlotKeepsStale(s: Host, actor: Actor, task: Task, app: App, outcome: Outcome, token: Token)
    requires IsStale(s, token) && s.app == Some(app) && Advanced(s, actor, task, app, outcome).Some?
    requires task.stage.Draining? || task.stage.Locking? || task.stage.Closing? || task.stage.Occupying?
    ensures IsStale(Advanced(s, actor, task, app, outcome).value, token)
  {
    match task.stage
    case Draining =>
    case Locking =>
    case Closing =>
    case _ =>
  }

  lemma AdvanceKeepsStale(s: Host, actor: Actor, outcome: Outcome, token: Token)
    requires IsStale(s, token) && Apply(s, Advance(actor, outcome)).Some?
    ensures IsStale(Apply(s, Advance(actor, outcome)).value, token)
  {
    var task, app := TaskOf(s, actor).value, s.app.value;
    match task.stage
    case Fencing | Failing => RotationKeepsStale(s, actor, task, app, outcome, token);
    case Installing | Starting(_) => ActivationKeepsStale(s, actor, task, app, outcome, token);
    case Preparing => PreparationKeepsStale(s, actor, task, app, outcome, token);
    case Persisting | Publishing(_) | Disabling => WriteKeepsStale(s, actor, task, app, outcome, token);
    case Recording | Loading | Disabled | Enabling(_) => RecordKeepsStale(s, actor, task, app, outcome, token);
    case Draining | Locking | Closing | Occupying(_) => SlotKeepsStale(s, actor, task, app, outcome, token);
  }

  lemma StepKeepsStale(s: Host, step: Step, token: Token)
    requires IsStale(s, token) && Apply(s, step).Some? && !step.Advance?
    ensures IsStale(Apply(s, step).value, token)
  {
  }

  /** A replaced token never comes back, so a query that bears it is never accepted. */
  lemma {:induction false} StaleForEver(s: Host, steps: seq<Step>, token: Token)
    requires IsStale(s, token) && Run(s, steps).Some?
    ensures IsStale(Run(s, steps).value, token)
  {
    if steps != [] {
      var before, step := steps[..|steps| - 1], steps[|steps| - 1];
      StaleForEver(s, before, token);
      var now := Run(s, before).value;
      if step.Advance? {
        AdvanceKeepsStale(now, step.actor, step.outcome, token);
      } else {
        StepKeepsStale(now, step, token);
      }
    }
  }

  /** The write that publishes the execution with `token` fails. */
  predicate FailsPublication(s: Host, step: Step, token: Token) {
    && step.Advance? && step.actor.Admin? && !step.outcome.Succeeds?
    && s.admin.Some? && s.admin.value.stage.Publishing? && s.admin.value.stage.execution.token == token
  }

  ghost predicate LostPublication(steps: seq<Step>, token: Token) {
    exists k :: 0 <= k < |steps| && Run(INITIAL, steps[..k]).Some?
                && FailsPublication(Run(INITIAL, steps[..k]).value, steps[k], token)
  }

  /** The operation has an execution with the token, and is about to put it into the slot. */
  predicate HandsOver(task: Option<Task>, token: Token) {
    && task.Some?
    && match task.value.stage
       case Starting(own) => own == token
       case Publishing(execution) => execution.token == token
       case Occupying(execution) => execution.token == token
       case Enabling(execution) => task.value.kind.Launching? && execution.token == token
       case _ => false
  }

  predicate InUse(s: Host, app: App) {
    || (app.process.Some? && app.process.value.token == app.token)
    || HandsOver(s.admin, app.token) || HandsOver(s.supervisor, app.token)
  }

  /** The token in force was handed to an execution that neither runs nor is about to. */
  predicate IsOrphaned(s: Host) {
    s.app.Some? && s.app.value.token in s.issued && !InUse(s, s.app.value)
  }

  /** If the token is orphaned after the step, it was so before, or the step orphans it. */
  predicate OrphansOnlyByLoss(s: Host, step: Step, s': Host) {
    IsOrphaned(s') ==>
      || FailsPublication(s, step, s'.app.value.token)
      || (IsOrphaned(s) && s.app.value.token == s'.app.value.token)
  }

  lemma OperationOrphansNothing(s: Host, step: Step)
    requires Inv(s) && Apply(s, step).Some? && !step.Advance?
    ensures OrphansOnlyByLoss(s, step, Apply(s, step).value)
  {
    match step
    case Deploy(_) =>
    case Rollback =>
    case Recover =>
    case Supervise =>
    case Retire =>
    case _ =>
  }

  lemma FenceOrphansNothing(s: Host, actor: Actor, task: Task, app: App, outcome: Outcome)
    requires AtWork(s, actor, task, app)
    requires task.stage.Fencing? || task.stage.Draining? || task.stage.Failing?
    ensures OrphansOnlyByLoss(s, Advance(actor, outcome), Advanced(s, actor, task, app, outcome).value)
  {
    match task.stage
    case Fencing =>
    case Draining =>
    case _ =>
  }

  lemma RecordOrphansNothing(s: Host, actor: Actor, task: Task, app: App, outcome: Outcome)
    requires AtWork(s, actor, task, app) && Records(task.stage)
    ensures OrphansOnlyByLoss(s, Advance(actor, outcome), Advanced(s, actor, task, app, outcome).value)
  {
    match task.stage
    case Recording =>
    case Loading =>
    case Disabled =>
    case _ =>
  }

  lemma WriteOrphansByLoss(s: Host, actor: Actor, task: Task, app: App, outcome: Outcome)
    requires AtWork(s, actor, task, app) && Writes(task.stage)
    ensures OrphansOnlyByLoss(s, Advance(actor, outcome), Advanced(s, actor, task, app, outcome).value)
  {
    match task.stage
    case Publishing(_) =>
    case _ =>
  }

  lemma LockOrphansNothing(s: Host, actor: Actor, task: Task, app: App, outcome: Outcome)
    requires AtWork(s, actor, task, app) && (task.stage.Locking? || task.stage.Closing?)
    requires Advanced(s, actor, task, app, outcome).Some?
    ensures OrphansOnlyByLoss(s, Advance(actor, outcome), Advanced(s, actor, task, app, outcome).value)
  {
    match task.stage
    case Locking =>
    case _ =>
  }

  lemma PreparationOrphansNothing(s: Host, actor: Actor, task: Task, app: App, outcome: Outcome)
    requires AtWork(s, actor, task, app) && task.stage.Preparing?
    ensures OrphansOnlyByLoss(s, Advance(actor, outcome), Advanced(s, actor, task, app, outcome).value)
  {
  }

  lemma ActivationOrphansNothing(s: Host, actor: Actor, task: Task, app: App, outcome: Outcome)
    requires AtWork(s, actor, task, app) && (task.stage.Installing? || task.stage.Starting? || task.stage.Occupying?)
    ensures OrphansOnlyByLoss(s, Advance(actor, outcome), Advanced(s, actor, task, app, outcome).value)
  {
    match task.stage
    case Installing =>
    case Starting(_) =>
    case _ =>
  }

  lemma StepOrphansByLoss(s: Host, step: Step)
    requires Inv(s) && Apply(s, step).Some?
    ensures OrphansOnlyByLoss(s, step, Apply(s, step).value)
  {
    if !step.Advance? {
      OperationOrphansNothing(s, step);
    } else {
      var actor, outcome, task, app := step.actor, step.outcome, TaskOf(s, step.actor).value, s.app.value;
      match task.stage
      case Fencing | Draining | Failing => FenceOrphansNothing(s, actor, task, app, outcome);
      case Recording | Loading | Disabled | Enabling(_) => RecordOrphansNothing(s, actor, task, app, outcome);
      case Persisting | Publishing(_) | Disabling => WriteOrphansByLoss(s, actor, task, app, outcome);
      case Locking | Closing => LockOrphansNothing(s, actor, task, app, outcome);
      case Preparing => PreparationOrphansNothing(s, actor, task, app, outcome);
      case Installing | Starting(_) | Occupying(_) => ActivationOrphansNothing(s, actor, task, app, outcome);
    }
  }

  /** If the token in force is orphaned, its publication failed earlier in the run. */
  ghost predicate OrphanIsExplained(steps: seq<Step>) {
    Run(INITIAL, steps).Some? && IsOrphaned(Run(INITIAL, steps).value) ==>
      LostPublication(steps, Run(INITIAL, steps).value.app.value.token)
  }

  /** An orphaned token comes from a publication that failed earlier in the run. */
  lemma {:induction false} OrphanedIsLost(steps: seq<Step>)
    ensures OrphanIsExplained(steps)
  {
    if steps != [] {
      OrphanedIsLost(steps[..|steps| - 1]);
      ExplainedNext(steps[..|steps| - 1], steps[|steps| - 1]);
      assert steps[..|steps| - 1] + [steps[|steps| - 1]] == steps;
    }
  }

  lemma ExplainedNext(steps: seq<Step>, step: Step)
    requires OrphanIsExplained(steps)
    ensures OrphanIsExplained(steps + [step])
  {
    assert (steps + [step])[..|steps|] == steps;
    var before := Run(INITIAL, steps);
    if before.Some? && Apply(before.value, step).Some? && IsOrphaned(Apply(before.value, step).value) {
      var token := Apply(before.value, step).value.app.value.token;
      OrphanedBefore(steps, step);
      if FailsPublication(before.value, step, token) {
        LostNow(steps, step, token);
      } else {
        LostEarlier(steps, step, token);
      }
    }
  }

  lemma OrphanedBefore(steps: seq<Step>, step: Step)
    requires Run(INITIAL, steps).Some? && Apply(Run(INITIAL, steps).value, step).Some?
    ensures OrphansOnlyByLoss(Run(INITIAL, steps).value, step, Apply(Run(INITIAL, steps).value, step).value)
  {
    RunKeepsInv(INITIAL, steps);
    StepOrphansByLoss(Run(INITIAL, steps).value, step);
  }

  lemma LostNow(steps: seq<Step>, step: Step, token: Token)
    requires Run(INITIAL, steps).Some? && FailsPublication(Run(INITIAL, steps).value, step, token)
    ensures LostPublication(steps + [step], token)
  {
    var all, k := steps + [step], |steps|;
    assert all[..k] == steps && all[k] == step;
  }

  lemma LostEarlier(steps: seq<Step>, step: Step, token: Token)
    requires LostPublication(steps, token)
    ensures LostPublication(steps + [step], token)
  {
    var k :| 0 <= k < |steps| && Run(INITIAL, steps[..k]).Some?
             && FailsPublication(Run(INITIAL, steps[..k]).value, steps[k], token);
    assert (steps + [step])[..k] == steps[..k] && (steps + [step])[k] == steps[k];
  }

  lemma ActivationKeepsIssued(s: Host, actor: Actor, task: Task, app: App, outcome: Outcome, token: Token)
    requires task.stage.Installing? || task.stage.Starting? || task.stage.Preparing?
    requires token in s.issued
    ensures token in Advanced(s, actor, task, app, outcome).value.issued
  {
    match task.stage
    case Installing =>
    case Starting(_) =>
    case _ =>
  }

  lemma WriteKeepsIssued(s: Host, actor: Actor, task: Task, app: App, outcome: Outcome, token: Token)
    requires Writes(task.stage)
    ensures token in s.issued ==> token in Advanced(s, actor, task, app, outcome).value.issued
  {
  }

  lemma RecordKeepsIssued(s: Host, actor: Actor, task: Task, app: App, outcome: Outcome, token: Token)
    requires Records(task.stage)
    ensures token in s.issued ==> token in Advanced(s, actor, task, app, outcome).value.issued
  {
    match task.stage
    case Recording =>
    case Loading =>
    case Enabling(_) =>
    case Disabled =>
  }

  lemma SlotKeepsIssued(s: Host, actor: Actor, task: Task, app: App, outcome: Outcome, token: Token)
    requires Advanced(s, actor, task, app, outcome).Some?
    requires task.stage.Fencing? || task.stage.Failing? || task.stage.Draining?
             || task.stage.Locking? || task.stage.Closing? || task.stage.Occupying?
    ensures token in s.issued ==> token in Advanced(s, actor, task, app, outcome).value.issued
  {
    match task.stage
    case Fencing =>
    case Failing =>
    case Draining =>
    case Locking =>
    case Closing =>
    case Occupying(_) =>
  }

  lemma OperationKeepsIssued(s: Host, step: Step, token: Token)
    requires Apply(s, step).Some? && !step.Advance?
    ensures token in s.issued ==> token in Apply(s, step).value.issued
  {
  }

  lemma StepKeepsIssued(s: Host, step: Step, token: Token)
    requires Apply(s, step).Some? && token in s.issued
    ensures token in Apply(s, step).value.issued
  {
    if !step.Advance? {
      OperationKeepsIssued(s, step, token);
    } else {
      var task, app := TaskOf(s, step.actor).value, s.app.value;
      if task.stage.Installing? || task.stage.Starting? || task.stage.Preparing? {
        ActivationKeepsIssued(s, step.actor, task, app, step.outcome, token);
      } else if Writes(task.stage) {
        WriteKeepsIssued(s, step.actor, task, app, step.outcome, token);
      } else if Records(task.stage) {
        RecordKeepsIssued(s, step.actor, task, app, step.outcome, token);
      } else {
        SlotKeepsIssued(s, step.actor, task, app, step.outcome, token);
      }
    }
  }

  lemma {:induction false} RunKeepsIssued(steps: seq<Step>, k: nat, token: Token)
    requires k <= |steps| && Run(INITIAL, steps).Some? && Run(INITIAL, steps[..k]).Some?
    requires token in Run(INITIAL, steps[..k]).value.issued
    ensures token in Run(INITIAL, steps).value.issued
  {
    if k == |steps| {
      assert steps[..k] == steps;
    } else {
      var before := steps[..|steps| - 1];
      assert before[..k] == steps[..k];
      RunKeepsIssued(before, k, token);
      StepKeepsIssued(Run(INITIAL, before).value, steps[|steps| - 1], token);
    }
  }

  /** The token of a lost publication was handed out, and stays known. */
  lemma LostIsIssued(steps: seq<Step>, token: Token)
    requires Run(INITIAL, steps).Some? && LostPublication(steps, token)
    ensures token in Run(INITIAL, steps).value.issued
  {
    var k :| 0 <= k < |steps| && Run(INITIAL, steps[..k]).Some?
             && FailsPublication(Run(INITIAL, steps[..k]).value, steps[k], token);
    RunKeepsInv(INITIAL, steps[..k]);
    PublishedIsIssued(Run(INITIAL, steps[..k]).value, steps[k], token);
    RunKeepsIssued(steps, k, token);
  }

  lemma PublishedIsIssued(s: Host, step: Step, token: Token)
    requires Inv(s) && FailsPublication(s, step, token)
    ensures token in s.issued
  {
  }

  /**
   * `start` does not replace the token before it prepares. In every run a query can
   * still be admitted during its preparation exactly when the token in force is that of
   * an execution whose publication failed earlier.
   */
  lemma StartAdmitsIffPublicationLost(steps: seq<Step>)
    requires Run(INITIAL, steps).Some?
    requires var s := Run(INITIAL, steps).value;
             s.admin.Some? && s.admin.value.kind.Launching? && IsReplacing(s.admin.value)
    ensures var s := Run(INITIAL, steps).value;
            s.app.Some? &&
            ((exists id, bearer :: Apply(s, Admit(id, bearer)).Some?) <==> LostPublication(steps, s.app.value.token))
  {
    RunKeepsInv(INITIAL, steps);
    var s := Run(INITIAL, steps).value;
    var token := s.app.value.token;
    if token in s.issued {
      OrphanedIsLost(steps);
      var id := FreshId(s.queries.Keys);
      assert Apply(s, Admit(id, token)).Some?;
    } else if LostPublication(steps, token) {
      LostIsIssued(steps, token);
    }
  }

  /**
   * Such a query does run: after a deployment whose last write failed, one that bears the
   * dropped execution's token executes during the next `start`. (It still meets its own
   * schema, by `NoCodeOnForeignSchema`.)
   */
  lemma LostPublicationLeavesToken(s: Host, id: nat)
    requires Inv(s) && s.lock.Nobody? && id !in s.queries
    requires s.admin.Some? && s.admin.value.kind.Deploying? && s.admin.value.stage.Publishing?
    ensures var token := s.admin.value.stage.execution.token;
            var after := Run(s, [Advance(Admin, Fails), Start, Admit(id, token), Enter(id)]);
            after.Some? && id in after.value.queries && after.value.queries[id] == Executing(token)
            && after.value.admin.Some? && after.value.admin.value.kind.Launching?
  {
    var app, token := s.app.value, s.admin.value.stage.execution.token;
    var steps := [Advance(Admin, Fails), Start, Admit(id, token), Enter(id)];
    var launch := Task(Launching, app.deployment.(enabled := true), app.deployment.release, Locking);
    var s1 := s.(admin := None, gated := false, up := true);
    var s2 := s1.(admin := Some(launch), gated := true);
    var s3 := s2.(queries := s.queries[id := Admitted(token)]);
    var s4 := s2.(queries := s.queries[id := Executing(token)], lock := Querying(id));
    assert Apply(s, steps[0]) == Some(s1);
    assert Apply(s1, steps[1]) == Some(s2);
    assert Apply(s2, steps[2]) == Some(s3);
    assert s3.queries[id := Executing(token)] == s4.queries;
    assert Apply(s3, steps[3]) == Some(s4);
    RunOfFour(s, s1, s2, s3, s4, steps);
  }

  lemma RunOfFour(s: Host, s1: Host, s2: Host, s3: Host, s4: Host, steps: seq<Step>)
    requires |steps| == 4
    requires Apply(s, steps[0]) == Some(s1) && Apply(s1, steps[1]) == Some(s2)
    requires Apply(s2, steps[2]) == Some(s3) && Apply(s3, steps[3]) == Some(s4)
    ensures Run(s, steps) == Some(s4)
  {
    assert steps[..3][..2] == steps[..2] && steps[..2][..1] == steps[..1] && steps[..1][..0] == [];
    assert Run(s, steps[..1]) == Some(s1);
    assert Run(s, steps[..2]) == Some(s2);
    assert Run(s, steps[..3]) == Some(s3);
  }

  lemma FreshId(used: set<nat>) returns (id: nat)
    ensures id !in used
  {
    id := 0;
    var rest := used;
    while id in used
      invariant rest <= used
      invariant forall other :: other in used && other >= id ==> other in rest
      decreases rest
    {
      rest := rest - {id};
      id := id + 1;
    }
  }

  // ---------------------------------------------------------------- what a restart finds

  /** A record that says "enabled" on disk names a release that fits the applied history. */
  predicate DiskFits(s: Host) {
    s.disk.Some? && s.disk.value.enabled ==> Runs(s, s.disk.value.release)
  }

  /**
   * A deployment fails to withdraw an enabled record, and the release it has put into
   * memory would add migrations.
   */
  predicate LosesWithdrawal(s: Host, step: Step) {
    && step == Advance(Admin, Fails)
    && s.admin.Some? && s.admin.value.kind.Deploying? && s.admin.value.stage.Persisting?
    && s.disk.Some? && s.disk.value.enabled
    && s.history < s.admin.value.target.release.migrations
  }

  /** No step of the run from `s` loses a withdrawal. */
  ghost predicate Lossless(s: Host, steps: seq<Step>) {
    forall i :: 0 <= i < |steps| && Run(s, steps[..i]).Some? ==>
      !LosesWithdrawal(Run(s, steps[..i]).value, steps[i])
  }

  /** The enabled record is of the release in memory, or `start` cannot add to the history. */
  predicate DiskAgrees(s: Host, record: Record, app: App) {
    || record.release == app.deployment.release
    || (s.admin.Some? && s.admin.value.kind.Deploying?
        && (s.admin.value.stage.Loading? || s.admin.value.stage.Persisting?))
    || !(s.history < app.deployment.release.migrations)
  }

  predicate DiskInv(s: Host) {
    && (s.up && s.app.None? ==> s.disk.None?)
    && DiskFits(s)
    && (s.disk.Some? && s.disk.value.enabled ==>
          && (s.admin.Some? && s.admin.value.kind.Deploying? ==>
                !s.admin.value.stage.Locking? && !s.admin.value.stage.Preparing?)
          && (s.app.Some? ==> DiskAgrees(s, s.disk.value, s.app.value)))
  }

  lemma PrepareKeepsDiskInv(s: Host, actor: Actor, task: Task, app: App, outcome: Outcome)
    requires AtWork(s, actor, task, app) && DiskInv(s) && task.stage.Preparing?
    ensures DiskInv(Prepared(s, actor, task, app, outcome))
  {
  }

  lemma WriteKeepsDiskInv(s: Host, actor: Actor, task: Task, app: App, outcome: Outcome)
    requires AtWork(s, actor, task, app) && DiskInv(s) && Writes(task.stage)
    requires !LosesWithdrawal(s, Advance(actor, outcome))
    ensures DiskInv(Advanced(s, actor, task, app, outcome).value)
  {
  }

  lemma RecordKeepsDiskInv(s: Host, actor: Actor, task: Task, app: App, outcome: Outcome)
    requires AtWork(s, actor, task, app) && DiskInv(s)
    requires task.stage.Recording? || task.stage.Loading?
    ensures DiskInv(Advanced(s, actor, task, app, outcome).value)
  {
    match task.stage
    case Recording =>
    case _ =>
  }

  lemma OutcomeKeepsDiskInv(s: Host, actor: Actor, task: Task, app: App, outcome: Outcome)
    requires AtWork(s, actor, task, app) && DiskInv(s)
    requires task.stage.Disabled? || task.stage.Enabling?
    ensures DiskInv(Advanced(s, actor, task, app, outcome).value)
  {
    match task.stage
    case Disabled =>
    case _ =>
  }

  lemma FenceKeepsDiskInv(s: Host, actor: Actor, task: Task, app: App, outcome: Outcome)
    requires AtWork(s, actor, task, app) && DiskInv(s)
    requires task.stage.Fencing? || task.stage.Draining? || task.stage.Failing?
    ensures DiskInv(Advanced(s, actor, task, app, outcome).value)
  {
    match task.stage
    case Fencing =>
    case Draining =>
    case _ =>
  }

  lemma LockKeepsDiskInv(s: Host, actor: Actor, task: Task, app: App, outcome: Outcome)
    requires AtWork(s, actor, task, app) && DiskInv(s)
    requires task.stage.Locking? || task.stage.Closing?
    requires Advanced(s, actor, task, app, outcome).Some?
    ensures DiskInv(Advanced(s, actor, task, app, outcome).value)
  {
    match task.stage
    case Locking =>
    case _ =>
  }

  lemma ActivateKeepsDiskInv(s: Host, actor: Actor, task: Task, app: App, outcome: Outcome)
    requires AtWork(s, actor, task, app) && DiskInv(s)
    requires task.stage.Installing? || task.stage.Starting? || task.stage.Occupying?
    ensures DiskInv(Advanced(s, actor, task, app, outcome).value)
  {
    match task.stage
    case Installing =>
    case Starting(_) =>
    case _ =>
  }

  lemma AdvanceKeepsDiskInv(s: Host, actor: Actor, outcome: Outcome)
    requires Inv(s) && DiskInv(s) && Apply(s, Advance(actor, outcome)).Some?
    requires !LosesWithdrawal(s, Advance(actor, outcome))
    ensures DiskInv(Apply(s, Advance(actor, outcome)).value)
  {
    var task, app := TaskOf(s, actor).value, s.app.value;
    match task.stage
    case Fencing | Draining | Failing => FenceKeepsDiskInv(s, actor, task, app, outcome);
    case Recording | Loading => RecordKeepsDiskInv(s, actor, task, app, outcome);
    case Disabled | Enabling(_) => OutcomeKeepsDiskInv(s, actor, task, app, outcome);
    case Persisting | Publishing(_) | Disabling => WriteKeepsDiskInv(s, actor, task, app, outcome);
    case Locking | Closing => LockKeepsDiskInv(s, actor, task, app, outcome);
    case Preparing => PrepareKeepsDiskInv(s, actor, task, app, outcome);
    case Installing | Starting(_) | Occupying(_) => ActivateKeepsDiskInv(s, actor, task, app, outcome);
  }

  lemma StepKeepsDiskInv(s: Host, step: Step)
    requires Inv(s) && DiskInv(s) && Apply(s, step).Some?
    requires !LosesWithdrawal(s, step)
    ensures DiskInv(Apply(s, step).value)
  {
    if step.Advance? {
      AdvanceKeepsDiskInv(s, step.actor, step.outcome);
    }
  }

  lemma {:induction false} LosslessKeepsDiskInv(s: Host, steps: seq<Step>)
    requires Inv(s) && DiskInv(s) && Run(s, steps).Some? && Lossless(s, steps)
    ensures DiskInv(Run(s, steps).value)
  {
    if steps != [] {
      var before := steps[..|steps| - 1];
      assert forall i :: 0 <= i < |before| ==> before[i] == steps[i] && before[..i] == steps[..i];
      LosslessKeepsDiskInv(s, before);
      RunKeepsInv(s, before);
      StepKeepsDiskInv(Run(s, before).value, steps[|steps| - 1]);
    }
  }

  /**
   * In every run in which no withdrawal is lost, a record that says "enabled" on disk
   * names a release whose migrations are the applied history.
   */
  lemma RestartFindsMatchingSchema(steps: seq<Step>)
    requires Run(INITIAL, steps).Some? && Lossless(INITIAL, steps)
    ensures DiskFits(Run(INITIAL, steps).value)
  {
    LosslessKeepsDiskInv(INITIAL, steps);
  }

  /** What a lost withdrawal leaves: nothing in progress, the new release in memory, the old one on disk. */
  predicate IsExposed(s: Host) {
    && s.up && s.admin.None? && s.supervisor.None? && s.app.Some? && s.app.value.process.None? && !s.lock.Working?
    && s.history < s.app.value.deployment.release.migrations
    && s.disk.Some? && s.disk.value.enabled && s.disk.value.release.migrations == s.history
  }

  lemma LossExposes(s: Host)
    requires Inv(s) && DiskFits(s) && LosesWithdrawal(s, Advance(Admin, Fails))
    ensures var after := Apply(s, Advance(Admin, Fails)); after.Some? && Inv(after.value) && IsExposed(after.value)
  {
    StepKeepsInv(s, Advance(Admin, Fails));
  }

  /** One migration of a `start` makes the record on disk name a release that does not fit. */
  lemma StartBreaks(s: Host)
    requires IsExposed(s) && s.lock.Nobody?
    ensures var after := Run(s, [Start, Advance(Admin, Succeeds), Advance(Admin, Succeeds)]);
            after.Some? && !DiskFits(after.value)
  {
    var steps := [Start, Advance(Admin, Succeeds), Advance(Admin, Succeeds)];
    var app, wanted := s.app.value, s.app.value.deployment.release.migrations;
    var launch := Task(Launching, app.deployment.(enabled := true), app.deployment.release, Locking);
    var s1 := s.(admin := Some(launch), gated := true);
    var s2 := s1.(lock := Working(Admin), admin := Some(launch.(stage := Preparing)));
    var s3 := s2.(history := s.history + [wanted[|s.history|]]);
    assert Apply(s, steps[0]) == Some(s1);
    assert Apply(s1, steps[1]) == Some(s2);
    assert Apply(s2, steps[2]) == Some(s3);
    RunOfThree(s, s1, s2, s3, steps);
  }

  lemma RunOfThree(s: Host, s1: Host, s2: Host, s3: Host, steps: seq<Step>)
    requires |steps| == 3 && Apply(s, steps[0]) == Some(s1)
    requires Apply(s1, steps[1]) == Some(s2) && Apply(s2, steps[2]) == Some(s3)
    ensures Run(s, steps) == Some(s3)
  {
    assert steps[..2][..1] == steps[..1] && steps[..1][..0] == [];
    assert Run(s, steps[..1]) == Some(s1);
    assert Run(s, steps[..2]) == Some(s2);
  }

  lemma {:induction false} RunFromNext(s: Host, step: Step, steps: seq<Step>)
    requires Apply(s, step).Some?
    ensures Run(s, [step] + steps) == Run(Apply(s, step).value, steps)
  {
    var all := [step] + steps;
    if steps == [] {
      assert all[..0] == [];
    } else {
      RunFromNext(s, step, steps[..|steps| - 1]);
      assert all[..|all| - 1] == [step] + steps[..|steps| - 1];
    }
  }

  lemma LeavingStaysExposed(s: Host, id: nat)
    requires Inv(s) && IsExposed(s) && s.lock == Querying(id)
    ensures var after := Apply(s, Leave(id)); after.Some? && IsExposed(after.value) && after.value.lock.Nobody?
  {
  }

  /** From an exposed state a mismatch is a few steps away, none of which loses anything. */
  lemma ExposedBreaks(s: Host) returns (more: seq<Step>)
    requires Inv(s) && IsExposed(s)
    ensures Run(s, more).Some? && Lossless(s, more) && !DiskFits(Run(s, more).value)
  {
    var start := [Start, Advance(Admin, Succeeds), Advance(Admin, Succeeds)];
    if s.lock.Nobody? {
      StartBreaks(s);
      more := start;
    } else {
      LeavingStaysExposed(s, s.lock.id);
      var left := Apply(s, Leave(s.lock.id)).value;
      StartBreaks(left);
      RunFromNext(s, Leave(s.lock.id), start);
      more := [Leave(s.lock.id)] + start;
    }
  }

  /** The converse: after a lost withdrawal some lossless continuation ends in a mismatch. */
  lemma LostWithdrawalBreaksRestart(s: Host) returns (more: seq<Step>)
    requires Inv(s) && DiskFits(s) && LosesWithdrawal(s, Advance(Admin, Fails))
    ensures var after := Apply(s, Advance(Admin, Fails));
            after.Some? && Run(after.value, more).Some? && Lossless(after.value, more)
            && !DiskFits(Run(after.value, more).value)
  {
    LossExposes(s);
    more := ExposedBreaks(Apply(s, Advance(Admin, Fails)).value);
  }

  /** However the run goes on from `s` without losing a withdrawal, the record on disk fits. */
  ghost predicate StaysFit(s: Host) {
    forall more :: Run(s, more).Some? && Lossless(s, more) ==> DiskFits(Run(s, more).value)
  }

  lemma {:induction false} PrefixRuns(s: Host, steps: seq<Step>, k: nat)
    requires k <= |steps| && Run(s, steps).Some?
    ensures Run(s, steps[..k]).Some?
  {
    if k < |steps| {
      assert steps[..|steps| - 1][..k] == steps[..k];
      PrefixRuns(s, steps[..|steps| - 1], k);
    } else {
      assert steps[..k] == steps;
    }
  }

  lemma LosslessStaysFit(steps: seq<Step>, k: nat)
    requires k <= |steps| && Run(INITIAL, steps).Some? && Lossless(INITIAL, steps)
    ensures Run(INITIAL, steps[..k]).Some? && StaysFit(Run(INITIAL, steps[..k]).value)
  {
    PrefixRuns(INITIAL, steps, k);
    assert forall i :: 0 <= i < k ==> steps[..k][i] == steps[i] && steps[..k][..i] == steps[..i];
    LosslessKeepsDiskInv(INITIAL, steps[..k]);
    RunKeepsInv(INITIAL, steps[..k]);
    var s := Run(INITIAL, steps[..k]).value;
    forall more | Run(s, more).Some? && Lossless(s, more)
      ensures DiskFits(Run(s, more).value)
    {
      LosslessKeepsDiskInv(s, more);
    }
  }

  lemma LossBreaksNext(s: Host)
    requires Inv(s) && LosesWithdrawal(s, Advance(Admin, Fails))
    ensures !StaysFit(s) || (Apply(s, Advance(Admin, Fails)).Some? && !StaysFit(Apply(s, Advance(Admin, Fails)).value))
  {
    if DiskFits(s) {
      var more := LostWithdrawalBreaksRestart(s);
    } else {
      assert Run(s, []) == Some(s) && Lossless(s, []);
    }
  }

  lemma LossIsNotFit(steps: seq<Step>, i: nat) returns (k: nat)
    requires i < |steps| && Run(INITIAL, steps[..i]).Some?
    requires LosesWithdrawal(Run(INITIAL, steps[..i]).value, steps[i])
    ensures k <= |steps| && Run(INITIAL, steps[..k]).Some? && !StaysFit(Run(INITIAL, steps[..k]).value)
  {
    RunKeepsInv(INITIAL, steps[..i]);
    var s := Run(INITIAL, steps[..i]).value;
    LossBreaksNext(s);
    if !StaysFit(s) {
      k := i;
    } else {
      k := i + 1;
      assert steps[..i + 1][..i] == steps[..i];
    }
  }

  /**
   * A run loses no withdrawal exactly when, at every point of it, whatever follows
   * without a loss finds on disk only enabled records that fit the history.
   */
  lemma RestartFitsIffLossless(steps: seq<Step>)
    requires Run(INITIAL, steps).Some?
    ensures Lossless(INITIAL, steps) <==>
            forall k :: 0 <= k <= |steps| && Run(INITIAL, steps[..k]).Some? ==>
              StaysFit(Run(INITIAL, steps[..k]).value)
  {
    if Lossless(INITIAL, steps) {
      forall k | 0 <= k <= |steps|
        ensures Run(INITIAL, steps[..k]).Some? ==> StaysFit(Run(INITIAL, steps[..k]).value)
      {
        LosslessStaysFit(steps, k);
      }
    } else {
      var i :| 0 <= i < |steps| && Run(INITIAL, steps[..i]).Some?
               && LosesWithdrawal(Run(INITIAL, steps[..i]).value, steps[i]);
      var k := LossIsNotFit(steps, i);
    }
  }

  // ---------------------------------------------------------------- what an operation that succeeds ends with

  function Go(actor: Actor): Step {
    Advance(actor, Succeeds)
  }

  function Times(actor: Actor, n: nat): seq<Step> {
    seq(n, i => Go(actor))
  }

  /**
   * The application runs the release of `record` on exactly its migrations, under the last
   * token that was drawn, and `record` is what both the disk and the memory say.
   */
  predicate Serves(s: Host, record: Record) {
    && record.enabled && s.disk == Some(record) && s.history == record.release.migrations
    && s.app.Some? && s.next > 0
    && s.app.value == App(record, record.release, Some(Execution(record.release, s.next - 1)), s.next - 1)
  }

  predicate Idle(s: Host) {
    s.up && s.admin.None? && s.lock.Nobody?
  }

  /** How many sections a preparation takes: one for each missing migration, and the last. */
  function Sections(s: Host, release: Release): nat
    requires s.history <= release.migrations
  {
    |release.migrations| - |s.history| + 1
  }

  /** The states a run goes through. */
  predicate IsTrace(states: seq<Host>, steps: seq<Step>) {
    && |states| == |steps| + 1
    && forall i {:trigger Apply(states[i], steps[i])} ::
         0 <= i < |steps| ==> Apply(states[i], steps[i]) == Some(states[i + 1])
  }

  /** There is a run of `steps` from `s` to `t`. */
  ghost predicate Leads(s: Host, steps: seq<Step>, t: Host) {
    exists states :: IsTrace(states, steps) && states[0] == s && states[|steps|] == t
  }

  lemma {:induction false} TraceIsRun(states: seq<Host>, steps: seq<Step>)
    requires IsTrace(states, steps)
    ensures Run(states[0], steps) == Some(states[|steps|])
  {
    if steps != [] {
      var n := |steps| - 1;
      assert Apply(states[n], steps[n]) == Some(states[n + 1]);
      forall i | 0 <= i < n
        ensures Apply(states[..n + 1][i], steps[..n][i]) == Some(states[..n + 1][i + 1])
      {
        assert Apply(states[i], steps[i]) == Some(states[i + 1]);
      }
      TraceIsRun(states[..n + 1], steps[..n]);
    }
  }

  lemma {:induction false} RunIsTrace(s: Host, steps: seq<Step>) returns (states: seq<Host>)
    requires Run(s, steps).Some?
    ensures IsTrace(states, steps) && states[0] == s && Some(states[|steps|]) == Run(s, steps)
  {
    if steps == [] {
      states := [s];
    } else {
      var n := |steps| - 1;
      var before := RunIsTrace(s, steps[..n]);
      states := before + [Run(s, steps).value];
      forall i | 0 <= i < |steps|
        ensures Apply(states[i], steps[i]) == Some(states[i + 1])
      {
        if i < n {
          assert Apply(before[i], steps[..n][i]) == Some(before[i + 1]);
        }
      }
    }
  }

  lemma LeadsIsRun(s: Host, steps: seq<Step>, t: Host)
    ensures Leads(s, steps, t) <==> Run(s, steps) == Some(t)
  {
    if Leads(s, steps, t) {
      var states :| IsTrace(states, steps) && states[0] == s && states[|steps|] == t;
      TraceIsRun(states, steps);
    }
    if Run(s, steps) == Some(t) {
      var states := RunIsTrace(s, steps);
    }
  }

  lemma TracesJoin(a: seq<Host>, b: seq<Host>, first: seq<Step>, second: seq<Step>)
    requires IsTrace(a, first) && IsTrace(b, second) && a[|first|] == b[0]
    ensures IsTrace(a + b[1..], first + second)
  {
    var states, steps := a + b[1..], first + second;
    forall i | 0 <= i < |steps|
      ensures Apply(states[i], steps[i]) == Some(states[i + 1])
    {
      if i < |first| {
        assert Apply(a[i], first[i]) == Some(a[i + 1]);
      } else {
        assert Apply(b[i - |first|], second[i - |first|]) == Some(b[i - |first| + 1]);
      }
    }
  }

  lemma LeadsOn(s: Host, first: seq<Step>, t: Host, second: seq<Step>, u: Host)
    requires Leads(s, first, t) && Leads(t, second, u)
    ensures Leads(s, first + second, u)
  {
    var a :| IsTrace(a, first) && a[0] == s && a[|first|] == t;
    var b :| IsTrace(b, second) && b[0] == t && b[|second|] == u;
    TracesJoin(a, b, first, second);
    var states := a + b[1..];
    assert states[0] == s && states[|first + second|] == u;
  }

  lemma OneStep(s: Host, step: Step, t: Host)
    requires Apply(s, step) == Some(t)
    ensures Leads(s, [step], t)
  {
    var states, steps := [s, t], [step];
    assert Apply(states[0], steps[0]) == Some(states[1]);
    assert IsTrace(states, steps);
  }

  lemma Continues(s: Host, actor: Actor, m: nat, t: Host, n: nat, u: Host)
    requires Leads(s, Times(actor, m), t) && Leads(t, Times(actor, n), u)
    ensures Leads(s, Times(actor, m + n), u)
  {
    LeadsOn(s, Times(actor, m), t, Times(actor, n), u);
    assert Times(actor, m + n) == Times(actor, m) + Times(actor, n);
  }

  lemma Begins(s: Host, step: Step, t: Host, actor: Actor, n: nat, u: Host)
    requires Apply(s, step) == Some(t) && Leads(t, Times(actor, n), u)
    ensures Leads(s, [step] + Times(actor, n), u)
  {
    OneStep(s, step, t);
    LeadsOn(s, [step], t, Times(actor, n), u);
  }

  lemma OneSection(s: Host, t: Host, actor: Actor)
    requires Apply(s, Go(actor)) == Some(t)
    ensures Leads(s, Times(actor, 1), t)
  {
    OneStep(s, Go(actor), t);
    assert Times(actor, 1) == [Go(actor)];
  }

  lemma TwoSections(s: Host, s1: Host, s2: Host, actor: Actor)
    requires Apply(s, Go(actor)) == Some(s1) && Apply(s1, Go(actor)) == Some(s2)
    ensures Leads(s, Times(actor, 2), s2)
  {
    OneSection(s, s1, actor);
    OneSection(s1, s2, actor);
    Continues(s, actor, 1, s1, 1, s2);
  }

  // ---------------------------------------------------------------- the sections of an operation

  predicate IsAt(s: Host, actor: Actor, task: Task) {
    s.app.Some? && TaskOf(s, actor) == Some(task)
  }

  /** The operation prepares, and the history is a part of what it wants. */
  predicate IsPreparing(s: Host, actor: Actor, task: Task) {
    && IsAt(s, actor, task) && task.stage.Preparing? && s.lock == Working(actor)
    && s.history <= task.prepared.migrations
  }

  /** What a preparation that succeeds leaves: all migrations, and the lock is free. */
  function WhenPrepared(s: Host, actor: Actor, task: Task): Host {
    At(s.(history := task.prepared.migrations, lock := Nobody), actor, task,
       if task.kind.Launching? then Loading else Installing)
  }

  lemma {:induction false} PreparationCompletes(s: Host, actor: Actor, task: Task)
    requires IsPreparing(s, actor, task)
    ensures Leads(s, Times(actor, Sections(s, task.prepared)), WhenPrepared(s, actor, task))
    decreases |task.prepared.migrations| - |s.history|
  {
    var wanted := task.prepared.migrations;
    if |wanted| == |s.history| {
      assert s.history == wanted;
      OneSection(s, WhenPrepared(s, actor, task), actor);
    } else {
      var next := s.(history := s.history + [wanted[|s.history|]]);
      assert Apply(s, Go(actor)) == Some(next);
      OneSection(s, next, actor);
      PreparationCompletes(next, actor, task);
      Continues(s, actor, 1, next, Sections(next, task.prepared), WhenPrepared(s, actor, task));
    }
  }

  /** An operation that waits for the free database gets it and prepares. */
  lemma LockingPrepares(s: Host, actor: Actor, task: Task)
    requires IsAt(s, actor, task) && task.stage.Locking? && !task.kind.Stopping? && s.lock.Nobody?
    requires s.history <= task.prepared.migrations
    ensures Leads(s, Times(actor, 1 + Sections(s, task.prepared)), WhenPrepared(s, actor, task))
  {
    var held := At(s.(lock := Working(actor)), actor, task, Preparing);
    assert Apply(s, Go(actor)) == Some(held);
    OneSection(s, held, actor);
    PreparationCompletes(held, actor, task.(stage := Preparing));
    Continues(s, actor, 1, held, Sections(s, task.prepared), WhenPrepared(s, actor, task));
  }

  /** What installing and starting an execution leaves, at `stage`. */
  function WhenStarted(s: Host, actor: Actor, task: Task, stage: Stage): Host
    requires s.app.Some?
  {
    At(Rotated(s, s.app.value).(issued := s.issued[s.next := task.target.release]), actor, task, stage)
  }

  function AfterStart(task: Task, execution: Execution): Stage {
    if task.kind.Deploying? || task.kind.Launching? then Publishing(execution) else Occupying(execution)
  }

  lemma InstalledStarts(s: Host, actor: Actor, task: Task)
    requires IsAt(s, actor, task) && task.stage.Installing?
    ensures Leads(s, Times(actor, 2),
                  WhenStarted(s, actor, task, AfterStart(task, Execution(task.target.release, s.next))))
  {
    var execution := Execution(task.target.release, s.next);
    var s1 := WhenStarted(s, actor, task, Starting(s.next));
    var s2 := WhenStarted(s, actor, task, AfterStart(task, execution));
    assert Apply(s, Go(actor)) == Some(s1);
    assert Apply(s1, Go(actor)) == Some(s2);
    TwoSections(s, s1, s2, actor);
  }

  /** What publishing an execution leaves: disk, slot and memory agree, and the operation is over. */
  function WhenPublished(s: Host, task: Task, execution: Execution): Host
    requires s.app.Some?
  {
    s.(disk := Some(task.target), admin := None, gated := false, up := true,
       app := Some(s.app.value.(process := Some(execution), deployment := task.target)))
  }

  lemma StartedPublishes(s: Host, task: Task, execution: Execution)
    requires IsAt(s, Admin, task) && task.stage == Publishing(execution)
    requires task.kind.Deploying? || task.kind.Launching?
    ensures Leads(s, Times(Admin, 3), WhenPublished(s, task, execution))
  {
    var s1 := At(s.(disk := Some(task.target)), Admin, task,
                 if task.kind.Deploying? then Occupying(execution) else Enabling(execution));
    assert Apply(s, Go(Admin)) == Some(s1);
    OneSection(s, s1, Admin);
    OccupiedServes(s1, task, execution);
    Continues(s, Admin, 1, s1, 2, WhenPublished(s, task, execution));
  }

  lemma OccupiedServes(s: Host, task: Task, execution: Execution)
    requires s.app.Some? && (task.kind.Deploying? || task.kind.Launching?) && s.disk == Some(task.target)
    requires s.admin ==
      Some(task.(stage := if task.kind.Deploying? then Occupying(execution) else Enabling(execution)))
    ensures Leads(s, Times(Admin, 2), WhenPublished(s, task, execution))
  {
    var app, done := s.app.value, WhenPublished(s, task, execution);
    var s1 := if task.kind.Deploying?
              then At(WithApp(s, app.(process := Some(execution))), Admin, task, Enabling(execution))
              else At(WithApp(s, app.(deployment := task.target)), Admin, task, Occupying(execution));
    assert Apply(s, Go(Admin)) == Some(s1);
    assert Apply(s1, Go(Admin)) == Some(done);
    TwoSections(s, s1, done, Admin);
  }

  /** An operation that has its migrations installs, starts and publishes. */
  lemma InstalledServes(s: Host, task: Task) returns (after: Host)
    requires IsAt(s, Admin, task) && (task.kind.Deploying? || task.kind.Launching?) && task.stage.Installing?
    requires s.app.value.release == task.target.release && s.history == task.target.release.migrations
    requires s.lock.Nobody? && task.target.enabled
    ensures Leads(s, Times(Admin, 5), after) && Serves(after, task.target) && Idle(after)
  {
    var execution := Execution(task.target.release, s.next);
    var started := WhenStarted(s, Admin, task, Publishing(execution));
    InstalledStarts(s, Admin, task);
    StartedPublishes(started, task.(stage := Publishing(execution)), execution);
    after := WhenPublished(started, task, execution);
    Continues(s, Admin, 2, started, 3, after);
  }

  // ---------------------------------------------------------------- deployments and rollbacks

  /** What the withdrawal of a replaced application leaves: nothing runs, and disk and memory say so. */
  function WhenWithdrawn(s: Host, task: Task): Host {
    s.(app := Some(App(NonServing(task.target), task.target.release, None, s.next)), next := s.next + 1,
       disk := Some(NonServing(task.target)), admin := Some(task.(stage := Locking)))
  }

  lemma FencedWithdraws(s: Host, task: Task)
    requires IsAt(s, Admin, task) && task.kind.Deploying? && task.stage.Fencing?
    ensures Leads(s, Times(Admin, 5), WhenWithdrawn(s, task))
  {
    var app := s.app.value.(token := s.next, process := None);
    var rotated := s.(app := Some(app.(process := s.app.value.process)), next := s.next + 1,
                      admin := Some(task.(stage := Draining)));
    var drained := rotated.(app := Some(app), admin := Some(task.(stage := Recording)));
    assert Apply(s, Go(Admin)) == Some(rotated);
    assert Apply(rotated, Go(Admin)) == Some(drained);
    TwoSections(s, rotated, drained, Admin);
    DrainedWithdraws(drained, task, WhenWithdrawn(s, task));
    Continues(s, Admin, 2, drained, 3, WhenWithdrawn(s, task));
  }

  lemma DrainedWithdraws(s: Host, task: Task, done: Host)
    requires s.app.Some? && s.app.value.process.None? && task.kind.Deploying?
    requires s.admin == Some(task.(stage := Recording))
    requires done == s.(app := Some(App(NonServing(task.target), task.target.release, None, s.app.value.token)),
                        disk := Some(NonServing(task.target)), admin := Some(task.(stage := Locking)))
    ensures Leads(s, Times(Admin, 3), done)
  {
    var app := s.app.value.(deployment := NonServing(task.target));
    var s1 := s.(app := Some(app), admin := Some(task.(stage := Loading)));
    var s2 := s.(app := done.app, admin := Some(task.(stage := Persisting)));
    assert Apply(s, Go(Admin)) == Some(s1);
    assert Apply(s1, Go(Admin)) == Some(s2);
    assert Apply(s2, Go(Admin)) == Some(done);
    TwoSections(s, s1, s2, Admin);
    OneSection(s2, done, Admin);
    Continues(s, Admin, 2, s2, 1, done);
  }

  /** From the first section of a deployment to its last. */
  lemma DeploymentServes(s: Host, task: Task) returns (after: Host)
    requires IsAt(s, Admin, task) && task.kind.Deploying? && task.stage.Fencing? && task.target.enabled
    requires s.lock.Nobody? && task.prepared == task.target.release && s.history <= task.prepared.migrations
    ensures Leads(s, Times(Admin, 6 + Sections(s, task.prepared) + 5), after)
    ensures Serves(after, task.target) && Idle(after)
  {
    var n := Sections(s, task.prepared);
    var withdrawn, waiting := WhenWithdrawn(s, task), task.(stage := Locking);
    var prepared := WhenPrepared(withdrawn, Admin, waiting);
    FencedWithdraws(s, task);
    LockingPrepares(withdrawn, Admin, waiting);
    Continues(s, Admin, 5, withdrawn, 1 + n, prepared);
    after := InstalledServes(prepared, task.(stage := Installing));
    Continues(s, Admin, 5 + (1 + n), prepared, 5, after);
  }

  /** A first deployment is the first generation, without a release to go back to. */
  lemma FirstDeploymentServes(s: Host, release: Release) returns (after: Host)
    requires s.up && s.admin.None? && s.app.None? && s.lock.Nobody? && s.history <= release.migrations
    ensures Leads(s, [Deploy(release)] + Times(Admin, 6 + Sections(s, release) + 5), after)
    ensures Serves(after, Record(release, None, 1, true)) && Idle(after)
  {
    var n := 6 + Sections(s, release) + 5;
    var target := Record(release, None, 1, true);
    var task := Task(Deploying, target, release, Fencing);
    var begun := s.(app := Some(App(NonServing(target), release, None, s.next)), next := s.next + 1,
                    admin := Some(task), gated := false);
    after := DeploymentServes(begun, task);
    Begins(s, Deploy(release), begun, Admin, n, after);
  }

  /**
   * A later deployment is the next generation, and goes back to the release it replaces
   * unless that is the same release.
   */
  lemma RedeploymentServes(s: Host, release: Release) returns (after: Host)
    requires AdminFree(s) && s.app.Some? && s.lock.Nobody? && s.history <= release.migrations
    requires s.app.value.deployment.generation < MAX_GENERATION
    ensures Leads(s, [Deploy(release)] + Times(Admin, 6 + Sections(s, release) + 5), after) && Idle(after)
    ensures var was := s.app.value.deployment;
      Serves(after, Record(release, if was.release == release then None else Some(was.release),
                           was.generation + 1, true))
  {
    var n := 6 + Sections(s, release) + 5;
    var was := s.app.value.deployment;
    var target := Record(release, if was.release == release then None else Some(was.release),
                         was.generation + 1, true);
    var task := Task(Deploying, target, release, Fencing);
    var begun := s.(admin := Some(task), gated := true);
    after := DeploymentServes(begun, task);
    Begins(s, Deploy(release), begun, Admin, n, after);
  }

  /** A deployment whose preparation or installation fails withdraws its record again: nothing runs. */
  lemma FailedDeploymentDisables(s: Host, task: Task)
    requires IsAt(s, Admin, task) && task.kind.Deploying?
    requires task.stage.Preparing? || task.stage.Installing?
    ensures var record := NonServing(task.target);
      Leads(s, [Advance(Admin, Fails)] + Times(Admin, 3),
            s.(app := Some(s.app.value.(deployment := record, token := s.next)), next := s.next + 1,
               disk := Some(record), admin := None, gated := false, up := true,
               lock := if task.stage.Preparing? then Nobody else s.lock))
  {
    var record := NonServing(task.target);
    var failing := At(s.(lock := if task.stage.Preparing? then Nobody else s.lock), Admin, task, Failing);
    var after := failing.(app := Some(s.app.value.(deployment := record, token := s.next)), next := s.next + 1,
                          disk := Some(record), admin := None, gated := false, up := true);
    FailingDisables(failing, task, after);
    Begins(s, Advance(Admin, Fails), failing, Admin, 3, after);
  }

  lemma FailingDisables(s: Host, task: Task, done: Host)
    requires s.app.Some? && s.admin == Some(task.(stage := Failing))
    requires done == s.(app := Some(s.app.value.(deployment := NonServing(task.target), token := s.next)),
                        next := s.next + 1, disk := Some(NonServing(task.target)),
                        admin := None, gated := false, up := true)
    ensures Leads(s, Times(Admin, 3), done)
  {
    var s1 := At(Rotated(s, s.app.value), Admin, task, Disabling);
    var s2 := At(s1.(disk := Some(NonServing(task.target))), Admin, task, Disabled);
    assert Apply(s, Go(Admin)) == Some(s1);
    assert Apply(s1, Go(Admin)) == Some(s2);
    TwoSections(s, s1, s2, Admin);
    assert Apply(s2, Go(Admin)) == Some(done);
    OneSection(s2, done, Admin);
    Continues(s, Admin, 2, s2, 1, done);
  }

  /** A rollback is a deployment of the release that was replaced; there is none without one. */
  lemma RollbackDeploysPrevious(s: Host)
    requires s.app.Some?
    ensures s.app.value.deployment.previous.None? ==> Apply(s, Rollback).None?
    ensures s.app.value.deployment.previous.Some? ==>
      Apply(s, Rollback) == Apply(s, Deploy(s.app.value.deployment.previous.value))
  {
  }

  // ---------------------------------------------------------------- stopping and starting

  /** What a stop leaves: nothing runs, and disk and memory say so. */
  function WhenStopped(s: Host): Host
    requires s.app.Some?
  {
    var record := NonServing(s.app.value.deployment);
    s.(app := Some(s.app.value.(deployment := record, process := None, token := s.next)), next := s.next + 1,
       disk := Some(record), admin := None, gated := false, up := true, lock := Nobody)
  }

  /** A stop of any application, running or not, leaves it stopped. */
  lemma StopLeaves(s: Host)
    requires AdminFree(s) && s.app.Some? && s.lock.Nobody?
    ensures Leads(s, [Stop] + Times(Admin, 6), WhenStopped(s)) && Idle(WhenStopped(s))
  {
    var app := s.app.value;
    var task := Task(Stopping, NonServing(app.deployment), app.deployment.release, Recording);
    var begun := s.(admin := Some(task), gated := true);
    var stopped := app.(deployment := NonServing(app.deployment), token := s.next);
    var s1 := begun.(app := Some(stopped.(token := app.token)), admin := Some(task.(stage := Fencing)));
    var s2 := begun.(app := Some(stopped), next := s.next + 1, admin := Some(task.(stage := Draining)));
    assert Apply(begun, Go(Admin)) == Some(s1);
    assert Apply(s1, Go(Admin)) == Some(s2);
    TwoSections(begun, s1, s2, Admin);
    DrainedStops(s2, task, WhenStopped(s));
    Continues(begun, Admin, 2, s2, 4, WhenStopped(s));
    Begins(s, Stop, begun, Admin, 6, WhenStopped(s));
  }

  lemma DrainedStops(s: Host, task: Task, done: Host)
    requires s.app.Some? && task.kind.Stopping? && s.admin == Some(task.(stage := Draining)) && s.lock.Nobody?
    requires !task.target.enabled
    requires done == s.(app := Some(s.app.value.(process := None)), disk := Some(task.target),
                        admin := None, gated := false, up := true)
    ensures Leads(s, Times(Admin, 4), done)
  {
    var s1 := s.(app := done.app, admin := Some(task.(stage := Persisting)));
    var s2 := s1.(disk := Some(task.target), admin := Some(task.(stage := Locking)));
    var s3 := s2.(lock := Working(Admin), admin := Some(task.(stage := Closing)));
    assert Apply(s, Go(Admin)) == Some(s1);
    assert Apply(s1, Go(Admin)) == Some(s2);
    TwoSections(s, s1, s2, Admin);
    assert Apply(s2, Go(Admin)) == Some(s3);
    assert Apply(s3, Go(Admin)) == Some(done);
    TwoSections(s2, s3, done, Admin);
    Continues(s, Admin, 2, s2, 2, done);
  }

  /** A start brings back the recorded release, and records it as enabled. */
  lemma StartServes(s: Host) returns (after: Host)
    requires AdminFree(s) && s.app.Some? && s.app.value.process.None? && s.lock.Nobody?
    requires s.history <= s.app.value.deployment.release.migrations
    ensures var record := s.app.value.deployment.(enabled := true);
      && Leads(s, [Start] + Times(Admin, 1 + Sections(s, record.release) + 6), after)
      && Serves(after, record) && Idle(after)
  {
    var target := s.app.value.deployment.(enabled := true);
    var task := Task(Launching, target, target.release, Locking);
    var begun := s.(admin := Some(task), gated := true);
    var n := Sections(s, target.release);
    var prepared := WhenPrepared(begun, Admin, task);
    LockingPrepares(begun, Admin, task);
    after := LoadingServes(prepared, task.(stage := Loading));
    Continues(begun, Admin, 1 + n, prepared, 6, after);
    Begins(s, Start, begun, Admin, 1 + n + 6, after);
  }

  lemma LoadingServes(s: Host, task: Task) returns (after: Host)
    requires IsAt(s, Admin, task) && task.kind.Launching? && task.stage.Loading? && s.lock.Nobody?
    requires s.history == task.target.release.migrations && task.target.enabled
    ensures Leads(s, Times(Admin, 6), after) && Serves(after, task.target) && Idle(after)
  {
    var loaded := At(WithApp(s, s.app.value.(release := task.target.release)), Admin, task, Installing);
    assert Apply(s, Go(Admin)) == Some(loaded);
    OneSection(s, loaded, Admin);
    after := InstalledServes(loaded, task.(stage := Installing));
    Continues(s, Admin, 1, loaded, 5, after);
  }

  /** The start that follows a stop serves the record that was stopped. */
  lemma StopThenStart(s: Host) returns (after: Host)
    requires AdminFree(s) && s.app.Some? && s.lock.Nobody?
    requires s.history <= s.app.value.deployment.release.migrations
    ensures var record := s.app.value.deployment;
      var start := [Start] + Times(Admin, 1 + Sections(s, record.release) + 6);
      && Leads(s, [Stop] + Times(Admin, 6) + start, after)
      && Serves(after, record.(enabled := true)) && Idle(after)
  {
    var start := [Start] + Times(Admin, 1 + Sections(s, s.app.value.deployment.release) + 6);
    StopLeaves(s);
    after := StartServes(WhenStopped(s));
    LeadsOn(s, [Stop] + Times(Admin, 6), WhenStopped(s), start, after);
  }

  // ---------------------------------------------------------------- restarts

  /** What a restarted or recovered application is when it has been launched again. */
  function WhenRelaunched(s: Host, actor: Actor, task: Task): Host
    requires s.app.Some?
  {
    var execution := Execution(task.target.release, s.next);
    Finished(s.(app := Some(s.app.value.(process := Some(execution), token := s.next)), next := s.next + 1,
                issued := s.issued[s.next := task.target.release],
                history := task.prepared.migrations, lock := Nobody), actor)
  }

  lemma LockingRelaunches(s: Host, actor: Actor, task: Task)
    requires IsAt(s, actor, task) && task.stage.Locking? && (task.kind.Restarting? || task.kind.Recovering?)
    requires s.lock.Nobody? && s.history <= task.prepared.migrations
    ensures Leads(s, Times(actor, 1 + Sections(s, task.prepared) + 3), WhenRelaunched(s, actor, task))
  {
    var n := Sections(s, task.prepared);
    var prepared := WhenPrepared(s, actor, task);
    LockingPrepares(s, actor, task);
    InstalledRelaunches(prepared, actor, task.(stage := Installing));
    Continues(s, actor, 1 + n, prepared, 3, WhenRelaunched(s, actor, task));
  }

  lemma InstalledRelaunches(s: Host, actor: Actor, task: Task)
    requires IsAt(s, actor, task) && task.stage.Installing? && (task.kind.Restarting? || task.kind.Recovering?)
    requires s.lock.Nobody? && s.history == task.prepared.migrations
    ensures Leads(s, Times(actor, 3), WhenRelaunched(s, actor, task))
  {
    var execution := Execution(task.target.release, s.next);
    var started, done := WhenStarted(s, actor, task, Occupying(execution)), WhenRelaunched(s, actor, task);
    InstalledStarts(s, actor, task);
    assert Apply(started, Go(actor)) == Some(done);
    OneSection(started, done, actor);
    Continues(s, actor, 2, started, 1, done);
  }

  /** A supervised restart serves the same record again, under a new token. */
  lemma SupervisionServes(s: Host) returns (after: Host)
    requires s.up && s.supervisor.None? && !s.gated && s.app.Some? && s.app.value.deployment.enabled
    requires s.lock.Nobody? && s.disk == Some(s.app.value.deployment)
    requires s.app.value.release == s.app.value.deployment.release
    requires s.history <= s.app.value.release.migrations
    ensures Leads(s, [Supervise] + Times(Supervisor, 1 + Sections(s, s.app.value.release) + 3), after)
    ensures Serves(after, s.app.value.deployment) && after.app.value.token > s.next && after.up
  {
    var app, n := s.app.value, 1 + Sections(s, s.app.value.release) + 3;
    var task := Task(Restarting, app.deployment, app.release, Locking);
    var begun := s.(app := Some(app.(process := None, token := s.next)), next := s.next + 1,
                    supervisor := Some(task));
    after := WhenRelaunched(begun, Supervisor, task);
    LockingRelaunches(begun, Supervisor, task);
    Begins(s, Supervise, begun, Supervisor, n, after);
  }

  /** A restart of the host comes back with the record on disk, and with nothing running yet. */
  lemma RecoverKeepsRecord(s: Host)
    requires !s.up && s.admin.None?
    ensures s.disk.None? ==> Apply(s, Recover) == Some(s.(up := true))
    ensures s.disk.Some? ==>
      var record := s.disk.value; var after := Apply(s, Recover);
      && after.Some? && after.value.disk == s.disk && after.value.history == s.history
      && after.value.app == Some(App(record, record.release, None, s.next)) && after.value.next == s.next + 1
      && (!record.enabled ==> after.value.up && after.value.admin.None?)
      && (record.enabled ==>
            && !after.value.up
            && after.value.admin == Some(Task(Recovering, record, record.release, Locking)))
  {
  }

  /**
   * From a host that is down with a record on disk: an enabled record whose release fits the
   * history is served again, as it was recorded.
   */
  lemma RecoveryServes(s: Host) returns (after: Host)
    requires !s.up && s.admin.None? && s.lock.Nobody?
    requires s.disk.Some? && s.disk.value.enabled && s.history <= s.disk.value.release.migrations
    ensures Leads(s, [Recover] + Times(Admin, 1 + Sections(s, s.disk.value.release) + 3), after)
    ensures Serves(after, s.disk.value) && Idle(after) && after.app.value.token > s.next
  {
    var record, n := s.disk.value, 1 + Sections(s, s.disk.value.release) + 3;
    var task := Task(Recovering, record, record.release, Locking);
    var begun := s.(app := Some(App(record, record.release, None, s.next)), next := s.next + 1,
                    admin := Some(task), gated := false);
    after := WhenRelaunched(begun, Admin, task);
    LockingRelaunches(begun, Admin, task);
    Begins(s, Recover, begun, Admin, n, after);
  }

  /** What is left of a host after a crash: the disk, the history and which tokens were drawn. */
  function Crashed(s: Host): Host {
    s.(up := false, app := None, admin := None, gated := false, supervisor := None, lock := Nobody, queries := map[])
  }

  /** Whatever a host was doing when it crashed, it serves what its disk says is enabled. */
  lemma RestartServes(s: Host) returns (after: Host)
    requires s.disk.Some? && s.disk.value.enabled && s.history <= s.disk.value.release.migrations
    ensures Leads(s, [Crash] + ([Recover] + Times(Admin, 1 + Sections(s, s.disk.value.release) + 3)), after)
    ensures Serves(after, s.disk.value) && Idle(after) && after.app.value.token > s.next
  {
    after := RecoveryServes(Crashed(s));
    OneStep(s, Crash, Crashed(s));
    LeadsOn(s, [Crash], Crashed(s), [Recover] + Times(Admin, 1 + Sections(s, s.disk.value.release) + 3), after);
  }

  /** A disabled record comes back at once, with nothing running and nothing in progress. */
  lemma RestartLeavesStopped(s: Host) returns (after: Host)
    requires s.disk.Some? && !s.disk.value.enabled
    ensures Leads(s, [Crash] + [Recover], after) && Idle(after) && after.disk == s.disk
    ensures after.history == s.history
    ensures after.app == Some(App(s.disk.value, s.disk.value.release, None, s.next))
  {
    RecoverKeepsRecord(Crashed(s));
    after := Apply(Crashed(s), Recover).value;
    OneStep(s, Crash, Crashed(s));
    OneStep(Crashed(s), Recover, after);
    LeadsOn(s, [Crash], Crashed(s), [Recover], after);
  }

  /** A supervised restart that fails ends with nothing running and a token nobody has. */
  lemma FailedRestartFences(s: Host, task: Task)
    requires IsAt(s, Supervisor, task) && task.kind.Restarting?
    requires task.stage.Preparing? || task.stage.Installing?
    ensures Apply(s, Advance(Supervisor, Fails)) ==
      Some(s.(app := Some(s.app.value.(token := s.next)), next := s.next + 1, supervisor := None,
              lock := if task.stage.Preparing? then Nobody else s.lock))
  {
  }

  /** A start or a recovery that fails ends without a trace, apart from the migrations it applied. */
  lemma FailedStartLeavesRecord(s: Host, task: Task)
    requires IsAt(s, Admin, task) && (task.kind.Launching? || task.kind.Recovering?)
    requires task.stage.Preparing? || task.stage.Installing?
    ensures Apply(s, Advance(Admin, Fails)) ==
      Some(s.(admin := None, gated := false, up := true,
              lock := if task.stage.Preparing? then Nobody else s.lock))
  {
  }

  /** No operation begins while another is in progress; each has its own further condition. */
  lemma OperationsBeginIff(s: Host, release: Release)
    ensures Apply(s, Deploy(release)).Some? <==>
      AdminFree(s) && (s.app.Some? ==> s.app.value.deployment.generation < 0xFFFF_FFFF_FFFF_FFFF)
    ensures Apply(s, Start).Some? <==> AdminFree(s) && s.app.Some? && s.app.value.process.None?
    ensures Apply(s, Stop).Some? <==> AdminFree(s) && s.app.Some?
    ensures Apply(s, Supervise).Some? <==>
      s.up && s.app.Some? && s.app.value.deployment.enabled && s.supervisor.None? && !s.gated
    ensures Apply(s, Recover).Some? <==> !s.up && s.admin.None?
  {
  }

  // ---------------------------------------------------------------- what is served

  /** A running execution is served: while nothing has the database, its query is admitted and executes. */
  lemma RunningCodeIsServed(s: Host, id: nat)
    requires Inv(s) && s.app.Some? && s.app.value.process.Some? && s.lock.Nobody? && id !in s.queries
    requires s.app.value.process.value.token == s.app.value.token
    ensures var token := s.app.value.token; var inside := Run(s, [Admit(id, token), Enter(id)]);
      inside == Some(s.(queries := s.queries[id := Executing(token)], lock := Querying(id)))
  {
    var token := s.app.value.token;
    var steps := [Admit(id, token), Enter(id)];
    var s1 := s.(queries := s.queries[id := Admitted(token)]);
    var s2 := s.(queries := s.queries[id := Executing(token)], lock := Querying(id));
    assert s1.queries[id := Executing(token)] == s2.queries;
    assert Apply(s, steps[0]) == Some(s1);
    assert Apply(s1, steps[1]) == Some(s2);
    RunOfTwo(s, s1, s2, steps);
  }

  lemma RunOfTwo(s: Host, s1: Host, s2: Host, steps: seq<Step>)
    requires |steps| == 2 && Apply(s, steps[0]) == Some(s1) && Apply(s1, steps[1]) == Some(s2)
    ensures Run(s, steps) == Some(s2)
  {
    assert steps[..1][..0] == [];
    assert Run(s, steps[..1]) == Some(s1);
  }

  /** A query that leaves gives the database back and changes nothing else. */
  lemma LeavingFreesDatabase(s: Host, id: nat)
    requires id in s.queries && s.queries[id].Executing?
    ensures Apply(s, Leave(id)) == Some(s.(queries := s.queries - {id}, lock := Nobody))
  {
  }

  // ---------------------------------------------------------------- preparation is a migration attempt

  /** One step of `Preparing` against the loop of the migration module. */
  lemma PreparationIsAttempt(history: seq<Migration>, wanted: seq<Migration>)
    ensures history <= wanted <==> Rows(history) <= Rows(wanted)
    ensures !(history <= wanted) ==> Attempt(Rows(history), wanted, {}) == (Rows(history), false)
    ensures history == wanted ==> Attempt(Rows(history), wanted, {}) == (Rows(history), true)
    ensures history < wanted ==>
      Attempt(Rows(history), wanted, {|history| + 1}).0 == Rows(history + [wanted[|history|]])
  {
    if Rows(history) <= Rows(wanted) {
      RowsAreInjective(history, wanted);
    }
    if history <= wanted {
      assert Rows(history) <= Rows(wanted);
      assert wanted[..|wanted|] == wanted;
      if history < wanted {
        assert FirstFailure(wanted, 0, {|history| + 1}) == |history| + 1;
        assert wanted[..|history| + 1] == history + [wanted[|history|]];
      }
    }
  }
}
