/**
 * The operations of one application as the host carries them out when nothing
 * interleaves (crates/bicdb-app-host/src/server.rs): fields updated section by section,
 * each section one step of the machine of module Deployment. An operation therefore is
 * a run of the machine, and everything proved of its runs holds of the object.
 */
module Applications {
  import opened Prelude
  import opened Migrations
  import opened Deployment

  /** No operation is in progress. */
  predicate IsIdle(s: Host) {
    s.up && s.app.Some? && s.admin.None? && !s.gated && s.supervisor.None? && s.lock.Nobody? && s.queries == map[]
  }

  function ActorOf(task: Task): Actor {
    if task.kind.Restarting? then Supervisor else Admin
  }

  lemma RunExtends(origin: Host, steps: seq<Step>, before: Host, step: Step)
    requires Run(origin, steps) == Some(before)
    ensures Run(origin, steps + [step]) == Apply(before, step)
  {
    assert (steps + [step])[..|steps|] == steps;
  }

  class Application {
    var deployment: Record
    var release: Release
    var process: Option<Execution>
    var token: Token
    // the store's deployment.json and the database's migration table
    var disk: Option<Record>
    var history: seq<Migration>
    // the next token to draw; no token is drawn twice
    var next: Token
    ghost var issued: map<Token, Release>

    // where the current operation is
    ghost var task: Option<Task>
    ghost var lock: Holder

    // the run of the machine that led here
    ghost const origin: Host
    ghost var trace: seq<Step>

    ghost function Machine(): Host
      reads this
    {
      var supervising := task.Some? && ActorOf(task.value).Supervisor?;
      Host(disk, history, true, Some(App(deployment, release, process, token)),
           if supervising then None else task, task.Some? && !supervising, if supervising then task else None,
           lock, map[], next, issued)
    }

    ghost predicate Valid()
      reads this
    {
      Run(origin, trace) == Some(Machine())
    }

    ghost predicate Idle()
      reads this
    {
      Valid() && task.None? && lock.Nobody?
    }

    /** The operation `t` is in progress, at `stage`. */
    ghost predicate Reached(t: Task, stage: Stage)
      reads this
    {
      Valid() && task == Some(t.(stage := stage))
    }

    constructor (s: Host)
      requires IsIdle(s) && Inv(s)
      ensures Idle() && Machine() == s && origin == s
    {
      var app := s.app.value;
      deployment, release, process, token := app.deployment, app.release, app.process, app.token;
      disk, history, next, issued := s.disk, s.history, s.next, s.issued;
      task, lock := None, Nobody;
      origin, trace := s, [];
    }

    /** The fields have changed from `before` as the machine's step changes them. */
    ghost method Log(before: Host, step: Step)
      requires Run(origin, trace) == Some(before) && Apply(before, step) == Some(Machine())
      modifies this`trace
      ensures Valid() && trace == old(trace) + [step]
    {
      RunExtends(origin, trace, before, step);
      trace := trace + [step];
    }

    // ---------------------------------------------------------------- sections

    /** A fresh token takes the place of the one in force. */
    method ReplaceToken(ghost t: Task, ghost stage: Stage)
      requires Reached(t, stage) && (stage.Fencing? || stage.Failing?)
      modifies this`token, this`next, this`task, this`trace
      ensures Reached(t, if stage.Fencing? then Draining else Disabling)
      ensures token == old(next) && next == old(next) + 1
    {
      ghost var before := Machine();
      token, next := next, next + 1;
      task := Some(t.(stage := if stage.Fencing? then Draining else Disabling));
      Log(before, Advance(ActorOf(t), Succeeds));
    }

    method TakeExecution(ghost t: Task)
      requires Reached(t, Draining)
      modifies this`process, this`task, this`trace
      ensures Reached(t, if t.kind.Deploying? then Recording else Persisting)
      ensures process == None
    {
      ghost var before := Machine();
      process := None;
      task := Some(t.(stage := if t.kind.Deploying? then Recording else Persisting));
      Log(before, Advance(ActorOf(t), Succeeds));
    }

    method RecordNonServing(record: Record, ghost t: Task)
      requires Reached(t, Recording) && record == NonServing(t.target)
      modifies this`deployment, this`task, this`trace
      ensures Reached(t, if t.kind.Deploying? then Loading else Fencing)
      ensures deployment == record
    {
      ghost var before := Machine();
      deployment := record;
      task := Some(t.(stage := if t.kind.Deploying? then Loading else Fencing));
      Log(before, Advance(ActorOf(t), Succeeds));
    }

    method SetRelease(r: Release, ghost t: Task)
      requires Reached(t, Loading) && r == t.target.release
      modifies this`release, this`task, this`trace
      ensures Reached(t, if t.kind.Deploying? then Persisting else Installing)
      ensures release == r
    {
      ghost var before := Machine();
      release := r;
      task := Some(t.(stage := if t.kind.Deploying? then Persisting else Installing));
      Log(before, Advance(ActorOf(t), Succeeds));
    }

    /** What each durable write writes, and what follows it. */
    ghost predicate Persists(t: Task, stage: Stage, record: Record, after: Stage) {
      match stage
      case Persisting => record == NonServing(t.target) && after == Locking
      case Disabling => record == NonServing(t.target) && after == Disabled
      case Publishing(execution) =>
        record == t.target && after == if t.kind.Deploying? then Occupying(execution) else Enabling(execution)
      case _ => false
    }

    /** The record replaces the file; a failure ends the operation. */
    method Persist(record: Record, outcome: Outcome, ghost t: Task, ghost stage: Stage, ghost after: Stage)
      returns (ok: bool)
      requires Reached(t, stage) && Persists(t, stage, record, after)
      modifies this`disk, this`task, this`trace
      ensures ok == outcome.Succeeds?
      ensures disk == if outcome.Fails? then old(disk) else Some(record)
      ensures if ok then Reached(t, after) else Valid() && task == None
    {
      ghost var before := Machine();
      ok := outcome.Succeeds?;
      if !outcome.Fails? {
        disk := Some(record);
      }
      task := if ok then Some(t.(stage := after)) else None;
      Log(before, Advance(ActorOf(t), outcome));
    }

    method LockDatabase(ghost t: Task)
      requires Reached(t, Locking) && lock.Nobody?
      modifies this`lock, this`task, this`trace
      ensures Reached(t, if t.kind.Stopping? then Closing else Preparing) && lock == Working(ActorOf(t))
    {
      ghost var before := Machine();
      lock := Working(ActorOf(t));
      task := Some(t.(stage := if t.kind.Stopping? then Closing else Preparing));
      Log(before, Advance(ActorOf(t), Succeeds));
    }

    /** One migration of the release, in its own transaction. */
    method ApplyMigration(wanted: seq<Migration>, ghost t: Task)
      requires Reached(t, Preparing) && wanted == t.prepared.migrations
      requires |history| < |wanted| && history == wanted[..|history|]
      modifies this`history, this`trace
      ensures Reached(t, Preparing)
      ensures |history| == |old(history)| + 1 && history == wanted[..|history|]
    {
      ghost var before := Machine();
      history := history + [wanted[|history|]];
      Log(before, Advance(ActorOf(t), Succeeds));
    }

    method FinishPreparation(ghost t: Task)
      requires Reached(t, Preparing) && history == t.prepared.migrations
      modifies this`lock, this`task, this`trace
      ensures Reached(t, if t.kind.Launching? then Loading else Installing) && lock.Nobody?
    {
      ghost var before := Machine();
      lock := Nobody;
      task := Some(t.(stage := if t.kind.Launching? then Loading else Installing));
      Log(before, Advance(ActorOf(t), Succeeds));
    }

    /** What is left after a failed preparation or activation. */
    ghost predicate Abandoned(t: Task)
      reads this
    {
      if t.kind.Deploying? then Reached(t, Failing) else Valid() && task.None?
    }

    /** A supervisor's restart replaces the token once more, a deployment does so later. */
    method FailPreparation(kind: Kind, ghost t: Task, ghost outcome: Outcome)
      requires Reached(t, Preparing) && kind == t.kind
      requires !outcome.Succeeds? || !(history <= t.prepared.migrations)
      modifies this`lock, this`token, this`next, this`task, this`trace
      ensures Abandoned(t) && lock.Nobody?
      ensures token == old(token) || token >= old(next)
      ensures next >= old(next)
    {
      ghost var before := Machine();
      lock := Nobody;
      if kind.Restarting? {
        token, next := next, next + 1;
      }
      task := if kind.Deploying? then Some(t.(stage := Failing)) else None;
      Log(before, Advance(ActorOf(t), outcome));
    }

    /** Applies the missing migrations in order, stopping before the one where it stumbles. */
    method Migrate(wanted: seq<Migration>, stumbles: Option<nat>, ghost t: Task)
      requires Reached(t, Preparing) && wanted == t.prepared.migrations
      requires |history| <= |wanted| && history == wanted[..|history|]
      modifies this`history, this`trace
      ensures Reached(t, Preparing) && |history| <= |wanted| && history == wanted[..|history|]
      ensures |history| == if stumbles.Some? && |old(history)| <= stumbles.value <= |wanted|
        then stumbles.value else |wanted|
    {
      ghost var stop := if stumbles.Some? && |history| <= stumbles.value <= |wanted|
                        then stumbles.value else |wanted|;
      while |history| < |wanted| && stumbles != Some(|history|)
        invariant Reached(t, Preparing)
        invariant |old(history)| <= |history| <= stop && history == wanted[..|history|]
        decreases |wanted| - |history|
      {
        ApplyMigration(wanted, t);
      }
    }

    /**
     * Applies what the history lacks of the release's migrations, in order, stopping
     * where `stumbles` says; refuses a history that is no prefix of them.
     */
    method Prepare(kind: Kind, wanted: seq<Migration>, stumbles: Option<nat>, ghost t: Task) returns (ok: bool)
      requires Reached(t, Locking) && lock.Nobody? && !t.kind.Stopping?
      requires kind == t.kind && wanted == t.prepared.migrations
      modifies this`history, this`lock, this`token, this`next, this`task, this`trace
      ensures lock.Nobody? && (token == old(token) || token >= old(next)) && next >= old(next)
      ensures ok <==> old(history) <= wanted
                      && !(stumbles.Some? && |old(history)| <= stumbles.value <= |wanted|)
      ensures ok ==> history == wanted && Reached(t, if kind.Launching? then Loading else Installing)
      ensures !ok ==> Abandoned(t)
      ensures !ok ==> history == if !(old(history) <= wanted) then old(history) else wanted[..stumbles.value]
    {
      LockDatabase(t);
      if !(history <= wanted) {
        FailPreparation(kind, t, Succeeds);
        return false;
      }
      Migrate(wanted, stumbles, t);
      if stumbles == Some(|history|) {
        FailPreparation(kind, t, Fails);
        return false;
      }
      FinishPreparation(t);
      return true;
    }

    /** Hands a fresh token to a new execution. */
    method InstallToken(r: Release, ghost t: Task)
      requires Reached(t, Installing) && r == t.target.release
      modifies this`token, this`next, this`issued, this`task, this`trace
      ensures Reached(t, Starting(token)) && token == old(next) && next == old(next) + 1
    {
      ghost var before := Machine();
      token, next := next, next + 1;
      issued := issued[token := r];
      task := Some(t.(stage := Starting(token)));
      Log(before, Advance(ActorOf(t), Succeeds));
    }

    method FailInstall(kind: Kind, ghost t: Task)
      requires Reached(t, Installing) && kind == t.kind
      modifies this`token, this`next, this`task, this`trace
      ensures Abandoned(t) && (token == old(token) || token >= old(next))
    {
      ghost var before := Machine();
      if kind.Restarting? {
        token, next := next, next + 1;
      }
      task := if kind.Deploying? then Some(t.(stage := Failing)) else None;
      Log(before, Advance(ActorOf(t), Fails));
    }

    /** Where an execution that is ready goes: into the record first, or into the slot. */
    ghost function ReadyStage(t: Task, execution: Execution): Stage {
      if t.kind.Deploying? || t.kind.Launching? then Publishing(execution) else Occupying(execution)
    }

    method AwaitReady(kind: Kind, r: Release, ready: bool, ghost t: Task) returns (execution: Option<Execution>)
      requires Reached(t, Starting(token)) && kind == t.kind && r == t.target.release
      modifies this`token, this`next, this`task, this`trace
      ensures execution == if ready then Some(Execution(r, old(token))) else None
      ensures ready ==> token == old(token) && Reached(t, ReadyStage(t, execution.value))
      ensures !ready ==> Abandoned(t) && token >= old(next)
    {
      ghost var before := Machine();
      if ready {
        execution := Some(Execution(r, token));
        task := Some(t.(stage := ReadyStage(t, execution.value)));
        Log(before, Advance(ActorOf(t), Succeeds));
      } else {
        execution := None;
        token, next := next, next + 1;
        if kind.Restarting? {
          token, next := next, next + 1;
        }
        task := if kind.Deploying? then Some(t.(stage := Failing)) else None;
        Log(before, Advance(ActorOf(t), Fails));
      }
    }

    method Launch(kind: Kind, r: Release, admissible: bool, ready: bool, ghost t: Task)
      returns (execution: Option<Execution>)
      requires Reached(t, Installing) && kind == t.kind && r == t.target.release
      modifies this`token, this`next, this`issued, this`task, this`trace
      ensures execution.Some? <==> admissible && ready
      ensures execution.Some? ==>
        execution.value == Execution(r, token) && token == old(next) && Reached(t, ReadyStage(t, execution.value))
      ensures execution.None? ==> Abandoned(t) && (token == old(token) || token >= old(next))
    {
      if !admissible {
        FailInstall(kind, t);
        return None;
      }
      InstallToken(r, t);
      execution := AwaitReady(kind, r, ready, t);
    }

    method Occupy(execution: Execution, ghost t: Task)
      requires Reached(t, Occupying(execution))
      modifies this`process, this`task, this`trace
      ensures process == Some(execution)
      ensures if t.kind.Deploying? then Reached(t, Enabling(execution)) else Valid() && task.None?
    {
      ghost var before := Machine();
      process := Some(execution);
      task := if t.kind.Deploying? then Some(t.(stage := Enabling(execution))) else None;
      Log(before, Advance(ActorOf(t), Succeeds));
    }

    method RecordServing(record: Record, execution: Execution, ghost t: Task)
      requires Reached(t, Enabling(execution)) && record == t.target
      modifies this`deployment, this`task, this`trace
      ensures deployment == record
      ensures if t.kind.Deploying? then Valid() && task.None? else Reached(t, Occupying(execution))
    {
      ghost var before := Machine();
      deployment := record;
      task := if t.kind.Deploying? then None else Some(t.(stage := Occupying(execution)));
      Log(before, Advance(ActorOf(t), Succeeds));
    }

    method RecordDisabled(record: Record, ghost t: Task)
      requires Reached(t, Disabled) && record == NonServing(t.target)
      modifies this`deployment, this`task, this`trace
      ensures deployment == record && Valid() && task.None?
    {
      ghost var before := Machine();
      deployment := record;
      task := None;
      Log(before, Advance(ActorOf(t), Succeeds));
    }

    method UnlockDatabase(ghost t: Task)
      requires Reached(t, Closing)
      modifies this`lock, this`task, this`trace
      ensures Idle()
    {
      ghost var before := Machine();
      lock, task := Nobody, None;
      Log(before, Advance(ActorOf(t), Succeeds));
    }

    // ---------------------------------------------------------------- operations

    ghost method Begin(t: Task, step: Step)
      requires Idle() && (step.Start? || step.Stop?) && (step.Start? ==> process.None?)
      requires t == if step.Start?
        then Task(Launching, deployment.(enabled := true), deployment.release, Locking)
        else Task(Stopping, NonServing(deployment), deployment.release, Recording)
      modifies this`task, this`trace
      ensures Reached(t, t.stage)
    {
      ghost var before := Machine();
      task := Some(t);
      Log(before, step);
    }

    ghost method BeginDeploying(r: Release, t: Task)
      requires Idle() && deployment.generation < MAX_GENERATION
      requires t == Task(Deploying,
                         Record(r, if deployment.release == r then None else Some(deployment.release),
                                deployment.generation + 1, true), r, Fencing)
      modifies this`task, this`trace
      ensures Reached(t, Fencing)
    {
      ghost var before := Machine();
      task := Some(t);
      Log(before, Step.Deploy(r));
    }

    /**
     * Either the new release runs against exactly its migrations and is recorded as
     * serving, or nothing runs and nothing is recorded as serving in memory; an
     * exhausted generation changes nothing.
     */
    method Deploy(r: Release, withdrawn: Outcome, stumbles: Option<nat>, admissible: bool, ready: bool,
                  published: Outcome, disabled: Outcome)
      returns (ok: bool)
      requires Idle()
      modifies this
      ensures Idle()
      ensures ok <==>
        && old(deployment).generation < MAX_GENERATION
        && withdrawn.Succeeds? && admissible && ready && published.Succeeds?
        && old(history) <= r.migrations
        && !(stumbles.Some? && |old(history)| <= stumbles.value <= |r.migrations|)
      ensures old(deployment).generation >= MAX_GENERATION ==> Machine() == old(Machine())
      ensures old(deployment).generation < MAX_GENERATION ==>
        && release == r
        && deployment == Record(r, if old(deployment).release == r then None else Some(old(deployment).release),
                                old(deployment).generation + 1, ok)
      ensures ok ==> disk == Some(deployment) && process == Some(Execution(r, token)) && history == r.migrations
      ensures !ok && old(deployment).generation < MAX_GENERATION ==> process.None?
      ensures !withdrawn.Succeeds? ==> history == old(history)
    {
      if deployment.generation >= MAX_GENERATION {
        return false;
      }
      var target := Record(r, if deployment.release == r then None else Some(deployment.release),
                           deployment.generation + 1, true);
      ghost var t := Task(Deploying, target, r, Fencing);
      ok := Withdraw(r, target, withdrawn, t);
      if ok {
        var execution := Activate(r, stumbles, admissible, ready, t);
        if execution.Some? {
          ok := Publish(target, execution.value, published, t);
        } else {
          ok := false;
          Disable(NonServing(target), disabled, t);
        }
      }
    }

    /** Stops the running code and records that nothing serves, before any migration. */
    method Withdraw(r: Release, target: Record, withdrawn: Outcome, ghost t: Task) returns (ok: bool)
      requires Idle() && deployment.generation < MAX_GENERATION
      requires t == Task(Deploying, target, r, Fencing)
      requires target == Record(r, if deployment.release == r then None else Some(deployment.release),
                                deployment.generation + 1, true)
      modifies this`deployment, this`release, this`process, this`token, this`next, this`disk, this`task, this`trace
      ensures ok == withdrawn.Succeeds?
      ensures release == r && deployment == NonServing(target) && process.None?
      ensures if ok then Reached(t, Locking) else Valid() && task.None?
    {
      BeginDeploying(r, t);
      ReplaceToken(t, Fencing);
      TakeExecution(t);
      RecordNonServing(NonServing(target), t);
      SetRelease(r, t);
      ok := Persist(NonServing(target), withdrawn, t, Persisting, Locking);
    }

    method Activate(r: Release, stumbles: Option<nat>, admissible: bool, ready: bool, ghost t: Task)
      returns (execution: Option<Execution>)
      requires Reached(t, Locking) && lock.Nobody? && t.kind.Deploying?
      requires t.prepared == r && t.target.release == r
      modifies this`history, this`lock, this`token, this`next, this`issued, this`task, this`trace
      ensures lock.Nobody?
      ensures execution.Some? <==>
        && admissible && ready && old(history) <= r.migrations
        && !(stumbles.Some? && |old(history)| <= stumbles.value <= |r.migrations|)
      ensures execution.Some? ==>
        && execution.value == Execution(r, token) && history == r.migrations
        && Reached(t, Publishing(execution.value))
      ensures execution.None? ==> Reached(t, Failing)
    {
      var ok := Prepare(Deploying, r.migrations, stumbles, t);
      execution := None;
      if ok {
        execution := Launch(Deploying, r, admissible, ready, t);
      }
    }

    /** The serving record is durable before the new code is reachable. */
    method Publish(target: Record, execution: Execution, published: Outcome, ghost t: Task) returns (ok: bool)
      requires Reached(t, Publishing(execution)) && t.kind.Deploying? && target == t.target
      modifies this`deployment, this`process, this`disk, this`task, this`trace
      ensures ok == published.Succeeds? && Valid() && task.None?
      ensures ok ==> deployment == target && process == Some(execution) && disk == Some(target)
      ensures !ok ==> deployment == old(deployment) && process == old(process)
    {
      ok := Persist(target, published, t, Publishing(execution), Occupying(execution));
      if ok {
        Occupy(execution, t);
        RecordServing(target, execution, t);
      }
    }

    /** After a failed activation the previous code does not run against the new schema. */
    method Disable(record: Record, disabled: Outcome, ghost t: Task)
      requires Reached(t, Failing) && t.kind.Deploying? && record == NonServing(t.target) && deployment == record
      modifies this`deployment, this`disk, this`token, this`next, this`task, this`trace
      ensures Valid() && task.None? && deployment == record
    {
      ReplaceToken(t, Failing);
      var ok := Persist(record, disabled, t, Disabling, Disabled);
      if ok {
        RecordDisabled(record, t);
      }
    }

    /** Runs the previous release, which has to keep the applied migrations. */
    method Rollback(withdrawn: Outcome, stumbles: Option<nat>, admissible: bool, ready: bool,
                    published: Outcome, disabled: Outcome)
      returns (ok: bool)
      requires Idle()
      modifies this
      ensures Idle()
      ensures old(deployment).previous.None? ==> !ok && Machine() == old(Machine())
      ensures old(deployment).previous.Some? && !(old(history) <= old(deployment).previous.value.migrations) ==>
        !ok && (old(deployment).generation < MAX_GENERATION ==> process.None? && !deployment.enabled)
      ensures ok ==> old(deployment).previous == Some(release) && process == Some(Execution(release, token))
                     && history == release.migrations
    {
      if deployment.previous.None? {
        return false;
      }
      ok := Deploy(deployment.previous.value, withdrawn, stumbles, admissible, ready, published, disabled);
    }

    /** Leaves nothing running and the record non-serving, durably unless the write fails. */
    method Stop(withdrawn: Outcome) returns (ok: bool)
      requires Idle()
      modifies this
      ensures Idle() && ok == withdrawn.Succeeds?
      ensures deployment == NonServing(old(deployment)) && process.None? && token == old(next)
      ensures release == old(release) && history == old(history)
      ensures disk == if withdrawn.Fails? then old(disk) else Some(deployment)
    {
      var target := NonServing(deployment);
      ghost var t := Task(Stopping, target, target.release, Recording);
      TakeDown(target, t);
      ok := Persist(target, withdrawn, t, Persisting, Locking);
      if ok {
        DrainDatabase(t);
      }
    }

    /** Waits until nothing uses the database any more. */
    method DrainDatabase(ghost t: Task)
      requires Reached(t, Locking) && lock.Nobody? && t.kind.Stopping?
      modifies this`lock, this`task, this`trace
      ensures Idle()
    {
      LockDatabase(t);
      UnlockDatabase(t);
    }

    method TakeDown(target: Record, ghost t: Task)
      requires Idle() && target == NonServing(deployment)
      requires t == Task(Stopping, target, target.release, Recording)
      modifies this`deployment, this`process, this`token, this`next, this`task, this`trace
      ensures Reached(t, Persisting) && deployment == target && process.None? && token == old(next)
    {
      Begin(t, Step.Stop);
      RecordNonServing(target, t);
      ReplaceToken(t, Fencing);
      TakeExecution(t);
    }

    /** Runs the recorded release again; does nothing when something is running. */
    method Start(stumbles: Option<nat>, admissible: bool, ready: bool, published: Outcome) returns (ok: bool)
      requires Idle()
      modifies this
      ensures Idle()
      ensures old(process).Some? ==> ok && Machine() == old(Machine())
      ensures old(process).None? ==>
        (ok <==>
           && admissible && ready && published.Succeeds?
           && old(history) <= old(deployment).release.migrations
           && !(stumbles.Some? && |old(history)| <= stumbles.value <= |old(deployment).release.migrations|))
      ensures old(process).None? && ok ==>
        && deployment == old(deployment).(enabled := true) && disk == Some(deployment)
        && release == deployment.release && process == Some(Execution(release, token))
        && history == release.migrations
      ensures !ok ==> process.None? && deployment == old(deployment)
    {
      if process.Some? {
        return true;
      }
      var r, target := deployment.release, deployment.(enabled := true);
      ghost var t := Task(Launching, target, r, Locking);
      Begin(t, Step.Start);
      var execution := Reactivate(r, stumbles, admissible, ready, t);
      ok := false;
      if execution.Some? {
        ok := Resume(target, execution.value, published, t);
      }
    }

    method Reactivate(r: Release, stumbles: Option<nat>, admissible: bool, ready: bool, ghost t: Task)
      returns (execution: Option<Execution>)
      requires Reached(t, Locking) && lock.Nobody? && t.kind.Launching?
      requires t.prepared == r && t.target.release == r
      modifies this`history, this`lock, this`release, this`token, this`next, this`issued, this`task, this`trace
      ensures lock.Nobody?
      ensures execution.Some? <==>
        && admissible && ready && old(history) <= r.migrations
        && !(stumbles.Some? && |old(history)| <= stumbles.value <= |r.migrations|)
      ensures execution.Some? ==>
        && execution.value == Execution(r, token) && history == r.migrations && release == r
        && Reached(t, Publishing(execution.value))
      ensures execution.None? ==> Valid() && task.None?
    {
      execution := None;
      var ok := Prepare(Launching, r.migrations, stumbles, t);
      if ok {
        SetRelease(r, t);
        execution := Launch(Launching, r, admissible, ready, t);
      }
    }

    method Resume(target: Record, execution: Execution, published: Outcome, ghost t: Task) returns (ok: bool)
      requires Reached(t, Publishing(execution)) && t.kind.Launching? && target == t.target
      modifies this`deployment, this`process, this`disk, this`task, this`trace
      ensures ok == published.Succeeds? && Valid() && task.None?
      ensures ok ==> deployment == target && process == Some(execution) && disk == Some(target)
      ensures !ok ==> deployment == old(deployment) && process == old(process)
    {
      ok := Persist(target, published, t, Publishing(execution), Enabling(execution));
      if ok {
        RecordServing(target, execution, t);
        Occupy(execution, t);
      }
    }

    /** One round of the supervisor: an enabled application whose execution is gone gets a new one. */
    method Supervise(exited: bool, stumbles: Option<nat>, admissible: bool, ready: bool)
      requires Idle() && Inv(origin)
      modifies this
      ensures Idle() && deployment == old(deployment) && release == old(release) && disk == old(disk)
      ensures !old(deployment).enabled || (old(process).Some? && !exited) ==> Machine() == old(Machine())
      ensures old(deployment).enabled && (old(process).None? || exited) ==>
        && token >= old(next)
        && (process.Some? <==>
              && admissible && ready && old(history) <= release.migrations
              && !(stumbles.Some? && |old(history)| <= stumbles.value <= |release.migrations|))
        && (process.Some? ==> process == Some(Execution(release, token)) && history == release.migrations)
    {
      if !deployment.enabled || (process.Some? && !exited) {
        return;
      }
      RunningCodeMeetsItsSchema(this);
      Restart(stumbles, admissible, ready);
    }

    method Restart(stumbles: Option<nat>, admissible: bool, ready: bool)
      requires Idle() && deployment.enabled && release == deployment.release
      modifies this`process, this`history, this`lock, this`token, this`next, this`issued, this`task, this`trace
      ensures Idle() && token >= old(next)
      ensures process.Some? <==>
        && admissible && ready && old(history) <= release.migrations
        && !(stumbles.Some? && |old(history)| <= stumbles.value <= |release.migrations|)
      ensures process.Some? ==> process == Some(Execution(release, token)) && history == release.migrations
    {
      ghost var t := Task(Restarting, deployment, release, Locking);
      Vacate(t);
      var ok := Prepare(Restarting, release.migrations, stumbles, t);
      if ok {
        var execution := Launch(Restarting, release, admissible, ready, t);
        if execution.Some? {
          Occupy(execution.value, t);
        }
      }
    }

    /** The token goes before the execution does, so that nothing it sent is accepted any more. */
    method Vacate(ghost t: Task)
      requires Idle() && deployment.enabled && t == Task(Restarting, deployment, release, Locking)
      modifies this`process, this`token, this`next, this`task, this`trace
      ensures Reached(t, Locking) && process.None? && token == old(next) && next == old(next) + 1
    {
      ghost var before := Machine();
      token, next := next, next + 1;
      process := None;
      task := Some(t);
      Log(before, Step.Supervise);
    }

    /** Drops the execution that bears `bearer`; another one is left alone. */
    method RetireExecution(bearer: Token)
      requires Idle()
      modifies this
      ensures Idle()
      ensures if old(process).Some? && old(process).value.token == bearer
              then process.None? && token == old(next) else Machine() == old(Machine())
      ensures deployment == old(deployment) && release == old(release) && history == old(history) && disk == old(disk)
    {
      if process.Some? && process.value.token == bearer {
        ghost var before := Machine();
        token, next := next, next + 1;
        process := None;
        Log(before, Step.Retire);
      }
    }
  }

  /** Whatever operations led here, running code meets exactly its own schema. */
  lemma RunningCodeMeetsItsSchema(app: Application)
    requires app.Idle() && Inv(app.origin)
    ensures app.process.Some? ==> app.history == app.process.value.release.migrations
    ensures app.release == app.deployment.release
  {
    RunKeepsInv(app.origin, app.trace);
  }
}
