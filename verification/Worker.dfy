/**
 * Leased executions on a compute worker (crates/bicdb-app-host/src/worker.rs).
 *
 * Instances are shared: a request may hold one after it has left the table. `objects`
 * therefore keeps every instance ever created, and `table` names the registered ones.
 * Times are milliseconds of one monotone clock.
 */
module Worker {
  import opened Prelude

  const LEASE := 5000
  const START_LIMIT := 60000

  /** `running` is the deadline of the lease of a running process. */
  datatype Instance = Instance(name: string, running: Option<nat>, starting: bool, created: nat)

  predicate Expired(instance: Instance, now: nat) {
    instance.running.Some? && instance.running.value <= now
  }

  predicate Live(instance: Instance, now: nat) {
    instance.running.Some? && now < instance.running.value
  }

  function Stopped(instance: Instance): Instance {
    instance.(running := None)
  }

  function Reaped(instance: Instance, now: nat): Instance {
    if Expired(instance, now) then Stopped(instance) else instance
  }

  /** Whether the reaper leaves the instance in the table. */
  predicate Kept(instance: Instance, now: nat) {
    || Reaped(instance, now).running.Some?
    || (instance.starting && now - instance.created < START_LIMIT)
  }

  // ---------------------------------------------------------------- the worker's state

  /** Activating: the process is being started. Clearing: it runs, its starting flag is still set. */
  datatype Phase = Activating | Clearing

  datatype State = State(now: nat, capacity: nat, objects: map<nat, Instance>, table: map<string, nat>,
                         launching: map<nat, Phase>)

  ghost predicate WellFormed(s: State) {
    && (forall id :: id in s.table ==> s.table[id] in s.objects)
    && (forall r :: r in s.launching ==> r in s.objects)
    && (forall r :: r in s.launching && s.launching[r].Activating? ==> s.objects[r].running.None?)
  }

  /** At most one registered instance per application, and no more than the capacity. */
  ghost predicate Bounded(s: State) {
    && (forall a, b :: a in s.table && b in s.table && a != b
                       && s.table[a] in s.objects && s.table[b] in s.objects ==>
          s.objects[s.table[a]].name != s.objects[s.table[b]].name)
    && |s.table| <= s.capacity
  }

  function Update(s: State, r: nat, instance: Instance): State {
    s.(objects := s.objects[r := instance])
  }

  /** The registrations of `name`. */
  function Registered(s: State, name: string): set<string> {
    set id | id in s.table && s.table[id] in s.objects && s.objects[s.table[id]].name == name
  }

  /** Unregisters the instances of `ids` and stops them. */
  function Without(s: State, ids: set<string>): State {
    var refs := set id | id in ids && id in s.table :: s.table[id];
    s.(table := s.table - ids,
       objects := map r | r in s.objects :: if r in refs then Stopped(s.objects[r]) else s.objects[r])
  }

  function Evicted(s: State, name: string): State {
    Without(s, Registered(s, name))
  }

  lemma OneMoreWithout(s: State, ids: set<string>, id: string)
    requires id in s.table && id !in ids && s.table[id] in s.objects
    ensures var w := Without(s, ids); var r := s.table[id];
            id in w.table && w.table[id] == r && r in w.objects
            && Without(s, ids + {id}) == Update(w, r, Stopped(w.objects[r])).(table := w.table - {id})
  {
    var w, r := Without(s, ids), s.table[id];
    var more := Without(s, ids + {id});
    assert (set i | i in ids + {id} && i in s.table :: s.table[i])
           == (set i | i in ids && i in s.table :: s.table[i]) + {r};
    assert more.objects == w.objects[r := Stopped(w.objects[r])];
    assert more.table == w.table - {id};
  }

  // ---------------------------------------------------------------- steps

  /** What asking the process whether it has exited gives; the question may fail. */
  datatype Probe = Running | Exited | Unknown

  datatype Step =
    | Tick(elapsed: nat)
    | Insert(id: string, name: string, r: nat)
    | Ready(r: nat)
    | Started(r: nat)
    | Abort(r: nat, id: string)
    | Stop(r: nat)
    | Renew(r: nat, probe: Probe)
    | Forward(r: nat)
    | Reap(id: string)

  function Inserted(s: State, id: string, name: string, r: nat): State {
    var evicted := Evicted(s, name);
    if |evicted.table| >= s.capacity then evicted
    else evicted.(objects := evicted.objects[r := Instance(name, None, true, s.now)],
                  table := evicted.table[id := r],
                  launching := s.launching[r := Activating])
  }

  /** A launch of `r` that is in `phase`. */
  predicate Launching(s: State, r: nat, phase: Phase) {
    r in s.launching && s.launching[r] == phase && r in s.objects
  }

  function Apply(s: State, step: Step): Option<State> {
    match step
    case Tick(elapsed) => Some(s.(now := s.now + elapsed))
    case Insert(id, name, r) =>
      if id in s.table || r in s.objects then None else Some(Inserted(s, id, name, r))
    case Ready(r) =>
      if Launching(s, r, Activating)
      then Some(Update(s, r, s.objects[r].(running := Some(s.now + LEASE)))
                .(launching := s.launching[r := Clearing]))
      else None
    case Started(r) =>
      if Launching(s, r, Clearing)
      then Some(Update(s, r, s.objects[r].(starting := false)).(launching := s.launching - {r}))
      else None
    case Abort(r, id) =>
      if Launching(s, r, Activating)
      then Some(s.(table := s.table - {id}, launching := s.launching - {r})) else None
    case Stop(r) => if r in s.objects then Some(Update(s, r, Stopped(s.objects[r]))) else None
    case Renew(r, probe) =>
      if r !in s.objects then None
      else if !Live(s.objects[r], s.now) || probe.Exited? then Some(Update(s, r, Stopped(s.objects[r])))
      else if probe.Unknown? then Some(s)
      else Some(Update(s, r, s.objects[r].(running := Some(s.now + LEASE))))
    case Forward(r) =>
      if r in s.objects then Some(Update(s, r, Reaped(s.objects[r], s.now))) else None
    case Reap(id) =>
      if id !in s.table || s.table[id] !in s.objects then None
      else
        var instance := s.objects[s.table[id]];
        var reaped := Update(s, s.table[id], Reaped(instance, s.now));
        Some(if Kept(instance, s.now) then reaped else reaped.(table := s.table - {id}))
  }

  /** A renewal that extends the lease of `r`, or a request that is forwarded to it. */
  predicate Serves(s: State, step: Step, r: nat) {
    && r in s.objects && Live(s.objects[r], s.now)
    && (step == Renew(r, Running) || step == Forward(r))
  }

  lemma InsertKeepsForm(s: State, id: string, name: string, r: nat)
    requires WellFormed(s) && id !in s.table && r !in s.objects
    ensures WellFormed(Inserted(s, id, name, r))
  {
  }

  lemma StepKeepsForm(s: State, step: Step)
    requires WellFormed(s) && Apply(s, step).Some?
    ensures WellFormed(Apply(s, step).value)
  {
    match step
    case Insert(id, name, r) => InsertKeepsForm(s, id, name, r);
    case Reap(_) =>
    case Abort(_, _) =>
    case _ =>
  }

  function Run(s: State, steps: seq<Step>): Option<State> {
    if steps == [] then Some(s)
    else
      var before := Run(s, steps[..|steps| - 1]);
      if before.Some? then Apply(before.value, steps[|steps| - 1]) else None
  }

  /** Eviction keeps the form, and leaves no instance of the name registered. */
  lemma EvictionKeepsForm(s: State, name: string)
    requires WellFormed(s)
    ensures WellFormed(Evicted(s, name))
    ensures var e := Evicted(s, name);
            forall id :: id in e.table ==> e.objects[e.table[id]].name != name
  {
  }

  lemma EvictionBounds(s: State, name: string)
    requires WellFormed(s) && Bounded(s)
    ensures Bounded(Evicted(s, name))
  {
    var e := Evicted(s, name);
    assert e.table.Keys <= s.table.Keys;
    SmallerMap(e.table, s.table);
  }

  lemma SmallerMap(a: map<string, nat>, b: map<string, nat>)
    requires a.Keys <= b.Keys
    ensures |a| <= |b|
  {
    SubsetIsSmaller(a.Keys, b.Keys);
  }

  /** Registering one more instance, of a name not in the table, within the capacity. */
  lemma AdditionKeepsBounds(e: State, id: string, r: nat, instance: Instance)
    requires WellFormed(e) && Bounded(e) && id !in e.table && r !in e.objects && |e.table| < e.capacity
    requires forall other :: other in e.table ==> e.objects[e.table[other]].name != instance.name
    ensures Bounded(e.(objects := e.objects[r := instance], table := e.table[id := r]))
  {
    var s' := e.(objects := e.objects[r := instance], table := e.table[id := r]);
    assert s'.table.Keys == e.table.Keys + {id};
  }

  lemma InsertKeepsBounds(s: State, id: string, name: string, r: nat)
    requires WellFormed(s) && Bounded(s) && id !in s.table && r !in s.objects
    ensures Bounded(Inserted(s, id, name, r))
  {
    EvictionKeepsForm(s, name);
    EvictionBounds(s, name);
    var e := Evicted(s, name);
    if |e.table| < s.capacity {
      AdditionKeepsBounds(e, id, r, Instance(name, None, true, s.now));
    }
  }

  ghost predicate NoGrowth(s: State, s': State) {
    && s'.capacity == s.capacity
    && s'.table.Keys <= s.table.Keys && (forall id :: id in s'.table ==> s'.table[id] == s.table[id])
    && s.objects.Keys <= s'.objects.Keys
    && (forall r :: r in s.objects ==> s'.objects[r].name == s.objects[r].name)
  }

  /** No other step adds to the table or renames an instance. */
  lemma OtherStepsDoNotGrow(s: State, step: Step)
    requires WellFormed(s) && Apply(s, step).Some? && !step.Insert?
    ensures NoGrowth(s, Apply(s, step).value)
  {
    match step
    case Abort(_, _) =>
    case Reap(_) =>
    case Renew(_, _) =>
    case _ =>
  }

  lemma NoGrowthKeepsBounds(s: State, s': State)
    requires WellFormed(s) && Bounded(s) && NoGrowth(s, s')
    ensures Bounded(s')
  {
    SmallerMap(s'.table, s.table);
  }

  lemma StepKeepsBounds(s: State, step: Step)
    requires WellFormed(s) && Bounded(s) && Apply(s, step).Some?
    ensures Bounded(Apply(s, step).value)
  {
    if step.Insert? {
      InsertKeepsBounds(s, step.id, step.name, step.r);
    } else {
      OtherStepsDoNotGrow(s, step);
      NoGrowthKeepsBounds(s, Apply(s, step).value);
    }
  }

  /** In every run at most one instance per application is registered, within the capacity. */
  lemma {:induction false} EveryRunIsBounded(s: State, steps: seq<Step>)
    requires s.objects == map[] && s.table == map[] && s.launching == map[]
    requires Run(s, steps).Some?
    ensures WellFormed(Run(s, steps).value) && Bounded(Run(s, steps).value)
  {
    if steps != [] {
      var before := steps[..|steps| - 1];
      EveryRunIsBounded(s, before);
      StepKeepsForm(Run(s, before).value, steps[|steps| - 1]);
      StepKeepsBounds(Run(s, before).value, steps[|steps| - 1]);
    }
  }

  // ---------------------------------------------------------------- leases

  /** The lease of `r` has ended: nothing is running, or its deadline has passed. */
  predicate LeaseOver(s: State, r: nat) {
    && r in s.objects && !Launching(s, r, Activating)
    && !Live(s.objects[r], s.now)
  }

  lemma InsertKeepsLeaseOver(s: State, id: string, name: string, fresh': nat, r: nat)
    requires WellFormed(s) && LeaseOver(s, r) && fresh' !in s.objects
    ensures LeaseOver(Inserted(s, id, name, fresh'), r)
  {
  }

  lemma StepKeepsLeaseOver(s: State, step: Step, r: nat)
    requires WellFormed(s) && LeaseOver(s, r) && Apply(s, step).Some?
    ensures LeaseOver(Apply(s, step).value, r)
  {
    match step
    case Insert(id, name, fresh') => InsertKeepsLeaseOver(s, id, name, fresh', r);
    case Ready(_) =>
    case Started(_) =>
    case Abort(_, _) =>
    case Renew(_, _) =>
    case Reap(_) =>
    case _ =>
  }

  /** Once a lease is over it is never renewed and no request is forwarded, reaped or not. */
  lemma {:induction false} EndedLeaseNeverServes(s: State, steps: seq<Step>, r: nat)
    requires WellFormed(s) && LeaseOver(s, r) && Run(s, steps).Some?
    ensures WellFormed(Run(s, steps).value) && LeaseOver(Run(s, steps).value, r)
    ensures forall step :: !Serves(Run(s, steps).value, step, r)
  {
    if steps != [] {
      var before := steps[..|steps| - 1];
      EndedLeaseNeverServes(s, before, r);
      StepKeepsForm(Run(s, before).value, steps[|steps| - 1]);
      StepKeepsLeaseOver(Run(s, before).value, steps[|steps| - 1], r);
    }
  }

  /** An expired lease is over: no launch is still to come for an instance that has run. */
  lemma ExpiryEndsLease(s: State, r: nat)
    requires WellFormed(s) && r in s.objects && Expired(s.objects[r], s.now)
    ensures LeaseOver(s, r)
  {
  }

  /** The step does not end the process of `r`, whose application is `name`. */
  predicate Spares(step: Step, r: nat, name: string) {
    step != Stop(r) && step != Renew(r, Exited) && !(step.Insert? && step.name == name)
  }

  /** The process of `r` may run until `deadline`, which is no later than a new lease would be. */
  predicate MayRunUntil(s: State, r: nat, name: string, deadline: nat) {
    && r in s.objects && s.objects[r].name == name && deadline <= s.now + LEASE
    && s.objects[r].running.Some? && deadline <= s.objects[r].running.value
  }

  lemma InsertHonoursLease(s: State, id: string, name: string, fresh': nat, r: nat, own: string, deadline: nat)
    requires MayRunUntil(s, r, own, deadline) && name != own && fresh' !in s.objects
    ensures MayRunUntil(Inserted(s, id, name, fresh'), r, own, deadline)
  {
  }

  lemma RenewalHonoursLease(s: State, other: nat, probe: Probe, r: nat, name: string, deadline: nat)
    requires MayRunUntil(s, r, name, deadline) && s.now < deadline && other in s.objects
    requires Spares(Renew(other, probe), r, name)
    ensures MayRunUntil(Apply(s, Renew(other, probe)).value, r, name, deadline)
  {
  }

  lemma ReapingHonoursLease(s: State, id: string, r: nat, name: string, deadline: nat)
    requires MayRunUntil(s, r, name, deadline) && s.now < deadline && Apply(s, Reap(id)).Some?
    ensures MayRunUntil(Apply(s, Reap(id)).value, r, name, deadline)
  {
  }

  lemma StepHonoursLease(s: State, step: Step, r: nat, name: string, deadline: nat)
    requires MayRunUntil(s, r, name, deadline) && s.now < deadline && Spares(step, r, name) && Apply(s, step).Some?
    ensures MayRunUntil(Apply(s, step).value, r, name, deadline)
  {
    match step
    case Insert(id, other, fresh') => InsertHonoursLease(s, id, other, fresh', r, name, deadline);
    case Tick(_) =>
    case Ready(_) =>
    case Started(_) =>
    case Abort(_, _) =>
    case Stop(_) =>
    case Renew(other, probe) => RenewalHonoursLease(s, other, probe, r, name, deadline);
    case Forward(_) =>
    case Reap(id) => ReapingHonoursLease(s, id, r, name, deadline);
  }

  lemma {:induction false} LeaseIsHonoured(s: State, steps: seq<Step>, r: nat, name: string, deadline: nat)
    requires MayRunUntil(s, r, name, deadline) && Run(s, steps).Some? && Run(s, steps).value.now < deadline
    requires forall i :: 0 <= i < |steps| ==> Spares(steps[i], r, name)
    ensures MayRunUntil(Run(s, steps).value, r, name, deadline)
  {
    if steps != [] {
      var before := steps[..|steps| - 1];
      TimeAdvances(Run(s, before).value, steps[|steps| - 1]);
      LeaseIsHonoured(s, before, r, name, deadline);
      StepHonoursLease(Run(s, before).value, steps[|steps| - 1], r, name, deadline);
    }
  }

  lemma TimeAdvances(s: State, step: Step)
    requires Apply(s, step).Some?
    ensures s.now <= Apply(s, step).value.now
  {
    match step
    case Insert(_, _, _) =>
    case Renew(_, _) =>
    case _ =>
  }

  /**
   * A renewed lease is worth its full term: whatever happens meanwhile short of ending the
   * process, the instance serves at every time before five seconds have passed.
   */
  lemma RenewedServes(s: State, r: nat, steps: seq<Step>)
    requires r in s.objects && Live(s.objects[r], s.now)
    requires forall i :: 0 <= i < |steps| ==> Spares(steps[i], r, s.objects[r].name)
    ensures Apply(s, Renew(r, Running)).Some?
    ensures var after := Run(Apply(s, Renew(r, Running)).value, steps);
      after.Some? && after.value.now < s.now + 5000 ==> Serves(after.value, Forward(r), r)
  {
    var renewed := Apply(s, Renew(r, Running)).value;
    if Run(renewed, steps).Some? && Run(renewed, steps).value.now < s.now + 5000 {
      LeaseIsHonoured(renewed, steps, r, s.objects[r].name, s.now + 5000);
    }
  }

  /** So is the first lease of a process that has become ready. */
  lemma ReadyServes(s: State, r: nat, steps: seq<Step>)
    requires Launching(s, r, Activating)
    requires forall i :: 0 <= i < |steps| ==> Spares(steps[i], r, s.objects[r].name)
    ensures Apply(s, Ready(r)).Some?
    ensures var after := Run(Apply(s, Ready(r)).value, steps);
      after.Some? && after.value.now < s.now + 5000 ==> Serves(after.value, Forward(r), r)
  {
    var ready := Apply(s, Ready(r)).value;
    if Run(ready, steps).Some? && Run(ready, steps).value.now < s.now + 5000 {
      LeaseIsHonoured(ready, steps, r, s.objects[r].name, s.now + 5000);
    }
  }

  /** Left alone, a renewed lease is over when the five seconds have passed. */
  lemma RenewedExpires(s: State, r: nat, elapsed: nat)
    requires WellFormed(s) && r in s.objects && Live(s.objects[r], s.now)
    ensures var renewed := Apply(s, Renew(r, Running));
      && renewed.Some? && Apply(renewed.value, Tick(elapsed)).Some?
      && (LeaseOver(Apply(renewed.value, Tick(elapsed)).value, r) <==> elapsed >= 5000)
  {
  }

  /** An eviction leaves the registrations of other applications as they are. */
  lemma EvictionSparesOthers(s: State, name: string, id: string)
    requires WellFormed(s) && id in s.table && s.objects[s.table[id]].name != name
    ensures var e := Evicted(s, name); var r := s.table[id];
      id in e.table && e.table[id] == r && e.objects[r] == s.objects[r]
  {
  }

  /** A launch that finds room is registered under its id, and serves as soon as it is ready. */
  lemma LaunchServes(s: State, id: string, name: string, r: nat)
    requires id !in s.table && r !in s.objects && |Evicted(s, name).table| < s.capacity
    ensures var inserted := Apply(s, Insert(id, name, r));
      && inserted.Some? && id in inserted.value.table && inserted.value.table[id] == r
      && r in inserted.value.objects && inserted.value.objects[r].name == name
      && Launching(inserted.value, r, Activating) && !NeverServes(inserted.value, r)
  {
    ActivatingServes(Apply(s, Insert(id, name, r)).value, r);
  }

  /** A launch that is aborted leaves no registration under its id. */
  lemma AbortUnregisters(s: State, r: nat, id: string)
    requires Launching(s, r, Activating)
    ensures var after := Apply(s, Abort(r, id));
      && after.Some? && id !in after.value.table && r !in after.value.launching
      && forall other :: other in s.table && other != id ==>
           other in after.value.table && after.value.table[other] == s.table[other]
  {
  }

  /** From the end of its launch on, an instance is kept only while its lease lasts. */
  lemma StartedIsKeptWhileLive(s: State, r: nat, now: nat)
    requires Launching(s, r, Clearing)
    ensures var after := Apply(s, Started(r));
      && after.Some? && r in after.value.objects && r !in after.value.launching
      && (Kept(after.value.objects[r], now) <==> Live(s.objects[r], now))
  {
  }

  /** The reaper keeps what serves, and what has been starting for less than a minute. */
  lemma KeptMeans(instance: Instance, now: nat)
    ensures Kept(instance, now) <==> Live(instance, now) || (instance.starting && now < instance.created + 60000)
  {
  }

  /** Whatever follows, `r` is neither renewed nor given a request. */
  ghost predicate NeverServes(s: State, r: nat) {
    forall steps, step :: Run(s, steps).Some? ==> !Serves(Run(s, steps).value, step, r)
  }

  /** An instance that is being started, whatever its lease is now, serves once it is ready. */
  lemma ActivatingServes(s: State, r: nat)
    requires Launching(s, r, Activating)
    ensures !NeverServes(s, r)
  {
    var steps := [Ready(r)];
    assert steps[..0] == [] && Run(s, []) == Some(s);
    assert Run(s, steps) == Apply(s, Ready(r));
    assert Serves(Run(s, steps).value, Forward(r), r);
  }

  /**
   * A stop keeps an execution from ever serving again exactly when the instance is not
   * being started. Otherwise the launch goes on, and it serves until its first lease runs out.
   */
  lemma StopIsFinalIffStarted(s: State, r: nat)
    requires WellFormed(s) && r in s.objects
    ensures Apply(s, Stop(r)).Some? && (NeverServes(Apply(s, Stop(r)).value, r) <==> !Launching(s, r, Activating))
  {
    var stopped := Apply(s, Stop(r)).value;
    StepKeepsForm(s, Stop(r));
    if Launching(s, r, Activating) {
      ActivatingServes(stopped, r);
    } else {
      forall steps, step | Run(stopped, steps).Some?
        ensures !Serves(Run(stopped, steps).value, step, r)
      {
        EndedLeaseNeverServes(stopped, steps, r);
      }
    }
  }

  // ---------------------------------------------------------------- the code of each locked section

  datatype Operation = StopIt | RenewIt | Unsupported

  class Worker {
    const capacity: nat
    var objects: map<nat, Instance>
    var table: map<string, nat>
    var launching: map<nat, Phase>

    function At(now: nat): State
      reads this
    {
      State(now, capacity, objects, table, launching)
    }

    constructor (capacity: nat)
      ensures At(0) == State(0, capacity, map[], map[], map[])
    {
      this.capacity := capacity;
      objects, table, launching := map[], map[], map[];
    }

    /** Unregisters and stops every instance of an application. */
    method Evict(name: string, now: nat)
      requires WellFormed(At(now))
      modifies this
      ensures At(now) == Evicted(old(At(now)), name)
    {
      var prior := set other | other in table && objects[table[other]].name == name;
      var todo := prior;
      assert prior - todo == {};
      assert At(now) == Without(At(now), {});
      while todo != {}
        invariant todo <= prior == Registered(old(At(now)), name)
        invariant At(now) == Without(old(At(now)), prior - todo)
        decreases todo
      {
        var other :| other in todo;
        OneMoreWithout(old(At(now)), prior - todo, other);
        assert prior - (todo - {other}) == prior - todo + {other};
        var instance := objects[table[other]];
        objects := objects[table[other] := instance.(running := None)];
        table := table - {other};
        todo := todo - {other};
      }
      assert prior - todo == prior;
    }

    /** The first section of a launch: prior instances of the application go, then one is registered. */
    method Register(id: string, name: string, r: nat, now: nat) returns (ok: bool)
      requires WellFormed(At(now)) && r !in objects
      modifies this
      ensures id in old(table) ==> !ok && At(now) == old(At(now))
      ensures id !in old(table) ==>
        At(now) == Inserted(old(At(now)), id, name, r) && (ok <==> |Evicted(old(At(now)), name).table| < capacity)
    {
      if id in table {
        return false;
      }
      Evict(name, now);
      if |table| >= capacity {
        return false;
      }
      objects := objects[r := Instance(name, None, true, now)];
      table := table[id := r];
      launching := launching[r := Activating];
      return true;
    }

    /** `stop` and `renew` on an instance the caller has looked up. */
    method Control(r: nat, operation: Operation, probe: Probe, now: nat) returns (ok: bool)
      requires r in objects
      modifies this
      ensures operation.StopIt? ==> ok && At(now) == Apply(old(At(now)), Stop(r)).value
      ensures operation.RenewIt? ==>
        At(now) == Apply(old(At(now)), Renew(r, probe)).value && (ok <==> Live(old(objects)[r], now) && probe.Running?)
      ensures operation.Unsupported? ==> !ok && At(now) == old(At(now))
    {
      var instance := objects[r];
      if operation.StopIt? {
        objects := objects[r := instance.(running := None)];
        return true;
      }
      if !operation.RenewIt? {
        return false;
      }
      if instance.running.None? {
        assert objects == objects[r := Stopped(instance)];
        return false;
      }
      if instance.running.value <= now || probe.Exited? {
        objects := objects[r := instance.(running := None)];
        return false;
      }
      if probe.Unknown? {
        return false;
      }
      objects := objects[r := instance.(running := Some(now + LEASE))];
      return true;
    }

    /** The lease check of a request for `r`. */
    method Route(r: nat, now: nat) returns (ok: bool)
      requires r in objects
      modifies this
      ensures At(now) == Apply(old(At(now)), Forward(r)).value
      ensures ok <==> Serves(old(At(now)), Forward(r), r)
    {
      var instance := objects[r];
      assert objects == objects[r := instance];
      if instance.running.None? {
        return false;
      }
      if instance.running.value <= now {
        objects := objects[r := instance.(running := None)];
        return false;
      }
      return true;
    }

    method ReapOne(id: string, now: nat)
      requires WellFormed(At(now)) && id in table
      modifies this
      ensures Apply(old(At(now)), Reap(id)) == Some(At(now))
      ensures id in table <==> Kept(old(objects)[old(table)[id]], now)
      ensures forall other :: other in old(table) && other != id ==> other in table
      ensures forall other :: other in table ==>
        && other in old(table) && table[other] == old(table)[other]
        && (Kept(old(objects)[old(table)[other]], now) <==> Kept(objects[table[other]], now))
    {
      var r := table[id];
      var instance := objects[r];
      if instance.running.Some? && instance.running.value <= now {
        instance := instance.(running := None);
      }
      objects := objects[r := instance];
      if !(instance.running.Some? || (instance.starting && now - instance.created < START_LIMIT)) {
        table := table - {id};
      }
    }

    /** One round of the reaper: a run of reaping steps that leaves only what is to be kept. */
    method ReapAll(now: nat) returns (ghost steps: seq<Step>)
      requires WellFormed(At(now))
      modifies this
      ensures WellFormed(At(now)) && Run(old(At(now)), steps) == Some(At(now))
      ensures forall i :: 0 <= i < |steps| ==> steps[i].Reap? && steps[i].id in old(table)
      ensures forall id :: id in table <==> id in old(table) && Kept(old(objects)[old(table)[id]], now)
    {
      steps := [];
      var todo := table.Keys;
      while todo != {}
        invariant WellFormed(At(now)) && Run(old(At(now)), steps) == Some(At(now))
        invariant forall i :: 0 <= i < |steps| ==> steps[i].Reap? && steps[i].id in old(table)
        invariant todo <= table.Keys <= old(table).Keys
        invariant forall id :: id in table ==>
          table[id] == old(table)[id]
          && (Kept(old(objects)[old(table)[id]], now) <==> Kept(objects[table[id]], now))
        invariant forall id :: id in old(table) && id !in todo ==>
          (id in table <==> Kept(old(objects)[old(table)[id]], now))
        decreases todo
      {
        var id :| id in todo;
        ghost var before := At(now);
        ReapOne(id, now);
        StepKeepsForm(before, Reap(id));
        todo := todo - {id};
        assert (steps + [Reap(id)])[..|steps|] == steps;
        steps := steps + [Reap(id)];
      }
    }
  }
}
