/**
 * Capacity accounting of remote workers (crates/bicdb-app-host/src/fleet.rs).
 *
 * A launch reserves a slot on a worker under the fleet lock, builds a remote and
 * activates it; every remote gives its slot back when it is retired, explicitly or by
 * being dropped. `Fleet` is the code of one caller; the machine below it interleaves
 * the lock-protected sections of any number of callers.
 */
module Fleet {
  import opened Prelude

  datatype Entry = Entry(capacity: nat, assignedCount: nat, retryAfter: nat)

  type Entries = map<string, Entry>

  const RETRY_DELAY := 3000

  function Claimed(entries: Entries, worker: string): Entries
    requires worker in entries
  {
    entries[worker := entries[worker].(assignedCount := entries[worker].assignedCount + 1)]
  }

  /** `saturating_sub`. */
  function Decrement(n: nat): nat {
    if n == 0 then 0 else n - 1
  }

  function Freed(entries: Entries, worker: string): Entries {
    if worker in entries
    then entries[worker := entries[worker].(assignedCount := Decrement(entries[worker].assignedCount))]
    else entries
  }

  function Deferred(entries: Entries, worker: string, until: nat): Entries {
    if worker in entries then entries[worker := entries[worker].(retryAfter := until)] else entries
  }

  ghost predicate SameAccounts(a: Entries, b: Entries) {
    && a.Keys == b.Keys
    && forall w :: w in a ==> a[w].assignedCount == b[w].assignedCount && a[w].capacity == b[w].capacity
  }

  predicate Full(entry: Entry) {
    entry.assignedCount >= entry.capacity
  }

  class Fleet {
    var entries: Entries

    constructor (workers: Entries)
      requires forall w :: w in workers ==> workers[w].assignedCount == 0
      ensures entries == workers
    {
      entries := workers;
    }

    /** Tries the candidates in turn; `activates` and `authorized` are what the network answers. */
    method Launch(candidates: seq<string>, activates: seq<bool>, authorized: seq<bool>, now: nat)
      returns (chosen: Option<string>, ghost refused: nat)
      requires |activates| == |candidates| && |authorized| == 2 * |candidates|
      requires forall i :: 0 <= i < |candidates| ==> candidates[i] in entries
      modifies this
      ensures chosen.None? ==> SameAccounts(entries, old(entries))
      ensures chosen.Some? ==>
        && chosen.value in candidates && chosen.value in entries
        && entries[chosen.value].assignedCount == old(entries)[chosen.value].assignedCount + 1
        && entries[chosen.value].assignedCount <= entries[chosen.value].capacity
        && SameAccounts(Freed(entries, chosen.value), old(entries))
        && refused < |candidates| && chosen.value == candidates[refused] && activates[refused]
        && !Full(old(entries)[candidates[refused]]) && authorized[2 * refused] && authorized[2 * refused + 1]
      ensures refused <= |candidates|
      ensures forall i :: 0 <= i < refused ==>
        (Full(old(entries)[candidates[i]]) || !activates[i]) && authorized[2 * i]
      ensures chosen.None? && refused < |candidates| ==>
        || !authorized[2 * refused]
        || (!Full(old(entries)[candidates[refused]]) && activates[refused] && !authorized[2 * refused + 1])
      ensures (forall i :: 0 <= i < |authorized| ==> authorized[i]) ==>
        (chosen.Some? <==>
         exists i :: 0 <= i < |candidates| && !Full(old(entries)[candidates[i]]) && activates[i])
      ensures forall w :: w in entries ==>
        entries[w].retryAfter == if w in candidates[..refused] && !Full(old(entries)[w])
                                 then now + RETRY_DELAY else old(entries)[w].retryAfter
    {
      refused := 0;
      for i := 0 to |candidates|
        invariant refused == i
        invariant SameAccounts(entries, old(entries))
        invariant forall j :: 0 <= j < i ==>
          (Full(old(entries)[candidates[j]]) || !activates[j]) && authorized[2 * j]
        invariant forall w :: w in entries ==>
          entries[w].retryAfter == if w in candidates[..i] && !Full(old(entries)[w])
                                   then now + RETRY_DELAY else old(entries)[w].retryAfter
      {
        assert candidates[..i + 1] == candidates[..i] + [candidates[i]];
        var worker := candidates[i];
        if !authorized[2 * i] {
          return None, refused;
        }
        if entries[worker].assignedCount >= entries[worker].capacity {
          refused := i + 1;
          continue;
        }
        ghost var before := entries;
        entries := entries[worker := entries[worker].(assignedCount := entries[worker].assignedCount + 1)];
        assert Freed(entries, worker) == before;
        if activates[i] {
          if !authorized[2 * i + 1] {
            Retire(worker);
            return None, refused;
          }
          return Some(worker), refused;
        }
        Retire(worker);
        entries := entries[worker := entries[worker].(retryAfter := now + RETRY_DELAY)];
        refused := i + 1;
      }
      return None, refused;
    }

    method Retire(worker: string)
      modifies this
      ensures entries == Freed(old(entries), worker)
    {
      if worker in entries {
        var entry := entries[worker];
        var left := if entry.assignedCount == 0 then 0 else entry.assignedCount - 1;
        entries := entries[worker := entry.(assignedCount := left)];
      }
    }
  }

  // ---------------------------------------------------------------- concurrent callers

  /** Reserved: counted, remote not built yet. Releasing: flagged as retired, slot not given back yet. */
  datatype Phase = Reserved | Active | Releasing | Retired

  datatype Remote = Remote(worker: string, phase: Phase)

  datatype Launch = Launch(candidates: seq<string>, remote: Option<nat>)

  datatype State = State(entries: Entries, remotes: map<nat, Remote>, launches: map<nat, Launch>)

  datatype Step =
    | Begin(launch: nat, candidates: seq<string>)
    | Try(launch: nat, remote: nat, authorized: bool)
    | Build(launch: nat)
    | Activate(launch: nat, succeeds: bool, authorized: bool)
    | Drop(remote: nat)
    | Release(remote: nat)
    | Penalize(worker: string, until: nat)

  predicate Idle(s: State, launch: nat) {
    launch in s.launches && s.launches[launch].remote.None?
  }

  /** A launch whose remote is in `phase`. */
  predicate Holds(s: State, launch: nat, phase: Phase) {
    && launch in s.launches && s.launches[launch].remote.Some?
    && s.launches[launch].remote.value in s.remotes
    && s.remotes[s.launches[launch].remote.value].phase == phase
  }

  function In(s: State, remote: nat, phase: Phase): State
    requires remote in s.remotes
  {
    s.(remotes := s.remotes[remote := s.remotes[remote].(phase := phase)])
  }

  function Apply(s: State, step: Step): Option<State> {
    match step
    case Begin(launch, candidates) =>
      if launch in s.launches || exists c :: c in candidates && c !in s.entries then None
      else Some(s.(launches := s.launches[launch := Launch(candidates, None)]))
    case Try(launch, remote, authorized) =>
      if !Idle(s, launch) || remote in s.remotes then None
      else
        var candidates := s.launches[launch].candidates;
        if candidates == [] || !authorized || candidates[0] !in s.entries
        then Some(s.(launches := s.launches - {launch}))
        else
          var worker, rest := candidates[0], candidates[1..];
          if s.entries[worker].assignedCount >= s.entries[worker].capacity
          then Some(s.(launches := s.launches[launch := Launch(rest, None)]))
          else Some(State(Claimed(s.entries, worker), s.remotes[remote := Remote(worker, Reserved)],
                          s.launches[launch := Launch(rest, Some(remote))]))
    case Build(launch) =>
      if Holds(s, launch, Reserved) then Some(In(s, s.launches[launch].remote.value, Active)) else None
    case Activate(launch, succeeds, authorized) =>
      if !Holds(s, launch, Active) then None
      else
        var remote := s.launches[launch].remote.value;
        if succeeds && authorized then Some(s.(launches := s.launches - {launch}))
        else if succeeds then Some(In(s, remote, Releasing).(launches := s.launches - {launch}))
        else Some(In(s, remote, Releasing).(launches := s.launches[launch :=
               s.launches[launch].(remote := None)]))
    case Drop(remote) =>
      // Retiring twice does nothing: the flag is already set.
      if remote in s.remotes && s.remotes[remote].phase.Active?
         && (forall launch :: launch in s.launches ==> s.launches[launch].remote != Some(remote))
      then Some(In(s, remote, Releasing)) else None
    case Release(remote) =>
      if remote in s.remotes && s.remotes[remote].phase.Releasing?
      then Some(In(s, remote, Retired).(entries := Freed(s.entries, s.remotes[remote].worker))) else None
    case Penalize(worker, until) => Some(s.(entries := Deferred(s.entries, worker, until)))
  }

  function Run(s: State, steps: seq<Step>): Option<State> {
    if steps == [] then Some(s)
    else
      var before := Run(s, steps[..|steps| - 1]);
      if before.Some? then Apply(before.value, steps[|steps| - 1]) else None
  }

  /** The remotes that still hold a slot of `worker`. */
  function Claims(s: State, worker: string): set<nat> {
    set r | r in s.remotes && s.remotes[r].worker == worker && !s.remotes[r].phase.Retired?
  }

  ghost predicate Inv(s: State) {
    && (forall w :: w in s.entries ==>
          s.entries[w].assignedCount == |Claims(s, w)| && s.entries[w].assignedCount <= s.entries[w].capacity)
    && (forall r :: r in s.remotes ==> s.remotes[r].worker in s.entries)
  }

  ghost predicate Fresh(s: State) {
    s.remotes == map[] && s.launches == map[] && forall w :: w in s.entries ==> s.entries[w].assignedCount == 0
  }

  lemma RunNext(s: State, steps: seq<Step>, step: Step)
    requires Run(s, steps).Some?
    ensures Run(s, steps + [step]) == Apply(Run(s, steps).value, step)
  {
    assert (steps + [step])[..|steps|] == steps;
  }

  /** A launch whose first candidate has room ends with an active remote on that slot. */
  lemma LaunchTakesSlot(s: State, launch: nat, remote: nat, worker: string, rest: seq<string>)
    requires launch !in s.launches && remote !in s.remotes && worker in s.entries
    requires s.entries[worker].assignedCount < s.entries[worker].capacity
    requires forall c :: c in rest ==> c in s.entries
    ensures var steps := [] + [Begin(launch, [worker] + rest)] + [Try(launch, remote, true)] + [Build(launch)]
                         + [Activate(launch, true, true)];
      Run(s, steps) ==
      Some(s.(entries := Claimed(s.entries, worker), remotes := s.remotes[remote := Remote(worker, Active)]))
  {
    var candidates := [worker] + rest;
    var begun := s.(launches := s.launches[launch := Launch(candidates, None)]);
    assert Apply(s, Begin(launch, candidates)) == Some(begun);
    assert candidates[1..] == rest;
    var held := s.launches[launch := Launch(rest, Some(remote))];
    assert begun.launches[launch := Launch(rest, Some(remote))] == held;
    var tried := State(Claimed(s.entries, worker), s.remotes[remote := Remote(worker, Reserved)], held);
    assert Apply(begun, Try(launch, remote, true)) == Some(tried);
    assert tried.remotes[remote := Remote(worker, Active)] == s.remotes[remote := Remote(worker, Active)];
    assert held - {launch} == s.launches;
    RunNext(s, [], Begin(launch, candidates));
    RunNext(s, [] + [Begin(launch, candidates)], Try(launch, remote, true));
    RunNext(s, [] + [Begin(launch, candidates)] + [Try(launch, remote, true)], Build(launch));
    RunNext(s, [] + [Begin(launch, candidates)] + [Try(launch, remote, true)] + [Build(launch)],
            Activate(launch, true, true));
  }

  /** A full worker is passed over; the launch goes on with its other candidates. */
  lemma FullWorkerIsSkipped(s: State, launch: nat, remote: nat, worker: string, rest: seq<string>)
    requires launch in s.launches && s.launches[launch] == Launch([worker] + rest, None) && remote !in s.remotes
    requires worker in s.entries && s.entries[worker].assignedCount >= s.entries[worker].capacity
    ensures Apply(s, Try(launch, remote, true)) == Some(s.(launches := s.launches[launch := Launch(rest, None)]))
  {
    assert ([worker] + rest)[1..] == rest;
  }

  /** A launch whose remote does not activate, or whose caller lost its authority, gives the slot back. */
  lemma FailedActivationGivesSlotBack(s: State, launch: nat, succeeds: bool)
    requires Holds(s, launch, Active) && s.remotes[s.launches[launch].remote.value].worker in s.entries
    ensures var remote := s.launches[launch].remote.value;
      var after := Run(s, [] + [Activate(launch, succeeds, false)] + [Release(remote)]);
      && after.Some? && IsRetired(after.value, remote)
      && after.value.entries == Freed(s.entries, s.remotes[remote].worker)
      && (succeeds ==> launch !in after.value.launches)
      && (!succeeds ==>
            launch in after.value.launches
            && after.value.launches[launch] == Launch(s.launches[launch].candidates, None))
  {
    var remote := s.launches[launch].remote.value;
    var failed := Apply(s, Activate(launch, succeeds, false)).value;
    RunNext(s, [], Activate(launch, succeeds, false));
    RunNext(s, [] + [Activate(launch, succeeds, false)], Release(remote));
    assert Run(s, [] + [Activate(launch, succeeds, false)] + [Release(remote)]) == Apply(failed, Release(remote));
  }

  /** What a launch took is given back when its remote is dropped. */
  lemma DropGivesSlotBack(s: State, remote: nat)
    requires remote in s.remotes && s.remotes[remote].phase.Active? && s.remotes[remote].worker in s.entries
    requires forall launch :: launch in s.launches ==> s.launches[launch].remote != Some(remote)
    ensures var after := Run(s, [] + [Drop(remote)] + [Release(remote)]);
      && after.Some? && IsRetired(after.value, remote)
      && after.value.entries == Freed(s.entries, s.remotes[remote].worker)
  {
    var dropped := In(s, remote, Releasing);
    assert Apply(s, Drop(remote)) == Some(dropped);
    RunNext(s, [], Drop(remote));
    RunNext(s, [] + [Drop(remote)], Release(remote));
    assert Run(s, [] + [Drop(remote)] + [Release(remote)]) == Apply(dropped, Release(remote));
  }

  /** A step that only moves phases short of `Retired` leaves the claims alone. */
  lemma ClaimsKept(s: State, s': State)
    requires s.remotes.Keys == s'.remotes.Keys
    requires forall r :: r in s.remotes ==>
      s'.remotes[r].worker == s.remotes[r].worker && s'.remotes[r].phase.Retired? == s.remotes[r].phase.Retired?
    ensures forall w :: Claims(s', w) == Claims(s, w)
  {
  }

  lemma ClaimAdded(s: State, s': State, remote: nat, worker: string, w: string)
    requires remote !in s.remotes && s'.remotes == s.remotes[remote := Remote(worker, Reserved)]
    ensures Claims(s', w) == if w == worker then Claims(s, w) + {remote} else Claims(s, w)
    ensures remote !in Claims(s, w)
  {
  }

  lemma ClaimRemoved(s: State, remote: nat, w: string)
    requires remote in s.remotes && s.remotes[remote].phase.Releasing?
    ensures var worker := s.remotes[remote].worker;
            Claims(In(s, remote, Retired), w) == if w == worker then Claims(s, w) - {remote} else Claims(s, w)
    ensures remote in Claims(s, s.remotes[remote].worker)
  {
  }

  lemma ClaimKeepsInv(s: State, s': State, remote: nat, worker: string)
    requires Inv(s) && worker in s.entries && s.entries[worker].assignedCount < s.entries[worker].capacity
    requires remote !in s.remotes && s'.remotes == s.remotes[remote := Remote(worker, Reserved)]
    requires s'.entries == Claimed(s.entries, worker)
    ensures Inv(s')
  {
    forall w | w in s'.entries
      ensures s'.entries[w].assignedCount == |Claims(s', w)| && s'.entries[w].assignedCount <= s'.entries[w].capacity
    {
      ClaimAdded(s, s', remote, worker, w);
    }
  }

  lemma ReleaseKeepsInv(s: State, remote: nat)
    requires Inv(s) && Apply(s, Release(remote)).Some?
    ensures Inv(Apply(s, Release(remote)).value)
    ensures var worker := s.remotes[remote].worker; worker in s.entries && s.entries[worker].assignedCount >= 1
  {
    var s' := Apply(s, Release(remote)).value;
    ClaimRemoved(s, remote, s.remotes[remote].worker);
    forall w | w in s'.entries
      ensures s'.entries[w].assignedCount == |Claims(s', w)| && s'.entries[w].assignedCount <= s'.entries[w].capacity
    {
      ClaimRemoved(s, remote, w);
      assert Claims(s', w) == Claims(In(s, remote, Retired), w);
    }
  }

  lemma StepKeepsInv(s: State, step: Step)
    requires Inv(s) && Apply(s, step).Some?
    ensures Inv(Apply(s, step).value)
  {
    var s' := Apply(s, step).value;
    if step.Try? && s'.remotes != s.remotes {
      ClaimKeepsInv(s, s', step.remote, s.launches[step.launch].candidates[0]);
    } else if step.Release? {
      ReleaseKeepsInv(s, step.remote);
    } else {
      ClaimsKept(s, s');
    }
  }

  /** How often a run gives back the slot of `remote`. */
  function Releases(steps: seq<Step>, remote: nat): nat {
    if steps == [] then 0
    else Releases(steps[..|steps| - 1], remote) + if steps[|steps| - 1] == Release(remote) then 1 else 0
  }

  predicate IsRetired(s: State, remote: nat) {
    remote in s.remotes && s.remotes[remote].phase.Retired?
  }

  lemma OnlyReleaseRetires(s: State, step: Step, remote: nat)
    requires Apply(s, step).Some?
    ensures IsRetired(Apply(s, step).value, remote) <==> IsRetired(s, remote) || step == Release(remote)
    ensures step == Release(remote) ==> !IsRetired(s, remote)
  {
    match step
    case Try(_, _, _) =>
    case Activate(_, _, _) =>
    case _ =>
  }

  /**
   * In every interleaving: the counter of each worker is the number of its remotes that
   * have not given their slot back, and it never exceeds the capacity.
   */
  lemma {:induction false} AccountsBalance(s: State, steps: seq<Step>)
    requires Fresh(s) && Run(s, steps).Some?
    ensures Inv(Run(s, steps).value)
  {
    if steps == [] {
      assert forall w :: Claims(s, w) == {};
    } else {
      var before := steps[..|steps| - 1];
      AccountsBalance(s, before);
      StepKeepsInv(Run(s, before).value, steps[|steps| - 1]);
    }
  }

  /** A slot is given back exactly once, when its remote is retired. */
  lemma {:induction false} SlotReleasedOnce(s: State, steps: seq<Step>, remote: nat)
    requires Fresh(s) && Run(s, steps).Some?
    ensures Releases(steps, remote) == if IsRetired(Run(s, steps).value, remote) then 1 else 0
  {
    if steps != [] {
      var before := steps[..|steps| - 1];
      SlotReleasedOnce(s, before, remote);
      OnlyReleaseRetires(Run(s, before).value, steps[|steps| - 1], remote);
    }
  }

  /** The saturating decrement never saturates. */
  lemma ReleaseNeverSaturates(s: State, steps: seq<Step>, remote: nat)
    requires Fresh(s) && Run(s, steps).Some? && Apply(Run(s, steps).value, Release(remote)).Some?
    ensures var now := Run(s, steps).value; var after := Apply(now, Release(remote)).value;
            var worker := now.remotes[remote].worker;
            worker in now.entries && after.entries[worker].assignedCount == now.entries[worker].assignedCount - 1
  {
    AccountsBalance(s, steps);
    ReleaseKeepsInv(Run(s, steps).value, remote);
  }
}
