/**
 * The machine an application is deployed on: units, processes, release directories and their current
 * pointers, the managed nginx file and the configuration nginx has loaded.
 *
 * Each method is one call of the runtime or release adapter. Whether the n-th call succeeds, given
 * what it asks for, is decided by the const faults; a call that reports failure has had no effect, except a
 * reload, which nginx may have carried out although the command reported failure.
 */
module Host {
  import opened Basics

  type ReleaseId = nat

  /** Single is the only place of an application without slots. */
  datatype Slot = Single | Blue | Green

  /** One release's manifest: an opaque identity and the two answers the deployment asks for. */
  datatype Spec = Spec(id: nat, materializes: bool, observes: bool)

  /** One side of an application with slots. */
  type Side = s: Slot | !s.Single? witness Blue

  /** The managed nginx file, by what it was rendered from. */
  datatype Config = Config(spec: Spec, slot: Side)

  /** A live process: the release whose files it started from, and the unit it started under. */
  datatype Process = Process(release: Option<ReleaseId>, spec: Spec)

  /** The process a release gets when the unit was not running, its own files in place if it brings any. */
  function ProcessOf(spec: Spec, release: ReleaseId): Process {
    Process(if spec.materializes then Some(release) else None, spec)
  }

  datatype Fault = Done | Refused | Unreported

  /** What a call asks for, as far as its success may depend on it. */
  datatype Call =
    | CheckCall
    | PrepareCall
    | UnpackCall
    | ActivateCall
    | DeactivateCall
    | RemoveCall
    | StartCall
    | StopCall(process: Option<Process>)
    | InstallCall(config: Option<Config>)
    | ReloadCall(config: Option<Config>)

  function Opposite(s: Side): Side {
    if s.Blue? then Green else Blue
  }

  function Lookup<K, V>(m: map<K, V>, k: K): Option<V> {
    if k in m then Some(m[k]) else None
  }

  /** Traffic reaches a live process. */
  predicate Serves(loaded: Option<Config>, running: map<Slot, Process>) {
    loaded.Some? ==> loaded.value.slot in running
  }

  /** What decides where traffic goes and what answers it, and the release directories with their pointers. */
  datatype View = View(
    managed: Option<Config>,
    loaded: Option<Config>,
    running: map<Slot, Process>,
    ready: map<Slot, nat>,
    reloadedAt: nat,
    served: bool,
    current: map<Slot, ReleaseId>,
    dirs: set<ReleaseId>)

  class Machine {
    const faults: (nat, Call) -> Fault
    const probes: nat -> bool
    var calls: nat
    var managed: Option<Config>
    var loaded: Option<Config>
    var units: map<Slot, Spec>
    var running: map<Slot, Process>
    var current: map<Slot, ReleaseId>
    var dirs: set<ReleaseId>
    /** History: Serves has held after every change so far. */
    ghost var served: bool
    /** History: at which call each process was last found ready, if it has been since it was started. */
    ghost var ready: map<Slot, nat>
    /** History: the call that last loaded a configuration, and the one that last installed one, if any. */
    ghost var reloadedAt: nat
    ghost var installedAt: Option<nat>

    ghost predicate Serving()
      reads this`loaded, this`running
    {
      Serves(loaded, running)
    }

    ghost function Sight(): View
      reads this
    {
      View(managed, loaded, running, ready, reloadedAt, served, current, dirs)
    }

    /** This call never fails. */
    ghost predicate Carries(c: Call) {
      forall k :: faults(k, c).Done?
    }

    /** This call always fails, without an effect. */
    ghost predicate Denies(c: Call) {
      forall k :: faults(k, c).Refused?
    }

    /** No call fails, except possibly a reload. */
    ghost predicate Calm() {
      forall c: Call | !c.ReloadCall? :: Carries(c)
    }

    /** No call fails. */
    ghost predicate Obedient() {
      Calm() && forall config :: Carries(ReloadCall(config))
    }

    /** nginx refuses to load this configuration, and nothing else fails. */
    ghost predicate Rejects(config: Config) {
      && Calm()
      && Denies(ReloadCall(Some(config)))
      && (forall other | other != Some(config) :: Carries(ReloadCall(other)))
    }

    /** Installing and loading nginx's file never fails. */
    ghost predicate NginxSteady() {
      forall c: Call | c.InstallCall? || c.ReloadCall? :: Carries(c)
    }

    /** An installation or a reload fails in one of the three calls that follow the last installation. */
    ghost predicate Torn()
      reads this`installedAt
    {
      installedAt.Some? && exists k: nat, c: Call ::
        installedAt.value < k <= installedAt.value + 3 && (c.InstallCall? || c.ReloadCall?) && !faults(k, c).Done?
    }

    /** From this call on the daemon is dead; until then nginx did what it was told. */
    ghost predicate DiesAt(n: nat) {
      && (forall k: nat, c: Call | k >= n :: faults(k, c).Refused?)
      && (forall k: nat, c: Call | k < n && (c.InstallCall? || c.ReloadCall?) :: faults(k, c).Done?)
    }

    /** A daemon that dies before an installation or more than three calls after it has not torn anything. */
    lemma DiesElsewhere(n: nat)
      requires DiesAt(n) && (installedAt.Some? ==> installedAt.value + 3 < n)
      ensures !Torn()
    {
    }

    /** Stopping a process never fails. */
    ghost predicate Stops() {
      forall p :: Carries(StopCall(p))
    }

    /** This process cannot be stopped, and nothing else fails. */
    ghost predicate Clings(p: Process) {
      && Denies(StopCall(Some(p)))
      && (forall c | c != StopCall(Some(p)) :: Carries(c))
    }

    /** A live process is always found ready. */
    ghost predicate Healthy() {
      forall k :: probes(k)
    }

    /** No process is ever found ready. */
    ghost predicate Sickly() {
      forall k :: !probes(k)
    }

    /** Every failed call has had no effect, reloads included. */
    ghost predicate Truthful() {
      forall k, c :: !faults(k, c).Unreported?
    }

    constructor (faults: (nat, Call) -> Fault, probes: nat -> bool)
      ensures this.faults == faults && this.probes == probes
      ensures managed.None? && loaded.None? && units == map[] && running == map[] && current == map[] && dirs == {}
      ensures served && Serving()
    {
      this.faults, this.probes := faults, probes;
      calls := 0;
      managed, loaded := None, None;
      units, running, current, dirs := map[], map[], map[], {};
      served, ready, reloadedAt, installedAt := true, map[], 0, None;
    }

    /** A call without an effect on this machine's state: it only succeeds or fails. */
    method Try(c: Call) returns (ok: bool)
      modifies this`calls
      ensures ok <==> faults(old(calls), c).Done?
      ensures Carries(c) ==> ok
      ensures Denies(c) ==> !ok
      ensures calls == old(calls) + 1
    {
      ok := faults(calls, c).Done?;
      calls := calls + 1;
    }

    method Prepare(spec: Spec, slot: Slot) returns (ok: bool)
      modifies this`calls, this`units
      ensures Carries(PrepareCall) ==> ok
      ensures Denies(PrepareCall) ==> !ok
      ensures units == if ok then old(units)[slot := spec] else old(units)
    {
      ok := Try(PrepareCall);
      if ok {
        units := units[slot := spec];
      }
    }

    /** Starting a unit that is already running is a no-op that succeeds: the old process stays. */
    method Start(slot: Slot) returns (ok: bool)
      modifies this`calls, this`running, this`served, this`ready
      ensures ready == if running == old(running) then old(ready) else old(ready) - {slot}
      ensures ok && slot !in old(running) ==>
                slot in units
                && running == old(running)[slot := Process(StartsFrom(slot), units[slot])]
      ensures !ok || slot in old(running) ==> running == old(running)
      ensures ok ==> slot in running
      ensures Carries(StartCall) && slot in units ==> ok
      ensures served == (old(served) && Serving())
    {
      ok := Try(StartCall);
      ok := ok && slot in units;
      if ok && slot !in running {
        running := running[slot := Process(if units[slot].materializes then Lookup(current, slot) else None, units[slot])];
        ready := ready - {slot};
      }
      served := served && Serving();
    }

    /** The release a process started now in the slot would run: what its current pointer names. */
    ghost function StartsFrom(slot: Slot): Option<ReleaseId>
      reads this
      requires slot in units
    {
      if units[slot].materializes then Lookup(current, slot) else None
    }

    method Stop(slot: Slot) returns (ok: bool)
      modifies this`calls, this`running, this`served, this`ready
      ensures running == if ok then old(running) - {slot} else old(running)
      ensures ready == if ok then old(ready) - {slot} else old(ready)
      ensures ok ==> slot in units
      ensures Carries(StopCall(Lookup(old(running), slot))) && slot in units ==> ok
      ensures Denies(StopCall(Lookup(old(running), slot))) ==> !ok
      ensures served == (old(served) && Serving())
    {
      ok := Try(StopCall(Lookup(running, slot)));
      ok := ok && slot in units;
      if ok {
        running := running - {slot};
        ready := ready - {slot};
      }
      served := served && Serving();
    }

    /** Waiting until ready, or watching the slot stay ready: only a live process can be found ready. */
    method Probe(slot: Slot) returns (ok: bool)
      modifies this`calls, this`ready
      ensures ok ==> slot in running && !Sickly()
      ensures Healthy() && slot in running ==> ok
      ensures ready == if ok then old(ready)[slot := old(calls)] else old(ready) - {slot}
    {
      ok := slot in running && probes(calls);
      ready := if ok then ready[slot := calls] else ready - {slot};
      calls := calls + 1;
    }

    /** Unpacks the release's artifact unless its directory exists already. */
    method MaterializeIfMissing(release: ReleaseId) returns (ok: bool)
      modifies this`calls, this`dirs
      ensures Carries(UnpackCall) ==> ok
      ensures dirs == if ok then old(dirs) + {release} else old(dirs)
    {
      ok := Try(UnpackCall);
      if !ok || release in dirs {
        return;
      }
      ok := Try(UnpackCall);
      if ok {
        dirs := dirs + {release};
      }
    }

    method Activate(slot: Slot, release: ReleaseId) returns (ok: bool)
      modifies this`calls, this`current
      ensures current == if ok then old(current)[slot := release] else old(current)
      ensures ok ==> release in dirs
      ensures Carries(ActivateCall) && release in dirs ==> ok
    {
      ok := Try(ActivateCall);
      ok := ok && release in dirs;
      if ok {
        current := current[slot := release];
      }
    }

    method Deactivate(slot: Slot) returns (ok: bool)
      modifies this`calls, this`current
      ensures Carries(DeactivateCall) ==> ok
      ensures current == if ok then old(current) - {slot} else old(current)
    {
      ok := Try(DeactivateCall);
      if ok {
        current := current - {slot};
      }
    }

    /** Refuses to delete a directory some pointer names. */
    method Remove(release: ReleaseId) returns (ok: bool)
      modifies this`calls, this`dirs
      ensures dirs == if ok then old(dirs) - {release} else old(dirs)
      ensures ok ==> forall s | s in current :: current[s] != release
      ensures Carries(RemoveCall) && (forall s | s in current :: current[s] != release) ==> ok
    {
      ok := Try(RemoveCall);
      ok := ok && forall s | s in current :: current[s] != release;
      if ok {
        dirs := dirs - {release};
      }
    }

    // ---- nginx's side ----

    method WriteManaged(config: Option<Config>) returns (ok: bool)
      modifies this`calls, this`managed, this`installedAt
      ensures ok <==> faults(old(calls), InstallCall(config)).Done?
      ensures calls == old(calls) + 1 && installedAt == if ok then Some(old(calls)) else old(installedAt)
      ensures Carries(InstallCall(config)) ==> ok
      ensures managed == if ok then config else old(managed)
    {
      ok := Try(InstallCall(config));
      if ok {
        managed := config;
        installedAt := Some(calls - 1);
      }
    }

    /** nginx loads the managed file as it is now. */
    method Reload() returns (ok: bool)
      modifies this`calls, this`loaded, this`served, this`reloadedAt
      ensures ok ==> reloadedAt < calls
      ensures ok <==> faults(old(calls), ReloadCall(managed)).Done?
      ensures calls == old(calls) + 1
      ensures Carries(ReloadCall(managed)) ==> ok
      ensures ok ==> loaded == managed
      ensures !ok ==> loaded == old(loaded) || (loaded == managed && !Truthful())
      ensures Denies(ReloadCall(managed)) ==> !ok && loaded == old(loaded)
      ensures served == (old(served) && Serving())
    {
      var fault := faults(calls, ReloadCall(managed));
      calls := calls + 1;
      ok := fault.Done?;
      reloadedAt := if ok then calls - 1 else reloadedAt;
      if !fault.Refused? {
        loaded := managed;
      }
      served := served && Serving();
    }
  }
}
