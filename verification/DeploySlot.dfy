/**
 * Blue-green deployment: start the new slot, switch traffic, observe, record, drain and stop the old slot;
 * on failure undo what was done and say which of three things happened to the traffic.
 */
module DeploySlot {
  import opened Basics
  import opened Host
  import C = Catalog
  import N = Nginx
  import Releases

  type Time = Releases.Time

  /** What applySlot returns. Rejected: an error before anything was touched. */
  datatype Outcome =
    | Succeeded
    | RolledBack(cause: Code)
    | RollbackFailed(cause: Code)
    | Uncertain(cause: Code)
    | Unaffected(cause: Code)
    | Rejected(cause: Code)

  /** Always the other side; the first deployment goes to blue. */
  function NextSlot(serving: Option<Side>): (target: Side)
    ensures serving != Some(target)
  {
    if serving.Some? then Opposite(serving.value) else Blue
  }

  /**
   * What each outcome says about the machine. previous is the release that was active, serving the slot that
   * served; target is the slot the deployment went to.
   */
  ghost predicate TellsTheTruth(outcome: Outcome, spec: Spec, target: Side, serving: Option<Side>,
                                previousSpec: Option<Spec>, before: View, after: View) {
    match outcome
    case Succeeded =>
      // traffic is on the new slot, which is up and was found ready, since the switch if it was to be observed
      && after.managed == after.loaded == Some(Config(spec, target)) && target in after.running
      && target in after.ready && (spec.observes ==> after.ready[target] > after.reloadedAt)
    case RolledBack(_) =>
      if previousSpec.Some? then
        // traffic is back on the old slot, under the previous release's own configuration, up and ready;
        // the slot of the failed release has been left running
        && serving.Some? && serving.value in after.running && serving.value in after.ready && target in after.running
        && after.managed == after.loaded == Some(Config(previousSpec.value, serving.value))
      else
        // a first deployment: its process is gone, yet nginx still points at it
        target !in after.running && after.loaded == Some(Config(spec, target))
    case RollbackFailed(_) =>
      // traffic is on either side, but on no third configuration
      || after.loaded == Some(Config(spec, target))
      || (previousSpec.Some? && serving.Some? && after.loaded == Some(Config(previousSpec.value, serving.value)))
    case Uncertain(cause) =>
      && cause == NginxReloadFailed
      && after.loaded in {before.loaded, before.managed, Some(Config(spec, target))}
    case Unaffected(_) =>
      after.loaded == before.loaded
    case Rejected(_) =>
      after == before
  }

  /** The timeline's latest switch is where each outcome says the traffic is. */
  predicate TimelineTells(outcome: Outcome, target: Side, serving: Option<Side>, previousSpec: Option<Spec>,
                          before: Option<Slot>, after: Option<Slot>) {
    match outcome
    case Succeeded => after == Some(target)
    case RolledBack(_) => previousSpec.Some? ==> after == serving
    case RollbackFailed(_) => true
    case _ => after == before
  }

  /** The only outcomes after which traffic may have met a dead slot: undoing a first deployment. */
  predicate UndidFirst(outcome: Outcome, previousSpec: Option<Spec>) {
    previousSpec.None? && (outcome.RolledBack? || outcome.RollbackFailed?)
  }

  /** Every process outside the target slot is the one that was there. */
  predicate KeepsOthers(target: Side, before: map<Slot, Process>, after: map<Slot, Process>) {
    forall s | s in before && s != target :: s in after && after[s] == before[s]
  }

  /** No pointer but the target's has moved. */
  predicate SamePointers(target: Side, before: map<Slot, ReleaseId>, after: map<Slot, ReleaseId>) {
    forall s | s != target :: Lookup(after, s) == Lookup(before, s)
  }

  predicate NothingStarted(before: map<Slot, Process>, after: map<Slot, Process>) {
    forall s | s in after :: s in before
  }

  predicate PointsElsewhere(config: Option<Config>, slot: Side) {
    config.Some? ==> config.value.slot != slot
  }

  /**
   * From here a deployment keeps every request answered: live processes are behind the loaded file, the managed
   * one and the recorded slot, and neither file points at the slot the deployment goes to.
   */
  predicate Safe(v: View, serving: Option<Side>) {
    && Serves(v.loaded, v.running) && PointsElsewhere(v.loaded, NextSlot(serving))
    && Serves(v.managed, v.running) && PointsElsewhere(v.managed, NextSlot(serving))
    && (serving.Some? ==> serving.value in v.running)
  }

  class Deployer {
    const host: Machine
    const catalog: C.Catalog
    const nginx: N.Adapter
    const specs: ReleaseId -> Spec

    ghost predicate Valid() {
      nginx.host == host
    }

    constructor (host: Machine, catalog: C.Catalog, nginx: N.Adapter, specs: ReleaseId -> Spec)
      requires nginx.host == host
      ensures Valid() && this.host == host && this.catalog == catalog && this.nginx == nginx && this.specs == specs
    {
      this.host, this.catalog, this.nginx, this.specs := host, catalog, nginx, specs;
    }

    /** Unpacks the release and points the slot at it, if it brings its own files. */
    method PlaceFiles(spec: Spec, target: Side, release: ReleaseId) returns (r: Result<()>)
      modifies host`calls, host`dirs, host`current
      ensures host.Calm() ==> r.Ok?
      ensures r.Err? ==> r.code != NginxReloadFailed
      ensures r.Ok? && spec.materializes ==> target in host.current && host.current[target] == release
      ensures SamePointers(target, old(host.current), host.current)
      ensures r.Ok? && spec.materializes ==> release in host.dirs
      ensures old(host.dirs) <= host.dirs <= old(host.dirs) + {release}
    {
      if !spec.materializes {
        return Ok(());
      }
      var ok := host.MaterializeIfMissing(release);
      if !ok {
        return Err(Internal);
      }
      ok := host.Activate(target, release);
      r := if ok then Ok(()) else Err(ReleaseNotFound);
    }

    /** Prepares, unpacks, points and starts the target slot, and waits for it. The other slot is not touched. */
    method BringUp(spec: Spec, target: Side, release: ReleaseId) returns (r: Result<()>, started: bool)
      modifies host`calls, host`units, host`dirs, host`current, host`running, host`served, host`ready
      ensures r.Ok? ==> started && target in host.ready
      ensures r.Err? ==> r.code != NginxReloadFailed
      ensures host.Calm() ==> started && (host.Healthy() ==> r.Ok?)
      ensures host.Sickly() ==> r.Err?
      ensures !started || target in old(host.running) ==> host.running == old(host.running)
      ensures started && target !in old(host.running) ==> host.running == old(host.running)[target := ProcessOf(spec, release)]
      ensures started ==> target in host.running && target in host.units
      ensures started && spec.materializes ==> target in host.current && host.current[target] == release
      ensures SamePointers(target, old(host.current), host.current)
      ensures host.units == old(host.units) || host.units == old(host.units)[target := spec]
      ensures started && spec.materializes ==> release in host.dirs
      ensures old(host.dirs) <= host.dirs <= old(host.dirs) + {release}
      ensures old(host.served) && old(host.Serving()) ==> host.served && host.Serving()
    {
      var ok := host.Prepare(spec, target);
      if !ok {
        return Err(Internal), false;
      }
      r := PlaceFiles(spec, target, release);
      if r.Err? {
        return r, false;
      }
      started := host.Start(target);
      if started {
        ok := host.Probe(target);
      }
      r := if started && ok then Ok(()) else Err(RuntimeNotReady);
    }

    /** Traffic is back on the old slot, under the old release's own spec, and the slot was found ready. */
    ghost predicate Restored(previous: ReleaseId, serving: Option<Side>)
      reads host`running, host`ready, host`managed, host`loaded
    {
      && serving.Some? && serving.value in host.running && serving.value in host.ready
      && host.managed == host.loaded == Some(Config(specs(previous), serving.value))
    }

    /** Points nginx back at the old slot, under the old release's own spec, and makes sure it runs. */
    method SwitchTraffic(previous: ReleaseId, serving: Option<Side>) returns (ok: bool)
      requires Valid()
      modifies host`calls, host`managed, host`loaded, host`running, host`served, host`ready, host`reloadedAt, host`installedAt
      modifies catalog`count, catalog`events
      ensures ok ==> Restored(previous, serving)
      ensures host.Obedient() && serving.Some? && serving.value in host.units ==>
                serving.value in host.running && (host.Healthy() ==> ok)
      ensures !ok ==> host.loaded in {old(host.loaded), old(host.managed)}
                      || (serving.Some? && host.loaded == Some(Config(specs(previous), serving.value)))
      ensures forall s | s in old(host.running) :: s in host.running && host.running[s] == old(host.running)[s]
      ensures ok && catalog.Reliable() ==> C.LastSwitch(catalog.events) == serving
      ensures old(host.managed) == old(host.loaded) ==> host.managed == host.loaded || host.Torn()
      ensures serving.Some? && serving.value in old(host.running) && old(host.managed) == old(host.loaded) ==>
                old(host.served) && old(host.Serving()) ==> host.served && host.Serving()
      ensures serving.None? && old(host.served) && old(host.Serving()) ==> host.served && host.Serving()
    {
      if serving.None? {
        return false;
      }
      var r, _ := nginx.Apply(specs(previous), serving.value);
      if r.Err? {
        return false;
      }
      ok := host.Start(serving.value);
      if !ok {
        return false;
      }
      ok := host.Probe(serving.value);
      if ok {
        catalog.AppendEvent(C.Event(serving.value, C.Switched, Some(previous)));
      }
    }

    method TeardownSlot(target: Side) returns (ok: bool)
      modifies host`calls, host`running, host`current, host`served, host`ready
      ensures ok ==> host.running == old(host.running) - {target} && target !in host.current
      ensures host.Calm() && target in host.units ==> ok
      ensures host.served ==> host.Serving()
      ensures host.running == old(host.running) || host.running == old(host.running) - {target}
      ensures host.current == old(host.current) || host.current == old(host.current) - {target}
      ensures old(host.served) && old(host.Serving()) && PointsElsewhere(host.loaded, target) ==>
                host.served && host.Serving()
    {
      var stopped := host.Stop(target);
      var withdrawn := host.Deactivate(target);
      return stopped && withdrawn;
    }

    /**
     * A move that has been undone: back on the old slot, with the failed release left running, or without an old
     * release the process gone and nginx still pointed at it.
     */
    ghost predicate Undone(previous: Option<ReleaseId>, serving: Option<Side>, target: Side,
                           loaded: Option<Config>, running: map<Slot, Process>)
      reads host`running, host`ready, host`managed, host`loaded, host`current
    {
      if previous.Some? then
        && Restored(previous.value, serving)
        && target in host.running && target in running && host.running[target] == running[target]
      else
        target !in host.running && target !in host.current && host.loaded == loaded
    }

    ghost predicate OnEitherSide(previous: Option<ReleaseId>, serving: Option<Side>, loaded: Option<Config>)
      reads host`loaded
    {
      || host.loaded == loaded
      || (previous.Some? && serving.Some? && host.loaded == Some(Config(specs(previous.value), serving.value)))
    }

    /** Undoes what the failed deployment did to the machine. failed is only about traffic that had moved. */
    method Undo(started: bool, switched: bool, previous: Option<ReleaseId>, serving: Option<Side>, target: Side)
      returns (failed: bool)
      requires Valid() && serving != Some(target)
      requires switched ==> Moved(target)
      modifies host`calls, host`managed, host`loaded, host`running, host`current, host`served, host`ready,
               host`reloadedAt, host`installedAt
      modifies catalog`count, catalog`events
      ensures !switched && started && host.Calm() && target in host.units ==> Cleared(target)
      ensures !switched ==> NothingStarted(old(host.running), host.running)
      ensures old(host.managed) == old(host.loaded) ==> host.managed == host.loaded || host.Torn()
      ensures SamePointers(target, old(host.current), host.current)
      ensures failed ==> switched && OnEitherSide(previous, serving, old(host.loaded))
      ensures switched && !failed ==> Undone(previous, serving, target, old(host.loaded), old(host.running))
      ensures switched && !failed && previous.Some? && catalog.Reliable() ==> C.LastSwitch(catalog.events) == serving
      ensures !switched ==>
                && host.loaded == old(host.loaded) && host.managed == old(host.managed) && host.installedAt == old(host.installedAt)
                && catalog.events == old(catalog.events)
      ensures KeepsOthers(target, old(host.running), host.running)
      ensures old(host.served) && old(host.Serving())
              && (switched ==> previous.Some? && (serving.Some? ==> serving.value in old(host.running)))
              && (!switched ==> PointsElsewhere(host.loaded, target)) ==>
                host.served && host.Serving()
    {
      if switched && previous.Some? {
        var ok := SwitchTraffic(previous.value, serving);
        return !ok;
      } else if switched {
        var ok := TeardownSlot(target);
        return !ok;
      } else if started {
        var _ := TeardownSlot(target);
      }
      return false;
    }

    /** Traffic has been moved to the target. */
    ghost predicate Moved(target: Side)
      reads host`running, host`managed, host`loaded
    {
      target in host.running && host.managed == host.loaded && host.loaded.Some? && host.loaded.value.slot == target
    }

    ghost predicate FailureRecorded(target: Side, release: ReleaseId, releases: Releases.SoundRows, slots: map<Side, C.SlotRow>)
      reads catalog`releases, catalog`slots
    {
      && catalog.StillActive(releases)
      && (catalog.Reliable() ==>
            && catalog.releases == Releases.Fail(releases, release)
            && catalog.slots == C.Put(slots, target, Some(release), C.Failed, None))
    }

    /** What the failed deployment leaves in the database and on disk. */
    method RecordFailure(target: Side, release: ReleaseId)
      modifies host`calls, host`dirs, catalog`count, catalog`slots, catalog`releases, catalog`events
      ensures DirectoryDropped(release, old(host.dirs))
      ensures C.LastSwitch(catalog.events) == C.LastSwitch(old(catalog.events))
      ensures catalog.Reliable() ==> catalog.Noted(old(catalog.events), C.Event(target, C.FailedEvent, Some(release)))
      ensures FailureRecorded(target, release, old(catalog.releases), old(catalog.slots))
    {
      var _ := catalog.PutApplicationSlot(target, Some(release), C.Failed, None);
      catalog.AppendEvent(C.Event(target, C.FailedEvent, Some(release)));
      if specs(release).materializes {
        var _ := host.Remove(release);
      }
      var _ := catalog.Change(Releases.FailStep(release));
    }

    /** The directory of the release is gone, unless some pointer names it. */
    ghost predicate Discarded(release: ReleaseId)
      reads host`current, host`dirs
    {
      specs(release).materializes && Unpointed(release) ==> release !in host.dirs
    }

    ghost predicate DirectoryDropped(release: ReleaseId, before: set<ReleaseId>)
      reads host`current, host`dirs
    {
      && (host.dirs == before || (host.dirs == before - {release} && Unpointed(release)))
      && (host.Calm() ==> Discarded(release))
    }

    ghost predicate Unpointed(release: ReleaseId)
      reads host`current
    {
      forall s | s in host.current :: host.current[s] != release
    }

    /** Whether the traffic had moved, and whether it could be moved back, is what the error says. */
    function Reported(cause: Code, switched: bool, undoFailed: bool): Outcome {
      if switched then (if undoFailed then RollbackFailed(cause) else RolledBack(cause))
      else if cause == NginxReloadFailed then Uncertain(cause)
      else Unaffected(cause)
    }

    /** The failure path of applySlot: which of the three things happened to the traffic. */
    method FailDeploy(cause: Code, started: bool, switched: bool, previous: Option<ReleaseId>, serving: Option<Side>,
                      target: Side, release: ReleaseId) returns (outcome: Outcome)
      requires Valid() && serving != Some(target)
      requires switched ==> Moved(target)
      modifies host`calls, host`managed, host`loaded, host`running, host`current, host`dirs, host`served, host`ready,
               host`reloadedAt, host`installedAt
      modifies catalog`count, catalog`slots, catalog`releases, catalog`events
      ensures !switched && started && host.Calm() && target in host.units ==> Cleared(target)
      ensures !switched ==> NothingStarted(old(host.running), host.running)
      ensures old(host.managed) == old(host.loaded) ==> host.managed == host.loaded || host.Torn()
      ensures outcome == Reported(cause, switched, switched && outcome.RollbackFailed?)
      ensures outcome.RolledBack? ==> Undone(previous, serving, target, old(host.loaded), old(host.running))
      ensures outcome.RolledBack? && previous.Some? && catalog.Reliable() ==> C.LastSwitch(catalog.events) == serving
      ensures !switched ==>
                host.loaded == old(host.loaded) && host.managed == old(host.managed) && host.installedAt == old(host.installedAt)
      ensures !switched ==> C.LastSwitch(catalog.events) == C.LastSwitch(old(catalog.events))
      ensures KeepsOthers(target, old(host.running), host.running)
      ensures old(host.served) && old(host.Serving())
              && (switched ==> previous.Some? && (serving.Some? ==> serving.value in old(host.running)))
              && (!switched ==> PointsElsewhere(host.loaded, target)) ==>
                host.served && host.Serving()
      ensures outcome.RollbackFailed? ==> OnEitherSide(previous, serving, old(host.loaded))
      ensures SamePointers(target, old(host.current), host.current)
      ensures DirectoryDropped(release, old(host.dirs))
      ensures FailureRecorded(target, release, old(catalog.releases), old(catalog.slots))
    {
      var undoFailed := Undo(started, switched, previous, serving, target);
      RecordFailure(target, release);
      outcome := Reported(cause, switched, undoFailed);
    }

    /** The four writes after a successful observation, in this order; the first that fails ends it. */
    method Promote(release: ReleaseId, target: Side, serving: Option<Side>, previous: Option<ReleaseId>, now: Time) returns (ok: bool)
      modifies catalog`count, catalog`releases, catalog`serving, catalog`slots
      ensures catalog.Reliable() ==> ok
      ensures catalog.StillActive(old(catalog.releases))
      ensures ok ==>
                && catalog.releases == Releases.Activate(old(catalog.releases), release, now)
                && catalog.serving == Some(target)
                && catalog.slots == Promoted(old(catalog.slots), release, target, serving, previous, now)
    {
      ok := catalog.Change(Releases.ActivateStep(release, now));
      if !ok {
        return;
      }
      ok := catalog.SetServingSlot(Some(target));
      if !ok {
        return;
      }
      ok := catalog.PutApplicationSlot(target, Some(release), C.Serving, Some(now));
      if !ok {
        return;
      }
      if serving.Some? {
        ok := catalog.PutApplicationSlot(serving.value, previous, C.Draining, None);
      }
    }

    function Promoted(slots: map<Side, C.SlotRow>, release: ReleaseId, target: Side, serving: Option<Side>,
                      previous: Option<ReleaseId>, now: Time): map<Side, C.SlotRow> {
      var up := C.Put(slots, target, Some(release), C.Serving, Some(now));
      if serving.Some? then C.Put(up, serving.value, previous, C.Draining, None) else up
    }

    /** A slot that cannot be stopped stays up, and is then not recorded as stopped. */
    method DrainAndStop(slot: Side, previous: ReleaseId)
      modifies host`calls, host`running, host`served, host`ready, catalog`count, catalog`slots, catalog`events
      ensures host.running == old(host.running) || host.running == old(host.running) - {slot}
      ensures host.ready == old(host.ready) || host.ready == old(host.ready) - {slot}
      ensures old(host.served) && old(host.Serving()) && PointsElsewhere(host.loaded, slot) ==>
                host.served && host.Serving()
      ensures C.LastSwitch(catalog.events) == C.LastSwitch(old(catalog.events))
      ensures host.Calm() && slot in host.units ==> slot !in host.running
      ensures catalog.Reliable() && slot in old(host.running) && slot !in host.running ==>
                catalog.Noted(old(catalog.events), C.Event(slot, C.StoppedEvent, Some(previous)))
      ensures catalog.slots == old(catalog.slots)
              || (slot !in host.running && catalog.slots == C.Put(old(catalog.slots), slot, Some(previous), C.Stopped, None))
      ensures catalog.Reliable() && slot in old(host.running) && slot !in host.running ==>
                catalog.slots == C.Put(old(catalog.slots), slot, Some(previous), C.Stopped, None)
    {
      var ok := host.Stop(slot);
      if !ok {
        return;
      }
      var _ := catalog.PutApplicationSlot(slot, Some(previous), C.Stopped, None);
      catalog.AppendEvent(C.Event(slot, C.StoppedEvent, Some(previous)));
    }

    /** The slot has been found ready, and if the release is to be observed, since traffic was moved to it. */
    ghost predicate ReadySince(release: ReleaseId, target: Side)
      reads host`ready, host`reloadedAt
    {
      target in host.ready && (specs(release).observes ==> host.ready[target] > host.reloadedAt)
    }

    /** The entries of a switch in the timeline. */
    function SwitchEvents(release: ReleaseId, target: Side): seq<C.Event> {
      [C.Event(target, C.Switched, Some(release))] + Observation(release, target)
    }

    function Observation(release: ReleaseId, target: Side): seq<C.Event> {
      if specs(release).observes then [C.Event(target, C.Observed, Some(release))] else []
    }

    /** The file a switch installs. */
    function Candidate(release: ReleaseId, target: Side): Config {
      Config(specs(release), target)
    }

    /** Watches the slot that now has the traffic, if the release is to be watched. */
    method Observe(release: ReleaseId, target: Side) returns (r: Result<()>)
      requires target in host.running && target in host.ready && host.reloadedAt < host.calls
      modifies host`calls, host`ready, catalog`count, catalog`events
      ensures r.Ok? ==> ReadySince(release, target)
      ensures r.Err? ==> r.code == RuntimeNotReady
      ensures host.Healthy() ==> r.Ok?
      ensures C.LastSwitch(catalog.events) == C.LastSwitch(old(catalog.events))
      ensures r.Ok? && catalog.Reliable() ==> catalog.events == old(catalog.events) + Observation(release, target)
    {
      r := Ok(());
      if specs(release).observes {
        var steady := host.Probe(target);
        if steady {
          catalog.AppendEvent(C.Event(target, C.Observed, Some(release)));
        } else {
          r := Err(RuntimeNotReady);
        }
      }
    }

    /** Where a switch that did not happen left the traffic: moved only if the reload is what failed. */
    ghost predicate StayedOrMoved(before: View, candidate: Config, cause: Code)
      reads host`loaded
    {
      && host.loaded in {before.loaded, before.managed, Some(candidate)}
      && (cause != NginxReloadFailed ==> host.loaded == before.loaded)
      && (host.Truthful() ==> host.loaded in {before.loaded, before.managed})
    }

    /** Moves the traffic and watches the slot; switched stays true when the watching finds it degraded. */
    method SwitchTo(release: ReleaseId, target: Side) returns (r: Result<()>, switched: bool)
      requires Valid() && target in host.running && target in host.ready
      modifies host`calls, host`managed, host`loaded, host`served, host`ready, host`reloadedAt, host`installedAt,
               catalog`count, catalog`events
      ensures r.Ok? ==> switched && ReadySince(release, target)
      ensures host.Obedient() ==> switched && (host.Healthy() ==> r.Ok?)
      ensures switched ==> Moved(target) && host.loaded == Some(Candidate(release, target))
      ensures r.Err? && r.code == NginxReloadFailed ==> !switched
      ensures !switched ==> r.Err? && StayedOrMoved(old(host.Sight()), Candidate(release, target), r.code)
      ensures host.Rejects(Candidate(release, target)) && old(host.managed) != Some(Candidate(release, target)) ==>
                r == Err(NginxReloadFailed) && host.loaded == old(host.managed)
      ensures old(host.managed) == old(host.loaded) ==> host.managed == host.loaded || host.Torn()
      ensures old(host.served) && old(host.Serving()) && Serves(old(host.managed), host.running) ==>
                host.served && host.Serving()
      ensures !switched ==> catalog.events == old(catalog.events)
      ensures switched && catalog.Reliable() ==> C.LastSwitch(catalog.events) == Some(target)
      ensures r.Ok? && catalog.Reliable() ==> catalog.events == old(catalog.events) + SwitchEvents(release, target)
    {
      switched := false;
      var applied, _ := nginx.Apply(specs(release), target);
      r := applied;
      if r.Ok? {
        switched := true;
        catalog.AppendEvent(C.Event(target, C.Switched, Some(release)));
        r := Observe(release, target);
      }
    }

    /**
     * How far a forward path came from the state before: until the switch nothing but the target slot was
     * touched, and traffic always met a live process.
     */
    ghost predicate CameTo(before: View, release: ReleaseId, target: Side, r: Result<()>, started: bool, switched: bool)
      reads host
    {
      && (r.Ok? ==> switched && ReadySince(release, target))
      && (started ==> target in host.units && target in host.running)
      && (switched ==> started && Moved(target) && host.loaded == Some(Candidate(release, target)))
      && (r.Err? && r.code == NginxReloadFailed ==> !switched)
      && (!switched ==> r.Err? && StayedOrMoved(before, Candidate(release, target), r.code))
      && (!started || target in before.running ==> host.running == before.running)
      && (started && target !in before.running ==> host.running == before.running[target := ProcessOf(specs(release), release)])
      && (started && specs(release).materializes ==>
            target in host.current && host.current[target] == release && release in host.dirs)
      && before.dirs <= host.dirs && SamePointers(target, before.current, host.current)
      && (before.served && Serves(before.loaded, before.running) && Serves(before.managed, before.running) ==>
            host.served && host.Serving())
    }

    /** Which of the calls fail decides where the forward path ends. */
    ghost predicate FailedAsForeseen(before: View, release: ReleaseId, target: Side, r: Result<()>, started: bool, switched: bool)
      reads host
    {
      && (host.Calm() ==> started)
      && (host.Calm() && host.Sickly() ==> r.Err? && !switched && r.code != NginxReloadFailed)
      && (host.Rejects(Candidate(release, target)) && host.Healthy() && before.managed != Some(Candidate(release, target)) ==>
            started && r == Err(NginxReloadFailed) && host.loaded == before.managed)
      && (before.managed == before.loaded ==> host.managed == host.loaded || host.Torn())
    }

    /** The forward path: bring up the target, switch, observe. */
    method Attempt(release: ReleaseId, target: Side) returns (r: Result<()>, started: bool, switched: bool)
      requires Valid()
      modifies host, catalog`count, catalog`events
      ensures CameTo(old(host.Sight()), release, target, r, started, switched)
      ensures FailedAsForeseen(old(host.Sight()), release, target, r, started, switched)
      ensures host.Obedient() && host.Healthy() ==> r.Ok?
      ensures !switched ==> catalog.events == old(catalog.events)
      ensures switched && catalog.Reliable() ==> C.LastSwitch(catalog.events) == Some(target)
    {
      switched := false;
      r, started := BringUp(specs(release), target, release);
      if r.Ok? {
        r, switched := SwitchTo(release, target);
      }
    }

    /** The final state of a successful deployment. */
    ghost predicate Live(spec: Spec, target: Side, release: ReleaseId, now: Time)
      reads host, catalog
    {
      && host.managed == host.loaded == Some(Config(spec, target))
      && target in host.running && target in host.ready && (spec.observes ==> host.ready[target] > host.reloadedAt)
      && (spec.materializes ==> target in host.current && host.current[target] == release)
      && catalog.serving == Some(target)
      && target in catalog.slots && catalog.slots[target] == C.SlotRow(Some(release), C.Serving, Some(now))
    }

    /** What the forward path recorded: everything on success, and without lost writes nothing on failure. */
    ghost predicate RecordedSince(before: C.Record, release: ReleaseId, target: Side, serving: Option<Side>,
                                  previous: Option<ReleaseId>, now: Time, r: Result<()>, switched: bool)
      reads catalog
    {
      && catalog.StillActive(before.releases)
      && (!switched ==> catalog.Recorded().lastSwitch == before.lastSwitch)
      && (switched && catalog.Reliable() ==> catalog.Recorded().lastSwitch == Some(target))
      && (r.Err? && catalog.Reliable() ==>
            && catalog.releases == before.releases
            && catalog.serving == before.serving
            && catalog.slots == before.slots)
      && (r.Ok? ==>
            && catalog.releases == Releases.Activate(before.releases, release, now)
            && catalog.serving == Some(target)
            && catalog.slots == Promoted(before.slots, release, target, serving, previous, now))
    }

    /** The forward path with its record. Only a write that fails to commit can fail after the switch is observed. */
    method Forward(release: ReleaseId, target: Side, serving: Option<Side>, previous: Option<ReleaseId>, now: Time)
      returns (r: Result<()>, started: bool, switched: bool)
      requires Valid()
      modifies host, catalog
      ensures CameTo(old(host.Sight()), release, target, r, started, switched)
      ensures FailedAsForeseen(old(host.Sight()), release, target, r, started, switched)
      ensures host.Obedient() && host.Healthy() && catalog.Reliable() ==> r.Ok?
      ensures RecordedSince(old(catalog.Recorded()), release, target, serving, previous, now, r, switched)
    {
      r, started, switched := Attempt(release, target);
      if r.Ok? {
        var ok := Promote(release, target, serving, previous, now);
        if !ok {
          r := Err(Internal);
        }
      }
    }

    /**
     * Which of the calls fail decides the outcome. When the slot merely does not get ready it is cleared away and
     * nothing was moved; when only loading the candidate fails, nginx has then loaded the old file.
     */
    ghost predicate EndedAsForeseen(before: View, release: ReleaseId, target: Side, outcome: Outcome)
      reads host, catalog
    {
      && (host.Calm() && outcome.Unaffected? ==> Cleared(target))
      && (host.Calm() && host.Sickly() && catalog.Reliable() ==> outcome.Unaffected?)
      && (host.Rejects(Candidate(release, target)) && host.Healthy() && catalog.Reliable()
          && before.managed != Some(Candidate(release, target)) ==>
            && outcome.Uncertain? && host.loaded == before.managed
            && Cleared(target) && NothingStarted(before.running, host.running))
      && (before.managed == before.loaded ==> host.managed == host.loaded || host.Torn())
    }

    /** The slot has been cleared away, and history tells whether that interrupted the traffic. */
    ghost predicate Cleared(target: Side)
      reads host`running, host`current, host`served, host`loaded
    {
      target !in host.running && target !in host.current && (host.served ==> host.Serving())
    }

    function Resting(up: bool): C.SlotState {
      if up then C.Draining else C.Stopped
    }

    /** The old slot is recorded as draining while it runs and as stopped once it does not. */
    ghost predicate OldSlotTold(serving: Option<Side>, previous: Option<ReleaseId>, before: map<Slot, Process>)
      reads host, catalog
    {
      catalog.Reliable() && serving.Some? && previous.Some? && serving.value in before ==>
        && serving.value in catalog.slots
        && catalog.slots[serving.value].release == previous
        && catalog.slots[serving.value].state == Resting(serving.value in host.running)
    }

    ghost function SpecOf(release: Option<ReleaseId>): Option<Spec> {
      if release.Some? then Some(specs(release.value)) else None
    }

    /** The failed slot and release are recorded, and nothing else; the old slot keeps the very process it had. */
    ghost predicate FailedTo(release: ReleaseId, target: Side, before: View, record: C.Record)
      reads host, catalog
    {
      && KeepsOthers(target, before.running, host.running) && SamePointers(target, before.current, host.current)
      && before.dirs - {release} <= host.dirs && (host.Calm() ==> Discarded(release))
      && (catalog.Reliable() ==>
            && catalog.serving == record.serving
            && catalog.releases == Releases.Fail(record.releases, release)
            && catalog.slots == C.Put(record.slots, target, Some(release), C.Failed, None))
    }

    /** The release's files are in place, and its process is what runs unless another one was there. */
    ghost predicate RunsAlone(release: ReleaseId, target: Side, before: View)
      reads host`running, host`dirs
      requires target in host.running
    {
      && before.dirs <= host.dirs
      && (specs(release).materializes ==> release in host.dirs)
      && (host.running[target] == ProcessOf(specs(release), release) <==>
          target !in before.running || before.running[target] == ProcessOf(specs(release), release))
      && (specs(release).materializes ==>
            (host.running[target].release == Some(release) <==>
             target !in before.running || before.running[target].release == Some(release)))
    }

    /**
     * The release is live and active. It is what runs exactly when nothing else was running in the target slot,
     * and the old slot is stopped, if it can be.
     */
    ghost predicate SucceededIn(release: ReleaseId, target: Side, serving: Option<Side>, previous: Option<ReleaseId>, now: Time,
                                before: View, record: C.Record)
      reads host, catalog
    {
      && Live(specs(release), target, release, now)
      && RunsAlone(release, target, before)
      && catalog.releases == Releases.Activate(record.releases, release, now)
      && OldSlotTold(serving, previous, before.running)
      && (host.Calm() && serving.Some? && previous.Some? && serving.value in host.units ==> serving.value !in host.running)
    }

    /** What a deployment that began with before and record, and was not rejected, did. */
    ghost predicate Ended(outcome: Outcome, release: ReleaseId, target: Side, serving: Option<Side>, previous: Option<ReleaseId>,
                          now: Time, before: View, record: C.Record)
      reads host, catalog
    {
      // every outcome tells the truth about the traffic, and so does the timeline
      && TellsTheTruth(outcome, specs(release), target, serving, SpecOf(previous), before, host.Sight())
      && (catalog.Reliable() ==>
            TimelineTells(outcome, target, serving, SpecOf(previous), record.lastSwitch, catalog.Recorded().lastSwitch))
      && (host.Truthful() && outcome.Uncertain? ==> host.loaded in {before.loaded, before.managed})
      // from a safe state at no moment traffic met a slot without a live process, undoing a first deployment excepted
      && (host.Truthful() && before.served && Safe(before, serving) && !UndidFirst(outcome, SpecOf(previous)) ==>
            host.served && host.Serving())
      // the record changes only on success
      && (if outcome.Succeeded? then SucceededIn(release, target, serving, previous, now, before, record)
          else FailedTo(release, target, before, record))
      && catalog.StillActive(record.releases)
      && EndedAsForeseen(before, release, target, outcome)
    }

    /** The failing end of applySlot before the switch. before and record are the state it began in. */
    method ConcludeUnmoved(release: ReleaseId, target: Side, serving: Option<Side>, previous: Option<ReleaseId>, ghost now: Time,
                           r: Result<()>, started: bool, ghost before: View, ghost record: C.Record)
      returns (outcome: Outcome)
      requires Valid() && target == NextSlot(serving) && r.Err?
      requires CameTo(before, release, target, r, started, false)
      requires FailedAsForeseen(before, release, target, r, started, false)
      requires RecordedSince(record, release, target, serving, previous, now, r, false)
      modifies host, catalog
      ensures outcome.Unaffected? || outcome.Uncertain?
      ensures TellsTheTruth(outcome, specs(release), target, serving, SpecOf(previous), before, host.Sight())
      ensures catalog.Reliable() ==>
                TimelineTells(outcome, target, serving, SpecOf(previous), record.lastSwitch, catalog.Recorded().lastSwitch)
      ensures host.Truthful() && outcome.Uncertain? ==> host.loaded in {before.loaded, before.managed}
      ensures host.Truthful() && before.served && Safe(before, serving) && !UndidFirst(outcome, SpecOf(previous)) ==>
                host.served && host.Serving()
      ensures FailedTo(release, target, before, record)
      ensures catalog.StillActive(record.releases)
      ensures EndedAsForeseen(before, release, target, outcome)
    {
      outcome := FailDeploy(r.code, started, false, previous, serving, target, release);
    }

    /** The failing end of applySlot after the switch. */
    method ConcludeMoved(release: ReleaseId, target: Side, serving: Option<Side>, previous: Option<ReleaseId>, ghost now: Time,
                           r: Result<()>, ghost started: bool, ghost before: View, ghost record: C.Record)
      returns (outcome: Outcome)
      requires Valid() && target == NextSlot(serving) && r.Err?
      requires CameTo(before, release, target, r, started, true)
      requires FailedAsForeseen(before, release, target, r, started, true)
      requires RecordedSince(record, release, target, serving, previous, now, r, true)
      modifies host, catalog
      ensures outcome.RolledBack? || outcome.RollbackFailed?
      ensures TellsTheTruth(outcome, specs(release), target, serving, SpecOf(previous), before, host.Sight())
      ensures catalog.Reliable() ==>
                TimelineTells(outcome, target, serving, SpecOf(previous), record.lastSwitch, catalog.Recorded().lastSwitch)
      ensures host.Truthful() && outcome.Uncertain? ==> host.loaded in {before.loaded, before.managed}
      ensures host.Truthful() && before.served && Safe(before, serving) && !UndidFirst(outcome, SpecOf(previous)) ==>
                host.served && host.Serving()
      ensures FailedTo(release, target, before, record)
      ensures catalog.StillActive(record.releases)
      ensures EndedAsForeseen(before, release, target, outcome)
    {
      outcome := FailDeploy(r.code, true, true, previous, serving, target, release);
    }

    /** The successful end: the old slot is drained and stopped, if it can be. */
    method ConcludeSuccess(release: ReleaseId, target: Side, serving: Option<Side>, previous: Option<ReleaseId>, ghost now: Time,
                           ghost r: Result<()>, ghost started: bool, ghost switched: bool, ghost before: View, ghost record: C.Record)
      requires Valid() && target == NextSlot(serving) && r.Ok?
      requires CameTo(before, release, target, r, started, switched)
      requires FailedAsForeseen(before, release, target, r, started, switched)
      requires RecordedSince(record, release, target, serving, previous, now, r, switched)
      modifies host`calls, host`running, host`served, host`ready, catalog`count, catalog`slots, catalog`events
      ensures catalog.Reliable() ==> catalog.Recorded().lastSwitch == Some(target)
      ensures host.Truthful() && before.served && Safe(before, serving) ==> host.served && host.Serving()
      ensures Live(specs(release), target, release, now)
      ensures RunsAlone(release, target, before)
      ensures catalog.releases == Releases.Activate(record.releases, release, now) && catalog.StillActive(record.releases)
      ensures OldSlotTold(serving, previous, before.running)
      ensures host.Calm() && serving.Some? && previous.Some? && serving.value in host.units ==> serving.value !in host.running
    {
      if serving.Some? && previous.Some? {
        DrainAndStop(serving.value, previous.value);
      }
    }

    method Conclude(release: ReleaseId, target: Side, serving: Option<Side>, previous: Option<ReleaseId>, ghost now: Time,
                    r: Result<()>, started: bool, switched: bool, ghost before: View, ghost record: C.Record)
      returns (outcome: Outcome)
      requires Valid() && target == NextSlot(serving)
      requires CameTo(before, release, target, r, started, switched)
      requires FailedAsForeseen(before, release, target, r, started, switched)
      requires RecordedSince(record, release, target, serving, previous, now, r, switched)
      modifies host, catalog
      ensures !outcome.Rejected? && (r.Ok? <==> outcome.Succeeded?)
      ensures Ended(outcome, release, target, serving, previous, now, before, record)
    {
      if r.Ok? {
        ConcludeSuccess(release, target, serving, previous, now, r, started, switched, before, record);
        outcome := Succeeded;
      } else if switched {
        outcome := ConcludeMoved(release, target, serving, previous, now, r, started, before, record);
      } else {
        outcome := ConcludeUnmoved(release, target, serving, previous, now, r, started, before, record);
      }
    }

    /** Everything after the row has been marked. */
    method Proceed(release: ReleaseId, target: Side, serving: Option<Side>, previous: Option<ReleaseId>, now: Time)
      returns (outcome: Outcome)
      requires Valid() && target == NextSlot(serving)
      modifies host, catalog
      ensures !outcome.Rejected?
      ensures host.Obedient() && host.Healthy() && catalog.Reliable() ==> outcome.Succeeded?
      ensures Ended(outcome, release, target, serving, previous, now, old(host.Sight()), old(catalog.Recorded()))
    {
      ghost var before, record := host.Sight(), catalog.Recorded();
      var r, started, switched := Forward(release, target, serving, previous, now);
      outcome := Conclude(release, target, serving, previous, now, r, started, switched, before, record);
    }

    /** Marks the row and checks nginx before anything is touched. */
    method BeginDeploy(release: ReleaseId, target: Side) returns (rejection: Option<Code>)
      requires Valid()
      modifies host`calls, catalog`count, catalog`releases
      ensures host.Carries(CheckCall) && catalog.Reliable() ==> rejection.None?
      ensures rejection.None? ==> catalog.releases == Begun(old(catalog.releases), release, target)
      ensures Releases.TheActive(catalog.releases) == Releases.TheActive(old(catalog.releases))
      ensures catalog.StillActive(old(catalog.releases))
    {
      BegunKeepsActive(catalog.releases, release, target);
      var ok := catalog.Change(Releases.DeployStep(release));
      if !ok {
        return Some(Internal);
      }
      var valid := nginx.Validate();
      if valid.Err? {
        return Some(valid.code);
      }
      ok := catalog.Change(Releases.SlotStep(release, target));
      return if ok then None else Some(Internal);
    }

    /**
     * Deploys a release, or rolls back to one. The pruning that follows a success is in module Releases.
     */
    method ApplySlot(release: ReleaseId, now: Time)
      returns (outcome: Outcome, ghost target: Side, ghost previous: Option<ReleaseId>)
      requires Valid()
      modifies host, catalog
      ensures target == NextSlot(old(catalog.serving))
      ensures previous.Some? <==> Releases.SomeActive(old(catalog.releases))
      ensures previous.Some? ==>
                previous.value in old(catalog.releases) && old(catalog.releases)[previous.value].status.Active?
      ensures host.Obedient() && host.Healthy() && catalog.Reliable() ==> outcome.Succeeded?
      ensures outcome.Rejected? ==>
                && host.Sight() == old(host.Sight())
                && catalog.serving == old(catalog.serving) && catalog.slots == old(catalog.slots)
      ensures host.Carries(CheckCall) && catalog.Reliable() ==> !outcome.Rejected?
      // once some release is active, one always is
      ensures catalog.StillActive(old(catalog.releases))
      ensures !outcome.Rejected? ==>
                Ended(outcome, release, target, old(catalog.serving), previous, now,
                      old(host.Sight()), BegunRecord(old(catalog.Recorded()), release, target))
    {
      ghost var rows := catalog.releases;
      var serving := catalog.serving;
      var side := NextSlot(serving);
      target := side;
      previous := Releases.TheActive(rows);
      var rejection := BeginDeploy(release, side);
      if rejection.Some? {
        return Rejected(rejection.value), target, previous;
      }
      var active := catalog.ActiveRelease();
      outcome := Proceed(release, side, serving, active, now);
    }
  }

  /** The row of the release once its deployment has begun. */
  function Begun(rows: Releases.Rows, release: ReleaseId, target: Side): Releases.Rows {
    Releases.SetSlot(Releases.MarkDeploying(rows, release), release, target)
  }

  function BegunRecord(record: C.Record, release: ReleaseId, target: Side): C.Record {
    BegunKeepsActive(record.releases, release, target);
    record.(releases := Begun(record.releases, release, target))
  }

  lemma BegunKeepsActive(rows: Releases.Rows, release: ReleaseId, target: Side)
    requires Releases.Sound(rows)
    ensures Releases.Sound(Begun(rows, release, target))
    ensures forall i :: i in Begun(rows, release, target) <==> i in rows
    ensures forall i | i in rows :: Begun(rows, release, target)[i].status.Active? <==> rows[i].status.Active?
    ensures Releases.TheActive(Releases.MarkDeploying(rows, release)) == Releases.TheActive(rows)
    ensures Releases.TheActive(Begun(rows, release, target)) == Releases.TheActive(rows)
  {
    var begun := Begun(rows, release, target);
    Releases.StepKeepsSound(rows, Releases.DeployStep(release));
    Releases.StepKeepsSound(Releases.MarkDeploying(rows, release), Releases.SlotStep(release, target));
    var marked := Releases.MarkDeploying(rows, release);
    if Releases.SomeActive(marked) {
      assert Releases.TheActive(marked).value in rows;
    }
    if Releases.SomeActive(begun) {
      assert Releases.TheActive(begun).value in rows;
    }
    if Releases.SomeActive(rows) {
      assert Releases.TheActive(rows).value in begun && Releases.TheActive(rows).value in marked;
    }
  }

  /**
   * What a failed deployment records: the active release is the one it was, and the failed release has no
   * directory, unless it had been live before and is being rolled back to; then its row stays as it was.
   */
  lemma FailureKeepsActive(rows: Releases.Rows, release: ReleaseId, target: Side)
    requires Releases.Sound(rows)
    ensures var after := Releases.Fail(Begun(rows, release, target), release);
            && Releases.Sound(after)
            && (forall i :: i in after <==> i in rows)
            && (forall i | i in rows :: after[i].status.Active? <==> rows[i].status.Active?)
            && (forall i | i in rows && i != release :: after[i] == rows[i])
            && (release in rows ==>
                  if Releases.Rollbackable(rows[release].status) then after[release] == rows[release].(slot := Some(target))
                  else after[release].status.Failed? && !after[release].directory)
  {
    BegunKeepsActive(rows, release, target);
    Releases.StepKeepsSound(Begun(rows, release, target), Releases.FailStep(release));
  }

  /** Every release that can be rolled back to has its directory on disk, if its row records one and it brings files. */
  ghost predicate Backed(rows: Releases.Rows, dirs: set<ReleaseId>, specs: ReleaseId -> Spec) {
    forall i | i in rows && Releases.Rollbackable(rows[i].status) && rows[i].directory && specs(i).materializes :: i in dirs
  }

  /** A success keeps it so: the release it activates has just been unpacked. */
  lemma SuccessKeepsBacked(rows: Releases.Rows, release: ReleaseId, target: Side, now: Time, specs: ReleaseId -> Spec,
                           dirs: set<ReleaseId>, after: set<ReleaseId>)
    requires Backed(rows, dirs, specs) && dirs <= after && (specs(release).materializes ==> release in after)
    ensures Backed(Releases.Activate(Begun(rows, release, target), release, now), after, specs)
  {
  }

  /**
   * A failure deletes the directory of the release it was about and nothing else. That keeps it so if and only if
   * the release was not being rolled back to, or its directory could not be deleted.
   */
  lemma FailureKeepsBacked(rows: Releases.Rows, release: ReleaseId, target: Side, specs: ReleaseId -> Spec,
                           dirs: set<ReleaseId>, after: set<ReleaseId>)
    requires Backed(rows, dirs, specs) && dirs - {release} <= after
    ensures Backed(Releases.Fail(Begun(rows, release, target), release), after, specs) <==>
            (release in rows && Releases.Rollbackable(rows[release].status)
             && rows[release].directory && specs(release).materializes ==>
               release in after)
  {
    var failed := Releases.Fail(Begun(rows, release, target), release);
    if release in rows && Releases.Rollbackable(rows[release].status) {
      assert failed[release] == rows[release].(slot := Some(target));
    }
  }
}
