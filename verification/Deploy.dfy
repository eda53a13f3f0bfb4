/**
 * Single-slot deployment: stop the old release, point, start the new one, and on failure put the old one
 * back the same way round.
 */
module Deploy {
  import opened Basics
  import opened Host
  import C = Catalog
  import Releases

  type Time = Releases.Time

  datatype Outcome =
    | Succeeded
    | RolledBack(cause: Code)
    | RollbackFailed(cause: Code)
    | NoChange(cause: Code)
    | Rejected(cause: Code)

  /** What the only place of the application holds: its process, its current pointer and its unit. */
  datatype Place = Place(process: Option<Process>, current: Option<ReleaseId>, unit: Option<Spec>)

  /** Which release is active and what runs. */
  datatype Situation = Situation(active: Option<ReleaseId>, process: Option<Process>)

  /**
   * What each report says about the situation it leaves. With an active release there is no doubt: a success runs the
   * new release, a rollback the old one. Without one, a process that is there already is taken for the new release.
   */
  ghost predicate Tells(specs: ReleaseId -> Spec, release: ReleaseId, outcome: Outcome, before: Situation, after: Situation) {
    var own := Some(ProcessOf(specs(release), release));
    match outcome
    case Succeeded =>
      after.active == Some(release) && after.process == if before.active.None? && before.process.Some? then before.process else own
    case RolledBack(_) =>
      && after.active == before.active
      && after.process ==
           if before.active.Some? then Some(ProcessOf(specs(before.active.value), before.active.value)) else None
    case RollbackFailed(_) =>
      && after.active == before.active
      && (after.process in {None, own} || (before.active.None? && after.process == before.process))
    case NoChange(_) =>
      && after.active == before.active
      && (after.process == before.process
          || (before.active.None? && !specs(release).materializes && before.process.None? && after.process == own))
    case Rejected(_) =>
      after == before
  }

  class Deployer {
    const host: Machine
    const catalog: C.Catalog
    const specs: ReleaseId -> Spec

    constructor (host: Machine, catalog: C.Catalog, specs: ReleaseId -> Spec)
      ensures this.host == host && this.catalog == catalog && this.specs == specs
    {
      this.host, this.catalog, this.specs := host, catalog, specs;
    }

    ghost function Here(): Place
      reads host
    {
      Place(Lookup(host.running, Single), Lookup(host.current, Single), Lookup(host.units, Single))
    }

    /** A release is live under its own spec. */
    ghost predicate Runs(release: ReleaseId)
      reads host
    {
      && Here().process == Some(ProcessOf(specs(release), release)) && Here().unit == Some(specs(release))
      && (specs(release).materializes ==> Here().current == Some(release))
    }

    ghost predicate Nothing()
      reads host
    {
      Here().process.None? && Here().current.None?
    }

    /** The active release runs; without one there is neither a process nor a pointer. */
    ghost predicate Settled(previous: Option<ReleaseId>)
      reads host
    {
      if previous.Some? then Runs(previous.value) else Nothing()
    }

    ghost function Now(): Situation
      reads host, catalog
    {
      Situation(Releases.TheActive(catalog.releases), Here().process)
    }

    /** The unit and the pointer are the release's, and something was found ready there. */
    ghost predicate InPlace(release: ReleaseId)
      reads host
    {
      && Here().unit == Some(specs(release)) && (specs(release).materializes ==> Here().current == Some(release))
      && Here().process.Some? && Single in host.ready
    }

    /** A failed attempt at this release is noticed by the failure path: it stopped something, or it moved a pointer. */
    predicate Noticed(release: ReleaseId, previous: Option<ReleaseId>) {
      previous.Some? || specs(release).materializes
    }

    /** The files the failure path needs to put the active release back. */
    ghost predicate CanGoBack(previous: Option<ReleaseId>, dirs: set<ReleaseId>) {
      previous.Some? && specs(previous.value).materializes ==> previous.value in dirs
    }

    /** Stops the failed release first: otherwise starting the old one would be a no-op. */
    method RestorePrevious(previous: ReleaseId) returns (ok: bool)
      modifies host`calls, host`running, host`served, host`ready, host`current, host`units
      ensures ok ==> Runs(previous)
      ensures host.Obedient() && Single in old(host.units) && CanGoBack(Some(previous), host.dirs) ==> ok
      ensures host.Stops() && Single in old(host.units) && !ok ==> Here().process.None?
      ensures !ok ==> Here().process.None? || Here() == old(Here())
      ensures old(Here()).process.Some? && host.Clings(old(Here()).process.value) ==> !ok && Here() == old(Here())
    {
      ok := host.Stop(Single);
      if !ok {
        return;
      }
      if specs(previous).materializes {
        ok := host.Activate(Single, previous);
        if !ok {
          return;
        }
      }
      ok := host.Prepare(specs(previous), Single);
      if !ok {
        return;
      }
      ok := host.Start(Single);
    }

    method TeardownFirstDeploy() returns (ok: bool)
      modifies host`calls, host`running, host`served, host`ready, host`current
      ensures ok ==> Nothing()
      ensures host.Obedient() && Single in host.units ==> ok
      ensures host.Stops() && Single in host.units ==> Here().process.None?
      ensures Here().process in {None, old(Here()).process} && Here().unit == old(Here()).unit
      ensures old(Here()).process.Some? && host.Clings(old(Here()).process.value) ==>
                !ok && Here().process == old(Here()).process
    {
      var down := host.Stop(Single);
      var withdrawn := host.Deactivate(Single);
      ok := down && withdrawn;
    }

    /** Unpacks the release and points at it, if it brings its own files. */
    method PlaceFiles(release: ReleaseId) returns (r: Result<()>, switched: bool)
      modifies host`calls, host`dirs, host`current
      ensures switched <==> r.Ok? && specs(release).materializes
      ensures Here().process == old(Here()).process && Here().unit == old(Here()).unit
      ensures Here().current == if switched then Some(release) else old(Here()).current
      ensures host.Carries(UnpackCall) && host.Carries(ActivateCall) ==> r.Ok?
      ensures old(host.dirs) <= host.dirs
    {
      switched := false;
      if !specs(release).materializes {
        return Ok(()), false;
      }
      var ok := host.MaterializeIfMissing(release);
      if !ok {
        return Err(Internal), false;
      }
      ok := host.Activate(Single, release);
      if !ok {
        return Err(ReleaseNotFound), false;
      }
      return Ok(()), true;
    }

    /** The process an attempt leaves behind where there was one before: starting is a no-op when there still is. */
    function Left(release: ReleaseId, stoppedPrevious: bool, started: bool, before: Option<Process>): Option<Process> {
      if before.Some? && !stoppedPrevious then before
      else if started then Some(ProcessOf(specs(release), release))
      else None
    }

    /** How far starting the release came: the two flags the failure path goes by, and whether the start went through. */
    method StartUp(release: ReleaseId, previous: Option<ReleaseId>)
      returns (r: Result<()>, stoppedPrevious: bool, switched: bool, ghost started: bool)
      modifies host
      ensures r.Ok? ==> started && InPlace(release)
      ensures host.Obedient() && host.Healthy() ==> r.Ok?
      ensures old(host.dirs) <= host.dirs
      ensures stoppedPrevious ==> previous.Some?
      ensures switched && previous.Some? ==> stoppedPrevious
      ensures started ==> (previous.Some? <==> stoppedPrevious) && (specs(release).materializes <==> switched)
      ensures stoppedPrevious || switched ==> Single in host.units
      ensures Here().process == Left(release, stoppedPrevious, started, old(Here()).process)
      ensures !switched ==> Here().current == old(Here()).current
      ensures Here().unit in {old(Here()).unit, Some(specs(release))}
      ensures OnlyStopsFail(previous, old(Here()).process) ==> started && (host.Sickly() ==> r.Err?)
      ensures host.Denies(PrepareCall) ==> r.Err? && !stoppedPrevious && !switched && !started
    {
      stoppedPrevious, switched, started := false, false, false;
      var ok := host.Prepare(specs(release), Single);
      if !ok {
        return Err(Internal), false, false, false;
      }
      if previous.Some? {
        ok := host.Stop(Single);
        if !ok {
          return Err(Internal), false, false, false;
        }
        stoppedPrevious := true;
      }
      r, switched := PlaceFiles(release);
      if r.Err? {
        return;
      }
      ok := host.Start(Single);
      started := ok;
      if ok {
        ok := host.Probe(Single);
      }
      if !ok {
        r := Err(RuntimeNotReady);
      }
    }

    /** No call but a stop fails, and not that of the old process either. */
    ghost predicate OnlyStopsFail(previous: Option<ReleaseId>, process: Option<Process>) {
      && (forall c: Call | !c.StopCall? :: host.Carries(c))
      && (previous.Some? ==> host.Carries(StopCall(process)))
    }

    /** The forward path: start the release, wait for it and record it. */
    method Attempt(release: ReleaseId, previous: Option<ReleaseId>, now: Time)
      returns (r: Result<()>, stoppedPrevious: bool, switched: bool, ghost started: bool)
      modifies host, catalog`count, catalog`releases
      ensures r.Ok? ==> started && InPlace(release)
      ensures host.Obedient() && host.Healthy() && catalog.Reliable() ==> r.Ok?
      ensures old(host.dirs) <= host.dirs
      ensures r.Ok? ==> catalog.releases == Releases.Activate(old(catalog.releases), release, now)
      ensures r.Err? ==> catalog.releases == old(catalog.releases)
      ensures stoppedPrevious ==> previous.Some?
      ensures switched && previous.Some? ==> stoppedPrevious
      ensures started ==> (previous.Some? <==> stoppedPrevious) && (specs(release).materializes <==> switched)
      ensures stoppedPrevious || switched ==> Single in host.units
      ensures Here().process == Left(release, stoppedPrevious, started, old(Here()).process)
      ensures !switched ==> Here().current == old(Here()).current
      ensures Here().unit in {old(Here()).unit, Some(specs(release))}
      ensures OnlyStopsFail(previous, old(Here()).process) ==> started && (host.Sickly() ==> r.Err?)
      ensures host.Denies(PrepareCall) ==> r.Err? && !stoppedPrevious && !switched && !started
    {
      r, stoppedPrevious, switched, started := StartUp(release, previous);
      if r.Ok? {
        var ok := catalog.Change(Releases.ActivateStep(release, now));
        r := if ok then Ok(()) else Err(Internal);
      }
    }

    /** The same rows, and the same one of them is active. */
    ghost predicate StillTheActive(before: Releases.Rows)
      reads catalog
    {
      Releases.TheActive(catalog.releases) == Releases.TheActive(before) && catalog.releases.Keys == before.Keys
    }

    /** Deletes the directory of the failed release, unless a pointer names it, and marks its row. */
    method RecordFailure(release: ReleaseId)
      modifies host`calls, host`dirs, catalog`count, catalog`releases
      ensures Here() == old(Here())
      ensures StillTheActive(old(catalog.releases))
      ensures catalog.Reliable() ==>
                catalog.releases == Releases.Apply(old(catalog.releases), Releases.FailStep(release))
    {
      Releases.StepActive(catalog.releases, Releases.FailStep(release));
      if specs(release).materializes {
        var _ := host.Remove(release);
      }
      var _ := catalog.Change(Releases.FailStep(release));
    }

    /** What the error says: by whether anything had to be undone, and whether that failed. */
    function Reported(cause: Code, undone: bool, undoFailed: bool): Outcome {
      if undoFailed then RollbackFailed(cause) else if undone then RolledBack(cause) else NoChange(cause)
    }

    /** The failure path of apply. */
    method FailDeploy(cause: Code, release: ReleaseId, previous: Option<ReleaseId>, stoppedPrevious: bool, switched: bool)
      returns (outcome: Outcome)
      requires stoppedPrevious ==> previous.Some?
      requires switched || stoppedPrevious ==> Single in host.units
      modifies host`calls, host`running, host`served, host`ready, host`current, host`units, host`dirs, catalog`count,
               catalog`releases
      ensures outcome == Reported(cause, stoppedPrevious || switched, outcome.RollbackFailed?)
      ensures outcome.RollbackFailed? ==> stoppedPrevious || switched
      ensures host.Obedient() && CanGoBack(previous, old(host.dirs)) ==> !outcome.RollbackFailed?
      ensures outcome.NoChange? ==> Here() == old(Here())
      ensures outcome.RolledBack? ==> Settled(previous)
      ensures outcome.RollbackFailed? ==> Here().process in {None, old(Here()).process}
      ensures host.Stops() && outcome.RollbackFailed? ==> Here().process.None?
      ensures (stoppedPrevious || switched) && old(Here()).process.Some? && host.Clings(old(Here()).process.value) ==>
                outcome.RollbackFailed? && Here().process == old(Here()).process
      ensures StillTheActive(old(catalog.releases))
      ensures catalog.Reliable() ==>
                catalog.releases == Releases.Apply(old(catalog.releases), Releases.FailStep(release))
    {
      var undoFailed := Undo(previous, stoppedPrevious, switched);
      RecordFailure(release);
      outcome := Reported(cause, stoppedPrevious || switched, undoFailed);
    }

    /** Undoes what the failed attempt did to the machine. */
    method Undo(previous: Option<ReleaseId>, stoppedPrevious: bool, switched: bool) returns (failed: bool)
      requires stoppedPrevious ==> previous.Some?
      requires switched || stoppedPrevious ==> Single in host.units
      modifies host`calls, host`running, host`served, host`ready, host`current, host`units
      ensures host.Obedient() && CanGoBack(previous, host.dirs) ==> !failed
      ensures !stoppedPrevious && !switched ==> !failed && Here() == old(Here())
      ensures (stoppedPrevious || switched) && !failed ==> Settled(previous)
      ensures failed ==> Here().process in {None, old(Here()).process}
      ensures host.Stops() && failed ==> Here().process.None?
      ensures (stoppedPrevious || switched) && old(Here()).process.Some? && host.Clings(old(Here()).process.value) ==>
                failed && Here().process == old(Here()).process
    {
      failed := false;
      if (switched || stoppedPrevious) && previous.Some? {
        var ok := RestorePrevious(previous.value);
        failed := !ok;
      } else if switched {
        var ok := TeardownFirstDeploy();
        failed := !ok;
      }
    }

    function ActiveAfter(outcome: Outcome, release: ReleaseId, previous: Option<ReleaseId>, rows: Releases.Rows): Option<ReleaseId> {
      if outcome.Succeeded? && release in rows then Some(release) else previous
    }

    /** Everything after the row has been marked. */
    method Proceed(release: ReleaseId, previous: Option<ReleaseId>, now: Time) returns (outcome: Outcome)
      requires previous == Releases.TheActive(catalog.releases)
      modifies host, catalog`count, catalog`releases
      ensures !outcome.Rejected?
      ensures host.Obedient() && host.Healthy() && catalog.Reliable() ==> outcome.Succeeded?
      ensures host.Obedient() && catalog.Reliable() && Noticed(release, previous) && CanGoBack(previous, old(host.dirs)) ==>
                outcome.Succeeded? || outcome.RolledBack?
      ensures Releases.TheActive(catalog.releases) == ActiveAfter(outcome, release, previous, old(catalog.releases))
      ensures outcome.Succeeded? ==> Here().process == Left(release, previous.Some?, true, old(Here()).process)
      ensures outcome.RollbackFailed? ==> Here().process in {None, Left(release, previous.Some?, true, old(Here()).process)}
      ensures outcome.NoChange? ==>
                Here().process in {old(Here()).process, Left(release, previous.Some?, true, old(Here()).process)}
      ensures catalog.releases.Keys == old(catalog.releases).Keys
      ensures outcome.Succeeded? ==>
                && InPlace(release)
                && (Runs(release) <==> previous.Some? || old(Here()).process in {None, Some(ProcessOf(specs(release), release))})
                && catalog.releases == Releases.Activate(old(catalog.releases), release, now)
      ensures outcome.RolledBack? ==> Settled(previous)
      ensures outcome.NoChange? ==>
                && Here().current == old(Here()).current && Here().unit in {old(Here()).unit, Some(specs(release))}
      ensures outcome.NoChange? && (Noticed(release, previous) || old(Here()).process.Some?) ==>
                Here().process == old(Here()).process
      ensures host.Obedient() && host.Sickly() && catalog.Reliable() && !Noticed(release, previous) ==>
                outcome.NoChange? && Here().process == Left(release, false, true, old(Here()).process)
      ensures host.Denies(PrepareCall) ==> outcome.NoChange? && Here().process == old(Here()).process
      ensures outcome.RollbackFailed? && host.Stops() ==> Here().process.None?
      ensures host.Clings(ProcessOf(specs(release), release)) && host.Sickly() && catalog.Reliable() && Noticed(release, previous)
              && CanBeStarted(release, previous, old(Here()).process) ==>
                outcome.RollbackFailed? && Here().process == Some(ProcessOf(specs(release), release))
      ensures !outcome.Succeeded? && catalog.Reliable() ==>
                catalog.releases == Releases.Fail(old(catalog.releases), release)
    {
      Releases.StepActive(catalog.releases, Releases.ActivateStep(release, now));
      var r, stoppedPrevious, switched, _ := Attempt(release, previous, now);
      if r.Err? {
        outcome := FailDeploy(r.code, release, previous, stoppedPrevious, switched);
      } else {
        outcome := Succeeded;
      }
    }

    /** Deploys a release, or rolls back to one, from whatever situation the machine is in. */
    method ApplySingle(release: ReleaseId, now: Time)
      returns (outcome: Outcome, ghost previous: Option<ReleaseId>)
      modifies host, catalog`count, catalog`releases
      ensures previous == old(Releases.TheActive(catalog.releases))
      // when nothing fails it succeeds; a release that merely does not get ready is rolled back, if that is noticed
      ensures host.Obedient() && host.Healthy() && catalog.Reliable() ==> outcome.Succeeded?
      ensures host.Obedient() && catalog.Reliable() && Noticed(release, previous) && CanGoBack(previous, old(host.dirs)) ==>
                outcome.Succeeded? || outcome.RolledBack?
      // what every report says about the process and the active release
      ensures release in old(catalog.releases) ==> Tells(specs, release, outcome, old(Now()), Now())
      ensures catalog.releases.Keys == old(catalog.releases).Keys
      // a success runs the new release exactly when an active one was stopped for it or no other process was there
      ensures outcome.Succeeded? ==>
                && InPlace(release)
                && (Runs(release) <==> previous.Some? || old(Here()).process in {None, Some(ProcessOf(specs(release), release))})
                && catalog.releases == Releases.Activate(Releases.MarkDeploying(old(catalog.releases), release), release, now)
      ensures outcome.RolledBack? ==> Settled(previous)
      // "nothing changed": of pointer and process that is true unless an unnoticed release was started where nothing ran;
      // the unit file may be the new release's by then
      ensures outcome.NoChange? || outcome.Rejected? ==>
                && Here().current == old(Here()).current && Here().unit in {old(Here()).unit, Some(specs(release))}
      ensures outcome.Rejected? || (outcome.NoChange? && (Noticed(release, previous) || old(Here()).process.Some?)) ==>
                Here().process == old(Here()).process
      ensures host.Obedient() && host.Sickly() && catalog.Reliable() && !Noticed(release, previous) ==>
                outcome.NoChange? && Here().process == Left(release, false, true, old(Here()).process)
      ensures host.Denies(PrepareCall) && catalog.Reliable() ==> outcome.NoChange? && Here().process == old(Here()).process
      // "no version is running" is true of a failed rollback as long as a stop never fails; a release that does not get
      // ready and cannot be stopped goes on running
      ensures outcome.RollbackFailed? && host.Stops() ==> Here().process.None?
      ensures host.Clings(ProcessOf(specs(release), release)) && host.Sickly() && catalog.Reliable() && Noticed(release, previous)
              && CanBeStarted(release, previous, old(Here()).process) ==>
                outcome.RollbackFailed? && Here().process == Some(ProcessOf(specs(release), release))
      // the rows change only on success
      ensures !outcome.Succeeded? && !outcome.Rejected? && catalog.Reliable() ==>
                catalog.releases == Releases.Fail(Releases.MarkDeploying(old(catalog.releases), release), release)
    {
      previous := Releases.TheActive(catalog.releases);
      var active := catalog.ActiveRelease();
      Releases.StepActive(catalog.releases, Releases.DeployStep(release));
      var ok := catalog.Change(Releases.DeployStep(release));
      if !ok {
        return Rejected(Internal), previous;
      }
      outcome := Proceed(release, active, now);
    }

    /** Its own process is what runs once the release has been started. */
    predicate CanBeStarted(release: ReleaseId, previous: Option<ReleaseId>, process: Option<Process>) {
      var own := ProcessOf(specs(release), release);
      if previous.Some? then process != Some(own) else process in {None, Some(own)}
    }
  }

  /** A machine on which the active release runs, with any oracle. */
  method SetUp(rows: Releases.SoundRows, specs: ReleaseId -> Spec, faults: (nat, Call) -> Fault, probes: nat -> bool)
    returns (d: Deployer)
    ensures fresh(d) && fresh(d.host) && fresh(d.catalog)
    ensures d.specs == specs && d.host.faults == faults && d.host.probes == probes
    ensures d.catalog.Reliable() && d.catalog.releases == rows && d.Settled(Releases.TheActive(rows))
  {
    var host := new Machine(faults, probes);
    var catalog := new C.Catalog(_ => true);
    catalog.releases := rows;
    d := new Deployer(host, catalog, specs);
    var active := catalog.ActiveRelease();
    if active.Some? {
      host.units := map[Single := specs(active.value)];
      host.current := map[Single := active.value];
      host.running := map[Single := ProcessOf(specs(active.value), active.value)];
    }
  }

  /** A machine on which a process runs although no release is active, with any oracle. */
  method SetUpLeftover(rows: Releases.SoundRows, specs: ReleaseId -> Spec, process: Process,
                       faults: (nat, Call) -> Fault, probes: nat -> bool) returns (d: Deployer)
    ensures fresh(d) && fresh(d.host) && fresh(d.catalog)
    ensures d.specs == specs && d.host.faults == faults && d.host.probes == probes
    ensures d.catalog.Reliable() && d.catalog.releases == rows && d.Here() == Place(Some(process), None, Some(process.spec))
  {
    var host := new Machine(faults, probes);
    var catalog := new C.Catalog(_ => true);
    catalog.releases := rows;
    host.units := map[Single := process.spec];
    host.running := map[Single := process];
    d := new Deployer(host, catalog, specs);
  }

  /** The call that asks to stop the release's process is refused, and nothing else. */
  function Clinging(p: Process): (nat, Call) -> Fault {
    (_, call) => if call == StopCall(Some(p)) then Refused else Done
  }

  /** A failed rollback is reported as "no version is running" while the release that failed is. */
  method ReportsNothingRunning(rows: Releases.SoundRows, specs: ReleaseId -> Spec, release: ReleaseId, now: Time)
    returns (d: Deployer, outcome: Outcome)
    requires specs(release).materializes && Releases.TheActive(rows) != Some(release)
    ensures outcome.RollbackFailed? && d.Here().process == Some(Process(Some(release), specs(release)))
  {
    d := SetUp(rows, specs, Clinging(Process(Some(release), specs(release))), _ => false);
    var result, _ := d.ApplySingle(release, now);
    outcome := result;
  }

  /** "Nothing changed" is reported while a first release without files of its own has been started and left running. */
  method ReportsNoChange(rows: Releases.SoundRows, specs: ReleaseId -> Spec, release: ReleaseId, now: Time)
    returns (d: Deployer, outcome: Outcome)
    requires !specs(release).materializes && !Releases.SomeActive(rows)
    ensures outcome.NoChange? && d.Here().process == Some(Process(None, specs(release)))
  {
    d := SetUp(rows, specs, (_, _) => Done, _ => false);
    var result, _ := d.ApplySingle(release, now);
    outcome := result;
  }

  /**
   * Such a leftover is taken for the first release: nothing stops it, starting the unit is a no-op, the leftover is
   * found ready, and the deployment is a success.
   */
  method TakesLeftoverForRelease(rows: Releases.SoundRows, specs: ReleaseId -> Spec, release: ReleaseId, leftover: Process, now: Time)
    returns (d: Deployer, outcome: Outcome)
    requires !Releases.SomeActive(rows) && release in rows && leftover != ProcessOf(specs(release), release)
    ensures outcome.Succeeded? && Releases.TheActive(d.catalog.releases) == Some(release)
    ensures d.Here().process == Some(leftover) && !d.Runs(release)
  {
    d := SetUpLeftover(rows, specs, leftover, (_, _) => Done, _ => true);
    var result, _ := d.ApplySingle(release, now);
    outcome := result;
  }

  /** There too a first deployment that changed nothing says that no version was running before. */
  method SaysNothingWasRunning(rows: Releases.SoundRows, specs: ReleaseId -> Spec, release: ReleaseId, leftover: Process, now: Time)
    returns (d: Deployer, outcome: Outcome)
    requires !Releases.SomeActive(rows)
    ensures outcome.NoChange? && d.Here().process == Some(leftover)
  {
    d := SetUpLeftover(rows, specs, leftover, (_, call) => if call == PrepareCall then Refused else Done, _ => true);
    var result, _ := d.ApplySingle(release, now);
    outcome := result;
  }

  // ---- Any number of deployments ----

  /** One situation before each deployment and one at the end, each told by the report in between. */
  ghost predicate History(specs: ReleaseId -> Spec, releases: seq<ReleaseId>, outcomes: seq<Outcome>, story: seq<Situation>) {
    && |outcomes| == |releases| && |story| == |releases| + 1
    && forall k | 0 <= k < |releases| :: Tells(specs, releases[k], outcomes[k], story[k], story[k + 1])
  }

  /** Deployments and rollbacks one after another, failing and dying anywhere. story is history. */
  method RunDeployments(d: Deployer, releases: seq<ReleaseId>, times: nat -> Time)
    returns (outcomes: seq<Outcome>, ghost story: seq<Situation>)
    requires forall k | 0 <= k < |releases| :: releases[k] in d.catalog.releases
    modifies d.host, d.catalog
    ensures History(d.specs, releases, outcomes, story)
    ensures story[0] == old(d.Now()) && story[|releases|] == d.Now()
    ensures d.host.Stops() ==> NoneLeftRunning(outcomes, story)
  {
    outcomes, story := [], [d.Now()];
    for k := 0 to |releases|
      invariant History(d.specs, releases[..k], outcomes, story)
      invariant story[0] == old(d.Now()) && story[k] == d.Now()
      invariant d.catalog.releases.Keys == old(d.catalog.releases).Keys
      invariant d.host.Stops() ==> NoneLeftRunning(outcomes, story)
    {
      assert releases[k] in d.catalog.releases.Keys;
      var outcome, _ := d.ApplySingle(releases[k], times(k));
      outcomes, story := outcomes + [outcome], story + [d.Now()];
    }
    assert releases[..|releases|] == releases;
  }

  ghost predicate NoneLeftRunning(outcomes: seq<Outcome>, story: seq<Situation>) {
    |story| == |outcomes| + 1 && forall k | 0 <= k < |outcomes| && outcomes[k].RollbackFailed? :: story[k + 1].process.None?
  }

  /** The last of the reports from i on, up to j, that is about a change. */
  function LastTold(outcomes: seq<Outcome>, i: nat, j: nat): (last: Option<nat>)
    requires i <= j <= |outcomes|
    ensures last.Some? ==> i <= last.value < j
  {
    if i == j then None
    else if outcomes[j - 1].NoChange? || outcomes[j - 1].Rejected? then LastTold(outcomes, i, j - 1)
    else Some(j - 1)
  }

  /**
   * Main theorem on the single slot: once a release is active the reports are to be trusted, whatever was running then
   * and whatever fails. One release stays active; after the last success or rollback it is the one that runs; after a
   * failed rollback nothing runs, or the release that failed; and with neither nothing has changed.
   */
  lemma {:induction false} LastReportTells(specs: ReleaseId -> Spec, releases: seq<ReleaseId>, outcomes: seq<Outcome>,
                                           story: seq<Situation>, i: nat, j: nat)
    requires History(specs, releases, outcomes, story) && i <= j <= |releases| && story[i].active.Some?
    ensures story[j].active.Some?
    ensures match LastTold(outcomes, i, j)
            case None => story[j] == story[i]
            case Some(k) =>
              if outcomes[k].RollbackFailed? then
                story[j].process in {None, Some(ProcessOf(specs(releases[k]), releases[k]))}
              else
                story[j].process == Some(ProcessOf(specs(story[j].active.value), story[j].active.value))
  {
    if i < j {
      LastReportTells(specs, releases, outcomes, story, i, j - 1);
      assert Tells(specs, releases[j - 1], outcomes[j - 1], story[j - 1], story[j]);
    }
  }

  /** Nothing runs but the active release. */
  ghost predicate Tidy(specs: ReleaseId -> Spec, s: Situation) {
    s.process.None? || (s.active.Some? && s.process == Some(ProcessOf(specs(s.active.value), s.active.value)))
  }

  /** It stays so while no stop fails and, until there is an active release, every release brings its own files. */
  lemma {:induction false} StaysTidy(specs: ReleaseId -> Spec, releases: seq<ReleaseId>, outcomes: seq<Outcome>,
                                     story: seq<Situation>, j: nat)
    requires History(specs, releases, outcomes, story) && NoneLeftRunning(outcomes, story) && j <= |releases|
    requires Tidy(specs, story[0])
    requires forall k | 0 <= k < j :: story[k].active.Some? || specs(releases[k]).materializes
    ensures Tidy(specs, story[j])
  {
    if j > 0 {
      StaysTidy(specs, releases, outcomes, story, j - 1);
      assert Tells(specs, releases[j - 1], outcomes[j - 1], story[j - 1], story[j]);
    }
  }
}
