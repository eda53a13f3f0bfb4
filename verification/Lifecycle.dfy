/**
 * Blue-green deployments one after another, with a reconciliation after each as the daemon does at startup.
 *
 * A deployment in which the daemon dies is one of the runs: from that call on every call of it fails and
 * every write is lost, which leaves the machine and the database as they were at that call.
 */
module Lifecycle {
  import opened Basics
  import opened Host
  import C = Catalog
  import D = DeploySlot
  import N = Nginx
  import R = Render
  import S = Slots
  import Releases

  /** Where the managed file points. */
  function Online(managed: Option<Config>): Option<Side> {
    if managed.Some? then Some(managed.value.slot) else None
  }

  function ProcessStates(running: map<Slot, Process>): S.Processes {
    (s: Side) => Some(if s in running then S.Active else S.Inactive)
  }

  /** The managed file as it is on disk, by the manifest it was rendered from. */
  function FileOf(managed: Option<Config>, manifests: Spec -> R.Entry): Result<Option<string>> {
    if managed.None? then Ok(None)
    else
      match R.Rendered(manifests(managed.value.spec), managed.value.slot, "", "")
      case Err(code) => Err(code)
      case Ok(text) => Ok(Some(text))
  }

  /** Every version of the application declares both slots, and starts each on the same port. */
  ghost predicate SamePorts(manifests: Spec -> R.Entry) {
    && (forall v :: R.ValidSlots(manifests(v)) && R.OneLine(manifests(v).upstream))
    && (forall v, w, s: Side :: manifests(v).slots[s][0] == manifests(w).slots[s][0])
  }

  /** Then the file of any version tells under any other version's manifest where it points. */
  lemma FileReadsBack(managed: Option<Config>, manifests: Spec -> R.Entry, reader: Spec)
    requires SamePorts(manifests)
    ensures S.HasSlots(Some(manifests(reader)))
    ensures S.PointsAt(FileOf(managed, manifests), manifests(reader)) == Ok(Online(managed))
  {
    assert Blue in manifests(reader).slots;
    if managed.Some? {
      R.ParseUnderAnotherManifest(manifests(managed.value.spec), managed.value.slot, manifests(reader));
    }
  }

  /** The slot rows after a reconciliation. */
  function Refreshed(rows: S.Rows, running: map<Slot, Process>, managed: Option<Config>): S.Rows {
    S.Reconciled(rows, ProcessStates(running), true, Online(managed))
  }

  /**
   * Reconciling under the active release's manifest, or without one under the fallback. With the same ports in
   * every version, the recorded serving slot becomes the one the managed file points at, whatever the last
   * deployment left recorded.
   */
  method ReconcileMachine(d: D.Deployer, service: S.SlotService, manifests: Spec -> R.Entry, fallback: Option<R.Entry>)
    returns (errors: nat)
    requires service.catalog == d.catalog && service.hasNginx && service.hasRuntime
    modifies d.catalog`count, d.catalog`serving, d.catalog`slots, d.catalog`events
    ensures SamePorts(manifests) && Releases.SomeActive(d.catalog.releases) ==>
              && (d.catalog.Reliable() ==> errors == 0)
              && (errors == 0 ==>
                    && d.catalog.serving == Online(d.host.managed)
                    && d.catalog.slots == Refreshed(old(d.catalog.slots), d.host.running, d.host.managed))
  {
    var active := d.catalog.ActiveRelease();
    var manifest := if active.Some? then Some(manifests(d.specs(active.value))) else fallback;
    if active.Some? && SamePorts(manifests) {
      FileReadsBack(d.host.managed, manifests, d.specs(active.value));
    }
    var failures, _, _ :=
      service.ReconcileApplication(manifest, FileOf(d.host.managed, manifests), ProcessStates(d.host.running));
    errors := failures;
  }

  /** After a reconciliation the one serving row, if any, belongs to the live process nginx sends traffic to. */
  lemma ServingRowIsLive(rows: S.Rows, running: map<Slot, Process>, managed: Option<Config>, s: Side)
    requires s in rows && Serves(managed, running)
    ensures Refreshed(rows, running, managed)[s].state.Serving? <==> managed.Some? && managed.value.slot == s
    ensures Refreshed(rows, running, managed)[s].state.Stopped? <==> s !in running
  {
    var process := ProcessStates(running)(s);
    assert Refreshed(rows, running, managed)[s] == S.Corrected(rows[s], process, s, true, Online(managed));
  }

  // ---- One deployment after a reconciliation: exactly when traffic keeps being answered ----

  /** A deployment that follows a reconciliation is safe. */
  predicate Unbroken(v: View) {
    D.Safe(v, Online(v.managed))
  }

  /**
   * Seen from the two files: when nginx has loaded one and one is installed, both must point at the same slot.
   * So it is enough that the managed file is the loaded one, as after a successful reload.
   */
  lemma UnbrokenByTheFiles(v: View)
    requires Serves(v.loaded, v.running)
    ensures v.managed.Some? && v.loaded.Some? ==> (Unbroken(v) <==> v.managed.value.slot == v.loaded.value.slot)
    ensures v.managed.Some? && v.loaded.None? ==> (Unbroken(v) <==> v.managed.value.slot in v.running)
    ensures v.managed.None? ==> (Unbroken(v) <==> Online(v.loaded) != Some(Blue))
    ensures v.managed == v.loaded ==> Unbroken(v)
  {
  }

  /**
   * From an unbroken state no pattern of truthful failures interrupts the traffic. From any other, nginx having
   * loaded the slot the deployment goes to, a release that merely does not get ready takes that slot down, and the
   * error says that traffic was not affected; or, no process being behind the managed file, a refused reload of
   * the new file makes nginx load that one.
   */
  method Redeploy(d: D.Deployer, service: S.SlotService, manifests: Spec -> R.Entry, release: ReleaseId, now: Releases.Time)
    returns (outcome: D.Outcome)
    requires d.Valid() && service.catalog == d.catalog && service.hasNginx && service.hasRuntime
    requires SamePorts(manifests) && d.catalog.Reliable() && Releases.SomeActive(d.catalog.releases)
    modifies d.host, d.catalog
    ensures d.host.Truthful() && old(d.host.served) && Unbroken(old(d.host.Sight())) ==> d.host.served && d.host.Serving()
    ensures d.host.Calm() && d.host.Sickly() && old(Online(d.host.loaded)) == Some(D.NextSlot(old(Online(d.host.managed)))) ==>
              outcome.Unaffected? && !d.host.Serving() && !d.host.served
    ensures d.host.Rejects(Config(d.specs(release), D.NextSlot(old(Online(d.host.managed))))) && d.host.Healthy()
            && !Serves(old(d.host.managed), old(d.host.running)) ==>
              outcome.Uncertain? && !d.host.Serving() && !d.host.served
  {
    ghost var before := d.host.Sight();
    var _ := ReconcileMachine(d, service, manifests, None);
    var result, target, previous := d.ApplySlot(release, now);
    outcome := result;
    if !outcome.Rejected? {
      assert d.EndedAsForeseen(before, release, target, outcome);
    }
  }

  /** A machine, its database and its adapters in any state, with any oracle. */
  method SetUp(v: View, rows: Releases.SoundRows, specs: ReleaseId -> Spec, faults: (nat, Call) -> Fault, probes: nat -> bool)
    returns (d: D.Deployer, service: S.SlotService)
    ensures fresh(d) && fresh(d.host) && fresh(d.catalog)
    ensures d.Valid() && service.catalog == d.catalog && service.hasNginx && service.hasRuntime
    ensures d.specs == specs && d.host.faults == faults && d.host.probes == probes
    ensures d.catalog.Reliable() && d.catalog.releases == rows && d.catalog.serving.None?
    ensures d.host.Sight() == v
  {
    var host := new Machine(faults, probes);
    host.managed, host.loaded, host.running := v.managed, v.loaded, v.running;
    host.current, host.dirs := v.current, v.dirs;
    host.served, host.ready, host.reloadedAt := v.served, v.ready, v.reloadedAt;
    var catalog := new C.Catalog(_ => true);
    catalog.releases := rows;
    var nginx := new N.Adapter(host);
    d := new D.Deployer(host, catalog, nginx, specs);
    service := new S.SlotService(catalog, true, true);
  }

  function Refusing(config: Config): (nat, Call) -> Fault {
    (_, call) => if call == ReloadCall(Some(config)) then Refused else Done
  }

  /**
   * The condition is exact: from every state that is served but not unbroken, some truthful failure interrupts the
   * traffic. A daemon that dies between installing a file and reloading leaves such a state: reconciliation follows
   * the installed file, and the next deployment goes to the slot nginx still has loaded.
   */
  method Interrupt(v: View, rows: Releases.SoundRows, specs: ReleaseId -> Spec, manifests: Spec -> R.Entry,
                   release: ReleaseId, now: Releases.Time) returns (d: D.Deployer, outcome: D.Outcome)
    requires Serves(v.loaded, v.running) && v.served && !Unbroken(v)
    requires SamePorts(manifests) && Releases.SomeActive(rows)
    ensures d.host.Truthful() && d.catalog.Reliable()
    ensures !d.host.served && !d.host.Serving()
    ensures if Serves(v.managed, v.running) then outcome.Unaffected? else outcome.Uncertain?
  {
    var target := D.NextSlot(Online(v.managed));
    var dead := v.managed.Some? && v.managed.value.slot !in v.running;
    var faults := if dead then Refusing(Config(specs(release), target)) else (_, _) => Done;
    var service;
    d, service := SetUp(v, rows, specs, faults, _ => dead);
    outcome := Redeploy(d, service, manifests, release, now);
  }

  /**
   * Rolling back to a release that does not get ready deletes its directory, although its row goes on saying that it
   * has one and that it can be rolled back to.
   */
  method LoseDirectory(v: View, rows: Releases.SoundRows, specs: ReleaseId -> Spec, release: ReleaseId, now: Releases.Time)
    returns (d: D.Deployer)
    requires release in rows && rows[release].status.Superseded? && rows[release].directory && specs(release).materializes
    requires D.Backed(rows, v.dirs, specs) && (forall s | s in v.current :: v.current[s] != release)
    ensures release in d.catalog.releases && d.catalog.releases[release].status.Superseded?
    ensures !D.Backed(d.catalog.releases, d.host.dirs, specs)
  {
    var service;
    d, service := SetUp(v, rows, specs, (_, _) => Done, _ => false);
    var outcome, target, _ := d.ApplySlot(release, now);
    assert d.EndedAsForeseen(v, release, target, outcome);
    forall s | s in d.host.current
      ensures d.host.current[s] != release
    {
      assert Lookup(d.host.current, s) == Lookup(v.current, s);
    }
    assert d.Discarded(release);
    D.FailureKeepsBacked(rows, release, target, specs, v.dirs, d.host.dirs);
  }

  // ---- Any number of deployments ----

  /** What is loaded is what is installed and recorded, and a live process answers it. */
  ghost predicate Settled(d: D.Deployer)
    reads d.host, d.catalog
  {
    d.host.managed == d.host.loaded && d.catalog.serving == Online(d.host.managed) && d.host.Serving()
  }

  /**
   * One deployment and the reconciliation after it. What it leaves is settled again, whatever failed, unless nginx's
   * file was installed and something failed before it was loaded or put back; errors counts what went wrong reconciling.
   */
  method Round(d: D.Deployer, service: S.SlotService, manifests: Spec -> R.Entry, release: ReleaseId, now: Releases.Time)
    returns (errors: nat)
    requires d.Valid() && service.catalog == d.catalog && service.hasNginx && service.hasRuntime
    requires d.host.Truthful() && Releases.SomeActive(d.catalog.releases)
    modifies d.host, d.catalog
    ensures Releases.SomeActive(d.catalog.releases)
    ensures old(d.host.served) && D.Safe(old(d.host.Sight()), old(d.catalog.serving)) ==> d.host.served && d.host.Serving()
    ensures SamePorts(manifests) && d.catalog.Reliable() ==> errors == 0
    ensures SamePorts(manifests) && errors == 0 && old(Settled(d)) ==>
              d.host.Torn() || (d.host.managed == d.host.loaded && d.catalog.serving == Online(d.host.managed))
  {
    ghost var before := d.host.Sight();
    var outcome, target, _ := d.ApplySlot(release, now);
    if !outcome.Rejected? {
      assert d.EndedAsForeseen(before, release, target, outcome);
    }
    errors := ReconcileMachine(d, service, manifests, None);
  }

  /**
   * A crash: the daemon dies at call n of a deployment, losing whatever it would have written. Unless that was between
   * installing nginx's file and loading it, which takes three calls at most, the reconciliation after the restart leaves
   * a state that is settled, from which the next deployment is safe again.
   */
  method Crash(d: D.Deployer, service: S.SlotService, manifests: Spec -> R.Entry, release: ReleaseId, now: Releases.Time, n: nat)
    returns (errors: nat)
    requires d.Valid() && service.catalog == d.catalog && service.hasNginx && service.hasRuntime
    requires d.host.DiesAt(n) && d.host.Truthful()
    requires SamePorts(manifests) && Releases.SomeActive(d.catalog.releases) && Settled(d) && d.host.served
    modifies d.host, d.catalog
    ensures d.host.served && d.host.Serving()
    ensures errors == 0 && (d.host.installedAt.Some? ==> d.host.installedAt.value + 3 < n) ==>
              Settled(d) && D.Safe(d.host.Sight(), d.catalog.serving)
  {
    errors := Round(d, service, manifests, release, now);
    if d.host.installedAt.Some? ==> d.host.installedAt.value + 3 < n {
      d.host.DiesElsewhere(n);
    }
  }

  /**
   * Main theorem: over any number of deployments and rollbacks, failing and dying anywhere, with a reconciliation
   * after each, traffic never meets a slot without a live process unless some deployment began in a state that was
   * not safe (exposed). None does as long as every reconciliation goes through and no deployment is cut off between
   * installing nginx's file and loading it (torn); in particular while nginx does what it is told and no write is lost.
   */
  method RunDeployments(d: D.Deployer, service: S.SlotService, manifests: Spec -> R.Entry, releases: seq<ReleaseId>,
                        times: nat -> Releases.Time) returns (ghost exposed: bool, ghost torn: bool, errors: nat)
    requires d.Valid() && service.catalog == d.catalog && service.hasNginx && service.hasRuntime
    requires d.host.Truthful() && Releases.SomeActive(d.catalog.releases)
    modifies d.host, d.catalog
    ensures old(d.host.served) && old(d.host.Serving()) && !exposed ==> d.host.served && d.host.Serving()
    ensures old(d.host.served) && old(Settled(d)) && SamePorts(manifests) && !torn && errors == 0 ==> !exposed && Settled(d)
    ensures d.host.NginxSteady() ==> !torn
    ensures SamePorts(manifests) && d.catalog.Reliable() ==> errors == 0
    ensures Releases.SomeActive(d.catalog.releases)
  {
    exposed, torn, errors := false, false, 0;
    for k := 0 to |releases|
      invariant Releases.SomeActive(d.catalog.releases)
      invariant old(d.host.served) && old(d.host.Serving()) && !exposed ==> d.host.served && d.host.Serving()
      invariant old(d.host.served) && old(Settled(d)) && SamePorts(manifests) && !torn && errors == 0 ==> !exposed && Settled(d)
      invariant d.host.NginxSteady() ==> !torn
      invariant SamePorts(manifests) && d.catalog.Reliable() ==> errors == 0
    {
      exposed := exposed || !D.Safe(d.host.Sight(), d.catalog.serving);
      var failures := Round(d, service, manifests, releases[k], times(k));
      torn, errors := torn || d.host.Torn(), errors + failures;
    }
  }
}
