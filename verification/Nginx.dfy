/**
 * Switching traffic: install the candidate file, check it, reload, and put the old file back on failure.
 */
module Nginx {
  import opened Basics
  import opened Host

  class Adapter {
    const host: Machine

    constructor (host: Machine)
      ensures this.host == host
    {
      this.host := host;
    }

    method Validate() returns (r: Result<()>)
      modifies host`calls
      ensures host.Carries(CheckCall) ==> r.Ok?
    {
      var ok := host.Try(CheckCall);
      r := if ok then Ok(()) else Err(RuntimeUnsupported);
    }

    /** Checks after the file is in place and before the reload: is it included, and does the tree parse. */
    method CheckInstalled() returns (ok: bool)
      modifies host`calls
      ensures host.Carries(CheckCall) ==> ok
      ensures old(host.calls) < host.calls <= old(host.calls) + 2
    {
      ok := host.Try(CheckCall);
      if ok {
        ok := host.Try(CheckCall);
      }
    }

    /** Loads the file that has just been installed, or else puts the previous one back and loads that. */
    method LoadInstalled(previous: Option<Config>) returns (reloaded: bool, restored: bool)
      requires host.installedAt.Some? && host.installedAt.value < host.calls <= host.installedAt.value + 3
      modifies host`calls, host`managed, host`loaded, host`served, host`reloadedAt, host`installedAt
      ensures host.Carries(ReloadCall(old(host.managed))) ==> reloaded
      ensures host.Denies(ReloadCall(old(host.managed))) && host.Calm() && host.Carries(ReloadCall(previous)) ==>
                !reloaded && restored
      ensures reloaded ==> host.loaded == host.managed == old(host.managed) && host.reloadedAt < host.calls
      ensures !reloaded ==>
                && host.managed in {old(host.managed), previous}
                && host.loaded in {old(host.loaded), old(host.managed), previous}
                && (host.Truthful() ==> host.loaded in {old(host.loaded), previous})
      ensures restored ==> !reloaded && host.loaded == host.managed == previous
      ensures old(host.loaded) == previous ==> host.managed == host.loaded || host.Torn()
      ensures old(host.served) && old(host.Serving()) && Serves(old(host.managed), host.running) && Serves(previous, host.running) ==>
                host.served && host.Serving()
    {
      restored := false;
      reloaded := host.Reload();
      if !reloaded {
        var back := host.WriteManaged(previous);
        if back {
          restored := host.Reload();
        }
      }
    }

    /**
     * Points the upstream at a slot. Every error but NginxReloadFailed precedes any reload, so it leaves the
     * loaded configuration as it was. After a failed reload the old file is installed and loaded again;
     * restored says that this worked, which is when the error message may say that traffic did not move.
     */
    method Apply(spec: Spec, slot: Side) returns (r: Result<()>, restored: bool)
      modifies host`calls, host`managed, host`loaded, host`served, host`reloadedAt, host`installedAt
      ensures host.Obedient() ==> r.Ok?
      ensures r.Ok? ==> host.managed == host.loaded == Some(Config(spec, slot)) && host.reloadedAt < host.calls
      ensures r.Err? ==> host.managed == old(host.managed) || host.managed == Some(Config(spec, slot))
      ensures r.Err? && r.code != NginxReloadFailed ==> host.loaded == old(host.loaded) && host.served == old(host.served)
      ensures r.Err? ==> host.loaded in {old(host.loaded), old(host.managed), Some(Config(spec, slot))}
      ensures restored ==> r == Err(NginxReloadFailed) && host.loaded == host.managed == old(host.managed)
      ensures r.Err? && host.Truthful() ==> host.loaded in {old(host.loaded), old(host.managed)}
      ensures host.Rejects(Config(spec, slot)) && old(host.managed) != Some(Config(spec, slot)) ==>
                r == Err(NginxReloadFailed) && restored
      ensures old(host.managed) == old(host.loaded) ==> host.managed == host.loaded || host.Torn()
      ensures old(host.served) && old(host.Serving()) && Serves(old(host.managed), host.running) && slot in host.running ==>
                host.served && host.Serving()
    {
      restored := false;
      var valid := Validate();
      if valid.Err? {
        return valid, false;
      }
      var readable := host.Try(CheckCall);
      if !readable {
        return Err(Internal), false;
      }
      var previous := host.managed;
      var written := host.WriteManaged(Some(Config(spec, slot)));
      if !written {
        return Err(Internal), false;
      }
      var sound := CheckInstalled();
      if !sound {
        var _ := host.WriteManaged(previous);
        return Err(NginxConfigInvalid), false;
      }
      var reloaded;
      reloaded, restored := LoadInstalled(previous);
      if !reloaded {
        return Err(NginxReloadFailed), restored;
      }
      return Ok(()), false;
    }
  }
}
