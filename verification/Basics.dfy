/** Small shared vocabulary: options, results, and the error codes the daemon reports. */
module Basics {

  datatype Option<+T> = None | Some(value: T)

  /** The subset of the daemon's error codes that the modelled paths produce. */
  datatype Code =
    | Internal
    | LockBusy
    | IdempotencyConflict
    | OperationNotFound
    | InvalidRequest
    | ConfigInvalid
    | ManifestInvalid
    | PermissionDenied
    | SecretUnresolved
    | ExecTimeout
    | ExecCancelled
    | ExecExitNonZero
    | DaemonRestarted
    | RuntimeNotReady
    | RuntimeUnsupported
    | BackupPreflightFailed
    | BackupVerifyFailed
    | NginxConfigInvalid
    | NginxReloadFailed
    | DeployRolledBack
    | ReleaseNotFound
    | BatchPreflightFailed
    | BatchFailed
    | UploadTooLarge

  datatype Result<+T> = Ok(value: T) | Err(code: Code)

  function Min(a: int, b: int): int {
    if a <= b then a else b
  }

  function Max(a: int, b: int): int {
    if a >= b then a else b
  }

  lemma {:induction false} SubsetSize<T>(a: set<T>, b: set<T>)
    requires a <= b
    ensures |a| <= |b|
  {
    if a != {} {
      var x :| x in a;
      SubsetSize(a - {x}, b - {x});
    }
  }
}
