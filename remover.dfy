/**
 * The bounded retrying remover: `fs.remove` is attempted up to
 * `MaxRetries + 1` times, with a fixed wait between attempts, as long as
 * each failure carries one of the transient lock codes. The outcome of each
 * attempt is given in advance, one per attempt, as the oracle `outcomes`;
 * waits are counted, not performed.
 */
module Remover {
  import opened Wrappers
  import opened GamePaths
  import opened FileSystem

  const MaxRetries: nat := 3
  const RetryDelayMs: nat := 1000
  const RetryCodes: seq<string> := ["EBUSY", "EPERM", "ENOTEMPTY", "EACCES"]

  /** The error's code is one of the transient lock codes. */
  function IsRetryable(e: FsError): (b: bool)
    ensures b <==> e.code == Some("EBUSY") || e.code == Some("EPERM") || e.code == Some("ENOTEMPTY") || e.code == Some("EACCES")
  {
    e.code.Some? && e.code.value in RetryCodes
  }

  /** `{ success: true, attempts }`, or the error thrown. */
  datatype RemoveResult = Removed(attempts: nat) | Thrown(error: FsError)

  /**
   * `removeDirWithRetry`. Attempt `k` (from 0) ends as `outcomes[k]`. The
   * result is decided by the first attempt that succeeds or fails with a
   * non-retryable code, or by the last attempt the budget allows.
   */
  method RemoveDirWithRetry(disk: Disk, targetPath: Path, outcomes: seq<FsOutcome>)
    returns (r: RemoveResult, disk': Disk, attempts: nat, waits: nat)
    requires |outcomes| > MaxRetries
    ensures 1 <= attempts <= MaxRetries + 1
    ensures waits == attempts - 1
    ensures forall k :: 0 <= k < attempts - 1 ==> outcomes[k].Fail? && IsRetryable(outcomes[k].error)
    ensures r.Removed? <==> outcomes[attempts - 1].Ok?
    ensures r.Removed? ==> r.attempts == attempts && disk' == RemoveTree(disk, targetPath)
    ensures r.Thrown? ==> outcomes[attempts - 1] == Fail(r.error) && disk' == disk
    ensures r.Thrown? && IsRetryable(r.error) ==> attempts == MaxRetries + 1
  {
    var lastError: Option<FsError> := None;
    disk', attempts, waits := disk, 0, 0;
    var attempt := 0;
    while attempt <= MaxRetries
      invariant attempt <= MaxRetries
      invariant attempts == attempt && waits == attempt
      invariant forall k :: 0 <= k < attempt ==> outcomes[k].Fail? && IsRetryable(outcomes[k].error)
      invariant lastError == if attempt == 0 then None else Some(outcomes[attempt - 1].error)
      invariant disk' == disk
    {
      attempts := attempts + 1;
      match outcomes[attempt]
      case Ok =>
        disk' := RemoveTree(disk, targetPath);
        return Removed(attempt + 1), disk', attempts, waits;
      case Fail(error) =>
        lastError := Some(error);
        var shouldRetry := IsRetryable(error);
        if !shouldRetry || attempt >= MaxRetries {
          break;
        }
        waits := waits + 1;
      attempt := attempt + 1;
    }
    r := Thrown(if lastError.Some? then lastError.value else FsError(None, "Failed to remove directory"));
  }

  /** A non-retryable error is thrown after the first attempt, with no wait. */
  method RetryPermanentError(disk: Disk, dir: Path, denied: FsError) returns (r: RemoveResult, attempts: nat, waits: nat)
    requires denied.code == Some("ENOENT")
    ensures r == Thrown(denied) && attempts == 1 && waits == 0
  {
    var outcomes := [Fail(denied), Fail(denied), Fail(denied), Fail(denied)];
    var d;
    r, d, attempts, waits := RemoveDirWithRetry(disk, dir, outcomes);
    assert outcomes[0] == Fail(denied);
  }

  /** Two busy failures and then a success: removed on the third attempt, after two waits. */
  method RetryThirdTimeSucceeds(disk: Disk, dir: Path, busy: FsError)
    returns (r: RemoveResult, disk': Disk, attempts: nat, waits: nat)
    requires busy.code == Some("EBUSY")
    ensures r == Removed(3) && attempts == 3 && waits == 2
    ensures disk' == RemoveTree(disk, dir)
  {
    var outcomes := [Fail(busy), Fail(busy), Ok, Ok];
    r, disk', attempts, waits := RemoveDirWithRetry(disk, dir, outcomes);
    assert outcomes[2] == Ok;
  }

  /** A lock that never clears: the last busy error is thrown after every attempt the budget allows. */
  method RetryStuckLock(disk: Disk, dir: Path, busy: FsError)
    returns (r: RemoveResult, disk': Disk, attempts: nat, waits: nat)
    requires busy.code == Some("EBUSY")
    ensures r == Thrown(busy) && attempts == MaxRetries + 1 && waits == MaxRetries
    ensures disk' == disk
  {
    var outcomes := [Fail(busy), Fail(busy), Fail(busy), Fail(busy)];
    r, disk', attempts, waits := RemoveDirWithRetry(disk, dir, outcomes);
  }
}
