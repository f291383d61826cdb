/**
 * The repair request (`repair-game`): resolve the target directory, stop the
 * game, remove the directory with retries, and when the removal keeps
 * failing on a transient lock, move the directory into the quarantine area
 * instead. Exactly one `repair-complete` reply is sent.
 */
module Repair {
  import opened Wrappers
  import opened Values
  import opened GamePaths
  import opened FileSystem
  import opened Remover

  /** The pause after stopping the game processes, letting the OS release handles. */
  const SettleDelayMs: nat := 500

  /** The quarantine move's outcome: the disk afterwards and the error it threw, if any. */
  datatype QuarantineResult = QuarantineResult(disk: Disk, error: Option<FsError>)

  /**
   * `moveToPendingDelete`: create `<root>/cache/pending_delete`, then move the
   * game directory to `<channel>_<now>` inside it, replacing any entry of that
   * name. The background removal of the quarantined copy that follows is not
   * awaited and cannot change this result.
   */
  function MoveToPendingDelete(disk: Disk, root: Path, gameDir: Path, channel: string, now: nat,
                               ensureDir: FsOutcome, move: FsOutcome): (q: QuarantineResult)
    requires exists c :: gameDir == BuildGameDir(root, c)
    ensures q.error.None? <==> ensureDir.Ok? && move.Ok?
    ensures IsTree(disk) ==> IsTree(q.disk)
    ensures ensureDir.Fail? ==> q == QuarantineResult(disk, Some(ensureDir.error))
    ensures ensureDir.Ok? && move.Fail? ==> q == QuarantineResult(EnsureDir(disk, PendingBase(root)), Some(move.error))
    ensures q.error.None? ==> PendingBase(root) in q.disk && !exists p :: p in q.disk && Under(gameDir, p)
    ensures q.error.None? ==>
      forall p :: p in disk && Under(gameDir, p) ==> Relocate(gameDir, PendingTarget(root, channel, now), p) in q.disk
    ensures q.error.None? ==>
      forall p :: p in disk && !Under(gameDir, p) && !Under(PendingTarget(root, channel, now), p) ==> p in q.disk
    ensures q.error.None? ==>
      forall p :: p in q.disk ==>
        || (p in disk && !Under(gameDir, p) && !Under(PendingTarget(root, channel, now), p))
        || p in Ancestors(PendingBase(root))
        || (Under(PendingTarget(root, channel, now), p) && gameDir + p[|PendingTarget(root, channel, now)|..] in disk)
  {
    var c :| gameDir == BuildGameDir(root, c);
    var pendingBase := PendingBase(root);
    match ensureDir
    case Fail(e) => QuarantineResult(disk, Some(e))
    case Ok =>
      var ensured := EnsureDir(disk, pendingBase);
      var pendingTarget := PendingTarget(root, channel, now);
      assert Under(pendingBase, pendingTarget);
      PendingOutsideGameDir(root, c, pendingTarget);
      assert IsTree(disk) ==> IsTree(ensured) by {
        if IsTree(disk) { EnsureDirKeepsTree(disk, pendingBase); }
      }
      match move
      case Fail(e) => QuarantineResult(ensured, Some(e))
      case Ok =>
        var moved := MoveTree(ensured, gameDir, pendingTarget);
        forall p | p in moved && Under(pendingTarget, p)
          ensures gameDir + p[|pendingTarget|..] in disk
        {
          var src := gameDir + p[|pendingTarget|..];
          assert src in ensured;
          assert |src| > |pendingBase|;
        }
        assert IsTree(disk) ==> IsTree(moved) by {
          if IsTree(disk) {
            assert pendingTarget[..|pendingTarget| - 1] == pendingBase;
            MoveTreeKeepsTree(ensured, gameDir, pendingTarget);
          }
        }
        QuarantineResult(moved, None)
  }

  /** The `repair-complete` message. */
  datatype RepairComplete = RepairComplete(success: bool, error: Option<string>)

  /** The reply for a repair that threw `error`, or succeeded when there is none. */
  function Reply(error: Option<FsError>): (m: RepairComplete)
    ensures m.success <==> error.None?
    ensures error.Some? ==> m.error == Some(error.value.message)
  {
    match error
    case None => RepairComplete(true, None)
    case Some(e) => RepairComplete(false, Some(e.message))
  }

  /**
   * What one repair request did: the replies sent, the disk afterwards,
   * whether the game processes were stopped, how many removal attempts were
   * made and how long it waited in total.
   */
  datatype RepairRun = RepairRun(sent: seq<RepairComplete>, disk: Disk, stoppedProcesses: bool,
                                 removeAttempts: nat, waitedMs: nat)

  /**
   * The `repair-game` handler. `channel` is the request's argument and
   * `settingsChannel` the configured channel (`None` for `undefined`); `now`
   * stands for `Date.now()`; `removeOutcomes`, `ensureDirOutcome` and
   * `moveOutcome` are how the filesystem calls end.
   */
  method RepairGame(root: Path, channel: Option<Json>, settingsChannel: Option<Json>, now: nat, disk: Disk,
                    removeOutcomes: seq<FsOutcome>, ensureDirOutcome: FsOutcome, moveOutcome: FsOutcome)
    returns (run: RepairRun)
    requires IsTree(disk)
    requires |removeOutcomes| > MaxRetries
    ensures |run.sent| == 1
    ensures IsTree(run.disk)
    ensures var selected := NormalizeGameChannel(Or(channel, settingsChannel));
      var target := ResolveRepairTarget(disk, root, selected);
      && (target.dir !in disk ==> run == RepairRun([RepairComplete(true, None)], disk, false, 0, 0))
      && (target.dir in disk ==>
            && run.stoppedProcesses
            && 1 <= run.removeAttempts <= MaxRetries + 1
            && run.waitedMs == SettleDelayMs + (run.removeAttempts - 1) * RetryDelayMs
            && (forall k :: 0 <= k < run.removeAttempts - 1 ==>
                  removeOutcomes[k].Fail? && IsRetryable(removeOutcomes[k].error))
            && var last := removeOutcomes[run.removeAttempts - 1];
            && (last.Ok? ==> run.sent == [RepairComplete(true, None)] && run.disk == RemoveTree(disk, target.dir))
            && (last.Fail? && !IsRetryable(last.error) ==>
                  run.sent == [RepairComplete(false, Some(last.error.message))] && run.disk == disk)
            && (last.Fail? && IsRetryable(last.error) ==>
                  && run.removeAttempts == MaxRetries + 1
                  && var q := MoveToPendingDelete(disk, root, target.dir, selected, now, ensureDirOutcome, moveOutcome);
                  run.sent == [Reply(q.error)] && run.disk == q.disk))
      && (run.sent[0].success ==> !exists p :: p in run.disk && Under(target.dir, p))
      && (!run.sent[0].success ==> run.sent[0].error.Some?)
  {
    var selectedChannel := NormalizeGameChannel(Or(channel, settingsChannel));
    var target := ResolveRepairTarget(disk, root, selectedChannel);
    var gameDir := target.dir;
    var thrown: Option<FsError> := None;
    run := RepairRun([], disk, false, 0, 0);
    if gameDir in disk {
      // stopGameProcesses(): opaque, its outcome is ignored
      run := run.(stoppedProcesses := true, waitedMs := SettleDelayMs);
      var removal, diskAfter, attempts, waits := RemoveDirWithRetry(disk, gameDir, removeOutcomes);
      run := run.(disk := diskAfter, removeAttempts := attempts, waitedMs := run.waitedMs + waits * RetryDelayMs);
      match removal
      case Removed(_) =>
        RemoveTreeKeepsTree(disk, gameDir);
      case Thrown(error) =>
        if IsRetryable(error) {
          var q := MoveToPendingDelete(disk, root, gameDir, selectedChannel, now, ensureDirOutcome, moveOutcome);
          run := run.(disk := q.disk);
          thrown := q.error;
        } else {
          thrown := Some(error);
        }
    }
    if gameDir !in disk {
      AbsentDirHasNothingUnder(disk, gameDir);
    }
    run := run.(sent := run.sent + [Reply(thrown)]);
  }

  /** A beta request with only the latest build installed removes the latest build on the third attempt. */
  method RepairFallsBackToLatest(disk: Disk, root: Path, now: nat, busy: FsError) returns (run: RepairRun)
    requires IsTree(disk)
    requires BuildGameDir(root, "latest") in disk && BuildGameDir(root, "beta") !in disk
    requires busy.code == Some("EBUSY")
    ensures run.sent == [RepairComplete(true, None)]
    ensures run.removeAttempts == 3 && run.waitedMs == 2500
    ensures run.disk == RemoveTree(disk, BuildGameDir(root, "latest"))
  {
    var latestDir := BuildGameDir(root, "latest");
    assert ResolveRepairTarget(disk, root, "beta") == RepairTarget("latest", latestDir);
    var outcomes := [Fail(busy), Fail(busy), Ok, Ok];
    run := RepairGame(root, Some(JStr("beta")), None, now, disk, outcomes, Ok, Ok);
    assert outcomes[2] == Ok;
  }

  /** A directory that stays locked through every retry is quarantined, and the repair still succeeds. */
  method RepairQuarantinesLockedDir(disk: Disk, root: Path, now: nat, busy: FsError) returns (run: RepairRun)
    requires IsTree(disk)
    requires BuildGameDir(root, "latest") in disk
    requires busy.code == Some("EBUSY")
    ensures run.sent == [RepairComplete(true, None)]
    ensures run.removeAttempts == 4 && run.waitedMs == 3500
    ensures PendingBase(root) in run.disk && BuildGameDir(root, "latest") !in run.disk
  {
    var outcomes := [Fail(busy), Fail(busy), Fail(busy), Fail(busy)];
    run := RepairGame(root, Some(JStr("latest")), None, now, disk, outcomes, Ok, Ok);
    assert IsRetryable(busy);
    assert Under(BuildGameDir(root, "latest"), BuildGameDir(root, "latest"));
  }

  /** A non-transient error is reported after a single attempt and nothing is moved. */
  method RepairReportsPermanentError(disk: Disk, root: Path, now: nat, denied: FsError) returns (run: RepairRun)
    requires IsTree(disk)
    requires BuildGameDir(root, "latest") in disk
    requires denied.code == Some("ENOENT")
    ensures run.sent == [RepairComplete(false, Some(denied.message))]
    ensures run.removeAttempts == 1 && run.disk == disk
  {
    var outcomes := [Fail(denied), Ok, Ok, Ok];
    run := RepairGame(root, None, Some(JStr("latest")), now, disk, outcomes, Ok, Ok);
    assert outcomes[0] == Fail(denied);
    assert !IsRetryable(denied);
  }
}
