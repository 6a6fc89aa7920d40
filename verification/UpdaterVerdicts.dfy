/** Whether the final result of an interrupted rollback says what the device really runs. */
module UpdaterVerdicts {
  import opened Prelude
  import L = Lifecycle
  import Reports = LifecycleReports
  import U = Updater
  import R = UpdaterRecovery
  import V = VersionRecord

  /** An invocation that finds the operation pending without a result: it recovers, and rolls back if there was
      nothing to recover. */
  function Rerun(fs: U.Fs, op: U.Operation, again: U.Outside): (U.Fs, Option<L.Message>) {
    var (recovered, answer) := U.Recover(U.Start(fs), again);
    match answer
    case Succeeded => (recovered.fs, Some(Reports.AfterRecovery(L.Rollback, Reports.RecoveredTo(Reports.Succeeded, "", false))))
    case RolledBack => (recovered.fs, Some(Reports.AfterRecovery(L.Rollback, Reports.RecoveredTo(Reports.RolledBack, "", false))))
    case NothingToRecover =>
      var (done, outcome) := U.Rollback(recovered, op, again);
      (done.fs, Reports.AfterRollback(outcome))
    case _ => (recovered.fs, None)
  }

  /** A final is true of a device when it announces the rollback exactly if the device has switched over. */
  predicate Truthful(f: L.Message, fs: U.Fs, r: R.Pair) {
    f.state == L.RolledBack <==> R.SwitchedOver(fs, r)
  }

  /** Where the power failed so that the next invocation can neither finish nor undo the switch. */
  ghost predicate Undecided(cut: U.Fs, r: R.Pair, again: U.Outside) {
    R.Stranded(cut, r) || (R.Keeping(cut, r) && !again.healthy(0, r.target.version))
  }

  // ----- an uninterrupted process never loses power -----

  lemma RestoreNeverCrashes(p: U.Proc, w: U.Outside)
    requires R.Uninterrupted(w) && p.status != U.Crashed
    ensures U.Restore(p, w).0.status != U.Crashed
  {
  }

  lemma AbandonNeverCut(p: U.Proc, w: U.Outside)
    requires R.Uninterrupted(w) && p.status != U.Crashed
    ensures U.Abandon(p, w).1 != U.Cut
  {
    RestoreNeverCrashes(p, w);
    hide U.Restore, V.Field;
  }

  lemma SwitchNeverCrashes(p: U.Proc, op: U.Operation, w: U.Outside)
    requires R.Uninterrupted(w) && p.status != U.Crashed
    ensures U.Switch(p, op, w).0.status != U.Crashed
  {
    hide V.Field, U.Effect;
  }

  lemma RollbackNeverCut(p: U.Proc, op: U.Operation, w: U.Outside)
    requires R.Uninterrupted(w) && p.status != U.Crashed
    ensures U.Rollback(p, op, w).1 != U.Cut
  {
    SwitchNeverCrashes(p, op, w);
    var (switched, targetUp) := U.Switch(p, op, w);
    KeepNeverCrashes(switched, w);
    var kept := if targetUp then U.Keep(switched, w) else switched;
    AbandonNeverCut(U.Caught(kept), w);
    hide U.Switch, U.Keep, U.Abandon, V.Field, V.Parses;
  }

  lemma KeepNeverCrashes(p: U.Proc, w: U.Outside)
    requires R.Uninterrupted(w) && p.status != U.Crashed
    ensures U.Keep(p, w).status != U.Crashed
  {
    hide U.Effect;
  }

  // ----- the verdict -----

  lemma LayoutsDiffer(fs: U.Fs, r: R.Pair)
    requires R.ValidPair(r) && R.Restored(fs, r)
    ensures !R.SwitchedOver(fs, r)
  {
    hide V.WellFormed;
  }

  /**
   * A rollback in which nothing is cut or raises: with a healthy target the device ends switched over and the answer
   * is the operator rollback, and otherwise it is restored and the answer is that the target was unhealthy.
   */
  lemma UninterruptedRollback(fs: U.Fs, r: R.Pair, w: U.Outside)
    requires R.ValidPair(r) && R.Before(fs, r) && R.Uninterrupted(w) && R.OriginalHealthy(w, r)
    ensures var (done, outcome) := U.Rollback(U.Start(fs), R.OperationFor(r), w);
            && done.fs.marker == None
            && (outcome == U.OperatorRolledBack <==> w.healthy(9, r.target.version))
            && (R.SwitchedOver(done.fs, r) <==> w.healthy(9, r.target.version))
            && (!w.healthy(9, r.target.version) ==>
                  R.Restored(done.fs, r) && outcome == U.Failed("health_check_failed", "rollback_target_unhealthy"))
  {
    var op := R.OperationFor(r);
    R.StartedRollback(fs, r, w);
    R.SwitchRuns(fs, r, w);
    R.SwitchLayouts(fs, r, w);
    R.RollbackLayouts(fs, r, w);
    RollbackNeverCut(U.Start(fs), op, w);
    var switched := U.Switch(U.Start(fs), op, w).0;
    hide U.Rollback, U.Switch, U.Keep, U.Abandon, V.Field, V.Render, V.Parses, V.WellFormed;
    if w.healthy(9, r.target.version) {
      R.WholeRecordReads(r.target);
      R.KeepLayouts(switched, r, w);
    } else {
      R.AbandonLayouts(switched, r, w);
      LayoutsDiffer(U.Settle(switched, false, w).0.fs, r);
    }
    hide R.SwitchedOver, R.Restored, R.NotStarted, R.Kept, R.Uninterrupted, R.OriginalHealthy;
  }

  /** A rollback on a device that has not started one ends with a truthful result. */
  lemma FreshRollbackIsTruthful(fs: U.Fs, r: R.Pair, again: U.Outside)
    requires R.ValidPair(r) && R.Before(fs, r) && R.Uninterrupted(again) && R.OriginalHealthy(again, r)
    ensures var (after, f) := Rerun(fs, R.OperationFor(r), again);
            f.Some? && Truthful(f.value, after, r)
  {
    R.RollbackLayouts(fs, r, again);
    RollbackNeverCut(U.Start(fs), R.OperationFor(r), again);
    var (done, outcome) := U.Rollback(U.Start(fs), R.OperationFor(r), again);
    hide U.Rollback, R.SwitchedOver, R.Restored, V.Field, V.Render, V.WellFormed;
    if outcome.Failed? {
      LayoutsDiffer(done.fs, r);
    }
  }

  /** After a switch that completed, the same rollback asked for again is refused and changes nothing. */
  lemma RepeatedRollbackIsRefused(fs: U.Fs, r: R.Pair, again: U.Outside)
    requires R.ValidPair(r) && R.SwitchedOver(fs, r) && fs.marker == None && V.Parses(fs.versionPrevious.value)
    ensures Rerun(fs, R.OperationFor(r), again) ==
            (fs, Some(Reports.Failure(L.Failed, L.VerificationFailed, L.PreviousReleaseMismatch)))
  {
    hide V.Field, V.Parses, V.WellFormed;
  }

  lemma CutRerunVerdict(cut: U.Fs, r: R.Pair, again: U.Outside)
    requires R.ValidPair(r) && R.CutLayout(cut, r) && R.Uninterrupted(again) && R.OriginalHealthy(again, r)
    ensures var (after, f) := Rerun(cut, R.OperationFor(r), again);
            && (f.None? <==> Undecided(cut, r, again))
            && (f.Some? ==> Truthful(f.value, after, r))
  {
    R.RecoverFromCut(cut, r, again);
    var after := U.Recover(U.Start(cut), again).0.fs;
    if R.NotStarted(cut, r) {
      R.NotStartedRecovers(cut, r, again);
      if cut.marker == None {
        FreshRollbackIsTruthful(cut, r, again);
      }
    } else if R.Parked(cut, r) {
      R.ParkedRecovers(cut, r, again);
    } else if R.Keeping(cut, r) {
      R.KeepingRecovers(cut, r, again);
    } else {
      R.StrandedForever(cut, r, again, R.OperationFor(r));
    }
    if R.Restored(after, r) {
      LayoutsDiffer(after, r);
    }
    hide U.Recover, U.Rollback, R.SwitchedOver, R.Restored, R.OriginalHealthy, R.Uninterrupted, R.HalfKept;
    hide V.Field, V.Render, V.WellFormed;
  }

  /**
   * A rollback whose result was never stored, for whatever reason, is run again. The second invocation yields a
   * result unless the power failed in one of the undecided windows, and the result is true of the device if and
   * only if the first invocation had not completed the switch: in that case the device runs the target and the
   * server is told that the rollback failed.
   */
  lemma RerunVerdict(fs: U.Fs, r: R.Pair, w: U.Outside, again: U.Outside)
    requires R.ValidPair(r) && R.Before(fs, r) && R.NoErrors(w) && R.Uninterrupted(again)
    requires R.OriginalHealthy(w, r) && R.OriginalHealthy(again, r)
    ensures var (first, outcome) := U.Rollback(U.Start(fs), R.OperationFor(r), w);
            var (after, f) := Rerun(first.fs, R.OperationFor(r), again);
            && (f.None? <==> outcome == U.Cut && Undecided(first.fs, r, again))
            && (f.Some? ==> (Truthful(f.value, after, r) <==> outcome != U.OperatorRolledBack))
  {
    R.RollbackLayouts(fs, r, w);
    V.RenderedParses(r.original);
    var (first, outcome) := U.Rollback(U.Start(fs), R.OperationFor(r), w);
    if outcome == U.Cut {
      CutRerunVerdict(first.fs, r, again);
    } else if outcome == U.OperatorRolledBack {
      RepeatedRollbackIsRefused(first.fs, r, again);
    } else {
      FreshRollbackIsTruthful(first.fs, r, again);
    }
    hide U.Rollback, R.OriginalHealthy, R.Uninterrupted, Rerun, V.Field, V.Render, V.Parses, V.WellFormed;
  }

  /** The false result is real: after any uninterrupted rollback to a healthy target whose result was not stored, the
      next invocation reports FAILED, and the device runs the target. */
  lemma CompletedRollbackIsMisreported(fs: U.Fs, r: R.Pair, w: U.Outside, again: U.Outside)
    requires R.ValidPair(r) && R.Before(fs, r)
    requires R.Uninterrupted(w) && R.OriginalHealthy(w, r) && w.healthy(9, r.target.version)
    requires R.Uninterrupted(again) && R.OriginalHealthy(again, r)
    ensures var first := U.Rollback(U.Start(fs), R.OperationFor(r), w).0;
            var (after, f) := Rerun(first.fs, R.OperationFor(r), again);
            f.Some? && f.value.state == L.Failed && R.SwitchedOver(after, r)
  {
    UninterruptedRollback(fs, r, w);
    R.RollbackLayouts(fs, r, w);
    V.RenderedParses(r.original);
    RepeatedRollbackIsRefused(U.Rollback(U.Start(fs), R.OperationFor(r), w).0.fs, r, again);
    hide U.Rollback, Rerun, R.SwitchedOver, R.Restored, R.Uninterrupted, R.OriginalHealthy, V.Render, V.Parses;
  }
}
