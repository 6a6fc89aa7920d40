/** Any number of rollbacks and recoveries, each of them cut anywhere, before one that is not. */
module UpdaterRepeatedCuts {
  import opened Prelude
  import opened Updater
  import opened UpdaterRecovery
  import V = VersionRecord

  /** Every layout that rollbacks and recoveries can leave: one of a cut, or switched over for good. */
  ghost predicate Layout(fs: Fs, r: Pair) {
    CutLayout(fs, r) || (Kept(fs, r) && fs.marker == None)
  }

  // ----- recovery -----

  lemma NotStartedStaysSo(fs: Fs, r: Pair, w: Outside)
    requires ValidPair(r) && NotStarted(fs, r) && NoErrors(w) && OriginalHealthy(w, r)
    ensures NotStarted(Recover(Start(fs), w).0.fs, r)
  {
    OriginalFields(fs, r);
    OriginalStartsOrIsCut(Start(fs), r, w);
    hide V.Field, V.Render, V.WellFormed, Complete, RecoverOriginal, InstalledField, NoErrors, OriginalHealthy;
  }

  lemma OriginalFields(fs: Fs, r: Pair)
    requires ValidPair(r) && NotStarted(fs, r)
    ensures InstalledField(fs, "sha256") == Some(r.original.sha256)
    ensures InstalledField(fs, "version") == Some(r.original.version)
  {
    V.RenderedFields(r.original);
  }

  lemma OriginalStartsOrIsCut(p: Proc, r: Pair, w: Outside)
    requires NotStarted(p.fs, r) && p.status == Running && NoErrors(w) && OriginalHealthy(w, r)
    requires InstalledField(p.fs, "sha256") == Some(r.original.sha256)
    requires InstalledField(p.fs, "version") == Some(r.original.version)
    ensures NotStarted(RecoverOriginal(p, MarkerFor(r), w).0.fs, r)
  {
    CompletesOrIsCut(p, Other, w);
    var started := Exec(p, Other, w);
    NotCutIsFine(w, started.calls);
    assert w.healthy(started.calls, r.original.version);
    hide V.Field, V.Render, Restore, Exec, NoErrors, OriginalHealthy, InstalledField;
    if started.status == Running {
      var checked := Proc(started.fs, started.calls + 1, Running);
      CompletesOrIsCut(checked, UnlinkMarker, w);
    }
  }

  lemma NotCutIsFine(w: Outside, n: nat)
    requires NoErrors(w)
    ensures w.fate(n).Fine? || w.fate(n).Crash?
  {
  }

  /** With the target in place, completing a parked switch is keeping the old environment. */
  lemma CompleteIsKeep(p: Proc, r: Pair, w: Outside)
    requires Parked(p.fs, r) && p.status == Running && p.fs.venv == EnvOf(r.target)
    ensures Complete(p, w) == Keep(p, w)
  {
    hide V.Render;
  }

  lemma ParkedStaysListed(fs: Fs, r: Pair, w: Outside)
    requires ValidPair(r) && Parked(fs, r) && NoErrors(w) && OriginalHealthy(w, r)
    ensures Layout(Recover(Start(fs), w).0.fs, r)
  {
    ParkedRecord(fs, r);
    NotCutIsFine(w, 0);
    var sha := InstalledField(fs, "sha256");
    var asked := sha == Some(r.target.sha256);
    var checked := if asked then Proc(fs, 1, if w.fate(0).Crash? then Crashed else Running) else Start(fs);
    hide V.Field, V.Render, V.WellFormed, Restore, Complete, RecoverOriginal, InstalledField, NoErrors, OriginalHealthy;
    if asked && w.fate(0).Fine? && fs.venv == EnvOf(r.target) && w.healthy(0, r.target.version) {
      ParkedReads(fs, r);
      CompleteIsKeep(checked, r, w);
      KeepLayouts(checked, r, w);
    } else if checked.status == Running {
      ParkedBackStaysListed(checked, r, w);
    }
  }

  lemma ParkedReads(fs: Fs, r: Pair)
    requires ValidPair(r) && Parked(fs, r) && InstalledField(fs, "sha256") == Some(r.target.sha256)
    ensures ReadsAs(fs.version, r.target)
  {
    ParkedRecord(fs, r);
    V.RenderedFields(r.original);
    hide V.Field, V.Render, V.WellFormed;
  }

  lemma ParkedBackStaysListed(p: Proc, r: Pair, w: Outside)
    requires ValidPair(r) && Parked(p.fs, r) && p.status == Running && NoErrors(w) && OriginalHealthy(w, r)
    ensures Layout(RecoverOriginal(p, MarkerFor(r), w).0.fs, r)
    ensures RecoverOriginal(p, MarkerFor(r), w).0.status != Raised
  {
    ParkedRecord(p.fs, r);
    var inPlace := InstalledField(p.fs, "sha256") == Some(r.original.sha256);
    var started := ExecIf(p, inPlace, Other, w);
    CompletesOrIsCut(p, Other, w);
    NotCutIsFine(w, started.calls);
    hide V.Field, V.Render, V.WellFormed, Restore, InstalledField, NoErrors, OriginalHealthy, Exec;
    if started.status == Running {
      var checked :=
        if !inPlace then p
        else Proc(p.fs, started.calls + 1, if w.fate(started.calls).Crash? then Crashed else Running);
      if checked.status == Running {
        RestoredStaysListed(checked, r, w);
      }
    }
  }

  lemma RestoredStaysListed(p: Proc, r: Pair, w: Outside)
    requires ValidPair(r) && Parked(p.fs, r) && p.status == Running && NoErrors(w) && OriginalHealthy(w, r)
    ensures var (restored, up) := Restore(p, w);
            var finished := ExecIf(restored, up, UnlinkMarker, w);
            && Layout(restored.fs, r) && Layout(finished.fs, r)
            && restored.status != Raised && finished.status != Raised && (up <==> restored.status == Running)
  {
    RestoreLayouts(p, r, w);
    var restored := Restore(p, w).0;
    if restored.status == Running {
      CompletesOrIsCut(restored, UnlinkMarker, w);
    }
    StrandedByCut(p.fs, restored.fs, r);
    hide V.Field, V.Render, V.WellFormed, Restore, NoErrors, OriginalHealthy, Exec;
  }

  /** A restore cut before the record was put back leaves the original's record in place, or a torn one of the target. */
  lemma StrandedByCut(before: Fs, fs: Fs, r: Pair)
    requires Parked(before, r)
    ensures StrandedWith(fs, before.version, r) ==> NotStarted(fs, r) || Stranded(fs, r)
  {
    hide V.Render;
  }

  lemma KeepingStaysListed(fs: Fs, r: Pair, w: Outside)
    requires ValidPair(r) && Keeping(fs, r) && NoErrors(w)
    ensures Layout(Recover(Start(fs), w).0.fs, r)
  {
    hide V.Field, V.Render, V.WellFormed, Complete, RecoverOriginal, InstalledField, ValidPair, NoErrors;
    KeepingFields(fs, r);
    NotCutIsFine(w, 0);
    var checked := Proc(fs, 1, Running);
    KeepingCompletesOrIsCut(checked, r, w);
    KeepingIsRefused(checked, r, w);
  }

  lemma KeepingCompletesOrIsCut(p: Proc, r: Pair, w: Outside)
    requires Keeping(p.fs, r) && p.status == Running && NoErrors(w)
    ensures var done := Complete(p, w);
            && done.status != Raised && Layout(done.fs, r)
  {
    hide V.Field, V.Render, Exec, NoErrors, ReadsAs;
    var renames := p.fs.versionCandidate.Some?;
    if renames {
      CompletesOrIsCut(p, RenameRecord(CandidateRecord, PreviousRecord), w);
    }
    var recorded := ExecIf(p, renames, RenameRecord(CandidateRecord, PreviousRecord), w);
    StoppedStaysStoppedIf(recorded, w);
    if recorded.status == Running {
      CompletesOrIsCut(recorded, Other, w);
      var copied := Exec(recorded, Other, w);
      StoppedStaysStoppedIf(copied, w);
      if copied.status == Running {
        CompletesOrIsCut(copied, UnlinkMarker, w);
      }
    }
  }

  /** A recovery, cut anywhere or not at all, takes a listed layout to a listed layout. */
  lemma RecoverStaysListed(fs: Fs, r: Pair, w: Outside)
    requires ValidPair(r) && Layout(fs, r) && NoErrors(w) && OriginalHealthy(w, r)
    ensures Layout(Recover(Start(fs), w).0.fs, r)
  {
    if NotStarted(fs, r) {
      NotStartedStaysSo(fs, r, w);
    } else if Parked(fs, r) {
      ParkedStaysListed(fs, r, w);
    } else if Keeping(fs, r) {
      KeepingStaysListed(fs, r, w);
    } else if Stranded(fs, r) {
      StrandedForever(fs, r, w, OperationFor(r));
    }
    hide RecoverOriginal, Complete, V.Field, V.Render, V.WellFormed, NoErrors, OriginalHealthy;
  }

  // ----- rollback -----

  /** A rollback of the same operation, started again in any layout, takes it to a listed layout. */
  lemma RollbackStaysListed(fs: Fs, r: Pair, w: Outside)
    requires ValidPair(r) && Layout(fs, r) && NoErrors(w) && OriginalHealthy(w, r)
    ensures Layout(Rollback(Start(fs), OperationFor(r), w).0.fs, r)
  {
    if fs.marker.None? {
      if NotStarted(fs, r) {
        RollbackLayouts(fs, r, w);
      } else {
        KeptRefusesRollback(fs, r, w);
      }
    } else {
      MarkedRefusesRollback(fs, OperationFor(r), w);
    }
    hide Rollback, V.Field, V.Render, V.WellFormed, NoErrors, OriginalHealthy;
  }

  lemma MarkedRefusesRollback(fs: Fs, op: Operation, w: Outside)
    requires fs.marker.Some?
    ensures Rollback(Start(fs), op, w).0.fs == fs
  {
    hide Switch, Keep, Abandon, V.Field, V.Parses;
  }

  lemma KeptRefusesRollback(fs: Fs, r: Pair, w: Outside)
    requires ValidPair(r) && Kept(fs, r)
    ensures Rollback(Start(fs), OperationFor(r), w).0.fs == fs
  {
    V.RenderedFields(r.original);
    hide Switch, Keep, Abandon, V.Field, V.Parses, V.Render, V.WellFormed;
  }

  // ----- any number of them -----

  /** What a history of invocations may do: recover, or start the same rollback again; be cut, but not raise; and find
      the original healthy whenever it is in place. */
  ghost predicate Admissible(i: Invocation, r: Pair) {
    && NoErrors(i.outside) && OriginalHealthy(i.outside, r)
    && (i.RunRollback? ==> i.op == OperationFor(r))
  }

  lemma {:induction false} HistoryStaysListed(fs: Fs, r: Pair, invocations: seq<Invocation>)
    requires ValidPair(r) && Layout(fs, r)
    requires forall k :: 0 <= k < |invocations| ==> Admissible(invocations[k], r)
    ensures Layout(History(fs, invocations), r)
    decreases |invocations|
  {
    hide Layout, ValidPair, Rollback, Recover;
    if invocations != [] {
      assert Admissible(invocations[0], r);
      match invocations[0] {
        case RunRollback(op, w) => RollbackStaysListed(fs, r, w);
        case RunRecovery(w) => RecoverStaysListed(fs, r, w);
      }
      HistoryStaysListed(Invoke(fs, invocations[0]), r, invocations[1..]);
    }
  }

  /**
   * However often rollback and recovery are started and cut, one recovery that is not cut then ends in exactly one of
   * the two complete layouts, unless the cuts left one of the two windows.
   */
  lemma CutsThenRecover(fs: Fs, r: Pair, invocations: seq<Invocation>, again: Outside)
    requires ValidPair(r) && Before(fs, r) && Uninterrupted(again) && OriginalHealthy(again, r)
    requires forall k :: 0 <= k < |invocations| ==> Admissible(invocations[k], r)
    ensures var cut := History(fs, invocations);
            var (q, rec) := Recover(Start(cut), again);
            && (Restored(q.fs, r) || SwitchedOver(q.fs, r) <==>
                  !Stranded(cut, r) && !(HalfKept(cut, r) && !again.healthy(0, r.target.version)))
            && !(Restored(q.fs, r) && SwitchedOver(q.fs, r))
            && (rec == Succeeded ==> SwitchedOver(q.fs, r) && q.fs.marker == None)
            && (rec == RolledBack ==> Restored(q.fs, r) && q.fs.marker == None)
  {
    HistoryStaysListed(fs, r, invocations);
    var cut := History(fs, invocations);
    if CutLayout(cut, r) {
      RecoverFromCut(cut, r, again);
    } else {
      KeptRecovers(cut, r, again);
    }
    hide History, V.Field, V.Render, V.WellFormed, Uninterrupted, OriginalHealthy, Recover, Restored, SwitchedOver, CutLayout;
  }

  lemma KeptRecovers(fs: Fs, r: Pair, w: Outside)
    requires ValidPair(r) && Kept(fs, r) && fs.marker == None
    ensures Recover(Start(fs), w) == (Start(fs), NothingToRecover)
    ensures SwitchedOver(fs, r) && !Stranded(fs, r) && !HalfKept(fs, r) && !Restored(fs, r)
  {
    KeptIsSwitchedOver(fs, r);
    KeptIsNoWindow(fs, r);
    hide V.Field, V.Render, V.WellFormed, SwitchedOver, Restored;
  }

  lemma KeptIsNoWindow(fs: Fs, r: Pair)
    requires ValidPair(r) && Kept(fs, r)
    ensures !Stranded(fs, r) && !HalfKept(fs, r) && !Restored(fs, r)
  {
    V.RenderedFields(r.original);
    hide V.Field, V.Render, V.WellFormed;
  }
}
