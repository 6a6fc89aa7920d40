/** Where a power cut during a rollback leaves the device, and where one recovery takes it. */
module UpdaterRecovery {
  import opened Prelude
  import opened Updater
  import V = VersionRecord

  /** The release that was running, and the one being rolled back to. */
  datatype Pair = Pair(original: V.Identity, target: V.Identity)

  ghost predicate ValidPair(r: Pair) {
    && V.WellFormed(r.original) && V.WellFormed(r.target)
    && r.original.version != r.target.version
    && |r.original.sha256| == 64 && |r.target.sha256| == 64 && r.original.sha256 != r.target.sha256
  }

  function EnvOf(id: V.Identity): Option<Env> {
    Some(Env(id.version))
  }

  /** A record that names release `id`. */
  predicate Names(text: Option<string>, id: V.Identity) {
    && text.Some?
    && V.Field(text.value, "sha256") == Some(id.sha256) && V.Field(text.value, "version") == Some(id.version)
  }

  /** What is left of the record of `id`, all of it or so much that it still names the release. */
  predicate ReadsAs(text: Option<string>, id: V.Identity) {
    Names(text, id) && text.value <= V.Render(id)
  }

  function OperationFor(r: Pair): Operation {
    Operation(r.target.version, r.target.sha256)
  }

  function MarkerFor(r: Pair): Marker {
    Marker(r.target.sha256, r.original.sha256)
  }

  /** A device before the rollback; an old candidate record may be lying around. */
  ghost predicate Before(fs: Fs, r: Pair) {
    && fs.venv == EnvOf(r.original) && fs.candidate == None && fs.previous == EnvOf(r.target)
    && fs.version == Some(V.Render(r.original)) && fs.versionPrevious == Some(V.Render(r.target))
    && fs.marker == None
  }

  /** The two layouts a rollback may end in. */
  predicate Restored(fs: Fs, r: Pair) {
    && fs.venv == EnvOf(r.original) && fs.candidate == None && fs.previous == EnvOf(r.target)
    && Names(fs.version, r.original) && Names(fs.versionPrevious, r.target)
  }

  predicate SwitchedOver(fs: Fs, r: Pair) {
    && fs.venv == EnvOf(r.target) && fs.candidate == None && fs.previous == EnvOf(r.original)
    && Names(fs.version, r.target) && Names(fs.versionPrevious, r.original)
  }

  /** The original agent is healthy whenever it is the one in place. */
  ghost predicate OriginalHealthy(w: Outside, r: Pair) {
    forall n :: w.healthy(n, r.original.version)
  }

  ghost predicate NoErrors(w: Outside) {
    forall n :: !w.fate(n).Raise?
  }

  ghost predicate Uninterrupted(w: Outside) {
    forall n :: w.fate(n).Fine?
  }

  // ----- every layout a cut can leave -----

  /** Nothing moved yet. */
  ghost predicate NotStarted(fs: Fs, r: Pair) {
    && fs.venv == EnvOf(r.original) && fs.candidate == None && fs.previous == EnvOf(r.target)
    && fs.version == Some(V.Render(r.original)) && fs.versionPrevious == Some(V.Render(r.target))
    && (fs.marker == None || fs.marker == Some(MarkerFor(r)))
  }

  /** The original is parked in the candidate slot, with its record copied. */
  ghost predicate Parked(fs: Fs, r: Pair) {
    && fs.candidate == EnvOf(r.original)
    && fs.versionCandidate == Some(V.Render(r.original)) && fs.versionPrevious == Some(V.Render(r.target))
    && fs.marker == Some(MarkerFor(r))
    && ((fs.venv == None && fs.previous == EnvOf(r.target)) || (fs.venv == EnvOf(r.target) && fs.previous == None))
    && fs.version.Some?
    && (fs.version.value == V.Render(r.original) || fs.version.value <= V.Render(r.target))
  }

  /** The target is current and the original previous, but the records are still being moved. */
  ghost predicate Keeping(fs: Fs, r: Pair) {
    && fs.venv == EnvOf(r.target) && fs.candidate == None && fs.previous == EnvOf(r.original)
    && ReadsAs(fs.version, r.target) && fs.marker == Some(MarkerFor(r))
    && ((fs.versionCandidate == Some(V.Render(r.original)) && fs.versionPrevious == Some(V.Render(r.target)))
        || (fs.versionCandidate == None && fs.versionPrevious == Some(V.Render(r.original))))
  }

  /** The original environment is back, but the current record is still that of the target, torn or whole. */
  ghost predicate Stranded(fs: Fs, r: Pair) {
    && fs.version.Some? && fs.version.value <= V.Render(r.target) && StrandedWith(fs, fs.version, r)
  }

  /** Stranded, with whatever the current record held when the restore began. */
  ghost predicate StrandedWith(fs: Fs, version: Option<string>, r: Pair) {
    && fs.venv == EnvOf(r.original) && fs.candidate == None && fs.previous == EnvOf(r.target)
    && fs.version == version && fs.versionCandidate == Some(V.Render(r.original))
    && fs.versionPrevious == Some(V.Render(r.target)) && fs.marker == Some(MarkerFor(r))
  }

  ghost predicate CutLayout(fs: Fs, r: Pair) {
    NotStarted(fs, r) || Parked(fs, r) || Keeping(fs, r) || Stranded(fs, r)
  }

  /** The window in which a recovery that finds the target down can neither finish nor undo: the
      old environment is already kept, its record is not. */
  predicate HalfKept(fs: Fs, r: Pair) {
    fs.candidate == None && fs.venv == EnvOf(r.target) && Names(fs.versionPrevious, r.target)
  }

  // ----- the cut -----

  /** Without I/O errors, a call that can succeed either completes, or is cut having changed
      nothing but the file it was copying into. */
  lemma CompletesOrIsCut(p: Proc, act: Act, w: Outside)
    requires NoErrors(w) && p.status == Running && Effect(p.fs, act).Some? && !act.RemoveTree?
    ensures var q := Exec(p, act, w);
      || (q.status == Running && Some(q.fs) == Effect(p.fs, act))
      || (q.status == Crashed && q.fs == p.fs)
      || (q.status == Crashed && act.CopyRecord? && IsTornCopy(p.fs, q.fs, act.from, act.to))
  {
  }

  ghost predicate IsTornCopy(before: Fs, after: Fs, from: RecordFile, to: RecordFile) {
    && before.Text(from).Some?
    && exists n :: 0 <= n <= |before.Text(from).value| && after == before.Write(to, Some(before.Text(from).value[..n]))
  }

  lemma BeforeField(fs: Fs, r: Pair)
    requires ValidPair(r) && Before(fs, r)
    ensures InstalledField(fs, "sha256") == Some(r.original.sha256)
  {
    V.RenderedFields(r.original);
  }

  lemma SwitchLayouts(fs: Fs, r: Pair, w: Outside)
    requires ValidPair(r) && Before(fs, r) && NoErrors(w)
    ensures var (p, up) := Switch(Start(fs), OperationFor(r), w);
      && p.status != Raised
      && (p.status == Crashed ==> NotStarted(p.fs, r) || Parked(p.fs, r))
      && (p.status == Running ==>
            && Parked(p.fs, r) && p.fs.venv == EnvOf(r.target) && p.fs.version == Some(V.Render(r.target)))
      && (up ==> p.status == Running)
  {
    hide V.Field, V.Render, Exec, V.WellFormed, NoErrors, InstalledField;
    BeforeField(fs, r);
    var start := Start(fs);
    var mark := WriteMarker(MarkerFor(r));
    CompletesOrIsCut(start, mark, w);
    var marked := Exec(start, mark, w);
    StoppedStaysStoppedIf(marked, w);
    if marked.status == Running {
      CompletesOrIsCut(marked, CopyRecord(Current, CandidateRecord), w);
      var copied := Exec(marked, CopyRecord(Current, CandidateRecord), w);
      StoppedStaysStoppedIf(copied, w);
      if copied.status == Running {
        CompletesOrIsCut(copied, Other, w);
        var unit := Exec(copied, Other, w);
        StoppedStaysStoppedIf(unit, w);
        if unit.status == Running {
          CompletesOrIsCut(unit, Other, w);
          var stopped := Exec(unit, Other, w);
          StoppedStaysStoppedIf(stopped, w);
          if stopped.status == Running {
            SwitchTailLayouts(stopped, r, w);
          }
        }
      }
    }
  }

  lemma StoppedStaysStoppedIf(p: Proc, w: Outside)
    ensures p.status != Running ==> forall act :: Exec(p, act, w) == p
  {
  }

  /** The renames and the record of a switch, once the original record has been copied. */
  lemma SwitchTailLayouts(stopped: Proc, r: Pair, w: Outside)
    requires NoErrors(w) && stopped.status == Running
    requires NotStarted(stopped.fs, r) && stopped.fs.versionCandidate == Some(V.Render(r.original))
    requires stopped.fs.marker == Some(MarkerFor(r))
    ensures var p := Exec(Exec(Exec(Exec(Exec(stopped, Rename(Venv, Candidate), w), Rename(Previous, Venv), w),
                                    CopyRecord(PreviousRecord, Current), w), Other, w), Other, w);
      && p.status != Raised
      && (p.status == Crashed ==> NotStarted(p.fs, r) || Parked(p.fs, r))
      && (p.status == Running ==>
            && Parked(p.fs, r) && p.fs.venv == EnvOf(r.target) && p.fs.version == Some(V.Render(r.target)))
  {
    hide V.Field, V.Render, Exec, NoErrors;
    CompletesOrIsCut(stopped, Rename(Venv, Candidate), w);
    var parked := Exec(stopped, Rename(Venv, Candidate), w);
    StoppedStaysStoppedIf(parked, w);
    if parked.status == Running {
      CompletesOrIsCut(parked, Rename(Previous, Venv), w);
      var switched := Exec(parked, Rename(Previous, Venv), w);
      StoppedStaysStoppedIf(switched, w);
      if switched.status == Running {
        CompletesOrIsCut(switched, CopyRecord(PreviousRecord, Current), w);
        var recorded := Exec(switched, CopyRecord(PreviousRecord, Current), w);
        StoppedStaysStoppedIf(recorded, w);
        if recorded.status == Running {
          CompletesOrIsCut(recorded, Other, w);
          var reloaded := Exec(recorded, Other, w);
          StoppedStaysStoppedIf(reloaded, w);
          if reloaded.status == Running {
            CompletesOrIsCut(reloaded, Other, w);
          }
        }
      }
    }
  }

  /** Switched over, with both records complete. */
  predicate Kept(fs: Fs, r: Pair) {
    && fs.venv == EnvOf(r.target) && fs.candidate == None && fs.previous == EnvOf(r.original)
    && ReadsAs(fs.version, r.target) && fs.versionPrevious == Some(V.Render(r.original))
  }

  lemma KeptIsSwitchedOver(fs: Fs, r: Pair)
    requires ValidPair(r) && Kept(fs, r)
    ensures SwitchedOver(fs, r)
  {
    V.RenderedFields(r.original);
  }

  lemma WholeRecordReads(id: V.Identity)
    requires V.WellFormed(id)
    ensures ReadsAs(Some(V.Render(id)), id)
  {
    V.RenderedFields(id);
  }

  lemma KeepLayouts(p: Proc, r: Pair, w: Outside)
    requires NoErrors(w) && p.status == Running
    requires Parked(p.fs, r) && p.fs.venv == EnvOf(r.target) && ReadsAs(p.fs.version, r.target)
    ensures var k := Keep(p, w);
      && k.status != Raised
      && (k.status == Crashed ==> Parked(k.fs, r) || Keeping(k.fs, r))
      && (k.status == Running ==> Kept(k.fs, r) && k.fs.marker == None)
  {
    hide V.Field, V.Render, Exec, NoErrors, ReadsAs;
    CompletesOrIsCut(p, Rename(Candidate, Previous), w);
    var kept := Exec(p, Rename(Candidate, Previous), w);
    StoppedStaysStoppedIf(kept, w);
    if kept.status == Running {
      CompletesOrIsCut(kept, RenameRecord(CandidateRecord, PreviousRecord), w);
      var recorded := Exec(kept, RenameRecord(CandidateRecord, PreviousRecord), w);
      StoppedStaysStoppedIf(recorded, w);
      if recorded.status == Running {
        CompletesOrIsCut(recorded, Other, w);
        var copied := Exec(recorded, Other, w);
        StoppedStaysStoppedIf(copied, w);
        if copied.status == Running {
          CompletesOrIsCut(copied, UnlinkMarker, w);
        }
      }
    }
  }

  lemma RestoreLayouts(p: Proc, r: Pair, w: Outside)
    requires ValidPair(r) && NoErrors(w) && OriginalHealthy(w, r) && p.status == Running && Parked(p.fs, r)
    ensures var (q, up) := Restore(p, w);
      && q.status != Raised
      && (q.status == Crashed ==> Parked(q.fs, r) || NotStarted(q.fs, r) || StrandedWith(q.fs, p.fs.version, r))
      && (q.status == Running ==> NotStarted(q.fs, r) && q.fs.marker == p.fs.marker)
      && (Uninterrupted(w) ==> up)
      && (up <==> q.status == Running)
  {
    V.RenderedFields(r.original);
    RestoreMoves(p, r, w);
    hide V.Field, V.Render, Exec, ExecIf, ValidPair, Parked;
    var stopped := Exec(p, Other, w);
    var cleared := ExecIf(stopped, stopped.fs.venv.Some?, Rename(Venv, Previous), w);
    var switched := Exec(cleared, Rename(Candidate, Venv), w);
    var recorded := ExecIf(switched, switched.fs.versionCandidate.Some?, RenameRecord(CandidateRecord, Current), w);
    var restarted := Exec(Exec(recorded, Other, w), Other, w);
    ParkedSlots(p.fs, r);
    MarkerSurvives(p, stopped, w);
    assert restarted.status == Running ==> InstalledField(restarted.fs, "version") == Some(r.original.version);
  }

  lemma ParkedSlots(fs: Fs, r: Pair)
    requires Parked(fs, r)
    ensures fs.candidate.Some? && fs.marker.Some?
  {
  }

  lemma MarkerSurvives(p: Proc, stopped: Proc, w: Outside)
    requires stopped == Exec(p, Other, w)
    ensures stopped.fs.marker == p.fs.marker
  {
  }

  lemma RestoreMoves(p: Proc, r: Pair, w: Outside)
    requires NoErrors(w) && p.status == Running && Parked(p.fs, r)
    ensures var stopped := Exec(p, Other, w);
      var cleared := ExecIf(stopped, stopped.fs.venv.Some?, Rename(Venv, Previous), w);
      var switched := Exec(cleared, Rename(Candidate, Venv), w);
      var recorded := ExecIf(switched, switched.fs.versionCandidate.Some?, RenameRecord(CandidateRecord, Current), w);
      var q := Exec(Exec(recorded, Other, w), Other, w);
      && q.status != Raised
      && (q.status == Crashed ==> Parked(q.fs, r) || NotStarted(q.fs, r) || StrandedWith(q.fs, p.fs.version, r))
      && (q.status == Running ==> NotStarted(q.fs, r) && q.fs.marker == p.fs.marker)
      && (Uninterrupted(w) ==> q.status == Running)
  {
    hide V.Field, V.Render, Exec, NoErrors, Uninterrupted;
    CompletesOrIsCut(p, Other, w);
    NeverCut(p, Other, w);
    var stopped := Exec(p, Other, w);
    StoppedStaysStoppedIf(stopped, w);
    if stopped.status == Running {
      if stopped.fs.venv.Some? {
        CompletesOrIsCut(stopped, Rename(Venv, Previous), w);
        NeverCut(stopped, Rename(Venv, Previous), w);
      }
      var cleared := ExecIf(stopped, stopped.fs.venv.Some?, Rename(Venv, Previous), w);
      StoppedStaysStoppedIf(cleared, w);
      if cleared.status == Running {
        CompletesOrIsCut(cleared, Rename(Candidate, Venv), w);
        NeverCut(cleared, Rename(Candidate, Venv), w);
        var switched := Exec(cleared, Rename(Candidate, Venv), w);
        StoppedStaysStoppedIf(switched, w);
        if switched.status == Running {
          RestoreRecordMoves(switched, p.fs.version, r, w);
        }
      }
    }
  }

  lemma NeverCut(p: Proc, act: Act, w: Outside)
    ensures Uninterrupted(w) && p.status == Running && Effect(p.fs, act).Some? ==> Exec(p, act, w).status == Running
  {
  }

  lemma RestoreRecordMoves(switched: Proc, version: Option<string>, r: Pair, w: Outside)
    requires NoErrors(w) && switched.status == Running && StrandedWith(switched.fs, version, r)
    ensures var recorded := ExecIf(switched, switched.fs.versionCandidate.Some?, RenameRecord(CandidateRecord, Current), w);
      var q := Exec(Exec(recorded, Other, w), Other, w);
      && q.status != Raised
      && (q.status == Crashed ==> NotStarted(q.fs, r) || StrandedWith(q.fs, version, r))
      && (q.status == Running ==> NotStarted(q.fs, r) && q.fs.marker == switched.fs.marker)
      && (Uninterrupted(w) ==> q.status == Running)
  {
    hide V.Field, V.Render, Exec, NoErrors, Uninterrupted;
    CompletesOrIsCut(switched, RenameRecord(CandidateRecord, Current), w);
    NeverCut(switched, RenameRecord(CandidateRecord, Current), w);
    var recorded := Exec(switched, RenameRecord(CandidateRecord, Current), w);
    StoppedStaysStoppedIf(recorded, w);
    if recorded.status == Running {
      CompletesOrIsCut(recorded, Other, w);
      NeverCut(recorded, Other, w);
      var unit := Exec(recorded, Other, w);
      StoppedStaysStoppedIf(unit, w);
      if unit.status == Running {
        CompletesOrIsCut(unit, Other, w);
        NeverCut(unit, Other, w);
      }
    }
  }

  lemma AbandonLayouts(p: Proc, r: Pair, w: Outside)
    requires ValidPair(r) && NoErrors(w) && OriginalHealthy(w, r) && p.status == Running
    requires Parked(p.fs, r) && p.fs.version == Some(V.Render(r.target))
    ensures var (q, out) := Abandon(p, w);
      && (out == Cut || out == Failed("health_check_failed", "rollback_target_unhealthy"))
      && (out == Cut ==> CutLayout(q.fs, r))
      && (out != Cut ==> NotStarted(q.fs, r) && q.fs.marker == None)
  {
    RestoreLayouts(p, r, w);
    var restored := Restore(p, w).0;
    hide V.Field, V.Render, Exec, NoErrors, Restore, OriginalHealthy, ValidPair;
    if restored.status == Running {
      CompletesOrIsCut(restored, UnlinkMarker, w);
    }
  }

  lemma NotStartedIsRestored(fs: Fs, r: Pair)
    requires ValidPair(r) && NotStarted(fs, r)
    ensures Restored(fs, r)
  {
    V.RenderedFields(r.original);
    V.RenderedFields(r.target);
  }

  /** What a rollback checks before it touches anything holds of a device that has not started one. */
  lemma SwitchPassesItsChecks(fs: Fs, r: Pair)
    requires ValidPair(r) && Before(fs, r)
    ensures fs.previous.Some? && fs.version.Some? && fs.candidate.None? && fs.marker.None?
    ensures fs.versionPrevious.Some? && V.Parses(fs.versionPrevious.value)
    ensures V.Field(fs.versionPrevious.value, "sha256") == Some(r.target.sha256)
    ensures V.Field(fs.versionPrevious.value, "version") == Some(r.target.version)
  {
    V.RenderedParses(r.target);
    V.RenderedFields(r.target);
    hide V.Field, V.Render, V.Parses, V.WellFormed;
  }

  lemma StartedRollback(fs: Fs, r: Pair, w: Outside)
    requires ValidPair(r) && Before(fs, r)
    ensures var (switched, targetUp) := Switch(Start(fs), OperationFor(r), w);
      Rollback(Start(fs), OperationFor(r), w) == Settle(switched, targetUp, w)
  {
    SwitchPassesItsChecks(fs, r);
    hide V.Field, V.Render, V.Parses, V.WellFormed, Switch, Settle, Before;
  }

  /** A rollback whose calls do not raise ends switched over or restored, or is cut in one of
      the listed layouts. */
  lemma RollbackLayouts(fs: Fs, r: Pair, w: Outside)
    requires ValidPair(r) && Before(fs, r) && NoErrors(w) && OriginalHealthy(w, r)
    ensures var (p, out) := Rollback(Start(fs), OperationFor(r), w);
      && (out == Cut || out == OperatorRolledBack || out == Failed("health_check_failed", "rollback_target_unhealthy"))
      && (out == Cut ==> CutLayout(p.fs, r))
      && (out == OperatorRolledBack ==>
            Kept(p.fs, r) && SwitchedOver(p.fs, r) && p.fs.marker == None)
      && (out.Failed? ==> NotStarted(p.fs, r) && Restored(p.fs, r) && p.fs.marker == None)
  {
    StartedRollback(fs, r, w);
    SwitchLayouts(fs, r, w);
    var (switched, targetUp) := Switch(Start(fs), OperationFor(r), w);
    hide V.Field, V.Render, V.Parses, Exec, NoErrors, Rollback, Switch, Keep, Abandon, OriginalHealthy;
    if targetUp {
      WholeRecordReads(r.target);
      KeepLayouts(switched, r, w);
      var kept := Keep(switched, w);
      if kept.status == Running {
        KeptIsSwitchedOver(kept.fs, r);
      }
    } else if switched.status == Running {
      AbandonLayouts(switched, r, w);
      var (q, out) := Abandon(switched, w);
      if out != Cut {
        NotStartedIsRestored(q.fs, r);
      }
    }
  }

  // ----- the recovery -----

  lemma NotStartedStartsTheOriginal(p: Proc, r: Pair, w: Outside)
    requires NotStarted(p.fs, r) && p.status == Running && Uninterrupted(w) && OriginalHealthy(w, r)
    requires InstalledField(p.fs, "sha256") == Some(r.original.sha256)
    requires InstalledField(p.fs, "version") == Some(r.original.version)
    ensures RecoverOriginal(p, MarkerFor(r), w) == (Proc(p.fs.(marker := None), p.calls + 3, Running), RolledBack)
  {
    hide V.Field, V.Render, Exec, Restore, InstalledField;
    Completes(p, Other, w);
    Completes(Proc(p.fs, p.calls + 2, Running), UnlinkMarker, w);
  }

  lemma NotStartedRecovers(fs: Fs, r: Pair, w: Outside)
    requires ValidPair(r) && NotStarted(fs, r) && Uninterrupted(w) && OriginalHealthy(w, r)
    ensures var (q, rec) := Recover(Start(fs), w);
      && Restored(q.fs, r) && q.fs.marker == None
      && rec == if fs.marker.Some? then RolledBack else NothingToRecover
  {
    V.RenderedFields(r.original);
    NotStartedIsRestored(fs, r);
    assert InstalledField(fs, "sha256") == Some(r.original.sha256);
    assert InstalledField(fs, "version") == Some(r.original.version);
    NotStartedStartsTheOriginal(Start(fs), r, w);
    hide V.Field, V.Render, V.WellFormed, Exec, RecoverOriginal, InstalledField, Names, Complete, Uninterrupted, OriginalHealthy;
  }

  /** With nothing going wrong, a call that can succeed does. */
  lemma Completes(p: Proc, act: Act, w: Outside)
    requires Uninterrupted(w) && p.status == Running && Effect(p.fs, act).Some?
    ensures Exec(p, act, w) == Proc(Effect(p.fs, act).value, p.calls + 1, Running)
  {
  }

  lemma KeepingCompletes(p: Proc, r: Pair, w: Outside)
    requires Keeping(p.fs, r) && p.status == Running && Uninterrupted(w)
    ensures var done := Complete(p, w);
      done.status == Running && Kept(done.fs, r) && done.fs.marker == None
  {
    hide V.Field, V.Render, Exec, Uninterrupted;
    if p.fs.versionCandidate.Some? {
      Completes(p, RenameRecord(CandidateRecord, PreviousRecord), w);
      var recorded := Exec(p, RenameRecord(CandidateRecord, PreviousRecord), w);
      Completes(recorded, Other, w);
      Completes(Exec(recorded, Other, w), UnlinkMarker, w);
    } else {
      Completes(p, Other, w);
      Completes(Exec(p, Other, w), UnlinkMarker, w);
    }
  }

  lemma KeepingRecovers(fs: Fs, r: Pair, w: Outside)
    requires ValidPair(r) && Keeping(fs, r) && Uninterrupted(w)
    ensures var (q, rec) := Recover(Start(fs), w);
      if w.healthy(0, r.target.version) then
        rec == Succeeded && SwitchedOver(q.fs, r) && q.fs.marker == None
      else rec == Refused && q.fs == fs
  {
    hide V.Field, V.Render, V.WellFormed, Complete, SwitchedOver, Kept, RecoverOriginal, InstalledField, Uninterrupted, ValidPair;
    KeepingFields(fs, r);
    FirstIsFine(w);
    var checked := Proc(fs, 1, Running);
    if w.healthy(0, r.target.version) {
      KeepingCompletes(checked, r, w);
      KeptIsSwitchedOver(Complete(checked, w).fs, r);
    } else {
      KeepingIsRefused(checked, r, w);
    }
  }

  lemma FirstIsFine(w: Outside)
    requires Uninterrupted(w)
    ensures w.fate(0).Fine?
  {
  }

  lemma KeepingFields(fs: Fs, r: Pair)
    requires ValidPair(r) && Keeping(fs, r)
    ensures InstalledField(fs, "sha256") == Some(r.target.sha256) && InstalledField(fs, "version") == Some(r.target.version)
  {
  }

  lemma KeepingIsRefused(p: Proc, r: Pair, w: Outside)
    requires ValidPair(r) && Keeping(p.fs, r) && p.status == Running
    ensures RecoverOriginal(p, MarkerFor(r), w) == (p, Refused)
  {
    hide V.Field, V.Render, V.WellFormed, Exec;
  }

  /** A stranded device is refused by every later recovery and every later rollback, whatever
      proves healthy: it stays as it is until it is repaired by hand. */
  lemma StrandedForever(fs: Fs, r: Pair, w: Outside, op: Operation)
    requires ValidPair(r) && Stranded(fs, r)
    ensures Recover(Start(fs), w).0.fs == fs && Recover(Start(fs), w).1 in {Refused, PowerLost}
    ensures Rollback(Start(fs), op, w).0.fs == fs
  {
    hide V.Field, V.Render, V.WellFormed, V.Parses, Restore, Switch, Keep, Abandon, Complete;
    StrandedFields(fs, r);
    StrandedRestore(fs, 0, w);
    StrandedRestore(fs, 1, w);
  }

  /** A torn record of the target is not taken for the original, and for the target only with its version. */
  lemma StrandedFields(fs: Fs, r: Pair)
    requires ValidPair(r) && fs.version.Some? && fs.version.value <= V.Render(r.target)
    ensures InstalledField(fs, "sha256") != Some(r.original.sha256)
    ensures InstalledField(fs, "sha256") == Some(r.target.sha256) ==> InstalledField(fs, "version") == Some(r.target.version)
  {
    V.TornFields(r.target, fs.version.value);
  }

  lemma StrandedRestore(fs: Fs, calls: nat, w: Outside)
    requires fs.candidate.None?
    ensures Restore(Proc(fs, calls, Running), w) == (Proc(fs, calls, Running), false)
  {
  }

  /** What a torn or whole current record of a parked layout can show. */
  lemma ParkedRecord(fs: Fs, r: Pair)
    requires ValidPair(r) && Parked(fs, r)
    ensures var sha := InstalledField(fs, "sha256"); var version := InstalledField(fs, "version");
      && (sha == Some(r.target.sha256) ==> version == Some(r.target.version) && Names(fs.version, r.target))
      && (sha == Some(r.original.sha256) ==> version == Some(r.original.version))
  {
    V.RenderedFields(r.original);
    if fs.version.value != V.Render(r.original) {
      V.TornFields(r.target, fs.version.value);
    }
  }

  lemma ParkedRecovers(fs: Fs, r: Pair, w: Outside)
    requires ValidPair(r) && Parked(fs, r) && Uninterrupted(w) && OriginalHealthy(w, r)
    ensures var (q, rec) := Recover(Start(fs), w);
      && q.fs.marker == None
      && ((rec == Succeeded && SwitchedOver(q.fs, r)) || (rec == RolledBack && Restored(q.fs, r)))
  {
    ParkedRecord(fs, r);
    hide V.Field, V.Render, V.WellFormed, Restore, Complete, RecoverOriginal, InstalledField;
    var sha := InstalledField(fs, "sha256");
    var checked := if sha == Some(r.target.sha256) then Proc(fs, 1, Running) else Start(fs);
    if sha == Some(r.target.sha256) && fs.venv == EnvOf(r.target) && w.healthy(0, r.target.version) {
      ParkedCompletes(checked, r, w);
    } else {
      ParkedGoesBack(checked, r, w);
    }
  }

  lemma ParkedCompletes(p: Proc, r: Pair, w: Outside)
    requires ValidPair(r) && Parked(p.fs, r) && p.status == Running && Uninterrupted(w)
    requires p.fs.venv == EnvOf(r.target) && Names(p.fs.version, r.target)
    ensures Complete(p, w).status == Running && SwitchedOver(Complete(p, w).fs, r) && Complete(p, w).fs.marker == None
  {
    V.RenderedFields(r.original);
    ParkedCompletesTo(p, r, w);
  }

  lemma ParkedCompletesTo(p: Proc, r: Pair, w: Outside)
    requires Parked(p.fs, r) && p.status == Running && Uninterrupted(w) && p.fs.venv == EnvOf(r.target)
    ensures Complete(p, w) ==
      Proc(Fs(p.fs.venv, None, EnvOf(r.original), p.fs.version, None, Some(V.Render(r.original)), None), p.calls + 4, Running)
  {
    hide V.Field, V.Render, Exec, Uninterrupted;
    Completes(p, Rename(Candidate, Previous), w);
    var kept := Exec(p, Rename(Candidate, Previous), w);
    Completes(kept, RenameRecord(CandidateRecord, PreviousRecord), w);
    var recorded := Exec(kept, RenameRecord(CandidateRecord, PreviousRecord), w);
    Completes(recorded, Other, w);
    var copied := Exec(recorded, Other, w);
    Completes(copied, UnlinkMarker, w);
  }

  lemma ParkedGoesBack(p: Proc, r: Pair, w: Outside)
    requires ValidPair(r) && Parked(p.fs, r) && p.status == Running && Uninterrupted(w) && OriginalHealthy(w, r)
    ensures var (q, rec) := RecoverOriginal(p, MarkerFor(r), w);
      rec == RolledBack && Restored(q.fs, r) && q.fs.marker == None
  {
    ParkedRecord(p.fs, r);
    hide V.Field, V.Render, V.WellFormed, Restore, InstalledField, Restored, Parked, ValidPair, OriginalHealthy;
    var inPlace := InstalledField(p.fs, "sha256") == Some(r.original.sha256);
    var checked := if inPlace then Proc(p.fs, p.calls + 2, Running) else p;
    ParkedIsDown(p, r, w);
    RestoreLayouts(checked, r, w);
    NotStartedIsRestored(Restore(checked, w).0.fs, r);
    var restored := Restore(checked, w).0;
    RestoreSucceeds(checked, r, w);
    Completes(restored, UnlinkMarker, w);
    RestoredWithoutMarker(restored.fs, r);
    hide Exec, Health, Uninterrupted;
  }

  lemma RestoredWithoutMarker(fs: Fs, r: Pair)
    requires Restored(fs, r)
    ensures Restored(fs.(marker := None), r)
  {
  }

  lemma RestoreSucceeds(p: Proc, r: Pair, w: Outside)
    requires ValidPair(r) && Parked(p.fs, r) && p.status == Running && Uninterrupted(w) && OriginalHealthy(w, r)
    ensures Restore(p, w).1 && Restore(p, w).0.status == Running
  {
    RestoreLayouts(p, r, w);
  }

  /** With the original parked, starting what the record calls the original finds it down. */
  lemma ParkedIsDown(p: Proc, r: Pair, w: Outside)
    requires ValidPair(r) && Parked(p.fs, r) && p.status == Running && Uninterrupted(w)
    requires InstalledField(p.fs, "sha256") == Some(r.original.sha256) ==>
               InstalledField(p.fs, "version") == Some(r.original.version)
    ensures InstalledField(p.fs, "sha256") == Some(r.original.sha256) ==>
              Health(Exec(p, Other, w), r.original.version, w) == (Proc(p.fs, p.calls + 2, Running), false)
    ensures Exec(p, Other, w) == Proc(p.fs, p.calls + 1, Running)
  {
    hide V.Field, V.Render, V.WellFormed;
  }

  // ----- the theorem -----

  /** Wherever the power fails during a rollback, one uninterrupted recovery ends in exactly one
      of the two layouts, unless the cut fell in one of two windows: between the last rename of
      the restore and its record, or between keeping the old environment and its record, the
      latter only when the target is down again at recovery. */
  lemma CutThenRecover(fs: Fs, r: Pair, w: Outside, again: Outside)
    requires ValidPair(r) && Before(fs, r)
    requires NoErrors(w) && OriginalHealthy(w, r) && Uninterrupted(again) && OriginalHealthy(again, r)
    requires Rollback(Start(fs), OperationFor(r), w).1 == Cut
    ensures var cut := Rollback(Start(fs), OperationFor(r), w).0.fs;
      var (q, rec) := Recover(Start(cut), again);
      && (Restored(q.fs, r) || SwitchedOver(q.fs, r) <==>
            !Stranded(cut, r) && !(HalfKept(cut, r) && !again.healthy(0, r.target.version)))
      && !(Restored(q.fs, r) && SwitchedOver(q.fs, r))
      && (rec == Succeeded ==> SwitchedOver(q.fs, r) && q.fs.marker == None)
      && (rec == RolledBack ==> Restored(q.fs, r) && q.fs.marker == None)
  {
    RollbackLayouts(fs, r, w);
    RecoverFromCut(Rollback(Start(fs), OperationFor(r), w).0.fs, r, again);
  }

  /** With the record naming the target, the original in place is neither layout. */
  lemma NotBoth(fs: Fs, r: Pair)
    requires ValidPair(r) && Stranded(fs, r)
    ensures !Restored(fs, r) && !SwitchedOver(fs, r)
  {
    StrandedFields(fs, r);
    hide V.Field, V.Render, V.WellFormed;
  }

  /** A record of the original is no torn record of the target. */
  lemma NotStartedIsNotStranded(fs: Fs, r: Pair)
    requires ValidPair(r) && NotStarted(fs, r)
    ensures !Stranded(fs, r)
  {
    V.RenderedFields(r.original);
    if fs.version.value <= V.Render(r.target) {
      StrandedFields(fs, r);
      assert false;
    }
  }

  lemma RecoverFromCut(cut: Fs, r: Pair, again: Outside)
    requires ValidPair(r) && CutLayout(cut, r) && Uninterrupted(again) && OriginalHealthy(again, r)
    ensures var (q, rec) := Recover(Start(cut), again);
      && (Restored(q.fs, r) || SwitchedOver(q.fs, r) <==>
            !Stranded(cut, r) && !(HalfKept(cut, r) && !again.healthy(0, r.target.version)))
      && !(Restored(q.fs, r) && SwitchedOver(q.fs, r))
      && (rec == Succeeded ==> SwitchedOver(q.fs, r) && q.fs.marker == None)
      && (rec == RolledBack ==> Restored(q.fs, r) && q.fs.marker == None)
  {
    V.RenderedFields(r.original);
    V.RenderedFields(r.target);
    hide V.Field, V.Render, V.WellFormed, Recover, OriginalHealthy, Uninterrupted;
    if NotStarted(cut, r) {
      NotStartedRecovers(cut, r, again);
      NotStartedIsNotStranded(cut, r);
    } else if Parked(cut, r) {
      ParkedRecovers(cut, r, again);
    } else if Keeping(cut, r) {
      KeepingRecovers(cut, r, again);
    } else {
      StrandedForever(cut, r, again, OperationFor(r));
      NotBoth(cut, r);
    }
  }

  // ----- both windows are real -----

  /** Power lost at the n-th call, the target healthy or not. */
  function CutAt(n: nat, r: Pair, targetUp: bool): Outside {
    Outside(k => if k == n then Crash(0) else Fine,
            (k, version) => version == r.original.version || targetUp)
  }

  /** Nothing goes wrong before the n-th call. */
  ghost predicate FineUntil(w: Outside, n: nat) {
    forall k :: 0 <= k < n ==> w.fate(k).Fine?
  }

  lemma Goes(n: nat, w: Outside, p: Proc, act: Act, after: Fs)
    requires FineUntil(w, n) && p.status == Running && p.calls < n && Effect(p.fs, act) == Some(after)
    ensures Exec(p, act, w) == Proc(after, p.calls + 1, Running)
  {
  }

  lemma CutHere(n: nat, r: Pair, targetUp: bool, p: Proc, act: Act)
    requires p.status == Running && p.calls == n && !act.CopyRecord? && !act.RemoveTree?
    ensures Exec(p, act, CutAt(n, r, targetUp)) == Proc(p.fs, n + 1, Crashed)
  {
  }

  /** The device at four points of a rollback. */
  function Copied(r: Pair): Fs {
    Fs(EnvOf(r.original), None, EnvOf(r.target), Some(V.Render(r.original)), Some(V.Render(r.original)),
       Some(V.Render(r.target)), Some(MarkerFor(r)))
  }

  function Switched(r: Pair): Fs {
    Fs(EnvOf(r.target), EnvOf(r.original), None, Some(V.Render(r.target)), Some(V.Render(r.original)),
       Some(V.Render(r.target)), Some(MarkerFor(r)))
  }

  function PutBack(r: Pair): Fs {
    Switched(r).(venv := EnvOf(r.original), candidate := None, previous := EnvOf(r.target))
  }

  function KeptFirst(r: Pair): Fs {
    Switched(r).(candidate := None, previous := EnvOf(r.original))
  }

  lemma SwitchStarts(fs: Fs, r: Pair, w: Outside)
    requires ValidPair(r) && Before(fs, r) && FineUntil(w, 10)
    ensures
      Exec(Exec(Exec(Exec(Start(fs), WriteMarker(MarkerFor(r)), w), CopyRecord(Current, CandidateRecord), w), Other, w), Other, w)
        == Proc(Copied(r), 4, Running)
  {
    hide V.Field, V.Render, Exec, FineUntil;
    Goes(10, w, Start(fs), WriteMarker(MarkerFor(r)), fs.(marker := Some(MarkerFor(r))));
    Goes(10, w, Proc(fs.(marker := Some(MarkerFor(r))), 1, Running), CopyRecord(Current, CandidateRecord), Copied(r));
    Goes(10, w, Proc(Copied(r), 2, Running), Other, Copied(r));
    Goes(10, w, Proc(Copied(r), 3, Running), Other, Copied(r));
  }

  lemma SwitchMoves(r: Pair, w: Outside)
    requires FineUntil(w, 10)
    ensures
      Exec(Exec(Exec(Exec(Exec(Proc(Copied(r), 4, Running), Rename(Venv, Candidate), w), Rename(Previous, Venv), w),
                     CopyRecord(PreviousRecord, Current), w), Other, w), Other, w)
        == Proc(Switched(r), 9, Running)
  {
    hide V.Render, Exec, FineUntil;
    var parked := Copied(r).(venv := None, candidate := EnvOf(r.original));
    var moved := parked.(venv := EnvOf(r.target), previous := None);
    Goes(10, w, Proc(Copied(r), 4, Running), Rename(Venv, Candidate), parked);
    Goes(10, w, Proc(parked, 5, Running), Rename(Previous, Venv), moved);
    Goes(10, w, Proc(moved, 6, Running), CopyRecord(PreviousRecord, Current), Switched(r));
    Goes(10, w, Proc(Switched(r), 7, Running), Other, Switched(r));
    Goes(10, w, Proc(Switched(r), 8, Running), Other, Switched(r));
  }

  /** A switch that nothing goes wrong in: where it leaves the device after its ten calls, the last of which asks
      whether the target is healthy. */
  lemma SwitchRuns(fs: Fs, r: Pair, w: Outside)
    requires ValidPair(r) && Before(fs, r) && FineUntil(w, 10)
    ensures Switch(Start(fs), OperationFor(r), w) == (Proc(Switched(r), 10, Running), w.healthy(9, r.target.version))
  {
    BeforeField(fs, r);
    assert w.fate(9).Fine?;
    hide V.Field, V.Render, Exec, InstalledField, V.WellFormed, FineUntil;
    SwitchStarts(fs, r, w);
    SwitchMoves(r, w);
  }

  lemma RestoreIsCut(r: Pair)
    ensures Restore(Proc(Switched(r), 10, Running), CutAt(13, r, false)) == (Proc(PutBack(r), 14, Crashed), false)
  {
    var w := CutAt(13, r, false);
    assert FineUntil(w, 13);
    StoppedStaysStopped(Proc(PutBack(r), 14, Crashed), w);
    hide V.Field, V.Render, Exec, CutAt;
    var cleared := Switched(r).(venv := None, previous := EnvOf(r.target));
    Goes(13, w, Proc(Switched(r), 10, Running), Other, Switched(r));
    Goes(13, w, Proc(Switched(r), 11, Running), Rename(Venv, Previous), cleared);
    Goes(13, w, Proc(cleared, 12, Running), Rename(Candidate, Venv), PutBack(r));
    CutHere(13, r, false, Proc(PutBack(r), 13, Running), RenameRecord(CandidateRecord, Current));
  }

  lemma KeepIsCut(r: Pair)
    ensures Keep(Proc(Switched(r), 10, Running), CutAt(11, r, true)) == Proc(KeptFirst(r), 12, Crashed)
  {
    var w := CutAt(11, r, true);
    assert FineUntil(w, 11);
    StoppedStaysStopped(Proc(KeptFirst(r), 12, Crashed), w);
    hide V.Field, V.Render, Exec, CutAt;
    Goes(11, w, Proc(Switched(r), 10, Running), Rename(Candidate, Previous), KeptFirst(r));
    CutHere(11, r, true, Proc(KeptFirst(r), 11, Running), RenameRecord(CandidateRecord, PreviousRecord));
  }

  lemma PutBackIsStranded(r: Pair)
    requires ValidPair(r)
    ensures Stranded(PutBack(r), r)
  {
    hide V.Render, V.WellFormed;
  }

  lemma KeptFirstIsHalfKept(r: Pair)
    requires ValidPair(r)
    ensures HalfKept(KeptFirst(r), r)
  {
    V.RenderedParses(r.target);
    V.RenderedFields(r.target);
    hide V.Render, V.WellFormed;
  }

  /** The first window: an unhealthy target, and a power cut between the last rename of the
      restore and the rename of its record. */
  lemma StrandedWindowIsReal(fs: Fs, r: Pair)
    requires ValidPair(r) && Before(fs, r)
    ensures var (p, out) := Rollback(Start(fs), OperationFor(r), CutAt(13, r, false));
      out == Cut && Stranded(p.fs, r)
  {
    var w := CutAt(13, r, false);
    assert FineUntil(w, 10) && !w.healthy(9, r.target.version);
    StartedRollback(fs, r, w);
    hide V.Field, V.Render, V.Parses, V.WellFormed, Exec, CutAt, Switch, Restore, Keep, Stranded, PutBack, Switched, Before,
         Rollback, FineUntil;
    SwitchRuns(fs, r, w);
    RestoreIsCut(r);
    PutBackIsStranded(r);
  }

  /** The second window: a healthy target, and a power cut between keeping the old environment
      and keeping its record. */
  lemma HalfKeptWindowIsReal(fs: Fs, r: Pair)
    requires ValidPair(r) && Before(fs, r)
    ensures var (p, out) := Rollback(Start(fs), OperationFor(r), CutAt(11, r, true));
      out == Cut && HalfKept(p.fs, r)
  {
    var w := CutAt(11, r, true);
    assert FineUntil(w, 10) && w.healthy(9, r.target.version);
    StartedRollback(fs, r, w);
    hide V.Field, V.Render, V.Parses, V.WellFormed, Exec, CutAt, Switch, Keep, Abandon, HalfKept, KeptFirst, Switched, Before,
         Rollback, FineUntil;
    SwitchRuns(fs, r, w);
    KeepIsCut(r);
    KeptFirstIsHalfKept(r);
  }
}
