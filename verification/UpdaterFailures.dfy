/** What the answers of a rollback and of a recovery say of the device when calls may raise I/O errors at any point. */
module UpdaterFailures {
  import opened Prelude
  import opened Updater
  import opened UpdaterRecovery
  import V = VersionRecord

  ghost predicate NeverCut(w: Outside) {
    forall n :: !w.fate(n).Crash?
  }

  /** The health check made as call `n` found the environment in place to be the expected one, and healthy. */
  predicate CheckedHealthy(fs: Fs, expected: string, n: int, w: Outside) {
    n >= 0 && w.fate(n).Fine? && fs.venv == Some(Env(expected)) && w.healthy(n, expected)
  }

  /** The version that the current record names, or nothing. */
  function Recorded(fs: Fs): string {
    var version := InstalledField(fs, "version");
    if version.Some? then version.value else ""
  }

  // ----- the health check behind each answer -----

  lemma RestoredMeansHealthy(p: Proc, w: Outside)
    requires p.status == Running
    ensures var (q, up) := Restore(p, w);
            && (up ==> q.status == Running && q.calls > 0 && CheckedHealthy(q.fs, Recorded(q.fs), q.calls - 1, w))
            && q.status != Raised
            && q.fs.marker == p.fs.marker
  {
    hide V.Field, Effect;
    RestoreKeepsMarker(p, w);
  }

  lemma RestoreKeepsMarker(p: Proc, w: Outside)
    ensures Restore(p, w).0.fs.marker == p.fs.marker
  {
    hide Exec, InstalledField;
    if p.fs.candidate.Some? {
      var stopped := Exec(p, Other, w);
      ExecKeepsMarker(p, Other, w);
      var cleared := if stopped.fs.marker.Some? then ExecIf(stopped, stopped.fs.venv.Some?, Rename(Venv, Previous), w)
                     else ExecIf(stopped, stopped.fs.venv.Some?, RemoveTree(Venv), w);
      ExecKeepsMarker(stopped, Rename(Venv, Previous), w);
      ExecKeepsMarker(stopped, RemoveTree(Venv), w);
      var switched := Exec(cleared, Rename(Candidate, Venv), w);
      ExecKeepsMarker(cleared, Rename(Candidate, Venv), w);
      var recorded := ExecIf(switched, switched.fs.versionCandidate.Some?, RenameRecord(CandidateRecord, Current), w);
      ExecKeepsMarker(switched, RenameRecord(CandidateRecord, Current), w);
      ExecKeepsMarker(recorded, Other, w);
      ExecKeepsMarker(Exec(recorded, Other, w), Other, w);
    }
  }

  /**
   * Giving a switch up, whatever raises. An unhealthy target is reported only with the original environment put back
   * and found healthy, and an interrupted switch only with the environment in place found healthy; then the marker is
   * gone. That the rollback failed is reported only if that check failed, and then the marker is kept.
   */
  lemma AbandonAnswers(p: Proc, w: Outside)
    requires p.status == Running && NeverCut(w)
    ensures var (q, out) := Abandon(p, w);
            && (out.Failed? ==> q.fs.marker == None && CheckedHealthy(q.fs, Recorded(q.fs), q.calls - 2, w))
            && (out.Failed? ==> out == Failed("health_check_failed", "rollback_target_unhealthy")
                                || out == Failed("installation_failed", "interrupted_switch"))
            && (out == Failed("health_check_failed", "rollback_target_unhealthy") <==> Restore(p, w).1 && out.Failed?)
            && (out == RollbackFailed ==>
                  q.fs.marker == p.fs.marker && !CheckedHealthy(q.fs, Recorded(q.fs), q.calls - 1, w))
            && out != OperatorRolledBack && out != Cut
  {
    RestoredMeansHealthy(p, w);
    RestoreNeverCrashes(p, w);
    hide Restore, V.Field;
  }

  lemma RestoreNeverCrashes(p: Proc, w: Outside)
    requires NeverCut(w) && p.status != Crashed
    ensures Restore(p, w).0.status != Crashed
  {
    hide V.Field, Effect;
  }

  // ----- a rollback from a device in order -----

  /** The install marker while the switch is not settled: it is missing only if writing it raised. */
  function MarkerWritten(r: Pair, w: Outside): Option<Marker> {
    if w.fate(0).Fine? then Some(MarkerFor(r)) else None
  }

  lemma SwitchMarks(fs: Fs, r: Pair, w: Outside)
    requires ValidPair(r) && Before(fs, r) && NeverCut(w)
    ensures var q := Switch(Start(fs), OperationFor(r), w).0;
            q.status != Crashed && q.fs.marker == MarkerWritten(r, w) && (q.status == Running ==> w.fate(0).Fine?)
  {
    BeforeField(fs, r);
    hide V.Field, V.Render, V.WellFormed, Effect, Interrupted;
    var marked := Exec(Start(fs), WriteMarker(MarkerFor(r)), w);
    assert marked.fs.marker == MarkerWritten(r, w) by {
      MarkingMarks(fs, r, w);
    }
    var copied := Exec(marked, CopyRecord(Current, CandidateRecord), w);
    var noted := Exec(copied, Other, w);
    var stopped := Exec(noted, Other, w);
    var parked := Exec(stopped, Rename(Venv, Candidate), w);
    var moved := Exec(parked, Rename(Previous, Venv), w);
    var recorded := Exec(moved, CopyRecord(PreviousRecord, Current), w);
    var reloaded := Exec(recorded, Other, w);
    ExecKeepsMarker(marked, CopyRecord(Current, CandidateRecord), w);
    ExecKeepsMarker(copied, Other, w);
    ExecKeepsMarker(noted, Other, w);
    ExecKeepsMarker(stopped, Rename(Venv, Candidate), w);
    ExecKeepsMarker(parked, Rename(Previous, Venv), w);
    ExecKeepsMarker(moved, CopyRecord(PreviousRecord, Current), w);
    ExecKeepsMarker(recorded, Other, w);
    ExecKeepsMarker(reloaded, Other, w);
  }

  lemma MarkingMarks(fs: Fs, r: Pair, w: Outside)
    requires Before(fs, r) && NeverCut(w)
    ensures Exec(Start(fs), WriteMarker(MarkerFor(r)), w).fs.marker == MarkerWritten(r, w)
  {
  }

  lemma KeepMarks(p: Proc, w: Outside)
    requires NeverCut(w) && p.status == Running
    ensures Keep(p, w).status != Crashed
    ensures Keep(p, w).fs.marker == if Keep(p, w).status == Running then None else p.fs.marker
  {
    hide V.Field;
    var kept := Exec(p, Rename(Candidate, Previous), w);
    var recorded := Exec(kept, RenameRecord(CandidateRecord, PreviousRecord), w);
    var noted := Exec(recorded, Other, w);
    ExecKeepsMarker(p, Rename(Candidate, Previous), w);
    ExecKeepsMarker(kept, RenameRecord(CandidateRecord, PreviousRecord), w);
    ExecKeepsMarker(recorded, Other, w);
  }

  /** FAILED says that the environment in place was checked last and found healthy, with the marker gone; ROLLBACK_FAILED
      that this check failed, with `marker` kept; a completed rollback leaves no marker. */
  predicate SaysWhatItFound(q: Proc, out: Outcome, marker: Option<Marker>, w: Outside) {
    && (out.Failed? ==>
          && (out == Failed("health_check_failed", "rollback_target_unhealthy")
              || out == Failed("installation_failed", "interrupted_switch"))
          && q.fs.marker == None && CheckedHealthy(q.fs, Recorded(q.fs), q.calls - 2, w))
    && (out == RollbackFailed ==>
          q.fs.marker == marker && !CheckedHealthy(q.fs, Recorded(q.fs), q.calls - 1, w))
    && (out == OperatorRolledBack ==> q.fs.marker == None)
    && out != Cut
  }

  lemma SettleAnswers(switched: Proc, up: bool, w: Outside)
    requires NeverCut(w) && switched.status != Crashed && (up ==> switched.status == Running)
    ensures var (q, out) := Settle(switched, up, w);
            SaysWhatItFound(q, out, switched.fs.marker, w)
  {
    hide Abandon, Keep, V.Field, CheckedHealthy, Recorded, NeverCut;
    if up {
      KeepMarks(switched, w);
    }
    var kept := if up then Keep(switched, w) else switched;
    if !(up && kept.status == Running) {
      AbandonAnswers(Caught(kept), w);
    }
  }

  /**
   * A rollback of a device in order, whatever raises, if the power does not fail. FAILED is answered only if the
   * environment left in place was checked and found healthy, and then the marker is gone; ROLLBACK_FAILED only if that
   * check failed, and then the marker, if it could be written, is kept.
   */
  lemma AnswersUnderErrors(fs: Fs, r: Pair, w: Outside)
    requires ValidPair(r) && Before(fs, r) && NeverCut(w)
    ensures var (q, out) := Rollback(Start(fs), OperationFor(r), w);
            SaysWhatItFound(q, out, MarkerWritten(r, w), w)
  {
    StartedRollback(fs, r, w);
    SwitchMarks(fs, r, w);
    SwitchedIsRunning(fs, r, w);
    hide *;
    var (switched, up) := Switch(Start(fs), OperationFor(r), w);
    SettleAnswers(switched, up, w);
  }

  lemma SwitchedIsRunning(fs: Fs, r: Pair, w: Outside)
    ensures Switch(Start(fs), OperationFor(r), w).1 ==> Switch(Start(fs), OperationFor(r), w).0.status == Running
  {
    hide Exec, V.Field;
  }

  // ----- one error -----

  ghost predicate FineFrom(w: Outside, n: nat) {
    forall k :: k >= n ==> w.fate(k).Fine?
  }

  /** The same releases are healthy at the same times, and nothing goes wrong. */
  function Calm(w: Outside): Outside {
    Outside(n => Fine, w.healthy)
  }

  lemma SameCall(p: Proc, act: Act, w: Outside, from: nat)
    requires FineFrom(w, from) && p.calls >= from
    ensures Exec(p, act, w) == Exec(p, act, Calm(w)) && Exec(p, act, w).calls >= from
  {
  }

  lemma RestoreIsCalm(p: Proc, w: Outside)
    requires FineFrom(w, p.calls)
    ensures Restore(p, w) == Restore(p, Calm(w)) && Restore(p, w).0.calls >= p.calls
  {
    hide Exec, InstalledField, FineFrom;
    if p.fs.candidate.Some? {
      var n := p.calls;
      SameCall(p, Other, w, n);
      var stopped := Exec(p, Other, w);
      var clear := if stopped.fs.marker.Some? then Rename(Venv, Previous) else RemoveTree(Venv);
      SameCall(stopped, clear, w, n);
      var cleared := ExecIf(stopped, stopped.fs.venv.Some?, clear, w);
      SameCall(cleared, Rename(Candidate, Venv), w, n);
      var switched := Exec(cleared, Rename(Candidate, Venv), w);
      SameCall(switched, RenameRecord(CandidateRecord, Current), w, n);
      var recorded := ExecIf(switched, switched.fs.versionCandidate.Some?, RenameRecord(CandidateRecord, Current), w);
      SameCall(recorded, Other, w, n);
      SameCall(Exec(recorded, Other, w), Other, w, n);
      SameHealth(Exec(Exec(recorded, Other, w), Other, w), w, n);
    }
  }

  lemma SameHealth(p: Proc, w: Outside, from: nat)
    requires FineFrom(w, from) && p.calls >= from
    ensures forall version :: Health(p, version, w) == Health(p, version, Calm(w)) && Health(p, version, w).0.calls >= from
  {
  }

  /** With the original parked, giving up puts it back, and blames the target. */
  lemma ParkedIsPutBack(p: Proc, r: Pair, w: Outside)
    requires ValidPair(r) && Parked(p.fs, r) && p.status == Running && FineFrom(w, p.calls) && OriginalHealthy(w, r)
    ensures var (q, out) := Abandon(p, w);
            && out == Failed("health_check_failed", "rollback_target_unhealthy")
            && Restored(q.fs, r) && q.fs.marker == None
  {
    RestoreIsCalm(p, w);
    RestoreLayouts(p, r, Calm(w));
    var restored := Restore(p, w).0;
    NotStartedIsRestored(restored.fs, r);
    hide Restore, V.Field, V.Render, ValidPair, Parked, NotStarted;
  }

  /** With the candidate slot empty, giving up looks at what is in place. */
  lemma InPlaceIsChecked(p: Proc, id: V.Identity, w: Outside)
    requires p.status == Running && p.fs.candidate == None && p.fs.venv == EnvOf(id) && NeverCut(w)
    requires p.fs.version.Some? && V.Field(p.fs.version.value, "version") == Some(id.version)
    ensures var (q, out) := Abandon(p, w);
            var checked := w.fate(p.calls).Fine? && w.healthy(p.calls, id.version);
            && (out == Failed("installation_failed", "interrupted_switch") <==> checked && w.fate(p.calls + 1).Fine?)
            && (out == RollbackFailed <==> !checked)
            && (out == Aborted <==> checked && !w.fate(p.calls + 1).Fine?)
            && q.fs == if out.Failed? then p.fs.(marker := None) else p.fs
  {
    hide V.Field;
  }

  /** What the device is like when call `i` of the switch raises and nothing did before. */
  lemma {:induction false} RaisedInSwitch(fs: Fs, r: Pair, w: Outside, i: nat)
    requires ValidPair(r) && Before(fs, r) && FineUntil(w, i) && i < 10 && w.fate(i).Raise?
    ensures var (q, up) := Switch(Start(fs), OperationFor(r), w);
            && !up && Caught(q) == Proc(q.fs, i + 1, Running) && q.status != Crashed
            && (i <= 4 ==> q.fs.(marker := None, versionCandidate := None) == fs.(marker := None, versionCandidate := None))
            && (i > 4 ==> Parked(q.fs, r))
  {
    BeforeField(fs, r);
    hide V.Field, V.Render, V.WellFormed, InstalledField, FineUntil;
    var m := MarkerFor(r);
    var marked, copied := fs.(marker := Some(m)), Copied(r);
    var parked := Copied(r).(venv := None, candidate := EnvOf(r.original));
    var moved := parked.(venv := EnvOf(r.target), previous := None);
    RunsOn(Start(fs), WriteMarker(m), marked, w, i);
    RunsOn(Proc(marked, 1, Running), CopyRecord(Current, CandidateRecord), copied, w, i);
    RunsOn(Proc(copied, 2, Running), Other, copied, w, i);
    RunsOn(Proc(copied, 3, Running), Other, copied, w, i);
    RunsOn(Proc(copied, 4, Running), Rename(Venv, Candidate), parked, w, i);
    RunsOn(Proc(parked, 5, Running), Rename(Previous, Venv), moved, w, i);
    RunsOn(Proc(moved, 6, Running), CopyRecord(PreviousRecord, Current), Switched(r), w, i);
    RunsOn(Proc(Switched(r), 7, Running), Other, Switched(r), w, i);
    RunsOn(Proc(Switched(r), 8, Running), Other, Switched(r), w, i);
  }

  /** One call before, at or after the one that raises. */
  lemma RunsOn(p: Proc, act: Act, after: Fs, w: Outside, i: nat)
    requires p.status == Running && Effect(p.fs, act) == Some(after) && FineUntil(w, i)
    ensures p.calls < i ==> Exec(p, act, w) == Proc(after, p.calls + 1, Running)
    ensures p.calls == i && w.fate(i).Raise? ==>
              Exec(p, act, w) == Proc(Interrupted(p.fs, act, w.fate(i).written), i + 1, Raised)
  {
  }

  /** The same releases lie where they did, with the same records. */
  lemma UnmovedIsRestored(before: Fs, after: Fs, r: Pair)
    requires ValidPair(r) && Before(before, r)
    requires after.(marker := None, versionCandidate := None) == before.(marker := None, versionCandidate := None)
    ensures Restored(after, r)
  {
    V.RenderedFields(r.original);
    V.RenderedFields(r.target);
    hide V.Field, V.Render, V.WellFormed;
  }

  /**
   * The first error hits one of the calls up to the first rename, and the power does not fail: the device is as it
   * was. The answer is that the switch was interrupted iff the original is then found healthy and the marker removed.
   */
  lemma EarlyErrorChangesNothing(fs: Fs, r: Pair, w: Outside, i: nat)
    requires ValidPair(r) && Before(fs, r) && NeverCut(w) && FineUntil(w, i) && i <= 4 && w.fate(i).Raise?
    ensures var (q, out) := Rollback(Start(fs), OperationFor(r), w);
            var checked := w.fate(i + 1).Fine? && w.healthy(i + 1, r.original.version);
            && Restored(q.fs, r)
            && (out == Failed("installation_failed", "interrupted_switch") <==> checked && w.fate(i + 2).Fine?)
            && (out == RollbackFailed <==> !checked)
            && (out == Aborted <==> checked && !w.fate(i + 2).Fine?)
            && (out.Failed? ==> q.fs.marker == None)
  {
    StartedRollback(fs, r, w);
    RaisedInSwitch(fs, r, w, i);
    var switched := Switch(Start(fs), OperationFor(r), w).0;
    V.RenderedFields(r.original);
    hide Rollback, Abandon, Switch, Keep, V.Field, V.Render, V.WellFormed, Restored;
    InPlaceIsChecked(Caught(switched), r.original, w);
    UnmovedIsRestored(fs, Abandon(Caught(switched), w).0.fs, r);
  }

  /** What the device is like when call `i` of keeping the old release raises. */
  lemma RaisedInKeep(r: Pair, w: Outside, i: nat)
    requires 10 <= i < 14 && FineUntil(w, i) && w.fate(i).Raise?
    ensures var q := Keep(Proc(Switched(r), 10, Running), w);
            && Caught(q) == Proc(q.fs, i + 1, Running) && q.status == Raised
            && q.fs == if i == 10 then Switched(r) else if i == 11 then KeptFirst(r) else KeptBoth(r)
  {
    hide V.Field, V.Render, FineUntil;
    RunsOn(Proc(Switched(r), 10, Running), Rename(Candidate, Previous), KeptFirst(r), w, i);
    RunsOn(Proc(KeptFirst(r), 11, Running), RenameRecord(CandidateRecord, PreviousRecord), KeptBoth(r), w, i);
    RunsOn(Proc(KeptBoth(r), 12, Running), Other, KeptBoth(r), w, i);
    RunsOn(Proc(KeptBoth(r), 13, Running), UnlinkMarker, KeptBoth(r).(marker := None), w, i);
  }

  /** The old environment and its record are kept. */
  function KeptBoth(r: Pair): Fs {
    KeptFirst(r).(versionCandidate := None, versionPrevious := Some(V.Render(r.original)))
  }

  lemma SwitchedIsParked(r: Pair)
    ensures Parked(Switched(r), r)
  {
    hide V.Render;
  }

  /** The target runs, the original is kept, but the record kept with it is still that of the target. */
  predicate HalfRecorded(fs: Fs, r: Pair) {
    && fs.venv == EnvOf(r.target) && fs.candidate == None && fs.previous == EnvOf(r.original)
    && Names(fs.version, r.target) && Names(fs.versionPrevious, r.target)
  }

  /**
   * Exactly one call of a rollback raises, and both releases are healthy whenever they are checked. Up to the rename
   * that keeps the old environment the device is restored; at the one that keeps its record it is left half recorded;
   * and after that it has switched over, although the answer is that the switch was interrupted.
   */
  lemma OneErrorRollback(fs: Fs, r: Pair, w: Outside, i: nat)
    requires ValidPair(r) && Before(fs, r) && i < 14 && FineUntil(w, i) && w.fate(i).Raise? && FineFrom(w, i + 1)
    requires OriginalHealthy(w, r) && forall n :: w.healthy(n, r.target.version)
    ensures var (q, out) := Rollback(Start(fs), OperationFor(r), w);
            && q.fs.marker == None
            && (Restored(q.fs, r) <==> i <= 10) && (HalfRecorded(q.fs, r) <==> i == 11) && (SwitchedOver(q.fs, r) <==> i >= 12)
            && out == if 5 <= i <= 10 then Failed("health_check_failed", "rollback_target_unhealthy")
                      else Failed("installation_failed", "interrupted_switch")
  {
    OnlyOneError(w, i);
    if i <= 4 {
      EarlyErrorChangesNothing(fs, r, w, i);
    } else {
      StartedRollback(fs, r, w);
      var switched := Switch(Start(fs), OperationFor(r), w).0;
      if i < 10 {
        RaisedInSwitch(fs, r, w, i);
        ParkedIsPutBack(Caught(switched), r, w);
      } else {
        SwitchRuns(fs, r, w);
        LateError(r, w, i);
      }
    }
    hide *;
    RestoredIsNothingElse(Rollback(Start(fs), OperationFor(r), w).0.fs, r);
  }

  lemma OnlyOneError(w: Outside, i: nat)
    requires FineUntil(w, i) && w.fate(i).Raise? && FineFrom(w, i + 1)
    ensures NeverCut(w)
  {
    forall n: nat ensures !w.fate(n).Crash? {
      assert n < i || n == i || n >= i + 1;
    }
  }

  lemma RestoredIsNothingElse(fs: Fs, r: Pair)
    requires ValidPair(r)
    ensures !(Restored(fs, r) && SwitchedOver(fs, r))
    ensures !(HalfRecorded(fs, r) && (Restored(fs, r) || SwitchedOver(fs, r)))
  {
    hide V.Field, V.WellFormed;
  }

  lemma LateError(r: Pair, w: Outside, i: nat)
    requires ValidPair(r) && 10 <= i < 14 && FineUntil(w, i) && w.fate(i).Raise? && FineFrom(w, i + 1)
    requires OriginalHealthy(w, r) && forall n :: w.healthy(n, r.target.version)
    ensures var (q, out) := Settle(Proc(Switched(r), 10, Running), true, w);
            && q.fs.marker == None
            && (if i == 10 then Restored(q.fs, r) else if i == 11 then HalfRecorded(q.fs, r) else SwitchedOver(q.fs, r))
            && out == if i == 10 then Failed("health_check_failed", "rollback_target_unhealthy")
                      else Failed("installation_failed", "interrupted_switch")
  {
    OnlyOneError(w, i);
    RaisedInKeep(r, w, i);
    V.RenderedFields(r.target);
    V.RenderedFields(r.original);
    var p := Caught(Keep(Proc(Switched(r), 10, Running), w));
    hide Abandon, Keep, V.Field, V.Render, V.WellFormed, Parked, NeverCut, FineUntil;
    if i == 10 {
      SwitchedIsParked(r);
      ParkedIsPutBack(p, r, w);
    } else {
      InPlaceIsChecked(p, r.target, w);
    }
  }

  // ----- recovery -----

  lemma CompleteAnswers(p: Proc, w: Outside)
    requires p.status == Running
    ensures var q := Complete(p, w);
            && q.fs.venv == p.fs.venv && q.fs.version == p.fs.version
            && q.fs.marker == if q.status == Running then None else p.fs.marker
  {
    hide InstalledField;
  }

  lemma OriginalAnswers(p: Proc, marker: Marker, w: Outside)
    requires p.status == Running
    ensures var (q, rec) := RecoverOriginal(p, marker, w);
            && (rec == PowerLost <==> q.status == Crashed)
            && (rec == RolledBack ==> q.fs.marker == None && CheckedHealthy(q.fs, Recorded(q.fs), q.calls - 2, w))
            && (rec == Refused ==> q.fs.marker == p.fs.marker)
            && (rec == PowerLost || rec == RolledBack || rec == Refused)
  {
    hide V.Field, Restore;
    var version := InstalledField(p.fs, "version");
    var inPlace := InstalledField(p.fs, "sha256") == Some(marker.previous);
    var started := ExecIf(p, inPlace, Other, w);
    var (checked, up) :=
      if inPlace && started.status == Running && version.Some? then Health(started, version.value, w) else (started, false);
    var unlinked := ExecIf(checked, up, UnlinkMarker, w);
    if unlinked.status != Crashed {
      RestoredMeansHealthy(Caught(unlinked), w);
    }
  }

  /**
   * What a recovery answers, whatever raises and wherever the power fails. Success means that the release the marker
   * names as target was in place and healthy, a roll back that the environment left in place was checked last and
   * found healthy; in both cases the marker is gone. A refused recovery keeps the marker.
   */
  lemma RecoveryAnswers(fs: Fs, w: Outside)
    ensures var (q, rec) := Recover(Start(fs), w);
            && (rec == NothingToRecover <==> fs.marker == None)
            && (rec == NothingToRecover ==> q == Start(fs))
            && (rec == Succeeded ==>
                  && q.fs.marker == None && InstalledField(fs, "sha256") == Some(fs.marker.value.target)
                  && CheckedHealthy(fs, Recorded(fs), 0, w) && q.fs.venv == fs.venv && q.fs.version == fs.version)
            && (rec == RolledBack ==> q.fs.marker == None && CheckedHealthy(q.fs, Recorded(q.fs), q.calls - 2, w))
            && (rec == Refused ==> q.fs.marker == fs.marker)
            && (rec == PowerLost <==> q.status == Crashed)
  {
    hide V.Field, Complete, RecoverOriginal;
    if fs.marker.Some? {
      var marker := fs.marker.value;
      var version := InstalledField(fs, "version");
      var (checked, up) :=
        if InstalledField(fs, "sha256") == Some(marker.target) && version.Some? then Health(Start(fs), version.value, w)
        else (Start(fs), false);
      if up {
        CompleteAnswers(checked, w);
      }
      var completed := if up then Complete(checked, w) else checked;
      if completed.status != Crashed && !(up && completed.status == Running) {
        OriginalAnswers(Caught(completed), marker, w);
      }
    }
  }
}
