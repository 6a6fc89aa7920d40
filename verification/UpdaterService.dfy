/** The updater as it runs: the files of the device are changed in place, call by call. */
module UpdaterService {
  import opened Prelude
  import opened Updater
  import V = VersionRecord

  class AgentUpdater {
    var venv: Option<Env>
    var candidate: Option<Env>
    var previous: Option<Env>
    var version: Option<string>
    var versionCandidate: Option<string>
    var versionPrevious: Option<string>
    var marker: Option<Marker>
    var calls: nat
    var status: Status

    /** A fresh invocation on the files a device holds. */
    constructor (fs: Fs)
      ensures State() == Start(fs)
    {
      venv, candidate, previous := fs.venv, fs.candidate, fs.previous;
      version, versionCandidate, versionPrevious := fs.version, fs.versionCandidate, fs.versionPrevious;
      marker, calls, status := fs.marker, 0, Running;
    }

    function Files(): Fs
      reads this
    {
      Fs(venv, candidate, previous, version, versionCandidate, versionPrevious, marker)
    }

    function State(): Proc
      reads this
    {
      Proc(Files(), calls, status)
    }

    method PutSlot(slot: Slot, env: Option<Env>)
      modifies this
      ensures State() == old(State()).(fs := old(Files()).Put(slot, env))
    {
      match slot {
        case Venv => venv := env;
        case Candidate => candidate := env;
        case Previous => previous := env;
      }
    }

    method WriteRecord(file: RecordFile, text: Option<string>)
      modifies this
      ensures State() == old(State()).(fs := old(Files()).Write(file, text))
    {
      match file {
        case Current => version := text;
        case CandidateRecord => versionCandidate := text;
        case PreviousRecord => versionPrevious := text;
      }
    }

    /** Performs one completed call on the files; false is an OSError. */
    method Perform(act: Act) returns (ok: bool)
      modifies this
      ensures calls == old(calls) && status == old(status)
      ensures ok == Effect(old(Files()), act).Some?
      ensures Files() == if ok then Effect(old(Files()), act).value else old(Files())
    {
      ok := true;
      match act {
        case WriteMarker(m) => marker := Some(m);
        case UnlinkMarker => marker := None;
        case CopyRecord(from, to) =>
          if Files().Text(from).None? {
            return false;
          }
          WriteRecord(to, Files().Text(from));
        case RenameRecord(src, dst) =>
          if Files().Text(src).None? {
            return false;
          }
          WriteRecord(dst, Files().Text(src));
          WriteRecord(src, None);
        case Rename(source, target) =>
          if Files().At(source).None? || Files().At(target).Some? {
            return false;
          }
          PutSlot(target, Files().At(source));
          PutSlot(source, None);
        case RemoveTree(slot) => PutSlot(slot, None);
        case Other =>
      }
    }

    /** Starts one call that never completes. */
    method Break(act: Act, written: nat)
      modifies this
      ensures State() == old(State()).(fs := Interrupted(old(Files()), act, written))
    {
      match act {
        case CopyRecord(from, to) =>
          if Files().Text(from).Some? {
            var text := Files().Text(from).value;
            WriteRecord(to, Some(text[..Min(written, |text|)]));
          }
        case RemoveTree(slot) => PutSlot(slot, None);
        case _ =>
      }
    }

    method Call(act: Act, w: Outside)
      modifies this
      ensures State() == Exec(old(State()), act, w)
    {
      if status != Running {
        return;
      }
      var fate := w.fate(calls);
      calls := calls + 1;
      match fate {
        case Fine =>
          var ok := Perform(act);
          if !ok {
            status := Raised;
          }
        case Raise(n) =>
          Break(act, n);
          status := Raised;
        case Crash(n) =>
          Break(act, n);
          status := Crashed;
      }
    }

    method LocalHealth(expected: string, w: Outside) returns (healthy: bool)
      modifies this
      ensures (State(), healthy) == Health(old(State()), expected, w)
    {
      if status != Running {
        return false;
      }
      var n := calls;
      calls := calls + 1;
      if w.fate(n).Crash? {
        status := Crashed;
        return false;
      }
      return w.fate(n).Fine? && venv == Some(Env(expected)) && w.healthy(n, expected);
    }

    method Catch()
      modifies this
      ensures State() == Caught(old(State()))
    {
      if status == Raised {
        status := Running;
      }
    }

    method RestoreCandidate(w: Outside) returns (up: bool)
      modifies this
      ensures (State(), up) == Restore(old(State()), w)
    {
      if candidate.None? {
        return false;
      }
      Call(Other, w);
      if marker.Some? {
        if venv.Some? {
          Call(Rename(Venv, Previous), w);
        }
      } else if venv.Some? {
        Call(RemoveTree(Venv), w);
      }
      Call(Rename(Candidate, Venv), w);
      if versionCandidate.Some? {
        Call(RenameRecord(CandidateRecord, Current), w);
      }
      Call(Other, w);
      Call(Other, w);
      var installed := InstalledField(Files(), "version");
      if status == Running && installed.Some? {
        up := LocalHealth(installed.value, w);
      } else {
        Catch();
        up := false;
      }
    }

    method CompleteSwitch(w: Outside)
      modifies this
      ensures State() == Complete(old(State()), w)
    {
      if previous.Some? && candidate.Some? {
        Call(RemoveTree(Previous), w);
      }
      if candidate.Some? {
        Call(Rename(Candidate, Previous), w);
      }
      if versionCandidate.Some? {
        Call(RenameRecord(CandidateRecord, PreviousRecord), w);
      }
      Call(Other, w);
      Call(UnlinkMarker, w);
    }

    method RecoverInstall(w: Outside) returns (outcome: Recovery)
      modifies this
      ensures (State(), outcome) == Recover(old(State()), w)
    {
      if marker.None? {
        return NothingToRecover;
      }
      var record := marker.value;
      var installed := InstalledField(Files(), "version");
      var up := false;
      if InstalledField(Files(), "sha256") == Some(record.target) && installed.Some? {
        up := LocalHealth(installed.value, w);
      }
      if up {
        CompleteSwitch(w);
      }
      if status == Crashed {
        return PowerLost;
      }
      if up && status == Running {
        return Succeeded;
      }
      Catch();
      outcome := BringBackOriginal(record, w);
    }

    method BringBackOriginal(record: Marker, w: Outside) returns (outcome: Recovery)
      modifies this
      ensures (State(), outcome) == RecoverOriginal(old(State()), record, w)
    {
      var installed := InstalledField(Files(), "version");
      var inPlace := InstalledField(Files(), "sha256") == Some(record.previous);
      var up := false;
      if inPlace {
        Call(Other, w);
        if status == Running && installed.Some? {
          up := LocalHealth(installed.value, w);
        }
      }
      if up {
        Call(UnlinkMarker, w);
      }
      if status == Crashed {
        return PowerLost;
      }
      if up && status == Running {
        return RolledBack;
      }
      Catch();
      var restored := RestoreCandidate(w);
      if restored {
        Call(UnlinkMarker, w);
      }
      if status == Crashed {
        return PowerLost;
      }
      return if restored && status == Running then RolledBack else Refused;
    }

    method SwitchTo(op: Operation, w: Outside) returns (up: bool)
      modifies this
      ensures (State(), up) == Switch(old(State()), op, w)
    {
      var from := InstalledField(Files(), "sha256");
      Call(WriteMarker(Marker(op.targetSha256, if from.Some? then from.value else "")), w);
      Call(CopyRecord(Current, CandidateRecord), w);
      Call(Other, w);
      Call(Other, w);
      Call(Rename(Venv, Candidate), w);
      Call(Rename(Previous, Venv), w);
      Call(CopyRecord(PreviousRecord, Current), w);
      Call(Other, w);
      Call(Other, w);
      up := false;
      if status == Running {
        up := LocalHealth(op.targetVersion, w);
      }
    }

    method KeepOld(w: Outside)
      modifies this
      ensures State() == Keep(old(State()), w)
    {
      Call(Rename(Candidate, Previous), w);
      Call(RenameRecord(CandidateRecord, PreviousRecord), w);
      Call(Other, w);
      Call(UnlinkMarker, w);
    }

    method RollbackTo(op: Operation, w: Outside) returns (outcome: Outcome)
      modifies this
      ensures (State(), outcome) == Rollback(old(State()), op, w)
    {
      if previous.None? || versionPrevious.None? {
        return Failed("verification_failed", "previous_release_mismatch");
      }
      if !V.Parses(versionPrevious.value) {
        return Aborted;
      }
      if V.Field(versionPrevious.value, "sha256") != Some(op.targetSha256)
         || V.Field(versionPrevious.value, "version") != Some(op.targetVersion) {
        return Failed("verification_failed", "previous_release_mismatch");
      }
      if candidate.Some? || marker.Some? {
        return Failed("installation_failed", "interrupted_switch");
      }
      if version.None? {
        return Aborted;
      }
      var up := SwitchTo(op, w);
      if up {
        KeepOld(w);
      }
      if status == Crashed {
        return Cut;
      }
      if up && status == Running {
        return OperatorRolledBack;
      }
      Catch();
      outcome := GiveUp(w);
    }

    method GiveUp(w: Outside) returns (outcome: Outcome)
      modifies this
      ensures (State(), outcome) == Abandon(old(State()), w)
    {
      var restored := RestoreCandidate(w);
      if status == Crashed {
        return Cut;
      }
      if restored {
        Call(UnlinkMarker, w);
        return if status == Crashed then Cut else if status == Raised then Aborted
               else Failed("health_check_failed", "rollback_target_unhealthy");
      }
      if version.None? {
        return Aborted;
      }
      var installed := InstalledField(Files(), "version");
      var up := LocalHealth(if installed.Some? then installed.value else "", w);
      if status == Crashed {
        return Cut;
      }
      if up {
        Call(UnlinkMarker, w);
        return if status == Crashed then Cut else if status == Raised then Aborted
               else Failed("installation_failed", "interrupted_switch");
      }
      return RollbackFailed;
    }
  }
}
