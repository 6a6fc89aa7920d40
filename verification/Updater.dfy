/** The device updater's rollback, restore and recovery (scripts/agent-updater.py:324-432, 524-588),
    one filesystem call at a time. Before every call the power may fail or the call may raise. */
module Updater {
  import opened Prelude
  import V = VersionRecord

  /** A Python environment, known by the agent version installed in it. */
  datatype Env = Env(version: string)

  datatype Slot = Venv | Candidate | Previous

  datatype RecordFile = Current | CandidateRecord | PreviousRecord

  /** The durable install marker of a rollback: the digests it switches to and from. */
  datatype Marker = Marker(target: string, previous: string)

  datatype Fs = Fs(
    venv: Option<Env>, candidate: Option<Env>, previous: Option<Env>,
    version: Option<string>, versionCandidate: Option<string>, versionPrevious: Option<string>,
    marker: Option<Marker>)
  {
    function At(slot: Slot): Option<Env> {
      match slot case Venv => venv case Candidate => candidate case Previous => previous
    }

    function Put(slot: Slot, env: Option<Env>): Fs {
      match slot
      case Venv => this.(venv := env)
      case Candidate => this.(candidate := env)
      case Previous => this.(previous := env)
    }

    function Text(file: RecordFile): Option<string> {
      match file
      case Current => version
      case CandidateRecord => versionCandidate
      case PreviousRecord => versionPrevious
    }

    function Write(file: RecordFile, text: Option<string>): Fs {
      match file
      case Current => this.(version := text)
      case CandidateRecord => this.(versionCandidate := text)
      case PreviousRecord => this.(versionPrevious := text)
    }
  }

  /** One call. `Other` is a call that touches neither environments nor version records: a
      systemctl command, or a copy of the unit file. */
  datatype Act =
    | WriteMarker(marker: Marker)
    | UnlinkMarker
    | CopyRecord(from: RecordFile, to: RecordFile)
    | RenameRecord(src: RecordFile, dst: RecordFile)
    | Rename(source: Slot, target: Slot)
    | RemoveTree(slot: Slot)
    | Other

  /** What a call does when it completes; `None` is an OSError. Renaming a directory onto an
      occupied slot fails, since an environment is never empty. */
  function Effect(fs: Fs, act: Act): Option<Fs> {
    match act
    case WriteMarker(m) => Some(fs.(marker := Some(m)))
    case UnlinkMarker => Some(fs.(marker := None))
    case CopyRecord(from, to) => if fs.Text(from).None? then None else Some(fs.Write(to, fs.Text(from)))
    case RenameRecord(src, dst) =>
      if fs.Text(src).None? then None else Some(fs.Write(dst, fs.Text(src)).Write(src, None))
    case Rename(source, target) =>
      if fs.At(source).None? || fs.At(target).Some? then None
      else Some(fs.Put(target, fs.At(source)).Put(source, None))
    case RemoveTree(slot) => Some(fs.Put(slot, None))
    case Other => Some(fs)
  }

  /** What an interrupted call leaves: a copy may have written any prefix, a removal may have
      destroyed the tree, and renames and marker writes are atomic. */
  function Interrupted(fs: Fs, act: Act, written: nat): Fs {
    match act
    case CopyRecord(from, to) =>
      if fs.Text(from).None? then fs
      else
        var text := fs.Text(from).value;
        fs.Write(to, Some(text[..Min(written, |text|)]))
    case RemoveTree(slot) => fs.Put(slot, None)
    case _ => fs
  }

  /** What happens at one call: it goes through, raises, or the power fails during it. */
  datatype Fate = Fine | Raise(written: nat) | Crash(cut: nat)

  /** The environment of one invocation: the fate of its n-th call, and whether the agent of a
      given version proves healthy when checked as the n-th call. */
  datatype Outside = Outside(fate: nat -> Fate, healthy: (nat, string) -> bool)

  datatype Status = Running | Raised | Crashed

  datatype Proc = Proc(fs: Fs, calls: nat, status: Status)

  function Start(fs: Fs): Proc {
    Proc(fs, 0, Running)
  }

  /** Performs one call, unless the process has already raised or lost power. */
  function Exec(p: Proc, act: Act, w: Outside): Proc {
    if p.status != Running then p
    else
      match w.fate(p.calls)
      case Crash(n) => Proc(Interrupted(p.fs, act, n), p.calls + 1, Crashed)
      case Raise(n) => Proc(Interrupted(p.fs, act, n), p.calls + 1, Raised)
      case Fine =>
        var after := Effect(p.fs, act);
        if after.None? then Proc(p.fs, p.calls + 1, Raised) else Proc(after.value, p.calls + 1, Running)
  }

  /** Whether the current environment has the expected version installed and runs healthily. */
  function Health(p: Proc, expected: string, w: Outside): (Proc, bool) {
    if p.status != Running then (p, false)
    else if w.fate(p.calls).Crash? then (Proc(p.fs, p.calls + 1, Crashed), false)
    else
      (Proc(p.fs, p.calls + 1, Running),
       w.fate(p.calls).Fine? && p.fs.venv == Some(Env(expected)) && w.healthy(p.calls, expected))
  }

  function ExecIf(p: Proc, condition: bool, act: Act, w: Outside): Proc {
    if condition then Exec(p, act, w) else p
  }

  /** Catching an exception; a lost machine stays lost. */
  function Caught(p: Proc): Proc {
    if p.status == Raised then p.(status := Running) else p
  }

  function InstalledField(fs: Fs, key: string): Option<string> {
    if fs.version.None? then None else V.Field(fs.version.value, key)
  }

  // ----- restore_candidate -----

  function Restore(p: Proc, w: Outside): (Proc, bool) {
    if p.fs.candidate.None? then (p, false)
    else
      var stopped := Exec(p, Other, w);
      var cleared :=
        if stopped.fs.marker.Some? then ExecIf(stopped, stopped.fs.venv.Some?, Rename(Venv, Previous), w)
        else ExecIf(stopped, stopped.fs.venv.Some?, RemoveTree(Venv), w);
      var switched := Exec(cleared, Rename(Candidate, Venv), w);
      var recorded := ExecIf(switched, switched.fs.versionCandidate.Some?, RenameRecord(CandidateRecord, Current), w);
      var restarted := Exec(Exec(recorded, Other, w), Other, w);
      var version := InstalledField(restarted.fs, "version");
      if restarted.status == Running && version.Some? then Health(restarted, version.value, w)
      else (Caught(restarted), false)
  }

  // ----- recover_install -----

  datatype Recovery = NothingToRecover | Succeeded | RolledBack | Refused | PowerLost

  /** Completing a switch whose target proved healthy. */
  function Complete(p: Proc, w: Outside): Proc {
    var removed := ExecIf(p, p.fs.previous.Some? && p.fs.candidate.Some?, RemoveTree(Previous), w);
    var kept := ExecIf(removed, removed.fs.candidate.Some?, Rename(Candidate, Previous), w);
    var recorded := ExecIf(kept, kept.fs.versionCandidate.Some?, RenameRecord(CandidateRecord, PreviousRecord), w);
    Exec(Exec(recorded, Other, w), UnlinkMarker, w)
  }

  function Recover(p: Proc, w: Outside): (Proc, Recovery) {
    if p.fs.marker.None? then (p, NothingToRecover)
    else
      var marker := p.fs.marker.value;
      var version := InstalledField(p.fs, "version");
      var (checked, targetUp) :=
        if InstalledField(p.fs, "sha256") == Some(marker.target) && version.Some? then Health(p, version.value, w)
        else (p, false);
      var completed := if targetUp then Complete(checked, w) else checked;
      if completed.status == Crashed then (completed, PowerLost)
      else if targetUp && completed.status == Running then (completed, Succeeded)
      else RecoverOriginal(Caught(completed), marker, w)
  }

  /** The target is not up: start the original in place, or put it back. */
  function RecoverOriginal(p: Proc, marker: Marker, w: Outside): (Proc, Recovery) {
    var version := InstalledField(p.fs, "version");
    var inPlace := InstalledField(p.fs, "sha256") == Some(marker.previous);
    var started := ExecIf(p, inPlace, Other, w);
    var (checked, originalUp) :=
      if inPlace && started.status == Running && version.Some? then Health(started, version.value, w)
      else (started, false);
    var unlinked := ExecIf(checked, originalUp, UnlinkMarker, w);
    if unlinked.status == Crashed then (unlinked, PowerLost)
    else if originalUp && unlinked.status == Running then (unlinked, RolledBack)
    else
      var (restored, restoredUp) := Restore(Caught(unlinked), w);
      var finished := ExecIf(restored, restoredUp, UnlinkMarker, w);
      if finished.status == Crashed then (finished, PowerLost)
      else if restoredUp && finished.status == Running then (finished, RolledBack)
      else (finished, Refused)
  }

  // ----- rollback -----

  /** The release the server pinned for the rollback. */
  datatype Operation = Operation(targetVersion: string, targetSha256: string)

  datatype Outcome =
    | OperatorRolledBack
    | Failed(category: string, detail: string)
    | RollbackFailed
    | Aborted
    | Cut

  /** The switch, up to and including the health check of the target. */
  function Switch(p: Proc, op: Operation, w: Outside): (Proc, bool) {
    var from := InstalledField(p.fs, "sha256");
    var marked := Exec(p, WriteMarker(Marker(op.targetSha256, if from.Some? then from.value else "")), w);
    var copied := Exec(Exec(marked, CopyRecord(Current, CandidateRecord), w), Other, w);
    var stopped := Exec(copied, Other, w);
    var parked := Exec(stopped, Rename(Venv, Candidate), w);
    var switched := Exec(parked, Rename(Previous, Venv), w);
    var recorded := Exec(switched, CopyRecord(PreviousRecord, Current), w);
    var restarted := Exec(Exec(recorded, Other, w), Other, w);
    if restarted.status == Running then Health(restarted, op.targetVersion, w) else (restarted, false)
  }

  /** Keeping the old environment and its record as the previous release. */
  function Keep(p: Proc, w: Outside): Proc {
    var kept := Exec(p, Rename(Candidate, Previous), w);
    var recorded := Exec(kept, RenameRecord(CandidateRecord, PreviousRecord), w);
    Exec(Exec(recorded, Other, w), UnlinkMarker, w)
  }

  function Rollback(p: Proc, op: Operation, w: Outside): (Proc, Outcome) {
    var fs := p.fs;
    if fs.previous.None? || fs.versionPrevious.None? then (p, Failed("verification_failed", "previous_release_mismatch"))
    else if !V.Parses(fs.versionPrevious.value) then (p, Aborted)
    else if V.Field(fs.versionPrevious.value, "sha256") != Some(op.targetSha256)
            || V.Field(fs.versionPrevious.value, "version") != Some(op.targetVersion) then
      (p, Failed("verification_failed", "previous_release_mismatch"))
    else if fs.candidate.Some? || fs.marker.Some? then (p, Failed("installation_failed", "interrupted_switch"))
    else if fs.version.None? then (p, Aborted)
    else
      var (switched, targetUp) := Switch(p, op, w);
      Settle(switched, targetUp, w)
  }

  /** The switch is kept if the target came up and nothing fails, and given up otherwise. */
  function Settle(switched: Proc, targetUp: bool, w: Outside): (Proc, Outcome) {
    var kept := if targetUp then Keep(switched, w) else switched;
    if kept.status == Crashed then (kept, Cut)
    else if targetUp && kept.status == Running then (kept, OperatorRolledBack)
    else Abandon(Caught(kept), w)
  }

  /** Giving the switch up after an error or an unhealthy target. */
  function Abandon(p: Proc, w: Outside): (Proc, Outcome) {
    var (restored, restoredUp) := Restore(p, w);
    if restored.status == Crashed then (restored, Cut)
    else if restoredUp then
      Unmark(restored, Failed("health_check_failed", "rollback_target_unhealthy"), w)
    else if restored.fs.version.None? then (restored, Aborted)
    else
      var version := InstalledField(restored.fs, "version");
      var (checked, up) := Health(restored, if version.Some? then version.value else "", w);
      if checked.status == Crashed then (checked, Cut)
      else if up then Unmark(checked, Failed("installation_failed", "interrupted_switch"), w)
      else (checked, RollbackFailed)
  }

  function Unmark(p: Proc, outcome: Outcome, w: Outside): (Proc, Outcome) {
    var unlinked := Exec(p, UnlinkMarker, w);
    (unlinked, if unlinked.status == Crashed then Cut else if unlinked.status == Raised then Aborted else outcome)
  }

  // ----- no environment is ever lost -----

  /** The three slots hold exactly the two environments `a` and `b`, one of them being empty. */
  predicate TwoSlots(fs: Fs, a: Env, b: Env) {
    || (fs.venv == None && Holds(fs.candidate, fs.previous, a, b))
    || (fs.candidate == None && Holds(fs.venv, fs.previous, a, b))
    || (fs.previous == None && Holds(fs.venv, fs.candidate, a, b))
  }

  predicate Holds(one: Option<Env>, other: Option<Env>, a: Env, b: Env) {
    (one == Some(a) && other == Some(b)) || (one == Some(b) && other == Some(a))
  }

  /** A call that removes no occupied slot keeps both environments, however it ends. */
  lemma ExecKeepsEnvironments(p: Proc, act: Act, w: Outside, a: Env, b: Env)
    requires TwoSlots(p.fs, a, b)
    requires act.RemoveTree? ==> p.fs.At(act.slot).None?
    ensures TwoSlots(Exec(p, act, w).fs, a, b)
  {
  }

  /** A call other than a marker call keeps the marker. */
  lemma ExecKeepsMarker(p: Proc, act: Act, w: Outside)
    requires !act.WriteMarker? && !act.UnlinkMarker?
    ensures Exec(p, act, w).fs.marker == p.fs.marker
  {
  }

  lemma RestoreKeepsEnvironments(p: Proc, w: Outside, a: Env, b: Env)
    requires TwoSlots(p.fs, a, b) && (p.fs.candidate.Some? ==> p.fs.marker.Some?)
    ensures TwoSlots(Restore(p, w).0.fs, a, b)
    ensures Restore(p, w).0.fs.marker == p.fs.marker
  {
    hide Exec, TwoSlots, InstalledField;
    if p.fs.candidate.Some? {
      var stopped := Exec(p, Other, w);
      var cleared := ExecIf(stopped, stopped.fs.venv.Some?, Rename(Venv, Previous), w);
      var switched := Exec(cleared, Rename(Candidate, Venv), w);
      var recorded := ExecIf(switched, switched.fs.versionCandidate.Some?, RenameRecord(CandidateRecord, Current), w);
      var copied := Exec(recorded, Other, w);
      Keeps(p, Other, w, a, b);
      Keeps(stopped, Rename(Venv, Previous), w, a, b);
      Keeps(cleared, Rename(Candidate, Venv), w, a, b);
      Keeps(switched, RenameRecord(CandidateRecord, Current), w, a, b);
      Keeps(recorded, Other, w, a, b);
      Keeps(copied, Other, w, a, b);
    }
  }

  /** A call that touches neither the marker nor a tree it would remove. */
  lemma Keeps(p: Proc, act: Act, w: Outside, a: Env, b: Env)
    requires TwoSlots(p.fs, a, b) && !act.RemoveTree? && !act.WriteMarker? && !act.UnlinkMarker?
    ensures TwoSlots(Exec(p, act, w).fs, a, b)
    ensures Exec(p, act, w).fs.marker == p.fs.marker
  {
    ExecKeepsEnvironments(p, act, w, a, b);
    ExecKeepsMarker(p, act, w);
  }

  lemma MarkerCallKeeps(p: Proc, act: Act, w: Outside, a: Env, b: Env)
    requires TwoSlots(p.fs, a, b) && (act.WriteMarker? || act.UnlinkMarker?)
    ensures TwoSlots(Exec(p, act, w).fs, a, b)
    ensures Exec(p, act, w).fs.candidate == p.fs.candidate
    ensures Exec(p, act, w).status == Raised ==> Exec(p, act, w).fs.marker == p.fs.marker
  {
  }

  /** With the current slot occupied, completing a switch has nothing to remove. */
  lemma CompleteKeepsEnvironments(p: Proc, w: Outside, a: Env, b: Env)
    requires TwoSlots(p.fs, a, b) && p.fs.venv.Some?
    ensures TwoSlots(Complete(p, w).fs, a, b)
    ensures Complete(p, w).status == Raised ==> Complete(p, w).fs.marker == p.fs.marker
  {
    assert !(p.fs.previous.Some? && p.fs.candidate.Some?);
    CompleteTailKeeps(p, w, a, b);
  }

  lemma CompleteTailKeeps(p: Proc, w: Outside, a: Env, b: Env)
    requires TwoSlots(p.fs, a, b) && !(p.fs.previous.Some? && p.fs.candidate.Some?)
    ensures TwoSlots(Complete(p, w).fs, a, b)
    ensures Complete(p, w).status == Raised ==> Complete(p, w).fs.marker == p.fs.marker
  {
    hide Exec, TwoSlots;
    var kept := ExecIf(p, p.fs.candidate.Some?, Rename(Candidate, Previous), w);
    var recorded := ExecIf(kept, kept.fs.versionCandidate.Some?, RenameRecord(CandidateRecord, PreviousRecord), w);
    var copied := Exec(recorded, Other, w);
    Keeps(p, Rename(Candidate, Previous), w, a, b);
    Keeps(kept, RenameRecord(CandidateRecord, PreviousRecord), w, a, b);
    Keeps(recorded, Other, w, a, b);
    MarkerCallKeeps(copied, UnlinkMarker, w, a, b);
  }

  lemma RecoverOriginalKeepsEnvironments(p: Proc, marker: Marker, w: Outside, a: Env, b: Env)
    requires TwoSlots(p.fs, a, b) && p.fs.marker.Some?
    ensures TwoSlots(RecoverOriginal(p, marker, w).0.fs, a, b)
  {
    hide Exec, TwoSlots, InstalledField, Restore;
    var version := InstalledField(p.fs, "version");
    var inPlace := InstalledField(p.fs, "sha256") == Some(marker.previous);
    var started := ExecIf(p, inPlace, Other, w);
    Keeps(p, Other, w, a, b);
    var (checked, originalUp) :=
      if inPlace && started.status == Running && version.Some? then Health(started, version.value, w)
      else (started, false);
    var unlinked := ExecIf(checked, originalUp, UnlinkMarker, w);
    MarkerCallKeeps(checked, UnlinkMarker, w, a, b);
    if unlinked.status != Crashed && !(originalUp && unlinked.status == Running) {
      RestoreKeepsEnvironments(Caught(unlinked), w, a, b);
      MarkerCallKeeps(Restore(Caught(unlinked), w).0, UnlinkMarker, w, a, b);
    }
  }

  /** Recovery keeps both environments, wherever it is cut short and whatever it finds healthy. */
  lemma RecoverKeepsEnvironments(fs: Fs, w: Outside, a: Env, b: Env)
    requires TwoSlots(fs, a, b)
    ensures TwoSlots(Recover(Start(fs), w).0.fs, a, b)
  {
    hide Exec, TwoSlots, InstalledField, Complete, RecoverOriginal;
    if fs.marker.Some? {
      var p := Start(fs);
      var marker := fs.marker.value;
      var version := InstalledField(fs, "version");
      var (checked, targetUp) :=
        if InstalledField(fs, "sha256") == Some(marker.target) && version.Some? then Health(p, version.value, w)
        else (p, false);
      if targetUp {
        CompleteKeepsEnvironments(checked, w, a, b);
      }
      var completed := if targetUp then Complete(checked, w) else checked;
      if completed.status == Raised || !targetUp {
        RecoverOriginalKeepsEnvironments(Caught(completed), marker, w, a, b);
      }
    }
  }

  lemma SwitchKeepsEnvironments(p: Proc, op: Operation, w: Outside, a: Env, b: Env)
    requires TwoSlots(p.fs, a, b) && p.status == Running && p.fs.candidate.None?
    ensures TwoSlots(Switch(p, op, w).0.fs, a, b)
    ensures Switch(p, op, w).0.fs.candidate.Some? ==> Switch(p, op, w).0.fs.marker.Some?
    ensures Switch(p, op, w).1 ==> Switch(p, op, w).0.fs.marker.Some?
  {
    hide Exec, TwoSlots, InstalledField;
    var from := InstalledField(p.fs, "sha256");
    var mark := WriteMarker(Marker(op.targetSha256, if from.Some? then from.value else ""));
    var marked := Exec(p, mark, w);
    MarkerCallKeeps(p, mark, w, a, b);
    MarkedUnlessStopped(p, mark, w);
    var copied := Exec(marked, CopyRecord(Current, CandidateRecord), w);
    var unit := Exec(copied, Other, w);
    var stopped := Exec(unit, Other, w);
    var parked := Exec(stopped, Rename(Venv, Candidate), w);
    var switched := Exec(parked, Rename(Previous, Venv), w);
    var recorded := Exec(switched, CopyRecord(PreviousRecord, Current), w);
    var reloaded := Exec(recorded, Other, w);
    Keeps(marked, CopyRecord(Current, CandidateRecord), w, a, b);
    Keeps(copied, Other, w, a, b);
    Keeps(unit, Other, w, a, b);
    Keeps(stopped, Rename(Venv, Candidate), w, a, b);
    Keeps(parked, Rename(Previous, Venv), w, a, b);
    Keeps(switched, CopyRecord(PreviousRecord, Current), w, a, b);
    Keeps(recorded, Other, w, a, b);
    Keeps(reloaded, Other, w, a, b);
    if marked.status != Running {
      StoppedStaysStopped(marked, w);
    }
  }

  lemma MarkedUnlessStopped(p: Proc, act: Act, w: Outside)
    requires p.status == Running && act.WriteMarker?
    ensures Exec(p, act, w).status == Running ==> Exec(p, act, w).fs.marker.Some?
  {
  }

  /** Once a process has raised or lost power, the remaining calls of a switch do nothing. */
  lemma StoppedStaysStopped(p: Proc, w: Outside)
    requires p.status != Running
    ensures forall act :: Exec(p, act, w) == p
  {
  }

  lemma KeepKeepsEnvironments(p: Proc, w: Outside, a: Env, b: Env)
    requires TwoSlots(p.fs, a, b) && p.fs.marker.Some?
    ensures TwoSlots(Keep(p, w).fs, a, b)
    ensures Keep(p, w).status == Raised ==> Keep(p, w).fs.marker.Some?
  {
    hide Exec, TwoSlots;
    var kept := Exec(p, Rename(Candidate, Previous), w);
    var recorded := Exec(kept, RenameRecord(CandidateRecord, PreviousRecord), w);
    var copied := Exec(recorded, Other, w);
    Keeps(p, Rename(Candidate, Previous), w, a, b);
    Keeps(kept, RenameRecord(CandidateRecord, PreviousRecord), w, a, b);
    Keeps(recorded, Other, w, a, b);
    MarkerCallKeeps(copied, UnlinkMarker, w, a, b);
  }

  lemma AbandonKeepsEnvironments(p: Proc, w: Outside, a: Env, b: Env)
    requires TwoSlots(p.fs, a, b) && (p.fs.candidate.Some? ==> p.fs.marker.Some?)
    ensures TwoSlots(Abandon(p, w).0.fs, a, b)
  {
    hide Exec, TwoSlots, InstalledField, Restore;
    var (restored, restoredUp) := Restore(p, w);
    RestoreKeepsEnvironments(p, w, a, b);
    MarkerCallKeeps(restored, UnlinkMarker, w, a, b);
    var version := InstalledField(restored.fs, "version");
    var (checked, up) := Health(restored, if version.Some? then version.value else "", w);
    MarkerCallKeeps(checked, UnlinkMarker, w, a, b);
  }

  /** A rollback keeps both environments, wherever it is cut short or raises. */
  lemma RollbackKeepsEnvironments(fs: Fs, op: Operation, w: Outside, a: Env, b: Env)
    requires TwoSlots(fs, a, b)
    ensures TwoSlots(Rollback(Start(fs), op, w).0.fs, a, b)
  {
    hide Exec, TwoSlots, InstalledField, Switch, Keep, Abandon;
    var p := Start(fs);
    if fs.candidate.None? {
      SwitchKeepsEnvironments(p, op, w, a, b);
      var (switched, targetUp) := Switch(p, op, w);
      if targetUp {
        KeepKeepsEnvironments(switched, w, a, b);
      }
      var kept := if targetUp then Keep(switched, w) else switched;
      if kept.status == Raised || !targetUp {
        AbandonKeepsEnvironments(Caught(kept), w, a, b);
      }
    }
  }

  /** One invocation of the updater on this device. */
  datatype Invocation = RunRollback(op: Operation, outside: Outside) | RunRecovery(outside: Outside)

  function Invoke(fs: Fs, i: Invocation): Fs {
    match i
    case RunRollback(op, w) => Rollback(Start(fs), op, w).0.fs
    case RunRecovery(w) => Recover(Start(fs), w).0.fs
  }

  function History(fs: Fs, invocations: seq<Invocation>): Fs
    decreases |invocations|
  {
    if invocations == [] then fs else History(Invoke(fs, invocations[0]), invocations[1..])
  }

  /** Over any number of rollbacks and recoveries, each cut short or failing anywhere, exactly
      two slots are occupied and they hold the two environments the device started with. */
  lemma {:induction false} NoEnvironmentIsEverLost(fs: Fs, invocations: seq<Invocation>, a: Env, b: Env)
    requires TwoSlots(fs, a, b)
    ensures TwoSlots(History(fs, invocations), a, b)
    decreases |invocations|
  {
    hide Rollback, Recover, TwoSlots;
    if invocations != [] {
      match invocations[0] {
        case RunRollback(op, w) => RollbackKeepsEnvironments(fs, op, w, a, b);
        case RunRecovery(w) => RecoverKeepsEnvironments(fs, w, a, b);
      }
      NoEnvironmentIsEverLost(Invoke(fs, invocations[0]), invocations[1..], a, b);
    }
  }
}
