/** The final results the updater reports, and what the server makes of them. */
module LifecycleReports {
  import opened Prelude
  import L = Lifecycle
  import U = Updater
  import V = VersionRecord

  /** What one upgrade finds on the device, the texts of its version records among it, and in the release it downloads. */
  datatype UpgradeRun = UpgradeRun(
    installed: string, previous: Option<string>, previousTree: bool, archiveMatches: bool, bundleVerifies: bool, manifestMatches: bool,
    installerWorks: bool, oldServiceHealthy: bool)

  /** What the recovery at the start of an invocation found (`None` is "none" or "retry"). */
  datatype Recovered = Succeeded | RolledBack | RollbackFailed

  /** Where a final result comes from; `installed` is the version record when the operation was fetched. */
  datatype Origin =
    | Upgraded(run: UpgradeRun)
    | RolledBackBy(outcome: U.Outcome)
    | RecoveredTo(recovered: Recovered, installed: string, previousTree: bool)

  function Failure(state: L.State, category: L.Category, detail: L.Detail): L.Message {
    L.Message(state, Some(category), Some(detail), None, false)
  }

  function Success(digest: Option<string>, available: bool): L.Message {
    L.Message(L.Succeeded, None, None, digest, available)
  }

  const ROLLED_BACK: L.Message := L.Message(L.RolledBack, None, None, None, false)

  function DigestIn(record: string): Option<string> {
    V.Field(record, "sha256")
  }

  predicate AlreadyInstalled(o: L.Operation, run: UpgradeRun) {
    V.Field(run.installed, "version") == Some(o.targetVersion) && DigestIn(run.installed) == Some(o.targetWheel)
  }

  function PreviousDigest(run: UpgradeRun): Option<string> {
    if run.previous.Some? then DigestIn(run.previous.value) else None
  }

  /** The final of an upgrade; one that raises on a record it cannot read leaves none. */
  function AfterUpgrade(o: L.Operation, run: UpgradeRun): Option<L.Message> {
    if AlreadyInstalled(o, run) then
      if run.previous.Some? && !V.Parses(run.previous.value) then None
      else Some(Success(PreviousDigest(run), PreviousDigest(run).Some? && run.previousTree))
    else if !run.archiveMatches then Some(Failure(L.Failed, L.VerificationFailed, L.ArchiveDigestMismatch))
    else if !run.bundleVerifies || !run.manifestMatches then
      Some(Failure(L.Failed, L.VerificationFailed, L.BundleVerificationFailed))
    else if run.installerWorks then Some(Success(DigestIn(run.installed), true))
    else if V.Field(run.installed, "version").None? then None
    else if run.oldServiceHealthy then Some(Failure(L.RolledBack, L.InstallationFailed, L.InstallerFailed))
    else Some(Failure(L.RollbackFailed, L.RollbackFailure, L.PreviousServiceUnhealthy))
  }

  function CategoryNamed(name: string): Option<L.Category> {
    if name == "verification_failed" then Some(L.VerificationFailed)
    else if name == "installation_failed" then Some(L.InstallationFailed)
    else if name == "service_start_failed" then Some(L.ServiceStartFailed)
    else if name == "health_check_failed" then Some(L.HealthCheckFailed)
    else if name == "rollback_failed" then Some(L.RollbackFailure)
    else None
  }

  function DetailNamed(name: string): Option<L.Detail> {
    if name == "archive_digest_mismatch" then Some(L.ArchiveDigestMismatch)
    else if name == "bundle_verification_failed" then Some(L.BundleVerificationFailed)
    else if name == "previous_release_mismatch" then Some(L.PreviousReleaseMismatch)
    else if name == "installer_failed" then Some(L.InstallerFailed)
    else if name == "interrupted_switch" then Some(L.InterruptedSwitch)
    else if name == "rollback_target_unhealthy" then Some(L.RollbackTargetUnhealthy)
    else if name == "previous_service_unhealthy" then Some(L.PreviousServiceUnhealthy)
    else None
  }

  /** The final of a rollback; a run that raised or lost power leaves none. */
  function AfterRollback(outcome: U.Outcome): Option<L.Message> {
    match outcome
    case OperatorRolledBack => Some(ROLLED_BACK)
    case Failed(category, detail) =>
      Some(L.Message(L.Failed, CategoryNamed(category), DetailNamed(detail), None, false))
    case RollbackFailed => Some(Failure(L.RollbackFailed, L.RollbackFailure, L.PreviousServiceUnhealthy))
    case Aborted => None
    case Cut => None
  }

  function AfterRecovery(action: L.Action, origin: Origin): L.Message
    requires origin.RecoveredTo?
  {
    match origin.recovered
    case Succeeded =>
      if action == L.Upgrade then Success(DigestIn(origin.installed), origin.previousTree) else ROLLED_BACK
    case RolledBack =>
      if action == L.Upgrade then Failure(L.RolledBack, L.InstallationFailed, L.InterruptedSwitch)
      else Failure(L.Failed, L.HealthCheckFailed, L.RollbackTargetUnhealthy)
    case RollbackFailed => Failure(L.RollbackFailed, L.RollbackFailure, L.PreviousServiceUnhealthy)
  }

  /** The final result for operation `o`, if its origin yields one. */
  function Final(o: L.Operation, origin: Origin): Option<L.Message> {
    match origin
    case Upgraded(run) => if o.action == L.Upgrade then AfterUpgrade(o, run) else None
    case RolledBackBy(outcome) => if o.action == L.Rollback then AfterRollback(outcome) else None
    case RecoveredTo(_, _, _) => Some(AfterRecovery(o.action, origin))
  }

  /** An origin that can occur: the outcome of a rollback is one that the rollback code returns. */
  ghost predicate Occurs(origin: Origin) {
    origin.RolledBackBy? ==>
      exists p: U.Proc, op: U.Operation, w: U.Outside :: origin.outcome == U.Rollback(p, op, w).1
  }

  /** A digest the server takes, and one there is if a rollback is announced. */
  predicate Digested(f: L.Message) {
    && (f.previousWheel.Some? ==> L.HexDigest(f.previousWheel.value))
    && (f.rollbackAvailable ==> f.previousWheel.Some?)
  }

  // ----- what each final says -----

  /** How the categories and details are written. */
  function CategoryText(category: L.Category): string {
    match category
    case VerificationFailed => "verification_failed"
    case InstallationFailed => "installation_failed"
    case ServiceStartFailed => "service_start_failed"
    case HealthCheckFailed => "health_check_failed"
    case RollbackFailure => "rollback_failed"
  }

  function DetailText(detail: L.Detail): string {
    match detail
    case ArchiveDigestMismatch => "archive_digest_mismatch"
    case BundleVerificationFailed => "bundle_verification_failed"
    case PreviousReleaseMismatch => "previous_release_mismatch"
    case InstallerFailed => "installer_failed"
    case InterruptedSwitch => "interrupted_switch"
    case RollbackTargetUnhealthy => "rollback_target_unhealthy"
    case PreviousServiceUnhealthy => "previous_service_unhealthy"
  }

  lemma WrittenCategoryIsRead(category: L.Category)
    ensures CategoryNamed(CategoryText(category)) == Some(category)
  {
  }

  lemma ReadCategoryIsWritten(name: string)
    ensures CategoryNamed(name).Some? ==> CategoryText(CategoryNamed(name).value) == name
  {
  }

  lemma WrittenDetailIsRead(detail: L.Detail)
    ensures DetailNamed(DetailText(detail)) == Some(detail)
  {
  }

  lemma ReadDetailIsWritten(name: string)
    ensures DetailNamed(name).Some? ==> DetailText(DetailNamed(name).value) == name
  {
  }

  /** A name is read as the one category, and the one detail, that is written so. */
  lemma NamesAreRead(name: string, category: L.Category, detail: L.Detail)
    ensures CategoryNamed(name) == Some(category) <==> name == CategoryText(category)
    ensures DetailNamed(name) == Some(detail) <==> name == DetailText(detail)
  {
    WrittenCategoryIsRead(category);
    ReadCategoryIsWritten(name);
    WrittenDetailIsRead(detail);
    ReadDetailIsWritten(name);
    hide *;
  }

  /**
   * The final of an upgrade. With the target in place already it is a success that offers the previous release if its
   * record has a digest and its tree is there. Otherwise the first thing that goes wrong decides: the archive, the bundle
   * or its manifest, or the installer, after which the old service is found healthy or not; and if nothing does, it is
   * a success that offers the release that was installed. There is none where a record cannot be read.
   */
  lemma UpgradeFinalSays(o: L.Operation, run: UpgradeRun)
    requires o.action == L.Upgrade
    ensures var f := Final(o, Upgraded(run));
      var inPlace := V.Field(run.installed, "version") == Some(o.targetVersion)
                     && V.Field(run.installed, "sha256") == Some(o.targetWheel);
      var verified := run.archiveMatches && run.bundleVerifies && run.manifestMatches;
      && (f == None <==>
            || (inPlace && run.previous != None && !V.Parses(run.previous.value))
            || (!inPlace && verified && !run.installerWorks && V.Field(run.installed, "version") == None))
      && (f != None ==>
            var m := f.value;
            && (m.state == L.Succeeded <==> inPlace || (verified && run.installerWorks))
            && (m.state == L.Failed <==> !inPlace && !verified)
            && (m.state == L.RolledBack <==> !inPlace && verified && !run.installerWorks && run.oldServiceHealthy)
            && (m.state == L.RollbackFailed <==> !inPlace && verified && !run.installerWorks && !run.oldServiceHealthy)
            && (m.state == L.Failed ==>
                  m.detail == Some(if !run.archiveMatches then L.ArchiveDigestMismatch else L.BundleVerificationFailed))
            && (m.state == L.RolledBack ==> m.detail == Some(L.InstallerFailed))
            && (m.state == L.RollbackFailed ==> m.detail == Some(L.PreviousServiceUnhealthy))
            && (m.state != L.Succeeded ==> m.category == Some(L.CategoryOf(m.detail.value)))
            && (m.state == L.Succeeded ==>
                  && m.category == None && m.detail == None
                  && m.previousWheel == (if !inPlace then V.Field(run.installed, "sha256")
                                         else if run.previous == None then None else V.Field(run.previous.value, "sha256"))
                  && (m.rollbackAvailable <==> !inPlace || (m.previousWheel != None && run.previousTree))))
  {
    hide V.Field, V.Parses;
  }

  // ----- every final is well formed -----

  lemma RollbackOutcomes(p: U.Proc, op: U.Operation, w: U.Outside)
    ensures var out := U.Rollback(p, op, w).1;
            out.Failed? ==>
              && CategoryNamed(out.category).Some? && DetailNamed(out.detail).Some?
              && L.CategoryOf(DetailNamed(out.detail).value) == CategoryNamed(out.category).value
  {
    KnownFailures();
    hide U.Switch, U.Keep, U.Restore, U.Health, U.Exec, CategoryNamed, DetailNamed, U.InstalledField;
  }

  /** The names of the failures a rollback reports. */
  lemma KnownFailures()
    ensures CategoryNamed("verification_failed") == Some(L.VerificationFailed)
    ensures CategoryNamed("installation_failed") == Some(L.InstallationFailed)
    ensures CategoryNamed("health_check_failed") == Some(L.HealthCheckFailed)
    ensures DetailNamed("previous_release_mismatch") == Some(L.PreviousReleaseMismatch)
    ensures DetailNamed("interrupted_switch") == Some(L.InterruptedSwitch)
    ensures DetailNamed("rollback_target_unhealthy") == Some(L.RollbackTargetUnhealthy)
  {
  }

  /** Why `f` is a terminal message that any active operation like `o` takes. */
  predicate Takes(o: L.Operation, f: L.Message) {
    && L.Terminal(f.state)
    && (L.Malformed(f).None? <==> Digested(f))
    && (!L.Terminal(o.state) ==> L.Objection(o, f).None?)
  }

  lemma SuccessIsTaken(o: L.Operation, digest: Option<string>, available: bool)
    requires o.action == L.Upgrade
    ensures Takes(o, Success(digest, available))
  {
    hide L.HexDigest;
  }

  lemma FailureIsTaken(o: L.Operation, state: L.State, category: L.Category, detail: L.Detail)
    requires L.CategoryOf(detail) == category
    requires state.Failed? || state.RollbackFailed? || (state.RolledBack? && o.action == L.Upgrade)
    ensures Takes(o, Failure(state, category, detail))
  {
    hide L.HexDigest;
  }

  lemma RolledBackIsTaken(o: L.Operation)
    requires o.action == L.Rollback
    ensures Takes(o, ROLLED_BACK)
  {
    hide L.HexDigest;
  }

  lemma UpgradeFinals(o: L.Operation, run: UpgradeRun)
    requires o.action == L.Upgrade
    ensures AfterUpgrade(o, run).Some? ==> Takes(o, AfterUpgrade(o, run).value)
  {
    hide Takes, Success, Failure, V.Field, V.Parses, AlreadyInstalled;
    SuccessIsTaken(o, PreviousDigest(run), PreviousDigest(run).Some? && run.previousTree);
    SuccessIsTaken(o, DigestIn(run.installed), true);
    FailureIsTaken(o, L.Failed, L.VerificationFailed, L.ArchiveDigestMismatch);
    FailureIsTaken(o, L.Failed, L.VerificationFailed, L.BundleVerificationFailed);
    FailureIsTaken(o, L.RolledBack, L.InstallationFailed, L.InstallerFailed);
    FailureIsTaken(o, L.RollbackFailed, L.RollbackFailure, L.PreviousServiceUnhealthy);
  }

  lemma RollbackFinals(o: L.Operation, p: U.Proc, op: U.Operation, w: U.Outside)
    requires o.action == L.Rollback
    ensures AfterRollback(U.Rollback(p, op, w).1).Some? ==> Takes(o, AfterRollback(U.Rollback(p, op, w).1).value)
  {
    RollbackOutcomes(p, op, w);
    var out := U.Rollback(p, op, w).1;
    hide Takes, U.Rollback, CategoryNamed, DetailNamed;
    match out {
      case OperatorRolledBack => RolledBackIsTaken(o);
      case Failed(category, detail) =>
        FailureIsTaken(o, L.Failed, CategoryNamed(category).value, DetailNamed(detail).value);
      case RollbackFailed => FailureIsTaken(o, L.RollbackFailed, L.RollbackFailure, L.PreviousServiceUnhealthy);
      case _ =>
    }
  }

  lemma RecoveryFinals(o: L.Operation, origin: Origin)
    requires origin.RecoveredTo?
    ensures Takes(o, AfterRecovery(o.action, origin))
  {
    hide Takes, Success, Failure;
    if o.action == L.Upgrade {
      SuccessIsTaken(o, DigestIn(origin.installed), origin.previousTree);
      FailureIsTaken(o, L.RolledBack, L.InstallationFailed, L.InterruptedSwitch);
    } else {
      RolledBackIsTaken(o);
      FailureIsTaken(o, L.Failed, L.HealthCheckFailed, L.RollbackTargetUnhealthy);
    }
    FailureIsTaken(o, L.RollbackFailed, L.RollbackFailure, L.PreviousServiceUnhealthy);
  }

  lemma FinalsAreTaken(o: L.Operation, origin: Origin)
    requires Occurs(origin) && Final(o, origin).Some?
    ensures Takes(o, Final(o, origin).value)
  {
    hide L.HexDigest, U.Rollback, Takes, AfterRollback, AfterUpgrade, AfterRecovery;
    match origin {
      case Upgraded(run) => UpgradeFinals(o, run);
      case RolledBackBy(outcome) =>
        var p: U.Proc, op: U.Operation, w: U.Outside :| outcome == U.Rollback(p, op, w).1;
        RollbackFinals(o, p, op, w);
      case RecoveredTo(_, _, _) => RecoveryFinals(o, origin);
    }
  }

  // ----- which version records make a final that is accepted -----

  /** A version record that names a digest the server takes. */
  predicate CarriesDigest(record: string) {
    DigestIn(record).Some? && L.HexDigest(DigestIn(record).value)
  }

  /** A version record that names no digest, or one that the server takes. */
  predicate NoBadDigest(record: string) {
    DigestIn(record).Some? ==> L.HexDigest(DigestIn(record).value)
  }

  /**
   * What the version records must carry for the final to be accepted. An upgrade that installs needs the digest of the
   * release it replaces. One that finds its target in place, or is found completed after a power loss, needs a good
   * digest only where there is one or where a previous environment is there. Everything else needs nothing.
   */
  predicate RecordsSuffice(o: L.Operation, origin: Origin) {
    match origin
    case Upgraded(run) =>
      if AlreadyInstalled(o, run) then (run.previous.Some? ==> NoBadDigest(run.previous.value))
      else run.archiveMatches && run.bundleVerifies && run.manifestMatches && run.installerWorks ==>
             CarriesDigest(run.installed)
    case RolledBackBy(_) => true
    case RecoveredTo(recovered, installed, previousTree) =>
      recovered == Succeeded && o.action == L.Upgrade ==>
        if previousTree then CarriesDigest(installed) else NoBadDigest(installed)
  }

  /** A final carries its digest exactly when the version records it was made from do. */
  lemma DigestedIffRecordsSuffice(o: L.Operation, origin: Origin)
    requires Final(o, origin).Some?
    ensures Digested(Final(o, origin).value) <==> RecordsSuffice(o, origin)
  {
    hide V.Field, V.Parses, L.HexDigest, CategoryNamed, DetailNamed;
  }

  /** The final of a rollback is accepted whatever the records carry. */
  lemma RollbackFinalsNeedNoDigest(o: L.Operation, origin: Origin)
    requires o.action == L.Rollback && Final(o, origin).Some?
    ensures RecordsSuffice(o, origin) && Digested(Final(o, origin).value)
  {
    hide V.Field, L.HexDigest;
    DigestedIffRecordsSuffice(o, origin);
  }

  /** The records the installer writes suffice for every final. */
  lemma WrittenRecordsSuffice(o: L.Operation, origin: Origin, installed: V.Identity, previous: V.Identity)
    requires V.WellFormed(installed) && L.HexDigest(installed.sha256)
    requires V.WellFormed(previous) && L.HexDigest(previous.sha256)
    requires origin.Upgraded? ==>
               && origin.run.installed == V.Render(installed)
               && (origin.run.previous.Some? ==> origin.run.previous.value == V.Render(previous))
    requires origin.RecoveredTo? ==> origin.installed == V.Render(installed)
    ensures RecordsSuffice(o, origin)
  {
    V.RenderedFields(installed);
    V.RenderedFields(previous);
    hide V.Field, V.Render, L.HexDigest;
  }

  /** An empty version record does not: an upgrade over it that succeeds, at once or found after a power loss, makes a
      final that announces a rollback without a digest. */
  lemma EmptyRecordMakesAnUndigestedFinal(o: L.Operation)
    requires o.action == L.Upgrade
    ensures var run := UpgradeRun("", None, false, true, true, true, true, true);
            && Final(o, Upgraded(run)) == Some(Success(None, true)) && !RecordsSuffice(o, Upgraded(run))
    ensures var recovered := RecoveredTo(Succeeded, "", true);
            Final(o, recovered) == Some(Success(None, true)) && !RecordsSuffice(o, recovered)
  {
    V.NoFields("sha256");
    V.NoFields("version");
    hide V.Field;
  }

  // ----- delivery -----

  /** Changes of a row that can lie between fetching an operation and reporting on it change no final. */
  lemma SameFinal(o: L.Operation, later: L.Operation, origin: Origin)
    requires L.Moves(o, later)
    ensures Final(later, origin) == Final(o, origin)
  {
    hide AfterRollback, AfterRecovery, V.Field, V.Parses;
  }

  lemma AdvanceRecordsTheFinal(o: L.Operation, f: L.Message, now: Time)
    requires L.Coherent(o) && !L.Terminal(o.state) && L.Terminal(f.state)
    requires L.Malformed(f).None? && L.Objection(o, f).None?
    ensures L.SameResult(L.Advance(o, f, now), f)
  {
    hide L.HexDigest;
  }

  /** In a slot that holds the active operation `o`, the report is accepted iff the final carries its digest. */
  lemma FinalIsAccepted(s: L.Slots, d: nat, f: L.Message, now: Time)
    requires L.Valid(s) && d in s.active && !L.Terminal(s.active[d].state) && Takes(s.active[d], f)
    ensures var (v, answer) := L.Report(s, d, s.active[d].id, f, now);
            && (answer.Ok? <==> Digested(f))
            && (answer.Err? ==> v == s)
            && (answer.Ok? ==> v.active == s.active[d := L.Advance(s.active[d], f, now)] && L.SameResult(v.active[d], f))
  {
    assert L.Coherent(s.active[d]);
    if L.Malformed(f).None? {
      AdvanceRecordsTheFinal(s.active[d], f, now);
    }
    hide L.HexDigest, L.Audited, L.Rollbacks, L.Objection, L.Malformed, L.Coherent, L.SameResult, Digested;
  }

  /**
   * Delivery, end to end. The updater fetches an active operation, works on it while anything at all happens at
   * the server, and reports its final as long as the slot still holds the operation and has no result. The report
   * is accepted iff the version records suffice; once it is, whatever happens next, every redelivery to the same
   * operation is accepted and changes nothing.
   */
  lemma FinalsAreDelivered(
    s: L.Slots, d: nat, origin: Origin, meanwhile: seq<L.Step>, now: Time, afterwards: seq<L.Step>, again: Time)
    requires L.Valid(s) && d in s.active && !L.Terminal(s.active[d].state)
    requires Occurs(origin) && Final(s.active[d], origin).Some?
    requires var v := L.Run(s, meanwhile);
             d in v.active && v.active[d].id == s.active[d].id && !L.Terminal(v.active[d].state)
    ensures var f := Final(s.active[d], origin).value;
            var id := s.active[d].id;
            var (reported, answer) := L.Report(L.Run(s, meanwhile), d, id, f, now);
            var last := L.Run(reported, afterwards);
            && (answer.Ok? <==> RecordsSuffice(s.active[d], origin))
            && (answer.Ok? && d in last.active && last.active[d].id == id ==>
                  && last.active[d] == reported.active[d] && last.active[d].state == f.state
                  && L.Report(last, d, id, f, again) == (last, Ok(last.active[d])))
  {
    var o := s.active[d];
    var v := L.Run(s, meanwhile);
    L.RunKeepsEverything(s, meanwhile);
    HeldRowMoved(s, v, d);
    SameFinal(o, v.active[d], origin);
    FinalsAreTaken(v.active[d], origin);
    var f := Final(o, origin).value;
    DigestedIffRecordsSuffice(o, origin);
    FinalIsAccepted(v, d, f, now);
    var (reported, answer) := L.Report(v, d, o.id, f, now);
    if answer.Ok? {
      L.ReportKeepsValid(v, d, o.id, f, now);
      L.RunKeepsEverything(reported, afterwards);
      Redelivered(reported, afterwards, d, f, again);
    }
  }

  /** A row still in its slot under the same id has moved forward. */
  lemma HeldRowMoved(s: L.Slots, v: L.Slots, d: nat)
    requires L.Valid(v) && d in s.active && d in v.active && v.active[d].id == s.active[d].id
    requires L.Survives(s.active[d], d, v)
    ensures L.Moves(s.active[d], v.active[d])
  {
    hide L.Audited, L.Rollbacks, L.Coherent;
  }

  lemma Redelivered(reported: L.Slots, afterwards: seq<L.Step>, d: nat, f: L.Message, again: Time)
    requires L.Valid(reported) && d in reported.active && L.Malformed(f).None?
    requires L.Terminal(f.state) && reported.active[d].state == f.state && L.SameResult(reported.active[d], f)
    ensures var last := L.Run(reported, afterwards);
            d in last.active && last.active[d].id == reported.active[d].id ==>
              && last.active[d] == reported.active[d]
              && L.Report(last, d, last.active[d].id, f, again) == (last, Ok(last.active[d]))
  {
    L.RunKeepsEverything(reported, afterwards);
    var last := L.Run(reported, afterwards);
    if d in last.active && last.active[d].id == reported.active[d].id {
      HeldRowMoved(reported, last, d);
    }
  }

  /** Where the version records do not suffice, every state the server can ever be in refuses the final: the updater
      keeps it forever. */
  lemma UndigestedIsNeverAccepted(s: L.Slots, d: nat, id: nat, o: L.Operation, origin: Origin, now: Time)
    requires Occurs(origin) && Final(o, origin).Some? && !RecordsSuffice(o, origin)
    ensures L.Report(s, d, id, Final(o, origin).value, now).1.Err?
    ensures L.Report(s, d, id, Final(o, origin).value, now).0 == s
  {
    FinalsAreTaken(o, origin);
    DigestedIffRecordsSuffice(o, origin);
    hide Final, RecordsSuffice, Digested, L.Malformed;
  }
}
