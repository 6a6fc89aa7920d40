/** The lifecycle service as it runs: slot rows are replaced and updated in place. */
module LifecycleService {
  import opened Prelude
  import opened Lifecycle

  class AgentLifecycleService {
    var operations: map<nat, Operation>
    var audits: seq<Audit>
    var deleted: seq<Operation>
    var nextId: nat

    constructor ()
      ensures Slots() == Empty()
    {
      operations, audits, deleted, nextId := map[], [], [], 0;
    }

    function Slots(): Slots
      reads this
    {
      Lifecycle.Slots(operations, audits, deleted, nextId)
    }

    method Delete(device: nat)
      requires device in operations
      modifies this
      ensures operations == old(operations) - {device} && deleted == old(deleted) + [old(operations)[device]]
      ensures audits == old(audits) && nextId == old(nextId)
    {
      deleted := deleted + [operations[device]];
      operations := operations - {device};
    }

    method Add(device: nat, operation: Operation, kind: AuditKind)
      modifies this
      ensures operations == old(operations)[device := operation]
      ensures audits == old(audits) + [Audit(operation.id, device, kind)]
      ensures deleted == old(deleted) && nextId == old(nextId) + 1
    {
      operations := operations[device := operation];
      audits := audits + [Audit(operation.id, device, kind)];
      nextId := nextId + 1;
    }

    method RequestUpgrade(device: nat, release: Release, installed: Option<string>, now: Time)
      returns (answer: Result<Operation, Error>)
      modifies this
      ensures (Slots(), answer) == Lifecycle.RequestUpgrade(old(Slots()), device, release, installed, now)
    {
      var target := ParseVersion(Some(release.version));
      if target.None? {
        return Err(Invalid("Agent release is unavailable."));
      }
      var current := ParseVersion(installed);
      if device in operations {
        var prior := operations[device];
        if !Terminal(prior.state) {
          if prior.action == Upgrade && prior.targetWheel == release.wheel {
            return Ok(prior);
          }
          return Err(Conflict("An agent lifecycle operation is active."));
        }
        if prior.state == Succeeded && prior.targetWheel == release.wheel {
          return Ok(prior);
        }
      }
      if current.None? || Older(current.value, FIRST_CAPABLE) || !Older(current.value, target.value) {
        return Err(Conflict("Agent upgrade is not available."));
      }
      var operation := Operation(nextId, device, Upgrade, Requested, release.version, release.wheel, Some(release.archive),
                                 installed, None, false, None, None, now, now, None);
      if device in operations {
        Delete(device);
      }
      Add(device, operation, UpgradeRequested);
      assert operations == old(operations)[device := operation];
      answer := Ok(operation);
    }

    method RequestRollback(device: nat, installed: Option<string>, now: Time) returns (answer: Result<Operation, Error>)
      modifies this
      ensures (Slots(), answer) == Lifecycle.RequestRollback(old(Slots()), device, installed, now)
    {
      if device !in operations || operations[device].state != Succeeded || !operations[device].rollbackAvailable {
        return Err(Conflict("No known-good previous release is available."));
      }
      var prior := operations[device];
      if prior.previousVersion.None? || prior.previousWheel.None? {
        return Err(Conflict("No known-good previous release is available."));
      }
      if installed != Some(prior.targetVersion) {
        return Err(Conflict("Await a heartbeat from the installed release before rollback."));
      }
      var operation := Operation(nextId, device, Rollback, Requested, prior.previousVersion.value, prior.previousWheel.value,
                                 None, Some(prior.targetVersion), Some(prior.targetWheel), false, None, None, now, now, None);
      Delete(device);
      Add(device, operation, RollbackRequested);
      assert operations == old(operations)[device := operation];
      answer := Ok(operation);
    }

    method DeviceReport(device: nat, id: nat, m: Message, now: Time) returns (answer: Result<Operation, Error>)
      modifies this
      ensures (Slots(), answer) == Report(old(Slots()), device, id, m, now)
    {
      var malformed := Malformed(m);
      if malformed.Some? {
        return Err(malformed.value);
      }
      if device !in operations || operations[device].id != id {
        return Err(NotFound);
      }
      var operation := operations[device];
      if operation.state == m.state {
        if Terminal(m.state) && !SameResult(operation, m) {
          return Err(Conflict("Agent lifecycle result differs from the recorded result."));
        }
        return Ok(operation);
      }
      var objection := Objection(operation, m);
      if objection.Some? {
        return Err(objection.value);
      }
      operation := operation.(state := m.state, updatedAt := now);
      operation := operation.(category := if Terminal(m.state) then m.category else None);
      operation := operation.(detail := if Terminal(m.state) then m.detail else None);
      if Terminal(m.state) {
        operation := operation.(completedAt := Some(now));
      }
      if m.state.Succeeded? && m.previousWheel.Some? {
        operation := operation.(previousWheel := m.previousWheel, rollbackAvailable := m.rollbackAvailable);
      }
      operations := operations[device := operation];
      if Terminal(m.state) {
        audits := audits + [Audit(id, device, Ended(m.state))];
      }
      answer := Ok(operation);
    }
  }
}
