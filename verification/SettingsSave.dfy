/** Saving settings: the Compose file and the configuration are written one after the other,
    and given back if a later step fails, while somebody else may edit the Compose file. */
module SettingsSave {
  import opened Wrappers

  /** What the Compose file was when the mount was planned, and what it is to become. Its
      contents stand for its revision. */
  datatype Plan = Plan(original: string, content: string, changed: bool)

  /** What somebody else writes into the Compose file: before its revision is verified, and
      after that but before it is replaced, when it is written and when it is given back. */
  datatype Edits = Edits(
    beforeWrite: Option<string>, duringWrite: Option<string>, beforeRestore: Option<string>, duringRestore: Option<string>)

  datatype Faults = Faults(backup: bool, write: bool, persist: bool, recreate: bool, restoreConfig: bool, restoreCompose: bool)

  datatype Outcome =
    | Saved(mountChanged: bool, recreated: bool)
    | Refused
    | RolledBack(errors: nat, composeRestored: bool)

  function Edited(content: string, edit: Option<string>): string {
    if edit.Some? then edit.value else content
  }

  /** The mount is planned and confirmed, the file is still what was planned for when it is
      looked at, and writing it works. */
  predicate Applies(planned: Option<Plan>, confirmed: Option<string>, edits: Edits, faults: Faults) {
    && planned.Some? && confirmed == Some(planned.value.original)
    && Edited(planned.value.original, edits.beforeWrite) == planned.value.original
    && (planned.value.changed ==> !faults.backup && !faults.write)
  }

  /** A step after the Compose file fails. */
  predicate LaterStepFails(plan: Plan, applyMount: bool, faults: Faults) {
    faults.persist || (plan.changed && applyMount && faults.recreate)
  }

  /** The Compose file can be given back, or never was written. */
  predicate Restores(plan: Plan, edits: Edits, faults: Faults) {
    plan.changed ==> Edited(plan.content, edits.beforeRestore) == plan.content && !faults.restoreCompose
  }

  /** An edit falls between verifying the revision and replacing the file, when it is written. */
  predicate RacesWithWrite(plan: Plan, edits: Edits) {
    plan.changed && Edited(plan.original, edits.duringWrite) != plan.original
  }

  /** Or when it is given back. */
  predicate RacesWithRestore(plan: Plan, edits: Edits, faults: Faults) {
    plan.changed && Restores(plan, edits, faults) && Edited(plan.content, edits.duringRestore) != plan.content
  }

  /** What a refused write leaves: what somebody else wrote last, or else what was there. */
  function Untaken(plan: Plan, edits: Edits, faults: Faults): string {
    if Edited(plan.original, edits.beforeWrite) != plan.original then edits.beforeWrite.value
    else if plan.changed && !faults.backup then Edited(plan.original, edits.duringWrite)
    else plan.original
  }

  /** What a rollback leaves in the Compose file. */
  function GivenBack(plan: Plan, edits: Edits, faults: Faults): string {
    if !plan.changed then Edited(plan.original, edits.beforeRestore)
    else if Edited(plan.content, edits.beforeRestore) != plan.content then edits.beforeRestore.value
    else if faults.restoreCompose then Edited(plan.content, edits.duringRestore)
    else plan.original
  }

  class SettingsFiles {
    var config: Option<string>
    var compose: string

    /** What somebody else wrote and this program replaced without having seen it. */
    ghost var lost: seq<string>

    constructor (config: Option<string>, compose: string)
      ensures this.config == config && this.compose == compose && lost == []
    {
      this.config, this.compose, lost := config, compose, [];
    }

    /** Verifies the revision and then, in a step of its own, replaces the file. */
    method Replace(expected: string, content: string, edit: Option<string>, fails: bool) returns (ok: bool)
      modifies this`compose, this`lost
      ensures ok <==> old(compose) == expected && !fails
      ensures ok ==> compose == content
      ensures !ok ==> compose == if old(compose) == expected then Edited(old(compose), edit) else old(compose)
      ensures lost == old(lost) + if ok && Edited(expected, edit) != expected then [edit.value] else []
    {
      if compose != expected {
        return false;
      }
      compose := Edited(compose, edit);
      if fails {
        return false;
      }
      if compose != expected {
        lost := lost + [compose];
      }
      compose := content;
      ok := true;
    }

    /** Writes the planned Compose file. */
    method ApplyMount(plan: Plan, edits: Edits, faults: Faults) returns (ok: bool)
      requires compose == plan.original
      modifies this`compose, this`lost
      ensures ok <==> Applies(Some(plan), Some(plan.original), edits, faults)
      ensures ok ==> compose == if plan.changed then plan.content else plan.original
      ensures !ok ==> compose == Untaken(plan, edits, faults)
      ensures lost == old(lost) + if ok && RacesWithWrite(plan, edits) then [edits.duringWrite.value] else []
    {
      compose := Edited(compose, edits.beforeWrite);
      if !plan.changed {
        return compose == plan.original;
      }
      if compose != plan.original || faults.backup {
        return false;
      }
      ok := Replace(plan.original, plan.content, edits.duringWrite, faults.write);
    }

    /** Gives both files back, as far as possible, and counts what could not be. */
    method RollbackFiles(snapshot: Option<string>, plan: Plan, edits: Edits, faults: Faults)
      returns (errors: nat, composeRestored: bool)
      requires compose == if plan.changed then plan.content else plan.original
      modifies this
      ensures config == if faults.restoreConfig then old(config) else snapshot
      ensures composeRestored <==> Restores(plan, edits, faults)
      ensures compose == GivenBack(plan, edits, faults)
      ensures errors == (if faults.restoreConfig then 1 else 0) + (if composeRestored then 0 else 1)
      ensures lost == old(lost) + if RacesWithRestore(plan, edits, faults) then [edits.duringRestore.value] else []
    {
      errors, composeRestored := 0, true;
      if faults.restoreConfig {
        errors := errors + 1;
      } else {
        config := snapshot;
      }
      compose := Edited(compose, edits.beforeRestore);
      if plan.changed {
        composeRestored := Replace(plan.content, plan.original, edits.duringRestore, faults.restoreCompose);
        if !composeRestored {
          errors := errors + 1;
        }
      }
    }

    /** Saves under the leases. A refusal, and a rollback without errors, leave both files as
        they were, apart from what somebody else wrote. Somebody else's edit is lost exactly
        when it falls between verifying the revision and replacing the file. */
    method Save(planned: Option<Plan>, confirmed: Option<string>, newConfig: string, applyMount: bool, edits: Edits, faults: Faults)
      returns (outcome: Outcome)
      requires planned.Some? ==> planned.value.original == compose
      modifies this
      ensures outcome.Refused? <==> !Applies(planned, confirmed, edits, faults)
      ensures outcome.Refused? ==>
        && config == old(config)
        && compose == if planned.None? || confirmed != Some(old(compose)) then old(compose) else Untaken(planned.value, edits, faults)
      ensures outcome.Saved? <==> Applies(planned, confirmed, edits, faults) && !LaterStepFails(planned.value, applyMount, faults)
      ensures outcome.Saved? ==>
        && config == Some(newConfig) && outcome.mountChanged == planned.value.changed
        && outcome.recreated == (planned.value.changed && applyMount)
        && compose == if planned.value.changed then planned.value.content else old(compose)
      ensures outcome.RolledBack? ==>
        && outcome.composeRestored == Restores(planned.value, edits, faults)
        && outcome.errors == (if faults.restoreConfig then 1 else 0) + (if outcome.composeRestored then 0 else 1)
        && config == (if faults.restoreConfig && !faults.persist then Some(newConfig) else old(config))
        && compose == GivenBack(planned.value, edits, faults)
      ensures lost == old(lost) <==>
        && !(!outcome.Refused? && RacesWithWrite(planned.value, edits))
        && !(outcome.RolledBack? && RacesWithRestore(planned.value, edits, faults))
    {
      if planned.None? || confirmed != Some(planned.value.original) {
        return Refused;
      }
      var plan := planned.value;
      var snapshot := config;
      var applied := ApplyMount(plan, edits, faults);
      if !applied {
        return Refused;
      }
      if !faults.persist {
        config := Some(newConfig);
      }
      if faults.persist || (plan.changed && applyMount && faults.recreate) {
        var errors, composeRestored := RollbackFiles(snapshot, plan, edits, faults);
        return RolledBack(errors, composeRestored);
      }
      outcome := Saved(plan.changed, plan.changed && applyMount);
    }
  }
}
