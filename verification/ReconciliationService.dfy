/** The recovery surface in its own form: the mock runtime (src/airi/production/adapters.py), the
    registry row, and the service that drives both, each call proved equal to its specification. */
module ReconciliationServices {
  import opened Options
  import opened Convergence
  import opened ConvergenceLaws

  datatype RollbackResult = RolledBackTo | RolledBackStopped | RollbackFailed | RollbackNotVerified

  /** `MockProductionAdapter`: one record per deployment, overwritten in place. */
  class MockAdapter {
    var runtime: map<string, Record>
    const failDeploy: bool
    const failRollback: bool

    constructor (runtimeStore: map<string, Record>, failDeploy: bool, failRollback: bool)
      ensures runtime == runtimeStore && this.failDeploy == failDeploy && this.failRollback == failRollback
    {
      runtime := runtimeStore;
      this.failDeploy := failDeploy;
      this.failRollback := failRollback;
    }

    /** A deployment that succeeds is what the next status reports; no other deployment moves. */
    method Deploy(version: VersionId, id: string) returns (deployed: bool)
      modifies this
      ensures deployed == !failDeploy
      ensures runtime == if deployed then old(runtime)[id := Record(version, Active)] else old(runtime)
      ensures deployed ==> RuntimeOf(runtime, id) == (Active, Some(version))
    {
      if failDeploy { return false; }
      runtime := runtime[id := Record(version, Active)];
      deployed := true;
    }

    method Status(id: string) returns (state: RuntimeState, version: Option<VersionId>)
      ensures (state, version) == RuntimeOf(runtime, id)
      ensures version.Some? ==> id in runtime && runtime[id] == Record(version.value, Active)
    {
      if id !in runtime { return Unknown, None; }
      state := runtime[id].state;
      version := if state == Active then Some(runtime[id].version) else None;
    }

    /** A rollback with a target runs the target; without one it stops the runtime and keeps the
        record; an unknown deployment or a failing provider changes nothing. */
    method Rollback(id: string, target: Option<VersionId>) returns (r: RollbackResult)
      modifies this
      ensures r == RollbackFailed <==> failRollback
      ensures r == RollbackNotVerified <==> !failRollback && id !in old(runtime)
      ensures r in {RollbackFailed, RollbackNotVerified} ==> runtime == old(runtime)
      ensures r == RolledBackTo ==> target.Some? && runtime == old(runtime)[id := Record(target.value, Active)]
      ensures r == RolledBackStopped ==>
                && target == None && runtime == old(runtime)[id := old(runtime)[id].(state := RolledBack)]
                && RuntimeOf(runtime, id) == (RolledBack, None)
    {
      if failRollback { return RollbackFailed; }
      if id !in runtime { return RollbackNotVerified; }
      if target.Some? {
        runtime := runtime[id := runtime[id].(version := target.value, state := Active)];
        return RolledBackTo;
      }
      runtime := runtime[id := runtime[id].(state := RolledBack)];
      r := RolledBackStopped;
    }
  }

  /** Registry pointer, version states and target of one metric, beside the adapter. */
  class Reconciler {
    const adapter: MockAdapter
    const deployment: Deployment
    const authoritative: bool
    const supportsRecovery: bool
    var pointer: Option<VersionId>
    var versions: map<VersionId, Lifecycle>
    var desired: Option<VersionId>

    constructor (adapter: MockAdapter, deployment: Deployment, authoritative: bool, supportsRecovery: bool,
                 pointer: Option<VersionId>, versions: map<VersionId, Lifecycle>, desired: Option<VersionId>)
      ensures this.adapter == adapter && this.deployment == deployment
      ensures Snapshot() == System(pointer, versions, adapter.runtime, desired)
      ensures ProviderOf() == Provider(authoritative, supportsRecovery, adapter.failDeploy)
    {
      this.adapter := adapter;
      this.deployment := deployment;
      this.authoritative := authoritative;
      this.supportsRecovery := supportsRecovery;
      this.pointer := pointer;
      this.versions := versions;
      this.desired := desired;
    }

    function Snapshot(): System
      reads this, adapter
    {
      System(pointer, versions, adapter.runtime, desired)
    }

    function ProviderOf(): Provider { Provider(authoritative, supportsRecovery, adapter.failDeploy) }

    method Observe() returns (r: Reading, consistency: Verdict)
      ensures r == Read(Snapshot(), deployment) && consistency == Consistency(r)
    {
      var state, version := adapter.Status(deployment.id);
      r := Reading(pointer, version, state, desired);
      if state == Unknown {
        consistency := NotComparable;
      } else if pointer.Some? && pointer == version {
        consistency := Convergence.Converged;
      } else if pointer == None && version == None {
        consistency := Convergence.Converged;
      } else {
        consistency := Mismatch;
      }
    }

    /** A plan is refused exactly when the reading is converged. */
    method MakePlan() returns (plan: Option<Plan>)
      ensures plan.None? <==> VerdictOf(Read(Snapshot(), deployment)) == Converged
      ensures plan.Some? ==> plan.value == PlanFor(Snapshot(), deployment, ProviderOf())
    {
      var r, consistency := Observe();
      if consistency == Converged && (desired == None || desired == r.runtime) { return None; }
      var runtimeKnown := r.runtime.Some? && r.runtime.value in versions;
      var context := Context(deployment.version, runtimeKnown, authoritative, supportsRecovery);
      var offered := Offered(r, context);
      plan := Some(Plan(r.runtime, offered,
                        Recommend(VerdictOf(r), RegistryToRuntime in offered, RuntimeToRegistry in offered)));
    }

    /** Succeeds exactly from the current, existing pointer to a version the registry holds, and then
        exactly that version is in use; an outdated pointer is refused without a change, any other
        failure leaves the pointer moved. */
    method MoveActiveVersion(from: Option<VersionId>, to: VersionId) returns (error: Option<MoveError>)
      modifies this
      ensures (Snapshot(), error) == Moved(old(Snapshot()), from, to)
      ensures error == None <==> old(pointer) == from && from.Some? && from.value in old(versions) && to in old(versions)
      ensures error == None && OneInUse(old(Snapshot())) ==> OneInUse(Snapshot())
      ensures error == Some(PointerConflict) <==> old(pointer) != from
      ensures error == Some(PointerConflict) ==> Snapshot() == old(Snapshot())
      ensures error != Some(PointerConflict) ==> pointer == Some(to)
    {
      if pointer != from { return Some(PointerConflict); }
      pointer := Some(to);
      if from == None || from.value !in versions { return Some(VersionNotFound); }
      versions := versions[from.value := Retired];
      if to !in versions { return Some(VersionNotFound); }
      versions := versions[to := InUse];
      error := None;
    }

    /** An executed push makes the deployment's own version what runs, an executed pull makes the plan's
        runtime version the active one; neither touches the target, and what is skipped changes nothing. */
    method Perform(plan: Plan, a: Action) returns (execution: Execution)
      modifies this, adapter
      ensures (Snapshot(), execution) == Performed(old(Snapshot()), deployment, ProviderOf(), plan, a)
      ensures execution == Executed && a == RegistryToRuntime ==>
                Read(Snapshot(), deployment).runtime == Some(deployment.version) && pointer == old(pointer)
      ensures execution == Executed && a == RuntimeToRegistry ==>
                pointer == plan.runtime != None && adapter.runtime == old(adapter.runtime)
      ensures execution == Executed ==> a == RegistryToRuntime || a == RuntimeToRegistry
      ensures execution == Skipped ==> Snapshot() == old(Snapshot())
      ensures desired == old(desired)
    {
      if a == RegistryToRuntime {
        var deployed := adapter.Deploy(deployment.version, deployment.id);
        return if deployed then Executed else NotDone;
      }
      if a == RuntimeToRegistry {
        if plan.runtime == None || pointer == plan.runtime { return Skipped; }
        var error := MoveActiveVersion(pointer, plan.runtime.value);
        return if error.Some? then NotDone else Executed;
      }
      execution := Skipped;
    }

    method ConvergeNow(plan: Plan, a: Action, gateAllows: bool) returns (outcome: Outcome)
      modifies this, adapter
      ensures (Snapshot(), outcome) == Converge(old(Snapshot()), deployment, ProviderOf(), plan, a, gateAllows)
    {
      var before, _ := Observe();
      var target := desired;
      if a == RuntimeToRegistry { target := before.runtime; }
      if ThreeWay(before.state, target, before.registry, before.runtime) == Converged { return AlreadyConverged; }
      if a == ManualInvestigation { return NotExecuted; }
      if a == RegistryToRuntime && !gateAllows { return GateBlocked; }
      var execution := Perform(plan, a);
      if execution == NotDone { return ExecutionFailed; }
      var after, consistency := Observe();
      var verified := consistency == Converged;
      var state := ThreeWay(after.state, target, after.registry, after.runtime);
      if verified && after.runtime.Some? && after.runtime.value in versions { desired := after.runtime; }
      if state == Converged && execution != Executed { return AlreadyConverged; }
      outcome := if verified then Completed else VerificationRequired;
    }
  }
}
