/** Desired, registry and runtime version of one deployment (src/airi/production/convergence.py,
    reconciliation.py), and what executing a reviewed recovery does to them. */
module Convergence {
  import opened Options

  type VersionId = s: string | s != "" witness "v"

  datatype RuntimeState = Unknown | Shadow | Active | Failed | RolledBack | Mismatched

  datatype Verdict = Converged | Mismatch | NotComparable

  datatype Action = NoOp | RegistryToRuntime | RuntimeToRegistry | ManualInvestigation

  /** In the fixed order of every plan. */
  const ACTION_ORDER: seq<Action> := [NoOp, RegistryToRuntime, RuntimeToRegistry, ManualInvestigation]

  // ------------------------------------------------------------ diagnosis

  datatype Diagnosis = RuntimeUnknown | TargetAlreadySatisfied | UnexpectedExternalChange | StaleExpectedState

  function Diagnose(
      expected: Option<VersionId>, actual: Option<VersionId>, desired: Option<VersionId>, state: RuntimeState)
    : Diagnosis
  {
    if state == Unknown then RuntimeUnknown
    else if desired.Some? && actual == desired then TargetAlreadySatisfied
    else if actual != expected then UnexpectedExternalChange
    else StaleExpectedState
  }

  predicate SafeToRetry(d: Diagnosis) { d == StaleExpectedState }

  // ------------------------------------------------------------ one reading

  /** What was read at one moment. */
  datatype Reading = Reading(
    registry: Option<VersionId>, runtime: Option<VersionId>, state: RuntimeState, desired: Option<VersionId>)

  function ThreeWay(
      state: RuntimeState, desired: Option<VersionId>, registry: Option<VersionId>, runtime: Option<VersionId>)
    : Verdict
  {
    if state == Unknown then NotComparable
    else if desired == None then (if registry == runtime then Converged else Mismatch)
    else if desired == registry && registry == runtime then Converged
    else Mismatch
  }

  function VerdictOf(r: Reading): Verdict { ThreeWay(r.state, r.desired, r.registry, r.runtime) }

  /** What of the surroundings decides which recoveries exist. */
  datatype Context = Context(deployed: VersionId, runtimeKnown: bool, authoritative: bool, supportsRecovery: bool)

  predicate Available(a: Action, r: Reading, c: Context) {
    match VerdictOf(r)
    case NotComparable => a == ManualInvestigation
    case Converged => a == NoOp
    case Mismatch =>
      match a
      case NoOp => false
      case RegistryToRuntime =>
        && r.registry.Some? && r.registry.value == (if r.desired.Some? then r.desired.value else c.deployed)
        && c.authoritative && c.supportsRecovery
      case RuntimeToRegistry => r.runtime.Some? && c.runtimeKnown
      case ManualInvestigation => true
  }

  function Offered(r: Reading, c: Context): seq<Action> {
    Chosen(ACTION_ORDER, r, c)
  }

  function Chosen(actions: seq<Action>, r: Reading, c: Context): seq<Action> {
    if actions == [] then []
    else (if Available(actions[0], r, c) then [actions[0]] else []) + Chosen(actions[1..], r, c)
  }

  function Recommend(v: Verdict, registryToRuntime: bool, runtimeToRegistry: bool): Action {
    match v
    case Converged => NoOp
    case NotComparable => ManualInvestigation
    case Mismatch =>
      if registryToRuntime then RegistryToRuntime
      else if runtimeToRegistry then RuntimeToRegistry
      else ManualInvestigation
  }

  function Recommended(r: Reading, c: Context): Action {
    Recommend(VerdictOf(r), RegistryToRuntime in Offered(r, c), RuntimeToRegistry in Offered(r, c))
  }

  // ------------------------------------------------------------ the system

  datatype Lifecycle = Released | InUse | Retired

  datatype Record = Record(version: VersionId, state: RuntimeState)

  /** The registry pointer and version states of one metric, the runtime records by deployment,
      and the established target. */
  datatype System = System(
    pointer: Option<VersionId>, versions: map<VersionId, Lifecycle>, runtime: map<string, Record>, desired: Option<VersionId>)

  datatype Deployment = Deployment(id: string, version: VersionId)

  /** The provider: whether it may be driven, and whether its next deployment will fail. */
  datatype Provider = Provider(authoritative: bool, supportsRecovery: bool, failDeploy: bool)

  function RuntimeOf(runtime: map<string, Record>, id: string): (RuntimeState, Option<VersionId>) {
    if id !in runtime then (Unknown, None)
    else (runtime[id].state, if runtime[id].state == Active then Some(runtime[id].version) else None)
  }

  function Read(s: System, d: Deployment): Reading {
    var (state, version) := RuntimeOf(s.runtime, d.id);
    Reading(s.pointer, version, state, s.desired)
  }

  function ContextOf(s: System, d: Deployment, p: Provider): Context {
    var version := Read(s, d).runtime;
    Context(d.version, version.Some? && version.value in s.versions, p.authoritative, p.supportsRecovery)
  }

  /** A stored plan: the runtime version it was made for, and what it offers. */
  datatype Plan = Plan(runtime: Option<VersionId>, offered: seq<Action>, recommended: Action)

  function PlanFor(s: System, d: Deployment, p: Provider): Plan {
    Plan(Read(s, d).runtime, Offered(Read(s, d), ContextOf(s, d, p)), Recommended(Read(s, d), ContextOf(s, d, p)))
  }

  /** The status of `_observe`: registry against runtime, whatever is desired. */
  function Consistency(r: Reading): Verdict {
    if r.state == Unknown then NotComparable
    else if r.registry.Some? && r.registry == r.runtime then Converged
    else if r.registry == None && r.runtime == None then Converged
    else Mismatch
  }

  // ------------------------------------------------------------ executing a recovery

  datatype MoveError = PointerConflict | VersionNotFound

  /** `reconcile_active_version`: a compare-and-set of the pointer, then the two version states.
      A version that cannot be found stops it after the pointer has moved. */
  function Moved(s: System, from: Option<VersionId>, to: VersionId): (System, Option<MoveError>) {
    if s.pointer != from then (s, Some(PointerConflict))
    else
      var moved := s.(pointer := Some(to));
      if from == None || from.value !in s.versions then (moved, Some(VersionNotFound))
      else
        var retired := moved.(versions := s.versions[from.value := Retired]);
        if to !in retired.versions then (retired, Some(VersionNotFound))
        else (retired.(versions := retired.versions[to := InUse]), None)
  }

  datatype Execution = Skipped | Executed | NotDone

  /** `_execute_reconciliation` */
  function Performed(s: System, d: Deployment, p: Provider, plan: Plan, a: Action): (System, Execution) {
    match a
    case RegistryToRuntime =>
      if p.failDeploy then (s, NotDone)
      else (s.(runtime := s.runtime[d.id := Record(d.version, Active)]), Executed)
    case RuntimeToRegistry =>
      if plan.runtime == None || s.pointer == plan.runtime then (s, Skipped)
      else
        var (t, error) := Moved(s, s.pointer, plan.runtime.value);
        (t, if error.Some? then NotDone else Executed)
    case _ => (s, Skipped)
  }

  datatype Outcome =
    | AlreadyConverged | NotExecuted | GateBlocked | ExecutionFailed | Completed | VerificationRequired

  /** `_converge`: observe, act only if the target is not already met, observe again, and take the
      verified version as the new target. */
  function Converge(s: System, d: Deployment, p: Provider, plan: Plan, a: Action, gateAllows: bool): (System, Outcome) {
    var before := Read(s, d);
    var target := if a == RuntimeToRegistry then before.runtime else s.desired;
    if ThreeWay(before.state, target, before.registry, before.runtime) == Converged then (s, AlreadyConverged)
    else if a == ManualInvestigation then (s, NotExecuted)
    else if a == RegistryToRuntime && !gateAllows then (s, GateBlocked)
    else
      var (t, execution) := Performed(s, d, p, plan, a);
      if execution == NotDone then (t, ExecutionFailed)
      else
        var after := Read(t, d);
        var verified := Consistency(after) == Converged;
        var established := verified && after.runtime.Some? && after.runtime.value in t.versions;
        var done := if established then t.(desired := after.runtime) else t;
        if ThreeWay(after.state, target, after.registry, after.runtime) == Converged && execution != Executed
        then (done, AlreadyConverged)
        else (done, if verified then Completed else VerificationRequired)
  }
}
