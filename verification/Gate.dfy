/** The verification gate (src/airi/production/gate.py): a report in front of every production
    action. Name lists that the source sorts and de-duplicates are sets here. */
module Gate {
  import opened Options
  import opened Verification

  datatype Action = Deploy | RollbackAction | ReconciliationAction

  datatype Mode = ReportOnly | Enforced

  datatype Configured = Auto | Pinned(mode: Mode)

  datatype Profile = Profile(synthetic: bool, production: bool)

  function ResolveMode(profile: Profile, configured: Configured): Mode {
    match configured
    case Pinned(mode) => mode
    case Auto => if profile.synthetic || !profile.production then ReportOnly else Enforced
  }

  function RequiredSections(action: Action): set<Requirement> {
    match action
    case Deploy => {Environment, Identity, Adapter, RuntimeIdentity, Shadow}
    case RollbackAction => {Environment, Identity, Adapter}
    case ReconciliationAction => {Environment, Identity, Adapter, RuntimeIdentity}
  }

  function RequiredCapabilities(action: Action): set<Requirement> {
    if action == RollbackAction then {RollbackCapability} else {}
  }

  const PROTECTED: set<Requirement> := {PackageIntegrity, ArtifactIntegrity, MetricVersionIdentity, ActorAuthentication}

  datatype Override = Override(waives: set<Requirement>)

  /** Building an override that names a protected requirement is refused. */
  function MakeOverride(waives: set<Requirement>): Option<Override> {
    if waives * PROTECTED != {} then None else Some(Override(waives))
  }

  function EffectiveWaivers(emergency: Option<Override>, required: set<Requirement>): set<Requirement> {
    if emergency.None? then {} else emergency.value.waives * required - PROTECTED
  }

  datatype Actor = Actor(authenticated: bool, trusted: bool, boundaryConfigured: bool)

  datatype Request = Request(
    action: Action, deploymentId: string, profile: Profile, configured: Configured, report: Option<Report>,
    capabilities: set<Requirement>, integrityFailures: set<Requirement>, actor: Actor, emergency: Option<Override>)

  datatype Verdict = Allowed | AllowedWithOverride | Blocked

  datatype Decision = Decision(verdict: Verdict, missing: set<Requirement>, integrity: set<Requirement>)

  function ModeOf(q: Request): Mode { ResolveMode(q.profile, q.configured) }

  function SectionsOf(q: Request): seq<Section> { if q.report.Some? then q.report.value.sections else [] }

  /** What no override reaches: the actor, the integrity of the package, and a report about another
      deployment. */
  predicate ProtectedFailure(q: Request) {
    || !q.actor.authenticated || (q.actor.boundaryConfigured && !q.actor.trusted)
    || q.integrityFailures != {}
    || (q.report.Some? && q.report.value.versionId != "" && q.report.value.deploymentId != q.deploymentId)
  }

  /** A requirement of the action that its report and the adapter leave open. */
  predicate Open(name: Requirement, q: Request) {
    || (name in RequiredSections(q.action) && !Passed(SectionsOf(q), name))
    || (name in RequiredCapabilities(q.action) && name !in q.capabilities)
  }

  /** Nothing protected failed, and when the mode enforces, every open requirement is waived. */
  ghost predicate Passes(q: Request) {
    && !ProtectedFailure(q)
    && (ModeOf(q) == Enforced ==>
          forall name | Open(name, q) :: name in EffectiveWaivers(q.emergency, RequiredSections(q.action)))
  }

  /** A section that the report verifies or the override names. */
  ghost predicate Cleared(name: Requirement, q: Request) {
    || (q.report.Some? && Passed(q.report.value.sections, name))
    || (q.emergency.Some? && name in q.emergency.value.waives)
  }

  /** When an action may go ahead, on the request's own fields. The actor, the integrity of the package
      and the report's deployment always count. A pinned mode decides alone whether evidence counts;
      otherwise it counts in production unless the profile is synthetic. Then every action needs
      environment, identity and adapter, a deployment and a reconciliation the runtime's identity, a
      deployment the shadow run, and a rollback the adapter's capability, which nothing waives. */
  ghost predicate Permits(q: Request) {
    && q.actor.authenticated && (q.actor.boundaryConfigured ==> q.actor.trusted) && q.integrityFailures == {}
    && (q.report.Some? && q.report.value.versionId != "" ==> q.report.value.deploymentId == q.deploymentId)
    && (q.configured == Pinned(Enforced) || (q.configured == Auto && q.profile.production && !q.profile.synthetic) ==>
          && Cleared(Environment, q) && Cleared(Identity, q) && Cleared(Adapter, q)
          && (q.action == Deploy || q.action == ReconciliationAction ==> Cleared(RuntimeIdentity, q))
          && (q.action == Deploy ==> Cleared(Shadow, q))
          && (q.action == RollbackAction ==> RollbackCapability in q.capabilities))
  }

  lemma {:induction false} PermitsExactly(q: Request)
    ensures Permits(q) <==> Passes(q)
  {
    forall name ensures !Passed([], name) {}
    hide Passed;
    if Passes(q) {
      forall name | name in RequiredSections(q.action) && ModeOf(q) == Enforced ensures Cleared(name, q) {
        assert Open(name, q) || Passed(SectionsOf(q), name);
      }
      assert Open(RollbackCapability, q) || q.action != RollbackAction || RollbackCapability in q.capabilities;
    }
  }

  /** What an action leaves open: the sections it needs that are not verified, and for a rollback the
      capability. */
  lemma {:induction false} OpenExactly(name: Requirement, q: Request)
    ensures Open(name, q) <==>
              || (name == RollbackCapability && q.action == RollbackAction && name !in q.capabilities)
              || (&& (q.report.None? || !Passed(q.report.value.sections, name))
                  && (|| name == Environment || name == Identity || name == Adapter
                      || (name == RuntimeIdentity && q.action != RollbackAction) || (name == Shadow && q.action == Deploy)))
  {
    assert !Passed([], name);
    hide Passed;
  }

  method ProtectedFailures(q: Request) returns (failures: seq<Requirement>)
    ensures failures != [] <==> ProtectedFailure(q)
    ensures forall name :: name in failures <==>
              || name in q.integrityFailures
              || (name == ActorAuthentication && (!q.actor.authenticated || (q.actor.boundaryConfigured && !q.actor.trusted)))
              || (name == MetricVersionIdentity && q.report.Some? && q.report.value.versionId != ""
                  && q.report.value.deploymentId != q.deploymentId)
  {
    failures := [];
    if !q.actor.authenticated {
      failures := failures + [ActorAuthentication];
    } else if q.actor.boundaryConfigured && !q.actor.trusted {
      failures := failures + [ActorAuthentication];
    }
    var integrity := Listed(q.integrityFailures);
    failures := failures + integrity;
    if q.report.Some? && q.report.value.versionId != "" && q.report.value.deploymentId != q.deploymentId {
      failures := failures + [MetricVersionIdentity];
    }
    if q.integrityFailures != {} {
      ghost var name :| name in q.integrityFailures;
      assert name in failures;
    }
    if failures != [] { assert failures[0] in failures; }
  }

  method Listed(names: set<Requirement>) returns (list: seq<Requirement>)
    ensures forall name :: name in list <==> name in names
  {
    list := [];
    var rest := names;
    while rest != {}
      invariant rest <= names
      invariant forall name :: name in list <==> name in names - rest
      decreases |rest|
    {
      var name :| name in rest;
      list := list + [name];
      rest := rest - {name};
    }
  }

  method Missing(q: Request) returns (missing: set<Requirement>)
    ensures forall name :: name in missing <==> Open(name, q)
  {
    var sections := SectionsOf(q);
    missing := set name | name in RequiredSections(q.action) && !Passed(sections, name);
    missing := missing + (set name | name in RequiredCapabilities(q.action) && name !in q.capabilities);
  }

  /** `evaluate_verification_gate`: blocked by any protected failure, recorded only in report mode,
      and otherwise allowed exactly when every open requirement is waived. */
  method EvaluateGate(q: Request) returns (d: Decision)
    ensures d.verdict != Blocked <==> Permits(q)
    ensures Permits(q) <==> Passes(q)
    ensures ProtectedFailure(q) ==> d.verdict == Blocked && !Passes(q)
    ensures d.verdict == AllowedWithOverride <==> Passes(q) && ModeOf(q) == Enforced && exists name :: Open(name, q)
    ensures d.integrity != {} <==> ProtectedFailure(q)
    ensures d.integrity == {} && d.verdict == Blocked ==>
              forall name ::
                name in d.missing
                <==> Open(name, q) && name !in EffectiveWaivers(q.emergency, RequiredSections(q.action))
    ensures d.verdict != Blocked ==> forall name :: name in d.missing <==> Open(name, q)
    ensures d.integrity != {} ==> forall name :: name in d.missing <==> Open(name, q) || name in d.integrity
  {
    PermitsExactly(q);
    hide Permits;
    var failures := ProtectedFailures(q);
    var missing := Missing(q);
    if failures != [] {
      var integrity := set name | name in failures;
      assert failures[0] in integrity;
      return Decision(Blocked, missing + integrity, integrity);
    }
    var waivers := EffectiveWaivers(q.emergency, RequiredSections(q.action));
    var remaining := missing - waivers;
    if ModeOf(q) == ReportOnly { return Decision(Allowed, missing, {}); }
    if remaining == {} {
      var waived := missing * waivers;
      forall name | name in missing ensures name in waived { assert name !in remaining; }
      if waived != {} { ghost var name :| name in waived; assert Open(name, q); }
      return Decision(if waived != {} then AllowedWithOverride else Allowed, missing, {});
    }
    ghost var name :| name in remaining;
    assert Open(name, q) && name !in waivers;
    d := Decision(Blocked, remaining, {});
  }
}
