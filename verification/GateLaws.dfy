/** What passing or failing the gate means. */
module GateLaws {
  import opened Options
  import opened Verification
  import opened Gate
  import Packaging
  import PackageLaws

  /** Enforced and not blocked is exactly: nothing protected failed, every required section is
      verified or named by the override, and every capability holds; a capability has no waiver. */
  lemma {:induction false} EnforcedExactly(q: Request)
    requires ModeOf(q) == Enforced
    ensures Passes(q) <==>
              && !ProtectedFailure(q)
              && (forall name | name in RequiredSections(q.action) ::
                    Passed(SectionsOf(q), name) || (q.emergency.Some? && name in q.emergency.value.waives))
              && RequiredCapabilities(q.action) <= q.capabilities
  {
    if Passes(q) {
      forall name | name in RequiredSections(q.action)
        ensures Passed(SectionsOf(q), name) || (q.emergency.Some? && name in q.emergency.value.waives)
      {
        assert Open(name, q) || Passed(SectionsOf(q), name);
      }
      forall name | name in RequiredCapabilities(q.action) ensures name in q.capabilities {
        assert Open(name, q) || name in q.capabilities;
      }
    }
  }

  /** What an override can do. One is built exactly from waivers that name nothing protected, and then
      all its waivers of required sections count. Whichever override is presented, an action passes
      with it exactly if it passes without one or, nothing protected having failed, all that is open
      are required sections it names; no capability and nothing protected is ever waived. */
  lemma {:induction false} OverridesReachExactly(q: Request, waives: set<Requirement>)
    ensures MakeOverride(waives).Some? <==>
              && PackageIntegrity !in waives && ArtifactIntegrity !in waives
              && MetricVersionIdentity !in waives && ActorAuthentication !in waives
    ensures MakeOverride(waives).Some? ==>
              EffectiveWaivers(MakeOverride(waives), RequiredSections(q.action)) == waives * RequiredSections(q.action)
    ensures Passes(q.(emergency := Some(Override(waives))))
            <==> || Passes(q.(emergency := None))
                 || (!ProtectedFailure(q) && forall name | Open(name, q) :: name in waives * RequiredSections(q.action))
    ensures Passes(q.(emergency := Some(Override(waives)))) <==> Passes(q.(emergency := Some(Override(waives - PROTECTED))))
  {
    var with, without := q.(emergency := Some(Override(waives))), q.(emergency := None);
    var cleared := q.(emergency := Some(Override(waives - PROTECTED)));
    assert RequiredSections(q.action) !! PROTECTED;
    assert EffectiveWaivers(with.emergency, RequiredSections(q.action)) == waives * RequiredSections(q.action);
    assert EffectiveWaivers(cleared.emergency, RequiredSections(q.action)) == waives * RequiredSections(q.action);
    forall name ensures Open(name, with) == Open(name, q) == Open(name, without) == Open(name, cleared) {}
    hide Open, EffectiveWaivers, MakeOverride, RequiredSections;
    assert EffectiveWaivers(None, RequiredSections(q.action)) == {} by { NoWaivers(q.action); }
  }

  lemma {:induction false} NoWaivers(action: Action)
    ensures EffectiveWaivers(None, RequiredSections(action)) == {}
  {
  }

  function Waived(q: Request): set<Requirement> { if q.emergency.Some? then q.emergency.value.waives else {} }

  /** The same action, with at least as much evidence, waivers and capabilities, and nothing
      protected failing. */
  ghost predicate AtLeast(better: Request, q: Request) {
    && better.action == q.action && (ModeOf(better) == Enforced ==> ModeOf(q) == Enforced) && !ProtectedFailure(better)
    && (forall name | Passed(SectionsOf(q), name) :: Passed(SectionsOf(better), name))
    && Waived(q) <= Waived(better) && q.capabilities <= better.capabilities
  }

  /** More verified sections, waivers or capabilities never turn an allowed action into a blocked
      one. */
  lemma {:induction false} MoreEvidenceNeverBlocks(better: Request, q: Request)
    requires AtLeast(better, q) && Passes(q)
    ensures Passes(better)
  {
    if ModeOf(better) == Enforced {
      EnforcedExactly(q);
      EnforcedExactly(better);
    }
  }

  /** What passes for a deployment passes for a reconciliation, and passes for a rollback exactly
      when the adapter can roll back or the mode does not enforce. */
  lemma {:induction false} DeployIsStrictest(q: Request)
    requires q.action == Deploy && Passes(q)
    ensures Passes(q.(action := ReconciliationAction))
    ensures Passes(q.(action := RollbackAction)) <==> ModeOf(q) == ReportOnly || RollbackCapability in q.capabilities
  {
    if ModeOf(q) == Enforced {
      EnforcedExactly(q);
      var reconcile, rollback := q.(action := ReconciliationAction), q.(action := RollbackAction);
      assert SectionsOf(reconcile) == SectionsOf(q) == SectionsOf(rollback);
      EnforcedExactly(reconcile);
      EnforcedExactly(rollback);
    }
  }

  /** A report that is verified overall, about the deployment that is to be acted on, passes the
      deploy and the reconciliation gate in every mode without any override, and the rollback gate
      exactly with the adapter's capability. */
  lemma {:induction false} VerifiedReportPasses(q: Request, requireRollback: bool)
    requires q.report.Some? && Aggregates(q.report.value, requireRollback) && q.report.value.overall == Verified
    requires !ProtectedFailure(q) && q.emergency == None
    ensures q.action != RollbackAction ==> Passes(q)
    ensures q.action == RollbackAction ==> (Passes(q) <==> ModeOf(q) == ReportOnly || RollbackCapability in q.capabilities)
  {
    var r := q.report.value;
    forall name | name in REQUIRED ensures Passed(r.sections, name) {
      assert name !in r.blocking;
    }
    hide Lookup;
    if ModeOf(q) == Enforced {
      EnforcedExactly(q);
    }
  }

  /** The two ends meet: for a report built from observations, with integrity failures taken from
      re-verifying the deployment's package, an enforced deployment without override passes only if
      the package runs the governed artifact's code on the fingerprinted cluster it was built for. */
  lemma {:induction false} PassingDeploysGovernedCode(
      q: Request, o: Observed, registry: Packaging.Registry, p: Packaging.Package, profile: Packaging.Profile,
      fingerprint: Option<string>, h: Packaging.Hashes)
    requires Packaging.Injective(h) && p.facts.versionId in registry.versions
    requires q.action == Deploy && ModeOf(q) == Enforced && q.emergency == None && Passes(q)
    requires q.report.Some? && forall name :: Lookup(q.report.value.sections, name) == StatusOf(name, o)
    requires o.packagedFingerprint == p.facts.fingerprintHash
    requires forall f | Packaging.Fault(f, registry, p, profile, fingerprint, h) :: PackageFault(f) in q.integrityFailures
    ensures && p.facts.artifactId in registry.artifacts
            && registry.artifacts[p.facts.artifactId].document.Some?
            && p.sql == registry.artifacts[p.facts.artifactId].document.value.code
            && p.metricIr == registry.versions[p.facts.versionId].metricIr
            && p.facts.environmentId == profile.facts.environmentId
    ensures o.fingerprint.Some? && o.fingerprint.value.verified
    ensures fingerprint == Some(o.fingerprint.value.hash) == p.facts.fingerprintHash
    ensures o.runtimeIdentityVerified && o.identityTrusted && o.shadow.Some? && o.shadow.value.passed
    ensures o.shadow.value.readOnlyVerified
  {
    forall f ensures !Packaging.Fault(f, registry, p, profile, fingerprint, h) {
      assert q.integrityFailures == {};
    }
    PackageLaws.CleanMeansGoverned(registry, p, profile, fingerprint, h);
    hide PackageLaws.Clean, Packaging.Fault;
    EnforcedExactly(q);
    hide Lookup;
    assert Passed(SectionsOf(q), Environment) && Passed(SectionsOf(q), RuntimeIdentity)
           && Passed(SectionsOf(q), Identity) && Passed(SectionsOf(q), Shadow);
    assert StatusOf(Environment, o) == Some(Verified) && StatusOf(RuntimeIdentity, o) == Some(Verified);
    assert StatusOf(Identity, o) == Some(Verified) && StatusOf(Shadow, o) == Some(Verified);
  }
}
