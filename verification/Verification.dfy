/** The production verification report (src/airi/production/verification.py): one verdict per
    section, then an aggregate over the required ones. */
module Verification {
  import opened Options
  import Packaging

  /** Names that reports, gates and overrides use: report sections, a capability of the adapter, the
      four protected requirements, package faults, and anything else an override may list. */
  datatype Requirement =
    | Environment | Identity | Adapter | Deployment | RuntimeIdentity | Shadow | MonitoringSource | Rollback | Reconciliation
    | RollbackCapability
    | PackageIntegrity | ArtifactIntegrity | MetricVersionIdentity | ActorAuthentication
    | PackageFault(failure: Packaging.Failure)
    | Other(name: string)

  datatype Status = Verified | PartiallyVerified | NotVerified | Failed

  datatype Section = Section(name: Requirement, status: Status)

  datatype Report = Report(
    deploymentId: string, versionId: string, sections: seq<Section>, overall: Status,
    runtimeVerified: bool, notVerified: set<Requirement>, blocking: set<Requirement>)

  /** `VERIFICATION_REQUIRED_SECTIONS` */
  const REQUIRED: set<Requirement> := {Environment, Identity, Adapter, Deployment, RuntimeIdentity, Shadow, MonitoringSource}

  // ------------------------------------------------------------ what is observed

  datatype Fingerprint = Fingerprint(verified: bool, hash: string)
  datatype Evidence = Evidence(deployed: bool, statusConfirmed: bool, productionDeployed: bool)
  datatype ShadowRun = ShadowRun(passed: bool, readOnlyVerified: bool)
  datatype Telemetry = Telemetry(synthetic: bool, verified: bool)
  datatype RollbackReview = RollbackReview(approved: bool, runtimeVerified: bool, reconciled: bool)
  datatype Consistency = Consistent | Unknown | Mismatch

  datatype Observed = Observed(
    deploymentId: string, versionId: string,
    deployable: bool, syntheticProfile: bool, fingerprint: Option<Fingerprint>, packagedFingerprint: Option<string>,
    identityTrusted: bool, actorsTrusted: bool, sparkProduction: bool, evidence: Option<Evidence>,
    runtimeIdentityVerified: bool, shadow: Option<ShadowRun>, telemetry: Option<Telemetry>,
    rollback: Option<RollbackReview>, reconciliation: Option<Consistency>)

  function EnvironmentStatus(o: Observed): Status {
    if !o.deployable then Failed
    else if o.syntheticProfile then NotVerified
    else if o.fingerprint.None? || !o.fingerprint.value.verified then NotVerified
    else if Some(o.fingerprint.value.hash) != o.packagedFingerprint then Failed
    else Verified
  }

  function IdentityStatus(o: Observed): Status {
    if !o.identityTrusted || !o.actorsTrusted then NotVerified else Verified
  }

  function AdapterStatus(o: Observed): Status { if o.sparkProduction then Verified else NotVerified }

  function DeploymentStatus(o: Observed): Status {
    if o.evidence.None? then NotVerified
    else if !o.evidence.value.deployed || !o.evidence.value.statusConfirmed then Failed
    else if !o.evidence.value.productionDeployed then NotVerified
    else Verified
  }

  function RuntimeIdentityStatus(o: Observed): Status { if o.runtimeIdentityVerified then Verified else NotVerified }

  function ShadowStatus(o: Observed): Status {
    if o.shadow.None? then NotVerified
    else if !o.shadow.value.passed then Failed
    else if !o.shadow.value.readOnlyVerified then NotVerified
    else Verified
  }

  function MonitoringStatus(o: Observed): Status {
    if o.telemetry.None? || o.telemetry.value.synthetic || !o.telemetry.value.verified then NotVerified else Verified
  }

  function RollbackStatus(o: Observed): Status {
    if o.rollback.Some? && o.rollback.value.approved && o.rollback.value.runtimeVerified && o.rollback.value.reconciled
    then Verified else NotVerified
  }

  function ReconciliationStatus(o: Observed): Status {
    if o.reconciliation.None? then NotVerified
    else match o.reconciliation.value case Consistent => Verified case Unknown => NotVerified case Mismatch => Failed
  }

  function StatusOf(name: Requirement, o: Observed): Option<Status> {
    match name
    case Environment => Some(EnvironmentStatus(o))
    case Identity => Some(IdentityStatus(o))
    case Adapter => Some(AdapterStatus(o))
    case Deployment => Some(DeploymentStatus(o))
    case RuntimeIdentity => Some(RuntimeIdentityStatus(o))
    case Shadow => Some(ShadowStatus(o))
    case MonitoringSource => Some(MonitoringStatus(o))
    case Rollback => Some(RollbackStatus(o))
    case Reconciliation => Some(ReconciliationStatus(o))
    case _ => None
  }

  /** The reading of a section list as a dictionary: the last section of a name counts. */
  function Lookup(sections: seq<Section>, name: Requirement): Option<Status> {
    if sections == [] then None
    else if sections[|sections| - 1].name == name then Some(sections[|sections| - 1].status)
    else Lookup(sections[..|sections| - 1], name)
  }

  predicate Passed(sections: seq<Section>, name: Requirement) { Lookup(sections, name) == Some(Verified) }

  // ------------------------------------------------------------ the report

  /** What the aggregate says of a list of sections. */
  ghost predicate Aggregates(r: Report, requireRollback: bool) {
    && (forall name :: name in r.blocking <==>
          (name in REQUIRED || (requireRollback && name == Rollback)) && !Passed(r.sections, name))
    && (forall name :: name in r.notVerified <==> Lookup(r.sections, name).Some? && !Passed(r.sections, name))
    && (r.overall == Failed <==> exists name :: name in REQUIRED && Lookup(r.sections, name) == Some(Failed))
    && (r.overall == Verified <==> r.blocking == {})
    && (r.overall == PartiallyVerified ==> exists name :: Passed(r.sections, name))
    && (r.overall == NotVerified ==> forall name :: !Passed(r.sections, name))
    && (r.runtimeVerified <==> r.overall == Verified)
  }

  method Blocking(sections: seq<Section>, requireRollback: bool) returns (blocking: set<Requirement>)
    ensures forall name :: name in blocking <==>
              (name in REQUIRED || (requireRollback && name == Rollback)) && !Passed(sections, name)
  {
    blocking := set name | name in REQUIRED && !Passed(sections, name);
    if requireRollback && !Passed(sections, Rollback) { blocking := blocking + {Rollback}; }
  }

  function NotVerifiedNames(sections: seq<Section>): set<Requirement> {
    set i | 0 <= i < |sections| && sections[i].status != Verified :: sections[i].name
  }

  predicate AnyFailed(sections: seq<Section>) {
    exists name | name in REQUIRED :: Lookup(sections, name) == Some(Failed)
  }

  predicate AnyVerified(sections: seq<Section>) {
    exists i | 0 <= i < |sections| :: sections[i].status == Verified
  }

  /** What looking a section up by name says of the list. */
  lemma {:induction false} SectionsPassed(sections: seq<Section>)
    requires forall i | 0 <= i < |sections| :: Lookup(sections, sections[i].name) == Some(sections[i].status)
    ensures forall name :: name in NotVerifiedNames(sections) <==> Lookup(sections, name).Some? && !Passed(sections, name)
    ensures AnyVerified(sections) <==> exists name :: Passed(sections, name)
  {
    LookupFound(sections);
    hide Lookup;
    if i :| 0 <= i < |sections| && sections[i].status == Verified {
      assert Passed(sections, sections[i].name);
    }
    if name :| Passed(sections, name) {
      var i :| 0 <= i < |sections| && sections[i] == Section(name, Lookup(sections, name).value);
      assert sections[i].status == Verified;
    }
  }

  lemma {:induction false} FailedBlocks(sections: seq<Section>, blocking: set<Requirement>)
    requires forall name | name in REQUIRED && !Passed(sections, name) :: name in blocking
    ensures AnyFailed(sections) ==> blocking != {}
  {
    if AnyFailed(sections) {
      var name :| name in REQUIRED && Lookup(sections, name) == Some(Failed);
      assert name in blocking;
    }
  }

  lemma {:induction false} Aggregated(r: Report, requireRollback: bool)
    requires forall i | 0 <= i < |r.sections| :: Lookup(r.sections, r.sections[i].name) == Some(r.sections[i].status)
    requires forall name :: name in r.blocking <==>
               (name in REQUIRED || (requireRollback && name == Rollback)) && !Passed(r.sections, name)
    requires r.notVerified == NotVerifiedNames(r.sections) && r.runtimeVerified == (r.blocking == {})
    requires r.overall == if AnyFailed(r.sections) then Failed
                          else if r.blocking == {} then Verified
                          else if AnyVerified(r.sections) then PartiallyVerified
                          else NotVerified
    ensures Aggregates(r, requireRollback)
  {
    SectionsPassed(r.sections);
    FailedBlocks(r.sections, r.blocking);
    hide Lookup, Passed, NotVerifiedNames, AnyVerified;
  }

  method Aggregate(
      deploymentId: string, versionId: string, sections: seq<Section>, requireRollback: bool) returns (r: Report)
    requires forall i | 0 <= i < |sections| :: Lookup(sections, sections[i].name) == Some(sections[i].status)
    ensures r.deploymentId == deploymentId && r.versionId == versionId && r.sections == sections
    ensures Aggregates(r, requireRollback)
  {
    var blocking := Blocking(sections, requireRollback);
    hide *;
    var notVerified := NotVerifiedNames(sections);
    var overall := NotVerified;
    if AnyFailed(sections) {
      overall := Failed;
    } else if blocking == {} {
      overall := Verified;
    } else if AnyVerified(sections) {
      overall := PartiallyVerified;
    }
    r := Report(deploymentId, versionId, sections, overall, blocking == {}, notVerified, blocking);
    Aggregated(r, requireRollback);
  }

  /** A section that is verified, has failed, or is neither. */
  ghost predicate Reads(sections: seq<Section>, name: Requirement, verified: bool, failed: bool) {
    Lookup(sections, name) == Some(if verified then Verified else if failed then Failed else NotVerified)
  }

  /** The observed runtime is the fingerprinted one the package was built for. */
  ghost predicate RunsAsPackaged(o: Observed) {
    o.fingerprint.Some? && o.fingerprint.value.verified && o.packagedFingerprint == Some(o.fingerprint.value.hash)
  }

  /** What each section says, read off its own observations. */
  ghost predicate ReadsObservations(sections: seq<Section>, o: Observed) {
    && Reads(sections, Environment, o.deployable && !o.syntheticProfile && RunsAsPackaged(o),
             || !o.deployable
             || (!o.syntheticProfile && o.fingerprint.Some? && o.fingerprint.value.verified && !RunsAsPackaged(o)))
    && Reads(sections, Identity, o.identityTrusted && o.actorsTrusted, false)
    && Reads(sections, Adapter, o.sparkProduction, false)
    && Reads(sections, Deployment, o.evidence == Some(Evidence(true, true, true)),
             o.evidence.Some? && !(o.evidence.value.deployed && o.evidence.value.statusConfirmed))
    && Reads(sections, RuntimeIdentity, o.runtimeIdentityVerified, false)
    && Reads(sections, Shadow, o.shadow == Some(ShadowRun(true, true)), o.shadow.Some? && !o.shadow.value.passed)
    && Reads(sections, MonitoringSource, o.telemetry == Some(Telemetry(false, true)), false)
    && Reads(sections, Rollback, o.rollback == Some(RollbackReview(true, true, true)), false)
    && Reads(sections, Reconciliation, o.reconciliation == Some(Consistent), o.reconciliation == Some(Mismatch))
  }

  /** Verified overall means, and failed overall means, on the observations alone. */
  ghost predicate OverallReads(overall: Status, o: Observed, requireRollback: bool) {
    && (overall == Verified <==>
          && o.deployable && !o.syntheticProfile && RunsAsPackaged(o)
          && o.identityTrusted && o.actorsTrusted && o.sparkProduction && o.runtimeIdentityVerified
          && o.evidence == Some(Evidence(true, true, true))
          && o.shadow == Some(ShadowRun(true, true)) && o.telemetry == Some(Telemetry(false, true))
          && (requireRollback ==> o.rollback == Some(RollbackReview(true, true, true))))
    && (overall == Failed <==>
          || !o.deployable
          || (!o.syntheticProfile && o.fingerprint.Some? && o.fingerprint.value.verified && !RunsAsPackaged(o))
          || (o.evidence.Some? && !(o.evidence.value.deployed && o.evidence.value.statusConfirmed))
          || (o.shadow.Some? && !o.shadow.value.passed))
  }

  lemma {:induction false} SectionsRead(sections: seq<Section>, o: Observed)
    requires forall name :: Lookup(sections, name) == StatusOf(name, o)
    ensures ReadsObservations(sections, o)
  {
    hide Lookup;
  }

  lemma {:induction false} OverallRead(r: Report, o: Observed, requireRollback: bool)
    requires ReadsObservations(r.sections, o) && Aggregates(r, requireRollback)
    ensures OverallReads(r.overall, o, requireRollback)
  {
    hide Lookup, RunsAsPackaged;
    forall name | name in REQUIRED ensures name in r.blocking <==> Lookup(r.sections, name) != Some(Verified) {}
    assert Rollback in r.blocking <==> requireRollback && Lookup(r.sections, Rollback) != Some(Verified);
  }

  /** `build_verification_report`, for a policy that may require a verified rollback. Every section,
      and whether the report is verified or failed overall, follows from the observations as stated. */
  method BuildReport(o: Observed, requireRollback: bool) returns (r: Report)
    ensures r.deploymentId == o.deploymentId && r.versionId == o.versionId
    ensures forall name :: Lookup(r.sections, name) == StatusOf(name, o)
    ensures ReadsObservations(r.sections, o) && OverallReads(r.overall, o, requireRollback)
    ensures Aggregates(r, requireRollback)
  {
    var sections := [
      Section(Environment, EnvironmentStatus(o)), Section(Identity, IdentityStatus(o)), Section(Adapter, AdapterStatus(o)),
      Section(Deployment, DeploymentStatus(o)), Section(RuntimeIdentity, RuntimeIdentityStatus(o)),
      Section(Shadow, ShadowStatus(o)), Section(MonitoringSource, MonitoringStatus(o)),
      Section(Rollback, RollbackStatus(o)), Section(Reconciliation, ReconciliationStatus(o))];
    SectionsLookup(sections, o);
    hide *;
    r := Aggregate(o.deploymentId, o.versionId, sections, requireRollback);
    SectionsRead(r.sections, o);
    OverallRead(r, o, requireRollback);
  }

  lemma {:induction false} LookupFound(sections: seq<Section>)
    ensures forall name | Lookup(sections, name).Some? ::
              exists i :: 0 <= i < |sections| && sections[i] == Section(name, Lookup(sections, name).value)
  {
    if sections != [] {
      var prefix := sections[..|sections| - 1];
      LookupFound(prefix);
      forall name | Lookup(sections, name).Some?
        ensures exists i :: 0 <= i < |sections| && sections[i] == Section(name, Lookup(sections, name).value)
      {
        if sections[|sections| - 1].name != name {
          assert Lookup(prefix, name).Some?;
          var i :| 0 <= i < |prefix| && prefix[i] == Section(name, Lookup(prefix, name).value);
          assert sections[i] == prefix[i];
        }
      }
    }
  }

  /** Every section of the report is found under its name, and no other name is. */
  lemma {:induction false} SectionsLookup(sections: seq<Section>, o: Observed)
    requires sections == [
      Section(Environment, EnvironmentStatus(o)), Section(Identity, IdentityStatus(o)), Section(Adapter, AdapterStatus(o)),
      Section(Deployment, DeploymentStatus(o)), Section(RuntimeIdentity, RuntimeIdentityStatus(o)),
      Section(Shadow, ShadowStatus(o)), Section(MonitoringSource, MonitoringStatus(o)),
      Section(Rollback, RollbackStatus(o)), Section(Reconciliation, ReconciliationStatus(o))]
    ensures forall name :: Lookup(sections, name) == StatusOf(name, o)
    ensures forall i | 0 <= i < |sections| :: Lookup(sections, sections[i].name) == Some(sections[i].status)
  {
    hide EnvironmentStatus, DeploymentStatus, ShadowStatus, MonitoringStatus, RollbackStatus, ReconciliationStatus;
    forall name ensures Lookup(sections, name) == StatusOf(name, o) {
      LookupStep(sections, 8, name);
      LookupStep(sections, 7, name);
      LookupStep(sections, 6, name);
      LookupStep(sections, 5, name);
      LookupStep(sections, 4, name);
      LookupStep(sections, 3, name);
      LookupStep(sections, 2, name);
      LookupStep(sections, 1, name);
      LookupStep(sections, 0, name);
      hide Lookup;
      assert sections[..9] == sections;
    }
    forall i | 0 <= i < |sections| ensures Lookup(sections, sections[i].name) == Some(sections[i].status) {
      assert Lookup(sections, sections[i].name) == StatusOf(sections[i].name, o);
    }
  }

  lemma {:induction false} LookupStep(sections: seq<Section>, i: nat, name: Requirement)
    requires i < |sections|
    ensures Lookup(sections[..i + 1], name)
            == if sections[i].name == name then Some(sections[i].status) else Lookup(sections[..i], name)
    ensures Lookup(sections[..0], name) == None
  {
    assert sections[..i + 1][..i] == sections[..i];
  }
}
