/** Deployment packages (src/airi/production/packaging.py): assembled from registry lineage and
    re-verified before every use. Hashes are parameters; where a law needs it, they are injective. */
module Packaging {
  import opened Documents
  import opened Options
  import opened Sorting

  // ------------------------------------------------------------ lineage

  /** A stored artifact: its document (absent when it cannot be read), the metric document of its
      snapshot, and the two stored hashes. */
  datatype ArtifactRow = ArtifactRow(
    artifactId: string, document: Option<Content>, snapshotIr: MetricIr, artifactHash: string, metricIrHash: string)

  datatype Version = Version(
    definitionId: string, versionId: string, metricKey: string, number: string, contentHash: string,
    metricIr: MetricIr, metricIrHash: string, artifactId: string, artifactHash: string, synthetic: bool)

  datatype Registry = Registry(versions: map<string, Version>, artifacts: map<string, ArtifactRow>)

  // ------------------------------------------------------------ environment

  /** What the profile hash covers; the creation time is not part of it. */
  datatype ProfileFacts = ProfileFacts(
    environmentId: string, name: string, engine: string, kind: string, executionMode: string,
    readOnlyPreflight: bool, deploymentEnabled: bool, validationRunId: Option<string>,
    verificationSource: string, verified: bool, synthetic: bool)

  datatype Profile = Profile(facts: ProfileFacts, createdAt: int)

  // ------------------------------------------------------------ packages

  /** What the package hash covers. */
  datatype Facts = Facts(
    definitionId: string, versionId: string, versionContentHash: string, metricKey: string, number: string,
    metricIrHash: string, artifactId: string, artifactHash: string, sqlHash: string,
    releaseId: string, releaseReviewId: string, reportHash: string,
    environmentId: string, profileHash: string, fingerprintHash: Option<string>)

  datatype Package = Package(facts: Facts, metricIr: MetricIr, sql: string, synthetic: bool, contentHash: string)

  datatype Release = Release(releaseId: string, reviewId: string, report: string)

  datatype Hashes = Hashes(
    content: Content -> string, ir: MetricIr -> string, sql: string -> string,
    report: string -> string, profile: ProfileFacts -> string, facts: Facts -> string)

  ghost predicate Injective(h: Hashes) {
    && (forall a, b | h.content(a) == h.content(b) :: a == b)
    && (forall a, b | h.ir(a) == h.ir(b) :: a == b)
    && (forall a, b | h.sql(a) == h.sql(b) :: a == b)
    && (forall a, b | h.profile(a) == h.profile(b) :: a == b)
    && (forall a, b | h.facts(a) == h.facts(b) :: a == b)
  }

  // ------------------------------------------------------------ failures

  /** In the alphabetical order of their names. */
  datatype Failure =
    | ArtifactContentHashMismatch | ArtifactDocumentUnreadable | ArtifactMetricIrHashMismatch
    | EnvironmentFingerprintMismatch | EnvironmentFingerprintNotObserved | EnvironmentIdMismatch
    | EnvironmentProfileChanged | MetricIrHashMismatch | MetricVersionChanged
    | PackageArtifactHashMismatch | PackageArtifactIdMismatch | PackageHashMismatch
    | PackageMetricIrHashMismatch | PackageMetricIrHashUnverifiable | PackageSqlHashMismatch
    | PackageSqlNotFromGovernedArtifact | ReleaseArtifactNotFound
    | VersionArtifactHashMismatch | VersionMetricIrHashMismatch

  const ALPHABETICAL: seq<Failure> := [
    ArtifactContentHashMismatch, ArtifactDocumentUnreadable, ArtifactMetricIrHashMismatch,
    EnvironmentFingerprintMismatch, EnvironmentFingerprintNotObserved, EnvironmentIdMismatch,
    EnvironmentProfileChanged, MetricIrHashMismatch, MetricVersionChanged,
    PackageArtifactHashMismatch, PackageArtifactIdMismatch, PackageHashMismatch,
    PackageMetricIrHashMismatch, PackageMetricIrHashUnverifiable, PackageSqlHashMismatch,
    PackageSqlNotFromGovernedArtifact, ReleaseArtifactNotFound,
    VersionArtifactHashMismatch, VersionMetricIrHashMismatch]

  function Rank(f: Failure): (rank: nat)
    ensures rank < |ALPHABETICAL| && ALPHABETICAL[rank] == f
  {
    match f
    case ArtifactContentHashMismatch => 0 case ArtifactDocumentUnreadable => 1
    case ArtifactMetricIrHashMismatch => 2 case EnvironmentFingerprintMismatch => 3
    case EnvironmentFingerprintNotObserved => 4 case EnvironmentIdMismatch => 5
    case EnvironmentProfileChanged => 6 case MetricIrHashMismatch => 7
    case MetricVersionChanged => 8 case PackageArtifactHashMismatch => 9
    case PackageArtifactIdMismatch => 10 case PackageHashMismatch => 11
    case PackageMetricIrHashMismatch => 12 case PackageMetricIrHashUnverifiable => 13
    case PackageSqlHashMismatch => 14 case PackageSqlNotFromGovernedArtifact => 15
    case ReleaseArtifactNotFound => 16 case VersionArtifactHashMismatch => 17
    case VersionMetricIrHashMismatch => 18
  }

  predicate FailureLe(a: Failure, b: Failure) { Rank(a) <= Rank(b) }

  lemma {:induction false} FailureLeOrder()
    ensures TotalPreorder(FailureLe) && forall s: seq<Failure> :: Distinguishes(FailureLe, s)
  {
    forall a: Failure, b: Failure | Rank(a) == Rank(b) ensures a == b { RankInjective(a, b); }
  }

  lemma {:induction false} RankInjective(a: Failure, b: Failure)
    requires Rank(a) == Rank(b)
    ensures a == b
  {
  }

  /** Which failures `artifact_failures` finds for the lineage alone. */
  predicate LineageFault(f: Failure, row: ArtifactRow, version: Version, h: Hashes) {
    match f
    case ArtifactDocumentUnreadable => row.document.None?
    case ArtifactContentHashMismatch => row.document.Some? && h.content(row.document.value) != row.artifactHash
    case ArtifactMetricIrHashMismatch => row.document.Some? && h.ir(row.snapshotIr) != row.metricIrHash
    case VersionArtifactHashMismatch => row.document.Some? && row.artifactHash != version.artifactHash
    case VersionMetricIrHashMismatch => row.document.Some? && row.metricIrHash != version.metricIrHash
    case MetricIrHashMismatch => row.document.Some? && h.ir(version.metricIr) != version.metricIrHash
    case _ => false
  }

  /** Which failures it finds in addition for a package built from that lineage. */
  predicate PackageFault(f: Failure, row: ArtifactRow, version: Version, p: Package, h: Hashes) {
    row.document.Some? &&
    match f
    case PackageArtifactIdMismatch => p.facts.artifactId != row.artifactId
    case PackageArtifactHashMismatch => p.facts.artifactHash != version.artifactHash
    case PackageMetricIrHashMismatch => p.facts.metricIrHash != version.metricIrHash
    case PackageMetricIrHashUnverifiable => h.ir(p.metricIr) != p.facts.metricIrHash
    case PackageSqlHashMismatch => h.sql(p.sql) != p.facts.sqlHash
    case PackageSqlNotFromGovernedArtifact => row.document.value.code != p.sql
    case _ => false
  }

  method ArtifactFailures(row: ArtifactRow, version: Version, package: Option<Package>, h: Hashes)
    returns (failures: seq<Failure>)
    ensures forall f :: f in failures <==>
              LineageFault(f, row, version, h) || (package.Some? && PackageFault(f, row, version, package.value, h))
  {
    failures := [];
    if row.document.None? { return [ArtifactDocumentUnreadable]; }
    if h.content(row.document.value) != row.artifactHash { failures := failures + [ArtifactContentHashMismatch]; }
    if h.ir(row.snapshotIr) != row.metricIrHash { failures := failures + [ArtifactMetricIrHashMismatch]; }
    if row.artifactHash != version.artifactHash { failures := failures + [VersionArtifactHashMismatch]; }
    if row.metricIrHash != version.metricIrHash { failures := failures + [VersionMetricIrHashMismatch]; }
    if h.ir(version.metricIr) != version.metricIrHash { failures := failures + [MetricIrHashMismatch]; }
    if package.Some? {
      var found := PackageOnlyFailures(row, version, package.value, h);
      failures := failures + found;
    }
  }

  method PackageOnlyFailures(row: ArtifactRow, version: Version, p: Package, h: Hashes) returns (failures: seq<Failure>)
    requires row.document.Some?
    ensures forall f :: f in failures <==> PackageFault(f, row, version, p, h)
  {
    failures := [];
    if p.facts.artifactId != row.artifactId { failures := failures + [PackageArtifactIdMismatch]; }
    if p.facts.artifactHash != version.artifactHash { failures := failures + [PackageArtifactHashMismatch]; }
    if p.facts.metricIrHash != version.metricIrHash { failures := failures + [PackageMetricIrHashMismatch]; }
    assert forall f :: f in failures
             <==> f in {PackageArtifactIdMismatch, PackageArtifactHashMismatch, PackageMetricIrHashMismatch}
                  && PackageFault(f, row, version, p, h);
    if h.ir(p.metricIr) != p.facts.metricIrHash { failures := failures + [PackageMetricIrHashUnverifiable]; }
    if h.sql(p.sql) != p.facts.sqlHash { failures := failures + [PackageSqlHashMismatch]; }
    if row.document.value.code != p.sql { failures := failures + [PackageSqlNotFromGovernedArtifact]; }
  }

  /** Which failures the package shows against the environment it is verified for. */
  predicate EnvironmentFault(f: Failure, p: Package, profile: Profile, fingerprint: Option<string>, h: Hashes) {
    match f
    case PackageHashMismatch => h.facts(p.facts) != p.contentHash
    case EnvironmentProfileChanged => h.profile(profile.facts) != p.facts.profileHash
    case EnvironmentIdMismatch => p.facts.environmentId != profile.facts.environmentId
    case EnvironmentFingerprintNotObserved => p.facts.fingerprintHash.Some? && fingerprint.None?
    case EnvironmentFingerprintMismatch =>
      p.facts.fingerprintHash.Some? && fingerprint.Some? && fingerprint != p.facts.fingerprintHash
    case _ => false
  }

  /** Which failures it shows against the registry before its artifact is read. */
  predicate RegistryFault(f: Failure, registry: Registry, p: Package, h: Hashes)
    requires p.facts.versionId in registry.versions
  {
    match f
    case MetricVersionChanged => p.facts.versionContentHash != registry.versions[p.facts.versionId].contentHash
    case PackageMetricIrHashUnverifiable => h.ir(p.metricIr) != p.facts.metricIrHash
    case ReleaseArtifactNotFound => p.facts.artifactId !in registry.artifacts
    case _ => false
  }

  predicate Fault(f: Failure, registry: Registry, p: Package, profile: Profile, fingerprint: Option<string>, h: Hashes)
    requires p.facts.versionId in registry.versions
  {
    EnvironmentFault(f, p, profile, fingerprint, h) || RegistryFault(f, registry, p, h)
    || (p.facts.artifactId in registry.artifacts
        && var row, version := registry.artifacts[p.facts.artifactId], registry.versions[p.facts.versionId];
           LineageFault(f, row, version, h) || PackageFault(f, row, version, p, h))
  }

  method EnvironmentFailures(p: Package, profile: Profile, fingerprint: Option<string>, h: Hashes)
    returns (failures: seq<Failure>)
    ensures forall f :: f in failures <==> EnvironmentFault(f, p, profile, fingerprint, h)
  {
    failures := [];
    if h.facts(p.facts) != p.contentHash { failures := failures + [PackageHashMismatch]; }
    if h.profile(profile.facts) != p.facts.profileHash { failures := failures + [EnvironmentProfileChanged]; }
    if p.facts.environmentId != profile.facts.environmentId { failures := failures + [EnvironmentIdMismatch]; }
    if p.facts.fingerprintHash.Some? {
      if fingerprint.None? {
        failures := failures + [EnvironmentFingerprintNotObserved];
      } else if fingerprint.value != p.facts.fingerprintHash.value {
        failures := failures + [EnvironmentFingerprintMismatch];
      }
    }
  }

  method RegistryFailures(registry: Registry, p: Package, h: Hashes) returns (failures: seq<Failure>)
    requires p.facts.versionId in registry.versions
    ensures forall f :: f in failures <==> RegistryFault(f, registry, p, h)
  {
    failures := [];
    if p.facts.versionContentHash != registry.versions[p.facts.versionId].contentHash {
      failures := failures + [MetricVersionChanged];
    }
    if h.ir(p.metricIr) != p.facts.metricIrHash { failures := failures + [PackageMetricIrHashUnverifiable]; }
    if p.facts.artifactId !in registry.artifacts { failures := failures + [ReleaseArtifactNotFound]; }
  }

  /** `package_failures`: the faults of a package, each once, in alphabetical order; an unknown
      version is an error of its own. */
  method PackageFailures(
      registry: Registry, p: Package, profile: Profile, fingerprint: Option<string>, h: Hashes)
    returns (r: Option<seq<Failure>>)
    ensures r.None? <==> p.facts.versionId !in registry.versions
    ensures r.Some? ==>
              && Increasing(FailureLe, r.value)
              && forall f :: f in r.value <==> Fault(f, registry, p, profile, fingerprint, h)
  {
    FailureLeOrder();
    if p.facts.versionId !in registry.versions { return None; }
    var failures := EnvironmentFailures(p, profile, fingerprint, h);
    var missing := RegistryFailures(registry, p, h);
    failures := failures + missing;
    if p.facts.artifactId !in registry.artifacts {
      SortedSetProperties(FailureLe, failures);
      return Some(SortedSet(FailureLe, failures));
    }
    var version := registry.versions[p.facts.versionId];
    var found := ArtifactFailures(registry.artifacts[p.facts.artifactId], version, Some(p), h);
    failures := failures + found;
    SortedSetProperties(FailureLe, failures);
    r := Some(SortedSet(FailureLe, failures));
  }

  /** The package that `build_package` assembles from a readable artifact. */
  function Assembled(
      content: Content, version: Version, release: Release, profile: Profile, fingerprint: Option<string>, h: Hashes)
    : Package
  {
    var facts := Facts(
      version.definitionId, version.versionId, version.contentHash, version.metricKey, version.number,
      version.metricIrHash, version.artifactId, version.artifactHash, h.sql(content.code),
      release.releaseId, release.reviewId, h.report(release.report),
      profile.facts.environmentId, h.profile(profile.facts), fingerprint);
    Package(facts, version.metricIr, content.code, version.synthetic || profile.facts.synthetic, h.facts(facts))
  }

  predicate SoundLineage(registry: Registry, version: Version, h: Hashes) {
    && version.artifactId in registry.artifacts
    && var row := registry.artifacts[version.artifactId];
       && row.document.Some? && h.content(row.document.value) == row.artifactHash == version.artifactHash
       && h.ir(row.snapshotIr) == row.metricIrHash == version.metricIrHash == h.ir(version.metricIr)
  }

  /** The package names the version, the release, its review and the environment it was built for, each
      in its place, and is synthetic exactly if its version or its environment is. */
  ghost predicate Carries(
      p: Package, version: Version, release: Release, profile: Profile, fingerprint: Option<string>, h: Hashes)
  {
    && p.facts.definitionId == version.definitionId && p.facts.versionId == version.versionId
    && p.facts.metricKey == version.metricKey && p.facts.number == version.number
    && p.facts.versionContentHash == version.contentHash && p.facts.artifactId == version.artifactId
    && p.facts.releaseId == release.releaseId && p.facts.releaseReviewId == release.reviewId
    && p.facts.reportHash == h.report(release.report) && p.metricIr == version.metricIr
    && p.facts.environmentId == profile.facts.environmentId && p.facts.fingerprintHash == fingerprint
    && (p.synthetic <==> version.synthetic || profile.facts.synthetic)
  }

  /** `build_package`: builds exactly from sound lineage, and otherwise names the first fault. */
  method BuildPackage(
      registry: Registry, version: Version, release: Release, profile: Profile, fingerprint: Option<string>, h: Hashes)
    returns (r: Result<Package, Failure>)
    ensures r.Ok? <==> SoundLineage(registry, version, h)
    ensures r.Ok? ==>
              var document := registry.artifacts[version.artifactId].document.value;
              r.value == Assembled(document, version, release, profile, fingerprint, h)
    ensures r.Ok? ==>
              && Carries(r.value, version, release, profile, fingerprint, h)
              && r.value.sql == registry.artifacts[version.artifactId].document.value.code
    ensures r == Err(ReleaseArtifactNotFound) <==> version.artifactId !in registry.artifacts
    ensures r.Err? && version.artifactId in registry.artifacts ==>
              && LineageFault(r.error, registry.artifacts[version.artifactId], version, h)
              && forall f | LineageFault(f, registry.artifacts[version.artifactId], version, h) :: FailureLe(r.error, f)
  {
    if version.artifactId !in registry.artifacts { return Err(ReleaseArtifactNotFound); }
    var row := registry.artifacts[version.artifactId];
    var failures := ArtifactFailures(row, version, None, h);
    FaultlessLineage(registry, version, h);
    if failures != [] {
      FailureLeOrder();
      SortedSetProperties(FailureLe, failures);
      var ordered := SortedSet(FailureLe, failures);
      assert failures[0] in ordered;
      assert ordered[0] in failures;
      forall f | LineageFault(f, row, version, h) ensures FailureLe(ordered[0], f) {
        assert f in ordered;
      }
      return Err(ordered[0]);
    }
    assert forall f :: !LineageFault(f, row, version, h);
    r := Ok(Assembled(row.document.value, version, release, profile, fingerprint, h));
  }

  lemma {:induction false} FaultlessLineage(registry: Registry, version: Version, h: Hashes)
    requires version.artifactId in registry.artifacts
    ensures var row := registry.artifacts[version.artifactId];
            SoundLineage(registry, version, h) <==> forall f :: !LineageFault(f, row, version, h)
  {
    var row := registry.artifacts[version.artifactId];
    if forall f :: !LineageFault(f, row, version, h) {
      assert !LineageFault(ArtifactDocumentUnreadable, row, version, h);
      assert !LineageFault(ArtifactContentHashMismatch, row, version, h);
      assert !LineageFault(ArtifactMetricIrHashMismatch, row, version, h);
      assert !LineageFault(VersionArtifactHashMismatch, row, version, h);
      assert !LineageFault(VersionMetricIrHashMismatch, row, version, h);
      assert !LineageFault(MetricIrHashMismatch, row, version, h);
    }
  }
}
