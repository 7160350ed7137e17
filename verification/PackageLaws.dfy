/** What a clean re-verification of a deployment package means. */
module PackageLaws {
  import opened Options
  import opened Packaging

  /** `package_failures` returns the empty list. */
  ghost predicate Clean(registry: Registry, p: Package, profile: Profile, fingerprint: Option<string>, h: Hashes) {
    p.facts.versionId in registry.versions && forall f :: !Fault(f, registry, p, profile, fingerprint, h)
  }

  /** A clean package runs the code of the governed artifact, for the metric of its registered
      version, in the environment that was observed, and nothing it hashes over was altered. */
  lemma {:induction false} CleanMeansGoverned(
      registry: Registry, p: Package, profile: Profile, fingerprint: Option<string>, h: Hashes)
    requires Injective(h) && Clean(registry, p, profile, fingerprint, h)
    ensures && p.facts.artifactId in registry.artifacts
            && var row, version := registry.artifacts[p.facts.artifactId], registry.versions[p.facts.versionId];
               && row.artifactId == p.facts.artifactId && row.document.Some?
               && p.sql == row.document.value.code
               && p.metricIr == version.metricIr == row.snapshotIr
               && p.facts.artifactHash == row.artifactHash == h.content(row.document.value)
               && p.facts.versionContentHash == version.contentHash
    ensures p.facts.environmentId == profile.facts.environmentId && p.facts.profileHash == h.profile(profile.facts)
    ensures p.facts.fingerprintHash.Some? ==> fingerprint == p.facts.fingerprintHash
    ensures p.contentHash == h.facts(p.facts) && p.facts.sqlHash == h.sql(p.sql)
    ensures p.facts.metricIrHash == h.ir(p.metricIr)
  {
    TargetHolds(registry, p, profile, fingerprint, h);
    LineageHolds(registry, p, profile, fingerprint, h);
  }

  lemma {:induction false} TargetHolds(
      registry: Registry, p: Package, profile: Profile, fingerprint: Option<string>, h: Hashes)
    requires Clean(registry, p, profile, fingerprint, h)
    ensures p.facts.artifactId in registry.artifacts
    ensures p.facts.environmentId == profile.facts.environmentId && p.facts.profileHash == h.profile(profile.facts)
    ensures p.facts.fingerprintHash.Some? ==> fingerprint == p.facts.fingerprintHash
    ensures p.facts.versionContentHash == registry.versions[p.facts.versionId].contentHash
    ensures p.contentHash == h.facts(p.facts) && p.facts.metricIrHash == h.ir(p.metricIr)
  {
    hide LineageFault, PackageFault;
    assert !Fault(PackageHashMismatch, registry, p, profile, fingerprint, h);
    assert !Fault(EnvironmentProfileChanged, registry, p, profile, fingerprint, h);
    assert !Fault(EnvironmentIdMismatch, registry, p, profile, fingerprint, h);
    assert !Fault(EnvironmentFingerprintNotObserved, registry, p, profile, fingerprint, h);
    assert !Fault(EnvironmentFingerprintMismatch, registry, p, profile, fingerprint, h);
    assert !Fault(MetricVersionChanged, registry, p, profile, fingerprint, h);
    assert !Fault(PackageMetricIrHashUnverifiable, registry, p, profile, fingerprint, h);
    assert !Fault(ReleaseArtifactNotFound, registry, p, profile, fingerprint, h);
  }

  lemma {:induction false} LineageHolds(
      registry: Registry, p: Package, profile: Profile, fingerprint: Option<string>, h: Hashes)
    requires Clean(registry, p, profile, fingerprint, h) && p.facts.artifactId in registry.artifacts
    ensures var row, version := registry.artifacts[p.facts.artifactId], registry.versions[p.facts.versionId];
            && row.artifactId == p.facts.artifactId && row.document.Some?
            && p.sql == row.document.value.code && p.facts.sqlHash == h.sql(p.sql)
            && p.facts.artifactHash == version.artifactHash == row.artifactHash == h.content(row.document.value)
            && p.facts.metricIrHash == version.metricIrHash == row.metricIrHash
            && row.metricIrHash == h.ir(row.snapshotIr) == h.ir(version.metricIr)
  {
    hide EnvironmentFault, RegistryFault;
    assert !Fault(ArtifactDocumentUnreadable, registry, p, profile, fingerprint, h);
    assert !Fault(ArtifactContentHashMismatch, registry, p, profile, fingerprint, h);
    assert !Fault(ArtifactMetricIrHashMismatch, registry, p, profile, fingerprint, h);
    assert !Fault(VersionArtifactHashMismatch, registry, p, profile, fingerprint, h);
    assert !Fault(VersionMetricIrHashMismatch, registry, p, profile, fingerprint, h);
    assert !Fault(MetricIrHashMismatch, registry, p, profile, fingerprint, h);
    assert !Fault(PackageArtifactIdMismatch, registry, p, profile, fingerprint, h);
    assert !Fault(PackageArtifactHashMismatch, registry, p, profile, fingerprint, h);
    assert !Fault(PackageMetricIrHashMismatch, registry, p, profile, fingerprint, h);
    assert !Fault(PackageSqlHashMismatch, registry, p, profile, fingerprint, h);
    assert !Fault(PackageSqlNotFromGovernedArtifact, registry, p, profile, fingerprint, h);
  }

  /** Two packages that each verify clean, against whatever registries and environments at whatever
      times, and have the same content hash, execute the same thing in the same place. */
  lemma {:induction false} ContentHashIdentifiesExecution(
      r1: Registry, p1: Package, profile1: Profile, fingerprint1: Option<string>,
      r2: Registry, p2: Package, profile2: Profile, fingerprint2: Option<string>, h: Hashes)
    requires Injective(h)
    requires Clean(r1, p1, profile1, fingerprint1, h) && Clean(r2, p2, profile2, fingerprint2, h)
    requires p1.contentHash == p2.contentHash
    ensures p1.sql == p2.sql && p1.metricIr == p2.metricIr && p1.facts == p2.facts && profile1.facts == profile2.facts
    ensures p1.facts.artifactId in r1.artifacts && p2.facts.artifactId in r2.artifacts
    ensures r1.artifacts[p1.facts.artifactId].document == r2.artifacts[p2.facts.artifactId].document
  {
    CleanMeansGoverned(r1, p1, profile1, fingerprint1, h);
    CleanMeansGoverned(r2, p2, profile2, fingerprint2, h);
    hide Clean;
  }

  /** The registry holds this version under its identifier, and its artifact row under its own. */
  predicate Registered(registry: Registry, version: Version) {
    && version.versionId in registry.versions && registry.versions[version.versionId] == version
    && version.artifactId in registry.artifacts
    && registry.artifacts[version.artifactId].artifactId == version.artifactId
  }

  /** A package just built from registered lineage verifies clean in exactly those environments
      whose profile it was built for, except for the profile's creation time, and whose runtime shows
      the fingerprint it was built for, or any if it was built without one. */
  lemma {:induction false} BuiltVerifiesExactlyWhereBuilt(
      registry: Registry, version: Version, release: Release, profile: Profile, fingerprint: Option<string>,
      observed: Profile, shown: Option<string>, h: Hashes)
    requires Injective(h) && Registered(registry, version) && SoundLineage(registry, version, h)
    ensures var document := registry.artifacts[version.artifactId].document.value;
            var p := Assembled(document, version, release, profile, fingerprint, h);
            Clean(registry, p, observed, shown, h)
            <==> observed.facts == profile.facts && (fingerprint.None? || shown == fingerprint)
  {
    var document := registry.artifacts[version.artifactId].document.value;
    var p := Assembled(document, version, release, profile, fingerprint, h);
    if Clean(registry, p, observed, shown, h) {
      TargetHolds(registry, p, observed, shown, h);
    }
    if observed.facts == profile.facts && (fingerprint.None? || shown == fingerprint) {
      BuiltVerifies(registry, version, release, observed, fingerprint, shown, h);
    }
  }

  /** The round trip needs no assumption on the hashes. */
  lemma {:induction false} BuiltVerifies(
      registry: Registry, version: Version, release: Release, profile: Profile, fingerprint: Option<string>,
      shown: Option<string>, h: Hashes)
    requires Registered(registry, version) && SoundLineage(registry, version, h)
    requires fingerprint.None? || shown == fingerprint
    ensures var document := registry.artifacts[version.artifactId].document.value;
            var p := Assembled(document, version, release, profile, fingerprint, h);
            Clean(registry, p, profile, shown, h)
  {
    var row := registry.artifacts[version.artifactId];
    var p := Assembled(row.document.value, version, release, profile, fingerprint, h);
    forall f ensures !Fault(f, registry, p, profile, shown, h) {
      assert !LineageFault(f, row, version, h);
      assert !PackageFault(f, row, version, p, h);
      assert !EnvironmentFault(f, p, profile, shown, h);
      assert !RegistryFault(f, registry, p, h);
    }
  }
}
