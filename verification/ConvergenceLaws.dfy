/** When planning and executing a recovery agree. */
module ConvergenceLaws {
  import opened Options
  import opened Convergence

  // ------------------------------------------------------------ plans

  lemma {:induction false} OfferedInOrder(r: Reading, c: Context)
    ensures Offered(r, c) == (if Available(NoOp, r, c) then [NoOp] else [])
                             + (if Available(RegistryToRuntime, r, c) then [RegistryToRuntime] else [])
                             + (if Available(RuntimeToRegistry, r, c) then [RuntimeToRegistry] else [])
                             + (if Available(ManualInvestigation, r, c) then [ManualInvestigation] else [])
  {
    hide Available;
    assert ACTION_ORDER[1..] == [RegistryToRuntime, RuntimeToRegistry, ManualInvestigation];
    assert ACTION_ORDER[2..] == [RuntimeToRegistry, ManualInvestigation];
    assert ACTION_ORDER[3..] == [ManualInvestigation] && ACTION_ORDER[4..] == [];
    assert ACTION_ORDER[1..][1..] == ACTION_ORDER[2..] && ACTION_ORDER[2..][1..] == ACTION_ORDER[3..]
           && ACTION_ORDER[3..][1..] == ACTION_ORDER[4..];
    assert Chosen(ACTION_ORDER[4..], r, c) == [];
    assert Chosen(ACTION_ORDER[3..], r, c) == if Available(ManualInvestigation, r, c) then [ManualInvestigation] else [];
    assert Chosen(ACTION_ORDER[2..], r, c)
           == (if Available(RuntimeToRegistry, r, c) then [RuntimeToRegistry] else []) + Chosen(ACTION_ORDER[3..], r, c);
    assert Chosen(ACTION_ORDER[1..], r, c)
           == (if Available(RegistryToRuntime, r, c) then [RegistryToRuntime] else []) + Chosen(ACTION_ORDER[2..], r, c);
  }

  lemma {:induction false} ListedExactly(none: bool, push: bool, pull: bool, open: bool, a: Action)
    ensures a in (if none then [NoOp] else []) + (if push then [RegistryToRuntime] else [])
                 + (if pull then [RuntimeToRegistry] else []) + (if open then [ManualInvestigation] else [])
            <==> match a case NoOp => none case RegistryToRuntime => push case RuntimeToRegistry => pull
                         case ManualInvestigation => open
  {
  }

  /** The offered actions are the available ones, in the fixed order. */
  lemma {:induction false} OfferedExactly(r: Reading, c: Context)
    ensures Offered(r, c) == (if Available(NoOp, r, c) then [NoOp] else [])
                             + (if Available(RegistryToRuntime, r, c) then [RegistryToRuntime] else [])
                             + (if Available(RuntimeToRegistry, r, c) then [RuntimeToRegistry] else [])
                             + (if Available(ManualInvestigation, r, c) then [ManualInvestigation] else [])
    ensures forall a :: a in Offered(r, c) <==> Available(a, r, c)
  {
    hide Available, Offered;
    OfferedInOrder(r, c);
    forall a ensures a in Offered(r, c) <==> Available(a, r, c) {
      ListedExactly(Available(NoOp, r, c), Available(RegistryToRuntime, r, c), Available(RuntimeToRegistry, r, c),
                    Available(ManualInvestigation, r, c), a);
    }
  }

  /** On every reading the recommended action is offered; doing nothing is offered exactly when
      converged, and then alone; a mismatch always leaves investigation open, and an unreported
      runtime leaves nothing else. */
  lemma {:induction false} PlansAreSound(r: Reading, c: Context)
    ensures Recommended(r, c) in Offered(r, c)
    ensures NoOp in Offered(r, c) <==> VerdictOf(r) == Converged
    ensures VerdictOf(r) == Converged <==> Offered(r, c) == [NoOp]
    ensures VerdictOf(r) == NotComparable ==> Offered(r, c) == [ManualInvestigation]
    ensures ManualInvestigation in Offered(r, c) <==> VerdictOf(r) != Converged
  {
    OfferedExactly(r, c);
  }

  /** What a plan offers and recommends, read off the versions and the surroundings. A runtime that
      reports nothing leaves only investigation, and agreement with what is desired leaves nothing to
      do. Otherwise the runtime is pushed to by an authoritative adapter that supports recovery, if the
      registry names the desired version, or the deployment's without one; the registry takes over a
      known runtime version; and investigation stays open, recommended only when neither is. */
  lemma {:induction false} PlansFollowReadings(r: Reading, c: Context)
    ensures var agree := r.registry == r.runtime && (r.desired == None || r.desired == r.registry);
            var push := && c.authoritative && c.supportsRecovery && r.registry.Some?
                        && r.registry == (if r.desired == None then Some(c.deployed) else r.desired);
            var pull := c.runtimeKnown && r.runtime.Some?;
            if r.state == Unknown then Offered(r, c) == [ManualInvestigation] && Recommended(r, c) == ManualInvestigation
            else if agree then Offered(r, c) == [NoOp] && Recommended(r, c) == NoOp
            else
              && Offered(r, c) == (if push then [RegistryToRuntime] else []) + (if pull then [RuntimeToRegistry] else [])
                                  + [ManualInvestigation]
              && (Recommended(r, c) == RegistryToRuntime <==> push)
              && (Recommended(r, c) == RuntimeToRegistry <==> pull && !push)
              && (Recommended(r, c) == ManualInvestigation <==> !pull && !push)
  {
    OfferedExactly(r, c);
    hide Offered;
  }

  /** `plan_reconciliation` refuses to plan when registry and runtime are consistent and no other
      version is desired; that is exactly the converged reading, so no stored plan offers `no_op`. */
  lemma {:induction false} RefusalIsConvergence(r: Reading)
    ensures Consistency(r) == Converged && (r.desired == None || r.desired == r.runtime) <==> VerdictOf(r) == Converged
  {
  }

  /** A conflict whose goal is met needs no recovery: with a runtime on the desired version, the
      diagnosis and the three-way comparison agree; only an untouched expectation may be retried. */
  lemma {:induction false} DiagnosisAgrees(expected: Option<VersionId>, r: Reading)
    ensures var d := Diagnose(expected, r.registry, r.desired, r.state);
            && (d == RuntimeUnknown <==> VerdictOf(r) == NotComparable)
            && (r.desired.Some? && r.runtime == r.desired ==> (d == TargetAlreadySatisfied <==> VerdictOf(r) == Converged))
            && (SafeToRetry(d)
                <==> r.state != Unknown && r.registry == expected && (r.desired == None || r.registry != r.desired))
  {
  }

  // ------------------------------------------------------------ execution

  /** The active version is one the registry holds. */
  predicate PointerKnown(s: System) { s.pointer.Some? ==> s.pointer.value in s.versions }

  /** A converged system is left exactly as it is, whatever stale plan and decision arrive. */
  lemma {:induction false} ConvergedIsFinal(
      s: System, d: Deployment, p: Provider, plan: Plan, a: Action, gateAllows: bool)
    requires VerdictOf(Read(s, d)) == Converged
    ensures Converge(s, d, p, plan, a, gateAllows) == (s, AlreadyConverged)
  {
  }

  /** A provider that accepts the deployment of a recovery that may be executed. */
  predicate CanDeploy(p: Provider, gateAllows: bool) { !p.failDeploy && gateAllows }

  /** What a call needs to change anything, read off before it: a push an accepting provider and a gate
      that allows it, a pull a version to move to; and a decision to do nothing still takes a version
      that registry and runtime agree on as the new target. */
  predicate Changes(r: Reading, d: Deployment, p: Provider, plan: Plan, a: Action, gateAllows: bool) {
    match a
    case NoOp => VerdictOf(r) == Mismatch && r.runtime.Some? && r.registry == r.runtime
    case RegistryToRuntime =>
      && CanDeploy(p, gateAllows) && VerdictOf(r) != Converged
      && (r.runtime != Some(d.version) || r.registry == Some(d.version))
    case RuntimeToRegistry =>
      plan.runtime.Some? && r.registry != plan.runtime && (r.state == Unknown || r.registry != r.runtime)
    case ManualInvestigation => false
  }

  /** A call leaves the system as it was exactly where it lacks what it needs, and a converged system
      always; a refused call reports convergence exactly on a converged system. */
  lemma {:induction false} ConvergeChangesExactly(
      s: System, d: Deployment, p: Provider, plan: Plan, a: Action, gateAllows: bool)
    requires PointerKnown(s) && (plan.runtime.Some? ==> plan.runtime.value in s.versions)
    ensures var (t, outcome) := Converge(s, d, p, plan, a, gateAllows);
            && (t != s <==> Changes(Read(s, d), d, p, plan, a, gateAllows))
            && (VerdictOf(Read(s, d)) == Converged ==> t == s && outcome == AlreadyConverged)
            && (a == ManualInvestigation || (a == RegistryToRuntime && !CanDeploy(p, gateAllows)) ==>
                  (outcome == AlreadyConverged <==> VerdictOf(Read(s, d)) == Converged))
  {
    var t := Converge(s, d, p, plan, a, gateAllows).0;
    if a == RegistryToRuntime && CanDeploy(p, gateAllows) && VerdictOf(Read(s, d)) != Converged {
      PushEffect(s, d, p, plan, gateAllows);
      assert Read(s, d).runtime == Some(d.version) <==> d.id in s.runtime && s.runtime[d.id] == Record(d.version, Active);
      assert Pushed(s, d) == s <==> Read(s, d).runtime == Some(d.version);
    }
  }

  /** What a successful push leaves: the package of the deployment runs, whatever was desired. */
  function Pushed(s: System, d: Deployment): System {
    s.(runtime := s.runtime[d.id := Record(d.version, Active)])
  }

  lemma {:induction false} PushEffect(s: System, d: Deployment, p: Provider, plan: Plan, gateAllows: bool)
    requires PointerKnown(s) && VerdictOf(Read(s, d)) != Converged && CanDeploy(p, gateAllows)
    ensures Converge(s, d, p, plan, RegistryToRuntime, gateAllows)
            == if s.pointer == Some(d.version) then (Pushed(s, d).(desired := s.pointer), Completed)
               else (Pushed(s, d), VerificationRequired)
  {
  }

  /** An offered push of the registry to the runtime leads to a plan of exactly `[no_op]` if and
      only if the registry points at the version the deployment holds a package for: it executes
      that package, not the registry's or the desired version. */
  lemma {:induction false} RegistryToRuntimeConvergesExactly(s: System, d: Deployment, p: Provider, gateAllows: bool)
    requires PointerKnown(s) && CanDeploy(p, gateAllows) && RegistryToRuntime in PlanFor(s, d, p).offered
    ensures var (t, outcome) := Converge(s, d, p, PlanFor(s, d, p), RegistryToRuntime, gateAllows);
            && (PlanFor(t, d, p).offered == [NoOp] <==> s.pointer == Some(d.version))
            && (outcome == Completed <==> s.pointer == Some(d.version))
            && (s.desired == None ==> s.pointer == Some(d.version))
            && (s.desired.Some? ==> s.pointer == s.desired)
  {
    OfferedExactly(Read(s, d), ContextOf(s, d, p));
    PushEffect(s, d, p, PlanFor(s, d, p), gateAllows);
    var t := Converge(s, d, p, PlanFor(s, d, p), RegistryToRuntime, gateAllows).0;
    PlansAreSound(Read(t, d), ContextOf(t, d, p));
  }

  /** The desired version can differ from the deployment's: registry and target both name
      `current`, the deployment holds `held`. The push is recommended, runs `held`, and the next
      plan offers and recommends it again. */
  lemma {:induction false} PushCanLoop(held: VersionId, current: VersionId)
    requires held != current
    ensures var versions := map[held := Retired, current := InUse];
            var s := System(Some(current), versions, map["d" := Record(held, RolledBack)], Some(current));
            var d, p := Deployment("d", held), Provider(true, true, false);
            var (t, outcome) := Converge(s, d, p, PlanFor(s, d, p), RegistryToRuntime, true);
            && PlanFor(s, d, p).recommended == RegistryToRuntime
            && outcome == VerificationRequired && PlanFor(t, d, p).recommended == RegistryToRuntime
            && Converge(t, d, p, PlanFor(t, d, p), RegistryToRuntime, true) == (t, VerificationRequired)
  {
    var versions := map[held := Retired, current := InUse];
    var s := System(Some(current), versions, map["d" := Record(held, RolledBack)], Some(current));
    var d, p := Deployment("d", held), Provider(true, true, false);
    var t := Pushed(s, d);
    assert t.runtime == map["d" := Record(held, Active)];
    assert Pushed(t, d) == t;
    assert Read(s, d) == Reading(Some(current), None, RolledBack, Some(current));
    assert Read(t, d) == Reading(Some(current), Some(held), Active, Some(current));
    PushRecommended(s, d, p);
    PushRecommended(t, d, p);
    hide Offered, Recommended, Converge;
    PushEffect(s, d, p, PlanFor(s, d, p), true);
    PushEffect(t, d, p, PlanFor(t, d, p), true);
  }

  lemma {:induction false} PushRecommended(s: System, d: Deployment, p: Provider)
    requires VerdictOf(Read(s, d)) == Mismatch && Available(RegistryToRuntime, Read(s, d), ContextOf(s, d, p))
    ensures PlanFor(s, d, p).recommended == RegistryToRuntime
  {
    OfferedExactly(Read(s, d), ContextOf(s, d, p));
    hide Offered, Available;
  }

  lemma {:induction false} PullEffect(s: System, d: Deployment, p: Provider, gateAllows: bool)
    requires PointerKnown(s) && RuntimeToRegistry in PlanFor(s, d, p).offered
    ensures var runtime := Read(s, d).runtime;
            && runtime.Some? && runtime.value in s.versions && VerdictOf(Read(s, d)) == Mismatch
            && Converge(s, d, p, PlanFor(s, d, p), RuntimeToRegistry, gateAllows)
               == if s.pointer == runtime then (s, AlreadyConverged)
                  else if s.pointer == None then (s.(pointer := runtime), ExecutionFailed)
                  else (s.(pointer := runtime, desired := runtime,
                           versions := s.versions[s.pointer.value := Retired][runtime.value := InUse]), Completed)
  {
    OfferedExactly(Read(s, d), ContextOf(s, d, p));
    hide Offered, Recommended;
  }

  /** An offered pull of the runtime into the registry, executed on the reading it was planned for,
      leads to a plan of exactly `[no_op]` if and only if there is an old pointer to move away, or
      nothing else is desired. Already agreeing with the runtime is taken as success although
      another version is desired; with no old pointer the move is reported as failed. */
  lemma {:induction false} RuntimeToRegistryConvergesExactly(s: System, d: Deployment, p: Provider, gateAllows: bool)
    requires PointerKnown(s) && RuntimeToRegistry in PlanFor(s, d, p).offered
    ensures var (t, outcome) := Converge(s, d, p, PlanFor(s, d, p), RuntimeToRegistry, gateAllows);
            var runtime := Read(s, d).runtime;
            && (PlanFor(t, d, p).offered == [NoOp]
                <==> (s.pointer.Some? && s.pointer != runtime) || s.desired == None || s.desired == runtime)
            && (outcome == Completed <==> s.pointer.Some? && s.pointer != runtime)
            && (outcome == AlreadyConverged <==> s.pointer == runtime)
            && (outcome == AlreadyConverged ==> s.desired.Some? && s.desired != runtime && t == s)
            && (outcome == ExecutionFailed ==> t.pointer == runtime)
  {
    PullEffect(s, d, p, gateAllows);
    var t := Converge(s, d, p, PlanFor(s, d, p), RuntimeToRegistry, gateAllows).0;
    assert Read(t, d).runtime == Read(s, d).runtime && Read(t, d).state == Read(s, d).state;
    PlansAreSound(Read(t, d), ContextOf(t, d, p));
  }

  /** A pull executed after the runtime moved on never verifies and never changes the target: it
      moves the pointer to the version of the outdated plan. */
  lemma {:induction false} OutdatedPullNeverVerifies(
      s: System, d: Deployment, p: Provider, plan: Plan, gateAllows: bool)
    requires PointerKnown(s) && plan.runtime.Some? && plan.runtime.value in s.versions
    requires Read(s, d).state != Unknown && plan.runtime != Read(s, d).runtime && s.pointer != Read(s, d).runtime
    ensures var (t, outcome) := Converge(s, d, p, plan, RuntimeToRegistry, gateAllows);
            && t.pointer == plan.runtime && t.desired == s.desired && t.runtime == s.runtime
            && outcome in {VerificationRequired, ExecutionFailed} && VerdictOf(Read(t, d)) == Mismatch
  {
  }

  // ------------------------------------------------------------ whole runs

  /** Exactly the active version is in use. */
  ghost predicate OneInUse(s: System) {
    forall v | v in s.versions :: s.versions[v] == InUse <==> s.pointer == Some(v)
  }

  /** Every call keeps the pointer on a known version, and exactly that version in use unless the
      call had no pointer to start from. */
  lemma {:induction false} ConvergeKeepsRegistry(
      s: System, d: Deployment, p: Provider, plan: Plan, a: Action, gateAllows: bool)
    requires PointerKnown(s) && (plan.runtime.Some? ==> plan.runtime.value in s.versions)
    ensures var t := Converge(s, d, p, plan, a, gateAllows).0;
            && PointerKnown(t) && t.versions.Keys == s.versions.Keys
            && (s.pointer.Some? && OneInUse(s) ==> t.pointer.Some? && OneInUse(t))
  {
    var t := Converge(s, d, p, plan, a, gateAllows).0;
    if t.pointer != s.pointer || t.versions != s.versions {
      assert a == RuntimeToRegistry && t.pointer == plan.runtime && s.pointer != plan.runtime;
      assert t.versions == if s.pointer == None then s.versions
                           else s.versions[s.pointer.value := Retired][plan.runtime.value := InUse];
    }
  }

  /** One round of following the plan: plan afresh and execute what it recommends. */
  function Follow(s: System, d: Deployment, p: Provider, rounds: nat): System {
    if rounds == 0 then s
    else
      var t := Follow(s, d, p, rounds - 1);
      Converge(t, d, p, PlanFor(t, d, p), PlanFor(t, d, p).recommended, true).0
  }

  /** Following the recommendations settles in one round: later rounds change nothing, converged or
      not. */
  lemma {:induction false} FollowingSettlesInOneRound(s: System, d: Deployment, p: Provider, rounds: nat)
    requires PointerKnown(s) && rounds >= 1
    ensures Follow(s, d, p, rounds) == Follow(s, d, p, 1)
  {
    if rounds > 1 {
      FollowingSettlesInOneRound(s, d, p, rounds - 1);
      var t := Follow(s, d, p, 1);
      assert Follow(s, d, p, 0) == s;
      Settled(s, d, p);
    }
  }

  lemma {:induction false} RecommendedCases(s: System, d: Deployment, p: Provider)
    ensures var a := PlanFor(s, d, p).recommended;
            && a in PlanFor(s, d, p).offered
            && (a == NoOp <==> VerdictOf(Read(s, d)) == Converged)
            && (a == RegistryToRuntime ==> Available(RegistryToRuntime, Read(s, d), ContextOf(s, d, p)))
            && (a == RuntimeToRegistry ==> !Available(RegistryToRuntime, Read(s, d), ContextOf(s, d, p)))
  {
    PlansAreSound(Read(s, d), ContextOf(s, d, p));
    OfferedExactly(Read(s, d), ContextOf(s, d, p));
  }

  lemma {:induction false} Settled(s: System, d: Deployment, p: Provider)
    requires PointerKnown(s)
    ensures var t := Converge(s, d, p, PlanFor(s, d, p), PlanFor(s, d, p).recommended, true).0;
            Converge(t, d, p, PlanFor(t, d, p), PlanFor(t, d, p).recommended, true).0 == t
  {
    RecommendedCases(s, d, p);
    var a := PlanFor(s, d, p).recommended;
    var t := Converge(s, d, p, PlanFor(s, d, p), a, true).0;
    if VerdictOf(Read(t, d)) == Converged {
      ConvergedIsFinal(t, d, p, PlanFor(t, d, p), PlanFor(t, d, p).recommended, true);
    } else if a == RegistryToRuntime && !p.failDeploy {
      SettledPush(s, d, p);
    } else if a == RuntimeToRegistry {
      SettledPull(s, d, p);
    } else {
      assert t == s;
    }
  }

  lemma {:induction false} SettledPush(s: System, d: Deployment, p: Provider)
    requires PointerKnown(s) && PlanFor(s, d, p).recommended == RegistryToRuntime && !p.failDeploy
    ensures var t := Converge(s, d, p, PlanFor(s, d, p), RegistryToRuntime, true).0;
            VerdictOf(Read(t, d)) != Converged ==>
              Converge(t, d, p, PlanFor(t, d, p), PlanFor(t, d, p).recommended, true).0 == t
  {
    RecommendedCases(s, d, p);
    PushEffect(s, d, p, PlanFor(s, d, p), true);
    var t := Converge(s, d, p, PlanFor(s, d, p), RegistryToRuntime, true).0;
    if s.pointer != Some(d.version) {
      OfferedExactly(Read(t, d), ContextOf(t, d, p));
      assert t == Pushed(s, d) == Pushed(t, d);
      assert Available(RegistryToRuntime, Read(t, d), ContextOf(t, d, p));
      PushEffect(t, d, p, PlanFor(t, d, p), true);
    }
  }

  lemma {:induction false} SettledPull(s: System, d: Deployment, p: Provider)
    requires PointerKnown(s) && PlanFor(s, d, p).recommended == RuntimeToRegistry
    ensures var t := Converge(s, d, p, PlanFor(s, d, p), RuntimeToRegistry, true).0;
            VerdictOf(Read(t, d)) != Converged ==>
              Converge(t, d, p, PlanFor(t, d, p), PlanFor(t, d, p).recommended, true).0 == t
  {
    RecommendedCases(s, d, p);
    PullEffect(s, d, p, true);
    var t := Converge(s, d, p, PlanFor(s, d, p), RuntimeToRegistry, true).0;
    if VerdictOf(Read(t, d)) != Converged {
      assert t.pointer == Read(t, d).runtime && t.desired.Some? && t.desired != t.pointer;
      RecommendedCases(t, d, p);
      OfferedExactly(Read(t, d), ContextOf(t, d, p));
      assert PlanFor(t, d, p).recommended == RuntimeToRegistry;
      PullEffect(t, d, p, true);
    }
  }
}
