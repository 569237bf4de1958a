/** When the stored hash can be trusted: exactly which clusters let every skip leave the right Secret,
    and exactly which reconciliations keep it so. */
module Agreement {
  import opened Text
  import opened Clusters
  import opened Reconciliation
  import opened Runs
  import opened Guarantees
  import StateHash

  /******* The states that a run plans *******/

  // The state that a reconciliation plans, if it plans one.
  ghost function PlannedBy(env: Env, c: Cluster, x: Inputs): set<StateHash.State> {
    match Observed(c, x.read)
    case None => {}
    case Some(ss) => if PlanFor(env, ss, x).Desired? then {PlanFor(env, ss, x).state} else {}
  }

  ghost function Planned(env: Env, init: Cluster, actions: seq<Action>): set<StateHash.State> {
    if |actions| == 0 then {}
    else
      var n := |actions| - 1;
      Planned(env, init, actions[..n])
      + (if actions[n].Run? then PlannedBy(env, Exec(env, init, actions[..n], false), actions[n].inputs) else {})
  }

  // Some answers of the provider lead to the patch, for the object as it was when the patch was built.
  ghost predicate CanBePlanned(env: Env, a: Applied) {
    exists v, x :: BuiltFrom(a, v) && PlanFor(env, v, x) == Desired(a.state)
  }

  // Every applied patch is one of these states, and could be planned again.
  ghost predicate AppliedIn(env: Env, c: Cluster, states: set<StateHash.State>) {
    forall a :: a in c.applied ==> a.state in states && CanBePlanned(env, a)
  }

  // The object in hand is the one that was read, but for its status.
  lemma ReadySame(c: Cluster, ss: SecretSync, o: Outcome)
    requires VersionsOk(c) && ss in c.versions
    ensures
      var (d, ready) := Initialise(c, ss, o);
      && d.applied == c.applied && d.secret == c.secret
      && (ready.Some? ==> SameSpec(ss, ready.value) && ready.value in d.versions)
  {
    if |ss.status.conditions| < 2 && Accepts(c, WithInitialConditions(ss), o) {
      AcceptedMeansCurrent(c, ss, WithInitialConditions(ss), o);
    }
  }

  lemma PatchApplies(env: Env, c: Cluster, ss: SecretSync, x: Inputs, states: set<StateHash.State>)
    requires AppliedIn(env, c, states)
    requires PlanFor(env, ss, x).Desired? && PlanFor(env, ss, x).state in states
    ensures AppliedIn(env, PatchSecret(c, ss, PlanFor(env, ss, x).state, x.patch), states)
  {
    var state := PlanFor(env, ss, x).state;
    var c' := PatchSecret(c, ss, state, x.patch);
    forall a | a in c'.applied && a !in c.applied ensures a.state in states && CanBePlanned(env, a) {
      assert BuiltFrom(a, ss) && PlanFor(env, ss, x) == Desired(a.state);
    }
  }

  lemma WriteAppliesNothing(c: Cluster, next: SecretSync, o: Outcome)
    ensures WriteStatus(c, next, o).applied == c.applied && WriteStatus(c, next, o).secret == c.secret
  {
  }

  lemma ActApplies(env: Env, c: Cluster, ss: SecretSync, x: Inputs, states: set<StateHash.State>)
    requires AppliedIn(env, c, states)
    requires PlanFor(env, ss, x).Desired? ==> PlanFor(env, ss, x).state in states
    ensures AppliedIn(env, Act(env, c, ss, x, false).cluster, states)
  {
    match PlanFor(env, ss, x)
    case Refusal(reason) => WriteAppliesNothing(c, WithCondition(ss, Phase(ss), False, reason), x.write);
    case Desired(state) =>
      var hash := StateHash.SyncHash(env.kdf, state);
      PatchApplies(env, c, ss, x, states);
      var next := if x.patch.Done? then AfterSuccess(ss, hash, c.clock) else AfterPatchFailure(ss, hash);
      WriteAppliesNothing(PatchSecret(c, ss, state, x.patch), next, x.write);
  }

  lemma ReconcileApplies(env: Env, c: Cluster, x: Inputs, states: set<StateHash.State>)
    requires Inv(env, c) && AppliedIn(env, c, states) && PlannedBy(env, c, x) <= states
    ensures AppliedIn(env, Reconcile(env, c, x).cluster, states)
  {
    var seen := Observed(c, x.read);
    if seen.Some? {
      ReadySame(c, seen.value, x.initWrite);
      var (d, ready) := Initialise(c, seen.value, x.initWrite);
      if ready.Some? {
        PlanOfSame(env, seen.value, ready.value, x);
        ActApplies(env, d, ready.value, x, states);
      }
    }
  }

  lemma AppliedInMore(env: Env, c: Cluster, fewer: set<StateHash.State>, states: set<StateHash.State>)
    requires fewer <= states && AppliedIn(env, c, fewer)
    ensures AppliedIn(env, c, states)
  {
  }

  // In every run, each applied patch carries a state that one of its reconciliations planned.
  lemma {:induction false} AppliedWerePlanned(env: Env, init: Cluster, actions: seq<Action>)
    requires Initial(init)
    ensures AppliedIn(env, Exec(env, init, actions, false), Planned(env, init, actions))
  {
    if |actions| > 0 {
      var n := |actions| - 1;
      AppliedWerePlanned(env, init, actions[..n]);
      AppliedInMore(env, Exec(env, init, actions[..n], false), Planned(env, init, actions[..n]), Planned(env, init, actions));
      if actions[n].Run? {
        ReachableInv(env, init, actions[..n], false);
        ReconcileApplies(env, Exec(env, init, actions[..n], false), actions[n].inputs, Planned(env, init, actions));
      }
    }
  }

  /******* Agreement *******/

  // `c.secret` is what the plan for `ss` describes.
  ghost predicate UpToDate(env: Env, c: Cluster, ss: SecretSync, x: Inputs) {
    && PlanFor(env, ss, x).Desired?
    && c.secret == Some(PatchFor(ss.uid, ss.spec, PlanFor(env, ss, x).state.data.value))
  }

  lemma UpToDateForSame(env: Env, c: Cluster, ss: SecretSync, ss': SecretSync, x: Inputs)
    requires SameSpec(ss, ss') && UpToDate(env, c, ss, x)
    ensures UpToDate(env, c, ss', x)
  {
    PlanOfSame(env, ss, ss', x);
  }

  // Whatever the provider answers, among answers that lead to one of these states: if a reconciliation
  // of the current object skips, the Secret is the one that patching would leave.
  ghost predicate SkipsAreRight(env: Env, c: Cluster, states: set<StateHash.State>) {
    forall x: Inputs :: x.read.Fresh? && PlannedBy(env, c, x) <= states && Reconcile(env, c, x).verdict.Skipped? ==>
      c.current.Some? && UpToDate(env, c, c.current.value, x)
  }

  // The stored hash is that of `a`, and `a` was a patch for this generation of the object.
  ghost predicate Vouches(env: Env, a: Applied, ss: SecretSync) {
    a.state.syncUid == ss.uid && a.state.syncGeneration == ss.generation && IsHashOf(env, a, ss.status.syncHash)
  }

  ghost predicate IsVouchedFor(env: Env, c: Cluster) {
    c.current.Some? && exists a :: a in c.applied && Vouches(env, a, c.current.value)
  }

  // A hash is stored and no failure forces the next patch.
  predicate MaySkip(c: Cluster) {
    c.current.Some? && c.current.value.status.syncHash != "" && !Failing(c)
  }

  // The Secret is still that of the patch that the stored hash stands for, if the hash is of the
  // current generation and can make a reconciliation skip.
  ghost predicate Agrees(env: Env, c: Cluster) {
    MaySkip(c) ==> forall a :: a in c.applied && Vouches(env, a, c.current.value) ==> c.secret == Some(a.secret)
  }

  // A vouching patch was built from the current spec.
  lemma VouchedSecret(env: Env, c: Cluster, a: Applied)
    requires Inv(env, c) && c.current.Some? && a in c.applied
    requires a.state.syncUid == c.current.value.uid && a.state.syncGeneration == c.current.value.generation
    ensures a.state.data.Some?
    ensures a.secret == PatchFor(c.current.value.uid, c.current.value.spec, a.state.data.value)
    ensures StateHash.ValidUids(a.state)
  {
    var v :| v in c.versions && BuiltFrom(a, v);
    assert v.spec == c.current.value.spec;
  }

  lemma SkipIsRight(env: Env, c: Cluster, ss: SecretSync, state: StateHash.State, states: set<StateHash.State>)
    requires Inv(env, c) && Agrees(env, c) && c.current == Some(ss) && IsStateOf(state, ss)
    requires StateHash.CollisionFree(env.kdf, states) && AppliedIn(env, c, states) && state in states
    requires Skips(ss, StateHash.SyncHash(env.kdf, state), false)
    ensures c.secret == Some(PatchFor(ss.uid, ss.spec, state.data.value))
  {
    assert HashWasApplied(env, c.applied, ss);
    var a :| && a in c.applied && a.reported && IsHashOf(env, a, ss.status.syncHash)
             && a.state.syncUid == ss.uid && a.state.syncGeneration <= ss.generation;
    AppliedIsValid(env, c, a);
    StateHash.SyncHashInjective(env.kdf, states, a.state, state);
    VouchedSecret(env, c, a);
    assert Vouches(env, a, ss);
  }

  lemma AppliedIsValid(env: Env, c: Cluster, a: Applied)
    requires Inv(env, c) && a in c.applied
    ensures StateHash.ValidUids(a.state)
  {
    var v :| v in c.versions && BuiltFrom(a, v);
  }

  // A reconciliation of the current object can skip only if it has both conditions.
  lemma SkipStep(env: Env, c: Cluster, x: Inputs)
    requires c.current.Some? && StatusOk(c.current.value.status, c.clock) && x.read.Fresh?
    ensures
      var ss := c.current.value;
      Reconcile(env, c, x).verdict.Skipped? <==>
        PlanFor(env, ss, x).Desired? && Skips(ss, StateHash.SyncHash(env.kdf, PlanFor(env, ss, x).state), false)
  {
    FreshStep(env, c, x);
    var (d, ready) := Initialise(c, c.current.value, x.initWrite);
    if ready.Some? {
      PlanOfSame(env, c.current.value, ready.value, x);
    }
  }

  // Agreement is exactly what skipping needs.
  lemma AgreementIsExact(env: Env, c: Cluster, states: set<StateHash.State>)
    requires Inv(env, c) && StateHash.CollisionFree(env.kdf, states) && AppliedIn(env, c, states)
    ensures SkipsAreRight(env, c, states) <==> Agrees(env, c)
  {
    if Agrees(env, c) {
      forall x: Inputs | x.read.Fresh? && PlannedBy(env, c, x) <= states && Reconcile(env, c, x).verdict.Skipped?
        ensures c.current.Some? && UpToDate(env, c, c.current.value, x)
      {
        var ss := c.current.value;
        CurrentStatus(env, c);
        SkipStep(env, c, x);
        SkipIsRight(env, c, ss, PlanFor(env, ss, x).state, states);
      }
    }
    if SkipsAreRight(env, c, states) && MaySkip(c) {
      forall a | a in c.applied && Vouches(env, a, c.current.value) ensures c.secret == Some(a.secret) {
        CurrentStatus(env, c);
        WrongSkip(env, c, a, states);
      }
    }
  }

  lemma CurrentStatus(env: Env, c: Cluster)
    requires Inv(env, c) && c.current.Some?
    ensures StatusOk(c.current.value.status, c.clock)
  {
  }

  // The provider may answer again as it did for a patch of this generation.
  lemma PlannedAgain(env: Env, c: Cluster, a: Applied) returns (x: Inputs)
    requires Inv(env, c) && a in c.applied && CanBePlanned(env, a) && c.current.Some?
    requires a.state.syncUid == c.current.value.uid && a.state.syncGeneration == c.current.value.generation
    ensures x.read.Fresh? && PlanFor(env, c.current.value, x) == Desired(a.state)
  {
    var v, y :| BuiltFrom(a, v) && PlanFor(env, v, y) == Desired(a.state);
    SpecOfApplied(env, c, a, v);
    x := y.(read := Fresh);
    PlanOfSame(env, v, c.current.value, x);
  }

  // If it does so for a vouching patch, the reconciliation skips.
  lemma WrongSkip(env: Env, c: Cluster, a: Applied, states: set<StateHash.State>)
    requires Inv(env, c) && AppliedIn(env, c, states) && SkipsAreRight(env, c, states)
    requires MaySkip(c) && StatusOk(c.current.value.status, c.clock)
    requires a in c.applied && Vouches(env, a, c.current.value)
    ensures c.secret == Some(a.secret)
  {
    VouchedSecret(env, c, a);
    var x := PlannedAgain(env, c, a);
    SkipStep(env, c, x);
    assert Reconcile(env, c, x).verdict.Skipped?;
    assert UpToDate(env, c, c.current.value, x);
  }

  lemma SpecOfApplied(env: Env, c: Cluster, a: Applied, v: SecretSync)
    requires Inv(env, c) && c.current.Some? && a in c.applied && BuiltFrom(a, v)
    requires a.state.syncUid == c.current.value.uid && a.state.syncGeneration == c.current.value.generation
    ensures SameSpec(v, c.current.value)
  {
    var u :| u in c.versions && BuiltFrom(a, u);
    assert u.spec == c.current.value.spec;
  }

  /******* Which reconciliations keep it *******/

  // The object in hand and the state that are about to be patched, by the guards of the source.
  ghost function Attempted(env: Env, c: Cluster, x: Inputs): Option<(SecretSync, StateHash.State)> {
    match Observed(c, x.read)
    case None => None
    case Some(read) =>
      var ready := Initialise(c, read, x.initWrite).1;
      if ready.None? then None
      else
        match PlanFor(env, ready.value, x)
        case Refusal(_) => None
        case Desired(state) =>
          if Skips(ready.value, StateHash.SyncHash(env.kdf, state), false) then None else Some((ready.value, state))
  }

  // The outcome of the attempt is recorded: the version that was read is still stored, and the status
  // write takes effect.
  predicate Records(c: Cluster, x: Inputs) {
    Observed(c, x.read) == c.current && !x.write.Lost?
  }

  // Nothing is patched, the outcome is recorded, the stored hash cannot mislead anyway, or the Secret
  // stays what it is.
  ghost predicate KeepsAgreement(env: Env, c: Cluster, x: Inputs) {
    match Attempted(env, c, x)
    case None => true
    case Some((ss, state)) =>
      || x.patch.Lost? || Records(c, x)
      || !MaySkip(c) || !IsVouchedFor(env, c)
      || (state.data.Some? && c.secret == Some(PatchFor(ss.uid, ss.spec, state.data.value)))
  }

  lemma FailingAgrees(env: Env, c: Cluster)
    requires Failing(c) || c.current.None? || c.current.value.status.syncHash == ""
    ensures Agrees(env, c)
  {
  }

  // A step that keeps the log, the Secret and the stored hash keeps agreement, unless it clears a failure.
  lemma SameAgrees(env: Env, c: Cluster, d: Cluster)
    requires Agrees(env, c) && d.applied == c.applied && d.secret == c.secret
    requires MaySkip(d) ==> MaySkip(c) && SameSpec(c.current.value, d.current.value)
                            && c.current.value.status.syncHash == d.current.value.status.syncHash
    ensures Agrees(env, d)
  {
    if MaySkip(d) {
      forall a | a in d.applied && Vouches(env, a, d.current.value) ensures d.secret == Some(a.secret) {
        assert Vouches(env, a, c.current.value);
      }
    }
  }

  // A patch whose outcome is not recorded.
  lemma UnrecordedAgrees(env: Env, c: Cluster, ss: SecretSync, state: StateHash.State, o: Outcome)
    requires Agrees(env, c) && state.data.Some? && !o.Lost?
    ensures
      Agrees(env, PatchSecret(c, ss, state, o)) <==>
      || !MaySkip(c) || !IsVouchedFor(env, c)
      || c.secret == Some(PatchFor(ss.uid, ss.spec, state.data.value))
  {
    var d := PatchSecret(c, ss, state, o);
    var b := d.applied[|c.applied|];
    assert MaySkip(d) <==> MaySkip(c);
    if MaySkip(c) && IsVouchedFor(env, c) {
      var a :| a in c.applied && Vouches(env, a, c.current.value);
      assert a in d.applied && Vouches(env, a, d.current.value);
      assert c.secret == Some(a.secret);
    }
    if MaySkip(c) {
      forall a | a in d.applied && a != b ensures a in c.applied {
      }
    }
  }

  lemma RecordedAgrees(env: Env, c: Cluster, ss: SecretSync, state: StateHash.State, x: Inputs, states: set<StateHash.State>)
    requires Inv(env, c) && c.current == Some(ss) && IsStateOf(state, ss)
    requires StatusOk(ss.status, c.clock) && |ss.status.conditions| == 2
    requires StateHash.CollisionFree(env.kdf, states) && AppliedIn(env, c, states) && state in states
    requires !Skips(ss, StateHash.SyncHash(env.kdf, state), false) && x.patch.Done? && !x.write.Lost?
    ensures Agrees(env, Attempt(c, ss, state, StateHash.SyncHash(env.kdf, state), x).cluster)
  {
    var hash := StateHash.SyncHash(env.kdf, state);
    AttemptRecorded(c, ss, state, hash, x);
    var d := Attempt(c, ss, state, hash, x).cluster;
    forall a | a in d.applied && Vouches(env, a, d.current.value) ensures d.secret == Some(a.secret) {
      if a in c.applied {
        SameHashSameSecret(env, c, a, state, states);
      }
    }
  }

  lemma SameHashSameSecret(env: Env, c: Cluster, a: Applied, state: StateHash.State, states: set<StateHash.State>)
    requires Inv(env, c) && c.current.Some? && IsStateOf(state, c.current.value) && a in c.applied
    requires StateHash.CollisionFree(env.kdf, states) && AppliedIn(env, c, states) && state in states
    requires IsHashOf(env, a, StateHash.SyncHash(env.kdf, state))
    ensures a.secret == PatchFor(c.current.value.uid, c.current.value.spec, state.data.value)
  {
    AppliedIsValid(env, c, a);
    StateHash.SyncHashInjective(env.kdf, states, a.state, state);
    VouchedSecret(env, c, a);
  }

  // Two clusters that let the same reconciliations skip, for the same reasons.
  ghost predicate SameTrust(c: Cluster, d: Cluster) {
    && d.applied == c.applied && d.secret == c.secret && c.current.Some? && d.current.Some?
    && SameSpec(c.current.value, d.current.value) && MaySkip(c) == MaySkip(d)
    && c.current.value.status.syncHash == d.current.value.status.syncHash
  }

  lemma TrustIsShared(env: Env, c: Cluster, d: Cluster)
    requires SameTrust(c, d)
    ensures Agrees(env, c) <==> Agrees(env, d)
    ensures IsVouchedFor(env, c) <==> IsVouchedFor(env, d)
  {
    assert forall a :: Vouches(env, a, c.current.value) <==> Vouches(env, a, d.current.value);
  }

  lemma NotReadyAgrees(env: Env, c: Cluster, o: Outcome)
    requires Agrees(env, c) && c.current.Some? && StatusOk(c.current.value.status, c.clock)
    ensures Agrees(env, Initialise(c, c.current.value, o).0)
  {
    var d := Initialise(c, c.current.value, o).0;
    if |c.current.value.status.conditions| < 2 {
      InitialConditionsOk(c.current.value, c.clock);
      FailingAgrees(env, d);
    }
  }

  lemma RefusalAgrees(env: Env, c: Cluster, ss: SecretSync, reason: Reason, o: Outcome)
    requires Agrees(env, c) && c.current == Some(ss)
    requires StatusOk(ss.status, c.clock) && |ss.status.conditions| == 2
    requires reason in FAILED_CONDITIONS_TRIGGERING_RETRY
    ensures Agrees(env, WriteStatus(c, WithCondition(ss, Phase(ss), False, reason), o))
  {
    FailureOk(ss, reason, c.clock);
    if !o.Lost? {
      FailingAgrees(env, WriteStatus(c, WithCondition(ss, Phase(ss), False, reason), o));
    }
  }

  // A failed patch whose failure is recorded forces the next one.
  lemma FailureAgrees(env: Env, c: Cluster, ss: SecretSync, state: StateHash.State, hash: string, x: Inputs)
    requires c.current == Some(ss) && state.data.Some?
    requires StatusOk(ss.status, c.clock) && |ss.status.conditions| == 2
    requires !x.patch.Done? && !x.write.Lost?
    ensures Agrees(env, Attempt(c, ss, state, hash, x).cluster)
  {
    PatchFailureOk(ss, hash, c.clock);
    FailingAgrees(env, Attempt(c, ss, state, hash, x).cluster);
  }

  lemma AttemptKept(env: Env, c: Cluster, ss: SecretSync, state: StateHash.State, x: Inputs, states: set<StateHash.State>)
    requires Inv(env, c) && Agrees(env, c) && c.current == Some(ss) && IsStateOf(state, ss)
    requires StatusOk(ss.status, c.clock) && |ss.status.conditions| == 2
    requires StateHash.CollisionFree(env.kdf, states) && AppliedIn(env, c, states) && state in states
    requires !Skips(ss, StateHash.SyncHash(env.kdf, state), false)
    ensures
      Agrees(env, Attempt(c, ss, state, StateHash.SyncHash(env.kdf, state), x).cluster) <==>
      || x.patch.Lost? || !x.write.Lost? || !MaySkip(c) || !IsVouchedFor(env, c)
      || c.secret == Some(PatchFor(ss.uid, ss.spec, state.data.value))
  {
    var hash := StateHash.SyncHash(env.kdf, state);
    if x.write.Lost? {
      assert Attempt(c, ss, state, hash, x).cluster == PatchSecret(c, ss, state, x.patch);
      if !x.patch.Lost? {
        UnrecordedAgrees(env, c, ss, state, x.patch);
      }
    } else if x.patch.Done? {
      RecordedAgrees(env, c, ss, state, x, states);
    } else {
      FailureAgrees(env, c, ss, state, hash, x);
    }
  }

  lemma ActKept(env: Env, c: Cluster, ss: SecretSync, x: Inputs, states: set<StateHash.State>)
    requires Inv(env, c) && Agrees(env, c) && c.current == Some(ss)
    requires StatusOk(ss.status, c.clock) && |ss.status.conditions| == 2
    requires StateHash.CollisionFree(env.kdf, states) && AppliedIn(env, c, states)
    requires PlanFor(env, ss, x).Desired? ==> PlanFor(env, ss, x).state in states
    ensures
      Agrees(env, Act(env, c, ss, x, false).cluster) <==>
      match PlanFor(env, ss, x)
      case Refusal(_) => true
      case Desired(state) =>
        || Skips(ss, StateHash.SyncHash(env.kdf, state), false)
        || x.patch.Lost? || !x.write.Lost? || !MaySkip(c) || !IsVouchedFor(env, c)
        || c.secret == Some(PatchFor(ss.uid, ss.spec, state.data.value))
  {
    match PlanFor(env, ss, x)
    case Refusal(reason) => RefusalAgrees(env, c, ss, reason, x.write);
    case Desired(state) =>
      if !Skips(ss, StateHash.SyncHash(env.kdf, state), false) {
        AttemptKept(env, c, ss, state, x, states);
      }
  }

  lemma FreshKept(env: Env, c: Cluster, x: Inputs, states: set<StateHash.State>)
    requires Inv(env, c) && Agrees(env, c) && c.current.Some? && x.read.Fresh?
    requires StateHash.CollisionFree(env.kdf, states) && AppliedIn(env, c, states) && PlannedBy(env, c, x) <= states
    ensures Agrees(env, Reconcile(env, c, x).cluster) <==> KeepsAgreement(env, c, x)
  {
    CurrentStatus(env, c);
    FreshStep(env, c, x);
    NotReadyAgrees(env, c, x.initWrite);
    var (d, ready) := Initialise(c, c.current.value, x.initWrite);
    if ready.Some? {
      ReadyTrust(env, c, x.initWrite);
      AppliedInSame(env, c, d, states);
      PlanOfSame(env, c.current.value, ready.value, x);
      ActKept(env, d, ready.value, x, states);
      AttemptedFresh(env, c, d, ready.value, x);
    }
  }

  lemma AppliedInSame(env: Env, c: Cluster, d: Cluster, states: set<StateHash.State>)
    requires AppliedIn(env, c, states) && d.applied == c.applied
    ensures AppliedIn(env, d, states)
  {
  }

  // Initialising changes nothing that skipping depends on.
  lemma ReadyTrust(env: Env, c: Cluster, o: Outcome)
    requires Inv(env, c) && c.current.Some? && Initialise(c, c.current.value, o).1.Some?
    ensures
      var (d, ready) := Initialise(c, c.current.value, o);
      && Inv(env, d) && SameTrust(c, d) && IsReady(c, d, ready.value)
      && (Agrees(env, c) <==> Agrees(env, d)) && (IsVouchedFor(env, c) <==> IsVouchedFor(env, d))
  {
    CurrentStatus(env, c);
    FreshReady(c, o);
    InitialiseKeepsInv(env, c, c.current.value, o);
    TrustIsShared(env, c, Initialise(c, c.current.value, o).0);
  }

  lemma AttemptedFresh(env: Env, c: Cluster, d: Cluster, ss: SecretSync, x: Inputs)
    requires c.current.Some? && x.read.Fresh? && Initialise(c, c.current.value, x.initWrite) == (d, Some(ss))
    requires SameTrust(c, d) && (IsVouchedFor(env, c) <==> IsVouchedFor(env, d))
    ensures
      KeepsAgreement(env, c, x) <==>
      match PlanFor(env, ss, x)
      case Refusal(_) => true
      case Desired(state) =>
        || Skips(ss, StateHash.SyncHash(env.kdf, state), false)
        || x.patch.Lost? || !x.write.Lost? || !MaySkip(d) || !IsVouchedFor(env, d)
        || d.secret == Some(PatchFor(ss.uid, ss.spec, state.data.value))
  {
  }

  lemma StaleKept(env: Env, c: Cluster, ss: SecretSync, x: Inputs)
    requires Agrees(env, c) && c.current.Some? && x.read == Stale(ss)
    requires ss in c.versions && ss.version != c.current.value.version
    ensures Agrees(env, Reconcile(env, c, x).cluster) <==> KeepsAgreement(env, c, x)
  {
    StaleStep(env, c, ss, x);
    var attempted := Attempted(env, c, x);
    if attempted.Some? && !x.patch.Lost? {
      UnrecordedAgrees(env, c, ss, attempted.value.1, x.patch);
    }
  }

  // A reader of a version that is no longer stored changes nothing but the Secret.
  lemma StaleStep(env: Env, c: Cluster, ss: SecretSync, x: Inputs)
    requires c.current.Some? && ss in c.versions && ss.version != c.current.value.version && x.read == Stale(ss)
    ensures
      var step := Reconcile(env, c, x);
      match Attempted(env, c, x)
      case None => step.cluster == c && step.verdict != PatchFailed && !step.verdict.Synced?
      case Some((tt, state)) =>
        && tt == ss && state.data.Some?
        && step.cluster == PatchSecret(c, ss, state, x.patch)
        && (step.verdict == PatchFailed || step.verdict.Synced?)
  {
  }

  // Only what was read matters, not how it was.
  lemma SameRead(env: Env, c: Cluster, x: Inputs, read: Read)
    requires Observed(c, read) == Observed(c, x.read)
    ensures
      var y := x.(read := read);
      && Reconcile(env, c, y) == Reconcile(env, c, x) && Attempted(env, c, y) == Attempted(env, c, x)
      && PlannedBy(env, c, y) == PlannedBy(env, c, x) && Records(c, y) == Records(c, x)
  {
    var seen := Observed(c, read);
    if seen.Some? {
      PlanIgnoresRead(env, seen.value, x, read);
      var (d, ready) := Initialise(c, seen.value, x.initWrite);
      if ready.Some? {
        PlanIgnoresRead(env, ready.value, x, read);
        ActIgnoresRead(env, d, ready.value, x, read);
      }
    }
  }

  lemma PlanIgnoresRead(env: Env, ss: SecretSync, x: Inputs, read: Read)
    ensures PlanFor(env, ss, x.(read := read)) == PlanFor(env, ss, x)
  {
  }

  lemma ActIgnoresRead(env: Env, c: Cluster, ss: SecretSync, x: Inputs, read: Read)
    ensures Act(env, c, ss, x.(read := read), false) == Act(env, c, ss, x, false)
  {
    PlanIgnoresRead(env, ss, x, read);
  }

  // The exact condition for one reconciliation, whatever it reads and whichever of its calls take effect.
  lemma AgreementKeptExactly(env: Env, c: Cluster, x: Inputs, states: set<StateHash.State>)
    requires Inv(env, c) && Agrees(env, c)
    requires StateHash.CollisionFree(env.kdf, states) && AppliedIn(env, c, states) && PlannedBy(env, c, x) <= states
    ensures Agrees(env, Reconcile(env, c, x).cluster) <==> KeepsAgreement(env, c, x)
  {
    var seen := Observed(c, x.read);
    if c.current.None? {
      ReconcileKeepsSpec(env, c, x);
    } else if seen == c.current {
      SameRead(env, c, x, Fresh);
      FreshKept(env, c, x.(read := Fresh), states);
    } else if seen.Some? {
      StaleKept(env, c, seen.value, x);
    }
  }

  /******* What establishes it *******/

  // A new object, a change of the spec, a deletion, and a success that is recorded.
  ghost predicate Establishes(env: Env, c: Cluster, a: Action) {
    match a
    case Tick(_) => false
    case Create(_, _) => c.current.None?
    case Change(spec) => c.current.Some? && spec != c.current.value.spec
    case Delete => true
    case Run(x) => RecordsSuccess(env, c, x)
  }

  // No patch was built from a generation that did not exist.
  lemma NewGeneration(env: Env, c: Cluster, a: Applied)
    requires Inv(env, c) && c.current.Some? && a in c.applied && a.state.syncUid == c.current.value.uid
    ensures a.state.syncGeneration <= c.current.value.generation
  {
    var v :| v in c.versions && BuiltFrom(a, v);
  }

  lemma ChangeEstablishes(env: Env, c: Cluster, spec: Spec)
    requires Inv(env, c) && c.current.Some? && spec != c.current.value.spec
    ensures Agrees(env, ChangeSpec(c, spec)) && !IsVouchedFor(env, ChangeSpec(c, spec))
  {
    var d := ChangeSpec(c, spec);
    forall a | a in d.applied ensures !Vouches(env, a, d.current.value) {
      if a.state.syncUid == c.current.value.uid {
        NewGeneration(env, c, a);
      }
    }
  }

  lemma SuccessEstablishes(env: Env, c: Cluster, x: Inputs, states: set<StateHash.State>)
    requires Inv(env, c) && c.current.Some? && RecordsSuccess(env, c, x)
    requires StateHash.CollisionFree(env.kdf, states) && AppliedIn(env, c, states) && PlannedBy(env, c, x) <= states
    ensures Agrees(env, Reconcile(env, c, x).cluster)
  {
    CurrentStatus(env, c);
    FreshStep(env, c, x);
    var (d, ready) := Initialise(c, c.current.value, x.initWrite);
    InitialiseKeepsInv(env, c, c.current.value, x.initWrite);
    PlanOfSame(env, c.current.value, ready.value, x);
    RecordedAgrees(env, d, ready.value, PlanFor(env, ready.value, x).state, x, states);
  }

  // Agreement is established whatever was lost before.
  lemma AgreementEstablished(env: Env, c: Cluster, a: Action, states: set<StateHash.State>)
    requires Inv(env, c) && Establishes(env, c, a)
    requires StateHash.CollisionFree(env.kdf, states) && AppliedIn(env, c, states)
    requires a.Run? ==> PlannedBy(env, c, a.inputs) <= states
    ensures Agrees(env, Apply(env, c, a, false))
  {
    match a
    case Create(_, _) => FailingAgrees(env, Apply(env, c, a, false));
    case Change(spec) => ChangeEstablishes(env, c, spec);
    case Delete =>
    case Run(x) => SuccessEstablishes(env, c, x, states);
  }

  // Users keep it, and so does every reconciliation that meets the condition.
  lemma AgreementKept(env: Env, c: Cluster, a: Action, states: set<StateHash.State>)
    requires Inv(env, c) && Agrees(env, c)
    requires StateHash.CollisionFree(env.kdf, states) && AppliedIn(env, c, states)
    requires a.Run? ==> PlannedBy(env, c, a.inputs) <= states && KeepsAgreement(env, c, a.inputs)
    ensures Agrees(env, Apply(env, c, a, false))
  {
    if a.Run? {
      AgreementKeptExactly(env, c, a.inputs, states);
    } else if Establishes(env, c, a) {
      AgreementEstablished(env, c, a, states);
    } else {
      var d := Apply(env, c, a, false);
      assert d.current == c.current && d.applied == c.applied && d.secret == c.secret;
    }
  }

  /******* Over runs *******/

  ghost predicate KeepsAt(env: Env, init: Cluster, actions: seq<Action>, k: nat)
    requires k < |actions|
  {
    actions[k].Run? ==> KeepsAgreement(env, Exec(env, init, actions[..k], false), actions[k].inputs)
  }

  // Agreement was established at or before `m`, at the latest by action `m - 1`, and kept since.
  ghost predicate KeptSince(env: Env, init: Cluster, actions: seq<Action>, m: nat) {
    && m <= |actions|
    && (m > 0 ==> Establishes(env, Exec(env, init, actions[..m - 1], false), actions[m - 1]))
    && (forall k :: m <= k < |actions| ==> KeepsAt(env, init, actions, k))
  }

  lemma {:induction false} RunsAgree(env: Env, init: Cluster, actions: seq<Action>, m: nat)
    requires Initial(init) && KeptSince(env, init, actions, m)
    requires StateHash.CollisionFree(env.kdf, Planned(env, init, actions))
    ensures Agrees(env, Exec(env, init, actions, false))
  {
    if |actions| > 0 {
      var n := |actions| - 1;
      var states := Planned(env, init, actions);
      ReachableInv(env, init, actions[..n], false);
      AppliedWerePlanned(env, init, actions[..n]);
      AppliedInMore(env, Exec(env, init, actions[..n], false), Planned(env, init, actions[..n]), states);
      if m == |actions| {
        AgreementEstablished(env, Exec(env, init, actions[..n], false), actions[n], states);
      } else {
        KeptSinceBefore(env, init, actions, m);
        RunsAgree(env, init, actions[..n], m);
        assert KeepsAt(env, init, actions, n);
        AgreementKept(env, Exec(env, init, actions[..n], false), actions[n], states);
      }
    }
  }

  lemma KeptSinceBefore(env: Env, init: Cluster, actions: seq<Action>, m: nat)
    requires KeptSince(env, init, actions, m) && m < |actions|
    ensures KeptSince(env, init, actions[..|actions| - 1], m)
  {
    var before := actions[..|actions| - 1];
    if m > 0 {
      assert before[..m - 1] == actions[..m - 1];
    }
    forall k | m <= k < |before| ensures KeepsAt(env, init, before, k) {
      assert before[..k] == actions[..k];
      assert KeepsAt(env, init, actions, k);
    }
  }
}
