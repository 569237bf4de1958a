/** Skipping on an unchanged hash refines the reconciler that always patches. */
module Refinement {
  import opened Text
  import opened Clusters
  import opened Reconciliation
  import opened Runs
  import opened Guarantees
  import opened Agreement
  import SecretData
  import StateHash

  /******* Which runs end up to date *******/

  // If the patch took effect, so does the status write that records its outcome.
  predicate RecordsOutcome(x: Inputs) {
    x.patch.Lost? || !x.write.Lost?
  }

  // A simple sufficient condition: reads are fresh or fail, and patch outcomes are recorded.
  predicate Careful(a: Action) {
    a.Run? ==> !a.inputs.read.Stale? && RecordsOutcome(a.inputs)
  }

  lemma CarefulKeeps(env: Env, c: Cluster, x: Inputs)
    requires Careful(Run(x))
    ensures KeepsAgreement(env, c, x)
  {
  }

  lemma CarefulRunsKeep(env: Env, init: Cluster, actions: seq<Action>)
    requires forall a :: a in actions ==> Careful(a)
    ensures KeptSince(env, init, actions, 0)
  {
    forall k: nat | k < |actions| ensures KeepsAt(env, init, actions, k) {
      assert Careful(actions[k]);
      if actions[k].Run? {
        CarefulKeeps(env, Exec(env, init, actions[..k], false), actions[k].inputs);
      }
    }
  }

  // A user who changes the spec while a reconciliation is under way does no harm: whatever it read and
  // whichever of its writes are lost, the next skip is right.
  lemma ChangeForgivesLoss(env: Env, c: Cluster, spec: Spec, x: Inputs, states: set<StateHash.State>)
    requires Inv(env, c) && c.current.Some? && spec != c.current.value.spec
    requires StateHash.CollisionFree(env.kdf, states) && AppliedIn(env, c, states)
    requires PlannedBy(env, ChangeSpec(c, spec), x) <= states
    ensures Agrees(env, Reconcile(env, ChangeSpec(c, spec), x).cluster)
  {
    ChangeKeepsInv(env, c, spec);
    ChangeEstablishes(env, c, spec);
    AgreementKeptExactly(env, ChangeSpec(c, spec), x, states);
  }

  // The object is stored and admissible, the provider's data is complete, and the calls that the
  // patch needs succeed.
  ghost predicate FaultFree(env: Env, c: Cluster, x: Inputs) {
    x.read.Fresh? && c.current.Some? && x.initWrite.Done? && PlanFor(env, c.current.value, x).Desired? && x.patch.Done?
  }

  lemma FaultFreeEndsWell(env: Env, c: Cluster, x: Inputs)
    requires c.current.Some? && StatusOk(c.current.value.status, c.clock) && FaultFree(env, c, x)
    ensures Reconcile(env, c, x).verdict.Skipped? || Reconcile(env, c, x).verdict.Synced?
  {
    FreshStep(env, c, x);
    var (d, ready) := Initialise(c, c.current.value, x.initWrite);
    PlanOfSame(env, c.current.value, ready.value, x);
  }

  predicate EndsWell(v: Verdict) {
    v.Skipped? || v.Synced?
  }

  // A reconciliation that ends well, by patching or by skipping, and every fault-free one, leaves the
  // Secret that the patch for the current object and the provider's current data describes. It is
  // enough that agreement was established at some point of the run and kept since.
  lemma EndsUpToDate(env: Env, init: Cluster, actions: seq<Action>, m: nat, x: Inputs)
    requires Initial(init) && KeptSince(env, init, actions, m) && x.read.Fresh?
    requires StateHash.CollisionFree(env.kdf, Planned(env, init, actions) + PlannedBy(env, Exec(env, init, actions, false), x))
    ensures
      var c := Exec(env, init, actions, false);
      var step := Reconcile(env, c, x);
      EndsWell(step.verdict) || FaultFree(env, c, x) ==>
        c.current.Some? && UpToDate(env, step.cluster, c.current.value, x)
    ensures
      var c := Exec(env, init, actions, false);
      var step := Reconcile(env, c, x);
      EndsWell(step.verdict) || FaultFree(env, c, x) ==>
        && step.cluster.secret.Some? && x.fetch.Files?
        && step.cluster.secret.value.kind == c.current.value.spec.secret.kind
        && step.cluster.secret.value.annotations == c.current.value.spec.secret.annotations
        && step.cluster.secret.value.ownerUid == c.current.value.uid
        && SecretData.IsData(env.pem, c.current.value.spec.secret.kind, x.fetch.files, c.current.value.spec.secret.data,
                             step.cluster.secret.value.data)
  {
    var c := Exec(env, init, actions, false);
    var states := Planned(env, init, actions) + PlannedBy(env, c, x);
    ReachableInv(env, init, actions, false);
    FewerCollide(env.kdf, Planned(env, init, actions), states);
    RunsAgree(env, init, actions, m);
    AppliedWerePlanned(env, init, actions);
    AppliedInMore(env, c, Planned(env, init, actions), states);
    if c.current.Some? {
      CurrentStatus(env, c);
      UpToDateStep(env, c, x, states);
      if FaultFree(env, c, x) {
        FaultFreeEndsWell(env, c, x);
      }
      if EndsWell(Reconcile(env, c, x).verdict) {
        UpToDateMeans(env, Reconcile(env, c, x).cluster, c.current.value, x);
      }
    }
  }

  // Field by field, for the object `ss` and the files that the provider served: the type, the
  // annotations and the owner are those of the object, the labels are its own and the reserved one, and
  // the data has for each key the content of its last entry.
  lemma UpToDateMeans(env: Env, c: Cluster, ss: SecretSync, x: Inputs)
    requires UpToDate(env, c, ss, x)
    ensures c.secret.Some? && x.fetch.Files?
    ensures c.secret.value.kind == ss.spec.secret.kind
    ensures c.secret.value.annotations == ss.spec.secret.annotations
    ensures c.secret.value.ownerUid == ss.uid
    ensures SecretData.IsData(env.pem, ss.spec.secret.kind, x.fetch.files, ss.spec.secret.data, c.secret.value.data)
    ensures ss.spec.secret.labels.None? ==> c.secret.value.labels == map["secrets-store.sync.x-k8s.io" := ""]
    ensures ss.spec.secret.labels.Some? ==>
              && c.secret.value.labels.Keys == ss.spec.secret.labels.value.Keys + {"secrets-store.sync.x-k8s.io"}
              && c.secret.value.labels["secrets-store.sync.x-k8s.io"] == ""
              && forall k :: k in ss.spec.secret.labels.value ==> c.secret.value.labels[k] == ss.spec.secret.labels.value[k]
    ensures c.secret.value.annotations.Some? ==> "secrets-store.sync.x-k8s.io" !in c.secret.value.annotations.value
  {
    PlannedExactly(env, ss, x);
    PatchKeepsUserMetadata(env, ss, x);
  }

  // So every reconciliation that reports success, whatever it read, has written this Secret.
  lemma SyncedSecret(env: Env, c: Cluster, x: Inputs)
    requires Inv(env, c) && Reconcile(env, c, x).verdict.Synced?
    ensures Observed(c, x.read).Some? && UpToDate(env, Reconcile(env, c, x).cluster, Observed(c, x.read).value, x)
    ensures
      var ss, written := Observed(c, x.read).value, Reconcile(env, c, x).cluster.secret;
      && written.Some? && x.fetch.Files?
      && written.value.kind == ss.spec.secret.kind
      && written.value.annotations == ss.spec.secret.annotations
      && written.value.ownerUid == ss.uid
      && SecretData.IsData(env.pem, ss.spec.secret.kind, x.fetch.files, ss.spec.secret.data, written.value.data)
      && written.value.labels.Keys == OrEmptyMap(ss.spec.secret.labels).Keys + {"secrets-store.sync.x-k8s.io"}
      && written.value.labels["secrets-store.sync.x-k8s.io"] == ""
      && forall k :: k in OrEmptyMap(ss.spec.secret.labels) ==> written.value.labels[k] == OrEmptyMap(ss.spec.secret.labels)[k]
  {
    var seen := Observed(c, x.read);
    ReadySame(c, seen.value, x.initWrite);
    var (d, ready) := Initialise(c, seen.value, x.initWrite);
    PlanOfSame(env, seen.value, ready.value, x);
    var step := Act(env, d, ready.value, x, false);
    ActSynced(env, d, ready.value, x);
    UpToDateForSame(env, step.cluster, ready.value, seen.value, x);
    UpToDateMeans(env, step.cluster, seen.value, x);
  }

  lemma ActSynced(env: Env, c: Cluster, ss: SecretSync, x: Inputs)
    requires Act(env, c, ss, x, false).verdict.Synced?
    ensures UpToDate(env, Act(env, c, ss, x, false).cluster, ss, x)
  {
    var state := PlanFor(env, ss, x).state;
    DonePatches(c, ss, state, StateHash.SyncHash(env.kdf, state), x);
  }

  lemma ActUpToDate(env: Env, c: Cluster, ss: SecretSync, x: Inputs, states: set<StateHash.State>)
    requires Inv(env, c) && Agrees(env, c) && c.current == Some(ss)
    requires StateHash.CollisionFree(env.kdf, states) && AppliedIn(env, c, states)
    requires PlanFor(env, ss, x).Desired? ==> PlanFor(env, ss, x).state in states
    ensures
      var step := Act(env, c, ss, x, false);
      EndsWell(step.verdict) ==> UpToDate(env, step.cluster, ss, x)
  {
    if PlanFor(env, ss, x).Desired? {
      var state := PlanFor(env, ss, x).state;
      if Skips(ss, StateHash.SyncHash(env.kdf, state), false) {
        SkipIsRight(env, c, ss, state, states);
      } else {
        DonePatches(c, ss, state, StateHash.SyncHash(env.kdf, state), x);
      }
    }
  }

  lemma DonePatches(c: Cluster, ss: SecretSync, state: StateHash.State, hash: string, x: Inputs)
    requires state.data.Some?
    ensures
      var step := Attempt(c, ss, state, hash, x);
      !step.verdict.Skipped? && (step.verdict.Synced? ==> step.cluster.secret == Some(PatchFor(ss.uid, ss.spec, state.data.value)))
  {
  }

  lemma UpToDateStep(env: Env, c: Cluster, x: Inputs, states: set<StateHash.State>)
    requires Inv(env, c) && Agrees(env, c) && c.current.Some? && StatusOk(c.current.value.status, c.clock) && x.read.Fresh?
    requires StateHash.CollisionFree(env.kdf, states) && AppliedIn(env, c, states) && PlannedBy(env, c, x) <= states
    ensures
      var step := Reconcile(env, c, x);
      EndsWell(step.verdict) ==> UpToDate(env, step.cluster, c.current.value, x)
  {
    FreshStep(env, c, x);
    var (d, ready) := Initialise(c, c.current.value, x.initWrite);
    if ready.Some? {
      ReadyTrust(env, c, x.initWrite);
      AppliedInSame(env, c, d, states);
      PlanOfSame(env, c.current.value, ready.value, x);
      ActUpToDate(env, d, ready.value, x, states);
      var step := Reconcile(env, c, x);
      assert step == Act(env, d, ready.value, x, false);
      if UpToDate(env, step.cluster, ready.value, x) {
        UpToDateForSame(env, step.cluster, ready.value, c.current.value, x);
      }
    }
  }

  /******* In lockstep with the reconciler that always patches *******/

  // Equal as far as users can tell: the Secret and the object without the details of its status.
  predicate Alike(c: Cluster, d: Cluster) {
    && c.secret == d.secret && c.uids == d.uids && (c.current.Some? <==> d.current.Some?)
    && (c.current.Some? ==>
          && SameSpec(c.current.value, d.current.value)
          && |c.current.value.status.conditions| == |d.current.value.status.conditions|)
  }

  lemma InitialiseAlike(c: Cluster, d: Cluster, o: Outcome)
    requires Alike(c, d) && c.current.Some?
    requires StatusOk(c.current.value.status, c.clock) && StatusOk(d.current.value.status, d.clock)
    ensures
      var (c', ready) := Initialise(c, c.current.value, o);
      var (d', ready') := Initialise(d, d.current.value, o);
      && Alike(c', d') && (ready.Some? <==> ready'.Some?)
      && (ready.Some? ==> IsReady(c, c', ready.value) && IsReady(d, d', ready'.value))
  {
    FreshReady(c, o);
    FreshReady(d, o);
    if |c.current.value.status.conditions| < 2 {
      InitialConditionsOk(c.current.value, c.clock);
      InitialConditionsOk(d.current.value, d.clock);
    }
  }

  // What an attempt leaves, as far as users can tell.
  lemma AttemptShape(c: Cluster, ss: SecretSync, state: StateHash.State, hash: string, x: Inputs)
    requires c.current == Some(ss) && state.data.Some? && hash != ""
    requires StatusOk(ss.status, c.clock) && |ss.status.conditions| == 2
    ensures
      var c' := Attempt(c, ss, state, hash, x).cluster;
      && c'.secret == (if x.patch.Lost? then c.secret else Some(PatchFor(ss.uid, ss.spec, state.data.value)))
      && c'.uids == c.uids && c'.current.Some? && SameSpec(ss, c'.current.value)
      && |c'.current.value.status.conditions| == 2
  {
    SuccessOk(ss, hash, c.clock);
    PatchFailureOk(ss, hash, c.clock);
  }

  lemma AttemptAlike(c: Cluster, d: Cluster, ss: SecretSync, tt: SecretSync, state: StateHash.State, hash: string, x: Inputs)
    requires Alike(c, d) && c.current == Some(ss) && d.current == Some(tt) && state.data.Some? && hash != ""
    requires StatusOk(ss.status, c.clock) && |ss.status.conditions| == 2
    requires StatusOk(tt.status, d.clock) && |tt.status.conditions| == 2
    ensures Alike(Attempt(c, ss, state, hash, x).cluster, Attempt(d, tt, state, hash, x).cluster)
  {
    AttemptShape(c, ss, state, hash, x);
    AttemptShape(d, tt, state, hash, x);
  }

  // Where one skips, the other patches the Secret to what it already is.
  lemma SkipAlike(c: Cluster, d: Cluster, ss: SecretSync, tt: SecretSync, state: StateHash.State, hash: string, x: Inputs)
    requires Alike(c, d) && c.current == Some(ss) && d.current == Some(tt) && state.data.Some? && hash != ""
    requires |ss.status.conditions| == 2
    requires StatusOk(tt.status, d.clock) && |tt.status.conditions| == 2
    requires c.secret == Some(PatchFor(ss.uid, ss.spec, state.data.value))
    ensures Alike(c, Attempt(d, tt, state, hash, x).cluster)
  {
    AttemptShape(d, tt, state, hash, x);
  }

  lemma RefusalAlike(c: Cluster, d: Cluster, ss: SecretSync, tt: SecretSync, reason: Reason, o: Outcome)
    requires Alike(c, d) && c.current == Some(ss) && d.current == Some(tt)
    requires reason in FAILED_CONDITIONS_TRIGGERING_RETRY
    requires StatusOk(ss.status, c.clock) && |ss.status.conditions| == 2
    requires StatusOk(tt.status, d.clock) && |tt.status.conditions| == 2
    ensures Alike(WriteStatus(c, WithCondition(ss, Phase(ss), False, reason), o),
                  WriteStatus(d, WithCondition(tt, Phase(tt), False, reason), o))
  {
    FailureOk(ss, reason, c.clock);
    FailureOk(tt, reason, d.clock);
  }

  lemma ActAlike(env: Env, c: Cluster, d: Cluster, ss: SecretSync, tt: SecretSync, x: Inputs, states: set<StateHash.State>)
    requires StateHash.CollisionFree(env.kdf, states) && AppliedIn(env, c, states)
    requires PlanFor(env, ss, x).Desired? ==> PlanFor(env, ss, x).state in states
    requires Inv(env, c) && Agrees(env, c) && Alike(c, d) && c.current == Some(ss) && d.current == Some(tt)
    requires StatusOk(ss.status, c.clock) && |ss.status.conditions| == 2
    requires StatusOk(tt.status, d.clock) && |tt.status.conditions| == 2
    ensures Alike(Act(env, c, ss, x, false).cluster, Act(env, d, tt, x, true).cluster)
  {
    PlanOfSame(env, ss, tt, x);
    match PlanFor(env, ss, x)
    case Refusal(reason) => RefusalAlike(c, d, ss, tt, reason, x.write);
    case Desired(state) =>
      var hash := StateHash.SyncHash(env.kdf, state);
      if Skips(ss, hash, false) {
        SkipIsRight(env, c, ss, state, states);
        SkipAlike(c, d, ss, tt, state, hash, x);
      } else {
        AttemptAlike(c, d, ss, tt, state, hash, x);
      }
  }

  lemma ReconcileAlike(env: Env, c: Cluster, d: Cluster, x: Inputs, states: set<StateHash.State>)
    requires StateHash.CollisionFree(env.kdf, states) && AppliedIn(env, c, states) && PlannedBy(env, c, x) <= states
    requires Inv(env, c) && Agrees(env, c) && Alike(c, d) && !x.read.Stale?
    requires c.current.Some? ==> StatusOk(c.current.value.status, c.clock) && StatusOk(d.current.value.status, d.clock)
    ensures Alike(Reconcile(env, c, x).cluster, ReconcileWith(env, d, x, true).cluster)
  {
    if x.read.Fresh? && c.current.Some? {
      InitialiseAlike(c, d, x.initWrite);
      var (c', ready) := Initialise(c, c.current.value, x.initWrite);
      var (d', ready') := Initialise(d, d.current.value, x.initWrite);
      if ready.Some? {
        ReadyTrust(env, c, x.initWrite);
        AppliedInSame(env, c, c', states);
        PlanOfSame(env, c.current.value, ready.value, x);
        ActAlike(env, c', d', ready.value, ready'.value, x, states);
      }
    }
  }

  // Reads are fresh or fail.
  predicate ReadsFresh(a: Action) {
    a.Run? ==> !a.inputs.read.Stale?
  }

  // Over every run that reads what is stored and keeps agreement, the Secret is, at each point, the one
  // that the reconciler that never skips produces from the same events.
  lemma {:induction false} SkippingRefinesAlwaysPatching(env: Env, init: Cluster, actions: seq<Action>)
    requires Initial(init) && forall a :: a in actions ==> ReadsFresh(a)
    requires KeptSince(env, init, actions, 0)
    requires StateHash.CollisionFree(env.kdf, Planned(env, init, actions))
    ensures Alike(Exec(env, init, actions, false), Exec(env, init, actions, true))
  {
    if |actions| > 0 {
      var n := |actions| - 1;
      assert forall a :: a in actions[..n] ==> a in actions;
      FewerCollide(env.kdf, Planned(env, init, actions[..n]), Planned(env, init, actions));
      KeptSinceBefore(env, init, actions, 0);
      SkippingRefinesAlwaysPatching(env, init, actions[..n]);
      assert ReadsFresh(actions[n]);
      LastActionAlike(env, init, actions);
    }
  }

  lemma FewerCollide(kdf: StateHash.Kdf, fewer: set<StateHash.State>, states: set<StateHash.State>)
    requires fewer <= states && StateHash.CollisionFree(kdf, states)
    ensures StateHash.CollisionFree(kdf, fewer)
  {
  }

  lemma LastActionAlike(env: Env, init: Cluster, actions: seq<Action>)
    requires |actions| > 0 && Initial(init) && ReadsFresh(actions[|actions| - 1])
    requires KeptSince(env, init, actions[..|actions| - 1], 0)
    requires StateHash.CollisionFree(env.kdf, Planned(env, init, actions))
    requires
      var n := |actions| - 1;
      Alike(Exec(env, init, actions[..n], false), Exec(env, init, actions[..n], true))
    ensures Alike(Exec(env, init, actions, false), Exec(env, init, actions, true))
  {
    var n := |actions| - 1;
    var c, d := Exec(env, init, actions[..n], false), Exec(env, init, actions[..n], true);
    if actions[n].Run? {
      ReachableInv(env, init, actions[..n], false);
      ReachableInv(env, init, actions[..n], true);
      FewerCollide(env.kdf, Planned(env, init, actions[..n]), Planned(env, init, actions));
      RunsAgree(env, init, actions[..n], 0);
      AppliedWerePlanned(env, init, actions[..n]);
      AppliedInMore(env, c, Planned(env, init, actions[..n]), Planned(env, init, actions));
      ReconcileAlike(env, c, d, actions[n].inputs, Planned(env, init, actions));
    } else {
      UserActionAlike(env, c, d, actions[n]);
    }
  }

  lemma UserActionAlike(env: Env, c: Cluster, d: Cluster, a: Action)
    requires Alike(c, d) && !a.Run?
    ensures Alike(Apply(env, c, a, false), Apply(env, d, a, true))
  {
  }

  // The careful runs are among them.
  lemma CarefulRunsRefine(env: Env, init: Cluster, actions: seq<Action>)
    requires Initial(init) && forall a :: a in actions ==> Careful(a)
    requires StateHash.CollisionFree(env.kdf, Planned(env, init, actions))
    ensures Alike(Exec(env, init, actions, false), Exec(env, init, actions, true))
  {
    CarefulRunsKeep(env, init, actions);
    forall a | a in actions ensures ReadsFresh(a) {
      assert Careful(a);
    }
    SkippingRefinesAlwaysPatching(env, init, actions);
  }
}
