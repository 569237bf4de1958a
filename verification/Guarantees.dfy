/** What every run of the reconciler guarantees. */
module Guarantees {
  import opened Text
  import opened Clusters
  import opened Reconciliation
  import opened Runs
  import SecretData
  import StateHash

  /******* The stored hash never leads the Secret *******/

  // Whatever calls fail or report wrongly and however stale the reads are, a stored hash is the
  // hash of a patch that was applied, reported as successful, and built from a version of that same
  // object which is not newer; and no stored status is half-written.
  lemma StoredVersionsAreSound(env: Env, init: Cluster, actions: seq<Action>, v: SecretSync)
    requires Initial(init)
    requires v in Exec(env, init, actions, false).versions
    ensures StatusOk(v.status, Exec(env, init, actions, false).clock)
    ensures v.status.syncHash != "" ==>
              exists a, u :: && a in Exec(env, init, actions, false).applied && a.reported
                             && IsHashOf(env, a, v.status.syncHash)
                             && u in Exec(env, init, actions, false).versions && BuiltFrom(a, u)
                             && u.uid == v.uid && u.generation <= v.generation
  {
    ReachableInv(env, init, actions, false);
    var c := Exec(env, init, actions, false);
    if v.status.syncHash != "" {
      assert HashWasApplied(env, c.applied, v);
      var a :| && a in c.applied && a.reported && IsHashOf(env, a, v.status.syncHash)
               && a.state.syncUid == v.uid && a.state.syncGeneration <= v.generation;
      var u :| u in c.versions && BuiltFrom(a, u);
    }
  }

  /******* A status never regresses *******/

  predicate StatusProgress(s: Status, s': Status) {
    && (s.syncHash != "" ==> s'.syncHash != "")
    && (CreateSucceeded(s.conditions) ==> CreateSucceeded(s'.conditions))
    && (s.lastSync.Some? ==> s'.lastSync.Some? && s.lastSync.value <= s'.lastSync.value)
    && |s.conditions| <= |s'.conditions|
  }

  // As long as the same object is stored.
  predicate Progress(c: Cluster, c': Cluster) {
    && c.uids <= c'.uids && c.clock <= c'.clock
    && (c'.current.Some? && c'.current.value.uid in c.uids ==>
          && c.current.Some? && c.current.value.uid == c'.current.value.uid
          && c.current.value.generation <= c'.current.value.generation
          && StatusProgress(c.current.value.status, c'.current.value.status))
  }

  lemma AcceptedMeansCurrent(c: Cluster, ss: SecretSync, next: SecretSync, o: Outcome)
    requires VersionsOk(c) && ss in c.versions && next.version == ss.version
    requires Accepts(c, next, o)
    ensures c.current == Some(ss)
  {
  }

  lemma WriteProgress(c: Cluster, ss: SecretSync, next: SecretSync, o: Outcome)
    requires VersionsOk(c) && ss in c.versions && next.version == ss.version
    requires StatusProgress(ss.status, next.status)
    ensures Progress(c, WriteStatus(c, next, o))
  {
    if Accepts(c, next, o) {
      AcceptedMeansCurrent(c, ss, next, o);
    }
  }

  lemma ProgressTransitive(c: Cluster, d: Cluster, e: Cluster)
    requires Progress(c, d) && Progress(d, e)
    ensures Progress(c, e)
  {
  }

  lemma InitialiseProgress(c: Cluster, ss: SecretSync, o: Outcome)
    requires VersionsOk(c) && StatusesOk(c) && ss in c.versions
    ensures Progress(c, Initialise(c, ss, o).0)
  {
    if |ss.status.conditions| < 2 {
      InitialConditionsOk(ss, c.clock);
      WriteProgress(c, ss, WithInitialConditions(ss), o);
    }
  }

  lemma ActProgress(env: Env, c: Cluster, ss: SecretSync, x: Inputs, always: bool)
    requires VersionsOk(c) && StatusesOk(c) && ss in c.versions && |ss.status.conditions| == 2
    ensures Progress(c, Act(env, c, ss, x, always).cluster)
  {
    match PlanFor(env, ss, x)
    case Refusal(reason) => RefusalProgress(c, ss, reason, x.write);
    case Desired(state) =>
      var hash := StateHash.SyncHash(env.kdf, state);
      if !Skips(ss, hash, always) {
        AttemptProgress(c, ss, state, hash, x);
      }
  }

  lemma RefusalProgress(c: Cluster, ss: SecretSync, reason: Reason, o: Outcome)
    requires VersionsOk(c) && ss in c.versions && StatusOk(ss.status, c.clock) && |ss.status.conditions| == 2
    requires reason in FAILED_CONDITIONS_TRIGGERING_RETRY
    ensures Progress(c, WriteStatus(c, WithCondition(ss, Phase(ss), False, reason), o))
  {
    FailureOk(ss, reason, c.clock);
    WriteProgress(c, ss, WithCondition(ss, Phase(ss), False, reason), o);
  }

  lemma AttemptProgress(c: Cluster, ss: SecretSync, state: StateHash.State, hash: string, x: Inputs)
    requires VersionsOk(c) && ss in c.versions && StatusOk(ss.status, c.clock) && |ss.status.conditions| == 2
    requires state.data.Some? && hash != ""
    ensures Progress(c, Attempt(c, ss, state, hash, x).cluster)
  {
    var next := if x.patch.Done? then AfterSuccess(ss, hash, c.clock) else AfterPatchFailure(ss, hash);
    OutcomeProgress(ss, hash, c.clock);
    WriteProgress(PatchSecret(c, ss, state, x.patch), ss, next, x.write);
  }

  lemma OutcomeProgress(ss: SecretSync, hash: string, clock: int)
    requires StatusOk(ss.status, clock) && |ss.status.conditions| == 2 && hash != ""
    ensures StatusProgress(ss.status, AfterSuccess(ss, hash, clock).status)
    ensures StatusProgress(ss.status, AfterPatchFailure(ss, hash).status)
  {
    SuccessOk(ss, hash, clock);
    PatchFailureOk(ss, hash, clock);
  }

  lemma ApplyProgress(env: Env, c: Cluster, a: Action, always: bool)
    requires Inv(env, c)
    ensures Progress(c, Apply(env, c, a, always))
  {
    if a.Run? {
      var x := a.inputs;
      var seen := Observed(c, x.read);
      if seen.Some? {
        InitialiseKeepsInv(env, c, seen.value, x.initWrite);
        InitialiseProgress(c, seen.value, x.initWrite);
        var (c', ready) := Initialise(c, seen.value, x.initWrite);
        if ready.Some? {
          ActProgress(env, c', ready.value, x, always);
          ProgressTransitive(c, c', Act(env, c', ready.value, x, always).cluster);
        }
      }
    }
  }

  // Between any two points of a run: the hash stays set, SecretCreated stays successful, and the
  // time of the last successful synchronisation does not decrease.
  lemma {:induction false} StatusNeverRegresses(env: Env, init: Cluster, actions: seq<Action>, i: nat)
    requires Initial(init) && i <= |actions|
    ensures Progress(Exec(env, init, actions[..i], false), Exec(env, init, actions, false))
  {
    if i < |actions| {
      var n := |actions| - 1;
      assert actions[..n][..i] == actions[..i];
      StatusNeverRegresses(env, init, actions[..n], i);
      ReachableInv(env, init, actions[..n], false);
      ApplyProgress(env, Exec(env, init, actions[..n], false), actions[n], false);
      ProgressTransitive(Exec(env, init, actions[..i], false), Exec(env, init, actions[..n], false), Exec(env, init, actions, false));
    } else {
      assert actions[..i] == actions;
    }
  }

  /******* A failure is latched until a patch succeeds *******/

  predicate Failing(c: Cluster) {
    c.current.Some? && HasFailure(c.current.value.status.conditions)
  }

  predicate SameObject(c: Cluster, c': Cluster) {
    c.current.Some? && c'.current.Some? && c.current.value.uid == c'.current.value.uid
  }

  lemma InitialiseKeepsFailure(env: Env, c: Cluster, ss: SecretSync, o: Outcome)
    requires Inv(env, c) && ss in c.versions
    ensures Failing(c) ==> Failing(Initialise(c, ss, o).0)
  {
    if |ss.status.conditions| < 2 && Accepts(c, WithInitialConditions(ss), o) {
      AcceptedMeansCurrent(c, ss, WithInitialConditions(ss), o);
    }
  }

  lemma WriteKeepsFailure(c: Cluster, next: SecretSync, o: Outcome)
    requires HasFailure(next.status.conditions)
    ensures Failing(c) ==> Failing(WriteStatus(c, next, o))
  {
  }

  // A step from a failing status to one without a failure is a reconciliation whose patch was
  // applied and reported as successful.
  lemma FailureIsLatched(env: Env, c: Cluster, a: Action)
    requires Inv(env, c)
    requires SameObject(c, Apply(env, c, a, false))
    requires Failing(c) && !Failing(Apply(env, c, a, false))
    ensures a.Run? && a.inputs.patch.Done? && Reconcile(env, c, a.inputs).verdict.Synced?
    ensures |Apply(env, c, a, false).applied| == |c.applied| + 1
  {
    if a.Run? {
      ReconcileKeepsFailure(env, c, a.inputs);
    }
  }

  lemma ReconcileKeepsFailure(env: Env, c: Cluster, x: Inputs)
    requires Inv(env, c)
    ensures
      var step := Reconcile(env, c, x);
      || (Failing(c) ==> Failing(step.cluster))
      || (step.verdict.Synced? && x.patch.Done? && |step.cluster.applied| == |c.applied| + 1)
  {
    var seen := Observed(c, x.read);
    if seen.Some? {
      InitialiseKeepsInv(env, c, seen.value, x.initWrite);
      InitialiseKeepsFailure(env, c, seen.value, x.initWrite);
      var (c', ready) := Initialise(c, seen.value, x.initWrite);
      if ready.Some? {
        ActKeepsFailure(env, c', ready.value, x);
      }
    }
  }

  lemma ActKeepsFailure(env: Env, c: Cluster, ss: SecretSync, x: Inputs)
    requires Inv(env, c) && ss in c.versions && |ss.status.conditions| == 2
    ensures
      var step := Act(env, c, ss, x, false);
      || (Failing(c) ==> Failing(step.cluster))
      || (step.verdict.Synced? && x.patch.Done? && |step.cluster.applied| == |c.applied| + 1)
  {
    match PlanFor(env, ss, x)
    case Refusal(reason) =>
      FailureOk(ss, reason, c.clock);
      WriteKeepsFailure(c, WithCondition(ss, Phase(ss), False, reason), x.write);
    case Desired(state) =>
      var hash := StateHash.SyncHash(env.kdf, state);
      if !Skips(ss, hash, false) && !x.patch.Done? {
        PatchFailureOk(ss, hash, c.clock);
        WriteKeepsFailure(PatchSecret(c, ss, state, x.patch), AfterPatchFailure(ss, hash), x.write);
      }
  }

  // Whatever happened in between: between a moment of failure and a later one without, for the same
  // object, lies a reconciliation whose patch was applied and reported as successful.
  lemma {:induction false} OnlySuccessClearsFailure(env: Env, init: Cluster, actions: seq<Action>, i: nat)
    requires Initial(init) && i < |actions|
    requires Failing(Exec(env, init, actions[..i], false)) && !Failing(Exec(env, init, actions, false))
    requires SameObject(Exec(env, init, actions[..i], false), Exec(env, init, actions, false))
    ensures exists k :: i <= k < |actions| && PatchedAt(env, init, actions, k)
  {
    var n := |actions| - 1;
    var c := Exec(env, init, actions[..n], false);
    SameObjectBefore(env, init, actions, i);
    if Failing(c) {
      ReachableInv(env, init, actions[..n], false);
      FailureIsLatched(env, c, actions[n]);
      assert PatchedAt(env, init, actions, n);
    } else {
      assert actions[..n][..i] == actions[..i];
      OnlySuccessClearsFailure(env, init, actions[..n], i);
      var k :| i <= k < n && PatchedAt(env, init, actions[..n], k);
      StillPatchedAt(env, init, actions, k);
    }
  }

  lemma StillPatchedAt(env: Env, init: Cluster, actions: seq<Action>, k: nat)
    requires k < |actions| - 1 && PatchedAt(env, init, actions[..|actions| - 1], k)
    ensures PatchedAt(env, init, actions, k)
  {
    assert actions[..|actions| - 1][..k] == actions[..k];
  }

  // Action `k` is a reconciliation whose patch was applied and reported as successful.
  ghost predicate PatchedAt(env: Env, init: Cluster, actions: seq<Action>, k: nat)
    requires k < |actions|
  {
    && actions[k].Run? && actions[k].inputs.patch.Done?
    && Reconcile(env, Exec(env, init, actions[..k], false), actions[k].inputs).verdict.Synced?
  }

  // An object that is stored at two moments was stored at every moment between them.
  lemma SameObjectBefore(env: Env, init: Cluster, actions: seq<Action>, i: nat)
    requires Initial(init) && i < |actions|
    requires SameObject(Exec(env, init, actions[..i], false), Exec(env, init, actions, false))
    ensures
      var c := Exec(env, init, actions[..|actions| - 1], false);
      SameObject(Exec(env, init, actions[..i], false), c) && SameObject(c, Exec(env, init, actions, false))
  {
    var n := |actions| - 1;
    assert actions[..n][..i] == actions[..i];
    ReachableInv(env, init, actions[..i], false);
    ReachableInv(env, init, actions[..n], false);
    StatusNeverRegresses(env, init, actions[..n], i);
    ApplyProgress(env, Exec(env, init, actions[..n], false), actions[n], false);
    ProgressSame(Exec(env, init, actions[..i], false), Exec(env, init, actions[..n], false), Exec(env, init, actions, false));
  }

  lemma ProgressSame(b: Cluster, c: Cluster, d: Cluster)
    requires Progress(b, c) && Progress(c, d) && SameObject(b, d) && VersionsOk(b)
    ensures SameObject(b, c) && SameObject(c, d)
  {
  }

  // While a failure is stored, a reconciliation that gets as far as the hash attempts the patch,
  // whether or not the hash has changed.
  lemma FailureForcesAttempt(env: Env, c: Cluster, x: Inputs)
    requires Inv(env, c) && Failing(c) && x.read.Fresh?
    ensures
      var step := Reconcile(env, c, x);
      if PlanFor(env, c.current.value, x).Desired? then step.verdict == PatchFailed || step.verdict.Synced?
      else step.verdict == Refused(PlanFor(env, c.current.value, x).reason)
  {
    assert StatusOk(c.current.value.status, c.clock);
  }

  /******* Recorded success *******/

  predicate SameSpec(ss: SecretSync, ss': SecretSync) {
    ss.uid == ss'.uid && ss.generation == ss'.generation && ss.spec == ss'.spec
  }

  // The object in hand after initialisation, when the read was fresh.
  predicate IsReady(c: Cluster, d: Cluster, ss: SecretSync)
    requires c.current.Some?
  {
    && d.current == Some(ss) && SameSpec(c.current.value, ss)
    && StatusOk(ss.status, c.clock) && |ss.status.conditions| == 2
    && ss.status.syncHash == c.current.value.status.syncHash
    && (HasFailure(ss.status.conditions) <==> HasFailure(c.current.value.status.conditions))
    && d.applied == c.applied && d.secret == c.secret && d.clock == c.clock
  }

  lemma FreshReady(c: Cluster, o: Outcome)
    requires c.current.Some? && StatusOk(c.current.value.status, c.clock)
    ensures
      var (d, ready) := Initialise(c, c.current.value, o);
      ready.Some? ==> IsReady(c, d, ready.value)
  {
    if |c.current.value.status.conditions| < 2 {
      InitialConditionsOk(c.current.value, c.clock);
    }
  }

  // A reconciliation of the current object whose patch and outcome write both took effect.
  ghost predicate RecordsSuccess(env: Env, c: Cluster, x: Inputs) {
    x.read.Fresh? && Reconcile(env, c, x).verdict.Synced? && !x.write.Lost?
  }

  ghost function HashFor(env: Env, ss: SecretSync, x: Inputs): string
    requires PlanFor(env, ss, x).Desired?
  {
    StateHash.SyncHash(env.kdf, PlanFor(env, ss, x).state)
  }

  // What a recorded success leaves: the hash of the plan, and a failure only if that hash is not new.
  ghost predicate Recorded(env: Env, c: Cluster, x: Inputs, c': Cluster) {
    && c.current.Some? && c'.current.Some? && SameSpec(c.current.value, c'.current.value)
    && StatusOk(c'.current.value.status, c'.clock) && |c'.current.value.status.conditions| == 2
    && c'.clock == c.clock && |c'.applied| == |c.applied| + 1
    && PlanFor(env, c'.current.value, x).Desired?
    && c'.current.value.status.syncHash == HashFor(env, c'.current.value, x)
    && (Failing(c') <==> !HashChanged(c, c'))
    && (Failing(c') ==> Failing(c))
  }

  predicate HashChanged(c: Cluster, c': Cluster)
    requires c.current.Some? && c'.current.Some?
  {
    c'.current.value.status.syncHash != c.current.value.status.syncHash
  }

  lemma SuccessConditions(ss: SecretSync, hash: string, clock: int)
    requires StatusOk(ss.status, clock) && |ss.status.conditions| == 2 && hash != ""
    requires !Skips(ss, hash, false)
    ensures
      var s := AfterSuccess(ss, hash, clock).status;
      && (HasFailure(s.conditions) <==> hash == ss.status.syncHash)
      && (HasFailure(s.conditions) ==> HasFailure(ss.status.conditions))
  {
    MarkedConditions(ss, hash != ss.status.syncHash);
  }

  // A planned reconciliation of the current object either skips or attempts the patch.
  lemma FreshStep(env: Env, c: Cluster, x: Inputs)
    requires c.current.Some? && StatusOk(c.current.value.status, c.clock) && x.read.Fresh?
    ensures
      var (d, ready) := Initialise(c, c.current.value, x.initWrite);
      match ready
      case None => Reconcile(env, c, x) == Step(d, NotInitialised)
      case Some(ss) => IsReady(c, d, ss) && Reconcile(env, c, x) == Act(env, d, ss, x, false)
  {
    FreshReady(c, x.initWrite);
  }

  lemma AttemptRecorded(c: Cluster, ss: SecretSync, state: StateHash.State, hash: string, x: Inputs)
    requires c.current == Some(ss) && state.data.Some?
    requires StatusOk(ss.status, c.clock) && |ss.status.conditions| == 2 && hash != ""
    requires !Skips(ss, hash, false) && x.patch.Done? && !x.write.Lost?
    ensures
      var c' := Attempt(c, ss, state, hash, x).cluster;
      && c'.current.Some? && SameSpec(ss, c'.current.value)
      && c'.current.value.status == AfterSuccess(ss, hash, c.clock).status
      && c'.clock == c.clock && |c'.applied| == |c.applied| + 1
      && c'.current.value.status.lastSync == Some(c'.clock)
  {
  }

  lemma SuccessRecorded(env: Env, c: Cluster, x: Inputs)
    requires c.current.Some? ==> StatusOk(c.current.value.status, c.clock)
    requires RecordsSuccess(env, c, x)
    ensures Recorded(env, c, x, Reconcile(env, c, x).cluster)
    ensures Reconcile(env, c, x).cluster.current.value.status.lastSync == Some(c.clock)
  {
    FreshStep(env, c, x);
    var (d, ready) := Initialise(c, c.current.value, x.initWrite);
    var ss := ready.value;
    var hash := HashFor(env, ss, x);
    AttemptRecorded(d, ss, PlanFor(env, ss, x).state, hash, x);
    var c' := Reconcile(env, c, x).cluster;
    assert c' == Attempt(d, ss, PlanFor(env, ss, x).state, hash, x).cluster;
    PlanOfSame(env, c'.current.value, ss, x);
    RecordedStatus(ss, c'.current.value, hash, d.clock);
  }

  lemma PlanOfSame(env: Env, ss: SecretSync, tt: SecretSync, x: Inputs)
    requires SameSpec(ss, tt)
    ensures PlanFor(env, ss, x) == PlanFor(env, tt, x)
  {
  }

  lemma RecordedStatus(ss: SecretSync, next: SecretSync, hash: string, clock: int)
    requires StatusOk(ss.status, clock) && |ss.status.conditions| == 2 && hash != ""
    requires !Skips(ss, hash, false) && next.status == AfterSuccess(ss, hash, clock).status
    ensures StatusOk(next.status, clock) && |next.status.conditions| == 2
    ensures next.status.syncHash == hash && next.status.lastSync == Some(clock)
    ensures HasFailure(next.status.conditions) <==> hash == ss.status.syncHash
    ensures HasFailure(next.status.conditions) ==> HasFailure(ss.status.conditions)
  {
    SuccessOk(ss, hash, clock);
    SuccessConditions(ss, hash, clock);
  }

  // What a failed reconciliation leaves if its status write takes effect: the hash and the time of
  // the last success, and the failure under the current phase.
  ghost predicate FailureRecorded(c: Cluster, c': Cluster, reason: Reason) {
    && c.current.Some? && c'.current.Some? && SameSpec(c.current.value, c'.current.value)
    && c'.current.value.status.syncHash == c.current.value.status.syncHash
    && c'.current.value.status.lastSync == c.current.value.status.lastSync
    && |c'.current.value.status.conditions| == 2
    && c'.current.value.status.conditions[if Phase(c.current.value).SecretCreated? then 0 else 1]
       == Condition(Phase(c.current.value), False, reason)
  }

  lemma RefusalRecorded(env: Env, c: Cluster, x: Inputs, reason: Reason)
    requires c.current.Some? && StatusOk(c.current.value.status, c.clock) && x.read.Fresh? && !x.write.Lost?
    requires Reconcile(env, c, x).verdict == Refused(reason)
    ensures
      var c' := Reconcile(env, c, x).cluster;
      FailureRecorded(c, c', reason) && c'.secret == c.secret && c'.applied == c.applied
  {
    FreshStep(env, c, x);
    var (d, ready) := Initialise(c, c.current.value, x.initWrite);
    WriteRefuses(d, ready.value, reason, x.write);
  }

  lemma WriteRefuses(c: Cluster, ss: SecretSync, reason: Reason, o: Outcome)
    requires c.current == Some(ss) && StatusOk(ss.status, c.clock) && |ss.status.conditions| == 2 && !o.Lost?
    requires reason in FAILED_CONDITIONS_TRIGGERING_RETRY
    ensures
      var c' := WriteStatus(c, WithCondition(ss, Phase(ss), False, reason), o);
      FailureRecorded(c, c', reason) && c'.secret == c.secret && c'.applied == c.applied
  {
    FailureOk(ss, reason, c.clock);
    SetOfTwo(ss.status.conditions, Condition(Phase(ss), False, reason));
  }

  // The success marks that were set before the attempt stay on the other condition: exactly after a
  // failed create the stored status says that the Secret is up to date.
  lemma PatchFailureRecorded(env: Env, c: Cluster, x: Inputs)
    requires c.current.Some? && StatusOk(c.current.value.status, c.clock) && x.read.Fresh? && !x.write.Lost?
    requires Reconcile(env, c, x).verdict == PatchFailed
    ensures
      var c' := Reconcile(env, c, x).cluster;
      && FailureRecorded(c, c', ControllerPatchError)
      && (c'.secret == c.secret || x.patch.DoneUnreported?)
      && (c'.current.value.status.conditions[1] == Condition(SecretUpdated, True, SecretUpToDate) <==>
            c.current.value.status.syncHash == "")
  {
    FreshStep(env, c, x);
    var (d, ready) := Initialise(c, c.current.value, x.initWrite);
    AttemptFails(d, ready.value, PlanFor(env, ready.value, x).state, HashFor(env, ready.value, x), x);
  }

  lemma AttemptFails(c: Cluster, ss: SecretSync, state: StateHash.State, hash: string, x: Inputs)
    requires c.current == Some(ss) && state.data.Some?
    requires StatusOk(ss.status, c.clock) && |ss.status.conditions| == 2
    requires !x.patch.Done? && !x.write.Lost?
    ensures
      var c' := Attempt(c, ss, state, hash, x).cluster;
      && c'.current.Some? && SameSpec(ss, c'.current.value)
      && c'.current.value.status.syncHash == ss.status.syncHash && c'.current.value.status.lastSync == ss.status.lastSync
      && c'.current.value.status.conditions == FailedConditions(ss)
      && (x.patch.Lost? ==> c'.secret == c.secret && c'.applied == c.applied)
  {
    PatchFailureOk(ss, hash, c.clock);
  }

  // The provider answers as it did for `x`; the other calls may fail.
  predicate SameWorld(x: Inputs, y: Inputs) {
    y.read.Fresh? && y.spc == x.spc && y.fetch == x.fetch && y.hashFails == x.hashFails
  }

  // The guard of the source: the hash of the plan is not the one in the status.
  ghost predicate HashIsNew(env: Env, c: Cluster, x: Inputs)
    requires c.current.Some? && PlanFor(env, c.current.value, x).Desired?
  {
    HashFor(env, c.current.value, x) != c.current.value.status.syncHash
  }

  lemma GuardDecides(env: Env, c: Cluster, x: Inputs)
    requires c.current.Some? ==> StatusOk(c.current.value.status, c.clock)
    requires RecordsSuccess(env, c, x)
    ensures c.current.Some? && PlanFor(env, c.current.value, x).Desired?
    ensures Recorded(env, c, x, Reconcile(env, c, x).cluster)
    ensures HashChanged(c, Reconcile(env, c, x).cluster) <==> HashIsNew(env, c, x)
  {
    SuccessRecorded(env, c, x);
    PlanOfSame(env, c.current.value, Reconcile(env, c, x).cluster.current.value, x);
  }

  // After a recorded success, the next reconciliation with the same inputs does nothing exactly when
  // the hash was new before that success. Otherwise it attempts the patch again.
  lemma QuiescentExactly(env: Env, c: Cluster, x: Inputs, y: Inputs)
    requires c.current.Some? ==> StatusOk(c.current.value.status, c.clock)
    requires RecordsSuccess(env, c, x) && SameWorld(x, y)
    ensures
      var c' := Reconcile(env, c, x).cluster;
      var again := Reconcile(env, c', y);
      && c.current.Some? && PlanFor(env, c.current.value, x).Desired?
      && (again == Step(c', Skipped) <==> HashIsNew(env, c, x))
      && (again.verdict == PatchFailed || again.verdict.Synced? <==> !HashIsNew(env, c, x))
  {
    GuardDecides(env, c, x);
    SettledStep(env, c, x, Reconcile(env, c, x).cluster, y);
  }

  lemma SettledStep(env: Env, c: Cluster, x: Inputs, c': Cluster, y: Inputs)
    requires Recorded(env, c, x, c') && SameWorld(x, y)
    ensures HashChanged(c, c') ==> Reconcile(env, c', y) == Step(c', Skipped)
    ensures !HashChanged(c, c') ==> Reconcile(env, c', y).verdict == PatchFailed || Reconcile(env, c', y).verdict.Synced?
    ensures !HashChanged(c, c') && y.patch.Done? ==> Reconcile(env, c', y).verdict.Synced?
  {
    assert PlanFor(env, c'.current.value, y) == PlanFor(env, c'.current.value, x);
  }

  predicate Repeats(x: Inputs, a: Action) {
    a.Tick? || (a.Run? && SameWorld(x, a.inputs))
  }

  lemma {:induction false} SettledForever(env: Env, c: Cluster, x: Inputs, c': Cluster, actions: seq<Action>)
    requires Recorded(env, c, x, c') && HashChanged(c, c')
    requires forall a :: a in actions ==> Repeats(x, a)
    ensures
      var d := Exec(env, c', actions, false);
      d == c'.(clock := d.clock) && d.clock >= c'.clock
  {
    if |actions| > 0 {
      var n := |actions| - 1;
      SettledForever(env, c, x, c', actions[..n]);
      assert Repeats(x, actions[n]);
      SettledApply(env, c, x, c', Exec(env, c', actions[..n], false), actions[n]);
    }
  }

  lemma SettledApply(env: Env, c: Cluster, x: Inputs, c': Cluster, d: Cluster, a: Action)
    requires Recorded(env, c, x, c') && HashChanged(c, c') && Repeats(x, a)
    requires d == c'.(clock := d.clock) && d.clock >= c'.clock
    ensures
      var e := Apply(env, d, a, false);
      e == c'.(clock := e.clock) && e.clock >= c'.clock
  {
    if a.Run? {
      var elapsed := d.clock - c'.clock;
      RecordedLater(env, c, x, c', elapsed);
      SettledStep(env, c.(clock := c.clock + elapsed), x, d, a.inputs);
    }
  }

  // A recorded success with a new hash is followed by any number of reconciliations that neither
  // patch nor write.
  lemma QuiescentForever(env: Env, c: Cluster, x: Inputs, actions: seq<Action>)
    requires c.current.Some? && StatusOk(c.current.value.status, c.clock) && PlanFor(env, c.current.value, x).Desired?
    requires RecordsSuccess(env, c, x) && HashIsNew(env, c, x)
    requires forall a :: a in actions ==> Repeats(x, a)
    ensures
      var c' := Reconcile(env, c, x).cluster;
      var d := Exec(env, c', actions, false);
      d == c'.(clock := d.clock) && d.clock >= c'.clock
  {
    GuardDecides(env, c, x);
    SettledForever(env, c, x, Reconcile(env, c, x).cluster, actions);
  }

  lemma RecordedLater(env: Env, c: Cluster, x: Inputs, c': Cluster, elapsed: nat)
    requires Recorded(env, c, x, c')
    ensures Recorded(env, c.(clock := c.clock + elapsed), x, c'.(clock := c'.clock + elapsed))
  {
  }

  // A failure is latched although the stored hash is the one that `x` leads to.
  ghost predicate Stuck(env: Env, c: Cluster, x: Inputs) {
    && Failing(c) && StatusOk(c.current.value.status, c.clock) && |c.current.value.status.conditions| == 2
    && PlanFor(env, c.current.value, x).Desired?
    && c.current.value.status.syncHash == HashFor(env, c.current.value, x)
  }

  // A recorded success leaves one exactly if the hash was not new; a failure was then stored before.
  lemma UnchangedHashIsStuck(env: Env, c: Cluster, x: Inputs)
    requires c.current.Some? ==> StatusOk(c.current.value.status, c.clock)
    requires RecordsSuccess(env, c, x)
    ensures c.current.Some? && PlanFor(env, c.current.value, x).Desired?
    ensures Stuck(env, Reconcile(env, c, x).cluster, x) <==> !HashIsNew(env, c, x)
    ensures !HashIsNew(env, c, x) ==> Failing(c)
  {
    GuardDecides(env, c, x);
  }

  predicate Succeeds(x: Inputs, a: Action) {
    a.Run? && SameWorld(x, a.inputs) && a.inputs.patch.Done? && !a.inputs.write.Lost?
  }

  lemma StuckStep(env: Env, c: Cluster, x: Inputs, y: Inputs)
    requires Stuck(env, c, x) && Succeeds(x, Run(y))
    ensures
      var c' := Reconcile(env, c, y).cluster;
      Stuck(env, c', x) && |c'.applied| == |c.applied| + 1
  {
    var ss := c.current.value;
    assert PlanFor(env, ss, y) == PlanFor(env, ss, x);
    var hash := HashFor(env, ss, x);
    AttemptRecorded(c, ss, PlanFor(env, ss, x).state, hash, y);
    SuccessOk(ss, hash, c.clock);
    SuccessConditions(ss, hash, c.clock);
  }

  lemma StuckApply(env: Env, c: Cluster, x: Inputs, a: Action)
    requires Stuck(env, c, x) && Succeeds(x, a)
    ensures Stuck(env, Apply(env, c, a, false), x) && |Apply(env, c, a, false).applied| == |c.applied| + 1
  {
    StuckStep(env, c, x, a.inputs);
    assert Apply(env, c, a, false) == Reconcile(env, c, a.inputs).cluster;
  }

  // Such a failure outlives any number of successful patches with the same inputs, and each of
  // those reconciliations patches the Secret again.
  lemma {:induction false} StuckForever(env: Env, c: Cluster, x: Inputs, actions: seq<Action>)
    requires Stuck(env, c, x)
    requires forall a :: a in actions ==> Succeeds(x, a)
    ensures
      var d := Exec(env, c, actions, false);
      Stuck(env, d, x) && |d.applied| == |c.applied| + |actions|
  {
    if |actions| > 0 {
      var n := |actions| - 1;
      assert forall a :: a in actions[..n] ==> a in actions;
      StuckForever(env, c, x, actions[..n]);
      assert Succeeds(x, actions[n]);
      StuckApply(env, Exec(env, c, actions[..n], false), x, actions[n]);
    }
  }

  /******* The controller's own writes *******/

  // The update predicate of the controller's watch.
  predicate ProcessIfSecretChanged(before: SecretSync, after: SecretSync) {
    before.generation != after.generation
  }

  predicate KeepsSpec(c: Cluster, c': Cluster) {
    (c.current.Some? <==> c'.current.Some?) && (c.current.Some? ==> SameSpec(c.current.value, c'.current.value))
  }

  lemma WriteKeepsSpec(c: Cluster, next: SecretSync, o: Outcome)
    ensures KeepsSpec(c, WriteStatus(c, next, o))
  {
  }

  lemma ActKeepsSpec(env: Env, c: Cluster, ss: SecretSync, x: Inputs)
    ensures KeepsSpec(c, Act(env, c, ss, x, false).cluster)
  {
    match PlanFor(env, ss, x)
    case Refusal(reason) => WriteKeepsSpec(c, WithCondition(ss, Phase(ss), False, reason), x.write);
    case Desired(state) =>
      var hash := StateHash.SyncHash(env.kdf, state);
      var next := if x.patch.Done? then AfterSuccess(ss, hash, c.clock) else AfterPatchFailure(ss, hash);
      WriteKeepsSpec(PatchSecret(c, ss, state, x.patch), next, x.write);
  }

  lemma ReconcileKeepsSpec(env: Env, c: Cluster, x: Inputs)
    ensures KeepsSpec(c, Reconcile(env, c, x).cluster)
  {
    var seen := Observed(c, x.read);
    if seen.Some? {
      var (c', ready) := Initialise(c, seen.value, x.initWrite);
      WriteKeepsSpec(c, WithInitialConditions(seen.value), x.initWrite);
      if ready.Some? {
        ActKeepsSpec(env, c', ready.value, x);
      }
    }
  }

  // Status writes neither pass the predicate nor change what would be hashed; changes of the spec pass it.
  lemma OnlySpecChangesRequeue(env: Env, c: Cluster, a: Action, x: Inputs)
    requires SameObject(c, Apply(env, c, a, false))
    ensures
      var before, after := c.current.value, Apply(env, c, a, false).current.value;
      && (ProcessIfSecretChanged(before, after) <==> before.spec != after.spec)
      && (ProcessIfSecretChanged(before, after) ==> a.Change?)
      && (a.Run? ==> PlanFor(env, before, x) == PlanFor(env, after, x))
  {
    if a.Run? {
      ReconcileKeepsSpec(env, c, a.inputs);
    }
  }

  // The reserved key as a label with a value, and as an annotation with or without one, is refused.
  lemma ReservedMetadata(secret: SecretObject)
    ensures UsesReservedLabel(secret) <==>
              && secret.labels.Some? && "secrets-store.sync.x-k8s.io" in secret.labels.value
              && secret.labels.value["secrets-store.sync.x-k8s.io"] != ""
    ensures UsesReservedAnnotation(secret) <==>
              secret.annotations.Some? && "secrets-store.sync.x-k8s.io" in secret.annotations.value
  {
  }

  // Each refusal has its reason, and an earlier check hides a later one.
  lemma RefusalsHaveReasons(env: Env, ss: SecretSync, x: Inputs)
    ensures UsesReservedLabel(ss.spec.secret) ==> PlanFor(env, ss, x) == Refusal(InvalidClusterSecretLabelError)
    ensures !UsesReservedLabel(ss.spec.secret) && UsesReservedAnnotation(ss.spec.secret) ==>
              PlanFor(env, ss, x) == Refusal(InvalidClusterSecretAnnotationError)
    ensures !UsesReservedLabel(ss.spec.secret) && !UsesReservedAnnotation(ss.spec.secret) ==>
              && (x.spc.None? ==> PlanFor(env, ss, x) == Refusal(SecretProviderClassMisconfigured))
              && (x.spc.Some? && x.fetch.ClientFailed? ==> PlanFor(env, ss, x) == Refusal(SecretProviderClassMisconfigured))
              && (x.spc.Some? && x.fetch.ParametersFailed? ==> PlanFor(env, ss, x) == Refusal(ControllerSyncError))
              && (x.spc.Some? && x.fetch.MountFailed? ==> PlanFor(env, ss, x) == Refusal(ProviderError))
              && (x.spc.Some? && x.fetch.Files? ==>
                    if SecretData.AllOk(env.pem, ss.spec.secret.kind, x.fetch.files, ss.spec.secret.data) then
                      x.hashFails ==> PlanFor(env, ss, x) == Refusal(ControllerSyncError)
                    else
                      PlanFor(env, ss, x) == Refusal(RemoteSecretStoreFetchFailed))
  {
    if x.fetch.Files? {
      SecretData.BuiltIffAllOk(env.pem, ss.spec.secret.kind, x.fetch.files, ss.spec.secret.data);
    }
  }

  // A patch is planned exactly if validation passes, the provider class was read, the provider gave
  // files from which every entry can be built, and the hash can be computed; the data is then that of
  // the last entry for each key.
  lemma PlannedExactly(env: Env, ss: SecretSync, x: Inputs)
    ensures
      var secret := ss.spec.secret;
      var plan := PlanFor(env, ss, x);
      && (plan.Desired? <==>
            && !(secret.labels.Some? && "secrets-store.sync.x-k8s.io" in secret.labels.value
                 && secret.labels.value["secrets-store.sync.x-k8s.io"] != "")
            && !(secret.annotations.Some? && "secrets-store.sync.x-k8s.io" in secret.annotations.value)
            && x.spc.Some? && !x.hashFails && x.fetch.Files? && SecretData.AllOk(env.pem, secret.kind, x.fetch.files, secret.data))
      && (plan.Desired? ==>
            && SecretData.IsData(env.pem, secret.kind, x.fetch.files, secret.data, plan.state.data.value)
            && plan.state.classUid == x.spc.value.uid && plan.state.classGeneration == x.spc.value.generation)
  {
    if x.fetch.Files? {
      SecretData.BuiltIffAllOk(env.pem, ss.spec.secret.kind, x.fetch.files, ss.spec.secret.data);
      SecretData.BuildMeaning(env.pem, ss.spec.secret.kind, x.fetch.files, ss.spec.secret.data);
    }
  }

  // Adding the reserved label never changes a label that the user asked for, because a planned
  // patch has passed validation; and nothing else of the user's metadata is touched.
  lemma PatchKeepsUserMetadata(env: Env, ss: SecretSync, x: Inputs)
    requires PlanFor(env, ss, x).Desired?
    ensures
      var patch := PatchFor(ss.uid, ss.spec, PlanFor(env, ss, x).state.data.value);
      && (forall k :: k in OrEmptyMap(ss.spec.secret.labels) ==>
            k in patch.labels && patch.labels[k] == OrEmptyMap(ss.spec.secret.labels)[k])
      && patch.labels.Keys == OrEmptyMap(ss.spec.secret.labels).Keys + {CONTROLLER_KEY}
      && patch.labels["secrets-store.sync.x-k8s.io"] == ""
      && patch.annotations == ss.spec.secret.annotations && "secrets-store.sync.x-k8s.io" !in OrEmptyMap(patch.annotations)
      && patch.kind == ss.spec.secret.kind && patch.ownerUid == ss.uid
  {
    assert !UsesReservedLabel(ss.spec.secret) && !UsesReservedAnnotation(ss.spec.secret);
  }
}
