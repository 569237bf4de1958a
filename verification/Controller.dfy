/** The reconciler as the program it is: it holds a SecretSync that it updates in place, calls the
    API server, and rolls back what it set before a patch that failed. Each method is proved to do
    what the functions on values say. */
module Controller {
  import opened Text
  import opened Clusters
  import opened Reconciliation
  import SecretData
  import StateHash

  /** The object in hand. Its status is updated in place before it is written. */
  class SyncObject {
    var uid: Uid
    var generation: int
    var version: nat
    var spec: Spec
    var conditions: seq<Condition>
    var syncHash: string
    var lastSync: Option<int>

    function View(): SecretSync
      reads this
    {
      SecretSync(uid, generation, version, spec, Status(conditions, syncHash, lastSync))
    }

    constructor (ss: SecretSync)
      ensures View() == ss
    {
      new;
      Decode(ss);
    }

    // Overwrites the object with what the API server answered.
    method Decode(ss: SecretSync)
      modifies this
      ensures View() == ss
    {
      uid, generation, version, spec := ss.uid, ss.generation, ss.version, ss.spec;
      conditions, syncHash, lastSync := ss.status.conditions, ss.status.syncHash, ss.status.lastSync;
    }

    method SetStatusCondition(c: Condition)
      modifies this`conditions
      ensures conditions == SetCondition(old(conditions), c)
    {
      var i := 0;
      while i < |conditions| && conditions[i].kind != c.kind
        invariant 0 <= i <= |conditions|
        invariant SetCondition(conditions, c) == conditions[..i] + SetCondition(conditions[i..], c)
      {
        i := i + 1;
      }
      conditions := if i < |conditions| then conditions[i := c] else conditions + [c];
    }
  }

  /** The API server. The outcome of a call is chosen by the caller of the reconciler. */
  class ApiServer {
    var cluster: Cluster

    constructor (c: Cluster)
      ensures cluster == c
    {
      cluster := c;
    }

    method Get(read: Read) returns (ss: Option<SecretSync>)
      ensures ss == Observed(cluster, read)
    {
      ss := Observed(cluster, read);
    }

    // Writes the status of `ss`; a success decodes the stored object back into it.
    method UpdateStatus(ss: SyncObject, o: Outcome) returns (ok: bool)
      modifies this, ss
      ensures cluster == WriteStatus(old(cluster), old(ss.View()), o)
      ensures ok <==> Reported(old(cluster), old(ss.View()), o)
      ensures if ok then cluster.current == Some(ss.View()) else ss.View() == old(ss.View())
    {
      var written := ss.View();
      ok := Reported(cluster, written, o);
      cluster := WriteStatus(cluster, written, o);
      if ok {
        ss.Decode(cluster.current.value);
      }
    }

    method PatchSecret(ss: SyncObject, state: StateHash.State, o: Outcome) returns (ok: bool)
      requires state.data.Some?
      modifies this
      ensures cluster == Clusters.PatchSecret(old(cluster), ss.View(), state, o)
      ensures ok <==> o.Done?
    {
      cluster := Clusters.PatchSecret(cluster, ss.View(), state, o);
      ok := o.Done?;
    }
  }

  // Sets a condition and, if asked to, writes the status; a failed write is only logged.
  method UpdateStatusConditions(server: ApiServer, ss: SyncObject, kind: ConditionKind, status: ConditionStatus,
                                reason: Reason, shouldUpdateStatus: bool, o: Outcome)
    modifies server, ss
    ensures
      var after := WithCondition(old(ss.View()), kind, status, reason);
      if shouldUpdateStatus then
        && server.cluster == WriteStatus(old(server.cluster), after, o)
        && (if Reported(old(server.cluster), after, o) then server.cluster.current == Some(ss.View()) else ss.View() == after)
      else
        server.cluster == old(server.cluster) && ss.View() == after
  {
    ss.SetStatusCondition(Condition(kind, status, reason));
    if shouldUpdateStatus {
      var _ := server.UpdateStatus(ss, o);
    }
  }

  method InitConditions(server: ApiServer, ss: SyncObject, o: Outcome) returns (ok: bool)
    modifies server, ss
    ensures
      var after := WithInitialConditions(old(ss.View()));
      && server.cluster == WriteStatus(old(server.cluster), after, o)
      && (ok <==> Reported(old(server.cluster), after, o))
      && (ok ==> server.cluster.current == Some(ss.View()))
  {
    ss.SetStatusCondition(Condition(SecretCreated, Unknown, SyncStarting));
    ss.SetStatusCondition(Condition(SecretUpdated, Unknown, NoUpdatesAttemptedYet));
    ok := server.UpdateStatus(ss, o);
  }

  method FetchSecretsFromProvider(env: Env, spec: Spec, fetch: Fetch) returns (r: Fetched)
    ensures forall ss: SecretSync :: ss.spec == spec ==> r == FetchData(env, ss, fetch)
  {
    match fetch {
      case ClientFailed => r := NoData(SecretProviderClassMisconfigured);
      case ParametersFailed => r := NoData(ControllerSyncError);
      case MountFailed => r := NoData(ProviderError);
      case Files(files) =>
        var data, failure := SecretData.BuildKubeSecretData(spec.secret.data, spec.secret.kind, files, env.pem);
        if failure.Some? {
          r := NoData(RemoteSecretStoreFetchFailed);
        } else {
          r := Data(data);
        }
    }
  }

  // Whether a stored failure asks for another attempt.
  method FindFailure(conditions: seq<Condition>) returns (failed: bool)
    ensures failed <==> HasFailure(conditions)
  {
    failed := false;
    for i := 0 to |conditions|
      invariant failed <==> exists j :: 0 <= j < i && conditions[j].reason in FAILED_CONDITIONS_TRIGGERING_RETRY
    {
      if conditions[i].reason in FAILED_CONDITIONS_TRIGGERING_RETRY {
        return true;
      }
    }
  }

  // Everything that can refuse the reconciliation before the Secret is considered.
  method PlanSecret(env: Env, ss: SyncObject, x: Inputs) returns (plan: Plan)
    ensures plan == PlanFor(env, ss.View(), x)
  {
    if UsesReservedLabel(ss.spec.secret) {
      return Refusal(InvalidClusterSecretLabelError);
    }
    if UsesReservedAnnotation(ss.spec.secret) {
      return Refusal(InvalidClusterSecretAnnotationError);
    }
    if x.spc.None? {
      return Refusal(SecretProviderClassMisconfigured);
    }
    var fetched := FetchSecretsFromProvider(env, ss.spec, x.fetch);
    if fetched.NoData? {
      return Refusal(fetched.reason);
    }
    if x.hashFails {
      return Refusal(ControllerSyncError);
    }
    plan := Desired(StateOf(ss.View(), x.spc.value, fetched.data));
  }

  // Marks success, records the hash and the time, patches, and rolls back if the patch fails.
  method SyncSecret(server: ApiServer, ss: SyncObject, state: StateHash.State, syncHash: string, x: Inputs)
    returns (verdict: Verdict)
    requires state.data.Some? && ss as object != server
    modifies server, ss
    ensures Step(server.cluster, verdict) == Attempt(old(server.cluster), old(ss.View()), state, syncHash, x)
  {
    var conditionType := if ss.syncHash == "" then SecretCreated else SecretUpdated;
    var hashChanged := syncHash != ss.syncHash;
    if conditionType == SecretCreated {
      UpdateStatusConditions(server, ss, conditionType, True, CreateSuccessful, false, x.write);
      UpdateStatusConditions(server, ss, SecretUpdated, True, SecretUpToDate, false, x.write);
    } else if hashChanged {
      UpdateStatusConditions(server, ss, conditionType, True, SecretUpToDate, false, x.write);
    }
    assert ss.View() == MarkSuccess(old(ss.View()), hashChanged);
    var prevHash, prevTime := ss.syncHash, ss.lastSync;
    ss.lastSync := Some(server.cluster.clock);
    ss.syncHash := syncHash;
    var patched := server.PatchSecret(ss, state, x.patch);
    if !patched {
      ss.syncHash, ss.lastSync := prevHash, prevTime;
      UpdateStatusConditions(server, ss, conditionType, False, ControllerPatchError, true, x.write);
      return PatchFailed;
    }
    var recorded := server.UpdateStatus(ss, x.write);
    verdict := Synced(recorded);
  }

  method Reconcile(env: Env, server: ApiServer, x: Inputs) returns (verdict: Verdict)
    modifies server
    ensures Step(server.cluster, verdict) == Reconciliation.Reconcile(env, old(server.cluster), x)
  {
    var read := server.Get(x.read);
    if read.None? {
      return Unread;
    }
    var ss := new SyncObject(read.value);
    var conditionType := if ss.syncHash == "" then SecretCreated else SecretUpdated;
    if |ss.conditions| < 2 {
      var ok := InitConditions(server, ss, x.initWrite);
      if !ok {
        return NotInitialised;
      }
    }
    assert Initialise(old(server.cluster), read.value, x.initWrite) == (server.cluster, Some(ss.View()));
    var plan := PlanSecret(env, ss, x);
    if plan.Refusal? {
      UpdateStatusConditions(server, ss, conditionType, False, plan.reason, true, x.write);
      return Refused(plan.reason);
    }
    var syncHash := StateHash.SyncHash(env.kdf, plan.state);
    var failed := FindFailure(ss.conditions);
    if !failed && syncHash == ss.syncHash {
      return Skipped;
    }
    verdict := SyncSecret(server, ss, plan.state, syncHash, x);
  }
}
