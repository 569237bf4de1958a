/** One reconciliation as a function of the cluster and of what every call in it returns. */
module Reconciliation {
  import opened Text
  import opened Clusters
  import Json
  import SecretData
  import StateHash

  // The two library functions that a reconciliation relies on.
  datatype Env = Env(kdf: StateHash.Kdf, pem: SecretData.Pem)

  // What the informer cache serves: the stored object, an older version of it, or an error.
  datatype Read = Fresh | Stale(ss: SecretSync) | Unavailable

  datatype Fetch =
    | ClientFailed     // no provider client
    | ParametersFailed // no service account token, or parameters that cannot be marshalled
    | MountFailed      // the provider answered with an error
    | Files(files: SecretData.Files)

  datatype Inputs = Inputs(
    read: Read,
    initWrite: Outcome,
    spc: Option<ProviderClass>,
    fetch: Fetch,
    hashFails: bool,
    patch: Outcome,
    write: Outcome
  )

  datatype Verdict = Unread | NotInitialised | Refused(reason: Reason) | Skipped | PatchFailed | Synced(recorded: bool)

  function Observed(c: Cluster, read: Read): Option<SecretSync> {
    match read
    case Fresh => c.current
    case Stale(ss) => if ss in c.versions then Some(ss) else None
    case Unavailable => None
  }

  // An empty hash means that no Secret was ever created for this object.
  function Phase(ss: SecretSync): ConditionKind {
    if ss.status.syncHash == "" then SecretCreated else SecretUpdated
  }

  function WithCondition(ss: SecretSync, kind: ConditionKind, status: ConditionStatus, reason: Reason): SecretSync {
    ss.(status := ss.status.(conditions := SetCondition(ss.status.conditions, Condition(kind, status, reason))))
  }

  function WithInitialConditions(ss: SecretSync): SecretSync {
    WithCondition(WithCondition(ss, SecretCreated, Unknown, SyncStarting), SecretUpdated, Unknown, NoUpdatesAttemptedYet)
  }

  // The cluster and the object in hand once the conditions exist; None if the write failed.
  function Initialise(c: Cluster, ss: SecretSync, o: Outcome): (Cluster, Option<SecretSync>) {
    if |ss.status.conditions| >= 2 then (c, Some(ss))
    else
      var c' := WriteStatus(c, WithInitialConditions(ss), o);
      (c', if Reported(c, WithInitialConditions(ss), o) then c'.current else None)
  }

  /******* What the Secret should be *******/

  datatype Plan = Refusal(reason: Reason) | Desired(state: StateHash.State)

  predicate UsesReservedLabel(secret: SecretObject) {
    secret.labels.Some? && CONTROLLER_KEY in secret.labels.value && secret.labels.value[CONTROLLER_KEY] != ""
  }

  predicate UsesReservedAnnotation(secret: SecretObject) {
    secret.annotations.Some? && CONTROLLER_KEY in secret.annotations.value
  }

  datatype Fetched = NoData(reason: Reason) | Data(data: Json.DataMap)

  function FetchData(env: Env, ss: SecretSync, fetch: Fetch): Fetched {
    match fetch
    case ClientFailed => NoData(SecretProviderClassMisconfigured)
    case ParametersFailed => NoData(ControllerSyncError)
    case MountFailed => NoData(ProviderError)
    case Files(files) =>
      match SecretData.Build(env.pem, ss.spec.secret.kind, files, ss.spec.secret.data)
      case Failed(_, _, _) => NoData(RemoteSecretStoreFetchFailed)
      case Built(data) => Data(data)
  }

  function StateOf(ss: SecretSync, spc: ProviderClass, data: Json.DataMap): StateHash.State {
    StateHash.State(Some(data), spc.uid, spc.generation, ss.uid, ss.generation, ss.spec.force)
  }

  predicate IsStateOf(state: StateHash.State, ss: SecretSync) {
    && state.data.Some? && StateHash.ValidUids(state)
    && state.syncUid == ss.uid && state.syncGeneration == ss.generation && state.force == ss.spec.force
  }

  function PlanFor(env: Env, ss: SecretSync, x: Inputs): (p: Plan)
    ensures p.Refusal? ==> p.reason in FAILED_CONDITIONS_TRIGGERING_RETRY
    ensures p.Desired? ==> IsStateOf(p.state, ss)
  {
    if UsesReservedLabel(ss.spec.secret) then Refusal(InvalidClusterSecretLabelError)
    else if UsesReservedAnnotation(ss.spec.secret) then Refusal(InvalidClusterSecretAnnotationError)
    else if x.spc.None? then Refusal(SecretProviderClassMisconfigured)
    else
      match FetchData(env, ss, x.fetch)
      case NoData(reason) => Refusal(reason)
      case Data(data) =>
        if x.hashFails then Refusal(ControllerSyncError) else Desired(StateOf(ss, x.spc.value, data))
  }

  /******* Status after an attempt *******/

  function MarkSuccess(ss: SecretSync, hashChanged: bool): SecretSync {
    if Phase(ss).SecretCreated? then
      WithCondition(WithCondition(ss, SecretCreated, True, CreateSuccessful), SecretUpdated, True, SecretUpToDate)
    else if hashChanged then WithCondition(ss, SecretUpdated, True, SecretUpToDate)
    else ss
  }

  function AfterSuccess(ss: SecretSync, hash: string, now: int): SecretSync {
    var marked := MarkSuccess(ss, hash != ss.status.syncHash);
    marked.(status := marked.status.(syncHash := hash, lastSync := Some(now)))
  }

  // The hash and the time are rolled back; the success conditions set before the attempt are not.
  function AfterPatchFailure(ss: SecretSync, hash: string): SecretSync {
    WithCondition(MarkSuccess(ss, hash != ss.status.syncHash), Phase(ss), False, ControllerPatchError)
  }

  /******* The reconciliation *******/

  datatype Step = Step(cluster: Cluster, verdict: Verdict)

  predicate Skips(ss: SecretSync, hash: string, always: bool) {
    !always && !HasFailure(ss.status.conditions) && hash == ss.status.syncHash
  }

  function Attempt(c: Cluster, ss: SecretSync, state: StateHash.State, hash: string, x: Inputs): Step
    requires state.data.Some?
  {
    var patched := PatchSecret(c, ss, state, x.patch);
    if x.patch.Done? then
      var next := AfterSuccess(ss, hash, c.clock);
      Step(WriteStatus(patched, next, x.write), Synced(Reported(patched, next, x.write)))
    else
      Step(WriteStatus(patched, AfterPatchFailure(ss, hash), x.write), PatchFailed)
  }

  function Act(env: Env, c: Cluster, ss: SecretSync, x: Inputs, always: bool): Step {
    match PlanFor(env, ss, x)
    case Refusal(reason) =>
      Step(WriteStatus(c, WithCondition(ss, Phase(ss), False, reason), x.write), Refused(reason))
    case Desired(state) =>
      var hash := StateHash.SyncHash(env.kdf, state);
      if Skips(ss, hash, always) then Step(c, Skipped) else Attempt(c, ss, state, hash, x)
  }

  // With `always` the hash is never used to skip the patch.
  function ReconcileWith(env: Env, c: Cluster, x: Inputs, always: bool): Step {
    match Observed(c, x.read)
    case None => Step(c, Unread)
    case Some(ss) =>
      var (c', ready) := Initialise(c, ss, x.initWrite);
      if ready.None? then Step(c', NotInitialised) else Act(env, c', ready.value, x, always)
  }

  function Reconcile(env: Env, c: Cluster, x: Inputs): Step {
    ReconcileWith(env, c, x, false)
  }
}
