/** The values the reconciler works on, and the effect of each of its API calls: compare-and-swap
    status writes and the unconditional patch of the Secret. */
module Clusters {
  import opened Text
  import Json
  import SecretData
  import StateHash

  /******* Conditions *******/

  datatype ConditionKind = SecretCreated | SecretUpdated

  datatype ConditionStatus = True | False | Unknown

  datatype Reason =
    | ProviderError
    | InvalidClusterSecretLabelError
    | InvalidClusterSecretAnnotationError
    | ControllerSyncError
    | ControllerPatchError
    | SecretProviderClassMisconfigured
    | RemoteSecretStoreFetchFailed
    | SyncStarting
    | NoUpdatesAttemptedYet
    | SecretUpToDate
    | CreateSuccessful

  datatype Condition = Condition(kind: ConditionKind, status: ConditionStatus, reason: Reason)

  const FAILED_CONDITIONS_TRIGGERING_RETRY: set<Reason> := {
    SecretProviderClassMisconfigured,
    InvalidClusterSecretAnnotationError,
    InvalidClusterSecretLabelError,
    ProviderError,
    RemoteSecretStoreFetchFailed,
    ControllerPatchError,
    ControllerSyncError
  }

  predicate HasFailure(conditions: seq<Condition>) {
    exists i :: 0 <= i < |conditions| && conditions[i].reason in FAILED_CONDITIONS_TRIGGERING_RETRY
  }

  // Replaces the condition of the same kind, or adds the new one at the end.
  function SetCondition(conditions: seq<Condition>, c: Condition): seq<Condition> {
    if |conditions| == 0 then [c]
    else if conditions[0].kind == c.kind then [c] + conditions[1..]
    else [conditions[0]] + SetCondition(conditions[1..], c)
  }

  // The condition is set, conditions of other kinds stay, and the list grows only for a new kind.
  lemma {:induction false} SetConditionMeaning(conditions: seq<Condition>, c: Condition)
    ensures
      var after := SetCondition(conditions, c);
      && c in after
      && (forall d :: d in conditions && d.kind != c.kind ==> d in after)
      && (forall d :: d in after ==> d == c || d in conditions)
      && |after| == if exists d :: d in conditions && d.kind == c.kind then |conditions| else |conditions| + 1
  {
    if |conditions| > 0 && conditions[0].kind != c.kind {
      SetConditionMeaning(conditions[1..], c);
      assert conditions == [conditions[0]] + conditions[1..];
    } else if |conditions| > 0 {
      assert conditions[0] in conditions;
    }
  }

  /******* API objects *******/

  datatype SecretObject = SecretObject(
    kind: string,
    data: seq<SecretData.Item>,
    labels: Option<map<string, string>>,
    annotations: Option<map<string, string>>
  )

  datatype Spec = Spec(className: string, accountName: string, secret: SecretObject, force: string)

  datatype Status = Status(conditions: seq<Condition>, syncHash: string, lastSync: Option<int>)

  const EMPTY_STATUS := Status([], "", None)

  // UIDs are UUIDs assigned by the API server.
  type Uid = s: string | '|' !in s

  datatype SecretSync = SecretSync(uid: Uid, generation: int, version: nat, spec: Spec, status: Status)

  datatype ProviderClass = ProviderClass(uid: Uid, generation: int)

  datatype Secret = Secret(
    labels: map<string, string>,
    annotations: Option<map<string, string>>,
    ownerUid: Uid,
    data: Json.DataMap,
    kind: string
  )

  const CONTROLLER_KEY := "secrets-store.sync.x-k8s.io"

  function OrEmptyMap(m: Option<map<string, string>>): map<string, string> {
    match m
    case None => map[]
    case Some(entries) => entries
  }

  // The Secret that a server-side apply of the controller's patch leaves.
  function PatchFor(uid: Uid, spec: Spec, data: Json.DataMap): Secret {
    Secret(OrEmptyMap(spec.secret.labels)[CONTROLLER_KEY := ""], spec.secret.annotations, uid, data, spec.secret.kind)
  }

  // One application of a patch: the state its hash stands for, and whether the call was reported
  // to the controller as successful.
  datatype Applied = Applied(state: StateHash.State, spec: Spec, secret: Secret, reported: bool)

  /** The API server, for one SecretSync name: the stored object, every version of it that was ever
      stored (what a stale cache may still serve), the Secret and the log of patches applied to it. */
  datatype Cluster = Cluster(
    current: Option<SecretSync>,
    versions: set<SecretSync>,
    uids: set<Uid>,
    nextVersion: nat,
    clock: int,
    secret: Option<Secret>,
    applied: seq<Applied>
  )

  predicate Initial(c: Cluster) {
    c.current.None? && c.versions == {} && c.uids == {} && c.applied == []
  }

  /******* API calls *******/

  // A call takes effect and says so, has no effect, or takes effect although it reports an error.
  datatype Outcome = Done | Lost | DoneUnreported

  predicate Accepts(c: Cluster, ss: SecretSync, o: Outcome) {
    !o.Lost? && c.current.Some? && c.current.value.version == ss.version
  }

  // Writes the status of `ss`, provided no other version was stored since it was read.
  function WriteStatus(c: Cluster, ss: SecretSync, o: Outcome): Cluster {
    if Accepts(c, ss, o) then
      var next := c.current.value.(status := ss.status, version := c.nextVersion);
      c.(current := Some(next), versions := c.versions + {next}, nextVersion := c.nextVersion + 1)
    else c
  }

  predicate Reported(c: Cluster, ss: SecretSync, o: Outcome) {
    o.Done? && Accepts(c, ss, o)
  }

  // Applies the patch for `ss` and `state`, whatever is stored.
  function PatchSecret(c: Cluster, ss: SecretSync, state: StateHash.State, o: Outcome): Cluster
    requires state.data.Some?
  {
    if o.Lost? then c
    else
      var secret := PatchFor(ss.uid, ss.spec, state.data.value);
      c.(secret := Some(secret), applied := c.applied + [Applied(state, ss.spec, secret, o.Done?)])
  }
}
