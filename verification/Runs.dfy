/** Runs: reconciliations interleaved with users who create, change and delete the SecretSync. */
module Runs {
  import opened Text
  import opened Clusters
  import opened Reconciliation
  import StateHash

  datatype Action =
    | Tick(elapsed: nat)
    | Create(uid: Uid, spec: Spec)
    | Change(spec: Spec)
    | Delete
    | Run(inputs: Inputs)

  // A new object has a UID that was never used, generation 1 and an empty status.
  function CreateObject(c: Cluster, uid: Uid, spec: Spec): Cluster {
    if c.current.Some? || uid in c.uids then c
    else
      var ss := SecretSync(uid, 1, c.nextVersion, spec, EMPTY_STATUS);
      c.(current := Some(ss), versions := c.versions + {ss}, uids := c.uids + {uid}, nextVersion := c.nextVersion + 1)
  }

  // The API server bumps the generation on every change of the spec.
  function ChangeSpec(c: Cluster, spec: Spec): Cluster {
    if c.current.None? || c.current.value.spec == spec then c
    else
      var ss := c.current.value.(spec := spec, generation := c.current.value.generation + 1, version := c.nextVersion);
      c.(current := Some(ss), versions := c.versions + {ss}, nextVersion := c.nextVersion + 1)
  }

  ghost function Apply(env: Env, c: Cluster, a: Action, always: bool): Cluster {
    match a
    case Tick(elapsed) => c.(clock := c.clock + elapsed)
    case Create(uid, spec) => CreateObject(c, uid, spec)
    case Change(spec) => ChangeSpec(c, spec)
    case Delete => c.(current := None)
    case Run(x) => ReconcileWith(env, c, x, always).cluster
  }

  ghost function Exec(env: Env, c: Cluster, actions: seq<Action>, always: bool): Cluster {
    if |actions| == 0 then c
    else Apply(env, Exec(env, c, actions[..|actions| - 1], always), actions[|actions| - 1], always)
  }

  /******* The invariant *******/

  predicate HasShape(conditions: seq<Condition>) {
    || conditions == []
    || (|conditions| == 2 && conditions[0].kind == SecretCreated && conditions[1].kind == SecretUpdated)
  }

  predicate CreateSucceeded(conditions: seq<Condition>) {
    |conditions| > 0 && conditions[0] == Condition(SecretCreated, True, CreateSuccessful)
  }

  predicate StatusOk(status: Status, clock: int) {
    && HasShape(status.conditions)
    && (status.syncHash == "" <==> status.lastSync.None?)
    && (CreateSucceeded(status.conditions) <==> status.syncHash != "")
    && (status.lastSync.Some? ==> status.lastSync.value <= clock)
  }

  ghost predicate IsHashOf(env: Env, a: Applied, hash: string) {
    StateHash.SyncHash(env.kdf, a.state) == hash
  }

  // The stored hash of `v` belongs to a patch for that object, of this or an earlier generation, that
  // was applied and reported as successful.
  ghost predicate HashWasApplied(env: Env, applied: seq<Applied>, v: SecretSync) {
    exists a :: && a in applied && a.reported && IsHashOf(env, a, v.status.syncHash)
                && a.state.syncUid == v.uid && a.state.syncGeneration <= v.generation
  }

  // An applied patch was built from some stored version of the object.
  predicate BuiltFrom(a: Applied, v: SecretSync) {
    IsStateOf(a.state, v) && v.spec == a.spec && a.secret == PatchFor(v.uid, v.spec, a.state.data.value)
  }

  ghost predicate VersionsOk(c: Cluster) {
    && (c.current.Some? ==> c.current.value in c.versions)
    && (forall v :: v in c.versions ==> v.version < c.nextVersion && v.uid in c.uids)
    && (forall u, v :: u in c.versions && v in c.versions && u.version == v.version ==> u == v)
  }

  ghost predicate SpecsOk(c: Cluster) {
    && (forall u, v :: u in c.versions && v in c.versions && u.uid == v.uid && u.generation == v.generation ==> u.spec == v.spec)
    && (c.current.Some? ==> forall v :: v in c.versions && v.uid == c.current.value.uid ==> v.generation <= c.current.value.generation)
  }

  ghost predicate StatusesOk(c: Cluster) {
    forall v :: v in c.versions ==> StatusOk(v.status, c.clock)
  }

  ghost predicate HashesOk(env: Env, c: Cluster) {
    forall v :: v in c.versions && v.status.syncHash != "" ==> HashWasApplied(env, c.applied, v)
  }

  ghost predicate AppliedOk(c: Cluster) {
    && (forall a :: a in c.applied ==> exists v :: v in c.versions && BuiltFrom(a, v))
    && (|c.applied| > 0 ==> c.secret == Some(c.applied[|c.applied| - 1].secret))
  }

  ghost predicate Inv(env: Env, c: Cluster) {
    VersionsOk(c) && SpecsOk(c) && StatusesOk(c) && HashesOk(env, c) && AppliedOk(c)
  }

  /******* The two writes keep it *******/

  lemma WriteKeepsVersions(c: Cluster, ss: SecretSync, o: Outcome)
    requires VersionsOk(c)
    ensures VersionsOk(WriteStatus(c, ss, o))
  {
  }

  lemma WriteKeepsSpecs(c: Cluster, ss: SecretSync, o: Outcome)
    requires VersionsOk(c) && SpecsOk(c)
    ensures SpecsOk(WriteStatus(c, ss, o))
  {
  }

  lemma WriteKeepsApplied(c: Cluster, ss: SecretSync, o: Outcome)
    requires AppliedOk(c)
    ensures AppliedOk(WriteStatus(c, ss, o))
  {
    var c' := WriteStatus(c, ss, o);
    forall a | a in c'.applied ensures exists v :: v in c'.versions && BuiltFrom(a, v) {
      var v :| v in c.versions && BuiltFrom(a, v);
      assert v in c'.versions;
    }
  }

  lemma SameHashApplied(env: Env, applied: seq<Applied>, ss: SecretSync, v: SecretSync)
    requires HashWasApplied(env, applied, ss)
    requires v.uid == ss.uid && v.generation >= ss.generation && v.status.syncHash == ss.status.syncHash
    ensures HashWasApplied(env, applied, v)
  {
  }

  // `ss` is the version that was read, with a new status.
  lemma WriteKeepsInv(env: Env, c: Cluster, read: SecretSync, ss: SecretSync, o: Outcome)
    requires Inv(env, c) && read in c.versions && ss == read.(status := ss.status)
    requires StatusOk(ss.status, c.clock)
    requires ss.status.syncHash != "" ==> HashWasApplied(env, c.applied, ss)
    ensures Inv(env, WriteStatus(c, ss, o))
  {
    WriteKeepsVersions(c, ss, o);
    WriteKeepsSpecs(c, ss, o);
    WriteKeepsApplied(c, ss, o);
    WriteKeepsHashes(env, c, read, ss, o);
  }

  lemma WriteKeepsHashes(env: Env, c: Cluster, read: SecretSync, ss: SecretSync, o: Outcome)
    requires VersionsOk(c) && HashesOk(env, c) && read in c.versions && ss == read.(status := ss.status)
    requires ss.status.syncHash != "" ==> HashWasApplied(env, c.applied, ss)
    ensures HashesOk(env, WriteStatus(c, ss, o))
  {
    if Accepts(c, ss, o) && ss.status.syncHash != "" {
      assert c.current.value == read;
      SameHashApplied(env, c.applied, ss, WriteStatus(c, ss, o).current.value);
    }
  }

  lemma PatchKeepsApplied(c: Cluster, ss: SecretSync, state: StateHash.State, o: Outcome)
    requires AppliedOk(c) && ss in c.versions && IsStateOf(state, ss)
    ensures AppliedOk(PatchSecret(c, ss, state, o))
  {
    var c' := PatchSecret(c, ss, state, o);
    forall a | a in c'.applied ensures exists v :: v in c'.versions && BuiltFrom(a, v) {
      if a in c.applied {
        var v :| v in c.versions && BuiltFrom(a, v);
      } else {
        assert BuiltFrom(a, ss);
      }
    }
  }

  lemma HashStaysApplied(env: Env, c: Cluster, ss: SecretSync, state: StateHash.State, o: Outcome, v: SecretSync)
    requires state.data.Some?
    requires HashWasApplied(env, c.applied, v)
    ensures HashWasApplied(env, PatchSecret(c, ss, state, o).applied, v)
  {
    var a :| && a in c.applied && a.reported && IsHashOf(env, a, v.status.syncHash)
             && a.state.syncUid == v.uid && a.state.syncGeneration <= v.generation;
    assert a in PatchSecret(c, ss, state, o).applied;
  }

  lemma PatchKeepsInv(env: Env, c: Cluster, ss: SecretSync, state: StateHash.State, o: Outcome)
    requires Inv(env, c) && ss in c.versions && IsStateOf(state, ss)
    ensures Inv(env, PatchSecret(c, ss, state, o))
  {
    var c' := PatchSecret(c, ss, state, o);
    PatchKeepsApplied(c, ss, state, o);
    forall v | v in c'.versions && v.status.syncHash != ""
      ensures HashWasApplied(env, c'.applied, v)
    {
      HashStaysApplied(env, c, ss, state, o, v);
    }
  }

  /******* The statuses that are written *******/

  lemma InitialConditionsOk(ss: SecretSync, clock: int)
    requires StatusOk(ss.status, clock) && |ss.status.conditions| < 2
    ensures
      var s := WithInitialConditions(ss).status;
      && StatusOk(s, clock) && s.syncHash == ss.status.syncHash == ""
      && s.conditions == [Condition(SecretCreated, Unknown, SyncStarting), Condition(SecretUpdated, Unknown, NoUpdatesAttemptedYet)]
  {
    assert ss.status.conditions == [];
    var created := Condition(SecretCreated, Unknown, SyncStarting);
    var updated := Condition(SecretUpdated, Unknown, NoUpdatesAttemptedYet);
    assert SetCondition([], created) == [created];
    assert SetCondition([created], updated) == [created] + SetCondition([], updated);
  }

  lemma SetOfTwo(conditions: seq<Condition>, c: Condition)
    requires HasShape(conditions) && |conditions| == 2
    ensures SetCondition(conditions, c) ==
            if c.kind.SecretCreated? then [c, conditions[1]] else [conditions[0], c]
  {
    if c.kind.SecretUpdated? {
      assert SetCondition(conditions[1..], c) == [c];
    }
  }

  // A failure is recorded under the phase, so a create that succeeded is never taken back.
  lemma FailureOk(ss: SecretSync, reason: Reason, clock: int)
    requires StatusOk(ss.status, clock) && |ss.status.conditions| == 2
    requires reason in FAILED_CONDITIONS_TRIGGERING_RETRY
    ensures
      var s := WithCondition(ss, Phase(ss), False, reason).status;
      && StatusOk(s, clock) && s.syncHash == ss.status.syncHash && s.lastSync == ss.status.lastSync
      && HasFailure(s.conditions) && |s.conditions| == 2
  {
    var c := Condition(Phase(ss), False, reason);
    SetOfTwo(ss.status.conditions, c);
    var s := WithCondition(ss, Phase(ss), False, reason).status;
    assert s.conditions[if Phase(ss).SecretCreated? then 0 else 1] == c;
  }

  lemma MarkedConditions(ss: SecretSync, hashChanged: bool)
    requires HasShape(ss.status.conditions) && |ss.status.conditions| == 2
    ensures
      var s, s' := ss.status, MarkSuccess(ss, hashChanged).status;
      && s'.syncHash == s.syncHash && s'.lastSync == s.lastSync
      && s'.conditions ==
         if s.syncHash == "" then [Condition(SecretCreated, True, CreateSuccessful), Condition(SecretUpdated, True, SecretUpToDate)]
         else if hashChanged then [s.conditions[0], Condition(SecretUpdated, True, SecretUpToDate)]
         else s.conditions
  {
    var created := Condition(SecretCreated, True, CreateSuccessful);
    var updated := Condition(SecretUpdated, True, SecretUpToDate);
    SetOfTwo(ss.status.conditions, created);
    SetOfTwo(ss.status.conditions, updated);
    SetOfTwo([created, ss.status.conditions[1]], updated);
  }

  lemma SuccessOk(ss: SecretSync, hash: string, clock: int)
    requires StatusOk(ss.status, clock) && |ss.status.conditions| == 2 && hash != ""
    ensures
      var s := AfterSuccess(ss, hash, clock).status;
      StatusOk(s, clock) && s.syncHash == hash && |s.conditions| == 2
  {
    MarkedConditions(ss, hash != ss.status.syncHash);
  }

  // Rolling back the hash and the time after a failed patch restores a consistent status, although
  // a failed create leaves SecretUpdated marked as up to date.
  lemma PatchFailureOk(ss: SecretSync, hash: string, clock: int)
    requires StatusOk(ss.status, clock) && |ss.status.conditions| == 2
    ensures
      var s := AfterPatchFailure(ss, hash).status;
      && StatusOk(s, clock) && s.syncHash == ss.status.syncHash && s.lastSync == ss.status.lastSync
      && HasFailure(s.conditions) && |s.conditions| == 2
      && s.conditions == FailedConditions(ss)
  {
    var changed := hash != ss.status.syncHash;
    MarkedConditions(ss, changed);
    SetOfTwo(MarkSuccess(ss, changed).status.conditions, Condition(Phase(ss), False, ControllerPatchError));
    var s := AfterPatchFailure(ss, hash).status;
    assert s.conditions[if Phase(ss).SecretCreated? then 0 else 1].reason == ControllerPatchError;
  }

  // What a failed patch leaves: in the create phase the other condition keeps its mark of success.
  function FailedConditions(ss: SecretSync): seq<Condition>
    requires |ss.status.conditions| == 2
  {
    if ss.status.syncHash == "" then
      [Condition(SecretCreated, False, ControllerPatchError), Condition(SecretUpdated, True, SecretUpToDate)]
    else
      [ss.status.conditions[0], Condition(SecretUpdated, False, ControllerPatchError)]
  }

  // Optimistic concurrency: of two writers that read the same version only the first to be accepted
  // takes effect, so neither overwrites what the other stored.
  lemma OneWriterWins(c: Cluster, read: SecretSync, first: Status, o: Outcome, second: Status, o': Outcome)
    requires VersionsOk(c) && read in c.versions
    ensures
      var c' := WriteStatus(c, read.(status := first), o);
      && (c' != c ==> c.current == Some(read) && WriteStatus(c', read.(status := second), o') == c')
      && (c.current != Some(read) ==> c' == c)
  {
    var c' := WriteStatus(c, read.(status := first), o);
    if c.current.Some? && c.current.value.version == read.version {
      assert c.current.value == read;
    }
    if c' != c {
      assert c'.current.value.version == c.nextVersion;
      assert read.version < c.nextVersion;
    }
  }

  /******* A reconciliation keeps it *******/

  lemma InitialiseKeepsInv(env: Env, c: Cluster, ss: SecretSync, o: Outcome)
    requires Inv(env, c) && ss in c.versions
    ensures
      var (c', ready) := Initialise(c, ss, o);
      && Inv(env, c') && c.versions <= c'.versions
      && (ready.Some? ==> ready.value in c'.versions && |ready.value.status.conditions| == 2)
  {
    if |ss.status.conditions| < 2 {
      InitialConditionsOk(ss, c.clock);
      WriteKeepsInv(env, c, ss, WithInitialConditions(ss), o);
    }
  }

  lemma OldHashApplied(env: Env, c: Cluster, ss: SecretSync, next: SecretSync)
    requires HashesOk(env, c) && ss in c.versions
    requires next == ss.(status := next.status) && next.status.syncHash == ss.status.syncHash
    ensures next.status.syncHash != "" ==> HashWasApplied(env, c.applied, next)
  {
    if next.status.syncHash != "" {
      SameHashApplied(env, c.applied, ss, next);
    }
  }

  lemma NewHashApplied(env: Env, c: Cluster, ss: SecretSync, state: StateHash.State)
    requires IsStateOf(state, ss)
    ensures
      var next := AfterSuccess(ss, StateHash.SyncHash(env.kdf, state), c.clock);
      HashWasApplied(env, PatchSecret(c, ss, state, Done).applied, next)
  {
    var a := PatchSecret(c, ss, state, Done).applied[|c.applied|];
    assert IsHashOf(env, a, StateHash.SyncHash(env.kdf, state));
  }

  lemma SuccessKeepsInv(env: Env, c: Cluster, ss: SecretSync, state: StateHash.State, o: Outcome)
    requires Inv(env, c) && ss in c.versions && |ss.status.conditions| == 2 && IsStateOf(state, ss)
    ensures Inv(env, WriteStatus(PatchSecret(c, ss, state, Done), AfterSuccess(ss, StateHash.SyncHash(env.kdf, state), c.clock), o))
  {
    var hash := StateHash.SyncHash(env.kdf, state);
    PatchKeepsInv(env, c, ss, state, Done);
    SuccessOk(ss, hash, c.clock);
    NewHashApplied(env, c, ss, state);
    WriteKeepsInv(env, PatchSecret(c, ss, state, Done), ss, AfterSuccess(ss, hash, c.clock), o);
  }

  lemma PatchFailureKeepsInv(env: Env, c: Cluster, ss: SecretSync, state: StateHash.State, hash: string, patch: Outcome, o: Outcome)
    requires Inv(env, c) && ss in c.versions && |ss.status.conditions| == 2 && IsStateOf(state, ss)
    ensures Inv(env, WriteStatus(PatchSecret(c, ss, state, patch), AfterPatchFailure(ss, hash), o))
  {
    var patched := PatchSecret(c, ss, state, patch);
    PatchKeepsInv(env, c, ss, state, patch);
    PatchFailureOk(ss, hash, c.clock);
    OldHashApplied(env, patched, ss, AfterPatchFailure(ss, hash));
    WriteKeepsInv(env, patched, ss, AfterPatchFailure(ss, hash), o);
  }

  lemma AttemptKeepsInv(env: Env, c: Cluster, ss: SecretSync, state: StateHash.State, x: Inputs)
    requires Inv(env, c) && ss in c.versions && |ss.status.conditions| == 2 && IsStateOf(state, ss)
    ensures Inv(env, Attempt(c, ss, state, StateHash.SyncHash(env.kdf, state), x).cluster)
  {
    if x.patch.Done? {
      SuccessKeepsInv(env, c, ss, state, x.write);
    } else {
      PatchFailureKeepsInv(env, c, ss, state, StateHash.SyncHash(env.kdf, state), x.patch, x.write);
    }
  }

  lemma ActKeepsInv(env: Env, c: Cluster, ss: SecretSync, x: Inputs, always: bool)
    requires Inv(env, c) && ss in c.versions && |ss.status.conditions| == 2
    ensures Inv(env, Act(env, c, ss, x, always).cluster)
  {
    match PlanFor(env, ss, x)
    case Refusal(reason) =>
      FailureOk(ss, reason, c.clock);
      OldHashApplied(env, c, ss, WithCondition(ss, Phase(ss), False, reason));
      WriteKeepsInv(env, c, ss, WithCondition(ss, Phase(ss), False, reason), x.write);
    case Desired(state) =>
      AttemptKeepsInv(env, c, ss, state, x);
  }

  lemma ReconcileKeepsInv(env: Env, c: Cluster, x: Inputs, always: bool)
    requires Inv(env, c)
    ensures Inv(env, ReconcileWith(env, c, x, always).cluster)
  {
    var seen := Observed(c, x.read);
    if seen.Some? {
      InitialiseKeepsInv(env, c, seen.value, x.initWrite);
      var (c', ready) := Initialise(c, seen.value, x.initWrite);
      if ready.Some? {
        ActKeepsInv(env, c', ready.value, x, always);
      }
    }
  }

  /******* Users keep it *******/

  lemma CreateKeepsInv(env: Env, c: Cluster, uid: Uid, spec: Spec)
    requires Inv(env, c)
    ensures Inv(env, CreateObject(c, uid, spec))
  {
    var c' := CreateObject(c, uid, spec);
    AppliedOkMonotone(c, c');
  }

  lemma ChangeKeepsVersions(c: Cluster, spec: Spec)
    requires VersionsOk(c) && SpecsOk(c)
    ensures VersionsOk(ChangeSpec(c, spec)) && SpecsOk(ChangeSpec(c, spec))
  {
  }

  lemma ChangeKeepsHashes(env: Env, c: Cluster, spec: Spec)
    requires VersionsOk(c) && HashesOk(env, c)
    ensures HashesOk(env, ChangeSpec(c, spec))
  {
    var c' := ChangeSpec(c, spec);
    if c.current.Some? && c.current.value.status.syncHash != "" {
      SameHashApplied(env, c.applied, c.current.value, c'.current.value);
    }
  }

  lemma ChangeKeepsInv(env: Env, c: Cluster, spec: Spec)
    requires Inv(env, c)
    ensures Inv(env, ChangeSpec(c, spec))
  {
    ChangeKeepsVersions(c, spec);
    ChangeKeepsHashes(env, c, spec);
    AppliedOkMonotone(c, ChangeSpec(c, spec));
  }

  lemma AppliedOkMonotone(c: Cluster, c': Cluster)
    requires AppliedOk(c) && c.versions <= c'.versions && c'.applied == c.applied && c'.secret == c.secret
    ensures AppliedOk(c')
  {
    forall a | a in c'.applied ensures exists v :: v in c'.versions && BuiltFrom(a, v) {
      var v :| v in c.versions && BuiltFrom(a, v);
      assert v in c'.versions;
    }
  }

  lemma ApplyKeepsInv(env: Env, c: Cluster, a: Action, always: bool)
    requires Inv(env, c)
    ensures Inv(env, Apply(env, c, a, always))
  {
    match a
    case Tick(_) => AppliedOkMonotone(c, Apply(env, c, a, always));
    case Create(uid, spec) => CreateKeepsInv(env, c, uid, spec);
    case Change(spec) => ChangeKeepsInv(env, c, spec);
    case Delete => AppliedOkMonotone(c, Apply(env, c, a, always));
    case Run(x) => ReconcileKeepsInv(env, c, x, always);
  }

  // In every run, whatever calls fail and however stale the reads are.
  lemma {:induction false} ReachableInv(env: Env, init: Cluster, actions: seq<Action>, always: bool)
    requires Initial(init)
    ensures Inv(env, Exec(env, init, actions, always))
  {
    if |actions| > 0 {
      var n := |actions| - 1;
      ReachableInv(env, init, actions[..n], always);
      ApplyKeepsInv(env, Exec(env, init, actions[..n], always), actions[n], always);
    }
  }
}
