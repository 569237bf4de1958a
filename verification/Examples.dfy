/** Runs from an empty cluster that show what the code does where a tidier claim would be false. */
module Examples {
  import opened Text
  import opened Clusters
  import opened Reconciliation
  import opened Runs
  import opened Guarantees
  import opened Agreement
  import opened Refinement
  import SecretData
  import StateHash

  /******* Unrecorded patches *******/

  // If the record of a patch is lost and the provider then returns to its earlier answer, the next
  // reconciliation finds the earlier hash and leaves the wrong Secret in place.
  lemma LostRecordMisleads(env: Env, c: Cluster, x: Inputs, y: Inputs)
    requires c.current.Some? && |c.current.value.status.conditions| == 2 && !Failing(c)
    requires StateHash.CollisionFree(env.kdf, PlannedBy(env, c, x) + PlannedBy(env, c, y))
    requires x.read.Fresh? && PlanFor(env, c.current.value, x).Desired?
    requires c.current.value.status.syncHash == HashFor(env, c.current.value, x)
    requires y.read.Fresh? && PlanFor(env, c.current.value, y).Desired? && y.patch.Done? && y.write.Lost?
    requires PlanFor(env, c.current.value, x).state.data != PlanFor(env, c.current.value, y).state.data
    ensures
      var d := Reconcile(env, c, y).cluster;
      Reconcile(env, d, x) == Step(d, Skipped) && UpToDate(env, d, c.current.value, y) && !UpToDate(env, d, c.current.value, x)
  {
    var ss := c.current.value;
    if HashFor(env, ss, x) == HashFor(env, ss, y) {
      StateHash.SyncHashInjective(env.kdf, PlannedBy(env, c, x) + PlannedBy(env, c, y),
                                  PlanFor(env, ss, x).state, PlanFor(env, ss, y).state);
    }
    var state := PlanFor(env, ss, y).state;
    assert Reconcile(env, c, y) == Attempt(c, ss, state, HashFor(env, ss, y), y);
    var d := Reconcile(env, c, y).cluster;
    assert d.current == Some(ss);
  }

  // So does a stale read, although every call reports what it did: the status write that would have
  // recorded the patch is refused.
  lemma StaleReadMisleads(env: Env, c: Cluster, v: SecretSync, x: Inputs, y: Inputs)
    requires c.current.Some? && |c.current.value.status.conditions| == 2 && !Failing(c)
    requires x.read.Fresh? && PlanFor(env, c.current.value, x).Desired?
    requires c.current.value.status.syncHash == HashFor(env, c.current.value, x)
    requires y.read == Stale(v) && v in c.versions && v.version != c.current.value.version
    requires SameSpec(v, c.current.value) && |v.status.conditions| == 2
    requires PlanFor(env, v, y).Desired? && v.status.syncHash != HashFor(env, v, y) && y.patch.Done?
    requires PlanFor(env, c.current.value, x).state.data != PlanFor(env, v, y).state.data
    ensures
      var d := Reconcile(env, c, y).cluster;
      Reconcile(env, d, x) == Step(d, Skipped) && UpToDate(env, d, c.current.value, y) && !UpToDate(env, d, c.current.value, x)
  {
    StaleStep(env, c, v, y);
    PlanOfSame(env, v, c.current.value, y);
    var d := Reconcile(env, c, y).cluster;
    assert d == PatchSecret(c, v, PlanFor(env, v, y).state, y.patch);
  }

  const EXAMPLE_SPEC :=
    Spec("class", "account", SecretObject("Opaque", [SecretData.Item("f", "k")], None, None), "")

  function Answering(content: byte, write: Outcome): Inputs {
    Inputs(Fresh, Done, Some(ProviderClass("p", 1)), Files(map["f" := Some([content])]), false, Done, write)
  }

  function ExampleState(content: byte): StateHash.State {
    StateHash.State(Some(map["k" := Some([content])]), "p", 1, "u", 1, "")
  }

  predicate IsExample(c: Cluster) {
    c.current.Some? && c.current.value.uid == "u" && c.current.value.generation == 1 && c.current.value.spec == EXAMPLE_SPEC
  }

  lemma ExamplePlan(env: Env, c: Cluster, content: byte, write: Outcome)
    requires IsExample(c)
    ensures PlanFor(env, c.current.value, Answering(content, write)) == Desired(ExampleState(content))
  {
    var item := SecretData.Item("f", "k");
    var files: SecretData.Files := map["f" := Some([content])];
    TrimSpaceFree("f");
    TrimSpaceFree("k");
    assert SecretData.Content(env.pem, "Opaque", files, item) == SecretData.Ok(Some([content])) by {
      assert "Opaque"[0] != SecretData.TLS_SECRET[0];
    }
    assert [item][..0] == [];
    assert SecretData.Build(env.pem, "Opaque", files, [item]) == SecretData.Built(map["k" := Some([content])]);
  }

  // The example object is in step with the first answer.
  ghost predicate ExampleSettled(env: Env, c: Cluster) {
    && IsExample(c) && |c.current.value.status.conditions| == 2 && !Failing(c)
    && c.current.value.status.syncHash == StateHash.SyncHash(env.kdf, ExampleState(1))
  }

  lemma ExampleCreates(env: Env, b: Cluster)
    requires IsExample(b) && b.current.value.status == EMPTY_STATUS
    ensures ExampleSettled(env, Reconcile(env, b, Answering(1, Done)).cluster)
  {
    var x := Answering(1, Done);
    ExamplePlan(env, b, 1, Done);
    FreshStep(env, b, x);
    var (d, ready) := Initialise(b, b.current.value, x.initWrite);
    ExamplePlan(env, d, 1, Done);
    assert RecordsSuccess(env, b, x);
    SuccessRecorded(env, b, x);
    ExamplePlan(env, Reconcile(env, b, x).cluster, 1, Done);
  }

  // Careful runs in which a reconciliation skips exist: the second one of the example does.
  lemma CarefulRunSkips(env: Env, init: Cluster)
    requires Initial(init)
    ensures
      var x := Answering(1, Done);
      var c := Exec(env, init, [Create("u", EXAMPLE_SPEC), Run(x)], false);
      Careful(Create("u", EXAMPLE_SPEC)) && Careful(Run(x)) && Reconcile(env, c, x) == Step(c, Skipped)
  {
    var x := Answering(1, Done);
    var b := CreateObject(init, "u", EXAMPLE_SPEC);
    assert b == Apply(env, init, Create("u", EXAMPLE_SPEC), false);
    ExecOfTwo(env, init, Create("u", EXAMPLE_SPEC), Run(x));
    ExampleCreates(env, b);
    ExampleSkips(env, Reconcile(env, b, x).cluster);
  }

  lemma ExampleSkips(env: Env, c: Cluster)
    requires ExampleSettled(env, c)
    ensures Reconcile(env, c, Answering(1, Done)) == Step(c, Skipped)
  {
    ExamplePlan(env, c, 1, Done);
  }

  // A create whose patch never took effect leaves a status that says both that the patch failed and
  // that the Secret is up to date.
  lemma FailedCreateExample(env: Env, init: Cluster)
    requires Initial(init)
    ensures
      var d := Exec(env, init, [Create("u", EXAMPLE_SPEC), Run(Answering(1, Done).(patch := Lost))], false);
      && IsExample(d) && d.applied == [] && d.secret == init.secret && d.current.value.status.syncHash == ""
      && d.current.value.status.conditions ==
         [Condition(SecretCreated, False, ControllerPatchError), Condition(SecretUpdated, True, SecretUpToDate)]
  {
    var x := Answering(1, Done).(patch := Lost);
    var b := Apply(env, init, Create("u", EXAMPLE_SPEC), false);
    ExampleIsCreated(env, init);
    ExecOfTwo(env, init, Create("u", EXAMPLE_SPEC), Run(x));
    FailedCreate(env, b, x);
  }

  lemma FailedCreate(env: Env, b: Cluster, x: Inputs)
    requires IsExample(b) && b.current.value.status == EMPTY_STATUS && x == Answering(1, Done).(patch := Lost)
    ensures
      var d := Reconcile(env, b, x).cluster;
      && IsExample(d) && d.applied == b.applied && d.secret == b.secret && d.current.value.status.syncHash == ""
      && d.current.value.status.conditions ==
         [Condition(SecretCreated, False, ControllerPatchError), Condition(SecretUpdated, True, SecretUpToDate)]
  {
    FreshStep(env, b, x);
    var (d, ready) := Initialise(b, b.current.value, x.initWrite);
    ExamplePlan(env, d, 1, Done);
    assert PlanFor(env, ready.value, x) == PlanFor(env, ready.value, Answering(1, Done));
    AttemptFails(d, ready.value, ExampleState(1), StateHash.SyncHash(env.kdf, ExampleState(1)), x);
  }

  const FAILING := Answering(1, Done).(fetch := MountFailed)

  // A failure that the provider causes is latched although its first answer comes back: the run ends
  // with a failure that no further success with that answer clears.
  lemma StuckExample(env: Env, init: Cluster)
    requires Initial(init)
    ensures
      var x := Answering(1, Done);
      Stuck(env, Exec(env, init, [Create("u", EXAMPLE_SPEC), Run(x)] + [Run(FAILING)] + [Run(x)], false), x)
  {
    var x := Answering(1, Done);
    var b := Apply(env, init, Create("u", EXAMPLE_SPEC), false);
    assert b == CreateObject(init, "u", EXAMPLE_SPEC);
    ExecOfTwo(env, init, Create("u", EXAMPLE_SPEC), Run(x));
    ExampleCreates(env, b);
    StuckAfterFailure(env, init, [Create("u", EXAMPLE_SPEC), Run(x)]);
  }

  lemma StuckAfterFailure(env: Env, init: Cluster, actions: seq<Action>)
    requires Initial(init) && ExampleSettled(env, Exec(env, init, actions, false))
    ensures
      var x := Answering(1, Done);
      Stuck(env, Exec(env, init, actions + [Run(FAILING)] + [Run(x)], false), x)
  {
    var x := Answering(1, Done);
    var c, c' := Exec(env, init, actions, false), Exec(env, init, actions + [Run(FAILING)], false);
    ReachableStatus(env, init, actions);
    ReachableStatus(env, init, actions + [Run(FAILING)]);
    ExecMore(env, init, actions, Run(FAILING));
    ExecMore(env, init, actions + [Run(FAILING)], Run(x));
    ExampleFails(env, c, FAILING);
    ExampleSticks(env, c');
    assert Exec(env, init, actions + [Run(FAILING)] + [Run(x)], false) == Reconcile(env, c', x).cluster;
  }

  lemma ReachableStatus(env: Env, init: Cluster, actions: seq<Action>)
    requires Initial(init)
    ensures
      var c := Exec(env, init, actions, false);
      c.current.Some? ==> StatusOk(c.current.value.status, c.clock)
  {
    ReachableInv(env, init, actions, false);
  }

  lemma ExampleFails(env: Env, c: Cluster, y: Inputs)
    requires ExampleSettled(env, c) && StatusOk(c.current.value.status, c.clock)
    requires y == FAILING
    ensures
      var c' := Reconcile(env, c, y).cluster;
      IsExample(c') && Failing(c') && |c'.current.value.status.conditions| == 2
      && c'.current.value.status.syncHash == c.current.value.status.syncHash
  {
    FreshStep(env, c, y);
    RefusalRecorded(env, c, y, ProviderError);
  }

  lemma ExampleSticks(env: Env, c: Cluster)
    requires IsExample(c) && Failing(c) && StatusOk(c.current.value.status, c.clock) && |c.current.value.status.conditions| == 2
    requires c.current.value.status.syncHash == StateHash.SyncHash(env.kdf, ExampleState(1))
    ensures Stuck(env, Reconcile(env, c, Answering(1, Done)).cluster, Answering(1, Done))
  {
    var x := Answering(1, Done);
    ExamplePlan(env, c, 1, Done);
    FreshStep(env, c, x);
    assert RecordsSuccess(env, c, x);
    UnchangedHashIsStuck(env, c, x);
  }

  lemma ExampleIsCreated(env: Env, init: Cluster)
    requires Initial(init)
    ensures
      var b := Apply(env, init, Create("u", EXAMPLE_SPEC), false);
      && IsExample(b) && b.current.value.status == EMPTY_STATUS && b.nextVersion == init.nextVersion + 1
      && b.applied == [] && b.secret == init.secret
  {
  }

  lemma ActKeepsVersions(env: Env, c: Cluster, ss: SecretSync, x: Inputs)
    ensures c.versions <= Act(env, c, ss, x, false).cluster.versions
  {
    match PlanFor(env, ss, x)
    case Refusal(reason) =>
    case Desired(state) =>
      var hash := StateHash.SyncHash(env.kdf, state);
      var next := if x.patch.Done? then AfterSuccess(ss, hash, c.clock) else AfterPatchFailure(ss, hash);
      WriteKeepsVersionSet(PatchSecret(c, ss, state, x.patch), next, x.write);
  }

  lemma WriteKeepsVersionSet(c: Cluster, next: SecretSync, o: Outcome)
    ensures c.versions <= WriteStatus(c, next, o).versions
  {
  }

  // The version that the example's first status write stored.
  function ExampleStarted(version: nat): SecretSync {
    SecretSync("u", 1, version, EXAMPLE_SPEC, WithInitialConditions(SecretSync("u", 1, version, EXAMPLE_SPEC, EMPTY_STATUS)).status)
  }

  lemma ExampleKeepsOldVersion(env: Env, b: Cluster)
    requires IsExample(b) && b.current.value.status == EMPTY_STATUS
    ensures
      var c := Reconcile(env, b, Answering(1, Done)).cluster;
      var v := ExampleStarted(b.nextVersion);
      && v in c.versions && |v.status.conditions| == 2 && v.status.syncHash == ""
      && c.current.Some? && v.version != c.current.value.version
  {
    var x := Answering(1, Done);
    FreshStep(env, b, x);
    InitialConditionsOk(b.current.value, b.clock);
    var (d, ready) := Initialise(b, b.current.value, x.initWrite);
    assert d.current == Some(ExampleStarted(b.nextVersion));
    ActKeepsVersions(env, d, ready.value, x);
    ExamplePlan(env, d, 1, Done);
    assert Reconcile(env, b, x) == Attempt(d, ready.value, ExampleState(1), StateHash.SyncHash(env.kdf, ExampleState(1)), x);
  }

  // A run in which every call tells the truth and takes effect if it can, and one read is stale. It
  // ends with the wrong Secret and a reconciler that sees nothing to do.
  lemma StaleReadExample(env: Env, init: Cluster)
    requires Initial(init)
    ensures
      var x := Answering(1, Done);
      var y := Answering(2, Done).(read := Stale(ExampleStarted(init.nextVersion + 1)));
      var d := Exec(env, init, [Create("u", EXAMPLE_SPEC), Run(x), Run(y)], false);
      IsExample(d) && Reconcile(env, d, x) == Step(d, Skipped) && !UpToDate(env, d, d.current.value, x)
  {
    var x := Answering(1, Done);
    var v := ExampleStarted(init.nextVersion + 1);
    var y := Answering(2, Done).(read := Stale(v));
    var b := Apply(env, init, Create("u", EXAMPLE_SPEC), false);
    ExampleIsCreated(env, init);
    ExampleCreates(env, b);
    ExampleKeepsOldVersion(env, b);
    ExecOfThree(env, init, Create("u", EXAMPLE_SPEC), Run(x), Run(y));
    StaleExampleMisleads(env, Reconcile(env, b, x).cluster, v, y);
  }

  lemma StaleExampleMisleads(env: Env, c: Cluster, v: SecretSync, y: Inputs)
    requires ExampleSettled(env, c) && v in c.versions && y == Answering(2, Done).(read := Stale(v))
    requires v.uid == "u" && v.generation == 1 && v.spec == EXAMPLE_SPEC
    requires |v.status.conditions| == 2 && v.status.syncHash == "" && v.version != c.current.value.version
    ensures
      var x := Answering(1, Done);
      var d := Reconcile(env, c, y).cluster;
      IsExample(d) && Reconcile(env, d, x) == Step(d, Skipped) && !UpToDate(env, d, d.current.value, x)
  {
    var x := Answering(1, Done);
    ExamplePlan(env, c, 1, Done);
    ExamplePlan(env, c, 2, Done);
    PlanOfSame(env, v, c.current.value, y);
    assert PlanFor(env, c.current.value, y) == PlanFor(env, c.current.value, Answering(2, Done));
    assert map["k" := Some([1])]["k"] != map["k" := Some([2])]["k"];
    StaleReadMisleads(env, c, v, x, y);
    StaleStep(env, c, v, y);
  }

  lemma ExampleMisleads(env: Env, c: Cluster)
    requires StateHash.CollisionFree(env.kdf, {ExampleState(1), ExampleState(2)})
    requires ExampleSettled(env, c)
    ensures
      var x := Answering(1, Done);
      var d := Reconcile(env, c, Answering(2, Lost)).cluster;
      IsExample(d) && Reconcile(env, d, x) == Step(d, Skipped) && !UpToDate(env, d, d.current.value, x)
  {
    var x, y := Answering(1, Done), Answering(2, Lost);
    ExamplePlan(env, c, 1, Done);
    ExamplePlan(env, c, 2, Lost);
    assert map["k" := Some([1])]["k"] != map["k" := Some([2])]["k"];
    assert PlannedBy(env, c, x) + PlannedBy(env, c, y) == {ExampleState(1), ExampleState(2)};
    LostRecordMisleads(env, c, x, y);
    ReconcileKeepsSpec(env, c, y);
    var d := Reconcile(env, c, y).cluster;
    if UpToDate(env, d, d.current.value, x) {
      UpToDateForSame(env, d, d.current.value, c.current.value, x);
    }
  }

  // A run that ends with the wrong Secret and a reconciler that sees nothing to do.
  lemma LostRecordExample(env: Env, init: Cluster)
    requires Initial(init) && StateHash.CollisionFree(env.kdf, {ExampleState(1), ExampleState(2)})
    ensures
      var x := Answering(1, Done);
      var d := Exec(env, init, [Create("u", EXAMPLE_SPEC), Run(x), Run(Answering(2, Lost))], false);
      IsExample(d) && Reconcile(env, d, x) == Step(d, Skipped) && !UpToDate(env, d, d.current.value, x)
  {
    var x, y := Answering(1, Done), Answering(2, Lost);
    var b := Apply(env, init, Create("u", EXAMPLE_SPEC), false);
    assert b == CreateObject(init, "u", EXAMPLE_SPEC);
    var c := Reconcile(env, b, x).cluster;
    ExampleCreates(env, b);
    ExampleMisleads(env, c);
    ExecOfThree(env, init, Create("u", EXAMPLE_SPEC), Run(x), Run(y));
    assert Exec(env, init, [Create("u", EXAMPLE_SPEC), Run(x), Run(y)], false) == Reconcile(env, c, y).cluster;
  }

  lemma ExecMore(env: Env, init: Cluster, actions: seq<Action>, a: Action)
    ensures Exec(env, init, actions + [a], false) == Apply(env, Exec(env, init, actions, false), a, false)
  {
    assert (actions + [a])[..|actions|] == actions;
  }

  lemma ExecOfTwo(env: Env, init: Cluster, a: Action, b: Action)
    requires b.Run?
    ensures Exec(env, init, [a, b], false) == Reconcile(env, Apply(env, init, a, false), b.inputs).cluster
  {
    ExecMore(env, init, [], a);
    ExecMore(env, init, [a], b);
    assert [] + [a] == [a] && [a] + [b] == [a, b];
  }

  lemma ExecOfThree(env: Env, init: Cluster, a: Action, b: Action, c: Action)
    requires b.Run? && c.Run?
    ensures Exec(env, init, [a, b, c], false) ==
            Reconcile(env, Reconcile(env, Apply(env, init, a, false), b.inputs).cluster, c.inputs).cluster
  {
    ExecOfTwo(env, init, a, b);
    ExecMore(env, init, [a, b], c);
    assert [a, b] + [c] == [a, b, c];
  }
}
