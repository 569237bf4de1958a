/** The generated deep copies, on a heap: a map, a slice or a pointer in a struct is a reference
    that a plain assignment shares, and a copy is correct if it is equal and shares none of them.
    A struct embedded in a struct is an object of its own that its owner never gives away. */
module DeepCopy {
  import opened Text
  import Clusters
  import Json
  import SecretData

  class StringMap {
    var entries: map<string, string>

    constructor ()
      ensures entries == map[]
    {
      entries := map[];
    }

    method Copy() returns (copy: StringMap)
      ensures fresh(copy) && copy.entries == entries
    {
      copy := new StringMap();
      var keys := entries.Keys;
      while keys != {}
        invariant keys <= entries.Keys && fresh(copy)
        invariant copy.entries == map key | key in entries && key !in keys :: entries[key]
        decreases keys
      {
        var key :| key in keys;
        copy.entries := copy.entries[key := entries[key]];
        keys := keys - {key};
      }
    }
  }

  class Time {
    var seconds: int

    constructor (seconds: int)
      ensures this.seconds == seconds
    {
      this.seconds := seconds;
    }
  }

  predicate SameMap(m: StringMap?, m': StringMap?)
    reads m, m'
  {
    (m == null <==> m' == null) && (m != null && m' != null ==> m.entries == m'.entries)
  }

  function MapView(m: StringMap?): Option<map<string, string>>
    reads m
  {
    if m == null then None else Some(m.entries)
  }

  class SecretObject {
    var kind: string
    var data: array?<SecretData.Item>
    var labels: StringMap?
    var annotations: StringMap?

    constructor ()
    {
      kind, data, labels, annotations := "", null, null, null;
    }

    // The references that a plain assignment would share.
    ghost function Shared(): set<object?>
      reads this
    {
      {data, labels, annotations} - {null}
    }

    // Labels and annotations are never one map in a copy, even if they are in the original.
    ghost predicate Separate()
      reads this
    {
      labels != null ==> labels != annotations
    }

    predicate SameAs(other: SecretObject)
      reads this, data, labels, annotations, other, other.data, other.labels, other.annotations
    {
      && kind == other.kind
      && (data == null <==> other.data == null)
      && (data != null && other.data != null ==> data[..] == other.data[..])
      && SameMap(labels, other.labels) && SameMap(annotations, other.annotations)
    }

    function View(): Clusters.SecretObject
      reads this, data, labels, annotations
    {
      Clusters.SecretObject(kind, if data == null then [] else data[..], MapView(labels), MapView(annotations))
    }

    // `*out = *in`
    method AssignTo(out: SecretObject)
      modifies out
      ensures out.kind == kind && out.data == data && out.labels == labels && out.annotations == annotations
    {
      out.kind, out.data, out.labels, out.annotations := kind, data, labels, annotations;
    }

    method DeepCopyInto(out: SecretObject)
      requires out != this
      modifies out
      ensures out.SameAs(this) && fresh(out.Shared()) && out.Separate()
      ensures out.kind == kind
      ensures if data == null then out.data == null else out.data != null && fresh(out.data) && out.data[..] == data[..]
      ensures if labels == null then out.labels == null
              else out.labels != null && fresh(out.labels) && out.labels.entries == labels.entries
      ensures if annotations == null then out.annotations == null
              else out.annotations != null && fresh(out.annotations) && out.annotations.entries == annotations.entries
    {
      AssignTo(out);
      if data != null {
        var from: array<SecretData.Item> := data;
        out.data := new SecretData.Item[from.Length](i requires 0 <= i < from.Length reads from => from[i]);
      }
      if labels != null {
        out.labels := labels.Copy();
      }
      if annotations != null {
        out.annotations := annotations.Copy();
      }
    }
  }

  class SecretSyncSpec {
    var className: string
    var accountName: string
    const secret: SecretObject
    var force: string

    constructor ()
      ensures fresh(secret)
    {
      className, accountName, force := "", "", "";
      secret := new SecretObject();
    }

    predicate SameAs(other: SecretSyncSpec)
      reads this, secret, secret.data, secret.labels, secret.annotations
      reads other, other.secret, other.secret.data, other.secret.labels, other.secret.annotations
    {
      className == other.className && accountName == other.accountName && force == other.force && secret.SameAs(other.secret)
    }

    function View(): Clusters.Spec
      reads this, secret, secret.data, secret.labels, secret.annotations
    {
      Clusters.Spec(className, accountName, secret.View(), force)
    }

    method AssignTo(out: SecretSyncSpec)
      modifies out, out.secret
      ensures out.className == className && out.accountName == accountName && out.force == force
    {
      out.className, out.accountName, out.force := className, accountName, force;
      secret.AssignTo(out.secret);
    }

    method DeepCopyInto(out: SecretSyncSpec)
      requires out != this && out.secret != secret
      modifies out, out.secret
      ensures out.SameAs(this) && fresh(out.secret.Shared()) && out.secret.Separate()
      ensures out.className == className && out.accountName == accountName && out.force == force
    {
      AssignTo(out);
      secret.DeepCopyInto(out.secret);
    }
  }

  class SecretSyncStatus {
    var syncHash: string
    var lastSync: Time?
    var conditions: array?<Clusters.Condition>

    constructor ()
    {
      syncHash, lastSync, conditions := "", null, null;
    }

    ghost function Shared(): set<object?>
      reads this
    {
      {lastSync, conditions} - {null}
    }

    predicate SameAs(other: SecretSyncStatus)
      reads this, lastSync, conditions, other, other.lastSync, other.conditions
    {
      && syncHash == other.syncHash
      && (lastSync == null <==> other.lastSync == null)
      && (lastSync != null && other.lastSync != null ==> lastSync.seconds == other.lastSync.seconds)
      && (conditions == null <==> other.conditions == null)
      && (conditions != null && other.conditions != null ==> conditions[..] == other.conditions[..])
    }

    method AssignTo(out: SecretSyncStatus)
      modifies out
      ensures out.syncHash == syncHash && out.lastSync == lastSync && out.conditions == conditions
    {
      out.syncHash, out.lastSync, out.conditions := syncHash, lastSync, conditions;
    }

    method DeepCopyInto(out: SecretSyncStatus)
      requires out != this
      modifies out
      ensures out.SameAs(this) && fresh(out.Shared())
      ensures out.syncHash == syncHash
      ensures if lastSync == null then out.lastSync == null
              else out.lastSync != null && fresh(out.lastSync) && out.lastSync.seconds == lastSync.seconds
      ensures if conditions == null then out.conditions == null
              else out.conditions != null && fresh(out.conditions) && out.conditions[..] == conditions[..]
    {
      AssignTo(out);
      if lastSync != null {
        out.lastSync := new Time(lastSync.seconds);
      }
      if conditions != null {
        var from: array<Clusters.Condition> := conditions;
        out.conditions := new Clusters.Condition[from.Length](i requires 0 <= i < from.Length reads from => from[i]);
      }
    }
  }

  class SecretSync {
    var uid: Clusters.Uid
    var generation: int
    var version: nat
    const spec: SecretSyncSpec
    const status: SecretSyncStatus

    constructor ()
      ensures fresh(spec) && fresh(spec.secret) && fresh(status)
    {
      uid, generation, version := "", 0, 0;
      spec := new SecretSyncSpec();
      status := new SecretSyncStatus();
    }

    // The object, the structs embedded in it, and what it may share: all that writing through the
    // object can reach.
    ghost function Footprint(): set<object?>
      reads spec.secret, status
    {
      {this, spec, spec.secret, status} + Shared()
    }

    ghost function Shared(): set<object?>
      reads spec.secret, status
    {
      spec.secret.Shared() + status.Shared()
    }

    predicate SameAs(other: SecretSync)
      reads Footprint(), other.Footprint()
    {
      && uid == other.uid && generation == other.generation && version == other.version
      && spec.SameAs(other.spec) && status.SameAs(other.status)
    }

    method DeepCopyInto(out: SecretSync)
      requires out != this && out.spec != spec && out.spec.secret != spec.secret && out.status != status
      modifies out, out.spec, out.spec.secret, out.status
      ensures out.SameAs(this) && fresh(out.Shared()) && out.spec.secret.Separate()
    {
      out.uid, out.generation, out.version := uid, generation, version;
      spec.AssignTo(out.spec);
      status.AssignTo(out.status);
      spec.DeepCopyInto(out.spec);
      status.DeepCopyInto(out.status);
    }

    method DeepCopy() returns (out: SecretSync)
      ensures fresh(out.Footprint()) && out.SameAs(this) && out.spec.secret.Separate()
    {
      out := new SecretSync();
      DeepCopyInto(out);
    }
  }

  // Field by field, through the embedded structs.
  lemma SameMeansEqual(a: SecretSync, b: SecretSync)
    requires a.SameAs(b)
    ensures a.uid == b.uid && a.generation == b.generation && a.version == b.version
    ensures a.spec.className == b.spec.className && a.spec.accountName == b.spec.accountName && a.spec.force == b.spec.force
    ensures a.spec.secret.kind == b.spec.secret.kind
    ensures if b.spec.secret.data == null then a.spec.secret.data == null
            else a.spec.secret.data != null && a.spec.secret.data[..] == b.spec.secret.data[..]
    ensures if b.spec.secret.labels == null then a.spec.secret.labels == null
            else a.spec.secret.labels != null && a.spec.secret.labels.entries == b.spec.secret.labels.entries
    ensures if b.spec.secret.annotations == null then a.spec.secret.annotations == null
            else a.spec.secret.annotations != null && a.spec.secret.annotations.entries == b.spec.secret.annotations.entries
    ensures a.status.syncHash == b.status.syncHash
    ensures if b.status.lastSync == null then a.status.lastSync == null
            else a.status.lastSync != null && a.status.lastSync.seconds == b.status.lastSync.seconds
    ensures if b.status.conditions == null then a.status.conditions == null
            else a.status.conditions != null && a.status.conditions[..] == b.status.conditions[..]
  {
  }

  // All that can be written through the object.
  lemma FootprintMeans(a: SecretSync)
    ensures {a, a.spec, a.spec.secret, a.status} <= a.Footprint()
    ensures {a.spec.secret.data, a.spec.secret.labels, a.spec.secret.annotations} - {null} <= a.Footprint()
    ensures {a.status.lastSync, a.status.conditions} - {null} <= a.Footprint()
  {
  }

  class SecretSyncList {
    var items: Option<seq<SecretSync>>

    constructor ()
    {
      items := None;
    }

    method DeepCopyInto(out: SecretSyncList)
      requires out != this
      modifies out
      ensures items.Some? <==> out.items.Some?
      ensures items.Some? ==>
                && |out.items.value| == |items.value|
                && forall i :: 0 <= i < |items.value| ==>
                     fresh(out.items.value[i].Footprint()) && out.items.value[i].SameAs(items.value[i])
      ensures items.Some? ==>
                forall i, j :: 0 <= i < j < |items.value| ==>
                  out.items.value[i].Footprint() !! out.items.value[j].Footprint()
    {
      out.items := items;
      if items.Some? {
        var copies := CopyItems(items.value);
        out.items := Some(copies);
      }
    }
  }

  // No two of the sets meet.
  ghost predicate Apart(prints: seq<set<object?>>) {
    forall j, k :: 0 <= j < k < |prints| ==> prints[j] !! prints[k]
  }

  lemma StillApart(prints: seq<set<object?>>, next: set<object?>)
    requires Apart(prints) && forall j :: 0 <= j < |prints| ==> prints[j] !! next
    ensures Apart(prints + [next])
  {
  }

  method CopyItems(items: seq<SecretSync>) returns (copies: seq<SecretSync>)
    ensures |copies| == |items|
    ensures forall i :: 0 <= i < |copies| ==> fresh(copies[i].Footprint()) && copies[i].SameAs(items[i])
    ensures forall i, j :: 0 <= i < j < |copies| ==> copies[i].Footprint() !! copies[j].Footprint()
  {
    copies := [];
    ghost var prints: seq<set<object?>> := [];
    for i := 0 to |items|
      invariant |copies| == |prints| == i && Apart(prints)
      invariant forall j :: 0 <= j < i ==> fresh(prints[j])
      invariant forall j :: 0 <= j < i ==> copies[j].Footprint() == prints[j]
      invariant forall j :: 0 <= j < i ==> copies[j].SameAs(items[j])
    {
      var copy, owned := CopyNext(copies, items, prints);
      StillApart(prints, owned);
      copies, prints := copies + [copy], prints + [owned];
    }
  }

  // Copies one more item. What was copied before stays as it is.
  method CopyNext(copies: seq<SecretSync>, items: seq<SecretSync>, ghost prints: seq<set<object?>>)
    returns (copy: SecretSync, ghost owned: set<object?>)
    requires |copies| == |prints| < |items|
    requires forall j :: 0 <= j < |copies| ==> copies[j].Footprint() == prints[j]
    requires forall j :: 0 <= j < |copies| ==> copies[j].SameAs(items[j])
    ensures fresh(owned) && copy.Footprint() == owned && copy.SameAs(items[|copies|])
    ensures forall j :: 0 <= j < |copies| ==> copies[j].Footprint() == prints[j]
    ensures forall j :: 0 <= j < |copies| ==> copies[j].SameAs(items[j])
  {
    copy := items[|copies|].DeepCopy();
    owned := copy.Footprint();
  }

  // The patch for `ss`. The reserved label goes into the labels of a copy: nothing that existed
  // before the call is written, whatever `ss` shares with other objects.
  method ServerSidePatchSecret(ss: SecretSync, data: Json.DataMap) returns (patch: Clusters.Secret)
    ensures patch == Clusters.PatchFor(ss.uid, ss.spec.View(), data)
    ensures patch.kind == ss.spec.secret.kind && patch.data == data && patch.ownerUid == ss.uid
    ensures patch.annotations == if ss.spec.secret.annotations == null then None else Some(ss.spec.secret.annotations.entries)
    ensures patch.labels ==
            (if ss.spec.secret.labels == null then map[] else ss.spec.secret.labels.entries)["secrets-store.sync.x-k8s.io" := ""]
  {
    var ssCopy := ss.DeepCopy();
    var controllerLabels := ssCopy.spec.secret.labels;
    assert controllerLabels != null ==> controllerLabels in ssCopy.Shared();
    if controllerLabels == null {
      controllerLabels := new StringMap();
    }
    controllerLabels.entries := controllerLabels.entries[Clusters.CONTROLLER_KEY := ""];
    patch := Clusters.Secret(controllerLabels.entries, MapView(ssCopy.spec.secret.annotations), ssCopy.uid, data,
                             ssCopy.spec.secret.kind);
  }
}
