/** The builder that owns the provider clients and their connections, section by section of its
    lock, and the files of a provider's answer. */
module ProviderClients {
  import opened Text
  import opened ProviderRuns

  datatype GetError = InvalidProvider | ProviderNotFound | DialFailed

  datatype GetResult = Ok(client: ProviderRuns.Client) | Error(error: GetError)

  // What is outside the program: the sockets that exist, and the dial's outcome.
  datatype Outside = Outside(present: string -> bool, dialSucceeds: bool)

  function SocketPath(dir: string, provider: string): string {
    dir + "/" + provider + ".sock"
  }

  class PluginClientBuilder {
    var clients: map<string, ProviderRuns.Client>
    var conns: map<string, nat>
    var socketPaths: seq<string>
    ghost var dialed: nat // connections that were ever dialed

    // The maps describe the same installed connections.
    ghost predicate Valid()
      reads this
    {
      && clients.Keys == conns.Keys
      && forall p :: p in clients ==> clients[p] == ProviderRuns.Client(conns[p]) && ValidName(p) && conns[p] < dialed
    }

    constructor (paths: seq<string>)
      ensures Valid() && clients == map[] && conns == map[] && socketPaths == paths && dialed == 0
    {
      clients, conns, socketPaths, dialed := map[], map[], paths, 0;
    }

    // The first directory that holds a socket named after the provider.
    method FindSocket(provider: string, outside: Outside) returns (path: Option<string>)
      ensures path.None? <==> forall i :: 0 <= i < |socketPaths| ==> !outside.present(socketPaths[i] + "/" + provider + ".sock")
      ensures path.Some? ==>
                exists i :: && 0 <= i < |socketPaths| && path.value == socketPaths[i] + "/" + provider + ".sock"
                            && outside.present(path.value)
                            && forall j :: 0 <= j < i ==> !outside.present(socketPaths[j] + "/" + provider + ".sock")
    {
      for k := 0 to |socketPaths|
        invariant forall i :: 0 <= i < k ==> !outside.present(SocketPath(socketPaths[i], provider))
      {
        var tryPath := SocketPath(socketPaths[k], provider);
        if outside.present(tryPath) {
          return Some(tryPath);
        }
      }
      path := None;
    }

    // The section under the read lock.
    method Lookup(provider: string) returns (client: Option<ProviderRuns.Client>)
      ensures client == if provider in clients then Some(clients[provider]) else None
      ensures forall w: World, id: nat :: w.clients == clients ==>
                var w' := LookStep(w, id, provider);
                && w'.clients == w.clients && w'.conns == w.conns && w'.dialed == w.dialed
                && w'.calls[id] == match client case Some(known) => Got(provider, known) case None => Missed(provider)
    {
      client := if provider in clients then Some(clients[provider]) else None;
    }

    // The section under the write lock: another request may have installed a client meanwhile. It is
    // the installing step of the concurrent program, from every state with these maps.
    method Install(provider: string, conn: nat) returns (client: ProviderRuns.Client)
      requires Valid() && ValidName(provider) && conn < dialed
      modifies this`clients, this`conns
      ensures Valid() && provider in clients && client == clients[provider]
      ensures
        if provider in old(clients) then clients == old(clients) && conns == old(conns)
        else clients == old(clients)[provider := ProviderRuns.Client(conn)] && conns == old(conns)[provider := conn]
      ensures forall w: World, id: nat :: w.clients == old(clients) && w.conns == old(conns) ==>
                var w' := InstallStep(w, id, provider, conn);
                w'.clients == clients && w'.conns == conns && w'.calls[id] == Got(provider, client)
    {
      if provider in clients {
        client := clients[provider];
      } else {
        conns := conns[provider := conn];
        client := ProviderRuns.Client(conn);
        clients := clients[provider := client];
      }
    }

    // A request that nothing interleaves with: a known provider keeps its client, and a new one is
    // dialed once if its name is valid and it has a socket.
    method Get(provider: string, outside: Outside, conn: nat) returns (r: GetResult)
      requires Valid() && conn == dialed
      modifies this`clients, this`conns, this`dialed
      ensures Valid()
      ensures provider in old(clients) ==>
                r == Ok(old(clients)[provider]) && clients == old(clients) && conns == old(conns)
      ensures provider !in old(clients) && r.Ok? ==>
                r.client == ProviderRuns.Client(old(dialed)) && clients == old(clients)[provider := r.client]
      ensures r.Error? ==> clients == old(clients) && conns == old(conns)
      ensures provider !in old(clients) ==>
                && (r == Error(InvalidProvider) <==>
                      |provider| > 30
                      || exists i :: 0 <= i < |provider| && var c := provider[i];
                           !('a' <= c <= 'z') && !('A' <= c <= 'Z') && !('0' <= c <= '9') && c != '_' && c != '-')
                && (r == Error(ProviderNotFound) <==>
                      r != Error(InvalidProvider)
                      && forall i :: 0 <= i < |socketPaths| ==> !outside.present(socketPaths[i] + "/" + provider + ".sock"))
                && (r == Error(DialFailed) ==> !outside.dialSucceeds) && (r.Ok? ==> outside.dialSucceeds)
      ensures dialed == if provider !in old(clients) && r.Ok? then old(dialed) + 1 else old(dialed)
    {
      var out := Lookup(provider);
      if out.Some? {
        return Ok(out.value);
      }
      if !ValidName(provider) {
        return Error(InvalidProvider);
      }
      var socketPath := FindSocket(provider, outside);
      if socketPath.None? {
        return Error(ProviderNotFound);
      }
      ghost var i :| 0 <= i < |socketPaths| && socketPath.value == socketPaths[i] + "/" + provider + ".sock"
                     && outside.present(socketPath.value);
      assert outside.present(socketPaths[i] + "/" + provider + ".sock");
      if !outside.dialSucceeds {
        return Error(DialFailed);
      }
      dialed := dialed + 1;
      var client := Install(provider, conn);
      r := Ok(client);
      assert outside.present(socketPaths[i] + "/" + provider + ".sock");
    }

    // Closes exactly the installed connections and forgets all clients.
    method Cleanup() returns (closed: set<nat>)
      requires Valid()
      modifies this`clients, this`conns
      ensures Valid() && closed == old(conns).Values
      ensures forall w: World :: w.clients == old(clients) && w.conns == old(conns) ==>
                var w' := CleanStep(w);
                w'.clients == clients && w'.conns == conns && w'.closed == w.closed + closed
    {
      closed := {};
      var keys := conns.Keys;
      while keys != {}
        invariant keys <= conns.Keys
        invariant closed == set k | k in conns && k !in keys :: conns[k]
        decreases keys
      {
        var k :| k in keys;
        closed := closed + {conns[k]};
        keys := keys - {k};
      }
      assert closed == conns.Values;
      clients, conns := map[], map[];
    }
  }

  /******* The files of a provider's answer *******/

  datatype MountResponse = MountResponse(
    errorCode: string,
    objectVersions: seq<(string, string)>,
    files: seq<(string, Option<bytes>)>
  )

  datatype MountError = RpcFailed | ProviderCode(code: string) | MissingObjectVersions

  datatype Mounted = Mounted(objectVersions: map<string, string>, files: map<string, Option<bytes>>) | MountFailed(error: MountError)

  // The value of the last entry with `key`.
  function LastValue<V>(entries: seq<(string, V)>, key: string): Option<V> {
    if |entries| == 0 then None
    else if entries[|entries| - 1].0 == key then Some(entries[|entries| - 1].1)
    else LastValue(entries[..|entries| - 1], key)
  }

  // Entry `i` is the last one for `key`.
  predicate IsLastFor<V>(entries: seq<(string, V)>, key: string, i: int) {
    0 <= i < |entries| && entries[i].0 == key && forall j :: i < j < |entries| ==> entries[j].0 != key
  }

  lemma {:induction false} LastValueAt<V>(entries: seq<(string, V)>, key: string, i: int)
    requires IsLastFor(entries, key, i)
    ensures LastValue(entries, key) == Some(entries[i].1)
  {
    var n := |entries| - 1;
    if i < n {
      LastValueAt(entries[..n], key, i);
    }
  }

  lemma {:induction false} NoValue<V>(entries: seq<(string, V)>, key: string)
    requires forall i :: 0 <= i < |entries| ==> entries[i].0 != key
    ensures LastValue(entries, key) == None
  {
    if |entries| > 0 {
      NoValue(entries[..|entries| - 1], key);
    }
  }

  // It is the value of the entry after which the key does not occur.
  lemma LastValueMeaning<V>(entries: seq<(string, V)>, key: string)
    ensures forall i :: IsLastFor(entries, key, i) ==> LastValue(entries, key) == Some(entries[i].1)
    ensures (forall i :: 0 <= i < |entries| ==> entries[i].0 != key) ==> LastValue(entries, key) == None
  {
    forall i | IsLastFor(entries, key, i) ensures LastValue(entries, key) == Some(entries[i].1) {
      LastValueAt(entries, key, i);
    }
    if forall i :: 0 <= i < |entries| ==> entries[i].0 != key {
      NoValue(entries, key);
    }
  }

  ghost predicate LastWins<V>(entries: seq<(string, V)>, m: map<string, V>) {
    forall key :: LastValue(entries, key) == if key in m then Some(m[key]) else None
  }

  lemma LastWinsStep<V>(entries: seq<(string, V)>, m: map<string, V>, i: nat)
    requires i < |entries| && LastWins(entries[..i], m)
    ensures LastWins(entries[..i + 1], m[entries[i].0 := entries[i].1])
  {
    assert entries[..i + 1][..i] == entries[..i];
  }

  // None stands for an answer that is an error of the call itself. A response without object
  // versions is refused even if it has files.
  method MountContent(response: Option<MountResponse>) returns (r: Mounted)
    ensures
      match response
      case None => r == MountFailed(RpcFailed)
      case Some(resp) =>
        if resp.errorCode != "" then r == MountFailed(ProviderCode(resp.errorCode))
        else if resp.objectVersions == [] then r == MountFailed(MissingObjectVersions)
        else r.Mounted? && LastWins(resp.objectVersions, r.objectVersions) && LastWins(resp.files, r.files)
  {
    if response.None? {
      return MountFailed(RpcFailed);
    }
    var resp := response.value;
    if |resp.errorCode| > 0 {
      return MountFailed(ProviderCode(resp.errorCode));
    }
    if |resp.objectVersions| == 0 {
      return MountFailed(MissingObjectVersions);
    }
    var objectVersions: map<string, string> := map[];
    for i := 0 to |resp.objectVersions|
      invariant LastWins(resp.objectVersions[..i], objectVersions)
    {
      LastWinsStep(resp.objectVersions, objectVersions, i);
      objectVersions := objectVersions[resp.objectVersions[i].0 := resp.objectVersions[i].1];
    }
    var files: map<string, Option<bytes>> := map[];
    for i := 0 to |resp.files|
      invariant LastWins(resp.files[..i], files)
    {
      LastWinsStep(resp.files, files, i);
      files := files[resp.files[i].0 := resp.files[i].1];
    }
    assert resp.objectVersions[..|resp.objectVersions|] == resp.objectVersions;
    assert resp.files[..|resp.files|] == resp.files;
    r := Mounted(objectVersions, files);
  }
}
