/** Concurrent requests for provider clients, in the sections that the builder's lock protects,
    racing with each other and with the clean-up of all connections. */
module ProviderRuns {
  import opened Text

  // Connections are numbered in the order in which they are dialed.
  datatype Client = Client(conn: nat)

  predicate IsNameChar(c: char) {
    'a' <= c <= 'z' || 'A' <= c <= 'Z' || '0' <= c <= '9' || c == '_' || c == '-'
  }

  predicate ValidName(provider: string) {
    |provider| <= 30 && forall i :: 0 <= i < |provider| ==> IsNameChar(provider[i])
  }

  /******* The abstract object: a get-or-create map *******/

  datatype Event = Returned(id: nat, provider: string, client: Client) | Cleaned

  predicate Uses(log: seq<Event>, client: Client) {
    exists i :: 0 <= i < |log| && log[i].Returned? && log[i].client == client
  }

  // One more event on a map: a known provider yields its client, an unknown one yields a client that
  // was never returned before.
  function ReplayEvent(before: seq<Event>, m: map<string, Client>, e: Event): Option<map<string, Client>> {
    if e.Cleaned? then Some(map[])
    else if e.provider in m then
      if m[e.provider] == e.client then Some(m) else None
    else if Uses(before, e.client) then None
    else Some(m[e.provider := e.client])
  }

  // The map after a sequential history, or None if the history is not one of get-or-create.
  function Replay(log: seq<Event>): Option<map<string, Client>> {
    if |log| == 0 then Some(map[])
    else
      var m :- Replay(log[..|log| - 1]);
      ReplayEvent(log[..|log| - 1], m, log[|log| - 1])
  }

  lemma ReplayAppend(log: seq<Event>, e: Event)
    requires Replay(log).Some?
    ensures Replay(log + [e]) == ReplayEvent(log, Replay(log).value, e)
  {
    assert (log + [e])[..|log|] == log;
  }

  lemma {:induction false} PrefixIsLegal(log: seq<Event>, k: nat)
    requires Replay(log).Some? && k <= |log|
    ensures Replay(log[..k]).Some?
  {
    if k < |log| {
      var n := |log| - 1;
      PrefixIsLegal(log[..n], k);
      assert log[..n][..k] == log[..k];
    } else {
      assert log[..k] == log;
    }
  }

  lemma {:induction false} ClientIsKept(log: seq<Event>, i: nat, k: nat)
    requires Replay(log).Some? && i < k <= |log| && log[i].Returned?
    requires forall l :: i < l < k ==> log[l].Returned?
    ensures Replay(log[..k]).Some?
    ensures log[i].provider in Replay(log[..k]).value && Replay(log[..k]).value[log[i].provider] == log[i].client
    decreases k
  {
    PrefixIsLegal(log, k);
    PrefixIsLegal(log, k - 1);
    assert log[..k][..k - 1] == log[..k - 1];
    if i < k - 1 {
      ClientIsKept(log, i, k - 1);
    }
  }

  // Between two clean-ups every request for one provider returns the same client.
  lemma OneClientBetweenCleanups(log: seq<Event>, i: nat, j: nat)
    requires Replay(log).Some? && i < j < |log|
    requires forall l :: i <= l <= j ==> log[l].Returned?
    requires log[i].provider == log[j].provider
    ensures log[i].client == log[j].client
  {
    ClientIsKept(log, i, j + 1);
    ClientIsKept(log, j, j + 1);
  }

  // The clients in the map were all first returned after the last clean-up.
  lemma {:induction false} NoClientSurvivesCleanup(log: seq<Event>, i: nat, k: nat, provider: string)
    requires Replay(log).Some? && i < k < |log|
    requires log[i].Returned? && log[k].Cleaned?
    ensures provider in Replay(log).value ==> Replay(log).value[provider] != log[i].client
  {
    var n := |log| - 1;
    PrefixIsLegal(log, n);
    if k < n {
      NoClientSurvivesCleanup(log[..n], i, k, provider);
      assert log[..n][i] == log[i];
      assert Uses(log[..n], log[i].client);
    }
  }

  /******* The concurrent program *******/

  datatype Call =
    | Missed(provider: string)            // not in the map when the read lock was held
    | Dialed(provider: string, conn: nat) // waiting for the write lock with a connection of its own
    | Got(provider: string, client: Client)
    | Rejected                            // invalid name, no socket, or the dial failed

  datatype World = World(
    clients: map<string, Client>,
    conns: map<string, nat>,
    calls: map<nat, Call>,
    dialed: nat,
    inFlight: set<nat>,
    closed: set<nat>,
    abandoned: set<nat>,
    log: seq<Event>
  )

  datatype Step =
    | Look(id: nat, provider: string)
    | Dial(id: nat, succeeds: bool)
    | Install(id: nat)
    | Clean

  const EMPTY := World(map[], map[], map[], 0, {}, {}, {}, [])

  function LookStep(w: World, id: nat, provider: string): World {
    if provider in w.clients
    then w.(calls := w.calls[id := Got(provider, w.clients[provider])],
            log := w.log + [Returned(id, provider, w.clients[provider])])
    else w.(calls := w.calls[id := Missed(provider)])
  }

  function DialStep(w: World, id: nat, provider: string, succeeds: bool): World {
    if ValidName(provider) && succeeds
    then w.(calls := w.calls[id := Dialed(provider, w.dialed)], dialed := w.dialed + 1, inFlight := w.inFlight + {w.dialed})
    else w.(calls := w.calls[id := Rejected])
  }

  // A request that lost the race takes the winner's client; nobody closes its own connection.
  function InstallStep(w: World, id: nat, provider: string, conn: nat): World {
    if provider in w.clients
    then w.(calls := w.calls[id := Got(provider, w.clients[provider])],
            inFlight := w.inFlight - {conn}, abandoned := w.abandoned + {conn},
            log := w.log + [Returned(id, provider, w.clients[provider])])
    else w.(calls := w.calls[id := Got(provider, Client(conn))],
            inFlight := w.inFlight - {conn},
            clients := w.clients[provider := Client(conn)], conns := w.conns[provider := conn],
            log := w.log + [Returned(id, provider, Client(conn))])
  }

  function CleanStep(w: World): World {
    w.(clients := map[], conns := map[], closed := w.closed + w.conns.Values, log := w.log + [Cleaned])
  }

  function Apply(w: World, s: Step): World {
    match s
    case Look(id, provider) => if id in w.calls then w else LookStep(w, id, provider)
    case Dial(id, succeeds) =>
      if id in w.calls && w.calls[id].Missed? then DialStep(w, id, w.calls[id].provider, succeeds) else w
    case Install(id) =>
      if id in w.calls && w.calls[id].Dialed? then InstallStep(w, id, w.calls[id].provider, w.calls[id].conn) else w
    case Clean => CleanStep(w)
  }

  function Exec(steps: seq<Step>): World {
    if |steps| == 0 then EMPTY else Apply(Exec(steps[..|steps| - 1]), steps[|steps| - 1])
  }

  /******* The invariant *******/

  // The two maps describe the same installed connections, and the log is a sequential history of
  // get-or-create that ends in this map.
  ghost predicate MapsOk(w: World) {
    && w.clients.Keys == w.conns.Keys
    && (forall p :: p in w.clients ==> w.clients[p] == Client(w.conns[p]) && ValidName(p))
    && Replay(w.log) == Some(w.clients)
  }

  // Every dialed connection is installed, closed, abandoned or still in flight, and only one of these.
  ghost predicate Conserved(w: World) {
    && (forall c :: c in w.conns.Values || c in w.closed || c in w.abandoned || c in w.inFlight <==> 0 <= c < w.dialed)
    && w.conns.Values !! w.closed !! w.abandoned !! w.inFlight
    && (forall p, q :: p in w.conns && q in w.conns && w.conns[p] == w.conns[q] ==> p == q)
  }

  // A connection in flight belongs to one call and was never returned to anybody.
  ghost predicate CallsOk(w: World) {
    && (forall id :: id in w.calls && w.calls[id].Dialed? ==>
          w.calls[id].conn in w.inFlight && ValidName(w.calls[id].provider))
    && (forall id, id' :: id in w.calls && id' in w.calls && id != id' && w.calls[id].Dialed? && w.calls[id'].Dialed? ==>
          w.calls[id].conn != w.calls[id'].conn)
    && (forall i :: 0 <= i < |w.log| && w.log[i].Returned? ==>
          w.log[i].client.conn < w.dialed && w.log[i].client.conn !in w.inFlight)
  }

  // A call has returned a client exactly if it has its one entry in the log.
  ghost predicate ResultsOk(w: World) {
    && (forall id, p, c :: id in w.calls && w.calls[id] == Got(p, c) <==> Returned(id, p, c) in w.log)
    && (forall i, j :: 0 <= i < j < |w.log| && w.log[i].Returned? && w.log[j].Returned? ==> w.log[i].id != w.log[j].id)
  }

  ghost predicate Inv(w: World) {
    MapsOk(w) && Conserved(w) && CallsOk(w) && ResultsOk(w)
  }

  /******* Each step keeps it *******/

  lemma ResultAdded(w: World, id: nat, p: string, c: Client, w': World)
    requires ResultsOk(w)
    requires id !in w.calls || !w.calls[id].Got?
    requires w'.calls == w.calls[id := Got(p, c)] && w'.log == w.log + [Returned(id, p, c)]
    ensures ResultsOk(w')
  {
    forall i | 0 <= i < |w.log| && w.log[i].Returned? ensures w.log[i].id != id {
      assert Returned(w.log[i].id, w.log[i].provider, w.log[i].client) in w.log;
    }
  }

  lemma LookKeepsInv(w: World, id: nat, provider: string)
    requires Inv(w) && id !in w.calls
    ensures Inv(LookStep(w, id, provider))
  {
    var w' := LookStep(w, id, provider);
    if provider in w.clients {
      ReplayAppend(w.log, Returned(id, provider, w.clients[provider]));
      ResultAdded(w, id, provider, w.clients[provider], w');
      InstalledIsNotInFlight(w, provider);
    }
  }

  lemma InstalledIsNotInFlight(w: World, provider: string)
    requires MapsOk(w) && Conserved(w) && provider in w.clients
    ensures w.clients[provider].conn !in w.inFlight && w.clients[provider].conn < w.dialed
  {
    assert w.conns[provider] in w.conns.Values;
  }

  lemma DialKeepsInv(w: World, id: nat, provider: string, succeeds: bool)
    requires Inv(w) && id in w.calls && w.calls[id].Missed?
    ensures Inv(DialStep(w, id, provider, succeeds))
  {
  }

  lemma LoseKeepsInv(w: World, id: nat, provider: string, conn: nat)
    requires Inv(w) && id in w.calls && w.calls[id] == Dialed(provider, conn) && provider in w.clients
    ensures Inv(InstallStep(w, id, provider, conn))
  {
    var w' := InstallStep(w, id, provider, conn);
    ReplayAppend(w.log, Returned(id, provider, w.clients[provider]));
    ResultAdded(w, id, provider, w.clients[provider], w');
    InstalledIsNotInFlight(w, provider);
  }

  lemma WinKeepsInv(w: World, id: nat, provider: string, conn: nat)
    requires Inv(w) && id in w.calls && w.calls[id] == Dialed(provider, conn) && provider !in w.clients
    ensures Inv(InstallStep(w, id, provider, conn))
  {
    var w' := InstallStep(w, id, provider, conn);
    assert !Uses(w.log, Client(conn));
    ReplayAppend(w.log, Returned(id, provider, Client(conn)));
    ResultAdded(w, id, provider, Client(conn), w');
    WinConserves(w, id, provider, conn);
  }

  lemma WinConserves(w: World, id: nat, provider: string, conn: nat)
    requires Conserved(w) && conn in w.inFlight && provider !in w.clients && provider !in w.conns
    ensures Conserved(InstallStep(w, id, provider, conn))
  {
    ValuesOfInsert(w.conns, provider, conn);
    assert forall p :: p in w.conns ==> w.conns[p] in w.conns.Values;
  }

  lemma ValuesOfInsert(m: map<string, nat>, key: string, v: nat)
    requires key !in m
    ensures m[key := v].Values == m.Values + {v}
  {
    var m' := m[key := v];
    forall x | x in m.Values + {v} ensures x in m'.Values {
      if x == v {
        assert m'[key] == v;
      } else {
        var k :| k in m && m[k] == x;
        assert m'[k] == x;
      }
    }
  }

  lemma CleanKeepsInv(w: World)
    requires Inv(w)
    ensures Inv(CleanStep(w))
  {
    ReplayAppend(w.log, Cleaned);
  }

  lemma {:induction false} ReachableInv(steps: seq<Step>)
    ensures Inv(Exec(steps))
  {
    if |steps| > 0 {
      var n := |steps| - 1;
      ReachableInv(steps[..n]);
      ApplyKeepsInv(Exec(steps[..n]), steps[n]);
    }
  }

  lemma ApplyKeepsInv(w: World, s: Step)
    requires Inv(w)
    ensures Inv(Apply(w, s))
  {
    match s
    case Look(id, provider) =>
      if id !in w.calls {
        LookKeepsInv(w, id, provider);
      }
    case Dial(id, succeeds) =>
      if id in w.calls && w.calls[id].Missed? {
        DialKeepsInv(w, id, w.calls[id].provider, succeeds);
      }
    case Install(id) =>
      if id in w.calls && w.calls[id].Dialed? {
        if w.calls[id].provider in w.clients {
          LoseKeepsInv(w, id, w.calls[id].provider, w.calls[id].conn);
        } else {
          WinKeepsInv(w, id, w.calls[id].provider, w.calls[id].conn);
        }
      }
    case Clean => CleanKeepsInv(w);
  }

  /******* Linearizability *******/

  // Under any interleaving the requests that returned a client, in the order of their entries in
  // the log, are a sequential history of a get-or-create map, and two of them with no clean-up
  // between return the same client for the same provider.
  lemma GetIsLinearizable(steps: seq<Step>, i: nat, j: nat)
    requires i < j < |Exec(steps).log|
    ensures
      var w := Exec(steps);
      && Replay(w.log) == Some(w.clients)
      && ((forall l :: i <= l <= j ==> w.log[l].Returned?) && w.log[i].provider == w.log[j].provider ==>
            w.log[i].client == w.log[j].client)
      && (w.log[i].Returned? && w.log[j].Cleaned? ==> w.log[i].client !in w.clients.Values)
  {
    ReachableInv(steps);
    var w := Exec(steps);
    if (forall l :: i <= l <= j ==> w.log[l].Returned?) && w.log[i].provider == w.log[j].provider {
      OneClientBetweenCleanups(w.log, i, j);
    }
    if w.log[i].Returned? && w.log[j].Cleaned? {
      forall p | p in w.clients ensures w.clients[p] != w.log[i].client {
        NoClientSurvivesCleanup(w.log, i, j, p);
      }
    }
  }

  lemma ApplyGrows(w: World, s: Step)
    ensures w.log <= Apply(w, s).log
  {
  }

  lemma PrefixTransitive(a: seq<Event>, b: seq<Event>, c: seq<Event>)
    requires a <= b <= c
    ensures a <= c
  {
  }

  lemma {:induction false} LogGrows(steps: seq<Step>, k: nat)
    requires k <= |steps|
    ensures Exec(steps[..k]).log <= Exec(steps).log
  {
    if k < |steps| {
      var n := |steps| - 1;
      assert steps[..n][..k] == steps[..k];
      LogGrows(steps[..n], k);
      ApplyGrows(Exec(steps[..n]), steps[n]);
      PrefixTransitive(Exec(steps[..k]).log, Exec(steps[..n]).log, Exec(steps).log);
    } else {
      assert steps[..k] == steps;
    }
  }

  // The history respects real time: a request that returned before another one began precedes it.
  lemma HistoryRespectsTime(steps: seq<Step>, k: nat, i: nat, j: nat)
    requires k <= |steps| && i < |Exec(steps).log| && j < |Exec(steps).log|
    requires
      var log := Exec(steps).log;
      && log[i].Returned? && log[j].Returned?
      && log[i].id in Exec(steps[..k]).calls && Exec(steps[..k]).calls[log[i].id].Got?
      && log[j].id !in Exec(steps[..k]).calls
    ensures i < j
  {
    ReturnedBefore(steps, k, i);
    ReachableInv(steps[..k]);
    LogGrows(steps, k);
    var w := Exec(steps[..k]);
    forall l | 0 <= l < |w.log| && w.log[l].Returned? ensures w.log[l].id in w.calls {
      assert Returned(w.log[l].id, w.log[l].provider, w.log[l].client) in w.log;
    }
  }

  // A clean-up closes exactly the installed connections. A connection is never closed otherwise:
  // those dialed by requests that lost their race stay open for good.
  lemma CleanupClosesInstalled(steps: seq<Step>, s: Step)
    ensures
      var w, w' := Exec(steps), Apply(Exec(steps), s);
      && w.abandoned <= w'.abandoned && w'.abandoned !! w'.closed
      && (s.Clean? ==> w'.closed - w.closed == w.conns.Values && w'.clients == map[] && w'.conns == map[])
      && (!s.Clean? ==> w'.closed == w.closed)
  {
    ReachableInv(steps);
    ApplyKeepsInv(Exec(steps), s);
  }

  // A clean-up has its place in that history: after every request that had returned, and before every
  // request that had not begun.
  lemma CleanupsRespectTime(steps: seq<Step>, k: nat, i: nat)
    requires k < |steps| && steps[k].Clean? && i < |Exec(steps).log|
    ensures
      var e := |Exec(steps[..k]).log|;
      var log := Exec(steps).log;
      && e < |log| && log[e].Cleaned?
      && (log[i].Returned? && log[i].id in Exec(steps[..k]).calls && Exec(steps[..k]).calls[log[i].id].Got? ==> i < e)
      && (log[i].Returned? && log[i].id !in Exec(steps[..k]).calls ==> e < i)
  {
    var w, log := Exec(steps[..k]), Exec(steps).log;
    var e := |w.log|;
    LogGrows(steps, k);
    LogGrows(steps, k + 1);
    assert steps[..k + 1][..k] == steps[..k];
    assert Exec(steps[..k + 1]).log == w.log + [Cleaned];
    ReachableInv(steps[..k]);
    if log[i].Returned? && i < e {
      assert log[i] == w.log[i];
      assert Returned(log[i].id, log[i].provider, log[i].client) in w.log;
    }
    if log[i].Returned? && log[i].id in w.calls && w.calls[log[i].id].Got? {
      ReturnedBefore(steps, k, i);
    }
  }

  // The entry of a request that had returned is in the log of that moment.
  lemma ReturnedBefore(steps: seq<Step>, k: nat, i: nat)
    requires k <= |steps| && i < |Exec(steps).log| && Exec(steps).log[i].Returned?
    requires
      var id := Exec(steps).log[i].id;
      id in Exec(steps[..k]).calls && Exec(steps[..k]).calls[id].Got?
    ensures i < |Exec(steps[..k]).log|
  {
    ReachableInv(steps[..k]);
    ReachableInv(steps);
    LogGrows(steps, k);
    var w, w' := Exec(steps[..k]), Exec(steps);
    var id := w'.log[i].id;
    var early := Returned(id, w.calls[id].provider, w.calls[id].client);
    assert early in w.log;
    var e :| 0 <= e < |w.log| && w.log[e] == early;
    assert w'.log[e] == early;
    assert e == i;
  }

  /******* Connections that are never closed *******/

  // A connection is abandoned exactly when a request finds, under the write lock, that another one
  // installed a client for its provider meanwhile; it is then the connection of that request.
  lemma AbandonedExactly(steps: seq<Step>, s: Step)
    ensures
      var w, w' := Exec(steps), Apply(Exec(steps), s);
      && (w'.abandoned != w.abandoned <==>
            s.Install? && s.id in w.calls && w.calls[s.id].Dialed? && w.calls[s.id].provider in w.clients)
      && (w'.abandoned != w.abandoned ==> w'.abandoned == w.abandoned + {w.calls[s.id].conn})
  {
    ReachableInv(steps);
  }

  // So a clean-up leaves open, of the connections that no request still holds, exactly those.
  lemma OpenAfterCleanup(steps: seq<Step>, conn: nat)
    ensures
      var w := Apply(Exec(steps), Clean);
      conn < w.dialed && conn !in w.inFlight ==> (conn in w.closed <==> conn !in w.abandoned)
  {
    ReachableInv(steps);
    ApplyKeepsInv(Exec(steps), Clean);
  }

  lemma ExecMore(steps: seq<Step>, s: Step, w: World)
    requires Exec(steps) == w
    ensures Exec(steps + [s]) == Apply(w, s)
  {
    assert (steps + [s])[..|steps|] == steps;
  }

  const BOTH_DIALED: seq<Step> := [Look(0, "p")] + [Look(1, "p")] + [Dial(0, true)] + [Dial(1, true)]

  lemma BothDial()
    ensures
      Exec(BOTH_DIALED) ==
      World(map[], map[], map[0 := Dialed("p", 0), 1 := Dialed("p", 1)], 2, {0, 1}, {}, {}, [])
  {
    assert ValidName("p");
    ExecMore([], Look(0, "p"), EMPTY);
    assert [] + [Look(0, "p")] == [Look(0, "p")];
    var w1 := Apply(EMPTY, Look(0, "p"));
    ExecMore([Look(0, "p")], Look(1, "p"), w1);
    var w2 := Apply(w1, Look(1, "p"));
    ExecMore([Look(0, "p")] + [Look(1, "p")], Dial(0, true), w2);
    var w3 := Apply(w2, Dial(0, true));
    assert w3 == World(map[], map[], map[0 := Dialed("p", 0), 1 := Missed("p")], 1, {0}, {}, {}, []);
    ExecMore([Look(0, "p")] + [Look(1, "p")] + [Dial(0, true)], Dial(1, true), w3);
  }

  // Two requests miss, both dial, and the second to take the write lock abandons its connection,
  // which no clean-up then closes.
  lemma RaceAbandons()
    ensures
      var race := BOTH_DIALED + [Install(0)] + [Install(1)];
      Exec(race).abandoned == {1} && Exec(race + [Clean]).closed == {0} && Exec(race + [Clean]).dialed == 2
  {
    var race := BOTH_DIALED + [Install(0)] + [Install(1)];
    BothDial();
    var w := Exec(BOTH_DIALED);
    ExecMore(BOTH_DIALED, Install(0), w);
    var w1 := Apply(w, Install(0));
    ExecMore(BOTH_DIALED + [Install(0)], Install(1), w1);
    var w2 := Apply(w1, Install(1));
    ExecMore(race, Clean, w2);
    assert w1.clients == map["p" := Client(0)];
    assert w2.conns == map["p" := 0] && w2.conns.Values == {0};
  }
}
