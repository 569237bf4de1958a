/** Concurrent calls for tokens over one cache, in the steps that its lock and its clock readings
    separate, with a garbage collector that may look at any entry at any time. */
module TokenRuns {
  import opened Text
  import opened Tokens

  datatype Answer = Granted(tr: TokenRequest) | Refused

  datatype Origin = FromCache | FromServer | FromFallback | FromNowhere

  // Where one call is. `ctr` is what the cache held when the call looked.
  datatype Call =
    | Looked(key: string, ctr: Option<TokenRequest>)
    | Fetching(key: string, ctr: Option<TokenRequest>)
    | Failing(key: string, ctr: Option<TokenRequest>)
    | Storing(key: string, tr: TokenRequest)
    | Answered(key: string, answer: Answer, origin: Origin, at: int) // `at` is the clock reading that decided

  datatype World = World(now: int, cache: map<string, TokenRequest>, calls: map<nat, Call>)

  datatype Step =
    | Tick(elapsed: nat)
    | Look(id: nat, key: string)
    | Decide(id: nat, jitter: nat)
    | Fetch(id: nat, outcome: Option<TokenRequest>)
    | FallBack(id: nat)
    | Store(id: nat)
    | Sweep(key: string) // the collector looks at one entry; it holds the lock over many of these

  function Lookup(cache: map<string, TokenRequest>, key: string): Option<TokenRequest> {
    if key in cache then Some(cache[key]) else None
  }

  function AfterDecision(call: Call, now: int, jitter: nat): Call
    requires call.Looked? && jitter < MAX_JITTER
  {
    if call.ctr.Some? && !RequiresRefresh(call.ctr.value, now, jitter)
    then Answered(call.key, Granted(call.ctr.value), FromCache, now)
    else Fetching(call.key, call.ctr)
  }

  function AfterFetch(call: Call, outcome: Option<TokenRequest>): Call
    requires call.Fetching?
  {
    match outcome
    case None => Failing(call.key, call.ctr)
    case Some(tr) => Storing(call.key, tr)
  }

  function AfterFallBack(call: Call, now: int): Call
    requires call.Failing?
  {
    if call.ctr.None? || Expired(call.ctr.value, now) then Answered(call.key, Refused, FromNowhere, now)
    else Answered(call.key, Granted(call.ctr.value), FromFallback, now)
  }

  // A step that is not enabled changes nothing. Without `sweeping` there is no collector.
  function Apply(w: World, s: Step, sweeping: bool): World {
    match s
    case Tick(elapsed) => w.(now := w.now + elapsed)
    case Look(id, key) =>
      if id in w.calls then w else w.(calls := w.calls[id := Looked(key, Lookup(w.cache, key))])
    case Decide(id, jitter) =>
      if id in w.calls && w.calls[id].Looked? && jitter < MAX_JITTER
      then w.(calls := w.calls[id := AfterDecision(w.calls[id], w.now, jitter)]) else w
    case Fetch(id, outcome) =>
      if id in w.calls && w.calls[id].Fetching?
      then w.(calls := w.calls[id := AfterFetch(w.calls[id], outcome)]) else w
    case FallBack(id) =>
      if id in w.calls && w.calls[id].Failing?
      then w.(calls := w.calls[id := AfterFallBack(w.calls[id], w.now)]) else w
    case Store(id) =>
      if id in w.calls && w.calls[id].Storing?
      then w.(cache := w.cache[w.calls[id].key := w.calls[id].tr],
              calls := w.calls[id := Answered(w.calls[id].key, Granted(w.calls[id].tr), FromServer, w.now)]) else w
    case Sweep(key) =>
      if sweeping && key in w.cache && Expired(w.cache[key], w.now) then w.(cache := w.cache - {key}) else w
  }

  function Exec(w: World, steps: seq<Step>, sweeping: bool): World {
    if |steps| == 0 then w
    else Apply(Exec(w, steps[..|steps| - 1], sweeping), steps[|steps| - 1], sweeping)
  }

  function Empty(now: int): World {
    World(now, map[], map[])
  }

  // The API server states a lifetime on every token it issues.
  predicate StatesLifetime(s: Step) {
    s.Fetch? && s.outcome.Some? ==> HasLifetime(s.outcome.value)
  }

  /******* No expired token *******/

  predicate EntryOk(e: Option<TokenRequest>) {
    e.Some? ==> HasLifetime(e.value)
  }

  predicate CallOk(call: Call, now: int) {
    match call
    case Looked(_, ctr) => EntryOk(ctr)
    case Fetching(_, ctr) => EntryOk(ctr)
    case Failing(_, ctr) => EntryOk(ctr)
    case Storing(_, tr) => HasLifetime(tr)
    case Answered(_, answer, origin, at) =>
      && at <= now
      && (answer.Granted? && origin != FromServer ==> !Expired(answer.tr, at))
      && (answer.Granted? <==> origin != FromNowhere)
  }

  predicate Inv(w: World) {
    && (forall key :: key in w.cache ==> HasLifetime(w.cache[key]))
    && (forall id :: id in w.calls ==> CallOk(w.calls[id], w.now))
  }

  lemma ExpiredIsDue(tr: TokenRequest, now: int, jitter: nat)
    requires HasLifetime(tr) && Expired(tr, now) && jitter < MAX_JITTER
    ensures RequiresRefresh(tr, now, jitter)
  {
    ServedUnexpiredExactly(tr);
  }

  lemma ApplyKeepsInv(w: World, s: Step, sweeping: bool)
    requires Inv(w) && StatesLifetime(s)
    ensures Inv(Apply(w, s, sweeping))
  {
    if s.Decide? && s.id in w.calls && w.calls[s.id].Looked? && s.jitter < MAX_JITTER {
      assert CallOk(w.calls[s.id], w.now);
      var ctr := w.calls[s.id].ctr;
      if ctr.Some? && Expired(ctr.value, w.now) {
        ExpiredIsDue(ctr.value, w.now, s.jitter);
      }
      assert CallOk(AfterDecision(w.calls[s.id], w.now, s.jitter), w.now);
    }
  }

  lemma {:induction false} ReachableInv(now: int, steps: seq<Step>, sweeping: bool)
    requires forall s :: s in steps ==> StatesLifetime(s)
    ensures Inv(Exec(Empty(now), steps, sweeping))
  {
    if |steps| > 0 {
      var n := |steps| - 1;
      assert forall s :: s in steps[..n] ==> s in steps;
      ReachableInv(now, steps[..n], sweeping);
      assert StatesLifetime(steps[n]);
      ApplyKeepsInv(Exec(Empty(now), steps[..n], sweeping), steps[n], sweeping);
    }
  }

  // Under any interleaving, a token that did not come straight from the API server had not expired
  // at the clock reading that decided to hand it out.
  lemma NoExpiredToken(now: int, steps: seq<Step>, id: nat)
    requires forall s :: s in steps ==> StatesLifetime(s)
    ensures
      var calls := Exec(Empty(now), steps, true).calls;
      id in calls && calls[id].Answered? && calls[id].answer.Granted? && calls[id].origin != FromServer ==>
        !Expired(calls[id].answer.tr, calls[id].at)
  {
    ReachableInv(now, steps, true);
    var w := Exec(Empty(now), steps, true);
    assert id in w.calls ==> CallOk(w.calls[id], w.now);
  }

  /******* The collector is invisible *******/

  // What is missing on the left has expired on the right.
  predicate EntryAlike(e: Option<TokenRequest>, e': Option<TokenRequest>, now: int) {
    e == e' || (e.None? && Expired(e'.value, now))
  }

  predicate CacheAlike(cache: map<string, TokenRequest>, cache': map<string, TokenRequest>, now: int) {
    && (forall key :: key in cache ==> key in cache' && cache[key] == cache'[key])
    && (forall key :: key in cache' && key !in cache ==> Expired(cache'[key], now))
  }

  predicate CallAlike(call: Call, call': Call, now: int) {
    match call
    case Looked(key, ctr) => call'.Looked? && call'.key == key && EntryAlike(ctr, call'.ctr, now)
    case Fetching(key, ctr) => call'.Fetching? && call'.key == key && EntryAlike(ctr, call'.ctr, now)
    case Failing(key, ctr) => call'.Failing? && call'.key == key && EntryAlike(ctr, call'.ctr, now)
    case Storing(_, _) => call == call'
    case Answered(_, _, _, _) => call == call'
  }

  predicate Alike(w: World, w': World) {
    && w.now == w'.now && CacheAlike(w.cache, w'.cache, w.now)
    && w.calls.Keys == w'.calls.Keys
    && (forall id :: id in w.calls ==> CallAlike(w.calls[id], w'.calls[id], w.now))
  }

  lemma DecideAlike(call: Call, call': Call, now: int, jitter: nat)
    requires call.Looked? && CallAlike(call, call', now) && CallOk(call', now) && jitter < MAX_JITTER
    ensures CallAlike(AfterDecision(call, now, jitter), AfterDecision(call', now, jitter), now)
  {
    if call.ctr != call'.ctr {
      ExpiredIsDue(call'.ctr.value, now, jitter);
    }
  }

  lemma TickAlike(w: World, w': World, elapsed: nat)
    requires Alike(w, w')
    ensures Alike(w.(now := w.now + elapsed), w'.(now := w'.now + elapsed))
  {
    forall id | id in w.calls ensures CallAlike(w.calls[id], w'.calls[id], w.now + elapsed) {
      assert CallAlike(w.calls[id], w'.calls[id], w.now);
    }
  }

  lemma CallsAlike(w: World, w': World, id: nat, call: Call, call': Call)
    requires Alike(w, w') && CallAlike(call, call', w.now)
    ensures Alike(w.(calls := w.calls[id := call]), w'.(calls := w'.calls[id := call']))
  {
  }

  lemma StoreAlike(w: World, w': World, key: string, tr: TokenRequest)
    requires Alike(w, w')
    ensures Alike(w.(cache := w.cache[key := tr]), w'.(cache := w'.cache[key := tr]))
  {
  }

  lemma SweepAlike(w: World, w': World, key: string)
    requires Alike(w, w')
    ensures Alike(Apply(w, Sweep(key), true), w')
  {
  }

  lemma ApplyAlike(w: World, w': World, s: Step)
    requires Alike(w, w') && Inv(w')
    ensures Alike(Apply(w, s, true), Apply(w', s, false))
  {
    match s
    case Tick(elapsed) => TickAlike(w, w', elapsed);
    case Sweep(key) => SweepAlike(w, w', key);
    case Look(id, key) =>
      if id !in w.calls {
        CallsAlike(w, w', id, Looked(key, Lookup(w.cache, key)), Looked(key, Lookup(w'.cache, key)));
      }
    case _ =>
      if s.id in w.calls {
        CallStepAlike(w, w', s);
      }
  }

  lemma CallStepAlike(w: World, w': World, s: Step)
    requires Alike(w, w') && Inv(w')
    requires (s.Decide? || s.Fetch? || s.FallBack? || s.Store?) && s.id in w.calls
    ensures Alike(Apply(w, s, true), Apply(w', s, false))
  {
    var call, call' := w.calls[s.id], w'.calls[s.id];
    assert CallAlike(call, call', w.now);
    match s
    case Decide(id, jitter) =>
      if call.Looked? && jitter < MAX_JITTER {
        assert CallOk(call', w'.now);
        DecideAlike(call, call', w.now, jitter);
        CallsAlike(w, w', id, AfterDecision(call, w.now, jitter), AfterDecision(call', w.now, jitter));
      }
    case Fetch(id, outcome) =>
      if call.Fetching? {
        CallsAlike(w, w', id, AfterFetch(call, outcome), AfterFetch(call', outcome));
      }
    case FallBack(id) =>
      if call.Failing? {
        CallsAlike(w, w', id, AfterFallBack(call, w.now), AfterFallBack(call', w.now));
      }
    case Store(id) =>
      if call.Storing? {
        StoreAlike(w, w', call.key, call.tr);
        CallsAlike(w.(cache := w.cache[call.key := call.tr]), w'.(cache := w'.cache[call.key := call.tr]), id,
                   Answered(call.key, Granted(call.tr), FromServer, w.now), Answered(call.key, Granted(call.tr), FromServer, w.now));
      }
    case _ =>
  }

  // A cache that is swept at arbitrary points gives the same answers, on every interleaving, as one
  // that never is: the same tokens from the same sources, and refusals of the same calls.
  lemma {:induction false} CollectorIsInvisible(now: int, steps: seq<Step>)
    requires forall s :: s in steps ==> StatesLifetime(s)
    ensures Alike(Exec(Empty(now), steps, true), Exec(Empty(now), steps, false))
  {
    if |steps| > 0 {
      var n := |steps| - 1;
      assert forall s :: s in steps[..n] ==> s in steps;
      CollectorIsInvisible(now, steps[..n]);
      ReachableInv(now, steps[..n], false);
      ApplyAlike(Exec(Empty(now), steps[..n], true), Exec(Empty(now), steps[..n], false), steps[n]);
    }
  }

  lemma SameAnswers(now: int, steps: seq<Step>, id: nat, call: Call)
    requires forall s :: s in steps ==> StatesLifetime(s)
    requires call.Answered?
    ensures
      var calls, calls' := Exec(Empty(now), steps, true).calls, Exec(Empty(now), steps, false).calls;
      (id in calls && calls[id] == call) <==> (id in calls' && calls'[id] == call)
  {
    CollectorIsInvisible(now, steps);
    var w, w' := Exec(Empty(now), steps, true), Exec(Empty(now), steps, false);
    assert id in w.calls <==> id in w'.calls;
    if id in w.calls {
      assert CallAlike(w.calls[id], w'.calls[id], w.now);
    }
  }

  // For every token that the invisibility does not cover the collector shows: just after it expired
  // the unswept cache serves it, and the swept one fetches another.
  lemma CollectorShowsWithoutLifetime(tr: TokenRequest)
    requires tr.spec.expirationSeconds.Some? ==> Representable(tr.spec.expirationSeconds.value)
    requires !HasLifetime(tr)
    ensures
      var w := World(tr.status.expiration + 1, map["k" := tr], map[]);
      var steps := [Sweep("k"), Look(0, "k"), Decide(0, 0)];
      && Exec(w, steps, false).calls == map[0 := Answered("k", Granted(tr), FromCache, w.now)]
      && Exec(w, steps, true).calls == map[0 := Fetching("k", None)]
  {
    var w := World(tr.status.expiration + 1, map["k" := tr], map[]);
    var steps := [Sweep("k"), Look(0, "k"), Decide(0, 0)];
    if tr.spec.expirationSeconds.Some? {
      RefreshIsDue(tr, tr.spec.expirationSeconds.value, w.now, 0);
    }
    assert !RequiresRefresh(tr, w.now, 0);
    assert steps[..2][..1][..0] == [] && steps[..2][..1] == [Sweep("k")] && steps[..2] == [Sweep("k"), Look(0, "k")];
    assert Exec(w, [Sweep("k")], false) == w;
    assert Exec(w, [Sweep("k")], true) == w.(cache := map[]);
    assert Exec(w, [Sweep("k"), Look(0, "k")], true) == Apply(w.(cache := map[]), Look(0, "k"), true);
    assert Exec(w, [Sweep("k"), Look(0, "k")], false) == Apply(w, Look(0, "k"), false);
  }

  /******* Where entries come from *******/

  // Call `id` asked for `key` and the API server issued `tr` to it.
  datatype Fetched = Fetched(id: nat, key: string, tr: TokenRequest)

  function FetchedBy(w: World, s: Step): set<Fetched> {
    if s.Fetch? && s.id in w.calls && w.calls[s.id].Fetching? && s.outcome.Some?
    then {Fetched(s.id, w.calls[s.id].key, s.outcome.value)}
    else {}
  }

  function AllFetched(now: int, steps: seq<Step>, sweeping: bool): set<Fetched> {
    if |steps| == 0 then {}
    else
      var n := |steps| - 1;
      AllFetched(now, steps[..n], sweeping) + FetchedBy(Exec(Empty(now), steps[..n], sweeping), steps[n])
  }

  ghost predicate WasFetched(log: set<Fetched>, key: string, tr: TokenRequest) {
    exists f :: f in log && f.key == key && f.tr == tr
  }

  // Whatever the call holds, a call with its key fetched it.
  ghost predicate CallWasFetched(log: set<Fetched>, call: Call) {
    match call
    case Looked(key, ctr) => ctr.Some? ==> WasFetched(log, key, ctr.value)
    case Fetching(key, ctr) => ctr.Some? ==> WasFetched(log, key, ctr.value)
    case Failing(key, ctr) => ctr.Some? ==> WasFetched(log, key, ctr.value)
    case Storing(key, tr) => WasFetched(log, key, tr)
    case Answered(key, answer, _, _) => answer.Granted? ==> WasFetched(log, key, answer.tr)
  }

  ghost predicate AllWereFetched(log: set<Fetched>, w: World) {
    && (forall key :: key in w.cache ==> WasFetched(log, key, w.cache[key]))
    && (forall id :: id in w.calls ==> CallWasFetched(log, w.calls[id]))
  }

  lemma LogMayGrow(log: set<Fetched>, log': set<Fetched>, w: World)
    requires log <= log' && AllWereFetched(log, w)
    ensures AllWereFetched(log', w)
  {
    forall key, tr | WasFetched(log, key, tr) ensures WasFetched(log', key, tr) {
      var f :| f in log && f.key == key && f.tr == tr;
      assert f in log';
    }
    forall id | id in w.calls ensures CallWasFetched(log', w.calls[id]) {
      assert CallWasFetched(log, w.calls[id]);
    }
  }

  lemma ApplyKeepsFetched(log: set<Fetched>, w: World, s: Step, sweeping: bool)
    requires AllWereFetched(log, w) && FetchedBy(w, s) <= log
    ensures AllWereFetched(log, Apply(w, s, sweeping))
  {
    if (s.Decide? || s.Fetch? || s.FallBack? || s.Store?) && s.id in w.calls {
      assert CallWasFetched(log, w.calls[s.id]);
      if s.Fetch? && w.calls[s.id].Fetching? && s.outcome.Some? {
        assert Fetched(s.id, w.calls[s.id].key, s.outcome.value) in log;
      }
    }
  }

  // Under any interleaving, each cached entry, each entry in a caller's hand, each token on its way
  // into the cache and each answer was fetched by a call with that very key.
  lemma {:induction false} ReachableProvenance(now: int, steps: seq<Step>, sweeping: bool)
    ensures AllWereFetched(AllFetched(now, steps, sweeping), Exec(Empty(now), steps, sweeping))
  {
    if |steps| > 0 {
      var n := |steps| - 1;
      ReachableProvenance(now, steps[..n], sweeping);
      LogMayGrow(AllFetched(now, steps[..n], sweeping), AllFetched(now, steps, sweeping),
                 Exec(Empty(now), steps[..n], sweeping));
      ApplyKeepsFetched(AllFetched(now, steps, sweeping), Exec(Empty(now), steps[..n], sweeping), steps[n], sweeping);
    }
  }

  // Call `id` looks for its own key.
  predicate LooksFor(keys: nat -> string, s: Step) {
    s.Look? ==> s.key == keys(s.id)
  }

  ghost predicate LogHasKeys(log: set<Fetched>, keys: nat -> string) {
    forall f :: f in log ==> f.key == keys(f.id)
  }

  ghost predicate CallsHaveKeys(w: World, keys: nat -> string) {
    forall id :: id in w.calls ==> w.calls[id].key == keys(id)
  }

  lemma ApplyKeepsKeys(keys: nat -> string, w: World, log: set<Fetched>, s: Step, sweeping: bool)
    requires CallsHaveKeys(w, keys) && LogHasKeys(log, keys) && LooksFor(keys, s)
    ensures CallsHaveKeys(Apply(w, s, sweeping), keys) && LogHasKeys(log + FetchedBy(w, s), keys)
  {
  }

  lemma {:induction false} CallsKeepTheirKeys(keys: nat -> string, now: int, steps: seq<Step>, sweeping: bool)
    requires forall s :: s in steps ==> LooksFor(keys, s)
    ensures CallsHaveKeys(Exec(Empty(now), steps, sweeping), keys)
    ensures LogHasKeys(AllFetched(now, steps, sweeping), keys)
  {
    if |steps| > 0 {
      var n := |steps| - 1;
      assert forall s :: s in steps[..n] ==> s in steps;
      CallsKeepTheirKeys(keys, now, steps[..n], sweeping);
      assert LooksFor(keys, steps[n]);
      ApplyKeepsKeys(keys, Exec(Empty(now), steps[..n], sweeping), AllFetched(now, steps[..n], sweeping), steps[n], sweeping);
    }
  }

  lemma AnswerWasFetched(log: set<Fetched>, w: World, id: nat, key: string)
    requires AllWereFetched(log, w) && id in w.calls && w.calls[id].key == key
    requires w.calls[id].Answered? && w.calls[id].answer.Granted?
    ensures WasFetched(log, key, w.calls[id].answer.tr)
  {
    assert CallWasFetched(log, w.calls[id]);
  }

  /******* One call that no other call interleaves with *******/

  // What one call reads from the clock, the random source and the API server.
  datatype Readings = Readings(decideAt: int, jitter: nat, fetched: Option<TokenRequest>, fallbackAt: int)

  type Jittered = r: Readings | r.jitter < MAX_JITTER witness Readings(0, 0, None, 0)

  predicate Due(cache: map<string, TokenRequest>, key: string, r: Jittered) {
    key !in cache || RequiresRefresh(cache[key], r.decideAt, r.jitter)
  }

  function Serve(cache: map<string, TokenRequest>, key: string, r: Jittered): (map<string, TokenRequest>, Answer) {
    if !Due(cache, key, r) then (cache, Granted(cache[key]))
    else
      match r.fetched
      case Some(tr) => (cache[key := tr], Granted(tr))
      case None =>
        (cache, if key !in cache || Expired(cache[key], r.fallbackAt) then Refused else Granted(cache[key]))
  }

  /******* How often a token is fetched *******/

  // Tokens are requested for ten minutes.
  const EXPIRATION_SECONDS := 600

  predicate NoneInFlight(w: World, key: string) {
    forall id :: id in w.calls && w.calls[id].key == key ==> w.calls[id].Answered?
  }

  // The API server issues a token for `key`.
  predicate Issues(w: World, s: Step, key: string) {
    s.Fetch? && s.id in w.calls && w.calls[s.id].Fetching? && w.calls[s.id].key == key && s.outcome.Some?
  }

  predicate IssuedAt(tr: TokenRequest, time: int) {
    && tr.spec.expirationSeconds == Some(EXPIRATION_SECONDS)
    && tr.status.expiration == time + EXPIRATION_SECONDS * SECOND
  }

  // Calls for `key` do not overlap, and its tokens expire ten minutes after they were issued. Calls for
  // other keys and sweeps may come anywhere, between two calls or within one.
  predicate Regular(w: World, s: Step, key: string) {
    && (s.Look? && s.key == key ==> NoneInFlight(w, key))
    && (Issues(w, s, key) ==> IssuedAt(s.outcome.value, w.now))
  }

  predicate RegularRun(now: int, steps: seq<Step>, key: string) {
    forall k :: 0 <= k < |steps| ==> Regular(Exec(Empty(now), steps[..k], true), steps[k], key)
  }

  // The times at which tokens for `key` were issued.
  function IssueTimes(now: int, steps: seq<Step>, key: string): seq<int> {
    if |steps| == 0 then []
    else
      var n := |steps| - 1;
      var w := Exec(Empty(now), steps[..n], true);
      var times := IssueTimes(now, steps[..n], key);
      if Issues(w, steps[n], key) then times + [w.now] else times
  }

  function Last(times: seq<int>): Option<int> {
    if |times| == 0 then None else Some(times[|times| - 1])
  }

  predicate AreSpaced(times: seq<int>) {
    forall i, j :: 0 <= i < j < |times| ==> times[j] - times[i] > 471 * SECOND
  }

  lemma SpacedMore(times: seq<int>, time: int)
    requires AreSpaced(times) && (Last(times).Some? ==> time - Last(times).value > 471 * SECOND)
    ensures AreSpaced(times + [time])
  {
    var n := |times|;
    forall i | 0 <= i < n ensures time - times[i] > 471 * SECOND {
      assert i < n - 1 ==> times[n - 1] - times[i] > 471 * SECOND;
    }
  }

  // An entry is of the last token, and a missing one means that the last token has expired.
  predicate EntryOf(e: Option<TokenRequest>, last: Option<int>, now: int) {
    match e
    case Some(tr) => last.Some? && IssuedAt(tr, last.value)
    case None => last.Some? ==> now > last.value + EXPIRATION_SECONDS * SECOND
  }

  predicate CallIsTimely(call: Call, last: Option<int>, now: int) {
    match call
    case Looked(_, ctr) => EntryOf(ctr, last, now)
    case Fetching(_, _) => last.Some? ==> now > last.value + 471 * SECOND
    case Failing(_, _) => true
    case Storing(_, tr) => last.Some? && IssuedAt(tr, last.value)
    case Answered(_, _, _, _) => true
  }

  predicate IsStoring(w: World, key: string) {
    exists id :: id in w.calls && w.calls[id].key == key && w.calls[id].Storing?
  }

  predicate OneInFlight(w: World, key: string) {
    forall id, id' :: id in w.calls && id' in w.calls && w.calls[id].key == key && w.calls[id'].key == key ==>
      id == id' || w.calls[id].Answered? || w.calls[id'].Answered?
  }

  predicate IsTimely(w: World, key: string, last: Option<int>) {
    && OneInFlight(w, key)
    && (forall id :: id in w.calls && w.calls[id].key == key ==> CallIsTimely(w.calls[id], last, w.now))
    && (!IsStoring(w, key) ==> EntryOf(Lookup(w.cache, key), last, w.now))
  }

  function LastAfter(w: World, s: Step, key: string, last: Option<int>): Option<int> {
    if Issues(w, s, key) then Some(w.now) else last
  }

  lemma DueIsLate(ctr: Option<TokenRequest>, last: Option<int>, now: int, jitter: nat)
    requires EntryOf(ctr, last, now) && jitter < MAX_JITTER
    requires ctr.Some? ==> RequiresRefresh(ctr.value, now, jitter)
    ensures last.Some? ==> now > last.value + 471 * SECOND
  {
    if ctr.Some? {
      RefreshIsDue(ctr.value, EXPIRATION_SECONDS, now, jitter);
    }
  }

  lemma LookIsTimely(w: World, id: nat, key: string, other: string, last: Option<int>)
    requires IsTimely(w, key, last) && id !in w.calls && (other == key ==> NoneInFlight(w, key))
    ensures IsTimely(Apply(w, Look(id, other), true), key, last)
  {
    var w' := Apply(w, Look(id, other), true);
    if IsStoring(w, key) {
      var i :| i in w.calls && w.calls[i].key == key && w.calls[i].Storing?;
      assert i in w'.calls && w'.calls[i] == w.calls[i];
    }
  }

  lemma StoringElsewhere(w: World, w': World, id: nat, key: string)
    requires id in w.calls && w.calls[id].key != key && w'.calls.Keys == w.calls.Keys
    requires forall i :: i in w.calls && i != id ==> w'.calls[i] == w.calls[i]
    ensures IsStoring(w, key) ==> IsStoring(w', key)
  {
    if IsStoring(w, key) {
      var i :| i in w.calls && w.calls[i].key == key && w.calls[i].Storing?;
      assert i in w'.calls && w'.calls[i] == w.calls[i];
    }
  }

  // A call takes a step; the others stay where they are.
  lemma CallStaysTimely(w: World, w': World, id: nat, key: string, last: Option<int>, last': Option<int>)
    requires IsTimely(w, key, last) && id in w.calls && !w.calls[id].Answered?
    requires w'.calls.Keys == w.calls.Keys && w'.calls[id].key == w.calls[id].key && w'.now == w.now
    requires forall i :: i in w.calls && i != id ==> w'.calls[i] == w.calls[i]
    requires w.calls[id].key == key ==> CallIsTimely(w'.calls[id], last', w.now)
    requires w.calls[id].key != key ==> last' == last && Lookup(w'.cache, key) == Lookup(w.cache, key)
    requires w.calls[id].key == key && !w'.calls[id].Storing? ==> EntryOf(Lookup(w'.cache, key), last', w.now)
    ensures IsTimely(w', key, last')
  {
    if w.calls[id].key != key {
      StoringElsewhere(w, w', id, key);
    }
    if w.calls[id].key == key && w'.calls[id].Storing? {
      assert IsStoring(w', key);
    }
  }

  lemma CallStepIsTimely(w: World, s: Step, key: string, last: Option<int>)
    requires IsTimely(w, key, last) && Regular(w, s, key)
    requires (s.Decide? || s.Fetch? || s.FallBack? || s.Store?) && s.id in w.calls && Apply(w, s, true) != w
    ensures IsTimely(Apply(w, s, true), key, LastAfter(w, s, key, last))
  {
    var w', call := Apply(w, s, true), w.calls[s.id];
    if call.key == key {
      assert CallIsTimely(call, last, w.now);
      if !call.Storing? {
        NotStoring(w, s.id, key);
      }
      if s.Decide? {
        if w'.calls[s.id].Fetching? {
          DueIsLate(call.ctr, last, w.now, s.jitter);
        }
      }
    }
    CallStaysTimely(w, w', s.id, key, last, LastAfter(w, s, key, last));
  }

  lemma NotStoring(w: World, id: nat, key: string)
    requires OneInFlight(w, key) && id in w.calls && w.calls[id].key == key
    requires !w.calls[id].Answered? && !w.calls[id].Storing?
    ensures !IsStoring(w, key)
  {
  }

  lemma TickIsTimely(w: World, key: string, last: Option<int>, elapsed: nat)
    requires IsTimely(w, key, last)
    ensures IsTimely(w.(now := w.now + elapsed), key, last)
  {
    var w' := w.(now := w.now + elapsed);
    assert IsStoring(w, key) <==> IsStoring(w', key);
    forall id | id in w'.calls && w'.calls[id].key == key ensures CallIsTimely(w'.calls[id], last, w'.now) {
      assert CallIsTimely(w.calls[id], last, w.now);
    }
  }

  lemma SweepIsTimely(w: World, key: string, last: Option<int>, swept: string)
    requires IsTimely(w, key, last)
    ensures IsTimely(Apply(w, Sweep(swept), true), key, last)
  {
    assert IsStoring(w, key) <==> IsStoring(Apply(w, Sweep(swept), true), key);
  }

  lemma StepIsTimely(w: World, s: Step, key: string, last: Option<int>)
    requires IsTimely(w, key, last) && Regular(w, s, key)
    ensures IsTimely(Apply(w, s, true), key, LastAfter(w, s, key, last))
    ensures Issues(w, s, key) && last.Some? ==> w.now - last.value > 471 * SECOND
  {
    if Issues(w, s, key) {
      assert CallIsTimely(w.calls[s.id], last, w.now);
    }
    match s
    case Tick(elapsed) => TickIsTimely(w, key, last, elapsed);
    case Sweep(swept) => SweepIsTimely(w, key, last, swept);
    case Look(id, other) =>
      if id !in w.calls {
        LookIsTimely(w, id, key, other, last);
      }
    case _ =>
      if s.id in w.calls && Apply(w, s, true) != w {
        CallStepIsTimely(w, s, key, last);
      }
  }

  // Successive tokens for one key are issued more than 471 seconds apart, however the jitter falls, and
  // whatever the collector and the calls for other keys do meanwhile.
  lemma {:induction false} FetchesAreSpaced(now: int, steps: seq<Step>, key: string)
    requires RegularRun(now, steps, key)
    ensures AreSpaced(IssueTimes(now, steps, key))
    ensures IsTimely(Exec(Empty(now), steps, true), key, Last(IssueTimes(now, steps, key)))
  {
    if |steps| > 0 {
      var n := |steps| - 1;
      RegularBefore(now, steps, key);
      FetchesAreSpaced(now, steps[..n], key);
      assert Regular(Exec(Empty(now), steps[..n], true), steps[n], key);
      var w, times := Exec(Empty(now), steps[..n], true), IssueTimes(now, steps[..n], key);
      StepIsTimely(w, steps[n], key, Last(times));
      if Issues(w, steps[n], key) {
        SpacedMore(times, w.now);
      }
    }
  }

  lemma RegularBefore(now: int, steps: seq<Step>, key: string)
    requires |steps| > 0 && RegularRun(now, steps, key)
    ensures RegularRun(now, steps[..|steps| - 1], key)
  {
    var before := steps[..|steps| - 1];
    forall k | 0 <= k < |before| ensures Regular(Exec(Empty(now), before[..k], true), before[k], key) {
      assert before[..k] == steps[..k];
      assert Regular(Exec(Empty(now), steps[..k], true), steps[k], key);
    }
  }

  lemma {:induction false} IssueIsListed(now: int, steps: seq<Step>, key: string, i: nat)
    requires i < |steps| && Issues(Exec(Empty(now), steps[..i], true), steps[i], key)
    ensures
      var n, time := |IssueTimes(now, steps[..i], key)|, Exec(Empty(now), steps[..i], true).now;
      n < |IssueTimes(now, steps, key)| && IssueTimes(now, steps, key)[n] == time
  {
    var n := |steps| - 1;
    if i < n {
      assert steps[..n][..i] == steps[..i];
      IssueIsListed(now, steps[..n], key, i);
    }
  }

  // Of any two steps that issue tokens for the key, the later comes more than 471 seconds after the other.
  lemma IssuesAreSpaced(now: int, steps: seq<Step>, key: string, i: nat, j: nat)
    requires RegularRun(now, steps, key) && i < j < |steps|
    requires Issues(Exec(Empty(now), steps[..i], true), steps[i], key)
    requires Issues(Exec(Empty(now), steps[..j], true), steps[j], key)
    ensures Exec(Empty(now), steps[..j], true).now - Exec(Empty(now), steps[..i], true).now > 471_000_000_000
  {
    FetchesAreSpaced(now, steps, key);
    IssueIsListed(now, steps, key, i);
    IssueIsListed(now, steps, key, j);
    assert steps[..j][..i] == steps[..i];
    IssueIsListed(now, steps[..j], key, i);
  }
}
