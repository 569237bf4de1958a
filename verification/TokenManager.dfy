/** The token manager as the object that owns the cache, and the token attributes of a provider
    request built with it. */
module TokenManager {
  import opened Text
  import opened Tokens
  import opened TokenRuns
  import opened TokenKeys

  // What a caller can rely on, whatever the readings. A granted token is the one in the cache, and it
  // is fresh from the API server or, if lifetimes are stated, had not expired when it was handed out. A
  // refusal means that nothing valid was left.
  lemma ServeMeaning(cache: map<string, TokenRequest>, key: string, r: Jittered)
    ensures
      var (cache', answer) := Serve(cache, key, r);
      match answer
      case Refused => cache' == cache && r.fetched.None? && (key in cache ==> Expired(cache[key], r.fallbackAt))
      case Granted(tr) =>
        && key in cache' && cache'[key] == tr
        && (Some(tr) == r.fetched || (HasLifetime(tr) ==> !Expired(tr, r.decideAt) || !Expired(tr, r.fallbackAt)))
  {
    if key in cache && HasLifetime(cache[key]) && Expired(cache[key], r.decideAt) {
      ExpiredIsDue(cache[key], r.decideAt, r.jitter);
    }
  }

  // The cache after calls for any keys, one after the other.
  function ServeAll(cache: map<string, TokenRequest>, calls: seq<(string, Jittered)>): map<string, TokenRequest> {
    if |calls| == 0 then cache
    else
      var n := |calls| - 1;
      Serve(ServeAll(cache, calls[..n]), calls[n].0, calls[n].1).0
  }

  // From the moment a token was granted until it is due, all calls for its key get it, whatever calls
  // for other keys come between them and whatever the API server would answer.
  lemma {:induction false} OneTokenUntilDue(cache: map<string, TokenRequest>, key: string, r: Jittered, tr: TokenRequest,
                                            calls: seq<(string, Jittered)>, r': Jittered)
    requires Serve(cache, key, r).1 == Granted(tr)
    requires forall c :: c in calls && c.0 == key ==> !RequiresRefresh(tr, c.1.decideAt, c.1.jitter)
    ensures
      var c := ServeAll(Serve(cache, key, r).0, calls);
      && key in c && c[key] == tr
      && (!RequiresRefresh(tr, r'.decideAt, r'.jitter) ==> Serve(c, key, r') == (c, Granted(tr)))
  {
    ServeMeaning(cache, key, r);
    if |calls| > 0 {
      var n := |calls| - 1;
      assert forall c :: c in calls[..n] ==> c in calls;
      OneTokenUntilDue(cache, key, r, tr, calls[..n], r');
      assert calls[n] in calls;
      var before := ServeAll(Serve(cache, key, r).0, calls[..n]);
      if calls[n].0 != key {
        var stored := ServeIsLocal(before, before, calls[n].0, calls[n].1);
      }
    }
  }

  function Put(cache: map<string, TokenRequest>, key: string, tr: Option<TokenRequest>): map<string, TokenRequest> {
    match tr
    case None => cache
    case Some(t) => cache[key := t]
  }

  lemma PutsCommute(cache: map<string, TokenRequest>, key: string, tr: Option<TokenRequest>, other: string,
                    tr': Option<TokenRequest>)
    requires key != other
    ensures Put(Put(cache, key, tr), other, tr') == Put(Put(cache, other, tr'), key, tr)
    ensures Lookup(Put(cache, key, tr), other) == Lookup(cache, other)
  {
  }

  // A call reads and writes only the entry for its key.
  lemma ServeIsLocal(cache: map<string, TokenRequest>, cache': map<string, TokenRequest>, key: string, r: Jittered)
    returns (stored: Option<TokenRequest>)
    requires Lookup(cache, key) == Lookup(cache', key)
    ensures Serve(cache, key, r).1 == Serve(cache', key, r).1
    ensures Serve(cache, key, r).0 == Put(cache, key, stored)
    ensures Serve(cache', key, r).0 == Put(cache', key, stored)
  {
    stored := if Due(cache, key, r) then r.fetched else None;
  }

  // Calls for two keys do not see each other: each gets the answer it would get alone, and the cache
  // they leave does not depend on their order.
  lemma KeysAreIndependent(cache: map<string, TokenRequest>, key: string, r: Jittered, other: string, r': Jittered)
    requires key != other
    ensures Serve(Serve(cache, key, r).0, other, r').1 == Serve(cache, other, r').1
    ensures Serve(Serve(cache, key, r).0, other, r').0 == Serve(Serve(cache, other, r').0, key, r).0
  {
    var first := ServeIsLocal(cache, cache, key, r);
    var second := ServeIsLocal(cache, cache, other, r');
    PutsCommute(cache, key, first, other, second);
    PutsCommute(cache, other, second, key, first);
    var second' := ServeIsLocal(cache, Put(cache, key, first), other, r');
    var first' := ServeIsLocal(cache, Put(cache, other, second), key, r);
    PutsCommute(cache, key, first', other, second');
  }

  /******* A call is a run of its steps *******/

  lemma {:induction false} ExecConcat(w: World, first: seq<Step>, second: seq<Step>)
    ensures Exec(w, first + second, true) == Exec(Exec(w, first, true), second, true)
  {
    if |second| == 0 {
      assert first + second == first;
    } else {
      var n := |second| - 1;
      var all := first + second;
      assert all[..|all| - 1] == first + second[..n];
      ExecConcat(w, first, second[..n]);
    }
  }

  lemma ExecOne(w: World, s: Step)
    ensures Exec(w, [s], true) == Apply(w, s, true)
  {
    assert [s][..0] == [];
  }

  lemma ExecTwo(w: World, s: Step, t: Step)
    ensures Exec(w, [s, t], true) == Apply(Apply(w, s, true), t, true)
  {
    assert [s, t][..1] == [s];
    ExecOne(w, s);
  }

  function DecideSteps(w: World, id: nat, key: string, r: Jittered): seq<Step>
    requires w.now <= r.decideAt
  {
    [Look(id, key)] + [Tick(r.decideAt - w.now), Decide(id, r.jitter)]
  }

  function FinishSteps(id: nat, r: Jittered): seq<Step>
    requires r.decideAt <= r.fallbackAt
  {
    [Fetch(id, r.fetched), Tick(r.fallbackAt - r.decideAt)] + [FallBack(id), Store(id)]
  }

  lemma DecideRun(w: World, id: nat, key: string, r: Jittered)
    requires id !in w.calls && w.now <= r.decideAt
    ensures
      var w' := Exec(w, DecideSteps(w, id, key, r), true);
      && w'.cache == w.cache && w'.now == r.decideAt && id in w'.calls
      && w'.calls[id] == AfterDecision(Looked(key, Lookup(w.cache, key)), r.decideAt, r.jitter)
  {
    ExecOne(w, Look(id, key));
    var w1 := Apply(w, Look(id, key), true);
    ExecTwo(w1, Tick(r.decideAt - w.now), Decide(id, r.jitter));
    ExecConcat(w, [Look(id, key)], [Tick(r.decideAt - w.now), Decide(id, r.jitter)]);
  }

  function Finished(w: World, id: nat, r: Jittered): World
    requires r.decideAt <= r.fallbackAt
  {
    var fetched := Apply(w, Fetch(id, r.fetched), true);
    var later := Apply(fetched, Tick(r.fallbackAt - r.decideAt), true);
    Apply(Apply(later, FallBack(id), true), Store(id), true)
  }

  lemma FinishRun(w: World, id: nat, r: Jittered)
    requires r.decideAt <= r.fallbackAt
    ensures Exec(w, FinishSteps(id, r), true) == Finished(w, id, r)
  {
    var w2 := Apply(Apply(w, Fetch(id, r.fetched), true), Tick(r.fallbackAt - r.decideAt), true);
    ExecTwo(w, Fetch(id, r.fetched), Tick(r.fallbackAt - r.decideAt));
    ExecTwo(w2, FallBack(id), Store(id));
    ExecConcat(w, [Fetch(id, r.fetched), Tick(r.fallbackAt - r.decideAt)], [FallBack(id), Store(id)]);
  }

  lemma FinishedCall(w: World, id: nat, r: Jittered)
    requires id in w.calls && w.now == r.decideAt <= r.fallbackAt
    requires w.calls[id].Fetching? || w.calls[id].Answered?
    ensures
      var w', call := Finished(w, id, r), w.calls[id];
      && id in w'.calls
      && (w'.cache, w'.calls[id]) ==
         if call.Answered? then (w.cache, call)
         else
           match r.fetched
           case Some(tr) => (w.cache[call.key := tr], Answered(call.key, Granted(tr), FromServer, r.fallbackAt))
           case None => (w.cache, AfterFallBack(Failing(call.key, call.ctr), r.fallbackAt))
  {
  }

  // A call that nothing interleaves with is one of the interleavings: some schedule of its steps,
  // with the clock moving as it was read, leaves that cache and gives that answer.
  lemma ServeIsARun(w: World, id: nat, key: string, r: Jittered)
    requires id !in w.calls && w.now <= r.decideAt <= r.fallbackAt
    ensures
      var w' := Exec(w, DecideSteps(w, id, key, r) + FinishSteps(id, r), true);
      && id in w'.calls && w'.calls[id].Answered?
      && (w'.cache, w'.calls[id].answer) == Serve(w.cache, key, r)
  {
    DecideRun(w, id, key, r);
    var w3 := Exec(w, DecideSteps(w, id, key, r), true);
    FinishRun(w3, id, r);
    FinishedCall(w3, id, r);
    ExecConcat(w, DecideSteps(w, id, key, r), FinishSteps(id, r));
  }

  /******* Each answer belongs to its own request *******/

  // The key that call `id` looks for, if it looks for that of its request.
  function RequestKeys(keyOf: KeyFunction, requests: nat -> Request): nat -> string {
    (id: nat) => keyOf(requests(id))
  }

  // A call with an equal request fetched `tr`, so the API server issued it for that request.
  ghost predicate IssuedForEqual(requests: nat -> Request, log: set<Fetched>, q: Request, tr: TokenRequest) {
    exists f :: f in log && f.tr == tr && SameTokenRequest(requests(f.id), q)
  }

  lemma FetchedForEqual(keyOf: KeyFunction, requests: nat -> Request, log: set<Fetched>, q: Request, tr: TokenRequest)
    requires LogHasKeys(log, RequestKeys(keyOf, requests))
    requires WasFetched(log, keyOf(q), tr)
    ensures IssuedForEqual(requests, log, q, tr)
  {
    var f :| f in log && f.key == keyOf(q) && f.tr == tr;
    assert keyOf(requests(f.id)) == keyOf(q);
  }

  // Under any interleaving of calls and sweeps, a granted token was issued for the account and the
  // request of the call that got it.
  lemma AnswersBelongToTheirRequests(keyOf: KeyFunction, requests: nat -> Request, now: int, steps: seq<Step>, sweeping: bool,
                                     id: nat)
    requires forall s :: s in steps ==> LooksFor(RequestKeys(keyOf, requests), s)
    ensures
      var w := Exec(Empty(now), steps, sweeping);
      id in w.calls && w.calls[id].Answered? && w.calls[id].answer.Granted? ==>
        IssuedForEqual(requests, AllFetched(now, steps, sweeping), requests(id), w.calls[id].answer.tr)
  {
    var w, log := Exec(Empty(now), steps, sweeping), AllFetched(now, steps, sweeping);
    CallsKeepTheirKeys(RequestKeys(keyOf, requests), now, steps, sweeping);
    ReachableProvenance(now, steps, sweeping);
    if id in w.calls && w.calls[id].Answered? && w.calls[id].answer.Granted? {
      AnswerWasFetched(log, w, id, keyOf(requests(id)));
      FetchedForEqual(keyOf, requests, log, requests(id), w.calls[id].answer.tr);
    }
  }

  // And every cached entry was issued for each request that would find it.
  lemma EntriesBelongToTheirRequests(keyOf: KeyFunction, requests: nat -> Request, now: int, steps: seq<Step>, sweeping: bool,
                                     q: Request)
    requires forall s :: s in steps ==> LooksFor(RequestKeys(keyOf, requests), s)
    ensures
      var cache := Exec(Empty(now), steps, sweeping).cache;
      keyOf(q) in cache ==> IssuedForEqual(requests, AllFetched(now, steps, sweeping), q, cache[keyOf(q)])
  {
    CallsKeepTheirKeys(RequestKeys(keyOf, requests), now, steps, sweeping);
    ReachableProvenance(now, steps, sweeping);
    if keyOf(q) in Exec(Empty(now), steps, sweeping).cache {
      FetchedForEqual(keyOf, requests, AllFetched(now, steps, sweeping), q, Exec(Empty(now), steps, sweeping).cache[keyOf(q)]);
    }
  }

  /******* The manager *******/

  // The API server issued `tr` for `request`.
  datatype Issue = Issue(request: Request, tr: TokenRequest)

  ghost predicate WasIssued(keyOf: KeyFunction, issued: set<Issue>, key: string, tr: TokenRequest) {
    exists i :: i in issued && keyOf(i.request) == key && i.tr == tr
  }

  // Every entry was issued for a request with its key.
  ghost predicate Provenance(keyOf: KeyFunction, issued: set<Issue>, cache: map<string, TokenRequest>) {
    forall key :: key in cache ==> WasIssued(keyOf, issued, key, cache[key])
  }

  ghost predicate HasIssue(issued: set<Issue>, q: Request, tr: TokenRequest) {
    exists i :: i in issued && SameTokenRequest(i.request, q) && i.tr == tr
  }

  // An entry under a request's key was issued for that very request.
  lemma CachedForSameRequest(keyOf: KeyFunction, issued: set<Issue>, cache: map<string, TokenRequest>, q: Request)
    requires Provenance(keyOf, issued, cache) && keyOf(q) in cache
    ensures HasIssue(issued, q, cache[keyOf(q)])
  {
    assert WasIssued(keyOf, issued, keyOf(q), cache[keyOf(q)]);
    var i :| i in issued && keyOf(i.request) == keyOf(q) && i.tr == cache[keyOf(q)];
    assert SameTokenRequest(i.request, q);
  }

  lemma StaysIssued(keyOf: KeyFunction, issued: set<Issue>, i: Issue, key: string, tr: TokenRequest)
    requires WasIssued(keyOf, issued, key, tr)
    ensures WasIssued(keyOf, issued + {i}, key, tr)
  {
    var j :| j in issued && keyOf(j.request) == key && j.tr == tr;
    assert j in issued + {i};
  }

  lemma ProvenanceOfIssue(keyOf: KeyFunction, issued: set<Issue>, cache: map<string, TokenRequest>, i: Issue)
    requires Provenance(keyOf, issued, cache)
    ensures Provenance(keyOf, issued + {i}, cache[keyOf(i.request) := i.tr])
    ensures HasIssue(issued + {i}, i.request, i.tr)
  {
    assert i in issued + {i};
    assert WasIssued(keyOf, issued + {i}, keyOf(i.request), i.tr);
    forall k | k in cache && k != keyOf(i.request) ensures WasIssued(keyOf, issued + {i}, k, cache[k]) {
      StaysIssued(keyOf, issued, i, k, cache[k]);
    }
  }

  // One call keeps the provenance, and what it grants was issued for its request.
  lemma ServeKeepsProvenance(keyOf: KeyFunction, issued: set<Issue>, cache: map<string, TokenRequest>, q: Request, r: Jittered)
    returns (issued': set<Issue>)
    requires Provenance(keyOf, issued, cache)
    ensures issued <= issued'
    ensures
      var (cache', answer) := Serve(cache, keyOf(q), r);
      Provenance(keyOf, issued', cache') && (answer.Granted? ==> HasIssue(issued', q, answer.tr))
  {
    if Due(cache, keyOf(q), r) && r.fetched.Some? {
      var i := Issue(q, r.fetched.value);
      issued' := issued + {i};
      ProvenanceOfIssue(keyOf, issued, cache, i);
    } else {
      issued' := issued;
      if keyOf(q) in cache {
        CachedForSameRequest(keyOf, issued, cache, q);
      }
    }
  }

  // The entries that are left when those outside `keys` have been looked at.
  function Unexpired(cache: map<string, TokenRequest>, keys: set<string>, now: string -> int): map<string, TokenRequest> {
    map key | key in cache && (key in keys || !Expired(cache[key], now(key))) :: cache[key]
  }

  // The sweep has yet to look at `keys`.
  ghost predicate Swept(before: map<string, TokenRequest>, keys: set<string>, now: string -> int,
                        cache: map<string, TokenRequest>)
  {
    keys <= before.Keys && cache == Unexpired(before, keys, now)
  }

  lemma SweptStep(before: map<string, TokenRequest>, keys: set<string>, now: string -> int,
                  cache: map<string, TokenRequest>, key: string)
    requires key in keys && Swept(before, keys, now, cache)
    ensures keys - {key} < keys && key in cache
    ensures Swept(before, keys - {key}, now, if Expired(cache[key], now(key)) then cache - {key} else cache)
  {
  }

  lemma SweptStart(cache: map<string, TokenRequest>, now: string -> int)
    ensures Swept(cache, cache.Keys, now, cache)
  {
  }

  lemma UnexpiredProvenance(keyOf: KeyFunction, issued: set<Issue>, cache: map<string, TokenRequest>, now: string -> int)
    requires Provenance(keyOf, issued, cache)
    ensures Provenance(keyOf, issued, Unexpired(cache, {}, now))
  {
  }

  /** The cache, and the log of what the API server issued. */
  class Manager {
    const keyOf: KeyFunction
    var cache: map<string, TokenRequest>
    ghost var issued: set<Issue>

    ghost predicate Valid()
      reads this
    {
      Provenance(keyOf, issued, cache)
    }

    // A manager whose keys are printed.
    constructor (printable: Printable)
      ensures Valid() && keyOf == PrintedKeys(printable) && cache == map[] && issued == {}
    {
      keyOf := PrintedKeys(printable);
      cache := map[];
      issued := {};
    }

    method Get(key: string) returns (ctr: Option<TokenRequest>)
      ensures ctr == Lookup(cache, key)
    {
      ctr := if key in cache then Some(cache[key]) else None;
    }

    method Set(key: string, tr: TokenRequest)
      modifies this`cache
      ensures cache == old(cache)[key := tr]
    {
      cache := cache[key := tr];
    }

    // Removes exactly the entries that had expired when they were looked at. The clock is read once
    // for each entry.
    method Cleanup(now: string -> int)
      requires Valid()
      modifies this`cache
      ensures Valid()
      ensures cache == Unexpired(old(cache), {}, now)
      ensures forall key :: key in cache <==> key in old(cache) && now(key) <= old(cache)[key].status.expiration
      ensures forall key :: key in cache ==> cache[key] == old(cache)[key]
    {
      var keys := cache.Keys;
      ghost var before := cache;
      SweptStart(before, now);
      UnexpiredProvenance(keyOf, issued, before, now);
      while keys != {}
        invariant Swept(before, keys, now, cache)
        decreases keys
      {
        var key :| key in keys;
        SweptStep(before, keys, now, cache, key);
        keys := keys - {key};
        if Expired(cache[key], now(key)) {
          cache := cache - {key};
        }
      }
    }

    method GetServiceAccountToken(namespace: string, name: string, spec: RequestSpec, r: Jittered)
      returns (answer: Answer)
      requires Valid()
      modifies this
      ensures Valid() && old(issued) <= issued
      ensures (cache, answer) == Serve(old(cache), keyOf(Request(name, namespace, spec)), r)
      ensures answer.Granted? ==> HasIssue(issued, Request(name, namespace, spec), answer.tr)
    {
      issued := ServeKeepsProvenance(keyOf, issued, cache, Request(name, namespace, spec), r);
      var key := keyOf(Request(name, namespace, spec));
      var ctr := Get(key);
      if ctr.Some? && !RequiresRefresh(ctr.value, r.decideAt, r.jitter) {
        return Granted(ctr.value);
      }
      if r.fetched.None? {
        if ctr.None? || Expired(ctr.value, r.fallbackAt) {
          return Refused;
        }
        return Granted(ctr.value);
      }
      Set(key, r.fetched.value);
      answer := Granted(r.fetched.value);
    }
  }

  /******* The attributes of a provider request *******/

  function RequestFor(name: string, namespace: string, audience: string): Request {
    Request(name, namespace, RequestSpec(Some([audience]), Some(EXPIRATION_SECONDS), None))
  }

  // `status` is that of a token issued for this account and audience.
  ghost predicate IsTokenFor(issued: set<Issue>, q: Request, status: TokenStatus) {
    exists tr: TokenRequest :: tr.status == status && HasIssue(issued, q, tr)
  }

  // `outputs` gives each audience so far such a token.
  ghost predicate Covers(issued: set<Issue>, name: string, namespace: string, audiences: seq<string>,
                         outputs: map<string, TokenStatus>)
  {
    && (forall a :: a in outputs <==> a in audiences)
    && (forall a :: a in outputs ==> IsTokenFor(issued, RequestFor(name, namespace, a), outputs[a]))
  }

  datatype Attributes = NoAttributes | Tokens(tokens: map<string, TokenStatus>) | Failure(at: nat)

  // The audiences are served in order, each from the cache the one before it left; the first
  // refusal ends it.
  function ServeAudiences(keyOf: KeyFunction, cache: map<string, TokenRequest>, name: string, namespace: string,
                          audiences: seq<string>, readings: nat -> Jittered): (map<string, TokenRequest>, Attributes)
  {
    if |audiences| == 0 then (cache, Tokens(map[]))
    else
      var n := |audiences| - 1;
      var (c, attrs) := ServeAudiences(keyOf, cache, name, namespace, audiences[..n], readings);
      if !attrs.Tokens? then (c, attrs)
      else
        var (c', answer) := Serve(c, keyOf(RequestFor(name, namespace, audiences[n])), readings(n));
        (c', match answer
             case Refused => Failure(n)
             case Granted(tr) => Tokens(attrs.tokens[audiences[n] := tr.status]))
  }

  lemma {:induction false} RefusalEnds(keyOf: KeyFunction, cache: map<string, TokenRequest>, name: string, namespace: string,
                                       audiences: seq<string>, readings: nat -> Jittered, i: nat)
    requires i < |audiences|
    requires ServeAudiences(keyOf, cache, name, namespace, audiences[..i + 1], readings).1.Failure?
    ensures ServeAudiences(keyOf, cache, name, namespace, audiences, readings) ==
            ServeAudiences(keyOf, cache, name, namespace, audiences[..i + 1], readings)
  {
    var n := |audiences| - 1;
    if i < n {
      assert audiences[..n][..i + 1] == audiences[..i + 1];
      RefusalEnds(keyOf, cache, name, namespace, audiences[..n], readings, i);
    } else {
      assert audiences[..i + 1] == audiences;
    }
  }

  // One more audience.
  lemma ServeMore(keyOf: KeyFunction, cache: map<string, TokenRequest>, name: string, namespace: string,
                  audiences: seq<string>, readings: nat -> Jittered, i: nat)
    requires i < |audiences|
    requires ServeAudiences(keyOf, cache, name, namespace, audiences[..i], readings).1.Tokens?
    ensures
      var (c, attrs) := ServeAudiences(keyOf, cache, name, namespace, audiences[..i], readings);
      var (c', answer) := Serve(c, keyOf(RequestFor(name, namespace, audiences[i])), readings(i));
      ServeAudiences(keyOf, cache, name, namespace, audiences[..i + 1], readings) ==
      (c', match answer
           case Refused => Failure(i)
           case Granted(tr) => Tokens(attrs.tokens[audiences[i] := tr.status]))
  {
    assert audiences[..i + 1][..i] == audiences[..i];
  }

  lemma TakeMore(s: seq<string>, i: nat)
    requires i < |s|
    ensures s[..i + 1] == s[..i] + [s[i]]
  {
  }

  // All audiences get a token that was issued for them, or none does.
  method SecretProviderServiceAccountTokenAttrs(m: Manager, namespace: string, name: string, audiences: seq<string>,
                                               readings: nat -> Jittered)
    returns (attrs: Attributes)
    requires m.Valid()
    modifies m
    ensures m.Valid()
    ensures audiences == [] ==> attrs.NoAttributes? && m.cache == old(m.cache)
    ensures audiences != [] ==>
              (m.cache, attrs) == ServeAudiences(m.keyOf, old(m.cache), name, namespace, audiences, readings)
    ensures attrs.Tokens? ==> Covers(m.issued, name, namespace, audiences, attrs.tokens)
    ensures attrs.Tokens? ==>
              && (forall a :: a in attrs.tokens <==> a in audiences)
              && forall a :: a in attrs.tokens ==>
                   exists i :: && i in m.issued && i.tr.status == attrs.tokens[a]
                               && i.request.name == name && i.request.namespace == namespace
                               && i.request.spec.audiences == Some([a]) && i.request.spec.expirationSeconds == Some(600)
                               && (i.request.spec.boundRef.Some? ==> i.request.spec.boundRef.value == BoundReference("", "", "", ""))
  {
    if |audiences| == 0 {
      return NoAttributes;
    }
    ghost var before := m.cache;
    var outputs: map<string, TokenStatus> := map[];
    for i := 0 to |audiences|
      invariant m.Valid()
      invariant (m.cache, Tokens(outputs)) ==
                ServeAudiences(m.keyOf, before, name, namespace, audiences[..i], readings)
      invariant Covers(m.issued, name, namespace, audiences[..i], outputs)
    {
      ghost var issued := m.issued;
      ServeMore(m.keyOf, before, name, namespace, audiences, readings, i);
      var tr := RequestFor(name, namespace, audiences[i]);
      var answer := m.GetServiceAccountToken(namespace, name, tr.spec, readings(i));
      if answer.Refused? {
        RefusalEnds(m.keyOf, before, name, namespace, audiences, readings, i);
        return Failure(i);
      }
      TakeMore(audiences, i);
      CoversMore(issued, m.issued, name, namespace, audiences[..i], outputs, audiences[i], answer.tr);
      outputs := outputs[audiences[i] := answer.tr.status];
    }
    assert audiences[..|audiences|] == audiences;
    CoversMeans(m.issued, name, namespace, audiences, outputs);
    attrs := Tokens(outputs);
  }

  // Each token was issued for this account and for its audience alone, for ten minutes, and bound to
  // no object.
  lemma CoversMeans(issued: set<Issue>, name: string, namespace: string, audiences: seq<string>, outputs: map<string, TokenStatus>)
    requires Covers(issued, name, namespace, audiences, outputs)
    ensures forall a :: a in outputs <==> a in audiences
    ensures forall a :: a in outputs ==>
              exists i :: && i in issued && i.tr.status == outputs[a]
                          && i.request.name == name && i.request.namespace == namespace
                          && i.request.spec.audiences == Some([a]) && i.request.spec.expirationSeconds == Some(600)
                          && (i.request.spec.boundRef.Some? ==> i.request.spec.boundRef.value == BoundReference("", "", "", ""))
  {
    forall a | a in outputs
      ensures exists i :: && i in issued && i.tr.status == outputs[a]
                          && i.request.name == name && i.request.namespace == namespace
                          && i.request.spec.audiences == Some([a]) && i.request.spec.expirationSeconds == Some(600)
                          && (i.request.spec.boundRef.Some? ==> i.request.spec.boundRef.value == BoundReference("", "", "", ""))
    {
      assert IsTokenFor(issued, RequestFor(name, namespace, a), outputs[a]);
      var tr: TokenRequest :| tr.status == outputs[a] && HasIssue(issued, RequestFor(name, namespace, a), tr);
      var i :| i in issued && SameTokenRequest(i.request, RequestFor(name, namespace, a)) && i.tr == tr;
    }
  }

  lemma StaysTokenFor(issued: set<Issue>, issued': set<Issue>, q: Request, status: TokenStatus)
    requires IsTokenFor(issued, q, status) && issued <= issued'
    ensures IsTokenFor(issued', q, status)
  {
    var tr: TokenRequest :| tr.status == status && HasIssue(issued, q, tr);
    var i :| i in issued && SameTokenRequest(i.request, q) && i.tr == tr;
    assert i in issued';
  }

  lemma CoversMore(issued: set<Issue>, issued': set<Issue>, name: string, namespace: string, audiences: seq<string>,
                   outputs: map<string, TokenStatus>, audience: string, tr: TokenRequest)
    requires Covers(issued, name, namespace, audiences, outputs) && issued <= issued'
    requires HasIssue(issued', RequestFor(name, namespace, audience), tr)
    ensures Covers(issued', name, namespace, audiences + [audience], outputs[audience := tr.status])
  {
    var outputs' := outputs[audience := tr.status];
    forall a | a in outputs' ensures IsTokenFor(issued', RequestFor(name, namespace, a), outputs'[a]) {
      if a != audience {
        StaysTokenFor(issued, issued', RequestFor(name, namespace, a), outputs[a]);
      }
    }
  }
}
