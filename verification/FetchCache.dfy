/** The client's cache of GET requests (`authFetchCached`, `invalidateAuthCache`). Requests are numbered in the order
    they start, and a value is identified with the request that fetched it. Script code runs in atomic turns: a call,
    the `then` that fills the cache, the `finally` that ends a request, an invalidation. */
module FetchCache {
  import opened Sequences

  type Time = int

  datatype Entry = Entry(expiresAt: Time, value: nat)

  type Cache = map<string, Entry>
  type InFlight = map<string, nat>

  /** What a call returns: a stored value, the promise of a running request, or that of a new one. */
  datatype Answer = Stored(value: nat) | Joined(request: nat) | Started(request: nat)

  function Number(answer: Answer): nat {
    match answer
    case Stored(value) => value
    case Joined(request) => request
    case Started(request) => request
  }

  function Reply(cache: Cache, inFlight: InFlight, key: string, now: Time, bypass: bool, next: nat): Answer {
    if !bypass && key in cache && cache[key].expiresAt > now then Stored(cache[key].value)
    else if !bypass && key in inFlight then Joined(inFlight[key])
    else Started(next)
  }

  /** `key.includes(prefix)` */
  predicate Includes(key: string, prefix: string) {
    exists i :: 0 <= i <= |key| && prefix <= key[i..]
  }

  /** Without a prefix, or with an empty one, everything goes. */
  predicate Matches(key: string, prefix: Option<string>) {
    prefix.None? || prefix.value == "" || Includes(key, prefix.value)
  }

  function Surviving<T>(m: map<string, T>, prefix: Option<string>): map<string, T> {
    map k <- m | !Matches(k, prefix) :: m[k]
  }

  class AuthCache {
    var authCache: Cache
    var authInFlight: InFlight

    /** A GET; `request` is the number of the request that the call makes if it makes one. */
    method AuthFetchCached(path: string, customKey: Option<string>, ttlMs: Option<int>, bypass: bool, now: Time, request: nat)
      returns (answer: Answer, key: string, ttl: int)
      modifies this
      ensures key == KeyOf(path, customKey) && ttl == (if ttlMs.Some? then ttlMs.value else 15000)
      ensures answer == Reply(old(authCache), old(authInFlight), key, now, bypass, request)
      ensures authCache == old(authCache)
      ensures authInFlight == if answer.Started? then old(authInFlight)[key := request] else old(authInFlight)
    {
      key := KeyOf(path, customKey);
      ttl := if ttlMs.Some? then ttlMs.value else 15000;
      if !bypass {
        if key in authCache && authCache[key].expiresAt > now {
          answer := Stored(authCache[key].value);
          return;
        }
        if key in authInFlight {
          answer := Joined(authInFlight[key]);
          return;
        }
      }
      authInFlight := authInFlight[key := request];
      answer := Started(request);
    }

    /** The `then` of a request. */
    method Fill(key: string, start: Time, ttl: int, request: nat)
      modifies this
      ensures authCache == old(authCache)[key := Entry(start + ttl, request)] && authInFlight == old(authInFlight)
    {
      authCache := authCache[key := Entry(start + ttl, request)];
    }

    /** The `finally` of a request. */
    method Clear(key: string)
      modifies this
      ensures authCache == old(authCache) && authInFlight == old(authInFlight) - {key}
    {
      authInFlight := authInFlight - {key};
    }

    method InvalidateAuthCache(prefix: Option<string>)
      modifies this
      ensures authCache == Surviving(old(authCache), prefix) && authInFlight == Surviving(old(authInFlight), prefix)
    {
      if prefix.None? || prefix.value == "" {
        authCache, authInFlight := map[], map[];
        return;
      }
      authCache := Delete(authCache, prefix.value);
      authInFlight := Delete(authInFlight, prefix.value);
    }
  }

  function KeyOf(path: string, customKey: Option<string>): string {
    if customKey.Some? && customKey.value != "" then customKey.value else "GET:" + path
  }

  /** The loop over a map's keys. */
  method Delete<T>(m: map<string, T>, prefix: string) returns (left: map<string, T>)
    ensures left == map k <- m | !Includes(k, prefix) :: m[k]
  {
    left := m;
    var keys := m.Keys;
    while keys != {}
      invariant keys <= m.Keys && left.Keys <= m.Keys
      invariant forall k <- left :: left[k] == m[k]
      invariant forall k <- m :: k in left <==> k in keys || !Includes(k, prefix)
      decreases |keys|
    {
      var key :| key in keys;
      keys := keys - {key};
      if Includes(key, prefix) {
        left := left - {key};
      }
    }
  }

  // ---------------------------------------------------------------- whole runs

  datatype Status = Pending | Filled | Over

  datatype Request = Request(key: string, start: Time, ttl: int, status: Status)

  datatype World = World(cache: Cache, inFlight: InFlight, requests: seq<Request>, clock: Time)

  datatype Event =
    | Fetch(key: string, now: Time, ttl: int, bypass: bool)
    | Fill(request: nat)
    | Clear(request: nat)
    | Invalidate(prefix: Option<string>)

  const Initial := World(map[], map[], [], 0)

  /** The clock does not run backwards; a request is filled once, if it succeeds, and then ends. */
  predicate Possible(w: World, e: Event) {
    match e
    case Fetch(_, now, _, _) => now >= w.clock
    case Fill(r) => r < |w.requests| && w.requests[r].status == Pending
    case Clear(r) => r < |w.requests| && w.requests[r].status != Over
    case Invalidate(_) => true
  }

  function Answered(w: World, e: Event): Answer
    requires e.Fetch?
  {
    Reply(w.cache, w.inFlight, e.key, e.now, e.bypass, |w.requests|)
  }

  function Next(w: World, e: Event): World
    requires Possible(w, e)
  {
    match e
    case Fetch(key, now, ttl, bypass) =>
      if Answered(w, e).Started?
      then World(w.cache, w.inFlight[key := |w.requests|], w.requests + [Request(key, now, ttl, Pending)], now)
      else w.(clock := now)
    case Fill(r) =>
      var q := w.requests[r];
      w.(cache := w.cache[q.key := Entry(q.start + q.ttl, r)], requests := w.requests[r := q.(status := Filled)])
    case Clear(r) =>
      var q := w.requests[r];
      w.(inFlight := w.inFlight - {q.key}, requests := w.requests[r := q.(status := Over)])
    case Invalidate(prefix) => w.(cache := Surviving(w.cache, prefix), inFlight := Surviving(w.inFlight, prefix))
  }

  ghost predicate PossibleRun(w: World, run: seq<Event>)
    decreases |run|
  {
    run == [] || (PossibleRun(w, run[..|run| - 1]) && Possible(After(w, run[..|run| - 1]), run[|run| - 1]))
  }

  ghost function After(w: World, run: seq<Event>): World
    decreases |run|
  {
    if run == [] then w
    else
      var before := After(w, run[..|run| - 1]);
      if Possible(before, run[|run| - 1]) then Next(before, run[|run| - 1]) else before
  }

  /** Every stored value was fetched for its key and expires its request's ttl after that request's start; every
      promise kept for a key belongs to a request of that key that is not over. */
  ghost predicate Inv(w: World) {
    && (forall k <- w.cache :: w.cache[k].value < |w.requests|
          && w.requests[w.cache[k].value].key == k && w.requests[w.cache[k].value].status != Pending
          && w.cache[k].expiresAt == w.requests[w.cache[k].value].start + w.requests[w.cache[k].value].ttl)
    && (forall k <- w.inFlight :: w.inFlight[k] < |w.requests|
          && w.requests[w.inFlight[k]].key == k && w.requests[w.inFlight[k]].status != Over)
    && (forall q <- w.requests :: q.start <= w.clock)
  }

  lemma StepKeepsInv(w: World, e: Event)
    requires Inv(w) && Possible(w, e)
    ensures Inv(Next(w, e)) && |Next(w, e).requests| >= |w.requests| && Next(w, e).clock >= w.clock
  {
  }

  lemma {:induction false} RunKeepsInv(w: World, run: seq<Event>)
    requires Inv(w) && PossibleRun(w, run)
    ensures Inv(After(w, run)) && |After(w, run).requests| >= |w.requests| && After(w, run).clock >= w.clock
    decreases |run|
  {
    if run != [] {
      RunKeepsInv(w, run[..|run| - 1]);
      StepKeepsInv(After(w, run[..|run| - 1]), run[|run| - 1]);
    }
  }

  /** In every run: a value served from the cache was requested for this key, not in the future, and less than the
      filling request's ttl ago, counted from that request's start. */
  lemma ServedIsFresh(run: seq<Event>, e: Event)
    requires PossibleRun(Initial, run) && Possible(After(Initial, run), e) && e.Fetch?
    requires Answered(After(Initial, run), e).Stored?
    ensures var w, r := After(Initial, run), Answered(After(Initial, run), e).value;
      r < |w.requests| && w.requests[r].key == e.key && w.requests[r].start <= e.now < w.requests[r].start + w.requests[r].ttl
  {
    RunKeepsInv(Initial, run);
    var w := After(Initial, run);
    assert w.requests[w.cache[e.key].value] in w.requests;
  }

  // ---------------------------------------------------------------- one request per key

  predicate Outstanding(w: World, r: int) {
    0 <= r < |w.requests| && w.requests[r].status != Over
  }

  predicate OutstandingFor(w: World, key: string, r: int) {
    Outstanding(w, r) && w.requests[r].key == key
  }

  /** Every outstanding request is the one that callers of its key join. */
  ghost predicate Tidy(w: World) {
    forall r, key :: OutstandingFor(w, key, r) ==> key in w.inFlight && w.inFlight[key] == r
  }

  ghost predicate Busy(w: World, key: string) {
    exists r :: OutstandingFor(w, key, r)
  }

  /** A call that bypasses, or an invalidation, while a request of a key it concerns is outstanding. */
  ghost predicate Disturbs(w: World, e: Event) {
    match e
    case Fetch(key, _, _, bypass) => bypass && Busy(w, key)
    case Invalidate(prefix) => exists key :: Matches(key, prefix) && Busy(w, key)
    case _ => false
  }

  lemma TidyFetch(w: World, e: Event)
    requires Inv(w) && Tidy(w) && Possible(w, e) && e.Fetch?
    ensures Tidy(Next(w, e)) <==> !Disturbs(w, e)
  {
    var n := Next(w, e);
    if Answered(w, e).Started? {
      assert OutstandingFor(n, e.key, |w.requests|);
      forall r, key
        ensures OutstandingFor(n, key, r) <==> OutstandingFor(w, key, r) || (r == |w.requests| && key == e.key)
      {
      }
    } else {
      forall r, key
        ensures OutstandingFor(n, key, r) <==> OutstandingFor(w, key, r)
      {
      }
    }
  }

  lemma TidySettle(w: World, e: Event)
    requires Inv(w) && Tidy(w) && Possible(w, e) && (e.Fill? || e.Clear?)
    ensures Tidy(Next(w, e))
  {
    forall s, key
      ensures OutstandingFor(Next(w, e), key, s) <==> OutstandingFor(w, key, s) && !(e.Clear? && e.request == s)
    {
    }
    if e.Clear? {
      assert OutstandingFor(w, w.requests[e.request].key, e.request);
    }
  }

  lemma TidyInvalidate(w: World, e: Event)
    requires Inv(w) && Tidy(w) && e.Invalidate?
    ensures Tidy(Next(w, e)) <==> !Disturbs(w, e)
  {
    var n := Next(w, e);
    forall r, key
      ensures OutstandingFor(n, key, r) <==> OutstandingFor(w, key, r)
    {
    }
    if Disturbs(w, e) {
      var key :| Matches(key, e.prefix) && Busy(w, key);
      var r :| OutstandingFor(w, key, r);
      assert OutstandingFor(n, key, r) && key !in n.inFlight;
    } else {
      forall r, key | OutstandingFor(n, key, r)
        ensures key in n.inFlight && n.inFlight[key] == r
      {
        assert OutstandingFor(w, key, r) && Busy(w, key);
      }
    }
  }

  lemma TidyStep(w: World, e: Event)
    requires Inv(w) && Tidy(w) && Possible(w, e)
    ensures Tidy(Next(w, e)) <==> !Disturbs(w, e)
  {
    match e
    case Fetch(_, _, _, _) => TidyFetch(w, e);
    case Fill(_) => TidySettle(w, e);
    case Clear(_) => TidySettle(w, e);
    case Invalidate(_) => TidyInvalidate(w, e);
  }

  ghost predicate Undisturbed(run: seq<Event>)
    decreases |run|
  {
    run == [] || (Undisturbed(run[..|run| - 1]) && !Disturbs(After(Initial, run[..|run| - 1]), run[|run| - 1]))
  }

  ghost predicate AlwaysTidy(run: seq<Event>)
    decreases |run|
  {
    Tidy(After(Initial, run)) && (run == [] || AlwaysTidy(run[..|run| - 1]))
  }

  /** All along a run callers join the one outstanding request of their key exactly when nobody bypasses or
      invalidates a key whose request is outstanding. */
  lemma {:induction false} TidyExactly(run: seq<Event>)
    requires PossibleRun(Initial, run)
    ensures AlwaysTidy(run) <==> Undisturbed(run)
    decreases |run|
  {
    if run != [] {
      TidyExactly(run[..|run| - 1]);
      RunKeepsInv(Initial, run[..|run| - 1]);
      if Undisturbed(run[..|run| - 1]) {
        AlwaysTidyNow(run[..|run| - 1]);
        TidyStep(After(Initial, run[..|run| - 1]), run[|run| - 1]);
      }
    }
  }

  lemma AlwaysTidyNow(run: seq<Event>)
    requires AlwaysTidy(run)
    ensures Tidy(After(Initial, run))
  {
  }

  /** Then at most one request per key is outstanding, and a call for its key that does not bypass makes no other: it
      joins that request or is served from the cache. */
  lemma OneRequestPerKey(run: seq<Event>, key: string, r: nat)
    requires PossibleRun(Initial, run) && Undisturbed(run) && OutstandingFor(After(Initial, run), key, r)
    ensures forall s :: OutstandingFor(After(Initial, run), key, s) ==> s == r
    ensures forall e: Event :: e.Fetch? && e.key == key && !e.bypass ==>
      Answered(After(Initial, run), e) == Joined(r) || Answered(After(Initial, run), e).Stored?
  {
    TidyExactly(run);
    AlwaysTidyNow(run);
  }

  /** After a disturbance one plain call is enough for two requests of one key to be outstanding. */
  lemma DisturbanceDuplicates(w: World, e: Event) returns (key: string, r: nat, s: nat)
    requires Inv(w) && Possible(w, e) && Disturbs(w, e)
    ensures var n := Next(w, e);
      Possible(n, Fetch(key, n.clock, 0, false)) && r != s
      && OutstandingFor(Next(n, Fetch(key, n.clock, 0, false)), key, r)
      && OutstandingFor(Next(n, Fetch(key, n.clock, 0, false)), key, s)
  {
    if e.Fetch? {
      key := e.key;
    } else {
      key :| Matches(key, e.prefix) && Busy(w, key);
    }
    var q :| OutstandingFor(w, key, q);
    r, s := q, |w.requests|;
  }

  // ---------------------------------------------------------------- after an invalidation

  /** No call for `key` is ever answered from a request that started before the invalidation. */
  ghost predicate NeverStale(w: World, prefix: Option<string>, key: string) {
    forall more: seq<Event>, e: Event ::
      PossibleRun(Next(w, Invalidate(prefix)), more) && e.Fetch? && e.key == key
      && Possible(After(Next(w, Invalidate(prefix)), more), e)
      ==> Number(Answered(After(Next(w, Invalidate(prefix)), more), e)) >= |w.requests|
  }

  /** A request that has yet to deliver a value that would not have expired by now. */
  predicate Late(w: World, key: string, r: int) {
    0 <= r < |w.requests| && w.requests[r].key == key && w.requests[r].status == Pending
    && w.requests[r].start + w.requests[r].ttl > w.clock
  }

  /** `w` n requests and some time after an invalidation of `key` at `since`. */
  ghost predicate Renewed(w: World, key: string, n: nat, since: Time) {
    && n <= |w.requests| && since <= w.clock
    && (key in w.cache ==> w.cache[key].value >= n || w.cache[key].expiresAt <= since)
    && (key in w.inFlight ==> w.inFlight[key] >= n)
    && forall r :: 0 <= r < n && w.requests[r].key == key && w.requests[r].status == Pending ==>
         w.requests[r].start + w.requests[r].ttl <= since
  }

  lemma {:induction false} StaysRenewed(w: World, run: seq<Event>, key: string, n: nat, since: Time)
    requires Renewed(w, key, n, since) && PossibleRun(w, run)
    ensures Renewed(After(w, run), key, n, since)
    decreases |run|
  {
    if run != [] {
      StaysRenewed(w, run[..|run| - 1], key, n, since);
      RenewedStep(After(w, run[..|run| - 1]), run[|run| - 1], key, n, since);
    }
  }

  lemma RenewedStep(w: World, e: Event, key: string, n: nat, since: Time)
    requires Renewed(w, key, n, since) && Possible(w, e)
    ensures Renewed(Next(w, e), key, n, since)
  {
  }

  /** An invalidation keeps its promise for a key exactly when no request of the key is still to deliver a value
      that has not yet expired: such a request puts what it fetched before the invalidation back into the cache. */
  lemma NeverStaleExactly(w: World, prefix: Option<string>, key: string)
    requires Inv(w) && Matches(key, prefix)
    ensures NeverStale(w, prefix, key) <==> forall r :: !Late(w, key, r)
  {
    var n := Next(w, Invalidate(prefix));
    if r :| Late(w, key, r) {
      var more := [Fill(r)];
      var e := Fetch(key, w.clock, 0, false);
      assert more[..0] == [] && PossibleRun(n, []) && After(n, []) == n;
      assert PossibleRun(n, more) && After(n, more) == Next(n, Fill(r));
      assert Answered(After(n, more), e) == Stored(r);
    } else {
      assert Renewed(n, key, |w.requests|, w.clock) by {
        forall r | 0 <= r < |w.requests| && w.requests[r].key == key && w.requests[r].status == Pending
          ensures w.requests[r].start + w.requests[r].ttl <= w.clock
        {
          assert !Late(w, key, r);
        }
      }
      forall more: seq<Event>, e: Event | PossibleRun(n, more) && e.Fetch? && e.key == key && Possible(After(n, more), e)
        ensures Number(Answered(After(n, more), e)) >= |w.requests|
      {
        StaysRenewed(n, more, key, |w.requests|, w.clock);
      }
    }
  }
}
