/** Every interleaving of the pool's lock-protected steps, over all its buckets and while `Close` runs. */
module SshPoolRuns {
  import opened Sequences
  import opened SshPool

  /** `pending` are the buckets that a running `Close` still has to visit; `issued` the leases ever handed out. */
  datatype Pool = Pool(cfg: Config, closed: bool, buckets: map<string, Bucket>, pending: set<string>, issued: set<LeaseId>)

  datatype Action =
    | Lookup(key: string)
    | TakeIdle(key: string, now: int, id: LeaseId)
    | Reserve(key: string)
    | DialSucceeds(key: string, client: Client, id: LeaseId)
    | DialFails(key: string)
    | Finish(key: string, id: LeaseId, broken: bool, now: int)
    | BeginClose
    | VisitBucket(key: string)

  predicate FreshClient(p: Pool, client: Client) {
    forall k <- p.buckets :: client !in p.buckets[k].dialled
  }

  predicate Enabled(p: Pool, a: Action) {
    match a
    case Lookup(_) => !p.closed
    case TakeIdle(key, _, id) => key in p.buckets && id !in p.issued
    case Reserve(key) => key in p.buckets
    case DialSucceeds(key, client, id) =>
      key in p.buckets && p.buckets[key].dials > 0 && FreshClient(p, client) && id !in p.issued
    case DialFails(key) => key in p.buckets && p.buckets[key].dials > 0
    case Finish(key, id, _, _) => key in p.buckets
    case BeginClose => !p.closed
    case VisitBucket(key) => key in p.pending && key in p.buckets
  }

  function Put(p: Pool, key: string, b: Bucket): Pool {
    p.(buckets := p.buckets[key := b])
  }

  function After(p: Pool, a: Action): Pool
    requires Enabled(p, a)
  {
    match a
    case Lookup(key) => if key in p.buckets then p else Put(p, key, EMPTY)
    case TakeIdle(key, now, id) =>
      Put(p, key, AfterTryAcquireIdle(p.cfg, p.buckets[key], now, id)).(issued := p.issued + {id})
    case Reserve(key) => Put(p, key, AfterTryReserveOpen(p.cfg, p.buckets[key]))
    case DialSucceeds(key, client, id) =>
      Put(p, key, AfterDial(p.buckets[key], client, id)).(issued := p.issued + {id})
    case DialFails(key) => Put(p, key, AfterReleaseReservedOpen(p.buckets[key]))
    case Finish(key, id, broken, now) => Put(p, key, AfterFinish(p.cfg, p.buckets[key], id, broken, p.closed, now))
    case BeginClose => p.(closed := true, pending := p.buckets.Keys)
    case VisitBucket(key) => Put(p, key, AfterCloseBucket(p.buckets[key])).(pending := p.pending - {key})
  }

  ghost predicate Issued(p: Pool, b: Bucket) {
    forall i :: 0 <= i < |b.live| ==> b.live[i].id in p.issued
  }

  ghost predicate Inv(p: Pool) {
    && p.cfg.Valid()
    && p.pending <= p.buckets.Keys && (!p.closed ==> p.pending == {})
    && (forall k <- p.buckets :: BucketInv(p.cfg, p.buckets[k]) && Issued(p, p.buckets[k]))
    && (forall k <- p.buckets :: p.buckets[k].closed <==> p.closed && k !in p.pending)
    && (forall k <- p.buckets, m <- p.buckets :: k != m ==> p.buckets[k].dialled !! p.buckets[m].dialled)
  }

  /** The leases that a step leaves live. */
  lemma LiveAfterFinish(cfg: Config, b: Bucket, id: LeaseId, broken: bool, poolClosed: bool, now: int)
    requires BucketInv(cfg, b)
    ensures var r := AfterFinish(cfg, b, id, broken, poolClosed, now);
      && (forall l :: l in r.live <==> l in b.live && l.id != id)
      && r.dials == b.dials && r.dialled == b.dialled && r.closed == b.closed
  {
    var r := AfterFinish(cfg, b, id, broken, poolClosed, now);
    if IsLive(b, id) {
      var i := Position(b.live, id);
      assert r.live == b.live[..i] + b.live[i + 1..];
      forall k | 0 <= k < |r.live|
        ensures r.live[k] in b.live && r.live[k].id != id
      {
        assert r.live[k] == b.live[if k < i then k else k + 1];
      }
      forall l | l in b.live && l.id != id
        ensures l in r.live
      {
        var k :| 0 <= k < |b.live| && b.live[k] == l;
        assert l == if k < i then r.live[k] else r.live[k - 1];
      }
    } else {
      forall l | l in b.live
        ensures l.id != id
      {
        var k :| 0 <= k < |b.live| && b.live[k] == l;
      }
    }
  }

  lemma NotLiveWhenFresh(p: Pool, key: string, id: LeaseId)
    requires Inv(p) && key in p.buckets && id !in p.issued
    ensures !IsLive(p.buckets[key], id)
  {
  }

  lemma PutKeepsInv(p: Pool, key: string, b: Bucket, issued: set<LeaseId>)
    requires Inv(p) && (key in p.buckets || !p.closed) && p.issued <= issued
    requires BucketInv(p.cfg, b) && (b.closed <==> p.closed && key !in p.pending)
    requires forall i :: 0 <= i < |b.live| ==> b.live[i].id in issued
    requires forall m <- p.buckets :: m != key ==> b.dialled !! p.buckets[m].dialled
    ensures Inv(Put(p, key, b).(issued := issued))
  {
  }

  /** The bucket of an action keeps its own invariant. */
  lemma BucketStep(p: Pool, a: Action, key: string)
    requires Inv(p) && Enabled(p, a) && !a.BeginClose? && key == a.key && key in p.buckets
    ensures BucketInv(p.cfg, After(p, a).buckets[key])
  {
    var b := p.buckets[key];
    match a
    case Lookup(_) =>
    case TakeIdle(_, now, id) =>
      NotLiveWhenFresh(p, key, id);
      AcquireIdleKeepsInv(p.cfg, b, now, id);
    case Reserve(_) => ReserveKeepsInv(p.cfg, b);
    case DialSucceeds(_, client, id) =>
      NotLiveWhenFresh(p, key, id);
      DialKeepsInv(p.cfg, b, client, id);
    case DialFails(_) => DialFailureKeepsInv(p.cfg, b);
    case Finish(_, id, broken, now) => FinishKeepsInv(p.cfg, b, id, broken, p.closed, now);
    case VisitBucket(_) => CloseBucketKeepsInv(p.cfg, b);
  }

  /** What an action does to the other fields of its bucket. */
  lemma BucketFrame(p: Pool, a: Action, key: string)
    requires Inv(p) && Enabled(p, a) && !a.BeginClose? && key == a.key && key in p.buckets
    ensures var b, r := p.buckets[key], After(p, a).buckets[key];
      && (r.closed <==> b.closed || a.VisitBucket?)
      && (r.dialled == if a.DialSucceeds? then b.dialled + {a.client} else b.dialled)
      && Issued(After(p, a), r)
  {
    if a.Finish? {
      var b, r := p.buckets[key], After(p, a).buckets[key];
      LiveAfterFinish(p.cfg, b, a.id, a.broken, p.closed, a.now);
      forall i | 0 <= i < |r.live|
        ensures r.live[i].id in p.issued
      {
        assert r.live[i] in b.live;
      }
    }
  }

  lemma StepKeepsInv(p: Pool, a: Action)
    requires Inv(p) && Enabled(p, a)
    ensures Inv(After(p, a))
  {
    if a.Lookup? && a.key !in p.buckets {
      assert BucketInv(p.cfg, EMPTY) by { assert forall c :: Places(EMPTY, c) == 0; }
      PutKeepsInv(p, a.key, EMPTY, p.issued);
    } else if !a.BeginClose? {
      BucketStep(p, a, a.key);
      BucketFrame(p, a, a.key);
      var r := After(p, a).buckets[a.key];
      if !a.VisitBucket? && !a.Lookup? {
        PutKeepsInv(p, a.key, r, After(p, a).issued);
      }
    }
  }

  ghost predicate IsRun(states: seq<Pool>, actions: seq<Action>) {
    && |states| == |actions| + 1
    && forall i :: 0 <= i < |actions| ==> Enabled(states[i], actions[i]) && states[i + 1] == After(states[i], actions[i])
  }

  function NewPool(cfg: Config): Pool {
    Pool(cfg, false, map[], {}, {})
  }

  /** Every state of every run of a newly made pool satisfies the invariant. */
  lemma {:induction false} RunKeepsInv(states: seq<Pool>, actions: seq<Action>, i: nat)
    requires IsRun(states, actions) && i < |states|
    requires states[0].cfg.Valid() && states[0] == NewPool(states[0].cfg)
    ensures Inv(states[i])
  {
    if i > 0 {
      RunKeepsInv(states, actions, i - 1);
      StepKeepsInv(states[i - 1], actions[i - 1]);
    }
  }

  // ---------------------------------------------------------------- consequences

  /** In every reachable state: the counter is exact, the limits hold, and each client ever dialled is in
      exactly one place (idle, in one live lease, or closed once). */
  lemma PoolSafety(states: seq<Pool>, actions: seq<Action>, i: nat, key: string)
    requires IsRun(states, actions) && i < |states|
    requires states[0].cfg.Valid() && states[0] == NewPool(states[0].cfg)
    requires key in states[i].buckets
    ensures var b := states[i].buckets[key];
      && b.open == |b.idle| + |b.live| + b.dials
      && 0 <= b.open <= states[i].cfg.maxOpen && |b.idle| <= states[i].cfg.maxIdle
      && (forall c :: Places(b, c) == if c in b.dialled then 1 else 0)
  {
    RunKeepsInv(states, actions, i);
  }

  /** The guards `if open > 0` never take effect: every step changes the counter by what it opened and closed. */
  lemma CounterNeverClamped(p: Pool, a: Action)
    requires Inv(p) && Enabled(p, a) && !a.BeginClose? && a.key in p.buckets
    ensures var b, r := p.buckets[a.key], After(p, a).buckets[a.key];
      r.open == b.open + (if a.Reserve? && CanReserve(p.cfg, b) then 1 else 0)
                       - (if a.DialFails? then 1 else 0) - (|r.hungUp| - |b.hungUp|)
  {
    if a.TakeIdle? {
      PruneKeepsInv(p.cfg, p.buckets[a.key], a.now);
    }
  }

  /** A client handed out from the idle list was released at most one TTL ago, and every client released
      after it has expired. */
  lemma IdleChoiceIsFresh(cfg: Config, b: Bucket, now: int)
    ensures IdleChoice(cfg, b, now).Some? ==>
      exists i :: 0 <= i < |b.idle| && b.idle[i].client == IdleChoice(cfg, b, now).value
                  && now - b.idle[i].released <= cfg.idleTTL
                  && forall k :: i < k < |b.idle| ==> Expired(cfg, b.idle[k], now)
    ensures IdleChoice(cfg, b, now).None? ==> b.closed || forall k :: 0 <= k < |b.idle| ==> Expired(cfg, b.idle[k], now)
  {
    LastAlive(cfg, b.idle, now);
  }

  lemma {:induction false} LastAlive(cfg: Config, idle: seq<IdleClient>, now: int)
    ensures var alive := Alive(cfg, idle, now);
      if alive == [] then forall k :: 0 <= k < |idle| ==> Expired(cfg, idle[k], now)
      else exists i :: 0 <= i < |idle| && idle[i] == alive[|alive| - 1] && !Expired(cfg, idle[i], now)
                       && forall k :: i < k < |idle| ==> Expired(cfg, idle[k], now)
  {
    if idle != [] {
      var n := |idle| - 1;
      LastAlive(cfg, idle[..n], now);
      if Expired(cfg, idle[n], now) {
        assert Alive(cfg, idle, now) == Alive(cfg, idle[..n], now);
        assert forall k :: 0 <= k < n ==> idle[..n][k] == idle[k];
      }
    }
  }

  /** What still keeps connections of a bucket open once `Close` has visited it. */
  function Outstanding(b: Bucket): nat {
    |b.live| + b.dials
  }

  /** After `Close` visited a bucket no step hands out a lease or starts a dial there, and nothing reopens it. */
  lemma ClosedBucketOnlyDrains(p: Pool, a: Action, key: string)
    requires Inv(p) && Enabled(p, a) && key in p.buckets && p.buckets[key].closed
    ensures key in After(p, a).buckets && After(p, a).buckets[key].closed
    ensures Outstanding(After(p, a).buckets[key]) <= Outstanding(p.buckets[key])
    ensures a.TakeIdle? && a.key == key ==> IdleChoice(p.cfg, p.buckets[key], a.now).None?
    ensures a.Reserve? && a.key == key ==> !CanReserve(p.cfg, p.buckets[key])
  {
  }

  /** Once `Close` has visited every bucket and all leases and dials have ended, nothing is open: the counter
      is zero, the idle list is empty, and every client ever dialled was closed exactly once. */
  lemma ClosedPoolIsDrained(p: Pool, key: string)
    requires Inv(p) && p.closed && p.pending == {} && key in p.buckets && Outstanding(p.buckets[key]) == 0
    ensures var b := p.buckets[key];
      b.open == 0 && b.idle == [] && forall c <- b.dialled :: Times(b.hungUp, c) == 1
  {
    var b := p.buckets[key];
    forall c <- b.dialled
      ensures Times(b.hungUp, c) == 1
    {
      assert Places(b, c) == 1;
    }
  }
}
