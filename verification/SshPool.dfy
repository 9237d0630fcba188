/** The SSH connection pool: one bucket of connections per target, its lock-protected methods, and every
    interleaving of the steps that callers and `Close` take. */
module SshPool {

  import opened Sequences

  type Client = nat
  type LeaseId = nat

  datatype Config = Config(maxOpen: int, maxIdle: int, idleTTL: int) {
    /** The checks of `NewSSHPool`. */
    predicate Valid() {
      0 < maxOpen && 0 <= maxIdle <= maxOpen && 0 < idleTTL
    }
  }

  datatype IdleClient = IdleClient(client: Client, released: int)

  datatype Lease = Lease(id: LeaseId, client: Client)

  /** The fields of a bucket, followed by what its callers hold: the leases not yet finished and the
      reservations of dials in progress. The last two fields are the clients ever dialled and the
      calls of `client.Close()` in order. */
  datatype Bucket = Bucket(open: int, idle: seq<IdleClient>, closed: bool,
                           live: seq<Lease>, dials: nat, dialled: set<Client>, hungUp: seq<Client>)

  const EMPTY := Bucket(0, [], false, [], 0, {}, [])

  function IdleClients(idle: seq<IdleClient>): seq<Client> {
    seq(|idle|, i requires 0 <= i < |idle| => idle[i].client)
  }

  function LeasedClients(live: seq<Lease>): seq<Client> {
    seq(|live|, i requires 0 <= i < |live| => live[i].client)
  }

  /** `if bucket.open > 0 { bucket.open-- }` */
  function Clamped(open: int): int {
    if open > 0 then open - 1 else open
  }

  // ---------------------------------------------------------------- what each method does to a bucket

  predicate Expired(cfg: Config, item: IdleClient, now: int) {
    now - item.released > cfg.idleTTL
  }

  function Alive(cfg: Config, idle: seq<IdleClient>, now: int): seq<IdleClient> {
    if idle == [] then []
    else
      var n := |idle| - 1;
      Alive(cfg, idle[..n], now) + if Expired(cfg, idle[n], now) then [] else [idle[n]]
  }

  function Stale(cfg: Config, idle: seq<IdleClient>, now: int): seq<IdleClient> {
    if idle == [] then []
    else
      var n := |idle| - 1;
      Stale(cfg, idle[..n], now) + if Expired(cfg, idle[n], now) then [idle[n]] else []
  }

  /** One more item of the pruning loop. */
  lemma PruneNext(cfg: Config, idle: seq<IdleClient>, i: nat, now: int)
    requires i < |idle|
    ensures Alive(cfg, idle[..i + 1], now) == Alive(cfg, idle[..i], now) + if Expired(cfg, idle[i], now) then [] else [idle[i]]
    ensures |Stale(cfg, idle[..i + 1], now)| == |Stale(cfg, idle[..i], now)| + if Expired(cfg, idle[i], now) then 1 else 0
    ensures IdleClients(Stale(cfg, idle[..i + 1], now))
         == IdleClients(Stale(cfg, idle[..i], now)) + if Expired(cfg, idle[i], now) then [idle[i].client] else []
  {
    assert idle[..i + 1][..i] == idle[..i];
  }

  function ClampedTimes(open: int, n: nat): int {
    if n == 0 then open else Clamped(ClampedTimes(open, n - 1))
  }

  function Pruned(cfg: Config, b: Bucket, now: int): Bucket {
    b.(idle := Alive(cfg, b.idle, now),
       open := ClampedTimes(b.open, |Stale(cfg, b.idle, now)|),
       hungUp := b.hungUp + IdleClients(Stale(cfg, b.idle, now)))
  }

  /** The client that `tryAcquireIdle` would hand out, the one released last. */
  function IdleChoice(cfg: Config, b: Bucket, now: int): Option<Client> {
    var alive := Alive(cfg, b.idle, now);
    if b.closed || alive == [] then None else Some(alive[|alive| - 1].client)
  }

  function AfterTryAcquireIdle(cfg: Config, b: Bucket, now: int, id: LeaseId): Bucket {
    if b.closed then b else
    var p := Pruned(cfg, b, now);
    if p.idle == [] then p else
    p.(idle := p.idle[..|p.idle| - 1], live := p.live + [Lease(id, p.idle[|p.idle| - 1].client)])
  }

  predicate CanReserve(cfg: Config, b: Bucket) {
    !b.closed && b.open < cfg.maxOpen
  }

  function AfterTryReserveOpen(cfg: Config, b: Bucket): Bucket {
    if CanReserve(cfg, b) then b.(open := b.open + 1, dials := b.dials + 1) else b
  }

  function AfterReleaseReservedOpen(b: Bucket): Bucket
    requires b.dials > 0
  {
    b.(open := Clamped(b.open), dials := b.dials - 1)
  }

  /** A successful dial needs no lock: its reservation becomes a lease. */
  function AfterDial(b: Bucket, client: Client, id: LeaseId): Bucket
    requires b.dials > 0
  {
    b.(dials := b.dials - 1, dialled := b.dialled + {client}, live := b.live + [Lease(id, client)])
  }

  /** The position of a lease that is still to be finished. */
  function Position(live: seq<Lease>, id: LeaseId): (i: nat)
    ensures i <= |live|
    ensures i < |live| ==> live[i].id == id
    ensures i == |live| ==> forall k :: 0 <= k < |live| ==> live[k].id != id
  {
    if live == [] || live[0].id == id then 0 else 1 + Position(live[1..], id)
  }

  predicate IsLive(b: Bucket, id: LeaseId) {
    Position(b.live, id) < |b.live|
  }

  function WithoutLease(live: seq<Lease>, i: nat): seq<Lease>
    requires i < |live|
  {
    live[..i] + live[i + 1..]
  }

  /** `Release` or `Discard` of a lease; a lease that was finished before is left alone (`sync.Once`). */
  function AfterFinish(cfg: Config, b: Bucket, id: LeaseId, broken: bool, poolClosed: bool, now: int): Bucket {
    if !IsLive(b, id) then b else
    var i := Position(b.live, id);
    var client := b.live[i].client;
    var r := b.(live := WithoutLease(b.live, i));
    if broken || b.closed || poolClosed || cfg.maxIdle == 0 || |b.idle| >= cfg.maxIdle
    then r.(open := Clamped(b.open), hungUp := b.hungUp + [client])
    else r.(idle := b.idle + [IdleClient(client, now)])
  }

  function AfterCloseBucket(b: Bucket): Bucket {
    b.(closed := true, open := b.open - |b.idle|, idle := [], hungUp := b.hungUp + IdleClients(b.idle))
  }

  // ---------------------------------------------------------------- the methods

  class SshPoolBucket {
    var closed: bool
    var open: int
    // The slice `bucket.idle`: the first `count` elements of `items`.
    var items: array<IdleClient>
    var count: nat
    var hungUp: seq<Client>
    ghost var live: seq<Lease>
    ghost var dials: nat
    ghost var dialled: set<Client>

    ghost predicate Valid()
      reads this
    {
      count <= items.Length
    }

    ghost function State(): Bucket
      requires Valid()
      reads this, items
    {
      Bucket(open, items[..count], closed, live, dials, dialled, hungUp)
    }

    constructor ()
      ensures Valid() && fresh(items) && State() == EMPTY
    {
      closed, open, count, hungUp, live, dials, dialled := false, 0, 0, [], [], 0, {};
      items := new IdleClient[0];
    }

    /** One turn of the pruning loop: the item at `i` is closed and counted out, or moved to the place `alive`. */
    method PruneItem(cfg: Config, now: int, i: nat, alive: nat) returns (kept: bool)
      requires alive <= i < count && Valid()
      modifies this`open, this`hungUp, items
      ensures kept <==> !Expired(cfg, old(items[i]), now)
      ensures items[alive] == if kept then old(items[i]) else old(items[alive])
      ensures forall k :: 0 <= k < count && k != alive ==> items[k] == old(items[k])
      ensures open == if kept then old(open) else Clamped(old(open))
      ensures hungUp == old(hungUp) + if kept then [] else [old(items[i]).client]
    {
      var item := items[i];
      kept := now - item.released <= cfg.idleTTL;
      if kept {
        items[alive] := item;
        return;
      }
      if open > 0 {
        open := open - 1;
      }
      hungUp := hungUp + [item.client];
    }

    method PruneIdleLocked(cfg: Config, now: int)
      requires Valid()
      modifies this, items
      ensures Valid() && items == old(items) && State() == Pruned(cfg, old(State()), now)
    {
      ghost var was := items[..count];
      var n, alive := count, 0;
      for i := 0 to n
        invariant 0 <= alive <= i && n == count <= items.Length && items == old(items)
        invariant forall k :: i <= k < n ==> items[k] == was[k]
        invariant items[..alive] == Alive(cfg, was[..i], now)
        invariant open == ClampedTimes(old(open), |Stale(cfg, was[..i], now)|)
        invariant hungUp == old(hungUp) + IdleClients(Stale(cfg, was[..i], now))
        invariant closed == old(closed) && live == old(live) && dials == old(dials) && dialled == old(dialled)
      {
        PruneNext(cfg, was, i, now);
        ghost var before := items[..alive];
        var kept := PruneItem(cfg, now, i, alive);
        assert items[..alive] == before;
        if kept {
          alive := alive + 1;
        }
      }
      assert was[..n] == was;
      count := alive;
    }

    method TryAcquireIdle(cfg: Config, now: int, ghost id: LeaseId) returns (client: Option<Client>)
      requires Valid()
      modifies this, items
      ensures Valid() && items == old(items)
      ensures State() == AfterTryAcquireIdle(cfg, old(State()), now, id)
      ensures client == IdleChoice(cfg, old(State()), now)
    {
      if closed {
        return None;
      }
      PruneIdleLocked(cfg, now);
      ghost var pruned := State();
      if count > 0 {
        var item := items[count - 1];
        count := count - 1;
        live := live + [Lease(id, item.client)];
        assert items[..count] == pruned.idle[..|pruned.idle| - 1];
        return Some(item.client);
      }
      return None;
    }

    method TryReserveOpen(cfg: Config) returns (ok: bool)
      requires Valid()
      modifies this
      ensures Valid() && items == old(items)
      ensures State() == AfterTryReserveOpen(cfg, old(State())) && ok == CanReserve(cfg, old(State()))
    {
      if closed || open >= cfg.maxOpen {
        return false;
      }
      open := open + 1;
      dials := dials + 1;
      return true;
    }

    method ReleaseReservedOpen()
      requires Valid() && dials > 0
      modifies this
      ensures Valid() && items == old(items) && State() == AfterReleaseReservedOpen(old(State()))
    {
      if open > 0 {
        open := open - 1;
      }
      dials := dials - 1;
    }

    /** The body that `sync.Once` runs for a lease on `client`. */
    method Release(cfg: Config, client: Client, ghost id: LeaseId, broken: bool, poolClosed: bool, now: int)
      requires Valid() && IsLive(State(), id) && live[Position(live, id)].client == client
      modifies this, items
      ensures Valid() && (items == old(items) || fresh(items))
      ensures State() == AfterFinish(cfg, old(State()), id, broken, poolClosed, now)
    {
      live := WithoutLease(live, Position(live, id));
      if broken || closed || poolClosed || cfg.maxIdle == 0 || count >= cfg.maxIdle {
        if open > 0 {
          open := open - 1;
        }
        hungUp := hungUp + [client];
        return;
      }
      Append(IdleClient(client, now));
    }

    /** Go's `append`: in place while there is capacity, into a new array otherwise. */
    method Append(item: IdleClient)
      requires Valid()
      modifies this`items, this`count, items
      ensures Valid() && (items == old(items) || fresh(items))
      ensures items[..count] == old(items[..count]) + [item]
    {
      if count == items.Length {
        var grown := new IdleClient[2 * count + 1](_ => item);
        for i := 0 to count
          invariant unchanged(this) && unchanged(items) && forall k :: 0 <= k < i ==> grown[k] == items[k]
        {
          grown[i] := items[i];
        }
        items := grown;
      }
      items[count] := item;
      count := count + 1;
    }

    method CloseBucket()
      requires Valid()
      modifies this
      ensures Valid() && items == old(items) && State() == AfterCloseBucket(old(State()))
    {
      closed := true;
      ghost var start := hungUp;
      for i := 0 to count
        invariant closed && Valid() && unchanged(`items) && unchanged(`count) && unchanged(`open)
        invariant unchanged(`live) && unchanged(`dials) && unchanged(`dialled)
        invariant hungUp == start + IdleClients(items[..i])
      {
        assert IdleClients(items[..i + 1]) == IdleClients(items[..i]) + [items[i].client];
        hungUp := hungUp + [items[i].client];
      }
      open := open - count;
      count := 0;
    }
  }

  // ---------------------------------------------------------------- what a bucket keeps

  /** The number of places a client is in: idle, leased out, or closed. */
  function Places(b: Bucket, c: Client): nat {
    Times(IdleClients(b.idle), c) + Times(LeasedClients(b.live), c) + Times(b.hungUp, c)
  }

  ghost predicate BucketInv(cfg: Config, b: Bucket) {
    && b.open == |b.idle| + |b.live| + b.dials
    && b.open <= cfg.maxOpen && |b.idle| <= cfg.maxIdle
    && (b.closed ==> b.idle == [])
    && (forall c :: Places(b, c) == if c in b.dialled then 1 else 0)
    && (forall i, j :: 0 <= i < j < |b.live| ==> b.live[i].id != b.live[j].id)
  }

  lemma {:induction false} AliveAndStale(cfg: Config, idle: seq<IdleClient>, now: int, c: Client)
    ensures |Alive(cfg, idle, now)| + |Stale(cfg, idle, now)| == |idle|
    ensures Times(IdleClients(Alive(cfg, idle, now)), c) + Times(IdleClients(Stale(cfg, idle, now)), c)
         == Times(IdleClients(idle), c)
  {
    if idle != [] {
      var n := |idle| - 1;
      AliveAndStale(cfg, idle[..n], now, c);
      assert idle == idle[..n] + [idle[n]];
      AppendIdle(idle[..n], idle[n], c);
      AppendIdle(Alive(cfg, idle[..n], now), idle[n], c);
      AppendIdle(Stale(cfg, idle[..n], now), idle[n], c);
      if Expired(cfg, idle[n], now) {
        assert Alive(cfg, idle, now) == Alive(cfg, idle[..n], now);
      } else {
        assert Stale(cfg, idle, now) == Stale(cfg, idle[..n], now);
      }
    }
  }

  lemma {:induction false} ClampedTimesExact(open: int, n: nat)
    requires n <= open
    ensures ClampedTimes(open, n) == open - n
  {
    if n > 0 {
      ClampedTimesExact(open, n - 1);
    }
  }

  lemma PruneKeepsInv(cfg: Config, b: Bucket, now: int)
    requires BucketInv(cfg, b)
    ensures BucketInv(cfg, Pruned(cfg, b, now))
    ensures Pruned(cfg, b, now).open == b.open - |Stale(cfg, b.idle, now)|
  {
    var p := Pruned(cfg, b, now);
    AliveAndStale(cfg, b.idle, now, 0);
    ClampedTimesExact(b.open, |Stale(cfg, b.idle, now)|);
    forall c
      ensures Places(p, c) == Places(b, c)
    {
      AliveAndStale(cfg, b.idle, now, c);
      TimesAppend(b.hungUp, IdleClients(Stale(cfg, b.idle, now)), c);
    }
  }

  lemma AppendIdle(idle: seq<IdleClient>, item: IdleClient, c: Client)
    ensures Times(IdleClients(idle + [item]), c) == Times(IdleClients(idle), c) + Times([item.client], c)
  {
    assert IdleClients(idle + [item]) == IdleClients(idle) + [item.client];
    TimesAppend(IdleClients(idle), [item.client], c);
  }

  lemma AppendLease(live: seq<Lease>, lease: Lease, c: Client)
    ensures Times(LeasedClients(live + [lease]), c) == Times(LeasedClients(live), c) + Times([lease.client], c)
  {
    assert LeasedClients(live + [lease]) == LeasedClients(live) + [lease.client];
    TimesAppend(LeasedClients(live), [lease.client], c);
  }

  lemma RemoveLease(live: seq<Lease>, i: nat, c: Client)
    requires i < |live|
    ensures Times(LeasedClients(live), c) == Times(LeasedClients(WithoutLease(live, i)), c) + Times([live[i].client], c)
  {
    var all := LeasedClients(live);
    assert all == all[..i] + ([live[i].client] + all[i + 1..]);
    assert LeasedClients(WithoutLease(live, i)) == all[..i] + all[i + 1..];
    TimesAppend(all[..i], [live[i].client] + all[i + 1..], c);
    TimesAppend([live[i].client], all[i + 1..], c);
    TimesAppend(all[..i], all[i + 1..], c);
  }

  lemma AcquireIdleKeepsInv(cfg: Config, b: Bucket, now: int, id: LeaseId)
    requires BucketInv(cfg, b) && !IsLive(b, id)
    ensures BucketInv(cfg, AfterTryAcquireIdle(cfg, b, now, id))
  {
    PruneKeepsInv(cfg, b, now);
    var p := Pruned(cfg, b, now);
    if !b.closed && p.idle != [] {
      var rest, last := p.idle[..|p.idle| - 1], p.idle[|p.idle| - 1];
      assert p.idle == rest + [last];
      forall c
        ensures Places(AfterTryAcquireIdle(cfg, b, now, id), c) == Places(p, c)
      {
        AppendIdle(rest, last, c);
        AppendLease(p.live, Lease(id, last.client), c);
      }
    }
  }

  lemma ReserveKeepsInv(cfg: Config, b: Bucket)
    requires BucketInv(cfg, b)
    ensures BucketInv(cfg, AfterTryReserveOpen(cfg, b))
  {
    assert forall c :: Places(AfterTryReserveOpen(cfg, b), c) == Places(b, c);
  }

  lemma DialKeepsInv(cfg: Config, b: Bucket, client: Client, id: LeaseId)
    requires BucketInv(cfg, b) && b.dials > 0 && client !in b.dialled && !IsLive(b, id)
    ensures BucketInv(cfg, AfterDial(b, client, id))
  {
    forall c
      ensures Places(AfterDial(b, client, id), c) == Places(b, c) + if c == client then 1 else 0
    {
      AppendLease(b.live, Lease(id, client), c);
    }
  }

  lemma DialFailureKeepsInv(cfg: Config, b: Bucket)
    requires BucketInv(cfg, b) && b.dials > 0
    ensures BucketInv(cfg, AfterReleaseReservedOpen(b))
  {
    assert forall c :: Places(AfterReleaseReservedOpen(b), c) == Places(b, c);
  }

  lemma FinishKeepsInv(cfg: Config, b: Bucket, id: LeaseId, broken: bool, poolClosed: bool, now: int)
    requires cfg.Valid() && BucketInv(cfg, b)
    ensures BucketInv(cfg, AfterFinish(cfg, b, id, broken, poolClosed, now))
  {
    if IsLive(b, id) {
      var i := Position(b.live, id);
      var client := b.live[i].client;
      forall c
        ensures Places(AfterFinish(cfg, b, id, broken, poolClosed, now), c) == Places(b, c)
      {
        RemoveLease(b.live, i, c);
        AppendIdle(b.idle, IdleClient(client, now), c);
        TimesAppend(b.hungUp, [client], c);
      }
    }
  }

  lemma CloseBucketKeepsInv(cfg: Config, b: Bucket)
    requires cfg.Valid() && BucketInv(cfg, b)
    ensures BucketInv(cfg, AfterCloseBucket(b))
  {
    forall c
      ensures Places(AfterCloseBucket(b), c) == Places(b, c)
    {
      TimesAppend(b.hungUp, IdleClients(b.idle), c);
    }
  }
}
