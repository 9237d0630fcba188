/** `withSSH`, the pool's one client: any number of concurrent calls, interleaved with one another and with
    `Close`, each step of a call being at most one step of the pool. */
module WithSsh {
  import opened Sequences
  import opened SshPool
  import opened SshPoolRuns

  /** Where a call is. `PollIdle`, `PollReserve`, `Dialling` and `Waiting` are the loop of `Acquire`; the
      two `Unwinding` stages are the deferred `lease2.Release()` and `lease.Release()`. */
  datatype Stage =
    | Looking | PollIdle | PollReserve | Dialling | Waiting | Calling | Discarding | Retrying
    | UnwindingSecond | UnwindingFirst | Done

  /** A call, with the leases of its first and second attempt and the number of times it ran its function. */
  datatype Call = Call(stage: Stage, key: string, second: bool, lease1: Option<Lease>, lease2: Option<Lease>, runs: nat) {
    function Current(): Option<Lease> {
      if second then lease2 else lease1
    }

    function Granted(lease: Lease): Call {
      if second then this.(stage := Calling, lease2 := Some(lease), runs := runs + 1)
      else this.(stage := Calling, lease1 := Some(lease), runs := runs + 1)
    }
  }

  /** `suspects` are the clients on which some call's function met a connection error. */
  datatype System = System(pool: Pool, calls: map<nat, Call>, suspects: set<Client>)

  datatype Move =
    | LookUp
    | Cancelled
    | Poll(now: int, id: LeaseId)
    | TryReserve
    | Connected(client: Client, id: LeaseId)
    | ConnectFailed
    | Woken
    | Returned(connectionError: bool)
    | Discard(now: int)
    | Retry
    | UnwindSecond(now: int)
    | UnwindFirst(now: int)

  datatype Event = Enter(c: nat, key: string) | Step(c: nat, move: Move) | Close | CloseVisits(key: string)

  function FinishLease(key: string, lease: Option<Lease>, broken: bool, now: int): Option<Action> {
    if lease.Some? then Some(Finish(key, lease.value.id, broken, now)) else None
  }

  /** The pool step that a move takes, if any. */
  function PoolAction(p: Pool, k: Call, m: Move): Option<Action> {
    match m
    case LookUp => if p.closed then None else Some(Lookup(k.key))
    case Poll(now, id) => Some(TakeIdle(k.key, now, id))
    case TryReserve => Some(Reserve(k.key))
    case Connected(client, id) => Some(DialSucceeds(k.key, client, id))
    case ConnectFailed => Some(DialFails(k.key))
    case Discard(now) => FinishLease(k.key, k.Current(), true, now)
    case UnwindSecond(now) => FinishLease(k.key, k.lease2, false, now)
    case UnwindFirst(now) => FinishLease(k.key, k.lease1, false, now)
    case _ => None
  }

  predicate StageAllows(k: Call, m: Move) {
    match m
    case LookUp => k.stage.Looking?
    case Cancelled => k.stage.PollIdle? || k.stage.Waiting? || k.stage.Retrying?
    case Poll(_, _) => k.stage.PollIdle?
    case TryReserve => k.stage.PollReserve?
    case Connected(_, _) => k.stage.Dialling?
    case ConnectFailed => k.stage.Dialling?
    case Woken => k.stage.Waiting?
    case Returned(_) => k.stage.Calling?
    case Discard(_) => k.stage.Discarding?
    case Retry => k.stage.Retrying?
    case UnwindSecond(_) => k.stage.UnwindingSecond?
    case UnwindFirst(_) => k.stage.UnwindingFirst?
  }

  predicate CanMove(p: Pool, k: Call, m: Move) {
    StageAllows(k, m) && (PoolAction(p, k, m).Some? ==> Enabled(p, PoolAction(p, k, m).value))
  }

  /** The lease that a move obtains, if any. */
  function Obtained(p: Pool, k: Call, m: Move): Option<Lease>
    requires CanMove(p, k, m)
  {
    match m
    case Poll(now, id) =>
      var client := IdleChoice(p.cfg, p.buckets[k.key], now);
      if client.Some? then Some(Lease(id, client.value)) else None
    case Connected(client, id) => Some(Lease(id, client))
    case _ => None
  }

  function NextCall(p: Pool, k: Call, m: Move): Call
    requires CanMove(p, k, m)
  {
    match m
    case LookUp => k.(stage := if p.closed then UnwindingSecond else PollIdle)
    case Cancelled => k.(stage := UnwindingSecond)
    case Poll(_, _) =>
      var lease := Obtained(p, k, m);
      if lease.Some? then k.Granted(lease.value) else k.(stage := PollReserve)
    case TryReserve => k.(stage := if CanReserve(p.cfg, p.buckets[k.key]) then Dialling else Waiting)
    case Connected(client, id) => k.Granted(Lease(id, client))
    case ConnectFailed => k.(stage := UnwindingSecond)
    case Woken => k.(stage := PollIdle)
    case Returned(connectionError) => k.(stage := if connectionError then Discarding else UnwindingSecond)
    case Discard(_) => k.(stage := if k.second then UnwindingSecond else Retrying)
    case Retry => k.(stage := Looking, second := true)
    case UnwindSecond(_) => k.(stage := UnwindingFirst)
    case UnwindFirst(_) => k.(stage := Done)
  }

  function NextPool(p: Pool, k: Call, m: Move): Pool
    requires CanMove(p, k, m)
  {
    if PoolAction(p, k, m).Some? then After(p, PoolAction(p, k, m).value) else p
  }

  predicate Possible(s: System, e: Event) {
    match e
    case Enter(c, _) => c !in s.calls
    case Step(c, m) => c in s.calls && CanMove(s.pool, s.calls[c], m)
    case Close => Enabled(s.pool, BeginClose)
    case CloseVisits(key) => Enabled(s.pool, VisitBucket(key))
  }

  function Next(s: System, e: Event): System
    requires Possible(s, e)
  {
    match e
    case Enter(c, key) => s.(calls := s.calls[c := Call(Looking, key, false, None, None, 0)])
    case Step(c, m) =>
      var k := s.calls[c];
      System(NextPool(s.pool, k, m), s.calls[c := NextCall(s.pool, k, m)],
             if m == Returned(true) && k.Current().Some? then s.suspects + {k.Current().value.client} else s.suspects)
    case Close => s.(pool := After(s.pool, BeginClose))
    case CloseVisits(key) => s.(pool := After(s.pool, VisitBucket(key)))
  }

  // ---------------------------------------------------------------- the invariant

  predicate Live(p: Pool, key: string, lease: Option<Lease>) {
    lease.Some? && key in p.buckets && lease.value in p.buckets[key].live
  }

  /** What a call holds at each of its stages. */
  predicate CallInv(p: Pool, k: Call) {
    && (!k.stage.Looking? && !k.stage.UnwindingSecond? && !k.stage.UnwindingFirst? && !k.stage.Done? ==> k.key in p.buckets)
    && (k.lease1.Some? || k.lease2.Some? ==> k.key in p.buckets)
    && (k.lease1.Some? ==> k.lease1.value.id in p.issued)
    && (k.lease2.Some? ==> k.lease2.value.id in p.issued && k.second)
    && k.runs == (if k.lease1.Some? then 1 else 0) + (if k.lease2.Some? then 1 else 0)
    && (k.second ==> k.lease1.Some? && !Live(p, k.key, k.lease1))
    && match k.stage
       case Calling => Live(p, k.key, k.Current())
       case Discarding => Live(p, k.key, k.Current())
       case Retrying => !k.second && k.lease1.Some? && !Live(p, k.key, k.lease1)
       case UnwindingSecond => true
       case UnwindingFirst => !Live(p, k.key, k.lease2)
       case Done => !Live(p, k.key, k.lease1) && !Live(p, k.key, k.lease2)
       case _ => k.Current().None?
  }

  function Grants(k: Call): set<Lease> {
    (if k.lease1.Some? then {k.lease1.value} else {}) + (if k.lease2.Some? then {k.lease2.value} else {})
  }

  /** No two calls hold leases with the same id. */
  ghost predicate DistinctGrants(calls: map<nat, Call>) {
    forall c <- calls, d <- calls, l, m :: c != d && l in Grants(calls[c]) && m in Grants(calls[d]) ==> l.id != m.id
  }

  /** Every live lease belongs to a call. */
  ghost predicate Owned(s: System) {
    forall key <- s.pool.buckets, lease :: lease in s.pool.buckets[key].live ==>
      exists c <- s.calls :: s.calls[c].key == key && lease in Grants(s.calls[c])
  }

  function Diallers(calls: map<nat, Call>, key: string): set<nat> {
    set c | c in calls && calls[c].stage.Dialling? && calls[c].key == key
  }

  /** Every reservation belongs to a call that is dialling. */
  ghost predicate DialsCounted(s: System) {
    && (forall key <- s.pool.buckets :: s.pool.buckets[key].dials == |Diallers(s.calls, key)|)
    && (forall c <- s.calls :: s.calls[c].stage.Dialling? ==> s.calls[c].key in s.pool.buckets)
  }

  ghost predicate BeingDiscarded(s: System, x: Client) {
    exists c <- s.calls :: s.calls[c].stage.Discarding? && s.calls[c].Current().Some? && s.calls[c].Current().value.client == x
  }

  predicate WasHungUp(p: Pool, x: Client) {
    exists key <- p.buckets :: x in p.buckets[key].hungUp
  }

  /** A client that met a connection error is closed, or about to be by the call that met it. */
  ghost predicate SuspectsEnd(s: System) {
    forall x <- s.suspects :: WasHungUp(s.pool, x) || BeingDiscarded(s, x)
  }

  ghost predicate SystemInv(s: System) {
    && Inv(s.pool)
    && (forall c <- s.calls :: CallInv(s.pool, s.calls[c]) && OwnGrantsDiffer(s.calls[c]))
    && DistinctGrants(s.calls)
    && Owned(s)
    && DialsCounted(s)
    && SuspectsEnd(s)
  }

  /** The lease that a pool step makes live. */
  function NewLease(p: Pool, a: Action): Option<Lease>
    requires Enabled(p, a)
  {
    match a
    case TakeIdle(key, now, id) =>
      var client := IdleChoice(p.cfg, p.buckets[key], now);
      if client.Some? then Some(Lease(id, client.value)) else None
    case DialSucceeds(_, client, id) => Some(Lease(id, client))
    case _ => None
  }

  /** Which leases are live after a pool step. */
  lemma LiveAfter(p: Pool, a: Action, key: string, lease: Lease)
    requires Inv(p) && Enabled(p, a) && key in p.buckets
    ensures lease in After(p, a).buckets[key].live <==>
      || (lease in p.buckets[key].live && !(a.Finish? && a.key == key && a.id == lease.id))
      || (NewLease(p, a) == Some(lease) && a.key == key)
  {
    if a.Finish? && a.key == key {
      LiveAfterFinish(p.cfg, p.buckets[key], a.id, a.broken, p.closed, a.now);
    }
  }

  lemma PoolGrows(p: Pool, a: Action)
    requires Inv(p) && Enabled(p, a)
    ensures p.buckets.Keys <= After(p, a).buckets.Keys && p.issued <= After(p, a).issued
  {
  }

  /** A pool step leaves the state of a lease alone unless it finishes that lease. */
  lemma LeaseUntouched(p: Pool, a: Action, key: string, lease: Option<Lease>)
    requires Inv(p) && Enabled(p, a)
    requires lease.Some? ==> key in p.buckets && lease.value.id in p.issued && !(a.Finish? && a.id == lease.value.id)
    ensures Live(After(p, a), key, lease) <==> Live(p, key, lease)
  {
    if lease.Some? {
      LiveAfter(p, a, key, lease.value);
    }
  }

  lemma PoolStepKeepsCall(p: Pool, a: Action, k: Call)
    requires Inv(p) && Enabled(p, a) && CallInv(p, k)
    requires a.Finish? ==> forall l <- Grants(k) :: l.id != a.id
    ensures CallInv(After(p, a), k)
  {
    PoolGrows(p, a);
    assert k.lease1.Some? ==> k.lease1.value in Grants(k);
    assert k.lease2.Some? ==> k.lease2.value in Grants(k);
    LeaseUntouched(p, a, k.key, k.lease1);
    LeaseUntouched(p, a, k.key, k.lease2);
  }

  /** Finishing a lease ends it. */
  lemma FinishedIsNotLive(p: Pool, key: string, lease: Lease, broken: bool, now: int)
    requires Inv(p) && key in p.buckets
    ensures !Live(After(p, Finish(key, lease.id, broken, now)), key, Some(lease))
  {
    LiveAfter(p, Finish(key, lease.id, broken, now), key, lease);
  }

  /** The two leases of a call never share an id, since the second is issued after the first. */
  predicate OwnGrantsDiffer(k: Call) {
    k.lease1.Some? && k.lease2.Some? ==> k.lease1.value.id != k.lease2.value.id
  }

  lemma ObtainingMoveKeepsCall(p: Pool, k: Call, m: Move)
    requires Inv(p) && CallInv(p, k) && CanMove(p, k, m) && (m.Poll? || m.Connected?)
    ensures CallInv(NextPool(p, k, m), NextCall(p, k, m))
  {
    var a := PoolAction(p, k, m).value;
    PoolGrows(p, a);
    LeaseUntouched(p, a, k.key, k.lease1);
    if Obtained(p, k, m).Some? {
      LiveAfter(p, a, k.key, Obtained(p, k, m).value);
    }
  }

  lemma FinishingMoveKeepsCall(p: Pool, k: Call, m: Move)
    requires Inv(p) && CallInv(p, k) && OwnGrantsDiffer(k) && CanMove(p, k, m)
    requires m.Discard? || m.UnwindSecond? || m.UnwindFirst?
    ensures CallInv(NextPool(p, k, m), NextCall(p, k, m))
  {
    var lease := if m.Discard? then k.Current() else if m.UnwindSecond? then k.lease2 else k.lease1;
    if lease.Some? {
      var a := PoolAction(p, k, m).value;
      PoolGrows(p, a);
      FinishedIsNotLive(p, k.key, lease.value, m.Discard?, m.now);
      if lease == k.lease1 {
        LeaseUntouched(p, a, k.key, k.lease2);
      } else {
        LeaseUntouched(p, a, k.key, k.lease1);
      }
    }
  }

  lemma MoveKeepsCall(p: Pool, k: Call, m: Move)
    requires Inv(p) && CallInv(p, k) && OwnGrantsDiffer(k) && CanMove(p, k, m)
    ensures CallInv(NextPool(p, k, m), NextCall(p, k, m)) && OwnGrantsDiffer(NextCall(p, k, m))
  {
    if m.Poll? || m.Connected? {
      ObtainingMoveKeepsCall(p, k, m);
    } else if m.Discard? || m.UnwindSecond? || m.UnwindFirst? {
      FinishingMoveKeepsCall(p, k, m);
    } else if PoolAction(p, k, m).Some? {
      PoolStepKeepsCall(p, PoolAction(p, k, m).value, k);
    }
  }

  lemma NextPoolInv(p: Pool, k: Call, m: Move)
    requires Inv(p) && CanMove(p, k, m)
    ensures Inv(NextPool(p, k, m))
  {
    if PoolAction(p, k, m).Some? {
      StepKeepsInv(p, PoolAction(p, k, m).value);
    }
  }

  lemma MoveKeepsCalls(s: System, c: nat, m: Move)
    requires SystemInv(s) && Possible(s, Step(c, m))
    ensures var n := Next(s, Step(c, m));
      forall d <- n.calls :: CallInv(n.pool, n.calls[d]) && OwnGrantsDiffer(n.calls[d])
  {
    var k, n := s.calls[c], Next(s, Step(c, m));
    MoveKeepsCall(s.pool, k, m);
    forall d <- s.calls | d != c
      ensures CallInv(n.pool, s.calls[d])
    {
      if PoolAction(s.pool, k, m).Some? {
        PoolStepKeepsCall(s.pool, PoolAction(s.pool, k, m).value, s.calls[d]);
      }
    }
  }

  /** A move keeps the leases of its call and adds the one it obtains, whose id is new. */
  lemma MoveGrants(p: Pool, k: Call, m: Move)
    requires Inv(p) && CallInv(p, k) && CanMove(p, k, m)
    ensures NextCall(p, k, m).key == k.key
    ensures Grants(k) <= Grants(NextCall(p, k, m))
    ensures forall l <- Grants(NextCall(p, k, m)) - Grants(k) :: l.id !in p.issued
    ensures forall l <- Grants(k) :: l.id in p.issued
    ensures Obtained(p, k, m).Some? ==> Obtained(p, k, m).value in Grants(NextCall(p, k, m))
  {
  }

  lemma DistinctAfterUpdate(calls: map<nat, Call>, c: nat, k: Call, issued: set<LeaseId>)
    requires DistinctGrants(calls) && c in calls
    requires forall d <- calls, l <- Grants(calls[d]) :: l.id in issued
    requires forall l <- Grants(k) - Grants(calls[c]) :: l.id !in issued
    ensures DistinctGrants(calls[c := k])
  {
    var n := calls[c := k];
    forall a <- n, b <- n, l, m | a != b && l in Grants(n[a]) && m in Grants(n[b])
      ensures l.id != m.id
    {
      assert a != c ==> n[a] == calls[a];
      assert b != c ==> n[b] == calls[b];
      assert l !in Grants(calls[a]) ==> l.id !in issued;
      assert m !in Grants(calls[b]) ==> m.id !in issued;
    }
  }

  lemma MoveKeepsDistinct(s: System, c: nat, m: Move)
    requires SystemInv(s) && Possible(s, Step(c, m))
    ensures DistinctGrants(Next(s, Step(c, m)).calls)
  {
    MoveGrants(s.pool, s.calls[c], m);
    forall d <- s.calls, l <- Grants(s.calls[d])
      ensures l.id in s.pool.issued
    {
      assert CallInv(s.pool, s.calls[d]);
    }
    DistinctAfterUpdate(s.calls, c, NextCall(s.pool, s.calls[c], m), s.pool.issued);
  }

  /** Where a lease that is live after a move comes from. */
  lemma LiveAfterMove(p: Pool, k: Call, m: Move, key: string, lease: Lease)
    requires Inv(p) && CanMove(p, k, m)
    requires key in NextPool(p, k, m).buckets && lease in NextPool(p, k, m).buckets[key].live
    ensures Live(p, key, Some(lease)) || (key == k.key && Obtained(p, k, m) == Some(lease))
  {
    var a := PoolAction(p, k, m);
    if a.Some? && key in p.buckets {
      LiveAfter(p, a.value, key, lease);
    }
  }

  lemma MoveKeepsOwned(s: System, c: nat, m: Move)
    requires SystemInv(s) && Possible(s, Step(c, m))
    ensures Owned(Next(s, Step(c, m)))
  {
    var p, k := s.pool, s.calls[c];
    var n, kn := NextPool(p, k, m), NextCall(p, k, m);
    MoveGrants(p, k, m);
    var calls := s.calls[c := kn];
    forall key <- n.buckets, lease | lease in n.buckets[key].live
      ensures exists d <- calls :: calls[d].key == key && lease in Grants(calls[d])
    {
      LiveAfterMove(p, k, m, key, lease);
      OwnerAfterUpdate(s, c, kn, key, lease);
    }
  }

  lemma OwnerAfterUpdate(s: System, c: nat, k: Call, key: string, lease: Lease)
    requires Owned(s) && c in s.calls && k.key == s.calls[c].key && Grants(s.calls[c]) <= Grants(k)
    requires Live(s.pool, key, Some(lease)) || (key == k.key && lease in Grants(k))
    ensures var calls := s.calls[c := k]; exists d <- calls :: calls[d].key == key && lease in Grants(calls[d])
  {
    var calls := s.calls[c := k];
    if Live(s.pool, key, Some(lease)) {
      var d :| d in s.calls && s.calls[d].key == key && lease in Grants(s.calls[d]);
      assert calls[d].key == key && lease in Grants(calls[d]);
    } else {
      assert calls[c].key == key && lease in Grants(calls[c]);
    }
  }

  /** A pool step changes the reservations of its own bucket by the dial it starts or ends. */
  lemma StepDials(p: Pool, a: Action, key: string)
    requires Inv(p) && Enabled(p, a) && key in p.buckets
    ensures key in After(p, a).buckets
    ensures After(p, a).buckets[key].dials == p.buckets[key].dials
      + (if a.Reserve? && a.key == key && CanReserve(p.cfg, p.buckets[key]) then 1 else 0)
      - (if (a.DialSucceeds? || a.DialFails?) && a.key == key then 1 else 0)
  {
    if a.Finish? {
      LiveAfterFinish(p.cfg, p.buckets[a.key], a.id, a.broken, p.closed, a.now);
    }
  }

  /** A move changes the reservations of its bucket by what its call's own dialling changes. */
  lemma MoveDials(p: Pool, k: Call, m: Move, key: string)
    requires Inv(p) && CallInv(p, k) && CanMove(p, k, m) && key in NextPool(p, k, m).buckets
    ensures var kn, d := NextCall(p, k, m), NextPool(p, k, m).buckets[key].dials;
      if key !in p.buckets then d == 0 && !kn.stage.Dialling?
      else d == p.buckets[key].dials + (if key == k.key && kn.stage.Dialling? then 1 else 0)
                                     - (if key == k.key && k.stage.Dialling? then 1 else 0)
    ensures NextCall(p, k, m).stage.Dialling? ==> k.key in NextPool(p, k, m).buckets
  {
    var a := PoolAction(p, k, m);
    if a.Some? && key in p.buckets {
      StepDials(p, a.value, key);
    }
  }

  lemma DiallersAfterUpdate(calls: map<nat, Call>, c: nat, k: Call, key: string)
    requires c in calls && k.key == calls[c].key
    ensures |Diallers(calls[c := k], key)| == |Diallers(calls, key)|
            + (if k.key == key && k.stage.Dialling? then 1 else 0)
            - (if k.key == key && calls[c].stage.Dialling? then 1 else 0)
  {
    var rest := Diallers(calls, key) - {c};
    assert Diallers(calls, key) == if k.key == key && calls[c].stage.Dialling? then rest + {c} else rest;
    assert Diallers(calls[c := k], key) == if k.key == key && k.stage.Dialling? then rest + {c} else rest;
  }

  lemma MoveKeepsDials(s: System, c: nat, m: Move)
    requires SystemInv(s) && Possible(s, Step(c, m))
    ensures DialsCounted(Next(s, Step(c, m)))
  {
    DialsAfterMove(s, c, m);
  }

  lemma DialsAfterMove(s: System, c: nat, m: Move)
    requires Inv(s.pool) && DialsCounted(s) && Possible(s, Step(c, m)) && CallInv(s.pool, s.calls[c])
    ensures DialsCounted(Next(s, Step(c, m)))
  {
    var p, k := s.pool, s.calls[c];
    var n, kn := NextPool(p, k, m), NextCall(p, k, m);
    MoveGrants(p, k, m);
    forall key <- n.buckets
      ensures n.buckets[key].dials == |Diallers(s.calls[c := kn], key)|
    {
      if key !in p.buckets {
        assert Diallers(s.calls, key) == {};
      }
      MoveKeepsCount(p, k, m, s.calls, c, key);
    }
    BucketsStay(p, k, m);
  }

  /** The reservations of one bucket follow the calls that dial. */
  lemma MoveKeepsCount(p: Pool, k: Call, m: Move, calls: map<nat, Call>, c: nat, key: string)
    requires Inv(p) && CallInv(p, k) && CanMove(p, k, m) && key in NextPool(p, k, m).buckets
    requires c in calls && calls[c] == k && NextCall(p, k, m).key == k.key
    requires if key in p.buckets then p.buckets[key].dials == |Diallers(calls, key)| else Diallers(calls, key) == {}
    ensures NextPool(p, k, m).buckets[key].dials == |Diallers(calls[c := NextCall(p, k, m)], key)|
  {
    MoveDials(p, k, m, key);
    DiallersAfterUpdate(calls, c, NextCall(p, k, m), key);
    assert key !in p.buckets && k.stage.Dialling? && k.key == key ==> c in Diallers(calls, key);
  }

  lemma BucketsStay(p: Pool, k: Call, m: Move)
    requires Inv(p) && CanMove(p, k, m)
    ensures p.buckets.Keys <= NextPool(p, k, m).buckets.Keys
  {
  }

  lemma HungUpGrows(p: Pool, a: Action, x: Client)
    requires Inv(p) && Enabled(p, a) && WasHungUp(p, x)
    ensures WasHungUp(After(p, a), x)
  {
    var key :| key in p.buckets && x in p.buckets[key].hungUp;
    assert x in After(p, a).buckets[key].hungUp;
  }

  lemma SuspectStaysDown(s: System, c: nat, m: Move, x: Client)
    requires SystemInv(s) && Possible(s, Step(c, m)) && WasHungUp(s.pool, x)
    ensures WasHungUp(Next(s, Step(c, m)).pool, x)
  {
    var k := s.calls[c];
    if PoolAction(s.pool, k, m).Some? {
      HungUpGrows(s.pool, PoolAction(s.pool, k, m).value, x);
    }
  }

  lemma OwnDiscardHangsUp(p: Pool, k: Call, m: Move)
    requires Inv(p) && CallInv(p, k) && k.stage.Discarding? && k.Current().Some? && CanMove(p, k, m)
    ensures WasHungUp(NextPool(p, k, m), k.Current().value.client)
  {
    DiscardHangsUp(p, k, m.now);
  }

  lemma DiscardGoesOn(s: System, c: nat, m: Move, x: Client)
    requires Inv(s.pool) && Possible(s, Step(c, m)) && CallInv(s.pool, s.calls[c]) && BeingDiscarded(s, x)
    ensures var n := Next(s, Step(c, m)); WasHungUp(n.pool, x) || BeingDiscarded(n, x)
  {
    var d :| d in s.calls && s.calls[d].stage.Discarding? && s.calls[d].Current().Some? && s.calls[d].Current().value.client == x;
    if d == c {
      OwnDiscardHangsUp(s.pool, s.calls[c], m);
    } else {
      assert Next(s, Step(c, m)).calls[d] == s.calls[d];
    }
  }

  lemma MoveKeepsSuspects(s: System, c: nat, m: Move)
    requires SystemInv(s) && Possible(s, Step(c, m))
    ensures SuspectsEnd(Next(s, Step(c, m)))
  {
    var n := Next(s, Step(c, m));
    forall x <- n.suspects
      ensures WasHungUp(n.pool, x) || BeingDiscarded(n, x)
    {
      if x !in s.suspects {
        assert n.calls[c].stage.Discarding?;
      } else if WasHungUp(s.pool, x) {
        SuspectStaysDown(s, c, m, x);
      } else {
        DiscardGoesOn(s, c, m, x);
      }
    }
  }

  lemma DiscardHangsUp(p: Pool, k: Call, now: int)
    requires Inv(p) && CallInv(p, k) && k.stage.Discarding? && CanMove(p, k, Discard(now))
    ensures WasHungUp(NextPool(p, k, Discard(now)), k.Current().value.client)
  {
    var b, lease := p.buckets[k.key], k.Current().value;
    var i :| 0 <= i < |b.live| && b.live[i] == lease;
    assert Position(b.live, lease.id) == i;
    var r := NextPool(p, k, Discard(now)).buckets[k.key];
    assert r.hungUp == b.hungUp + [lease.client];
  }

  lemma EnterKeepsOwnership(s: System, c: nat, k: Call)
    requires SystemInv(s) && c !in s.calls && Grants(k) == {} && !k.stage.Dialling?
    ensures var n := s.(calls := s.calls[c := k]); Owned(n) && DialsCounted(n)
  {
    var n := s.(calls := s.calls[c := k]);
    forall key <- s.pool.buckets
      ensures Diallers(n.calls, key) == Diallers(s.calls, key)
    {
    }
    forall key <- s.pool.buckets, lease | lease in s.pool.buckets[key].live
      ensures exists d <- n.calls :: n.calls[d].key == key && lease in Grants(n.calls[d])
    {
      var d :| d in s.calls && s.calls[d].key == key && lease in Grants(s.calls[d]);
      assert n.calls[d] == s.calls[d];
    }
  }

  lemma EnterKeepsSuspects(s: System, c: nat, k: Call)
    requires SuspectsEnd(s) && c !in s.calls
    ensures SuspectsEnd(s.(calls := s.calls[c := k]))
  {
    var n := s.(calls := s.calls[c := k]);
    forall x <- s.suspects
      ensures WasHungUp(n.pool, x) || BeingDiscarded(n, x)
    {
      if !WasHungUp(s.pool, x) {
        var d :| d in s.calls && s.calls[d].stage.Discarding? && s.calls[d].Current().Some? && s.calls[d].Current().value.client == x;
        assert n.calls[d] == s.calls[d];
      }
    }
  }

  lemma EnterKeepsDistinct(calls: map<nat, Call>, c: nat, k: Call)
    requires DistinctGrants(calls) && c !in calls && Grants(k) == {}
    ensures DistinctGrants(calls[c := k])
  {
    var n := calls[c := k];
    forall a <- n, b <- n, l, m | a != b && l in Grants(n[a]) && m in Grants(n[b])
      ensures l.id != m.id
    {
      assert n[a] == calls[a] && n[b] == calls[b];
    }
  }

  lemma EnterKeepsInv(s: System, c: nat, key: string)
    requires SystemInv(s) && c !in s.calls
    ensures SystemInv(Next(s, Enter(c, key)))
  {
    var k := Call(Looking, key, false, None, None, 0);
    EnterKeepsDistinct(s.calls, c, k);
    EnterKeepsOwnership(s, c, k);
    EnterKeepsSuspects(s, c, k);
    assert CallInv(s.pool, k);
  }

  /** The steps of `Close` leave every lease and every reservation to its call. */
  lemma CloseKeepsInv(s: System, a: Action)
    requires SystemInv(s) && Enabled(s.pool, a) && (a.BeginClose? || a.VisitBucket?)
    ensures SystemInv(s.(pool := After(s.pool, a)))
  {
    var n := s.(pool := After(s.pool, a));
    StepKeepsInv(s.pool, a);
    forall c <- s.calls
      ensures CallInv(n.pool, s.calls[c])
    {
      PoolStepKeepsCall(s.pool, a, s.calls[c]);
    }
    forall x <- s.suspects
      ensures WasHungUp(n.pool, x) || BeingDiscarded(n, x)
    {
      if WasHungUp(s.pool, x) {
        HungUpGrows(s.pool, a, x);
      } else {
        assert BeingDiscarded(s, x);
      }
    }
    forall key <- n.pool.buckets, lease | lease in n.pool.buckets[key].live
      ensures exists d <- n.calls :: n.calls[d].key == key && lease in Grants(n.calls[d])
    {
      assert lease in s.pool.buckets[key].live;
    }
  }

  lemma EventKeepsInv(s: System, e: Event)
    requires SystemInv(s) && Possible(s, e)
    ensures SystemInv(Next(s, e))
  {
    match e
    case Enter(c, key) => EnterKeepsInv(s, c, key);
    case Step(c, m) =>
      NextPoolInv(s.pool, s.calls[c], m);
      MoveKeepsCalls(s, c, m);
      MoveKeepsDistinct(s, c, m);
      MoveKeepsOwned(s, c, m);
      MoveKeepsDials(s, c, m);
      MoveKeepsSuspects(s, c, m);
    case Close => CloseKeepsInv(s, BeginClose);
    case CloseVisits(key) => CloseKeepsInv(s, VisitBucket(key));
  }

  ghost predicate IsSystemRun(states: seq<System>, events: seq<Event>) {
    && |states| == |events| + 1
    && states[0].pool.cfg.Valid() && states[0] == System(NewPool(states[0].pool.cfg), map[], {})
    && forall i :: 0 <= i < |events| ==> Possible(states[i], events[i]) && states[i + 1] == Next(states[i], events[i])
  }

  lemma {:induction false} SystemRunKeepsInv(states: seq<System>, events: seq<Event>, i: nat)
    requires IsSystemRun(states, events) && i < |states|
    ensures SystemInv(states[i])
  {
    if i > 0 {
      SystemRunKeepsInv(states, events, i - 1);
      EventKeepsInv(states[i - 1], events[i - 1]);
    }
  }

  // ---------------------------------------------------------------- what callers can rely on

  /** At every moment of every run a call has run its function at most twice, once per lease it took, and
      when it has returned none of its leases is live any more. */
  lemma CallFinishesItsLeases(states: seq<System>, events: seq<Event>, i: nat, c: nat)
    requires IsSystemRun(states, events) && i < |states| && c in states[i].calls
    ensures var k := states[i].calls[c];
      && k.runs <= 2 && k.runs == |Grants(k)|
      && (k.stage.Done? ==> forall l <- Grants(k) :: !Live(states[i].pool, k.key, Some(l)))
  {
    SystemRunKeepsInv(states, events, i);
    RunsAndLeases(states[i].pool, states[i].calls[c]);
  }

  lemma RunsAndLeases(p: Pool, k: Call)
    requires CallInv(p, k) && OwnGrantsDiffer(k)
    ensures k.runs <= 2 && k.runs == |Grants(k)|
    ensures k.stage.Done? ==> forall l <- Grants(k) :: !Live(p, k.key, Some(l))
  {
    if k.lease1.Some? && k.lease2.Some? {
      assert k.lease1.value != k.lease2.value;
    }
  }

  predicate Finished(p: Pool, key: string, lease: Lease) {
    key in p.buckets && lease.id in p.issued && !Live(p, key, Some(lease))
  }

  lemma FinishedStep(s: System, e: Event, key: string, lease: Lease)
    requires SystemInv(s) && Possible(s, e) && Finished(s.pool, key, lease)
    ensures Finished(Next(s, e).pool, key, lease)
  {
    var p := s.pool;
    match e
    case Enter(_, _) =>
    case Step(c, m) =>
      var a := PoolAction(p, s.calls[c], m);
      if a.Some? { LiveAfter(p, a.value, key, lease); PoolGrows(p, a.value); }
    case Close => LiveAfter(p, BeginClose, key, lease);
    case CloseVisits(k) => LiveAfter(p, VisitBucket(k), key, lease);
  }

  /** A finished lease is finished for the rest of the run: ids are issued once. */
  lemma {:induction false} FinishedForGood(states: seq<System>, events: seq<Event>, i: nat, j: nat, key: string, lease: Lease)
    requires IsSystemRun(states, events) && i <= j < |states| && Finished(states[i].pool, key, lease)
    ensures Finished(states[j].pool, key, lease)
  {
    if i < j {
      FinishedForGood(states, events, i, j - 1, key, lease);
      SystemRunKeepsInv(states, events, j - 1);
      FinishedStep(states[j - 1], events[j - 1], key, lease);
    }
  }

  /** A suspect is leased out or closed. */
  lemma SuspectPlaces(s: System, x: Client) returns (key: string)
    requires SystemInv(s) && x in s.suspects
    ensures key in s.pool.buckets
    ensures Times(LeasedClients(s.pool.buckets[key].live), x) + Times(s.pool.buckets[key].hungUp, x) > 0
  {
    if WasHungUp(s.pool, x) {
      key :| key in s.pool.buckets && x in s.pool.buckets[key].hungUp;
      InTimes(s.pool.buckets[key].hungUp, x);
    } else {
      var c :| c in s.calls && s.calls[c].stage.Discarding? && s.calls[c].Current().Some? && s.calls[c].Current().value.client == x;
      key := s.calls[c].key;
      HolderPlace(s.pool, s.calls[c]);
    }
  }

  lemma HolderPlace(p: Pool, k: Call)
    requires CallInv(p, k) && k.stage.Discarding?
    ensures Times(LeasedClients(p.buckets[k.key].live), k.Current().value.client) > 0
  {
    var live, lease := p.buckets[k.key].live, k.Current().value;
    var j :| 0 <= j < |live| && live[j] == lease;
    assert LeasedClients(live)[j] == lease.client;
    InTimes(LeasedClients(live), lease.client);
  }

  /** A client on which any call's function met a connection error is on no idle list, ever. */
  lemma SuspectsAreNeverIdle(states: seq<System>, events: seq<Event>, i: nat, key: string, x: Client)
    requires IsSystemRun(states, events) && i < |states|
    requires key in states[i].pool.buckets && x in states[i].suspects
    ensures x !in IdleClients(states[i].pool.buckets[key].idle)
  {
    SystemRunKeepsInv(states, events, i);
    var p := states[i].pool;
    var other := SuspectPlaces(states[i], x);
    InTimes(IdleClients(p.buckets[key].idle), x);
    if Places(p.buckets[key], x) > 0 {
      OneBucket(p, key, other, x);
    }
  }

  lemma OneBucket(p: Pool, key: string, other: string, x: Client)
    requires Inv(p) && key in p.buckets && other in p.buckets
    requires Places(p.buckets[key], x) > 0 && Places(p.buckets[other], x) > 0
    ensures key == other && Places(p.buckets[key], x) == 1
  {
    assert x in p.buckets[key].dialled && x in p.buckets[other].dialled;
  }

  lemma LiveMeansUnfinished(s: System, key: string)
    requires SystemInv(s) && key in s.pool.buckets
    ensures s.pool.buckets[key].live != [] ==> exists c <- s.calls :: !s.calls[c].stage.Done?
  {
    var live := s.pool.buckets[key].live;
    if live != [] {
      assert live[0] in live;
      var c :| c in s.calls && s.calls[c].key == key && live[0] in Grants(s.calls[c]);
      LiveGrant(s.pool, s.calls[c], live[0]);
    }
  }

  lemma LiveGrant(p: Pool, k: Call, lease: Lease)
    requires CallInv(p, k) && lease in Grants(k) && Live(p, k.key, Some(lease))
    ensures !k.stage.Done?
  {
  }

  /** When `Close` has visited every bucket and every call has returned, every bucket is empty and every
      client ever dialled was closed exactly once. */
  lemma ClosedAndQuiet(states: seq<System>, events: seq<Event>, i: nat, key: string)
    requires IsSystemRun(states, events) && i < |states|
    requires states[i].pool.closed && states[i].pool.pending == {}
    requires forall c <- states[i].calls :: states[i].calls[c].stage.Done?
    requires key in states[i].pool.buckets
    ensures var b := states[i].pool.buckets[key];
      b.open == 0 && b.idle == [] && b.live == [] && forall x <- b.dialled :: Times(b.hungUp, x) == 1
  {
    SystemRunKeepsInv(states, events, i);
    var s := states[i];
    var b := s.pool.buckets[key];
    assert Diallers(s.calls, key) == {};
    LiveMeansUnfinished(s, key);
    ClosedPoolIsDrained(s.pool, key);
  }

  /** A call that looks for a client in the loop of `Acquire`. */
  predicate Seeking(k: Call) {
    k.stage.PollIdle? || k.stage.PollReserve? || k.stage.Waiting?
  }

  predicate Returning(k: Call) {
    k.stage.UnwindingSecond? || k.stage.UnwindingFirst? || k.stage.Done?
  }

  predicate BucketClosed(p: Pool, key: string) {
    key in p.buckets && p.buckets[key].closed
  }

  lemma ClosedStaysClosed(s: System, e: Event, key: string)
    requires SystemInv(s) && Possible(s, e) && BucketClosed(s.pool, key)
    ensures BucketClosed(Next(s, e).pool, key)
  {
    match e
    case Enter(_, _) =>
    case Step(c, m) =>
      var a := PoolAction(s.pool, s.calls[c], m);
      if a.Some? { ClosedBucketOnlyDrains(s.pool, a.value, key); }
    case Close => ClosedBucketOnlyDrains(s.pool, BeginClose, key);
    case CloseVisits(k) => ClosedBucketOnlyDrains(s.pool, VisitBucket(k), key);
  }

  /** A seeking call goes on seeking in a closed bucket until it is cancelled; a returning one goes on returning. */
  lemma SeekingStep(s: System, e: Event, c: nat)
    requires SystemInv(s) && Possible(s, e) && c in s.calls && BucketClosed(s.pool, s.calls[c].key)
    requires Seeking(s.calls[c]) || Returning(s.calls[c])
    ensures c in Next(s, e).calls
    ensures Next(s, e).calls[c].key == s.calls[c].key && Next(s, e).calls[c].runs == s.calls[c].runs
    ensures if Seeking(s.calls[c]) && e != Step(c, Cancelled) then Seeking(Next(s, e).calls[c]) else Returning(Next(s, e).calls[c])
  {
    if e.Step? && e.c == c {
      SeekingMove(s.pool, s.calls[c], e.move);
    }
  }

  lemma SeekingMove(p: Pool, k: Call, m: Move)
    requires CanMove(p, k, m) && BucketClosed(p, k.key) && (Seeking(k) || Returning(k))
    ensures NextCall(p, k, m).key == k.key && NextCall(p, k, m).runs == k.runs
    ensures if Seeking(k) && m != Cancelled then Seeking(NextCall(p, k, m)) else Returning(NextCall(p, k, m))
  {
  }

  ghost predicate CancelledIn(events: seq<Event>, i: nat, j: nat, c: nat)
    requires j <= |events|
  {
    exists m :: i <= m < j && events[m] == Step(c, Cancelled)
  }

  /** Call `c`, once `was`, is on its way out if it was cancelled, and still seeks in a closed bucket if not. */
  predicate Lingers(s: System, c: nat, was: Call, cancelled: bool) {
    && BucketClosed(s.pool, was.key) && c in s.calls && s.calls[c].key == was.key && s.calls[c].runs == was.runs
    && if cancelled then Returning(s.calls[c]) else Seeking(s.calls[c])
  }

  lemma LingersOn(s: System, e: Event, c: nat, was: Call, cancelled: bool)
    requires SystemInv(s) && Possible(s, e) && Lingers(s, c, was, cancelled)
    ensures Lingers(Next(s, e), c, was, cancelled || e == Step(c, Cancelled))
  {
    ClosedStaysClosed(s, e, was.key);
    SeekingStep(s, e, c);
  }

  /** Once `Close` has visited its bucket, a call that is still looking for a client never gets one: it looks on
      until its context is cancelled, and returns exactly then, without running its function again. */
  lemma {:induction false} SeekingUntilCancelled(states: seq<System>, events: seq<Event>, i: nat, j: nat, c: nat)
    requires IsSystemRun(states, events) && i <= j < |states| && c in states[i].calls
    requires Seeking(states[i].calls[c]) && BucketClosed(states[i].pool, states[i].calls[c].key)
    ensures Lingers(states[j], c, states[i].calls[c], CancelledIn(events, i, j, c))
  {
    if i < j {
      SeekingUntilCancelled(states, events, i, j - 1, c);
      SystemRunKeepsInv(states, events, j - 1);
      var cancelled := CancelledIn(events, i, j - 1, c);
      LingersOn(states[j - 1], events[j - 1], c, states[i].calls[c], cancelled);
      assert CancelledIn(events, i, j, c) <==> cancelled || events[j - 1] == Step(c, Cancelled);
    }
  }
}
