/** Draining the generation queue (`processPendingQueue`, `processQueueItem`), retrying failed generations
    (`processRetryableGenerations`), and whole runs of the scheduler together with its workers. */
module GenerationRuns {
  import opened Sequences
  import opened Sorting
  import opened Recurrence
  import opened GenerationQueue
  import Text

  predicate IsActive(status: GenStatus) {
    status == GenPending || status == Processing || status == PauseRequested || status == Cancelling
  }

  predicate AwaitsRetry(g: Generation) {
    g.status == GenError && g.retryable
  }

  /** A generation that still occupies its domain. */
  predicate Occupies(g: Generation) {
    IsActive(g.status) || AwaitsRetry(g)
  }

  /** `ListByDomain(...)[0]`, newest first. */
  function Newest(gens: seq<Generation>, domain: string): Option<Generation> {
    if gens == [] then None
    else if gens[|gens| - 1].domain == domain then Some(gens[|gens| - 1])
    else Newest(gens[..|gens| - 1], domain)
  }

  function FindDomain(domains: seq<Domain>, id: string): Option<Domain> {
    if domains == [] then None
    else if domains[0].id == id then Some(domains[0])
    else FindDomain(domains[1..], id)
  }

  function SetStatus(domains: seq<Domain>, id: string, status: string): (r: seq<Domain>)
    ensures |r| == |domains|
    ensures forall k :: 0 <= k < |r| ==> r[k] == if domains[k].id == id then domains[k].(status := status) else domains[k]
  {
    seq(|domains|, k requires 0 <= k < |domains| =>
      if domains[k].id == id then domains[k].(status := status) else domains[k])
  }

  predicate HasKeyword(d: Domain) {
    "webarchive_" <= Text.TrimSpace(d.generationType) || Text.TrimSpace(d.keyword) != ""
  }

  /** Why an item ends without a new generation, and the status it gets; `None` when one is created. */
  function Refusal(db: Db, item: QueueItem, projects: set<string>): Option<ItemStatus> {
    var d := FindDomain(db.domains, item.domain);
    if d.None? then Some(Failed)
    else if !IsWaiting(d.value) then Some(Completed)
    else if !HasKeyword(d.value) then Some(Failed)
    else
      var last := Newest(db.gens, item.domain);
      if last.Some? && Occupies(last.value) then Some(Completed)
      else if d.value.project !in projects then Some(Failed)
      else None
  }

  /** The rest of `processQueueItem`: create the generation and hand it to the task queue, whose answer is `accepted`. */
  function AfterCreation(db: Db, item: QueueItem, accepted: bool): Db {
    if accepted then
      db.(gens := db.gens + [Generation(db.nextId, item.domain, GenPending, false, None)],
          nextId := db.nextId + 1,
          domains := SetStatus(db.domains, item.domain, "processing"),
          tasks := db.tasks + [db.nextId],
          queue := MarkedAll(db.queue, {item.id}, Completed))
    else
      db.(gens := db.gens + [Generation(db.nextId, item.domain, GenError, false, None)],
          nextId := db.nextId + 1,
          domains := SetStatus(SetStatus(db.domains, item.domain, "processing"), item.domain, "waiting"),
          queue := MarkedAll(db.queue, {item.id}, Failed))
  }

  function AfterItem(db: Db, item: QueueItem, projects: set<string>, accepted: bool): Db {
    var refusal := Refusal(db, item, projects);
    if refusal.Some? then db.(queue := MarkedAll(db.queue, {item.id}, refusal.value))
    else AfterCreation(db, item, accepted)
  }

  function WithStatus(gens: seq<Generation>, id: nat, status: GenStatus): (r: seq<Generation>)
    ensures |r| == |gens|
    ensures forall k :: 0 <= k < |r| ==> r[k] == if gens[k].id == id then gens[k].(status := status) else gens[k]
  {
    seq(|gens|, k requires 0 <= k < |gens| => if gens[k].id == id then gens[k].(status := status) else gens[k])
  }

  /** `PrepareRetry` followed by the attempt to enqueue; a refused attempt is only logged. */
  function AfterRetry(db: Db, id: nat, accepted: bool): Db {
    db.(gens := WithStatus(db.gens, id, GenPending), tasks := if accepted then db.tasks + [id] else db.tasks)
  }

  // ---------------------------------------------------------------- the generation invariant

  /** Only the newest generation of a domain may occupy it. */
  ghost predicate OnlyNewestOccupies(gens: seq<Generation>) {
    forall i, j :: 0 <= i < j < |gens| && gens[i].domain == gens[j].domain ==> !Occupies(gens[i])
  }

  ghost predicate GensValid(db: Db) {
    && OnlyNewestOccupies(db.gens)
    && DistinctBy(db.gens, (g: Generation) => g.id)
    && forall g <- db.gens :: g.id < db.nextId
  }

  lemma {:induction false} NewestIsLast(gens: seq<Generation>, domain: string)
    ensures Newest(gens, domain).None? ==> forall g <- gens :: g.domain != domain
    ensures Newest(gens, domain).Some? ==>
      exists k :: 0 <= k < |gens| && gens[k] == Newest(gens, domain).value && gens[k].domain == domain
                  && forall j :: k < j < |gens| ==> gens[j].domain != domain
  {
    if gens != [] && gens[|gens| - 1].domain != domain {
      NewestIsLast(gens[..|gens| - 1], domain);
    }
  }

  /** A domain has at most one occupying generation, and if it has one it is the newest. */
  lemma AtMostOneOccupant(gens: seq<Generation>, i: nat, j: nat)
    requires OnlyNewestOccupies(gens) && i < |gens| && j < |gens|
    requires gens[i].domain == gens[j].domain && Occupies(gens[i])
    ensures Occupies(gens[j]) ==> i == j
    ensures Newest(gens, gens[i].domain) == Some(gens[i])
  {
    NewestIsLast(gens, gens[i].domain);
  }

  lemma AppendKeepsOnlyNewest(gens: seq<Generation>, g: Generation)
    requires OnlyNewestOccupies(gens)
    requires var last := Newest(gens, g.domain); last.None? || !Occupies(last.value)
    ensures OnlyNewestOccupies(gens + [g])
  {
    NewestIsLast(gens, g.domain);
  }

  lemma ItemKeepsGens(db: Db, item: QueueItem, projects: set<string>, accepted: bool)
    requires GensValid(db)
    ensures GensValid(AfterItem(db, item, projects, accepted))
  {
    var r := AfterItem(db, item, projects, accepted);
    if Refusal(db, item, projects).None? {
      AppendKeepsOnlyNewest(db.gens, r.gens[|db.gens|]);
    }
  }

  lemma RetryKeepsGens(db: Db, id: nat, accepted: bool)
    requires GensValid(db) && exists g <- db.gens :: g.id == id && AwaitsRetry(g)
    ensures GensValid(AfterRetry(db, id, accepted))
  {
  }

  /** A worker ends an active generation: any final status, any retry data. */
  predicate WorkerMayFinish(db: Db, k: nat, g: Generation) {
    && k < |db.gens| && IsActive(db.gens[k].status)
    && g.id == db.gens[k].id && g.domain == db.gens[k].domain
  }

  lemma WorkerKeepsGens(db: Db, k: nat, g: Generation)
    requires GensValid(db) && WorkerMayFinish(db, k, g)
    ensures GensValid(db.(gens := db.gens[k := g]))
  {
  }

  // ---------------------------------------------------------------- draining

  predicate IsDue(item: QueueItem, now: Time) {
    item.status == Pending && item.scheduledFor <= now
  }

  /** `ORDER BY scheduled_for ASC, priority DESC, created_at ASC` puts `a` before a younger `b`. */
  predicate Precedes(a: QueueItem, b: QueueItem) {
    a.scheduledFor < b.scheduledFor || (a.scheduledFor == b.scheduledFor && a.priority >= b.priority)
  }

  /** The batch of a query: due items in order, oldest first among equals. */
  function GetPending(queue: seq<QueueItem>, now: Time, limit: nat): seq<QueueItem> {
    var all := StableSort(Filter(queue, (item: QueueItem) => IsDue(item, now)), Precedes);
    if |all| <= limit then all else all[..limit]
  }

  /** A batch holds different due items in order, and is empty only when nothing is due. */
  lemma BatchIsDue(queue: seq<QueueItem>, now: Time, limit: nat)
    requires DistinctBy(queue, (item: QueueItem) => item.id) && limit > 0
    ensures var batch := GetPending(queue, now, limit);
      && Ordered(batch, Precedes) && DistinctBy(batch, (item: QueueItem) => item.id)
      && (forall item <- batch :: item in queue && IsDue(item, now))
      && (batch == [] ==> forall item <- queue :: !IsDue(item, now))
      && (forall a <- batch, b <- queue :: IsDue(b, now) && b !in batch ==> Precedes(a, b))
  {
    var due := Filter(queue, (item: QueueItem) => IsDue(item, now));
    InSort(due, Precedes);
    SortOrdered(due, Precedes);
    FilterDistinctBy(queue, (item: QueueItem) => IsDue(item, now), (item: QueueItem) => item.id);
    SortDistinctBy(due, Precedes, (item: QueueItem) => item.id);
    forall item
      ensures item in due <==> item in queue && IsDue(item, now)
    {
      InFilter(queue, (item: QueueItem) => IsDue(item, now), item);
    }
  }

  lemma ProcessingIsNotWaiting(d: Domain)
    requires d.status == "processing"
    ensures !IsWaiting(d)
  {
    Text.TrimSpaceFixpoint(d.status);
  }

  lemma {:induction false} FoundDomain(domains: seq<Domain>, id: string)
    ensures FindDomain(domains, id).Some? ==> FindDomain(domains, id).value in domains && FindDomain(domains, id).value.id == id
  {
    if domains != [] && domains[0].id != id {
      FoundDomain(domains[1..], id);
    }
  }

  lemma {:induction false} FindAfterSetStatus(domains: seq<Domain>, target: string, status: string, id: string)
    ensures FindDomain(SetStatus(domains, target, status), id) ==
      if FindDomain(domains, id).Some? && id == target then Some(FindDomain(domains, id).value.(status := status))
      else FindDomain(domains, id)
  {
    if domains != [] {
      assert SetStatus(domains, target, status)[1..] == SetStatus(domains[1..], target, status);
      if domains[0].id != id {
        FindAfterSetStatus(domains[1..], target, status, id);
      }
    }
  }

  /** What a drain that began with `db0` and has marked the items `marks` has done. */
  ghost predicate Drained(db0: Db, db: Db, marks: seq<nat>) {
    && Distinct(marks) && (forall id <- marks :: exists item <- db0.queue :: item.id == id && item.status == Pending)
    && |db.queue| == |db0.queue|
    && (forall k :: 0 <= k < |db.queue| ==>
          if db0.queue[k].id in marks
          then db.queue[k] == db0.queue[k].(status := db.queue[k].status) && db.queue[k].status in {Completed, Failed}
          else db.queue[k] == db0.queue[k])
    && NewGenerations(db0, db)
  }

  /** The generations of a drain: at most one per domain was accepted, and its domain is then busy. */
  ghost predicate NewGenerations(db0: Db, db: Db) {
    && db0.gens <= db.gens
    && db.tasks == db0.tasks + PendingIds(db.gens[|db0.gens|..])
    && (forall i, j :: |db0.gens| <= i < j < |db.gens| && db.gens[i].status == GenPending && db.gens[j].status == GenPending ==>
          db.gens[i].domain != db.gens[j].domain)
    && (forall i :: |db0.gens| <= i < |db.gens| && db.gens[i].status == GenPending ==> Busy(db, db.gens[i].domain))
  }

  function PendingIds(gens: seq<Generation>): seq<nat> {
    if gens == [] then []
    else
      var n := |gens| - 1;
      PendingIds(gens[..n]) + if gens[n].status == GenPending then [gens[n].id] else []
  }

  predicate Busy(db: Db, id: string) {
    var d := FindDomain(db.domains, id);
    d.Some? && d.value.status == "processing"
  }

  lemma MarkingExtends(db0: Db, db: Db, marks: seq<nat>, item: QueueItem, status: ItemStatus)
    requires QueueValid(db0) && Drained(db0, db, marks) && item in db.queue && item.status == Pending
    requires status == Completed || status == Failed
    ensures Drained(db0, db.(queue := MarkedAll(db.queue, {item.id}, status)), marks + [item.id])
  {
    var r := db.(queue := MarkedAll(db.queue, {item.id}, status));
    var k :| 0 <= k < |db.queue| && db.queue[k] == item;
    assert item.id !in marks && db0.queue[k] == item && db0.queue[k] in db0.queue;
    forall j | 0 <= j < |db.queue|
      ensures db.queue[j].id == item.id ==> j == k
      ensures if db0.queue[j].id in marks + [item.id]
        then r.queue[j] == db0.queue[j].(status := r.queue[j].status) && r.queue[j].status in {Completed, Failed}
        else r.queue[j] == db0.queue[j]
    {
      assert db.queue[j].id == db0.queue[j].id;
    }
    assert NewGenerations(db0, r) by {
      assert forall id :: Busy(r, id) <==> Busy(db, id);
    }
  }

  /** A busy domain is never chosen; the chosen one is busy when its task was accepted. */
  lemma BusyAfterItem(db: Db, item: QueueItem, projects: set<string>, accepted: bool, id: string)
    requires Refusal(db, item, projects).None?
    ensures Busy(db, id) ==> id != item.domain && Busy(AfterItem(db, item, projects, accepted), id)
    ensures accepted ==> Busy(AfterItem(db, item, projects, accepted), item.domain)
  {
    var d := FindDomain(db.domains, item.domain).value;
    FoundDomain(db.domains, item.domain);
    if d.status == "processing" { ProcessingIsNotWaiting(d); }
    FindAfterSetStatus(db.domains, item.domain, "processing", id);
    FindAfterSetStatus(db.domains, item.domain, "processing", item.domain);
    FindAfterSetStatus(SetStatus(db.domains, item.domain, "processing"), item.domain, "waiting", id);
  }

  lemma AppendedGeneration(db0: Db, db: Db, r: Db, g: Generation)
    requires NewGenerations(db0, db) && r.gens == db.gens + [g]
    requires r.tasks == db.tasks + if g.status == GenPending then [g.id] else []
    requires forall id :: Busy(db, id) ==> id != g.domain && Busy(r, id)
    requires g.status == GenPending ==> Busy(r, g.domain)
    ensures NewGenerations(db0, r)
  {
    var n, added := |db0.gens|, db.gens[|db0.gens|..];
    assert r.gens[n..] == added + [g] && (added + [g])[..|added|] == added;
    assert PendingIds(added + [g]) == PendingIds(added) + if g.status == GenPending then [g.id] else [];
    forall i | n <= i < |db.gens| && db.gens[i].status == GenPending
      ensures db.gens[i].domain != g.domain && Busy(r, db.gens[i].domain)
    {
      assert Busy(db, db.gens[i].domain);
    }
  }

  lemma AppendGeneration(db0: Db, db: Db, item: QueueItem, projects: set<string>, accepted: bool)
    requires NewGenerations(db0, db) && Refusal(db, item, projects).None?
    ensures NewGenerations(db0, AfterItem(db, item, projects, accepted).(queue := db.queue))
  {
    var r := AfterItem(db, item, projects, accepted).(queue := db.queue);
    BusyAfterItem(db, item, projects, accepted, item.domain);
    forall id
      ensures Busy(db, id) ==> id != item.domain && Busy(r, id)
    {
      BusyAfterItem(db, item, projects, accepted, id);
    }
    AppendedGeneration(db0, db, r, r.gens[|db.gens|]);
  }

  lemma ItemExtends(db0: Db, db: Db, marks: seq<nat>, item: QueueItem, projects: set<string>, accepted: bool)
    requires QueueValid(db0) && Drained(db0, db, marks) && item in db.queue && item.status == Pending
    ensures Drained(db0, AfterItem(db, item, projects, accepted), marks + [item.id])
  {
    var refusal := Refusal(db, item, projects);
    if refusal.Some? {
      MarkingExtends(db0, db, marks, item, refusal.value);
    } else {
      AppendGeneration(db0, db, item, projects, accepted);
      var mid := AfterItem(db, item, projects, accepted).(queue := db.queue);
      MarkingExtends(db0, mid, marks, item, if accepted then Completed else Failed);
    }
  }

  method CreateGeneration(store: Scheduler, item: QueueItem, accepted: bool)
    modifies store
    ensures store.State() == AfterCreation(old(store.State()), item, accepted)
  {
    var id := store.nextId;
    store.nextId := id + 1;
    store.gens := store.gens + [Generation(id, item.domain, GenPending, false, None)];
    store.domains := SetStatus(store.domains, item.domain, "processing");
    if !accepted {
      store.gens := store.gens[|store.gens| - 1 := Generation(id, item.domain, GenError, false, None)];
      store.domains := SetStatus(store.domains, item.domain, "waiting");
      store.MarkProcessed(item.id, Failed);
      return;
    }
    store.tasks := store.tasks + [id];
    store.MarkProcessed(item.id, Completed);
  }

  method ProcessQueueItem(store: Scheduler, item: QueueItem, projects: set<string>, accepted: bool)
    modifies store
    ensures store.State() == AfterItem(old(store.State()), item, projects, accepted)
  {
    var domain := FindDomain(store.domains, item.domain);
    if domain.None? {
      store.MarkProcessed(item.id, Failed);
      return;
    }
    if !IsWaiting(domain.value) {
      store.MarkProcessed(item.id, Completed);
      return;
    }
    if !HasKeyword(domain.value) {
      store.MarkProcessed(item.id, Failed);
      return;
    }
    var last := Newest(store.gens, item.domain);
    if last.Some? {
      if IsActive(last.value.status) {
        store.MarkProcessed(item.id, Completed);
        return;
      }
      if last.value.status == GenError && last.value.retryable {
        store.MarkProcessed(item.id, Completed);
        return;
      }
    }
    if domain.value.project !in projects {
      store.MarkProcessed(item.id, Failed);
      return;
    }
    CreateGeneration(store, item, accepted);
  }

  lemma SetStatusKeepsIds(domains: seq<Domain>, id: string, status: string)
    requires DistinctBy(domains, (d: Domain) => d.id)
    ensures DistinctBy(SetStatus(domains, id, status), (d: Domain) => d.id)
  {
  }

  lemma MarkingKeepsQueue(db: Db, r: Db, id: nat, status: ItemStatus)
    requires QueueValid(db) && r.queue == MarkedAll(db.queue, {id}, status) && r.nextId >= db.nextId
    requires status == Completed || status == Failed
    requires DistinctBy(r.domains, (d: Domain) => d.id)
    ensures QueueValid(r)
  {
    forall item <- r.queue
      ensures item.id < r.nextId
    {
      var k :| 0 <= k < |r.queue| && r.queue[k] == item;
      assert db.queue[k] in db.queue;
    }
  }

  lemma ItemKeepsQueue(db: Db, item: QueueItem, projects: set<string>, accepted: bool)
    requires QueueValid(db)
    ensures QueueValid(AfterItem(db, item, projects, accepted))
  {
    var r := AfterItem(db, item, projects, accepted);
    var refusal := Refusal(db, item, projects);
    SetStatusKeepsIds(db.domains, item.domain, "processing");
    SetStatusKeepsIds(SetStatus(db.domains, item.domain, "processing"), item.domain, "waiting");
    MarkingKeepsQueue(db, r, item.id, if refusal.Some? then refusal.value else if accepted then Completed else Failed);
  }

  const BATCH: nat := 100

  lemma MarksBounded(db0: Db, db: Db, marks: seq<nat>)
    requires Drained(db0, db, marks)
    ensures |marks| <= |db0.queue|
  {
    var ids := seq(|db0.queue|, k requires 0 <= k < |db0.queue| => db0.queue[k].id);
    forall id <- marks
      ensures id in ids
    {
      var item :| item in db0.queue && item.id == id;
      var k :| 0 <= k < |db0.queue| && db0.queue[k] == item;
      assert ids[k] == id;
    }
    DistinctBound(marks, ids);
  }

  /** A batch item that this drain has not marked yet still stands in the queue as it was read. */
  lemma UnmarkedStays(db0: Db, before: Db, after: Db, earlier: seq<nat>, marks: seq<nat>, item: QueueItem)
    requires QueueValid(db0) && Drained(db0, before, earlier) && Drained(db0, after, marks)
    requires item in before.queue && item.status == Pending && item.id !in marks
    ensures item in after.queue
  {
    var k :| 0 <= k < |before.queue| && before.queue[k] == item;
    assert db0.queue[k].id == item.id;
    assert after.queue[k] == db0.queue[k] && (item.id in earlier ==> item.status in {Completed, Failed});
    assert before.queue[k] == db0.queue[k];
  }

  /** One item of a batch. */
  lemma DrainItem(db0: Db, before: Db, db: Db, earlier: seq<nat>, marks: seq<nat>, item: QueueItem, projects: set<string>,
                  accepted: bool)
    requires QueueValid(db0) && Drained(db0, before, earlier) && Drained(db0, db, marks) && QueueValid(db) && GensValid(db)
    requires item in before.queue && item.status == Pending && (item.id in marks ==> item.id in earlier)
    ensures var n := AfterItem(db, item, projects, accepted);
      Drained(db0, n, marks + [item.id]) && QueueValid(n) && GensValid(n)
  {
    MarkedIsNotPending(db0, before, earlier, item);
    UnmarkedStays(db0, before, db, earlier, marks, item);
    ItemKeepsQueue(db, item, projects, accepted);
    ItemKeepsGens(db, item, projects, accepted);
    ItemExtends(db0, db, marks, item, projects, accepted);
  }

  /** One item of a batch that was read in the tables `before`. */
  method DrainOne(store: Scheduler, item: QueueItem, projects: set<string>, accepted: bool,
                  ghost db0: Db, ghost before: Db, ghost earlier: seq<nat>, ghost marks: seq<nat>)
    requires QueueValid(db0) && Drained(db0, before, earlier) && Drained(db0, store.State(), marks)
    requires QueueValid(store.State()) && GensValid(store.State())
    requires item in before.queue && item.status == Pending && (item.id in marks ==> item.id in earlier)
    modifies store
    ensures Drained(db0, store.State(), marks + [item.id]) && QueueValid(store.State()) && GensValid(store.State())
  {
    DrainItem(db0, before, store.State(), earlier, marks, item, projects, accepted);
    ProcessQueueItem(store, item, projects, accepted);
  }

  /** One batch of a drain. */
  method DrainEach(store: Scheduler, items: seq<QueueItem>, projects: set<string>, accepts: nat -> bool, tries: nat,
                   ghost db0: Db, ghost earlier: seq<nat>)
    returns (triesNow: nat, ghost marks: seq<nat>)
    requires QueueValid(db0) && Drained(db0, store.State(), earlier)
    requires QueueValid(store.State()) && GensValid(store.State()) && DistinctBy(items, (item: QueueItem) => item.id)
    requires forall item <- items :: item in store.queue && item.status == Pending
    modifies store
    ensures Drained(db0, store.State(), marks) && QueueValid(store.State()) && GensValid(store.State())
    ensures |marks| == |earlier| + |items|
  {
    triesNow, marks := tries, earlier;
    ghost var before := store.State();
    for i := 0 to |items|
      invariant Drained(db0, store.State(), marks) && QueueValid(store.State()) && GensValid(store.State())
      invariant |marks| == |earlier| + i
      invariant forall id <- marks :: id in earlier || exists j :: 0 <= j < i && items[j].id == id
    {
      var item := items[i];
      assert item in items;
      DrainOne(store, item, projects, accepts(triesNow), db0, before, earlier, marks);
      triesNow := triesNow + 1;
      marks := marks + [item.id];
    }
  }

  /** `processPendingQueue`: `clock(k)` is the database clock at the k-th query, `accepts(k)` the answer of
      the task queue to the k-th attempt. The drain ends whatever the clock does. */
  method ProcessPendingQueue(store: Scheduler, projects: set<string>, clock: nat -> Time, accepts: nat -> bool)
    returns (ghost marks: seq<nat>, ghost end: Time)
    requires QueueValid(store.State()) && GensValid(store.State())
    modifies store
    ensures QueueValid(store.State()) && GensValid(store.State())
    ensures Drained(old(store.State()), store.State(), marks)
    ensures forall item <- store.queue :: !IsDue(item, end)
  {
    marks := [];
    var queries, tries := 0, 0;
    ghost var db0 := store.State();
    while true
      invariant Drained(db0, store.State(), marks) && QueueValid(store.State()) && GensValid(store.State())
      decreases |db0.queue| - |marks|
    {
      var items := GetPending(store.queue, clock(queries), BATCH);
      BatchIsDue(store.queue, clock(queries), BATCH);
      end := clock(queries);
      queries := queries + 1;
      if |items| == 0 {
        return;
      }
      tries, marks := DrainEach(store, items, projects, accepts, tries, db0, marks);
      MarksBounded(db0, store.State(), marks);
    }
  }

  lemma MarkedIsNotPending(db0: Db, db: Db, marks: seq<nat>, item: QueueItem)
    requires QueueValid(db0) && Drained(db0, db, marks) && item in db.queue && item.status == Pending
    ensures item.id !in marks
  {
    var k :| 0 <= k < |db.queue| && db.queue[k] == item;
    assert db0.queue[k].id == item.id;
  }

  // ---------------------------------------------------------------- retrying

  predicate RetryDue(g: Generation, now: Time) {
    AwaitsRetry(g) && g.retryAt.Some? && g.retryAt.value <= now
  }

  function DueForRetry(gens: seq<Generation>, now: Time, limit: nat): seq<Generation> {
    var all := Filter(gens, (g: Generation) => RetryDue(g, now));
    if |all| <= limit then all else all[..limit]
  }

  lemma RetryBatch(gens: seq<Generation>, now: Time, limit: nat)
    requires DistinctBy(gens, (g: Generation) => g.id) && limit > 0
    ensures var batch := DueForRetry(gens, now, limit);
      && DistinctBy(batch, (g: Generation) => g.id)
      && (forall g <- batch :: g in gens && RetryDue(g, now))
      && (batch == [] ==> forall g <- gens :: !RetryDue(g, now))
  {
    FilterDistinctBy(gens, (g: Generation) => RetryDue(g, now), (g: Generation) => g.id);
    forall g
      ensures g in Filter(gens, (g: Generation) => RetryDue(g, now)) <==> g in gens && RetryDue(g, now)
    {
      InFilter(gens, (g: Generation) => RetryDue(g, now), g);
    }
  }

  method RetryGeneration(store: Scheduler, id: nat, accepted: bool)
    modifies store
    ensures store.State() == AfterRetry(old(store.State()), id, accepted)
  {
    store.gens := WithStatus(store.gens, id, GenPending);
    if accepted {
      store.tasks := store.tasks + [id];
    }
  }

  /** What a retry round that began with `db0` has done: the generations `done` are pending again, and each
      of them was either handed to the workers or refused by the task queue. */
  ghost predicate Retried(db0: Db, db: Db, now: Time, done: seq<nat>, refused: seq<nat>) {
    && Distinct(done) && (forall id <- done :: exists g <- db0.gens :: g.id == id && RetryDue(g, now))
    && |db.gens| == |db0.gens|
    && (forall k :: 0 <= k < |db.gens| ==>
          db.gens[k] == if db0.gens[k].id in done then db0.gens[k].(status := GenPending) else db0.gens[k])
    && db0.tasks <= db.tasks
    && multiset(db.tasks[|db0.tasks|..]) + multiset(refused) == multiset(done)
    && db.queue == db0.queue && db.domains == db0.domains && db.nextId == db0.nextId
  }

  lemma RetryExtends(db0: Db, db: Db, now: Time, done: seq<nat>, refused: seq<nat>, g: Generation, accepted: bool)
    requires GensValid(db0) && Retried(db0, db, now, done, refused)
    requires g in db0.gens && RetryDue(g, now) && g.id !in done
    ensures Retried(db0, AfterRetry(db, g.id, accepted), now, done + [g.id], if accepted then refused else refused + [g.id])
  {
    var r := AfterRetry(db, g.id, accepted);
    if accepted {
      assert r.tasks[|db0.tasks|..] == db.tasks[|db0.tasks|..] + [g.id];
    }
  }

  lemma DoneBounded(db0: Db, db: Db, now: Time, done: seq<nat>, refused: seq<nat>)
    requires Retried(db0, db, now, done, refused)
    ensures |done| <= |db0.gens|
  {
    var ids := seq(|db0.gens|, k requires 0 <= k < |db0.gens| => db0.gens[k].id);
    forall id <- done
      ensures id in ids
    {
      var g :| g in db0.gens && g.id == id;
      var k :| 0 <= k < |db0.gens| && db0.gens[k] == g;
      assert ids[k] == id;
    }
    DistinctBound(done, ids);
  }

  lemma RetriedKeepsGens(db0: Db, db: Db, now: Time, done: seq<nat>, refused: seq<nat>)
    requires GensValid(db0) && Retried(db0, db, now, done, refused)
    ensures GensValid(db)
    ensures forall g <- db.gens :: RetryDue(g, now) ==> g in db0.gens && g.id !in done
  {
    forall k | 0 <= k < |db.gens|
      ensures db.gens[k].id == db0.gens[k].id && db.gens[k].domain == db0.gens[k].domain
      ensures Occupies(db.gens[k]) ==> Occupies(db0.gens[k])
      ensures RetryDue(db.gens[k], now) ==> db.gens[k] == db0.gens[k] && db0.gens[k].id !in done
      ensures db0.gens[k] in db0.gens
    {
      if db0.gens[k].id in done {
        var g :| g in db0.gens && g.id == db0.gens[k].id && RetryDue(g, now);
        var j :| 0 <= j < |db0.gens| && db0.gens[j] == g;
      }
    }
  }

  /** One batch of a retry round. */
  method RetryEach(store: Scheduler, gens: seq<Generation>, now: Time, accepts: nat -> bool, tries: nat,
                   ghost db0: Db, ghost earlier: seq<nat>, ghost refusedBefore: seq<nat>)
    returns (triesNow: nat, ghost done: seq<nat>, ghost refused: seq<nat>)
    requires GensValid(db0) && Retried(db0, store.State(), now, earlier, refusedBefore)
    requires DistinctBy(gens, (g: Generation) => g.id)
    requires forall g <- gens :: g in db0.gens && RetryDue(g, now) && g.id !in earlier
    modifies store
    ensures Retried(db0, store.State(), now, done, refused) && |done| == |earlier| + |gens|
  {
    triesNow, done, refused := tries, earlier, refusedBefore;
    for i := 0 to |gens|
      invariant Retried(db0, store.State(), now, done, refused) && |done| == |earlier| + i
      invariant forall id <- done :: id in earlier || exists j :: 0 <= j < i && gens[j].id == id
    {
      assert gens[i] in gens && gens[i].id !in done;
      RetryExtends(db0, store.State(), now, done, refused, gens[i], accepts(triesNow));
      RetryGeneration(store, gens[i].id, accepts(triesNow));
      done := done + [gens[i].id];
      if !accepts(triesNow) {
        refused := refused + [gens[i].id];
      }
      triesNow := triesNow + 1;
    }
  }

  /** `processRetryableGenerations`: every due generation is re-armed exactly once, and the round ends. */
  method ProcessRetryableGenerations(store: Scheduler, now: Time, accepts: nat -> bool)
    returns (ghost done: seq<nat>, ghost refused: seq<nat>)
    requires GensValid(store.State())
    modifies store
    ensures GensValid(store.State()) && Retried(old(store.State()), store.State(), now, done, refused)
    ensures forall g <- store.gens :: !RetryDue(g, now)
  {
    done, refused := [], [];
    var tries := 0;
    ghost var db0 := store.State();
    while true
      invariant Retried(db0, store.State(), now, done, refused)
      decreases |db0.gens| - |done|
    {
      RetriedKeepsGens(db0, store.State(), now, done, refused);
      var gens := DueForRetry(store.gens, now, BATCH);
      RetryBatch(store.gens, now, BATCH);
      if |gens| == 0 {
        return;
      }
      tries, done, refused := RetryEach(store, gens, now, accepts, tries, db0, done, refused);
      DoneBounded(db0, store.State(), now, done, refused);
    }
  }

  // ---------------------------------------------------------------- whole runs

  /** The steps of the scheduler and of its workers. A worker gets a generation by its task. It may give an active
      generation any other status and any retry data, and its domain any status; a generation it ends uses up its
      task. */
  datatype Event =
    | RunsSchedule(schedule: Schedule, now: Time)
    | TakesItem(item: QueueItem, projects: set<string>, accepted: bool)
    | Retries(id: nat, accepted: bool)
    | Works(k: nat, gen: Generation, domainStatus: string)

  ghost predicate Possible(db: Db, e: Event) {
    match e
    case RunsSchedule(_, _) => true
    case TakesItem(item, _, _) => item in db.queue && item.status == Pending
    case Retries(id, _) => exists g <- db.gens :: g.id == id && AwaitsRetry(g)
    case Works(k, g, _) => WorkerMayFinish(db, k, g) && g.id in db.tasks
  }

  function Next(db: Db, e: Event): Db {
    match e
    case RunsSchedule(s, now) => AfterFiring(db, s, now)
    case TakesItem(item, projects, accepted) => AfterItem(db, item, projects, accepted)
    case Retries(id, accepted) => AfterRetry(db, id, accepted)
    case Works(k, g, status) =>
      if k < |db.gens| then
        db.(gens := db.gens[k := g], domains := SetStatus(db.domains, g.domain, status),
            tasks := if IsActive(g.status) then db.tasks else Filter(db.tasks, (t: nat) => t != g.id))
      else db
  }

  ghost predicate Inv(db: Db) {
    QueueValid(db) && GensValid(db)
  }

  lemma FiringKeepsGens(db: Db, s: Schedule, now: Time)
    requires GensValid(db)
    ensures GensValid(AfterFiring(db, s, now))
  {
    forall g <- db.gens
      ensures g.id < AfterFiring(db, s, now).nextId
    {
      assert g.id < db.nextId;
    }
  }

  lemma EventKeepsInv(db: Db, e: Event)
    requires Inv(db) && Possible(db, e)
    ensures Inv(Next(db, e))
  {
    match e
    case RunsSchedule(s, now) =>
      FiringKeepsOneLive(db, s, now);
      FiringKeepsGens(db, s, now);
    case TakesItem(item, projects, accepted) =>
      ItemKeepsQueue(db, item, projects, accepted);
      ItemKeepsGens(db, item, projects, accepted);
    case Retries(id, accepted) => RetryKeepsGens(db, id, accepted);
    case Works(k, g, status) =>
      WorkerKeepsGens(db, k, g);
      SetStatusKeepsIds(db.domains, g.domain, status);
  }

  ghost predicate IsRun(states: seq<Db>, events: seq<Event>) {
    && |states| == |events| + 1
    && forall i :: 0 <= i < |events| ==> Possible(states[i], events[i]) && states[i + 1] == Next(states[i], events[i])
  }

  lemma {:induction false} RunKeepsInv(states: seq<Db>, events: seq<Event>, i: nat)
    requires IsRun(states, events) && Inv(states[0]) && i < |states|
    ensures Inv(states[i])
  {
    if i > 0 {
      RunKeepsInv(states, events, i - 1);
      EventKeepsInv(states[i - 1], events[i - 1]);
    }
  }

  /** In every state of every run of scheduler and workers a domain has at most one live queue item, and at
      most one generation that is active or awaits a retry, which is its newest. */
  lemma OnePerDomain(states: seq<Db>, events: seq<Event>, i: nat)
    requires IsRun(states, events) && Inv(states[0]) && i < |states|
    ensures OneLivePerDomain(states[i].queue)
    ensures var gens := states[i].gens;
      forall a, b | 0 <= a < |gens| && 0 <= b < |gens| && gens[a].domain == gens[b].domain && Occupies(gens[a]) ::
        (Occupies(gens[b]) ==> a == b) && Newest(gens, gens[a].domain) == Some(gens[a])
  {
    RunKeepsInv(states, events, i);
    var gens := states[i].gens;
    forall a, b | 0 <= a < |gens| && 0 <= b < |gens| && gens[a].domain == gens[b].domain && Occupies(gens[a])
      ensures (Occupies(gens[b]) ==> a == b) && Newest(gens, gens[a].domain) == Some(gens[a])
    {
      AtMostOneOccupant(gens, a, b);
    }
  }

  // ---------------------------------------------------------------- the limit of a schedule

  function LiveOf(queue: seq<QueueItem>, schedule: string): nat {
    Count(queue, (item: QueueItem) => IsLive(item) && Mine(item, schedule))
  }

  /** Every live item of the schedule belongs to a domain of the schedule's project. */
  ghost predicate OwnItems(db: Db, s: Schedule) {
    forall item <- db.queue :: IsLive(item) && Mine(item, s.id) ==> item.domain in Ids(InProject(db.domains, s.project))
  }

  ghost predicate WithinLimit(db: Db, s: Schedule) {
    OwnItems(db, s) && LiveOf(db.queue, s.id) <= s.limit
  }

  /** After firing, every live item of the schedule belongs to a waiting domain. */
  lemma LiveItemsWait(db: Db, s: Schedule, now: Time)
    requires QueueValid(db) && OwnItems(db, s)
    ensures forall item <- AfterFiring(db, s, now).queue :: IsLive(item) && Mine(item, s.id) ==>
              item.domain in WaitingIds(db, s.project)
  {
    var waiting := WaitingIds(db, s.project);
    var items := Listed(db, s.project);
    var r := AfterFiring(db, s, now).queue;
    forall k | 0 <= k < |r| && IsLive(r[k]) && Mine(r[k], s.id)
      ensures r[k].domain in waiting
    {
      if k < |db.queue| {
        assert db.queue[k] in db.queue;
        var ids := Ids(InProject(db.domains, s.project));
        InFilter(db.queue, (item: QueueItem) => item.domain in ids, db.queue[k]);
        assert db.queue[k] in items;
      } else {
        ChosenDomains(db, s.project);
        var chosen := ToEnqueue(Eligible(InProject(db.domains, s.project)), EligibleItems(items, waiting));
        assert chosen[k - |db.queue|] in chosen;
      }
    }
  }

  lemma OwnFiringKeepsLimit(db: Db, s: Schedule, now: Time)
    requires QueueValid(db) && s.limit > 0 && WithinLimit(db, s)
    ensures WithinLimit(AfterFiring(db, s, now), s)
  {
    var waiting, r := WaitingIds(db, s.project), AfterFiring(db, s, now);
    LiveItemsWait(db, s, now);
    WaitingInProject(db, s.project);
    FiringSaturates(db, s, now);
    FiringAddsQuota(db, s, now);
    var all := (item: QueueItem) => IsLive(item) && Mine(item, s.id);
    var some := (item: QueueItem) => IsLive(item) && item.domain in waiting && Mine(item, s.id);
    CountPointwise(r.queue, r.queue, all, some);
    CountAtMost(db.queue, db.queue, some, all);
  }

  lemma OtherFiringKeepsLimit(db: Db, s: Schedule, other: Schedule, now: Time)
    requires QueueValid(db) && s.id != other.id && WithinLimit(db, s)
    ensures WithinLimit(AfterFiring(db, other, now), s)
  {
    var settled := MarkedAll(db.queue, StaleItems(Listed(db, other.project), WaitingIds(db, other.project)), Completed);
    var r := AfterFiring(db, other, now);
    var added := r.queue[|db.queue|..];
    assert r.queue == settled + added && r.domains == db.domains;
    forall k | 0 <= k < |added|
      ensures !Mine(added[k], s.id)
    {
      assert added[k] == r.queue[|db.queue| + k];
    }
    OthersItems(db.queue, settled, added, s.id);
    forall k | 0 <= k < |r.queue| && IsLive(r.queue[k]) && Mine(r.queue[k], s.id)
      ensures r.queue[k].domain in Ids(InProject(r.domains, s.project))
    {
      assert k < |db.queue| && db.queue[k] in db.queue;
    }
  }

  /** Fewer live items, and new ones of other schedules. */
  lemma OthersItems(queue: seq<QueueItem>, settled: seq<QueueItem>, added: seq<QueueItem>, schedule: string)
    requires |settled| == |queue|
    requires forall k :: 0 <= k < |queue| ==> settled[k].schedule == queue[k].schedule && (IsLive(settled[k]) ==> IsLive(queue[k]))
    requires forall k :: 0 <= k < |added| ==> !Mine(added[k], schedule)
    ensures LiveOf(settled + added, schedule) <= LiveOf(queue, schedule)
  {
    var all := (item: QueueItem) => IsLive(item) && Mine(item, schedule);
    FilterAppend(settled, added, all);
    CountAtMost(settled, queue, all, all);
    CountAtMost(added, added, all, (item: QueueItem) => false);
    NoneCounted(added);
  }

  lemma {:induction false} NoneCounted<T>(s: seq<T>)
    ensures Count(s, (x: T) => false) == 0
  {
    if s != [] {
      NoneCounted(s[..|s| - 1]);
    }
  }

  lemma IdsAppend(a: seq<Domain>, b: seq<Domain>)
    ensures Ids(a + b) == Ids(a) + Ids(b)
  {
  }

  lemma {:induction false} ProjectIdsKept(domains: seq<Domain>, id: string, status: string, project: string)
    ensures Ids(InProject(SetStatus(domains, id, status), project)) == Ids(InProject(domains, project))
  {
    if domains != [] {
      var n := |domains| - 1;
      ProjectIdsKept(domains[..n], id, status, project);
      var was, now := domains[n], SetStatus(domains, id, status)[n];
      assert SetStatus(domains, id, status)[..n] == SetStatus(domains[..n], id, status);
      assert was.id == now.id && was.project == now.project;
      IdsAppend(InProject(domains[..n], project), if was.project == project then [was] else []);
      IdsAppend(InProject(SetStatus(domains[..n], id, status), project), if now.project == project then [now] else []);
    }
  }

  lemma MarkingKeepsLimit(db: Db, r: Db, s: Schedule, ids: set<nat>, status: ItemStatus)
    requires WithinLimit(db, s) && r.queue == MarkedAll(db.queue, ids, status) && (status == Completed || status == Failed)
    requires Ids(InProject(r.domains, s.project)) == Ids(InProject(db.domains, s.project))
    ensures WithinLimit(r, s)
  {
    var all := (item: QueueItem) => IsLive(item) && Mine(item, s.id);
    CountAtMost(r.queue, db.queue, all, all);
    forall item <- r.queue | all(item)
      ensures item.domain in Ids(InProject(r.domains, s.project))
    {
      var k :| 0 <= k < |r.queue| && r.queue[k] == item;
      assert db.queue[k] in db.queue;
    }
  }

  lemma EventKeepsLimit(db: Db, e: Event, s: Schedule)
    requires Inv(db) && Possible(db, e) && s.limit > 0 && WithinLimit(db, s)
    requires e.RunsSchedule? && e.schedule.id == s.id ==> e.schedule.project == s.project && e.schedule.limit == s.limit
    ensures WithinLimit(Next(db, e), s)
  {
    match e
    case RunsSchedule(other, now) =>
      if other.id == s.id {
        OwnFiringKeepsLimit(db, other, now);
      } else {
        OtherFiringKeepsLimit(db, s, other, now);
      }
    case TakesItem(item, projects, accepted) =>
      var refusal := Refusal(db, item, projects);
      var r := Next(db, e);
      ProjectIdsKept(db.domains, item.domain, "processing", s.project);
      ProjectIdsKept(SetStatus(db.domains, item.domain, "processing"), item.domain, "waiting", s.project);
      MarkingKeepsLimit(db, r, s, {item.id}, if refusal.Some? then refusal.value else if accepted then Completed else Failed);
    case Retries(id, accepted) =>
    case Works(k, g, status) => ProjectIdsKept(db.domains, g.domain, status, s.project);
  }

  /** A schedule whose project and positive limit do not change never has more live items than its limit. */
  lemma {:induction false} LimitHoldsOverRuns(states: seq<Db>, events: seq<Event>, i: nat, s: Schedule)
    requires IsRun(states, events) && Inv(states[0]) && i < |states|
    requires s.limit > 0 && WithinLimit(states[0], s)
    requires forall e <- events :: e.RunsSchedule? && e.schedule.id == s.id ==> e.schedule.project == s.project && e.schedule.limit == s.limit
    ensures WithinLimit(states[i], s)
  {
    if i > 0 {
      LimitHoldsOverRuns(states, events, i - 1, s);
      RunKeepsInv(states, events, i - 1);
      EventKeepsLimit(states[i - 1], events[i - 1], s);
    }
  }

  // ---------------------------------------------------------------- tasks

  /** Every task waits for an active generation. */
  ghost predicate TasksValid(db: Db) {
    && (forall g <- db.gens :: g.id in db.tasks ==> IsActive(g.status))
    && forall t <- db.tasks :: t < db.nextId
  }

  lemma EventKeepsTasks(db: Db, e: Event)
    requires Inv(db) && TasksValid(db) && Possible(db, e)
    ensures TasksValid(Next(db, e))
  {
    var n := Next(db, e);
    match e
    case RunsSchedule(_, _) =>
    case TakesItem(_, _, _) =>
    case Retries(id, _) =>
    case Works(k, g, _) =>
      forall t: nat
        ensures t in Filter(db.tasks, (t: nat) => t != g.id) <==> t in db.tasks && t != g.id
      {
        InFilter(db.tasks, (t: nat) => t != g.id, t);
      }
      forall t <- n.tasks
        ensures t < n.nextId
      {
        assert t in db.tasks;
      }
      forall x <- n.gens
        ensures x.id in n.tasks ==> IsActive(x.status)
      {
        assert x == g || x in db.gens;
      }
  }

  lemma {:induction false} RunKeepsTasks(states: seq<Db>, events: seq<Event>, i: nat)
    requires IsRun(states, events) && Inv(states[0]) && TasksValid(states[0]) && i < |states|
    ensures TasksValid(states[i])
  {
    if i > 0 {
      RunKeepsTasks(states, events, i - 1);
      RunKeepsInv(states, events, i - 1);
      EventKeepsTasks(states[i - 1], events[i - 1]);
    }
  }
}
