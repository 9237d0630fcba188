/** The scheduler's generation side: what a firing schedule puts into the queue (`applySchedulesAt`,
    `enqueueScheduleDomains`) and what the database tables look like afterwards. */
module GenerationQueue {
  import opened Sequences
  import opened Recurrence
  import Text

  datatype Domain = Domain(id: string, project: string, status: string, keyword: string, generationType: string)

  datatype ItemStatus = Pending | Queued | Completed | Failed

  datatype QueueItem = QueueItem(id: nat, domain: string, schedule: Option<string>, priority: int,
                                 scheduledFor: Time, status: ItemStatus)

  datatype GenStatus = GenPending | Processing | PauseRequested | Cancelling | Paused | Cancelled | Success | GenError

  datatype Generation = Generation(id: nat, domain: string, status: GenStatus, retryable: bool, retryAt: Option<Time>)

  /** `zone` is what the schedule's time zone adds to UTC; the two run times are in UTC. */
  datatype Schedule = Schedule(id: string, project: string, rule: Rule, zone: int, limit: int, delayMinutes: nat,
                               lastRun: Option<Time>, nextRun: Option<Time>)

  /** The tables. `queue` and `gens` are in order of creation; `nextId` stands for the fresh ids that
      `uuid.NewString` supplies; `tasks` are the generations
      handed to the workers and not finished. */
  datatype Db = Db(domains: seq<Domain>, queue: seq<QueueItem>, gens: seq<Generation>, nextId: nat, tasks: seq<nat>)

  predicate IsWaiting(d: Domain) {
    Text.EqualFold(Text.TrimSpace(d.status), "waiting")
  }

  predicate IsLive(item: QueueItem) {
    item.status == Pending || item.status == Queued
  }

  predicate Mine(item: QueueItem, schedule: string) {
    item.schedule == Some(schedule)
  }

  function InProject(domains: seq<Domain>, project: string): seq<Domain> {
    Filter(domains, (d: Domain) => d.project == project)
  }

  function Eligible(domains: seq<Domain>): seq<Domain> {
    Filter(domains, (d: Domain) => IsWaiting(d))
  }

  function Ineligible(domains: seq<Domain>): seq<Domain> {
    Filter(domains, (d: Domain) => !IsWaiting(d))
  }

  /** The loop of `filterGenerationDomainsWithReasons`. */
  method FilterGenerationDomains(domains: seq<Domain>) returns (eligible: seq<Domain>, skipped: seq<Domain>)
    ensures eligible == Eligible(domains) && skipped == Ineligible(domains)
  {
    eligible, skipped := [], [];
    for i := 0 to |domains|
      invariant eligible == Eligible(domains[..i]) && skipped == Ineligible(domains[..i])
    {
      FilterStep(domains, i, (d: Domain) => IsWaiting(d));
      FilterStep(domains, i, (d: Domain) => !IsWaiting(d));
      if !IsWaiting(domains[i]) {
        skipped := skipped + [domains[i]];
      } else {
        eligible := eligible + [domains[i]];
      }
    }
    assert domains[..|domains|] == domains;
  }

  /** Eligible and skipped domains are an order-preserving partition of the project's domains. */
  lemma DomainsPartitioned(domains: seq<Domain>) returns (kept: seq<nat>, dropped: seq<nat>)
    ensures multiset(Eligible(domains)) + multiset(Ineligible(domains)) == multiset(domains)
    ensures Embeds(Eligible(domains), domains, kept) && Embeds(Ineligible(domains), domains, dropped)
    ensures forall d :: d in Eligible(domains) <==> d in domains && IsWaiting(d)
  {
    FilterSplits(domains, (d: Domain) => IsWaiting(d), (d: Domain) => !IsWaiting(d));
    kept := FilterEmbeds(domains, (d: Domain) => IsWaiting(d));
    dropped := FilterEmbeds(domains, (d: Domain) => !IsWaiting(d));
    forall d
      ensures d in Eligible(domains) <==> d in domains && IsWaiting(d)
    {
      InFilter(domains, (d: Domain) => IsWaiting(d), d);
    }
  }

  function Ids(domains: seq<Domain>): set<string> {
    set d <- domains :: d.id
  }

  /** The domains that already wait in the queue, among those of `ids`. */
  function QueuedDomains(items: seq<QueueItem>, ids: set<string>): set<string> {
    set item <- items | IsLive(item) && item.domain in ids :: item.domain
  }

  function QueuedForSchedule(items: seq<QueueItem>, ids: set<string>, schedule: string): nat {
    Count(items, (item: QueueItem) => IsLive(item) && item.domain in ids && Mine(item, schedule))
  }

  function EffectiveLimit(limit: int, eligible: nat): int {
    if limit <= 0 then eligible else limit
  }

  function Unqueued(domains: seq<Domain>, queued: set<string>): seq<Domain> {
    Filter(domains, (d: Domain) => d.id !in queued)
  }

  function ToEnqueue(eligible: seq<Domain>, items: seq<QueueItem>): seq<Domain> {
    Unqueued(eligible, QueuedDomains(items, Ids(eligible)))
  }

  lemma UnqueuedStep(domains: seq<Domain>, queued: set<string>, i: nat)
    requires i < |domains|
    ensures Unqueued(domains[..i + 1], queued)
         == Unqueued(domains[..i], queued) + if domains[i].id !in queued then [domains[i]] else []
  {
    FilterStep(domains, i, (d: Domain) => d.id !in queued);
  }

  lemma UnqueuedPrefix(domains: seq<Domain>, queued: set<string>, i: nat)
    requires i <= |domains|
    ensures Unqueued(domains[..i], queued) <= Unqueued(domains, queued)
    ensures i == |domains| ==> Unqueued(domains[..i], queued) == Unqueued(domains, queued)
  {
    assert domains == domains[..i] + domains[i..];
    FilterAppend(domains[..i], domains[i..], (d: Domain) => d.id !in queued);
  }

  /** How many domains a firing schedule enqueues. */
  function Quota(s: Schedule, eligible: seq<Domain>, items: seq<QueueItem>): nat {
    Min(Max(0, EffectiveLimit(s.limit, |eligible|) - QueuedForSchedule(items, Ids(eligible), s.id)),
        |ToEnqueue(eligible, items)|)
  }

  function SpacedTime(now: Time, delayMinutes: nat, k: nat): Time {
    now + k * delayMinutes * 60_000_000_000
  }

  function NewItem(s: Schedule, domain: string, k: nat, now: Time, nextId: nat): QueueItem {
    QueueItem(nextId + k, domain, Some(s.id), 0, SpacedTime(now, s.delayMinutes, k), Pending)
  }

  /** The first `n` of `domains` as new items, spaced by the schedule's delay. */
  function NewItems(s: Schedule, domains: seq<Domain>, n: nat, now: Time, nextId: nat): (r: seq<QueueItem>)
    requires n <= |domains|
    ensures |r| == n && forall k :: 0 <= k < n ==> r[k] == NewItem(s, domains[k].id, k, now, nextId)
  {
    seq(n, k requires 0 <= k < n => NewItem(s, domains[k].id, k, now, nextId))
  }

  /** A queue after items for all of `domains` were added to it. */
  function WithItems(queue: seq<QueueItem>, s: Schedule, domains: seq<Domain>, now: Time, nextId: nat): seq<QueueItem> {
    queue + NewItems(s, domains, |domains|, now, nextId)
  }

  // ---------------------------------------------------------------- one schedule at one tick

  function DecisionAt(s: Schedule, now: Time): Decision {
    s.rule.Decide(now + s.zone, Shifted(s.lastRun, s.zone))
  }

  /** `UPDATE generation_queue SET status=... WHERE id IN ids`. */
  function MarkedAll(queue: seq<QueueItem>, ids: set<nat>, status: ItemStatus): (r: seq<QueueItem>)
    ensures |r| == |queue|
    ensures forall k :: 0 <= k < |r| ==> r[k] == if queue[k].id in ids then queue[k].(status := status) else queue[k]
  {
    seq(|queue|, k requires 0 <= k < |queue| =>
      if queue[k].id in ids then queue[k].(status := status) else queue[k])
  }

  function Listed(db: Db, project: string): seq<QueueItem> {
    Filter(db.queue, (item: QueueItem) => item.domain in Ids(InProject(db.domains, project)))
  }

  function WaitingIds(db: Db, project: string): set<string> {
    Ids(Eligible(InProject(db.domains, project)))
  }

  /** The live items of the project whose domain no longer waits. */
  function StaleItems(items: seq<QueueItem>, waiting: set<string>): set<nat> {
    set item <- items | IsLive(item) && item.domain !in waiting :: item.id
  }

  function EligibleItems(items: seq<QueueItem>, waiting: set<string>): seq<QueueItem> {
    Filter(items, (item: QueueItem) => IsLive(item) && item.domain in waiting)
  }

  lemma EligibleStep(items: seq<QueueItem>, i: nat, waiting: set<string>)
    requires i < |items|
    ensures EligibleItems(items[..i + 1], waiting)
         == EligibleItems(items[..i], waiting) + if IsLive(items[i]) && items[i].domain in waiting then [items[i]] else []
  {
    FilterStep(items, i, (item: QueueItem) => IsLive(item) && item.domain in waiting);
  }

  /** One more item marked, or not. */
  lemma StaleStep(items: seq<QueueItem>, i: nat, waiting: set<string>, queue: seq<QueueItem>)
    requires i < |items|
    ensures var marked := MarkedAll(queue, StaleItems(items[..i], waiting), Completed);
      MarkedAll(queue, StaleItems(items[..i + 1], waiting), Completed)
      == if IsLive(items[i]) && items[i].domain !in waiting then MarkedAll(marked, {items[i].id}, Completed) else marked
  {
    assert items[..i + 1] == items[..i] + [items[i]];
    assert StaleItems(items[..i + 1], waiting)
        == StaleItems(items[..i], waiting) + if IsLive(items[i]) && items[i].domain !in waiting then {items[i].id} else {};
  }

  function Enqueued(db: Db, s: Schedule): nat {
    var eligible := Eligible(InProject(db.domains, s.project));
    Quota(s, eligible, EligibleItems(Listed(db, s.project), WaitingIds(db, s.project)))
  }

  /** The tables after a schedule has fired. */
  function AfterFiring(db: Db, s: Schedule, now: Time): Db {
    var eligible := Eligible(InProject(db.domains, s.project));
    var items := Listed(db, s.project);
    var waiting := WaitingIds(db, s.project);
    var n := Enqueued(db, s);
    db.(queue := MarkedAll(db.queue, StaleItems(items, waiting), Completed)
                 + NewItems(s, ToEnqueue(eligible, EligibleItems(items, waiting)), n, now, db.nextId),
        nextId := db.nextId + n)
  }

  predicate IsDueNow(d: Decision) {
    d.Decided? && d.due
  }

  function AfterSchedule(db: Db, s: Schedule, d: Decision, now: Time): Db {
    if IsDueNow(d) then AfterFiring(db, s, now) else db
  }

  function ScheduleAfter(s: Schedule, d: Decision, now: Time): Schedule {
    if d.Skipped? then s else
    var next := Shifted(d.next, -s.zone);
    if d.due then s.(lastRun := Some(now), nextRun := next)
    else if s.nextRun.None? || next.Some? then s.(nextRun := next)
    else s
  }

  /** All active schedules of one tick, in order. */
  function AfterSchedules(db: Db, schedules: seq<Schedule>, now: Time): (Db, seq<Schedule>) {
    if schedules == [] then (db, [])
    else
      var n := |schedules| - 1;
      var (before, updated) := AfterSchedules(db, schedules[..n], now);
      var d := DecisionAt(schedules[n], now);
      (AfterSchedule(before, schedules[n], d, now), updated + [ScheduleAfter(schedules[n], d, now)])
  }

  class Scheduler {
    var domains: seq<Domain>
    var queue: seq<QueueItem>
    var gens: seq<Generation>
    var nextId: nat
    var tasks: seq<nat>

    function State(): Db
      reads this
    {
      Db(domains, queue, gens, nextId, tasks)
    }

    method MarkProcessed(id: nat, status: ItemStatus)
      modifies this`queue
      ensures queue == MarkedAll(old(queue), {id}, status)
    {
      queue := MarkedAll(queue, {id}, status);
    }

    /** The first loops of `enqueueScheduleDomains`. */
    static method ScanQueue(items: seq<QueueItem>, ids: set<string>, schedule: string)
      returns (queued: set<string>, mine: nat)
      ensures queued == QueuedDomains(items, ids) && mine == QueuedForSchedule(items, ids, schedule)
    {
      queued, mine := {}, 0;
      for i := 0 to |items|
        invariant queued == QueuedDomains(items[..i], ids) && mine == QueuedForSchedule(items[..i], ids, schedule)
      {
        var item := items[i];
        FilterStep(items, i, (item: QueueItem) => IsLive(item) && item.domain in ids && Mine(item, schedule));
        assert items[..i + 1] == items[..i] + [item];
        if item.status != Pending && item.status != Queued {
          continue;
        }
        if item.domain !in ids {
          continue;
        }
        queued := queued + {item.domain};
        if item.schedule == Some(schedule) {
          mine := mine + 1;
        }
      }
      assert items[..|items|] == items;
    }

    /** The last loop of `enqueueScheduleDomains`: up to `remaining` of the eligible domains not queued. */
    method EnqueueUpTo(s: Schedule, eligible: seq<Domain>, queued: set<string>, remaining: nat, now: Time)
      returns (count: nat)
      modifies this`queue, this`nextId
      ensures var todo := Unqueued(eligible, queued);
        && count == Min(remaining, |todo|) && nextId == old(nextId) + count
        && queue == old(queue) + NewItems(s, todo, count, now, old(nextId))
    {
      count := 0;
      var i := 0;
      while i < |eligible| && count < remaining
        invariant i <= |eligible| && count <= remaining && count == |Unqueued(eligible[..i], queued)|
        invariant nextId == old(nextId) + count
        invariant queue == WithItems(old(queue), s, Unqueued(eligible[..i], queued), now, old(nextId))
      {
        var d := eligible[i];
        UnqueuedStep(eligible, queued, i);
        if d.id !in queued {
          var scheduledFor := if s.delayMinutes > 0 then SpacedTime(now, s.delayMinutes, count) else now;
          queue := queue + [QueueItem(nextId, d.id, Some(s.id), 0, scheduledFor, Pending)];
          nextId := nextId + 1;
          count := count + 1;
        }
        i := i + 1;
      }
      UnqueuedPrefix(eligible, queued, i);
    }

    method EnqueueScheduleDomains(s: Schedule, eligible: seq<Domain>, items: seq<QueueItem>, now: Time)
      returns (count: nat)
      modifies this`queue, this`nextId
      ensures count == Quota(s, eligible, items) && nextId == old(nextId) + count
      ensures queue == old(queue) + NewItems(s, ToEnqueue(eligible, items), count, now, old(nextId))
    {
      var ids := set d <- eligible :: d.id;
      var queued, mine := ScanQueue(items, ids, s.id);
      var limit := if s.limit <= 0 then |eligible| else s.limit;
      var remaining := limit - mine;
      if remaining <= 0 {
        return 0;
      }
      count := EnqueueUpTo(s, eligible, queued, remaining, now);
    }

    /** The middle loop of `applySchedulesAt`: completes the queued items whose domain no longer waits and
        returns the others. */
    method SettleQueue(items: seq<QueueItem>, byId: map<string, Domain>) returns (eligible: seq<QueueItem>)
      requires forall item <- items :: item.domain in byId
      modifies this`queue
      ensures var waiting := set id <- byId | IsWaiting(byId[id]);
        && eligible == EligibleItems(items, waiting)
        && queue == MarkedAll(old(queue), StaleItems(items, waiting), Completed)
    {
      var waiting := set id <- byId | IsWaiting(byId[id]);
      eligible := [];
      for i := 0 to |items|
        invariant eligible == EligibleItems(items[..i], waiting)
        invariant queue == MarkedAll(old(queue), StaleItems(items[..i], waiting), Completed)
      {
        var item := items[i];
        EligibleStep(items, i, waiting);
        StaleStep(items, i, waiting, old(queue));
        if item.status == Pending || item.status == Queued {
          if !IsWaiting(byId[item.domain]) {
            MarkProcessed(item.id, Completed);
          } else {
            eligible := eligible + [item];
          }
        }
      }
      assert items[..|items|] == items;
    }

    static method IndexById(listed: seq<Domain>) returns (byId: map<string, Domain>)
      ensures byId.Keys == Ids(listed)
      ensures forall id <- byId :: byId[id].id == id && byId[id] in listed
    {
      byId := map[];
      for i := 0 to |listed|
        invariant byId.Keys == Ids(listed[..i])
        invariant forall id <- byId :: byId[id].id == id && byId[id] in listed
      {
        assert Ids(listed[..i + 1]) == Ids(listed[..i]) + {listed[i].id};
        byId := byId[listed[i].id := listed[i]];
      }
      assert listed[..|listed|] == listed;
    }

    /** A firing schedule: settle the queue of its project, then enqueue. */
    method Fire(s: Schedule, now: Time) returns (enqueued: nat)
      requires DistinctBy(domains, (d: Domain) => d.id)
      modifies this`queue, this`nextId
      ensures State() == AfterFiring(old(State()), s, now) && enqueued == Enqueued(old(State()), s)
    {
      var items := Listed(State(), s.project);
      var listed := InProject(domains, s.project);
      var byId := IndexById(listed);
      ItemsAreOfProject(State(), s.project);
      WaitingById(domains, s.project, byId);
      var eligible, skipped := FilterGenerationDomains(listed);
      var eligibleItems := SettleQueue(items, byId);
      enqueued := EnqueueScheduleDomains(s, eligible, eligibleItems, now);
    }

    /** The body of the loop of `applySchedulesAt`, given the decision about the schedule. */
    method ApplySchedule(s: Schedule, d: Decision, now: Time) returns (updated: Schedule)
      requires DistinctBy(domains, (d: Domain) => d.id)
      modifies this`queue, this`nextId
      ensures State() == AfterSchedule(old(State()), s, d, now) && updated == ScheduleAfter(s, d, now)
    {
      updated := s;
      if d.Skipped? {
        return;
      }
      var next := Shifted(d.next, -s.zone);
      if s.nextRun.None? || (next.Some? && s.nextRun != next) {
        updated := updated.(nextRun := next);
      }
      if !d.due {
        return;
      }
      var enqueued := Fire(s, now);
      updated := updated.(lastRun := Some(now), nextRun := next);
    }

    method ApplySchedulesAt(schedules: seq<Schedule>, now: Time) returns (updated: seq<Schedule>)
      requires DistinctBy(domains, (d: Domain) => d.id)
      modifies this`queue, this`nextId
      ensures (State(), updated) == AfterSchedules(old(State()), schedules, now)
    {
      updated := [];
      for i := 0 to |schedules|
        invariant (State(), updated) == AfterSchedules(old(State()), schedules[..i], now)
      {
        var d := DecisionAt(schedules[i], now);
        var s := ApplySchedule(schedules[i], d, now);
        assert schedules[..i + 1][..i] == schedules[..i];
        updated := updated + [s];
      }
      assert schedules[..|schedules|] == schedules;
    }
  }

  lemma ItemsAreOfProject(db: Db, project: string)
    ensures forall item <- Listed(db, project) :: item.domain in Ids(InProject(db.domains, project))
  {
    forall item <- Listed(db, project)
      ensures item.domain in Ids(InProject(db.domains, project))
    {
      InFilter(db.queue, (item: QueueItem) => item.domain in Ids(InProject(db.domains, project)), item);
    }
  }

  /** With one row per id, looking a domain up by its id finds the row that decides its eligibility. */
  lemma WaitingById(domains: seq<Domain>, project: string, byId: map<string, Domain>)
    requires DistinctBy(domains, (d: Domain) => d.id)
    requires var listed := InProject(domains, project);
      byId.Keys == Ids(listed) && forall id <- byId :: byId[id].id == id && byId[id] in listed
    ensures (set id <- byId | IsWaiting(byId[id])) == Ids(Eligible(InProject(domains, project)))
  {
    FilterDistinctBy(domains, (d: Domain) => d.project == project, (d: Domain) => d.id);
    IndexDecides(InProject(domains, project), byId, (d: Domain) => IsWaiting(d));
  }

  lemma IndexDecides(listed: seq<Domain>, byId: map<string, Domain>, p: Domain -> bool)
    requires DistinctBy(listed, (d: Domain) => d.id)
    requires byId.Keys == Ids(listed) && forall id <- byId :: byId[id].id == id && byId[id] in listed
    ensures (set id <- byId | p(byId[id])) == Ids(Filter(listed, p))
  {
    forall d
      ensures d in Filter(listed, p) <==> d in listed && p(d)
    {
      InFilter(listed, p, d);
    }
    forall d <- listed
      ensures byId[d.id] == d
    {
      var i :| 0 <= i < |listed| && listed[i] == d;
      var j :| 0 <= j < |listed| && listed[j] == byId[d.id];
    }
  }

  // ---------------------------------------------------------------- what firing achieves

  ghost predicate OneLivePerDomain(queue: seq<QueueItem>) {
    forall i, j :: 0 <= i < j < |queue| && IsLive(queue[i]) && IsLive(queue[j]) ==> queue[i].domain != queue[j].domain
  }

  ghost predicate QueueValid(db: Db) {
    && DistinctBy(db.domains, (d: Domain) => d.id)
    && DistinctBy(db.queue, (item: QueueItem) => item.id)
    && (forall item <- db.queue :: item.id < db.nextId)
    && OneLivePerDomain(db.queue)
  }

  /** An item that is still live after settling, of a domain that waits, was seen by the schedule. */
  lemma SeenWhenLive(db: Db, project: string, item: QueueItem)
    requires item in db.queue && IsLive(item) && item.domain in WaitingIds(db, project)
    ensures item.domain in QueuedDomains(EligibleItems(Listed(db, project), WaitingIds(db, project)), WaitingIds(db, project))
  {
    var ids, waiting := Ids(InProject(db.domains, project)), WaitingIds(db, project);
    WaitingInProject(db, project);
    InFilter(db.queue, (item: QueueItem) => item.domain in ids, item);
    InFilter(Listed(db, project), (item: QueueItem) => IsLive(item) && item.domain in waiting, item);
  }

  lemma WaitingInProject(db: Db, project: string)
    ensures WaitingIds(db, project) <= Ids(InProject(db.domains, project))
  {
    forall d <- Eligible(InProject(db.domains, project))
      ensures d in InProject(db.domains, project)
    {
      InFilter(InProject(db.domains, project), (d: Domain) => IsWaiting(d), d);
    }
  }

  /** The domains chosen for the queue are different waiting domains without a live item. */
  lemma ChosenDomains(db: Db, project: string)
    requires QueueValid(db)
    ensures var items := EligibleItems(Listed(db, project), WaitingIds(db, project));
      var chosen := ToEnqueue(Eligible(InProject(db.domains, project)), items);
      && DistinctBy(chosen, (d: Domain) => d.id)
      && forall d <- chosen :: d.id in WaitingIds(db, project)
                               && forall item <- db.queue :: IsLive(item) ==> item.domain != d.id
  {
    var waiting := WaitingIds(db, project);
    var eligible := Eligible(InProject(db.domains, project));
    var items := EligibleItems(Listed(db, project), waiting);
    FilterDistinctBy(db.domains, (d: Domain) => d.project == project, (d: Domain) => d.id);
    FilterDistinctBy(InProject(db.domains, project), (d: Domain) => IsWaiting(d), (d: Domain) => d.id);
    var queued := QueuedDomains(items, waiting);
    FilterDistinctBy(eligible, (d: Domain) => d.id !in queued, (d: Domain) => d.id);
    forall d <- ToEnqueue(eligible, items)
      ensures d in eligible && d.id !in queued
    {
      InFilter(eligible, (d: Domain) => d.id !in queued, d);
    }
    forall d <- ToEnqueue(eligible, items), item <- db.queue | IsLive(item)
      ensures item.domain != d.id
    {
      if item.domain == d.id {
        SeenWhenLive(db, project, item);
      }
    }
  }

  /** Adding one pending item each for different domains without a live item keeps one live item per domain. */
  lemma AddingKeepsOneLive(queue: seq<QueueItem>, s: Schedule, domains: seq<Domain>, n: nat, now: Time, nextId: nat)
    requires OneLivePerDomain(queue) && DistinctBy(domains, (d: Domain) => d.id) && n <= |domains|
    requires forall d <- domains, item <- queue :: IsLive(item) ==> item.domain != d.id
    requires DistinctBy(queue, (item: QueueItem) => item.id) && forall item <- queue :: item.id < nextId
    ensures var r := queue + NewItems(s, domains, n, now, nextId);
      OneLivePerDomain(r) && DistinctBy(r, (item: QueueItem) => item.id) && forall item <- r :: item.id < nextId + n
  {
    var added := NewItems(s, domains, n, now, nextId);
    var r := queue + added;
    forall i, j | 0 <= i < j < |r|
      ensures r[i].id != r[j].id && (IsLive(r[i]) && IsLive(r[j]) ==> r[i].domain != r[j].domain)
    {
      if j >= |queue| {
        assert r[j] == added[j - |queue|] && domains[j - |queue|] in domains;
        if i < |queue| {
          assert r[i] in queue;
        }
      }
    }
  }

  /** A firing schedule never gives a domain a second live item. */
  lemma FiringKeepsOneLive(db: Db, s: Schedule, now: Time)
    requires QueueValid(db)
    ensures QueueValid(AfterFiring(db, s, now))
  {
    var waiting := WaitingIds(db, s.project);
    var items := Listed(db, s.project);
    var settled := MarkedAll(db.queue, StaleItems(items, waiting), Completed);
    ChosenDomains(db, s.project);
    AddingKeepsOneLive(settled, s, ToEnqueue(Eligible(InProject(db.domains, s.project)), EligibleItems(items, waiting)),
                       Enqueued(db, s), now, db.nextId);
  }

  /** The live items that a schedule has in the queue, among the domains of `ids`. */
  function LiveFor(queue: seq<QueueItem>, ids: set<string>, schedule: string): nat {
    Count(queue, (item: QueueItem) => IsLive(item) && item.domain in ids && Mine(item, schedule))
  }

  /** What `enqueueScheduleDomains` counts is every live item that the schedule has for a waiting domain. */
  lemma QueuedForScheduleIsLiveFor(db: Db, s: Schedule)
    ensures var waiting := WaitingIds(db, s.project);
      QueuedForSchedule(EligibleItems(Listed(db, s.project), waiting), waiting, s.id) == LiveFor(db.queue, waiting, s.id)
  {
    var ids, waiting := Ids(InProject(db.domains, s.project)), WaitingIds(db, s.project);
    WaitingInProject(db, s.project);
    var mine := (item: QueueItem) => IsLive(item) && item.domain in waiting && Mine(item, s.id);
    CountFilter(Listed(db, s.project), (item: QueueItem) => IsLive(item) && item.domain in waiting, mine, mine);
    CountFilter(db.queue, (item: QueueItem) => item.domain in ids, mine, mine);
  }

  lemma AddedAreMine(s: Schedule, domains: seq<Domain>, n: nat, now: Time, nextId: nat, waiting: set<string>)
    requires n <= |domains| && forall d <- domains :: d.id in waiting
    ensures LiveFor(NewItems(s, domains, n, now, nextId), waiting, s.id) == n
  {
    var added := NewItems(s, domains, n, now, nextId);
    var mine := (item: QueueItem) => IsLive(item) && item.domain in waiting && Mine(item, s.id);
    forall item <- added
      ensures mine(item)
    {
      var k :| 0 <= k < |added| && added[k] == item;
      assert domains[k] in domains;
    }
    FilterAll(added, mine);
  }

  lemma SettlingKeepsWaiting(db: Db, project: string, schedule: string)
    requires QueueValid(db)
    ensures var waiting := WaitingIds(db, project);
      LiveFor(MarkedAll(db.queue, StaleItems(Listed(db, project), waiting), Completed), waiting, schedule)
      == LiveFor(db.queue, waiting, schedule)
  {
    var waiting := WaitingIds(db, project);
    var stale := StaleItems(Listed(db, project), waiting);
    var settled := MarkedAll(db.queue, stale, Completed);
    var mine := (item: QueueItem) => IsLive(item) && item.domain in waiting && Mine(item, schedule);
    forall k | 0 <= k < |db.queue|
      ensures mine(settled[k]) == mine(db.queue[k])
    {
      if db.queue[k].id in stale {
        StaleIsNotWaiting(db, project, k);
      }
    }
    CountPointwise(settled, db.queue, mine, mine);
  }

  /** Firing adds exactly its quota to the schedule's live items. */
  lemma FiringAddsQuota(db: Db, s: Schedule, now: Time)
    requires QueueValid(db)
    ensures var waiting := WaitingIds(db, s.project);
      LiveFor(AfterFiring(db, s, now).queue, waiting, s.id) == LiveFor(db.queue, waiting, s.id) + Enqueued(db, s)
  {
    var waiting := WaitingIds(db, s.project);
    var settled := MarkedAll(db.queue, StaleItems(Listed(db, s.project), waiting), Completed);
    var chosen := ToEnqueue(Eligible(InProject(db.domains, s.project)), EligibleItems(Listed(db, s.project), waiting));
    var n := Enqueued(db, s);
    ChosenDomains(db, s.project);
    SettlingKeepsWaiting(db, s.project, s.id);
    AddedAreMine(s, chosen, n, now, db.nextId, waiting);
    FilterAppend(settled, NewItems(s, chosen, n, now, db.nextId),
                 (item: QueueItem) => IsLive(item) && item.domain in waiting && Mine(item, s.id));
  }

  lemma SameIdSameItem(queue: seq<QueueItem>, a: QueueItem, b: QueueItem)
    requires DistinctBy(queue, (item: QueueItem) => item.id) && a in queue && b in queue && a.id == b.id
    ensures a == b
  {
    var i :| 0 <= i < |queue| && queue[i] == a;
    var j :| 0 <= j < |queue| && queue[j] == b;
  }

  lemma StaleIsNotWaiting(db: Db, project: string, k: nat)
    requires QueueValid(db) && k < |db.queue|
    requires db.queue[k].id in StaleItems(Listed(db, project), WaitingIds(db, project))
    ensures db.queue[k].domain !in WaitingIds(db, project)
  {
    var ids := Ids(InProject(db.domains, project));
    var waiting := WaitingIds(db, project);
    var item :| item in Listed(db, project) && item.id == db.queue[k].id && item.domain !in waiting;
    InFilter(db.queue, (item: QueueItem) => item.domain in ids, item);
    SameIdSameItem(db.queue, db.queue[k], item);
  }

  /** After firing the limit is respected wherever anything was added, and nothing more could have been added:
      either every waiting domain has a live item, or the schedule is at its limit. */
  lemma FiringSaturates(db: Db, s: Schedule, now: Time)
    requires QueueValid(db)
    ensures var waiting, after := WaitingIds(db, s.project), AfterFiring(db, s, now);
      var limit := EffectiveLimit(s.limit, |Eligible(InProject(db.domains, s.project))|);
      && (Enqueued(db, s) > 0 ==> LiveFor(after.queue, waiting, s.id) <= limit)
      && (LiveFor(after.queue, waiting, s.id) >= limit
          || forall id <- waiting :: exists item <- after.queue :: IsLive(item) && item.domain == id)
  {
    FiringAddsQuota(db, s, now);
    QueuedForScheduleIsLiveFor(db, s);
    var waiting, after := WaitingIds(db, s.project), AfterFiring(db, s, now);
    var eligible := Eligible(InProject(db.domains, s.project));
    var limit := EffectiveLimit(s.limit, |eligible|);
    if LiveFor(after.queue, waiting, s.id) < limit {
      forall id <- waiting
        ensures exists item <- after.queue :: IsLive(item) && item.domain == id
      {
        WaitingHasLiveItem(db, s, now, id);
      }
    }
  }

  lemma WaitingHasLiveItem(db: Db, s: Schedule, now: Time, id: string)
    requires QueueValid(db) && id in WaitingIds(db, s.project)
    requires var eligible := Eligible(InProject(db.domains, s.project));
      Enqueued(db, s) == |ToEnqueue(eligible, EligibleItems(Listed(db, s.project), WaitingIds(db, s.project)))|
    ensures exists item <- AfterFiring(db, s, now).queue :: IsLive(item) && item.domain == id
  {
    var waiting := WaitingIds(db, s.project);
    var eligible := Eligible(InProject(db.domains, s.project));
    var items := EligibleItems(Listed(db, s.project), waiting);
    var queued := QueuedDomains(items, waiting);
    var after := AfterFiring(db, s, now);
    var d :| d in eligible && d.id == id;
    if id in queued {
      var item :| item in items && IsLive(item) && item.domain == id;
      InFilter(Listed(db, s.project), (item: QueueItem) => IsLive(item) && item.domain in waiting, item);
      ListedInQueue(db, s.project, item);
      var k :| 0 <= k < |db.queue| && db.queue[k] == item;
      if db.queue[k].id in StaleItems(Listed(db, s.project), waiting) {
        StaleIsNotWaiting(db, s.project, k);
      }
      assert after.queue[k] == item;
    } else {
      InFilter(eligible, (d: Domain) => d.id !in queued, d);
      var chosen := ToEnqueue(eligible, items);
      var k :| 0 <= k < |chosen| && chosen[k] == d;
      assert after.queue[|db.queue| + k].domain == id;
    }
  }

  lemma ListedInQueue(db: Db, project: string, item: QueueItem)
    requires item in Listed(db, project)
    ensures item in db.queue
  {
    var ids := Ids(InProject(db.domains, project));
    InFilter(db.queue, (item: QueueItem) => item.domain in ids, item);
  }
}
