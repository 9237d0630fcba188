/** Runs of the scheduler, one store access after the other, with a task queue that delivers a generation task again
    after its handler has failed (`asynq.MaxRetry(5)`): what becomes of one generation per domain, and of a retry that
    the task queue refuses. */
module Redelivery {
  import opened Sequences
  import opened Recurrence
  import opened GenerationQueue
  import opened GenerationRuns
  import Text

  /** The tables, whose `tasks` are the deliveries that are due; the generations that handlers work at, once for each of
      these handlers; the queue item that has passed all checks of the scheduler, if it is about to get a generation; and
      the generations that the scheduler has listed for a retry and not re-armed yet. */
  datatype System = System(db: Db, running: seq<nat>, checked: Option<QueueItem>, listed: seq<nat>)

  /** The scheduler, which does one thing after the other, fires a schedule, checks a queue item and creates its
      generation, lists the generations that are due for a retry and re-arms the next one. Meanwhile a delivery begins,
      a handler under way writes whatever it likes about its generation and its domain, or it returns. With `again` it
      has returned an error and deliveries are left. */
  datatype Step =
    | Fires(schedule: Schedule, now: Time)
    | Checks(item: QueueItem, projects: set<string>)
    | Creates(accepted: bool)
    | Lists(now: Time)
    | Rearms(accepted: bool)
    | Starts(k: nat, at: nat, domainStatus: string)
    | Writes(k: nat, gen: Generation, at: nat, domainStatus: string)
    | Returns(at: nat, again: bool)

  /** The scheduler is done with what it did before. */
  predicate Idle(s: System) {
    s.checked.None? && s.listed == []
  }

  predicate CanStep(s: System, step: Step) {
    match step
    case Fires(_, _) => Idle(s)
    case Checks(item, _) => Idle(s) && item in s.db.queue && item.status == Pending
    case Creates(_) => s.checked.Some?
    case Lists(_) => Idle(s)
    case Rearms(_) => s.listed != []
    case Starts(k, at, _) => k < |s.db.gens| && at < |s.db.tasks| && s.db.tasks[at] == s.db.gens[k].id
    case Writes(k, g, at, _) =>
      && k < |s.db.gens| && at < |s.running| && s.running[at] == s.db.gens[k].id
      && g.id == s.db.gens[k].id && g.domain == s.db.gens[k].domain
    case Returns(at, _) => at < |s.running|
  }

  function Without<T>(s: seq<T>, at: nat): (r: seq<T>)
    requires at < |s|
    ensures forall x <- r :: x in s
  {
    s[..at] + s[at + 1..]
  }

  /** What a delivery makes of the status that it finds. */
  function StatusAtStart(status: GenStatus): GenStatus {
    match status
    case PauseRequested => Paused
    case Cancelling => Cancelled
    case GenPending => Processing
    case GenError => Processing
    case _ => status
  }

  function GenIds(gens: seq<Generation>): seq<nat> {
    seq(|gens|, i requires 0 <= i < |gens| => gens[i].id)
  }

  function AfterStep(s: System, step: Step): System
    requires CanStep(s, step)
  {
    match step
    case Fires(schedule, now) => s.(db := AfterFiring(s.db, schedule, now))
    case Checks(item, projects) =>
      var refusal := Refusal(s.db, item, projects);
      if refusal.Some? then s.(db := s.db.(queue := MarkedAll(s.db.queue, {item.id}, refusal.value)))
      else s.(checked := Some(item))
    case Creates(accepted) => s.(db := AfterCreation(s.db, s.checked.value, accepted), checked := None)
    case Lists(now) => s.(listed := GenIds(DueForRetry(s.db.gens, now, BATCH)))
    case Rearms(accepted) => s.(db := AfterRetry(s.db, s.listed[0], accepted), listed := s.listed[1..])
    case Starts(k, at, domainStatus) =>
      var g := s.db.gens[k];
      var found := g.(status := StatusAtStart(g.status));
      var db := s.db.(gens := s.db.gens[k := found], tasks := Without(s.db.tasks, at));
      if found.status == Processing then s.(db := db, running := s.running + [g.id])
      else if found.status != g.status then s.(db := db.(domains := SetStatus(db.domains, g.domain, domainStatus)))
      else s.(db := db)
    case Writes(k, g, _, domainStatus) =>
      s.(db := s.db.(gens := s.db.gens[k := g], domains := SetStatus(s.db.domains, g.domain, domainStatus)))
    case Returns(at, again) =>
      s.(db := s.db.(tasks := s.db.tasks + if again then [s.running[at]] else []), running := Without(s.running, at))
  }

  predicate StepAt(states: seq<System>, steps: seq<Step>, i: nat) {
    && i < |steps| && i + 1 < |states|
    && CanStep(states[i], steps[i]) && states[i + 1] == AfterStep(states[i], steps[i])
  }

  ghost predicate IsRunOf(states: seq<System>, steps: seq<Step>) {
    && |states| == |steps| + 1
    && forall i: nat {:trigger StepAt(states, steps, i)} :: i < |steps| ==> StepAt(states, steps, i)
  }

  ghost predicate IdsValid(s: System) {
    && DistinctBy(s.db.gens, (g: Generation) => g.id)
    && (forall g <- s.db.gens :: g.id < s.db.nextId)
    && (forall t <- s.db.tasks :: t < s.db.nextId)
    && (forall t <- s.running :: t < s.db.nextId)
    && (forall t <- s.listed :: t < s.db.nextId) && Distinct(s.listed)
  }

  lemma StepKeepsIds(s: System, step: Step)
    requires IdsValid(s) && CanStep(s, step)
    ensures IdsValid(AfterStep(s, step))
  {
    match step
    case Fires(_, _) =>
    case Checks(_, _) =>
    case Creates(accepted) => CreationKeepsIds(s, s.checked.value, accepted);
    case Lists(now) => ListingKeepsIds(s, now);
    case Rearms(accepted) => RearmingKeepsIds(s, accepted);
    case Starts(k, _, _) =>
      RewritingKeepsIds(s.db, k, s.db.gens[k].(status := StatusAtStart(s.db.gens[k].status)));
      assert s.db.gens[k] in s.db.gens;
    case Writes(k, g, _, _) => RewritingKeepsIds(s.db, k, g);
    case Returns(at, _) => assert s.running[at] in s.running;
  }

  lemma RewritingKeepsIds(db: Db, k: nat, g: Generation)
    requires DistinctBy(db.gens, (g: Generation) => g.id) && forall g <- db.gens :: g.id < db.nextId
    requires k < |db.gens| && g.id == db.gens[k].id
    ensures DistinctBy(db.gens[k := g], (g: Generation) => g.id) && forall x <- db.gens[k := g] :: x.id < db.nextId
  {
    assert db.gens[k] in db.gens;
    forall x <- db.gens[k := g]
      ensures x.id < db.nextId
    {
      assert x == g || x in db.gens;
    }
  }

  lemma CreationKeepsIds(s: System, item: QueueItem, accepted: bool)
    requires IdsValid(s)
    ensures IdsValid(s.(db := AfterCreation(s.db, item, accepted), checked := None))
  {
  }

  lemma ListingKeepsIds(s: System, now: Time)
    requires IdsValid(s)
    ensures IdsValid(s.(listed := GenIds(DueForRetry(s.db.gens, now, BATCH))))
  {
    var batch := DueForRetry(s.db.gens, now, BATCH);
    RetryBatch(s.db.gens, now, BATCH);
    forall t <- GenIds(batch)
      ensures t < s.db.nextId
    {
      var i :| 0 <= i < |batch| && batch[i].id == t;
      assert batch[i] in batch;
    }
  }

  lemma RearmingKeepsIds(s: System, accepted: bool)
    requires IdsValid(s) && s.listed != []
    ensures IdsValid(s.(db := AfterRetry(s.db, s.listed[0], accepted), listed := s.listed[1..]))
  {
    assert s.listed[0] in s.listed && forall x <- s.listed[1..] :: x in s.listed;
    var r := AfterRetry(s.db, s.listed[0], accepted);
    forall g <- r.gens
      ensures g.id < r.nextId
    {
      var k :| 0 <= k < |r.gens| && r.gens[k] == g;
      assert s.db.gens[k] in s.db.gens;
    }
  }

  lemma {:induction false} RunKeepsIds(states: seq<System>, steps: seq<Step>, i: nat)
    requires IsRunOf(states, steps) && IdsValid(states[0]) && i < |states|
    ensures IdsValid(states[i])
  {
    if i > 0 {
      RunKeepsIds(states, steps, i - 1);
      assert StepAt(states, steps, i - 1);
      StepKeepsIds(states[i - 1], steps[i - 1]);
    }
  }

  // ---------------------------------------------------------------- one generation per domain

  /** A newer generation of its domain has been created. */
  predicate Superseded(gens: seq<Generation>, k: nat) {
    exists j :: k < j < |gens| && k < |gens| && gens[j].domain == gens[k].domain
  }

  predicate Occupied(gens: seq<Generation>, domain: string) {
    exists g <- gens :: g.domain == domain && Occupies(g)
  }

  /** A generation is created for a domain that has been occupied since its check, or an older generation of a domain
      comes back: the scheduler re-arms it, a delivery takes up its error, or a handler puts it back to work or up for
      a retry. */
  ghost predicate Collides(s: System, step: Step) {
    match step
    case Creates(_) => s.checked.Some? && Occupied(s.db.gens, s.checked.value.domain)
    case Rearms(_) => s.listed != [] && exists k: nat :: k < |s.db.gens| && s.db.gens[k].id == s.listed[0] && Superseded(s.db.gens, k)
    case Starts(k, _, _) => k < |s.db.gens| && s.db.gens[k].status == GenError && Superseded(s.db.gens, k)
    case Writes(k, g, _, _) => Occupies(g) && Superseded(s.db.gens, k)
    case _ => false
  }

  /** A step of the system leaves each domain to its newest generation exactly when it does not collide. */
  lemma OneOccupantStep(s: System, step: Step)
    requires IdsValid(s) && OnlyNewestOccupies(s.db.gens) && CanStep(s, step)
    ensures OnlyNewestOccupies(AfterStep(s, step).db.gens) <==> !Collides(s, step)
  {
    var gens := s.db.gens;
    match step
    case Fires(_, _) =>
    case Checks(_, _) =>
    case Creates(accepted) => AppendKeepsOne(gens, AfterCreation(s.db, s.checked.value, accepted).gens[|gens|]);
    case Lists(_) =>
    case Rearms(_) => RearmKeepsOne(gens, s.listed[0]);
    case Starts(k, _, _) => RewriteKeepsOne(gens, k, gens[k].(status := StatusAtStart(gens[k].status)));
    case Writes(k, g, _, _) => RewriteKeepsOne(gens, k, g);
    case Returns(_, _) =>
  }

  lemma AppendKeepsOne(gens: seq<Generation>, g: Generation)
    requires OnlyNewestOccupies(gens)
    ensures OnlyNewestOccupies(gens + [g]) <==> !Occupied(gens, g.domain)
  {
    var next := gens + [g];
    if Occupied(gens, g.domain) {
      var x :| x in gens && x.domain == g.domain && Occupies(x);
      var i :| 0 <= i < |gens| && gens[i] == x;
      assert next[i] == x && next[|gens|] == g;
    }
  }

  lemma RearmKeepsOne(gens: seq<Generation>, id: nat)
    requires OnlyNewestOccupies(gens) && DistinctBy(gens, (g: Generation) => g.id)
    ensures OnlyNewestOccupies(WithStatus(gens, id, GenPending)) <==>
            !exists k: nat :: k < |gens| && gens[k].id == id && Superseded(gens, k)
  {
    var next := WithStatus(gens, id, GenPending);
    if k: nat :| k < |gens| && gens[k].id == id {
      forall i | 0 <= i < |gens|
        ensures i != k ==> next[i] == gens[i]
      {
        assert i < k ==> gens[i].id != gens[k].id;
        assert i > k ==> gens[k].id != gens[i].id;
      }
      assert next == gens[k := gens[k].(status := GenPending)];
      RewriteKeepsOne(gens, k, gens[k].(status := GenPending));
    } else {
      assert next == gens;
    }
  }

  lemma RewriteKeepsOne(gens: seq<Generation>, k: nat, g: Generation)
    requires OnlyNewestOccupies(gens) && k < |gens| && g.domain == gens[k].domain
    ensures OnlyNewestOccupies(gens[k := g]) <==> !(Occupies(g) && Superseded(gens, k))
  {
    var next := gens[k := g];
    if Occupies(g) && Superseded(gens, k) {
      var j :| k < j < |gens| && gens[j].domain == gens[k].domain;
      assert next[k].domain == next[j].domain && Occupies(next[k]);
    }
  }

  /** In every run, redeliveries included, every state leaves each domain to its newest generation exactly when no step
      collides. */
  lemma OneOccupantExactly(states: seq<System>, steps: seq<Step>)
    requires IsRunOf(states, steps) && IdsValid(states[0]) && OnlyNewestOccupies(states[0].db.gens)
    ensures (forall s <- states :: OnlyNewestOccupies(s.db.gens)) <==>
            (forall i: nat :: i < |steps| ==> !Collides(states[i], steps[i]))
  {
    if forall i: nat :: i < |steps| ==> !Collides(states[i], steps[i]) {
      forall i | 0 <= i < |states|
        ensures OnlyNewestOccupies(states[i].db.gens)
      {
        FreeUpTo(states, steps, i);
      }
    }
    if forall s <- states :: OnlyNewestOccupies(s.db.gens) {
      forall i: nat | i < |steps|
        ensures !Collides(states[i], steps[i])
      {
        RunKeepsIds(states, steps, i);
        assert StepAt(states, steps, i);
        assert states[i] in states && states[i + 1] in states;
        OneOccupantStep(states[i], steps[i]);
      }
    }
  }

  lemma {:induction false} FreeUpTo(states: seq<System>, steps: seq<Step>, i: nat)
    requires IsRunOf(states, steps) && IdsValid(states[0]) && OnlyNewestOccupies(states[0].db.gens) && i < |states|
    requires forall j: nat :: j < i ==> !Collides(states[j], steps[j])
    ensures OnlyNewestOccupies(states[i].db.gens)
  {
    if i > 0 {
      FreeUpTo(states, steps, i - 1);
      RunKeepsIds(states, steps, i - 1);
      assert StepAt(states, steps, i - 1);
      var before, step := states[i - 1], steps[i - 1];
      OneOccupantStep(before, step);
      assert states[i] == AfterStep(before, step) && !Collides(before, step);
    }
  }

  // ---------------------------------------------------------------- the queue

  lemma StepKeepsQueue(s: System, step: Step)
    requires QueueValid(s.db) && CanStep(s, step)
    ensures QueueValid(AfterStep(s, step).db)
  {
    match step
    case Fires(schedule, now) => FiringKeepsOneLive(s.db, schedule, now);
    case Checks(item, projects) =>
      if Refusal(s.db, item, projects).Some? {
        MarkingKeepsQueue(s.db, AfterStep(s, step).db, item.id, Refusal(s.db, item, projects).value);
      }
    case Creates(accepted) => CreationKeepsQueue(s.db, s.checked.value, accepted);
    case Lists(_) =>
    case Rearms(_) =>
    case Starts(k, _, status) => SetStatusKeepsIds(s.db.domains, s.db.gens[k].domain, status);
    case Writes(_, g, _, status) => SetStatusKeepsIds(s.db.domains, g.domain, status);
    case Returns(_, _) =>
  }

  lemma CreationKeepsQueue(db: Db, item: QueueItem, accepted: bool)
    requires QueueValid(db)
    ensures QueueValid(AfterCreation(db, item, accepted))
  {
    SetStatusKeepsIds(db.domains, item.domain, "processing");
    SetStatusKeepsIds(SetStatus(db.domains, item.domain, "processing"), item.domain, "waiting");
    MarkingKeepsQueue(db, AfterCreation(db, item, accepted), item.id, if accepted then Completed else Failed);
  }

  lemma StepKeepsLimit(s: System, step: Step, schedule: Schedule)
    requires QueueValid(s.db) && CanStep(s, step) && schedule.limit > 0 && WithinLimit(s.db, schedule)
    requires step.Fires? && step.schedule.id == schedule.id ==>
      step.schedule.project == schedule.project && step.schedule.limit == schedule.limit
    ensures WithinLimit(AfterStep(s, step).db, schedule)
  {
    match step
    case Fires(other, now) =>
      if other.id == schedule.id {
        OwnFiringKeepsLimit(s.db, other, now);
      } else {
        OtherFiringKeepsLimit(s.db, schedule, other, now);
      }
    case Checks(item, projects) =>
      if Refusal(s.db, item, projects).Some? {
        MarkingKeepsLimit(s.db, AfterStep(s, step).db, schedule, {item.id}, Refusal(s.db, item, projects).value);
      }
    case Creates(accepted) => CreationKeepsLimit(s.db, s.checked.value, accepted, schedule);
    case Lists(_) =>
    case Rearms(_) =>
    case Starts(k, _, status) => ProjectIdsKept(s.db.domains, s.db.gens[k].domain, status, schedule.project);
    case Writes(_, g, _, status) => ProjectIdsKept(s.db.domains, g.domain, status, schedule.project);
    case Returns(_, _) =>
  }

  lemma CreationKeepsLimit(db: Db, item: QueueItem, accepted: bool, schedule: Schedule)
    requires WithinLimit(db, schedule)
    ensures WithinLimit(AfterCreation(db, item, accepted), schedule)
  {
    ProjectIdsKept(db.domains, item.domain, "processing", schedule.project);
    ProjectIdsKept(SetStatus(db.domains, item.domain, "processing"), item.domain, "waiting", schedule.project);
    MarkingKeepsLimit(db, AfterCreation(db, item, accepted), schedule, {item.id}, if accepted then Completed else Failed);
  }

  /** In every run, redeliveries and collisions included, a domain has at most one live queue item. */
  lemma {:induction false} OneLiveOverRuns(states: seq<System>, steps: seq<Step>, i: nat)
    requires IsRunOf(states, steps) && QueueValid(states[0].db) && i < |states|
    ensures QueueValid(states[i].db) && OneLivePerDomain(states[i].db.queue)
  {
    if i > 0 {
      OneLiveOverRuns(states, steps, i - 1);
      assert StepAt(states, steps, i - 1);
      StepKeepsQueue(states[i - 1], steps[i - 1]);
    }
  }

  /** And a schedule whose project and positive limit do not change never has more live items than its limit. */
  lemma {:induction false} LimitOverRuns(states: seq<System>, steps: seq<Step>, i: nat, schedule: Schedule)
    requires IsRunOf(states, steps) && QueueValid(states[0].db) && i < |states|
    requires schedule.limit > 0 && WithinLimit(states[0].db, schedule)
    requires forall step <- steps :: step.Fires? && step.schedule.id == schedule.id ==>
      step.schedule.project == schedule.project && step.schedule.limit == schedule.limit
    ensures WithinLimit(states[i].db, schedule)
  {
    if i > 0 {
      LimitOverRuns(states, steps, i - 1, schedule);
      OneLiveOverRuns(states, steps, i - 1);
      assert StepAt(states, steps, i - 1) && steps[i - 1] in steps;
      StepKeepsLimit(states[i - 1], steps[i - 1], schedule);
    }
  }

  // ---------------------------------------------------------------- a superseded generation comes back

  /** The schedule fires, and the new item of `x` gets a generation. */
  function Taken(s: System, x: Domain, schedule: Schedule, now: Time, projects: set<string>): seq<Step> {
    [Fires(schedule, now), Checks(NewItem(schedule, x.id, 0, now, s.db.nextId), projects), Creates(true)]
  }

  /** The only delivery begins and fails with an error that is not worth a retry, so that the domain waits again. */
  function FailedOnce(g: Generation): seq<Step> {
    [Starts(0, 0, ""), Writes(0, g.(status := GenError), 0, "waiting"), Returns(0, true)]
  }

  /** Two deliveries that are due begin. */
  function BothStart(): seq<Step> {
    [Starts(1, 1, ""), Starts(0, 0, "")]
  }

  /** Tables with one domain. */
  function Start(x: Domain): System {
    System(Db([x], [], [], 0, []), [], None, [])
  }

  predicate CanBeTaken(x: Domain, schedule: Schedule, projects: set<string>) {
    IsWaiting(x) && HasKeyword(x) && x.project == schedule.project && x.project in projects
  }

  /** Two handlers are at work for one domain, at two generations. */
  predicate TwoAtWork(s: System) {
    && |s.db.gens| == 2 && s.db.gens[0].domain == s.db.gens[1].domain && s.db.gens[0].id != s.db.gens[1].id
    && s.db.gens[0].status == Processing && s.db.gens[1].status == Processing
    && s.db.gens[0].id in s.running && s.db.gens[1].id in s.running
  }

  lemma JoinRuns(a: seq<System>, s: seq<Step>, b: seq<System>, t: seq<Step>)
    requires IsRunOf(a, s) && IsRunOf(b, t) && a[|a| - 1] == b[0]
    ensures IsRunOf(a + b[1..], s + t)
  {
    var states, steps := a + b[1..], s + t;
    forall i: nat | i < |steps|
      ensures StepAt(states, steps, i)
    {
      if i < |s| {
        assert StepAt(a, s, i);
      } else {
        assert StepAt(b, t, i - |s|) && states[i] == b[i - |s|] && states[i + 1] == b[i + 1 - |s|];
      }
    }
  }

  lemma OneStep(s: System, step: Step) returns (states: seq<System>)
    requires CanStep(s, step)
    ensures IsRunOf(states, [step]) && states == [s, AfterStep(s, step)]
  {
    states := [s, AfterStep(s, step)];
    assert StepAt(states, [step], 0);
  }

  lemma JoinThree(a: seq<System>, p: Step, b: seq<System>, q: Step, c: seq<System>, r: Step) returns (states: seq<System>)
    requires |a| == |b| == |c| == 2 && a[1] == b[0] && b[1] == c[0]
    requires IsRunOf(a, [p]) && IsRunOf(b, [q]) && IsRunOf(c, [r])
    ensures IsRunOf(states, [p, q, r]) && states == [a[0], b[0], c[0], c[1]]
  {
    JoinRuns(a, [p], b, [q]);
    assert [p] + [q] == [p, q] && [p, q] + [r] == [p, q, r];
    JoinRuns(a + b[1..], [p, q], c, [r]);
    states := a + b[1..] + c[1..];
  }

  /** A schedule that fires over one waiting domain without a live item gives it one. */
  lemma FiringFillsOne(db: Db, x: Domain, schedule: Schedule, now: Time)
    requires db.domains == [x] && IsWaiting(x) && x.project == schedule.project
    requires forall item <- db.queue :: !IsLive(item)
    ensures AfterFiring(db, schedule, now)
         == db.(queue := db.queue + [NewItem(schedule, x.id, 0, now, db.nextId)], nextId := db.nextId + 1)
  {
    var waiting := WaitingIds(db, schedule.project);
    OneEligible(x, schedule.project);
    NothingLive(db, schedule.project, waiting);
    FirstEnqueued(x, schedule);
    assert Enqueued(db, schedule) == 1;
    NothingMarked(db.queue);
    var items := NewItems(schedule, [x], 1, now, db.nextId);
    assert items == [NewItem(schedule, x.id, 0, now, db.nextId)];
  }

  lemma OneEligible(x: Domain, project: string)
    requires IsWaiting(x) && x.project == project
    ensures Eligible(InProject([x], project)) == [x]
  {
    assert [x][..0] == [];
    assert InProject([x], project) == [x];
  }

  lemma NothingLive(db: Db, project: string, waiting: set<string>)
    requires forall item <- db.queue :: !IsLive(item)
    ensures EligibleItems(Listed(db, project), waiting) == [] && StaleItems(Listed(db, project), waiting) == {}
  {
    var items := Listed(db, project);
    forall item <- items
      ensures !IsLive(item)
    {
      InFilter(db.queue, (item: QueueItem) => item.domain in Ids(InProject(db.domains, project)), item);
    }
    NoneEligible(items, waiting);
  }

  lemma NothingMarked(queue: seq<QueueItem>)
    ensures MarkedAll(queue, {}, Completed) == queue
  {
  }

  lemma {:induction false} NoneEligible(items: seq<QueueItem>, waiting: set<string>)
    requires forall item <- items :: !IsLive(item)
    ensures EligibleItems(items, waiting) == []
  {
    if items != [] {
      NoneEligible(items[..|items| - 1], waiting);
    }
  }

  lemma FirstEnqueued(x: Domain, schedule: Schedule)
    ensures ToEnqueue([x], []) == [x] && Quota(schedule, [x], []) == 1
  {
    assert [x][..0] == [];
    assert QueuedDomains([], Ids([x])) == {};
  }

  /** From a waiting domain without live items and occupying generations to a new generation whose delivery is due. */
  lemma TakesOne(s: System, x: Domain, schedule: Schedule, now: Time, projects: set<string>) returns (states: seq<System>)
    requires s.db.domains == [x] && CanBeTaken(x, schedule, projects) && Idle(s)
    requires (forall item <- s.db.queue :: !IsLive(item)) && (forall item <- s.db.queue :: item.id < s.db.nextId)
    requires var last := Newest(s.db.gens, x.id); last.None? || !Occupies(last.value)
    ensures IsRunOf(states, Taken(s, x, schedule, now, projects)) && |states| == 4 && states[0] == s
    ensures var id := s.db.nextId + 1;
      && states[3].db.gens == s.db.gens + [Generation(id, x.id, GenPending, false, None)]
      && states[3].db.tasks == s.db.tasks + [id] && states[3].db.nextId == id + 1
    ensures states[3].db.domains == [x.(status := "processing")] && Idle(states[3]) && states[3].running == s.running
    ensures forall item <- states[3].db.queue :: !IsLive(item) && item.id < states[3].db.nextId
  {
    var item := NewItem(schedule, x.id, 0, now, s.db.nextId);
    var a := FiresOne(s, x, schedule, now);
    assert a[1].db.queue[|s.db.queue|] == item;
    var b := PassesCheck(a[1], x, item, projects);
    var c := CreatesOne(b[1], x, item, s.db.queue);
    states := JoinThree(a, Fires(schedule, now), b, Checks(item, projects), c, Creates(true));
  }

  lemma FiresOne(s: System, x: Domain, schedule: Schedule, now: Time) returns (states: seq<System>)
    requires s.db.domains == [x] && IsWaiting(x) && x.project == schedule.project && Idle(s)
    requires forall item <- s.db.queue :: !IsLive(item)
    ensures IsRunOf(states, [Fires(schedule, now)]) && |states| == 2 && states[0] == s
    ensures states[1] == s.(db := s.db.(queue := s.db.queue + [NewItem(schedule, x.id, 0, now, s.db.nextId)],
                                        nextId := s.db.nextId + 1))
  {
    FiringFillsOne(s.db, x, schedule, now);
    states := OneStep(s, Fires(schedule, now));
  }

  lemma PassesCheck(s: System, x: Domain, item: QueueItem, projects: set<string>) returns (states: seq<System>)
    requires s.db.domains == [x] && item.domain == x.id && IsWaiting(x) && HasKeyword(x) && x.project in projects
    requires var last := Newest(s.db.gens, x.id); last.None? || !Occupies(last.value)
    requires Idle(s) && item in s.db.queue && item.status == Pending
    ensures IsRunOf(states, [Checks(item, projects)]) && |states| == 2 && states[0] == s && states[1] == s.(checked := Some(item))
  {
    NotRefused(s.db, x, item, projects);
    states := OneStep(s, Checks(item, projects));
  }

  lemma CreatesOne(s: System, x: Domain, item: QueueItem, queue: seq<QueueItem>) returns (states: seq<System>)
    requires s.checked == Some(item) && s.listed == [] && item.domain == x.id && s.db.domains == [x] && s.db.queue == queue + [item]
    requires forall y <- queue :: !IsLive(y) && y.id < s.db.nextId
    requires item.id < s.db.nextId
    ensures IsRunOf(states, [Creates(true)]) && |states| == 2 && states[0] == s
    ensures var created := states[1];
      && created.db.gens == s.db.gens + [Generation(s.db.nextId, x.id, GenPending, false, None)]
      && created.db.tasks == s.db.tasks + [s.db.nextId] && created.db.nextId == s.db.nextId + 1
      && created.db.domains == [x.(status := "processing")] && Idle(created) && created.running == s.running
      && forall y <- created.db.queue :: !IsLive(y) && y.id < created.db.nextId
  {
    states := OneStep(s, Creates(true));
    ItemIsDone(queue, item);
    assert SetStatus([x], x.id, "processing") == [x.(status := "processing")];
  }

  lemma NotRefused(db: Db, x: Domain, item: QueueItem, projects: set<string>)
    requires db.domains == [x] && item.domain == x.id && IsWaiting(x) && HasKeyword(x) && x.project in projects
    requires var last := Newest(db.gens, x.id); last.None? || !Occupies(last.value)
    ensures Refusal(db, item, projects).None?
  {
  }

  lemma ItemIsDone(queue: seq<QueueItem>, item: QueueItem)
    requires forall x <- queue :: !IsLive(x)
    ensures forall x <- MarkedAll(queue + [item], {item.id}, Completed) :: !IsLive(x)
    ensures forall x <- MarkedAll(queue + [item], {item.id}, Completed) :: x.id == item.id || exists y <- queue :: x.id == y.id
  {
    var r := MarkedAll(queue + [item], {item.id}, Completed);
    forall x <- r
      ensures !IsLive(x) && (x.id == item.id || exists y <- queue :: x.id == y.id)
    {
      var k :| 0 <= k < |r| && r[k] == x;
      if k < |queue| {
        assert queue[k] in queue;
      }
    }
  }

  lemma FailsOnce(s: System, x: Domain, g: Generation) returns (states: seq<System>)
    requires s.db.domains == [x] && s.db.gens == [g] && g.domain == x.id && g.status == GenPending
    requires s.db.tasks == [g.id] && s.running == []
    ensures IsRunOf(states, FailedOnce(g)) && |states| == 4 && states[0] == s
    ensures states[3] == s.(db := s.db.(gens := [g.(status := GenError)], domains := [x.(status := "waiting")]))
  {
    var begun := s.(db := s.db.(gens := [g.(status := Processing)], tasks := []), running := [g.id]);
    var failed := begun.(db := begun.db.(gens := [g.(status := GenError)], domains := [x.(status := "waiting")]));
    assert SetStatus([x], x.id, "waiting") == [x.(status := "waiting")];
    var a := OneStep(s, Starts(0, 0, ""));
    assert a[1] == begun;
    var b := OneStep(begun, Writes(0, g.(status := GenError), 0, "waiting"));
    assert b[1] == failed;
    var c := OneStep(failed, Returns(0, true));
    assert c[1] == failed.(db := failed.db.(tasks := [g.id]), running := []);
    states := JoinThree(a, Starts(0, 0, ""), b, Writes(0, g.(status := GenError), 0, "waiting"), c, Returns(0, true));
  }

  lemma BothBegin(s: System, g: Generation, h: Generation) returns (states: seq<System>)
    requires s.db.gens == [g, h] && s.db.tasks == [g.id, h.id] && s.running == []
    requires g.status == GenError && h.status == GenPending && g.id != h.id && g.domain == h.domain
    ensures IsRunOf(states, BothStart()) && |states| == 3 && states[0] == s && TwoAtWork(states[2])
  {
    var second := s.(db := s.db.(gens := [g, h.(status := Processing)], tasks := [g.id]), running := [h.id]);
    var both := second.(db := second.db.(gens := [g.(status := Processing), h.(status := Processing)], tasks := []),
                        running := [h.id, g.id]);
    assert second == AfterStep(s, Starts(1, 1, ""));
    assert both == AfterStep(second, Starts(0, 0, ""));
    states := [s, second, both];
    assert StepAt(states, BothStart(), 0) && StepAt(states, BothStart(), 1);
    assert TwoAtWork(both);
  }

  /** From tables with one waiting domain and nothing else: its generation fails for good, its task is to be delivered
      again, the schedule gives the waiting domain another generation, and two handlers work for the domain at once. */
  lemma TwoAtOnce(x: Domain, schedule: Schedule, first: Time, later: Time, projects: set<string>)
    returns (states: seq<System>, steps: seq<Step>)
    requires CanBeTaken(x, schedule, projects)
    ensures IsRunOf(states, steps) && states[0] == Start(x) && TwoAtWork(states[|states| - 1])
  {
    var a := TakenAndFailed(x, schedule, first, projects);
    var s, again := a[|a| - 1], x.(status := "waiting");
    WaitingIsWaiting(again);
    var b := TakenAndBothAtWork(s, again, schedule, later, projects);
    var g := Generation(1, x.id, GenPending, false, None);
    steps := Taken(Start(x), x, schedule, first, projects) + FailedOnce(g);
    JoinRuns(a, steps, b, Taken(s, again, schedule, later, projects) + BothStart());
    states, steps := a + b[1..], steps + (Taken(s, again, schedule, later, projects) + BothStart());
  }

  lemma TakenAndFailed(x: Domain, schedule: Schedule, now: Time, projects: set<string>) returns (states: seq<System>)
    requires CanBeTaken(x, schedule, projects)
    ensures var g := Generation(1, x.id, GenPending, false, None);
      IsRunOf(states, Taken(Start(x), x, schedule, now, projects) + FailedOnce(g)) && |states| == 7 && states[0] == Start(x)
    ensures var end := states[6];
      && end.db.gens == [Generation(1, x.id, GenError, false, None)] && end.db.tasks == [1] && end.db.nextId == 2
      && end.db.domains == [x.(status := "waiting")] && Idle(end) && end.running == []
      && forall item <- end.db.queue :: !IsLive(item) && item.id < 2
  {
    var g := Generation(1, x.id, GenPending, false, None);
    var a := TakesOne(Start(x), x, schedule, now, projects);
    var b := FailsOnce(a[3], x.(status := "processing"), g);
    JoinRuns(a, Taken(Start(x), x, schedule, now, projects), b, FailedOnce(g));
    states := a + b[1..];
  }

  lemma TakenAndBothAtWork(s: System, x: Domain, schedule: Schedule, now: Time, projects: set<string>)
    returns (states: seq<System>)
    requires s.db.domains == [x] && CanBeTaken(x, schedule, projects) && Idle(s) && s.running == []
    requires s.db.gens == [Generation(1, x.id, GenError, false, None)] && s.db.tasks == [1] && s.db.nextId == 2
    requires forall item <- s.db.queue :: !IsLive(item) && item.id < 2
    ensures IsRunOf(states, Taken(s, x, schedule, now, projects) + BothStart()) && states[0] == s
    ensures TwoAtWork(states[|states| - 1])
  {
    FailedIsFree(s.db.gens, x.id);
    var a := TakesOne(s, x, schedule, now, projects);
    var b := BothBegin(a[3], s.db.gens[0], Generation(3, x.id, GenPending, false, None));
    JoinRuns(a, Taken(s, x, schedule, now, projects), b, BothStart());
    states := a + b[1..];
  }

  lemma FailedIsFree(gens: seq<Generation>, domain: string)
    requires |gens| == 1 && !Occupies(gens[0])
    ensures var last := Newest(gens, domain); last.None? || !Occupies(last.value)
  {
    assert gens[..0] == [];
  }

  lemma WaitingIsWaiting(d: Domain)
    requires d.status == "waiting"
    ensures IsWaiting(d)
  {
    WordIsItself(d.status);
  }

  lemma WordIsItself(word: string)
    requires word != "" && forall i :: 0 <= i < |word| ==> 'a' <= word[i] <= 'z'
    ensures Text.EqualFold(Text.TrimSpace(word), word)
  {
    Text.TrimSpaceFixpoint(word);
    LettersFold(word);
  }

  lemma {:induction false} LettersFold(word: string)
    requires forall i :: 0 <= i < |word| ==> 'a' <= word[i] <= 'z'
    ensures Text.FoldAll(word) == word
  {
    if word != "" {
      LettersFold(word[1..]);
    }
  }

  // ---------------------------------------------------------------- a retry that the task queue refuses

  /** Some delivery of the generation's task is due or under way. */
  predicate Delivered(s: System, id: nat) {
    id in s.db.tasks || id in s.running
  }

  /** A pending generation that no delivery will bring to a handler, and that the scheduler is not about to re-arm. */
  predicate Stranded(s: System, k: nat) {
    k < |s.db.gens| && s.db.gens[k].status == GenPending && !Delivered(s, s.db.gens[k].id) && s.db.gens[k].id !in s.listed
  }

  /** No step frees a stranded generation: it is not listed for a retry, and no handler gets it. */
  lemma StrandedStays(s: System, step: Step, k: nat)
    requires IdsValid(s) && CanStep(s, step) && Stranded(s, k)
    ensures Stranded(AfterStep(s, step), k)
    ensures AfterStep(s, step).db.gens[k] == s.db.gens[k]
  {
    assert s.db.gens[k] in s.db.gens;
    match step
    case Fires(_, _) =>
    case Checks(_, _) =>
    case Creates(_) =>
    case Lists(now) => PendingIsNotListed(s.db.gens, now, k);
    case Rearms(_) => assert s.listed == [s.listed[0]] + s.listed[1..];
    case Starts(j, at, _) => assert s.db.tasks[at] in s.db.tasks;
    case Writes(j, g, at, _) => assert s.running[at] in s.running;
    case Returns(at, _) => assert s.running[at] in s.running;
  }

  lemma PendingIsNotListed(gens: seq<Generation>, now: Time, k: nat)
    requires DistinctBy(gens, (g: Generation) => g.id) && k < |gens| && gens[k].status == GenPending
    ensures gens[k].id !in GenIds(DueForRetry(gens, now, BATCH))
  {
    var batch := DueForRetry(gens, now, BATCH);
    RetryBatch(gens, now, BATCH);
    forall i | 0 <= i < |batch|
      ensures batch[i].id != gens[k].id
    {
      assert batch[i] in batch;
      var j :| 0 <= j < |gens| && gens[j] == batch[i];
      assert j != k;
    }
  }

  /** Once stranded, a generation is stranded in every later state of every run. */
  lemma {:induction false} StrandedForGood(states: seq<System>, steps: seq<Step>, i: nat, j: nat, k: nat)
    requires IsRunOf(states, steps) && IdsValid(states[0]) && i <= j < |states| && Stranded(states[i], k)
    ensures Stranded(states[j], k) && states[j].db.gens[k] == states[i].db.gens[k]
  {
    if i < j {
      StrandedForGood(states, steps, i, j - 1, k);
      RunKeepsIds(states, steps, j - 1);
      assert StepAt(states, steps, j - 1);
      var before, step := states[j - 1], steps[j - 1];
      StrandedStays(before, step, k);
      assert states[j] == AfterStep(before, step);
    }
  }

  lemma NewestPendingRefuses(db: Db, k: nat, item: QueueItem, projects: set<string>)
    requires k < |db.gens| && db.gens[k].status == GenPending && !Superseded(db.gens, k) && item.domain == db.gens[k].domain
    ensures Refusal(db, item, projects).Some?
  {
    NewestIsLast(db.gens, item.domain);
    assert db.gens[k] in db.gens;
    var last :| 0 <= last < |db.gens| && db.gens[last] == Newest(db.gens, item.domain).value
                && db.gens[last].domain == item.domain
                && forall j :: last < j < |db.gens| ==> db.gens[j].domain != item.domain;
    assert last == k;
  }

  /** It is the newest of its domain, and none is about to be created there. */
  predicate HoldsDomain(s: System, k: nat) {
    && k < |s.db.gens| && !Superseded(s.db.gens, k)
    && (s.checked.Some? ==> s.checked.value.domain != s.db.gens[k].domain)
  }

  lemma StrandedStaysNewest(s: System, step: Step, k: nat)
    requires IdsValid(s) && CanStep(s, step) && Stranded(s, k) && HoldsDomain(s, k)
    ensures HoldsDomain(AfterStep(s, step), k)
  {
    StrandedStays(s, step, k);
    if step.Checks? && step.item.domain == s.db.gens[k].domain {
      NewestPendingRefuses(s.db, k, step.item, step.projects);
    }
    NotSuperseded(s, step, k);
  }

  lemma NotSuperseded(s: System, step: Step, k: nat)
    requires CanStep(s, step) && HoldsDomain(s, k)
    ensures !Superseded(AfterStep(s, step).db.gens, k)
  {
    var n := AfterStep(s, step);
    forall j | k < j < |n.db.gens|
      ensures n.db.gens[j].domain != n.db.gens[k].domain
    {
      assert j < |s.db.gens| ==> s.db.gens[j].domain != s.db.gens[k].domain;
    }
  }

  lemma {:induction false} StrandedHolds(states: seq<System>, steps: seq<Step>, i: nat, j: nat, k: nat)
    requires IsRunOf(states, steps) && IdsValid(states[0]) && i <= j < |states|
    requires Stranded(states[i], k) && HoldsDomain(states[i], k)
    ensures HoldsDomain(states[j], k)
  {
    if i < j {
      StrandedHolds(states, steps, i, j - 1, k);
      StrandedForGood(states, steps, i, j - 1, k);
      RunKeepsIds(states, steps, j - 1);
      assert StepAt(states, steps, j - 1);
      StrandedStaysNewest(states[j - 1], steps[j - 1], k);
    }
  }

  /** And with it its domain, if it is the newest there: every later check of a queue item of the domain refuses it. */
  lemma StrandedBlocksDomain(states: seq<System>, steps: seq<Step>, i: nat, j: nat, k: nat, item: QueueItem, projects: set<string>)
    requires IsRunOf(states, steps) && IdsValid(states[0]) && i <= j < |states|
    requires Stranded(states[i], k) && HoldsDomain(states[i], k) && item.domain == states[i].db.gens[k].domain
    ensures Refusal(states[j].db, item, projects).Some?
  {
    StrandedForGood(states, steps, i, j, k);
    StrandedHolds(states, steps, i, j, k);
    NewestPendingRefuses(states[j].db, k, item, projects);
  }

  /** Some run that goes on from `s` ends generation `k`. */
  ghost predicate CanEnd(s: System, k: nat) {
    exists states: seq<System>, steps: seq<Step> ::
      IsRunOf(states, steps) && states[0] == s && Ended(states[|steps|].db, k)
  }

  predicate Ended(db: Db, k: nat) {
    k < |db.gens| && !Occupies(db.gens[k])
  }

  lemma StrandedCannotEnd(s: System, k: nat)
    requires IdsValid(s) && Stranded(s, k)
    ensures !CanEnd(s, k)
  {
    forall states: seq<System>, steps: seq<Step> | IsRunOf(states, steps) && states[0] == s
      ensures !Ended(states[|steps|].db, k)
    {
      StrandedForGood(states, steps, 0, |steps|, k);
    }
  }

  lemma RunningCanEnd(s: System, k: nat, at: nat)
    requires k < |s.db.gens| && at < |s.running| && s.running[at] == s.db.gens[k].id
    ensures CanEnd(s, k)
  {
    var g := s.db.gens[k].(status := Success);
    var states := EndsWork(s, k, at, g);
    var steps := [Writes(k, g, at, "published")];
    assert Ended(states[|steps|].db, k);
  }

  lemma DueCanEnd(s: System, k: nat, at: nat)
    requires k < |s.db.gens| && at < |s.db.tasks| && s.db.tasks[at] == s.db.gens[k].id && s.db.gens[k].status == GenPending
    ensures CanEnd(s, k)
  {
    var g := s.db.gens[k].(status := Success);
    var a := StartsWork(s, k, at);
    var b := EndsWork(a[1], k, |s.running|, g);
    JoinRuns(a, [Starts(k, at, "")], b, [Writes(k, g, |s.running|, "published")]);
    var states, steps := a + b[1..], [Starts(k, at, "")] + [Writes(k, g, |s.running|, "published")];
    assert Ended(states[|steps|].db, k);
  }

  lemma StartsWork(s: System, k: nat, at: nat) returns (states: seq<System>)
    requires k < |s.db.gens| && at < |s.db.tasks| && s.db.tasks[at] == s.db.gens[k].id && s.db.gens[k].status == GenPending
    ensures IsRunOf(states, [Starts(k, at, "")]) && |states| == 2 && states[0] == s
    ensures states[1].db.gens == s.db.gens[k := s.db.gens[k].(status := Processing)]
    ensures states[1].running == s.running + [s.db.gens[k].id]
  {
    states := OneStep(s, Starts(k, at, ""));
  }

  lemma EndsWork(s: System, k: nat, at: nat, g: Generation) returns (states: seq<System>)
    requires k < |s.db.gens| && at < |s.running| && s.running[at] == s.db.gens[k].id
    requires g.id == s.db.gens[k].id && g.domain == s.db.gens[k].domain
    ensures IsRunOf(states, [Writes(k, g, at, "published")]) && |states| == 2 && states[0] == s
    ensures states[1].db.gens == s.db.gens[k := g]
  {
    states := OneStep(s, Writes(k, g, at, "published"));
  }

  /** In every run, a generation that is re-armed can come to an end again exactly when the task queue accepts its task
      or an earlier delivery of it is still due or under way. Otherwise it stays pending whatever happens. */
  lemma RefusedRetryStrands(states: seq<System>, steps: seq<Step>, i: nat, k: nat, accepted: bool)
    requires IsRunOf(states, steps) && IdsValid(states[0]) && i < |steps| && steps[i] == Rearms(accepted)
    requires k < |states[i].db.gens| && states[i].listed != [] && states[i].db.gens[k].id == states[i].listed[0]
    ensures CanEnd(states[i + 1], k) <==> accepted || Delivered(states[i], states[i].db.gens[k].id)
    ensures Stranded(states[i + 1], k) <==> !accepted && !Delivered(states[i], states[i].db.gens[k].id)
  {
    RunKeepsIds(states, steps, i);
    RunKeepsIds(states, steps, i + 1);
    assert StepAt(states, steps, i);
    var before, s, id := states[i], states[i + 1], states[i].db.gens[k].id;
    RearmedState(before, k, accepted);
    if id in s.db.tasks {
      var at :| 0 <= at < |s.db.tasks| && s.db.tasks[at] == id;
      DueCanEnd(s, k, at);
    } else if id in s.running {
      var at :| 0 <= at < |s.running| && s.running[at] == id;
      RunningCanEnd(s, k, at);
    } else {
      StrandedCannotEnd(s, k);
    }
  }

  lemma RearmedState(s: System, k: nat, accepted: bool)
    requires IdsValid(s) && k < |s.db.gens| && s.listed != [] && s.db.gens[k].id == s.listed[0]
    ensures var n := AfterStep(s, Rearms(accepted));
      && k < |n.db.gens| && n.db.gens[k] == s.db.gens[k].(status := GenPending) && n.running == s.running
      && n.db.tasks == (if accepted then s.db.tasks + [s.db.gens[k].id] else s.db.tasks)
      && s.db.gens[k].id !in n.listed
  {
  }
}
