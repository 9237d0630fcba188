/** The scheduler's link side: which domains a link schedule may touch, and what one run of it does to the
    link tasks (`applyLinkSchedulesAt`). */
module LinkScheduler {
  import opened Sequences
  import opened Recurrence
  import Text

  datatype Domain = Domain(id: string, status: string, publishedAt: bool, linkStatus: Option<string>,
                           anchor: Option<string>, acceptor: Option<string>, readyAt: Option<Time>)

  datatype TaskStatus = Pending | Searching | Removing | Inserted | Generated | Removed | Failed

  datatype Task = Task(id: nat, domain: string, anchor: string, target: string, action: string, status: TaskStatus,
                       attempts: nat, scheduledFor: Time, createdAt: Time, completedAt: Option<Time>, error: string)

  /** Why a domain is skipped. */
  datatype Reason = NotPublished | LinkStatusNotEligible | NothingToLink | NoAnchor | NoTarget | NotReadyYet(at: Time)

  predicate IsPublished(d: Domain) {
    d.publishedAt || Text.EqualFold(Text.TrimSpace(d.status), "published")
  }

  predicate LinkStatusEligible(d: Domain) {
    d.linkStatus.None? ||
    var status := Text.TrimSpace(d.linkStatus.value);
    status == "" || Text.LowersTo(status, "ready") || Text.LowersTo(status, "needs_relink") || Text.LowersTo(status, "pending")
  }

  /** A NULL column reads as the empty string. */
  function Trimmed(s: Option<string>): string {
    if s.Some? then Text.TrimSpace(s.value) else ""
  }

  /** The later of today's run time and the domain's own ready time. */
  function EffectiveReadyAt(d: Domain, runAt: Time): Time {
    if d.readyAt.Some? && d.readyAt.value > runAt then d.readyAt.value else runAt
  }

  /** `filterLinkDomainsWithReasons` for one domain; `None` means eligible. */
  function Verdict(d: Domain, now: Time, runAt: Time): Option<Reason> {
    if !IsPublished(d) then Some(NotPublished)
    else if !LinkStatusEligible(d) then Some(LinkStatusNotEligible)
    else if Trimmed(d.anchor) == "" && Trimmed(d.acceptor) == "" then Some(NothingToLink)
    else if Trimmed(d.anchor) == "" then Some(NoAnchor)
    else if Trimmed(d.acceptor) == "" then Some(NoTarget)
    else if EffectiveReadyAt(d, runAt) > now then Some(NotReadyYet(EffectiveReadyAt(d, runAt)))
    else None
  }

  function EligibleDomains(domains: seq<Domain>, now: Time, runAt: Time): seq<Domain> {
    Filter(domains, (d: Domain) => Verdict(d, now, runAt).None?)
  }

  function SkippedDomains(domains: seq<Domain>, now: Time, runAt: Time): seq<Domain> {
    Filter(domains, (d: Domain) => Verdict(d, now, runAt).Some?)
  }

  predicate NeedsRelink(d: Domain) {
    d.linkStatus.Some? && Text.EqualFold(Text.TrimSpace(d.linkStatus.value), "needs_relink")
  }

  method FilterLinkDomains(domains: seq<Domain>, now: Time, runAt: Time)
    returns (eligible: seq<Domain>, skipped: seq<(string, Reason)>)
    ensures eligible == EligibleDomains(domains, now, runAt)
    ensures |skipped| == |SkippedDomains(domains, now, runAt)|
    ensures forall k :: 0 <= k < |skipped| ==>
              var d := SkippedDomains(domains, now, runAt)[k];
              Verdict(d, now, runAt) == Some(skipped[k].1) && skipped[k].0 == d.id
  {
    eligible, skipped := [], [];
    ghost var dropped: seq<Domain> := [];
    for i := 0 to |domains|
      invariant eligible == EligibleDomains(domains[..i], now, runAt)
      invariant dropped == SkippedDomains(domains[..i], now, runAt) && |skipped| == |dropped|
      invariant forall k :: 0 <= k < |skipped| ==>
                  Verdict(dropped[k], now, runAt) == Some(skipped[k].1) && skipped[k].0 == dropped[k].id
    {
      FilterStep(domains, i, (d: Domain) => Verdict(d, now, runAt).None?);
      FilterStep(domains, i, (d: Domain) => Verdict(d, now, runAt).Some?);
      var verdict := Verdict(domains[i], now, runAt);
      if verdict.Some? {
        skipped := skipped + [(domains[i].id, verdict.value)];
        dropped := dropped + [domains[i]];
      } else {
        eligible := eligible + [domains[i]];
      }
    }
    assert domains[..|domains|] == domains;
  }

  /** Eligible and skipped domains are an order-preserving partition, and what is eligible is exactly what is
      published, has a linkable status, an anchor and a target, and whose time has come. */
  lemma LinkDomainsPartitioned(domains: seq<Domain>, now: Time, runAt: Time) returns (kept: seq<nat>, dropped: seq<nat>)
    ensures multiset(EligibleDomains(domains, now, runAt)) + multiset(SkippedDomains(domains, now, runAt)) == multiset(domains)
    ensures Embeds(EligibleDomains(domains, now, runAt), domains, kept)
    ensures Embeds(SkippedDomains(domains, now, runAt), domains, dropped)
    ensures forall d :: d in EligibleDomains(domains, now, runAt) <==>
              d in domains && CanBeLinked(d, now, runAt)
  {
    var p, q := (d: Domain) => Verdict(d, now, runAt).None?, (d: Domain) => Verdict(d, now, runAt).Some?;
    FilterSplits(domains, p, q);
    kept := FilterEmbeds(domains, p);
    dropped := FilterEmbeds(domains, q);
    forall d
      ensures d in EligibleDomains(domains, now, runAt) <==> d in domains && p(d)
      ensures p(d) <==> CanBeLinked(d, now, runAt)
    {
      InFilter(domains, p, d);
      NoVerdict(d, now, runAt);
    }
  }

  predicate CanBeLinked(d: Domain, now: Time, runAt: Time) {
    && IsPublished(d) && LinkStatusEligible(d) && Trimmed(d.anchor) != "" && Trimmed(d.acceptor) != ""
    && runAt <= now && (d.readyAt.Some? ==> d.readyAt.value <= now)
  }

  lemma NoVerdict(d: Domain, now: Time, runAt: Time)
    ensures Verdict(d, now, runAt).None? <==> CanBeLinked(d, now, runAt)
  {
  }

  // ---------------------------------------------------------------- tasks

  predicate IsActive(t: Task) {
    t.status == Pending || t.status == Searching || t.status == Removing
  }

  function Ids(domains: seq<Domain>): set<string> {
    set d <- domains :: d.id
  }

  /** `listActiveLinkTasksByProject`: the tasks of the project's domains, one status after the other. */
  function ListActive(tasks: seq<Task>, ids: set<string>): seq<Task> {
    Filter(tasks, (t: Task) => t.status == Pending && t.domain in ids)
    + Filter(tasks, (t: Task) => t.status == Searching && t.domain in ids)
    + Filter(tasks, (t: Task) => t.status == Removing && t.domain in ids)
  }

  lemma InListActive(tasks: seq<Task>, ids: set<string>, t: Task)
    ensures t in ListActive(tasks, ids) <==> t in tasks && IsActive(t) && t.domain in ids
  {
    InFilter(tasks, (t: Task) => t.status == Pending && t.domain in ids, t);
    InFilter(tasks, (t: Task) => t.status == Searching && t.domain in ids, t);
    InFilter(tasks, (t: Task) => t.status == Removing && t.domain in ids, t);
  }

  function FailedTask(t: Task, now: Time, error: string): Task {
    t.(status := Failed, error := error, completedAt := Some(now))
  }

  const MISSING := "domain not found for link schedule"
  const UNPUBLISHED := "domain is not published for link schedule"

  /** The tasks that a run fails: active, of a domain the run did not list or that is not published. */
  function FailureOf(t: Task, byId: map<string, Domain>): Option<string> {
    if t.domain !in byId then Some(MISSING)
    else if !IsPublished(byId[t.domain]) then Some(UNPUBLISHED)
    else None
  }

  /** `activeByDomain`: for each domain the last of its surviving tasks. */
  function ActiveByDomain(active: seq<Task>, byId: map<string, Domain>): map<string, Task> {
    if active == [] then map[]
    else
      var t := active[|active| - 1];
      var m := ActiveByDomain(active[..|active| - 1], byId);
      if FailureOf(t, byId).Some? then m else m[t.domain := t]
  }

  function Rearmed(t: Task, d: Domain, now: Time): Task {
    t.(anchor := Trimmed(d.anchor), target := Trimmed(d.acceptor), status := Pending, attempts := 0,
       createdAt := now, scheduledFor := now, error := "", completedAt := None)
  }

  function NewTask(d: Domain, id: nat, now: Time): Task {
    Task(id, d.id, Trimmed(d.anchor), Trimmed(d.acceptor), "insert", Pending, 0, now, now, None, "")
  }

  /** `UPDATE link_tasks ... WHERE id = t.id` with the new row. */
  function Stored(tasks: seq<Task>, t: Task): (r: seq<Task>)
    ensures |r| == |tasks|
    ensures forall k :: 0 <= k < |r| ==> r[k] == if tasks[k].id == t.id then t else tasks[k]
  {
    seq(|tasks|, k requires 0 <= k < |tasks| => if tasks[k].id == t.id then t else tasks[k])
  }

  function AfterFailing(tasks: seq<Task>, active: seq<Task>, byId: map<string, Domain>, now: Time): seq<Task> {
    if active == [] then tasks
    else
      var t := active[|active| - 1];
      var r := AfterFailing(tasks, active[..|active| - 1], byId, now);
      if FailureOf(t, byId).Some? then Stored(r, FailedTask(t, now, FailureOf(t, byId).value)) else r
  }

  /** The last loop of a run: `remaining` new tasks may still be created. */
  datatype Store = Store(tasks: seq<Task>, nextId: nat, remaining: nat)

  function AfterDomain(s: Store, d: Domain, active: map<string, Task>, now: Time): Store {
    if d.id in active then s.(tasks := Stored(s.tasks, Rearmed(active[d.id], d, now)))
    else if s.remaining == 0 then s
    else Store(s.tasks + [NewTask(d, s.nextId, now)], s.nextId + 1, s.remaining - 1)
  }

  function AfterDomains(s: Store, run: seq<Domain>, active: map<string, Task>, now: Time): Store {
    if run == [] then s
    else AfterDomain(AfterDomains(s, run[..|run| - 1], active, now), run[|run| - 1], active, now)
  }

  function Remaining(limit: int, run: seq<Domain>, active: map<string, Task>): nat {
    Max(0, (if limit <= 0 then |run| else limit) - Count(run, (d: Domain) => d.id in active))
  }

  /** The tables after a run over `run`; `ids` are the project's domains when the tasks were listed. */
  function AfterRun(tasks: seq<Task>, nextId: nat, byId: map<string, Domain>, ids: set<string>, run: seq<Domain>,
                    limit: int, now: Time): Store
  {
    var listed := ListActive(tasks, ids);
    var active := ActiveByDomain(listed, byId);
    AfterDomains(Store(AfterFailing(tasks, listed, byId, now), nextId, Remaining(limit, run, active)), run, active, now)
  }

  // ---------------------------------------------------------------- the code

  class LinkTaskStore {
    var tasks: seq<Task>
    var nextId: nat

    method Update(t: Task)
      modifies this`tasks
      ensures tasks == Stored(old(tasks), t)
    {
      tasks := Stored(tasks, t);
    }

    method Create(d: Domain, now: Time)
      modifies this
      ensures tasks == old(tasks) + [NewTask(d, old(nextId), now)] && nextId == old(nextId) + 1
    {
      tasks := tasks + [NewTask(d, nextId, now)];
      nextId := nextId + 1;
    }

    /** The loop over the active tasks of the project. */
    method SettleActive(listed: seq<Task>, byId: map<string, Domain>, now: Time) returns (active: map<string, Task>)
      modifies this`tasks
      ensures tasks == AfterFailing(old(tasks), listed, byId, now) && active == ActiveByDomain(listed, byId)
    {
      active := map[];
      for i := 0 to |listed|
        invariant tasks == AfterFailing(old(tasks), listed[..i], byId, now)
        invariant active == ActiveByDomain(listed[..i], byId)
      {
        var t := listed[i];
        assert listed[..i + 1][..i] == listed[..i];
        if t.domain !in byId {
          Update(FailedTask(t, now, MISSING));
        } else if !IsPublished(byId[t.domain]) {
          Update(FailedTask(t, now, UNPUBLISHED));
        } else {
          active := active[t.domain := t];
        }
      }
      assert listed[..|listed|] == listed;
    }

    /** `activeEligible`: the run's domains that have an active task. */
    static method CountActive(run: seq<Domain>, active: map<string, Task>) returns (n: nat)
      ensures n == Count(run, (d: Domain) => d.id in active)
    {
      n := 0;
      for i := 0 to |run|
        invariant n == Count(run[..i], (d: Domain) => d.id in active)
      {
        FilterStep(run, i, (d: Domain) => d.id in active);
        if run[i].id in active {
          n := n + 1;
        }
      }
      assert run[..|run|] == run;
    }

    /** The loop over the run's domains: re-arm the active task, or create one while the limit allows. */
    method AssignDomains(run: seq<Domain>, active: map<string, Task>, quota: nat, now: Time) returns (remaining: nat)
      modifies this
      ensures Store(tasks, nextId, remaining) == AfterDomains(Store(old(tasks), old(nextId), quota), run, active, now)
    {
      remaining := quota;
      for i := 0 to |run|
        invariant Store(tasks, nextId, remaining) == AfterDomains(Store(old(tasks), old(nextId), quota), run[..i], active, now)
      {
        assert run[..i + 1][..i] == run[..i];
        if run[i].id in active {
          Update(Rearmed(active[run[i].id], run[i], now));
        } else if remaining > 0 {
          Create(run[i], now);
          remaining := remaining - 1;
        }
      }
      assert run[..|run|] == run;
    }

    method RunDomains(run: seq<Domain>, active: map<string, Task>, limit: int, now: Time) returns (remaining: nat)
      modifies this
      ensures Store(tasks, nextId, remaining)
           == AfterDomains(Store(old(tasks), old(nextId), Remaining(limit, run, active)), run, active, now)
    {
      var activeEligible := CountActive(run, active);
      var left := (if limit <= 0 then |run| else limit) - activeEligible;
      if left < 0 {
        left := 0;
      }
      remaining := AssignDomains(run, active, left, now);
    }

    method Run(byId: map<string, Domain>, ids: set<string>, run: seq<Domain>, limit: int, now: Time)
      modifies this
      ensures var r := AfterRun(old(tasks), old(nextId), byId, ids, run, limit, now);
        tasks == r.tasks && nextId == r.nextId
    {
      var listed := ListActive(tasks, ids);
      var active := SettleActive(listed, byId, now);
      var remaining := RunDomains(run, active, limit, now);
    }
  }

  // ---------------------------------------------------------------- what a run achieves

  ghost predicate OneActivePerDomain(tasks: seq<Task>) {
    forall i, j :: 0 <= i < j < |tasks| && IsActive(tasks[i]) && IsActive(tasks[j]) ==> tasks[i].domain != tasks[j].domain
  }

  ghost predicate TasksValid(tasks: seq<Task>, nextId: nat) {
    && DistinctBy(tasks, (t: Task) => t.id)
    && (forall t <- tasks :: t.id < nextId)
    && OneActivePerDomain(tasks)
  }

  /** The run's domains are rows of the listing, each once, published, and still in the project when the tasks
      are listed. */
  ghost predicate RunValid(byId: map<string, Domain>, ids: set<string>, run: seq<Domain>) {
    && DistinctBy(run, (d: Domain) => d.id)
    && forall d <- run :: d.id in byId && byId[d.id] == d && IsPublished(d) && d.id in ids
  }

  lemma {:induction false} ActiveMap(listed: seq<Task>, byId: map<string, Domain>)
    ensures var m := ActiveByDomain(listed, byId);
      && (forall x <- m :: m[x] in listed && m[x].domain == x && FailureOf(m[x], byId).None?)
      && (forall t <- listed :: FailureOf(t, byId).None? ==> t.domain in m)
  {
    if listed != [] {
      var n := |listed| - 1;
      ActiveMap(listed[..n], byId);
      assert listed == listed[..n] + [listed[n]];
      var m := ActiveByDomain(listed, byId);
      forall x <- m
        ensures m[x] in listed && m[x].domain == x && FailureOf(m[x], byId).None?
      {
        assert m[x] == listed[n] || (x in ActiveByDomain(listed[..n], byId) && m[x] == ActiveByDomain(listed[..n], byId)[x]);
      }
    }
  }

  /** Failing rewrites exactly the rows of the listed tasks that must fail. */
  lemma {:induction false} FailingEffect(tasks: seq<Task>, listed: seq<Task>, byId: map<string, Domain>, now: Time)
    requires DistinctBy(tasks, (t: Task) => t.id) && forall t <- listed :: t in tasks
    ensures var r := AfterFailing(tasks, listed, byId, now);
      && |r| == |tasks|
      && forall k :: 0 <= k < |r| ==>
           r[k] == if tasks[k] in listed && FailureOf(tasks[k], byId).Some?
                   then FailedTask(tasks[k], now, FailureOf(tasks[k], byId).value) else tasks[k]
  {
    if listed != [] {
      var n := |listed| - 1;
      FailingEffect(tasks, listed[..n], byId, now);
      assert listed == listed[..n] + [listed[n]] && listed[n] in listed;
      var before := AfterFailing(tasks, listed[..n], byId, now);
      forall k | 0 <= k < |tasks|
        ensures before[k].id == tasks[k].id
        ensures tasks[k].id == listed[n].id ==> tasks[k] == listed[n]
      {
        var j :| 0 <= j < |tasks| && tasks[j] == listed[n];
        assert tasks[k].id == tasks[j].id ==> k == j;
      }
    }
  }

  function Unassigned(run: seq<Domain>, active: map<string, Task>): seq<Domain> {
    Filter(run, (d: Domain) => d.id !in active)
  }

  /** The row that the last loop leaves for row `t`. */
  function RearmedIfRun(t: Task, run: set<string>, active: map<string, Task>, byId: map<string, Domain>, now: Time): Task {
    if t.domain in run && t.domain in active && t.domain in byId && active[t.domain].id == t.id
    then Rearmed(active[t.domain], byId[t.domain], now) else t
  }

  ghost predicate StoreValid(s: Store, active: map<string, Task>) {
    && DistinctBy(s.tasks, (t: Task) => t.id) && (forall t <- s.tasks :: t.id < s.nextId)
    && forall x <- active :: active[x].domain == x && active[x] in s.tasks
  }

  /** What the last loop has done to `s` once it has seen `run`. */
  ghost predicate Effect(s: Store, r: Store, run: seq<Domain>, active: map<string, Task>, byId: map<string, Domain>, now: Time) {
    var created := Min(s.remaining, |Unassigned(run, active)|);
    && |r.tasks| == |s.tasks| + created && r.nextId == s.nextId + created && r.remaining == s.remaining - created
    && (forall k :: 0 <= k < |s.tasks| ==> r.tasks[k] == RearmedIfRun(s.tasks[k], Ids(run), active, byId, now))
    && (forall j :: |s.tasks| <= j < |r.tasks| ==>
          r.tasks[j] == NewTask(Unassigned(run, active)[j - |s.tasks|], s.nextId + (j - |s.tasks|), now))
  }

  lemma RowOfRearming(t: Task, run: set<string>, d: Domain, active: map<string, Task>, byId: map<string, Domain>, now: Time)
    requires d.id in byId && byId[d.id] == d && d.id !in run && d.id in active && active[d.id].domain == d.id
    requires t.id == active[d.id].id ==> t == active[d.id]
    ensures var was := RearmedIfRun(t, run, active, byId, now);
      && was.id == t.id
      && RearmedIfRun(t, run + {d.id}, active, byId, now)
         == if t.id == active[d.id].id then Rearmed(active[d.id], d, now) else was
  {
  }

  lemma EffectOfRearming(s: Store, r: Store, run: seq<Domain>, d: Domain, active: map<string, Task>, byId: map<string, Domain>, now: Time)
    requires StoreValid(s, active) && Effect(s, r, run, active, byId, now)
    requires d.id in byId && byId[d.id] == d && d.id !in Ids(run) && d.id in active
    requires Ids(run + [d]) == Ids(run) + {d.id} && Unassigned(run + [d], active) == Unassigned(run, active)
    ensures Effect(s, AfterDomain(r, d, active, now), run + [d], active, byId, now)
  {
    var n := AfterDomain(r, d, active, now);
    var t := Rearmed(active[d.id], d, now);
    var i :| 0 <= i < |s.tasks| && s.tasks[i] == active[d.id];
    assert s.tasks[i] in s.tasks && n.tasks == Stored(r.tasks, t) && t.id < s.nextId;
    forall k | 0 <= k < |s.tasks|
      ensures s.tasks[k].id == t.id ==> s.tasks[k] == active[d.id]
    {
      assert k != i ==> s.tasks[k].id != s.tasks[i].id;
    }
    forall k | 0 <= k < |s.tasks|
      ensures n.tasks[k] == RearmedIfRun(s.tasks[k], Ids(run) + {d.id}, active, byId, now)
    {
      RowOfRearming(s.tasks[k], Ids(run), d, active, byId, now);
    }
    forall j | |s.tasks| <= j < |r.tasks|
      ensures n.tasks[j] == r.tasks[j]
    {
      assert r.tasks[j].id >= s.nextId;
    }
  }

  lemma EffectOfCreating(s: Store, r: Store, run: seq<Domain>, d: Domain, active: map<string, Task>, byId: map<string, Domain>, now: Time)
    requires Effect(s, r, run, active, byId, now)
    requires d.id !in active
    requires Ids(run + [d]) == Ids(run) + {d.id} && Unassigned(run + [d], active) == Unassigned(run, active) + [d]
    ensures Effect(s, AfterDomain(r, d, active, now), run + [d], active, byId, now)
  {
    var n := AfterDomain(r, d, active, now);
    forall k | 0 <= k < |s.tasks|
      ensures n.tasks[k] == RearmedIfRun(s.tasks[k], Ids(run + [d]), active, byId, now)
    {
      assert n.tasks[k] == r.tasks[k];
    }
  }

  lemma {:induction false} DomainsEffect(s: Store, run: seq<Domain>, active: map<string, Task>, byId: map<string, Domain>, now: Time)
    requires DistinctBy(run, (d: Domain) => d.id) && forall d <- run :: d.id in byId && byId[d.id] == d
    requires StoreValid(s, active)
    ensures Effect(s, AfterDomains(s, run, active, now), run, active, byId, now)
  {
    if run != [] {
      var n := |run| - 1;
      var d := run[n];
      assert run == run[..n] + [d] && forall k :: 0 <= k < n ==> run[..n][k] == run[k];
      assert d in run;
      DomainsEffect(s, run[..n], active, byId, now);
      EffectOfDomain(s, AfterDomains(s, run[..n], active, now), run[..n], d, active, byId, now);
    }
  }

  /** One more domain of the last loop. */
  lemma EffectOfDomain(s: Store, r: Store, run: seq<Domain>, d: Domain, active: map<string, Task>, byId: map<string, Domain>, now: Time)
    requires StoreValid(s, active) && Effect(s, r, run, active, byId, now)
    requires d.id in byId && byId[d.id] == d && d.id !in Ids(run)
    ensures Effect(s, AfterDomain(r, d, active, now), run + [d], active, byId, now)
  {
    assert Ids(run + [d]) == Ids(run) + {d.id};
    UnassignedNext(run, d, active);
    if d.id in active {
      EffectOfRearming(s, r, run, d, active, byId, now);
    } else {
      EffectOfCreating(s, r, run, d, active, byId, now);
    }
  }

  lemma UnassignedNext(run: seq<Domain>, d: Domain, active: map<string, Task>)
    ensures Unassigned(run + [d], active) == Unassigned(run, active) + if d.id in active then [] else [d]
  {
    FilterAppend(run, [d], (d: Domain) => d.id !in active);
  }

  predicate HasActive(tasks: seq<Task>, domain: string) {
    exists t <- tasks :: IsActive(t) && t.domain == domain
  }

  function WithoutTask(run: seq<Domain>, tasks: seq<Task>): seq<Domain> {
    Filter(run, (d: Domain) => !HasActive(tasks, d.id))
  }

  function WithTask(run: seq<Domain>, tasks: seq<Task>): seq<Domain> {
    Filter(run, (d: Domain) => HasActive(tasks, d.id))
  }

  /** The row that a run leaves for the task `t`. */
  function RowAfterRun(t: Task, byId: map<string, Domain>, ids: set<string>, run: set<string>, now: Time): Task {
    if !IsActive(t) || t.domain !in ids then t
    else if FailureOf(t, byId).Some? then FailedTask(t, now, FailureOf(t, byId).value)
    else if t.domain in run then Rearmed(t, byId[t.domain], now)
    else t
  }

  /** The surviving active task of a run's domain is the only one it has. */
  lemma ActiveIsTheTask(tasks: seq<Task>, nextId: nat, byId: map<string, Domain>, ids: set<string>, m: map<string, Task>)
    requires TasksValid(tasks, nextId) && m == ActiveByDomain(ListActive(tasks, ids), byId)
    ensures forall x <- m :: m[x] in tasks && m[x].domain == x && IsActive(m[x]) && x in ids && FailureOf(m[x], byId).None?
    ensures forall t <- tasks :: IsActive(t) && t.domain in ids && FailureOf(t, byId).None? ==> t.domain in m && m[t.domain] == t
  {
    var listed := ListActive(tasks, ids);
    ActiveMap(listed, byId);
    forall t
      ensures t in listed <==> t in tasks && IsActive(t) && t.domain in ids
    {
      InListActive(tasks, ids, t);
    }
    forall t <- tasks | IsActive(t) && t.domain in ids && FailureOf(t, byId).None?
      ensures t.domain in m && m[t.domain] == t
    {
      var i :| 0 <= i < |tasks| && tasks[i] == t;
      var j :| 0 <= j < |tasks| && tasks[j] == m[t.domain];
    }
  }

  /** For a domain of the run, "in `activeByDomain`" means having an active task at all. */
  lemma ActiveMeansHasTask(tasks: seq<Task>, nextId: nat, byId: map<string, Domain>, ids: set<string>, run: seq<Domain>)
    requires TasksValid(tasks, nextId) && RunValid(byId, ids, run)
    ensures var m := ActiveByDomain(ListActive(tasks, ids), byId); forall d <- run :: d.id in m <==> HasActive(tasks, d.id)
  {
    ActiveIsTheTask(tasks, nextId, byId, ids, ActiveByDomain(ListActive(tasks, ids), byId));
  }

  lemma FailedRows(tasks: seq<Task>, nextId: nat, byId: map<string, Domain>, ids: set<string>, now: Time)
    requires TasksValid(tasks, nextId)
    ensures var r := AfterFailing(tasks, ListActive(tasks, ids), byId, now);
      && |r| == |tasks|
      && forall k :: 0 <= k < |r| ==> r[k] == RowAfterRun(tasks[k], byId, ids, {}, now)
  {
    forall t <- ListActive(tasks, ids)
      ensures t in tasks
    {
      InListActive(tasks, ids, t);
    }
    FailingEffect(tasks, ListActive(tasks, ids), byId, now);
    forall k | 0 <= k < |tasks|
      ensures tasks[k] in ListActive(tasks, ids) <==> IsActive(tasks[k]) && tasks[k].domain in ids
    {
      InListActive(tasks, ids, tasks[k]);
    }
  }

  /** How many tasks a run creates. */
  function Created(tasks: seq<Task>, run: seq<Domain>, limit: int): nat {
    Min(Max(0, (if limit <= 0 then |run| else limit) - |WithTask(run, tasks)|), |WithoutTask(run, tasks)|)
  }

  lemma RowOfRun(t: Task, tasks: seq<Task>, nextId: nat, byId: map<string, Domain>, ids: set<string>, run: seq<Domain>, now: Time)
    requires TasksValid(tasks, nextId) && RunValid(byId, ids, run) && t in tasks
    ensures RearmedIfRun(RowAfterRun(t, byId, ids, {}, now), Ids(run), ActiveByDomain(ListActive(tasks, ids), byId), byId, now)
         == RowAfterRun(t, byId, ids, Ids(run), now)
  {
    var m := ActiveByDomain(ListActive(tasks, ids), byId);
    ActiveIsTheTask(tasks, nextId, byId, ids, m);
    if t.domain in m && m[t.domain].id == t.id {
      assert m[t.domain] == t by {
        var i :| 0 <= i < |tasks| && tasks[i] == t;
        var j :| 0 <= j < |tasks| && tasks[j] == m[t.domain];
      }
    }
  }

  lemma QuotaOfRun(tasks: seq<Task>, nextId: nat, byId: map<string, Domain>, ids: set<string>, run: seq<Domain>, limit: int)
    requires TasksValid(tasks, nextId) && RunValid(byId, ids, run)
    ensures var active := ActiveByDomain(ListActive(tasks, ids), byId);
      && Unassigned(run, active) == WithoutTask(run, tasks)
      && Min(Remaining(limit, run, active), |Unassigned(run, active)|) == Created(tasks, run, limit)
  {
    var active := ActiveByDomain(ListActive(tasks, ids), byId);
    ActiveMeansHasTask(tasks, nextId, byId, ids, run);
    FilterSame(run, (d: Domain) => d.id in active, (d: Domain) => HasActive(tasks, d.id));
    FilterSame(run, (d: Domain) => d.id !in active, (d: Domain) => !HasActive(tasks, d.id));
  }

  /** A run fails every active task of a missing or unpublished domain, re-arms the active task of each of its
      own domains, leaves every other task alone, and creates tasks, in order, for exactly the first
      `Created` of its domains that had none. */
  lemma RunEffect(tasks: seq<Task>, nextId: nat, byId: map<string, Domain>, ids: set<string>, run: seq<Domain>, limit: int, now: Time)
    requires TasksValid(tasks, nextId) && RunValid(byId, ids, run)
    ensures var r := AfterRun(tasks, nextId, byId, ids, run, limit, now);
      && |r.tasks| == |tasks| + Created(tasks, run, limit) && r.nextId == nextId + Created(tasks, run, limit)
      && (forall k :: 0 <= k < |tasks| ==> r.tasks[k] == RowAfterRun(tasks[k], byId, ids, Ids(run), now))
      && (forall j :: |tasks| <= j < |r.tasks| ==>
            r.tasks[j] == NewTask(WithoutTask(run, tasks)[j - |tasks|], nextId + (j - |tasks|), now))
  {
    var listed := ListActive(tasks, ids);
    var active := ActiveByDomain(listed, byId);
    var failed := AfterFailing(tasks, listed, byId, now);
    FailedRows(tasks, nextId, byId, ids, now);
    QuotaOfRun(tasks, nextId, byId, ids, run, limit);
    FailedStoreValid(tasks, nextId, byId, ids, now, Remaining(limit, run, active));
    var s := Store(failed, nextId, Remaining(limit, run, active));
    var r := AfterRun(tasks, nextId, byId, ids, run, limit, now);
    assert r == AfterDomains(s, run, active, now);
    DomainsEffect(s, run, active, byId, now);
    EffectOnTasks(tasks, nextId, byId, ids, run, limit, now, s, r);
  }

  /** What the last loop has done to the failed tasks, in terms of the tasks before the run. */
  lemma EffectOnTasks(tasks: seq<Task>, nextId: nat, byId: map<string, Domain>, ids: set<string>, run: seq<Domain>, limit: int,
                      now: Time, s: Store, r: Store)
    requires TasksValid(tasks, nextId) && RunValid(byId, ids, run) && |s.tasks| == |tasks| && s.nextId == nextId
    requires forall k :: 0 <= k < |tasks| ==> s.tasks[k] == RowAfterRun(tasks[k], byId, ids, {}, now)
    requires var active := ActiveByDomain(ListActive(tasks, ids), byId);
      && Effect(s, r, run, active, byId, now) && Unassigned(run, active) == WithoutTask(run, tasks)
      && Min(s.remaining, |Unassigned(run, active)|) == Created(tasks, run, limit)
    ensures |r.tasks| == |tasks| + Created(tasks, run, limit) && r.nextId == nextId + Created(tasks, run, limit)
    ensures forall k :: 0 <= k < |tasks| ==> r.tasks[k] == RowAfterRun(tasks[k], byId, ids, Ids(run), now)
    ensures forall j :: |tasks| <= j < |r.tasks| ==>
              r.tasks[j] == NewTask(WithoutTask(run, tasks)[j - |tasks|], nextId + (j - |tasks|), now)
  {
    RowsOfRun(tasks, nextId, byId, ids, run, now, s.tasks, r.tasks);
  }

  lemma RowsOfRun(tasks: seq<Task>, nextId: nat, byId: map<string, Domain>, ids: set<string>, run: seq<Domain>, now: Time,
                  failed: seq<Task>, r: seq<Task>)
    requires TasksValid(tasks, nextId) && RunValid(byId, ids, run) && |tasks| == |failed| <= |r|
    requires forall k :: 0 <= k < |tasks| ==> failed[k] == RowAfterRun(tasks[k], byId, ids, {}, now)
    requires forall k :: 0 <= k < |tasks| ==>
      r[k] == RearmedIfRun(failed[k], Ids(run), ActiveByDomain(ListActive(tasks, ids), byId), byId, now)
    ensures forall k :: 0 <= k < |tasks| ==> r[k] == RowAfterRun(tasks[k], byId, ids, Ids(run), now)
  {
    forall k | 0 <= k < |tasks|
      ensures r[k] == RowAfterRun(tasks[k], byId, ids, Ids(run), now)
    {
      RowOfRun(tasks[k], tasks, nextId, byId, ids, run, now);
    }
  }

  lemma FailedStoreValid(tasks: seq<Task>, nextId: nat, byId: map<string, Domain>, ids: set<string>, now: Time, remaining: nat)
    requires TasksValid(tasks, nextId)
    ensures StoreValid(Store(AfterFailing(tasks, ListActive(tasks, ids), byId, now), nextId, remaining),
                       ActiveByDomain(ListActive(tasks, ids), byId))
  {
    FailedRows(tasks, nextId, byId, ids, now);
    var r := AfterFailing(tasks, ListActive(tasks, ids), byId, now);
    var m := ActiveByDomain(ListActive(tasks, ids), byId);
    ActiveIsTheTask(tasks, nextId, byId, ids, m);
    KeptRowsValid(tasks, nextId, byId, ids, now, r, m);
  }

  lemma KeptRowsValid(tasks: seq<Task>, nextId: nat, byId: map<string, Domain>, ids: set<string>, now: Time, r: seq<Task>, m: map<string, Task>)
    requires TasksValid(tasks, nextId) && |r| == |tasks|
    requires forall k :: 0 <= k < |r| ==> r[k] == RowAfterRun(tasks[k], byId, ids, {}, now)
    requires forall x <- m :: m[x] in tasks && m[x].domain == x && IsActive(m[x]) && x in ids && FailureOf(m[x], byId).None?
    ensures DistinctBy(r, (t: Task) => t.id) && (forall t <- r :: t.id < nextId)
    ensures forall x <- m :: m[x].domain == x && m[x] in r
  {
    forall x <- m
      ensures m[x] in r
    {
      var k :| 0 <= k < |tasks| && tasks[k] == m[x];
      assert r[k] == tasks[k];
    }
    forall t <- r
      ensures t.id < nextId
    {
      var k :| 0 <= k < |r| && r[k] == t;
      assert tasks[k] in tasks;
    }
  }

  /** New tasks for different domains without an active task, beside old rows that became no more active. */
  lemma AddingKeepsOneActive(tasks: seq<Task>, r: seq<Task>, nextId: nat, todo: seq<Domain>, n: nat, now: Time)
    requires TasksValid(tasks, nextId) && |r| == |tasks| + n && n <= |todo|
    requires DistinctBy(todo, (d: Domain) => d.id) && forall d <- todo :: !HasActive(tasks, d.id)
    requires forall k :: 0 <= k < |tasks| ==>
      r[k].id == tasks[k].id && r[k].domain == tasks[k].domain && (IsActive(r[k]) ==> IsActive(tasks[k]))
    requires forall j :: |tasks| <= j < |r| ==> r[j] == NewTask(todo[j - |tasks|], nextId + (j - |tasks|), now)
    ensures TasksValid(r, nextId + n)
  {
    forall i, j | 0 <= i < j < |r|
      ensures r[i].id != r[j].id && (IsActive(r[i]) && IsActive(r[j]) ==> r[i].domain != r[j].domain)
    {
      if j >= |tasks| {
        assert todo[j - |tasks|] in todo;
        if i < |tasks| {
          assert tasks[i] in tasks;
        }
      }
    }
    forall t <- r
      ensures t.id < nextId + n
    {
      var k :| 0 <= k < |r| && r[k] == t;
      if k < |tasks| { assert tasks[k] in tasks; }
    }
  }

  /** A run never gives a domain a second active task. */
  lemma RunKeepsOneActive(tasks: seq<Task>, nextId: nat, byId: map<string, Domain>, ids: set<string>, run: seq<Domain>, limit: int, now: Time)
    requires TasksValid(tasks, nextId) && RunValid(byId, ids, run)
    ensures var r := AfterRun(tasks, nextId, byId, ids, run, limit, now); TasksValid(r.tasks, r.nextId)
  {
    var todo := WithoutTask(run, tasks);
    RunEffect(tasks, nextId, byId, ids, run, limit, now);
    FilterDistinctBy(run, (d: Domain) => !HasActive(tasks, d.id), (d: Domain) => d.id);
    forall d <- todo
      ensures !HasActive(tasks, d.id)
    {
      InFilter(run, (d: Domain) => !HasActive(tasks, d.id), d);
    }
    AddingKeepsOneActive(tasks, AfterRun(tasks, nextId, byId, ids, run, limit, now).tasks, nextId, todo,
                         Created(tasks, run, limit), now);
  }

  // ---------------------------------------------------------------- one link schedule at one tick

  datatype LinkSchedule = LinkSchedule(cfg: Config, zone: int, limit: int, lastRun: Option<Time>, nextRun: Option<Time>)

  /** `computeLinkScheduleNextRun` reads the strategy off the fields that are filled in. */
  function LinkRule(cfg: Config): Rule {
    Rule(if !cfg.cron.Blank? || !cfg.interval.Blank? then Custom
         else if Text.TrimSpace(cfg.weekday) != "" || cfg.day > 0 then Weekly
         else Daily, cfg)
  }

  function DecisionAt(s: LinkSchedule, now: Time): Decision {
    LinkRule(s.cfg).Decide(now + s.zone, Shifted(s.lastRun, s.zone))
  }

  /** Today's run time in UTC, when the configured time parses. */
  function RunAtToday(s: LinkSchedule, now: Time): Option<Time> {
    var clock := ClockOf(s.cfg.at);
    if clock.Some? then Some(ScheduleAtTime(now + s.zone, clock.value) - s.zone) else None
  }

  /** A due schedule runs over the eligible domains, any other over those that ask to be relinked. */
  function RunOver(due: bool, domains: seq<Domain>, now: Time, runAt: Time): seq<Domain> {
    var eligible := EligibleDomains(domains, now, runAt);
    if due then eligible else Filter(eligible, (d: Domain) => NeedsRelink(d))
  }

  ghost predicate Indexes(byId: map<string, Domain>, domains: seq<Domain>) {
    byId.Keys == Ids(domains) && forall d <- domains :: d.id in byId && byId[d.id] == d
  }

  method IndexById(domains: seq<Domain>) returns (byId: map<string, Domain>)
    requires DistinctBy(domains, (d: Domain) => d.id)
    ensures Indexes(byId, domains)
  {
    byId := map[];
    for i := 0 to |domains|
      invariant byId.Keys == Ids(domains[..i]) && forall k :: 0 <= k < i ==> byId[domains[k].id] == domains[k]
    {
      assert Ids(domains[..i + 1]) == Ids(domains[..i]) + {domains[i].id};
      byId := byId[domains[i].id := domains[i]];
    }
    assert domains[..|domains|] == domains;
  }

  /** What a run goes over is valid as long as no listed domain leaves the project before the tasks are listed. */
  lemma RunOverIsValid(due: bool, domains: seq<Domain>, byId: map<string, Domain>, ids: set<string>, now: Time, runAt: Time)
    requires DistinctBy(domains, (d: Domain) => d.id) && Indexes(byId, domains) && Ids(domains) <= ids
    ensures RunValid(byId, ids, RunOver(due, domains, now, runAt))
  {
    var eligible := EligibleDomains(domains, now, runAt);
    FilterDistinctBy(domains, (d: Domain) => Verdict(d, now, runAt).None?, (d: Domain) => d.id);
    FilterDistinctBy(eligible, (d: Domain) => NeedsRelink(d), (d: Domain) => d.id);
    forall d <- RunOver(due, domains, now, runAt)
      ensures d in domains && IsPublished(d)
    {
      InFilter(eligible, (d: Domain) => NeedsRelink(d), d);
      InFilter(domains, (d: Domain) => Verdict(d, now, runAt).None?, d);
    }
  }

  /** The schedule's row after a tick that decided `d`; `ran` says whether there was a domain to run over. */
  function ScheduleAfter(s: LinkSchedule, d: Decision, ran: bool, now: Time): LinkSchedule {
    if d.Skipped? then s
    else
      var next := Shifted(d.next, -s.zone);
      if d.due && ran then s.(lastRun := Some(now), nextRun := next)
      else if s.nextRun.None? || (next.Some? && s.nextRun != next) then s.(nextRun := next)
      else s
  }

  /** The domains that a tick runs over: none when today's run time or the decision is an error. */
  function Chosen(d: Decision, runAt: Option<Time>, domains: seq<Domain>, now: Time): seq<Domain> {
    if runAt.Some? && d.Decided? then RunOver(d.due, domains, now, runAt.value) else []
  }

  method ChooseRun(due: bool, domains: seq<Domain>, now: Time, runAt: Time) returns (run: seq<Domain>)
    ensures run == RunOver(due, domains, now, runAt)
  {
    var eligible, skipped := FilterLinkDomains(domains, now, runAt);
    run := if due then eligible else Filter(eligible, (d: Domain) => NeedsRelink(d));
  }

  /** The tables are those after a run over `run`. */
  twostate predicate HasRun(store: LinkTaskStore, domains: seq<Domain>, ids: set<string>, run: seq<Domain>, limit: int, now: Time)
    reads store
  {
    exists byId :: Indexes(byId, domains)
      && Store(store.tasks, store.nextId, 0) == AfterRun(old(store.tasks), old(store.nextId), byId, ids, run, limit, now).(remaining := 0)
  }

  method RunLinks(store: LinkTaskStore, ghost due: bool, domains: seq<Domain>, ids: set<string>, run: seq<Domain>, limit: int, now: Time, ghost runAt: Time)
    requires DistinctBy(domains, (d: Domain) => d.id) && Ids(domains) <= ids
    requires TasksValid(store.tasks, store.nextId) && run == RunOver(due, domains, now, runAt)
    modifies store
    ensures TasksValid(store.tasks, store.nextId) && HasRun(store, domains, ids, run, limit, now)
  {
    var byId := IndexById(domains);
    RunOverIsValid(due, domains, byId, ids, now, runAt);
    RunKeepsOneActive(store.tasks, store.nextId, byId, ids, run, limit, now);
    store.Run(byId, ids, run, limit, now);
  }

  /** The body of the loop of `applyLinkSchedulesAt`, given the decision and today's run time; `ids` are the
      project's domains when the tasks are listed. */
  method ApplyDecision(store: LinkTaskStore, s: LinkSchedule, d: Decision, runAt: Option<Time>,
                       domains: seq<Domain>, ids: set<string>, now: Time) returns (updated: LinkSchedule)
    requires DistinctBy(domains, (d: Domain) => d.id) && Ids(domains) <= ids
    requires TasksValid(store.tasks, store.nextId)
    modifies store
    ensures TasksValid(store.tasks, store.nextId)
    ensures updated == if runAt.Some? then ScheduleAfter(s, d, Chosen(d, runAt, domains, now) != [], now) else s
    ensures var run := Chosen(d, runAt, domains, now);
      if run == [] then store.tasks == old(store.tasks) && store.nextId == old(store.nextId)
      else HasRun(store, domains, ids, run, s.limit, now)
  {
    updated := s;
    if runAt.None? || d.Skipped? {
      return;
    }
    var next := Shifted(d.next, -s.zone);
    if s.nextRun.None? || (next.Some? && s.nextRun != next) {
      updated := updated.(nextRun := next);
    }
    var run := ChooseRun(d.due, domains, now, runAt.value);
    if |run| == 0 {
      return;
    }
    RunLinks(store, d.due, domains, ids, run, s.limit, now, runAt.value);
    if d.due {
      updated := updated.(lastRun := Some(now), nextRun := next);
    }
  }

  /** One link schedule at one tick. */
  method ApplyLinkSchedule(store: LinkTaskStore, s: LinkSchedule, domains: seq<Domain>, ids: set<string>, now: Time)
    returns (updated: LinkSchedule)
    requires DistinctBy(domains, (d: Domain) => d.id) && Ids(domains) <= ids
    requires TasksValid(store.tasks, store.nextId)
    modifies store
    ensures TasksValid(store.tasks, store.nextId)
    ensures updated == if RunAtToday(s, now).Some?
      then ScheduleAfter(s, DecisionAt(s, now), Chosen(DecisionAt(s, now), RunAtToday(s, now), domains, now) != [], now) else s
    ensures var run := Chosen(DecisionAt(s, now), RunAtToday(s, now), domains, now);
      if run == [] then store.tasks == old(store.tasks) && store.nextId == old(store.nextId)
      else HasRun(store, domains, ids, run, s.limit, now)
  {
    updated := ApplyDecision(store, s, DecisionAt(s, now), RunAtToday(s, now), domains, ids, now);
  }
}
