/** Whole runs of link schedules, dispatcher, task queue and link workers. No write of a task's status looks at the
    status that it replaces, and one task can have several deliveries. */
module LinkDeliveries {
  import opened Sequences
  import opened Recurrence
  import opened LinkScheduler
  import Text

  /** The task table, the deliveries that are due, and the tasks that handlers work at, once for each handler. */
  datatype System = System(tasks: seq<Task>, nextId: nat, due: seq<nat>, running: seq<nat>)

  /** What happens to the tables:
      a run of a schedule that nothing interrupts; the creation of a task by a run that listed the tasks before; any
      other write of the scheduler (re-arming, failing, marking as dispatched, resetting as stuck) to a task it has
      listed before; a task handed to the task queue; a delivery that begins; a write of a handler under way; and a
      handler that returns, `again` with an error and deliveries left. */
  datatype Step =
    | Runs(byId: map<string, Domain>, ids: set<string>, over: seq<Domain>, limit: int, now: Time)
    | Creates(d: Domain, now: Time)
    | Sets(k: nat, row: Task)
    | Enqueues(k: nat)
    | Starts(k: nat, at: nat)
    | Writes(k: nat, at: nat, row: Task)
    | Returns(at: nat, again: bool)

  predicate IsRowOf(tasks: seq<Task>, k: nat, row: Task) {
    k < |tasks| && row.id == tasks[k].id && row.domain == tasks[k].domain
  }

  ghost predicate CanStep(s: System, step: Step) {
    match step
    case Runs(byId, ids, over, _, _) => RunValid(byId, ids, over)
    case Creates(_, _) => true
    case Sets(k, row) => IsRowOf(s.tasks, k, row)
    case Enqueues(k) => k < |s.tasks|
    case Starts(k, at) => k < |s.tasks| && at < |s.due| && s.due[at] == s.tasks[k].id
    case Writes(k, at, row) => IsRowOf(s.tasks, k, row) && at < |s.running| && s.running[at] == s.tasks[k].id
    case Returns(at, _) => at < |s.running|
  }

  function Without<T>(s: seq<T>, at: nat): seq<T>
    requires at < |s|
  {
    s[..at] + s[at + 1..]
  }

  /** `ProcessTask` marks the task as in progress, whatever its status; an action that it does not know fails. */
  function Started(t: Task): Task {
    var action := Text.TrimSpace(t.action);
    if action == "" || Text.LowersTo(action, "insert") then t.(status := Searching, attempts := t.attempts + 1)
    else if Text.LowersTo(action, "remove") then t.(status := Removing, attempts := t.attempts + 1)
    else t.(status := Failed, attempts := t.attempts + 1)
  }

  function AfterStep(s: System, step: Step): System
    requires CanStep(s, step)
  {
    match step
    case Runs(byId, ids, over, limit, now) =>
      var r := AfterRun(s.tasks, s.nextId, byId, ids, over, limit, now);
      s.(tasks := r.tasks, nextId := r.nextId)
    case Creates(d, now) => s.(tasks := s.tasks + [NewTask(d, s.nextId, now)], nextId := s.nextId + 1)
    case Sets(k, row) => s.(tasks := s.tasks[k := row])
    case Enqueues(k) => s.(due := s.due + [s.tasks[k].id])
    case Starts(k, at) =>
      s.(tasks := s.tasks[k := Started(s.tasks[k])], due := Without(s.due, at), running := s.running + [s.tasks[k].id])
    case Writes(k, _, row) => s.(tasks := s.tasks[k := row])
    case Returns(at, again) =>
      s.(due := s.due + if again then [s.running[at]] else [], running := Without(s.running, at))
  }

  ghost predicate StepAt(states: seq<System>, steps: seq<Step>, i: nat) {
    && i < |steps| && i + 1 < |states|
    && CanStep(states[i], steps[i]) && states[i + 1] == AfterStep(states[i], steps[i])
  }

  ghost predicate IsRunOf(states: seq<System>, steps: seq<Step>) {
    && |states| == |steps| + 1
    && forall i: nat {:trigger StepAt(states, steps, i)} :: i < |steps| ==> StepAt(states, steps, i)
  }

  ghost predicate IdsValid(s: System) {
    DistinctBy(s.tasks, (t: Task) => t.id) && forall t <- s.tasks :: t.id < s.nextId
  }

  // ---------------------------------------------------------------- one active task per domain

  /** A write makes an inactive task active beside another active task of its domain. */
  predicate Wakes(tasks: seq<Task>, k: nat, row: Task) {
    && k < |tasks| && IsActive(row) && !IsActive(tasks[k])
    && exists j :: 0 <= j < |tasks| && j != k && IsActive(tasks[j]) && tasks[j].domain == tasks[k].domain
  }

  /** A late creation finds an active task of its domain, or a late write or delivery wakes a task beside one. */
  predicate Doubles(s: System, step: Step) {
    match step
    case Creates(d, _) => HasActive(s.tasks, d.id)
    case Sets(k, row) => Wakes(s.tasks, k, row)
    case Starts(k, _) => k < |s.tasks| && Wakes(s.tasks, k, Started(s.tasks[k]))
    case Writes(k, _, row) => Wakes(s.tasks, k, row)
    case _ => false
  }

  lemma WriteKeepsOneActive(tasks: seq<Task>, k: nat, row: Task)
    requires OneActivePerDomain(tasks) && IsRowOf(tasks, k, row)
    ensures OneActivePerDomain(tasks[k := row]) <==> !Wakes(tasks, k, row)
  {
    var next := tasks[k := row];
    if Wakes(tasks, k, row) {
      var j :| 0 <= j < |tasks| && j != k && IsActive(tasks[j]) && tasks[j].domain == tasks[k].domain;
      assert next[j] == tasks[j] && next[k] == row;
    }
  }

  lemma CreationKeepsOneActive(tasks: seq<Task>, t: Task)
    requires OneActivePerDomain(tasks) && IsActive(t)
    ensures OneActivePerDomain(tasks + [t]) <==> !HasActive(tasks, t.domain)
  {
    var next := tasks + [t];
    if HasActive(tasks, t.domain) {
      var x :| x in tasks && IsActive(x) && x.domain == t.domain;
      var i :| 0 <= i < |tasks| && tasks[i] == x;
      assert next[i] == x && next[|tasks|] == t;
    }
  }

  /** A step leaves each domain with at most one active task exactly when it does not double one. */
  lemma OneActiveStep(s: System, step: Step)
    requires IdsValid(s) && OneActivePerDomain(s.tasks) && CanStep(s, step)
    ensures OneActivePerDomain(AfterStep(s, step).tasks) <==> !Doubles(s, step)
  {
    match step
    case Runs(byId, ids, over, limit, now) => RunKeepsOneActive(s.tasks, s.nextId, byId, ids, over, limit, now);
    case Creates(d, now) => CreationKeepsOneActive(s.tasks, NewTask(d, s.nextId, now));
    case Sets(k, row) => WriteKeepsOneActive(s.tasks, k, row);
    case Enqueues(_) =>
    case Starts(k, _) => WriteKeepsOneActive(s.tasks, k, Started(s.tasks[k]));
    case Writes(k, _, row) => WriteKeepsOneActive(s.tasks, k, row);
    case Returns(_, _) =>
  }

  lemma WriteKeepsIds(tasks: seq<Task>, nextId: nat, k: nat, row: Task)
    requires DistinctBy(tasks, (t: Task) => t.id) && (forall t <- tasks :: t.id < nextId) && IsRowOf(tasks, k, row)
    ensures DistinctBy(tasks[k := row], (t: Task) => t.id) && forall t <- tasks[k := row] :: t.id < nextId
  {
    assert tasks[k] in tasks;
  }

  lemma StepKeepsIds(s: System, step: Step)
    requires IdsValid(s) && OneActivePerDomain(s.tasks) && CanStep(s, step)
    ensures IdsValid(AfterStep(s, step))
  {
    match step
    case Runs(byId, ids, over, limit, now) => RunKeepsOneActive(s.tasks, s.nextId, byId, ids, over, limit, now);
    case Creates(_, _) =>
    case Sets(k, row) => WriteKeepsIds(s.tasks, s.nextId, k, row);
    case Enqueues(_) =>
    case Starts(k, _) => WriteKeepsIds(s.tasks, s.nextId, k, Started(s.tasks[k]));
    case Writes(k, _, row) => WriteKeepsIds(s.tasks, s.nextId, k, row);
    case Returns(_, _) =>
  }

  lemma {:induction false} UndoubledUpTo(states: seq<System>, steps: seq<Step>, i: nat)
    requires IsRunOf(states, steps) && IdsValid(states[0]) && OneActivePerDomain(states[0].tasks) && i < |states|
    requires forall j :: 0 <= j < i ==> !Doubles(states[j], steps[j])
    ensures IdsValid(states[i]) && OneActivePerDomain(states[i].tasks)
  {
    if i > 0 {
      UndoubledUpTo(states, steps, i - 1);
      assert StepAt(states, steps, i - 1);
      StepKeepsIds(states[i - 1], steps[i - 1]);
      OneActiveStep(states[i - 1], steps[i - 1]);
    }
  }

  /** In every run, every state leaves each domain with at most one active task exactly when no step doubles one. */
  lemma OneActiveOverRuns(states: seq<System>, steps: seq<Step>)
    requires IsRunOf(states, steps) && IdsValid(states[0]) && OneActivePerDomain(states[0].tasks)
    ensures (forall s <- states :: OneActivePerDomain(s.tasks)) <==>
            (forall i :: 0 <= i < |steps| ==> !Doubles(states[i], steps[i]))
  {
    if forall i :: 0 <= i < |steps| ==> !Doubles(states[i], steps[i]) {
      forall i | 0 <= i < |states|
        ensures OneActivePerDomain(states[i].tasks)
      {
        UndoubledUpTo(states, steps, i);
      }
    }
    if forall s <- states :: OneActivePerDomain(s.tasks) {
      forall i | 0 <= i < |steps|
        ensures !Doubles(states[i], steps[i])
      {
        IdsThroughout(states, steps, i);
        assert StepAt(states, steps, i);
        assert states[i] in states && states[i + 1] in states;
        OneActiveStep(states[i], steps[i]);
      }
    }
  }

  lemma {:induction false} IdsThroughout(states: seq<System>, steps: seq<Step>, i: nat)
    requires IsRunOf(states, steps) && IdsValid(states[0]) && i < |states|
    requires forall s <- states :: OneActivePerDomain(s.tasks)
    ensures IdsValid(states[i])
  {
    if i > 0 {
      IdsThroughout(states, steps, i - 1);
      assert StepAt(states, steps, i - 1);
      assert states[i - 1] in states;
      StepKeepsIds(states[i - 1], steps[i - 1]);
    }
  }

  // ---------------------------------------------------------------- a delivery that comes late

  lemma JoinRuns(a: seq<System>, s: seq<Step>, b: seq<System>, t: seq<Step>)
    requires IsRunOf(a, s) && IsRunOf(b, t) && a[|a| - 1] == b[0]
    ensures IsRunOf(a + b[1..], s + t)
  {
    var states, steps := a + b[1..], s + t;
    forall i: nat | i < |steps|
      ensures StepAt(states, steps, i)
    {
      if i < |s| {
        assert StepAt(a, s, i);
      } else {
        assert StepAt(b, t, i - |s|) && states[i] == b[i - |s|] && states[i + 1] == b[i + 1 - |s|];
      }
    }
  }

  lemma CreatesOne(tasks: seq<Task>, d: Domain, limit: int)
    requires forall t <- tasks :: !IsActive(t)
    ensures WithoutTask([d], tasks) == [d] && Created(tasks, [d], limit) == 1
  {
    assert [d][..0] == [];
    assert WithTask([d], tasks) == [];
  }

  /** A run over one domain without an active task creates one. */
  lemma RunCreates(tasks: seq<Task>, nextId: nat, d: Domain, limit: int, now: Time)
    requires TasksValid(tasks, nextId) && IsPublished(d) && forall t <- tasks :: !IsActive(t)
    ensures RunValid(map[d.id := d], {d.id}, [d])
    ensures var r := AfterRun(tasks, nextId, map[d.id := d], {d.id}, [d], limit, now);
      r.tasks == tasks + [NewTask(d, nextId, now)] && r.nextId == nextId + 1
  {
    var byId, ids := map[d.id := d], {d.id};
    CreatesOne(tasks, d, limit);
    RunEffect(tasks, nextId, byId, ids, [d], limit, now);
    RowsAndOne(tasks, AfterRun(tasks, nextId, byId, ids, [d], limit, now).tasks, byId, ids, NewTask(d, nextId, now), now);
  }

  lemma RowsAndOne(tasks: seq<Task>, r: seq<Task>, byId: map<string, Domain>, ids: set<string>, t: Task, now: Time)
    requires |r| == |tasks| + 1 && r[|tasks|] == t && forall t <- tasks :: !IsActive(t)
    requires forall k :: 0 <= k < |tasks| ==> r[k] == RowAfterRun(tasks[k], byId, ids, ids, now)
    ensures r == tasks + [t]
  {
    forall k | 0 <= k < |tasks|
      ensures r[k] == tasks[k]
    {
      assert tasks[k] in tasks;
    }
  }

  /** A run of the schedule over `d`. */
  function RunsOver(d: Domain, limit: int, now: Time): Step {
    Runs(map[d.id := d], {d.id}, [d], limit, now)
  }

  lemma RunsOnce(s: System, d: Domain, limit: int, now: Time) returns (states: seq<System>)
    requires TasksValid(s.tasks, s.nextId) && IsPublished(d) && forall t <- s.tasks :: !IsActive(t)
    ensures IsRunOf(states, [RunsOver(d, limit, now)])
    ensures states == [s, s.(tasks := s.tasks + [NewTask(d, s.nextId, now)], nextId := s.nextId + 1)]
  {
    RunCreates(s.tasks, s.nextId, d, limit, now);
    states := OneStep(s, RunsOver(d, limit, now));
  }

  /** The dispatcher hands task 0 over and marks it; its delivery waits so long that the task is reset as stuck and
      handed over again. */
  function HandedOverTwice(t: Task): seq<Step> {
    [Enqueues(0), Sets(0, t.(status := Searching)), Sets(0, t), Enqueues(0), Sets(0, t.(status := Searching))]
  }

  /** The first delivery ends the task. */
  function Delivered(done: Task): seq<Step> {
    [Starts(0, 0), Writes(0, 0, done), Returns(0, false)]
  }

  function LateDelivery(d: Domain, limit: int, first: Time, later: Time): seq<Step> {
    var t := NewTask(d, 0, first);
    [RunsOver(d, limit, first)] + HandedOverTwice(t) + Delivered(t.(status := Inserted, completedAt := Some(first)))
    + [RunsOver(d, limit, later), Starts(0, 0)]
  }

  lemma HandsOverTwice(s: System, t: Task) returns (states: seq<System>)
    requires s.tasks == [t] && s.due == []
    ensures IsRunOf(states, HandedOverTwice(t)) && states[0] == s
    ensures states[5] == s.(tasks := [t.(status := Searching)], due := [t.id, t.id])
  {
    var marked := t.(status := Searching);
    states := [s, s.(due := [t.id]), s.(due := [t.id], tasks := [marked]), s.(due := [t.id]), s.(due := [t.id, t.id]),
               s.(due := [t.id, t.id], tasks := [marked])];
  }

  lemma DeliversOnce(s: System, t: Task, done: Task) returns (states: seq<System>)
    requires s.tasks == [t] && s.due == [t.id, t.id] && s.running == [] && done.id == t.id && done.domain == t.domain
    ensures IsRunOf(states, Delivered(done)) && states[0] == s
    ensures states[3] == s.(tasks := [done], due := [t.id])
  {
    var begun := BeginsOnce(s, t);
    var ended := s.(tasks := [done], due := [t.id], running := [t.id]);
    var last := s.(tasks := [done], due := [t.id]);
    EndsOnce(begun, begun.tasks[0], done, ended, last);
    states := [s, begun, ended, last];
    ThreeSteps(states, Delivered(done));
  }

  lemma BeginsOnce(s: System, t: Task) returns (begun: System)
    requires s.tasks == [t] && s.due == [t.id, t.id] && s.running == []
    ensures CanStep(s, Starts(0, 0)) && begun == AfterStep(s, Starts(0, 0))
    ensures |begun.tasks| == 1 && begun.tasks[0].id == t.id && begun.tasks[0].domain == t.domain
    ensures begun.due == [t.id] && begun.running == [t.id] && begun.nextId == s.nextId
  {
    begun := AfterStep(s, Starts(0, 0));
    assert begun.tasks == [Started(t)];
  }

  lemma EndsOnce(begun: System, t: Task, done: Task, ended: System, last: System)
    requires begun.tasks == [t] && begun.running == [t.id] && done.id == t.id && done.domain == t.domain
    requires ended == begun.(tasks := [done]) && last == ended.(running := [])
    ensures CanStep(begun, Writes(0, 0, done)) && ended == AfterStep(begun, Writes(0, 0, done))
    ensures CanStep(ended, Returns(0, false)) && last == AfterStep(ended, Returns(0, false))
  {
  }

  lemma ThreeSteps(states: seq<System>, steps: seq<Step>)
    requires |states| == 4 && |steps| == 3
    requires CanStep(states[0], steps[0]) && states[1] == AfterStep(states[0], steps[0])
    requires CanStep(states[1], steps[1]) && states[2] == AfterStep(states[1], steps[1])
    requires CanStep(states[2], steps[2]) && states[3] == AfterStep(states[2], steps[2])
    ensures IsRunOf(states, steps)
  {
  }

  lemma OneStep(s: System, step: Step) returns (states: seq<System>)
    requires CanStep(s, step)
    ensures IsRunOf(states, [step]) && states == [s, AfterStep(s, step)]
  {
    states := [s, AfterStep(s, step)];
  }

  lemma ActionIsInsert(t: Task)
    requires t.action == "insert"
    ensures Started(t).status == Searching
  {
    PlainAction(t.action);
    assert Text.LowersTo(t.action, "insert");
  }

  lemma PlainAction(action: string)
    requires action != "" && !Text.GoSpace(action[0]) && !Text.GoSpace(action[|action| - 1])
    ensures Text.TrimSpace(action) == action
  {
    Text.TrimSpaceFixpoint(action);
  }

  /** From empty tables: a task that was handed over twice is ended by its first delivery, the next run creates another
      one, and the second delivery makes the first task active again. */
  lemma LateDeliveryDoubles(d: Domain, limit: int, first: Time, later: Time) returns (states: seq<System>)
    requires IsPublished(d)
    ensures IsRunOf(states, LateDelivery(d, limit, first, later)) && states[0] == System([], 0, [], [])
    ensures var end := states[|states| - 1].tasks;
      |end| == 2 && end[0].domain == end[1].domain == d.id && IsActive(end[0]) && IsActive(end[1])
  {
    var t := NewTask(d, 0, first);
    var done := t.(status := Inserted, completedAt := Some(first));
    var before := CreatedAndHandedOver(d, limit, first);
    var middle := DeliversOnce(before[6], t.(status := Searching), done);
    var after := RunAndLateDelivery(middle[3], done, d, limit, later);
    JoinRuns(before, [RunsOver(d, limit, first)] + HandedOverTwice(t), middle, Delivered(done));
    JoinRuns(before + middle[1..], [RunsOver(d, limit, first)] + HandedOverTwice(t) + Delivered(done),
             after, [RunsOver(d, limit, later), Starts(0, 0)]);
    states := before + middle[1..] + after[1..];
  }

  lemma CreatedAndHandedOver(d: Domain, limit: int, now: Time) returns (states: seq<System>)
    requires IsPublished(d)
    ensures var t := NewTask(d, 0, now);
      && IsRunOf(states, [RunsOver(d, limit, now)] + HandedOverTwice(t)) && states[0] == System([], 0, [], [])
      && |states| == 7 && states[6] == System([t.(status := Searching)], 1, [0, 0], [])
  {
    var t := NewTask(d, 0, now);
    var a := RunsOnce(System([], 0, [], []), d, limit, now);
    var b := HandsOverTwice(a[1], t);
    JoinRuns(a, [RunsOver(d, limit, now)], b, HandedOverTwice(t));
    states := a + b[1..];
  }

  lemma RunAndLateDelivery(s: System, done: Task, d: Domain, limit: int, now: Time) returns (states: seq<System>)
    requires s.tasks == [done] && s.nextId == 1 && s.due == [0] && done.id == 0 && IsPublished(d)
    requires done.domain == d.id && !IsActive(done) && done.action == "insert"
    ensures IsRunOf(states, [RunsOver(d, limit, now), Starts(0, 0)]) && states[0] == s && |states| == 3
    ensures var end := states[2].tasks;
      |end| == 2 && end[0].domain == end[1].domain == d.id && IsActive(end[0]) && IsActive(end[1])
  {
    var a := RunsOnce(s, d, limit, now);
    var b := InsertWakes(a[1], done, NewTask(d, 1, now));
    JoinRuns(a, [RunsOver(d, limit, now)], b, [Starts(0, 0)]);
    assert [RunsOver(d, limit, now)] + [Starts(0, 0)] == [RunsOver(d, limit, now), Starts(0, 0)];
    states := a + b[1..];
  }

  lemma InsertWakes(s: System, done: Task, t: Task) returns (states: seq<System>)
    requires s.tasks == [done, t] && s.due == [done.id] && done.action == "insert" && t.status == Pending
    ensures IsRunOf(states, [Starts(0, 0)]) && states[0] == s && |states| == 2
    ensures var end := states[1].tasks;
      |end| == 2 && end[0].domain == done.domain && end[1] == t && IsActive(end[0])
  {
    ActionIsInsert(done);
    states := WakesBeside(s, done, t);
  }

  lemma WakesBeside(s: System, done: Task, t: Task) returns (states: seq<System>)
    requires s.tasks == [done, t] && s.due == [done.id] && Started(done).status == Searching && t.status == Pending
    ensures IsRunOf(states, [Starts(0, 0)]) && states[0] == s && |states| == 2
    ensures var end := states[1].tasks;
      |end| == 2 && end[0].domain == done.domain && end[1] == t && IsActive(end[0])
  {
    states := OneStep(s, Starts(0, 0));
  }

  // ---------------------------------------------------------------- a task between the queries of a run

  /** `listActiveLinkTasksByProject` asks for one status after the other; `a`, `b` and `c` are the tables then. */
  function ListedAcross(a: seq<Task>, b: seq<Task>, c: seq<Task>, ids: set<string>): seq<Task> {
    Filter(a, (t: Task) => t.status == Pending && t.domain in ids)
    + Filter(b, (t: Task) => t.status == Searching && t.domain in ids)
    + Filter(c, (t: Task) => t.status == Removing && t.domain in ids)
  }

  lemma InListedAcross(a: seq<Task>, b: seq<Task>, c: seq<Task>, ids: set<string>, t: Task)
    ensures t in ListedAcross(a, b, c, ids) <==>
      t.domain in ids && ((t in a && t.status == Pending) || (t in b && t.status == Searching) || (t in c && t.status == Removing))
  {
    InFilter(a, (t: Task) => t.status == Pending && t.domain in ids, t);
    InFilter(b, (t: Task) => t.status == Searching && t.domain in ids, t);
    InFilter(c, (t: Task) => t.status == Removing && t.domain in ids, t);
  }

  /** While the rows keep their ids and domains, a run lists task `k` of its project exactly when the task is pending at
      the first query, searching at the second, or removing at the third. */
  lemma ListedExactly(a: seq<Task>, b: seq<Task>, c: seq<Task>, ids: set<string>, k: nat)
    requires k < |a| == |b| == |c| && DistinctBy(a, (t: Task) => t.id) && a[k].domain in ids
    requires forall i :: 0 <= i < |a| ==> a[i].id == b[i].id == c[i].id && a[i].domain == b[i].domain == c[i].domain
    ensures (exists t <- ListedAcross(a, b, c, ids) :: t.id == a[k].id) <==>
            a[k].status == Pending || b[k].status == Searching || c[k].status == Removing
  {
    if t :| t in ListedAcross(a, b, c, ids) && t.id == a[k].id {
      InListedAcross(a, b, c, ids, t);
      RowById(a, k, t);
      RowById(b, k, t);
      RowById(c, k, t);
    }
    InListedAcross(a, b, c, ids, a[k]);
    InListedAcross(a, b, c, ids, b[k]);
    InListedAcross(a, b, c, ids, c[k]);
  }

  lemma RowById(tasks: seq<Task>, k: nat, t: Task)
    requires k < |tasks| && t.id == tasks[k].id
    requires forall i, j :: 0 <= i < j < |tasks| ==> tasks[i].id != tasks[j].id
    ensures t in tasks ==> t == tasks[k]
  {
  }

  /** A task that goes back from searching to pending between the first two queries of a run is not listed, and the task
      that the run then creates for its domain is a second active one. */
  lemma MissedTaskDoubles(s: System, k: nat, at: nat, row: Task, d: Domain, ids: set<string>, now: Time)
    requires IdsValid(s) && OneActivePerDomain(s.tasks) && IsRowOf(s.tasks, k, row)
    requires s.tasks[k].status == Searching && row.status == Pending && d.id == row.domain && d.id in ids
    requires at < |s.running| && s.running[at] == row.id
    ensures var moved := AfterStep(s, Writes(k, at, row));
      && OneActivePerDomain(moved.tasks)
      && (forall t <- ListedAcross(s.tasks, moved.tasks, moved.tasks, ids) :: t.domain != d.id)
      && Doubles(moved, Creates(d, now)) && !OneActivePerDomain(AfterStep(moved, Creates(d, now)).tasks)
  {
    var moved := AfterStep(s, Writes(k, at, row));
    OneActiveStep(s, Writes(k, at, row));
    StepKeepsIds(s, Writes(k, at, row));
    forall t <- ListedAcross(s.tasks, moved.tasks, moved.tasks, ids)
      ensures t.domain != d.id
    {
      InListedAcross(s.tasks, moved.tasks, moved.tasks, ids, t);
      OnlyActive(s.tasks, k, t);
      OnlyActive(moved.tasks, k, t);
    }
    assert row in moved.tasks by {
      assert moved.tasks[k] == row;
    }
    OneActiveStep(moved, Creates(d, now));
  }

  lemma OnlyActive(tasks: seq<Task>, k: nat, t: Task)
    requires OneActivePerDomain(tasks) && k < |tasks| && IsActive(tasks[k])
    ensures t in tasks && IsActive(t) && t.domain == tasks[k].domain ==> t == tasks[k]
  {
  }
}
