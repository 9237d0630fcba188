/** A legacy import: one handler per item, all counting into one job row, whoever sees the last count finishing the
    job. Each store call is one atomic step; handlers interleave freely. */
module ImportJob {
  import opened Sequences

  datatype Status = Pending | Running | Completed | Failed

  datatype Job = Job(status: Status, total: nat, completed: nat, failed: nat, skipped: nat)

  predicate Done(job: Job) {
    job.status == Completed || job.status == Failed
  }

  function Started(job: Job): Job {
    if job.status == Pending then job.(status := Running) else job
  }

  function Processed(job: Job): nat {
    job.completed + job.failed + job.skipped
  }

  function Verdict(seen: Job): Status {
    if seen.failed > 0 && seen.completed == 0 then Failed else Completed
  }

  // ---------------------------------------------------------------- one handler

  datatype Stage =
    | Waiting
    | Looked
    | Working
    | Counted
    | Seen(job: Job)
    | Aborted
    | Blind
    | Ended(verdict: Option<Job>)

  /** `failing` is the outcome of the last processing; `failures` and `successes` are what it has counted so far,
      over all its deliveries. */
  datatype Handler = Handler(stage: Stage, failing: bool, redelivered: nat, failures: nat, successes: nat)

  datatype Move = Look | Abort | Start | Process(fails: bool) | Reread | RereadFails | Finish | Redeliver

  predicate CanMove(h: Handler, move: Move, retries: nat) {
    match move
    case Look => h.stage == Waiting
    case Abort => h.stage == Waiting
    case Start => h.stage == Looked
    case Process(_) => h.stage == Working
    case Reread => h.stage == Counted
    case RereadFails => h.stage == Counted
    case Finish => h.stage.Seen?
    case Redeliver => (h.stage == Aborted || ((h.stage.Ended? || h.stage == Blind) && h.failing)) && h.redelivered < retries
  }

  function HandlerAfter(job: Job, h: Handler, move: Move): Handler {
    match move
    case Look => h.(stage := if job.status == Pending then Looked else Working)
    case Abort => h.(stage := Aborted)
    case Start => h.(stage := Working)
    case Process(fails) =>
      if fails then h.(stage := Counted, failing := true, failures := h.failures + 1)
      else h.(stage := Counted, failing := false, successes := h.successes + 1)
    case Reread => h.(stage := Seen(job))
    case RereadFails => h.(stage := Blind)
    case Finish =>
      if h.stage.Seen? && Processed(h.stage.job) >= h.stage.job.total then h.(stage := Ended(Some(h.stage.job)))
      else h.(stage := Ended(None))
    case Redeliver => h.(stage := Waiting, redelivered := h.redelivered + 1)
  }

  function JobAfter(job: Job, h: Handler, move: Move): Job {
    match move
    case Start => Started(job)
    case Process(fails) => if fails then job.(failed := job.failed + 1) else job.(completed := job.completed + 1)
    case Finish =>
      if h.stage.Seen? && Processed(h.stage.job) >= h.stage.job.total then job.(status := Verdict(h.stage.job)) else job
    case _ => job
  }

  class LegacyImportStore {
    var job: Job

    method UpdateJobStarted()
      modifies this
      ensures job == Started(old(job))
    {
      if job.status == Pending {
        job := job.(status := Running);
      }
    }

    method IncrementJobCompleted()
      modifies this
      ensures job == old(job).(completed := old(job).completed + 1)
    {
      job := job.(completed := job.completed + 1);
    }

    method IncrementJobFailed()
      modifies this
      ensures job == old(job).(failed := old(job).failed + 1)
    {
      job := job.(failed := job.failed + 1);
    }

    method UpdateJobFinished(status: Status)
      modifies this
      ensures job == old(job).(status := status)
    {
      job := job.(status := status);
    }
  }

  /** The handler when nothing interrupts it. */
  method HandleImport(store: LegacyImportStore, fails: bool) returns (finished: bool)
    modifies store
    ensures store.job == After(Alone(old(store.job)), Undisturbed(0, fails, old(store.job))).job
    ensures finished <==> Processed(store.job) >= store.job.total
  {
    ghost var was := store.job;
    var job := store.job;
    if job.status == Pending {
      store.UpdateJobStarted();
    }
    if fails {
      store.IncrementJobFailed();
    } else {
      store.IncrementJobCompleted();
    }
    var updated := store.job;
    finished := false;
    var processed := updated.completed + updated.failed + updated.skipped;
    if processed >= updated.total {
      var status := Completed;
      if updated.failed > 0 && updated.completed == 0 {
        status := Failed;
      }
      store.UpdateJobFinished(status);
      finished := true;
    }
    UndisturbedEffect(Alone(was), 0, fails, 0);
  }

  // ---------------------------------------------------------------- all handlers

  datatype System = System(job: Job, handlers: seq<Handler>)

  datatype Event = Event(handler: nat, move: Move)

  const Undelivered := Handler(Waiting, false, 0, 0, 0)

  function Alone(job: Job): System { System(job, [Undelivered]) }

  /** A job of `n` items. */
  function Initial(n: nat): System {
    System(Job(Pending, n, 0, 0, 0), seq(n, _ => Undelivered))
  }

  predicate Enabled(s: System, e: Event, retries: nat) {
    e.handler < |s.handlers| && CanMove(s.handlers[e.handler], e.move, retries)
  }

  function Next(s: System, e: Event): System {
    if e.handler < |s.handlers| then
      var h := s.handlers[e.handler];
      System(JobAfter(s.job, h, e.move), s.handlers[e.handler := HandlerAfter(s.job, h, e.move)])
    else s
  }

  function After(s: System, run: seq<Event>): System
    decreases |run|
  {
    if run == [] then s else Next(After(s, run[..|run| - 1]), run[|run| - 1])
  }

  predicate PossibleRun(s: System, run: seq<Event>, retries: nat)
    decreases |run|
  {
    run == [] || (PossibleRun(s, run[..|run| - 1], retries) && Enabled(After(s, run[..|run| - 1]), run[|run| - 1], retries))
  }

  /** What a handler does when nothing interrupts it. */
  function Undisturbed(i: nat, fails: bool, job: Job): seq<Event> {
    (if job.status == Pending then [Event(i, Look), Event(i, Start)] else [Event(i, Look)])
    + [Event(i, Process(fails)), Event(i, Reread), Event(i, Finish)]
  }

  function Sum(handlers: seq<Handler>, f: Handler -> nat): nat
    decreases |handlers|
  {
    if handlers == [] then 0 else Sum(handlers[..|handlers| - 1], f) + f(handlers[|handlers| - 1])
  }

  lemma {:induction false} SumUpdate(handlers: seq<Handler>, i: nat, h: Handler, f: Handler -> nat)
    requires i < |handlers|
    ensures Sum(handlers[i := h], f) + f(handlers[i]) == Sum(handlers, f) + f(h)
    decreases |handlers|
  {
    var n := |handlers| - 1;
    if i == n {
      assert handlers[i := h][..n] == handlers[..n];
    } else {
      assert handlers[i := h][..n] == handlers[..n][i := h];
      SumUpdate(handlers[..n], i, h, f);
    }
  }

  function Failures(h: Handler): nat { h.failures }

  function Successes(h: Handler): nat { h.successes }

  predicate HasCounted(h: Handler) {
    h.stage.Counted? || h.stage.Seen? || h.stage.Blind? || h.stage.Ended?
  }

  /** A snapshot taken earlier. */
  predicate Earlier(seen: Job, job: Job) {
    seen.total == job.total && seen.completed <= job.completed && seen.failed <= job.failed && seen.skipped == job.skipped
  }

  ghost predicate HandlerInv(h: Handler, job: Job) {
    && h.failures + h.successes <= h.redelivered + (if HasCounted(h) then 1 else 0)
    && (HasCounted(h) ==> h.failures + h.successes > 0)
    && (h.stage.Seen? ==> Earlier(h.stage.job, job))
    && (h.stage.Ended? && h.stage.verdict.Some? ==>
         Earlier(h.stage.verdict.value, job) && Processed(h.stage.verdict.value) >= job.total && Done(job))
  }

  ghost predicate Inv(s: System) {
    && s.job.total == |s.handlers| && s.job.skipped == 0
    && s.job.failed == Sum(s.handlers, Failures)
    && s.job.completed == Sum(s.handlers, Successes)
    && (forall i :: 0 <= i < |s.handlers| ==> HandlerInv(s.handlers[i], s.job))
    && (Done(s.job) ==> s.job.completed + s.job.failed >= |s.handlers|)
  }

  lemma {:induction false} InitialInv(n: nat)
    ensures Inv(Initial(n))
  {
    SumOfFresh(n, Failures);
    SumOfFresh(n, Successes);
  }

  lemma {:induction false} SumOfFresh(n: nat, f: Handler -> nat)
    requires f(Undelivered) == 0
    ensures Sum(seq(n, _ => Undelivered), f) == 0
  {
    if n > 0 {
      assert seq(n, _ => Undelivered)[..n - 1] == seq(n - 1, _ => Undelivered);
      SumOfFresh(n - 1, f);
    }
  }

  /** A counter follows the handlers. */
  lemma StepKeepsSums(s: System, e: Event, retries: nat)
    requires Inv(s) && Enabled(s, e, retries)
    ensures var n := Next(s, e);
      n.job.failed == Sum(n.handlers, Failures) && n.job.completed == Sum(n.handlers, Successes)
  {
    var h := s.handlers[e.handler];
    var h' := HandlerAfter(s.job, h, e.move);
    SumUpdate(s.handlers, e.handler, h', Failures);
    SumUpdate(s.handlers, e.handler, h', Successes);
  }

  lemma StepKeepsInv(s: System, e: Event, retries: nat)
    requires Inv(s) && Enabled(s, e, retries)
    ensures Inv(Next(s, e))
  {
    var h, n := s.handlers[e.handler], Next(s, e);
    assert HandlerInv(h, s.job);
    StepKeepsSums(s, e, retries);
    forall i | 0 <= i < |s.handlers|
      ensures HandlerInv(n.handlers[i], n.job)
    {
      assert HandlerInv(s.handlers[i], s.job);
    }
  }

  lemma {:induction false} RunKeepsInv(n: nat, run: seq<Event>, retries: nat)
    requires PossibleRun(Initial(n), run, retries)
    ensures Inv(After(Initial(n), run)) && |After(Initial(n), run).handlers| == n
    decreases |run|
  {
    if run == [] {
      InitialInv(n);
    } else {
      RunKeepsInv(n, run[..|run| - 1], retries);
      StepKeepsInv(After(Initial(n), run[..|run| - 1]), run[|run| - 1], retries);
    }
  }

  /** Once finished a job is never pending or running again. */
  lemma {:induction false} NeverReopened(s: System, run: seq<Event>, retries: nat)
    requires Done(s.job) && PossibleRun(s, run, retries)
    ensures Done(After(s, run).job)
    decreases |run|
  {
    if run != [] {
      NeverReopened(s, run[..|run| - 1], retries);
    }
  }

  // ---------------------------------------------------------------- each item delivered once

  predicate CountedOnce(h: Handler) {
    h.failures + h.successes == 1
  }

  lemma {:induction false} SumOfCounts(handlers: seq<Handler>)
    requires forall h <- handlers :: h.failures + h.successes <= 1
    ensures Sum(handlers, Failures) + Sum(handlers, Successes) <= |handlers|
    ensures Sum(handlers, Failures) + Sum(handlers, Successes) == |handlers| ==> forall h <- handlers :: CountedOnce(h)
    decreases |handlers|
  {
    if handlers != [] {
      SumOfCounts(handlers[..|handlers| - 1]);
      assert handlers[|handlers| - 1] in handlers;
    }
  }

  ghost predicate SingleInv(s: System) {
    && Inv(s)
    && (forall h <- s.handlers :: h.redelivered == 0)
    && (Done(s.job) ==> s.job.status == Verdict(s.job))
  }

  lemma CountsAtMostOnce(s: System)
    requires SingleInv(s)
    ensures s.job.completed + s.job.failed <= |s.handlers|
    ensures s.job.completed + s.job.failed == |s.handlers| ==> forall h <- s.handlers :: CountedOnce(h)
  {
    forall h <- s.handlers
      ensures h.failures + h.successes <= 1
    {
      assert HandlerInv(h, s.job);
    }
    SumOfCounts(s.handlers);
  }

  lemma {:induction false} RunKeepsSingle(n: nat, run: seq<Event>)
    requires PossibleRun(Initial(n), run, 0)
    ensures SingleInv(After(Initial(n), run)) && |After(Initial(n), run).handlers| == n
    decreases |run|
  {
    RunKeepsInv(n, run, 0);
    if run != [] {
      var s, e := After(Initial(n), run[..|run| - 1]), run[|run| - 1];
      RunKeepsSingle(n, run[..|run| - 1]);
      CountsAtMostOnce(s);
      assert s.handlers[e.handler] in s.handlers && HandlerInv(s.handlers[e.handler], s.job);
    }
  }

  /** Every snapshot on which some handler finishes, and the job row itself, shows all the counts. */
  lemma OneVerdict(n: nat, run: seq<Event>)
    requires PossibleRun(Initial(n), run, 0)
    ensures var s := After(Initial(n), run);
      && (Done(s.job) ==> forall h <- s.handlers :: CountedOnce(h) && HasCounted(h))
      && (forall h <- s.handlers :: h.stage.Ended? && h.stage.verdict.Some? ==>
           Done(s.job) && s.job.status == Verdict(h.stage.verdict.value))
  {
    var s := After(Initial(n), run);
    RunKeepsSingle(n, run);
    CountsAtMostOnce(s);
    forall h <- s.handlers
      ensures HandlerInv(h, s.job)
    {
    }
  }

  lemma {:induction false} SumIsZero(handlers: seq<Handler>, f: Handler -> nat)
    ensures Sum(handlers, f) == 0 <==> forall h <- handlers :: f(h) == 0
    decreases |handlers|
  {
    if handlers != [] {
      var n := |handlers| - 1;
      SumIsZero(handlers[..n], f);
      assert handlers == handlers[..n] + [handlers[n]];
    }
  }

  /** A finished job failed exactly when every one of its items did. */
  lemma StatusMeansOutcome(n: nat, run: seq<Event>)
    requires PossibleRun(Initial(n), run, 0) && Done(After(Initial(n), run).job) && n > 0
    ensures After(Initial(n), run).job.status == Failed <==> forall h <- After(Initial(n), run).handlers :: h.failures == 1
  {
    var s := After(Initial(n), run);
    RunKeepsSingle(n, run);
    OneVerdict(n, run);
    SumIsZero(s.handlers, Successes);
    if s.job.completed == 0 {
      assert s.job.failed >= n;
      forall h <- s.handlers
        ensures h.failures == 1
      {
        assert Successes(h) == 0 && CountedOnce(h);
      }
    }
    if forall h <- s.handlers :: h.failures == 1 {
      forall h <- s.handlers
        ensures Successes(h) == 0
      {
        assert CountedOnce(h);
      }
    }
  }

  // ---------------------------------------------------------------- somebody finishes

  /** A handler that has finished the job, is going to, or could not look. */
  predicate Closer(h: Handler) {
    || h.stage.Counted?
    || h.stage.Blind?
    || (h.stage.Seen? && Processed(h.stage.job) >= h.stage.job.total)
    || (h.stage.Ended? && h.stage.verdict.Some?)
  }

  ghost predicate SomeCloser(s: System) {
    s.handlers != [] && (forall h <- s.handlers :: HasCounted(h)) ==> exists h <- s.handlers :: Closer(h)
  }

  lemma {:induction false} SumOfCounted(handlers: seq<Handler>)
    requires forall h <- handlers :: h.failures + h.successes >= 1
    ensures Sum(handlers, Failures) + Sum(handlers, Successes) >= |handlers|
    decreases |handlers|
  {
    if handlers != [] {
      SumOfCounted(handlers[..|handlers| - 1]);
      assert handlers[|handlers| - 1] in handlers;
    }
  }

  lemma StepKeepsCloser(s: System, e: Event, retries: nat)
    requires Inv(s) && SomeCloser(s) && Enabled(s, e, retries)
    ensures SomeCloser(Next(s, e))
  {
    var n := Next(s, e);
    assert n.handlers[e.handler] in n.handlers;
    if forall h <- n.handlers :: HasCounted(h) {
      if e.move.Reread? || e.move.RereadFails? || e.move.Finish? {
        forall h <- s.handlers
          ensures HasCounted(h) && h.failures + h.successes >= 1
        {
          var i :| 0 <= i < |s.handlers| && s.handlers[i] == h;
          assert n.handlers[i] in n.handlers && HandlerInv(s.handlers[i], s.job);
        }
        SumOfCounted(s.handlers);
        var h :| h in s.handlers && Closer(h);
        var i :| 0 <= i < |s.handlers| && s.handlers[i] == h;
        assert n.handlers[i] in n.handlers;
      }
    }
  }

  lemma {:induction false} RunKeepsCloser(n: nat, run: seq<Event>, retries: nat)
    requires PossibleRun(Initial(n), run, retries)
    ensures SomeCloser(After(Initial(n), run))
    decreases |run|
  {
    if run == [] {
      if n > 0 {
        assert Initial(n).handlers[0] in Initial(n).handlers;
      }
    } else {
      RunKeepsInv(n, run[..|run| - 1], retries);
      RunKeepsCloser(n, run[..|run| - 1], retries);
      StepKeepsCloser(After(Initial(n), run[..|run| - 1]), run[|run| - 1], retries);
    }
  }

  /** Whoever counts last finishes: when every handler has run to its end the job is finished. */
  lemma CompleteRunFinishes(n: nat, run: seq<Event>, retries: nat)
    requires PossibleRun(Initial(n), run, retries) && n > 0
    requires forall h <- After(Initial(n), run).handlers :: h.stage.Ended?
    ensures Done(After(Initial(n), run).job)
    ensures exists h <- After(Initial(n), run).handlers :: h.stage.Ended? && h.stage.verdict.Some?
  {
    RunKeepsInv(n, run, retries);
    RunKeepsCloser(n, run, retries);
    var s := After(Initial(n), run);
    var h :| h in s.handlers && Closer(h);
    assert HandlerInv(h, s.job);
  }

  // ---------------------------------------------------------------- redelivery

  ghost predicate FinishesEarly(n: nat, run: seq<Event>, retries: nat) {
    && PossibleRun(Initial(n), run, retries)
    && Done(After(Initial(n), run).job)
    && exists h <- After(Initial(n), run).handlers :: h.failures + h.successes == 0
  }

  lemma {:induction false} AfterAppend(s: System, a: seq<Event>, b: seq<Event>, retries: nat)
    ensures After(s, a + b) == After(After(s, a), b)
    ensures PossibleRun(s, a, retries) && PossibleRun(After(s, a), b, retries) ==> PossibleRun(s, a + b, retries)
    decreases |b|
  {
    if b == [] {
      assert a + b == a;
    } else {
      assert (a + b)[..|a + b| - 1] == a + b[..|b| - 1];
      AfterAppend(s, a, b[..|b| - 1], retries);
    }
  }

  lemma AfterStep(s: System, run: seq<Event>, e: Event, retries: nat)
    ensures After(s, run + [e]) == Next(After(s, run), e)
    ensures PossibleRun(s, run, retries) && Enabled(After(s, run), e, retries) ==> PossibleRun(s, run + [e], retries)
  {
    assert (run + [e])[..|run|] == run;
  }

  function CountedJob(job: Job, fails: bool): Job {
    JobAfter(Started(job), Undelivered, Process(fails))
  }

  function FinishedJob(job: Job): Job {
    if Processed(job) >= job.total then job.(status := Verdict(job)) else job
  }

  function EndedHandler(h: Handler, job: Job, fails: bool): Handler {
    HandlerAfter(job, h, Process(fails)).(stage := Ended(if Processed(job) >= job.total then Some(job) else None))
  }

  lemma StartEffect(s: System, i: nat, retries: nat)
    requires i < |s.handlers| && s.handlers[i].stage == Waiting
    ensures var run := if s.job.status == Pending then [Event(i, Look), Event(i, Start)] else [Event(i, Look)];
      PossibleRun(s, run, retries)
      && After(s, run) == System(Started(s.job), s.handlers[i := s.handlers[i].(stage := Working)])
  {
    AfterStep(s, [], Event(i, Look), retries);
    assert [] + [Event(i, Look)] == [Event(i, Look)];
    if s.job.status == Pending {
      AfterStep(s, [Event(i, Look)], Event(i, Start), retries);
      assert [Event(i, Look)] + [Event(i, Start)] == [Event(i, Look), Event(i, Start)];
    }
  }

  lemma WorkEffect(s: System, i: nat, fails: bool, retries: nat)
    requires i < |s.handlers| && s.handlers[i].stage == Working
    ensures var run, counted := [Event(i, Process(fails)), Event(i, Reread), Event(i, Finish)], JobAfter(s.job, Undelivered, Process(fails));
      PossibleRun(s, run, retries)
      && After(s, run) == System(FinishedJob(counted), s.handlers[i := EndedHandler(s.handlers[i], counted, fails)])
  {
    var process, reread, finish := Event(i, Process(fails)), Event(i, Reread), Event(i, Finish);
    AfterStep(s, [], process, retries);
    assert [] + [process] == [process];
    AfterStep(s, [process], reread, retries);
    assert [process] + [reread] == [process, reread];
    AfterStep(s, [process, reread], finish, retries);
    assert [process, reread] + [finish] == [process, reread, finish];
  }

  lemma UndisturbedEffect(s: System, i: nat, fails: bool, retries: nat)
    requires i < |s.handlers| && s.handlers[i].stage == Waiting
    ensures PossibleRun(s, Undisturbed(i, fails, s.job), retries)
    ensures var counted := CountedJob(s.job, fails);
      After(s, Undisturbed(i, fails, s.job))
      == System(FinishedJob(counted), s.handlers[i := EndedHandler(s.handlers[i], counted, fails)])
  {
    var start := if s.job.status == Pending then [Event(i, Look), Event(i, Start)] else [Event(i, Look)];
    var work := [Event(i, Process(fails)), Event(i, Reread), Event(i, Finish)];
    StartEffect(s, i, retries);
    var t := System(Started(s.job), s.handlers[i := s.handlers[i].(stage := Working)]);
    WorkEffect(t, i, fails, retries);
    AfterAppend(s, start, work, retries);
  }

  /** The first `k` items fail, one after the other. */
  lemma {:induction false} FirstFail(n: nat, k: nat, retries: nat) returns (run: seq<Event>)
    requires k < n
    ensures PossibleRun(Initial(n), run, retries)
    ensures var s := After(Initial(n), run);
      && s.job == Job(if k == 0 then Pending else Running, n, 0, k, 0) && |s.handlers| == n
      && (forall i :: k <= i < n ==> s.handlers[i] == Undelivered)
      && forall i :: 0 <= i < k ==> s.handlers[i] == Handler(Ended(None), true, 0, 1, 0)
  {
    run := [];
    if k > 0 {
      var before := FirstFail(n, k - 1, retries);
      var s := After(Initial(n), before);
      UndisturbedEffect(s, k - 1, true, retries);
      AfterAppend(Initial(n), before, Undisturbed(k - 1, true, s.job), retries);
      run := before + Undisturbed(k - 1, true, s.job);
    }
  }

  /** One item that fails and is delivered again can finish the job while another has not been looked at. */
  lemma RedeliveryFinishesEarly(n: nat, retries: nat) returns (run: seq<Event>)
    requires n >= 2 && retries >= 1
    ensures FinishesEarly(n, run, retries)
  {
    var failed := FirstFail(n, n - 1, retries);
    var s := After(Initial(n), failed);
    AfterStep(Initial(n), failed, Event(0, Redeliver), retries);
    var again := failed + [Event(0, Redeliver)];
    var t := After(Initial(n), again);
    UndisturbedEffect(t, 0, true, retries);
    AfterAppend(Initial(n), again, Undisturbed(0, true, t.job), retries);
    run := again + Undisturbed(0, true, t.job);
    assert After(Initial(n), run).handlers[n - 1] in After(Initial(n), run).handlers;
  }

  /** A job is finished only after every item was counted, in every run, exactly when failed items are not
      delivered again or there is at most one item. */
  lemma NeverEarlyExactly(n: nat, retries: nat)
    ensures (forall run :: !FinishesEarly(n, run, retries)) <==> retries == 0 || n <= 1
  {
    if retries >= 1 && n >= 2 {
      var run := RedeliveryFinishesEarly(n, retries);
    } else {
      forall run
        ensures !FinishesEarly(n, run, retries)
      {
        if PossibleRun(Initial(n), run, retries) && Done(After(Initial(n), run).job) {
          NotEarly(n, run, retries);
        }
      }
    }
  }

  lemma NotEarly(n: nat, run: seq<Event>, retries: nat)
    requires PossibleRun(Initial(n), run, retries) && Done(After(Initial(n), run).job) && (retries == 0 || n <= 1)
    ensures forall h <- After(Initial(n), run).handlers :: h.failures + h.successes > 0
  {
    var s := After(Initial(n), run);
    RunKeepsInv(n, run, retries);
    if retries == 0 {
      OneVerdict(n, run);
    } else if n == 1 {
      assert s.handlers == [s.handlers[0]];
      assert s.handlers[..0] == [];
      assert Sum(s.handlers, Failures) == s.handlers[0].failures && Sum(s.handlers, Successes) == s.handlers[0].successes;
    }
  }
}
