/** The lockout of an email after failed logins, and the part of `Login` that it guards. */
module Lockout {
  import opened Sequences

  type Time = int

  /** `blockedUntil` and `lastAttempt` are None where Go has the zero time. */
  datatype Failures = Failures(count: int, blockedUntil: Option<Time>, lastAttempt: Option<Time>)

  const Unknown := Failures(0, None, None)

  datatype Policy = Policy(maxFailures: int, lockoutFor: int)

  /** Go reads a missing key as the zero value. */
  function Info(failures: map<string, Failures>, key: string): Failures {
    if key in failures then failures[key] else Unknown
  }

  predicate Blocked(info: Failures, now: Time) {
    info.blockedUntil.Some? && info.blockedUntil.value > now
  }

  function AfterFailure(info: Failures, now: Time, policy: Policy): Failures {
    var stale := info.lastAttempt.None? || now - info.lastAttempt.value > policy.lockoutFor;
    var count := if stale then 1 else info.count + 1;
    if count >= policy.maxFailures then Failures(0, Some(now + policy.lockoutFor), Some(now))
    else Failures(count, info.blockedUntil, Some(now))
  }

  class LockoutTracker {
    const policy: Policy
    var failures: map<string, Failures>

    constructor (policy: Policy)
      ensures this.policy == policy && failures == map[]
    {
      this.policy, failures := policy, map[];
    }

    method IsBlocked(key: string, now: Time) returns (until: Option<Time>)
      ensures until.Some? <==> Blocked(Info(failures, key), now)
      ensures until.Some? ==> until == Info(failures, key).blockedUntil && until.value > now
    {
      var info := Unknown;
      if key in failures {
        info := failures[key];
      }
      if info.blockedUntil.Some? && info.blockedUntil.value > now {
        return info.blockedUntil;
      }
      return None;
    }

    method RegisterFailure(key: string, now: Time)
      modifies this
      ensures failures == old(failures)[key := AfterFailure(Info(old(failures), key), now, policy)]
    {
      var info := Unknown;
      if key in failures {
        info := failures[key];
      }
      if info.lastAttempt.None? || now - info.lastAttempt.value > policy.lockoutFor {
        info := info.(count := 0);
      }
      info := info.(lastAttempt := Some(now), count := info.count + 1);
      if info.count >= policy.maxFailures {
        info := info.(blockedUntil := Some(now + policy.lockoutFor), count := 0);
      }
      failures := failures[key := info];
    }

    method Reset(key: string)
      modifies this
      ensures failures == old(failures) - {key}
    {
      failures := failures - {key};
    }
  }

  // ---------------------------------------------------------------- logins

  datatype Outcome = WrongPassword | Unverified | Accepted

  /** A login that got past the rate limiters: the clock at the lockout check and after the password check,
      and what the password check would say. */
  datatype Login = Login(email: string, checked: Time, done: Time, outcome: Outcome)

  datatype Answer = LockedOut(until: Time) | InvalidCredentials | EmailNotVerified | SessionIssued

  predicate Passes(failures: map<string, Failures>, login: Login) {
    !Blocked(Info(failures, login.email), login.checked)
  }

  function AfterLogin(failures: map<string, Failures>, login: Login, policy: Policy): map<string, Failures> {
    if !Passes(failures, login) then failures
    else match login.outcome
      case WrongPassword => failures[login.email := AfterFailure(Info(failures, login.email), login.done, policy)]
      case Unverified => failures
      case Accepted => failures - {login.email}
  }

  method PerformLogin(tracker: LockoutTracker, login: Login) returns (answer: Answer)
    modifies tracker
    ensures tracker.failures == AfterLogin(old(tracker.failures), login, tracker.policy)
    ensures answer.LockedOut? <==> !Passes(old(tracker.failures), login)
    ensures answer.LockedOut? ==> answer.until > login.checked
    ensures answer.SessionIssued? <==> Passes(old(tracker.failures), login) && login.outcome == Accepted
    ensures answer.InvalidCredentials? <==> Passes(old(tracker.failures), login) && login.outcome == WrongPassword
  {
    var until := tracker.IsBlocked(login.email, login.checked);
    if until.Some? {
      return LockedOut(until.value);
    }
    match login.outcome {
      case WrongPassword =>
        tracker.RegisterFailure(login.email, login.done);
        answer := InvalidCredentials;
      case Unverified =>
        answer := EmailNotVerified;
      case Accepted =>
        tracker.Reset(login.email);
        answer := SessionIssued;
    }
  }

  // ---------------------------------------------------------------- whole runs

  /** Logins one after the other. */
  ghost predicate Sequential(run: seq<Login>) {
    && (forall l <- run :: l.checked <= l.done)
    && forall i, j :: 0 <= i < j < |run| ==> run[i].done <= run[j].checked
  }

  function State(run: seq<Login>, policy: Policy): map<string, Failures>
    decreases |run|
  {
    if run == [] then map[]
    else AfterLogin(State(run[..|run| - 1], policy), run[|run| - 1], policy)
  }

  /** The logins of one email that failed or succeeded, in order. */
  function Log(run: seq<Login>, email: string, policy: Policy): seq<Login>
    decreases |run|
  {
    if run == [] then []
    else
      var before, l := run[..|run| - 1], run[|run| - 1];
      Log(before, email, policy)
      + if l.email == email && l.outcome != Unverified && Passes(State(before, policy), l) then [l] else []
  }

  function AfterEntry(info: Failures, l: Login, policy: Policy): Failures {
    if l.outcome == WrongPassword then AfterFailure(info, l.done, policy) else Unknown
  }

  function Replay(log: seq<Login>, policy: Policy): Failures
    decreases |log|
  {
    if log == [] then Unknown else AfterEntry(Replay(log[..|log| - 1], policy), log[|log| - 1], policy)
  }

  /** What is stored for an email depends on its own log alone. */
  lemma {:induction false} StateIsReplay(run: seq<Login>, email: string, policy: Policy)
    ensures Info(State(run, policy), email) == Replay(Log(run, email, policy), policy)
    decreases |run|
  {
    if run != [] {
      var before, l := run[..|run| - 1], run[|run| - 1];
      StateIsReplay(before, email, policy);
      EntryStep(State(before, policy), Log(before, email, policy), l, email, policy);
    }
  }

  lemma EntryStep(state: map<string, Failures>, log: seq<Login>, l: Login, email: string, policy: Policy)
    requires Info(state, email) == Replay(log, policy)
    ensures Info(AfterLogin(state, l, policy), email)
         == Replay(log + if l.email == email && l.outcome != Unverified && Passes(state, l) then [l] else [], policy)
  {
    assert log + [] == log;
  }

  /** Every entry of a log found its email not blocked. */
  ghost predicate Gated(log: seq<Login>, policy: Policy)
    decreases |log|
  {
    log == [] ||
    var before, l := log[..|log| - 1], log[|log| - 1];
    && Gated(before, policy)
    && !Blocked(Replay(before, policy), l.checked)
    && l.checked <= l.done
    && forall e <- before :: e.done <= l.checked
  }

  lemma {:induction false} LogIsOfRun(run: seq<Login>, email: string, policy: Policy)
    ensures forall l <- Log(run, email, policy) :: l in run && l.outcome != Unverified
    decreases |run|
  {
    if run != [] {
      LogIsOfRun(run[..|run| - 1], email, policy);
      assert run == run[..|run| - 1] + [run[|run| - 1]];
    }
  }

  lemma {:induction false} LogIsGated(run: seq<Login>, email: string, policy: Policy)
    requires Sequential(run)
    ensures Gated(Log(run, email, policy), policy)
    decreases |run|
  {
    if run != [] {
      var before, l := run[..|run| - 1], run[|run| - 1];
      LogIsGated(before, email, policy);
      StateIsReplay(before, email, policy);
      LogIsOfRun(before, email, policy);
      EarlierDone(run);
      LogStep(run, email, policy);
    }
  }

  lemma EarlierDone(run: seq<Login>)
    requires Sequential(run) && run != []
    ensures var before, l := run[..|run| - 1], run[|run| - 1];
      l.checked <= l.done && forall e <- before :: e.done <= l.checked
  {
    var before := run[..|run| - 1];
    assert run[|run| - 1] in run;
    forall e <- before
      ensures e.done <= run[|run| - 1].checked
    {
      var i :| 0 <= i < |before| && before[i] == e;
      assert run[i] == e;
    }
  }

  lemma LogStep(run: seq<Login>, email: string, policy: Policy)
    requires run != []
    ensures var before, l := run[..|run| - 1], run[|run| - 1];
      var log := Log(before, email, policy);
      Log(run, email, policy) == log || (Log(run, email, policy) == log + [l] && l.email == email && Passes(State(before, policy), l))
  {
  }

  predicate Failed(l: Login) {
    l.outcome == WrongPassword
  }

  predicate Within(t: Time, start: Time, end: Time) {
    start <= t < end
  }

  function FailuresIn(log: seq<Login>, start: Time, end: Time): nat {
    Count(log, (l: Login) => Failed(l) && Within(l.done, start, end))
  }

  ghost predicate NoSuccessIn(log: seq<Login>, start: Time, end: Time) {
    forall l <- log :: Within(l.done, start, end) ==> Failed(l)
  }

  /** The stored count never reaches the limit. */
  lemma {:induction false} CountStaysBelow(log: seq<Login>, policy: Policy)
    ensures 0 <= Replay(log, policy).count < Max(1, policy.maxFailures)
    decreases |log|
  {
    if log != [] {
      CountStaysBelow(log[..|log| - 1], policy);
    }
  }

  /** How `n` failures inside a window show in the stored record. */
  ghost predicate Shows(info: Failures, n: nat, start: Time, policy: Policy) {
    n > 0 ==>
      && info.lastAttempt.Some? && info.lastAttempt.value >= start
      && (info.count >= n || (info.blockedUntil.Some? && info.blockedUntil.value >= start + policy.lockoutFor))
  }

  ghost predicate WindowFine(log: seq<Login>, info: Failures, n: nat, start: Time, policy: Policy) {
    && n <= Max(1, policy.maxFailures)
    && ((forall l <- log :: l.done < start + policy.lockoutFor) ==> Shows(info, n, start, policy))
  }

  lemma {:induction false} WindowOfLog(log: seq<Login>, start: Time, policy: Policy)
    requires Gated(log, policy) && NoSuccessIn(log, start, start + policy.lockoutFor)
    ensures WindowFine(log, Replay(log, policy), FailuresIn(log, start, start + policy.lockoutFor), start, policy)
    decreases |log|
  {
    if log != [] {
      var before, l := log[..|log| - 1], log[|log| - 1];
      LastOfLog(log, start, policy);
      WindowOfLog(before, start, policy);
      CountStaysBelow(before, policy);
      if l.done < start {
        NoneYet(before, start, start + policy.lockoutFor);
      }
      FailuresNext(before, l, start, start + policy.lockoutFor);
      OneMoreLogin(before, Replay(before, policy), FailuresIn(before, start, start + policy.lockoutFor), l, start, policy);
    }
  }

  lemma LastOfLog(log: seq<Login>, start: Time, policy: Policy)
    requires log != [] && Gated(log, policy) && NoSuccessIn(log, start, start + policy.lockoutFor)
    ensures var before, l := log[..|log| - 1], log[|log| - 1];
      && log == before + [l] && Gated(before, policy) && NoSuccessIn(before, start, start + policy.lockoutFor)
      && !Blocked(Replay(before, policy), l.checked) && l.checked <= l.done && (forall e <- before :: e.done <= l.checked)
      && (Within(l.done, start, start + policy.lockoutFor) ==> Failed(l))
      && Replay(log, policy) == AfterEntry(Replay(before, policy), l, policy)
  {
  }

  lemma FailuresNext(log: seq<Login>, l: Login, start: Time, end: Time)
    ensures FailuresIn(log + [l], start, end) == FailuresIn(log, start, end) + if Failed(l) && Within(l.done, start, end) then 1 else 0
  {
    FilterAppend(log, [l], (l: Login) => Failed(l) && Within(l.done, start, end));
  }

  /** One more login that was not blocked, when `n` failures lie in the window before it. */
  lemma OneMoreLogin(before: seq<Login>, info: Failures, n: nat, l: Login, start: Time, policy: Policy)
    requires WindowFine(before, info, n, start, policy) && 0 <= info.count < Max(1, policy.maxFailures)
    requires !Blocked(info, l.checked) && l.checked <= l.done && forall e <- before :: e.done <= l.checked
    requires Within(l.done, start, start + policy.lockoutFor) ==> Failed(l)
    requires l.done < start ==> n == 0
    ensures WindowFine(before + [l], AfterEntry(info, l, policy),
                       n + if Failed(l) && Within(l.done, start, start + policy.lockoutFor) then 1 else 0, start, policy)
  {
    assert l in before + [l];
  }

  lemma NoneYet(log: seq<Login>, start: Time, end: Time)
    requires forall i :: 0 <= i < |log| ==> log[i].done < start
    ensures FailuresIn(log, start, end) == 0
  {
    var p := (l: Login) => Failed(l) && Within(l.done, start, end);
    if Filter(log, p) != [] {
      InFilter(log, p, Filter(log, p)[0]);
    }
  }

  /** Every half-open window of the lockout's length without a success holds at most `maxFailures` failed
      password checks of one email. */
  lemma AtMostMaxFailures(run: seq<Login>, email: string, start: Time, policy: Policy)
    requires Sequential(run)
    requires NoSuccessIn(Log(run, email, policy), start, start + policy.lockoutFor)
    ensures FailuresIn(Log(run, email, policy), start, start + policy.lockoutFor) <= Max(1, policy.maxFailures)
  {
    LogIsGated(run, email, policy);
    WindowOfLog(Log(run, email, policy), start, policy);
  }

  /** In every run the stored count of every email is below the limit. */
  lemma StoredCountBelowLimit(run: seq<Login>, email: string, policy: Policy)
    ensures 0 <= Info(State(run, policy), email).count < Max(1, policy.maxFailures)
  {
    StateIsReplay(run, email, policy);
    CountStaysBelow(Log(run, email, policy), policy);
  }

  /** The entry at `k` put the email under a block. */
  ghost predicate BlocksAt(log: seq<Login>, k: nat, policy: Policy)
    requires k < |log|
  {
    Failed(log[k]) && Replay(log[..k + 1], policy) == Failures(0, Some(log[k].done + policy.lockoutFor), Some(log[k].done))
  }

  /** The entries from `first` on are failures no more than the lockout's length apart. */
  ghost predicate Streak(log: seq<Login>, first: nat, policy: Policy) {
    && (forall k :: first <= k < |log| ==> Failed(log[k]))
    && forall k :: first < k < |log| ==> log[k].done - log[k - 1].done <= policy.lockoutFor
  }

  /** `maxFailures` failures in a streak end in a block: one of them blocks the email. */
  lemma StreakBlocks(log: seq<Login>, policy: Policy)
    requires 1 <= policy.maxFailures <= |log|
    requires Streak(log, |log| - policy.maxFailures, policy)
    ensures exists k :: |log| - policy.maxFailures <= k < |log| && BlocksAt(log, k, policy)
  {
    StreakCounts(log, |log| - policy.maxFailures, |log|, policy);
    CountStaysBelow(log, policy);
    assert log[..|log|] == log;
  }

  lemma {:induction false} StreakCounts(log: seq<Login>, first: nat, n: nat, policy: Policy)
    requires first <= n <= |log| && Streak(log, first, policy)
    ensures (exists k :: first <= k < n && BlocksAt(log, k, policy)) || Replay(log[..n], policy).count >= n - first
    decreases n
  {
    CountStaysBelow(log[..n], policy);
    if first < n {
      StreakCounts(log, first, n - 1, policy);
      assert log[..n][..n - 1] == log[..n - 1];
      CountStaysBelow(log[..n - 1], policy);
      if first < n - 1 {
        LastAttempt(log, n - 1, policy);
      }
      if Replay(log[..n], policy).count == 0 {
        assert BlocksAt(log, n - 1, policy);
      }
    }
  }

  lemma LastAttempt(log: seq<Login>, n: nat, policy: Policy)
    requires 0 < n <= |log| && Failed(log[n - 1])
    ensures Replay(log[..n], policy).lastAttempt == Some(log[n - 1].done)
  {
  }

  /** A block holds: whatever happens meanwhile, no login checked before its end gets past it. */
  lemma {:induction false} BlockHolds(run: seq<Login>, more: seq<Login>, email: string, until: Time, policy: Policy)
    requires Info(State(run, policy), email).blockedUntil == Some(until)
    requires forall l <- more :: l.checked < until
    ensures Log(run + more, email, policy) == Log(run, email, policy)
    ensures Info(State(run + more, policy), email) == Info(State(run, policy), email)
    decreases |more|
  {
    if more == [] {
      assert run + more == run;
    } else {
      var before, l := more[..|more| - 1], more[|more| - 1];
      assert (run + more)[..|run + more| - 1] == run + before;
      assert l in more;
      BlockHolds(run, before, email, until, policy);
    }
  }

  function Guesses(n: nat, at: Time, email: string): seq<Login> {
    seq(n, _ => Login(email, at, at, WrongPassword))
  }

  /** The record after `n` failures at one time. */
  function GuessesRecord(n: nat, at: Time, policy: Policy): Failures
  {
    if n == 0 then Unknown
    else if n < policy.maxFailures then Failures(n, None, Some(at))
    else Failures(0, Some(at + policy.lockoutFor), Some(at))
  }

  lemma {:induction false} GuessesReplay(n: nat, at: Time, email: string, policy: Policy)
    requires policy.lockoutFor >= 0 && n <= policy.maxFailures
    ensures Replay(Guesses(n, at, email), policy) == GuessesRecord(n, at, policy)
  {
    if n > 0 {
      GuessesReplay(n - 1, at, email, policy);
      assert Guesses(n, at, email) == Guesses(n - 1, at, email) + [Login(email, at, at, WrongPassword)];
      RecordStep(n, at, Login(email, at, at, WrongPassword), policy);
    }
  }

  lemma RecordStep(n: nat, at: Time, l: Login, policy: Policy)
    requires 0 < n <= policy.maxFailures && policy.lockoutFor >= 0 && l.done == at && l.outcome == WrongPassword
    ensures AfterEntry(GuessesRecord(n - 1, at, policy), l, policy) == GuessesRecord(n, at, policy)
  {
  }

  /** None of the first `maxFailures` guesses is refused. */
  lemma {:induction false} GuessesLog(n: nat, at: Time, email: string, policy: Policy)
    requires policy.lockoutFor >= 0 && n <= policy.maxFailures
    ensures Log(Guesses(n, at, email), email, policy) == Guesses(n, at, email)
    ensures Info(State(Guesses(n, at, email), policy), email) == GuessesRecord(n, at, policy)
  {
    StateIsReplay(Guesses(n, at, email), email, policy);
    GuessesReplay(n, at, email, policy);
    if n > 0 {
      GuessesLog(n - 1, at, email, policy);
      assert Guesses(n, at, email) == Guesses(n - 1, at, email) + [Login(email, at, at, WrongPassword)];
      OneMoreGuess(Guesses(n - 1, at, email), Login(email, at, at, WrongPassword), email, policy);
    }
  }

  lemma OneMoreGuess(before: seq<Login>, l: Login, email: string, policy: Policy)
    requires Log(before, email, policy) == before && l.email == email && l.outcome == WrongPassword
    requires !Blocked(Info(State(before, policy), email), l.checked)
    ensures Log(before + [l], email, policy) == before + [l]
  {
    assert (before + [l])[..|before|] == before;
  }

  lemma GuessesSequential(n: nat, later: Time, email: string)
    requires 0 <= later
    ensures var run := Guesses(n, 0, email) + [Login(email, later, later, WrongPassword)];
      |run| == n + 1 && Sequential(run) && forall l <- run :: Failed(l) && 0 <= l.done <= later
  {
  }

  /** The bound is met, and it is exact in the window's end: under every policy the closed window can hold one
      failure more. */
  lemma ClosedWindowHoldsOneMore(email: string, policy: Policy)
    requires policy.maxFailures >= 1 && policy.lockoutFor >= 0
    ensures var run := Guesses(policy.maxFailures, 0, email) + Guesses(1, policy.lockoutFor, email);
      Sequential(run) && Log(run, email, policy) == run && |run| == policy.maxFailures + 1
      && forall l <- run :: Failed(l) && 0 <= l.done <= policy.lockoutFor
  {
    var l := Login(email, policy.lockoutFor, policy.lockoutFor, WrongPassword);
    assert Guesses(1, policy.lockoutFor, email) == [l];
    GuessesLog(policy.maxFailures, 0, email, policy);
    assert !Blocked(Info(State(Guesses(policy.maxFailures, 0, email), policy), email), l.checked);
    OneMoreGuess(Guesses(policy.maxFailures, 0, email), l, email, policy);
    GuessesSequential(policy.maxFailures, policy.lockoutFor, email);
  }
}
