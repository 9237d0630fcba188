/** The sliding-window limiters of the login service. `RateLimiter` and `SlidingLimiter` have the same fields
    and the same `Allow`; one class models both. */
module RateLimiter {
  import opened Sequences

  type Time = int

  /** A Go slice that starts at its array's first element. */
  datatype Slice = Slice(buf: array<Time>, len: nat)

  /** The hits that are still inside the window at `now`. */
  function Recent(hits: seq<Time>, now: Time, window: int): seq<Time> {
    Filter(hits, (t: Time) => t > now - window)
  }

  predicate Allows(hits: seq<Time>, now: Time, limit: int, window: int) {
    |Recent(hits, now, window)| < limit
  }

  function AfterCall(hits: seq<Time>, now: Time, limit: int, window: int): seq<Time> {
    Recent(hits, now, window) + if Allows(hits, now, limit, window) then [now] else []
  }

  /** The pruning loop: compacts the slice in place. */
  method Prune(h: Slice, now: Time, window: int) returns (pruned: Slice)
    requires h.len <= h.buf.Length
    modifies h.buf
    ensures pruned.buf == h.buf && pruned.len <= h.len
    ensures h.buf[..pruned.len] == Recent(old(h.buf[..h.len]), now, window)
  {
    ghost var was := h.buf[..h.len];
    var n := 0;
    for i := 0 to h.len
      invariant n <= i
      invariant forall k :: i <= k < h.len ==> h.buf[k] == was[k]
      invariant h.buf[..n] == Recent(was[..i], now, window)
    {
      FilterStep(was, i, (t: Time) => t > now - window);
      var ts := h.buf[i];
      if ts > now - window {
        h.buf[n] := ts;
        n := n + 1;
      }
    }
    assert was[..h.len] == was;
    pruned := Slice(h.buf, n);
  }

  /** Go's `append`: in place while the array has room. */
  method Append(h: Slice, t: Time) returns (grown: Slice)
    requires h.len <= h.buf.Length
    modifies h.buf
    ensures grown.len == h.len + 1 <= grown.buf.Length
    ensures grown.buf == h.buf || fresh(grown.buf)
    ensures grown.buf[..grown.len] == old(h.buf[..h.len]) + [t]
  {
    var buf := h.buf;
    if h.len == h.buf.Length {
      buf := new Time[2 * h.len + 1];
      for i := 0 to h.len
        invariant forall k :: 0 <= k < i ==> buf[k] == h.buf[k]
        modifies buf
      {
        buf[i] := h.buf[i];
      }
    }
    buf[h.len] := t;
    grown := Slice(buf, h.len + 1);
  }

  class Limiter {
    const limit: int
    const window: int
    var hits: map<string, Slice>

    ghost function Buffers(): set<array<Time>>
      reads this
    {
      set k <- hits :: hits[k].buf
    }

    ghost predicate Valid()
      reads this
    {
      && (forall k <- hits :: hits[k].len <= hits[k].buf.Length)
      && (forall k <- hits, m <- hits :: k != m ==> hits[k].buf != hits[m].buf)
    }

    /** The hits stored for a key; Go reads a missing key as an empty slice. */
    ghost function Of(key: string): seq<Time>
      requires Valid()
      reads this, Buffers()
    {
      if key in hits then hits[key].buf[..hits[key].len] else []
    }

    constructor (limit: int, window: int)
      ensures Valid() && this.limit == limit && this.window == window && fresh(Buffers())
      ensures forall key :: Of(key) == []
    {
      this.limit, this.window, hits := limit, window, map[];
    }

    method Allow(key: string, now: Time) returns (ok: bool)
      requires Valid()
      modifies this, Buffers()
      ensures Valid() && fresh(Buffers() - old(Buffers()))
      ensures ok == Allows(old(Of(key)), now, limit, window)
      ensures Of(key) == AfterCall(old(Of(key)), now, limit, window)
      ensures forall k :: k != key ==> Of(k) == old(Of(k))
    {
      var h: Slice;
      if key in hits {
        h := hits[key];
      } else {
        var empty := new Time[0];
        h := Slice(empty, 0);
      }
      var kept := Prune(h, now, window);
      ok := kept.len < limit;
      if ok {
        kept := Append(kept, now);
      }
      hits := hits[key := kept];
    }
  }

  // ---------------------------------------------------------------- whole runs

  datatype Call = Call(key: string, time: Time)

  function Hits(view: map<string, seq<Time>>, key: string): seq<Time> {
    if key in view then view[key] else []
  }

  function After(view: map<string, seq<Time>>, c: Call, limit: int, window: int): map<string, seq<Time>> {
    view[c.key := AfterCall(Hits(view, c.key), c.time, limit, window)]
  }

  /** The stored hits after a run of calls. */
  function Stored(run: seq<Call>, limit: int, window: int): map<string, seq<Time>>
    decreases |run|
  {
    if run == [] then map[]
    else After(Stored(run[..|run| - 1], limit, window), run[|run| - 1], limit, window)
  }

  /** The answer to a call that follows a run. */
  predicate Answer(run: seq<Call>, c: Call, limit: int, window: int) {
    Allows(Hits(Stored(run, limit, window), c.key), c.time, limit, window)
  }

  function Answers(run: seq<Call>, limit: int, window: int): seq<bool>
    decreases |run|
  {
    if run == [] then []
    else
      var before, c := run[..|run| - 1], run[|run| - 1];
      Answers(before, limit, window) + [Answer(before, c, limit, window)]
  }

  /** The times of the calls of `key` that were answered yes. */
  function Allowed(run: seq<Call>, key: string, limit: int, window: int): seq<Time>
    decreases |run|
  {
    if run == [] then []
    else
      var before, c := run[..|run| - 1], run[|run| - 1];
      Allowed(before, key, limit, window) + if c.key == key && Answer(before, c, limit, window) then [c.time] else []
  }

  ghost predicate Shows(limiter: Limiter, view: map<string, seq<Time>>)
    requires limiter.Valid()
    reads limiter, limiter.Buffers()
  {
    forall key :: limiter.Of(key) == Hits(view, key)
  }

  method Perform(limiter: Limiter, c: Call, ghost view: map<string, seq<Time>>) returns (ok: bool)
    requires limiter.Valid() && Shows(limiter, view)
    modifies limiter, limiter.Buffers()
    ensures limiter.Valid() && fresh(limiter.Buffers() - old(limiter.Buffers()))
    ensures ok == Allows(Hits(view, c.key), c.time, limiter.limit, limiter.window)
    ensures Shows(limiter, After(view, c, limiter.limit, limiter.window))
  {
    ok := limiter.Allow(c.key, c.time);
  }

  /** A run against one limiter object. */
  method Replay(run: seq<Call>, limit: int, window: int) returns (answers: seq<bool>)
    ensures answers == Answers(run, limit, window)
  {
    var limiter := new Limiter(limit, window);
    ghost var view := map[];
    answers := [];
    for i := 0 to |run|
      invariant fresh(limiter) && fresh(limiter.Buffers())
      invariant limiter.Valid() && limiter.limit == limit && limiter.window == window
      invariant view == Stored(run[..i], limit, window) && Shows(limiter, view)
      invariant answers == Answers(run[..i], limit, window)
    {
      var ok := Perform(limiter, run[i], view);
      view := After(view, run[i], limit, window);
      answers := answers + [ok];
      RunStep(run, i, limit, window);
    }
    assert run[..|run|] == run;
  }

  /** The clock does not run backwards in lock order. */
  ghost predicate InClockOrder(run: seq<Call>) {
    forall i, j :: 0 <= i < j < |run| ==> run[i].time <= run[j].time
  }

  function InWindow(times: seq<Time>, after: Time, upTo: Time): nat {
    Count(times, (t: Time) => after < t <= upTo)
  }

  lemma {:induction false} FilterTwice(s: seq<Time>, p: Time -> bool, q: Time -> bool)
    requires forall x :: q(x) ==> p(x)
    ensures Filter(Filter(s, p), q) == Filter(s, q)
  {
    if s != [] {
      var n := |s| - 1;
      FilterTwice(s[..n], p, q);
      FilterAppend(Filter(s[..n], p), if p(s[n]) then [s[n]] else [], q);
    }
  }

  /** Pruning now and again later is pruning later. */
  lemma RecentAfterCall(hits: seq<Time>, time: Time, now: Time, limit: int, window: int)
    requires time <= now
    ensures Recent(AfterCall(hits, time, limit, window), now, window)
         == Recent(hits, now, window) + Recent(if Allows(hits, time, limit, window) then [time] else [], now, window)
  {
    FilterTwice(hits, (t: Time) => t > time - window, (t: Time) => t > now - window);
    FilterAppend(Recent(hits, time, window), if Allows(hits, time, limit, window) then [time] else [], (t: Time) => t > now - window);
  }

  lemma RecentAppend(s: seq<Time>, t: seq<Time>, now: Time, window: int)
    ensures Recent(s + t, now, window) == Recent(s, now, window) + Recent(t, now, window)
  {
    FilterAppend(s, t, (t: Time) => t > now - window);
  }

  /** Pruning loses nothing that a later call would count. */
  lemma {:induction false} StoredIsHistory(run: seq<Call>, key: string, now: Time, limit: int, window: int)
    requires InClockOrder(run) && forall c <- run :: c.time <= now
    ensures Recent(Hits(Stored(run, limit, window), key), now, window) == Recent(Allowed(run, key, limit, window), now, window)
    decreases |run|
  {
    if run != [] {
      var before, c := run[..|run| - 1], run[|run| - 1];
      assert c in run;
      StoredIsHistory(before, key, now, limit, window);
      StoredStep(before, c, key, now, limit, window);
    }
  }

  lemma StoredStep(before: seq<Call>, c: Call, key: string, now: Time, limit: int, window: int)
    requires c.time <= now
    requires Recent(Hits(Stored(before, limit, window), key), now, window) == Recent(Allowed(before, key, limit, window), now, window)
    ensures Recent(Hits(After(Stored(before, limit, window), c, limit, window), key), now, window)
         == Recent(Allowed(before, key, limit, window) + if c.key == key && Answer(before, c, limit, window) then [c.time] else [], now, window)
  {
    if c.key == key {
      RecentAfterCall(Hits(Stored(before, limit, window), key), c.time, now, limit, window);
      RecentAppend(Allowed(before, key, limit, window), if Answer(before, c, limit, window) then [c.time] else [], now, window);
    } else {
      assert Allowed(before, key, limit, window) + [] == Allowed(before, key, limit, window);
    }
  }

  lemma {:induction false} AllowedTimes(run: seq<Call>, key: string, t: Time, limit: int, window: int)
    requires t in Allowed(run, key, limit, window)
    ensures exists c <- run :: c.time == t
    decreases |run|
  {
    if run != [] {
      var before, c := run[..|run| - 1], run[|run| - 1];
      assert c in run;
      if t in Allowed(before, key, limit, window) {
        AllowedTimes(before, key, t, limit, window);
      }
    }
  }

  lemma EarlierCalls(run: seq<Call>, c: Call)
    requires InClockOrder(run + [c])
    ensures InClockOrder(run) && forall d <- run :: d.time <= c.time
  {
    forall i, j | 0 <= i < j < |run|
      ensures run[i].time <= run[j].time
    {
      assert (run + [c])[i] == run[i] && (run + [c])[j] == run[j];
    }
    forall d <- run
      ensures d.time <= c.time
    {
      var i :| 0 <= i < |run| && run[i] == d;
      assert (run + [c])[i] == d && (run + [c])[|run|] == c;
    }
  }

  /** Despite the pruning a call is allowed exactly when fewer than `limit` earlier calls of its key were
      allowed within the window that ends now. */
  lemma AllowExactly(run: seq<Call>, c: Call, limit: int, window: int)
    requires InClockOrder(run + [c])
    ensures Answer(run, c, limit, window) <==>
            InWindow(Allowed(run, c.key, limit, window), c.time - window, c.time) < limit
  {
    EarlierCalls(run, c);
    StoredIsHistory(run, c.key, c.time, limit, window);
    NothingLater(run, c.key, c.time, limit, window);
  }

  lemma NothingLater(run: seq<Call>, key: string, now: Time, limit: int, window: int)
    requires forall d <- run :: d.time <= now
    ensures Recent(Allowed(run, key, limit, window), now, window)
         == Filter(Allowed(run, key, limit, window), (t: Time) => now - window < t <= now)
  {
    var history := Allowed(run, key, limit, window);
    forall t <- history
      ensures t <= now
    {
      AllowedTimes(run, key, t, limit, window);
    }
    FilterSame(history, (t: Time) => t > now - window, (t: Time) => now - window < t <= now);
  }

  /** In every run every interval of the window's length holds at most `limit` allowed calls of a key. */
  lemma {:induction false} NeverOverLimit(run: seq<Call>, key: string, start: Time, limit: int, window: int)
    requires InClockOrder(run)
    ensures InWindow(Allowed(run, key, limit, window), start, start + window) <= Max(0, limit)
    decreases |run|
  {
    if run != [] {
      var before, c := run[..|run| - 1], run[|run| - 1];
      assert run == before + [c];
      EarlierCalls(before, c);
      NeverOverLimit(before, key, start, limit, window);
      OneMoreCall(before, c, key, start, limit, window);
    }
  }

  lemma OneMoreCall(before: seq<Call>, c: Call, key: string, start: Time, limit: int, window: int)
    requires InClockOrder(before + [c])
    requires InWindow(Allowed(before, key, limit, window), start, start + window) <= Max(0, limit)
    ensures InWindow(Allowed(before + [c], key, limit, window), start, start + window) <= Max(0, limit)
  {
    AllowedStep(before, c, key, limit, window);
    if c.key == key && Answer(before, c, limit, window) {
      EarlierCalls(before, c);
      AllowExactly(before, c, limit, window);
      WindowStep(before, key, start, c.time, limit, window);
    }
  }

  lemma AllowedStep(before: seq<Call>, c: Call, key: string, limit: int, window: int)
    ensures Allowed(before + [c], key, limit, window)
         == if c.key == key && Answer(before, c, limit, window) then Allowed(before, key, limit, window) + [c.time]
            else Allowed(before, key, limit, window)
  {
    assert (before + [c])[..|before|] == before;
  }

  lemma WindowStep(before: seq<Call>, key: string, start: Time, now: Time, limit: int, window: int)
    requires InWindow(Allowed(before, key, limit, window), now - window, now) < limit
    requires InWindow(Allowed(before, key, limit, window), start, start + window) <= Max(0, limit)
    requires forall d <- before :: d.time <= now
    ensures InWindow(Allowed(before, key, limit, window) + [now], start, start + window) <= Max(0, limit)
  {
    var history := Allowed(before, key, limit, window);
    var inside := (t: Time) => start < t <= start + window;
    FilterAppend(history, [now], inside);
    assert Filter([now], inside) == if inside(now) then [now] else [];
    if inside(now) {
      forall k | 0 <= k < |history|
        ensures history[k] <= now
      {
        AllowedTimes(before, key, history[k], limit, window);
      }
      CountAtMost(history, history, inside, (t: Time) => now - window < t <= now);
    }
  }

  function OfKey(run: seq<Call>, key: string): seq<Call> {
    Filter(run, (c: Call) => c.key == key)
  }

  /** Calls of other keys change nothing: a key sees the run in which only its own calls occur. */
  lemma {:induction false} KeysAreIndependent(run: seq<Call>, key: string, limit: int, window: int)
    ensures Hits(Stored(run, limit, window), key) == Hits(Stored(OfKey(run, key), limit, window), key)
    decreases |run|
  {
    if run != [] {
      var before, c := run[..|run| - 1], run[|run| - 1];
      KeysAreIndependent(before, key, limit, window);
      if c.key == key {
        var own := OfKey(run, key);
        assert own == OfKey(before, key) + [c];
        assert own[..|own| - 1] == OfKey(before, key);
      } else {
        assert OfKey(run, key) == OfKey(before, key);
      }
    }
  }

  lemma RunStep(run: seq<Call>, i: nat, limit: int, window: int)
    requires i < |run|
    ensures Stored(run[..i + 1], limit, window) == After(Stored(run[..i], limit, window), run[i], limit, window)
    ensures Answers(run[..i + 1], limit, window) == Answers(run[..i], limit, window) + [Answer(run[..i], run[i], limit, window)]
  {
    assert run[..i + 1][..i] == run[..i];
  }
}
