/**
 The sliding admission window that the login store, the GC pause log and the stall log each
 keep: drop what is older than the window, refuse when the rest is full, else record `now`.
 (backend/app/db/auth.py:80-90, backend/app/runtime/gc_pause.py:73-79,
 backend/app/runtime/loop_stall_watchdog.py:176-181)
 */
module RateWindow {

  ghost predicate Ascending(ts: seq<real>) {
    forall i, j :: 0 <= i < j < |ts| ==> ts[i] <= ts[j]
  }

  /** Pop the expired front of a queue. */
  function Expire(q: seq<real>, cutoff: real): seq<real> {
    if q != [] && q[0] <= cutoff then Expire(q[1..], cutoff) else q
  }

  /** Delete every expired entry, wherever it is. */
  function Younger(q: seq<real>, cutoff: real): seq<real> {
    if q == [] then []
    else (if q[0] <= cutoff then [] else [q[0]]) + Younger(q[1..], cutoff)
  }

  lemma {:induction false} YoungerKeepsAll(q: seq<real>, cutoff: real)
    requires forall i :: 0 <= i < |q| ==> q[i] > cutoff
    ensures Younger(q, cutoff) == q
  {
    if q != [] {
      YoungerKeepsAll(q[1..], cutoff);
    }
  }

  /** On a queue in time order, popping the front is deleting by age. */
  lemma {:induction false} ExpireIsYounger(q: seq<real>, cutoff: real)
    requires Ascending(q)
    ensures Expire(q, cutoff) == Younger(q, cutoff)
  {
    if q != [] {
      if q[0] <= cutoff {
        ExpireIsYounger(q[1..], cutoff);
      } else {
        YoungerKeepsAll(q, cutoff);
      }
    }
  }

  /** What popping keeps: a suffix, all of it young when the queue is in time order. */
  lemma {:induction false} ExpireIsSuffix(q: seq<real>, cutoff: real)
    ensures var e := Expire(q, cutoff);
            && |e| <= |q| && e == q[|q| - |e|..]
            && (forall i :: 0 <= i < |q| - |e| ==> q[i] <= cutoff)
            && (e != [] ==> e[0] > cutoff)
  {
    if q != [] && q[0] <= cutoff {
      ExpireIsSuffix(q[1..], cutoff);
      var e := Expire(q[1..], cutoff);
      assert q[1..][|q[1..]| - |e|..] == q[|q| - |e|..];
      forall i | 0 <= i < |q| - |e| ensures q[i] <= cutoff {
        if i > 0 { assert q[i] == q[1..][i - 1]; }
      }
    }
  }

  function Live(q: seq<real>, now: real, window: real): seq<real> {
    Expire(q, now - window)
  }

  predicate Admits(q: seq<real>, now: real, window: real, limit: nat) {
    |Live(q, now, window)| < limit
  }

  /** The queue after an attempt at `now`: a refused attempt leaves no trace. */
  function Next(q: seq<real>, now: real, window: real, limit: nat): seq<real> {
    Live(q, now, window) + (if Admits(q, now, window, limit) then [now] else [])
  }

  // ---------- whole runs ----------

  /** The queue, and the times of every admission so far. */
  datatype Run = Run(queue: seq<real>, admitted: seq<real>)

  function Attempt(r: Run, now: real, window: real, limit: nat): Run {
    Run(Next(r.queue, now, window, limit), r.admitted + (if Admits(r.queue, now, window, limit) then [now] else []))
  }

  /** The run after attempts at the given times. */
  function Attempts(times: seq<real>, window: real, limit: nat): Run {
    if times == [] then Run([], [])
    else Attempt(Attempts(times[..|times| - 1], window, limit), times[|times| - 1], window, limit)
  }

  /** Any `limit + 1` consecutive admissions span at least a window. */
  ghost predicate Spaced(ts: seq<real>, window: real, limit: nat) {
    forall i, j :: 0 <= i && j == i + limit && j < |ts| ==> ts[i] + window <= ts[j]
  }

  ghost predicate EndsWith(ts: seq<real>, q: seq<real>) {
    |q| <= |ts| && forall i :: |ts| - |q| <= i < |ts| ==> ts[i] == q[i - (|ts| - |q|)]
  }

  /** The queue is the recent end of the admissions; everything before it is out of the window. */
  ghost predicate Tracks(r: Run, now: real, window: real, limit: nat) {
    && |r.queue| <= limit
    && EndsWith(r.admitted, r.queue)
    && (forall i :: 0 <= i < |r.admitted| - |r.queue| ==> r.admitted[i] <= now - window)
    && (forall i :: 0 <= i < |r.admitted| ==> r.admitted[i] <= now)
    && Ascending(r.admitted)
    && Spaced(r.admitted, window, limit)
  }

  lemma LiveTracks(r: Run, now: real, window: real, limit: nat)
    requires Tracks(r, now, window, limit)
    ensures var live := Live(r.queue, now, window);
            && Tracks(Run(live, r.admitted), now, window, limit)
            && (live != [] ==> r.admitted[|r.admitted| - |live|] > now - window)
  {
    var q, admitted := r.queue, r.admitted;
    var live, n := Live(q, now, window), |admitted|;
    ExpireIsSuffix(q, now - window);
    forall i | 0 <= i < n - |live| ensures admitted[i] <= now - window {
      if i >= n - |q| { assert admitted[i] == q[i - (n - |q|)]; }
    }
    forall i | n - |live| <= i < n ensures admitted[i] == live[i - (n - |live|)] {
      assert admitted[i] == q[i - (n - |q|)];
    }
  }

  lemma SpacedAppend(ts: seq<real>, now: real, window: real, limit: nat)
    requires Ascending(ts) && Spaced(ts, window, limit)
    requires forall i :: 0 <= i < |ts| ==> ts[i] <= now
    requires |ts| >= limit > 0 ==> ts[|ts| - limit] <= now - window
    requires limit > 0
    ensures Ascending(ts + [now]) && Spaced(ts + [now], window, limit)
  {
    var longer := ts + [now];
    forall i, j | 0 <= i && j == i + limit && j < |longer| ensures longer[i] + window <= longer[j] {
      if j < |ts| { assert ts[i] + window <= ts[j]; }
    }
  }

  lemma AdmitTracks(r: Run, now: real, window: real, limit: nat)
    requires Tracks(r, now, window, limit) && |r.queue| < limit
    ensures Tracks(Run(r.queue + [now], r.admitted + [now]), now, window, limit)
  {
    SpacedAppend(r.admitted, now, window, limit);
    assert |r.queue + [now]| == |r.queue| + 1;
  }

  lemma AttemptTracks(r: Run, now: real, window: real, limit: nat)
    requires Tracks(r, now, window, limit)
    ensures Tracks(Attempt(r, now, window, limit), now, window, limit)
    ensures limit > 0 ==>
              (!Admits(r.queue, now, window, limit) <==>
               |r.admitted| >= limit && r.admitted[|r.admitted| - limit] > now - window)
  {
    var live := Live(r.queue, now, window);
    LiveTracks(r, now, window, limit);
    if |live| < limit {
      AdmitTracks(Run(live, r.admitted), now, window, limit);
    } else {
      assert live + [] == live && r.admitted + [] == r.admitted;
    }
  }

  lemma {:induction false} RunTracks(times: seq<real>, now: real, window: real, limit: nat)
    requires Ascending(times) && (times != [] ==> times[|times| - 1] <= now) && window > 0.0
    ensures Tracks(Attempts(times, window, limit), now, window, limit)
  {
    if times != [] {
      var before, last := times[..|times| - 1], times[|times| - 1];
      RunTracks(before, last, window, limit);
      AttemptTracks(Attempts(before, window, limit), last, window, limit);
      Later(Attempt(Attempts(before, window, limit), last, window, limit), last, now, window, limit);
    }
  }

  lemma Later(r: Run, earlier: real, now: real, window: real, limit: nat)
    requires Tracks(r, earlier, window, limit) && earlier <= now
    ensures Tracks(r, now, window, limit)
  {}

  lemma QueueAscending(r: Run, now: real, window: real, limit: nat)
    requires Tracks(r, now, window, limit)
    ensures Ascending(r.queue)
  {
    var k := |r.admitted| - |r.queue|;
    forall i, j | 0 <= i < j < |r.queue| ensures r.queue[i] <= r.queue[j] {
      assert r.queue[i] == r.admitted[k + i] && r.queue[j] == r.admitted[k + j];
    }
  }

  /** Admissions never crowd: however many attempts are made, `limit + 1` admissions in a row
      are never less than a window apart. */
  lemma AdmissionsAreSpaced(times: seq<real>, window: real, limit: nat)
    requires Ascending(times) && window > 0.0
    ensures var admitted := Attempts(times, window, limit).admitted;
            Ascending(admitted) && Spaced(admitted, window, limit)
  {
    RunTracks(times, if times == [] then 0.0 else times[|times| - 1], window, limit);
  }

  /** After any run, an attempt at `now` is refused exactly when the trailing window already holds
      `limit` admissions; refused attempts play no part. */
  lemma RefusedOnlyWhenFull(times: seq<real>, now: real, window: real, limit: nat)
    requires Ascending(times) && (times != [] ==> times[|times| - 1] <= now)
    requires window > 0.0 && limit > 0
    ensures var r := Attempts(times, window, limit);
            !Admits(r.queue, now, window, limit) <==>
            |r.admitted| >= limit && r.admitted[|r.admitted| - limit] > now - window
  {
    RunTracks(times, now, window, limit);
    AttemptTracks(Attempts(times, window, limit), now, window, limit);
  }

  // ---------- windows ----------

  /** How many of the times lie in `(from, to]`. */
  function CountIn(ts: seq<real>, from: real, to: real): nat {
    if ts == [] then 0
    else CountIn(ts[..|ts| - 1], from, to) + (if from < ts[|ts| - 1] <= to then 1 else 0)
  }

  lemma {:induction false} CountSkips(ts: seq<real>, from: real, to: real, k: nat)
    requires k <= |ts| && forall i :: 0 <= i < k ==> ts[i] <= from
    ensures CountIn(ts, from, to) <= |ts| - k
    decreases |ts|
  {
    if |ts| > k {
      CountSkips(ts[..|ts| - 1], from, to, k);
    } else if ts != [] {
      CountSkips(ts[..|ts| - 1], from, to, k - 1);
    }
  }

  /** Spaced times put at most `limit` of themselves in any window, wherever it starts. */
  lemma {:induction false} SpacedBoundsWindows(ts: seq<real>, window: real, limit: nat, from: real)
    requires Ascending(ts) && Spaced(ts, window, limit)
    ensures CountIn(ts, from, from + window) <= limit
    decreases |ts|
  {
    var n := |ts|;
    if n > 0 {
      if from < ts[n - 1] <= from + window {
        var k := if n <= limit then 0 else n - limit;
        forall i | 0 <= i < k ensures ts[i] <= from {
          assert ts[n - 1 - limit] + window <= ts[n - 1 - limit + limit];
          if i < n - 1 - limit { assert ts[i] <= ts[n - 1 - limit]; }
        }
        CountSkips(ts, from, from + window, k);
      } else {
        SpacedBoundsWindows(ts[..n - 1], window, limit, from);
      }
    }
  }

  /** At most `limit` admissions in every window, not only in those that end at an admission. */
  lemma EveryWindowIsBounded(times: seq<real>, window: real, limit: nat, from: real)
    requires Ascending(times) && window > 0.0
    ensures CountIn(Attempts(times, window, limit).admitted, from, from + window) <= limit
  {
    AdmissionsAreSpaced(times, window, limit);
    SpacedBoundsWindows(Attempts(times, window, limit).admitted, window, limit, from);
  }

  // ---------- lines that a limiter lets through ----------

  /** A line for which a slot was reserved; `written` is whether its write then worked. */
  datatype Line<T> = Line(content: T, at: real, written: bool)

  /** Every time at which a line was attempted, and the lines reserved. */
  datatype Log<T> = Log(attempts: seq<real>, lines: seq<Line<T>>)

  /** One more line attempted: a slot is reserved before the write, so a failing write uses it up. */
  function Offered<T>(log: Log<T>, content: T, now: real, works: bool, window: real, limit: nat): Log<T> {
    Log(log.attempts + [now],
        log.lines + if Admits(Attempts(log.attempts, window, limit).queue, now, window, limit)
                    then [Line(content, now, works)] else [])
  }

  function Times<T>(lines: seq<Line<T>>): seq<real> {
    seq(|lines|, i requires 0 <= i < |lines| => lines[i].at)
  }

  /** The reserved lines are exactly the admissions of the limiter. */
  ghost predicate Metered<T>(log: Log<T>, window: real, limit: nat) {
    Times(log.lines) == Attempts(log.attempts, window, limit).admitted
  }

  lemma NothingMetered<T>(log: Log<T>, window: real, limit: nat)
    requires log == Log([], [])
    ensures Metered(log, window, limit)
  {}

  lemma OfferedMetered<T>(log: Log<T>, content: T, now: real, works: bool, window: real, limit: nat)
    requires Metered(log, window, limit)
    ensures Metered(Offered(log, content, now, works, window, limit), window, limit)
  {
    assert (log.attempts + [now])[..|log.attempts|] == log.attempts;
    hide Admits, Next;
    var run := Attempts(log.attempts, window, limit);
    if Admits(run.queue, now, window, limit) {
      assert Times(log.lines + [Line(content, now, works)]) == Times(log.lines) + [now];
    } else {
      assert log.lines + [] == log.lines && run.admitted + [] == run.admitted;
    }
  }

  /** Lines attempted at times in order never crowd a window. */
  lemma LinesAreBounded<T>(log: Log<T>, window: real, limit: nat, from: real)
    requires Metered(log, window, limit) && Ascending(log.attempts) && window > 0.0
    ensures CountIn(Times(log.lines), from, from + window) <= limit
  {
    EveryWindowIsBounded(log.attempts, window, limit, from);
  }
}
