/**
 The loop-stall watchdog (backend/app/runtime/loop_stall_watchdog.py). The event loop beats; an
 observer checks the beat, samples the stack while the loop is stalled, and reports the stall once
 the loop beats again.
 */
module LoopStall {
  import opened Wrappers
  import RateWindow

  const WINDOW := 600.0
  const LIMIT := 30
  const MAX_SAMPLES := 16
  const SAMPLE_INTERVAL := 0.25

  /** A finished stall: the beat it began with, the beat that ended it, and the samples taken. */
  datatype Report = Report(since: real, until: real, samples: nat)

  /** The observer's fields. `attempts` counts sampling attempts, `samples` the successful ones. */
  datatype Watch = Watch(
    heartbeat: Option<real>, stallSince: Option<real>, attempts: nat, nextSample: real, samples: nat)

  const IDLE := Watch(None, None, 0, 0.0, 0)

  /** A stall is over when the beat is no longer the one it began with. */
  function Ended(w: Watch): Option<Report> {
    if w.heartbeat.Some? && w.stallSince.Some? && w.heartbeat != w.stallSince
    then Some(Report(w.stallSince.value, w.heartbeat.value, w.samples))
    else None
  }

  function Reset(w: Watch): Watch {
    if Ended(w).Some? then w.(stallSince := None, samples := 0) else w
  }

  predicate Stalled(w: Watch, now: real, threshold: real) {
    w.heartbeat.Some? && now - w.heartbeat.value > threshold
  }

  /** Start a stall if none is open, then sample when the budget and the schedule allow. */
  function Observe(w: Watch, now: real, threshold: real, sampled: bool): Watch {
    if !Stalled(w, now, threshold) then w
    else
      var w' := if w.stallSince.None? then w.(stallSince := w.heartbeat, attempts := 0, nextSample := now) else w;
      if w'.attempts < MAX_SAMPLES && now >= w'.nextSample
      then w'.(attempts := w'.attempts + 1, nextSample := now + SAMPLE_INTERVAL,
               samples := w'.samples + if sampled then 1 else 0)
      else w'
  }

  // ---------- one step ----------

  datatype Event = Beat(at: real) | Check(at: real, written: bool, sampled: bool)

  /** The watch, every stall it has closed, and the report lines attempted and reserved. */
  datatype Run = Run(watch: Watch, reports: seq<Report>, log: RateWindow.Log<Report>)

  const START := Run(IDLE, [], RateWindow.Log([], []))

  /** The limiter has a slot for a line at `now`. */
  predicate Free(log: RateWindow.Log<Report>, now: real) {
    RateWindow.Admits(RateWindow.Attempts(log.attempts, WINDOW, LIMIT).queue, now, WINDOW, LIMIT)
  }

  /** A handler that fails on a reserved line ends the look early, with the stall already closed. */
  function Step(r: Run, e: Event, threshold: real): Run {
    match e
    case Beat(at) => r.(watch := r.watch.(heartbeat := Some(at)))
    case Check(at, written, sampled) =>
      var ended := Ended(r.watch);
      if ended.None? then r.(watch := Observe(r.watch, at, threshold, sampled))
      else
        Run(if !written && Free(r.log, at) then Reset(r.watch) else Observe(Reset(r.watch), at, threshold, sampled),
            r.reports + [ended.value],
            RateWindow.Offered(r.log, ended.value, at, written, WINDOW, LIMIT))
  }

  class LoopStallWatchdog {
    const threshold: real
    var heartbeat: Option<real>
    var stallSince: Option<real>
    var attempts: nat
    var nextSample: real
    var samples: nat
    var emitted: seq<real>
    /** The report lines attempted and reserved so far. */
    ghost var log: RateWindow.Log<Report>

    constructor (threshold: real)
      ensures this.threshold == threshold && State() == IDLE && LogValid() && log == RateWindow.Log([], [])
    {
      this.threshold := threshold;
      heartbeat, stallSince, attempts, nextSample, samples := None, None, 0, 0.0, 0;
      emitted, log := [], RateWindow.Log([], []);
    }

    function State(): Watch
      reads this
    {
      Watch(heartbeat, stallSince, attempts, nextSample, samples)
    }

    ghost predicate LogValid()
      reads `emitted, `log
    {
      emitted == RateWindow.Attempts(log.attempts, WINDOW, LIMIT).queue
    }

    method Beat(now: real)
      modifies `heartbeat
      ensures State() == old(State()).(heartbeat := Some(now))
    {
      heartbeat := Some(now);
    }

    /** Reserve a line in the trailing ten minutes; a write that fails still counts. */
    method Emit(ghost report: Report, now: real, ghost written: bool) returns (ok: bool)
      requires LogValid()
      modifies `emitted, `log
      ensures LogValid() && log == RateWindow.Offered(old(log), report, now, written, WINDOW, LIMIT)
      ensures ok == Free(old(log), now)
    {
      while emitted != [] && emitted[0] <= now - WINDOW
        invariant RateWindow.Expire(emitted, now - WINDOW) == RateWindow.Expire(old(emitted), now - WINDOW)
        modifies `emitted
        decreases |emitted|
      {
        emitted := emitted[1..];
      }
      ok := |emitted| < LIMIT;
      if ok {
        emitted := emitted + [now];
      } else {
        assert emitted + [] == emitted;
      }
      assert (log.attempts + [now])[..|log.attempts|] == log.attempts;
      log := RateWindow.Offered(log, report, now, written, WINDOW, LIMIT);
    }

    /** One look at the beat. `written` is whether the log handler works, `sampled` whether the
        stack can be read. A failing handler ends the look early, with the stall already closed. */
    method Check(now: real, written: bool, sampled: bool) returns (report: Option<Report>, logged: bool)
      requires LogValid()
      modifies this
      ensures LogValid() && report == Ended(old(State()))
      ensures logged <==> report.Some? && written && Free(old(log), now)
      ensures Run(State(), if report.Some? then [report.value] else [], log)
              == Step(Run(old(State()), [], old(log)), Event.Check(now, written, sampled), threshold)
    {
      hide LogValid, Free, RateWindow.Offered;
      report, logged := None, false;
      if heartbeat.None? {
        return;
      }
      if stallSince.Some? && heartbeat != stallSince {
        report := Some(Report(stallSince.value, heartbeat.value, samples));
        // Reset before logging, so that a broken handler cannot wedge the state machine.
        stallSince, samples := None, 0;
        var ok := Emit(report.value, now, written);
        logged := ok && written;
        if ok && !written {
          return;
        }
      }
      if now - heartbeat.value <= threshold {
        return;
      }
      if stallSince.None? {
        stallSince, attempts, nextSample := heartbeat, 0, now;
      }
      if attempts < MAX_SAMPLES && now >= nextSample {
        attempts, nextSample := attempts + 1, now + SAMPLE_INTERVAL;
        if sampled {
          samples := samples + 1;
        }
      }
    }
  }

  // ---------- whole runs ----------

  function Runs(events: seq<Event>, threshold: real): Run {
    if events == [] then START
    else Step(Runs(events[..|events| - 1], threshold), events[|events| - 1], threshold)
  }

  ghost predicate InOrder(events: seq<Event>) {
    forall i, j :: 0 <= i < j < |events| ==> events[i].at <= events[j].at
  }

  ghost predicate Beaten(events: seq<Event>, t: real) {
    Beat(t) in events
  }

  /** The open stall, if any, began with a beat that has been watched past the threshold. */
  ghost predicate WatchOk(w: Watch, events: seq<Event>, now: real, threshold: real) {
    && (w.heartbeat.Some? ==> Beaten(events, w.heartbeat.value) && w.heartbeat.value <= now)
    && (w.stallSince.Some? ==>
          && w.heartbeat.Some?
          && Beaten(events, w.stallSince.value)
          && w.stallSince.value + threshold < now
          && (w.heartbeat == w.stallSince || w.heartbeat.value > w.stallSince.value + threshold)
          && w.samples <= w.attempts <= MAX_SAMPLES)
    && (w.stallSince.None? ==> w.samples == 0)
  }

  /** A closed stall lies between two beats further apart than the threshold. */
  ghost predicate ReportOk(r: Report, events: seq<Event>, threshold: real) {
    && Beaten(events, r.since) && Beaten(events, r.until)
    && r.since + threshold < r.until
    && r.samples <= MAX_SAMPLES
  }

  /** Closed stalls are in order and disjoint, and so is the open one after them. */
  ghost predicate Faithful(r: Run, events: seq<Event>, now: real, threshold: real) {
    && WatchOk(r.watch, events, now, threshold)
    && (forall i :: 0 <= i < |r.reports| ==> ReportOk(r.reports[i], events, threshold))
    && (forall i :: 0 <= i < |r.reports| - 1 ==> r.reports[i].until <= r.reports[i + 1].since)
    && (r.reports != [] ==> After(r.watch, r.reports[|r.reports| - 1].until))
  }

  ghost predicate After(w: Watch, t: real) {
    w.heartbeat.Some? && t <= w.heartbeat.value && (w.stallSince.Some? ==> t <= w.stallSince.value)
  }

  lemma BeatsRemain(events: seq<Event>, e: Event)
    ensures forall t :: Beaten(events, t) ==> Beaten(events + [e], t)
    ensures forall r, threshold :: ReportOk(r, events, threshold) ==> ReportOk(r, events + [e], threshold)
  {}

  lemma WatchStep(r: Run, events: seq<Event>, e: Event, earlier: real, threshold: real)
    requires WatchOk(r.watch, events, earlier, threshold) && earlier <= e.at && threshold > 0.0
    ensures var r' := Step(r, e, threshold);
            && WatchOk(r'.watch, events + [e], e.at, threshold)
            && (Ended(r.watch).Some? ==> ReportOk(Ended(r.watch).value, events, threshold))
            && (e.Check? && Ended(r.watch).Some? ==> After(r'.watch, Ended(r.watch).value.until))
            && (forall t :: After(r.watch, t) ==> After(r'.watch, t))
  {
    BeatsRemain(events, e);
    assert e in events + [e];
  }

  lemma StepFaithful(r: Run, events: seq<Event>, e: Event, earlier: real, threshold: real)
    requires Faithful(r, events, earlier, threshold) && earlier <= e.at && threshold > 0.0
    ensures Faithful(Step(r, e, threshold), events + [e], e.at, threshold)
  {
    hide WatchOk, ReportOk;
    BeatsRemain(events, e);
    WatchStep(r, events, e, earlier, threshold);
  }

  lemma StartFaithful(now: real, threshold: real)
    ensures Faithful(START, [], now, threshold)
  {}

  lemma {:induction false} RunsFaithful(events: seq<Event>, threshold: real)
    requires InOrder(events) && threshold > 0.0
    ensures Faithful(Runs(events, threshold), events, if events == [] then 0.0 else events[|events| - 1].at, threshold)
  {
    hide Faithful, Step;
    if events == [] {
      StartFaithful(0.0, threshold);
    } else {
      var (before, e) := (events[..|events| - 1], events[|events| - 1]);
      RunsFaithful(before, threshold);
      StartFaithful(e.at, threshold);
      StepFaithful(Runs(before, threshold), before, e, if before == [] then e.at else before[|before| - 1].at, threshold);
      assert before + [e] == events;
    }
  }

  /** Whatever the interleaving of beats and checks, every reported stall lies between two beats that are
      more than the threshold apart, with at most sixteen samples, and no two of them overlap. */
  lemma StallsAreReal(events: seq<Event>, threshold: real)
    requires InOrder(events) && threshold > 0.0
    ensures var reports := Runs(events, threshold).reports;
            && (forall i :: 0 <= i < |reports| ==> ReportOk(reports[i], events, threshold))
            && (forall i, j :: 0 <= i < j < |reports| ==> reports[i].until <= reports[j].since)
  {
    RunsFaithful(events, threshold);
    hide ReportOk;
    var (r, now) := (Runs(events, threshold), if events == [] then 0.0 else events[|events| - 1].at);
    forall i, j | 0 <= i < j < |r.reports| ensures r.reports[i].until <= r.reports[j].since {
      ReportsOrdered(r, events, now, threshold, i, j);
    }
  }

  lemma {:induction false} ReportsOrdered(r: Run, events: seq<Event>, now: real, threshold: real, i: nat, j: nat)
    requires Faithful(r, events, now, threshold) && i < j < |r.reports| && threshold > 0.0
    ensures r.reports[i].until <= r.reports[j].since
    decreases j - i
  {
    if i + 1 < j {
      ReportsOrdered(r, events, now, threshold, i, j - 1);
      assert r.reports[j - 1].until <= r.reports[j - 1 + 1].since;
    }
  }

  /** While the loop stays blocked, checks open exactly one stall, at the last beat, and report nothing. */
  lemma {:induction false} BlockedLoopOpensOneStall(r: Run, checks: seq<Event>, threshold: real)
    requires r.watch.heartbeat.Some? && Ended(r.watch).None? && threshold > 0.0
    requires forall e :: e in checks ==> e.Check?
    ensures var r' := Continue(r, checks, threshold);
            && r'.reports == r.reports
            && r'.watch.heartbeat == r.watch.heartbeat
            && (r'.watch.stallSince == r.watch.heartbeat <==>
                r.watch.stallSince.Some? || exists e :: e in checks && e.at > r.watch.heartbeat.value + threshold)
            && (r'.watch.stallSince != r.watch.heartbeat ==> r'.watch.stallSince.None?)
  {
    if checks != [] {
      var before, e := checks[..|checks| - 1], checks[|checks| - 1];
      assert forall x :: x in before ==> x in checks;
      assert forall x :: x in checks ==> x in before || x == e;
      BlockedLoopOpensOneStall(r, before, threshold);
      assert e in checks;
      assert r.reports + [] == r.reports;
    }
  }

  function Continue(r: Run, events: seq<Event>, threshold: real): Run {
    if events == [] then r
    else Step(Continue(r, events[..|events| - 1], threshold), events[|events| - 1], threshold)
  }

  /** The checks of a blocked loop that sample its stack: the first that is late, then each at least a
      quarter of a second after the one before, sixteen in all. */
  function Picks(beat: real, checks: seq<Event>, threshold: real): seq<Event> {
    if checks == [] then []
    else
      var (picked, e) := (Picks(beat, checks[..|checks| - 1], threshold), checks[|checks| - 1]);
      if e.at > beat + threshold && |picked| < 16 && (picked == [] || e.at >= picked[|picked| - 1].at + 0.25)
      then picked + [e] else picked
  }

  function Readable(picked: seq<Event>): nat {
    if picked == [] then 0
    else Readable(picked[..|picked| - 1]) + if picked[|picked| - 1].Check? && picked[|picked| - 1].sampled then 1 else 0
  }

  /** The open stall and its samples, if a check was late. */
  ghost predicate Watched(w: Watch, beat: real, samples: nat, picked: seq<Event>) {
    && w.heartbeat == Some(beat)
    && w.stallSince == (if picked == [] then None else Some(beat))
    && w.samples == samples + Readable(picked)
    && (picked != [] ==> w.attempts == |picked| && w.nextSample == picked[|picked| - 1].at + 0.25)
  }

  lemma ReadableAppend(picked: seq<Event>, e: Event)
    ensures Readable(picked + [e]) == Readable(picked) + if e.Check? && e.sampled then 1 else 0
  {
    assert (picked + [e])[..|picked|] == picked;
  }

  lemma CheckPicks(r: Run, checks: seq<Event>, e: Event, beat: real, samples: nat, threshold: real)
    requires e.Check? && Watched(r.watch, beat, samples, Picks(beat, checks, threshold))
    ensures var r' := Step(r, e, threshold);
            && Watched(r'.watch, beat, samples, Picks(beat, checks + [e], threshold))
            && r'.reports == r.reports
  {
    ReadableAppend(Picks(beat, checks, threshold), e);
    hide Picks, Readable;
    PicksStep(beat, checks, e, threshold);
  }

  lemma PicksStep(beat: real, checks: seq<Event>, e: Event, threshold: real)
    ensures var picked := Picks(beat, checks, threshold);
            Picks(beat, checks + [e], threshold) ==
            if e.at > beat + threshold && |picked| < 16 && (picked == [] || e.at >= picked[|picked| - 1].at + 0.25)
            then picked + [e] else picked
  {
    assert (checks + [e])[..|checks|] == checks;
  }

  lemma {:induction false} BlockedLoopIsWatched(r: Run, checks: seq<Event>, threshold: real)
    requires r.watch.heartbeat.Some? && r.watch.stallSince.None?
    requires forall e :: e in checks ==> e.Check?
    ensures var r' := Continue(r, checks, threshold);
            && Watched(r'.watch, r.watch.heartbeat.value, r.watch.samples, Picks(r.watch.heartbeat.value, checks, threshold))
            && r'.reports == r.reports
  {
    if checks != [] {
      var before, e := checks[..|checks| - 1], checks[|checks| - 1];
      assert e in checks && forall x :: x in before ==> x in checks;
      BlockedLoopIsWatched(r, before, threshold);
      hide Step, Watched;
      CheckPicks(Continue(r, before, threshold), before, e, r.watch.heartbeat.value, r.watch.samples, threshold);
      assert before + [e] == checks;
    }
  }

  lemma {:induction false} PickedIfLate(beat: real, checks: seq<Event>, threshold: real)
    ensures Picks(beat, checks, threshold) != [] <==> exists e :: e in checks && e.at > beat + threshold
  {
    if checks != [] {
      var before, last := checks[..|checks| - 1], checks[|checks| - 1];
      PickedIfLate(beat, before, threshold);
      assert forall x :: x in checks <==> x in before || x == last;
    }
  }

  /** When a blocked loop beats again, the next check reports exactly one stall if a check in between
      was late, from the beat before to the beat after, with the samples of the picked checks, and
      nothing otherwise. */
  lemma LateLoopIsReported(r: Run, checks: seq<Event>, beat: real, e: Event, threshold: real)
    requires r.watch.heartbeat.Some? && r.watch.stallSince.None?
    requires (forall x :: x in checks ==> x.Check?) && e.Check? && beat != r.watch.heartbeat.value
    ensures var (since, r') := (r.watch.heartbeat.value, Continue(r, checks, threshold));
            Step(Step(r', Beat(beat), threshold), e, threshold).reports ==
            r.reports + if exists x :: x in checks && x.at > since + threshold
                        then [Report(since, beat, r.watch.samples + Readable(Picks(since, checks, threshold)))] else []
  {
    BlockedLoopIsWatched(r, checks, threshold);
    PickedIfLate(r.watch.heartbeat.value, checks, threshold);
    hide Continue, Picks, Readable, Observe;
    assert r.reports + [] == r.reports;
  }

  /** The check that reports a stall opens the next one exactly when the new beat is late already, unless
      writing the reserved line failed. */
  lemma ReportMayOpenNext(r: Run, since: real, beat: real, e: Event, threshold: real)
    requires e.Check? && r.watch.stallSince == Some(since) && r.watch.heartbeat == Some(beat) && since != beat
    ensures var r' := Step(r, e, threshold);
            && r'.reports == r.reports + [Report(since, beat, r.watch.samples)]
            && r'.watch.heartbeat == Some(beat)
            && (r'.watch.stallSince == if e.at > beat + threshold && (e.written || |r'.log.lines| == |r.log.lines|)
                                       then Some(beat) else None)
            && r'.watch.samples == (if r'.watch.stallSince.Some? && e.sampled then 1 else 0)
  {}

  // ---------- the report lines ----------

  ghost predicate LogOk(log: RateWindow.Log<Report>, now: real) {
    && RateWindow.Metered(log, WINDOW, LIMIT) && RateWindow.Ascending(log.attempts)
    && forall i :: 0 <= i < |log.attempts| ==> log.attempts[i] <= now
  }

  lemma StepKeepsLog(r: Run, e: Event, threshold: real, earlier: real)
    requires LogOk(r.log, earlier) && earlier <= e.at
    ensures LogOk(Step(r, e, threshold).log, e.at)
  {
    hide RateWindow.Metered;
    if e.Check? && Ended(r.watch).Some? {
      RateWindow.OfferedMetered(r.log, Ended(r.watch).value, e.at, e.written, WINDOW, LIMIT);
    }
  }

  lemma {:induction false} RunKeepsLog(events: seq<Event>, threshold: real)
    requires InOrder(events)
    ensures LogOk(Runs(events, threshold).log, if events == [] then 0.0 else events[|events| - 1].at)
  {
    if events == [] {
      RateWindow.NothingMetered(START.log, WINDOW, LIMIT);
    } else {
      var (before, e) := (events[..|events| - 1], events[|events| - 1]);
      RunKeepsLog(before, threshold);
      if before == [] { assert LogOk(START.log, e.at); }
      hide LogOk, Step;
      StepKeepsLog(Runs(before, threshold), e, threshold, if before == [] then e.at else before[|before| - 1].at);
    }
  }

  /** However the loop stalls, the report lines of a run are exactly what the limiter admits of its closed
      stalls, and no ten minutes ever hold more than thirty of them. */
  lemma ThirtyReportsInTenMinutes(events: seq<Event>, threshold: real, from: real)
    requires InOrder(events)
    ensures var r := Runs(events, threshold);
            && RateWindow.Metered(r.log, 600.0, 30) && |r.log.attempts| == |r.reports|
            && RateWindow.CountIn(RateWindow.Times(r.log.lines), from, from + 600.0) <= 30
  {
    RunKeepsLog(events, threshold);
    EveryReportIsOffered(events, threshold);
    hide Runs, InOrder, RateWindow.Metered;
    RateWindow.LinesAreBounded(Runs(events, threshold).log, WINDOW, LIMIT, from);
  }

  lemma {:induction false} EveryReportIsOffered(events: seq<Event>, threshold: real)
    ensures |Runs(events, threshold).log.attempts| == |Runs(events, threshold).reports|
  {
    if events != [] {
      hide Observe, Free;
      EveryReportIsOffered(events[..|events| - 1], threshold);
    }
  }
}
