/**
 The GC pause log (backend/app/runtime/gc_pause.py): the collector's callback queues at most
 five slow pauses; `Flush` writes them, at most five lines in any 60 seconds.
 */
module GcPause {
  import opened Wrappers
  import RateWindow

  const WINDOW := 60.0
  const LIMIT := 5
  const KEPT := 5

  datatype Phase = Start | Stop | Other

  datatype Pause = Pause(generation: nat, milliseconds: real, collected: int)

  /** A deque of at most `KEPT` pauses: appending to a full one drops the oldest. */
  function Queued(pending: seq<Pause>, p: Pause): (r: seq<Pause>)
    ensures |pending| <= KEPT ==> |r| <= KEPT
    ensures |r| > 0 && r[|r| - 1] == p
  {
    if |pending| < KEPT then pending + [p] else pending[1..] + [p]
  }

  /** The last `KEPT` of all the pauses ever queued. */
  function Latest(all: seq<Pause>): seq<Pause> {
    if |all| <= KEPT then all else all[|all| - KEPT..]
  }

  lemma QueuedIsLatest(all: seq<Pause>, p: Pause)
    ensures Queued(Latest(all), p) == Latest(all + [p])
  {}

  lemma LatestOfNone()
    ensures Latest([]) == []
  {}

  type Generations = s: seq<Option<real>> | |s| == 3 witness [None, None, None]

  predicate Counts(started: Generations, phase: Phase, generation: nat) {
    phase.Stop? && generation < 3 && started[generation].Some?
  }

  /** The pause that a notification completes, in milliseconds; 0 when it completes none. */
  function Pauses(started: Generations, phase: Phase, generation: nat, now: real): real {
    if Counts(started, phase, generation) then (now - started[generation].value) * 1000.0 else 0.0
  }

  function Starts(started: Generations, phase: Phase, generation: nat, now: real): Generations {
    if generation >= 3 || phase.Other? then started
    else started[generation := if phase.Start? then Some(now) else None]
  }

  // ---------- one step ----------

  datatype Event =
    | Notify(phase: Phase, generation: nat, collected: int, at: real)
    | Take(at: real, works: bool)

  /** The monitor as its log sees it; `log` are the lines attempted and reserved so far. */
  datatype Monitor = Monitor(started: Generations, pending: seq<Pause>, log: RateWindow.Log<Pause>)

  const FRESH := Monitor([None, None, None], [], RateWindow.Log([], []))

  datatype Config = Config(enabled: bool, thresholdMs: real)

  /** What a notification adds to the slow pauses. */
  function SlowPause(c: Config, started: Generations, phase: Phase, generation: nat, collected: int, now: real): seq<Pause> {
    var ms := Pauses(started, phase, generation, now);
    if Counts(started, phase, generation) && c.enabled && ms >= c.thresholdMs then [Pause(generation, ms, collected)] else []
  }

  /** A notification, or the flush taking one pause from the queue; `works` is whether its write does. */
  function Step(c: Config, m: Monitor, e: Event): Monitor {
    match e
    case Notify(phase, generation, collected, at) =>
      var slow := SlowPause(c, m.started, phase, generation, collected, at);
      m.(started := Starts(m.started, phase, generation, at),
         pending := if slow == [] then m.pending else Queued(m.pending, slow[0]))
    case Take(at, works) =>
      if m.pending == [] then m
      else m.(pending := m.pending[1..], log := RateWindow.Offered(m.log, m.pending[0], at, works, WINDOW, LIMIT))
  }

  function After(c: Config, m: Monitor, events: seq<Event>): Monitor {
    if events == [] then m else Step(c, After(c, m, events[..|events| - 1]), events[|events| - 1])
  }

  lemma AfterNothing(c: Config, m: Monitor)
    ensures After(c, m, []) == m
  {}

  lemma AfterOneMore(c: Config, m: Monitor, events: seq<Event>, e: Event)
    ensures After(c, m, events + [e]) == Step(c, After(c, m, events), e)
  {
    assert (events + [e])[..|events|] == events;
  }

  class GcPauseMonitor {
    const config: Config
    /** Per generation, when the collection now running began. */
    var started: Generations
    var totalMs: real
    var fullCollections: nat
    var pending: seq<Pause>
    var emitted: seq<real>
    /** The slow pauses since the last flush, and the lines attempted and reserved so far. */
    ghost var slow: seq<Pause>
    ghost var log: RateWindow.Log<Pause>

    constructor (config: Config)
      ensures Valid() && Value() == FRESH && slow == [] && this.config == config
    {
      this.config := config;
      started := [None, None, None];
      totalMs, fullCollections, pending, emitted := 0.0, 0, [], [];
      slow, log := [], RateWindow.Log([], []);
    }

    ghost predicate Valid()
      reads this
    {
      && pending == Latest(slow)
      && LogValid()
    }

    ghost predicate LogValid()
      reads `emitted, `log
    {
      emitted == RateWindow.Attempts(log.attempts, WINDOW, LIMIT).queue
    }

    ghost function Value(): Monitor
      reads `started, `pending, `log
    {
      Monitor(started, pending, log)
    }

    /** One notification from the collector at `now` (seconds). A stop that matches a start of its
        generation is accounted once; nothing else is. */
    method Callback(phase: Phase, generation: nat, collected: int, now: real)
      requires pending == Latest(slow)
      modifies `started, `totalMs, `fullCollections, `pending, `slow
      ensures pending == Latest(slow)
      ensures Value() == Step(config, old(Value()), Notify(phase, generation, collected, now))
      ensures slow == old(slow) + SlowPause(config, old(started), phase, generation, collected, now)
      ensures totalMs == old(totalMs) + Pauses(old(started), phase, generation, now)
      ensures fullCollections == old(fullCollections) + (if Counts(old(started), phase, generation) && generation == 2 then 1 else 0)
    {
      hide Latest, Queued;
      if generation >= 3 {
        return;
      }
      if phase.Start? {
        started := started[generation := Some(now)];
      } else if phase.Stop? {
        var began := started[generation];
        started := started[generation := None];
        if began.None? {
          return;
        }
        var ms := (now - began.value) * 1000.0;
        totalMs := totalMs + ms;
        fullCollections := fullCollections + if generation == 2 then 1 else 0;
        if config.enabled && ms >= config.thresholdMs {
          QueuedIsLatest(slow, Pause(generation, ms, collected));
          pending := Queued(pending, Pause(generation, ms, collected));
          slow := slow + [Pause(generation, ms, collected)];
        }
      }
    }

    /** Make room in the trailing minute and, if there is any, reserve a line at `now`. */
    method Reserve(ghost pause: Pause, now: real, ghost works: bool) returns (ok: bool)
      requires LogValid()
      modifies `emitted, `log
      ensures LogValid() && log == RateWindow.Offered(old(log), pause, now, works, WINDOW, LIMIT)
      ensures log.lines == old(log).lines + if ok then [RateWindow.Line(pause, now, works)] else []
    {
      while emitted != [] && emitted[0] <= now - WINDOW
        invariant RateWindow.Expire(emitted, now - WINDOW) == RateWindow.Expire(old(emitted), now - WINDOW)
        modifies `emitted
        decreases |emitted|
      {
        emitted := emitted[1..];
      }
      ok := |emitted| < LIMIT;
      if ok {
        emitted := emitted + [now];
      } else {
        assert emitted + [] == emitted;
      }
      assert (log.attempts + [now])[..|log.attempts|] == log.attempts;
      log := RateWindow.Offered(log, pause, now, works, WINDOW, LIMIT);
    }

    /** Write the queued pauses; `takes[i]` is the clock when the i-th is taken from the queue, and
        whether its write works. A pause queued meanwhile is a step between two of these. */
    method Flush(takes: seq<Event>) returns (lines: seq<RateWindow.Line<Pause>>)
      requires Valid() && |takes| == |pending| && forall i :: 0 <= i < |takes| ==> takes[i].Take?
      modifies `pending, `emitted, `slow, `log
      ensures Valid() && pending == []
      ensures Value() == After(config, old(Value()), takes)
      ensures log.lines == old(log).lines + lines
    {
      hide LogValid, Latest, After, RateWindow.Offered;
      AfterNothing(config, Value());
      lines := [];
      ghost var all := pending;
      assert takes[..0] == [];
      var i := 0;
      while pending != []
        invariant 0 <= i <= |all| == |takes| && pending == all[i..]
        invariant LogValid() && Value() == After(config, old(Value()), takes[..i])
        invariant log.lines == old(log).lines + lines
        decreases |pending|
      {
        var (pause, e) := (pending[0], takes[i]);
        assert takes[..i + 1] == takes[..i] + [e];
        AfterOneMore(config, old(Value()), takes[..i], e);
        assert all[i..][1..] == all[i + 1..];
        ghost var before := lines;
        pending := pending[1..];
        var ok := Reserve(pause, e.at, e.works);
        if ok {
          lines := lines + [RateWindow.Line(pause, e.at, e.works)];
        }
        assert log.lines == old(log).lines + before + (if ok then [RateWindow.Line(pause, e.at, e.works)] else []);
        i := i + 1;
      }
      assert takes[..i] == takes;
      slow := [];
      LatestOfNone();
    }
  }

  // ---------- whole runs ----------

  predicate Concerns(e: Event, generation: nat) {
    e.Notify? && e.generation == generation && !e.phase.Other?
  }

  /** The collection of that generation that is running after `events` began with the i-th of them. */
  ghost predicate BeganAt(events: seq<Event>, i: nat, generation: nat) {
    && i < |events| && Concerns(events[i], generation) && events[i].phase.Start?
    && forall k :: i < k < |events| ==> !Concerns(events[k], generation)
  }

  /** `started` is when the running collection of that generation began, if one runs. */
  ghost predicate IsBegan(started: Option<real>, events: seq<Event>, generation: nat) {
    && (started.Some? <==> exists i: nat :: BeganAt(events, i, generation))
    && (forall i: nat :: BeganAt(events, i, generation) ==> started == Some(events[i].at))
  }

  lemma StartedStep(c: Config, m: Monitor, events: seq<Event>, e: Event, generation: nat)
    requires generation < 3 && IsBegan(m.started[generation], events, generation)
    ensures IsBegan(Step(c, m, e).started[generation], events + [e], generation)
  {
    var later := events + [e];
    assert later[|events|] == e;
    if Concerns(e, generation) {
      assert forall i: nat :: BeganAt(later, i, generation) ==> i == |events|;
      if e.phase.Start? { assert BeganAt(later, |events|, generation); }
    } else {
      hide BeganAt;
      forall i: nat ensures BeganAt(events, i, generation) <==> BeganAt(later, i, generation) {
        BeganBefore(events, e, i, generation);
      }
      forall i: nat | BeganAt(later, i, generation) ensures later[..|events|] == events && i < |events| {
        BeganBefore(events, e, i, generation);
      }
    }
  }

  lemma BeganBefore(events: seq<Event>, e: Event, i: nat, generation: nat)
    requires !Concerns(e, generation)
    ensures BeganAt(events, i, generation) <==> BeganAt(events + [e], i, generation)
    ensures BeganAt(events, i, generation) ==> i < |events|
  {
    var later := events + [e];
    assert later[|events|] == e && forall k :: 0 <= k < |events| ==> later[k] == events[k];
  }

  lemma {:induction false} StartedIsBegan(c: Config, events: seq<Event>, generation: nat)
    requires generation < 3
    ensures IsBegan(After(c, FRESH, events).started[generation], events, generation)
  {
    if events != [] {
      hide Step, BeganAt, IsBegan;
      var before, e := events[..|events| - 1], events[|events| - 1];
      StartedIsBegan(c, before, generation);
      StartedStep(c, After(c, FRESH, before), before, e, generation);
      assert before + [e] == events;
    }
  }

  /** `e` ends the collection that began with the i-th event. */
  ghost predicate Ends(events: seq<Event>, e: Event, i: nat) {
    e.Notify? && e.phase.Stop? && e.generation < 3 && BeganAt(events, i, e.generation)
  }

  predicate Slow(c: Config, ms: real) { c.enabled && c.thresholdMs <= ms }

  /** In any run, a notification is accounted exactly when it ends a running collection, with the
      milliseconds since that one's own start; a slow one joins the queue, which keeps the last five. */
  lemma NotificationDecides(c: Config, events: seq<Event>, e: Event, i: nat)
    requires e.Notify?
    ensures var (m, m') := (After(c, FRESH, events), Step(c, After(c, FRESH, events), e));
            && (Counts(m.started, e.phase, e.generation) <==> exists j: nat :: Ends(events, e, j))
            && (Ends(events, e, i) ==>
                  var ms := 1000.0 * (e.at - events[i].at);
                  && Pauses(m.started, e.phase, e.generation, e.at) == ms
                  && (!Slow(c, ms) ==> m'.pending == m.pending)
                  && (Slow(c, ms) ==>
                        var all := m.pending + [Pause(e.generation, ms, e.collected)];
                        m'.pending == if |all| <= 5 then all else all[1..]))
            && (!Counts(m.started, e.phase, e.generation) ==>
                  m'.pending == m.pending && Pauses(m.started, e.phase, e.generation, e.at) == 0.0)
  {
    hide After, BeganAt;
    if e.generation < 3 {
      StartedIsBegan(c, events, e.generation);
      if j: nat :| BeganAt(events, j, e.generation) {
        assert e.phase.Stop? ==> Ends(events, e, j);
      }
    }
  }

  /** The flush takes the oldest pause and offers the limiter one line for it; a collection goes on. */
  lemma TakeDecides(c: Config, m: Monitor, e: Event)
    requires e.Take?
    ensures var m' := Step(c, m, e);
            && m'.started == m.started
            && (m.pending == [] ==> m' == m)
            && (m.pending != [] ==>
                  && m.pending == [m.pending[0]] + m'.pending
                  && m'.log.attempts == m.log.attempts + [e.at]
                  && (m'.log.lines == m.log.lines || m'.log.lines == m.log.lines + [RateWindow.Line(m.pending[0], e.at, e.works)]))
  {}

  /** The flush runs on a clock that does not go back; the collector may interrupt it anywhere. */
  ghost predicate InOrder(events: seq<Event>) {
    forall i, j :: 0 <= i < j < |events| && events[i].Take? && events[j].Take? ==> events[i].at <= events[j].at
  }

  ghost predicate NotBefore(now: real, events: seq<Event>) {
    forall i :: 0 <= i < |events| && events[i].Take? ==> events[i].at <= now
  }

  ghost predicate LogOk(log: RateWindow.Log<Pause>, now: real) {
    && RateWindow.Metered(log, WINDOW, LIMIT) && RateWindow.Ascending(log.attempts)
    && forall i :: 0 <= i < |log.attempts| ==> log.attempts[i] <= now
  }

  lemma StepKeepsLog(c: Config, m: Monitor, e: Event, earlier: real, now: real)
    requires LogOk(m.log, earlier) && earlier <= now && (e.Take? ==> earlier <= e.at <= now)
    ensures LogOk(Step(c, m, e).log, now)
  {
    hide RateWindow.Metered;
    if e.Take? && m.pending != [] {
      RateWindow.OfferedMetered(m.log, m.pending[0], e.at, e.works, WINDOW, LIMIT);
    }
  }

  lemma {:induction false} RunKeepsLog(c: Config, events: seq<Event>, now: real)
    requires InOrder(events) && NotBefore(now, events)
    ensures LogOk(After(c, FRESH, events).log, now)
  {
    if events == [] {
      RateWindow.NothingMetered(FRESH.log, WINDOW, LIMIT);
    } else {
      hide LogOk, Step;
      var (before, e) := (events[..|events| - 1], events[|events| - 1]);
      var earlier := if e.Take? then e.at else now;
      RunKeepsLog(c, before, earlier);
      StepKeepsLog(c, After(c, FRESH, before), e, earlier, now);
    }
  }

  /** Whatever is collected and flushed and whenever, the lines of a run are exactly what the limiter
      admits, and no 60 seconds ever hold more than five of them. */
  lemma FiveLinesAMinute(c: Config, events: seq<Event>, from: real)
    requires InOrder(events)
    ensures var log := After(c, FRESH, events).log;
            && RateWindow.Metered(log, 60.0, 5)
            && RateWindow.CountIn(RateWindow.Times(log.lines), from, from + 60.0) <= 5
  {
    RunKeepsLog(c, events, LatestTake(events));
    hide After, InOrder, RateWindow.Metered;
    RateWindow.LinesAreBounded(After(c, FRESH, events).log, WINDOW, LIMIT, from);
  }

  function LatestTake(events: seq<Event>): (now: real)
    ensures NotBefore(now, events)
  {
    if events == [] then 0.0
    else
      var (now, e) := (LatestTake(events[..|events| - 1]), events[|events| - 1]);
      assert forall i :: 0 <= i < |events| - 1 ==> events[i] == events[..|events| - 1][i];
      if e.Take? && e.at > now then e.at else now
  }
}
