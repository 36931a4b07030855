/**
 Delivery of alerts and recovery after a crash (backend/app/main.py). A send is preceded by a
 committed pending mark; a mark that survives a crash is turned into one "unknown" event and only then
 cleared. The process may crash between any two awaits, and every database write may fail before or
 after its commit. A shutdown cancels every delivery at an await and is a crash here.
 */
module AlertDelivery {
  import opened Wrappers
  import opened AlertStore

  /** Identifiers of events: random, or derived from the key and the restored send time. */
  datatype EventId = Random(n: nat) | Derived(key: Key, since: int)

  datatype EventStatus = Result(status: Status) | Unknown

  datatype Event = Event(id: EventId, key: Key, status: EventStatus)

  /** How a write ends for its caller and for the database. */
  datatype Outcome = Written | RaisedAfterCommit | RaisedBeforeCommit

  /** Where one delivery is: marked pending, sending, writing its result, writing its event; `send` is the
      number of its send, and a muted delivery has none. */
  datatype Phase =
    | Marked(since: int)
    | Sending(since: int, number: nat)
    | Recording(result: Status, send: Option<nat>)
    | Creating(result: Status, send: Option<nat>)

  /** Starting up, `todo` are the unknown keys still to recover and `inserted` says that the event of
      the first one is in the table. */
  datatype Mode = Down | Recovering(todo: seq<Key>, inserted: bool) | Running

  /** The database, the engine and the deliveries in flight, at most one for a key. The rest is history:
      `marks` are all committed pending marks, `sends` all sends with the mark each was made under, `seen`
      those whose result the process has seen and `told` those whose own event is in the table. */
  datatype System = System(
    rows: map<Key, Row>, events: seq<Event>, engine: Engine, mode: Mode, phases: map<Key, Phase>,
    marks: set<(Key, int)>, sends: seq<(Key, int)>, seen: set<nat>, told: set<nat>, skipped: set<(Key, int)>)

  const START := System(map[], [], BLANK, Down, map[], {}, [], {}, {}, {})

  datatype Action =
    | Load(order: seq<Key>, now: int)
    | RecoverEvent(outcome: Outcome)
    | RecoverRecord(outcome: Outcome, now: int)
    | Serve
    | Crash
    | Prune(olderThan: int)
    | Evaluate(retriesDue: set<Key>, inactive: set<Key>)
    | Mute(key: Key, now: int, cooldown: int)
    | Mark(key: Key, now: int, outcome: Outcome)
    | Send(key: Key)
    | Finish(key: Key, ok: bool, now: int, cooldown: int)
    | Record(key: Key, now: int, outcome: Outcome)
    | Create(key: Key, n: nat, outcome: Outcome)

  predicate Exists(events: seq<Event>, id: EventId) { exists i :: 0 <= i < |events| && events[i].id == id }

  /** INSERT into a table with this primary key. */
  function Inserted(events: seq<Event>, e: Event): seq<Event> { if Exists(events, e.id) then events else events + [e] }

  /** The unknown keys of a restored engine, each once. */
  predicate IsUnknown(rows: map<Key, Row>, order: seq<Key>) {
    && (forall k :: k in order ==> Pending(rows, k).Some?)
    && (forall k :: k in rows && rows[k].pendingSince.Some? ==> k in order)
    && (forall i, j :: 0 <= i < j < |order| ==> order[i] != order[j])
  }

  predicate Enabled(s: System, a: Action) {
    match a
    case Load(order, _) => s.mode.Down? && IsUnknown(s.rows, order)
    case RecoverEvent(_) => s.mode.Recovering? && s.mode.todo != [] && !s.mode.inserted && s.mode.todo[0] in s.engine.lastSent
    case RecoverRecord(_, _) => s.mode.Recovering? && s.mode.todo != [] && s.mode.inserted
    case Serve => s.mode.Recovering? && s.mode.todo == []
    case Crash => !s.mode.Down?
    case Prune(_) => s.mode.Running?
    case Evaluate(_, _) => s.mode.Running?
    case Mute(k, _, _) => s.mode.Running? && k !in s.phases
    case Mark(k, _, _) => s.mode.Running? && k !in s.phases
    case Send(k) => k in s.phases && s.phases[k].Marked?
    case Finish(k, _, _, _) => k in s.phases && s.phases[k].Sending?
    case Record(k, _, _) => k in s.phases && s.phases[k].Recording?
    case Create(k, n, outcome) =>
      // A random identifier that is taken makes the insert fail.
      k in s.phases && s.phases[k].Creating? && (outcome.RaisedBeforeCommit? || !Exists(s.events, Random(n)))
  }

  /** One action; an action that is not enabled cannot happen. */
  function Step(s: System, a: Action): System {
    if !Enabled(s, a) then s
    else
      match a
      case Load(order, now) => s.(engine := Restored(s.rows, now), mode := Recovering(order, false))
      case RecoverEvent(outcome) =>
        var (k, since) := (s.mode.todo[0], s.engine.lastSent[s.mode.todo[0]]);
        var e := Event(Derived(k, since), k, Unknown);
        if outcome.Written? then s.(events := Inserted(s.events, e), mode := Recovering(s.mode.todo, true))
        else if outcome.RaisedAfterCommit? then s.(events := Inserted(s.events, e), mode := Recovering(s.mode.todo[1..], false))
        else
          s.(mode := Recovering(s.mode.todo[1..], false),
             skipped := if Exists(s.events, e.id) then s.skipped else s.skipped + {(k, since)})
      case RecoverRecord(outcome, now) =>
        var k := s.mode.todo[0];
        s.(rows := if outcome.RaisedBeforeCommit? then s.rows else Recorded(s.rows, k, Exported(s.engine, k), now),
           mode := Recovering(s.mode.todo[1..], false))
      case Serve => s.(mode := Running)
      case Crash => s.(engine := BLANK, mode := Down, phases := map[])
      case Prune(olderThan) => s.(rows := Pruned(s.rows, olderThan))
      case Evaluate(due, inactive) =>
        s.(engine := s.engine.(retryAfter := s.engine.retryAfter - due - inactive,
                               retryAttempts := s.engine.retryAttempts - inactive))
      case Mute(k, now, cooldown) =>
        s.(engine := Delivered(s.engine, k, Muted, now, cooldown), phases := s.phases[k := Recording(Muted, None)])
      case Mark(k, now, outcome) =>
        if outcome.RaisedBeforeCommit? then s
        else
          s.(rows := MarkedPending(s.rows, k, now), marks := s.marks + {(k, now)},
             phases := if outcome.Written? then s.phases[k := Marked(now)] else s.phases)
      case Send(k) =>
        var since := s.phases[k].since;
        s.(phases := s.phases[k := Sending(since, |s.sends|)], sends := s.sends + [(k, since)])
      case Finish(k, ok, now, cooldown) =>
        var status := if ok then Sent else Failed;
        s.(engine := Delivered(s.engine, k, status, now, cooldown),
           phases := s.phases[k := Recording(status, Some(s.phases[k].number))], seen := s.seen + {s.phases[k].number})
      case Record(k, now, outcome) =>
        s.(rows := if outcome.RaisedBeforeCommit? then s.rows else Recorded(s.rows, k, Exported(s.engine, k), now),
           phases := s.phases[k := Creating(s.phases[k].result, s.phases[k].send)])
      case Create(k, n, outcome) =>
        s.(events := if outcome.RaisedBeforeCommit? then s.events
                     else Inserted(s.events, Event(Random(n), k, Result(s.phases[k].result))),
           phases := s.phases - {k},
           told := if outcome.RaisedBeforeCommit? || s.phases[k].send.None? then s.told else s.told + {s.phases[k].send.value})
  }

  function Run(actions: seq<Action>): System {
    if actions == [] then START else Step(Run(actions[..|actions| - 1]), actions[|actions| - 1])
  }

  // ---------- the invariant ----------

  /** The number of the send that a delivery has made, if it has. */
  function SendOf(p: Phase): Option<nat> {
    match p
    case Marked(_) => None
    case Sending(_, number) => Some(number)
    case Recording(_, send) => send
    case Creating(_, send) => send
  }

  /** A delivery knows its send, and holds its pending mark until its result is written. */
  ghost predicate PhaseOk(s: System, k: Key, p: Phase) {
    && (SendOf(p).Some? ==> SendOf(p).value < |s.sends| && s.sends[SendOf(p).value].0 == k)
    && (p.Sending? ==> s.sends[p.number].1 == p.since)
    && (p.Marked? || p.Sending? ==> Pending(s.rows, k) == Some(p.since))
    && (p.Recording? && p.send.Some? ==> Pending(s.rows, k) == Some(s.sends[p.send.value].1))
  }

  ghost predicate PhasesPending(s: System) {
    && (s.phases != map[] ==> s.mode.Running?)
    && (forall k :: k in s.phases ==> PhaseOk(s, k, s.phases[k]))
  }

  ghost predicate UniqueIds(events: seq<Event>) {
    forall i, j :: 0 <= i < j < |events| ==> events[i].id != events[j].id
  }

  /** An "unknown" event is about a committed mark and carries its identifier. */
  ghost predicate FromMark(e: Event, marks: set<(Key, int)>) {
    e.status.Unknown? ==> e.id.Derived? && e.id.key == e.key && (e.key, e.id.since) in marks
  }

  /** Pending rows and "unknown" events come from committed marks, and identifiers are unique. */
  ghost predicate MarksBehind(s: System) {
    && (forall k :: Pending(s.rows, k).Some? ==> (k, Pending(s.rows, k).value) in s.marks)
    && (forall i :: 0 <= i < |s.events| ==> FromMark(s.events[i], s.marks))
    && UniqueIds(s.events)
  }

  /** While starting up, the engine holds the send times of the table, and the keys still to recover
      are pending. */
  ghost predicate RecoveryReady(s: System) {
    s.mode.Recovering? ==>
      && s.engine.lastSent == RestoredSent(s.rows)
      && (forall i :: 0 <= i < |s.mode.todo| ==> Pending(s.rows, s.mode.todo[i]).Some?)
      && (forall i, j :: 0 <= i < j < |s.mode.todo| ==> s.mode.todo[i] != s.mode.todo[j])
      && (s.mode.inserted ==>
            s.mode.todo != [] && Exists(s.events, Derived(s.mode.todo[0], Pending(s.rows, s.mode.todo[0]).value)))
  }

  /** The mark of send `n` still waits for its delivery or for recovery. */
  ghost predicate Waits(s: System, n: nat)
    requires n < |s.sends|
  {
    var (k, since) := s.sends[n];
    && Pending(s.rows, k) == Some(since)
    && match s.mode
       case Down => true
       case Recovering(todo, _) => k in todo
       case Running => k in s.phases && s.phases[k] == Sending(since, n)
  }

  ghost predicate Accounted(s: System, n: nat)
    requires n < |s.sends|
  {
    Waits(s, n) || Exists(s.events, Derived(s.sends[n].0, s.sends[n].1)) || s.sends[n] in s.skipped
  }

  ghost predicate NothingForgotten(s: System) {
    forall n: nat :: n < |s.sends| && n !in s.seen ==> Accounted(s, n)
  }

  ghost predicate Inv(s: System) { PhasesPending(s) && MarksBehind(s) && RecoveryReady(s) && NothingForgotten(s) }

  lemma InsertedFacts(events: seq<Event>, e: Event)
    ensures Exists(Inserted(events, e), e.id)
    ensures forall id :: Exists(events, id) ==> Exists(Inserted(events, e), id)
    ensures UniqueIds(events) ==> UniqueIds(Inserted(events, e))
  {
    var after := Inserted(events, e);
    if !Exists(events, e.id) { assert after[|events|] == e; }
    forall id | Exists(events, id) ensures Exists(after, id) {
      var i :| 0 <= i < |events| && events[i].id == id;
      assert after[i].id == id;
    }
  }

  lemma InsertedFromMarks(events: seq<Event>, e: Event, marks: set<(Key, int)>)
    requires FromMark(e, marks) && forall i :: 0 <= i < |events| ==> FromMark(events[i], marks)
    ensures forall i :: 0 <= i < |Inserted(events, e)| ==> FromMark(Inserted(events, e)[i], marks)
  {}

  /** The event a step commits, unless its identifier is taken. */
  function NewEvent(s: System, a: Action): Option<Event>
    requires Enabled(s, a)
  {
    match a
    case RecoverEvent(outcome) =>
      if outcome.RaisedBeforeCommit? then None
      else Some(Event(Derived(s.mode.todo[0], s.engine.lastSent[s.mode.todo[0]]), s.mode.todo[0], Unknown))
    case Create(k, n, outcome) =>
      if outcome.RaisedBeforeCommit? then None else Some(Event(Random(n), k, Result(s.phases[k].result)))
    case _ => None
  }

  /** What a step does to the pending mark of each key and to the events. */
  lemma StepWrites(s: System, a: Action, k: Key)
    ensures Pending(Step(s, a).rows, k) ==
              if !Enabled(s, a) then Pending(s.rows, k)
              else
                match a
                case RecoverRecord(outcome, _) =>
                  if k == s.mode.todo[0] && !outcome.RaisedBeforeCommit? then None else Pending(s.rows, k)
                case Mark(key, now, outcome) =>
                  if k == key && !outcome.RaisedBeforeCommit? then Some(now) else Pending(s.rows, k)
                case Record(key, _, outcome) =>
                  if k == key && !outcome.RaisedBeforeCommit? then None else Pending(s.rows, k)
                case _ => Pending(s.rows, k)
    ensures Step(s, a).events ==
              if !Enabled(s, a) || NewEvent(s, a).None? then s.events else Inserted(s.events, NewEvent(s, a).value)
  {
    hide Delivered, Restored, Inserted, Exported;
  }

  lemma EventsStay(s: System, a: Action)
    ensures forall id :: Exists(s.events, id) ==> Exists(Step(s, a).events, id)
    ensures UniqueIds(s.events) ==> UniqueIds(Step(s, a).events)
    ensures Enabled(s, a) && NewEvent(s, a).Some? ==> Exists(Step(s, a).events, NewEvent(s, a).value.id)
  {
    hide Exists, UniqueIds, Step, NewEvent, Inserted;
    StepWrites(s, a, "");
    if Enabled(s, a) && NewEvent(s, a).Some? { InsertedFacts(s.events, NewEvent(s, a).value); }
  }

  /** The history only grows. */
  lemma HistoryGrows(s: System, a: Action)
    ensures s.sends <= Step(s, a).sends && s.seen <= Step(s, a).seen && s.told <= Step(s, a).told
    ensures |Step(s, a).sends| == |s.sends| + if a.Send? && Enabled(s, a) then 1 else 0
    ensures a.Send? && Enabled(s, a) ==> Step(s, a).sends[|s.sends|] == (a.key, s.phases[a.key].since)
  {
    hide Inserted, Exists, Delivered, Restored, Exported, Recorded, MarkedPending, Pruned;
  }

  /** Which phase a step leaves a key in. */
  lemma PhaseAfter(s: System, a: Action, k: Key)
    requires PhasesPending(s) && k in Step(s, a).phases
    ensures PhaseOk(Step(s, a), k, Step(s, a).phases[k])
  {
    HistoryGrows(s, a);
    StepWrites(s, a, k);
    hide Pending, Inserted, Exists, Delivered, Restored, Exported, Recorded, MarkedPending, Pruned;
    if k in s.phases { assert PhaseOk(s, k, s.phases[k]); }
  }

  lemma PhasesKept(s: System, a: Action)
    requires PhasesPending(s)
    ensures PhasesPending(Step(s, a))
  {
    forall k | k in Step(s, a).phases ensures PhaseOk(Step(s, a), k, Step(s, a).phases[k]) { PhaseAfter(s, a, k); }
    hide Pending, Inserted, Exists, Delivered, Restored, Exported, Recorded, MarkedPending, Pruned, PhaseOk;
  }

  lemma MarksGrow(s: System, a: Action)
    ensures s.marks <= Step(s, a).marks
    ensures a.Mark? && Enabled(s, a) && !a.outcome.RaisedBeforeCommit? ==> (a.key, a.now) in Step(s, a).marks
  {
    hide Inserted, Exists, Delivered, Restored, Exported, Recorded, MarkedPending, Pruned;
  }

  lemma MarksKept(s: System, a: Action)
    requires MarksBehind(s) && RecoveryReady(s)
    ensures MarksBehind(Step(s, a))
  {
    MarksGrow(s, a);
    EventsStay(s, a);
    hide Pending, Inserted, Exists, Step;
    StepWrites(s, a, "");
    forall k | Pending(Step(s, a).rows, k).Some? ensures (k, Pending(Step(s, a).rows, k).value) in Step(s, a).marks {
      StepWrites(s, a, k);
    }
    if Enabled(s, a) && NewEvent(s, a).Some? {
      if a.RecoverEvent? { FirstIsPending(s); }
      InsertedFromMarks(s.events, NewEvent(s, a).value, s.marks);
    }
  }

  /** The key to recover next is pending since its restored send time. */
  lemma FirstIsPending(s: System)
    requires RecoveryReady(s) && s.mode.Recovering? && s.mode.todo != []
    ensures s.mode.todo[0] in s.engine.lastSent && Pending(s.rows, s.mode.todo[0]) == Some(s.engine.lastSent[s.mode.todo[0]])
  {
    assert Pending(s.rows, s.mode.todo[0]).Some?;
  }

  /** Recovering a key keeps the send times that a restart would find. */
  lemma RecoverKeepsSent(rows: map<Key, Row>, e: Engine, k: Key, now: int)
    requires e.lastSent == RestoredSent(rows)
    ensures RestoredSent(Recorded(rows, k, Exported(e, k), now)) == e.lastSent
  {
    var after := Recorded(rows, k, Exported(e, k), now);
    forall x ensures x in RestoredSent(after) <==> x in e.lastSent {}
    forall x | x in e.lastSent ensures RestoredSent(after)[x] == e.lastSent[x] {}
  }

  /** While starting up, only recovery itself writes. */
  lemma OnlyRecoveryWrites(s: System, a: Action)
    requires PhasesPending(s) && s.mode.Recovering? && Enabled(s, a)
    ensures a.RecoverEvent? || a.RecoverRecord? || a.Serve? || a.Crash?
  {
    hide Pending;
  }

  lemma RecoveryStepKept(s: System, a: Action)
    requires PhasesPending(s) && RecoveryReady(s) && s.mode.Recovering? && Enabled(s, a)
    ensures RecoveryReady(Step(s, a))
  {
    OnlyRecoveryWrites(s, a);
    EventsStay(s, a);
    hide Pending, Inserted, Exists, Exported, Recorded, RestoredSent, PhasesPending;
    if Step(s, a).mode.Recovering? {
      FirstIsPending(s);
      if a.RecoverRecord? { RecoverKeepsSent(s.rows, s.engine, s.mode.todo[0], a.now); }
      forall i | 0 <= i < |Step(s, a).mode.todo| ensures Pending(Step(s, a).rows, Step(s, a).mode.todo[i]).Some? {
        StepWrites(s, a, Step(s, a).mode.todo[i]);
      }
      if Step(s, a).mode.todo != [] { StepWrites(s, a, Step(s, a).mode.todo[0]); }
    }
  }

  lemma LoadIsReady(s: System, a: Action)
    requires a.Load? && Enabled(s, a)
    ensures RecoveryReady(Step(s, a))
  {
    hide Pending, RestoredSent, RestoredRetry, RestoredAttempts;
    forall i | 0 <= i < |a.order| ensures Pending(s.rows, a.order[i]).Some? { assert a.order[i] in a.order; }
  }

  lemma RecoveryKept(s: System, a: Action)
    requires PhasesPending(s) && RecoveryReady(s)
    ensures RecoveryReady(Step(s, a))
  {
    if Enabled(s, a) {
      if s.mode.Recovering? { RecoveryStepKept(s, a); }
      else if a.Load? { LoadIsReady(s, a); }
    }
  }

  // ---------- no send is forgotten ----------

  lemma SkippedStays(s: System, a: Action)
    ensures s.skipped <= Step(s, a).skipped
    ensures a.RecoverEvent? && Enabled(s, a) && a.outcome.RaisedBeforeCommit? ==>
              var (k, since) := (s.mode.todo[0], s.engine.lastSent[s.mode.todo[0]]);
              Exists(s.events, Derived(k, since)) || (k, since) in Step(s, a).skipped
  {
    hide Inserted, Exists, Delivered, Restored, Exported, Recorded, MarkedPending, Pruned;
  }

  lemma LoadFinds(rows: map<Key, Row>, order: seq<Key>, k: Key)
    requires IsUnknown(rows, order) && Pending(rows, k).Some?
    ensures k in order
  {}

  /** A mark that waits goes on waiting until its send is finished, its event is written or its recovery
      is skipped. */
  lemma WaitsOn(s: System, a: Action, n: nat)
    requires PhasesPending(s) && RecoveryReady(s) && n < |s.sends| && Waits(s, n)
    ensures n < |Step(s, a).sends| && (n !in Step(s, a).seen ==> Accounted(Step(s, a), n))
  {
    var (k, since) := s.sends[n];
    StepWrites(s, a, k);
    EventsStay(s, a);
    SkippedStays(s, a);
    HistoryGrows(s, a);
    hide Pending, Inserted, Exists, Delivered, Restored, Exported, Recorded, MarkedPending, Pruned;
    if Enabled(s, a) && a.Load? {
      LoadFinds(s.rows, a.order, k);
    } else if Enabled(s, a) && s.mode.Recovering? {
      OnlyRecoveryWrites(s, a);
      FirstIsPending(s);
      assert k == s.mode.todo[0] || k in s.mode.todo[1..];
    }
  }

  lemma ForgottenKept(s: System, a: Action)
    requires Inv(s)
    ensures NothingForgotten(Step(s, a))
  {
    EventsStay(s, a);
    SkippedStays(s, a);
    HistoryGrows(s, a);
    hide Waits, Exists, Pending, Inserted, Step;
    forall n: nat | n < |Step(s, a).sends| && n !in Step(s, a).seen ensures Accounted(Step(s, a), n) {
      if n < |s.sends| {
        if Waits(s, n) { WaitsOn(s, a, n); }
      } else {
        OpenedBySend(s, a);
      }
    }
  }

  lemma OpenedBySend(s: System, a: Action)
    requires PhasesPending(s) && a.Send? && Enabled(s, a)
    ensures |Step(s, a).sends| == |s.sends| + 1 && Waits(Step(s, a), |s.sends|)
  {
    StepWrites(s, a, a.key);
    hide Pending, Inserted, Exists, Delivered, Restored, Exported, Recorded, MarkedPending, Pruned;
  }

  lemma StepKeeps(s: System, a: Action)
    requires Inv(s)
    ensures Inv(Step(s, a))
  {
    hide PhasesPending, MarksBehind, RecoveryReady, NothingForgotten, Step;
    PhasesKept(s, a);
    MarksKept(s, a);
    RecoveryKept(s, a);
    ForgottenKept(s, a);
  }

  lemma {:induction false} RunKeeps(actions: seq<Action>)
    ensures Inv(Run(actions))
  {
    hide Step;
    if actions != [] {
      hide Inv;
      RunKeeps(actions[..|actions| - 1]);
      StepKeeps(Run(actions[..|actions| - 1]), actions[|actions| - 1]);
    }
  }

  // ---------- main results: every run, with crashes and failed writes anywhere ----------

  /** Every send happens while the committed row of its key is pending since the mark of this delivery. */
  lemma SendsArePending(actions: seq<Action>, k: Key)
    requires Enabled(Run(actions), Send(k))
    ensures var s := Run(actions);
            && Pending(s.rows, k) == Some(s.phases[k].since) && (k, s.phases[k].since) in s.marks
            && Pending(Step(s, Send(k)).rows, k) == Some(s.phases[k].since)
  {
    RunKeeps(actions);
    hide Run;
  }

  /** A send whose result was never seen still holds its pending mark, waiting for delivery or for a
      restart, or has its "unknown" event, or recovery failed to write that event. While serving, only
      sends in flight still wait. */
  lemma UnseenSendIsAccounted(actions: seq<Action>, n: nat)
    requires n < |Run(actions).sends| && n !in Run(actions).seen
    ensures Accounted(Run(actions), n)
  {
    RunKeeps(actions);
    hide Run;
  }

  /** However often recovery crashes, a mark gets at most one "unknown" event, and only a committed mark
      gets one. */
  lemma OneUnknownEvent(actions: seq<Action>, i: nat, j: nat)
    requires i < |Run(actions).events| && j < |Run(actions).events|
    requires Run(actions).events[i].status.Unknown? && Run(actions).events[j].status.Unknown?
    ensures var (e, f) := (Run(actions).events[i], Run(actions).events[j]);
            && e.id.Derived? && f.id.Derived? && (e.key, e.id.since) in Run(actions).marks
            && (e.key == f.key && e.id.since == f.id.since ==> i == j)
  {
    RunKeeps(actions);
    hide Run;
    assert FromMark(Run(actions).events[i], Run(actions).marks) && FromMark(Run(actions).events[j], Run(actions).marks);
  }

  /** Recovery clears a pending mark only when its event is in the table. */
  lemma ClearedAfterEvent(actions: seq<Action>, a: Action, k: Key)
    requires Run(actions).mode.Recovering? && Pending(Run(actions).rows, k).Some?
    requires Pending(Step(Run(actions), a).rows, k) != Pending(Run(actions).rows, k)
    ensures Exists(Run(actions).events, Derived(k, Pending(Run(actions).rows, k).value))
    ensures Pending(Step(Run(actions), a).rows, k).None?
  {
    RunKeeps(actions);
    var s := Run(actions);
    StepWrites(s, a, k);
    hide Run, Pending, Step, Exists;
    OnlyRecoveryWrites(s, a);
  }

  /** A crash during recovery loses no cooldown: the next start restores the same send times. */
  lemma RestartKeepsCooldowns(actions: seq<Action>, order: seq<Key>, now: int)
    requires Run(actions).mode.Recovering? && IsUnknown(Run(actions).rows, order)
    ensures Run(actions + [Crash, Load(order, now)]).engine.lastSent == Run(actions).engine.lastSent
  {
    RunKeeps(actions);
    var all := actions + [Crash, Load(order, now)];
    assert all[..|all| - 1] == actions + [Crash] && (actions + [Crash])[..|actions|] == actions;
    hide Pending, RestoredSent, RestoredRetry, RestoredAttempts;
  }

  /** Recovery of all remaining keys when every write succeeds. */
  function RecoverAll(s: System, now: int): System
    requires s.mode.Recovering? && !s.mode.inserted
    decreases if s.mode.Recovering? then |s.mode.todo| else 0
  {
    if s.mode.todo == [] || s.mode.todo[0] !in s.engine.lastSent then s
    else RecoverAll(Step(Step(s, RecoverEvent(Written)), RecoverRecord(Written, now)), now)
  }

  lemma RecoverOne(s: System, now: int)
    requires Inv(s) && s.mode.Recovering? && !s.mode.inserted && s.mode.todo != []
    ensures s.mode.todo[0] in s.engine.lastSent
    ensures var after := Step(Step(s, RecoverEvent(Written)), RecoverRecord(Written, now));
            var k := s.mode.todo[0];
            && after.mode == Recovering(s.mode.todo[1..], false)
            && Pending(after.rows, k).None? && Exists(after.events, Derived(k, s.engine.lastSent[k]))
            && Pending(s.rows, k) == Some(s.engine.lastSent[k])
            && (forall x :: x != k ==> Pending(after.rows, x) == Pending(s.rows, x))
            && (forall id :: Exists(s.events, id) ==> Exists(after.events, id))
  {
    FirstIsPending(s);
    var middle := Step(s, RecoverEvent(Written));
    EventsStay(s, RecoverEvent(Written));
    EventsStay(middle, RecoverRecord(Written, now));
    hide Exists, Inserted, Inv, Pending;
    forall x ensures Pending(middle.rows, x) == Pending(s.rows, x) { StepWrites(s, RecoverEvent(Written), x); }
    forall x ensures Pending(Step(middle, RecoverRecord(Written, now)).rows, x)
                       == if x == s.mode.todo[0] then None else Pending(middle.rows, x) {
      StepWrites(middle, RecoverRecord(Written, now), x);
    }
  }

  /** Then no key it had to recover is pending any more, each has its event, and every other key keeps
      its mark. */
  lemma {:induction false} CleanRecovery(s: System, now: int)
    requires Inv(s) && s.mode.Recovering? && !s.mode.inserted
    ensures var after := RecoverAll(s, now);
            && after.mode == Recovering([], false)
            && (forall k :: k in s.mode.todo ==>
                  Pending(s.rows, k).Some? && Pending(after.rows, k).None?
                  && Exists(after.events, Derived(k, Pending(s.rows, k).value)))
            && (forall k :: k !in s.mode.todo ==> Pending(after.rows, k) == Pending(s.rows, k))
            && (forall id :: Exists(s.events, id) ==> Exists(after.events, id))
    decreases |s.mode.todo|
  {
    if s.mode.todo != [] {
      RecoverOne(s, now);
      var next := Step(Step(s, RecoverEvent(Written)), RecoverRecord(Written, now));
      StepKeeps(s, RecoverEvent(Written));
      StepKeeps(Step(s, RecoverEvent(Written)), RecoverRecord(Written, now));
      hide Inv, Step, Exists, Pending;
      CleanRecovery(next, now);
      var k := s.mode.todo[0];
      FirstOnce(s);
      assert forall x :: x in s.mode.todo <==> x == k || x in s.mode.todo[1..];
    }
  }

  lemma FirstOnce(s: System)
    requires Inv(s) && s.mode.Recovering? && s.mode.todo != []
    ensures s.mode.todo[0] !in s.mode.todo[1..] && Pending(s.rows, s.mode.todo[0]).Some?
  {
    hide PhasesPending, MarksBehind, NothingForgotten, Exists;
  }

  /** A start after any run, all of whose writes succeed, leaves no mark pending, and every mark it found
      has its "unknown" event. */
  lemma CleanStart(actions: seq<Action>, order: seq<Key>, now: int, k: Key)
    requires Enabled(Run(actions), Load(order, now))
    ensures var (s, after) := (Run(actions), RecoverAll(Step(Run(actions), Load(order, now)), now));
            && Pending(after.rows, k).None?
            && (Pending(s.rows, k).Some? ==> Exists(after.events, Derived(k, Pending(s.rows, k).value)))
  {
    var s := Run(actions);
    RunKeeps(actions);
    StepKeeps(s, Load(order, now));
    StepWrites(s, Load(order, now), k);
    hide Run, Inv, Exists, RecoverAll, Pending, Restored;
    CleanRecovery(Step(s, Load(order, now)), now);
    if Pending(s.rows, k).Some? { LoadFinds(s.rows, order, k); }
  }
}
