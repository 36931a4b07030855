/**
 When a send loses its last trace: no event, no pending mark and no delivery in flight. The steps that
 lose one are named exactly, and a run without failing event writes and badly timed crashes loses none.
 */
module AlertTraces {
  import opened Wrappers
  import opened AlertStore
  import opened AlertDelivery

  /** Its own event, or an "unknown" event for its mark, is in the table. */
  ghost predicate HasEvent(s: System, n: nat)
    requires n < |s.sends|
  {
    n in s.told || Exists(s.events, Derived(s.sends[n].0, s.sends[n].1))
  }

  predicate HasMark(s: System, n: nat)
    requires n < |s.sends|
  {
    Pending(s.rows, s.sends[n].0) == Some(s.sends[n].1)
  }

  /** The delivery of the key is the one that made this send. */
  predicate InFlight(s: System, n: nat)
    requires n < |s.sends|
  {
    s.sends[n].0 in s.phases && SendOf(s.phases[s.sends[n].0]) == Some(n)
  }

  ghost predicate Trace(s: System, n: nat)
    requires n < |s.sends|
  {
    HasEvent(s, n) || HasMark(s, n) || InFlight(s, n)
  }

  /** The step removes a delivery without its event: its event write fails before the commit, or the
      process crashes. */
  predicate Abandons(s: System, a: Action, n: nat)
    requires n < |s.sends|
  {
    Enabled(s, a) && InFlight(s, n) && (a.Crash? || (a.Create? && a.key == s.sends[n].0 && a.outcome.RaisedBeforeCommit?))
  }

  /** The step overwrites or clears the mark of this send for a later delivery of its key. */
  predicate Overwrites(s: System, a: Action, n: nat)
    requires n < |s.sends|
  {
    && Enabled(s, a) && !InFlight(s, n)
    && ((a.Mark? && a.key == s.sends[n].0 && !a.outcome.RaisedBeforeCommit? && a.now != s.sends[n].1)
        || (a.Record? && a.key == s.sends[n].0 && !a.outcome.RaisedBeforeCommit?))
  }

  /** A send without an event loses its last trace: its delivery is abandoned when the mark is already
      gone, or its mark is overwritten when the delivery is already over. */
  ghost predicate Loses(s: System, a: Action, n: nat) {
    && n < |s.sends| && !HasEvent(s, n)
    && ((!HasMark(s, n) && Abandons(s, a, n)) || (HasMark(s, n) && Overwrites(s, a, n)))
  }

  /** A later delivery of the key is marked at the very same time, so its mark stands for both. */
  predicate Remarks(s: System, a: Action, n: nat) {
    n < |s.sends| && Enabled(s, a) && a.Mark? && !a.outcome.RaisedBeforeCommit? && (a.key, a.now) == s.sends[n]
  }

  /** The last thing that happened to the trace of send `n` is that it was lost. */
  ghost predicate Lost(actions: seq<Action>, n: nat) {
    actions != [] && (
      var (s, a) := (Run(actions[..|actions| - 1]), actions[|actions| - 1]);
      Loses(s, a, n) || (Lost(actions[..|actions| - 1], n) && !Remarks(s, a, n)))
  }

  // ---------- one step ----------

  lemma EventAfter(s: System, a: Action, n: nat)
    requires Inv(s) && n < |s.sends|
    ensures n < |Step(s, a).sends| && Step(s, a).sends[n] == s.sends[n]
    ensures HasEvent(s, n) ==> HasEvent(Step(s, a), n)
    ensures HasEvent(Step(s, a), n) && !HasEvent(s, n) ==> (HasMark(s, n) && a.RecoverEvent?) || (InFlight(s, n) && a.Create?)
  {
    HistoryGrows(s, a);
    EventsStay(s, a);
    StepWrites(s, a, s.sends[n].0);
    hide Pending, Inserted, Delivered, Restored, Exported, Recorded, MarkedPending, Pruned, MarksBehind, NothingForgotten;
    if Enabled(s, a) && a.RecoverEvent? { FirstIsPending(s); }
    if Enabled(s, a) && a.Create? { assert PhaseOk(s, a.key, s.phases[a.key]); }
  }

  /** A delivery stays in flight until its last write or a crash. */
  lemma FlightAfter(s: System, a: Action, n: nat)
    requires PhasesPending(s) && n < |s.sends|
    ensures n < |Step(s, a).sends| && Step(s, a).sends[n] == s.sends[n]
    ensures InFlight(Step(s, a), n) <==>
              InFlight(s, n) && !(Enabled(s, a) && (a.Crash? || (a.Create? && a.key == s.sends[n].0)))
  {
    HistoryGrows(s, a);
    hide Pending, Inserted, Exists, Delivered, Restored, Exported, Recorded, MarkedPending, Pruned;
    if s.sends[n].0 in s.phases { assert PhaseOk(s, s.sends[n].0, s.phases[s.sends[n].0]); }
  }

  /** Recovery clears a mark when its event is in the table. */
  lemma RecoveredHasEvent(s: System, a: Action, n: nat)
    requires RecoveryReady(s) && Enabled(s, a) && a.RecoverRecord? && n < |s.sends|
    requires HasMark(s, n) && s.mode.todo[0] == s.sends[n].0
    ensures HasEvent(s, n)
  {}

  /** A mark goes when a later delivery overwrites it, when its own result is written, or when its event is
      in the table; it comes when a delivery is marked at the very same time. */
  lemma MarkAfter(s: System, a: Action, n: nat)
    requires Inv(s) && n < |s.sends|
    ensures n < |Step(s, a).sends| && Step(s, a).sends[n] == s.sends[n]
    ensures HasMark(s, n) && !HasMark(Step(s, a), n) ==>
              HasEvent(s, n) || Overwrites(s, a, n) || (InFlight(s, n) && a.Record?)
    ensures HasMark(s, n) && Overwrites(s, a, n) ==> !HasMark(Step(s, a), n)
    ensures !HasMark(s, n) ==> (HasMark(Step(s, a), n) <==> Remarks(s, a, n))
  {
    HistoryGrows(s, a);
    StepWrites(s, a, s.sends[n].0);
    hide Pending, Step, PhasesPending, MarksBehind, NothingForgotten, RecoveryReady, HasEvent, InFlight;
    if Enabled(s, a) && a.RecoverRecord? && HasMark(s, n) && s.mode.todo[0] == s.sends[n].0 { RecoveredHasEvent(s, a, n); }
    if Enabled(s, a) && a.Mark? && a.key == s.sends[n].0 { MarkIsAlone(s, a, n); }
  }

  lemma MarkIsAlone(s: System, a: Action, n: nat)
    requires Enabled(s, a) && a.Mark? && n < |s.sends| && a.key == s.sends[n].0
    ensures !InFlight(s, n)
  {}

  /** A delivery that is writing its event with its own write not failing leaves that event. */
  lemma CreateTells(s: System, a: Action, n: nat)
    requires PhasesPending(s) && n < |s.sends| && Enabled(s, a) && a.Create? && InFlight(s, n) && a.key == s.sends[n].0
    ensures n < |Step(s, a).sends| && (HasEvent(Step(s, a), n) <==> HasEvent(s, n) || !a.outcome.RaisedBeforeCommit?)
  {
    HistoryGrows(s, a);
    StepWrites(s, a, "");
    var e := NewEvent(s, a);
    if e.Some? { InsertedFacts(s.events, e.value); }
    hide Pending, Delivered, Restored, Exported, Recorded, MarkedPending, Pruned;
  }

  /** A step that keeps both mark and delivery out of play keeps the trace exactly when it is no loss. */
  lemma StepTrace(s: System, a: Action, n: nat)
    requires Inv(s) && n < |s.sends|
    ensures n < |Step(s, a).sends| && Step(s, a).sends[n] == s.sends[n]
    ensures Trace(s, n) ==> (Trace(Step(s, a), n) <==> !Loses(s, a, n))
    ensures !Trace(s, n) ==> (Trace(Step(s, a), n) <==> Remarks(s, a, n))
  {
    EventAfter(s, a, n);
    FlightAfter(s, a, n);
    MarkAfter(s, a, n);
    if Enabled(s, a) && a.Create? && InFlight(s, n) && a.key == s.sends[n].0 { CreateTells(s, a, n); }
    if Enabled(s, a) && a.RecoverEvent? { RecoveringIsAlone(s, n); }
    StepWrites(s, a, s.sends[n].0);
    hide HasEvent, InFlight, Step, Inv, Pending, Exists;
  }

  /** While starting up no delivery is in flight. */
  lemma RecoveringIsAlone(s: System, n: nat)
    requires PhasesPending(s) && n < |s.sends| && s.mode.Recovering?
    ensures !InFlight(s, n)
  {}

  // ---------- every run ----------

  lemma {:induction false} LostWasSent(actions: seq<Action>, n: nat)
    requires n >= |Run(actions).sends|
    ensures !Lost(actions, n)
  {
    if actions != [] {
      hide Step, Loses, Remarks;
      var (before, a) := (Run(actions[..|actions| - 1]), actions[|actions| - 1]);
      HistoryGrows(before, a);
      LostWasSent(actions[..|actions| - 1], n);
      NotSentNotLost(before, a, n);
    }
  }

  lemma NotSentNotLost(s: System, a: Action, n: nat)
    requires n >= |s.sends|
    ensures !Loses(s, a, n) && !Remarks(s, a, n)
  {}

  lemma SendIsInFlight(s: System, a: Action)
    requires a.Send? && Enabled(s, a)
    ensures |Step(s, a).sends| == |s.sends| + 1 && Trace(Step(s, a), |s.sends|)
  {
    hide Exists;
  }

  /** In every run, with crashes and failed writes anywhere, a send has an event, its pending mark or its
      delivery in flight exactly until a step loses it: its delivery is abandoned, by a crash or a failing
      event write, after its mark is gone, or its mark is overwritten after its delivery is over. */
  lemma {:induction false} NoSendIsForgotten(actions: seq<Action>, n: nat)
    requires n < |Run(actions).sends|
    ensures Trace(Run(actions), n) <==> !Lost(actions, n)
  {
    if actions != [] {
      hide Step, Loses, Remarks, Trace, Inv;
      var (init, a) := (actions[..|actions| - 1], actions[|actions| - 1]);
      RunKeeps(init);
      HistoryGrows(Run(init), a);
      if n < |Run(init).sends| {
        NoSendIsForgotten(init, n);
        StepTrace(Run(init), a, n);
        assert Loses(Run(init), a, n) ==> Trace(Run(init), n) by { LossNeedsTrace(Run(init), a, n); }
        assert Remarks(Run(init), a, n) ==> !Loses(Run(init), a, n) by { RemarkLosesNothing(Run(init), a, n); }
      } else {
        NotSentNotLost(Run(init), a, n);
        LostWasSent(init, n);
        SendIsInFlight(Run(init), a);
      }
    }
  }

  lemma LossNeedsTrace(s: System, a: Action, n: nat)
    ensures Loses(s, a, n) ==> Trace(s, n)
  {
    hide HasEvent, HasMark, InFlight;
  }

  lemma RemarkLosesNothing(s: System, a: Action, n: nat)
    ensures Remarks(s, a, n) ==> !Loses(s, a, n)
  {
    hide HasEvent, HasMark;
  }

  /** Recovery failed to write its event before the commit. */
  predicate FailsToRecover(a: Action) { a.RecoverEvent? && a.outcome.RaisedBeforeCommit? }

  lemma {:induction false} NothingSkipped(actions: seq<Action>)
    requires forall i :: 0 <= i < |actions| ==> !FailsToRecover(actions[i])
    ensures Run(actions).skipped == {}
  {
    if actions != [] {
      NothingSkipped(actions[..|actions| - 1]);
      assert !FailsToRecover(actions[|actions| - 1]);
      hide Inserted, Exists, Delivered, Restored, Exported, Recorded, MarkedPending, Pruned, Run;
      assert Run(actions) == Step(Run(actions[..|actions| - 1]), actions[|actions| - 1]) by { RunUnfolds(actions); }
    }
  }

  lemma RunUnfolds(actions: seq<Action>)
    requires actions != []
    ensures Run(actions) == Step(Run(actions[..|actions| - 1]), actions[|actions| - 1])
  {}

  /** Unless recovery fails to write an event, a send whose result was never seen has its "unknown" event,
      or its mark waits: for its delivery while serving, for recovery while starting up. */
  lemma UnseenSendWaits(actions: seq<Action>, n: nat)
    requires forall i :: 0 <= i < |actions| ==> !FailsToRecover(actions[i])
    requires n < |Run(actions).sends| && n !in Run(actions).seen
    ensures Waits(Run(actions), n) || Exists(Run(actions).events, Derived(Run(actions).sends[n].0, Run(actions).sends[n].1))
  {
    UnseenSendIsAccounted(actions, n);
    NothingSkipped(actions);
    hide Run;
  }

  // ---------- runs that lose nothing ----------

  /** No event write fails before its commit, and no crash falls between a delivery's last two writes. */
  ghost predicate Harmless(s: System, a: Action) {
    && !FailsToRecover(a)
    && !(a.Create? && a.outcome.RaisedBeforeCommit?)
    && (a.Crash? ==> forall k :: k in s.phases ==> !s.phases[k].Creating?)
  }

  ghost predicate AllHarmless(actions: seq<Action>) {
    actions == [] || (AllHarmless(actions[..|actions| - 1]) && Harmless(Run(actions[..|actions| - 1]), actions[|actions| - 1]))
  }

  /** A mark without an event is looked after: by its delivery while serving, by recovery while starting up. */
  ghost predicate Tended(s: System, n: nat)
    requires n < |s.sends|
  {
    HasMark(s, n) && !HasEvent(s, n) ==>
      match s.mode
      case Down => true
      case Recovering(todo, _) => s.sends[n].0 in todo
      case Running => InFlight(s, n)
  }

  ghost predicate AllTended(s: System) { forall n: nat :: n < |s.sends| ==> Trace(s, n) && Tended(s, n) }

  /** Until it writes its event a delivery holds its mark. */
  lemma HoldsMark(s: System, n: nat)
    requires PhasesPending(s) && n < |s.sends| && InFlight(s, n) && !s.phases[s.sends[n].0].Creating?
    ensures HasMark(s, n)
  {
    hide Pending;
    assert PhaseOk(s, s.sends[n].0, s.phases[s.sends[n].0]);
  }

  lemma HarmlessLosesNothing(s: System, a: Action, n: nat)
    requires Inv(s) && Harmless(s, a) && n < |s.sends| && Tended(s, n)
    ensures !Loses(s, a, n)
  {
    if n < |s.sends| && InFlight(s, n) && !s.phases[s.sends[n].0].Creating? { HoldsMark(s, n); }
    hide HasEvent, HasMark, MarksBehind, RecoveryReady, NothingForgotten;
  }

  /** Recovery of the first key ends with its event in the table, unless the write fails. */
  lemma RecoveryTends(s: System, a: Action, n: nat)
    requires Inv(s) && Enabled(s, a) && (a.RecoverEvent? || a.RecoverRecord?) && !FailsToRecover(a)
    requires n < |s.sends| && HasMark(s, n) && s.mode.todo[0] == s.sends[n].0
    ensures n < |Step(s, a).sends| && Step(s, a).sends[n] == s.sends[n] && HasEvent(Step(s, a), n)
  {
    FirstIsPending(s);
    EventsStay(s, a);
    HistoryGrows(s, a);
    EventAfter(s, a, n);
    hide Inserted, Exists, Exported, Recorded, Step, PhasesPending, MarksBehind, NothingForgotten;
    if a.RecoverRecord? { RecoveredHasEvent(s, a, n); }
  }

  lemma HarmlessTends(s: System, a: Action, n: nat)
    requires Inv(s) && Harmless(s, a) && n < |s.sends| && Trace(s, n) && Tended(s, n)
    ensures n < |Step(s, a).sends| && Tended(Step(s, a), n)
  {
    EventAfter(s, a, n);
    FlightAfter(s, a, n);
    MarkAfter(s, a, n);
    if Enabled(s, a) && a.Create? && InFlight(s, n) && a.key == s.sends[n].0 { CreateTells(s, a, n); }
    if Enabled(s, a) && a.Load? && HasMark(s, n) { LoadFinds(s.rows, a.order, s.sends[n].0); }
    if Enabled(s, a) && s.mode.Recovering? {
      OnlyRecoveryWrites(s, a);
      if (a.RecoverEvent? || a.RecoverRecord?) && s.sends[n].0 in s.mode.todo && HasMark(s, n) {
        assert s.sends[n].0 == s.mode.todo[0] || s.sends[n].0 in s.mode.todo[1..];
        if s.mode.todo[0] == s.sends[n].0 { RecoveryTends(s, a, n); }
      }
    }
    ModeAfter(s, a);
    hide HasEvent, HasMark, InFlight, Step, Inv, Exists;
  }

  /** How a step changes the mode. */
  lemma ModeAfter(s: System, a: Action)
    requires PhasesPending(s)
    ensures Step(s, a).mode ==
              if !Enabled(s, a) then s.mode
              else
                match a
                case Load(order, _) => Recovering(order, false)
                case RecoverEvent(outcome) =>
                  if outcome.Written? then Recovering(s.mode.todo, true) else Recovering(s.mode.todo[1..], false)
                case RecoverRecord(_, _) => Recovering(s.mode.todo[1..], false)
                case Serve => Running
                case Crash => Down
                case _ => s.mode
  {
    hide Inserted, Exists, Delivered, Restored, Exported, Recorded, MarkedPending, Pruned;
  }

  lemma {:induction false} HarmlessRunTends(actions: seq<Action>)
    requires AllHarmless(actions)
    ensures AllTended(Run(actions))
  {
    if actions != [] {
      var (init, a) := (actions[..|actions| - 1], actions[|actions| - 1]);
      HarmlessRunTends(init);
      RunKeeps(init);
      var s := Run(init);
      HistoryGrows(s, a);
      hide Step, Inv, Trace, Tended, Harmless, Loses, Run;
      RunUnfolds(actions);
      forall n: nat | n < |Step(s, a).sends| ensures Trace(Step(s, a), n) && Tended(Step(s, a), n) {
        if n < |s.sends| {
          HarmlessLosesNothing(s, a, n);
          HarmlessTends(s, a, n);
          StepTrace(s, a, n);
        } else {
          SendIsInFlight(s, a);
          NewSendTended(s, a);
        }
      }
    }
  }

  lemma NewSendTended(s: System, a: Action)
    requires Inv(s) && a.Send? && Enabled(s, a)
    ensures |Step(s, a).sends| == |s.sends| + 1 && Tended(Step(s, a), |s.sends|)
  {
    hide Exists, Pending, MarksBehind, RecoveryReady, NothingForgotten;
  }

  /** If no event write fails before its commit and no crash falls between a delivery's last two writes,
      every send keeps a trace, whatever else fails or crashes. */
  lemma HarmlessRunsLoseNothing(actions: seq<Action>, n: nat)
    requires AllHarmless(actions) && n < |Run(actions).sends|
    ensures Trace(Run(actions), n) && !Lost(actions, n)
  {
    HarmlessRunTends(actions);
    NoSendIsForgotten(actions, n);
    hide Run, Lost, Trace, Tended;
  }

  // ---------- one run for each way of losing a send ----------

  /** A send under the mark 5. */
  function SentOnce(): seq<Action> { Served() + [Mark("a", 5, Written)] + [Send("a")] }

  function Served(): seq<Action> { [] + [Load([], 0)] + [Serve] }

  lemma Extend(actions: seq<Action>, a: Action)
    ensures Run(actions + [a]) == Step(Run(actions), a)
  {
    assert (actions + [a])[..|actions|] == actions;
  }

  lemma SentOnceState()
    ensures var s := Run(SentOnce());
            && s.mode.Running? && s.phases == map["a" := Sending(5, 0)] && s.sends == [("a", 5)] && s.events == []
            && Pending(s.rows, "a") == Some(5) && (forall k :: k != "a" ==> k !in s.rows) && s.told == {}
  {
    ServedState();
    Extend(Served(), Mark("a", 5, Written));
    Extend(Served() + [Mark("a", 5, Written)], Send("a"));
    hide Run, Served;
  }

  lemma ServedState()
    ensures Run(Served()) == START.(mode := Running)
  {
    RunOfNothing();
    Extend([], Load([], 0));
    Extend([] + [Load([], 0)], Serve);
    hide Run;
    NothingRestored(0);
  }

  lemma RunOfNothing()
    ensures Run([]) == START
  {}

  /** The send has succeeded and its result is written with this outcome. */
  function ResultWritten(outcome: Outcome): seq<Action> {
    SentOnce() + [Finish("a", true, 6, 900)] + [Record("a", 6, outcome)]
  }

  lemma ResultWrittenState(outcome: Outcome)
    ensures var s := Run(ResultWritten(outcome));
            && s.mode.Running? && s.phases == map["a" := Creating(Sent, Some(0))] && s.sends == [("a", 5)] && s.events == []
            && Pending(s.rows, "a") == (if outcome.RaisedBeforeCommit? then Some(5) else None) && s.told == {}
  {
    SentOnceState();
    Extend(SentOnce(), Finish("a", true, 6, 900));
    Extend(SentOnce() + [Finish("a", true, 6, 900)], Record("a", 6, outcome));
    hide Run, SentOnce, Delivered, Exported;
  }

  /** Every write succeeds, and the process crashes between a delivery's last two. */
  lemma CrashBeforeTheEventLoses()
    ensures var actions := ResultWritten(Written) + [Crash]; |Run(actions).sends| == 1 && !Trace(Run(actions), 0)
  {
    ResultWrittenState(Written);
    Extend(ResultWritten(Written), Crash);
    hide Run, ResultWritten;
  }

  /** The write of the event fails. */
  lemma FailingEventLoses()
    ensures var actions := ResultWritten(Written) + [Create("a", 0, RaisedBeforeCommit)];
            |Run(actions).sends| == 1 && !Trace(Run(actions), 0)
  {
    ResultWrittenState(Written);
    Extend(ResultWritten(Written), Create("a", 0, RaisedBeforeCommit));
    hide Run, ResultWritten;
  }

  /** Both last writes fail, and a later delivery of the key overwrites the mark. */
  lemma TwoFailingWritesLose()
    ensures var actions := ResultWritten(RaisedBeforeCommit) + [Create("a", 0, RaisedBeforeCommit)] + [Mark("a", 10, Written)];
            |Run(actions).sends| == 1 && !Trace(Run(actions), 0)
  {
    ResultWrittenState(RaisedBeforeCommit);
    var actions := ResultWritten(RaisedBeforeCommit);
    Extend(actions, Create("a", 0, RaisedBeforeCommit));
    Extend(actions + [Create("a", 0, RaisedBeforeCommit)], Mark("a", 10, Written));
    hide Run, ResultWritten;
  }

  /** A crash during the send, a recovery that fails to write its event, and a later delivery of the key. */
  function Unrecovered(): seq<Action> {
    SentOnce() + [Crash] + [Load(["a"], 9)] + [RecoverEvent(RaisedBeforeCommit)] + [Serve]
  }

  lemma UnrecoveredState()
    ensures var s := Run(Unrecovered());
            && s.mode.Running? && s.phases == map[] && s.sends == [("a", 5)] && s.events == []
            && Pending(s.rows, "a") == Some(5) && s.told == {}
  {
    SentOnceState();
    var actions := SentOnce();
    Extend(actions, Crash);
    Extend(actions + [Crash], Load(["a"], 9));
    Extend(actions + [Crash] + [Load(["a"], 9)], RecoverEvent(RaisedBeforeCommit));
    Extend(actions + [Crash] + [Load(["a"], 9)] + [RecoverEvent(RaisedBeforeCommit)], Serve);
    hide Run, SentOnce, RestoredRetry, RestoredAttempts;
  }

  lemma FailingRecoveryLoses()
    ensures var actions := Unrecovered() + [Mark("a", 10, Written)];
            |Run(actions).sends| == 1 && !Trace(Run(actions), 0)
  {
    UnrecoveredState();
    Extend(Unrecovered(), Mark("a", 10, Written));
    hide Run, Unrecovered;
  }
}
