/** What the signal engine emits over whole bar sequences. */
module SignalRuns {
  import opened Wrappers
  import opened MinuteSignal

  /** An event, and the index of the bar that produced it. */
  datatype Emitted = Emitted(event: Event, bar: nat)

  datatype Run = Run(engine: Engine, trace: seq<Emitted>)

  function Tagged(events: seq<Event>, bar: nat): seq<Emitted> {
    seq(|events|, i requires 0 <= i < |events| => Emitted(events[i], bar))
  }

  function Advance(c: Config, r: Run, b: Bar, bar: nat): Run {
    var (engine, events) := Next(c, r.engine, b);
    Run(engine, r.trace + Tagged(events, bar))
  }

  function RunOf(c: Config, bars: seq<Bar>): Run {
    if bars == [] then Run(START, [])
    else Advance(c, RunOf(c, bars[..|bars| - 1]), bars[|bars| - 1], |bars| - 1)
  }

  predicate IsExit(k: Kind) { k.TakeProfit? || k.StopLoss? || k.TimeExit? }

  // ---------- one bar ----------

  /** Facts about the fields that hold in every state the engine can reach. */
  ghost predicate EngineOk(e: Engine) {
    && (e.state.Hold? ==> e.entryTime.Some? && e.entryBasis.Some?)
    && (e.state.Cooldown? <==> e.cooldownUntil.Some?)
    && (e.state.Shock? ==> e.shockTime.Some?)
    && (!e.state.Hold? ==> e.entryTime.None? && e.entryBasis.None?)
  }

  /** Which event a bar can produce in which state, and the state it leads to. */
  ghost predicate Legal(c: Config, e: Engine, e': Engine, b: Bar, ev: Event) {
    && ev.time == b.time && ev.basis == b.basis && ev.after == e'.state
    && match ev.kind
       case ShockAlert =>
         && IsShock(c, b) && e'.state.Shock? && !e.state.Hold? && !e.state.ResetReady?
         && ev.entryBasis.None? && ev.gain.None?
       case Entry =>
         && IsEntry(c, b) && (e.state.Shock? || e.state.ResetReady?) && e'.state.Hold?
         && e'.entryTime == Some(b.time + MINUTE) && e'.entryBasis == b.basis
         && (ev.before == e.state || (ev.before.Idle? && Expired(c, e, b)))
         && ev.entryBasis == b.basis && ev.gain.None?
       case _ =>
         && e.state.Hold? && e'.state.Cooldown?
         && e'.cooldownUntil == Some(b.time + MINUTE + c.cooldown * MINUTE)
         && e.entryTime.Some? && e.entryBasis.Some? && b.basis.Some?
         && ExitOf(c, b, e.entryTime.value, e.entryBasis.value) == Some(ev.kind)
         && ev.entryBasis == e.entryBasis && ev.gain == Some(b.basis.value - e.entryBasis.value)
  }

  /** At most one event per bar, always a legal one; without an event a position is only kept
      when no exit is due, and a cooldown only ends at its time. */
  lemma OneEventPerBar(c: Config, e: Engine, b: Bar)
    requires EngineOk(e)
    ensures var (e', events) := Next(c, e, b);
            && EngineOk(e')
            && |events| <= 1
            && (|events| == 1 ==> Legal(c, e, e', b, events[0]))
            && (events == [] ==>
                  && (e'.state.Hold? <==> e.state.Hold?)
                  && (e'.state.Hold? ==> e' == e && ExitOf(c, b, e.entryTime.value, e.entryBasis.value).None?)
                  && (e'.state.Cooldown? ==> e' == e)
                  && ((e'.state.Shock? || e'.state.ResetReady?) ==> e.state.Shock? || e.state.ResetReady?))
            && (e.state.Cooldown? && (events != [] || !e'.state.Cooldown?) ==> b.time >= e.cooldownUntil.value)
  {}

  /** Held for that many whole minutes since the entry, fractions dropped toward zero. */
  ghost predicate HeldFor(b: Bar, entryTime: int, minutes: int) {
    if minutes > 0 then b.time >= entryTime + minutes * 60_000 else b.time > entryTime + (minutes - 1) * 60_000
  }

  /** The one reason for which a position ends on this bar: profit before loss, and loss before time. */
  ghost predicate Due(c: Config, b: Bar, entryTime: int, entryBasis: real, kind: Kind) {
    && b.basis.Some?
    && match kind
       case TakeProfit => b.basis.value >= entryBasis + c.takeProfit
       case StopLoss => b.basis.value < entryBasis + c.takeProfit && b.basis.value <= entryBasis + c.stopLoss
       case TimeExit =>
         && entryBasis + c.stopLoss < b.basis.value < entryBasis + c.takeProfit
         && HeldFor(b, entryTime, c.maximumHold)
       case _ => false
  }

  ghost predicate NoneDue(c: Config, b: Bar, entryTime: int, entryBasis: real) {
    forall kind :: !Due(c, b, entryTime, entryBasis, kind)
  }

  lemma MinutesMean(ms: int, minutes: int)
    ensures Minutes(ms) >= minutes <==> if minutes > 0 then ms >= minutes * 60_000 else ms > (minutes - 1) * 60_000
  {}

  lemma ExitIsDue(c: Config, b: Bar, entryTime: int, entryBasis: real)
    ensures var exit := ExitOf(c, b, entryTime, entryBasis);
            && (forall kind :: exit == Some(kind) <==> Due(c, b, entryTime, entryBasis, kind))
            && (exit.None? <==> NoneDue(c, b, entryTime, entryBasis))
  {
    MinutesMean(b.time - entryTime, c.maximumHold);
    hide Minutes;
    var exit := ExitOf(c, b, entryTime, entryBasis);
    if exit.Some? { assert Due(c, b, entryTime, entryBasis, exit.value); }
  }

  /** Premium depressed now and lately, with the basis high or fast; all four must be known. */
  ghost predicate Hot(c: Config, b: Bar) {
    && b.premium.Some? && c.shockPremium >= b.premium.value
    && b.low5.Some? && c.shockLow5 >= b.low5.value
    && b.velocity.Some? && b.basis.Some?
    && (b.basis.value < c.shockBasis ==> b.velocity.value >= c.shockVelocity)
  }

  /** The basis has come down far enough from a high peak, with premium lately depressed. */
  ghost predicate Calm(c: Config, b: Bar) {
    && b.basis.Some? && c.resetBasis >= b.basis.value
    && b.peak.Some? && c.minimumPeak <= b.peak.value
    && b.ratio.Some? && c.resetRatio <= b.ratio.value
    && b.low15.Some? && c.resetLow15 >= b.low15.value
  }

  /** Calm, and basis and premium low enough to enter. */
  ghost predicate Cheap(c: Config, b: Bar) {
    && Calm(c, b)
    && c.entryBasis >= b.basis.value && c.entryLow15 >= b.low15.value
    && b.premium.Some? && c.entryPremium >= b.premium.value
  }

  lemma TestsMean(c: Config, b: Bar)
    ensures IsShock(c, b) <==> Hot(c, b)
    ensures IsReset(c, b) <==> Calm(c, b)
    ensures IsEntry(c, b) <==> Cheap(c, b)
  {}

  ghost predicate Outlived(c: Config, e: Engine, b: Bar) {
    e.shockTime.Some? && b.time > e.shockTime.value + c.shockExpiry * 60_000
  }

  ghost predicate CoolingDown(e: Engine, b: Bar) {
    e.state.Cooldown? && e.cooldownUntil.Some? && b.time < e.cooldownUntil.value
  }

  /** A hot bar alerts from idle, after a cooldown, and when the shock before it has outlived its expiry. */
  ghost predicate AlertsOn(c: Config, e: Engine, b: Bar) {
    && Hot(c, b)
    && (e.state.Idle? || (e.state.Cooldown? && !CoolingDown(e, b)) || (e.state.Shock? && Outlived(c, e, b)))
  }

  /** A cheap bar enters from a shock or a reset, unless it alerts. */
  ghost predicate EntersOn(c: Config, e: Engine, b: Bar) {
    (e.state.Shock? || e.state.ResetReady?) && Cheap(c, b) && !AlertsOn(c, e, b)
  }

  ghost predicate ExitsOn(c: Config, e: Engine, b: Bar, kind: Kind) {
    e.state.Hold? && e.entryTime.Some? && e.entryBasis.Some? && Due(c, b, e.entryTime.value, e.entryBasis.value, kind)
  }

  ghost predicate Emits(events: seq<Event>, kind: Kind) {
    |events| == 1 && events[0].kind == kind
  }

  /** The state a bar without an event leads to. */
  ghost predicate Settles(c: Config, e: Engine, b: Bar, state: State) {
    match state
    case Idle => e.state.Idle? || (e.state.Cooldown? && !CoolingDown(e, b)) || (e.state.Shock? && Outlived(c, e, b) && !Calm(c, b))
    case Shock => !Calm(c, b) && (e.state.ResetReady? || (e.state.Shock? && !Outlived(c, e, b)))
    case ResetReady => Calm(c, b) && (e.state.ResetReady? || e.state.Shock?)
    case Hold => e.state.Hold?
    case Cooldown => CoolingDown(e, b)
  }

  /** A bar emits exactly the alert, the entry or the exit that its figures call for, and otherwise
      leads to exactly the state they call for; a shock counts from the bar that alerts or that ends
      a reset. */
  lemma BarDecides(c: Config, e: Engine, b: Bar, kind: Kind)
    requires EngineOk(e)
    ensures var (e', events) := Next(c, e, b);
            && (Emits(events, kind) <==>
                if kind.ShockAlert? then AlertsOn(c, e, b)
                else if kind.Entry? then EntersOn(c, e, b)
                else ExitsOn(c, e, b, kind))
            && (events == [] ==> Settles(c, e, b, e'.state))
            && (e'.state.Shock? ==>
                  e'.shockTime == if AlertsOn(c, e, b) || e.state.ResetReady? then Some(b.time) else e.shockTime)
            && (e.state.Shock? && !e'.state.Shock? ==> e'.shockTime == if Outlived(c, e, b) then None else e.shockTime)
  {
    TestsMean(c, b);
    if e.entryTime.Some? && e.entryBasis.Some? { ExitIsDue(c, b, e.entryTime.value, e.entryBasis.value); }
    hide ExitOf, IsShock, IsReset, IsEntry, Hot, Calm, Cheap, Due;
  }

  // ---------- the grammar of traces ----------

  /** One round: alerts (at least one), an entry, an exit. */
  datatype Round = Round(alerts: nat, exit: Kind)

  ghost predicate RoundOk(r: Round) { r.alerts >= 1 && IsExit(r.exit) }

  function Alerts(n: nat): seq<Kind> {
    if n == 0 then [] else Alerts(n - 1) + [ShockAlert]
  }

  function Spelled(rounds: seq<Round>): seq<Kind> {
    if rounds == [] then []
    else
      var last := rounds[|rounds| - 1];
      Spelled(rounds[..|rounds| - 1]) + Alerts(last.alerts) + [Entry, last.exit]
  }

  /** A possible unfinished round: some alerts and, after at least one, possibly an entry. */
  datatype Tail = Tail(alerts: nat, entered: bool)

  function Sentence(rounds: seq<Round>, tail: Tail): seq<Kind> {
    Spelled(rounds) + Alerts(tail.alerts) + if tail.entered then [Entry] else []
  }

  function Kinds(trace: seq<Emitted>): seq<Kind> {
    if trace == [] then [] else Kinds(trace[..|trace| - 1]) + [trace[|trace| - 1].event.kind]
  }

  /** The unfinished round matches the engine's state. */
  ghost predicate TailOk(e: Engine, tail: Tail) {
    && (tail.entered <==> e.state.Hold?)
    && (tail.entered || e.state.Shock? || e.state.ResetReady? ==> tail.alerts >= 1)
    && (e.state.Cooldown? ==> tail.alerts == 0)
  }

  ghost predicate Parsed(r: Run, rounds: seq<Round>, tail: Tail) {
    && (forall i :: 0 <= i < |rounds| ==> RoundOk(rounds[i]))
    && Kinds(r.trace) == Sentence(rounds, tail)
    && TailOk(r.engine, tail)
    && EngineOk(r.engine)
  }

  lemma KindsAppend(trace: seq<Emitted>, x: Emitted)
    ensures Kinds(trace + [x]) == Kinds(trace) + [x.event.kind]
  {
    assert (trace + [x])[..|trace|] == trace;
  }

  /** How one more kind extends a sentence. */
  lemma SentenceExtends(rounds: seq<Round>, tail: Tail, k: Kind) returns (rounds': seq<Round>, tail': Tail)
    requires forall i :: 0 <= i < |rounds| ==> RoundOk(rounds[i])
    requires match k
             case ShockAlert => !tail.entered
             case Entry => !tail.entered && tail.alerts >= 1
             case _ => tail.entered && tail.alerts >= 1
    ensures forall i :: 0 <= i < |rounds'| ==> RoundOk(rounds'[i])
    ensures Sentence(rounds', tail') == Sentence(rounds, tail) + [k]
    ensures tail' == match k
                     case ShockAlert => Tail(tail.alerts + 1, false)
                     case Entry => Tail(tail.alerts, true)
                     case _ => Tail(0, false)
  {
    hide Spelled;
    var base, alerts := Spelled(rounds), Alerts(tail.alerts);
    match k
    case ShockAlert =>
      rounds', tail' := rounds, Tail(tail.alerts + 1, false);
      assert base + (alerts + [ShockAlert]) + [] == base + alerts + [] + [ShockAlert];
    case Entry =>
      rounds', tail' := rounds, Tail(tail.alerts, true);
      assert base + alerts + [Entry] == base + alerts + [] + [Entry];
    case _ =>
      rounds', tail' := rounds + [Round(tail.alerts, k)], Tail(0, false);
      SpelledAppend(rounds, Round(tail.alerts, k));
      assert base + alerts + [Entry, k] + [] + [] == base + alerts + [Entry] + [k];
  }

  lemma SpelledAppend(rounds: seq<Round>, r: Round)
    ensures Spelled(rounds + [r]) == Spelled(rounds) + Alerts(r.alerts) + [Entry, r.exit]
  {
    assert (rounds + [r])[..|rounds|] == rounds;
  }

  lemma ParsedStep(c: Config, r: Run, b: Bar, bar: nat, rounds: seq<Round>, tail: Tail)
    returns (rounds': seq<Round>, tail': Tail)
    requires Parsed(r, rounds, tail)
    ensures Parsed(Advance(c, r, b, bar), rounds', tail')
  {
    hide Next, Kinds, Sentence;
    var (e', events) := Next(c, r.engine, b);
    OneEventPerBar(c, r.engine, b);
    if events == [] {
      assert r.trace + Tagged(events, bar) == r.trace;
      rounds', tail' := rounds, tail;
    } else {
      assert Tagged(events, bar) == [Emitted(events[0], bar)];
      KindsAppend(r.trace, Emitted(events[0], bar));
      rounds', tail' := SentenceExtends(rounds, tail, events[0].kind);
    }
  }

  lemma {:induction false} Parse(c: Config, bars: seq<Bar>) returns (rounds: seq<Round>, tail: Tail)
    ensures Parsed(RunOf(c, bars), rounds, tail)
  {
    if bars == [] {
      rounds, tail := [], Tail(0, false);
    } else {
      hide Advance, Parsed;
      rounds, tail := Parse(c, bars[..|bars| - 1]);
      rounds, tail := ParsedStep(c, RunOf(c, bars[..|bars| - 1]), bars[|bars| - 1], |bars| - 1, rounds, tail);
    }
  }

  /** Every trace is (SHOCK_ALERT+ ENTRY exit)* with a possible unfinished round at the end. */
  lemma TraceGrammar(c: Config, bars: seq<Bar>)
    ensures exists rounds: seq<Round>, tail: Tail ::
              && (forall i :: 0 <= i < |rounds| ==> RoundOk(rounds[i]))
              && (tail.entered ==> tail.alerts >= 1)
              && Kinds(RunOf(c, bars).trace) == Sentence(rounds, tail)
  {
    hide RunOf, Kinds, Sentence;
    var rounds, tail := Parse(c, bars);
  }

  // ---------- positions and cooldowns ----------

  ghost predicate InOrder(bars: seq<Bar>) {
    forall i, j :: 0 <= i < j < |bars| ==> bars[i].time <= bars[j].time
  }

  function Gap(c: Config): int { 60_000 + c.cooldown * 60_000 }

  /** Exits so far are over, or the engine is still cooling down from them. */
  ghost predicate CooledDown(c: Config, r: Run, now: int) {
    forall i :: 0 <= i < |r.trace| && IsExit(r.trace[i].event.kind) ==>
      if r.engine.state.Cooldown? then r.engine.cooldownUntil.Some? && r.trace[i].event.time + Gap(c) <= r.engine.cooldownUntil.value
      else r.trace[i].event.time + Gap(c) <= now
  }

  ghost predicate Quiet(c: Config, trace: seq<Emitted>) {
    forall i, j :: 0 <= i < j < |trace| && IsExit(trace[i].event.kind) ==>
      trace[i].event.time + Gap(c) <= trace[j].event.time
  }

  ghost predicate CooldownOk(c: Config, r: Run, now: int) {
    && EngineOk(r.engine)
    && CooledDown(c, r, now) && Quiet(c, r.trace)
    && forall i :: 0 <= i < |r.trace| ==> r.trace[i].event.time <= now
  }

  lemma CooldownStep(c: Config, r: Run, b: Bar, bar: nat, earlier: int)
    requires CooldownOk(c, r, earlier) && earlier <= b.time
    ensures CooldownOk(c, Advance(c, r, b, bar), b.time)
  {
    hide Next;
    var (e', events) := Next(c, r.engine, b);
    OneEventPerBar(c, r.engine, b);
    if events == [] {
      assert r.trace + Tagged(events, bar) == r.trace;
    } else {
      assert Tagged(events, bar) == [Emitted(events[0], bar)];
    }
  }

  lemma {:induction false} CooldownKept(c: Config, bars: seq<Bar>)
    requires InOrder(bars)
    ensures CooldownOk(c, RunOf(c, bars), if bars == [] then 0 else bars[|bars| - 1].time)
  {
    if bars != [] {
      hide Advance, CooldownOk;
      var before, b := bars[..|bars| - 1], bars[|bars| - 1];
      CooldownKept(c, before);
      if before == [] {
        StartCooled(c, b.time);
        CooldownStep(c, RunOf(c, before), b, |bars| - 1, b.time);
      } else {
        CooldownStep(c, RunOf(c, before), b, |bars| - 1, before[|before| - 1].time);
      }
    } else {
      StartCooled(c, 0);
    }
  }

  lemma StartCooled(c: Config, now: int)
    ensures CooldownOk(c, Run(START, []), now)
  {}

  /** On bars in time order, nothing follows an exit within a minute plus the cooldown. */
  lemma NothingDuringCooldown(c: Config, bars: seq<Bar>, i: nat, j: nat)
    requires InOrder(bars) && i < j < |RunOf(c, bars).trace| && IsExit(RunOf(c, bars).trace[i].event.kind)
    ensures RunOf(c, bars).trace[j].event.time >= RunOf(c, bars).trace[i].event.time + Gap(c)
  {
    hide RunOf;
    CooldownKept(c, bars);
  }

  /** An exit event, against the entry event just before it. */
  ghost predicate Justified(c: Config, entry: Emitted, exit: Emitted, bars: seq<Bar>) {
    && entry.event.kind.Entry? && entry.event.basis.Some?
    && exit.event.entryBasis == entry.event.basis
    && exit.bar < |bars| && bars[exit.bar].basis.Some?
    && exit.event.gain == Some(bars[exit.bar].basis.value - entry.event.basis.value)
    && Due(c, bars[exit.bar], entry.event.time + 60_000, entry.event.basis.value, exit.event.kind)
    && NoExitBetween(c, entry, exit.bar, bars)
  }

  /** No bar after the entry and before `end` was due for an exit. */
  ghost predicate NoExitBetween(c: Config, entry: Emitted, end: nat, bars: seq<Bar>) {
    && entry.bar < end <= |bars|
    && entry.event.basis.Some?
    && forall k :: entry.bar < k < end ==> NoneDue(c, bars[k], entry.event.time + 60_000, entry.event.basis.value)
  }

  ghost predicate PositionsOk(c: Config, r: Run, bars: seq<Bar>) {
    && EngineOk(r.engine)
    && (r.engine.state.Hold? ==>
          && r.trace != []
          && var entry := r.trace[|r.trace| - 1];
             && entry.event.kind.Entry? && r.engine.entryBasis == entry.event.basis
             && r.engine.entryTime == Some(entry.event.time + MINUTE)
             && NoExitBetween(c, entry, |bars|, bars))
    && (forall j :: 0 <= j < |r.trace| && IsExit(r.trace[j].event.kind) ==>
          j > 0 && Justified(c, r.trace[j - 1], r.trace[j], bars))
  }

  lemma JustifiedLonger(c: Config, entry: Emitted, exit: Emitted, bars: seq<Bar>, b: Bar)
    requires Justified(c, entry, exit, bars)
    ensures Justified(c, entry, exit, bars + [b])
  {}

  lemma PositionsStep(c: Config, r: Run, bars: seq<Bar>, b: Bar)
    requires PositionsOk(c, r, bars)
    ensures PositionsOk(c, Advance(c, r, b, |bars|), bars + [b])
  {
    hide Next, Justified;
    var (e', events) := Next(c, r.engine, b);
    var r', bars' := Advance(c, r, b, |bars|), bars + [b];
    OneEventPerBar(c, r.engine, b);
    if events == [] {
      assert r.trace + Tagged(events, |bars|) == r.trace;
    } else {
      assert Tagged(events, |bars|) == [Emitted(events[0], |bars|)];
    }
    forall j | 0 <= j < |r'.trace| && IsExit(r'.trace[j].event.kind)
      ensures j > 0 && Justified(c, r'.trace[j - 1], r'.trace[j], bars')
    {
      if j < |r.trace| {
        assert r'.trace[j] == r.trace[j];
        JustifiedLonger(c, r.trace[j - 1], r.trace[j], bars, b);
      } else {
        ExitJustified(c, r, e', bars, b, events[0]);
      }
    }
  }

  lemma ExitJustified(c: Config, r: Run, e': Engine, bars: seq<Bar>, b: Bar, ev: Event)
    requires PositionsOk(c, r, bars) && Legal(c, r.engine, e', b, ev) && IsExit(ev.kind)
    ensures r.trace != []
    ensures Justified(c, r.trace[|r.trace| - 1], Emitted(ev, |bars|), bars + [b])
  {}

  lemma {:induction false} PositionsKept(c: Config, bars: seq<Bar>)
    ensures PositionsOk(c, RunOf(c, bars), bars)
  {
    if bars != [] {
      hide Advance, PositionsOk;
      var before, b := bars[..|bars| - 1], bars[|bars| - 1];
      PositionsKept(c, before);
      PositionsStep(c, RunOf(c, before), before, b);
      assert before + [b] == bars;
    }
  }

  /** Every exit closes the entry right before it, on the first bar that was due for one, for the
      reason that comes first (profit, loss, time), and reports the basis gained since that entry. */
  lemma ExitsAreJustified(c: Config, bars: seq<Bar>, j: nat)
    requires j < |RunOf(c, bars).trace| && IsExit(RunOf(c, bars).trace[j].event.kind)
    ensures j > 0 && Justified(c, RunOf(c, bars).trace[j - 1], RunOf(c, bars).trace[j], bars)
  {
    hide RunOf, Justified;
    PositionsKept(c, bars);
  }

  /** Whenever the engine holds, it knows when and on what basis it entered. */
  lemma {:induction false} HoldKnowsItsEntry(c: Config, bars: seq<Bar>)
    ensures var e := RunOf(c, bars).engine;
            e.state.Hold? ==> e.entryTime.Some? && e.entryBasis.Some?
  {
    hide RunOf;
    PositionsKept(c, bars);
  }

  /** The branch that expires a shock falls through: an entry on that very bar reports that it came
      from the idle state. */
  lemma EntryOnExpiryBar(c: Config, e: Engine, b: Bar)
    requires EngineOk(e) && e.state.Shock?
    ensures var (e', events) := Next(c, e, b);
            (events != [] && events[0].kind.Entry? && events[0].before.Idle?) <==>
            (Expired(c, e, b) && !IsShock(c, b) && IsEntry(c, b))
  {}
}
