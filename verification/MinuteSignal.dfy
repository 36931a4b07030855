/**
 The one-minute basis signal engine (script/minute_basis_signal_framework.py): a five-state machine
 fed one bar at a time, over features already computed. Times are in milliseconds.
 */
module MinuteSignal {
  import opened Wrappers

  const MINUTE := 60_000

  datatype Config = Config(
    shockBasis: real, shockVelocity: real, shockPremium: real, shockLow5: real, minimumPeak: real,
    resetBasis: real, resetRatio: real, resetLow15: real, entryBasis: real, entryPremium: real,
    entryLow15: real, takeProfit: real, stopLoss: real, maximumHold: int, shockExpiry: int, cooldown: int)

  /** The features of one bar; a missing or non-finite one is None. */
  datatype Bar = Bar(
    time: int, basis: Option<real>, velocity: Option<real>, premium: Option<real>, low5: Option<real>,
    low15: Option<real>, peak: Option<real>, ratio: Option<real>)

  datatype State = Idle | Shock | ResetReady | Hold | Cooldown

  datatype Kind = ShockAlert | Entry | TakeProfit | StopLoss | TimeExit

  datatype Event = Event(
    kind: Kind, before: State, after: State, time: int, basis: Option<real>, entryBasis: Option<real>, gain: Option<real>)

  datatype Engine = Engine(
    state: State, shockTime: Option<int>, entryTime: Option<int>, entryBasis: Option<real>, cooldownUntil: Option<int>)

  const START := Engine(Idle, None, None, None, None)

  predicate IsShock(c: Config, b: Bar) {
    && b.basis.Some? && b.velocity.Some? && b.premium.Some? && b.low5.Some?
    && b.premium.value <= c.shockPremium && b.low5.value <= c.shockLow5
    && (b.basis.value >= c.shockBasis || b.velocity.value >= c.shockVelocity)
  }

  predicate IsReset(c: Config, b: Bar) {
    && b.peak.Some? && b.basis.Some? && b.ratio.Some? && b.low15.Some?
    && b.peak.value >= c.minimumPeak && b.basis.value <= c.resetBasis
    && b.ratio.value >= c.resetRatio && b.low15.value <= c.resetLow15
  }

  predicate IsEntry(c: Config, b: Bar) {
    && IsReset(c, b)
    && b.premium.Some?
    && b.basis.value <= c.entryBasis && b.premium.value <= c.entryPremium && b.low15.value <= c.entryLow15
  }

  /** Whole minutes, truncated toward zero. */
  function Minutes(ms: int): int {
    if ms >= 0 then ms / MINUTE else -((-ms) / MINUTE)
  }

  /** How a position entered at `entryTime` on `entryBasis` ends on this bar, if it does. */
  function ExitOf(c: Config, b: Bar, entryTime: int, entryBasis: real): Option<Kind> {
    if b.basis.None? then None
    else if b.basis.value - entryBasis >= c.takeProfit then Some(TakeProfit)
    else if b.basis.value - entryBasis <= c.stopLoss then Some(StopLoss)
    else if Minutes(b.time - entryTime) >= c.maximumHold then Some(TimeExit)
    else None
  }

  function Alerted(e: Engine, b: Bar): (Engine, seq<Event>) {
    (e.(state := Shock, shockTime := Some(b.time)),
     [Event(ShockAlert, e.state, Shock, b.time, b.basis, e.entryBasis, None)])
  }

  function Entered(e: Engine, b: Bar): (Engine, seq<Event>) {
    (e.(state := Hold, entryTime := Some(b.time + MINUTE), entryBasis := b.basis),
     [Event(Entry, e.state, Hold, b.time, b.basis, b.basis, None)])
  }

  /** In Hold: exit when due. */
  function Held(c: Config, e: Engine, b: Bar): (Engine, seq<Event>) {
    if e.entryTime.None? || e.entryBasis.None? then (e, [])
    else
      match ExitOf(c, b, e.entryTime.value, e.entryBasis.value)
      case None => (e, [])
      case Some(kind) =>
        (Engine(Cooldown, None, None, None, Some(b.time + MINUTE + c.cooldown * MINUTE)),
         [Event(kind, Hold, Cooldown, b.time, b.basis, e.entryBasis, Some(b.basis.value - e.entryBasis.value))])
  }

  /** In ResetReady: enter, or fall back to Shock when the reset no longer holds. */
  function Ready(c: Config, e: Engine, b: Bar): (Engine, seq<Event>) {
    if IsEntry(c, b) then Entered(e, b)
    else if !IsReset(c, b) then (e.(state := Shock, shockTime := Some(b.time)), [])
    else (e, [])
  }

  /** Whether a shock has outlived its expiry. */
  predicate Expired(c: Config, e: Engine, b: Bar) {
    e.shockTime.Some? && b.time - e.shockTime.value > c.shockExpiry * MINUTE
  }

  /** In Shock. An expired shock falls back to Idle, yet the same bar may still enter from there. */
  function Shocked(c: Config, e: Engine, b: Bar): (Engine, seq<Event>) {
    var e' := if Expired(c, e, b) then e.(state := Idle, shockTime := None) else e;
    if Expired(c, e, b) && IsShock(c, b) then Alerted(e', b)
    else if IsEntry(c, b) then Entered(e', b)
    else if IsReset(c, b) then Ready(c, e'.(state := ResetReady), b)
    else (e', [])
  }

  function Awake(e: Engine): Engine {
    if e.state.Cooldown? then e.(state := Idle, cooldownUntil := None) else e
  }

  /** One bar. */
  function Next(c: Config, e: Engine, b: Bar): (Engine, seq<Event>) {
    if e.state.Cooldown? && e.cooldownUntil.Some? && b.time < e.cooldownUntil.value then (e, [])
    else
      var a := Awake(e);
      match a.state
      case Idle => if IsShock(c, b) then Alerted(a, b) else (a, [])
      case Shock => Shocked(c, a, b)
      case ResetReady => Ready(c, a, b)
      case Hold => Held(c, a, b)
      case Cooldown => (a, [])
  }

  class MinuteSignalEngine {
    const config: Config
    var state: State
    var shockTime: Option<int>
    var entryTime: Option<int>
    var entryBasis: Option<real>
    var cooldownUntil: Option<int>

    constructor (config: Config)
      ensures this.config == config && Value() == START
    {
      this.config := config;
      state, shockTime, entryTime, entryBasis, cooldownUntil := Idle, None, None, None, None;
    }

    function Value(): Engine
      reads this
    {
      Engine(state, shockTime, entryTime, entryBasis, cooldownUntil)
    }

    method EnterOn(b: Bar) returns (events: seq<Event>)
      modifies this
      ensures (Value(), events) == Entered(old(Value()), b)
    {
      var before := state;
      state, entryTime, entryBasis := Hold, Some(b.time + MINUTE), b.basis;
      events := [Event(Entry, before, state, b.time, b.basis, entryBasis, None)];
    }

    method AlertOn(b: Bar) returns (events: seq<Event>)
      modifies this
      ensures (Value(), events) == Alerted(old(Value()), b)
    {
      var before := state;
      state, shockTime := Shock, Some(b.time);
      events := [Event(ShockAlert, before, state, b.time, b.basis, entryBasis, None)];
    }

    method OnBar(b: Bar) returns (events: seq<Event>)
      modifies this
      ensures (Value(), events) == Next(config, old(Value()), b)
    {
      events := [];
      if state.Cooldown? {
        if cooldownUntil.Some? && b.time < cooldownUntil.value {
          return;
        }
        state, cooldownUntil := Idle, None;
      }
      if state.Idle? && IsShock(config, b) {
        events := AlertOn(b);
        return;
      }
      if state.Shock? {
        if shockTime.Some? && b.time - shockTime.value > config.shockExpiry * MINUTE {
          state, shockTime := Idle, None;
          if IsShock(config, b) {
            events := AlertOn(b);
            return;
          }
        }
        if IsEntry(config, b) {
          events := EnterOn(b);
          return;
        }
        if IsReset(config, b) {
          state := ResetReady;
        }
      }
      if state.ResetReady? {
        if IsEntry(config, b) {
          events := EnterOn(b);
          return;
        }
        if !IsReset(config, b) {
          state, shockTime := Shock, Some(b.time);
        }
      }
      if state.Hold? && entryTime.Some? && entryBasis.Some? {
        if b.basis.None? {
          return;
        }
        var gain := b.basis.value - entryBasis.value;
        var kind := ExitOf(config, b, entryTime.value, entryBasis.value);
        if kind.Some? {
          state, cooldownUntil := Cooldown, Some(b.time + MINUTE + config.cooldown * MINUTE);
          events := [Event(kind.value, Hold, state, b.time, b.basis, entryBasis, Some(gain))];
          shockTime, entryTime, entryBasis := None, None, None;
        }
      }
    }
  }
}
