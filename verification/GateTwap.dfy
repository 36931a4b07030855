/**
 The TWAP reducer (script/gate_twap_sell.py): a position is reduced by timed orders, each a slice
 rounded down to the contract's step. Decimals are exact rationals here.
 */
module GateTwap {
  import opened Wrappers

  // ---------- decimals and contract rules ----------

  /** coefficient * 10^exponent, as `Decimal.as_tuple` shows it. */
  datatype Decimal = Decimal(coefficient: int, exponent: int)

  function TenTo(n: nat): (r: real)
    ensures r >= 1.0
  {
    if n == 0 then 1.0 else 10.0 * TenTo(n - 1)
  }

  function Power10(e: int): (r: real)
    ensures r > 0.0
  {
    if e >= 0 then TenTo(e) else 1.0 / TenTo(-e)
  }

  function Value(d: Decimal): real {
    d.coefficient as real * Power10(d.exponent)
  }

  datatype Rules = Rules(orderSizeMin: Decimal, enableDecimal: bool)

  function Min(r: Rules): real { Value(r.orderSizeMin) }

  /** The granularity of order sizes: the last digit of the minimum, or whole contracts. */
  function Step(r: Rules): (s: real)
    ensures s > 0.0
  {
    if r.enableDecimal && r.orderSizeMin.exponent < 0 then Power10(r.orderSizeMin.exponent) else 1.0
  }

  function Mul(a: real, b: real): real { a * b }

  function Steps(k: int, step: real): real { Mul(k as real, step) }

  /** `raw` in whole steps, rounded down. */
  function RoundDown(raw: real, step: real): real
    requires step > 0.0
  {
    Steps((raw / step).Floor, step)
  }

  /** Round down to the step; below the minimum there is no order. */
  function FloorOrderSize(r: Rules, raw: real): real {
    if raw <= 0.0 || RoundDown(raw, Step(r)) < Min(r) then 0.0 else RoundDown(raw, Step(r))
  }

  ghost predicate IsMultiple(x: real, step: real) {
    exists k: int :: x == Steps(k, step)
  }

  lemma RoundDownBounds(raw: real, step: real)
    requires step > 0.0 && raw >= 0.0
    ensures 0.0 <= RoundDown(raw, step) <= raw < RoundDown(raw, step) + step
  {
    hide Mul;
    var q := raw / step;
    var f := q.Floor as real;
    QuotientBack(raw, step);
    MulMonotone(0.0, f, step);
    MulMonotone(f, q, step);
    MulMonotone(q, f + 1.0, step);
    MulBasics(f, step);
  }

  lemma QuotientBack(raw: real, step: real)
    requires step > 0.0
    ensures Mul(raw / step, step) == raw
    ensures raw >= 0.0 ==> raw / step >= 0.0
  {}

  lemma MulBasics(f: real, step: real)
    ensures Mul(0.0, step) == 0.0 && Mul(f + 1.0, step) == Mul(f, step) + step
  {}

  lemma MulMonotone(a: real, b: real, step: real)
    requires step > 0.0
    ensures a <= b ==> Mul(a, step) <= Mul(b, step)
    ensures a < b ==> Mul(a, step) < Mul(b, step)
  {}

  /** Rounding down gives the largest whole number of steps that is not above `raw`. */
  lemma RoundDownIsLargest(raw: real, step: real, k: int)
    requires step > 0.0 && raw >= 0.0
    ensures IsMultiple(RoundDown(raw, step), step)
    ensures Steps(k, step) <= raw ==> Steps(k, step) <= RoundDown(raw, step)
  {
    var f := (raw / step).Floor;
    assert RoundDown(raw, step) == Steps(f, step);
    RoundDownBounds(raw, step);
    NextStepIsAbove(raw, step, f, k);
  }

  lemma NextStepIsAbove(raw: real, step: real, f: int, k: int)
    requires step > 0.0 && Steps(f, step) <= raw < Steps(f, step) + step
    ensures Steps(k, step) <= raw ==> Steps(k, step) <= Steps(f, step)
  {
    hide Mul;
    var a, b := f as real, k as real;
    if k > f {
      assert b >= a + 1.0;
      MulBasics(a, step);
      MulMonotone(a + 1.0, b, step);
    } else {
      assert b <= a;
      MulMonotone(b, a, step);
    }
  }

  lemma RoundDownOfMultiple(raw: real, step: real)
    requires step > 0.0 && raw >= 0.0 && IsMultiple(raw, step)
    ensures RoundDown(raw, step) == raw
  {
    hide RoundDown, Steps;
    var k: int :| raw == Steps(k, step);
    RoundDownBounds(raw, step);
    RoundDownIsLargest(raw, step, k);
  }

  lemma MulMinus(a: real, b: real, step: real)
    ensures Mul(a, step) - Mul(b, step) == Mul(a - b, step)
  {}

  lemma MultipleMinus(a: real, b: real, step: real)
    requires IsMultiple(a, step) && IsMultiple(b, step)
    ensures IsMultiple(a - b, step)
  {
    var i: int :| a == Steps(i, step);
    var j: int :| b == Steps(j, step);
    MulMinus(i as real, j as real, step);
    assert a - b == Steps(i - j, step);
  }

  /** A size is nothing, or a whole number of steps that is at least the minimum and not above `raw`. */
  lemma FloorFits(r: Rules, raw: real)
    ensures var size := FloorOrderSize(r, raw);
            && size >= 0.0
            && (raw >= 0.0 ==> size <= raw)
            && (size != 0.0 ==> IsMultiple(size, Step(r)) && size >= Min(r))
  {
    hide RoundDown, Min, Step;
    if raw > 0.0 {
      RoundDownBounds(raw, Step(r));
      RoundDownIsLargest(raw, Step(r), 0);
    }
  }

  // ---------- the schedule ----------

  datatype SliceMode = Initial | Remaining

  datatype Side = Sell | Buy

  datatype Config = Config(
    side: Side, orderCount: nat, percent: real, sliceMode: SliceMode, lastOrderAll: bool)

  function MinReal(a: real, b: real): real { if a <= b then a else b }

  function Slice(whole: real, percent: real): real { whole * percent / 100.0 }

  /** The size asked for by order `idx` with `current` left, slicing `base` in initial mode. */
  function RawSize(c: Config, idx: nat, current: real, base: real): real {
    if c.lastOrderAll && idx + 1 == c.orderCount then current
    else if c.sliceMode.Remaining? then Slice(current, c.percent)
    else Slice(base, c.percent)
  }

  function OrderSize(c: Config, r: Rules, idx: nat, current: real, base: real): real {
    FloorOrderSize(r, MinReal(RawSize(c, idx, current, base), current))
  }

  /** The orders from `idx` on (0 for a slice below the minimum), until nothing remains. */
  function Plan(c: Config, r: Rules, initial: real, remaining: real, idx: nat): seq<real>
    decreases c.orderCount - idx
  {
    if idx >= c.orderCount || remaining <= 0.0 then []
    else
      var size := OrderSize(c, r, idx, remaining, initial);
      [size] + Plan(c, r, initial, remaining - size, idx + 1)
  }

  /** What remains after `Plan`. */
  function Left(c: Config, r: Rules, initial: real, remaining: real, idx: nat): real
    decreases c.orderCount - idx
  {
    if idx >= c.orderCount || remaining <= 0.0 then remaining
    else Left(c, r, initial, remaining - OrderSize(c, r, idx, remaining, initial), idx + 1)
  }

  /** One order of the schedule, after the `orders` placed before it. */
  lemma PlanStep(c: Config, r: Rules, initial: real, remaining: real, idx: nat, orders: seq<real>)
    requires idx < c.orderCount && remaining > 0.0
    ensures var size := OrderSize(c, r, idx, remaining, initial);
            && orders + Plan(c, r, initial, remaining, idx) == orders + [size] + Plan(c, r, initial, remaining - size, idx + 1)
            && Left(c, r, initial, remaining, idx) == Left(c, r, initial, remaining - size, idx + 1)
            && 0.0 <= size <= remaining
  {
    OrderFits(c, r, idx, remaining, initial);
    hide OrderSize;
    var size := OrderSize(c, r, idx, remaining, initial);
    var rest := Plan(c, r, initial, remaining - size, idx + 1);
    assert orders + ([size] + rest) == orders + [size] + rest;
  }

  lemma PlanEnds(c: Config, r: Rules, initial: real, remaining: real, idx: nat)
    requires idx >= c.orderCount || remaining <= 0.0
    ensures Plan(c, r, initial, remaining, idx) == [] && Left(c, r, initial, remaining, idx) == remaining
  {}

  /** The preview: a table of sizes, computed without touching the exchange. */
  method PreviewSchedule(c: Config, r: Rules, initial: real) returns (orders: seq<real>, remaining: real)
    ensures orders == Plan(c, r, initial, initial, 0)
    ensures remaining == Left(c, r, initial, initial, 0)
  {
    hide FloorOrderSize, Slice, Plan, Left;
    orders, remaining := [], initial;
    var idx := 0;
    while idx < c.orderCount
      invariant 0 <= idx <= c.orderCount
      invariant orders + Plan(c, r, initial, remaining, idx) == Plan(c, r, initial, initial, 0)
      invariant Left(c, r, initial, remaining, idx) == Left(c, r, initial, initial, 0)
    {
      if remaining <= 0.0 {
        break;
      }
      var raw := if c.sliceMode.Remaining? then Slice(remaining, c.percent) else Slice(initial, c.percent);
      if c.lastOrderAll && idx == c.orderCount - 1 {
        raw := remaining;
      }
      var size := FloorOrderSize(r, MinReal(raw, remaining));
      PlanStep(c, r, initial, remaining, idx, orders);
      orders := orders + [size];
      if size > 0.0 {
        remaining := remaining - size;
      }
      idx := idx + 1;
    }
    PlanEnds(c, r, initial, remaining, idx);
    assert orders + [] == orders;
  }

  datatype Stop = Finished | NothingLeft | NoOrders | NoSize

  /** The run without credentials: the same schedule on a simulated remainder. `initial` is None
      when neither a size nor credentials are given. */
  method DryRun(c: Config, r: Rules, initial: Option<real>) returns (orders: seq<real>, remaining: Option<real>, stop: Stop)
    ensures stop.NoOrders? <==> c.orderCount == 0
    ensures stop.NoSize? <==> c.orderCount > 0 && initial.None?
    ensures c.orderCount > 0 && initial.Some? && initial.value > 0.0 ==>
              && orders == Plan(c, r, initial.value, initial.value, 0)
              && remaining == Some(Left(c, r, initial.value, initial.value, 0))
    ensures stop.NoOrders? || stop.NoSize? ==> orders == []
    ensures c.orderCount > 0 && initial.Some? && initial.value <= 0.0 ==> stop.NothingLeft? && orders == []
  {
    hide FloorOrderSize, Slice, Plan, Left;
    orders, remaining := [], initial;
    if c.orderCount == 0 {
      return orders, remaining, NoOrders;
    }
    if initial.None? {
      return orders, remaining, NoSize;
    }
    var idx := 0;
    while idx < c.orderCount
      invariant 0 <= idx <= c.orderCount && remaining.Some?
      invariant initial.value <= 0.0 ==> idx == 0 && orders == [] && remaining == initial
      invariant initial.value > 0.0 ==>
                  && 0.0 <= remaining.value
                  && orders + Plan(c, r, initial.value, remaining.value, idx) == Plan(c, r, initial.value, initial.value, 0)
                  && Left(c, r, initial.value, remaining.value, idx) == Left(c, r, initial.value, initial.value, 0)
    {
      var current := remaining.value;
      if current <= 0.0 {
        PlanEnds(c, r, initial.value, current, idx);
        assert orders + [] == orders;
        return orders, remaining, NothingLeft;
      }
      var raw := if c.sliceMode.Remaining? then Slice(current, c.percent) else Slice(initial.value, c.percent);
      if c.lastOrderAll && idx == c.orderCount - 1 {
        raw := current;
      }
      var size := FloorOrderSize(r, MinReal(raw, current));
      PlanStep(c, r, initial.value, current, idx, orders);
      orders := orders + [size];
      if size > 0.0 {
        remaining := Some(if current - size > 0.0 then current - size else 0.0);
      }
      idx := idx + 1;
    }
    PlanEnds(c, r, initial.value, remaining.value, idx);
    assert orders + [] == orders;
    stop := Finished;
  }

  // ---------- what every order and every schedule keeps ----------

  /** An order is a whole number of steps, at least the minimum, and at most what remains. */
  lemma OrderFits(c: Config, r: Rules, idx: nat, current: real, base: real)
    requires current > 0.0
    ensures var size := OrderSize(c, r, idx, current, base);
            && 0.0 <= size <= current
            && (size != 0.0 ==> IsMultiple(size, Step(r)) && size >= Min(r))
  {
    hide FloorOrderSize, Min, Step, RawSize;
    var raw := RawSize(c, idx, current, base);
    FloorFits(r, MinReal(raw, current));
    FloorOfNothing(r, MinReal(raw, current));
  }

  lemma FloorOfNothing(r: Rules, raw: real)
    ensures raw <= 0.0 ==> FloorOrderSize(r, raw) == 0.0
  {}

  /** What an order asks for: all that is left, or its percentage of what is left or of the initial size. */
  ghost predicate Asked(c: Config, idx: nat, current: real, initial: real, want: real) {
    if c.lastOrderAll && idx == c.orderCount - 1 then want == current
    else 100.0 * want == Mul(if c.sliceMode.Remaining? then current else initial, c.percent)
  }

  /** The largest whole number of steps that is neither above `want` nor above what is left, unless it
      is below the minimum. */
  ghost predicate Largest(r: Rules, want: real, current: real, size: real) {
    && size >= 0.0
    && (size != 0.0 ==> IsMultiple(size, Step(r)) && Min(r) <= size <= want && size <= current)
    && forall k: int | k > 0 && Min(r) <= Steps(k, Step(r)) <= want && Steps(k, Step(r)) <= current ::
         Steps(k, Step(r)) <= size
  }

  ghost predicate AskedFor(c: Config, r: Rules, idx: nat, current: real, initial: real, size: real) {
    exists want: real :: Asked(c, idx, current, initial, want) && Largest(r, want, current, size)
  }

  lemma SliceIsPercent(whole: real, percent: real)
    ensures 100.0 * Slice(whole, percent) == Mul(whole, percent)
  {}

  lemma StepsArePositive(k: int, step: real)
    requires k > 0 && step > 0.0
    ensures Steps(k, step) > 0.0
  {}

  lemma FloorIsLargest(r: Rules, want: real, current: real)
    ensures Largest(r, want, current, FloorOrderSize(r, MinReal(want, current)))
  {
    hide RoundDown, Min, Step, Steps;
    var raw := MinReal(want, current);
    if raw > 0.0 {
      RoundDownBounds(raw, Step(r));
      RoundDownIsLargest(raw, Step(r), 0);
    }
    forall k: int | k > 0 && Min(r) <= Steps(k, Step(r)) <= want && Steps(k, Step(r)) <= current
      ensures Steps(k, Step(r)) <= FloorOrderSize(r, raw)
    {
      StepsArePositive(k, Step(r));
      RoundDownIsLargest(raw, Step(r), k);
    }
  }

  lemma OrderIsLargest(c: Config, r: Rules, idx: nat, current: real, initial: real)
    ensures AskedFor(c, r, idx, current, initial, OrderSize(c, r, idx, current, initial))
  {
    hide FloorOrderSize, Largest, Mul;
    var want := RawSize(c, idx, current, initial);
    SliceIsPercent(initial, c.percent);
    SliceIsPercent(current, c.percent);
    assert Asked(c, idx, current, initial, want) by { hide Slice; }
    FloorIsLargest(r, want, current);
  }

  /** The orders one by one, each against what is left at its turn, until nothing is. */
  ghost predicate Scheduled(c: Config, r: Rules, initial: real, remaining: real, idx: nat, orders: seq<real>)
    decreases c.orderCount - idx
  {
    if idx >= c.orderCount || remaining <= 0.0 then orders == []
    else
      && orders != [] && AskedFor(c, r, idx, remaining, initial, orders[0])
      && Scheduled(c, r, initial, remaining - orders[0], idx + 1, orders[1..])
  }

  /** Every order of a schedule is the largest its turn allows. */
  lemma {:induction false} ScheduleIsLargest(c: Config, r: Rules, initial: real, remaining: real, idx: nat)
    ensures Scheduled(c, r, initial, remaining, idx, Plan(c, r, initial, remaining, idx))
    decreases c.orderCount - idx
  {
    hide OrderSize, AskedFor;
    if idx < c.orderCount && remaining > 0.0 {
      var size := OrderSize(c, r, idx, remaining, initial);
      OrderIsLargest(c, r, idx, remaining, initial);
      ScheduleIsLargest(c, r, initial, remaining - size, idx + 1);
      assert Plan(c, r, initial, remaining, idx)[1..] == Plan(c, r, initial, remaining - size, idx + 1);
    }
  }

  /** The digits that an order may have after the point: those of the minimum, if sizes are decimal. */
  function Places(r: Rules): nat {
    if r.enableDecimal && r.orderSizeMin.exponent < 0 then -r.orderSizeMin.exponent else 0
  }

  lemma StepIsLastPlace(r: Rules)
    ensures Mul(Step(r), TenTo(Places(r))) == 1.0
  {
    assert TenTo(0) == 1.0;
    hide TenTo;
    var p := TenTo(Places(r));
    assert Step(r) == 1.0 / p;
  }

  function Sum(orders: seq<real>): real {
    if orders == [] then 0.0 else orders[0] + Sum(orders[1..])
  }

  /** Each order is nothing, or a whole number of steps that is at least the minimum and at most
      what remains at its turn. */
  ghost predicate OrdersFit(r: Rules, orders: seq<real>, remaining: real) {
    orders == [] || (
      && 0.0 <= orders[0] <= remaining
      && (orders[0] != 0.0 ==> IsMultiple(orders[0], Step(r)) && orders[0] >= Min(r))
      && OrdersFit(r, orders[1..], remaining - orders[0]))
  }

  /** The orders and the final remainder add up to the initial size, and every order fits. */
  lemma {:induction false} ScheduleConserves(c: Config, r: Rules, initial: real, remaining: real, idx: nat)
    requires remaining >= 0.0
    ensures var (orders, left) := (Plan(c, r, initial, remaining, idx), Left(c, r, initial, remaining, idx));
            Sum(orders) + left == remaining && left >= 0.0 && OrdersFit(r, orders, remaining)
    decreases c.orderCount - idx
  {
    hide OrderSize, Min, Step, IsMultiple;
    if idx < c.orderCount && remaining > 0.0 {
      var size := OrderSize(c, r, idx, remaining, initial);
      OrderFits(c, r, idx, remaining, initial);
      ScheduleConserves(c, r, initial, remaining - size, idx + 1);
      assert Plan(c, r, initial, remaining, idx)[1..] == Plan(c, r, initial, remaining - size, idx + 1);
    }
  }

  /** With `last_order_all`, the last order takes everything it can: what is left is nothing, or a
      part of a step, or a rounded remainder below the minimum. */
  lemma {:induction false} LastOrderTakesAll(c: Config, r: Rules, initial: real, remaining: real, idx: nat)
    requires c.lastOrderAll && remaining >= 0.0 && idx < c.orderCount
    ensures var left := Left(c, r, initial, remaining, idx);
            left == 0.0 || left < Step(r) || RoundDown(left, Step(r)) < Min(r)
    decreases c.orderCount - idx
  {
    hide Min, Step, RoundDown;
    if remaining > 0.0 {
      var size := OrderSize(c, r, idx, remaining, initial);
      OrderFits(c, r, idx, remaining, initial);
      if idx + 1 < c.orderCount {
        LastOrderTakesAll(c, r, initial, remaining - size, idx + 1);
      } else {
        RoundDownBounds(remaining, Step(r));
      }
    }
  }

  /** Starting from a whole number of steps, what is left is nothing or below the minimum. */
  lemma {:induction false} AlignedStartLeavesNothing(c: Config, r: Rules, initial: real, remaining: real, idx: nat)
    requires c.lastOrderAll && remaining >= 0.0 && idx < c.orderCount && IsMultiple(remaining, Step(r))
    ensures var left := Left(c, r, initial, remaining, idx); left == 0.0 || left < Min(r)
    decreases c.orderCount - idx
  {
    hide Min, Step, RoundDown;
    if remaining > 0.0 {
      var size := OrderSize(c, r, idx, remaining, initial);
      OrderFits(c, r, idx, remaining, initial);
      if size == 0.0 { assert size == Steps(0, Step(r)); }
      MultipleMinus(remaining, size, Step(r));
      if idx + 1 < c.orderCount {
        AlignedStartLeavesNothing(c, r, initial, remaining - size, idx + 1);
      } else {
        RoundDownOfMultiple(remaining, Step(r));
      }
    }
  }

  function Tens(n: nat): (p: nat)
    ensures p >= 1
  {
    if n == 0 then 1 else 10 * Tens(n - 1)
  }

  lemma {:induction false} TensAreTen(n: nat)
    ensures TenTo(n) == Tens(n) as real
  {
    if n > 0 { TensAreTen(n - 1); }
  }

  /** What the payload shows: decimal sizes, a minimum without decimals, or one whose decimals are zero. */
  predicate MinimumIsWhole(r: Rules) {
    var d := r.orderSizeMin;
    r.enableDecimal || d.exponent >= 0 || d.coefficient % Tens(-d.exponent) == 0
  }

  lemma WholeQuotient(a: int, p: nat)
    requires p > 0
    ensures IsMultiple(a as real, p as real) <==> a % p == 0
  {
    if a % p == 0 {
      ProductOfWholes(a / p, p);
      assert a as real == Steps(a / p, p as real);
    }
    if IsMultiple(a as real, p as real) {
      var k: int :| a as real == Steps(k, p as real);
      ProductOfWholes(k, p);
      MultipleModulo(k, p, a);
    }
  }

  lemma MultipleModulo(k: int, p: nat, a: int)
    requires p > 0 && a == k * p
    ensures a % p == 0
  {
    assert p * (k - a / p) == a % p;
    NoneInside(p, k - a / p);
  }

  lemma NoneInside(p: nat, d: int)
    requires 0 <= p * d < p
    ensures d == 0
  {}

  lemma QuotientIs(a: real, p: real, k: real)
    requires p > 0.0
    ensures a * (1.0 / p) == Mul(k, 1.0) <==> a == Mul(k, p)
  {
    assert a * (1.0 / p) == a / p;
  }

  lemma ScaledMultiple(x: real, p: real)
    requires p > 0.0
    ensures IsMultiple(x * (1.0 / p), 1.0) <==> IsMultiple(x, p)
  {
    hide Mul;
    var y := x * (1.0 / p);
    if IsMultiple(y, 1.0) {
      var k: int :| y == Steps(k, 1.0);
      QuotientIs(x, p, k as real);
      assert x == Steps(k, p);
    }
    if IsMultiple(x, p) {
      var k: int :| x == Steps(k, p);
      QuotientIs(x, p, k as real);
      assert y == Steps(k, 1.0);
    }
  }

  lemma FractionalMinimumInSteps(r: Rules)
    requires !r.enableDecimal && r.orderSizeMin.exponent < 0
    ensures IsMultiple(Min(r), Step(r)) <==> MinimumIsWhole(r)
  {
    hide IsMultiple, TenTo, Tens;
    var d := r.orderSizeMin;
    TensAreTen(-d.exponent);
    WholeQuotient(d.coefficient, Tens(-d.exponent));
    var p := TenTo(-d.exponent);
    assert Power10(d.exponent) == 1.0 / p;
    assert Min(r) == d.coefficient as real * (1.0 / p) && Step(r) == 1.0;
    ScaledMultiple(d.coefficient as real, p);
  }

  /** The minimum is a whole number of steps exactly when the payload shows it. */
  lemma MinimumInSteps(r: Rules)
    ensures IsMultiple(Min(r), Step(r)) <==> MinimumIsWhole(r)
  {
    hide TenTo, Tens;
    var d := r.orderSizeMin;
    if d.exponent >= 0 {
      TensAreTen(d.exponent);
      ProductOfWholes(d.coefficient, Tens(d.exponent));
      assert Min(r) == Steps(d.coefficient * Tens(d.exponent), Step(r));
    } else if r.enableDecimal {
      assert Min(r) == Steps(d.coefficient, Step(r));
    } else {
      FractionalMinimumInSteps(r);
    }
  }

  lemma ProductOfWholes(a: int, b: int)
    ensures a as real * b as real == (a * b) as real
  {}

  /** Whatever the schedule, the last order leaves nothing or less than the minimum. */
  ghost predicate LeavesNothing(r: Rules) {
    forall c: Config, initial: real | c.lastOrderAll && c.orderCount > 0 && initial >= 0.0 ::
      var left := Left(c, r, initial, initial, 0); left == 0.0 || left < Min(r)
  }

  lemma WholeMinimumLeavesNothing(c: Config, r: Rules, initial: real)
    requires c.lastOrderAll && c.orderCount > 0 && initial >= 0.0
    requires IsMultiple(Min(r), Step(r)) && Min(r) > 0.0
    ensures var left := Left(c, r, initial, initial, 0); left == 0.0 || left < Min(r)
  {
    hide Min, Step, RoundDown, Left, Steps;
    var left := Left(c, r, initial, initial, 0);
    LastOrderTakesAll(c, r, initial, initial, 0);
    ScheduleConserves(c, r, initial, initial, 0);
    if left >= Min(r) {
      var k: int :| Min(r) == Steps(k, Step(r));
      RoundDownIsLargest(left, Step(r), k);
      StepAtMostMultiple(Min(r), Step(r));
    }
  }

  /** A single order for everything leaves it all when it rounds to nothing or below the minimum. */
  lemma SingleOrderLeaves(r: Rules, start: real)
    requires start > 0.0 && (RoundDown(start, Step(r)) < Min(r) || RoundDown(start, Step(r)) == 0.0)
    ensures Left(Config(Sell, 1, 100.0, Remaining, true), r, start, start, 0) == start
  {
    hide Min, Step, RoundDown;
    var c := Config(Sell, 1, 100.0, Remaining, true);
    assert OrderSize(c, r, 0, start, start) == FloorOrderSize(r, start) == 0.0;
    assert Left(c, r, start, start, 0) == Left(c, r, start, start, 1) == start;
  }

  lemma HalfAStep(step: real)
    requires step > 0.0
    ensures RoundDown(step / 2.0, step) == 0.0
  {
    assert (step / 2.0) / step == 0.5;
    assert (0.5 as real).Floor == 0;
    MulBasics(0.0, step);
  }

  /** From any start, aligned or not, the last order leaves nothing tradable exactly when the minimum is
      a positive whole number of steps. Otherwise an order for exactly the minimum rounds below it, and
      all of it is left. */
  lemma NothingLeftIffWholeMinimum(r: Rules)
    ensures LeavesNothing(r) <==> Min(r) > 0.0 && MinimumIsWhole(r)
  {
    MinimumInSteps(r);
    hide Min, Step, RoundDown, Left, MinimumIsWhole, IsMultiple;
    if Min(r) > 0.0 && MinimumIsWhole(r) {
      forall c: Config, initial: real | c.lastOrderAll && c.orderCount > 0 && initial >= 0.0
        ensures var left := Left(c, r, initial, initial, 0); left == 0.0 || left < Min(r)
      {
        WholeMinimumLeavesNothing(c, r, initial);
      }
    } else {
      var start := if Min(r) > 0.0 then Min(r) else Step(r) / 2.0;
      if Min(r) > 0.0 {
        RoundDownBounds(start, Step(r));
        RoundDownIsLargest(start, Step(r), 0);
        assert RoundDown(start, Step(r)) != start;
      } else {
        HalfAStep(Step(r));
      }
      SingleOrderLeaves(r, start);
      var c := Config(Sell, 1, 100.0, Remaining, true);
      assert Left(c, r, start, start, 0) == start;
    }
  }

  lemma StepAtMostMultiple(x: real, step: real)
    requires step > 0.0 && x > 0.0 && IsMultiple(x, step)
    ensures step <= x
  {
    var k: int :| x == Steps(k, step);
    MulBasics(0.0, step);
    MulMonotone(k as real, 0.0, step);
    MulMonotone(1.0, k as real, step);
    assert k > 0;
  }

  /** For example whole contracts with a minimum of 0.5, and a start of 0.7. */
  lemma FractionalMinimumCanLeaveMore()
    ensures var r := Rules(Decimal(5, -1), false);
            var c := Config(Sell, 1, 1.0, Initial, true);
            !MinimumIsWhole(r) && Min(r) == 0.5 && Left(c, r, 0.7, 0.7, 0) == 0.7
  {
    var r := Rules(Decimal(5, -1), false);
    var c := Config(Sell, 1, 1.0, Initial, true);
    assert TenTo(1) == 10.0 * TenTo(0) && Tens(1) == 10 * Tens(0);
    assert Power10(-1) == 0.1;
    assert Min(r) == 0.5;
    assert Step(r) == 1.0 && (0.7 / 1.0).Floor == 0;
    assert RoundDown(0.7, 1.0) == 0.0;
    assert OrderSize(c, r, 0, 0.7, 0.7) == 0.0;
  }

  // ---------- live positions ----------

  /** How much of a signed position this side can reduce. */
  function Reducible(side: Side, position: real): real {
    match side
    case Sell => if position > 0.0 then position else 0.0
    case Buy => if position < 0.0 then -position else 0.0
  }

  function Signed(side: Side, size: real): real {
    match side
    case Sell => -size
    case Buy => size
  }

  /** The size due at a position reading. */
  function LiveSize(c: Config, r: Rules, initial: Option<real>, positions: seq<real>, k: nat): real
    requires k < |positions|
  {
    var current := Reducible(c.side, positions[k]);
    OrderSize(c, r, k, current, if initial.Some? then initial.value else current)
  }

  /** Every reading up to `k` shows something to reduce. */
  ghost predicate StillOpen(c: Config, positions: seq<real>, k: nat)
    requires k < |positions|
  {
    forall j :: 0 <= j <= k ==> Reducible(c.side, positions[j]) > 0.0
  }

  /** With credentials each order is sized from the position read just before it. */
  method LiveRun(c: Config, r: Rules, initial: Option<real>, positions: seq<real>) returns (sent: seq<(nat, real)>)
    requires |positions| == c.orderCount
    // Exactly the positive sizes due before nothing is reducible any more are sent, in time order.
    ensures forall o :: o in sent <==>
              o.0 < c.orderCount && StillOpen(c, positions, o.0) && o.1 == LiveSize(c, r, initial, positions, o.0) && o.1 > 0.0
    ensures forall i, j :: 0 <= i < j < |sent| ==> sent[i].0 < sent[j].0
  {
    hide OrderSize;
    sent := [];
    for idx := 0 to c.orderCount
      invariant forall o :: o in sent <==>
                  o.0 < idx && StillOpen(c, positions, o.0) && o.1 == LiveSize(c, r, initial, positions, o.0) && o.1 > 0.0
      invariant forall i :: 0 <= i < |sent| ==> sent[i] in sent && sent[i].0 < idx
      invariant forall i, j :: 0 <= i < j < |sent| ==> sent[i].0 < sent[j].0
      invariant forall k :: 0 <= k < idx ==> Reducible(c.side, positions[k]) > 0.0
    {
      var current := Reducible(c.side, positions[idx]);
      if current <= 0.0 {
        return;
      }
      var size := OrderSize(c, r, idx, current, if initial.Some? then initial.value else current);
      assert size == LiveSize(c, r, initial, positions, idx);
      if size <= 0.0 {
        continue;
      }
      sent := sent + [(idx, size)];
    }
  }

  /** A live order is the largest its turn allows, of a long position to sell or a short one to buy back. */
  lemma LiveSizeIsLargest(c: Config, r: Rules, initial: Option<real>, positions: seq<real>, k: nat)
    requires k < |positions|
    ensures Reducible(c.side, positions[k]) > 0.0 <==> if c.side.Sell? then positions[k] > 0.0 else positions[k] < 0.0
    ensures Reducible(c.side, positions[k]) > 0.0 ==>
              var held := if c.side.Sell? then positions[k] else 0.0 - positions[k];
              AskedFor(c, r, k, held, if initial.Some? then initial.value else held, LiveSize(c, r, initial, positions, k))
  {
    hide OrderSize, AskedFor;
    var held := Reducible(c.side, positions[k]);
    OrderIsLargest(c, r, k, held, if initial.Some? then initial.value else held);
  }

  /** A live order shrinks its position toward zero and never across it. */
  lemma OrderNeverFlips(c: Config, r: Rules, idx: nat, position: real, base: real)
    requires Reducible(c.side, position) > 0.0
    ensures var after := position + Signed(c.side, OrderSize(c, r, idx, Reducible(c.side, position), base));
            match c.side
            case Sell => 0.0 <= after <= position
            case Buy => position <= after <= 0.0
  {
    OrderFits(c, r, idx, Reducible(c.side, position), base);
  }
}
