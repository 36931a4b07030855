/**
 The best-bid-offer stream (backend/app/exchanges/hyperliquid_bbo.py): a quote cache fed by one
 socket, a capped set of wanted coins, a sender that reconciles subscriptions with it one message
 at a time, and a per-second message counter of bounded length.
 */
module HyperliquidBbo {
  import opened Wrappers
  import opened Coins

  const QUOTE_MAX_AGE := 120.0
  const BUCKETS := 301
  const STATS_SECONDS := 300
  const MIN_TIME := 946_684_800_000
  const MAX_TIME := 4_102_444_800_000

  datatype Config = Config(maxCoins: nat, maxAge: real)

  /** One side of the book; a missing, unparseable or non-finite number is None. */
  datatype Level = Null | NotAnObject | Book(price: Option<real>, size: Option<real>)

  /** A websocket message as far as it can be read. A field of the wrong type is None. */
  datatype Message =
    | Unparseable
    | OtherChannel
    | Bbo(coin: Option<string>, levels: Option<seq<Level>>, time: Option<int>)

  datatype Quote = Quote(
    bid: Option<real>, bidSize: Option<real>, ask: Option<real>, askSize: Option<real>, time: int, received: real)

  /** Messages counted in one whole second. */
  datatype Bucket = Bucket(second: int, count: nat)

  datatype Send = Subscribe(coin: string) | Unsubscribe(coin: string)

  /** `lastMessageAt` is None for minus infinity; `inFlight` is a send not yet acknowledged. */
  datatype Stream = Stream(
    coins: set<string>, quotes: map<string, Quote>, subscribed: set<string>, connected: bool,
    lastMessageAt: Option<real>, counts: seq<Bucket>, inFlight: Option<Send>)

  const FRESH := Stream({}, map[], {}, false, None, [], None)

  /** `int(x)`: truncation toward zero. */
  function Trunc(x: real): int {
    if x >= 0.0 then x.Floor else -((-x).Floor)
  }

  // ---------- messages ----------

  /** `_level`: None when it raises, else the price and size of one side, both absent for null. */
  function ReadLevel(l: Level): Option<(Option<real>, Option<real>)> {
    match l
    case Null => Some((None, None))
    case NotAnObject => None
    case Book(price, size) =>
      if price.Some? && size.Some? && price.value > 0.0 && size.value > 0.0 then Some((price, size)) else None
  }

  /** The quote a message carries, if it is well formed. */
  function ReadQuote(m: Message, received: real): Option<Quote> {
    if !m.Bbo? || m.levels.None? || |m.levels.value| != 2 || m.time.None? || !(MIN_TIME <= m.time.value <= MAX_TIME) then None
    else
      var (bid, ask) := (ReadLevel(m.levels.value[0]), ReadLevel(m.levels.value[1]));
      if bid.None? || ask.None? then None
      else Some(Quote(bid.value.0, bid.value.1, ask.value.0, ask.value.1, m.time.value, received))
  }

  predicate Names(m: Message, coin: string) {
    m.Bbo? && m.coin == Some(coin)
  }

  /** The message is about a wanted coin. */
  predicate Concerns(coins: set<string>, m: Message) {
    m.Bbo? && m.coin.Some? && m.coin.value in coins
  }

  /** Count one message in its second; a full deque drops its oldest bucket. */
  function Counted(counts: seq<Bucket>, second: int): seq<Bucket> {
    if counts != [] && counts[|counts| - 1].second == second then
      counts[|counts| - 1 := Bucket(second, counts[|counts| - 1].count + 1)]
    else
      (if |counts| >= BUCKETS then counts[1..] else counts) + [Bucket(second, 1)]
  }

  function Handled(s: Stream, m: Message, now: real): Stream {
    if !Concerns(s.coins, m) then s
    else
      var q := ReadQuote(m, now);
      if q.None? then s.(quotes := s.quotes - {m.coin.value})
      else s.(quotes := s.quotes[m.coin.value := q.value], lastMessageAt := Some(now), counts := Counted(s.counts, Trunc(now)))
  }

  predicate InAge(at: Option<real>, now: real, limit: real) {
    at.Some? && 0.0 <= now - at.value <= limit
  }

  predicate Executable(q: Quote) {
    && q.bid.Some? && q.ask.Some? && 0.0 < q.bid.value < q.ask.value
    && q.bidSize.Some? && q.askSize.Some? && q.bidSize.value > 0.0 && q.askSize.value > 0.0
  }

  function Fresh(cfg: Config, s: Stream, coin: string, now: real): Option<Quote> {
    if coin in s.quotes && s.connected
       && InAge(s.lastMessageAt, now, cfg.maxAge)
       && InAge(Some(s.quotes[coin].received), now, QUOTE_MAX_AGE)
       && Executable(s.quotes[coin])
    then Some(s.quotes[coin])
    else None
  }

  function CountAfter(counts: seq<Bucket>, cutoff: int): nat {
    if counts == [] then 0
    else CountAfter(counts[..|counts| - 1], cutoff) + if counts[|counts| - 1].second > cutoff then counts[|counts| - 1].count else 0
  }

  // ---------- wanted coins and subscriptions ----------

  /** Names that can be subscribed to: not empty, not spot (`@...`), not a pair. */
  predicate Acceptable(coin: string) {
    coin != [] && coin[0] != '@' && '/' !in coin
  }

  function Candidates(requested: set<string>): set<string> {
    set c | c in requested && Acceptable(c)
  }

  function Wanted(cfg: Config, s: Stream, requested: set<string>): Stream {
    var selected := Choose(Candidates(requested), s.subscribed, cfg.maxCoins);
    s.(quotes := s.quotes - (s.coins - selected), coins := selected)
  }

  /** What the sender would send now: unsubscriptions first, in name order. */
  function NextSend(s: Stream): Option<Send> {
    var (removed, added) := (s.subscribed - s.coins, s.coins - s.subscribed);
    if removed != {} then Some(Unsubscribe(First(removed, {})))
    else if added != {} then Some(Subscribe(First(added, {})))
    else None
  }

  function Apply(subscribed: set<string>, m: Send): set<string> {
    match m
    case Subscribe(c) => subscribed + {c}
    case Unsubscribe(c) => subscribed - {c}
  }

  function Opened(s: Stream): Stream {
    s.(quotes := map[], lastMessageAt := None, connected := true)
  }

  function Closed(s: Stream): Stream {
    s.(connected := false, subscribed := {}, inFlight := None)
  }

  // ---------- the stream object ----------

  class HyperliquidBboStream {
    const cfg: Config
    var coins: set<string>
    var quotes: map<string, Quote>
    var subscribed: set<string>
    var connected: bool
    var lastMessageAt: Option<real>
    var counts: seq<Bucket>
    var inFlight: Option<Send>

    constructor (cfg: Config)
      ensures this.cfg == cfg && State() == FRESH
    {
      this.cfg := cfg;
      coins, quotes, subscribed, connected := {}, map[], {}, false;
      lastMessageAt, counts, inFlight := None, [], None;
    }

    function State(): Stream
      reads this
    {
      Stream(coins, quotes, subscribed, connected, lastMessageAt, counts, inFlight)
    }

    method SetCoins(requested: set<string>) returns (changed: bool)
      modifies `coins, `quotes
      ensures State() == Wanted(cfg, old(State()), requested)
      ensures changed <==> coins != old(coins)
    {
      var candidates := set c | c in requested && Acceptable(c);
      var selected := Choose(candidates, subscribed, cfg.maxCoins);
      changed := selected != coins;
      if !changed {
        assert coins - selected == {} && quotes - (coins - selected) == quotes;
        return;
      }
      quotes := quotes - (coins - selected);
      coins := selected;
    }

    method HandleMessage(m: Message, now: real)
      modifies `quotes, `lastMessageAt, `counts
      ensures State() == Handled(old(State()), m, now)
    {
      if !m.Bbo? || m.coin.None? || m.coin.value !in coins {
        return;
      }
      var coin := m.coin.value;
      ghost var before := quotes;
      // A malformed update for a known market must not leave its old book executable.
      quotes := quotes - {coin};
      if m.levels.None? || |m.levels.value| != 2 {
        return;
      }
      if m.time.None? || !(MIN_TIME <= m.time.value <= MAX_TIME) {
        return;
      }
      var bid := ReadLevel(m.levels.value[0]);
      var ask := ReadLevel(m.levels.value[1]);
      if bid.None? || ask.None? {
        return;
      }
      lastMessageAt := Some(now);
      quotes := quotes[coin := Quote(bid.value.0, bid.value.1, ask.value.0, ask.value.1, m.time.value, now)];
      assert quotes == before[coin := quotes[coin]];
      var second := Trunc(now);
      if counts != [] && counts[|counts| - 1].second == second {
        counts := counts[|counts| - 1 := Bucket(second, counts[|counts| - 1].count + 1)];
      } else {
        if |counts| >= BUCKETS {
          counts := counts[1..];
        }
        counts := counts + [Bucket(second, 1)];
      }
    }

    method GetFresh(coin: string, now: real) returns (q: Option<Quote>)
      ensures q == Fresh(cfg, State(), coin, now)
    {
      if coin !in quotes || !connected
         || !InAge(lastMessageAt, now, cfg.maxAge)
         || !InAge(Some(quotes[coin].received), now, QUOTE_MAX_AGE) {
        return None;
      }
      return if Executable(quotes[coin]) then Some(quotes[coin]) else None;
    }

    method MessagesInFiveMinutes(now: real) returns (n: nat)
      ensures n == CountAfter(counts, Trunc(now) - STATS_SECONDS)
    {
      n := 0;
      var i := 0;
      while i < |counts|
        invariant 0 <= i <= |counts|
        invariant n == CountAfter(counts[..i], Trunc(now) - STATS_SECONDS)
      {
        assert counts[..i + 1][..i] == counts[..i];
        if counts[i].second > Trunc(now) - STATS_SECONDS {
          n := n + counts[i].count;
        }
        i := i + 1;
      }
      assert counts[..i] == counts;
    }

    /** The socket is up: books of an earlier connection may have missed updates. */
    method Open()
      modifies this
      ensures State() == Opened(old(State()))
    {
      quotes, lastMessageAt, connected := map[], None, true;
    }

    method Close()
      modifies this
      ensures State() == Closed(old(State()))
    {
      connected, subscribed, inFlight := false, {}, None;
    }

    /** The sender picks its next message, from the sets as they are now. */
    method StartSend()
      requires inFlight.None?
      modifies `inFlight
      ensures State() == old(State()).(inFlight := NextSend(old(State())))
    {
      var removed, added := subscribed - coins, coins - subscribed;
      if removed != {} {
        inFlight := Some(Unsubscribe(First(removed, {})));
      } else if added != {} {
        inFlight := Some(Subscribe(First(added, {})));
      }
    }

    /** The message has gone out; `coins` may have changed meanwhile. */
    method FinishSend()
      requires inFlight.Some?
      modifies `subscribed, `inFlight
      ensures State() == old(State()).(subscribed := Apply(old(subscribed), old(inFlight).value), inFlight := None)
    {
      match inFlight.value {
        case Subscribe(c) => subscribed := subscribed + {c};
        case Unsubscribe(c) => subscribed := subscribed - {c};
      }
      inFlight := None;
    }
  }
}
