/** What the best-bid-offer stream keeps over whole runs. */
module BboRuns {
  import opened Wrappers
  import opened Coins
  import opened HyperliquidBbo
  import Sets

  datatype Event =
    | SetCoins(requested: set<string>)
    | Open
    | Close
    | Received(message: Message, at: real)
    | StartSend
    | FinishSend

  /** The sender runs only while the socket is up, one message at a time. */
  function Step(cfg: Config, s: Stream, e: Event): Stream {
    match e
    case SetCoins(requested) => Wanted(cfg, s, requested)
    case Open => Opened(s)
    case Close => Closed(s)
    case Received(m, at) => Handled(s, m, at)
    case StartSend => if s.connected && s.inFlight.None? then s.(inFlight := NextSend(s)) else s
    case FinishSend =>
      if s.connected && s.inFlight.Some? then s.(subscribed := Apply(s.subscribed, s.inFlight.value), inFlight := None) else s
  }

  function After(cfg: Config, events: seq<Event>): Stream {
    if events == [] then FRESH
    else Step(cfg, After(cfg, events[..|events| - 1]), events[|events| - 1])
  }

  // ---------- what a message says, read off its own fields ----------

  /** One side of a book: null, or a positive price and size. */
  predicate Readable(l: Level) {
    l.Null? || (l.Book? && l.price.Some? && l.price.value > 0.0 && l.size.Some? && l.size.value > 0.0)
  }

  /** Two readable sides, and a time in milliseconds between the years 2000 and 2100. */
  predicate WellFormed(m: Message) {
    && m.Bbo? && m.levels.Some? && |m.levels.value| == 2 && Readable(m.levels.value[0]) && Readable(m.levels.value[1])
    && m.time.Some? && 946_684_800_000 <= m.time.value <= 4_102_444_800_000
  }

  function PriceOf(l: Level): Option<real> { if l.Book? then l.price else None }

  function SizeOf(l: Level): Option<real> { if l.Book? then l.size else None }

  /** The first level is the bid, the second the ask. */
  function Said(m: Message, at: real): Quote
    requires WellFormed(m)
  {
    var (first, second) := (m.levels.value[0], m.levels.value[1]);
    Quote(PriceOf(first), SizeOf(first), PriceOf(second), SizeOf(second), m.time.value, at)
  }

  lemma ReadingIsSaid(m: Message, at: real)
    ensures ReadQuote(m, at) == if WellFormed(m) then Some(Said(m, at)) else None
    ensures WellFormed(m) ==> m.Bbo?
  {}

  /** A message about a wanted coin replaces its quote by what its two levels say, or removes it exactly
      when a side cannot be read or the time is missing or out of range; every other quote stays, and only a
      well-formed message counts and is heard. Any other message changes nothing. */
  lemma MessageIsRead(s: Stream, m: Message, now: real, coin: string)
    ensures var after := Handled(s, m, now);
            if m.Bbo? && m.coin == Some(coin) && coin in s.coins then
              && (coin in after.quotes <==> WellFormed(m))
              && (WellFormed(m) ==>
                    var (q, first, second) := (after.quotes[coin], m.levels.value[0], m.levels.value[1]);
                    && q.bid == PriceOf(first) && q.bidSize == SizeOf(first)
                    && q.ask == PriceOf(second) && q.askSize == SizeOf(second)
                    && q.time == m.time.value && q.received == now)
              && after.quotes - {coin} == s.quotes - {coin}
              && after.lastMessageAt == (if WellFormed(m) then Some(now) else s.lastMessageAt)
              && (!WellFormed(m) ==> after.counts == s.counts)
            else if m.Bbo? && m.coin.Some? && m.coin.value in s.coins then
              (coin in after.quotes <==> coin in s.quotes) && (coin in s.quotes ==> after.quotes[coin] == s.quotes[coin])
            else after == s
    ensures var after := Handled(s, m, now);
            after == s.(quotes := after.quotes, lastMessageAt := after.lastMessageAt, counts := after.counts)
  {
    hide Counted, ReadQuote;
    ReadingIsSaid(m, now);
  }

  // ---------- quotes: the cache equals a replay of the log ----------

  datatype Word = Word(message: Message, at: real)

  predicate Connected(events: seq<Event>) {
    events != [] && (match events[|events| - 1]
                     case Open => true
                     case Close => false
                     case _ => Connected(events[..|events| - 1]))
  }

  /** The newest message naming `coin`, since the connection opened and since `coin` was last listed. */
  function LastWord(cfg: Config, events: seq<Event>, coin: string): Option<Word> {
    if events == [] then None
    else
      var before := events[..|events| - 1];
      WordAfter(After(cfg, before).coins, After(cfg, events).coins, events[|events| - 1], coin, LastWord(cfg, before, coin))
  }

  function WordAfter(coins: set<string>, coins': set<string>, e: Event, coin: string, word: Option<Word>): Option<Word> {
    match e
    case Open => None
    case SetCoins(_) => if coin in coins && coin in coins' then word else None
    case Received(m, at) => if Names(m, coin) && coin in coins then Some(Word(m, at)) else word
    case _ => word
  }

  /** When the newest well-formed message about a listed coin arrived, since the connection opened. */
  function LastHeard(cfg: Config, events: seq<Event>): Option<real> {
    if events == [] then None
    else
      var before := events[..|events| - 1];
      HeardAfter(After(cfg, before).coins, events[|events| - 1], LastHeard(cfg, before))
  }

  function HeardAfter(coins: set<string>, e: Event, heard: Option<real>): Option<real> {
    match e
    case Open => None
    case Received(m, at) => if WellFormed(m) && m.coin.Some? && m.coin.value in coins then Some(at) else heard
    case _ => heard
  }

  /** The quote of a coin, read off the log alone: two-sided, uncrossed, and young in both ways. */
  function Replayed(cfg: Config, events: seq<Event>, coin: string, now: real): Option<Quote> {
    var (word, heard) := (LastWord(cfg, events, coin), LastHeard(cfg, events));
    if !Connected(events) || word.None? || heard.None? || !WellFormed(word.value.message) then None
    else
      var (first, second) := (word.value.message.levels.value[0], word.value.message.levels.value[1]);
      if first.Book? && second.Book? && first.price.value < second.price.value
         && 0.0 <= now - heard.value <= cfg.maxAge && 0.0 <= now - word.value.at <= 120.0
      then Some(Said(word.value.message, word.value.at))
      else None
  }

  function QuoteOf(word: Option<Word>): Option<Quote> {
    if word.None? || !WellFormed(word.value.message) then None else Some(Said(word.value.message, word.value.at))
  }

  function Cached(s: Stream, coin: string): Option<Quote> {
    if coin in s.quotes then Some(s.quotes[coin]) else None
  }

  ghost predicate CacheOk(s: Stream, coin: string, word: Option<Word>, heard: Option<real>, connected: bool) {
    && Cached(s, coin) == QuoteOf(word)
    && (word.Some? ==> coin in s.coins)
    && s.lastMessageAt == heard
    && s.connected == connected
  }

  lemma CacheStep(cfg: Config, s: Stream, e: Event, coin: string, word: Option<Word>, heard: Option<real>, connected: bool)
    requires CacheOk(s, coin, word, heard, connected)
    ensures var s' := Step(cfg, s, e);
            CacheOk(s', coin, WordAfter(s.coins, s'.coins, e, coin, word), HeardAfter(s.coins, e, heard),
                    e.Open? || (connected && !e.Close?))
  {
    hide ReadQuote, Counted, Choose, NextSend, WellFormed, Said;
    if e.Received? { ReadingIsSaid(e.message, e.at); }
  }

  lemma {:induction false} CacheIsReplay(cfg: Config, events: seq<Event>, coin: string)
    ensures CacheOk(After(cfg, events), coin, LastWord(cfg, events, coin), LastHeard(cfg, events), Connected(events))
  {
    if events != [] {
      hide CacheOk, Step, WordAfter, HeardAfter;
      var before, e := events[..|events| - 1], events[|events| - 1];
      CacheIsReplay(cfg, before, coin);
      CacheStep(cfg, After(cfg, before), e, coin, LastWord(cfg, before, coin), LastHeard(cfg, before), Connected(before));
    }
  }

  /** Over any run of connects, disconnects, coin changes, messages and sends, a query returns
      exactly what a replay of the log does. */
  lemma FreshIsReplayed(cfg: Config, events: seq<Event>, coin: string, now: real)
    ensures Fresh(cfg, After(cfg, events), coin, now) == Replayed(cfg, events, coin, now)
  {
    hide After, LastWord, LastHeard, Connected;
    CacheIsReplay(cfg, events, coin);
  }

  /** Quotes are only ever kept for wanted coins. */
  lemma {:induction false} QuotesStayInside(cfg: Config, events: seq<Event>)
    ensures After(cfg, events).quotes.Keys <= After(cfg, events).coins
  {
    hide After, LastWord, LastHeard, Connected;
    forall coin | coin in After(cfg, events).quotes ensures coin in After(cfg, events).coins {
      CacheIsReplay(cfg, events, coin);
    }
  }

  // ---------- subscriptions ----------

  /** The sends completed on the current connection. */
  function Wire(cfg: Config, events: seq<Event>): seq<Send> {
    if events == [] then []
    else
      var before := events[..|events| - 1];
      var s := After(cfg, before);
      match events[|events| - 1]
      case Close => []
      case FinishSend => Wire(cfg, before) + if s.connected && s.inFlight.Some? then [s.inFlight.value] else []
      case _ => Wire(cfg, before)
  }

  /** The subscriptions the server holds after those messages. */
  function Fold(sends: seq<Send>): set<string> {
    if sends == [] then {} else Apply(Fold(sends[..|sends| - 1]), sends[|sends| - 1])
  }

  /** No message subscribes twice or unsubscribes what is not subscribed, and the server never
      holds more than `cap` subscriptions. */
  ghost predicate Disciplined(sends: seq<Send>, cap: nat) {
    sends == [] || (
      && Disciplined(sends[..|sends| - 1], cap)
      && |Fold(sends)| <= cap
      && match sends[|sends| - 1]
         case Subscribe(c) => c !in Fold(sends[..|sends| - 1])
         case Unsubscribe(c) => c in Fold(sends[..|sends| - 1]))
  }

  ghost predicate SubscribedOk(cfg: Config, s: Stream, wire: seq<Send>) {
    && s.subscribed == Fold(wire)
    && Disciplined(wire, cfg.maxCoins)
    && |s.subscribed| <= cfg.maxCoins && |s.coins| <= cfg.maxCoins
    && (s.inFlight.Some? ==>
          match s.inFlight.value
          case Subscribe(c) => c !in s.subscribed && |s.subscribed| < cfg.maxCoins
          case Unsubscribe(c) => c in s.subscribed)
  }

  /** The wanted coins are as many as the cap allows of the requested names that are not empty, do not begin
      with @ and hold no slash; the quotes of all others go. */
  lemma WantedAreAcceptable(cfg: Config, s: Stream, requested: set<string>)
    ensures var (after, fit) := (Wanted(cfg, s, requested).coins, set c: string | c in requested && c != "" && c[0] != '@' && '/' !in c);
            && after <= fit && |after| == (if |fit| <= cfg.maxCoins then |fit| else cfg.maxCoins)
    ensures var after := Wanted(cfg, s, requested);
            forall c :: c in after.quotes <==> c in s.quotes && !(c in s.coins && c !in after.coins)
  {
    var fit := set c: string | c in requested && c != "" && c[0] != '@' && '/' !in c;
    assert Candidates(requested) == fit;
    ChooseIsFirstFew(Candidates(requested), s.subscribed, cfg.maxCoins);
    hide Choose, Candidates;
  }

  /** Among the coins to drop, or else to add, the sender takes the first by name. */
  lemma SendsInNameOrder(s: Stream)
    ensures match NextSend(s)
            case None => s.subscribed == s.coins
            case Some(Unsubscribe(c)) =>
              c in s.subscribed - s.coins && forall d :: d in s.subscribed - s.coins && d != c ==> InOrderOf(c, d)
            case Some(Subscribe(c)) =>
              && s.subscribed <= s.coins
              && c in s.coins - s.subscribed && forall d :: d in s.coins - s.subscribed && d != c ==> InOrderOf(c, d)
  {
    var (removed, added) := (s.subscribed - s.coins, s.coins - s.subscribed);
    hide Before;
    forall c, d ensures Before(c, d) <==> InOrderOf(c, d) { BeforeIsDictionaryOrder(c, d); }
    if removed == {} {
      forall x | x in s.subscribed ensures x in s.coins {
        assert x !in removed;
      }
    }
    if removed == {} && added == {} { assert s.subscribed == s.coins; }
    if removed != {} { assert IsFirst(removed, {}, First(removed, {})); }
    else if added != {} { assert IsFirst(added, {}, First(added, {})); }
  }

  lemma NextSendIsUseful(s: Stream, cap: nat)
    requires |s.coins| <= cap
    ensures var n := NextSend(s);
            && (n.None? <==> s.subscribed == s.coins)
            && (n.Some? ==> match n.value
                            case Subscribe(c) => c in s.coins && c !in s.subscribed && s.subscribed < s.coins && |s.subscribed| < cap
                            case Unsubscribe(c) => c in s.subscribed && c !in s.coins)
  {
    var removed, added := s.subscribed - s.coins, s.coins - s.subscribed;
    if removed == {} && added != {} {
      forall c | c in s.subscribed ensures c in s.coins { assert c !in removed; }
      var c :| c in added;
      assert c in s.coins && c !in s.subscribed;
      Sets.SubsetSize(s.subscribed, s.coins);
    }
  }

  lemma SubscribedStep(cfg: Config, s: Stream, wire: seq<Send>, e: Event)
    requires SubscribedOk(cfg, s, wire)
    ensures SubscribedOk(cfg, Step(cfg, s, e),
                         match e
                         case Close => []
                         case FinishSend => wire + (if s.connected && s.inFlight.Some? then [s.inFlight.value] else [])
                         case _ => wire)
  {
    hide NextSend, Handled, Choose;
    match e
    case SetCoins(requested) =>
      ChooseIsFirstFew(Candidates(requested), s.subscribed, cfg.maxCoins);
    case StartSend =>
      NextSendIsUseful(s, cfg.maxCoins);
    case FinishSend =>
      assert wire + [] == wire;
      if s.connected && s.inFlight.Some? {
        assert (wire + [s.inFlight.value])[..|wire|] == wire;
        AppliedSize(s.subscribed, s.inFlight.value);
      }
    case Received(m, at) =>
      HandledKeepsSubscriptions(s, m, at);
    case Open =>
    case Close =>
  }

  lemma HandledKeepsSubscriptions(s: Stream, m: Message, at: real)
    ensures var s' := Handled(s, m, at);
            s'.subscribed == s.subscribed && s'.coins == s.coins && s'.inFlight == s.inFlight && s'.connected == s.connected
  {}

  lemma AppliedSize(subscribed: set<string>, m: Send)
    ensures |Apply(subscribed, m)| <= |subscribed| + if m.Subscribe? then 1 else 0
  {
    if m.Unsubscribe? { Sets.SubsetSize(subscribed - {m.coin}, subscribed); }
  }

  /** While coins change arbitrarily between any two steps of the sender, the subscribed set is
      what the messages of this connection add up to, never exceeds the cap, and no message is
      redundant. */
  lemma {:induction false} SubscribedIsFold(cfg: Config, events: seq<Event>)
    ensures SubscribedOk(cfg, After(cfg, events), Wire(cfg, events))
  {
    if events == [] {
      assert Fold([]) == {};
    } else {
      hide SubscribedOk, Step;
      SubscribedIsFold(cfg, events[..|events| - 1]);
      SubscribedStep(cfg, After(cfg, events[..|events| - 1]), Wire(cfg, events[..|events| - 1]), events[|events| - 1]);
      var wire := Wire(cfg, events[..|events| - 1]);
      assert wire + [] == wire;
    }
  }

  /** A subscribed coin that is still listed is never dropped by the cap. */
  lemma CapNeverEvicts(cfg: Config, events: seq<Event>, requested: set<string>, coin: string)
    requires coin in After(cfg, events).subscribed && coin in requested && Acceptable(coin)
    ensures coin in After(cfg, events + [SetCoins(requested)]).coins
  {
    SubscribedIsFold(cfg, events);
    assert (events + [SetCoins(requested)])[..|events|] == events;
    SubscribedAreKept(Candidates(requested), After(cfg, events).subscribed, cfg.maxCoins);
  }

  // ---------- convergence ----------

  /** The messages the sender goes on to complete while the wanted coins stay as they are. */
  function Drain(s: Stream): seq<Send>
    decreases |s.subscribed - s.coins| + |s.coins - s.subscribed|
  {
    var n := NextSend(s);
    if n.None? then []
    else
      SendShrinks(s);
      [n.value] + Drain(s.(subscribed := Apply(s.subscribed, n.value)))
  }

  function Applied(subscribed: set<string>, sends: seq<Send>): set<string>
    decreases |sends|
  {
    if sends == [] then subscribed else Applied(Apply(subscribed, sends[0]), sends[1..])
  }

  /** With a fixed target the sender reaches it in exactly as many messages as the sets differ by,
      unsubscribing first, and then sends no more. */
  lemma {:induction false} DrainReachesTarget(s: Stream)
    ensures var sends := Drain(s);
            && Applied(s.subscribed, sends) == s.coins
            && |sends| == |s.subscribed - s.coins| + |s.coins - s.subscribed|
            && NextSend(s.(subscribed := Applied(s.subscribed, sends))).None?
            && forall i :: 0 <= i < |sends| ==> (sends[i].Unsubscribe? <==> i < |s.subscribed - s.coins|)
    decreases |s.subscribed - s.coins| + |s.coins - s.subscribed|
  {
    hide NextSend, Apply;
    var n := NextSend(s);
    SendShrinks(s);
    if n.Some? {
      var s' := s.(subscribed := Apply(s.subscribed, n.value));
      DrainReachesTarget(s');
      var rest := Drain(s');
      assert ([n.value] + rest)[1..] == rest;
      forall i | 0 <= i < |rest| + 1
        ensures ([n.value] + rest)[i].Unsubscribe? <==> i < |s.subscribed - s.coins|
      {
        if i > 0 { assert ([n.value] + rest)[i] == rest[i - 1]; }
      }
    }
  }

  /** Each message brings the two sets one coin closer. */
  lemma SendShrinks(s: Stream)
    ensures var (n, removed, added) := (NextSend(s), s.subscribed - s.coins, s.coins - s.subscribed);
            && (n.None? <==> s.subscribed == s.coins)
            && (n.None? ==> |removed| == |added| == 0)
            && (n.Some? ==>
                  var subscribed := Apply(s.subscribed, n.value);
                  if n.value.Unsubscribe?
                  then |removed| > 0 && |subscribed - s.coins| == |removed| - 1 && |s.coins - subscribed| == |added|
                  else |removed| == 0 && |added| > 0 && |subscribed - s.coins| == 0 && |s.coins - subscribed| == |added| - 1)
  {
    if NextSend(s).Some? {
      match NextSend(s).value {
        case Unsubscribe(c) => OneLess(s.subscribed, s.coins, c);
        case Subscribe(c) => OneMore(s.subscribed, s.coins, c);
      }
    } else {
      assert s.subscribed == s.coins;
    }
  }

  lemma OneLess(subscribed: set<string>, coins: set<string>, c: string)
    requires c in subscribed - coins
    ensures |subscribed - {c} - coins| == |subscribed - coins| - 1 && coins - (subscribed - {c}) == coins - subscribed
  {
    assert subscribed - {c} - coins == (subscribed - coins) - {c};
  }

  lemma OneMore(subscribed: set<string>, coins: set<string>, c: string)
    requires c in coins - subscribed
    ensures |coins - (subscribed + {c})| == |coins - subscribed| - 1 && subscribed + {c} - coins == subscribed - coins
  {
    assert coins - (subscribed + {c}) == (coins - subscribed) - {c};
  }

  /** `n` turns of the sender. */
  function Turns(n: nat): seq<Event> {
    if n == 0 then [] else [StartSend, FinishSend] + Turns(n - 1)
  }

  lemma OneTurn(cfg: Config, events: seq<Event>)
    requires After(cfg, events).connected && After(cfg, events).inFlight.None?
    ensures var (s, n) := (After(cfg, events), NextSend(After(cfg, events)));
            && After(cfg, events + [StartSend, FinishSend]) == (if n.None? then s else s.(subscribed := Apply(s.subscribed, n.value)))
            && Wire(cfg, events + [StartSend, FinishSend]) == Wire(cfg, events) + (if n.None? then [] else [n.value])
  {
    hide NextSend;
    var started := events + [StartSend];
    assert events + [StartSend, FinishSend] == started + [FinishSend];
    assert started[..|events|] == events && (started + [FinishSend])[..|started|] == started;
  }

  lemma DrainUnfolds(s: Stream)
    ensures var n := NextSend(s);
            Drain(s) == if n.None? then [] else [n.value] + Drain(s.(subscribed := Apply(s.subscribed, n.value)))
  {
    hide NextSend, Apply;
    SendShrinks(s);
  }

  function Apart(s: Stream): nat { |s.subscribed - s.coins| + |s.coins - s.subscribed| }

  /** Each message brings the two sets one closer. */
  lemma OneCloser(s: Stream)
    ensures var n := NextSend(s);
            && |Drain(s)| == Apart(s) && (n.None? <==> s.subscribed == s.coins) && (n.None? ==> Apart(s) == 0)
            && (n.Some? ==> Apart(s) == Apart(s.(subscribed := Apply(s.subscribed, n.value))) + 1)
  {
    hide NextSend, Apply, Drain, Applied;
    DrainReachesTarget(s);
    SendShrinks(s);
  }

  /** Between two messages, while the wanted coins stay as they are, the sender completes exactly one
      message for each coin the two sets differ by, and further turns send nothing. */
  lemma {:induction false} IdleSettles(cfg: Config, events: seq<Event>, n: nat)
    requires After(cfg, events).connected && After(cfg, events).inFlight.None?
    requires n >= Apart(After(cfg, events))
    ensures var s := After(cfg, events);
            && After(cfg, events + Turns(n)) == s.(subscribed := s.coins)
            && Wire(cfg, events + Turns(n)) == Wire(cfg, events) + Drain(s)
            && |Drain(s)| == Apart(s)
    decreases n
  {
    hide NextSend, After, Wire, Apply, Drain, Apart;
    var s := After(cfg, events);
    var next := NextSend(s);
    DrainUnfolds(s);
    OneCloser(s);
    if n == 0 {
      assert events + Turns(0) == events;
      assert next.None? && Drain(s) == [] && Wire(cfg, events) + [] == Wire(cfg, events);
    } else {
      var turned := events + [StartSend, FinishSend];
      OneTurn(cfg, events);
      assert events + Turns(n) == turned + Turns(n - 1);
      IdleSettles(cfg, turned, n - 1);
      if next.None? {
        assert Wire(cfg, events) + [] == Wire(cfg, events);
      } else {
        assert Wire(cfg, events) + [next.value] + Drain(After(cfg, turned)) == Wire(cfg, events) + ([next.value] + Drain(After(cfg, turned)));
      }
    }
  }

  /** Without a connection nothing is subscribed or on its way. */
  lemma {:induction false} OfflineIsEmpty(cfg: Config, events: seq<Event>)
    ensures var s := After(cfg, events); !s.connected ==> s.subscribed == {} && s.inFlight.None?
  {
    if events != [] {
      hide NextSend, Apply, Wanted;
      var (before, e) := (events[..|events| - 1], events[|events| - 1]);
      OfflineIsEmpty(cfg, before);
      if e.SetCoins? { WantedKeepsSubscriptions(cfg, After(cfg, before), e.requested); }
      if e.Received? { HandledKeepsSubscriptions(After(cfg, before), e.message, e.at); }
    }
  }

  lemma WantedKeepsSubscriptions(cfg: Config, s: Stream, requested: set<string>)
    ensures var s' := Wanted(cfg, s, requested);
            s'.subscribed == s.subscribed && s'.inFlight == s.inFlight && s'.connected == s.connected
  {}

  /** The step before the sender's next turn: it connects, or completes the message on its way. */
  function Settling(s: Stream): seq<Event> {
    if !s.connected then [Open] else if s.inFlight.Some? then [FinishSend] else []
  }

  /** What is subscribed after that step, and what that step put on the wire. */
  function Landed(s: Stream): set<string> {
    if s.inFlight.Some? then Apply(s.subscribed, s.inFlight.value) else s.subscribed
  }

  function OnItsWay(s: Stream): seq<Send> {
    if s.inFlight.Some? then [s.inFlight.value] else []
  }

  lemma SettlingLands(cfg: Config, events: seq<Event>)
    ensures var (s, landed) := (After(cfg, events), After(cfg, events + Settling(After(cfg, events))));
            && landed.connected && landed.inFlight.None? && landed.coins == s.coins && landed.subscribed == Landed(s)
            && Wire(cfg, events + Settling(s)) == Wire(cfg, events) + OnItsWay(s)
  {
    hide Apply;
    OfflineIsEmpty(cfg, events);
    var s := After(cfg, events);
    var more := Settling(s);
    if more == [] {
      assert events + more == events;
    } else {
      assert (events + more)[..|events + more| - 1] == events;
    }
    assert Wire(cfg, events) + [] == Wire(cfg, events);
  }

  /** From any point of any run, connected or not, with a message on its way or not, while the wanted
      coins stay as they are: once that message has landed the sender completes exactly one message for
      each coin the two sets then differ by, and further turns send nothing. */
  lemma TurnsSettle(cfg: Config, events: seq<Event>, n: nat)
    requires var s := After(cfg, events); n >= |Landed(s) - s.coins| + |s.coins - Landed(s)|
    ensures var s := After(cfg, events);
            var (landed, end) := (After(cfg, events + Settling(s)), events + Settling(s) + Turns(n));
            && landed.coins == s.coins && landed.subscribed == Landed(s)
            && After(cfg, end) == landed.(subscribed := s.coins)
            && Wire(cfg, end) == Wire(cfg, events) + OnItsWay(s) + Drain(landed)
            && |Drain(landed)| == |Landed(s) - s.coins| + |s.coins - Landed(s)|
  {
    hide After, Wire, Settling, Landed, OnItsWay, Drain;
    SettlingLands(cfg, events);
    IdleSettles(cfg, events + Settling(After(cfg, events)), n);
  }

  // ---------- the message counter ----------

  /** The seconds of the well-formed messages about wanted coins, in order of arrival. */
  function Stamps(cfg: Config, events: seq<Event>): seq<int> {
    if events == [] then []
    else
      var before := events[..|events| - 1];
      match events[|events| - 1]
      case Received(m, at) =>
        Stamps(cfg, before)
        + if WellFormed(m) && m.coin.Some? && m.coin.value in After(cfg, before).coins then [Trunc(at)] else []
      case _ => Stamps(cfg, before)
  }

  function CountStamps(stamps: seq<int>, cutoff: int): nat {
    if stamps == [] then 0
    else CountStamps(stamps[..|stamps| - 1], cutoff) + if stamps[|stamps| - 1] > cutoff then 1 else 0
  }

  /** Seconds in the buckets strictly increase; every stamp is in its bucket, or so old that 301
      later seconds have buckets. */
  ghost predicate BucketsOk(counts: seq<Bucket>, stamps: seq<int>, last: int) {
    && |counts| <= BUCKETS
    && (forall i, j :: 0 <= i < j < |counts| ==> counts[i].second < counts[j].second)
    && (forall i :: 0 <= i < |counts| ==> counts[i].second <= last)
    && (forall cutoff :: cutoff >= last - (BUCKETS - 1) ==> CountAfter(counts, cutoff) == CountStamps(stamps, cutoff))
  }

  lemma {:induction false} SecondsFit(counts: seq<Bucket>, k: nat)
    requires forall i, j :: 0 <= i < j < |counts| ==> counts[i].second < counts[j].second
    requires k < |counts|
    ensures counts[0].second + k <= counts[k].second
  {
    if k > 0 { SecondsFit(counts, k - 1); }
  }

  lemma {:induction false} CountAfterDropFirst(counts: seq<Bucket>, cutoff: int)
    requires counts != []
    ensures CountAfter(counts, cutoff) == CountAfter(counts[1..], cutoff) + if counts[0].second > cutoff then counts[0].count else 0
    decreases |counts|
  {
    if |counts| > 1 {
      var front := counts[..|counts| - 1];
      CountAfterDropFirst(front, cutoff);
      assert front[1..] == counts[1..][..|counts| - 2];
    } else {
      assert counts[1..] == [] && counts[..0] == [];
    }
  }

  /** Counting one message in second `at` adds one to every later window that sees it. */
  lemma CountedAddsOne(counts: seq<Bucket>, at: int, cutoff: int)
    requires |counts| <= BUCKETS
    requires forall i, j :: 0 <= i < j < |counts| ==> counts[i].second < counts[j].second
    requires forall i :: 0 <= i < |counts| ==> counts[i].second <= at
    requires cutoff >= at - (BUCKETS - 1)
    ensures CountAfter(Counted(counts, at), cutoff) == CountAfter(counts, cutoff) + if at > cutoff then 1 else 0
  {
    hide CountAfter;
    var n := |counts|;
    if n > 0 && counts[n - 1].second == at {
      RaiseLast(counts, cutoff);
    } else if n < BUCKETS {
      AppendOne(counts, at, cutoff);
    } else {
      DropOldest(counts, at, cutoff);
      AppendOne(counts[1..], at, cutoff);
    }
  }

  lemma RaiseLast(counts: seq<Bucket>, cutoff: int)
    requires counts != []
    ensures var last := counts[|counts| - 1];
            CountAfter(counts[|counts| - 1 := Bucket(last.second, last.count + 1)], cutoff)
              == CountAfter(counts, cutoff) + if last.second > cutoff then 1 else 0
  {
    var (n, last) := (|counts|, counts[|counts| - 1]);
    assert counts[n - 1 := Bucket(last.second, last.count + 1)][..n - 1] == counts[..n - 1];
  }

  /** A full deque drops a bucket that no window still sees. */
  lemma DropOldest(counts: seq<Bucket>, at: int, cutoff: int)
    requires |counts| == BUCKETS && counts[BUCKETS - 1].second < at
    requires forall i, j :: 0 <= i < j < |counts| ==> counts[i].second < counts[j].second
    requires cutoff >= at - (BUCKETS - 1)
    ensures CountAfter(counts[1..], cutoff) == CountAfter(counts, cutoff)
  {
    hide CountAfter;
    SecondsFit(counts, BUCKETS - 1);
    CountAfterDropFirst(counts, cutoff);
  }

  lemma AppendOne(counts: seq<Bucket>, at: int, cutoff: int)
    ensures CountAfter(counts + [Bucket(at, 1)], cutoff) == CountAfter(counts, cutoff) + if at > cutoff then 1 else 0
  {
    assert (counts + [Bucket(at, 1)])[..|counts|] == counts;
  }

  lemma BucketsStep(counts: seq<Bucket>, stamps: seq<int>, last: int, at: int)
    requires BucketsOk(counts, stamps, last) && last <= at
    ensures BucketsOk(Counted(counts, at), stamps + [at], at)
  {
    assert (stamps + [at])[..|stamps|] == stamps;
    forall cutoff | cutoff >= at - (BUCKETS - 1)
      ensures CountAfter(Counted(counts, at), cutoff) == CountStamps(stamps + [at], cutoff)
    {
      CountedAddsOne(counts, at, cutoff);
    }
  }

  ghost predicate InOrder(events: seq<Event>) {
    forall i, j :: 0 <= i < j < |events| && events[i].Received? && events[j].Received? ==> events[i].at <= events[j].at
  }

  ghost predicate NotBefore(now: real, events: seq<Event>) {
    forall i :: 0 <= i < |events| && events[i].Received? ==> events[i].at <= now
  }

  /** `int` drops the fraction, toward zero. */
  lemma SecondsAreWhole(x: real)
    ensures if x >= 0.0 then 0.0 <= x - Trunc(x) as real < 1.0 && Trunc(x) >= 0
            else -1.0 < x - Trunc(x) as real <= 0.0 && Trunc(x) <= 0
  {}

  lemma TruncMonotone(a: real, b: real)
    requires a <= b
    ensures Trunc(a) <= Trunc(b)
  {}

  lemma BucketsLater(counts: seq<Bucket>, stamps: seq<int>, last: int, now: int)
    requires BucketsOk(counts, stamps, last) && last <= now
    ensures BucketsOk(counts, stamps, now)
  {}

  lemma {:induction false} BucketsKept(cfg: Config, events: seq<Event>, now: real)
    requires InOrder(events) && NotBefore(now, events)
    ensures BucketsOk(After(cfg, events).counts, Stamps(cfg, events), Trunc(now))
  {
    if events == [] {
    } else {
      hide BucketsOk, Step, Counted, WellFormed, Trunc;
      var before, e := events[..|events| - 1], events[|events| - 1];
      var s := After(cfg, before);
      CountsOnly(cfg, s, e);
      if e.Received? {
        BucketsKept(cfg, before, e.at);
        TruncMonotone(e.at, now);
        if WellFormed(e.message) && e.message.coin.Some? && e.message.coin.value in s.coins {
          BucketsStep(s.counts, Stamps(cfg, before), Trunc(e.at), Trunc(e.at));
        } else {
          assert Stamps(cfg, before) + [] == Stamps(cfg, before);
        }
        BucketsLater(After(cfg, events).counts, Stamps(cfg, events), Trunc(e.at), Trunc(now));
      } else {
        BucketsKept(cfg, before, now);
      }
    }
  }

  lemma CountsOnly(cfg: Config, s: Stream, e: Event)
    ensures Step(cfg, s, e).counts
            == if e.Received? && WellFormed(e.message) && e.message.coin.Some? && e.message.coin.value in s.coins
               then Counted(s.counts, Trunc(e.at)) else s.counts
  {
    hide ReadQuote, Counted, Choose, NextSend, Trunc, WellFormed, Said;
    if e.Received? { ReadingIsSaid(e.message, e.at); }
  }

  /** With a clock that does not go back, the 301 buckets report exactly the well-formed messages of
      the trailing 300 whole seconds, across any reconnects. */
  lemma FiveMinuteCountIsExact(cfg: Config, events: seq<Event>, now: real)
    requires InOrder(events) && NotBefore(now, events)
    ensures CountAfter(After(cfg, events).counts, Trunc(now) - STATS_SECONDS) == CountStamps(Stamps(cfg, events), Trunc(now) - 300)
  {
    hide After, Stamps, CountAfter, CountStamps, Trunc;
    BucketsKept(cfg, events, now);
  }
}
