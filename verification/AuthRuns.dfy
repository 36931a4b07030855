/** What the login store keeps over whole runs of logins, authentications and revocations. */
module AuthRuns {
  import opened Wrappers
  import opened Auth
  import RateWindow
  import Totp

  datatype Event =
    | LoginEvent(r: Request)
    | AuthenticateEvent(id: string, now: real, busy: bool)
    | RevokeEvent(id: string, now: real)
    | RevokeAllEvent(now: real)
  {
    function At(): real {
      match this
      case LoginEvent(r) => r.now
      case AuthenticateEvent(_, now, _) => now
      case RevokeEvent(_, now) => now
      case RevokeAllEvent(now) => now
    }
  }

  /** The tables, and what has happened: every login that was not rolled back (`offers`), those let
      through the admission window (`admitted`), the wrong attempts evaluated for one address
      (`wrong`), the counters consumed and the rate notices sent. */
  datatype Past = Past(
    tables: Tables, offers: seq<real>, admitted: seq<real>, wrong: seq<real>, counters: seq<nat>, notices: seq<real>)

  function Observe(cfg: Config, ip: string, p: Past, e: Event): Past {
    match e
    case AuthenticateEvent(id, now, busy) => p.(tables := Seen(p.tables, id, now, busy))
    case RevokeEvent(id, now) => p.(tables := Revoked(p.tables, id, now))
    case RevokeAllEvent(now) => p.(tables := AllRevoked(p.tables, now))
    case LoginEvent(r) =>
      var v := Decide(cfg, p.tables, r);
      Past(AfterLogin(cfg, p.tables, r),
           p.offers + (if v.Taken? then [] else [r.now]),
           p.admitted + (if v.Taken? || v.RateLimited? then [] else [r.now]),
           p.wrong + (if v.Wrong? && r.ip == ip then [r.now] else []),
           p.counters + (if v.Accepted? then [v.counter] else []),
           p.notices + (if v.RateLimited? && v.notify then [r.now] else []))
  }

  function PastOf(cfg: Config, ip: string, events: seq<Event>): Past {
    if events == [] then Past(EMPTY, [], [], [], [], [])
    else Observe(cfg, ip, PastOf(cfg, ip, events[..|events| - 1]), events[|events| - 1])
  }

  ghost predicate InOrder(events: seq<Event>) {
    forall i, j :: 0 <= i < j < |events| ==> events[i].At() <= events[j].At()
  }

  ghost predicate NotBefore(now: real, events: seq<Event>) {
    events != [] ==> events[|events| - 1].At() <= now
  }

  /** Authentications and revocations only touch sessions. */
  lemma SilentEvent(cfg: Config, ip: string, p: Past, e: Event)
    requires !e.LoginEvent?
    ensures var p' := Observe(cfg, ip, p, e); p' == p.(tables := p.tables.(sessions := p'.tables.sessions))
  {}

  /** What each verdict does to the parts of the tables that the histories follow. */
  lemma LoginEffects(cfg: Config, ip: string, p: Past, r: Request)
    ensures var (v, p', t) := (Decide(cfg, p.tables, r), Observe(cfg, ip, p, LoginEvent(r)), p.tables);
            var young := RateWindow.Younger(t.attempts, r.now - ADMISSION_WINDOW);
            && p'.tables.attempts == (if v.Taken? then t.attempts else if v.RateLimited? then young else young + [r.now])
            && p'.offers == (if v.Taken? then p.offers else p.offers + [r.now])
            && p'.admitted == (if v.Taken? || v.RateLimited? then p.admitted else p.admitted + [r.now])
            && (v.RateLimited? <==> |young| >= ADMISSIONS)
            && p'.tables.notice == (if v.RateLimited? && v.notify then Some(r.now) else t.notice)
            && p'.notices == (if v.RateLimited? && v.notify then p.notices + [r.now] else p.notices)
            && (v.RateLimited? && v.notify ==> t.notice.None? || t.notice.value + NOTICE_INTERVAL <= r.now)
            && p'.tables.lastCounter == (if v.Accepted? then v.counter else t.lastCounter)
            && p'.counters == (if v.Accepted? then p.counters + [v.counter] else p.counters)
            && (v.Accepted? ==> Totp.MatchingCounter(cfg.codeAt, r.code, r.now, t.lastCounter) == Some(v.counter))
  {
    hide Totp.MatchingCounter, RateWindow.Younger, Recent, Held, Standing, TimesOf;
  }

  // ---------- one-time codes, whatever the clock does ----------

  ghost predicate CountersOk(p: Past) {
    && (forall i, j :: 0 <= i < j < |p.counters| ==> p.counters[i] < p.counters[j])
    && (forall i :: 0 <= i < |p.counters| ==> p.counters[i] <= p.tables.lastCounter)
  }

  lemma CountersStep(cfg: Config, ip: string, p: Past, e: Event)
    requires CountersOk(p)
    ensures CountersOk(Observe(cfg, ip, p, e))
  {
    hide Observe, Decide;
    if e.LoginEvent? {
      LoginEffects(cfg, ip, p, e.r);
      Totp.MatchingCounterIsNewest(cfg.codeAt, e.r.code, e.r.now, p.tables.lastCounter);
    } else {
      SilentEvent(cfg, ip, p, e);
    }
  }

  /** Consumed counters strictly increase in every run, so no code is accepted twice, even when
      the clock goes backwards (section 5.2 of RFC 6238). */
  lemma {:induction false} CountersIncrease(cfg: Config, ip: string, events: seq<Event>)
    ensures CountersOk(PastOf(cfg, ip, events))
  {
    if events != [] {
      hide Observe, CountersOk;
      CountersIncrease(cfg, ip, events[..|events| - 1]);
      CountersStep(cfg, ip, PastOf(cfg, ip, events[..|events| - 1]), events[|events| - 1]);
    }
  }

  lemma CurrentMonotone(a: real, b: real)
    requires a <= b
    ensures Totp.Current(a) <= Totp.Current(b)
  {}

  /** The counters of the sessions issued by logins between t0 and t1, whatever else happens before,
      between and after them. */
  function IssuedBetween(cfg: Config, ip: string, events: seq<Event>, t0: real, t1: real): seq<nat> {
    if events == [] then []
    else
      var (before, e) := (events[..|events| - 1], events[|events| - 1]);
      IssuedBetween(cfg, ip, before, t0, t1) +
        if e.LoginEvent? && t0 <= e.At() <= t1 && Decide(cfg, PastOf(cfg, ip, before).tables, e.r).Accepted?
        then [Decide(cfg, PastOf(cfg, ip, before).tables, e.r).counter] else []
  }

  /** Increasing numbers between two bounds, none above the last counter used. */
  ghost predicate Fits(issued: seq<nat>, lo: int, hi: int, last: int) {
    && (forall i, j :: 0 <= i < j < |issued| ==> issued[i] < issued[j])
    && (forall i :: 0 <= i < |issued| ==> lo <= issued[i] <= hi && issued[i] <= last)
  }

  /** A login never lowers the last counter used; an accepted one takes a newer counter near its clock. */
  lemma AcceptedCounter(cfg: Config, ip: string, p: Past, e: Event)
    ensures p.tables.lastCounter <= Observe(cfg, ip, p, e).tables.lastCounter
    ensures e.LoginEvent? && Decide(cfg, p.tables, e.r).Accepted? ==>
              var c := Decide(cfg, p.tables, e.r).counter;
              p.tables.lastCounter < c == Observe(cfg, ip, p, e).tables.lastCounter
              && Totp.Current(e.At()) - 1 <= c <= Totp.Current(e.At()) + 1
  {
    hide Observe, Decide;
    if e.LoginEvent? {
      LoginEffects(cfg, ip, p, e.r);
      Totp.MatchingCounterIsNewest(cfg.codeAt, e.r.code, e.r.now, p.tables.lastCounter);
    } else {
      SilentEvent(cfg, ip, p, e);
    }
  }

  lemma {:induction false} IssuedFit(cfg: Config, ip: string, events: seq<Event>, t0: real, t1: real)
    ensures Fits(IssuedBetween(cfg, ip, events, t0, t1), Totp.Current(t0) - 1, Totp.Current(t1) + 1,
                 PastOf(cfg, ip, events).tables.lastCounter)
  {
    if events != [] {
      hide Observe, Decide, Totp.Current;
      var (before, e) := (events[..|events| - 1], events[|events| - 1]);
      IssuedFit(cfg, ip, before, t0, t1);
      AcceptedCounter(cfg, ip, PastOf(cfg, ip, before), e);
      if t0 <= e.At() <= t1 {
        CurrentMonotone(t0, e.At());
        CurrentMonotone(e.At(), t1);
      }
    }
  }

  lemma {:induction false} IncreasingFit(s: seq<nat>, lo: int, hi: int)
    requires forall i, j :: 0 <= i < j < |s| ==> s[i] < s[j]
    requires forall i :: 0 <= i < |s| ==> lo <= s[i] <= hi
    ensures |s| <= if hi >= lo then hi - lo + 1 else 0
    decreases |s|
  {
    if s != [] {
      assert lo <= s[|s| - 1] <= hi;
      forall i | 0 <= i < |s| - 1 ensures lo <= s[i] <= s[|s| - 1] as int - 1 {}
      IncreasingFit(s[..|s| - 1], lo, s[|s| - 1] as int - 1);
    }
  }

  /** In any run, whatever the clock does, the logins between t0 and t1 issue at most
      floor(t1/30) - floor(t0/30) + 3 sessions. */
  lemma SessionsBoundedByClock(cfg: Config, ip: string, events: seq<Event>, t0: real, t1: real)
    requires t0 <= t1
    ensures |IssuedBetween(cfg, ip, events, t0, t1)| <= Totp.Current(t1) - Totp.Current(t0) + 3
  {
    IssuedFit(cfg, ip, events, t0, t1);
    CurrentMonotone(t0, t1);
    IncreasingFit(IssuedBetween(cfg, ip, events, t0, t1), Totp.Current(t0) - 1, Totp.Current(t1) + 1);
  }

  ghost predicate NoticesOk(p: Past) {
    && RateWindow.Spaced(p.notices, NOTICE_INTERVAL, 1)
    && p.tables.notice == if p.notices == [] then None else Some(p.notices[|p.notices| - 1])
  }

  lemma NoticeAppend(notices: seq<real>, now: real)
    requires RateWindow.Spaced(notices, NOTICE_INTERVAL, 1)
    requires notices != [] ==> notices[|notices| - 1] + NOTICE_INTERVAL <= now
    ensures RateWindow.Spaced(notices + [now], NOTICE_INTERVAL, 1)
  {
    forall i, j | 0 <= i && j == i + 1 && j < |notices + [now]|
      ensures (notices + [now])[i] + NOTICE_INTERVAL <= (notices + [now])[j]
    {
      if j < |notices| { assert notices[i] + NOTICE_INTERVAL <= notices[j]; }
    }
  }

  lemma NoticeEffects(cfg: Config, ip: string, p: Past, r: Request)
    ensures var p' := Observe(cfg, ip, p, LoginEvent(r));
            || (p'.notices == p.notices && p'.tables.notice == p.tables.notice)
            || (p'.notices == p.notices + [r.now] && p'.tables.notice == Some(r.now)
                && (p.tables.notice.Some? ==> p.tables.notice.value + NOTICE_INTERVAL <= r.now))
  {
    hide Observe, Decide, RateWindow.Younger;
    LoginEffects(cfg, ip, p, r);
  }

  lemma NoticesStep(cfg: Config, ip: string, p: Past, e: Event)
    requires NoticesOk(p)
    ensures NoticesOk(Observe(cfg, ip, p, e))
  {
    hide Observe, Decide, RateWindow.Spaced;
    if e.LoginEvent? {
      NoticeEffects(cfg, ip, p, e.r);
      if Observe(cfg, ip, p, e).notices != p.notices { NoticeAppend(p.notices, e.r.now); }
    } else {
      SilentEvent(cfg, ip, p, e);
    }
  }

  /** Rate notices are at least 900 seconds apart, whatever the clock does. */
  lemma {:induction false} NoticesAreSpaced(cfg: Config, ip: string, events: seq<Event>)
    ensures NoticesOk(PastOf(cfg, ip, events))
  {
    if events != [] {
      hide Observe, NoticesOk;
      NoticesAreSpaced(cfg, ip, events[..|events| - 1]);
      NoticesStep(cfg, ip, PastOf(cfg, ip, events[..|events| - 1]), events[|events| - 1]);
    }
  }

  // ---------- admission ----------

  ghost predicate AdmissionOk(p: Past) {
    var run := RateWindow.Attempts(p.offers, ADMISSION_WINDOW, ADMISSIONS);
    p.tables.attempts == run.queue && p.admitted == run.admitted && RateWindow.Ascending(p.offers)
  }

  ghost predicate OffersBy(p: Past, now: real) {
    p.offers != [] ==> p.offers[|p.offers| - 1] <= now
  }

  /** Deleting by age is popping, because the table is in time order. */
  lemma DeletingIsPopping(offers: seq<real>, now: real)
    requires RateWindow.Ascending(offers) && (offers != [] ==> offers[|offers| - 1] <= now)
    ensures var q := RateWindow.Attempts(offers, ADMISSION_WINDOW, ADMISSIONS).queue;
            RateWindow.Younger(q, now - ADMISSION_WINDOW) == RateWindow.Live(q, now, ADMISSION_WINDOW)
  {
    hide RateWindow.Tracks, RateWindow.Attempts, RateWindow.Expire, RateWindow.Younger;
    var run := RateWindow.Attempts(offers, ADMISSION_WINDOW, ADMISSIONS);
    RateWindow.RunTracks(offers, now, ADMISSION_WINDOW, ADMISSIONS);
    RateWindow.QueueAscending(run, now, ADMISSION_WINDOW, ADMISSIONS);
    RateWindow.ExpireIsYounger(run.queue, now - ADMISSION_WINDOW);
  }

  lemma AttemptsAppend(offers: seq<real>, now: real)
    ensures RateWindow.Attempts(offers + [now], ADMISSION_WINDOW, ADMISSIONS)
            == RateWindow.Attempt(RateWindow.Attempts(offers, ADMISSION_WINDOW, ADMISSIONS), now, ADMISSION_WINDOW, ADMISSIONS)
  {
    hide RateWindow.Attempt;
    assert (offers + [now])[..|offers|] == offers;
  }

  lemma OffersAscend(offers: seq<real>, now: real)
    requires RateWindow.Ascending(offers) && (offers != [] ==> offers[|offers| - 1] <= now)
    ensures RateWindow.Ascending(offers + [now])
  {}

  lemma AdmissionStep(cfg: Config, ip: string, p: Past, e: Event)
    requires AdmissionOk(p) && OffersBy(p, e.At())
    ensures AdmissionOk(Observe(cfg, ip, p, e)) && OffersBy(Observe(cfg, ip, p, e), e.At())
    ensures e.LoginEvent? ==>
              (Decide(cfg, p.tables, e.r).RateLimited? <==>
               !RateWindow.Admits(p.tables.attempts, e.At(), ADMISSION_WINDOW, ADMISSIONS))
  {
    hide Observe, Decide, RateWindow.Live, RateWindow.Younger, RateWindow.Attempts, RateWindow.Ascending;
    if e.LoginEvent? {
      LoginEffects(cfg, ip, p, e.r);
      var q, now := p.tables.attempts, e.r.now;
      OffersAscend(p.offers, now);
      DeletingIsPopping(p.offers, now);
      AttemptsAppend(p.offers, now);
      var live := RateWindow.Live(q, now, ADMISSION_WINDOW);
      assert live + [] == live && p.admitted + [] == p.admitted;
    } else {
      SilentEvent(cfg, ip, p, e);
    }
  }

  lemma {:induction false} AdmissionKept(cfg: Config, ip: string, events: seq<Event>)
    requires InOrder(events)
    ensures AdmissionOk(PastOf(cfg, ip, events))
    ensures events == [] || OffersBy(PastOf(cfg, ip, events), events[|events| - 1].At())
    ensures events == [] ==> PastOf(cfg, ip, events).offers == []
  {
    if events == [] {
      assert AdmissionOk(PastOf(cfg, ip, events));
    } else {
      hide AdmissionOk, Observe;
      var before, e := events[..|events| - 1], events[|events| - 1];
      AdmissionKept(cfg, ip, before);
      assert before != [] ==> before[|before| - 1].At() <= e.At();
      AdmissionStep(cfg, ip, PastOf(cfg, ip, before), e);
    }
  }

  /** Under a clock that does not go back, every 60 seconds hold at most 30 admitted logins, and a
      login is refused exactly when the trailing 60 seconds hold 30 already. */
  lemma ThirtyLoginsAMinute(cfg: Config, ip: string, events: seq<Event>, r: Request, from: real)
    requires InOrder(events) && NotBefore(r.now, events)
    ensures var p := PastOf(cfg, ip, events);
            && RateWindow.CountIn(p.admitted, from, from + ADMISSION_WINDOW) <= ADMISSIONS
            && (Decide(cfg, p.tables, r).RateLimited? <==>
                |p.admitted| >= ADMISSIONS && p.admitted[|p.admitted| - ADMISSIONS] > r.now - ADMISSION_WINDOW)
  {
    hide Decide, AfterLogin, PastOf, Observe, RateWindow.Admits, RateWindow.CountIn, RateWindow.Attempts;
    AdmissionKept(cfg, ip, events);
    var p := PastOf(cfg, ip, events);
    RateWindow.EveryWindowIsBounded(p.offers, ADMISSION_WINDOW, ADMISSIONS, from);
    RateWindow.RefusedOnlyWhenFull(p.offers, r.now, ADMISSION_WINDOW, ADMISSIONS);
    AdmissionStep(cfg, ip, p, LoginEvent(r));
  }
}
