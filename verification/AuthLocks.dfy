/** Failure counts and locks of one address over whole runs of the login store. */
module AuthLocks {
  import opened Wrappers
  import opened Auth
  import opened AuthRuns
  import RateWindow
  import Totp

  function LockOf(locks: map<string, real>, ip: string): Option<real> {
    if Scope(ip) in locks then Some(locks[Scope(ip)]) else None
  }

  lemma ScopesDiffer(a: string, b: string)
    ensures Scope(a) == Scope(b) <==> a == b
  {
    assert Scope(a)[3..] == a && Scope(b)[3..] == b;
  }

  /** A lock outlasts by a full window every recorded failure, and five failures mean a lock. */
  ghost predicate Guarded(times: seq<real>, lock: Option<real>) {
    && (lock.Some? ==> forall i :: 0 <= i < |times| ==> times[i] + FAILURE_WINDOW <= lock.value)
    && (|times| >= FAILURES ==> lock.Some?)
  }

  /** The recorded failures are the recent end of the wrong attempts ever evaluated. */
  ghost predicate FailuresOk(p: Past, ip: string, now: real) {
    var times := TimesOf(p.tables.failures, ip);
    && RateWindow.Tracks(RateWindow.Run(times, p.wrong), now, FAILURE_WINDOW, FAILURES)
    && Guarded(times, LockOf(p.tables.locks, ip))
  }

  /** What each verdict does to failures and locks. */
  lemma LockEffects(cfg: Config, ip: string, p: Past, r: Request)
    ensures var (v, p', t) := (Decide(cfg, p.tables, r), Observe(cfg, ip, p, LoginEvent(r)), p.tables);
            var kept, held := Recent(t.failures, r.now - FAILURE_WINDOW), Held(t.locks, r.now);
            && p'.wrong == (if v.Wrong? && r.ip == ip then p.wrong + [r.now] else p.wrong)
            && p'.tables.failures == (if v.Wrong? then kept + [Failed(r.ip, r.now)]
                                      else if v.RateLimited? || v.Taken? then t.failures else kept)
            && p'.tables.locks == (if v.Wrong? && v.locks then held[Scope(r.ip) := r.now + FAILURE_WINDOW]
                                   else if v.RateLimited? || v.Taken? then t.locks else held)
            && (v.Wrong? || v.Accepted? ==> Scope(r.ip) !in held)
            && (v.IpLocked? ==> Scope(r.ip) in held)
            && (v.Wrong? ==> (v.locks <==> |TimesOf(kept, r.ip)| + 1 >= FAILURES))
            && (v.IpLocked? || v.RateLimited? || v.Wrong? ==> p'.counters == p.counters && p'.tables.lastCounter == t.lastCounter)
  {
    hide Totp.MatchingCounter, RateWindow.Younger, Recent, Held, Standing, TimesOf;
  }

  lemma HeldLock(locks: map<string, real>, now: real, ip: string)
    ensures LockOf(Held(locks, now), ip)
            == if LockOf(locks, ip).Some? && LockOf(locks, ip).value > now then LockOf(locks, ip) else None
  {}

  /** Deleting what is out of date keeps the invariant, and leaves no failure behind an expired lock. */
  lemma PurgeKeeps(t: Tables, wrong: seq<real>, ip: string, earlier: real, now: real)
    requires RateWindow.Tracks(RateWindow.Run(TimesOf(t.failures, ip), wrong), earlier, FAILURE_WINDOW, FAILURES)
    requires Guarded(TimesOf(t.failures, ip), LockOf(t.locks, ip)) && earlier <= now
    ensures var times := TimesOf(Recent(t.failures, now - FAILURE_WINDOW), ip);
            && times == RateWindow.Live(TimesOf(t.failures, ip), now, FAILURE_WINDOW)
            && RateWindow.Tracks(RateWindow.Run(times, wrong), now, FAILURE_WINDOW, FAILURES)
            && Guarded(times, LockOf(Held(t.locks, now), ip))
            && (times != [] ==> wrong[|wrong| - |times|] > now - FAILURE_WINDOW)
            && (LockOf(t.locks, ip).Some? && LockOf(t.locks, ip).value <= now ==> times == [])
  {
    hide RateWindow.Tracks, RateWindow.Expire, RateWindow.Younger, Recent, TimesOf, Held;
    var times := TimesOf(t.failures, ip);
    var run := RateWindow.Run(times, wrong);
    RateWindow.Later(run, earlier, now, FAILURE_WINDOW, FAILURES);
    RateWindow.QueueAscending(run, now, FAILURE_WINDOW, FAILURES);
    TimesOfRecent(t.failures, now - FAILURE_WINDOW, ip);
    RateWindow.ExpireIsYounger(times, now - FAILURE_WINDOW);
    RateWindow.LiveTracks(run, now, FAILURE_WINDOW, FAILURES);
    RateWindow.ExpireIsSuffix(times, now - FAILURE_WINDOW);
    HeldLock(t.locks, now, ip);
    var live := RateWindow.Live(times, now, FAILURE_WINDOW);
    forall i | 0 <= i < |live| ensures live[i] == times[|times| - |live| + i] {}
    if live != [] { assert live[0] > now - FAILURE_WINDOW; }
  }

  lemma FailuresStep(cfg: Config, ip: string, p: Past, e: Event, earlier: real)
    requires FailuresOk(p, ip, earlier) && earlier <= e.At()
    ensures FailuresOk(Observe(cfg, ip, p, e), ip, e.At())
  {
    hide Observe, Decide, TimesOf, Recent, Held, RateWindow.Tracks, Guarded, LockOf, RateWindow.Live;
    var now, times := e.At(), TimesOf(p.tables.failures, ip);
    RateWindow.Later(RateWindow.Run(times, p.wrong), earlier, now, FAILURE_WINDOW, FAILURES);
    if !e.LoginEvent? {
      SilentEvent(cfg, ip, p, e);
      SilentWrong(cfg, ip, p, e);
    } else {
      LockEffects(cfg, ip, p, e.r);
      PurgeKeeps(p.tables, p.wrong, ip, earlier, now);
      if Decide(cfg, p.tables, e.r).Wrong? {
        WrongKeeps(cfg, ip, p, e.r);
      }
    }
  }

  lemma SilentWrong(cfg: Config, ip: string, p: Past, e: Event)
    requires !e.LoginEvent?
    ensures Observe(cfg, ip, p, e).wrong == p.wrong
    ensures Observe(cfg, ip, p, e).tables.failures == p.tables.failures
    ensures Observe(cfg, ip, p, e).tables.locks == p.tables.locks
  {}

  /** Recording a wrong attempt: of this address, at most as the fifth; of another, without effect. */
  lemma WrongKeeps(cfg: Config, ip: string, p: Past, r: Request)
    requires Decide(cfg, p.tables, r).Wrong?
    requires var (kept, held) := (Recent(p.tables.failures, r.now - FAILURE_WINDOW), Held(p.tables.locks, r.now));
             && RateWindow.Tracks(RateWindow.Run(TimesOf(kept, ip), p.wrong), r.now, FAILURE_WINDOW, FAILURES)
             && Guarded(TimesOf(kept, ip), LockOf(held, ip))
    ensures FailuresOk(Observe(cfg, ip, p, LoginEvent(r)), ip, r.now)
    ensures r.ip == ip ==> |TimesOf(Recent(p.tables.failures, r.now - FAILURE_WINDOW), ip)| < FAILURES
  {
    hide Observe, Decide, TimesOf, Recent, Held, RateWindow.Tracks;
    var kept, held := Recent(p.tables.failures, r.now - FAILURE_WINDOW), Held(p.tables.locks, r.now);
    var times := TimesOf(kept, ip);
    LockEffects(cfg, ip, p, r);
    TimesOfAppend(kept, Failed(r.ip, r.now), ip);
    ScopesDiffer(ip, r.ip);
    assert times + [] == times;
    if r.ip == ip {
      RateWindow.AdmitTracks(RateWindow.Run(times, p.wrong), r.now, FAILURE_WINDOW, FAILURES);
      NoneLater(times, p.wrong, r.now);
    }
  }

  lemma NoneLater(times: seq<real>, wrong: seq<real>, now: real)
    requires RateWindow.Tracks(RateWindow.Run(times, wrong), now, FAILURE_WINDOW, FAILURES)
    ensures forall i :: 0 <= i < |times| ==> times[i] <= now
  {
    forall i | 0 <= i < |times| ensures times[i] <= now {
      assert times[i] == wrong[|wrong| - |times| + i];
    }
  }

  lemma {:induction false} FailuresKept(cfg: Config, ip: string, events: seq<Event>, now: real)
    requires InOrder(events) && NotBefore(now, events)
    ensures FailuresOk(PastOf(cfg, ip, events), ip, now)
  {
    if events == [] {
      assert PastOf(cfg, ip, events).wrong == [];
    } else {
      hide FailuresOk, Observe;
      var before, e := events[..|events| - 1], events[|events| - 1];
      FailuresKept(cfg, ip, before, e.At());
      FailuresStep(cfg, ip, PastOf(cfg, ip, before), e, e.At());
      FailuresLater(PastOf(cfg, ip, events), ip, e.At(), now);
    }
  }

  lemma FailuresLater(p: Past, ip: string, earlier: real, now: real)
    requires FailuresOk(p, ip, earlier) && earlier <= now
    ensures FailuresOk(p, ip, now)
  {
    RateWindow.Later(RateWindow.Run(TimesOf(p.tables.failures, ip), p.wrong), earlier, now, FAILURE_WINDOW, FAILURES);
  }

  // ---------- what an address can try ----------

  /** Under a clock that does not go back, no 900 seconds hold more than five evaluated wrong
      attempts of one address, whatever every other address does. */
  lemma FiveWrongAttempts(cfg: Config, ip: string, events: seq<Event>, from: real)
    requires InOrder(events)
    ensures RateWindow.CountIn(PastOf(cfg, ip, events).wrong, from, from + 900.0) <= 5
  {
    FailuresKept(cfg, ip, events, if events == [] then 0.0 else events[|events| - 1].At());
    RateWindow.SpacedBoundsWindows(PastOf(cfg, ip, events).wrong, FAILURE_WINDOW, FAILURES, from);
  }

  /** How many of the wrong attempts fall in the 900 seconds up to `now`: at least `n`. */
  ghost predicate Recently(wrong: seq<real>, n: nat, now: real)
    requires n > 0
  {
    |wrong| >= n && wrong[|wrong| - n] > now - 900.0
  }

  /** A wrong attempt reports the lock exactly when it is the fifth of its 900 seconds. With five
      in the window already, the attempt is refused before its code is looked at. */
  lemma ExactlyTheFifthLocks(cfg: Config, ip: string, events: seq<Event>, r: Request)
    requires InOrder(events) && NotBefore(r.now, events) && r.ip == ip
    ensures var p := PastOf(cfg, ip, events);
            var v := Decide(cfg, p.tables, r);
            && (v.Wrong? ==> !Recently(p.wrong, 5, r.now) && (v.locks <==> Recently(p.wrong, 4, r.now)))
            && (Recently(p.wrong, 5, r.now) ==> v.RateLimited? || v.IpLocked?)
            && (v.IpLocked? || v.RateLimited? ==>
                  && Observe(cfg, ip, p, LoginEvent(r)).counters == p.counters
                  && Observe(cfg, ip, p, LoginEvent(r)).wrong == p.wrong)
  {
    hide PastOf, Observe, Decide, TimesOf, Recent, Held, RateWindow.Live;
    FailuresKept(cfg, ip, events, r.now);
    var p := PastOf(cfg, ip, events);
    PurgeKeeps(p.tables, p.wrong, ip, r.now, r.now);
    LockEffects(cfg, ip, p, r);
    TakenMeansNoLock(cfg, p.tables, r);
  }

  lemma TakenMeansNoLock(cfg: Config, t: Tables, r: Request)
    ensures Decide(cfg, t, r).Taken? ==> Scope(r.ip) !in Held(t.locks, r.now)
  {
    hide Totp.MatchingCounter, RateWindow.Younger, Recent, Held, Standing, TimesOf;
  }

  /** Logins of other addresses never change this address's failures or lock, beyond deleting what
      is out of date. */
  lemma OtherAddressesDoNotMatter(cfg: Config, ip: string, p: Past, r: Request)
    requires r.ip != ip
    ensures var p' := Observe(cfg, ip, p, LoginEvent(r));
            var times, times' := TimesOf(p.tables.failures, ip), TimesOf(p'.tables.failures, ip);
            var lock, lock' := LockOf(p.tables.locks, ip), LockOf(p'.tables.locks, ip);
            && p'.wrong == p.wrong
            && (times' == times || times' == RateWindow.Younger(times, r.now - FAILURE_WINDOW))
            && (lock' == lock || (lock'.None? && lock.value <= r.now))
  {
    hide Observe, Decide, TimesOf, Recent, Held, RateWindow.Younger;
    LockEffects(cfg, ip, p, r);
    var kept := Recent(p.tables.failures, r.now - FAILURE_WINDOW);
    TimesOfRecent(p.tables.failures, r.now - FAILURE_WINDOW, ip);
    TimesOfAppend(kept, Failed(r.ip, r.now), ip);
    ScopesDiffer(ip, r.ip);
    HeldLock(p.tables.locks, r.now, ip);
    assert TimesOf(kept, ip) + [] == TimesOf(kept, ip);
  }

  /** Once a lock has expired, an admitted login finds none of the failures that caused it. */
  lemma ExpiredLockClearsItsFailures(cfg: Config, ip: string, events: seq<Event>, now: real)
    requires InOrder(events) && NotBefore(now, events)
    requires var lock := LockOf(PastOf(cfg, ip, events).tables.locks, ip); lock.Some? && lock.value <= now
    ensures TimesOf(Recent(PastOf(cfg, ip, events).tables.failures, now - FAILURE_WINDOW), ip) == []
  {
    hide PastOf, TimesOf, Recent, Held, RateWindow.Live;
    FailuresKept(cfg, ip, events, now);
    PurgeKeeps(PastOf(cfg, ip, events).tables, PastOf(cfg, ip, events).wrong, ip, now, now);
  }
}
