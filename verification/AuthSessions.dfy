/** Which sessions are good after a whole run, told from the run alone. */
module AuthSessions {
  import opened Wrappers
  import opened Auth
  import opened AuthRuns
  import RateWindow
  import Totp

  /** When the session `id` expires: issued by the latest successful login that produced it, unless
      it, or every session, was revoked since. */
  function ExpiryOf(cfg: Config, ip: string, events: seq<Event>, id: string): Option<real> {
    if events == [] then None
    else
      var (before, e) := (events[..|events| - 1], events[|events| - 1]);
      match e
      case LoginEvent(r) =>
        if Decide(cfg, PastOf(cfg, ip, before).tables, r).Accepted? && cfg.hash(r.token) == id
        then Some(r.now + cfg.days as real * DAY)
        else ExpiryOf(cfg, ip, before, id)
      case AuthenticateEvent(_, _, _) => ExpiryOf(cfg, ip, before, id)
      case RevokeEvent(revoked, _) => if revoked == id then None else ExpiryOf(cfg, ip, before, id)
      case RevokeAllEvent(_) => None
  }

  ghost predicate SessionOk(sessions: map<string, Session>, id: string, expiry: Option<real>, now: real) {
    && (id in sessions && sessions[id].revokedAt.None? ==> expiry == Some(sessions[id].expiresAt))
    && (expiry.Some? && expiry.value > now ==> id in sessions && sessions[id].revokedAt.None?)
  }

  lemma SessionEffects(cfg: Config, ip: string, p: Past, r: Request)
    ensures var (v, t', standing) := (Decide(cfg, p.tables, r), Observe(cfg, ip, p, LoginEvent(r)).tables, Standing(p.tables.sessions, r.now));
            t'.sessions == (if v.RateLimited? || v.Taken? then p.tables.sessions
                            else if v.Accepted? then standing[cfg.hash(r.token) := Issued(cfg, r)]
                            else standing)
  {
    hide Totp.MatchingCounter, RateWindow.Younger, Recent, Held, Standing, TimesOf;
  }

  lemma SessionStep(cfg: Config, ip: string, p: Past, e: Event, id: string, expiry: Option<real>, earlier: real)
    requires SessionOk(p.tables.sessions, id, expiry, earlier) && earlier <= e.At()
    ensures var t' := Observe(cfg, ip, p, e).tables;
            match e
            case LoginEvent(r) =>
              var issued := Decide(cfg, p.tables, r).Accepted? && cfg.hash(r.token) == id;
              SessionOk(t'.sessions, id, if issued then Some(r.now + cfg.days as real * DAY) else expiry, r.now)
            case AuthenticateEvent(_, now, _) => SessionOk(t'.sessions, id, expiry, now)
            case RevokeEvent(revoked, now) => SessionOk(t'.sessions, id, if revoked == id then None else expiry, now)
            case RevokeAllEvent(now) => SessionOk(t'.sessions, id, None, now)
  {
    if e.LoginEvent? {
      hide Observe, Decide;
      SessionEffects(cfg, ip, p, e.r);
    }
  }

  lemma SessionLater(sessions: map<string, Session>, id: string, expiry: Option<real>, earlier: real, now: real)
    requires SessionOk(sessions, id, expiry, earlier) && earlier <= now
    ensures SessionOk(sessions, id, expiry, now)
  {}

  lemma {:induction false} SessionsKept(cfg: Config, ip: string, events: seq<Event>, id: string, now: real)
    requires InOrder(events) && NotBefore(now, events)
    ensures SessionOk(PastOf(cfg, ip, events).tables.sessions, id, ExpiryOf(cfg, ip, events, id), now)
  {
    if events != [] {
      hide Observe, Decide, SessionOk;
      var (before, e) := (events[..|events| - 1], events[|events| - 1]);
      SessionsKept(cfg, ip, before, id, e.At());
      SessionStep(cfg, ip, PastOf(cfg, ip, before), e, id, ExpiryOf(cfg, ip, before, id), e.At());
      SessionLater(PastOf(cfg, ip, events).tables.sessions, id, ExpiryOf(cfg, ip, events, id), e.At(), now);
    }
  }

  /** Under a clock that does not go back, a session authenticates exactly when a successful login
      issued it, neither it nor every session has been revoked since, and it has not expired. */
  lemma AuthenticExactlyWhileStanding(cfg: Config, ip: string, events: seq<Event>, id: string, now: real)
    requires InOrder(events) && NotBefore(now, events)
    ensures var expiry := ExpiryOf(cfg, ip, events, id);
            Authentic(PastOf(cfg, ip, events).tables, id, now) <==> expiry.Some? && expiry.value > now
  {
    hide PastOf, ExpiryOf;
    SessionsKept(cfg, ip, events, id, now);
  }
}
