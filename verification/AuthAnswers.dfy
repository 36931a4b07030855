/**
 What a login answers, against the tables before and after it, and what a token and a visit are.
 */
module AuthAnswers {
  import opened Wrappers
  import opened Auth
  import RateWindow
  import Totp

  /** Some unused counter near the clock has the code. */
  ghost predicate CodeIsGood(cfg: Config, before: Tables, r: Request) {
    exists c: nat :: Totp.Acceptable(cfg.codeAt, r.code, r.now, before.lastCounter, c)
  }

  predicate LockHeld(t: Tables, r: Request) { "ip:" + r.ip in t.locks && t.locks["ip:" + r.ip] > r.now }

  /** The session that this call would issue. */
  function NewSession(cfg: Config, r: Request): Session {
    Session(r.now, r.now + cfg.days as real * 86400.0, r.now, r.ip, r.browser, None)
  }

  /** The admission window: refused exactly when not recorded, and told about it every 900 seconds. */
  ghost predicate AdmissionFits(before: Tables, after: Tables, r: Request, result: LoginResult) {
    var young := RateWindow.Younger(before.attempts, r.now - 60.0);
    && (result.rateLimited <==> |young| >= 30)
    && after.attempts == (if result.rateLimited then young else young + [r.now])
    && (result.notifyRateLimit <==> result.rateLimited && (before.notice.None? || r.now - before.notice.value >= 900.0))
    && after.notice == (if result.notifyRateLimit then Some(r.now) else before.notice)
  }

  /** The answer says what this call did. */
  ghost predicate AnswerFits(cfg: Config, before: Tables, r: Request, o: Outcome, after: Tables) {
    match o
    case RolledBack =>
      && after == before && r.passwordOk && CodeIsGood(cfg, before, r) && !LockHeld(before, r)
      && cfg.hash(r.token) in Standing(before.sessions, r.now)
    case Committed(result) =>
      var evaluated := !result.rateLimited && !LockHeld(before, r);
      && AdmissionFits(before, after, r, result)
      // A token is given exactly when a session is issued and a newer counter consumed.
      && (result.token.Some? <==> evaluated && r.passwordOk && CodeIsGood(cfg, before, r))
      && (result.token.Some? <==> after.lastCounter > before.lastCounter)
      && (result.token.Some? ==>
            && result.token.value == r.token && after.lastCounter >= 0
            && Totp.Acceptable(cfg.codeAt, r.code, r.now, before.lastCounter, after.lastCounter)
            && cfg.hash(r.token) in after.sessions && after.sessions[cfg.hash(r.token)] == NewSession(cfg, r))
      && (result.token.None? ==>
            && after.lastCounter == before.lastCounter
            && forall h :: h in after.sessions ==> h in before.sessions && after.sessions[h] == before.sessions[h])
      // Every other evaluated attempt is recorded as a failure, and the lock is reported exactly when it is set.
      && (var recent := Recent(before.failures, r.now - 900.0);
          after.failures == (if result.rateLimited then before.failures
                             else if evaluated && result.token.None? then recent + [Failed(r.ip, r.now)] else recent))
      && (result.ipLocked <==> evaluated && result.token.None? && "ip:" + r.ip in after.locks)
      && (result.ipLocked ==> after.locks["ip:" + r.ip] == r.now + 900.0)
  }

  lemma NewestAccepted(cfg: Config, t: Tables, r: Request)
    ensures var found := Totp.MatchingCounter(cfg.codeAt, r.code, r.now, t.lastCounter);
            && (found.Some? <==> CodeIsGood(cfg, t, r))
            && (found.Some? ==> Totp.Acceptable(cfg.codeAt, r.code, r.now, t.lastCounter, found.value) && found.value > t.lastCounter)
  {
    Totp.MatchingCounterIsNewest(cfg.codeAt, r.code, r.now, t.lastCounter);
  }

  lemma HeldIsHeld(t: Tables, r: Request)
    ensures Scope(r.ip) in Held(t.locks, r.now) <==> LockHeld(t, r)
  {}

  lemma StandingIsOld(t: Tables, now: real)
    ensures forall h :: h in Standing(t.sessions, now) ==> h in t.sessions && Standing(t.sessions, now)[h] == t.sessions[h]
  {}

  /** Neither a wrong password nor a code without an unused counter gets a token, and a session starts alive:
      it lasts the configured days of 86400 seconds. */
  lemma TokensAreEarned(cfg: Config, t: Tables, r: Request)
    requires var o := Answer(Decide(cfg, t, r), r); o.Committed? && o.result.token.Some?
    ensures r.passwordOk && CodeIsGood(cfg, t, r) && Answer(Decide(cfg, t, r), r).result.token == Some(r.token)
    ensures cfg.days > 0 ==> Authentic(AfterLogin(cfg, t, r), cfg.hash(r.token), r.now)
  {
    AnswerSaysWhatHappened(cfg, t, r);
    hide Decide, AfterLogin, CodeIsGood, LockHeld, Totp.Acceptable, AdmissionFits, Recent;
  }

  /** A token is 64 hexadecimal digits in lower case. */
  lemma TokenShape(token: string)
    ensures IsToken(token) <==> |token| == 64 && forall i :: 0 <= i < |token| ==> '0' <= token[i] <= '9' || 'a' <= token[i] <= 'f'
  {}

  /** A visit moves the last-seen time of an authentic session, at most once a minute, and nothing else. */
  lemma VisitsAreSeen(t: Tables, id: string, now: real, busy: bool, h: string)
    ensures var after := Seen(t, id, now, busy);
            && after == t.(sessions := after.sessions)
            && (h in after.sessions <==> h in t.sessions)
            && (h in t.sessions ==>
                  if h == id && !busy && t.sessions[h].expiresAt > now && t.sessions[h].revokedAt.None?
                     && now - t.sessions[h].lastSeenAt >= 60.0
                  then after.sessions[h] == t.sessions[h].(lastSeenAt := now)
                  else after.sessions[h] == t.sessions[h])
  {}

  /** The answer of every login is what it did to the tables. */
  lemma AnswerSaysWhatHappened(cfg: Config, t: Tables, r: Request)
    ensures AnswerFits(cfg, t, r, Answer(Decide(cfg, t, r), r), AfterLogin(cfg, t, r))
  {
    hide RateWindow.Younger, Recent, Held, Standing, TimesOf, Totp.MatchingCounter, Totp.Acceptable, CodeIsGood, LockHeld, Decide,
      AfterLogin;
    NewestAccepted(cfg, t, r);
    HeldIsHeld(t, r);
    StandingIsOld(t, r.now);
    if |RateWindow.Younger(t.attempts, r.now - ADMISSION_WINDOW)| >= ADMISSIONS {
      LoginRefused(cfg, t, r);
    } else {
      LoginAdmitted(cfg, t, r);
    }
  }
}
