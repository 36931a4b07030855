/**
 The login store (backend/app/db/auth.py): one serialized transaction per login decides admission,
 locks, one-time codes and the session to issue. A table is a field; a transaction is one method.
 */
module Auth {
  import opened Wrappers
  import RateWindow
  import Totp

  const ADMISSION_WINDOW := 60.0
  const ADMISSIONS := 30
  const NOTICE_INTERVAL := 900.0
  const FAILURE_WINDOW := 900.0
  const FAILURES := 5
  const DAY := 86400.0

  /** The deployment: the code of each counter under the shared secret, `session_hash`, and the
      lifetime of a session in days. */
  datatype Config = Config(codeAt: nat -> string, hash: string -> string, days: nat)

  datatype Session = Session(
    createdAt: real, expiresAt: real, lastSeenAt: real, ip: string, userAgent: string, revokedAt: Option<real>)

  datatype Failed = Failed(ip: string, at: real)

  datatype Tables = Tables(
    sessions: map<string, Session>, lastCounter: int, failures: seq<Failed>, locks: map<string, real>,
    attempts: seq<real>, notice: Option<real>)

  const EMPTY := Tables(map[], -1, [], map[], [], None)

  /** `token` is the fresh random token that would be issued. */
  datatype Request = Request(
    passwordOk: bool, code: string, ip: string, browser: string, now: real, token: string)

  datatype LoginResult = LoginResult(
    token: Option<string>, ipLocked: bool, rateLimited: bool, notifyRateLimit: bool)

  /** A commit, or a rollback because the primary key of the new session is taken. */
  datatype Outcome = Committed(result: LoginResult) | RolledBack

  // ---------- the statements ----------

  function Scope(ip: string): string { "ip:" + ip }

  /** DELETE FROM auth_failures WHERE failed_at <= cutoff */
  function Recent(failures: seq<Failed>, cutoff: real): seq<Failed> {
    if failures == [] then []
    else (if failures[0].at <= cutoff then [] else [failures[0]]) + Recent(failures[1..], cutoff)
  }

  /** The failure times of one address. */
  function TimesOf(failures: seq<Failed>, ip: string): seq<real> {
    if failures == [] then []
    else (if failures[0].ip == ip then [failures[0].at] else []) + TimesOf(failures[1..], ip)
  }

  function Held(locks: map<string, real>, now: real): map<string, real> {
    map s | s in locks && locks[s] > now :: locks[s]
  }

  function Standing(sessions: map<string, Session>, now: real): map<string, Session> {
    map h | h in sessions && sessions[h].expiresAt > now && sessions[h].revokedAt.None? :: sessions[h]
  }

  // ---------- what a login decides ----------

  datatype Verdict =
    | RateLimited(notify: bool)
    | IpLocked
    | Wrong(locks: bool)
    | Taken
    | Accepted(counter: nat)

  function Decide(cfg: Config, t: Tables, r: Request): Verdict {
    if |RateWindow.Younger(t.attempts, r.now - ADMISSION_WINDOW)| >= ADMISSIONS then
      RateLimited(t.notice.None? || r.now - t.notice.value >= NOTICE_INTERVAL)
    else if Scope(r.ip) in Held(t.locks, r.now) then
      IpLocked
    else
      var candidate := Totp.MatchingCounter(cfg.codeAt, r.code, r.now, t.lastCounter);
      if !r.passwordOk || candidate.None? then
        Wrong(|TimesOf(Recent(t.failures, r.now - FAILURE_WINDOW), r.ip)| + 1 >= FAILURES)
      else if cfg.hash(r.token) in Standing(t.sessions, r.now) then
        Taken
      else
        Accepted(candidate.value)
  }

  /** The admitted attempt is recorded and everything out of date is deleted. */
  function Purged(t: Tables, now: real): Tables {
    t.(attempts := RateWindow.Younger(t.attempts, now - ADMISSION_WINDOW) + [now],
       failures := Recent(t.failures, now - FAILURE_WINDOW),
       locks := Held(t.locks, now),
       sessions := Standing(t.sessions, now))
  }

  function Issued(cfg: Config, r: Request): Session {
    Session(r.now, r.now + cfg.days as real * DAY, r.now, r.ip, r.browser, None)
  }

  /** The tables after a login. */
  function AfterLogin(cfg: Config, t: Tables, r: Request): Tables {
    var p := Purged(t, r.now);
    match Decide(cfg, t, r)
    case RateLimited(notify) =>
      t.(attempts := RateWindow.Younger(t.attempts, r.now - ADMISSION_WINDOW),
         notice := if notify then Some(r.now) else t.notice)
    case IpLocked => p
    case Wrong(locks) =>
      p.(failures := p.failures + [Failed(r.ip, r.now)],
         locks := if locks then p.locks[Scope(r.ip) := r.now + FAILURE_WINDOW] else p.locks)
    case Taken => t
    case Accepted(counter) =>
      p.(lastCounter := counter, sessions := p.sessions[cfg.hash(r.token) := Issued(cfg, r)])
  }

  function Answer(v: Verdict, r: Request): Outcome {
    match v
    case RateLimited(notify) => Committed(LoginResult(None, false, true, notify))
    case IpLocked => Committed(LoginResult(None, false, false, false))
    case Wrong(locks) => Committed(LoginResult(None, locks, false, false))
    case Taken => RolledBack
    case Accepted(_) => Committed(LoginResult(Some(r.token), false, false, false))
  }

  predicate IsToken(token: string) {
    |token| == 64 && forall i :: 0 <= i < |token| ==> token[i] in "0123456789abcdef"
  }

  predicate Authentic(t: Tables, id: string, now: real) {
    id in Standing(t.sessions, now)
  }

  /** The tables after an authentication; a busy database only skips the last-seen update. */
  function Seen(t: Tables, id: string, now: real, busy: bool): Tables {
    if Authentic(t, id, now) && now - t.sessions[id].lastSeenAt >= 60.0 && !busy
    then t.(sessions := t.sessions[id := t.sessions[id].(lastSeenAt := now)])
    else t
  }

  function Revoked(t: Tables, id: string, now: real): Tables {
    if id in t.sessions then t.(sessions := t.sessions[id := t.sessions[id].(revokedAt := Some(now))]) else t
  }

  function AllRevoked(t: Tables, now: real): Tables {
    t.(sessions := map h | h in t.sessions ::
                     if t.sessions[h].revokedAt.None? then t.sessions[h].(revokedAt := Some(now)) else t.sessions[h])
  }

  /** A refused login. */
  lemma LoginRefused(cfg: Config, t: Tables, r: Request)
    requires |RateWindow.Younger(t.attempts, r.now - ADMISSION_WINDOW)| >= ADMISSIONS
    ensures var notify := t.notice.None? || r.now - t.notice.value >= NOTICE_INTERVAL;
            && Decide(cfg, t, r) == RateLimited(notify)
            && AfterLogin(cfg, t, r) == t.(attempts := RateWindow.Younger(t.attempts, r.now - ADMISSION_WINDOW),
                                           notice := if notify then Some(r.now) else t.notice)
  {
    hide Purged, RateWindow.Younger;
  }

  /** An admitted login. */
  lemma LoginAdmitted(cfg: Config, t: Tables, r: Request)
    requires |RateWindow.Younger(t.attempts, r.now - ADMISSION_WINDOW)| < ADMISSIONS
    ensures var (p, v, found) := (Purged(t, r.now), Decide(cfg, t, r), Totp.MatchingCounter(cfg.codeAt, r.code, r.now, t.lastCounter));
            if Scope(r.ip) in p.locks then v == IpLocked && AfterLogin(cfg, t, r) == p
            else if !r.passwordOk || found.None? then
              && v == Wrong(|TimesOf(p.failures, r.ip)| + 1 >= FAILURES)
              && AfterLogin(cfg, t, r)
                   == p.(failures := p.failures + [Failed(r.ip, r.now)],
                         locks := if v.locks then p.locks[Scope(r.ip) := r.now + FAILURE_WINDOW] else p.locks)
            else if cfg.hash(r.token) in p.sessions then v == Taken && AfterLogin(cfg, t, r) == t
            else
              && v == Accepted(found.value)
              && AfterLogin(cfg, t, r)
                   == p.(lastCounter := found.value, sessions := p.sessions[cfg.hash(r.token) := Issued(cfg, r)])
  {
    hide RateWindow.Younger, Recent, Held, Standing, TimesOf, Totp.MatchingCounter, Scope;
  }

  // ---------- the store ----------

  class AuthStore {
    const cfg: Config
    var sessions: map<string, Session>
    var lastCounter: int
    var failures: seq<Failed>
    var locks: map<string, real>
    var attempts: seq<real>
    var notice: Option<real>

    constructor (cfg: Config)
      ensures this.cfg == cfg && State() == EMPTY
    {
      this.cfg := cfg;
      sessions, lastCounter, failures, locks, attempts, notice := map[], -1, [], map[], [], None;
    }

    function State(): Tables
      reads this
    {
      Tables(sessions, lastCounter, failures, locks, attempts, notice)
    }

    /** Consume a code and issue its session, as one transaction. */
    method Login(r: Request) returns (o: Outcome)
      modifies this
      ensures o == Answer(Decide(cfg, old(State()), r), r)
      ensures State() == AfterLogin(cfg, old(State()), r)
    {
      hide Totp.MatchingCounter, RateWindow.Younger, Recent, Held, Standing, TimesOf, Scope, Decide, AfterLogin;
      var saved := State();
      if |RateWindow.Younger(attempts, r.now - ADMISSION_WINDOW)| >= ADMISSIONS {
        LoginRefused(cfg, saved, r);
      } else {
        LoginAdmitted(cfg, saved, r);
      }
      attempts := RateWindow.Younger(attempts, r.now - ADMISSION_WINDOW);
      if |attempts| >= ADMISSIONS {
        var notify := notice.None? || r.now - notice.value >= NOTICE_INTERVAL;
        if notify {
          notice := Some(r.now);
        }
        return Committed(LoginResult(None, false, true, notify));
      }
      attempts := attempts + [r.now];
      failures := Recent(failures, r.now - FAILURE_WINDOW);
      locks := Held(locks, r.now);
      sessions := Standing(sessions, r.now);
      if Scope(r.ip) in locks {
        return Committed(LoginResult(None, false, false, false));
      }
      var candidate := Totp.MatchingCounter(cfg.codeAt, r.code, r.now, lastCounter);
      if !r.passwordOk || candidate.None? {
        TimesOfAppend(failures, Failed(r.ip, r.now), r.ip);
        failures := failures + [Failed(r.ip, r.now)];
        var locked := |TimesOf(failures, r.ip)| >= FAILURES;
        if locked {
          locks := locks[Scope(r.ip) := r.now + FAILURE_WINDOW];
        }
        return Committed(LoginResult(None, locked, false, false));
      }
      lastCounter := candidate.value;
      var id := cfg.hash(r.token);
      if id in sessions {
        // The primary key is taken: the exception rolls the whole transaction back.
        sessions, lastCounter, failures := saved.sessions, saved.lastCounter, saved.failures;
        locks, attempts := saved.locks, saved.attempts;
        return RolledBack;
      }
      sessions := sessions[id := Session(r.now, r.now + cfg.days as real * DAY, r.now, r.ip, r.browser, None)];
      return Committed(LoginResult(Some(r.token), false, false, false));
    }

    method Authenticate(token: string, now: real, busy: bool) returns (id: Option<string>)
      modifies `sessions
      ensures id == if IsToken(token) && Authentic(old(State()), cfg.hash(token), now) then Some(cfg.hash(token)) else None
      ensures State() == if IsToken(token) then Seen(old(State()), cfg.hash(token), now, busy) else old(State())
    {
      if !IsToken(token) {
        return None;
      }
      var hashed := cfg.hash(token);
      if hashed !in sessions || sessions[hashed].expiresAt <= now || sessions[hashed].revokedAt.Some? {
        return None;
      }
      if now - sessions[hashed].lastSeenAt >= 60.0 && !busy {
        sessions := sessions[hashed := sessions[hashed].(lastSeenAt := now)];
      }
      return Some(hashed);
    }

    method Revoke(current: string, now: real, allSessions: bool)
      modifies `sessions
      ensures State() == if allSessions then AllRevoked(old(State()), now) else Revoked(old(State()), current, now)
    {
      if allSessions {
        sessions := map h | h in sessions ::
          if sessions[h].revokedAt.None? then sessions[h].(revokedAt := Some(now)) else sessions[h];
      } else if current in sessions {
        sessions := sessions[current := sessions[current].(revokedAt := Some(now))];
      }
    }
  }

  lemma {:induction false} TimesOfAppend(failures: seq<Failed>, f: Failed, ip: string)
    ensures TimesOf(failures + [f], ip) == TimesOf(failures, ip) + if f.ip == ip then [f.at] else []
  {
    var last := if f.ip == ip then [f.at] else [];
    if failures == [] {
      assert [f][1..] == [] && failures + [f] == [f];
      assert last + [] == last && [] + last == last;
    } else {
      var first := if failures[0].ip == ip then [failures[0].at] else [];
      assert (failures + [f])[1..] == failures[1..] + [f];
      TimesOfAppend(failures[1..], f, ip);
      assert first + (TimesOf(failures[1..], ip) + last) == first + TimesOf(failures[1..], ip) + last;
    }
  }

  lemma {:induction false} TimesOfRecent(failures: seq<Failed>, cutoff: real, ip: string)
    ensures TimesOf(Recent(failures, cutoff), ip) == RateWindow.Younger(TimesOf(failures, ip), cutoff)
  {
    if failures != [] {
      TimesOfRecent(failures[1..], cutoff, ip);
      var f, rest, kept := failures[0], TimesOf(failures[1..], ip), Recent(failures[1..], cutoff);
      assert ([f.at] + rest)[1..] == rest && [] + rest == rest;
      assert ([f] + kept)[1..] == kept && [] + kept == kept;
    }
  }
}
