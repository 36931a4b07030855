/**
 Process-wide GC tuning leased by application lifespans (backend/app/runtime/gc_tuning.py). The
 first lease applies the thresholds and starts a delayed freeze; the last release undoes both.
 */
module GcTuning {
  import opened Wrappers

  type Thresholds = (int, int, int)

  datatype Task = NoTask | Sleeping | Finished | Cancelled

  datatype Session = Session(original: Thresholds, users: int, frozen: bool, task: Task)

  /** A release closure: the session it belongs to, and whether it has run. A lifespan that started
      with tuning switched off gets a closure that does nothing. */
  datatype Lease = Off | Lease(session: nat, released: bool)

  /** `thresholds` and `permanent` are the interpreter's; `active`, `freezeDone` the module's. The
      counts record the calls of `gc.freeze` and `gc.unfreeze`. */
  datatype Process = Process(
    thresholds: Thresholds, permanent: bool, active: Option<nat>, freezeDone: bool,
    sessions: seq<Session>, leases: seq<Lease>, freezes: nat, unfreezes: nat)

  function Initial(thresholds: Thresholds): Process {
    Process(thresholds, false, None, false, [], [], 0, 0)
  }

  /** What the environment says when a lifespan starts. */
  datatype Wish = Wish(enabled: bool, thresholds: Thresholds, freeze: bool, taskStarts: bool)

  datatype Step =
    | Start(wish: Wish)
    | Release(lease: nat)
    | Wake(session: nat)

  /** `_Session.restore`. */
  function Restored(p: Process, s: nat): Process
    requires s < |p.sessions|
  {
    var x := p.sessions[s];
    p.(thresholds := x.original,
       permanent := if x.frozen then false else p.permanent,
       unfreezes := p.unfreezes + if x.frozen then 1 else 0,
       sessions := p.sessions[s := x.(frozen := false, task := if x.task.Sleeping? then Cancelled else x.task)])
  }

  predicate WantsFreeze(p: Process, w: Wish) { !p.freezeDone && w.freeze }

  /** A new lifespan. When the freeze task cannot be started, the thresholds are put back and no
      lease is given. */
  function Started(p: Process, w: Wish): Process {
    if !w.enabled then p.(leases := p.leases + [Off])
    else if p.active.None? && WantsFreeze(p, w) && !w.taskStarts then p
    else
      var q := if p.active.Some? then p
               else p.(thresholds := w.thresholds, active := Some(|p.sessions|),
                       sessions := p.sessions + [Session(p.thresholds, 0, false, if WantsFreeze(p, w) then Sleeping else NoTask)]);
      var s := q.active.value;
      if s < |q.sessions|
      then q.(sessions := q.sessions[s := q.sessions[s].(users := q.sessions[s].users + 1)], leases := q.leases + [Lease(s, false)])
      else q
  }

  function Released(p: Process, l: nat): Process {
    if l >= |p.leases| || p.leases[l].Off? || p.leases[l].released || p.leases[l].session >= |p.sessions| then p
    else
      var s := p.leases[l].session;
      var q := p.(leases := p.leases[l := Lease(s, true)],
                  sessions := p.sessions[s := p.sessions[s].(users := p.sessions[s].users - 1)]);
      if q.sessions[s].users == 0 then Restored(q, s).(active := None) else q
  }

  /** The delayed task wakes up; a cancelled one raises instead of freezing. */
  function Woken(p: Process, s: nat): Process {
    if s < |p.sessions| && p.sessions[s].task.Sleeping?
    then p.(permanent := true, freezes := p.freezes + 1, freezeDone := true,
            sessions := p.sessions[s := p.sessions[s].(frozen := true, task := Finished)])
    else p
  }

  function After(p: Process, e: Step): Process {
    match e
    case Start(w) => Started(p, w)
    case Release(l) => Released(p, l)
    case Wake(s) => Woken(p, s)
  }

  function Run(base: Thresholds, steps: seq<Step>): Process {
    if steps == [] then Initial(base) else After(Run(base, steps[..|steps| - 1]), steps[|steps| - 1])
  }

  // ---------- the module state ----------

  class GcTuner {
    var thresholds: Thresholds
    var permanent: bool
    var active: Option<nat>
    var freezeDone: bool
    var sessions: seq<Session>
    var leases: seq<Lease>
    var freezes: nat
    var unfreezes: nat

    constructor (thresholds: Thresholds)
      ensures State() == Initial(thresholds)
    {
      this.thresholds, permanent, active, freezeDone := thresholds, false, None, false;
      sessions, leases, freezes, unfreezes := [], [], 0, 0;
    }

    function State(): Process
      reads this
    {
      Process(thresholds, permanent, active, freezeDone, sessions, leases, freezes, unfreezes)
    }

    ghost predicate Valid(base: Thresholds)
      reads this
    {
      Sound(State(), base)
    }

    method Restore(s: nat)
      requires s < |sessions|
      modifies this
      ensures State() == Restored(old(State()), s)
    {
      var x := sessions[s];
      if x.task.Sleeping? {
        x := x.(task := Cancelled);
      }
      if x.frozen {
        permanent, unfreezes := false, unfreezes + 1;
        x := x.(frozen := false);
      }
      sessions := sessions[s := x];
      thresholds := x.original;
    }

    /** Returns the lease, or None when starting the freeze task raised. */
    method StartGcTuning(w: Wish, ghost base: Thresholds) returns (lease: Option<nat>)
      requires Valid(base)
      modifies this
      ensures Valid(base) && State() == Started(old(State()), w)
      ensures lease.None? <==> |leases| == |old(leases)|
      ensures lease.Some? ==> lease.value == |old(leases)| && |leases| == |old(leases)| + 1
    {
      hide Sound;
      StartKeeps(State(), base, w);
      ActiveExists(State(), base);
      if !w.enabled {
        leases := leases + [Off];
        return Some(|leases| - 1);
      }
      if active.None? {
        var original := thresholds;
        thresholds := w.thresholds;
        var task := NoTask;
        if !freezeDone && w.freeze {
          if !w.taskStarts {
            thresholds := original;
            return None;
          }
          task := Sleeping;
        }
        sessions := sessions + [Session(original, 0, false, task)];
        active := Some(|sessions| - 1);
      }
      var s := active.value;
      sessions := sessions[s := sessions[s].(users := sessions[s].users + 1)];
      leases := leases + [Lease(s, false)];
      return Some(|leases| - 1);
    }

    method ReleaseLease(l: nat, ghost base: Thresholds)
      requires Valid(base) && l < |leases|
      modifies this
      ensures Valid(base) && State() == Released(old(State()), l)
    {
      LeaseExists(State(), base, l);
      ReleaseKeeps(State(), base, l);
      hide Sound;
      if leases[l].Off? || leases[l].released {
        return;
      }
      var s := leases[l].session;
      leases := leases[l := Lease(s, true)];
      sessions := sessions[s := sessions[s].(users := sessions[s].users - 1)];
      if sessions[s].users == 0 {
        Restore(s);
        active := None;
      }
    }

    method FreezeAfter(s: nat, ghost base: Thresholds)
      requires Valid(base) && s < |sessions|
      modifies this
      ensures Valid(base) && State() == Woken(old(State()), s)
    {
      WakeKeeps(State(), base, s);
      if sessions[s].task.Sleeping? {
        permanent, freezes, freezeDone := true, freezes + 1, true;
        sessions := sessions[s := sessions[s].(frozen := true, task := Finished)];
      }
    }
  }

  // ---------- what every step keeps ----------

  /** The unreleased leases of a session. */
  function Held(leases: seq<Lease>, s: nat): nat {
    if leases == [] then 0
    else
      var last := leases[|leases| - 1];
      Held(leases[..|leases| - 1], s) + if last.Lease? && last.session == s && !last.released then 1 else 0
  }

  /** `base` are the thresholds before any lease. */
  ghost predicate Sound(p: Process, base: Thresholds) {
    && (forall i :: 0 <= i < |p.leases| && p.leases[i].Lease? ==> p.leases[i].session < |p.sessions|)
    && (forall s :: 0 <= s < |p.sessions| ==> p.sessions[s].users == Held(p.leases, s))
    // Only the active session has users, a pending task or a freeze to undo.
    && (forall s :: 0 <= s < |p.sessions| && p.active != Some(s) ==>
          p.sessions[s].users == 0 && !p.sessions[s].frozen && !p.sessions[s].task.Sleeping?)
    && (p.active.Some? ==>
          && p.active.value < |p.sessions|
          && p.sessions[p.active.value].users > 0
          && p.sessions[p.active.value].original == base
          && (p.sessions[p.active.value].task.Sleeping? ==> !p.freezeDone))
    && (p.active.None? ==> p.thresholds == base)
    && p.permanent == (p.active.Some? && p.sessions[p.active.value].frozen)
    && p.freezes == (if p.freezeDone then 1 else 0)
    && p.freezes == p.unfreezes + (if p.permanent then 1 else 0)
  }

  lemma ActiveExists(p: Process, base: Thresholds)
    requires Sound(p, base)
    ensures p.active.Some? ==> p.active.value < |p.sessions|
  {}

  lemma LeaseExists(p: Process, base: Thresholds, l: nat)
    requires Sound(p, base) && l < |p.leases|
    ensures p.leases[l].Lease? ==> p.leases[l].session < |p.sessions|
  {}

  lemma HeldAppend(leases: seq<Lease>, l: Lease, s: nat)
    ensures Held(leases + [l], s) == Held(leases, s) + if l.Lease? && l.session == s && !l.released then 1 else 0
  {
    assert (leases + [l])[..|leases|] == leases;
  }

  lemma {:induction false} HeldRelease(leases: seq<Lease>, l: nat, s: nat)
    requires l < |leases| && leases[l].Lease? && !leases[l].released
    ensures Held(leases[l := Lease(leases[l].session, true)], s) == Held(leases, s) - if leases[l].session == s then 1 else 0
    decreases |leases|
  {
    var after := leases[l := Lease(leases[l].session, true)];
    if l == |leases| - 1 {
      assert after[..|leases| - 1] == leases[..|leases| - 1];
    } else {
      HeldRelease(leases[..|leases| - 1], l, s);
      assert after[..|leases| - 1] == leases[..|leases| - 1][l := Lease(leases[l].session, true)];
    }
  }

  lemma {:induction false} HeldNone(leases: seq<Lease>, s: nat)
    requires forall i :: 0 <= i < |leases| && leases[i].Lease? ==> leases[i].session < s
    ensures Held(leases, s) == 0
  {
    if leases != [] { HeldNone(leases[..|leases| - 1], s); }
  }

  lemma StartKeeps(p: Process, base: Thresholds, w: Wish)
    requires Sound(p, base)
    ensures Sound(Started(p, w), base)
  {
    hide Held;
    var q := Started(p, w);
    HeldNone(p.leases, |p.sessions|);
    forall s | 0 <= s < |q.sessions| ensures q.sessions[s].users == Held(q.leases, s) {
      if |q.leases| > |p.leases| { HeldAppend(p.leases, q.leases[|p.leases|], s); }
    }
  }

  lemma ReleaseKeeps(p: Process, base: Thresholds, l: nat)
    requires Sound(p, base)
    ensures Sound(Released(p, l), base)
  {
    hide Held;
    if l < |p.leases| && p.leases[l].Lease? && !p.leases[l].released {
      var q := Released(p, l);
      forall s | 0 <= s < |q.sessions| ensures q.sessions[s].users == Held(q.leases, s) {
        HeldRelease(p.leases, l, s);
      }
    }
  }

  lemma WakeKeeps(p: Process, base: Thresholds, s: nat)
    requires Sound(p, base)
    ensures Sound(Woken(p, s), base)
  {}

  lemma {:induction false} RunKeeps(base: Thresholds, steps: seq<Step>)
    ensures Sound(Run(base, steps), base)
  {
    if steps == [] {
      assert Sound(Initial(base), base);
    } else {
      hide Sound, Started, Released, Woken;
      var p, e := Run(base, steps[..|steps| - 1]), steps[|steps| - 1];
      RunKeeps(base, steps[..|steps| - 1]);
      match e
      case Start(w) => StartKeeps(p, base, w);
      case Release(l) => ReleaseKeeps(p, base, l);
      case Wake(s) => WakeKeeps(p, base, s);
    }
  }

  /** In every interleaving of starts, (repeated) releases and the delayed freeze: without a lease
      the thresholds are the original ones and nothing stays frozen; `users` counts the leases not
      yet released; and the process freezes at most once. */
  lemma LeasesBalance(base: Thresholds, steps: seq<Step>)
    ensures var p := Run(base, steps);
            && ((forall s :: 0 <= s < |p.sessions| ==> Held(p.leases, s) == 0) ==> p.thresholds == base && !p.permanent)
            && (forall s :: 0 <= s < |p.sessions| ==> p.sessions[s].users == Held(p.leases, s))
            && p.freezes <= 1
            && p.unfreezes == p.freezes - (if p.permanent then 1 else 0)
  {
    hide Run;
    RunKeeps(base, steps);
  }

  /** A freeze is undone by exactly one step: the release that takes its session's last lease. */
  lemma UnfrozenAtLastRelease(base: Thresholds, steps: seq<Step>, e: Step)
    ensures var (p, q) := (Run(base, steps), After(Run(base, steps), e));
            p.permanent ==>
              (!q.permanent <==>
               e.Release? && e.lease < |p.leases| && p.leases[e.lease].Lease? && !p.leases[e.lease].released
               && Held(p.leases, p.leases[e.lease].session) == 1)
  {
    hide Run;
    RunKeeps(base, steps);
  }

  ghost predicate Dead(p: Process, s: nat) {
    s < |p.sessions| && p.active != Some(s)
  }

  lemma DeadStaysDead(p: Process, base: Thresholds, e: Step, s: nat)
    requires Sound(p, base) && Dead(p, s)
    ensures Dead(After(p, e), s)
  {}

  lemma DeadCannotFreeze(p: Process, base: Thresholds, s: nat)
    requires Sound(p, base) && Dead(p, s)
    ensures !p.sessions[s].frozen && Woken(p, s) == p
  {}

  /** A session that was restored can never freeze again, however late its task wakes. */
  lemma {:induction false} NoFreezeAfterRestore(base: Thresholds, steps: seq<Step>, more: seq<Step>, s: nat)
    requires Dead(Run(base, steps), s)
    ensures var p := Run(base, steps + more);
            Dead(p, s) && !p.sessions[s].frozen && Woken(p, s) == p
    decreases |more|
  {
    hide Sound, After, Woken;
    if more == [] {
      assert steps + more == steps;
    } else {
      var shorter, e := more[..|more| - 1], more[|more| - 1];
      assert (steps + more)[..|steps + more| - 1] == steps + shorter;
      NoFreezeAfterRestore(base, steps, shorter, s);
      RunKeeps(base, steps + shorter);
      DeadStaysDead(Run(base, steps + shorter), base, e, s);
    }
    RunKeeps(base, steps + more);
    DeadCannotFreeze(Run(base, steps + more), base, s);
  }

  // ---------- the leases as a set ----------

  /** The module without sessions and counts: which leases are out, the thresholds in force, whether a
      freeze is still to come, is in effect, or has ever happened. */
  datatype Ledger = Ledger(
    handed: nat, out: set<nat>, inForce: Thresholds, openings: nat, due: bool, frozen: bool, frozenOnce: bool)

  /** The first lease out puts its wish in force and may ask for the one freeze; the last one back
      undoes both. */
  function Recorded(base: Thresholds, g: Ledger, e: Step): Ledger {
    match e
    case Start(w) =>
      var asks := w.freeze && !g.frozenOnce;
      if !w.enabled then g.(handed := g.handed + 1)
      else if g.out != {} then g.(handed := g.handed + 1, out := g.out + {g.handed})
      else if asks && !w.taskStarts then g
      else g.(handed := g.handed + 1, out := {g.handed}, inForce := w.thresholds, openings := g.openings + 1, due := asks)
    case Release(l) =>
      if g.out == {l} then g.(out := {}, inForce := base, due := false, frozen := false)
      else g.(out := g.out - {l})
    case Wake(s) =>
      if g.due && s + 1 == g.openings then g.(due := false, frozen := true, frozenOnce := true) else g
  }

  function LedgerOf(base: Thresholds, steps: seq<Step>): Ledger {
    if steps == [] then Ledger(0, {}, base, 0, false, false, false)
    else Recorded(base, LedgerOf(base, steps[..|steps| - 1]), steps[|steps| - 1])
  }

  predicate Out(p: Process, l: nat) {
    l < |p.leases| && p.leases[l].Lease? && !p.leases[l].released
  }

  ghost predicate SameOut(p: Process, g: Ledger) {
    forall l: nat :: l in g.out <==> Out(p, l)
  }

  ghost predicate Agrees(p: Process, g: Ledger) {
    && g.handed == |p.leases| && SameOut(p, g) && (g.out == {} <==> p.active.None?)
    && (forall l :: l in g.out ==> l < |p.leases| && p.active == Some(p.leases[l].session))
    && p.thresholds == g.inForce && p.permanent == g.frozen && p.freezeDone == g.frozenOnce
    && g.openings == |p.sessions| && (p.active.Some? ==> p.active.value + 1 == g.openings)
    && (g.due <==> p.active.Some? && p.active.value < |p.sessions| && p.sessions[p.active.value].task.Sleeping?)
  }

  lemma {:induction false} HeldNothing(leases: seq<Lease>, s: nat)
    ensures Held(leases, s) == 0 <==>
            forall l :: 0 <= l < |leases| && leases[l].Lease? && leases[l].session == s ==> leases[l].released
  {
    if leases != [] {
      var before := leases[..|leases| - 1];
      HeldNothing(before, s);
      assert forall l :: 0 <= l < |before| ==> before[l] == leases[l];
    }
  }

  lemma StartAgrees(p: Process, g: Ledger, base: Thresholds, w: Wish)
    requires Sound(p, base) && Agrees(p, g)
    ensures Agrees(Started(p, w), Recorded(base, g, Start(w)))
  {
    hide Held;
    var q, h := Started(p, w), Recorded(base, g, Start(w));
    forall l: nat ensures l in h.out <==> Out(q, l) {
      assert l in g.out <==> Out(p, l);
      if l < |p.leases| { assert q.leases[l] == p.leases[l]; }
    }
  }

  /** The count falls to zero exactly when the lease is the only one out. */
  lemma ReleaseAgrees(p: Process, g: Ledger, base: Thresholds, l: nat)
    requires Sound(p, base) && Agrees(p, g)
    ensures Agrees(Released(p, l), Recorded(base, g, Release(l)))
  {
    hide Held;
    assert l in g.out <==> Out(p, l);
    if Out(p, l) {
      var s := p.leases[l].session;
      var after := p.leases[l := Lease(s, true)];
      HeldRelease(p.leases, l, s);
      HeldNothing(after, s);
      var q, h := Released(p, l), Recorded(base, g, Release(l));
      assert q.leases == after;
      forall k: nat ensures k in h.out <==> Out(q, k) {
        assert k in g.out <==> Out(p, k);
      }
      if g.out == {l} {
        forall k | 0 <= k < |after| && after[k].Lease? && after[k].session == s ensures after[k].released {
          assert k in g.out <==> Out(p, k);
        }
      } else {
        var k :| k in g.out && k != l;
        assert Out(p, k) && after[k] == p.leases[k];
      }
    }
  }

  lemma WakeAgrees(p: Process, g: Ledger, base: Thresholds, s: nat)
    requires Sound(p, base) && Agrees(p, g)
    ensures Agrees(Woken(p, s), Recorded(base, g, Wake(s)))
  {
    hide Held;
    var q, h := Woken(p, s), Recorded(base, g, Wake(s));
    forall l: nat ensures l in h.out <==> Out(q, l) {
      assert l in g.out <==> Out(p, l);
    }
  }

  /** In every interleaving the sessions and their counts do what the set of leases does: while a lease
      is out, the thresholds are those wished by the start that found none out; a freeze is due exactly
      when that start asked for it and none had happened; the last lease back undoes both. */
  lemma {:induction false} LedgerAgrees(base: Thresholds, steps: seq<Step>)
    ensures Agrees(Run(base, steps), LedgerOf(base, steps))
  {
    if steps != [] {
      hide Agrees, Sound, Started, Released, Woken, Recorded;
      var before, e := steps[..|steps| - 1], steps[|steps| - 1];
      LedgerAgrees(base, before);
      RunKeeps(base, before);
      var p, g := Run(base, before), LedgerOf(base, before);
      match e
      case Start(w) => StartAgrees(p, g, base, w);
      case Release(l) => ReleaseAgrees(p, g, base, l);
      case Wake(s) => WakeAgrees(p, g, base, s);
    }
  }
}
