/**
 What delivery results leave behind: cooldowns and retries after any history of results, through the
 checkpoint table and back, and the event of a delivery.
 */
module AlertResults {
  import opened Wrappers
  import opened AlertStore
  import opened AlertDelivery

  datatype Outcome = Outcome(key: Key, status: Status, at: int, cooldown: int)

  function After(results: seq<Outcome>): Engine {
    if results == [] then BLANK
    else
      var last := results[|results| - 1];
      Delivered(After(results[..|results| - 1]), last.key, last.status, last.at, last.cooldown)
  }

  /** The results of one key. */
  function Of(results: seq<Outcome>, k: Key): seq<Outcome> {
    if results == [] then []
    else
      var (mine, last) := (Of(results[..|results| - 1], k), results[|results| - 1]);
      if last.key == k then mine + [last] else mine
  }

  /** The time of the newest sent result. */
  function NewestSent(mine: seq<Outcome>): Option<int> {
    if mine == [] then None
    else if mine[|mine| - 1].status == Sent then Some(mine[|mine| - 1].at)
    else NewestSent(mine[..|mine| - 1])
  }

  /** How many unsuccessful results, failed or muted, there are since then. */
  function Unsuccessful(mine: seq<Outcome>): nat {
    if mine == [] || mine[|mine| - 1].status == Sent then 0 else 1 + Unsuccessful(mine[..|mine| - 1])
  }

  /** The pause in seconds after so many of them, before the cooldown caps it. */
  function Pause(n: nat): int {
    if n <= 1 then 60 else if n == 2 then 120 else if n == 3 then 240 else if n == 4 then 480 else 900
  }

  lemma DelayIsPause(n: nat, cooldown: int)
    requires n > 0
    ensures RetryDelay(n, cooldown) == if Pause(n) <= cooldown then Pause(n) else cooldown
  {
    assert Doubled(0) == 1 && Doubled(1) == 2 && Doubled(2) == 4 && Doubled(3) == 8 && Doubled(4) == 16;
  }

  ghost predicate EngineSays(e: Engine, k: Key, mine: seq<Outcome>) {
    var n := Unsuccessful(mine);
    && Lookup(e.lastSent, k) == NewestSent(mine)
    && Lookup(e.retryAttempts, k) == (if n > 0 then Some(n) else None)
    && (k in e.retryAfter <==> n > 0)
    && (n > 0 ==>
          var newest := mine[|mine| - 1];
          e.retryAfter[k] == newest.at + if Pause(n) <= newest.cooldown then Pause(n) else newest.cooldown)
  }

  lemma DeliveredSays(e: Engine, k: Key, mine: seq<Outcome>, o: Outcome)
    requires EngineSays(e, k, mine)
    ensures EngineSays(Delivered(e, o.key, o.status, o.at, o.cooldown), k, if o.key == k then mine + [o] else mine)
  {
    DelayIsPause(Unsuccessful(mine) + 1, o.cooldown);
    OneMoreResult(mine, o);
    hide RetryDelay, Pause, NewestSent, Unsuccessful;
    var next := mine + [o];
    assert next[|next| - 1] == o;
  }

  lemma OneMoreResult(mine: seq<Outcome>, o: Outcome)
    ensures NewestSent(mine + [o]) == if o.status == Sent then Some(o.at) else NewestSent(mine)
    ensures Unsuccessful(mine + [o]) == if o.status == Sent then 0 else 1 + Unsuccessful(mine)
  {
    assert (mine + [o])[..|mine|] == mine;
  }

  /** After any history of results, a key's send time is that of its newest sent result, its attempts are
      the unsuccessful results since, and it may retry after the newest of them by 60, 120, 240, 480 and
      then 900 seconds, or its cooldown if that is shorter. Results of other keys play no part. */
  lemma {:induction false} EngineFollowsResults(results: seq<Outcome>, k: Key)
    ensures EngineSays(After(results), k, Of(results, k))
  {
    if results != [] {
      hide EngineSays, Delivered;
      EngineFollowsResults(results[..|results| - 1], k);
      DeliveredSays(After(results[..|results| - 1]), k, Of(results[..|results| - 1], k), results[|results| - 1]);
    } else {
      assert Of([], k) == [];
    }
  }

  // ---------- through the table and back ----------

  /** What is recorded for a key is restored: its send time, its attempts, and a retry that is still to
      come. Other keys keep theirs. */
  lemma RestoredAsRecorded(rows: map<Key, Row>, e: Engine, k: Key, at: int, now: int, other: Key)
    requires k in e.retryAttempts ==> e.retryAttempts[k] > 0
    ensures var back := Restored(Recorded(rows, k, Exported(e, k), at), now);
            && Lookup(back.lastSent, k) == Lookup(e.lastSent, k)
            && Lookup(back.retryAttempts, k) == Lookup(e.retryAttempts, k)
            && Lookup(back.retryAfter, k) == (if k in e.retryAfter && e.retryAfter[k] > now then Some(e.retryAfter[k]) else None)
            && (other != k ==> Exported(back, other) == Exported(Restored(rows, now), other))
  {}

  /** An interrupted send is restored as sent when it was marked, and without retries. */
  lemma RestoredAsMarked(rows: map<Key, Row>, k: Key, since: int, now: int, other: Key)
    ensures var back := Restored(MarkedPending(rows, k, since), now);
            && Exported(back, k) == Export(Some(since), None, 0)
            && (other != k ==> Exported(back, other) == Exported(Restored(rows, now), other))
  {}

  /** A mark hides what its row says and changes none of it: without the mark the row is restored as before,
      and a row that holds nothing else as none. */
  lemma MarkKeepsTheRest(rows: map<Key, Row>, k: Key, since: int, now: int)
    requires Pending(rows, k).None?
    ensures var marked := MarkedPending(rows, k, since);
            && k in marked && marked[k].pendingSince == Some(since) && marked[k].updatedAt == since
            && Exported(Restored(marked[k := marked[k].(pendingSince := None)], now), k) == Exported(Restored(rows, now), k)
  {}

  /** Pruning deletes exactly the old rows that are not pending. */
  lemma PrunedRows(rows: map<Key, Row>, olderThan: int, k: Key)
    ensures k in Pruned(rows, olderThan) <==> k in rows && (rows[k].updatedAt >= olderThan || rows[k].pendingSince.Some?)
    ensures k in Pruned(rows, olderThan) ==> Pruned(rows, olderThan)[k] == rows[k]
  {}

  // ---------- one delivery ----------

  /** How often the key will have failed after one more unsuccessful result. */
  function NextAttempt(e: Engine, k: Key): nat { 1 + if k in e.retryAttempts then e.retryAttempts[k] else 0 }

  /** When a key may be tried again after its n-th unsuccessful result in a row. */
  function RetryAt(n: nat, now: int, cooldown: int): int { now + if Pause(n) <= cooldown then Pause(n) else cooldown }

  /** An evaluation takes up the retries that are due, which keep their count, and forgets those of alerts that are
      no longer active; send times stay. */
  lemma EvaluateDecides(s: System, due: set<Key>, inactive: set<Key>, k: Key)
    requires s.mode.Running?
    ensures var (before, after) := (s.engine, Step(s, Evaluate(due, inactive)).engine);
            && Lookup(after.lastSent, k) == Lookup(before.lastSent, k)
            && Lookup(after.retryAfter, k) == (if k in due || k in inactive then None else Lookup(before.retryAfter, k))
            && Lookup(after.retryAttempts, k) == (if k in inactive then None else Lookup(before.retryAttempts, k))
  {}

  /** The last two writes of a delivery, both succeeding. */
  lemma LastWrites(s: System, k: Key, at: int, n: nat)
    requires k in s.phases && s.phases[k].Recording? && !Exists(s.events, Random(n))
    ensures var after := Step(Step(s, Record(k, at, Written)), Create(k, n, Written));
            && after.events == s.events + [Event(Random(n), k, Result(s.phases[k].result))] && after.sends == s.sends
            && after.engine == s.engine && k !in after.phases
            && after.rows == s.rows[k := Row(Lookup(s.engine.lastSent, k), Lookup(s.engine.retryAfter, k),
                                             if k in s.engine.retryAttempts then s.engine.retryAttempts[k] else 0, None, at)]
  {
    hide Exists, Delivered;
  }

  /** A send that finishes with its writes succeeding leaves its result: the event says sent or failed as the
      send did, a sent one starts the cooldown in the engine and in the table, a failed one leaves the send
      time as it was and schedules a retry; the pending mark is gone and the delivery is over. */
  lemma DeliveryLeavesItsResult(s: System, k: Key, ok: bool, now: int, cooldown: int, at: int, n: nat)
    requires Enabled(s, Finish(k, ok, now, cooldown)) && !Exists(s.events, Random(n))
    ensures var after := Step(Step(Step(s, Finish(k, ok, now, cooldown)), Record(k, at, Written)), Create(k, n, Written));
            && after.events == s.events + [Event(Random(n), k, Result(if ok then Sent else Failed))]
            && k in after.rows && after.rows[k].pendingSince.None? && k !in after.phases
            && after.rows[k].lastSentAt == (if ok then Some(now) else Lookup(s.engine.lastSent, k)) == Lookup(after.engine.lastSent, k)
            && after.rows[k].retryAttempts == (if ok then 0 else NextAttempt(s.engine, k))
            && after.rows[k].retryAfter == (if ok then None else Some(RetryAt(NextAttempt(s.engine, k), now, cooldown)))
  {
    DelayIsPause(NextAttempt(s.engine, k), cooldown);
    var finished := Step(s, Finish(k, ok, now, cooldown));
    LastWrites(finished, k, at, n);
    hide Exists, RetryDelay, Pause;
  }

  /** A muted delivery sends nothing, keeps the send time, and schedules a retry. */
  lemma MutedDelivery(s: System, k: Key, now: int, cooldown: int, at: int, n: nat)
    requires Enabled(s, Mute(k, now, cooldown)) && !Exists(s.events, Random(n))
    ensures var after := Step(Step(Step(s, Mute(k, now, cooldown)), Record(k, at, Written)), Create(k, n, Written));
            && after.events == s.events + [Event(Random(n), k, Result(Muted))] && after.sends == s.sends
            && k in after.rows && after.rows[k].lastSentAt == Lookup(s.engine.lastSent, k)
            && after.rows[k].retryAttempts == NextAttempt(s.engine, k)
            && after.rows[k].retryAfter == Some(RetryAt(NextAttempt(s.engine, k), now, cooldown))
  {
    DelayIsPause(NextAttempt(s.engine, k), cooldown);
    var muted := Step(s, Mute(k, now, cooldown));
    LastWrites(muted, k, at, n);
    hide Exists, RetryDelay, Pause;
  }
}
