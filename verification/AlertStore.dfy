/**
 What alert delivery remembers: the checkpoint table (backend/app/services/alert_delivery_store.py)
 and the cooldowns and retries that the engine keeps in memory and restores from it
 (backend/app/services/alert_engine.py). Times are seconds.
 */
module AlertStore {
  import opened Wrappers

  type Key = string

  // ---------- keys ----------

  function KeyOf(ruleId: string, opportunityId: string): Key { ruleId + ":" + opportunityId }

  /** `key.partition(":")`, without the separator. */
  function Partition(key: string): (parts: (string, string)) {
    if key == [] then ([], [])
    else if key[0] == ':' then ([], key[1..])
    else
      var (head, tail) := Partition(key[1..]);
      ([key[0]] + head, tail)
  }

  /** Recovery finds the rule and the opportunity of a key again exactly when the rule id has no colon. */
  lemma {:induction false} KeyReadsBack(ruleId: string, opportunityId: string)
    ensures Partition(KeyOf(ruleId, opportunityId)) == (ruleId, opportunityId) <==> ':' !in ruleId
    ensures ':' in ruleId ==> |Partition(KeyOf(ruleId, opportunityId)).0| < |ruleId|
  {
    var key := KeyOf(ruleId, opportunityId);
    if ruleId == [] {
      assert key[0] == ':' && key[1..] == opportunityId;
    } else {
      assert key[1..] == KeyOf(ruleId[1..], opportunityId) && key[0] == ruleId[0];
      KeyReadsBack(ruleId[1..], opportunityId);
      assert ruleId == [ruleId[0]] + ruleId[1..];
      var rest := Partition(KeyOf(ruleId[1..], opportunityId));
      if ruleId[0] != ':' {
        assert Partition(key) == ([ruleId[0]] + rest.0, rest.1);
        assert ([ruleId[0]] + rest.0)[1..] == rest.0;
      }
    }
  }

  // ---------- the table ----------

  datatype Row = Row(
    lastSentAt: Option<int>, retryAfter: Option<int>, retryAttempts: nat, pendingSince: Option<int>, updatedAt: int)

  function Pending(rows: map<Key, Row>, k: Key): Option<int> {
    if k in rows then rows[k].pendingSince else None
  }

  function MarkedPending(rows: map<Key, Row>, k: Key, now: int): map<Key, Row> {
    rows[k := if k in rows then rows[k].(pendingSince := Some(now), updatedAt := now)
              else Row(None, None, 0, Some(now), now)]
  }

  function Recorded(rows: map<Key, Row>, k: Key, s: Export, now: int): map<Key, Row> {
    rows[k := Row(s.lastSentAt, s.retryAfter, s.retryAttempts, None, now)]
  }

  function Pruned(rows: map<Key, Row>, olderThan: int): map<Key, Row> {
    map k | k in rows && !(rows[k].updatedAt < olderThan && rows[k].pendingSince.None?) :: rows[k]
  }

  class AlertDeliveryStore {
    var rows: map<Key, Row>

    constructor ()
      ensures rows == map[]
    {
      rows := map[];
    }

    method MarkPending(key: Key, now: int)
      modifies this
      ensures rows == MarkedPending(old(rows), key, now) && Pending(rows, key) == Some(now)
      ensures forall k :: k != key ==> Pending(rows, k) == Pending(old(rows), k)
    {
      if key in rows {
        rows := rows[key := rows[key].(pendingSince := Some(now), updatedAt := now)];
      } else {
        rows := rows[key := Row(None, None, 0, Some(now), now)];
      }
    }

    method Record(key: Key, s: Export, now: int)
      modifies this
      ensures rows == Recorded(old(rows), key, s, now) && Pending(rows, key) == None
      ensures forall k :: k != key ==> Pending(rows, k) == Pending(old(rows), k)
    {
      rows := rows[key := Row(s.lastSentAt, s.retryAfter, s.retryAttempts, None, now)];
    }

    method Prune(olderThan: int)
      modifies this
      ensures rows == Pruned(old(rows), olderThan)
      ensures forall k :: Pending(rows, k) == Pending(old(rows), k)
    {
      rows := map k | k in rows && !(rows[k].updatedAt < olderThan && rows[k].pendingSince.None?) :: rows[k];
    }
  }

  // ---------- the engine ----------

  const DELIVERY_RETRY_SECONDS := 60
  const MAX_DELIVERY_RETRY_SECONDS := 900

  datatype Status = Sent | Failed | Muted

  datatype Export = Export(lastSentAt: Option<int>, retryAfter: Option<int>, retryAttempts: nat)

  datatype Engine = Engine(lastSent: map<Key, int>, retryAfter: map<Key, int>, retryAttempts: map<Key, nat>)

  const BLANK := Engine(map[], map[], map[])

  function Lookup<V>(m: map<Key, V>, k: Key): Option<V> { if k in m then Some(m[k]) else None }

  function Exported(e: Engine, k: Key): Export {
    Export(Lookup(e.lastSent, k), Lookup(e.retryAfter, k), if k in e.retryAttempts then e.retryAttempts[k] else 0)
  }

  /** An interrupted send counts as sent when it was marked. */
  function LastSent(row: Row): Option<int> {
    if row.pendingSince.Some? then row.pendingSince else row.lastSentAt
  }

  function RestoredSent(rows: map<Key, Row>): map<Key, int> {
    map k | k in rows && LastSent(rows[k]).Some? :: LastSent(rows[k]).value
  }

  function RestoredRetry(rows: map<Key, Row>, now: int): map<Key, int> {
    map k | k in rows && rows[k].pendingSince.None? && rows[k].retryAfter.Some? && rows[k].retryAfter.value > now
      :: rows[k].retryAfter.value
  }

  function RestoredAttempts(rows: map<Key, Row>): map<Key, nat> {
    map k | k in rows && rows[k].pendingSince.None? && rows[k].retryAttempts != 0 :: rows[k].retryAttempts
  }

  function Restored(rows: map<Key, Row>, now: int): Engine {
    Engine(RestoredSent(rows), RestoredRetry(rows, now), RestoredAttempts(rows))
  }

  function Doubled(n: nat): nat { if n == 0 then 1 else 2 * Doubled(n - 1) }

  function Min(a: int, b: int): int { if a <= b then a else b }

  /** The pause before retry number `attempts`. */
  function RetryDelay(attempts: nat, cooldown: int): int
    requires attempts > 0
  {
    Min(Min(DELIVERY_RETRY_SECONDS * Doubled(Min(attempts - 1, 4)), MAX_DELIVERY_RETRY_SECONDS), cooldown)
  }

  function Delivered(e: Engine, k: Key, status: Status, now: int, cooldown: int): Engine {
    if status.Sent? then
      Engine(e.lastSent[k := now], e.retryAfter - {k}, e.retryAttempts - {k})
    else
      var attempts := (if k in e.retryAttempts then e.retryAttempts[k] else 0) + 1;
      Engine(e.lastSent, e.retryAfter[k := now + RetryDelay(attempts, cooldown)], e.retryAttempts[k := attempts])
  }

  lemma {:induction false} DoublingIsMonotone(a: nat, b: nat)
    requires a <= b
    ensures 1 <= Doubled(a) <= Doubled(b)
  {
    if a < b { DoublingIsMonotone(a, b - 1); } else if a > 0 { DoublingIsMonotone(a - 1, b - 1); }
  }

  /** Retries back off: the pause never shrinks as attempts go on, starts at a minute, stops growing at
      15 minutes, and is never longer than the rule's cooldown. */
  lemma RetriesBackOff(a: nat, b: nat, cooldown: int)
    requires 0 < a <= b
    ensures RetryDelay(a, cooldown) <= RetryDelay(b, cooldown) <= cooldown
    ensures cooldown >= MAX_DELIVERY_RETRY_SECONDS ==>
              && RetryDelay(1, cooldown) == 60
              && (RetryDelay(a, cooldown) == MAX_DELIVERY_RETRY_SECONDS <==> a >= 5)
  {
    DoublingIsMonotone(Min(a - 1, 4), Min(b - 1, 4));
    assert Doubled(0) == 1 && Doubled(1) == 2 && Doubled(2) == 4 && Doubled(3) == 8 && Doubled(4) == 16;
  }

  class AlertEngine {
    var lastSent: map<Key, int>
    var retryAfter: map<Key, int>
    var retryAttempts: map<Key, nat>

    constructor ()
      ensures State() == BLANK
    {
      lastSent, retryAfter, retryAttempts := map[], map[], map[];
    }

    function State(): Engine
      reads this
    {
      Engine(lastSent, retryAfter, retryAttempts)
    }

    /** `states` are the rows in the order the table returns them, each key once. */
    method Restore(states: seq<(Key, Row)>, now: int) returns (unknown: seq<Key>)
      requires forall i, j :: 0 <= i < j < |states| ==> states[i].0 != states[j].0
      modifies this
      ensures State() == Restored(Table(states), now)
      ensures forall k :: k in unknown <==> Pending(Table(states), k).Some?
      ensures forall i, j :: 0 <= i < j < |unknown| ==> unknown[i] != unknown[j]
    {
      lastSent, retryAfter, retryAttempts := map[], map[], map[];
      unknown := [];
      NothingRestored(now);
      assert states[..0] == [];
      var i := 0;
      while i < |states|
        invariant 0 <= i <= |states|
        invariant State() == Restored(Table(states[..i]), now)
        invariant forall k :: k in unknown <==> Pending(Table(states[..i]), k).Some?
        invariant forall j, k :: 0 <= j < k < |unknown| ==> unknown[j] != unknown[k]
      {
        hide Table, RestoredSent, RestoredRetry, RestoredAttempts;
        assert states[..i + 1] == states[..i] + [states[i]];
        NewInTable(states, i);
        var (key, row) := states[i];
        TableGrows(states[..i], key, row);
        SentGrows(Table(states[..i]), key, row);
        RetryGrows(Table(states[..i]), key, row, now);
        AttemptsGrow(Table(states[..i]), key, row);
        assert Pending(Table(states[..i]), key).None?;
        assert key !in unknown;
        var sent := if row.pendingSince.Some? then row.pendingSince else row.lastSentAt;
        if sent.Some? {
          lastSent := lastSent[key := sent.value];
        }
        if row.pendingSince.Some? {
          unknown := unknown + [key];
        } else {
          if row.retryAfter.Some? && row.retryAfter.value > now {
            retryAfter := retryAfter[key := row.retryAfter.value];
          }
          if row.retryAttempts != 0 {
            retryAttempts := retryAttempts[key := row.retryAttempts];
          }
        }
        i := i + 1;
      }
      assert states[..i] == states;
    }

    method RecordDeliveryResult(key: Key, status: Status, now: int, cooldown: int)
      modifies this
      ensures State() == Delivered(old(State()), key, status, now, cooldown)
    {
      if status.Sent? {
        lastSent := lastSent[key := now];
        retryAfter := retryAfter - {key};
        retryAttempts := retryAttempts - {key};
      } else {
        var attempts := (if key in retryAttempts then retryAttempts[key] else 0) + 1;
        retryAttempts := retryAttempts[key := attempts];
        retryAfter := retryAfter[key := now + RetryDelay(attempts, cooldown)];
      }
    }
  }

  function Table(states: seq<(Key, Row)>): map<Key, Row> {
    if states == [] then map[]
    else Table(states[..|states| - 1])[states[|states| - 1].0 := states[|states| - 1].1]
  }

  lemma NothingRestored(now: int)
    ensures Table([]) == map[] && Restored(map[], now) == BLANK
  {}

  lemma TableGrows(states: seq<(Key, Row)>, k: Key, row: Row)
    ensures Table(states + [(k, row)]) == Table(states)[k := row]
  {
    assert (states + [(k, row)])[..|states|] == states;
  }

  lemma NewInTable(states: seq<(Key, Row)>, i: nat)
    requires i < |states| && forall j, l :: 0 <= j < l < |states| ==> states[j].0 != states[l].0
    ensures states[i].0 !in Table(states[..i])
  {
    TableKeys(states[..i], states[i].0);
  }

  lemma {:induction false} TableKeys(states: seq<(Key, Row)>, k: Key)
    requires forall j :: 0 <= j < |states| ==> states[j].0 != k
    ensures k !in Table(states)
  {
    if states != [] { TableKeys(states[..|states| - 1], k); }
  }

  lemma SentGrows(rows: map<Key, Row>, k: Key, row: Row)
    requires k !in rows
    ensures RestoredSent(rows[k := row]) ==
              if LastSent(row).Some? then RestoredSent(rows)[k := LastSent(row).value] else RestoredSent(rows)
  {}

  lemma RetryGrows(rows: map<Key, Row>, k: Key, row: Row, now: int)
    requires k !in rows
    ensures RestoredRetry(rows[k := row], now) ==
              if row.pendingSince.None? && row.retryAfter.Some? && row.retryAfter.value > now
              then RestoredRetry(rows, now)[k := row.retryAfter.value] else RestoredRetry(rows, now)
  {}

  lemma AttemptsGrow(rows: map<Key, Row>, k: Key, row: Row)
    requires k !in rows
    ensures RestoredAttempts(rows[k := row]) ==
              if row.pendingSince.None? && row.retryAttempts != 0
              then RestoredAttempts(rows)[k := row.retryAttempts] else RestoredAttempts(rows)
  {}
}
