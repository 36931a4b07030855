/**
 The registry of market bindings (backend/app/db/market_identity_repository.py): dashboard saves
 with compare-and-set revisions, discovery of unknown markets, and batch imports of an official
 catalog that never override the dashboard. Every save and import leaves an audit row.
 */
module MarketIdentityRepository {
  import opened Wrappers
  import opened MarketIdentity

  const CATALOG := "official_catalog"
  const DAY := 86400

  datatype Row = Row(revision: nat, binding: Binding)

  datatype AuditRow = AuditRow(
    key: MarketKey, oldRevision: nat, newRevision: nat, actor: string, before: Option<Binding>, after: Binding)

  /** The bindings table and the audit table. */
  datatype Registry = Registry(bindings: map<MarketKey, Row>, audit: seq<AuditRow>)

  const NEW := Registry(map[], [])

  datatype Mutation = Mutation(binding: Binding, expectedRevision: nat)

  function RowOf(r: Registry, k: MarketKey): Option<Row> {
    if k in r.bindings then Some(r.bindings[k]) else None
  }

  function RevisionOf(row: Option<Row>): nat { if row.Some? then row.value.revision else 0 }

  function BindingOf(row: Option<Row>): Option<Binding> { if row.Some? then Some(row.value.binding) else None }

  /** The actor of the newest audit row of a key. */
  function LastActor(audit: seq<AuditRow>, k: MarketKey): Option<string> {
    if audit == [] then None
    else if audit[|audit| - 1].key == k then Some(audit[|audit| - 1].actor)
    else LastActor(audit[..|audit| - 1], k)
  }

  // ---------- the three writers ----------

  /** Write the next revision of `b` over the current row and audit it. */
  function Written(r: Registry, row: Option<Row>, b: Binding, actor: string): Registry {
    var (revision, k) := (RevisionOf(row), b.market);
    var saved := b.(revision := revision + 1);
    Registry(r.bindings[k := Row(revision + 1, saved)],
             r.audit + [AuditRow(k, revision, revision + 1, actor, BindingOf(row), saved)])
  }

  /** A dashboard save, accepted only against the revision it was prepared for. */
  function Saved(r: Registry, m: Mutation, actor: string): Registry {
    var row := RowOf(r, m.binding.market);
    if RevisionOf(row) != m.expectedRevision then r else Written(r, row, m.binding, actor)
  }

  /** A market as an exchange reports it; an absent kind or original quote is empty. */
  datatype Snapshot = Snapshot(
    exchange: string, marketType: MarketType, dex: Option<string>, rawSymbol: string,
    base: string, assetKind: string, originalQuote: string, quote: string)

  datatype SnapshotError = BadKey | BadBinding

  const KINDS := {"crypto", "equity", "index", "commodity", "valuation", "other"}
  const MAX_NAME := 160
  const MAX_CURRENCY := 20

  function Or(a: string, b: string): string { if a != [] then a else b }

  /** The pending binding of a snapshot. */
  function PendingOf(s: Snapshot): Result<Binding, SnapshotError> {
    var key := Normalize(MarketKey(s.exchange, s.marketType, s.dex, s.rawSymbol));
    var kind := Or(s.assetKind, "crypto");
    var quote := Or(s.originalQuote, s.quote);
    if key.Failure? then Failure(BadKey)
    else if !(1 <= |s.base| <= MAX_NAME) || kind !in KINDS || !(1 <= |quote| <= MAX_CURRENCY) then Failure(BadBinding)
    else
      Success(Binding(key.value, s.base, kind, Pending, UnitPending,
                      Terms(None, Upper(Strip(quote)), None, 1.0, None, Linear, "", None), 1, None, None, []))
  }

  /** The bindings to discover: a snapshot without a key is passed over, one without a binding fails the
      whole call. */
  function Discoverable(rows: seq<Snapshot>): Option<seq<Binding>> {
    if rows == [] then Some([])
    else
      var (init, last) := (Discoverable(rows[..|rows| - 1]), PendingOf(rows[|rows| - 1]));
      if init.None? || last == Failure(BadBinding) then None
      else Some(init.value + if last.Success? then [last.value] else [])
  }

  /** Whatever is discovered is pending, under a normalized key, and passes the validator. */
  lemma {:induction false} DiscoverableIsPending(rows: seq<Snapshot>)
    requires Discoverable(rows).Some?
    ensures forall i :: 0 <= i < |Discoverable(rows).value| ==>
              var b := Discoverable(rows).value[i];
              && b.identity.Pending? && b.revision == 1 && WellFounded(b)
              && exists s :: s in rows && PendingOf(s) == Success(b)
  {
    if rows != [] {
      var (init, last) := (rows[..|rows| - 1], rows[|rows| - 1]);
      DiscoverableIsPending(init);
      hide Normalize, Upper, Strip;
      var items := Discoverable(rows).value;
      forall i | 0 <= i < |items|
        ensures items[i].identity.Pending? && items[i].revision == 1 && WellFounded(items[i])
        ensures exists s :: s in rows && PendingOf(s) == Success(items[i])
      {
        if i < |Discoverable(init).value| {
          assert items[i] == Discoverable(init).value[i];
          var s :| s in init && PendingOf(s) == Success(items[i]);
          assert s in rows;
        } else {
          assert last in rows && PendingOf(last) == Success(items[i]);
        }
      }
    }
  }

  /** An unknown market enters as a pending binding at revision 1, without an audit row. */
  function Discovered(r: Registry, pending: seq<Binding>): Registry {
    if pending == [] then r
    else
      var (before, b) := (Discovered(r, pending[..|pending| - 1]), pending[|pending| - 1]);
      if b.market in before.bindings then before
      else before.(bindings := before.bindings[b.market := Row(1, b.(revision := 1))])
  }

  /** The catalog writes only over rows it wrote itself, or that nobody has saved. */
  predicate MayImport(actor: Option<string>) { actor == None || actor == Some(CATALOG) }

  /** What a catalog item writes over the current row, if anything. */
  function ToImport(digest: Terms -> string, row: Option<Row>, actor: Option<string>, item: Binding, now: int): Option<Binding> {
    if !MayImport(actor) then None
    else if row.Some? && (row.value.binding.identity.Conflict? || row.value.binding.identity.Expired?) then None
    else if row.Some? && row.value.binding.identity.Verified? then
      var b := row.value.binding;
      if digest(b.terms) != digest(item.terms) then
        var evidence := b.evidence + item.evidence;
        Some(b.(identity := Conflict, unit := UnitPending,
                evidence := if |evidence| > MAX_EVIDENCE then evidence[..MAX_EVIDENCE] else evidence))
      else if b.validUntil.Some? && b.validUntil.value > now + DAY then None
      else Some(item)
    else Some(item)
  }

  /** One item, imported on its own. */
  function ImportedOne(digest: Terms -> string, r: Registry, item: Binding, now: int): Registry {
    var row := RowOf(r, item.market);
    var b := ToImport(digest, row, LastActor(r.audit, item.market), item, now);
    if b.None? then r else Written(r, row, b.value.(market := item.market), CATALOG)
  }

  /** Items imported one at a time. */
  function Imported(digest: Terms -> string, r: Registry, items: seq<Binding>, now: int): Registry {
    if items == [] then r
    else ImportedOne(digest, Imported(digest, r, items[..|items| - 1], now), items[|items| - 1], now)
  }

  // ---------- the repository ----------

  datatype SaveError = RevisionChanged

  class MarketIdentityRepository {
    const digest: Terms -> string
    var bindings: map<MarketKey, Row>
    var audit: seq<AuditRow>

    constructor (digest: Terms -> string)
      ensures this.digest == digest && State() == NEW
    {
      this.digest := digest;
      bindings, audit := map[], [];
    }

    function State(): Registry
      reads this
    {
      Registry(bindings, audit)
    }

    method SaveBinding(m: Mutation, actor: string) returns (result: Result<Binding, SaveError>)
      modifies this
      ensures State() == Saved(old(State()), m, actor)
      ensures result.Success? <==> RevisionOf(RowOf(old(State()), m.binding.market)) == m.expectedRevision
      ensures result.Success? ==> result.value == m.binding.(revision := m.expectedRevision + 1)
    {
      var key := m.binding.market;
      var revision := if key in bindings then bindings[key].revision else 0;
      if revision != m.expectedRevision {
        return Failure(RevisionChanged);
      }
      var before := if key in bindings then Some(bindings[key].binding) else None;
      var saved := m.binding.(revision := revision + 1);
      bindings := bindings[key := Row(saved.revision, saved)];
      audit := audit + [AuditRow(key, revision, saved.revision, actor, before, saved)];
      return Success(saved);
    }

    /** Snapshots that name no market are passed over; one that makes no binding raises before anything
        is written. */
    method Discover(rows: seq<Snapshot>) returns (ok: bool)
      modifies `bindings
      ensures ok <==> Discoverable(rows).Some?
      ensures State() == if ok then Discovered(old(State()), Discoverable(rows).value) else old(State())
    {
      hide PendingOf;
      var pending: seq<Binding> := [];
      assert rows[..0] == [];
      for i := 0 to |rows|
        invariant State() == old(State())
        invariant Discoverable(rows[..i]) == Some(pending)
      {
        assert rows[..i + 1][..i] == rows[..i];
        var item := PendingOf(rows[i]);
        if item == Failure(BadBinding) {
          NoneStaysNone(rows, i + 1);
          return false;
        }
        if item.Success? {
          pending := pending + [item.value];
        } else {
          assert pending + [] == pending;
        }
      }
      assert rows[..|rows|] == rows;
      Insert(pending);
      return true;
    }

    /** INSERT OR IGNORE, one row after the other. */
    method Insert(pending: seq<Binding>)
      modifies `bindings
      ensures State() == Discovered(old(State()), pending)
    {
      var i := 0;
      while i < |pending|
        invariant 0 <= i <= |pending|
        invariant State() == Discovered(old(State()), pending[..i])
      {
        assert pending[..i + 1][..i] == pending[..i];
        var b := pending[i];
        if b.market !in bindings {
          bindings := bindings[b.market := Row(1, b.(revision := 1))];
        }
        i := i + 1;
      }
      assert pending[..i] == pending;
    }

    /** The whole batch in one transaction: rows and newest actors are read once, writes and audit
        rows are collected and applied together at the end. */
    method ImportCatalog(items: seq<Binding>, now: int) returns (count: nat)
      modifies this
      ensures State() == Imported(digest, old(State()), items, now)
      ensures count == |audit| - |old(audit)|
    {
      var existing := bindings;
      var writes: seq<(MarketKey, Row)>, audits: seq<AuditRow> := [], [];
      hide Collected, ToImport, Imported, LastActor, Upserted;
      CollectNothing(digest, State(), now);
      assert items[..0] == [];
      var i := 0;
      while i < |items|
        invariant 0 <= i <= |items| && State() == old(State())
        invariant Collected(digest, State(), existing, writes, audits, items[..i], now)
      {
        assert items[..i + 1] == items[..i] + [items[i]];
        var item := items[i];
        var key := item.market;
        var row := if key in existing then Some(existing[key]) else None;
        var chosen := ToImport(digest, row, LastActor(audit, key), item, now);
        CollectNext(digest, State(), existing, writes, audits, items[..i], item, now);
        if chosen.Some? {
          var saved := chosen.value.(market := key, revision := RevisionOf(row) + 1);
          writes := writes + [(key, Row(saved.revision, saved))];
          audits := audits + [AuditRow(key, RevisionOf(row), saved.revision, CATALOG, BindingOf(row), saved)];
          existing := existing[key := Row(saved.revision, saved)];
        }
        i := i + 1;
      }
      assert items[..i] == items;
      CollectedAll(digest, State(), existing, writes, audits, items, now);
      bindings := Upserted(bindings, writes);
      audit := audit + audits;
      count := |writes|;
    }
  }

  lemma {:induction false} NoneStaysNone(rows: seq<Snapshot>, n: nat)
    requires n <= |rows| && Discoverable(rows[..n]).None?
    ensures Discoverable(rows).None?
    decreases |rows|
  {
    if n == |rows| {
      assert rows[..n] == rows;
    } else {
      assert rows[..|rows| - 1][..n] == rows[..n];
      NoneStaysNone(rows[..|rows| - 1], n);
    }
  }

  /** INSERT ... ON CONFLICT DO UPDATE, one row after the other. */
  function Upserted(bindings: map<MarketKey, Row>, writes: seq<(MarketKey, Row)>): map<MarketKey, Row> {
    if writes == [] then bindings
    else Upserted(bindings, writes[..|writes| - 1])[writes[|writes| - 1].0 := writes[|writes| - 1].1]
  }

  lemma UpsertAppend(bindings: map<MarketKey, Row>, writes: seq<(MarketKey, Row)>, w: (MarketKey, Row))
    ensures Upserted(bindings, writes + [w]) == Upserted(bindings, writes)[w.0 := w.1]
  {
    assert (writes + [w])[..|writes|] == writes;
  }

  /** The import loop: what it has read and collected is what importing the items done so far one at
      a time would have written. */
  ghost predicate Collected(digest: Terms -> string, r: Registry, existing: map<MarketKey, Row>,
      writes: seq<(MarketKey, Row)>, audits: seq<AuditRow>, done: seq<Binding>, now: int) {
    && existing == Upserted(r.bindings, writes) && |writes| == |audits|
    && Registry(existing, r.audit + audits) == Imported(digest, r, done, now)
    && forall a :: a in audits ==> a.actor == CATALOG && MayImport(LastActor(r.audit, a.key))
  }

  lemma CollectNothing(digest: Terms -> string, r: Registry, now: int)
    ensures Collected(digest, r, r.bindings, [], [], [], now)
  {
    assert r.audit + [] == r.audit;
  }

  lemma CollectedAll(digest: Terms -> string, r: Registry, existing: map<MarketKey, Row>,
      writes: seq<(MarketKey, Row)>, audits: seq<AuditRow>, items: seq<Binding>, now: int)
    requires Collected(digest, r, existing, writes, audits, items, now)
    ensures Registry(Upserted(r.bindings, writes), r.audit + audits) == Imported(digest, r, items, now)
    ensures |writes| == |audits|
  {}

  lemma CollectNext(digest: Terms -> string, r: Registry, existing: map<MarketKey, Row>,
      writes: seq<(MarketKey, Row)>, audits: seq<AuditRow>, done: seq<Binding>, item: Binding, now: int)
    requires Collected(digest, r, existing, writes, audits, done, now)
    ensures var row := RowOf(Registry(existing, []), item.market);
            var chosen := ToImport(digest, row, LastActor(r.audit, item.market), item, now);
            if chosen.None? then Collected(digest, r, existing, writes, audits, done + [item], now)
            else
              var saved := chosen.value.(market := item.market, revision := RevisionOf(row) + 1);
              Collected(digest, r, existing[item.market := Row(saved.revision, saved)],
                writes + [(item.market, Row(saved.revision, saved))],
                audits + [AuditRow(item.market, RevisionOf(row), saved.revision, CATALOG, BindingOf(row), saved)],
                done + [item], now)
  {
    hide LastActor, Upserted;
    var key := item.market;
    assert (done + [item])[..|done|] == done;
    CatalogActors(r.audit, audits, key);
    var before := Registry(existing, r.audit + audits);
    var row := RowOf(before, key);
    assert row == RowOf(Registry(existing, []), key);
    var chosen := ToImport(digest, row, LastActor(r.audit, key), item, now);
    assert chosen == ToImport(digest, row, LastActor(before.audit, key), item, now);
    assert Imported(digest, r, done + [item], now) == ImportedOne(digest, before, item, now);
    if chosen.Some? {
      var saved := chosen.value.(market := key, revision := RevisionOf(row) + 1);
      var entry := AuditRow(key, RevisionOf(row), saved.revision, CATALOG, BindingOf(row), saved);
      UpsertAppend(r.bindings, writes, (key, Row(saved.revision, saved)));
      assert (r.audit + audits) + [entry] == r.audit + (audits + [entry]);
      assert MayImport(LastActor(r.audit, key));
    }
  }

  /** Catalog rows never change whether a key belongs to the dashboard. */
  lemma {:induction false} CatalogActors(audit: seq<AuditRow>, audits: seq<AuditRow>, k: MarketKey)
    requires forall a :: a in audits ==> a.actor == CATALOG
    ensures LastActor(audit + audits, k) == LastActor(audit, k)
         || (LastActor(audit + audits, k) == Some(CATALOG) && exists a :: a in audits && a.key == k)
  {
    if audits == [] {
      assert audit + audits == audit;
    } else {
      var last := audits[|audits| - 1];
      assert last in audits;
      assert (audit + audits)[..|audit + audits| - 1] == audit + audits[..|audits| - 1];
      CatalogActors(audit, audits[..|audits| - 1], k);
    }
  }
}
