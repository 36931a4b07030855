/**
 Whole runs of the market registry: any sequence of dashboard saves, discoveries and catalog imports.
 The audit rows of every key form an unbroken chain, a stale save never wins, the catalog never
 overrides the dashboard, and importing a batch again writes nothing.
 */
module MarketRuns {
  import opened Wrappers
  import opened MarketIdentity
  import opened MarketIdentityRepository

  datatype Op =
    | Save(mutation: Mutation, actor: string)
    | Discover(pending: seq<Binding>)
    | Import(items: seq<Binding>, now: int)

  function Step(digest: Terms -> string, r: Registry, op: Op): Registry {
    match op
    case Save(m, actor) => Saved(r, m, actor)
    case Discover(pending) => Discovered(r, pending)
    case Import(items, now) => Imported(digest, r, items, now)
  }

  function Run(digest: Terms -> string, r: Registry, ops: seq<Op>): Registry {
    if ops == [] then r else Step(digest, Run(digest, r, ops[..|ops| - 1]), ops[|ops| - 1])
  }

  lemma {:induction false} RunAppend(digest: Terms -> string, r: Registry, xs: seq<Op>, ys: seq<Op>)
    ensures Run(digest, r, xs + ys) == Run(digest, Run(digest, r, xs), ys)
  {
    hide Step;
    if ys == [] {
      assert xs + ys == xs;
    } else {
      assert (xs + ys)[..|xs + ys| - 1] == xs + ys[..|ys| - 1];
      RunAppend(digest, r, xs, ys[..|ys| - 1]);
    }
  }

  // ---------- the audit chain ----------

  /** The audit rows of one key, oldest first. */
  function AuditOf(audit: seq<AuditRow>, k: MarketKey): (rows: seq<AuditRow>)
    ensures forall a :: a in rows ==> a.key == k
  {
    if audit == [] then []
    else
      var rows := AuditOf(audit[..|audit| - 1], k);
      if audit[|audit| - 1].key == k then rows + [audit[|audit| - 1]] else rows
  }

  /** Each audit row starts at the revision and the binding the previous one ended with, the first at
      nothing or at the discovered revision 1, and the live row is what the last one wrote. */
  ghost predicate Chain(rows: seq<AuditRow>, row: Option<Row>) {
    && (rows == [] ==> row.None? || row.value.revision == 1)
    && (rows != [] ==> rows[0].oldRevision <= 1 && (rows[0].before.None? <==> rows[0].oldRevision == 0))
    && (rows != [] ==> row == Some(Row(rows[|rows| - 1].newRevision, rows[|rows| - 1].after)))
    && (forall i :: 0 <= i < |rows| ==>
          rows[i].newRevision == rows[i].oldRevision + 1 == rows[i].after.revision)
    && (forall i, j :: 0 <= i < j < |rows| && j == i + 1 ==>
          rows[j].oldRevision == rows[i].newRevision && rows[j].before == Some(rows[i].after))
  }

  /** What every reachable registry satisfies about one key. */
  ghost predicate KeyInv(r: Registry, k: MarketKey) {
    var row := RowOf(r, k);
    && Chain(AuditOf(r.audit, k), row)
    && (row.Some? ==> row.value.binding.market == k && row.value.binding.revision == row.value.revision >= 1)
    && LastActor(r.audit, k) == (if AuditOf(r.audit, k) == [] then None
                                 else Some(AuditOf(r.audit, k)[|AuditOf(r.audit, k)| - 1].actor))
  }

  ghost predicate Inv(r: Registry) { forall k: MarketKey :: KeyInv(r, k) }

  /** One audited write: what it does to each key. */
  lemma WrittenEffects(r: Registry, b: Binding, actor: string, k: MarketKey)
    ensures var after := Written(r, RowOf(r, b.market), b, actor);
            var revision := RevisionOf(RowOf(r, b.market));
            if k == b.market then
              && RowOf(after, k) == Some(Row(revision + 1, b.(revision := revision + 1)))
              && AuditOf(after.audit, k) == AuditOf(r.audit, k)
                   + [AuditRow(k, revision, revision + 1, actor, BindingOf(RowOf(r, k)), b.(revision := revision + 1))]
              && LastActor(after.audit, k) == Some(actor)
            else
              && RowOf(after, k) == RowOf(r, k)
              && AuditOf(after.audit, k) == AuditOf(r.audit, k)
              && LastActor(after.audit, k) == LastActor(r.audit, k)
  {
    var after := Written(r, RowOf(r, b.market), b, actor);
    assert after.audit[..|after.audit| - 1] == r.audit;
  }

  lemma WrittenKeepsKey(r: Registry, b: Binding, actor: string, k: MarketKey)
    requires KeyInv(r, k)
    ensures KeyInv(Written(r, RowOf(r, b.market), b, actor), k)
  {
    WrittenEffects(r, b, actor, k);
    hide AuditOf, LastActor, Written;
  }

  lemma WrittenKeeps(r: Registry, b: Binding, actor: string)
    requires Inv(r)
    ensures Inv(Written(r, RowOf(r, b.market), b, actor))
  {
    hide KeyInv, Written;
    forall k: MarketKey ensures KeyInv(Written(r, RowOf(r, b.market), b, actor), k) {
      WrittenKeepsKey(r, b, actor, k);
    }
  }

  /** A catalog item either writes nothing or writes an audited row over its own key. */
  lemma ImportedOneIsWritten(digest: Terms -> string, r: Registry, item: Binding, now: int)
    ensures var chosen := ToImport(digest, RowOf(r, item.market), LastActor(r.audit, item.market), item, now);
            ImportedOne(digest, r, item, now) ==
              if chosen.None? then r
              else Written(r, RowOf(r, item.market), chosen.value.(market := item.market), CATALOG)
  {}

  lemma {:induction false} ImportedKeeps(digest: Terms -> string, r: Registry, items: seq<Binding>, now: int)
    requires Inv(r)
    ensures Inv(Imported(digest, r, items, now))
  {
    hide Inv, ImportedOne, ToImport, Written;
    if items != [] {
      ImportedKeeps(digest, r, items[..|items| - 1], now);
      var (before, item) := (Imported(digest, r, items[..|items| - 1], now), items[|items| - 1]);
      ImportedOneIsWritten(digest, before, item, now);
      var chosen := ToImport(digest, RowOf(before, item.market), LastActor(before.audit, item.market), item, now);
      if chosen.Some? { WrittenKeeps(before, chosen.value.(market := item.market), CATALOG); }
    }
  }

  lemma {:induction false} DiscoveredKeeps(r: Registry, pending: seq<Binding>)
    requires Inv(r)
    ensures Inv(Discovered(r, pending))
  {
    hide AuditOf, LastActor;
    if pending != [] {
      DiscoveredKeeps(r, pending[..|pending| - 1]);
      var (before, b) := (Discovered(r, pending[..|pending| - 1]), pending[|pending| - 1]);
      forall k: MarketKey ensures KeyInv(Discovered(r, pending), k) {
        assert KeyInv(before, k);
        assert k != b.market ==> RowOf(Discovered(r, pending), k) == RowOf(before, k);
      }
    }
  }

  lemma StepKeeps(digest: Terms -> string, r: Registry, op: Op)
    requires Inv(r)
    ensures Inv(Step(digest, r, op))
  {
    hide Inv, Imported, Discovered, Written;
    match op {
      case Save(m, actor) => WrittenKeeps(r, m.binding, actor);
      case Discover(pending) => DiscoveredKeeps(r, pending);
      case Import(items, now) => ImportedKeeps(digest, r, items, now);
    }
  }

  lemma {:induction false} RunKeeps(digest: Terms -> string, ops: seq<Op>)
    ensures Inv(Run(digest, NEW, ops))
  {
    hide Step, KeyInv;
    if ops == [] {
      forall k: MarketKey ensures KeyInv(NEW, k) { EmptyIsChained(k); }
    } else {
      RunKeeps(digest, ops[..|ops| - 1]);
      StepKeeps(digest, Run(digest, NEW, ops[..|ops| - 1]), ops[|ops| - 1]);
    }
  }

  lemma EmptyIsChained(k: MarketKey)
    ensures KeyInv(NEW, k)
  {}

  /** Under any sequence of saves, discoveries and imports, the audit rows of a key form an unbroken
      chain that ends in the live row. */
  lemma AuditIsAChain(digest: Terms -> string, ops: seq<Op>, k: MarketKey)
    ensures var r := Run(digest, NEW, ops);
            && Chain(AuditOf(r.audit, k), RowOf(r, k))
            && (k in r.bindings ==> r.bindings[k].binding.market == k
                                    && r.bindings[k].revision == r.bindings[k].binding.revision)
  {
    RunKeeps(digest, ops);
    hide Chain, AuditOf;
    assert KeyInv(Run(digest, NEW, ops), k);
  }

  // ---------- compare and set ----------

  /** What one step leaves of one key: its revision never goes back. */
  lemma {:induction false} ImportedNeverGoesBack(digest: Terms -> string, r: Registry, items: seq<Binding>, now: int, k: MarketKey)
    ensures RevisionOf(RowOf(r, k)) <= RevisionOf(RowOf(Imported(digest, r, items, now), k))
  {
    hide ToImport, Written, ImportedOne;
    if items != [] {
      ImportedNeverGoesBack(digest, r, items[..|items| - 1], now, k);
      var (before, item) := (Imported(digest, r, items[..|items| - 1], now), items[|items| - 1]);
      ImportedOneIsWritten(digest, before, item, now);
      var chosen := ToImport(digest, RowOf(before, item.market), LastActor(before.audit, item.market), item, now);
      if chosen.Some? { WrittenEffects(before, chosen.value.(market := item.market), CATALOG, k); }
    }
  }

  lemma {:induction false} DiscoveredKeepsRows(r: Registry, pending: seq<Binding>, k: MarketKey)
    ensures Discovered(r, pending).audit == r.audit
    ensures k in r.bindings ==> RowOf(Discovered(r, pending), k) == RowOf(r, k)
  {
    if pending != [] { DiscoveredKeepsRows(r, pending[..|pending| - 1], k); }
  }

  lemma {:induction false} RunNeverGoesBack(digest: Terms -> string, r: Registry, ops: seq<Op>, k: MarketKey)
    ensures RevisionOf(RowOf(r, k)) <= RevisionOf(RowOf(Run(digest, r, ops), k))
  {
    hide Imported, Discovered, Written;
    if ops != [] {
      var before := Run(digest, r, ops[..|ops| - 1]);
      RunNeverGoesBack(digest, r, ops[..|ops| - 1], k);
      match ops[|ops| - 1] {
        case Save(m, actor) => WrittenEffects(before, m.binding, actor, k);
        case Discover(pending) => DiscoveredKeepsRows(before, pending, k);
        case Import(items, now) => ImportedNeverGoesBack(digest, before, items, now, k);
      }
    }
  }

  predicate Accepts(r: Registry, m: Mutation) { RevisionOf(RowOf(r, m.binding.market)) == m.expectedRevision }

  /** Of two saves of a key prepared for the same revision, at most one is accepted, whatever happens
      in between. */
  lemma OneSavePerRevision(digest: Terms -> string, ops: seq<Op>, i: nat, j: nat)
    requires i < j < |ops| && ops[i].Save? && ops[j].Save?
    requires ops[i].mutation.binding.market == ops[j].mutation.binding.market
    requires ops[i].mutation.expectedRevision == ops[j].mutation.expectedRevision
    ensures !(Accepts(Run(digest, NEW, ops[..i]), ops[i].mutation) && Accepts(Run(digest, NEW, ops[..j]), ops[j].mutation))
  {
    var (m, k) := (ops[i].mutation, ops[i].mutation.binding.market);
    var (first, between) := (Run(digest, NEW, ops[..i]), ops[i + 1..j]);
    assert ops[..i + 1][..i] == ops[..i];
    assert ops[..j] == ops[..i + 1] + between;
    RunAppend(digest, NEW, ops[..i + 1], between);
    RunNeverGoesBack(digest, Run(digest, NEW, ops[..i + 1]), between, k);
    if Accepts(first, m) {
      WrittenEffects(first, m.binding, ops[i].actor, k);
      assert Run(digest, NEW, ops[..i + 1]) == Saved(first, m, ops[i].actor);
    }
  }

  // ---------- who may write what ----------

  /** The catalog leaves this key alone: somebody else wrote it last, or it needs a human. */
  predicate HandsOff(r: Registry, k: MarketKey) {
    var row := RowOf(r, k);
    || !MayImport(LastActor(r.audit, k))
    || (row.Some? && (row.value.binding.identity.Conflict? || row.value.binding.identity.Expired?))
  }

  /** An import writes nothing, neither row nor audit, for a key whose newest audit row is not the
      catalog's or whose identity is in conflict or expired. */
  lemma {:induction false} ImportHandsOff(digest: Terms -> string, r: Registry, items: seq<Binding>, now: int, k: MarketKey)
    requires HandsOff(r, k)
    ensures var after := Imported(digest, r, items, now);
            && RowOf(after, k) == RowOf(r, k) && AuditOf(after.audit, k) == AuditOf(r.audit, k)
            && LastActor(after.audit, k) == LastActor(r.audit, k)
  {
    hide AuditOf, LastActor, Written, ImportedOne;
    if items != [] {
      ImportHandsOff(digest, r, items[..|items| - 1], now, k);
      var (before, item) := (Imported(digest, r, items[..|items| - 1], now), items[|items| - 1]);
      ImportedOneIsWritten(digest, before, item, now);
      var chosen := ToImport(digest, RowOf(before, item.market), LastActor(before.audit, item.market), item, now);
      if chosen.Some? { WrittenEffects(before, chosen.value.(market := item.market), CATALOG, k); }
    }
  }

  predicate SavesKey(op: Op, k: MarketKey) { op.Save? && op.mutation.binding.market == k }

  /** A dashboard decision stands, whatever is discovered or imported, until the key is saved again. */
  lemma {:induction false} DashboardDecides(digest: Terms -> string, r: Registry, m: Mutation, actor: string, ops: seq<Op>)
    requires Accepts(r, m) && actor != CATALOG
    requires forall i :: 0 <= i < |ops| ==> !SavesKey(ops[i], m.binding.market)
    ensures var after := Run(digest, Saved(r, m, actor), ops);
            && RowOf(after, m.binding.market)
                 == Some(Row(m.expectedRevision + 1, m.binding.(revision := m.expectedRevision + 1)))
            && LastActor(after.audit, m.binding.market) == Some(actor)
  {
    hide LastActor, Written, Imported, Discovered;
    var k := m.binding.market;
    if ops == [] {
      WrittenEffects(r, m.binding, actor, k);
    } else {
      DashboardDecides(digest, r, m, actor, ops[..|ops| - 1]);
      var before := Run(digest, Saved(r, m, actor), ops[..|ops| - 1]);
      match ops[|ops| - 1] {
        case Save(other, saver) =>
          assert !SavesKey(ops[|ops| - 1], k);
          WrittenEffects(before, other.binding, saver, k);
        case Discover(pending) => DiscoveredKeepsRows(before, pending, k);
        case Import(items, now) => ImportHandsOff(digest, before, items, now, k);
      }
    }
  }

  // ---------- importing again ----------

  predicate Settled(digest: Terms -> string, r: Registry, item: Binding, now: int) {
    ToImport(digest, RowOf(r, item.market), LastActor(r.audit, item.market), item, now).None?
  }

  /** An item the catalog can refresh a row with: verified, and still so a day after `later`. */
  predicate Lasting(item: Binding, later: int) {
    item.identity.Verified? && item.validUntil.Some? && item.validUntil.value > later + DAY
  }

  function Markets(items: seq<Binding>): set<MarketKey> { set b | b in items :: b.market }

  /** Among these keys, no verified row that the catalog may write and that is good for another day at
      `now` enters its last day by `later`. */
  ghost predicate NoneExpires(r: Registry, keys: set<MarketKey>, now: int, later: int) {
    forall k :: k in keys && k in r.bindings && MayImport(LastActor(r.audit, k)) ==>
      var b := r.bindings[k].binding;
      b.identity.Verified? && b.validUntil.Some? && b.validUntil.value > now + DAY ==> b.validUntil.value > later + DAY
  }

  lemma NoneExpiresAfter(digest: Terms -> string, r: Registry, item: Binding, keys: set<MarketKey>, now: int, later: int)
    requires NoneExpires(r, keys, now, later) && Lasting(item, later)
    ensures NoneExpires(ImportedOne(digest, r, item, now), keys, now, later)
  {
    ImportedOneIsWritten(digest, r, item, now);
    var chosen := ToImport(digest, RowOf(r, item.market), LastActor(r.audit, item.market), item, now);
    if chosen.Some? {
      forall k ensures k != item.market ==> LastActor(ImportedOne(digest, r, item, now).audit, k) == LastActor(r.audit, k) {
        WrittenEffects(r, chosen.value.(market := item.market), CATALOG, k);
      }
    }
    hide LastActor;
  }

  /** Importing one item settles it and unsettles none. */
  lemma ImportSettles(digest: Terms -> string, r: Registry, item: Binding, other: Binding, keys: set<MarketKey>, now: int,
      later: int)
    requires Lasting(item, later) && Lasting(other, later) && NoneExpires(r, keys, now, later) && item.market in keys
    requires other == item || Settled(digest, r, other, later)
    ensures Settled(digest, ImportedOne(digest, r, item, now), other, later)
  {
    hide LastActor, Written;
    ImportedOneIsWritten(digest, r, item, now);
    var chosen := ToImport(digest, RowOf(r, item.market), LastActor(r.audit, item.market), item, now);
    if chosen.Some? { WrittenEffects(r, chosen.value.(market := item.market), CATALOG, other.market); }
    else if other == item {
      var row := RowOf(r, item.market);
      if row.Some? && row.value.binding.identity.Verified? { assert item.market in r.bindings; }
    }
  }

  lemma {:induction false} BatchSettles(digest: Terms -> string, r: Registry, items: seq<Binding>, keys: set<MarketKey>,
      now: int, later: int)
    requires NoneExpires(r, keys, now, later) && Markets(items) <= keys
    requires forall i :: 0 <= i < |items| ==> Lasting(items[i], later)
    ensures NoneExpires(Imported(digest, r, items, now), keys, now, later)
    ensures forall i :: 0 <= i < |items| ==> Settled(digest, Imported(digest, r, items, now), items[i], later)
  {
    hide NoneExpires, Lasting, Settled, ImportedOne;
    if items != [] {
      var (init, item) := (items[..|items| - 1], items[|items| - 1]);
      assert forall i :: 0 <= i < |init| ==> Lasting(init[i], later) by {
        forall i | 0 <= i < |init| ensures Lasting(init[i], later) { assert init[i] == items[i]; }
      }
      assert Markets(init) <= Markets(items) && item.market in Markets(items);
      BatchSettles(digest, r, init, keys, now, later);
      var before := Imported(digest, r, init, now);
      NoneExpiresAfter(digest, before, item, keys, now, later);
      forall i | 0 <= i < |items| ensures Settled(digest, Imported(digest, r, items, now), items[i], later) {
        if i < |init| { assert init[i] == items[i]; }
        ImportSettles(digest, before, item, items[i], keys, now, later);
      }
    }
  }

  lemma {:induction false} SettledWritesNothing(digest: Terms -> string, r: Registry, items: seq<Binding>, now: int)
    requires forall i :: 0 <= i < |items| ==> Settled(digest, r, items[i], now)
    ensures Imported(digest, r, items, now) == r
  {
    if items != [] { SettledWritesNothing(digest, r, items[..|items| - 1], now); }
  }

  /** Importing the same batch of lasting verified items again, now or later, writes nothing as long as
      no verified row of its keys enters its last day in between. */
  lemma ImportIsIdempotent(digest: Terms -> string, r: Registry, items: seq<Binding>, now: int, later: int)
    requires forall i :: 0 <= i < |items| ==> Lasting(items[i], later)
    requires later == now || NoneExpires(r, Markets(items), now, later)
    ensures Imported(digest, Imported(digest, r, items, now), items, later) == Imported(digest, r, items, now)
  {
    BatchSettles(digest, r, items, Markets(items), now, later);
    SettledWritesNothing(digest, Imported(digest, r, items, now), items, later);
  }

  // ---------- what every stored binding shows ----------

  /** Every input binding passed the model's validator. */
  predicate WellFoundedOp(op: Op) {
    match op
    case Save(m, _) => WellFounded(m.binding)
    case Discover(pending) => forall i :: 0 <= i < |pending| ==> WellFounded(pending[i])
    case Import(items, _) => forall i :: 0 <= i < |items| ==> WellFounded(items[i])
  }

  ghost predicate AllWellFounded(r: Registry) {
    forall k :: k in r.bindings ==> WellFounded(r.bindings[k].binding)
  }

  lemma {:induction false} ImportedWellFounded(digest: Terms -> string, r: Registry, items: seq<Binding>, now: int)
    requires AllWellFounded(r) && forall i :: 0 <= i < |items| ==> WellFounded(items[i])
    ensures AllWellFounded(Imported(digest, r, items, now))
  {
    hide LastActor;
    if items != [] {
      ImportedWellFounded(digest, r, items[..|items| - 1], now);
    }
  }

  lemma {:induction false} DiscoveredWellFounded(r: Registry, pending: seq<Binding>)
    requires AllWellFounded(r) && forall i :: 0 <= i < |pending| ==> WellFounded(pending[i])
    ensures AllWellFounded(Discovered(r, pending))
  {
    if pending != [] { DiscoveredWellFounded(r, pending[..|pending| - 1]); }
  }

  /** Neither a new revision nor a conflict made of two verified bindings escapes the validator: every
      stored binding still satisfies it when the next import reads it back. */
  lemma {:induction false} StoredBindingsAreWellFounded(digest: Terms -> string, ops: seq<Op>)
    requires forall i :: 0 <= i < |ops| ==> WellFoundedOp(ops[i])
    ensures AllWellFounded(Run(digest, NEW, ops))
  {
    hide Imported, Discovered;
    if ops != [] {
      StoredBindingsAreWellFounded(digest, ops[..|ops| - 1]);
      var before := Run(digest, NEW, ops[..|ops| - 1]);
      assert WellFoundedOp(ops[|ops| - 1]);
      match ops[|ops| - 1] {
        case Save(m, actor) =>
        case Discover(pending) => DiscoveredWellFounded(before, pending);
        case Import(items, now) => ImportedWellFounded(digest, before, items, now);
      }
    }
  }
}
