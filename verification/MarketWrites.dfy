/**
 What each writer of the registry leaves behind, stated on the rows and audit rows themselves.
 */
module MarketWrites {
  import opened Wrappers
  import opened MarketIdentity
  import opened MarketIdentityRepository
  import opened MarketRuns

  lemma {:induction false} NewestActor(audit: seq<AuditRow>, k: MarketKey)
    ensures var rows := AuditOf(audit, k);
            LastActor(audit, k) == if rows == [] then None else Some(rows[|rows| - 1].actor)
  {
    if audit != [] { NewestActor(audit[..|audit| - 1], k); }
  }

  /** Nobody but the catalog has written the newest audit row of the key. */
  ghost predicate CatalogOwns(r: Registry, k: MarketKey) {
    var rows := AuditOf(r.audit, k);
    rows == [] || rows[|rows| - 1].actor == "official_catalog"
  }

  /** The registry after `b` is stored over the row of its key, at the next revision, with its audit row. */
  ghost predicate Stored(r: Registry, after: Registry, b: Binding, actor: string) {
    var k := b.market;
    var revision := if k in r.bindings then r.bindings[k].revision else 0;
    var saved := b.(revision := revision + 1);
    && after.bindings == r.bindings[k := Row(revision + 1, saved)]
    && after.audit == r.audit + [AuditRow(k, revision, revision + 1, actor,
                                          if k in r.bindings then Some(r.bindings[k].binding) else None, saved)]
  }

  function FirstTwenty(evidence: seq<string>): seq<string> { if |evidence| <= 20 then evidence else evidence[..20] }

  /** What one catalog item does. A key that somebody else wrote last, or whose identity is in conflict or
      expired, is left alone. An unknown or a pending key takes the item. A verified row with another
      fingerprint becomes a conflict, whatever its validity: it keeps its own terms, its unit is pending
      again and the evidence of both is joined, up to twenty pieces. A verified row that agrees is left
      alone while it is valid for more than a day, and refreshed by the item otherwise. */
  lemma ImportDecides(digest: Terms -> string, r: Registry, item: Binding, now: int)
    requires item.market in r.bindings ==> r.bindings[item.market].binding.market == item.market
    ensures var (k, after) := (item.market, Imported(digest, r, [item], now));
            if !CatalogOwns(r, k) then after == r
            else if k !in r.bindings then Stored(r, after, item, "official_catalog")
            else
              var row := r.bindings[k].binding;
              match row.identity
              case Conflict => after == r
              case Expired => after == r
              case Pending => Stored(r, after, item, "official_catalog")
              case Verified =>
                if digest(row.terms) != digest(item.terms) then
                  Stored(r, after, row.(identity := Conflict, unit := UnitPending,
                                        evidence := FirstTwenty(row.evidence + item.evidence)), "official_catalog")
                else if row.validUntil.Some? && row.validUntil.value - now > 86400 then after == r
                else Stored(r, after, item, "official_catalog")
  {
    NewestActor(r.audit, item.market);
    hide LastActor, AuditOf;
    assert [item][..0] == [];
    assert Imported(digest, r, [], now) == r;
  }

  /** A batch does this item after item. */
  lemma {:induction false} ImportedSplits(digest: Terms -> string, r: Registry, xs: seq<Binding>, ys: seq<Binding>, now: int)
    ensures Imported(digest, r, xs + ys, now) == Imported(digest, Imported(digest, r, xs, now), ys, now)
  {
    hide ImportedOne;
    if ys == [] {
      assert xs + ys == xs;
    } else {
      assert (xs + ys)[..|xs + ys| - 1] == xs + ys[..|ys| - 1];
      ImportedSplits(digest, r, xs, ys[..|ys| - 1], now);
    }
  }

  /** A save is stored exactly when the live revision, 0 for an unknown key, is the expected one. */
  lemma SaveDecides(r: Registry, m: Mutation, actor: string)
    ensures var (k, after) := (m.binding.market, Saved(r, m, actor));
            if (if k in r.bindings then r.bindings[k].revision else 0) == m.expectedRevision
            then Stored(r, after, m.binding, actor)
            else after == r
  {}

  /** The first binding for a key, reading from the front. */
  function FirstFor(pending: seq<Binding>, k: MarketKey): Option<Binding> {
    if pending == [] then None else if pending[0].market == k then Some(pending[0]) else FirstFor(pending[1..], k)
  }

  lemma {:induction false} FirstForAppend(pending: seq<Binding>, b: Binding, k: MarketKey)
    ensures FirstFor(pending + [b], k) ==
              if FirstFor(pending, k).Some? then FirstFor(pending, k) else if b.market == k then Some(b) else None
  {
    if pending == [] {
      assert [b][1..] == [] && pending + [b] == [b];
    } else {
      assert (pending + [b])[1..] == pending[1..] + [b];
      FirstForAppend(pending[1..], b, k);
    }
  }

  /** A discovery leaves known keys and the audit alone, and gives an unknown key the first binding for it,
      at revision 1. */
  lemma {:induction false} DiscoverDecides(r: Registry, pending: seq<Binding>, k: MarketKey)
    ensures var after := Discovered(r, pending);
            && after.audit == r.audit
            && RowOf(after, k) == (if k in r.bindings then Some(r.bindings[k])
                                   else if FirstFor(pending, k).None? then None
                                   else Some(Row(1, FirstFor(pending, k).value.(revision := 1))))
  {
    if pending != [] {
      var (init, b) := (pending[..|pending| - 1], pending[|pending| - 1]);
      DiscoverDecides(r, init, k);
      DiscoverDecides(r, init, b.market);
      FirstForAppend(init, b, k);
      assert pending == init + [b];
    }
  }

  /** What the first snapshot of a key gives, reading from the front. */
  function FirstOf(rows: seq<Snapshot>, k: MarketKey): Option<Binding> {
    if rows == [] then None
    else if PendingOf(rows[0]).Success? && PendingOf(rows[0]).value.market == k then Some(PendingOf(rows[0]).value)
    else FirstOf(rows[1..], k)
  }

  lemma {:induction false} FirstOfAppend(rows: seq<Snapshot>, s: Snapshot, k: MarketKey)
    ensures FirstOf(rows + [s], k) ==
              if FirstOf(rows, k).Some? then FirstOf(rows, k)
              else if PendingOf(s).Success? && PendingOf(s).value.market == k then Some(PendingOf(s).value) else None
  {
    hide PendingOf;
    if rows == [] {
      assert [s][1..] == [] && rows + [s] == [s];
    } else {
      assert (rows + [s])[1..] == rows[1..] + [s];
      FirstOfAppend(rows[1..], s, k);
    }
  }

  /** A call fails exactly when a snapshot has a key but no valid binding; otherwise every key that a snapshot
      names is offered its first one. */
  lemma {:induction false} SnapshotsDecide(rows: seq<Snapshot>, k: MarketKey)
    ensures Discoverable(rows).None? <==> exists s :: s in rows && PendingOf(s) == Failure(BadBinding)
    ensures Discoverable(rows).Some? ==> FirstFor(Discoverable(rows).value, k) == FirstOf(rows, k)
  {
    hide PendingOf;
    if rows != [] {
      var (init, last) := (rows[..|rows| - 1], rows[|rows| - 1]);
      SnapshotsDecide(init, k);
      assert rows == init + [last];
      FirstOfAppend(init, last, k);
      if Discoverable(init).Some? {
        assert Discoverable(init).value + [] == Discoverable(init).value;
        if PendingOf(last).Success? { FirstForAppend(Discoverable(init).value, PendingOf(last).value, k); }
      }
    }
  }

  /** A snapshot gives a pending binding under its normalized key: its base is the name, its kind is crypto
      unless it says otherwise, and its original quote currency, or else its quote, trimmed and in capitals,
      is the currency. Everything else is the default. */
  lemma PendingIsSnapshot(s: Snapshot)
    ensures var key := Normalize(MarketKey(s.exchange, s.marketType, s.dex, s.rawSymbol));
            var (kind, quote) := (if s.assetKind == "" then "crypto" else s.assetKind,
                                  if s.originalQuote == "" then s.quote else s.originalQuote);
            match PendingOf(s)
            case Failure(BadKey) => key.Failure?
            case Failure(BadBinding) =>
              key.Success? && (s.base == "" || |s.base| > 160 || quote == "" || |quote| > 20
                               || kind !in {"crypto", "equity", "index", "commodity", "valuation", "other"})
            case Success(b) =>
              && key == Success(b.market) && 1 <= |s.base| <= 160 && 1 <= |quote| <= 20
              && b.displayName == s.base && b.assetKind == kind && b.terms.quoteCurrency == Upper(Strip(quote))
              && b.identity.Pending? && b.unit.UnitPending? && b.revision == 1 && b.evidence == []
              && b.verifiedAt.None? && b.validUntil.None? && b.terms.assetId.None? && b.terms.settlementCurrency.None?
              && b.terms.priceMultiplier == 1.0 && b.terms.contractSize.None? && b.terms.contractKind.Linear?
              && b.terms.trackingDefinition == "" && b.terms.specFingerprint.None?
  {
    hide Normalize, Upper, Strip;
  }
}
