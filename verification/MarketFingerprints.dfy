/**
 When an import keeps the fingerprint of a verified row: exactly for one item, and exactly for the
 batches that keep it whatever the row and the time.
 */
module MarketFingerprints {
  import opened Wrappers
  import opened MarketIdentity
  import opened MarketIdentityRepository
  import opened MarketRuns

  /** The row exists and has left its pending state. */
  predicate Steady(r: Registry, k: MarketKey) {
    k in r.bindings && !r.bindings[k].binding.identity.Pending?
  }

  /** The row is verified, or was until the catalog contradicted it. */
  predicate KnownTerms(r: Registry, k: MarketKey) {
    k in r.bindings && (r.bindings[k].binding.identity.Verified? || r.bindings[k].binding.identity.Conflict?)
  }

  /** A verified binding for which the catalog may still write, having a day or less left, or no end. */
  predicate Due(b: Binding, now: int) {
    b.identity.Verified? && !(b.validUntil.Some? && b.validUntil.value > now + DAY)
  }

  /** A pending item takes a due row with the same terms back to the pending state. */
  predicate Opens(digest: Terms -> string, r: Registry, item: Binding, now: int, k: MarketKey) {
    && item.market == k && item.identity.Pending? && MayImport(LastActor(r.audit, k))
    && k in r.bindings && Due(r.bindings[k].binding, now) && digest(r.bindings[k].binding.terms) == digest(item.terms)
  }

  /** A pending row is open: the next item for its key is stored whatever its terms. */
  predicate Open(r: Registry, k: MarketKey) {
    k in r.bindings && r.bindings[k].binding.identity.Pending? && MayImport(LastActor(r.audit, k))
  }

  function Digest(digest: Terms -> string, r: Registry, k: MarketKey): string
    requires k in r.bindings
  {
    digest(r.bindings[k].binding.terms)
  }

  // ---------- one item ----------

  /** What one item does to one key. */
  lemma ItemEffect(digest: Terms -> string, r: Registry, item: Binding, now: int, k: MarketKey)
    ensures var (chosen, after) := (ToImport(digest, RowOf(r, k), LastActor(r.audit, k), item, now), ImportedOne(digest, r, item, now));
            if item.market != k || chosen.None? then
              RowOf(after, k) == RowOf(r, k) && LastActor(after.audit, k) == LastActor(r.audit, k)
            else
              && k in after.bindings && LastActor(after.audit, k) == Some(CATALOG)
              && after.bindings[k].binding == chosen.value.(market := k, revision := RevisionOf(RowOf(r, k)) + 1)
  {
    hide LastActor, Written, ToImport;
    ImportedOneIsWritten(digest, r, item, now);
    var chosen := ToImport(digest, RowOf(r, item.market), LastActor(r.audit, item.market), item, now);
    if chosen.Some? { WrittenEffects(r, chosen.value.(market := item.market), CATALOG, k); }
  }

  /** One item changes the fingerprint of a row exactly when the row is open and the item is for its key
      with another fingerprint. A row that is not pending keeps it always, and is not pending afterwards
      exactly when the item does not open it. */
  lemma ItemKeepsFingerprint(digest: Terms -> string, r: Registry, item: Binding, now: int, k: MarketKey)
    requires k in r.bindings
    ensures var after := ImportedOne(digest, r, item, now);
            && k in after.bindings
            && (Digest(digest, after, k) == Digest(digest, r, k)
                <==> !(Open(r, k) && item.market == k && digest(item.terms) != Digest(digest, r, k)))
            && (Steady(r, k) ==> (Steady(after, k) <==> !Opens(digest, r, item, now, k)))
            && (KnownTerms(r, k) && (item.market == k ==> item.identity.Verified?) ==> KnownTerms(after, k))
  {
    ItemEffect(digest, r, item, now, k);
    hide LastActor, ImportedOne;
  }

  // ---------- a batch ----------

  /** A batch without pending items for the key, as both callers make them, keeps the fingerprint of a
      row that is not pending; if it has verified items only, a verified row stays verified or turns into a
      conflict that keeps its terms. */
  lemma {:induction false} VerifiedKeepsFingerprint(digest: Terms -> string, r: Registry, items: seq<Binding>, now: int, k: MarketKey)
    requires Steady(r, k)
    requires forall i :: 0 <= i < |items| && items[i].market == k ==> !items[i].identity.Pending?
    ensures var after := Imported(digest, r, items, now);
            && Steady(after, k) && Digest(digest, after, k) == Digest(digest, r, k)
            && (KnownTerms(r, k) && (forall i :: 0 <= i < |items| && items[i].market == k ==> items[i].identity.Verified?)
                ==> KnownTerms(after, k))
  {
    hide ImportedOne, Digest, KnownTerms, Opens, Open;
    if items != [] {
      var (init, item) := (items[..|items| - 1], items[|items| - 1]);
      VerifiedKeepsFingerprint(digest, r, init, now, k);
      ItemKeepsFingerprint(digest, Imported(digest, r, init, now), item, now, k);
      NotPendingDoesNotOpen(digest, Imported(digest, r, init, now), item, now, k);
    }
  }

  lemma NotPendingDoesNotOpen(digest: Terms -> string, r: Registry, item: Binding, now: int, k: MarketKey)
    requires item.market == k ==> !item.identity.Pending?
    ensures !Opens(digest, r, item, now, k)
    ensures Steady(r, k) ==> !Open(r, k)
  {}

  /** Once a pending item has opened the row, the terms of the next item are what is stored. */
  lemma PendingItemOpensTheDoor(digest: Terms -> string, r: Registry, first: Binding, second: Binding, now: int)
    requires first.market == second.market && Opens(digest, r, first, now, first.market)
    ensures var after := Imported(digest, r, [first, second], now);
            first.market in after.bindings && after.bindings[first.market].binding.terms == second.terms
  {
    var k := first.market;
    assert [first, second][..1] == [first] && [first][..0] == [];
    var middle := ImportedOne(digest, r, first, now);
    ItemEffect(digest, r, first, now, k);
    ItemEffect(digest, middle, second, now, k);
    hide LastActor, ImportedOne;
    assert Imported(digest, r, [first], now) == middle;
  }

  // ---------- exactly the safe batches ----------

  /** The items before `n` for this key all carry this fingerprint, and each is verified or pending. */
  ghost predicate Agree(digest: Terms -> string, items: seq<Binding>, n: nat, k: MarketKey, fp: string) {
    forall h :: 0 <= h < n && h < |items| && items[h].market == k ==>
      digest(items[h].terms) == fp && (items[h].identity.Verified? || items[h].identity.Pending?)
  }

  /** Item `i` is the last one for this key before `n`. */
  ghost predicate IsLast(items: seq<Binding>, i: nat, n: nat, k: MarketKey) {
    && i < n && i < |items| && items[i].market == k
    && forall h :: i < h < n && h < |items| ==> items[h].market != k
  }

  /** A pending item for the key, all before it verified or pending with its fingerprint, and the next one
      for the key with another fingerprint. */
  ghost predicate Clash(digest: Terms -> string, items: seq<Binding>, k: MarketKey, i: nat, j: nat) {
    && j < |items| && items[j].market == k && IsLast(items, i, j, k)
    && items[i].identity.Pending? && digest(items[j].terms) != digest(items[i].terms)
    && Agree(digest, items, i, k, digest(items[i].terms))
  }

  ghost predicate SafeBatch(digest: Terms -> string, items: seq<Binding>, k: MarketKey) {
    forall i: nat, j: nat :: !Clash(digest, items, k, i, j)
  }

  /** At every point of the batch the row has the fingerprint it started with. */
  ghost predicate KeepsThroughout(digest: Terms -> string, r: Registry, items: seq<Binding>, now: int, k: MarketKey)
    requires k in r.bindings
  {
    forall n :: 0 <= n <= |items| ==>
      var after := Imported(digest, r, items[..n], now);
      k in after.bindings && Digest(digest, after, k) == Digest(digest, r, k)
  }

  /** No item changes this row's terms any more: the key is somebody else's, in conflict or expired, or
      verified for more than a day. */
  ghost predicate Quiet(r: Registry, now: int, k: MarketKey) {
    k in r.bindings && (HandsOff(r, k) || (r.bindings[k].binding.identity.Verified? && !Due(r.bindings[k].binding, now)))
  }

  /** Where a row that started out steady can be after `n` items of a batch. */
  ghost predicate OnTrack(digest: Terms -> string, r: Registry, items: seq<Binding>, n: nat, now: int, k: MarketKey, fp: string) {
    && k in r.bindings && Digest(digest, r, k) == fp
    && (|| Quiet(r, now, k)
        || (Due(r.bindings[k].binding, now) && Agree(digest, items, n, k, fp))
        || (Open(r, k) && Agree(digest, items, n, k, fp)
            && exists i: nat :: IsLast(items, i, n, k) && items[i].identity.Pending?))
  }

  lemma StaysQuiet(digest: Terms -> string, r: Registry, item: Binding, now: int, k: MarketKey)
    requires Quiet(r, now, k)
    ensures var after := ImportedOne(digest, r, item, now);
            k in after.bindings && Quiet(after, now, k) && Digest(digest, after, k) == Digest(digest, r, k)
  {
    ItemEffect(digest, r, item, now, k);
    hide LastActor, ImportedOne;
  }

  /** An item for the key with this fingerprint is stored as it is. */
  lemma SamePrint(digest: Terms -> string, r: Registry, item: Binding, now: int, k: MarketKey)
    requires k in r.bindings && item.market == k && digest(item.terms) == Digest(digest, r, k)
    requires Due(r.bindings[k].binding, now) || Open(r, k)
    ensures var after := ImportedOne(digest, r, item, now);
            && k in after.bindings && Digest(digest, after, k) == Digest(digest, r, k)
            && (Quiet(after, now, k)
                || (item.identity.Verified? && Due(after.bindings[k].binding, now))
                || (item.identity.Pending? && Open(after, k)))
  {
    ItemEffect(digest, r, item, now, k);
    hide LastActor, ImportedOne;
  }

  lemma OtherKey(digest: Terms -> string, r: Registry, item: Binding, now: int, k: MarketKey)
    requires item.market != k && k in r.bindings
    ensures var after := ImportedOne(digest, r, item, now);
            && k in after.bindings && after.bindings[k] == r.bindings[k] && Digest(digest, after, k) == Digest(digest, r, k)
            && (Quiet(after, now, k) <==> Quiet(r, now, k)) && (Open(after, k) <==> Open(r, k))
  {
    ItemEffect(digest, r, item, now, k);
    hide LastActor, ImportedOne;
  }

  /** A due row that is contradicted turns into a conflict with its own terms. */
  lemma Contradicted(digest: Terms -> string, r: Registry, item: Binding, now: int, k: MarketKey)
    requires k in r.bindings && item.market == k && digest(item.terms) != Digest(digest, r, k) && Due(r.bindings[k].binding, now)
    ensures var after := ImportedOne(digest, r, item, now);
            k in after.bindings && Quiet(after, now, k) && Digest(digest, after, k) == Digest(digest, r, k)
  {
    ItemEffect(digest, r, item, now, k);
    hide LastActor, ImportedOne;
  }

  /** In a safe batch the item after a pending one agrees with it, if those before do. */
  lemma SafeNext(digest: Terms -> string, items: seq<Binding>, i: nat, n: nat, k: MarketKey, fp: string)
    requires SafeBatch(digest, items, k) && n < |items| && items[n].market == k
    requires IsLast(items, i, n, k) && items[i].identity.Pending? && Agree(digest, items, n, k, fp)
    ensures digest(items[n].terms) == fp
  {
    AgreeAt(digest, items, n, k, fp, i);
    assert !Clash(digest, items, k, i, n);
  }

  lemma TrackStep(digest: Terms -> string, r: Registry, items: seq<Binding>, n: nat, now: int, k: MarketKey, fp: string)
    requires SafeBatch(digest, items, k) && n < |items| && OnTrack(digest, r, items, n, now, k, fp)
    ensures OnTrack(digest, ImportedOne(digest, r, items[n], now), items, n + 1, now, k, fp)
  {
    hide Quiet, Open, ImportedOne, Due, Digest;
    var item := items[n];
    if Quiet(r, now, k) {
      StaysQuiet(digest, r, item, now, k);
    } else if item.market != k {
      OtherKey(digest, r, item, now, k);
      if i: nat :| IsLast(items, i, n, k) && items[i].identity.Pending? { assert IsLast(items, i, n + 1, k); }
    } else if digest(item.terms) == fp {
      SamePrint(digest, r, item, now, k);
      assert IsLast(items, n, n + 1, k);
    } else if Due(r.bindings[k].binding, now) {
      Contradicted(digest, r, item, now, k);
    } else {
      var i: nat :| IsLast(items, i, n, k) && items[i].identity.Pending?;
      SafeNext(digest, items, i, n, k, fp);
    }
  }

  lemma {:induction false} SafeBatchKeeps(digest: Terms -> string, r: Registry, items: seq<Binding>, now: int, k: MarketKey, n: nat)
    requires SafeBatch(digest, items, k) && Steady(r, k) && n <= |items|
    ensures OnTrack(digest, Imported(digest, r, items[..n], now), items, n, now, k, Digest(digest, r, k))
  {
    if n == 0 {
      hide LastActor;
    } else {
      hide OnTrack, SafeBatch, ImportedOne;
      SafeBatchKeeps(digest, r, items, now, k, n - 1);
      assert items[..n][..n - 1] == items[..n - 1];
      TrackStep(digest, Imported(digest, r, items[..n - 1], now), items, n - 1, now, k, Digest(digest, r, k));
    }
  }

  /** A time by which no item is good for another day. */
  function LatestEnd(items: seq<Binding>): (end: int)
    ensures forall i :: 0 <= i < |items| && items[i].validUntil.Some? ==> items[i].validUntil.value <= end
  {
    if items == [] then 0
    else
      var (end, b) := (LatestEnd(items[..|items| - 1]), items[|items| - 1]);
      assert forall i :: 0 <= i < |items| - 1 ==> items[i] == items[..|items| - 1][i];
      if b.validUntil.Some? && b.validUntil.value > end then b.validUntil.value else end
  }

  /** A registry whose only row is this binding, verified until `end`. */
  function Lone(b: Binding, end: int): Registry {
    Registry(map[b.market := Row(1, b.(identity := Verified, unit := UnitPending, revision := 1,
                                      verifiedAt := Some(end - 1), validUntil := Some(end), evidence := ["source"]))], [])
  }

  /** Up to a pending item, items that agree with it leave the row of `Lone` due or open. */
  lemma {:induction false} LoneIsOpened(digest: Terms -> string, items: seq<Binding>, i: nat, n: nat, now: int)
    requires n <= i < |items| && now == LatestEnd(items)
    requires Agree(digest, items, i, items[i].market, digest(items[i].terms))
    ensures var (k, after) := (items[i].market, Imported(digest, Lone(items[i], LatestEnd(items)), items[..n], now));
            && k in after.bindings && Digest(digest, after, k) == digest(items[i].terms)
            && MayImport(LastActor(after.audit, k)) && (Due(after.bindings[k].binding, now) || Open(after, k))
  {
    var k := items[i].market;
    if n > 0 {
      LoneIsOpened(digest, items, i, n - 1, now);
      assert items[..n][..n - 1] == items[..n - 1];
      ItemEffect(digest, Imported(digest, Lone(items[i], LatestEnd(items)), items[..n - 1], now), items[n - 1], now, k);
      hide LastActor, ImportedOne, Agree;
      AgreeAt(digest, items, i, k, digest(items[i].terms), n - 1);
    }
  }

  lemma AgreeAt(digest: Terms -> string, items: seq<Binding>, n: nat, k: MarketKey, fp: string, h: nat)
    requires Agree(digest, items, n, k, fp) && h < n && h < |items|
    ensures items[h].market == k ==>
              digest(items[h].terms) == fp && (items[h].identity.Verified? || items[h].identity.Pending?)
  {}

  /** From the pending item to the next for the key, the row stays open. */
  lemma {:induction false} StaysOpen(digest: Terms -> string, items: seq<Binding>, i: nat, n: nat, now: int)
    requires i < n <= |items| && now == LatestEnd(items) && items[i].identity.Pending? && IsLast(items, i, n, items[i].market)
    requires Agree(digest, items, i, items[i].market, digest(items[i].terms))
    ensures var (k, after) := (items[i].market, Imported(digest, Lone(items[i], LatestEnd(items)), items[..n], now));
            Open(after, k) && Digest(digest, after, k) == digest(items[i].terms)
  {
    hide LastActor, ImportedOne, Imported, Agree, Lone, LatestEnd;
    var (k, r) := (items[i].market, Lone(items[i], LatestEnd(items)));
    var before := Imported(digest, r, items[..n - 1], now);
    ImportedNext(digest, r, items, n - 1, now);
    if n == i + 1 {
      LoneIsOpened(digest, items, i, i, now);
      TakesPending(digest, before, items[i], now, k);
    } else {
      StaysOpen(digest, items, i, n - 1, now);
      OtherKey(digest, before, items[n - 1], now, k);
    }
  }

  lemma ImportedNext(digest: Terms -> string, r: Registry, items: seq<Binding>, n: nat, now: int)
    requires n < |items|
    ensures Imported(digest, r, items[..n + 1], now) == ImportedOne(digest, Imported(digest, r, items[..n], now), items[n], now)
  {
    hide ImportedOne;
    assert items[..n + 1][..n] == items[..n];
  }

  /** A due or an open row takes a pending item that agrees with it, and is open then. */
  lemma TakesPending(digest: Terms -> string, r: Registry, item: Binding, now: int, k: MarketKey)
    requires item.market == k && item.identity.Pending? && k in r.bindings && MayImport(LastActor(r.audit, k))
    requires digest(r.bindings[k].binding.terms) == digest(item.terms) && (Due(r.bindings[k].binding, now) || Open(r, k))
    ensures var after := ImportedOne(digest, r, item, now); Open(after, k) && Digest(digest, after, k) == digest(item.terms)
  {
    hide LastActor, ImportedOne;
    ItemEffect(digest, r, item, now, k);
  }

  lemma LoneIsVerified(b: Binding, end: int)
    ensures var r := Lone(b, end);
            && b.market in r.bindings && r.bindings[b.market].binding.identity.Verified?
            && r.bindings[b.market].binding.terms == b.terms
            && (b.terms.assetId.Some? && b.terms.assetId.value != [] ==> AllWellFounded(r))
  {}

  /** A clash changes the fingerprint of some verified row at some time; one that the validator accepts,
      if the pending item names an asset. */
  lemma ClashChanges(digest: Terms -> string, items: seq<Binding>, k: MarketKey, i: nat, j: nat)
    requires Clash(digest, items, k, i, j)
    ensures var (r, now) := (Lone(items[i], LatestEnd(items)), LatestEnd(items));
            && k in r.bindings && r.bindings[k].binding.identity.Verified?
            && (items[i].terms.assetId.Some? && items[i].terms.assetId.value != [] ==> AllWellFounded(r))
            && var after := Imported(digest, r, items[..j + 1], now);
               k in after.bindings && Digest(digest, after, k) != Digest(digest, r, k)
  {
    hide LastActor, ImportedOne, Imported, Agree, Lone, LatestEnd, Steady, KnownTerms, Opens, AllWellFounded;
    var now := LatestEnd(items);
    var r := Lone(items[i], now);
    LoneIsVerified(items[i], now);
    StaysOpen(digest, items, i, j, now);
    ImportedNext(digest, r, items, j, now);
    ItemKeepsFingerprint(digest, Imported(digest, r, items[..j], now), items[j], now, k);
  }

  /** A batch keeps the fingerprint of every row that is not pending, at every time and throughout,
      exactly when it has no clash: a caller can tell from the batch alone. */
  lemma SafeIffKept(digest: Terms -> string, items: seq<Binding>, k: MarketKey)
    ensures SafeBatch(digest, items, k) <==>
              forall r: Registry, now: int | Steady(r, k) :: KeepsThroughout(digest, r, items, now, k)
  {
    if SafeBatch(digest, items, k) {
      forall r: Registry, now: int | Steady(r, k) ensures KeepsThroughout(digest, r, items, now, k) {
        forall n | 0 <= n <= |items|
          ensures var after := Imported(digest, r, items[..n], now);
                  k in after.bindings && Digest(digest, after, k) == Digest(digest, r, k)
        {
          SafeBatchKeeps(digest, r, items, now, k, n);
        }
      }
    } else {
      var i: nat, j: nat :| Clash(digest, items, k, i, j);
      ClashChanges(digest, items, k, i, j);
      hide Imported, Clash;
      assert !KeepsThroughout(digest, Lone(items[i], LatestEnd(items)), items, LatestEnd(items), k);
    }
  }
}
