/** What one sync leaves under each id: fields, region and sync state of the row, in terms of the provider's answers
    (internal/ctyun/sync.go:183-213, internal/storage/storage.go:406-478). */
module SyncRows {
  import opened Wrappers
  import opened Identity
  import opened RegionListing
  import opened ListingTheorems
  import opened ResourceStore
  import opened SyncCommit
  import opened SyncSafety

  // ---------------------------------------------------------------- one key through a plan

  predicate Lists(kind: string, entry: RegionResult, id: string) {
    HasId(entry.items, kind, id)
  }

  /** The entry replaces its region's rows and has the id among its own. */
  predicate Stores(kind: string, entry: RegionResult, id: string) {
    entry.status == Success && id != "" && Lists(kind, entry, id)
  }

  function ListedContent(account: int, kind: string, entry: RegionResult, normalize: Normalizer, id: string): Content
    requires Stores(kind, entry, id)
  {
    ListingIds(entry.items, kind, entry.region, normalize, account, id);
    Listing(account, kind, EntryWrites(kind, entry, normalize))[Key(account, kind, id)]
  }

  /** One replacement, seen from one key of its account and type: a listed row is new and current, any other is kept as
      it is unless it stood in the region. */
  lemma ReplaceKey(rows: Table, key: Key, region: string, writes: seq<Write>)
    requires ForRegion(writes, region)
    ensures
      var after := Apply(rows, Replace(key.account, key.kind, [region], writes));
      var listing := Listing(key.account, key.kind, writes);
      if key in listing then key in after && after[key] == Row(listing[key], true, "") && listing[key].region == region
      else
        && (key in after <==> key in rows && rows[key].content.region != region)
        && (key in after ==> after[key] == rows[key])
  {
    UpsertAllContent(Cleared(rows, key.account, key.kind, [region]), key.account, key.kind, writes);
    ListingKeys(key.account, key.kind, writes, region);
    assert forall r :: r in [region] <==> r == region;
  }

  lemma RecordKey(rows: Table, tx: Tx, key: Key)
    requires tx.Record? && tx.account == key.account && tx.kind == key.kind
    ensures
      && (key in Apply(rows, tx) <==> key in rows)
      && (key in rows ==>
            Apply(rows, tx)[key] == if tx.status != Succeeded && rows[key].content.region == tx.region
                                    then Row(rows[key].content, false, tx.error) else rows[key])
  {
    if tx.status != Succeeded { assert forall r :: r in [tx.region] <==> r == tx.region; }
  }

  /** What an entry makes of one key. */
  ghost predicate EntryOutcome(rows: Table, after: Table, account: int, kind: string, entry: RegionResult,
                               normalize: Normalizer, id: string)
  {
    var key := Key(account, kind, id);
    if Stores(kind, entry, id) then
      && key in after && after[key] == Row(ListedContent(account, kind, entry, normalize, id), true, "")
      && after[key].content.region == entry.region
    else
      && (key in after <==> key in rows && !(entry.status == Success && rows[key].content.region == entry.region))
      && (key in after ==> after[key] == AgedBy(rows[key], entry))
  }

  /** A row of the entry's region grows stale. */
  function AgedBy(row: Row, entry: RegionResult): Row {
    if row.content.region == entry.region then Row(row.content, false, entry.error) else row
  }

  /** An entry's transactions, seen from one key. */
  lemma EntryRow(rows: Table, account: int, kind: string, entry: RegionResult, normalize: Normalizer, id: string)
    ensures EntryOutcome(rows, ApplyAll(rows, EntryPlan(account, kind, entry, normalize)), account, kind, entry, normalize, id)
  {
    hide Apply, Writes, Listing, ForRegion, HasId;
    if entry.status != Success {
      ApplyOne(rows, [], EntryPlan(account, kind, entry, normalize)[0]);
      assert [] + [EntryPlan(account, kind, entry, normalize)[0]] == EntryPlan(account, kind, entry, normalize);
      RecordKey(rows, EntryPlan(account, kind, entry, normalize)[0], Key(account, kind, id));
    } else {
      var writes := EntryWrites(kind, entry, normalize);
      var first := Replace(account, kind, [entry.region], writes);
      var second := Record(account, kind, entry.region, Succeeded, |writes|, "");
      assert ApplyAll(rows, EntryPlan(account, kind, entry, normalize)) == Apply(Apply(rows, first), second) by {
        ApplyOne(rows, [], first);
        ApplyOne(rows, [first], second);
        assert [] + [first] == [first] && [first] + [second] == [first, second];
      }
      WritesShape(entry.items, kind, entry.region, normalize);
      ListingIds(entry.items, kind, entry.region, normalize, account, id);
      ReplaceKey(rows, Key(account, kind, id), entry.region, writes);
      RecordKey(Apply(rows, first), second, Key(account, kind, id));
    }
  }

  predicate DistinctRegions(results: seq<RegionResult>) {
    forall i, j :: 0 <= i < j < |results| ==> results[i].region != results[j].region
  }

  /** The last entry that writes the id. */
  predicate LastStoring(kind: string, results: seq<RegionResult>, id: string, k: int) {
    && 0 <= k < |results| && Stores(kind, results[k], id)
    && forall j :: k < j < |results| ==> !Stores(kind, results[j], id)
  }

  predicate SomeStores(kind: string, results: seq<RegionResult>, id: string) {
    exists j :: 0 <= j < |results| && Stores(kind, results[j], id)
  }

  /** A region among these ended in success. */
  predicate Emptied(results: seq<RegionResult>, region: string) {
    exists j :: 0 <= j < |results| && results[j].region == region && results[j].status == Success
  }

  predicate Scanned(results: seq<RegionResult>, region: string) {
    exists j :: 0 <= j < |results| && results[j].region == region
  }

  /** A row that no entry stored: stale if its region was scanned, else as it was. */
  predicate Aged(results: seq<RegionResult>, before: Row, after: Row) {
    && after.content == before.content
    && (!Scanned(results, before.content.region) ==> after == before)
    && forall j :: 0 <= j < |results| && results[j].region == before.content.region ==>
         after == Row(before.content, false, results[j].error)
  }

  ghost predicate PlanOutcome(rows: Table, after: Table, account: int, kind: string, results: seq<RegionResult>,
                              normalize: Normalizer, id: string)
  {
    var key := Key(account, kind, id);
    && (forall k :: LastStoring(kind, results, id, k) ==>
          && key in after && after[key] == Row(ListedContent(account, kind, results[k], normalize, id), true, "")
          && after[key].content.region == results[k].region)
    && (!SomeStores(kind, results, id) ==>
          && (key in after <==> key in rows && !Emptied(results, rows[key].content.region))
          && (key in after ==> Aged(results, rows[key], after[key])))
  }

  /** One key through a plan over distinct regions: the last entry that stores it decides; without one it goes if its
      region succeeded and grows stale if its region did not. */
  lemma {:induction false} PlanRow(rows: Table, account: int, kind: string, results: seq<RegionResult>,
                                   normalize: Normalizer, id: string)
    requires DistinctRegions(results)
    ensures PlanOutcome(rows, ApplyAll(rows, Plan(account, kind, results, normalize)), account, kind, results, normalize, id)
  {
    hide Stores, ListedContent, EntryPlan;
    if results != [] {
      hide ApplyAll, PlanOutcome, EntryOutcome;
      var n := |results| - 1;
      var mid := ApplyAll(rows, Plan(account, kind, results[..n], normalize));
      PlanRow(rows, account, kind, results[..n], normalize, id);
      EntryRow(mid, account, kind, results[n], normalize, id);
      ApplyMore(rows, Plan(account, kind, results[..n], normalize), EntryPlan(account, kind, results[n], normalize));
      OutcomeMore(rows, mid, ApplyAll(rows, Plan(account, kind, results, normalize)), account, kind, results, normalize, id);
    }
  }

  lemma OutcomeMore(rows: Table, mid: Table, after: Table, account: int, kind: string, results: seq<RegionResult>,
                    normalize: Normalizer, id: string)
    requires results != [] && DistinctRegions(results)
    requires PlanOutcome(rows, mid, account, kind, results[..|results| - 1], normalize, id)
    requires EntryOutcome(mid, after, account, kind, results[|results| - 1], normalize, id)
    ensures PlanOutcome(rows, after, account, kind, results, normalize, id)
  {
    hide Stores, ListedContent;
    var key, n := Key(account, kind, id), |results| - 1;
    forall k | LastStoring(kind, results, id, k)
      ensures key in after && after[key] == Row(ListedContent(account, kind, results[k], normalize, id), true, "")
      ensures after[key].content.region == results[k].region
    {
      if k < n {
        assert results[..n][k] == results[k];
        assert LastStoring(kind, results[..n], id, k);
      }
    }
    if !SomeStores(kind, results, id) {
      NoneStored(kind, results, id);
      ScannedLast(results);
      hide PlanOutcome, LastStoring, SomeStores;
      if key in mid && key in rows { AgedMore(results, rows[key], mid[key], results[n]); }
    }
  }

  lemma NoneStored(kind: string, results: seq<RegionResult>, id: string)
    requires results != [] && !SomeStores(kind, results, id)
    ensures !SomeStores(kind, results[..|results| - 1], id) && !Stores(kind, results[|results| - 1], id)
  {
    hide Stores;
  }

  lemma ScannedLast(results: seq<RegionResult>)
    requires results != []
    ensures
      var before, entry := results[..|results| - 1], results[|results| - 1];
      && (forall region :: Emptied(results, region)
            <==> Emptied(before, region) || (entry.region == region && entry.status == Success))
      && (forall region :: Scanned(results, region) <==> Scanned(before, region) || entry.region == region)
  {
    var before, entry := results[..|results| - 1], results[|results| - 1];
    forall region ensures Emptied(results, region) <==> Emptied(before, region) || (entry.region == region && entry.status == Success)
                  ensures Scanned(results, region) <==> Scanned(before, region) || entry.region == region
    {
      assert forall j :: 0 <= j < |before| ==> before[j] == results[j];
    }
  }

  lemma AgedMore(results: seq<RegionResult>, first: Row, mid: Row, entry: RegionResult)
    requires results != [] && entry == results[|results| - 1] && DistinctRegions(results)
    requires Aged(results[..|results| - 1], first, mid)
    ensures Aged(results, first, AgedBy(mid, entry))
  {
    var n := |results| - 1;
    forall j | 0 <= j < |results| && results[j].region == first.content.region
      ensures AgedBy(mid, entry) == Row(first.content, false, results[j].error)
    {
      if j < n { assert results[..n][j] == results[j] && results[j].region != results[n].region; }
    }
    ScannedLast(results);
  }

  // ---------------------------------------------------------------- in terms of the provider's answers

  /** The region ended in success. */
  ghost predicate Succeeds(req: Request, provider: Provider, r: nat) {
    r < |req.regions| && RegionAnswered(req, provider, r, 0) && !RegionCutShort(req, provider, r, 0)
  }

  /** The first of these items with the id. */
  ghost predicate FirstReport(items: seq<Item>, kind: string, id: string, i: int) {
    && id != "" && 0 <= i < |items| && Identifies(items[i], kind, id)
    && forall j :: 0 <= j < i ==> !Identifies(items[j], kind, id)
  }

  ghost predicate Reports(items: seq<Item>, kind: string, id: string) {
    exists i :: FirstReport(items, kind, id, i)
  }

  /** Region `r` is the last successful one whose pages held the id, there at place `i` first. */
  ghost predicate ReportedLast(req: Request, provider: Provider, id: string, r: nat, i: nat) {
    && Succeeds(req, provider, r) && FirstReport(ReturnedItems(req, provider, r), req.kind, id, i)
    && forall s: nat :: r < s && Succeeds(req, provider, s) ==> !Reports(ReturnedItems(req, provider, s), req.kind, id)
  }

  /** The row shows the fields of this item, and is current. */
  predicate Shows(row: Row, item: Item, id: string, kind: string, region: string, normalize: Normalizer) {
    var fields := normalize(item - {"_scan_region"}, kind, region);
    && row.content.name == (if fields.name != "" then fields.name else id)
    && row.content.region == region && row.content.status == fields.status
    && row.content.billing == fields.billing && row.content.payload == fields.payload
    && row.current && row.error == ""
  }

  lemma {:induction false} ListingOfDistinct(out: seq<Item>, kind: string, region: string, normalize: Normalizer,
                                             account: int, k: nat)
    requires k < |out| && ResourceId(out[k], kind) != ""
    requires forall j :: k < j < |out| ==> ResourceId(out[j], kind) != ResourceId(out[k], kind)
    ensures
      var key := Key(account, kind, ResourceId(out[k], kind));
      var listing := Listing(account, kind, Writes(out, kind, region, normalize));
      key in listing && listing[key] == WriteOf(out[k], kind, region, normalize).content
  {
    hide ResourceId;
    var n := |out| - 1;
    PlainKeepsId(out[n], kind);
    var before, writes := Writes(out[..n], kind, region, normalize), Writes(out, kind, region, normalize);
    if writes != before { assert writes[..|before|] == before; }
    if k < n { ListingOfDistinct(out[..n], kind, region, normalize, account, k); }
  }

  lemma FirstReported(items: seq<Item>, kind: string, id: string, i: int)
    ensures FirstReport(items, kind, id, i) <==> IsFirst(items, kind, i) && ResourceId(items[i], kind) == id
  {
    hide ResourceId, Identifies;
    if 0 <= i < |items| {
      IdByPlace(items[i], kind, id);
      forall j | 0 <= j < i ensures ResourceId(items[..i][j], kind) == id <==> Identifies(items[j], kind, id) {
        IdByPlace(items[j], kind, id);
      }
    }
  }

  lemma ReportsMeansHas(items: seq<Item>, kind: string, id: string)
    ensures Reports(items, kind, id) <==> id != "" && HasId(items, kind, id)
  {
    hide ResourceId, Identifies;
    if i :| FirstReport(items, kind, id, i) { FirstReported(items, kind, id, i); }
    if id != "" && HasId(items, kind, id) {
      var i := FirstPosition(items, kind, id);
      FirstReported(items, kind, id, i);
    }
  }

  /** The content stored for an id is that of its first item. */
  lemma FirstIsStored(items: seq<Item>, kind: string, region: string, normalize: Normalizer, account: int, id: string, i: nat)
    requires FirstReport(items, kind, id, i)
    ensures
      var listing := Listing(account, kind, Writes(FirstSeen(items, kind), kind, region, normalize));
      && Key(account, kind, id) in listing
      && Shows(Row(listing[Key(account, kind, id)], true, ""), items[i], id, kind, region, normalize)
  {
    hide ResourceId, Identifies, Listing, Writes, FirstReport;
    FirstReported(items, kind, id, i);
    var positions := FirstSeenPicks(items, kind);
    var k :| 0 <= k < |positions| && positions[k] == i;
    FirstSeenIds(items, kind);
    hide FirstSeen;
    var out := FirstSeen(items, kind);
    assert out[k] == items[i];
    ListingOfDistinct(out, kind, region, normalize, account, k);
    PlainKeepsId(items[i], kind);
  }

  /** What the entries of a listing store, in terms of the provider's answers. */
  lemma EntryStores(req: Request, provider: Provider, r: nat, normalize: Normalizer, account: int, id: string)
    requires KeySafe(req.regions) && req.paths != [] && r < |req.regions|
    ensures
      var results := Detailed(req, Sequential(req, provider), false);
      && results.Ok? && |results.value| == |req.regions| && results.value[r].region == req.regions[r]
      && (results.value[r].status == Success <==> Succeeds(req, provider, r))
      && Stores(req.kind, results.value[r], id)
         == (Succeeds(req, provider, r) && Reports(ReturnedItems(req, provider, r), req.kind, id))
      && forall i: nat :: Succeeds(req, provider, r) && FirstReport(ReturnedItems(req, provider, r), req.kind, id, i) ==>
           i < |ReturnedItems(req, provider, r)| && Stores(req.kind, results.value[r], id)
           && Shows(Row(ListedContent(account, req.kind, results.value[r], normalize, id), true, ""),
                    ReturnedItems(req, provider, r)[i], id, req.kind, req.regions[r], normalize)
  {
    hide ResourceId, Identifies, Listing, Writes, FirstReport, FirstSeen, ReturnedItems, RegionAnswered, RegionCutShort,
      RegionComplained, Detailed, Sequential, Shows, HasId;
    ListingMeaning(req, provider, r);
    var items := ReturnedItems(req, provider, r);
    FirstSeenIds(items, req.kind);
    ReportsMeansHas(items, req.kind, id);
    forall i: nat | FirstReport(items, req.kind, id, i)
      ensures i < |items| && Reports(items, req.kind, id)
      ensures
        var listing := Listing(account, req.kind, Writes(FirstSeen(items, req.kind), req.kind, req.regions[r], normalize));
        && Key(account, req.kind, id) in listing
        && Shows(Row(listing[Key(account, req.kind, id)], true, ""), items[i], id, req.kind, req.regions[r], normalize)
    {
      FirstIsThere(items, req.kind, id, i);
      FirstIsStored(items, req.kind, req.regions[r], normalize, account, id, i);
    }
  }

  lemma FirstIsThere(items: seq<Item>, kind: string, id: string, i: int)
    requires FirstReport(items, kind, id, i)
    ensures 0 <= i < |items|
  {
    hide Identifies;
  }

  /** No successful region is this one. */
  ghost predicate Spared(req: Request, provider: Provider, region: string) {
    forall r: nat :: Succeeds(req, provider, r) ==> req.regions[r] != region
  }

  /** Where a row that no region reported stands after the call. */
  ghost predicate LeftAlone(req: Request, provider: Provider, results: seq<RegionResult>, before: Row, after: Row)
    requires |results| == |req.regions|
  {
    && after.content == before.content
    && (before.content.region !in req.regions ==> after == before)
    && forall r: nat :: r < |req.regions| && req.regions[r] == before.content.region ==>
         !Succeeds(req, provider, r) && !after.current && after.error == results[r].error
  }

  ghost predicate Unreported(req: Request, provider: Provider, id: string) {
    forall r: nat :: Succeeds(req, provider, r) ==> !Reports(ReturnedItems(req, provider, r), req.kind, id)
  }

  lemma RegionsDistinct(req: Request, provider: Provider)
    requires KeySafe(req.regions) && req.regions != [] && req.paths != []
    ensures
      var listed := Detailed(req, Sequential(req, provider), false);
      && listed.Ok? && |listed.value| == |req.regions| && DistinctRegions(listed.value)
      && forall r :: 0 <= r < |req.regions| ==> listed.value[r].region == req.regions[r]
  {
    hide Detailed, Sequential, RegionAnswered, RegionCutShort, RegionComplained, ReturnedItems, FirstSeen;
    ListingMeaning(req, provider, 0);
    var results := Detailed(req, Sequential(req, provider), false).value;
    forall r: nat | r < |req.regions| ensures results[r].region == req.regions[r] { ListingMeaning(req, provider, r); }
    forall i, j | 0 <= i < j < |results| ensures results[i].region != results[j].region {
      assert !Confusable(req.regions[i], req.regions[j]);
    }
  }

  lemma LastReportStored(rows: Table, after: Table, account: int, req: Request, provider: Provider, normalize: Normalizer,
                         id: string, r: nat, i: nat)
    requires KeySafe(req.regions) && req.regions != [] && req.paths != [] && ReportedLast(req, provider, id, r, i)
    requires
      var listed := Detailed(req, Sequential(req, provider), false);
      listed.Ok? && PlanOutcome(rows, after, account, req.kind, listed.value, normalize, id)
    ensures
      var key := Key(account, req.kind, id);
      && key in after && i < |ReturnedItems(req, provider, r)|
      && Shows(after[key], ReturnedItems(req, provider, r)[i], id, req.kind, req.regions[r], normalize)
  {
    assert r < |req.regions|;
    hide ResourceId, Identifies, ReturnedItems, Succeeds, Shows, Reports, Stores, Detailed, Sequential,
      FirstReport, ListedContent, KeySafe, Aged, Emptied, SomeStores;
    var results := Detailed(req, Sequential(req, provider), false).value;
    ReportIsThere(ReturnedItems(req, provider, r), req.kind, id, i);
    forall s: nat | r <= s < |req.regions|
      ensures s < |results| && Stores(req.kind, results[s], id) == (s == r)
    {
      EntryStores(req, provider, s, normalize, account, id);
    }
    EntryStores(req, provider, r, normalize, account, id);
    assert LastStoring(req.kind, results, id, r);
  }

  lemma ReportIsThere(items: seq<Item>, kind: string, id: string, i: int)
    requires FirstReport(items, kind, id, i)
    ensures Reports(items, kind, id)
  {
    hide FirstReport;
  }

  lemma UnreportedKept(rows: Table, after: Table, account: int, req: Request, provider: Provider, normalize: Normalizer,
                       id: string)
    requires KeySafe(req.regions) && req.regions != [] && req.paths != [] && Unreported(req, provider, id)
    requires
      var listed := Detailed(req, Sequential(req, provider), false);
      listed.Ok? && PlanOutcome(rows, after, account, req.kind, listed.value, normalize, id)
    ensures
      var results, key := Detailed(req, Sequential(req, provider), false).value, Key(account, req.kind, id);
      && |results| == |req.regions|
      && (key in after <==> key in rows && Spared(req, provider, rows[key].content.region))
      && (key in after ==> LeftAlone(req, provider, results, rows[key], after[key]))
  {
    assert forall r: nat :: Succeeds(req, provider, r) ==> r < |req.regions|;
    hide ResourceId, Identifies, ReturnedItems, Succeeds, Shows, Reports, Stores, Detailed, Sequential,
      FirstReport, ListedContent, KeySafe, LastStoring;
    var results := Detailed(req, Sequential(req, provider), false).value;
    RegionsDistinct(req, provider);
    forall r: nat | r < |req.regions|
      ensures results[r].status == Success <==> Succeeds(req, provider, r)
      ensures !Stores(req.kind, results[r], id)
    {
      EntryStores(req, provider, r, normalize, account, id);
    }
    assert !SomeStores(req.kind, results, id);
  }

  /**
   * What an uninterrupted call leaves under an id, whatever stood there before: the fields of the first item with the
   * id in the last successful region that reported it, fresh; or, if no successful region reported it, what was there,
   * unless its region succeeded, and stale with the region's error if its region was scanned without success.
   */
  lemma StoredRow(rows: Table, account: int, req: Request, provider: Provider, normalize: Normalizer, id: string)
    requires KeySafe(req.regions) && req.regions != [] && req.paths != []
    ensures
      var listed := Detailed(req, Sequential(req, provider), false);
      var after, key := ApplyAll(rows, CallPlan(Call(account, req.kind, listed), normalize)), Key(account, req.kind, id);
      && listed.Ok? && |listed.value| == |req.regions|
      && (forall r: nat, i: nat :: ReportedLast(req, provider, id, r, i) ==>
            && key in after && i < |ReturnedItems(req, provider, r)|
            && Shows(after[key], ReturnedItems(req, provider, r)[i], id, req.kind, req.regions[r], normalize))
      && (Unreported(req, provider, id) ==>
            && (key in after <==> key in rows && Spared(req, provider, rows[key].content.region))
            && (key in after ==> LeftAlone(req, provider, listed.value, rows[key], after[key])))
  {
    assert forall r: nat, i: nat :: ReportedLast(req, provider, id, r, i) ==> r < |req.regions|;
    hide ResourceId, Identifies, ApplyAll, Plan, ReturnedItems, Succeeds, Shows, Reports, Stores, Detailed, Sequential,
      FirstReport, ListedContent, KeySafe, PlanOutcome;
    EntryStores(req, provider, 0, normalize, account, id);
    var results := Detailed(req, Sequential(req, provider), false).value;
    RegionsDistinct(req, provider);
    PlanRow(rows, account, req.kind, results, normalize, id);
    var after, key := ApplyAll(rows, Plan(account, req.kind, results, normalize)), Key(account, req.kind, id);
    forall r: nat, i: nat | ReportedLast(req, provider, id, r, i)
      ensures key in after && i < |ReturnedItems(req, provider, r)|
      ensures Shows(after[key], ReturnedItems(req, provider, r)[i], id, req.kind, req.regions[r], normalize)
    {
      LastReportStored(rows, after, account, req, provider, normalize, id, r, i);
    }
    if Unreported(req, provider, id) { UnreportedKept(rows, after, account, req, provider, normalize, id); }
  }
}
