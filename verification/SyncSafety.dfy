/** What any number of SyncKind calls, interrupted and interleaved in any way, can do to the stored
    rows of a region (internal/ctyun/sync.go:179-213). */
module SyncSafety {
  import opened Wrappers
  import opened RegionListing
  import opened ListingTheorems
  import opened ResourceStore
  import opened SyncCommit

  /** A SyncKind call, reduced to what its scan returned. */
  datatype Call = Call(account: int, kind: string, listed: Result<seq<RegionResult>, string>)

  /** The transactions a call issues if nothing stops it: none when the scan was aborted. */
  function CallPlan(call: Call, normalize: Normalizer): seq<Tx> {
    match call.listed
    case Err(_) => []
    case Ok(results) => Plan(call.account, call.kind, results, normalize)
  }

  /** The number a call returns: the rows written for the regions it got through. */
  function CallTotal(call: Call, normalize: Normalizer, failAt: nat): nat {
    match call.listed
    case Err(_) => 0
    case Ok(results) =>
      Total(call.kind, results[..Reached(call.account, call.kind, results, normalize, failAt)], normalize)
  }

  /** SyncKind from the scan on. The regions are scanned one after the other, which gives what
      every schedule of the worker pool gives. */
  method SyncKind(store: Store, account: int, req: Request, provider: Provider, aborted: bool,
                  normalize: Normalizer, failAt: nat)
    returns (total: nat, clean: bool)
    requires store.Valid()
    modifies store
    ensures store.Valid()
    ensures
      var call := Call(account, req.kind, Detailed(req, Sequential(req, provider), aborted));
      && store.log == old(store.log) + Applied(CallPlan(call, normalize), failAt)
      && (clean <==> call.listed.Ok? && AllSucceeded(call.listed.value) && failAt >= |CallPlan(call, normalize)|)
      && total == CallTotal(call, normalize, failAt)
  {
    hide ApplyAll, Merge, Plan, Total, AllSucceeded, Reached;
    if req.regions == [] || req.paths == [] { return 0, false; }
    var locals := [];
    for r := 0 to |req.regions|
      invariant store.rows == old(store.rows) && store.log == old(store.log)
      invariant |locals| == r
      invariant forall k :: 0 <= k < r ==> locals[k] == ScanRegion(req, provider, k)
    {
      var local := RunRegion(req, provider, r);
      locals := locals + [local];
    }
    assert locals == Sequential(req, provider);
    if aborted { return 0, false; }
    var results := MergeRegions(req, locals);
    total, clean := CommitRegions(store, account, req.kind, results, normalize, failAt);
  }

  lemma {:induction false} ApplyMore(rows: Table, before: seq<Tx>, more: seq<Tx>)
    ensures ApplyAll(rows, before + more) == ApplyAll(ApplyAll(rows, before), more)
  {
    hide Apply;
    if more == [] {
      assert before + more == before;
    } else {
      var n := |more| - 1;
      ApplyMore(rows, before, more[..n]);
      ApplyOne(rows, before + more[..n], more[n]);
      assert before + more == before + more[..n] + [more[n]];
    }
  }

  // ---------------------------------------------------------------- traces

  /** A sequence of committed transactions in which every replacement came from some call. */
  ghost predicate Issued(trace: seq<Tx>, calls: set<Call>, normalize: Normalizer) {
    forall i :: 0 <= i < |trace| ==> exists call :: call in calls && trace[i] in CallPlan(call, normalize)
  }

  /** The call ended region `r` of its type in success, with this entry. */
  ghost predicate Listed(call: Call, account: int, kind: string, region: string, entry: RegionResult) {
    && call.account == account && call.kind == kind
    && call.listed.Ok? && entry in call.listed.value
    && entry.region == region && entry.status == Success
  }

  lemma {:induction false} WritesShape(items: seq<Item>, kind: string, region: string, normalize: Normalizer)
    ensures ForRegion(Writes(items, kind, region, normalize), region)
  {
    hide ResourceId;
    if items != [] { WritesShape(items[..|items| - 1], kind, region, normalize); }
  }

  lemma {:induction false} PlanReplaces(account: int, kind: string, results: seq<RegionResult>,
                                        normalize: Normalizer, tx: Tx)
    requires tx in Plan(account, kind, results, normalize) && tx.Replace?
    ensures exists entry :: entry in results && entry.status == Success &&
              tx == Replace(account, kind, [entry.region], EntryWrites(kind, entry, normalize))
  {
    hide EntryWrites;
    var n := |results| - 1;
    if tx in Plan(account, kind, results[..n], normalize) {
      PlanReplaces(account, kind, results[..n], normalize, tx);
    } else {
      assert results[n] in results;
    }
  }

  predicate Targeting(tx: Tx, account: int, kind: string, region: string) {
    tx.Replace? && tx.account == account && tx.kind == kind && tx.regions == [region]
  }

  /** The last replacement of a region in a trace. */
  function LastWrites(trace: seq<Tx>, account: int, kind: string, region: string): Option<seq<Write>> {
    if trace == [] then None
    else
      var last := trace[|trace| - 1];
      if Targeting(last, account, kind, region) then Some(last.writes)
      else LastWrites(trace[..|trace| - 1], account, kind, region)
  }

  /** Every replacement of the trace writes one region, and `owned` holds the ids of region
      `region` and no id that another region lists: no id is shared between regions. */
  ghost predicate Unshared(trace: seq<Tx>, account: int, kind: string, region: string, owned: set<Key>) {
    forall i :: 0 <= i < |trace| && trace[i].Replace? ==>
      && |trace[i].regions| == 1 && ForRegion(trace[i].writes, trace[i].regions[0])
      && var keys := Listing(trace[i].account, trace[i].kind, trace[i].writes).Keys;
         if Targeting(trace[i], account, kind, region) then keys <= owned else keys !! owned
  }

  /** After any trace the rows of a region are the last listing of that region, or what they
      were when there was none. */
  lemma {:induction false} RowsAreLastListing(rows: Table, trace: seq<Tx>, account: int, kind: string,
                                              region: string, owned: set<Key>)
    requires Unshared(trace, account, kind, region, owned)
    requires RowsIn(rows, account, kind, region).Keys <= owned
    ensures
      var after := RowsIn(ApplyAll(rows, trace), account, kind, region);
      && after.Keys <= owned
      && after == match LastWrites(trace, account, kind, region)
                  case None => RowsIn(rows, account, kind, region)
                  case Some(writes) => Listing(account, kind, writes)
  {
    if trace != [] {
      hide RowsIn, Apply, Listing, ForRegion;
      var n := |trace| - 1;
      var before, last := trace[..n], trace[n];
      RowsAreLastListing(rows, before, account, kind, region, owned);
      if Targeting(last, account, kind, region) {
        ReplaceSetsRegion(ApplyAll(rows, before), account, kind, region, last.writes);
      } else if last.Replace? {
        assert last.regions == [last.regions[0]];
        ReplaceElsewhere(ApplyAll(rows, before), last.account, last.kind, last.regions[0], last.writes,
                         account, kind, region);
      } else {
        RecordKeepsRows(ApplyAll(rows, before), last, account, kind, region);
      }
    }
  }

  lemma {:induction false} LastWritesOccur(trace: seq<Tx>, account: int, kind: string, region: string)
    requires LastWrites(trace, account, kind, region).Some?
    ensures Replace(account, kind, [region], LastWrites(trace, account, kind, region).value) in trace
  {
    var n := |trace| - 1;
    if !Targeting(trace[n], account, kind, region) {
      LastWritesOccur(trace[..n], account, kind, region);
      assert forall tx :: tx in trace[..n] ==> tx in trace;
    }
  }

  /** The safety theorem. Over every run of calls, with any scan results, any of them cut off at any
      transaction and their transactions interleaved in any order, the rows of a region are either
      untouched or the listing of a call in which that region ended in success; without such a
      call they are untouched. */
  lemma SafeOverRuns(rows: Table, trace: seq<Tx>, calls: set<Call>, normalize: Normalizer,
                     account: int, kind: string, region: string, owned: set<Key>)
    requires Issued(trace, calls, normalize)
    requires Unshared(trace, account, kind, region, owned)
    requires RowsIn(rows, account, kind, region).Keys <= owned
    ensures
      var before := RowsIn(rows, account, kind, region);
      var after := RowsIn(ApplyAll(rows, trace), account, kind, region);
      && (after == before ||
          exists call, entry :: call in calls && Listed(call, account, kind, region, entry) &&
            after == Listing(account, kind, EntryWrites(kind, entry, normalize)))
      && ((forall call, entry :: call in calls ==> !Listed(call, account, kind, region, entry)) ==> after == before)
  {
    hide RowsIn, Listing, EntryWrites, Plan, ApplyAll;
    RowsAreLastListing(rows, trace, account, kind, region, owned);
    if LastWrites(trace, account, kind, region).Some? {
      LastWritesOccur(trace, account, kind, region);
      var tx := Replace(account, kind, [region], LastWrites(trace, account, kind, region).value);
      var i :| 0 <= i < |trace| && trace[i] == tx;
      var call :| call in calls && trace[i] in CallPlan(call, normalize);
      PlanReplaces(call.account, call.kind, call.listed.value, normalize, tx);
      var entry :| entry in call.listed.value && entry.status == Success &&
        tx == Replace(call.account, call.kind, [entry.region], EntryWrites(call.kind, entry, normalize));
      assert [entry.region][0] == [region][0];
      assert Listed(call, account, kind, region, entry);
    }
  }

  // ---------------------------------------------------------------- what a partial scan can destroy

  lemma {:induction false} ListingIds(items: seq<Item>, kind: string, region: string, normalize: Normalizer,
                                      account: int, id: string)
    ensures Key(account, kind, id) in Listing(account, kind, Writes(items, kind, region, normalize))
       <==> id != "" && HasId(items, kind, id)
  {
    hide ResourceId;
    if items != [] {
      var n := |items| - 1;
      ListingIds(items[..n], kind, region, normalize, account, id);
      HasIdLast(items, kind, id);
      PlainKeepsId(items[n], kind);
      var writes := Writes(items, kind, region, normalize);
      var before := Writes(items[..n], kind, region, normalize);
      if writes != before { assert writes[..|before|] == before; }
    }
  }

  /** Dropping the origin mark does not change which resource an item is. */
  lemma PlainKeepsId(item: Item, kind: string)
    ensures ResourceId(item - {"_scan_region"}, kind) == ResourceId(item, kind)
  {
    IdKeysAreNotStamps(kind);
    FirstTextIgnores(item - {"_scan_region"}, item, IdKeys(kind));
  }

  lemma {:induction false} LastWritesOfPlan(account: int, kind: string, results: seq<RegionResult>,
                                            normalize: Normalizer, r: nat)
    requires r < |results| && results[r].status == Success
    requires forall j :: 0 <= j < |results| && j != r ==> results[j].region != results[r].region
    ensures LastWrites(Plan(account, kind, results, normalize), account, kind, results[r].region)
         == Some(EntryWrites(kind, results[r], normalize))
  {
    hide EntryWrites;
    var n := |results| - 1;
    var region, entry := results[r].region, results[n];
    var before := Plan(account, kind, results[..n], normalize);
    LastWritesSkip(before, EntryPlan(account, kind, entry, normalize), account, kind, region);
    if r == n {
      assert [entry.region] == [region];
    } else {
      assert [entry.region][0] != [region][0];
      LastWritesOfPlan(account, kind, results[..n], normalize, r);
    }
  }

  /** Only the replacement among one entry's transactions can matter. */
  lemma LastWritesSkip(before: seq<Tx>, mine: seq<Tx>, account: int, kind: string, region: string)
    requires |mine| == 1 || |mine| == 2
    requires mine[|mine| - 1].Record?
    ensures LastWrites(before + mine, account, kind, region)
         == if |mine| == 2 && Targeting(mine[0], account, kind, region) then Some(mine[0].writes)
            else LastWrites(before, account, kind, region)
  {
    assert (before + mine)[..|before + mine| - 1] == before + mine[..|mine| - 1];
    if |mine| == 2 {
      assert mine[..1] == [mine[0]] && (before + [mine[0]])[..|before|] == before;
    } else {
      assert before + mine[..0] == before;
    }
  }

  /** End to end: after an uninterrupted call over region ids that cannot be confused, the rows of a
      successful region are the first occurrences of the ids its pages returned. */
  lemma SyncStoresListing(rows: Table, account: int, req: Request, provider: Provider, normalize: Normalizer,
                          r: nat, owned: set<Key>)
    requires KeySafe(req.regions) && req.paths != [] && r < |req.regions|
    requires RegionAnswered(req, provider, r, 0) && !RegionCutShort(req, provider, r, 0)
    requires
      var call := Call(account, req.kind, Detailed(req, Sequential(req, provider), false));
      Unshared(CallPlan(call, normalize), account, req.kind, req.regions[r], owned)
    requires RowsIn(rows, account, req.kind, req.regions[r]).Keys <= owned
    ensures
      var call := Call(account, req.kind, Detailed(req, Sequential(req, provider), false));
      RowsIn(ApplyAll(rows, CallPlan(call, normalize)), account, req.kind, req.regions[r])
      == Listing(account, req.kind,
                 Writes(FirstSeen(ReturnedItems(req, provider, r), req.kind), req.kind, req.regions[r], normalize))
  {
    hide RowsIn, Listing, Writes, FirstSeen, ReturnedItems, Merge, RegionAnswered, RegionCutShort, ApplyAll, Plan, Unshared;
    ListingMeaning(req, provider, r);
    var results := Detailed(req, Sequential(req, provider), false).value;
    forall j | 0 <= j < |results| && j != r ensures results[j].region != results[r].region {
      ListingMeaning(req, provider, j);
      assert !Confusable(req.regions[if j < r then j else r], req.regions[if j < r then r else j]);
    }
    LastWritesOfPlan(account, req.kind, results, normalize, r);
    RowsAreLastListing(rows, Plan(account, req.kind, results, normalize), account, req.kind, req.regions[r], owned);
  }

  /** After a single uninterrupted successful region the table holds exactly its listed ids there. */
  lemma OneRegionStored(rows: Table, account: int, kind: string, entry: RegionResult, normalize: Normalizer)
    requires entry.status == Success
    ensures RowsIn(ApplyAll(rows, Plan(account, kind, [entry], normalize)), account, kind, entry.region)
         == Listing(account, kind, EntryWrites(kind, entry, normalize))
  {
    hide RowsIn, Listing, Writes, Apply, ForRegion;
    var writes := EntryWrites(kind, entry, normalize);
    var first := Replace(account, kind, [entry.region], writes);
    var second := Record(account, kind, entry.region, Succeeded, |writes|, "");
    assert Plan(account, kind, [entry], normalize) == [first, second] by {
      assert [entry][..0] == [];
    }
    assert ApplyAll(rows, [first, second]) == Apply(Apply(rows, first), second) by {
      ApplyOne(rows, [], first);
      ApplyOne(rows, [first], second);
      assert [] + [first] == [first] && [first] + [second] == [first, second];
    }
    WritesShape(entry.items, kind, entry.region, normalize);
    ReplaceSetsRegion(rows, account, kind, entry.region, writes);
    RecordKeepsRows(Apply(rows, first), second, account, kind, entry.region);
  }

  function OneRow(key: Key, content: Content): Table {
    map[key := Row(content, true, "")]
  }

  lemma OneRowIn(key: Key, content: Content)
    ensures RowsIn(OneRow(key, content), key.account, key.kind, content.region).Keys == {key}
  {
    assert [content.region][0] == content.region;
  }

  /** After a scan of one region that lists one id, a row with another id is gone. */
  lemma UnlistedRowLost(req: Request, provider: Provider, normalize: Normalizer, content: Content, id: string, other: string)
    requires |req.regions| == 1 && content.region == req.regions[0] && other != id && other != ""
    requires
      var result := Detailed(req, Sequential(req, provider), false);
      && result.Ok? && |result.value| == 1 && result.value[0].status == Success
      && |result.value[0].items| == 1 && ResourceId(result.value[0].items[0], req.kind) == id
    ensures
      var lost := Key(1, req.kind, other);
      var call := Call(1, req.kind, Detailed(req, Sequential(req, provider), false));
      && lost in RowsIn(OneRow(lost, content), 1, req.kind, req.regions[0])
      && lost !in RowsIn(ApplyAll(OneRow(lost, content), CallPlan(call, normalize)), 1, req.kind, req.regions[0])
  {
    hide RowsIn, ResourceId, ApplyAll, Plan, ErrorText, Writes, Sequential, Merge;
    var lost := Key(1, req.kind, other);
    OneRowIn(lost, content);
    MergeShape(req, Sequential(req, provider), 0, {}, 0);
    var results := Detailed(req, Sequential(req, provider), false).value;
    assert results == [results[0]] && results[0].region == req.regions[0];
    OneRegionStored(OneRow(lost, content), 1, req.kind, results[0], normalize);
    ListingIds(results[0].items, req.kind, req.regions[0], normalize, 1, other);
    assert !HasId(results[0].items, req.kind, other);
  }

  /** A server whose page was refused behind page 1 disappears from the table, although the
      provider never reported it gone. */
  lemma LateRefusalDestroysRows(normalize: Normalizer, content: Content)
    requires content.region == "r1"
    ensures
      var lost := Key(1, "ecs", "i-2");
      var call := Call(1, "ecs", Detailed(ONE_REGION, Sequential(ONE_REGION, RefusedOnPageTwo()), false));
      && lost in RowsIn(OneRow(lost, content), 1, "ecs", "r1")
      && lost !in RowsIn(ApplyAll(OneRow(lost, content), CallPlan(call, normalize)), 1, "ecs", "r1")
  {
    assert "i-1" != "i-2" by { assert "i-1"[2] != "i-2"[2]; }
    hide RowsIn, ResourceId, ApplyAll, CallPlan, RefusedOnPageTwo, Sequential, Detailed;
    LateRefusalPasses();
    UnlistedRowLost(ONE_REGION, RefusedOnPageTwo(), normalize, content, "i-1", "i-2");
  }

  /** So does an image of a kind whose scan failed on its first page while another kind was listed. */
  lemma FailedVariantDestroysRows(normalize: Normalizer, content: Content)
    requires content.region == "r1"
    ensures
      var lost := Key(1, "image", "i-2");
      var call := Call(1, "image", Detailed(THREE_KINDS, Sequential(THREE_KINDS, FailedVariants()), false));
      && lost in RowsIn(OneRow(lost, content), 1, "image", "r1")
      && lost !in RowsIn(ApplyAll(OneRow(lost, content), CallPlan(call, normalize)), 1, "image", "r1")
  {
    assert "i-1" != "i-2" by { assert "i-1"[2] != "i-2"[2]; }
    hide RowsIn, ResourceId, ApplyAll, CallPlan, FailedVariants, Sequential, Detailed;
    FailedVariantPasses();
    UnlistedRowLost(THREE_KINDS, FailedVariants(), normalize, content, "i-1", "i-2");
  }
}
