/** What a sync reports: its total and the outcome recorded for each region (internal/ctyun/sync.go:181-218,
    internal/storage/storage.go:458-478). */
module SyncReports {
  import opened Wrappers
  import opened RegionListing
  import opened ListingTheorems
  import opened ResourceStore
  import opened SyncCommit
  import opened SyncSafety
  import opened SyncRows

  /** The ids among these items. */
  function Ids(items: seq<Item>, kind: string): set<string> {
    set i | 0 <= i < |items| && ResourceId(items[i], kind) != "" :: ResourceId(items[i], kind)
  }

  lemma IdsMore(out: seq<Item>, kind: string)
    requires out != [] && ResourceId(out[|out| - 1], kind) != ""
    ensures Ids(out, kind) == Ids(out[..|out| - 1], kind) + {ResourceId(out[|out| - 1], kind)}
  {
    hide ResourceId, Ids, HasId;
    var n := |out| - 1;
    forall id ensures id in Ids(out, kind) <==> id in Ids(out[..n], kind) || id == ResourceId(out[n], kind) {
      InIds(out, kind, id);
      InIds(out[..n], kind, id);
      HasIdLast(out, kind, id);
    }
  }

  /** Distinct ids are counted once each. */
  lemma {:induction false} DistinctIds(out: seq<Item>, kind: string)
    requires forall j, k :: 0 <= j < k < |out| ==> ResourceId(out[j], kind) != ResourceId(out[k], kind)
    requires forall k :: 0 <= k < |out| ==> ResourceId(out[k], kind) != ""
    ensures |Ids(out, kind)| == |out|
  {
    hide ResourceId;
    if out != [] {
      var n := |out| - 1;
      IdsMore(out, kind);
      InIds(out[..n], kind, ResourceId(out[n], kind));
      hide Ids;
      DistinctIds(out[..n], kind);
      assert forall i :: 0 <= i < n ==> out[..n][i] == out[i];
    }
  }

  lemma {:induction false} WritesCount(out: seq<Item>, kind: string, region: string, normalize: Normalizer)
    requires forall k :: 0 <= k < |out| ==> ResourceId(out[k], kind) != ""
    ensures |Writes(out, kind, region, normalize)| == |out|
  {
    hide ResourceId;
    if out != [] {
      var n := |out| - 1;
      WritesCount(out[..n], kind, region, normalize);
      PlainKeepsId(out[n], kind);
    }
  }

  /** As many rows are written for a region as its pages held ids. */
  lemma RegionCount(items: seq<Item>, kind: string, region: string, normalize: Normalizer)
    ensures |Writes(FirstSeen(items, kind), kind, region, normalize)| == |Ids(items, kind)|
  {
    FirstSeenIds(items, kind);
    forall k | 0 <= k < |FirstSeen(items, kind)| ensures ResourceId(FirstSeen(items, kind)[k], kind) != "" {
      assert HasId(FirstSeen(items, kind), kind, ResourceId(FirstSeen(items, kind)[k], kind));
    }
    hide Writes;
    WritesCount(FirstSeen(items, kind), kind, region, normalize);
    DistinctIds(FirstSeen(items, kind), kind);
    SameIds(items, kind);
  }

  lemma SameIds(items: seq<Item>, kind: string)
    ensures Ids(FirstSeen(items, kind), kind) == Ids(items, kind)
  {
    hide HasId, ResourceId, Ids;
    FirstSeenIds(items, kind);
    forall id ensures id in Ids(FirstSeen(items, kind), kind) <==> id in Ids(items, kind) {
      assert HasId(FirstSeen(items, kind), kind, id) <==> id != "" && HasId(items, kind, id);
      InIds(FirstSeen(items, kind), kind, id);
      InIds(items, kind, id);
    }
  }

  lemma InIds(items: seq<Item>, kind: string, id: string)
    ensures id in Ids(items, kind) <==> id != "" && HasId(items, kind, id)
  {
    hide ResourceId;
  }

  /** The ids of the successful ones among the first `n` regions, added up. */
  ghost function IdsCounted(req: Request, provider: Provider, n: nat): nat
    requires n <= |req.regions|
  {
    if n == 0 then 0
    else
      IdsCounted(req, provider, n - 1)
      + if Succeeds(req, provider, n - 1) then |Ids(ReturnedItems(req, provider, n - 1), req.kind)| else 0
  }

  /** The written rows of one entry, as its total and its record count them. */
  lemma EntryCount(req: Request, provider: Provider, r: nat, normalize: Normalizer)
    requires KeySafe(req.regions) && req.paths != [] && r < |req.regions|
    ensures
      var results := Detailed(req, Sequential(req, provider), false);
      && results.Ok? && |results.value| == |req.regions| && results.value[r].region == req.regions[r]
      && (results.value[r].status == Success <==> Succeeds(req, provider, r))
      && (results.value[r].status == Skipped <==> !RegionAnswered(req, provider, r, 0) && !RegionComplained(req, provider, r, 0))
      && |EntryWrites(req.kind, results.value[r], normalize)| == |Ids(ReturnedItems(req, provider, r), req.kind)|
  {
    hide ResourceId, Writes, FirstSeen, ReturnedItems, RegionAnswered, RegionCutShort, RegionComplained, Detailed,
      Sequential, Ids;
    ListingMeaning(req, provider, r);
    RegionCount(ReturnedItems(req, provider, r), req.kind, req.regions[r], normalize);
  }

  lemma {:induction false} TotalIsIds(req: Request, provider: Provider, normalize: Normalizer, n: nat)
    requires KeySafe(req.regions) && req.regions != [] && req.paths != [] && n <= |req.regions|
    ensures
      var listed := Detailed(req, Sequential(req, provider), false);
      && listed.Ok? && |listed.value| == |req.regions|
      && Total(req.kind, listed.value[..n], normalize) == IdsCounted(req, provider, n)
  {
    hide EntryWrites, Detailed, Sequential, Ids, KeySafe, Succeeds;
    EntryCount(req, provider, 0, normalize);
    if n > 0 {
      var results := Detailed(req, Sequential(req, provider), false).value;
      TotalIsIds(req, provider, normalize, n - 1);
      EntryCount(req, provider, n - 1, normalize);
      assert results[..n][..n - 1] == results[..n - 1];
    }
  }

  /** The regions a call gets through are those whose transactions all come before the refused one. */
  lemma {:induction false} ReachedExactly(account: int, kind: string, results: seq<RegionResult>, normalize: Normalizer,
                                          failAt: nat)
    ensures
      var n := Reached(account, kind, results, normalize, failAt);
      && |Plan(account, kind, results[..n], normalize)| <= failAt
      && (n < |results| ==> failAt < |Plan(account, kind, results[..n + 1], normalize)|)
  {
    hide EntryPlan;
    assert results[..0] == [];
    assert results[..|results|] == results;
    if results != [] && |Plan(account, kind, results, normalize)| > failAt {
      var m := |results| - 1;
      ReachedExactly(account, kind, results[..m], normalize, failAt);
      var n := Reached(account, kind, results, normalize, failAt);
      assert results[..m][..n] == results[..n];
      if n < m { assert results[..m][..n + 1] == results[..n + 1]; } else { assert results[..n + 1] == results; }
    }
  }

  /** The total a call returns is the number of ids in the successful regions it got through: all of them unless the
      database refuses a transaction, and then those before the region whose transaction it was. */
  lemma TotalMeaning(account: int, req: Request, provider: Provider, normalize: Normalizer, failAt: nat) returns (n: nat)
    requires KeySafe(req.regions) && req.regions != [] && req.paths != []
    ensures n <= |req.regions|
    ensures
      var call := Call(account, req.kind, Detailed(req, Sequential(req, provider), false));
      && CallTotal(call, normalize, failAt) == IdsCounted(req, provider, n)
      && call.listed.Ok? && |call.listed.value| == |req.regions|
      && (n == |req.regions| <==> |CallPlan(call, normalize)| <= failAt)
      && |Plan(account, req.kind, call.listed.value[..n], normalize)| <= failAt
      && (n < |req.regions| ==> failAt < |Plan(account, req.kind, call.listed.value[..n + 1], normalize)|)
  {
    hide Detailed, Sequential, EntryPlan, KeySafe, IdsCounted, Total;
    TotalIsIds(req, provider, normalize, 0);
    var results := Detailed(req, Sequential(req, provider), false).value;
    n := Reached(account, req.kind, results, normalize, failAt);
    ReachedExactly(account, req.kind, results, normalize, failAt);
    TotalIsIds(req, provider, normalize, n);
    if n < |results| { PlanGrows(account, req.kind, results, normalize, n); } else { assert results[..n] == results; }
  }

  // ---------------------------------------------------------------- what is recorded for the regions

  /** The outcome of a region, as it is to be recorded. */
  ghost predicate RecordOf(req: Request, provider: Provider, results: seq<RegionResult>, account: int, r: nat, tx: Tx)
    requires |results| == |req.regions|
  {
    && r < |req.regions| && tx.Record? && tx.account == account && tx.kind == req.kind && tx.region == req.regions[r]
    && (tx.status == Succeeded <==> Succeeds(req, provider, r))
    && (tx.status == SkippedRegion <==> !RegionAnswered(req, provider, r, 0) && !RegionComplained(req, provider, r, 0))
    && tx.count == (if Succeeds(req, provider, r) then |Ids(ReturnedItems(req, provider, r), req.kind)| else 0)
    && tx.error == (if Succeeds(req, provider, r) then "" else results[r].error)
  }

  lemma {:induction false} PlanRecords(account: int, kind: string, results: seq<RegionResult>, normalize: Normalizer, tx: Tx)
    requires tx.Record?
    ensures tx in Plan(account, kind, results, normalize)
       <==> exists r :: 0 <= r < |results| && tx in EntryPlan(account, kind, results[r], normalize)
  {
    hide EntryPlan;
    if results != [] {
      var n := |results| - 1;
      PlanRecords(account, kind, results[..n], normalize, tx);
      if r :| 0 <= r < |results| && tx in EntryPlan(account, kind, results[r], normalize) {
        assert r < n ==> results[..n][r] == results[r];
      }
      if r :| 0 <= r < n && tx in EntryPlan(account, kind, results[..n][r], normalize) {
        assert results[r] == results[..n][r];
      }
    }
  }

  lemma EntryRecord(account: int, req: Request, provider: Provider, normalize: Normalizer, r: nat, tx: Tx)
    requires KeySafe(req.regions) && req.paths != [] && r < |req.regions| && tx.Record?
    ensures
      var listed := Detailed(req, Sequential(req, provider), false);
      && listed.Ok? && |listed.value| == |req.regions|
      && (tx in EntryPlan(account, req.kind, listed.value[r], normalize)
          <==> RecordOf(req, provider, listed.value, account, r, tx))
  {
    hide EntryWrites, Detailed, Sequential, Ids, KeySafe, RegionAnswered, RegionComplained, Succeeds, ReturnedItems;
    EntryCount(req, provider, r, normalize);
    NeverBoth(req, provider, r);
  }

  lemma NeverBoth(req: Request, provider: Provider, r: nat)
    ensures Succeeds(req, provider, r) ==> RegionAnswered(req, provider, r, 0)
  {
  }

  /** An uninterrupted call records every region once, with its status, its number of ids or its error; nothing else. */
  lemma RecordsExactly(account: int, req: Request, provider: Provider, normalize: Normalizer, tx: Tx)
    requires KeySafe(req.regions) && req.regions != [] && req.paths != [] && tx.Record?
    ensures
      var listed := Detailed(req, Sequential(req, provider), false);
      && listed.Ok? && |listed.value| == |req.regions|
      && (tx in CallPlan(Call(account, req.kind, listed), normalize)
          <==> exists r: nat :: RecordOf(req, provider, listed.value, account, r, tx))
  {
    hide EntryPlan, Detailed, Sequential, Ids, KeySafe, RecordOf, Plan;
    RegionsDistinct(req, provider);
    var results := Detailed(req, Sequential(req, provider), false).value;
    PlanRecords(account, req.kind, results, normalize, tx);
    forall r: nat | r < |req.regions|
      ensures tx in EntryPlan(account, req.kind, results[r], normalize) <==> RecordOf(req, provider, results, account, r, tx)
    {
      EntryRecord(account, req, provider, normalize, r, tx);
    }
    if r: nat :| RecordOf(req, provider, results, account, r, tx) { RecordInRange(req, provider, results, account, r, tx); }
  }

  lemma RecordInRange(req: Request, provider: Provider, results: seq<RegionResult>, account: int, r: nat, tx: Tx)
    requires |results| == |req.regions| && RecordOf(req, provider, results, account, r, tx)
    ensures r < |req.regions|
  {
  }
}
