/** Committing a listing region by region (internal/ctyun/sync.go), and what any number of such
    calls, interleaved in any way, can do to the stored rows. */
module SyncCommit {
  import opened Wrappers
  import opened RegionListing
  import opened ListingTheorems
  import opened ResourceStore

  datatype Fields = Fields(name: string, status: string, billing: string, payload: string)

  /** The fields `Normalize` derives from an item of a type scanned in a region. */
  type Normalizer = (Item, string, string) -> Fields

  /** The row written for an item; a resource without a name is stored under its id. */
  function WriteOf(item: Item, kind: string, region: string, normalize: Normalizer): Write {
    var plain := item - {"_scan_region"};
    var fields, id := normalize(plain, kind, region), ResourceId(plain, kind);
    Write(id, Content(if fields.name != "" then fields.name else id, region, fields.status, fields.billing, fields.payload))
  }

  function Writes(items: seq<Item>, kind: string, region: string, normalize: Normalizer): seq<Write> {
    if items == [] then []
    else
      var write := WriteOf(items[|items| - 1], kind, region, normalize);
      Writes(items[..|items| - 1], kind, region, normalize) + if write.id == "" then [] else [write]
  }

  function StoredStatus(status: Status): SyncStatus {
    match status
    case Success => Succeeded
    case Failure => FailedRegion
    case Skipped => SkippedRegion
  }

  function EntryWrites(kind: string, entry: RegionResult, normalize: Normalizer): seq<Write> {
    Writes(entry.items, kind, entry.region, normalize)
  }

  /** The transactions one region leads to. */
  function EntryPlan(account: int, kind: string, entry: RegionResult, normalize: Normalizer): seq<Tx> {
    if entry.status != Success then
      [Record(account, kind, entry.region, StoredStatus(entry.status), 0, entry.error)]
    else
      var writes := EntryWrites(kind, entry, normalize);
      [Replace(account, kind, [entry.region], writes),
       Record(account, kind, entry.region, Succeeded, |writes|, "")]
  }

  function Plan(account: int, kind: string, results: seq<RegionResult>, normalize: Normalizer): seq<Tx> {
    if results == [] then []
    else
      Plan(account, kind, results[..|results| - 1], normalize)
      + EntryPlan(account, kind, results[|results| - 1], normalize)
  }

  /** How many entries are complete when the transaction with index `failAt` fails. */
  function Reached(account: int, kind: string, results: seq<RegionResult>, normalize: Normalizer, failAt: nat): (n: nat)
    ensures n <= |results|
  {
    if results == [] then 0
    else if |Plan(account, kind, results, normalize)| <= failAt then |results|
    else Reached(account, kind, results[..|results| - 1], normalize, failAt)
  }

  function Total(kind: string, results: seq<RegionResult>, normalize: Normalizer): nat {
    if results == [] then 0
    else
      var last := results[|results| - 1];
      Total(kind, results[..|results| - 1], normalize)
      + if last.status == Success then |EntryWrites(kind, last, normalize)| else 0
  }

  predicate AllSucceeded(results: seq<RegionResult>) {
    forall i :: 0 <= i < |results| ==> results[i].status == Success
  }

  function Applied(plan: seq<Tx>, failAt: nat): seq<Tx> {
    if failAt < |plan| then plan[..failAt] else plan
  }

  lemma {:induction false} PlanGrows(account: int, kind: string, results: seq<RegionResult>,
                                     normalize: Normalizer, i: nat)
    requires i < |results|
    ensures Plan(account, kind, results[..i], normalize) + EntryPlan(account, kind, results[i], normalize)
         == Plan(account, kind, results[..i + 1], normalize)
         <= Plan(account, kind, results, normalize)
    decreases |results|
  {
    var n := |results| - 1;
    hide EntryPlan;
    assert results[..i + 1][..i] == results[..i];
    if i == n {
      assert results[..i + 1] == results;
    } else {
      assert results[..n][..i + 1] == results[..i + 1] && results[..n][..i] == results[..i];
      PlanGrows(account, kind, results[..n], normalize, i);
    }
  }

  lemma TotalGrows(kind: string, results: seq<RegionResult>, normalize: Normalizer, i: nat)
    requires i < |results|
    ensures Total(kind, results[..i + 1], normalize)
         == Total(kind, results[..i], normalize) + Total(kind, [results[i]], normalize)
    ensures AllSucceeded(results[..i + 1]) <==> AllSucceeded(results[..i]) && results[i].status == Success
  {
    hide EntryWrites;
    assert results[..i + 1][..i] == results[..i] && [results[i]][..0] == [];
  }

  lemma {:induction false} ReachedAt(account: int, kind: string, results: seq<RegionResult>,
                                     normalize: Normalizer, failAt: nat, i: nat)
    requires i < |results|
    requires |Plan(account, kind, results[..i], normalize)| <= failAt
    requires failAt < |Plan(account, kind, results[..i + 1], normalize)|
    ensures Reached(account, kind, results, normalize, failAt) == i
    decreases |results|
  {
    hide EntryPlan;
    PlanGrows(account, kind, results, normalize, i);
    var n := |results| - 1;
    if i == n {
      assert results[..i] == results[..n];
    } else {
      assert results[..n][..i + 1] == results[..i + 1] && results[..n][..i] == results[..i];
      ReachedAt(account, kind, results[..n], normalize, failAt, i);
    }
  }

  /** The write loop of one region. */
  method BuildWrites(items: seq<Item>, kind: string, region: string, normalize: Normalizer)
    returns (writes: seq<Write>)
    ensures writes == Writes(items, kind, region, normalize)
  {
    hide WriteOf;
    writes := [];
    for i := 0 to |items|
      invariant writes == Writes(items[..i], kind, region, normalize)
    {
      assert items[..i + 1][..i] == items[..i];
      var write := WriteOf(items[i], kind, region, normalize);
      if write.id != "" { writes := writes + [write]; }
    }
    assert items[..|items|] == items;
  }

  /** One pass of the commit loop. `failAt` counts the transactions before the one the database
      refuses, if any. */
  method CommitRegion(store: Store, account: int, kind: string, entry: RegionResult,
                      normalize: Normalizer, failAt: nat)
    returns (written: nat, failed: bool)
    requires store.Valid()
    modifies store
    ensures store.Valid()
    ensures store.log == old(store.log) + Applied(EntryPlan(account, kind, entry, normalize), failAt)
    ensures failed <==> failAt < |EntryPlan(account, kind, entry, normalize)|
    ensures written == Total(kind, [entry], normalize)
    ensures |EntryPlan(account, kind, entry, normalize)| == if entry.status == Success then 2 else 1
  {
    hide Writes, ApplyAll;
    written := 0;
    if entry.status != Success {
      store.RecordRegionSync(account, kind, entry.region, StoredStatus(entry.status), 0, entry.error, failAt == 0);
      failed := failAt == 0;
    } else {
      var writes := BuildWrites(entry.items, kind, entry.region, normalize);
      written := |writes|;
      store.ReplaceResources(account, kind, [entry.region], writes, failAt == 0);
      if failAt == 0 { return written, true; }
      store.RecordRegionSync(account, kind, entry.region, Succeeded, |writes|, "", failAt == 1);
      failed := failAt == 1;
    }
  }

  /** The commit loop of SyncKind. */
  method CommitRegions(store: Store, account: int, kind: string, results: seq<RegionResult>,
                       normalize: Normalizer, failAt: nat)
    returns (total: nat, clean: bool)
    requires store.Valid()
    modifies store
    ensures store.Valid()
    ensures store.log == old(store.log) + Applied(Plan(account, kind, results, normalize), failAt)
    ensures total == Total(kind, results[..Reached(account, kind, results, normalize, failAt)], normalize)
    ensures clean <==> failAt >= |Plan(account, kind, results, normalize)| && AllSucceeded(results)
  {
    hide EntryWrites, Store.Valid, Plan, EntryPlan, Total, AllSucceeded, Reached, Applied;
    NothingDone(account, kind, results, normalize, failAt);
    total, clean := 0, true;
    var done := 0;
    for i := 0 to |results|
      invariant store.Valid() && done == |Plan(account, kind, results[..i], normalize)| <= failAt
      invariant store.log == old(store.log) + Plan(account, kind, results[..i], normalize)
      invariant total == Total(kind, results[..i], normalize)
      invariant clean == AllSucceeded(results[..i])
    {
      PlanGrows(account, kind, results, normalize, i);
      TotalGrows(kind, results, normalize, i);
      var written, failed := CommitRegion(store, account, kind, results[i], normalize, failAt - done);
      AppliedStep(account, kind, results, normalize, failAt, i, old(store.log));
      if failed { return total, false; }
      done := done + if results[i].status == Success then 2 else 1;
      total := total + written;
      clean := clean && results[i].status == Success;
    }
    assert results[..|results|] == results;
    AllApplied(account, kind, results, normalize, failAt);
  }

  lemma NothingDone(account: int, kind: string, results: seq<RegionResult>, normalize: Normalizer, failAt: nat)
    ensures Plan(account, kind, results[..0], normalize) == [] && Total(kind, results[..0], normalize) == 0
    ensures AllSucceeded(results[..0])
  {
  }

  /** One pass of the loop: it is cut off here, or its transactions join the log. */
  lemma AppliedStep(account: int, kind: string, results: seq<RegionResult>, normalize: Normalizer, failAt: nat, i: nat,
                    log: seq<Tx>)
    requires i < |results| && |Plan(account, kind, results[..i], normalize)| <= failAt
    ensures
      var before, mine := Plan(account, kind, results[..i], normalize), EntryPlan(account, kind, results[i], normalize);
      var plan, rest := Plan(account, kind, results, normalize), failAt - |before|;
      && |before + mine| <= |plan|
      && (rest < |mine| ==>
            Reached(account, kind, results, normalize, failAt) == i
            && log + before + Applied(mine, rest) == log + Applied(plan, failAt))
      && (rest >= |mine| ==> log + before + Applied(mine, rest) == log + Plan(account, kind, results[..i + 1], normalize))
  {
    hide Plan, EntryPlan, Reached;
    PlanGrows(account, kind, results, normalize, i);
    var before, mine := Plan(account, kind, results[..i], normalize), EntryPlan(account, kind, results[i], normalize);
    var plan, rest := Plan(account, kind, results, normalize), failAt - |before|;
    assert log + before + mine == log + (before + mine);
    if rest < |mine| {
      ReachedAt(account, kind, results, normalize, failAt, i);
      assert plan[..failAt] == before + mine[..rest];
    }
  }

  lemma AllApplied(account: int, kind: string, results: seq<RegionResult>, normalize: Normalizer, failAt: nat)
    requires |Plan(account, kind, results, normalize)| <= failAt
    ensures Applied(Plan(account, kind, results, normalize), failAt) == Plan(account, kind, results, normalize)
    ensures results[..Reached(account, kind, results, normalize, failAt)] == results
  {
    hide Plan;
  }
}
