/** Confirming an action job against the rows of the sync that has just run
    (internal/httpserver/background.go:134-170, 199-221, 240-291). */
module Confirmation {
  import opened Wrappers
  import opened Phrases
  import opened RegionListing
  import opened ListingTheorems
  import opened ResourceStore
  import opened SyncCommit
  import opened SyncSafety
  import opened SyncRows

  datatype ActionJob = ActionJob(
    account: int, resourceType: string, resourceId: string, action: string, region: string, name: string)

  function ActionSyncTypes(resourceType: string, action: string): seq<string> {
    match resourceType
    case "ecs" =>
      if action == "create_image" then ["image"]
      else if action == "change_private_ip" || action == "change_vpc" then
        ["ecs", "vpc", "subnet", "security_group", "vip"]
      else ["ecs"]
    case "eip" => ["eip", "ecs", "vip"]
    case "vip" => ["vip", "ecs", "eip"]
    case "vpc" =>
      if action == "create_subnet" then ["vpc", "subnet"]
      else ["vpc", "subnet", "vip", "security_group", "route_table", "acl"]
    case "subnet" => ["vpc", "subnet", "vip", "route_table", "acl"]
    case "security_group" => ["vpc", "subnet", "vip", "security_group"]
    case _ => [resourceType]
  }

  function ActionTargetType(job: ActionJob): string {
    if job.resourceType == "vpc" && job.action == "create_subnet" then "subnet"
    else if job.resourceType == "ecs" && job.action == "create_image" then "image"
    else job.resourceType
  }

  /** The type a job is judged by is always among the types its pass syncs. */
  lemma TargetIsSynced(job: ActionJob)
    ensures ActionTargetType(job) in ActionSyncTypes(job.resourceType, job.action)
  {
  }

  /** Which types a job syncs, type by type: what its action can have moved. */
  lemma SyncedKinds(resourceType: string, action: string, kind: string)
    ensures
      var moved := resourceType == "ecs" && action in {"change_private_ip", "change_vpc"};
      var emptied := resourceType == "vpc" && action != "create_subnet";
      kind in ActionSyncTypes(resourceType, action)
      <==>
        || (kind == resourceType && !(kind == "ecs" && action == "create_image"))
        || (kind == "image" && resourceType == "ecs" && action == "create_image")
        || (kind == "ecs" && resourceType in {"eip", "vip"})
        || (kind == "eip" && resourceType == "vip")
        || (kind == "vip" && (resourceType in {"eip", "subnet", "security_group"} || emptied || moved))
        || (kind == "vpc" && (resourceType in {"subnet", "security_group"} || moved))
        || (kind == "subnet" && (resourceType in {"vpc", "security_group"} || moved))
        || (kind == "security_group" && (emptied || moved))
        || (kind in {"route_table", "acl"} && (resourceType == "subnet" || emptied))
  {
  }

  /** A job is judged by its own type, except that a new image or subnet is looked for among those. */
  lemma TargetMeaning(job: ActionJob)
    ensures ActionTargetType(job) == "image" <==>
      job.resourceType == "image" || (job.resourceType == "ecs" && job.action == "create_image")
    ensures ActionTargetType(job) == "subnet" <==>
      job.resourceType == "subnet" || (job.resourceType == "vpc" && job.action == "create_subnet")
    ensures ActionTargetType(job) != "image" && ActionTargetType(job) != "subnet" ==> ActionTargetType(job) == job.resourceType
  {
  }

  predicate DeleteLike(action: string) {
    action == "delete" || action == "release" || action == "unsubscribe" || action == "reject"
  }

  predicate NameMatches(row: Row, job: ActionJob) {
    row.current && (job.region == "" || row.content.region == job.region)
    && (job.name == "" || row.content.name == job.name)
  }

  /** confirmActionJob on the stored rows; `binding` reads the binding status out of a payload. */
  predicate Confirm(rows: Table, job: ActionJob, binding: string -> string) {
    var target := ActionTargetType(job);
    if job.resourceId != "" then
      var key := Key(job.account, target, job.resourceId);
      if key !in rows then DeleteLike(job.action)
      else if DeleteLike(job.action) then false
      else
        var row := rows[key];
        var status := Lower(row.content.status);
        if job.action == "start" || job.action == "reboot" then
          Contains(status, "running") || Contains(status, "active")
        else if job.action == "stop" then
          Contains(status, "stop") || Contains(status, "shut") || Contains(status, "closed")
        else if job.action == "bind" then Lower(binding(row.content.payload)) == "bound"
        else if job.action == "unbind" then Lower(binding(row.content.payload)) == "unbound"
        else row.current
    else
      exists key :: key in rows && key.account == job.account && key.kind == target && NameMatches(rows[key], job)
  }

  const SYNC_TYPES: seq<string> :=
    ["ecs", "eip", "vpc", "subnet", "vip", "image", "security_group", "route_table", "acl"]

  /** A job's types can all be synced exactly if its own type is one of the nine the console knows. */
  lemma SupportedTypes(resourceType: string, action: string)
    ensures (forall kind :: kind in ActionSyncTypes(resourceType, action) ==> kind in SYNC_TYPES)
       <==> resourceType in {"ecs", "eip", "vpc", "subnet", "vip", "image", "security_group", "route_table", "acl"}
  {
    if resourceType !in {"ecs", "eip", "vip", "vpc", "subnet", "security_group"} {
      assert ActionSyncTypes(resourceType, action) == [resourceType];
      assert resourceType in ActionSyncTypes(resourceType, action);
    }
    assert forall kind :: kind in SYNC_TYPES <==>
      kind in {"ecs", "eip", "vpc", "subnet", "vip", "image", "security_group", "route_table", "acl"};
  }

  /** A SyncKind call that returned no error. */
  predicate Clean(call: Call, normalize: Normalizer, failAt: nat) {
    call.listed.Ok? && AllSucceeded(call.listed.value) && failAt >= |CallPlan(call, normalize)|
  }

  /** The verdict of a job's pass: the target type must be one that is synced, its sync must have
      returned no error, and the rows must confirm the action. */
  predicate JobConfirmed(rows: Table, job: ActionJob, call: Call, normalize: Normalizer, failAt: nat,
                         binding: string -> string)
  {
    ActionTargetType(job) in SYNC_TYPES && Clean(call, normalize, failAt) && Confirm(rows, job, binding)
  }

  // ---------------------------------------------------------------- other types and accounts

  /** The transactions of a trace on one account and type. */
  function Projection(trace: seq<Tx>, account: int, kind: string): seq<Tx> {
    if trace == [] then []
    else
      var last := trace[|trace| - 1];
      Projection(trace[..|trace| - 1], account, kind)
      + if last.account == account && last.kind == kind then [last] else []
  }

  ghost predicate SameFor(rows: Table, other: Table, account: int, kind: string) {
    forall id :: (Key(account, kind, id) in rows <==> Key(account, kind, id) in other)
              && (Key(account, kind, id) in rows ==> rows[Key(account, kind, id)] == other[Key(account, kind, id)])
  }

  lemma {:induction false} UpsertAllSame(rows: Table, other: Table, account: int, kind: string, writes: seq<Write>)
    requires SameFor(rows, other, account, kind)
    ensures SameFor(UpsertAll(rows, account, kind, writes), UpsertAll(other, account, kind, writes), account, kind)
  {
    if writes != [] { UpsertAllSame(rows, other, account, kind, writes[..|writes| - 1]); }
  }

  lemma {:induction false} UpsertAllForeign(rows: Table, a: int, k: string, writes: seq<Write>, account: int, kind: string)
    requires !(a == account && k == kind)
    ensures SameFor(UpsertAll(rows, a, k, writes), rows, account, kind)
  {
    if writes != [] { UpsertAllForeign(rows, a, k, writes[..|writes| - 1], account, kind); }
  }

  lemma ApplySame(rows: Table, other: Table, tx: Tx)
    requires SameFor(rows, other, tx.account, tx.kind)
    ensures SameFor(Apply(rows, tx), Apply(other, tx), tx.account, tx.kind)
  {
    if tx.Replace? {
      UpsertAllSame(Cleared(rows, tx.account, tx.kind, tx.regions), Cleared(other, tx.account, tx.kind, tx.regions),
                    tx.account, tx.kind, tx.writes);
    }
  }

  lemma ApplyForeign(rows: Table, tx: Tx, account: int, kind: string)
    requires !(tx.account == account && tx.kind == kind)
    ensures SameFor(Apply(rows, tx), rows, account, kind)
  {
    if tx.Replace? {
      UpsertAllForeign(Cleared(rows, tx.account, tx.kind, tx.regions), tx.account, tx.kind, tx.writes, account, kind);
    }
  }

  /** What other accounts and types do meanwhile does not reach the rows of this account and type. */
  lemma {:induction false} ProjectionDecides(rows: Table, trace: seq<Tx>, account: int, kind: string)
    ensures SameFor(ApplyAll(rows, trace), ApplyAll(rows, Projection(trace, account, kind)), account, kind)
  {
    hide Apply;
    if trace != [] {
      var n := |trace| - 1;
      var before := Projection(trace[..n], account, kind);
      ProjectionDecides(rows, trace[..n], account, kind);
      if trace[n].account == account && trace[n].kind == kind {
        ApplySame(ApplyAll(rows, trace[..n]), ApplyAll(rows, before), trace[n]);
        ApplyOne(rows, before, trace[n]);
      } else {
        ApplyForeign(ApplyAll(rows, trace[..n]), trace[n], account, kind);
        assert before + [] == before;
      }
    }
  }

  // ---------------------------------------------------------------- one id through a plan

  predicate SomeLists(kind: string, results: seq<RegionResult>, id: string) {
    exists i :: 0 <= i < |results| && Lists(kind, results[i], id)
  }

  predicate Covers(results: seq<RegionResult>, region: string) {
    exists i :: 0 <= i < |results| && results[i].region == region
  }

  lemma {:induction false} LastStored(kind: string, results: seq<RegionResult>, id: string)
    requires SomeStores(kind, results, id)
    ensures exists k :: LastStoring(kind, results, id, k)
  {
    hide Stores;
    var n := |results| - 1;
    if Stores(kind, results[n], id) {
      assert LastStoring(kind, results, id, n);
    } else {
      var j :| 0 <= j < |results| && Stores(kind, results[j], id);
      assert results[..n][j] == results[j];
      LastStored(kind, results[..n], id);
      var k :| LastStoring(kind, results[..n], id, k);
      assert forall i :: 0 <= i < n ==> results[..n][i] == results[i];
      assert LastStoring(kind, results, id, k);
    }
  }

  /** After a plan over distinct successful regions a row with this id exists exactly when some
      listing held the id, or it existed before in a region the plan did not cover. */
  lemma PlanKey(rows: Table, account: int, kind: string, results: seq<RegionResult>, normalize: Normalizer, id: string)
    requires id != "" && AllSucceeded(results) && DistinctRegions(results)
    ensures
      var key := Key(account, kind, id);
      var after := ApplyAll(rows, Plan(account, kind, results, normalize));
      && (key in after <==>
            SomeLists(kind, results, id) || (key in rows && !Covers(results, rows[key].content.region)))
      && (key in after ==>
            if SomeLists(kind, results, id) then Covers(results, after[key].content.region)
            else after[key].content == rows[key].content)
  {
    hide Lists, ApplyAll, Plan, ListedContent;
    PlanRow(rows, account, kind, results, normalize, id);
    forall j | 0 <= j < |results| ensures Stores(kind, results[j], id) <==> Lists(kind, results[j], id) {}
    assert SomeStores(kind, results, id) <==> SomeLists(kind, results, id);
    if SomeStores(kind, results, id) {
      LastStored(kind, results, id);
      var k :| LastStoring(kind, results, id, k);
    }
  }

  // ---------------------------------------------------------------- the theorem

  /** Every region of the scan ended in success. */
  ghost predicate AllAnswered(req: Request, provider: Provider) {
    forall r: nat | r < |req.regions| :: RegionAnswered(req, provider, r, 0) && !RegionCutShort(req, provider, r, 0)
  }

  /** Some page that was read for some region held the id. */
  ghost predicate Reported(req: Request, provider: Provider, id: string) {
    exists r: nat :: r < |req.regions| && HasId(ReturnedItems(req, provider, r), req.kind, id)
  }

  lemma ResultsMeaning(req: Request, provider: Provider, id: string)
    requires KeySafe(req.regions) && req.regions != [] && req.paths != [] && id != ""
    ensures
      var listed := Detailed(req, Sequential(req, provider), false);
      && listed.Ok? && |listed.value| == |req.regions| && DistinctRegions(listed.value)
      && (AllSucceeded(listed.value) <==> AllAnswered(req, provider))
      && (SomeLists(req.kind, listed.value, id) <==> Reported(req, provider, id))
      && (forall region :: Covers(listed.value, region) <==> region in req.regions)
  {
    hide Detailed, Sequential, RegionAnswered, RegionCutShort, RegionComplained, ReturnedItems, FirstSeen, HasId;
    ListingMeaning(req, provider, 0);
    var results := Detailed(req, Sequential(req, provider), false).value;
    forall r: nat | r < |req.regions|
      ensures results[r].region == req.regions[r]
      ensures results[r].status == Success <==> RegionAnswered(req, provider, r, 0) && !RegionCutShort(req, provider, r, 0)
      ensures Lists(req.kind, results[r], id) <==> HasId(ReturnedItems(req, provider, r), req.kind, id)
    {
      ListingMeaning(req, provider, r);
      FirstSeenIds(ReturnedItems(req, provider, r), req.kind);
    }
    forall i, j | 0 <= i < j < |results| ensures results[i].region != results[j].region {
      assert !Confusable(req.regions[i], req.regions[j]);
    }
    assert SomeLists(req.kind, results, id) ==> Reported(req, provider, id);
    if Reported(req, provider, id) {
      var r: nat :| r < |req.regions| && HasId(ReturnedItems(req, provider, r), req.kind, id);
      assert Lists(req.kind, results[r], id);
    }
    forall region | region in req.regions ensures Covers(results, region) {
      var r :| 0 <= r < |req.regions| && req.regions[r] == region;
      assert results[r].region == region;
    }
  }

  // ---------------------------------------------------------------- repeated regions

  lemma NothingPlanned(account: int, kind: string, results: seq<RegionResult>, normalize: Normalizer)
    ensures ApplyAll(map[], Plan(account, kind, results[..0], normalize)) == map[]
  {
  }

  /** An id that only entry `i` can list is gone once a later entry of the same region listed nothing. */
  lemma {:induction false} GoneAfter(account: int, kind: string, results: seq<RegionResult>, normalize: Normalizer,
                                     id: string, i: nat, j: nat, m: nat)
    requires id != "" && AllSucceeded(results) && i < j < |results| && m <= |results|
    requires forall n :: 0 <= n < |results| && Lists(kind, results[n], id) ==> n == i && results[i].region == results[j].region
    ensures
      var key := Key(account, kind, id);
      var after := ApplyAll(map[], Plan(account, kind, results[..m], normalize));
      key in after ==> i < m <= j && after[key].content.region == results[j].region
  {
    hide Lists, ApplyAll, EntryPlan, Plan, ListedContent;
    NothingPlanned(account, kind, results, normalize);
    if m > 0 {
      PlanGrows(account, kind, results, normalize, m - 1);
      GoneAfter(account, kind, results, normalize, id, i, j, m - 1);
      var before := Plan(account, kind, results[..m - 1], normalize);
      EntryRow(ApplyAll(map[], before), account, kind, results[m - 1], normalize, id);
      ApplyMore(map[], before, EntryPlan(account, kind, results[m - 1], normalize));
    }
  }

  /** KeySafe cannot be dropped: for any other region list, a resource that the provider reports in
      full view is confirmed as deleted. A region named twice is enough. */
  lemma UnsafeRegionsConfirmWrongly(job: ActionJob, regions: seq<string>, normalize: Normalizer, binding: string -> string)
    returns (provider: Provider, id: string)
    requires DeleteLike(job.action) && ActionTargetType(job) in SYNC_TYPES && !KeySafe(regions)
    ensures
      var req := OnePath(ActionTargetType(job), regions);
      var call := Call(job.account, req.kind, Detailed(req, Sequential(req, provider), false));
      var plan := CallPlan(call, normalize);
      && id != "" && Reported(req, provider, id)
      && JobConfirmed(ApplyAll(map[], plan), job.(resourceId := id), call, normalize, |plan|, binding)
  {
    hide ApplyAll, EntryPlan, ResourceId, Writes, KeySafe, SYNC_TYPES, ScanRegion, ErrorText;
    var kind := ActionTargetType(job);
    var ids, i, j := UnsafeKeysLoseItems(kind, regions);
    provider, id := OneItemEach(ids), ids[j];
    var req := OnePath(kind, regions);
    var locals := Sequential(req, provider);
    var results := Detailed(req, locals, false).value;
    forall n | 0 <= n < |regions|
      ensures results[n].status == Success && results[n].region == regions[n]
      ensures Lists(kind, results[n], id) ==> n == i && regions[i] == regions[j]
    {
      OneItemScan(kind, regions, ids, n);
      MergeShape(req, locals, 0, {}, n);
      if Lists(kind, results[n], id) { MergeAddsNothing(req, locals, 0, {}, n, id); }
    }
    GoneAfter(job.account, kind, results, normalize, id, i, j, |results|);
    assert results[..|results|] == results;
    StatusMeaning(req, provider, j);
    assert HasId(ReturnedItems(req, provider, j), kind, id);
  }
}
