/** The verdict on every kind of action job, in terms of what the provider answered in its pass
    (internal/httpserver/background.go:199-291). */
module Verdicts {
  import opened Wrappers
  import opened Phrases
  import opened Identity
  import opened RegionListing
  import opened ListingTheorems
  import opened ResourceStore
  import opened SyncCommit
  import opened SyncSafety
  import opened SyncRows
  import opened Confirmation

  // ---------------------------------------------------------------- the rows after a clean sync

  /** The row that a sync of these answers leaves under an id: that of the last region to report it, or an older one
      outside the scanned regions. */
  ghost predicate RowAfter(rows: Table, account: int, req: Request, provider: Provider, normalize: Normalizer, id: string,
                           row: Row)
  {
    || (exists r: nat, i: nat :: ReportedLast(req, provider, id, r, i) && ShownAt(req, provider, normalize, id, r, i, row))
    || (Unreported(req, provider, id) && Key(account, req.kind, id) in rows
        && row == rows[Key(account, req.kind, id)] && row.content.region !in req.regions)
  }

  ghost predicate ShownAt(req: Request, provider: Provider, normalize: Normalizer, id: string, r: nat, i: nat, row: Row) {
    && r < |req.regions| && i < |ReturnedItems(req, provider, r)|
    && Shows(row, ReturnedItems(req, provider, r)[i], id, req.kind, req.regions[r], normalize)
  }

  ghost predicate ReportedBy(req: Request, provider: Provider, id: string, r: nat) {
    Succeeds(req, provider, r) && Reports(ReturnedItems(req, provider, r), req.kind, id)
  }

  lemma {:induction false} LastReport(req: Request, provider: Provider, id: string, n: nat) returns (r: nat)
    requires exists s: nat :: s < n && ReportedBy(req, provider, id, s)
    requires forall s: nat :: s >= n ==> !ReportedBy(req, provider, id, s)
    ensures ReportedBy(req, provider, id, r) && forall s: nat :: s > r ==> !ReportedBy(req, provider, id, s)
  {
    hide ReportedBy;
    if ReportedBy(req, provider, id, n - 1) { r := n - 1; } else { r := LastReport(req, provider, id, n - 1); }
  }

  lemma AReport(items: seq<Item>, kind: string, id: string) returns (i: nat)
    requires Reports(items, kind, id)
    ensures FirstReport(items, kind, id, i)
  {
    hide FirstReport;
    var k :| FirstReport(items, kind, id, k);
    FirstIsThere(items, kind, id, k);
    i := k;
  }

  /** Either no successful region reported the id, or there is a last one that did. */
  lemma ReportedOrNot(req: Request, provider: Provider, id: string)
    ensures Unreported(req, provider, id) || exists r: nat, i: nat :: ReportedLast(req, provider, id, r, i)
  {
    assert forall s: nat :: Succeeds(req, provider, s) ==> s < |req.regions|;
    hide Succeeds, Reports, FirstReport, ReturnedItems;
    if !Unreported(req, provider, id) {
      var s: nat :| Succeeds(req, provider, s) && Reports(ReturnedItems(req, provider, s), req.kind, id);
      assert ReportedBy(req, provider, id, s);
      var r := LastReport(req, provider, id, |req.regions|);
      var i := AReport(ReturnedItems(req, provider, r), req.kind, id);
      assert forall t: nat :: t > r && Succeeds(req, provider, t) ==> !ReportedBy(req, provider, id, t);
      assert ReportedLast(req, provider, id, r, i);
    }
  }

  lemma SameRow(row: Row, other: Row, item: Item, id: string, kind: string, region: string, normalize: Normalizer)
    requires Shows(row, item, id, kind, region, normalize) && Shows(other, item, id, kind, region, normalize)
    ensures row == other
  {
  }

  /** After a sync in which every region ended in success, these are exactly the rows. */
  lemma CleanRow(rows: Table, account: int, req: Request, provider: Provider, normalize: Normalizer, id: string)
    requires KeySafe(req.regions) && req.regions != [] && req.paths != [] && AllAnswered(req, provider)
    ensures
      var after := ApplyAll(rows, CallPlan(Call(account, req.kind, Detailed(req, Sequential(req, provider), false)), normalize));
      var key := Key(account, req.kind, id);
      && (key in after ==> RowAfter(rows, account, req, provider, normalize, id, after[key]))
      && forall row :: RowAfter(rows, account, req, provider, normalize, id, row) ==> key in after && after[key] == row
  {
    assert forall r: nat :: r < |req.regions| <==> Succeeds(req, provider, r);
    hide KeySafe, AllAnswered, ApplyAll, CallPlan, Detailed, Sequential, Succeeds, Reports, ReturnedItems, Shows;
    StoredRow(rows, account, req, provider, normalize, id);
    ReportedOrNot(req, provider, id);
    var after := ApplyAll(rows, CallPlan(Call(account, req.kind, Detailed(req, Sequential(req, provider), false)), normalize));
    var key := Key(account, req.kind, id);
    forall row | RowAfter(rows, account, req, provider, normalize, id, row) ensures key in after && after[key] == row {
      if r: nat, i: nat :| ReportedLast(req, provider, id, r, i) && ShownAt(req, provider, normalize, id, r, i, row) {
        SameRow(row, after[key], ReturnedItems(req, provider, r)[i], id, req.kind, req.regions[r], normalize);
      }
    }
  }

  // ---------------------------------------------------------------- what each action asks for

  /** The row shows that the action has taken effect. */
  ghost predicate Fits(action: string, row: Row, binding: string -> string) {
    if action == "start" || action == "reboot" then
      Says(row.content.status, "running") || Says(row.content.status, "active")
    else if action == "stop" then
      Says(row.content.status, "stop") || Says(row.content.status, "shut") || Says(row.content.status, "closed")
    else if action == "bind" then SaysOnly(binding(row.content.payload), "bound")
    else if action == "unbind" then SaysOnly(binding(row.content.payload), "unbound")
    else row.current
  }

  /** The row may be the one the job without an id waits for. */
  predicate Awaited(job: ActionJob, row: Row) {
    row.current && (job.region == "" || job.region == row.content.region) && (job.name == "" || job.name == row.content.name)
  }

  /** What has to be the case for a job to be confirmed after its types were synced without an error. */
  ghost predicate Achieved(rows: Table, job: ActionJob, req: Request, provider: Provider, normalize: Normalizer,
                           binding: string -> string)
  {
    if job.resourceId == "" then
      exists id, row :: RowAfter(rows, job.account, req, provider, normalize, id, row) && Awaited(job, row)
    else if job.action in {"delete", "release", "unsubscribe", "reject"} then
      && Unreported(req, provider, job.resourceId)
      && (Key(job.account, req.kind, job.resourceId) in rows ==>
            rows[Key(job.account, req.kind, job.resourceId)].content.region in req.regions)
    else
      exists row :: RowAfter(rows, job.account, req, provider, normalize, job.resourceId, row) && Fits(job.action, row, binding)
  }

  lemma StatusFits(action: string, row: Row, binding: string -> string)
    ensures
      var status := Lower(row.content.status);
      && (Contains(status, "running") || Contains(status, "active")
          <==> Says(row.content.status, "running") || Says(row.content.status, "active"))
      && (Contains(status, "stop") || Contains(status, "shut") || Contains(status, "closed")
          <==> Says(row.content.status, "stop") || Says(row.content.status, "shut") || Says(row.content.status, "closed"))
      && (Lower(binding(row.content.payload)) == "bound" <==> SaysOnly(binding(row.content.payload), "bound"))
      && (Lower(binding(row.content.payload)) == "unbound" <==> SaysOnly(binding(row.content.payload), "unbound"))
  {
    hide Contains, Lower, Says, SaysOnly;
    LowerContains(row.content.status, "running");
    LowerContains(row.content.status, "active");
    LowerContains(row.content.status, "stop");
    LowerContains(row.content.status, "shut");
    LowerContains(row.content.status, "closed");
    LowerEquals(binding(row.content.payload), "bound");
    LowerEquals(binding(row.content.payload), "unbound");
  }

  /** The decision on one job's row. */
  lemma ConfirmRow(rows: Table, job: ActionJob, binding: string -> string)
    requires job.resourceId != ""
    ensures
      var key := Key(job.account, ActionTargetType(job), job.resourceId);
      Confirm(rows, job, binding) <==>
        if job.action in {"delete", "release", "unsubscribe", "reject"} then key !in rows
        else key in rows && Fits(job.action, rows[key], binding)
  {
    hide Contains, Lower, Says, SaysOnly, ActionTargetType;
    var key := Key(job.account, ActionTargetType(job), job.resourceId);
    if key in rows { StatusFits(job.action, rows[key], binding); }
  }

  lemma ConfirmAwaited(rows: Table, job: ActionJob, binding: string -> string)
    requires job.resourceId == ""
    ensures Confirm(rows, job, binding)
       <==> exists id :: Key(job.account, ActionTargetType(job), id) in rows
                         && Awaited(job, rows[Key(job.account, ActionTargetType(job), id)])
  {
    hide ActionTargetType;
    var target := ActionTargetType(job);
    if Confirm(rows, job, binding) {
      var key :| key in rows && key.account == job.account && key.kind == target && NameMatches(rows[key], job);
      assert key == Key(job.account, target, key.id);
    }
  }

  /** After a clean sync of the type it is judged by, a job is confirmed exactly if the provider's answers show what its
      action asks for. */
  lemma AchievedExactly(rows: Table, job: ActionJob, req: Request, provider: Provider, normalize: Normalizer,
                        binding: string -> string)
    requires KeySafe(req.regions) && req.regions != [] && req.paths != [] && AllAnswered(req, provider)
    requires req.kind == ActionTargetType(job)
    ensures
      var after := ApplyAll(rows, CallPlan(Call(job.account, req.kind, Detailed(req, Sequential(req, provider), false)), normalize));
      Confirm(after, job, binding) <==> Achieved(rows, job, req, provider, normalize, binding)
  {
    hide KeySafe, AllAnswered, ApplyAll, CallPlan, Detailed, Sequential, RowAfter, Fits, Awaited, ActionTargetType, Confirm;
    var after := ApplyAll(rows, CallPlan(Call(job.account, req.kind, Detailed(req, Sequential(req, provider), false)), normalize));
    if job.resourceId == "" {
      ConfirmAwaited(after, job, binding);
      if id :| Key(job.account, req.kind, id) in after && Awaited(job, after[Key(job.account, req.kind, id)]) {
        CleanRow(rows, job.account, req, provider, normalize, id);
        assert RowAfter(rows, job.account, req, provider, normalize, id, after[Key(job.account, req.kind, id)]);
      }
      if id, row :| RowAfter(rows, job.account, req, provider, normalize, id, row) && Awaited(job, row) {
        CleanRow(rows, job.account, req, provider, normalize, id);
        assert Key(job.account, req.kind, id) in after && after[Key(job.account, req.kind, id)] == row;
      }
    } else {
      ConfirmRow(after, job, binding);
      CleanRow(rows, job.account, req, provider, normalize, job.resourceId);
      CleanGone(rows, job.account, req, provider, normalize, job.resourceId);
    }
  }

  /** No row is left under an id exactly if no region reported it and no older row lies outside the regions. */
  lemma CleanGone(rows: Table, account: int, req: Request, provider: Provider, normalize: Normalizer, id: string)
    requires KeySafe(req.regions) && req.regions != [] && req.paths != [] && AllAnswered(req, provider)
    ensures
      var after := ApplyAll(rows, CallPlan(Call(account, req.kind, Detailed(req, Sequential(req, provider), false)), normalize));
      var key := Key(account, req.kind, id);
      key !in after <==> Unreported(req, provider, id) && (key in rows ==> rows[key].content.region in req.regions)
  {
    assert forall r: nat :: r < |req.regions| <==> Succeeds(req, provider, r);
    hide KeySafe, AllAnswered, ApplyAll, CallPlan, Detailed, Sequential, Succeeds, Reports, ReturnedItems, Shows, LeftAlone;
    StoredRow(rows, account, req, provider, normalize, id);
    ReportedOrNot(req, provider, id);
  }

  // ---------------------------------------------------------------- the pass

  lemma ConfirmSame(rows: Table, other: Table, job: ActionJob, binding: string -> string)
    requires SameFor(rows, other, job.account, ActionTargetType(job))
    ensures Confirm(rows, job, binding) <==> Confirm(other, job, binding)
  {
    hide ActionTargetType, Fits, Awaited;
    if job.resourceId == "" {
      ConfirmAwaited(rows, job, binding);
      ConfirmAwaited(other, job, binding);
    } else {
      ConfirmRow(rows, job, binding);
      ConfirmRow(other, job, binding);
    }
  }

  /** A pass closes its job as completed exactly when the type it is judged by is synced, its scan was neither aborted
      nor cut off while committing, every scanned region ended in success, and the answers show what the action asks
      for. Other types and accounts may be synced at the same time. */
  lemma PassIsConfirmed(rows: Table, trace: seq<Tx>, job: ActionJob, req: Request, provider: Provider,
                        aborted: bool, normalize: Normalizer, failAt: nat, binding: string -> string)
    requires req.kind == ActionTargetType(job) && KeySafe(req.regions) && req.paths != []
    requires
      var call := Call(job.account, req.kind, Detailed(req, Sequential(req, provider), aborted));
      Projection(trace, job.account, req.kind) == Applied(CallPlan(call, normalize), failAt)
    ensures
      var call := Call(job.account, req.kind, Detailed(req, Sequential(req, provider), aborted));
      JobConfirmed(ApplyAll(rows, trace), job, call, normalize, failAt, binding)
      <==>
        && req.kind in SYNC_TYPES && req.regions != [] && !aborted && failAt >= |CallPlan(call, normalize)|
        && AllAnswered(req, provider)
        && Achieved(rows, job, req, provider, normalize, binding)
  {
    hide ApplyAll, Sequential, Merge, AllAnswered, Plan, KeySafe, SYNC_TYPES, Achieved, Confirm, SameFor, ActionTargetType,
      SomeLists, Covers, DistinctRegions, Reported;
    var call := Call(job.account, req.kind, Detailed(req, Sequential(req, provider), aborted));
    if req.regions != [] && !aborted {
      ResultsMeaning(req, provider, "x");
      ProjectionDecides(rows, trace, job.account, req.kind);
      if Clean(call, normalize, failAt) {
        ConfirmSame(ApplyAll(rows, trace), ApplyAll(rows, CallPlan(call, normalize)), job, binding);
        AchievedExactly(rows, job, req, provider, normalize, binding);
      }
    }
  }
}
