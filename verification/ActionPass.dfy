/** One job of a pass as the source runs it: guard, lease, sync of its types, confirmation, release, outcome
    (internal/httpserver/background.go:186-237, internal/ctyun/sync.go:39-98). */
module ActionPass {
  import opened Wrappers
  import A = ActionJobs
  import opened RegionListing
  import opened ListingTheorems
  import opened ResourceStore
  import opened SyncCommit
  import opened SyncSafety
  import opened Confirmation

  /** What the sync of one type meets: its request, the provider, a cancelled context, and the transaction that the
      database refuses, counted from 0. */
  datatype Attempt = Attempt(req: Request, provider: Provider, aborted: bool, failAt: nat)

  function AttemptCall(account: int, attempt: Attempt): Call {
    Call(account, attempt.req.kind, Detailed(attempt.req, Sequential(attempt.req, attempt.provider), attempt.aborted))
  }

  /** A type is synced at its first mention if it is supported. */
  predicate Synced(kinds: seq<string>, i: nat)
    requires i < |kinds|
  {
    kinds[i] in SYNC_TYPES && kinds[i] !in kinds[..i]
  }

  /** The transactions of a whole sync, one type after the other. */
  function SyncLog(account: int, kinds: seq<string>, attempts: string -> Attempt, normalize: Normalizer, n: nat): seq<Tx>
    requires n <= |kinds|
  {
    if n == 0 then []
    else
      SyncLog(account, kinds, attempts, normalize, n - 1)
      + if Synced(kinds, n - 1) then
          Applied(CallPlan(AttemptCall(account, attempts(kinds[n - 1])), normalize), attempts(kinds[n - 1]).failAt)
        else []
  }

  /** The result has an error for this type. */
  predicate SyncError(account: int, kinds: seq<string>, attempts: string -> Attempt, normalize: Normalizer, kind: string) {
    kind in kinds
    && (kind !in SYNC_TYPES || !Clean(AttemptCall(account, attempts(kind)), normalize, attempts(kind).failAt))
  }

  /** Sync, one type after the other; the result is the set of types with an error. */
  method SyncTypes(store: Store, account: int, kinds: seq<string>, attempts: string -> Attempt, normalize: Normalizer)
    returns (errors: set<string>)
    requires store.Valid()
    requires forall kind :: kind in kinds ==> attempts(kind).req.kind == kind
    modifies store
    ensures store.Valid()
    ensures store.log == old(store.log) + SyncLog(account, kinds, attempts, normalize, |kinds|)
    ensures forall kind: string :: kind in errors <==> SyncError(account, kinds, attempts, normalize, kind)
  {
    hide SYNC_TYPES, CallPlan, Detailed, ApplyAll, AllSucceeded, Applied;
    errors := {};
    var seen: set<string> := {};
    for i := 0 to |kinds|
      invariant store.Valid()
      invariant store.log == old(store.log) + SyncLog(account, kinds, attempts, normalize, i)
      invariant forall kind :: kind in seen <==> kind in kinds[..i]
      invariant forall kind: string :: kind in errors <==> SyncError(account, kinds[..i], attempts, normalize, kind)
    {
      var kind := kinds[i];
      assert kinds[..i + 1] == kinds[..i] + [kind];
      ghost var before := SyncLog(account, kinds, attempts, normalize, i);
      assert old(store.log) + (before + []) == old(store.log) + before;
      if kind in seen { continue; }
      seen := seen + {kind};
      if kind !in SYNC_TYPES {
        errors := errors + {kind};
      } else {
        var attempt := attempts(kind);
        var total, clean := SyncKind(store, account, attempt.req, attempt.provider, attempt.aborted, normalize, attempt.failAt);
        if !clean { errors := errors + {kind}; }
      }
    }
    assert kinds[..|kinds|] == kinds;
  }

  /** The verdict after the sync of the job's own types. */
  predicate JobVerdict(rows: Table, job: ActionJob, attempts: string -> Attempt, normalize: Normalizer,
                       binding: string -> string)
  {
    && !SyncError(job.account, ActionSyncTypes(job.resourceType, job.action), attempts, normalize, ActionTargetType(job))
    && Confirm(rows, job, binding)
  }

  /** It is the verdict that the confirmation theorems speak of: the target type is among the synced ones. */
  lemma VerdictIsConfirmation(rows: Table, job: ActionJob, attempts: string -> Attempt, normalize: Normalizer,
                              binding: string -> string)
    requires attempts(ActionTargetType(job)).req.kind == ActionTargetType(job)
    ensures
      var attempt := attempts(ActionTargetType(job));
      JobVerdict(rows, job, attempts, normalize, binding)
      <==> JobConfirmed(rows, job, AttemptCall(job.account, attempt), normalize, attempt.failAt, binding)
  {
    TargetIsSynced(job);
    hide ActionSyncTypes, ActionTargetType, SYNC_TYPES, Clean, Confirm, Detailed;
  }

  /** One job of a pass. A busy account leaves everything as it is. */
  method RunJob(guard: A.AccountGuard, table: A.JobTable, store: Store, pick: A.Picked, job: ActionJob,
                attempts: string -> Attempt, normalize: Normalizer, binding: string -> string,
                leasedAt: int, leaseLands: bool, settledAt: int, outcomeLands: bool)
    requires store.Valid() && pick.account == job.account
    requires forall kind :: kind in ActionSyncTypes(job.resourceType, job.action) ==> attempts(kind).req.kind == kind
    modifies guard, table, store
    ensures store.Valid() && guard.syncing == old(guard.syncing)
    ensures job.account in old(guard.syncing) ==> table.rows == old(table.rows) && store.log == old(store.log)
    ensures job.account !in old(guard.syncing) ==>
      && store.log == old(store.log) + SyncLog(job.account, ActionSyncTypes(job.resourceType, job.action), attempts, normalize,
                                               |ActionSyncTypes(job.resourceType, job.action)|)
      && table.rows
         == A.Worked(old(table.rows), pick,
                     A.Turn(false, JobVerdict(store.rows, job, attempts, normalize, binding), leasedAt, leaseLands,
                            settledAt, outcomeLands))
  {
    hide ActionSyncTypes, ActionTargetType, SYNC_TYPES, Clean, Confirm, Detailed, SyncLog, ApplyAll, CallPlan;
    var entered := guard.TryBegin(job.account);
    if !entered { return; }
    var attempt := pick.attempts + 1;
    table.UpdateActionJob(pick.id, A.Retrying, attempt, leasedAt + A.LEASE, leaseLands);
    var errors := SyncTypes(store, job.account, ActionSyncTypes(job.resourceType, job.action), attempts, normalize);
    var confirmed := ActionTargetType(job) !in errors && Confirm(store.rows, job, binding);
    guard.End(job.account);
    if confirmed {
      table.UpdateActionJob(pick.id, A.Completed, attempt, 0, outcomeLands);
    } else if attempt >= A.MAX_ATTEMPTS {
      table.UpdateActionJob(pick.id, A.Unconfirmed, attempt, 0, outcomeLands);
    } else {
      table.UpdateActionJob(pick.id, A.Retrying, attempt, settledAt + A.DELAYS[A.DelayIndex(attempt)], outcomeLands);
    }
  }
}
