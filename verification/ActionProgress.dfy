/** A pass that nobody disturbs, as a run of the machine of ActionRuns: from any reachable state a new job is picked,
    synced and settled, and it is completed if and only if the answers show what it asks for
    (internal/httpserver/background.go:186-237). */
module ActionProgress {
  import opened GoText
  import opened Wrappers
  import A = ActionJobs
  import opened RegionListing
  import opened ListingTheorems
  import opened SyncCommit
  import opened SyncSafety
  import opened Confirmation
  import opened ActionPass
  import opened ActionRuns

  // ---------------------------------------------------------------- runs, step by step

  lemma ServerInv(env: Env, w: World)
    requires Inv(env, w)
    ensures A.Inv(w.server)
  {
  }

  lemma RunFirst(env: Env, w: World, events: seq<Event>)
    requires Inv(env, w)
    ensures A.Inv(w.server)
    ensures events == [] ==> Run(env, w, events) == Some(w)
    ensures events != [] && !Enabled(env, w, events[0]) ==> Run(env, w, events) == None
    ensures events != [] && Enabled(env, w, events[0]) ==>
      Inv(env, Step(env, w, events[0])) && Run(env, w, events) == Run(env, Step(env, w, events[0]), events[1..])
  {
    ServerInv(env, w);
    hide A.Inv, Inv, Step, Enabled;
    if events != [] && Enabled(env, w, events[0]) { StepKeepsInv(env, w, events[0]); }
  }

  lemma {:induction false} RunMore(env: Env, w: World, events: seq<Event>, n: World, e: Event)
    requires Inv(env, w) && Run(env, w, events) == Some(n) && Enabled(env, n, e)
    ensures Inv(env, n) && Run(env, w, events + [e]) == Some(Step(env, n, e)) && Inv(env, Step(env, n, e))
    decreases |events|
  {
    RunFirst(env, w, events);
    RunFirst(env, w, events + [e]);
    hide A.Inv, Inv, Step, Enabled, Run;
    if events == [] {
      assert (events + [e])[1..] == [];
      RunFirst(env, Step(env, w, e), []);
    } else {
      assert (events + [e])[1..] == events[1..] + [e] && (events + [e])[0] == events[0];
      RunMore(env, Step(env, w, events[0]), events[1..], n, e);
    }
  }

  // ---------------------------------------------------------------- up to the sync

  function PickOf(id: string, job: ActionJob): A.Picked {
    A.Picked(id, job.account, 0)
  }

  /** The loop syncs the job, and has begun these calls. */
  ghost predicate InPass(w: World, n: World, id: string, job: ActionJob, syncs: map<string, Sync>) {
    && n.server.loop == A.InFlight(PickOf(id, job), [])
    && id in n.server.jobs && n.server.jobs[id].attempts <= 1
    && id in n.details && n.details[id] == job
    && LOOP in n.sessions
    && n.sessions[LOOP] == Session(job.account, ActionSyncTypes(job.resourceType, job.action), syncs, |w.log|)
    && w.log <= n.log
  }

  ghost predicate Idle(env: Env, w: World, id: string, job: ActionJob) {
    Inv(env, w) && w.server.loop.Waiting? && id !in w.server.past && job.account !in w.server.syncing
  }

  lemma Created(env: Env, w: World, id: string, job: ActionJob)
    requires Idle(env, w, id, job)
    ensures Enabled(env, w, Create(id, job))
    ensures
      var n := Step(env, w, Create(id, job));
      && n.server == w.server.(jobs := w.server.jobs[id := A.Job(job.account, A.Pending, 0, w.server.now + 2)],
                               past := w.server.past[id := A.History(0, 0, w.server.now)])
      && n.details == w.details[id := job] && n.log == w.log && n.sessions == w.sessions
  {
    hide A.Inv, SYNC_TYPES, Replay, SessionsInv, DetailsInv, PassInv, EvidenceInv;
  }

  lemma Waited(env: Env, w: World)
    requires Inv(env, w)
    ensures Enabled(env, w, Tick(2))
    ensures
      var n := Step(env, w, Tick(2));
      n.server == w.server.(now := w.server.now + 2) && n.details == w.details && n.log == w.log && n.sessions == w.sessions
  {
    hide A.Inv, SYNC_TYPES, Replay, SessionsInv, DetailsInv, PassInv, EvidenceInv;
  }

  lemma Queried(env: Env, w: World, pick: A.Picked)
    requires Inv(env, w) && w.server.loop.Waiting? && A.Matches(w.server.jobs, pick, w.server.now)
    ensures Enabled(env, w, Query([pick]))
    ensures
      var n := Step(env, w, Query([pick]));
      n.server == w.server.(loop := A.Between([pick])) && n.details == w.details && n.log == w.log && n.sessions == w.sessions
  {
    hide A.Inv, A.Matches, SYNC_TYPES, Replay, SessionsInv, DetailsInv, PassInv, EvidenceInv;
  }

  lemma Taken(env: Env, w: World, id: string, job: ActionJob)
    requires Inv(env, w) && w.server.loop == A.Between([PickOf(id, job)]) && job.account !in w.server.syncing
    requires id in w.server.jobs && id in w.details && w.details[id] == job
    ensures Enabled(env, w, Next(true))
    ensures InPass(w, Step(env, w, Next(true)), id, job, map[])
  {
    StepParts(env, w, Next(true));
    NewLoopSession(env, w, true);
    hide A.Inv, SYNC_TYPES, ActionSyncTypes, Replay, SessionsInv, DetailsInv, PassInv, EvidenceInv, Sessions;
    assert Changes(env, w, Next(true)) == [];
  }

  lemma Opening(env: Env, w: World, id: string, job: ActionJob) returns (events: seq<Event>, n: World)
    requires Idle(env, w, id, job)
    ensures Run(env, w, events) == Some(n) && Inv(env, n) && InPass(w, n, id, job, map[])
  {
    ServerInv(env, w);
    Created(env, w, id, job);
    assert Run(env, w, []) == Some(w);
    hide A.Inv, Step, Enabled, Inv, Run;
    RunMore(env, w, [], w, Create(id, job));
    events, n := [] + [Create(id, job)], Step(env, w, Create(id, job));
    ServerInv(env, n);
    Waited(env, n);
    RunMore(env, w, events, n, Tick(2));
    events, n := events + [Tick(2)], Step(env, n, Tick(2));
    ServerInv(env, n);
    Queried(env, n, PickOf(id, job));
    RunMore(env, w, events, n, Query([PickOf(id, job)]));
    events, n := events + [Query([PickOf(id, job)])], Step(env, n, Query([PickOf(id, job)]));
    ServerInv(env, n);
    Taken(env, n, id, job);
    RunMore(env, w, events, n, Next(true));
    events, n := events + [Next(true)], Step(env, n, Next(true));
  }

  // ---------------------------------------------------------------- the sync

  /** The call as it ends: all its transactions, or those before the refused one. */
  function Ending(env: Env, account: int, attempt: Attempt): Sync {
    var sync := Sync(attempt.req, attempt.provider, attempt.aborted, 0, false);
    var n := |PlanOf(env, account, sync)|;
    sync.(done := if attempt.failAt < n then attempt.failAt else n, refused := attempt.failAt < n)
  }

  lemma Begun(env: Env, w: World, n: World, id: string, job: ActionJob, syncs: map<string, Sync>, kind: string, attempt: Attempt)
    requires Inv(env, n) && InPass(w, n, id, job, syncs)
    requires kind in ActionSyncTypes(job.resourceType, job.action) && kind in SYNC_TYPES && kind !in syncs
    requires attempt.req.kind == kind && RightRegion(job, attempt.req)
    ensures
      var e := Scanned(LOOP, kind, attempt.req, attempt.provider, attempt.aborted);
      && Enabled(env, n, e)
      && InPass(w, Step(env, n, e), id, job, syncs[kind := Sync(attempt.req, attempt.provider, attempt.aborted, 0, false)])
  {
    hide A.Inv, SYNC_TYPES, ActionSyncTypes, Replay, SessionsInv, DetailsInv, PassInv, EvidenceInv, RightRegion;
  }

  lemma CommittedOne(env: Env, w: World, n: World, id: string, job: ActionJob, syncs: map<string, Sync>, kind: string)
    requires Inv(env, n) && InPass(w, n, id, job, syncs)
    requires kind in syncs && !Ended(env, job.account, syncs[kind])
    ensures Enabled(env, n, Commit(LOOP, kind))
    ensures InPass(w, Step(env, n, Commit(LOOP, kind)), id, job, syncs[kind := syncs[kind].(done := syncs[kind].done + 1)])
  {
    hide A.Inv, SYNC_TYPES, ActionSyncTypes, Replay, SessionsInv, DetailsInv, PassInv, EvidenceInv, PlanOf, After;
  }

  lemma RefusedOne(env: Env, w: World, n: World, id: string, job: ActionJob, syncs: map<string, Sync>, kind: string)
    requires Inv(env, n) && InPass(w, n, id, job, syncs)
    requires kind in syncs && !Ended(env, job.account, syncs[kind])
    ensures Enabled(env, n, Refuse(LOOP, kind))
    ensures InPass(w, Step(env, n, Refuse(LOOP, kind)), id, job, syncs[kind := syncs[kind].(refused := true)])
  {
    hide A.Inv, SYNC_TYPES, ActionSyncTypes, Replay, SessionsInv, DetailsInv, PassInv, EvidenceInv, PlanOf, After;
  }

  lemma CommitMore(env: Env, w: World, begun: seq<Event>, n: World, id: string, job: ActionJob, syncs: map<string, Sync>,
                   kind: string)
    returns (events: seq<Event>, m: World)
    requires Inv(env, w) && Run(env, w, begun) == Some(n) && Inv(env, n) && InPass(w, n, id, job, syncs)
    requires kind in syncs && !Ended(env, job.account, syncs[kind])
    ensures Run(env, w, events) == Some(m) && Inv(env, m)
    ensures InPass(w, m, id, job, syncs[kind := syncs[kind].(done := syncs[kind].done + 1)])
  {
    ServerInv(env, n);
    hide A.Inv, Inv, Step, Enabled, Run, PlanOf, InPass, Ended;
    CommittedOne(env, w, n, id, job, syncs, kind);
    RunMore(env, w, begun, n, Commit(LOOP, kind));
    events, m := begun + [Commit(LOOP, kind)], Step(env, n, Commit(LOOP, kind));
  }

  lemma RefuseMore(env: Env, w: World, begun: seq<Event>, n: World, id: string, job: ActionJob, syncs: map<string, Sync>,
                   kind: string)
    returns (events: seq<Event>, m: World)
    requires Inv(env, w) && Run(env, w, begun) == Some(n) && Inv(env, n) && InPass(w, n, id, job, syncs)
    requires kind in syncs && !Ended(env, job.account, syncs[kind])
    ensures Run(env, w, events) == Some(m) && Inv(env, m)
    ensures InPass(w, m, id, job, syncs[kind := syncs[kind].(refused := true)])
  {
    ServerInv(env, n);
    hide A.Inv, Inv, Step, Enabled, Run, PlanOf, InPass, Ended;
    RefusedOne(env, w, n, id, job, syncs, kind);
    RunMore(env, w, begun, n, Refuse(LOOP, kind));
    events, m := begun + [Refuse(LOOP, kind)], Step(env, n, Refuse(LOOP, kind));
  }

  /** A call that has committed some of its transactions goes on to its end. */
  lemma {:induction false} CallEnds(env: Env, w: World, begun: seq<Event>, n: World, id: string, job: ActionJob,
                                    syncs: map<string, Sync>, kind: string, attempt: Attempt, done: nat)
    returns (events: seq<Event>, m: World)
    requires Inv(env, w) && Run(env, w, begun) == Some(n) && Inv(env, n) && InPass(w, n, id, job, syncs)
    requires kind in syncs && syncs[kind] == Ending(env, job.account, attempt).(done := done, refused := false)
    requires done <= Ending(env, job.account, attempt).done
    ensures Run(env, w, events) == Some(m) && Inv(env, m)
    ensures InPass(w, m, id, job, syncs[kind := Ending(env, job.account, attempt)])
    decreases Ending(env, job.account, attempt).done - done
  {
    var ending := Ending(env, job.account, attempt);
    SamePlans(env, job.account, attempt, done);
    hide A.Inv, Inv, Run, PlanOf, InPass, Ending, Ended;
    if done < ending.done {
      var more := syncs[kind := syncs[kind].(done := done + 1)];
      events, m := CommitMore(env, w, begun, n, id, job, syncs, kind);
      events, m := CallEnds(env, w, events, m, id, job, more, kind, attempt, done + 1);
      assert more[kind := ending] == syncs[kind := ending];
    } else if ending.refused {
      assert syncs[kind].(refused := true) == ending;
      events, m := RefuseMore(env, w, begun, n, id, job, syncs, kind);
    } else {
      assert syncs[kind := ending] == syncs;
      events, m := begun, n;
    }
  }

  lemma SamePlans(env: Env, account: int, attempt: Attempt, done: nat)
    ensures
      var ending := Ending(env, account, attempt);
      var sync := ending.(done := done, refused := false);
      && PlanOf(env, account, sync) == PlanOf(env, account, ending)
      && Ended(env, account, ending)
      && (done < ending.done || (done == ending.done && ending.refused) ==> !Ended(env, account, sync))
  {
    hide CallPlan, Detailed, Sequential;
  }

  /** The calls of the first types, all ended. */
  ghost predicate AllEnded(env: Env, account: int, kinds: seq<string>, attempts: string -> Attempt, syncs: map<string, Sync>) {
    && (forall kind :: kind in syncs <==> kind in kinds && kind in SYNC_TYPES)
    && (forall kind :: kind in syncs ==> syncs[kind] == Ending(env, account, attempts(kind)))
  }

  /** What the types of a job meet: requests for these types, in the job's region if it names one. */
  ghost predicate Fitting(job: ActionJob, attempts: string -> Attempt) {
    forall kind :: kind in ActionSyncTypes(job.resourceType, job.action) ==>
      attempts(kind).req.kind == kind && (Spaces(job.region) || attempts(kind).req.regions == [job.region])
  }

  lemma FittingRegion(job: ActionJob, attempts: string -> Attempt, kind: string)
    requires Fitting(job, attempts) && kind in ActionSyncTypes(job.resourceType, job.action)
    ensures attempts(kind).req.kind == kind && RightRegion(job, attempts(kind).req)
  {
    hide TrimSpace, ActionSyncTypes;
    TrimBlank(job.region);
  }

  lemma {:induction false} TypesEnd(env: Env, w: World, opening: seq<Event>, n: World, id: string, job: ActionJob,
                                    attempts: string -> Attempt, i: nat)
    returns (events: seq<Event>, m: World, syncs: map<string, Sync>)
    requires Inv(env, w) && Run(env, w, opening) == Some(n) && Inv(env, n) && InPass(w, n, id, job, map[])
    requires Fitting(job, attempts) && i <= |ActionSyncTypes(job.resourceType, job.action)|
    ensures Run(env, w, events) == Some(m) && Inv(env, m) && InPass(w, m, id, job, syncs)
    ensures AllEnded(env, job.account, ActionSyncTypes(job.resourceType, job.action)[..i], attempts, syncs)
  {
    hide Inv, Step, Enabled, Run, InPass, Ending, ActionSyncTypes, SYNC_TYPES, RightRegion, Fitting;
    if i == 0 {
      events, m, syncs := opening, n, map[];
    } else {
      var kinds := ActionSyncTypes(job.resourceType, job.action);
      var kind := kinds[i - 1];
      assert kinds[..i] == kinds[..i - 1] + [kind];
      events, m, syncs := TypesEnd(env, w, opening, n, id, job, attempts, i - 1);
      if kind in SYNC_TYPES && kind !in syncs {
        var attempt := attempts(kind);
        var sync := Sync(attempt.req, attempt.provider, attempt.aborted, 0, false);
        var e := Scanned(LOOP, kind, attempt.req, attempt.provider, attempt.aborted);
        ServerInv(env, m);
        FittingRegion(job, attempts, kind);
        Begun(env, w, m, id, job, syncs, kind, attempt);
        RunMore(env, w, events, m, e);
        EndingBegins(env, job.account, attempt);
        var more := syncs[kind := sync];
        events, m := CallEnds(env, w, events + [e], Step(env, m, e), id, job, more, kind, attempt, 0);
        syncs := more[kind := Ending(env, job.account, attempt)];
      }
    }
  }

  lemma EndingBegins(env: Env, account: int, attempt: Attempt)
    ensures Ending(env, account, attempt).(done := 0, refused := false)
         == Sync(attempt.req, attempt.provider, attempt.aborted, 0, false)
  {
  }

  // ---------------------------------------------------------------- the outcome

  lemma CallsOver(env: Env, w: World, n: World, id: string, job: ActionJob, attempts: string -> Attempt,
                  syncs: map<string, Sync>)
    requires InPass(w, n, id, job, syncs)
    requires AllEnded(env, job.account, ActionSyncTypes(job.resourceType, job.action), attempts, syncs)
    ensures Over(env, n.sessions[LOOP]) && AllBegun(n.sessions[LOOP])
  {
    hide Ending, Ended, ActionSyncTypes, SYNC_TYPES;
    forall kind | kind in syncs ensures Ended(env, job.account, syncs[kind]) {
      SamePlans(env, job.account, attempts(kind), 0);
    }
  }

  lemma Finished(env: Env, w: World, n: World, id: string, job: ActionJob, attempts: string -> Attempt, syncs: map<string, Sync>)
    requires Inv(env, n) && InPass(w, n, id, job, syncs)
    requires AllEnded(env, job.account, ActionSyncTypes(job.resourceType, job.action), attempts, syncs)
    ensures Enabled(env, n, Finish(true))
    ensures
      var m := Step(env, n, Finish(true));
      && m.server.loop == A.Deciding(PickOf(id, job), Verdict(env, n), [])
      && id in m.server.jobs
  {
    CallsOver(env, w, n, id, job, attempts, syncs);
    StepParts(env, n, Finish(true));
    hide A.Inv, SYNC_TYPES, ActionSyncTypes, Replay, SessionsInv, DetailsInv, PassInv, EvidenceInv, Verdict, Over, AllBegun,
      Ending;
  }

  lemma Concluded(env: Env, n: World, id: string, job: ActionJob, confirmed: bool)
    requires Inv(env, n) && n.server.loop == A.Deciding(PickOf(id, job), confirmed, []) && id in n.server.jobs
    ensures Enabled(env, n, Conclude(true))
    ensures
      var after := Step(env, n, Conclude(true)).server;
      && after.loop == A.Between([]) && id in after.jobs && after.jobs[id].attempts == 1
      && after.jobs[id].status == (if confirmed then A.Completed else A.Retrying)
  {
    hide A.Inv, SYNC_TYPES, Replay, SessionsInv, DetailsInv, PassInv, EvidenceInv;
  }

  /**
   * From every reachable state: if the loop comes to a new job while its account is free and nothing interrupts the
   * pass, the job is settled after one attempt, whatever the provider and the database do. It is then completed if and
   * only if the provider's answers show what its action asks for.
   */
  lemma UndisturbedPass(env: Env, w: World, id: string, job: ActionJob, attempts: string -> Attempt)
    returns (events: seq<Event>, n: World)
    requires Idle(env, w, id, job) && Fitting(job, attempts)
    ensures Run(env, w, events) == Some(n)
    ensures id in n.server.jobs && n.server.jobs[id].attempts == 1
    ensures n.server.jobs[id].status == A.Completed || n.server.jobs[id].status == A.Retrying
    ensures
      var target := ActionTargetType(job);
      var ending := Ending(env, job.account, attempts(target));
      && (target !in SYNC_TYPES ==> n.server.jobs[id].status == A.Retrying)
      && (target in SYNC_TYPES && Unconfused(job, ending) ==>
            (n.server.jobs[id].status == A.Completed <==> Met(env, job, w.rows, ending)))
  {
    var begun, synced, m, syncs;
    begun, n := Opening(env, w, id, job);
    var kinds := ActionSyncTypes(job.resourceType, job.action);
    assert kinds[..|kinds|] == kinds;
    begun, synced, syncs := TypesEnd(env, w, begun, n, id, job, attempts, |kinds|);
    Finished(env, w, synced, id, job, attempts, syncs);
    RunMore(env, w, begun, synced, Finish(true));
    m := Step(env, synced, Finish(true));
    Concluded(env, m, id, job, Verdict(env, synced));
    RunMore(env, w, begun + [Finish(true)], m, Conclude(true));
    events, n := begun + [Finish(true)] + [Conclude(true)], Step(env, m, Conclude(true));
    Judged(env, w, synced, id, job, attempts, syncs);
  }

  lemma Judged(env: Env, w: World, n: World, id: string, job: ActionJob, attempts: string -> Attempt, syncs: map<string, Sync>)
    requires Inv(env, w) && Inv(env, n) && InPass(w, n, id, job, syncs) && Fitting(job, attempts)
    requires AllEnded(env, job.account, ActionSyncTypes(job.resourceType, job.action), attempts, syncs)
    ensures
      var target := ActionTargetType(job);
      var ending := Ending(env, job.account, attempts(target));
      && (target !in SYNC_TYPES ==> !Verdict(env, n))
      && (target in SYNC_TYPES && Unconfused(job, ending) ==> (Verdict(env, n) <==> Met(env, job, w.rows, ending)))
  {
    CallsOver(env, w, n, id, job, attempts, syncs);
    var target := ActionTargetType(job);
    var session, ending := n.sessions[LOOP], Ending(env, job.account, attempts(target));
    EndingRequest(env, job.account, attempts(target));
    TargetIsSynced(job);
    BeforePass(env, w, n, id, job, syncs);
    hide A.Inv, Replay, Over, AllBegun, Verdict, Met, Ending, SYNC_TYPES, ActionSyncTypes, ActionTargetType, KeySafe, TrimSpace,
      DetailsInv, EvidenceInv, SessionInv;
    VerdictExactly(env, n, w.rows);
    if target in SYNC_TYPES && Unconfused(job, ending) {
      assert syncs[target] == ending;
      assert KeySafe(ending.req.regions) by {
        TrimBlank(job.region);
        if TrimSpace(job.region) != "" { assert RightRegion(job, ending.req); }
      }
    }
  }

  lemma EndingRequest(env: Env, account: int, attempt: Attempt)
    ensures Ending(env, account, attempt).req == attempt.req
  {
  }

  lemma BeforePass(env: Env, w: World, n: World, id: string, job: ActionJob, syncs: map<string, Sync>)
    requires Inv(env, w) && Inv(env, n) && InPass(w, n, id, job, syncs)
    ensures w.rows == Replay(map[], Earlier(n.log, n.sessions[LOOP].since))
    ensures Purged(job.account) !in Later(n.log, n.sessions[LOOP].since)
    ensures n.rows == Replay(map[], n.log)
  {
    hide A.Inv, Replay, DetailsInv, EvidenceInv, SessionsInv, ActionSyncTypes, AllInRegion;
    assert Earlier(n.log, |w.log|) == w.log;
  }
}
