/** The job loop, the request handlers and the background sync over one resource table: the account guard of ActionJobs
    with the transactions it protects (internal/httpserver/background.go:77-106, 172-256, internal/ctyun/sync.go:39-98,
    internal/storage/storage.go:310-339). Account deletion takes no guard. */
module ActionRuns {
  import opened GoText
  import opened Wrappers
  import A = ActionJobs
  import opened RegionListing
  import opened ListingTheorems
  import opened ResourceStore
  import opened SyncCommit
  import opened SyncSafety
  import opened Confirmation
  import opened Verdicts

  /** What stays fixed: the field table, and how a binding status is read out of a payload. */
  datatype Env = Env(normalize: Normalizer, binding: string -> string)

  // ---------------------------------------------------------------- the table and its history

  /** A change of the resource table: a committed transaction, or the deletion of an account. */
  datatype Change = Committed(tx: Tx) | Purged(account: int)

  function After(rows: Table, change: Change): Table {
    match change
    case Committed(tx) => Apply(rows, tx)
    case Purged(account) => map key | key in rows && key.account != account :: rows[key]
  }

  function Replay(rows: Table, log: seq<Change>): Table {
    if log == [] then rows else After(Replay(rows, log[..|log| - 1]), log[|log| - 1])
  }

  /** A history up to a moment, and after it. */
  function Earlier(log: seq<Change>, since: nat): seq<Change> {
    if since <= |log| then log[..since] else log
  }

  function Later(log: seq<Change>, since: nat): seq<Change> {
    if since <= |log| then log[since..] else []
  }

  /** The transactions of a history on one account and type. */
  function Own(log: seq<Change>, account: int, kind: string): seq<Tx> {
    if log == [] then []
    else Own(log[..|log| - 1], account, kind) + OwnTx(log[|log| - 1], account, kind)
  }

  function OwnTx(change: Change, account: int, kind: string): seq<Tx> {
    if change.Committed? && change.tx.account == account && change.tx.kind == kind then [change.tx] else []
  }

  lemma ReplayMore(rows: Table, log: seq<Change>, change: Change)
    ensures Replay(rows, log + [change]) == After(Replay(rows, log), change)
  {
    assert (log + [change])[..|log|] == log;
  }

  lemma {:induction false} ReplaySplit(rows: Table, log: seq<Change>, since: nat)
    requires since <= |log|
    ensures Replay(rows, log) == Replay(Replay(rows, log[..since]), log[since..])
    decreases |log|
  {
    hide After;
    if since == |log| {
      assert log[..since] == log && log[since..] == [];
    } else {
      var n := |log| - 1;
      ReplaySplit(rows, log[..n], since);
      assert log[..n][..since] == log[..since] && log[..n][since..] == log[since..][..n - since];
    }
  }

  lemma OwnMore(log: seq<Change>, since: nat, change: Change, account: int, kind: string)
    requires since <= |log|
    ensures Own((log + [change])[since..], account, kind) == Own(log[since..], account, kind) + OwnTx(change, account, kind)
  {
    hide OwnTx;
    assert (log + [change])[since..] == log[since..] + [change];
    assert (log[since..] + [change])[..|log| - since] == log[since..];
  }

  lemma {:induction false} OwnIsProjected(log: seq<Change>, account: int, kind: string)
    ensures Projection(Own(log, account, kind), account, kind) == Own(log, account, kind)
  {
    if log != [] {
      var before := Own(log[..|log| - 1], account, kind);
      OwnIsProjected(log[..|log| - 1], account, kind);
      if OwnTx(log[|log| - 1], account, kind) != [] {
        assert Own(log, account, kind)[..|before|] == before;
      } else {
        assert before + [] == before;
      }
    }
  }

  lemma ChangeKeepsSame(rows: Table, other: Table, change: Change, account: int, kind: string)
    requires SameFor(rows, other, account, kind) && change != Purged(account)
    ensures OwnTx(change, account, kind) == [] ==> SameFor(After(rows, change), other, account, kind)
    ensures OwnTx(change, account, kind) != [] ==> SameFor(After(rows, change), Apply(other, change.tx), account, kind)
  {
    hide Apply;
    if change.Committed? {
      if OwnTx(change, account, kind) != [] {
        ApplySame(rows, other, change.tx);
      } else {
        ApplyForeign(rows, change.tx, account, kind);
      }
    }
  }

  lemma {:induction false} OwnDecidesFrom(rows: Table, other: Table, log: seq<Change>, account: int, kind: string)
    requires SameFor(rows, other, account, kind) && Purged(account) !in log
    ensures SameFor(Replay(rows, log), ApplyAll(other, Own(log, account, kind)), account, kind)
  {
    hide Apply, After, SameFor;
    if log != [] {
      var n := |log| - 1;
      var before, last := Own(log[..n], account, kind), log[n];
      OwnDecidesFrom(rows, other, log[..n], account, kind);
      assert last in log;
      ChangeKeepsSame(Replay(rows, log[..n]), ApplyAll(other, before), last, account, kind);
      if OwnTx(last, account, kind) != [] {
        ApplyOne(other, before, last.tx);
      } else {
        assert before + [] == before;
      }
    }
  }

  /** Unless the account is deleted, its own transactions decide what its rows of a type become. */
  lemma OwnDecides(rows: Table, log: seq<Change>, account: int, kind: string)
    requires Purged(account) !in log
    ensures SameFor(Replay(rows, log), ApplyAll(rows, Own(log, account, kind)), account, kind)
  {
    hide Own, SameFor;
    SameAsItself(rows, account, kind);
    OwnDecidesFrom(rows, rows, log, account, kind);
  }

  /** And if it was deleted, those since the last deletion decide, on an empty table. */
  lemma OwnSinceDeletion(rows: Table, log: seq<Change>, since: nat, account: int, kind: string)
    requires since < |log| && log[since] == Purged(account) && Purged(account) !in log[since + 1..]
    ensures SameFor(Replay(rows, log), ApplyAll(map[], Own(log[since + 1..], account, kind)), account, kind)
  {
    ReplaySplit(rows, log, since + 1);
    var before := Replay(rows, log[..since + 1]);
    assert log[..since + 1][..since] == log[..since];
    assert before == After(Replay(rows, log[..since]), Purged(account));
    hide Own, Replay;
    OwnDecidesFrom(before, map[], log[since + 1..], account, kind);
  }

  lemma SameAsItself(rows: Table, account: int, kind: string)
    ensures SameFor(rows, rows, account, kind)
  {
  }

  // ---------------------------------------------------------------- syncs in progress

  /** One SyncKind call: its scan, how many of its transactions are committed, and whether the next one was refused. */
  datatype Sync = Sync(req: Request, provider: Provider, aborted: bool, done: nat, refused: bool)

  function CallOf(account: int, sync: Sync): Call {
    Call(account, sync.req.kind, Detailed(sync.req, Sequential(sync.req, sync.provider), sync.aborted))
  }

  function PlanOf(env: Env, account: int, sync: Sync): seq<Tx> {
    CallPlan(CallOf(account, sync), env.normalize)
  }

  predicate Ended(env: Env, account: int, sync: Sync) {
    sync.refused || sync.done >= |PlanOf(env, account, sync)|
  }

  /** SyncKind returned an error. */
  predicate Failing(account: int, sync: Sync) {
    sync.refused || CallOf(account, sync).listed.Err? || !AllSucceeded(CallOf(account, sync).listed.value)
  }

  /** A thread inside Sync: its account, the types it was asked for, the calls begun so far, and how long the history
      was when it entered. */
  datatype Session = Session(account: int, kinds: seq<string>, syncs: map<string, Sync>, since: nat)

  /** Sync waits for the calls it began. */
  predicate Over(env: Env, session: Session) {
    forall kind :: kind in session.syncs ==> Ended(env, session.account, session.syncs[kind])
  }

  predicate AllBegun(session: Session) {
    forall kind :: kind in session.kinds && kind in SYNC_TYPES ==> kind in session.syncs
  }

  /** The result has an error for a type: it is not supported, or its call returned one. */
  predicate Errored(session: Session, kind: string) {
    && kind in session.kinds
    && (kind !in SYNC_TYPES || (kind in session.syncs && Failing(session.account, session.syncs[kind])))
  }

  // ---------------------------------------------------------------- the machine

  const LOOP: int := -1

  /** Why a job was confirmed: the table when its pass began, and the pass. */
  datatype Evidence = Evidence(before: Table, session: Session)

  datatype World = World(
    server: A.Server, rows: Table, log: seq<Change>, sessions: map<int, Session>,
    details: map<string, ActionJob>, evidence: map<string, Evidence>)

  datatype Event =
    | Tick(seconds: nat)
    | Acquire(thread: nat, account: int, kinds: seq<string>)
    | Scanned(holder: int, kind: string, req: Request, provider: Provider, aborted: bool)
    | Commit(holder: int, kind: string)          // the next transaction of a call is committed
    | Refuse(holder: int, kind: string)          // or refused by the database
    | Release(thread: nat)
    | Create(id: string, job: ActionJob)
    | Delete(account: int)
    | Query(picks: seq<A.Picked>)
    | Next(landed: bool)
    | Finish(known: bool)                        // not known: Sync failed as a whole, or the rows could not be read
    | Conclude(landed: bool)
    | Stop
    | Crash

  function Start(env: Env, threads: nat): (w: World)
    ensures Inv(env, w)
  {
    World(A.Start(threads), map[], [], map[], map[], map[])
  }

  /** confirmActionJob after a sync without an error for the target type. */
  predicate Verdict(env: Env, w: World)
    requires w.server.loop.InFlight? && w.server.loop.job.id in w.details && LOOP in w.sessions
  {
    var job := w.details[w.server.loop.job.id];
    !Errored(w.sessions[LOOP], ActionTargetType(job)) && Confirm(w.rows, job, env.binding)
  }

  /** The step of the guard and the job rows behind an event. */
  function Base(env: Env, w: World, e: Event): Option<A.Event> {
    match e
    case Tick(seconds) => Some(A.Tick(seconds))
    case Acquire(t, a, _) => Some(A.Acquire(t, a))
    case Release(t) => Some(A.Release(t))
    case Create(id, job) => Some(A.Create(id, job.account))
    case Delete(a) => Some(A.Delete(a))
    case Query(picks) => Some(A.Query(picks))
    case Next(landed) => Some(A.Next(landed))
    case Finish(known) =>
      Some(A.Finish(known && w.server.loop.InFlight? && w.server.loop.job.id in w.details && LOOP in w.sessions
                    && Verdict(env, w)))
    case Conclude(landed) => Some(A.Conclude(landed))
    case Stop => Some(A.Stop)
    case Crash => Some(A.Crash)
    case _ => None
  }

  predicate Running(w: World, t: int, kind: string) {
    t in w.sessions && kind in w.sessions[t].syncs
  }

  predicate Enabled(env: Env, w: World, e: Event) {
    && (Base(env, w, e).Some? ==> A.Enabled(w.server, Base(env, w, e).value))
    && match e
       case Scanned(t, kind, req, _, _) =>
         && t in w.sessions && kind in w.sessions[t].kinds && kind in SYNC_TYPES && kind !in w.sessions[t].syncs
         && req.kind == kind
         && (t == LOOP ==> InRegion(w, req))
       case Commit(t, kind) => Running(w, t, kind) && !Ended(env, w.sessions[t].account, w.sessions[t].syncs[kind])
       case Refuse(t, kind) => Running(w, t, kind) && !Ended(env, w.sessions[t].account, w.sessions[t].syncs[kind])
       case Release(t) => t in w.sessions && Over(env, w.sessions[t])
       case Finish(known) => LOOP in w.sessions && Over(env, w.sessions[LOOP]) && (known ==> AllBegun(w.sessions[LOOP]))
       case _ => true
  }

  /** A job with a region is synced in that region only. */
  predicate InRegion(w: World, req: Request) {
    w.server.loop.InFlight? && w.server.loop.job.id in w.details ==> RightRegion(w.details[w.server.loop.job.id], req)
  }

  predicate RightRegion(job: ActionJob, req: Request) {
    TrimSpace(job.region) != "" ==> req.regions == [job.region]
  }

  predicate AllInRegion(job: ActionJob, session: Session) {
    forall kind :: kind in session.syncs ==> RightRegion(job, session.syncs[kind].req)
  }

  function Entered(w: World, t: int, account: int, kinds: seq<string>): map<int, Session> {
    if account in w.server.syncing then w.sessions else w.sessions[t := Session(account, kinds, map[], |w.log|)]
  }

  function WithSync(w: World, t: int, kind: string, sync: Sync): map<int, Session>
    requires t in w.sessions
  {
    w.sessions[t := w.sessions[t].(syncs := w.sessions[t].syncs[kind := sync])]
  }

  function Sessions(env: Env, w: World, e: Event): map<int, Session>
    requires Enabled(env, w, e)
  {
    match e
    case Acquire(t, a, kinds) => Entered(w, t, a, kinds)
    case Next(_) =>
      var pick := w.server.loop.queue[0];
      var kinds := if pick.id in w.details
                   then ActionSyncTypes(w.details[pick.id].resourceType, w.details[pick.id].action) else [];
      Entered(w, LOOP, pick.account, kinds)
    case Scanned(t, kind, req, provider, aborted) => WithSync(w, t, kind, Sync(req, provider, aborted, 0, false))
    case Commit(t, kind) =>
      var sync := w.sessions[t].syncs[kind];
      WithSync(w, t, kind, sync.(done := sync.done + 1))
    case Refuse(t, kind) => WithSync(w, t, kind, w.sessions[t].syncs[kind].(refused := true))
    case Release(t) => w.sessions - {t as int}
    case Finish(_) => w.sessions - {LOOP}
    case Crash => map[]
    case _ => w.sessions
  }

  function Changes(env: Env, w: World, e: Event): seq<Change>
    requires Enabled(env, w, e)
  {
    match e
    case Commit(t, kind) =>
      var sync := w.sessions[t].syncs[kind];
      [Committed(PlanOf(env, w.sessions[t].account, sync)[sync.done])]
    case Delete(a) => [Purged(a)]
    case _ => []
  }

  function Step(env: Env, w: World, e: Event): World
    requires A.Inv(w.server) && Enabled(env, w, e)
  {
    var changes := Changes(env, w, e);
    World(
      match Base(env, w, e) case Some(b) => A.Step(w.server, b) case None => w.server,
      if changes == [] then w.rows else After(w.rows, changes[0]),
      w.log + changes,
      Sessions(env, w, e),
      if e.Create? then w.details[e.id := e.job] else w.details,
      if e.Finish? && Base(env, w, e) == Some(A.Finish(true))
      then w.evidence[w.server.loop.job.id :=
                        Evidence(Replay(map[], Earlier(w.log, w.sessions[LOOP].since)), w.sessions[LOOP])]
      else w.evidence)
  }

  // ---------------------------------------------------------------- what the guard gives each session

  /** The transactions of a session's call that are committed. */
  function Done(env: Env, session: Session, kind: string): seq<Tx> {
    if kind in session.syncs then Applied(PlanOf(env, session.account, session.syncs[kind]), session.syncs[kind].done) else []
  }

  /** Since the session entered, nobody else has touched its account's rows of this type. */
  ghost predicate Exclusive(env: Env, log: seq<Change>, session: Session, kind: string) {
    && (kind in session.syncs ==>
          && kind in SYNC_TYPES && session.syncs[kind].req.kind == kind
          && session.syncs[kind].done <= |PlanOf(env, session.account, session.syncs[kind])|)
    && Own(Later(log, session.since), session.account, kind) == Done(env, session, kind)
  }

  ghost predicate SessionInv(env: Env, log: seq<Change>, session: Session) {
    session.since <= |log| && forall kind: string :: Exclusive(env, log, session, kind)
  }

  ghost predicate SessionsInv(env: Env, w: World) {
    && (forall t: int, a: int :: A.Holds(w.server, t, a) <==> t in w.sessions && w.sessions[t].account == a)
    && (forall t :: t in w.sessions ==> SessionInv(env, w.log, w.sessions[t]))
  }

  lemma {:induction false} PlanOwned(account: int, kind: string, results: seq<RegionResult>, normalize: Normalizer, i: nat)
    requires i < |Plan(account, kind, results, normalize)|
    ensures Plan(account, kind, results, normalize)[i].account == account
    ensures Plan(account, kind, results, normalize)[i].kind == kind
  {
    hide EntryWrites;
    var before := Plan(account, kind, results[..|results| - 1], normalize);
    if i < |before| { PlanOwned(account, kind, results[..|results| - 1], normalize, i); }
  }

  lemma TxOwned(env: Env, account: int, sync: Sync)
    requires sync.done < |PlanOf(env, account, sync)|
    ensures PlanOf(env, account, sync)[sync.done].account == account
    ensures PlanOf(env, account, sync)[sync.done].kind == sync.req.kind
  {
    hide Detailed, Plan;
    PlanOwned(account, sync.req.kind, CallOf(account, sync).listed.value, env.normalize, sync.done);
  }

  /** A change that is not one of the session's account leaves its view alone. */
  lemma ForeignChange(env: Env, log: seq<Change>, session: Session, change: Change)
    requires SessionInv(env, log, session)
    requires change.Committed? ==> change.tx.account != session.account
    ensures SessionInv(env, log + [change], session)
  {
    hide Done, PlanOf;
    forall kind: string ensures Exclusive(env, log + [change], session, kind) {
      assert Exclusive(env, log, session, kind);
      OwnMore(log, session.since, change, session.account, kind);
    }
  }

  lemma OwnCommit(env: Env, log: seq<Change>, session: Session, kind: string)
    requires SessionInv(env, log, session) && kind in session.syncs
    requires !Ended(env, session.account, session.syncs[kind])
    ensures
      var sync := session.syncs[kind];
      var tx := PlanOf(env, session.account, sync)[sync.done];
      SessionInv(env, log + [Committed(tx)], session.(syncs := session.syncs[kind := sync.(done := sync.done + 1)]))
  {
    var sync := session.syncs[kind];
    var plan := PlanOf(env, session.account, sync);
    var next := sync.(done := sync.done + 1);
    var after := session.(syncs := session.syncs[kind := next]);
    assert Exclusive(env, log, session, kind);
    SamePlan(env, session.account, sync, next);
    hide PlanOf, SYNC_TYPES;
    TxOwned(env, session.account, sync);
    forall k: string ensures Exclusive(env, log + [Committed(plan[sync.done])], after, k) {
      assert Exclusive(env, log, session, k);
      OwnMore(log, session.since, Committed(plan[sync.done]), session.account, k);
      if k == kind {
        AppliedMore(plan, sync.done);
      } else {
        assert Done(env, session, k) + [] == Done(env, session, k);
      }
    }
  }

  lemma SamePlan(env: Env, account: int, sync: Sync, other: Sync)
    requires other == sync.(done := other.done, refused := other.refused)
    ensures PlanOf(env, account, other) == PlanOf(env, account, sync)
  {
  }

  lemma AppliedMore(plan: seq<Tx>, done: nat)
    requires done < |plan|
    ensures Applied(plan, done) + [plan[done]] == Applied(plan, done + 1)
  {
  }

  // ---------------------------------------------------------------- the sessions are kept

  ghost predicate Matched(w: World) {
    forall t: int, a: int :: A.Holds(w.server, t, a) <==> t in w.sessions && w.sessions[t].account == a
  }

  lemma MatchedEntering(w: World, n: World, t: int, session: Session)
    requires Matched(w) && n.sessions == w.sessions[t := session]
    requires forall a: int :: !A.Holds(w.server, t, a)
    requires forall u: int, b: int :: A.Holds(n.server, u, b) <==> A.Holds(w.server, u, b) || (u == t && b == session.account)
    ensures Matched(n)
  {
    hide A.Holds;
  }

  lemma MatchedLeaving(w: World, n: World, t: int)
    requires Matched(w) && n.sessions == w.sessions - {t}
    requires forall u: int, b: int :: A.Holds(n.server, u, b) <==> A.Holds(w.server, u, b) && u != t
    ensures Matched(n)
  {
    hide A.Holds;
  }

  lemma MatchedStaying(w: World, n: World)
    requires Matched(w) && n.sessions.Keys == w.sessions.Keys
    requires forall t :: t in w.sessions ==> n.sessions[t].account == w.sessions[t].account
    requires forall u: int, b: int :: A.Holds(n.server, u, b) <==> A.Holds(w.server, u, b)
    ensures Matched(n)
  {
    hide A.Holds;
  }

  lemma MatchedNext(env: Env, w: World, landed: bool)
    requires A.Inv(w.server) && Matched(w) && Enabled(env, w, Next(landed))
    ensures Matched(Step(env, w, Next(landed)))
  {
    hide A.Inv, Matched, Verdict, Over, AllBegun, PlanOf, Replay, A.Leased, SYNC_TYPES, ActionSyncTypes,
      InRegion, Ended;
    var n, pick := Step(env, w, Next(landed)), w.server.loop.queue[0];
    if pick.account in w.server.syncing {
      MatchedStaying(w, n);
    } else {
      MatchedEntering(w, n, LOOP, n.sessions[LOOP]);
    }
  }

  lemma MatchedAcquire(env: Env, w: World, t: nat, account: int, kinds: seq<string>)
    requires A.Inv(w.server) && Matched(w) && Enabled(env, w, Acquire(t, account, kinds))
    ensures Matched(Step(env, w, Acquire(t, account, kinds)))
  {
    hide A.Inv, Matched, Verdict, Over, AllBegun, PlanOf, Replay, SYNC_TYPES, ActionSyncTypes, InRegion;
    var n := Step(env, w, Acquire(t, account, kinds));
    if account in w.server.syncing { MatchedStaying(w, n); } else { MatchedEntering(w, n, t, n.sessions[t]); }
  }

  lemma MatchedKept(env: Env, w: World, e: Event)
    requires A.Inv(w.server) && Matched(w) && Enabled(env, w, e)
    ensures Matched(Step(env, w, e))
  {
    hide A.Inv, Matched, A.Settled, A.Leased, Verdict, Over, AllBegun, Ended, PlanOf, Replay, After, SYNC_TYPES,
      ActionSyncTypes, InRegion;
    var n := Step(env, w, e);
    match e
    case Acquire(t, a, kinds) => MatchedAcquire(env, w, t, a, kinds);
    case Release(t) => MatchedLeaving(w, n, t);
    case Next(landed) => MatchedNext(env, w, landed);
    case Finish(_) => MatchedLeaving(w, n, LOOP);
    case Crash => NobodyHolds(n);
    case _ => MatchedStaying(w, n);
  }

  lemma NobodyHolds(w: World)
    requires w.sessions == map[] && w.server.loop.Waiting?
    requires forall t :: 0 <= t < |w.server.threads| ==> w.server.threads[t].Free?
    ensures Matched(w)
  {
  }

  lemma NewSession(env: Env, log: seq<Change>, account: int, kinds: seq<string>)
    ensures SessionInv(env, log, Session(account, kinds, map[], |log|))
  {
    hide PlanOf;
    assert log[|log|..] == [];
  }

  lemma SyncBegun(env: Env, log: seq<Change>, session: Session, kind: string, sync: Sync)
    requires SessionInv(env, log, session) && kind !in session.syncs
    requires kind in SYNC_TYPES && sync.req.kind == kind && sync.done == 0
    ensures SessionInv(env, log, session.(syncs := session.syncs[kind := sync]))
  {
    hide PlanOf, SYNC_TYPES;
    var after := session.(syncs := session.syncs[kind := sync]);
    forall k: string ensures Exclusive(env, log, after, k) { assert Exclusive(env, log, session, k); }
  }

  lemma SyncRefused(env: Env, log: seq<Change>, session: Session, kind: string)
    requires SessionInv(env, log, session) && kind in session.syncs
    ensures SessionInv(env, log, session.(syncs := session.syncs[kind := session.syncs[kind].(refused := true)]))
  {
    hide CallPlan, Detailed, SYNC_TYPES;
    var after := session.(syncs := session.syncs[kind := session.syncs[kind].(refused := true)]);
    forall k: string ensures Exclusive(env, log, after, k) { assert Exclusive(env, log, session, k); }
  }

  /** The sessions of the other threads are those of other accounts: this is what the guard is for. */
  lemma OthersElsewhere(w: World, t: int, u: int)
    requires A.Inv(w.server) && Matched(w) && t in w.sessions && u in w.sessions && t != u
    ensures w.sessions[t].account != w.sessions[u].account
  {
    hide A.JobInv, A.QueueInv, A.CurrentInv;
    assert A.Holds(w.server, t, w.sessions[t].account) && A.Holds(w.server, u, w.sessions[u].account);
  }

  lemma SessionsKept(env: Env, w: World, e: Event, u: int)
    requires A.Inv(w.server) && SessionsInv(env, w) && Enabled(env, w, e)
    requires u in Step(env, w, e).sessions
    ensures SessionInv(env, Step(env, w, e).log, Step(env, w, e).sessions[u])
  {
    hide A.Inv, A.Step, A.Enabled, SessionInv, Verdict, Over, AllBegun, PlanOf, Replay, After, A.Holds,
      SYNC_TYPES, InRegion, ActionSyncTypes, Ended;
    var n := Step(env, w, e);
    assert w.log + [] == w.log;
    match e
    case Acquire(t, a, kinds) => NewSession(env, w.log, a, kinds);
    case Next(_) =>
      if n.sessions != w.sessions {
        assert n.sessions[LOOP] == Session(n.sessions[LOOP].account, n.sessions[LOOP].kinds, map[], |w.log|);
        NewSession(env, w.log, n.sessions[LOOP].account, n.sessions[LOOP].kinds);
      }
    case Scanned(t, kind, req, provider, aborted) =>
      SyncBegun(env, w.log, w.sessions[t], kind, Sync(req, provider, aborted, 0, false));
    case Commit(t, kind) =>
      OwnCommit(env, w.log, w.sessions[t], kind);
      if u != t {
        OthersElsewhere(w, t, u);
        TxOwnedBy(env, w, t, kind);
        ForeignChange(env, w.log, w.sessions[u], Changes(env, w, e)[0]);
      }
    case Refuse(t, kind) =>
      SyncRefused(env, w.log, w.sessions[t], kind);
    case Delete(a) => ForeignChange(env, w.log, w.sessions[u], Purged(a));
    case _ =>
  }

  lemma TxOwnedBy(env: Env, w: World, t: int, kind: string)
    requires Running(w, t, kind) && !Ended(env, w.sessions[t].account, w.sessions[t].syncs[kind])
    ensures PlanOf(env, w.sessions[t].account, w.sessions[t].syncs[kind])[w.sessions[t].syncs[kind].done].account
         == w.sessions[t].account
  {
    hide PlanOf;
    TxOwned(env, w.sessions[t].account, w.sessions[t].syncs[kind]);
  }

  lemma RowsKept(env: Env, w: World, e: Event)
    requires A.Inv(w.server) && Enabled(env, w, e) && w.rows == Replay(map[], w.log)
    ensures Step(env, w, e).rows == Replay(map[], Step(env, w, e).log)
  {
    hide A.Inv, A.Step, A.Enabled, Verdict, PlanOf, Replay, After, Sessions, SYNC_TYPES, ActionSyncTypes,
      InRegion, Over, AllBegun, Ended;
    var changes := Changes(env, w, e);
    if changes == [] {
      assert w.log + changes == w.log;
    } else {
      assert changes == [changes[0]];
      ReplayMore(map[], w.log, changes[0]);
    }
  }

  // ---------------------------------------------------------------- the verdict of a pass

  /** What the confirmation of a job means: its target type's call ran to its end without an error, every region answered
      in full, and the answers show what the action asks for. */
  ghost predicate Met(env: Env, job: ActionJob, before: Table, sync: Sync) {
    && sync.req.kind == ActionTargetType(job) && sync.req.regions != [] && !sync.aborted && !sync.refused
    && AllAnswered(sync.req, sync.provider)
    && Achieved(before, job, sync.req, sync.provider, env.normalize, env.binding)
  }

  /** The target type's call of the job's own pass has committed exactly its own transactions since the pass began, and
      nothing else has changed the rows of that account and type: JobConfirmed on those rows is the verdict. */
  lemma VerdictIsJobConfirmed(env: Env, w: World, before: Table)
    requires SessionsInv(env, w) && w.rows == Replay(map[], w.log)
    requires w.server.loop.InFlight? && w.server.loop.job.id in w.details && LOOP in w.sessions
    requires
      var job, session := w.details[w.server.loop.job.id], w.sessions[LOOP];
      var target := ActionTargetType(job);
      && session.account == job.account && Purged(job.account) !in Later(w.log, session.since)
      && before == Replay(map[], Earlier(w.log, session.since))
      && Over(env, session) && target in session.kinds && target in session.syncs
    ensures
      var job, session := w.details[w.server.loop.job.id], w.sessions[LOOP];
      var target := ActionTargetType(job);
      var sync := session.syncs[target];
      var trace := Own(Later(w.log, session.since), job.account, target);
      && sync.req.kind == target
      && Projection(trace, job.account, target) == Applied(PlanOf(env, job.account, sync), sync.done)
      && (Verdict(env, w) <==>
            !sync.refused
            && JobConfirmed(ApplyAll(before, trace), job, CallOf(job.account, sync), env.normalize, sync.done, env.binding))
  {
    hide ApplyAll, Replay, Own, Projection, CallOf, Apply, Confirm, SameFor;
    var job, session := w.details[w.server.loop.job.id], w.sessions[LOOP];
    var target := ActionTargetType(job);
    var sync := session.syncs[target];
    var later := Later(w.log, session.since);
    var trace := Own(later, job.account, target);
    assert SessionInv(env, w.log, session);
    assert Exclusive(env, w.log, session, target);
    OwnIsProjected(later, job.account, target);
    ReplaySplit(map[], w.log, session.since);
    OwnDecides(before, later, job.account, target);
    ConfirmSame(w.rows, ApplyAll(before, trace), job, env.binding);
    assert Ended(env, session.account, sync);
  }

  lemma NoPathsNoAnswer(account: int, sync: Sync)
    requires sync.req.paths == []
    ensures Failing(account, sync)
    ensures sync.req.regions != [] ==> !AllAnswered(sync.req, sync.provider)
  {
    hide Merge, Sequential;
    if sync.req.regions != [] { assert !RegionAnswered(sync.req, sync.provider, 0, 0); }
  }

  /** The verdict on a job, in a state that the guard keeps: it is confirmed if and only if its own pass shows what its
      action asks for. */
  lemma VerdictExactly(env: Env, w: World, before: Table)
    requires SessionsInv(env, w) && w.rows == Replay(map[], w.log)
    requires w.server.loop.InFlight? && w.server.loop.job.id in w.details && LOOP in w.sessions
    requires
      var job, session := w.details[w.server.loop.job.id], w.sessions[LOOP];
      && session.account == job.account && session.kinds == ActionSyncTypes(job.resourceType, job.action)
      && Purged(job.account) !in Later(w.log, session.since)
      && before == Replay(map[], Earlier(w.log, session.since))
      && Over(env, session) && AllBegun(session)
    ensures
      var job, session := w.details[w.server.loop.job.id], w.sessions[LOOP];
      var target := ActionTargetType(job);
      && (target !in SYNC_TYPES ==> !Verdict(env, w))
      && (target in SYNC_TYPES ==>
            && target in session.syncs && session.syncs[target].req.kind == target
            && (KeySafe(session.syncs[target].req.regions) ==>
                  (Verdict(env, w) <==> Met(env, job, before, session.syncs[target]))))
  {
    var job, session := w.details[w.server.loop.job.id], w.sessions[LOOP];
    var target := ActionTargetType(job);
    TargetIsSynced(job);
    hide ActionSyncTypes, ActionTargetType, SYNC_TYPES, SessionsInv, Replay, Over, Own, KeySafe, AllAnswered, Achieved, ApplyAll, Detailed;
    if target in SYNC_TYPES {
      VerdictIsJobConfirmed(env, w, before);
      var sync := session.syncs[target];
      if KeySafe(sync.req.regions) {
        if sync.req.paths == [] {
          NoPathsNoAnswer(job.account, sync);
        } else {
          PassIsConfirmed(before, Own(Later(w.log, session.since), job.account, target), job, sync.req, sync.provider,
                          sync.aborted, env.normalize, sync.done, env.binding);
          assert sync.refused || sync.done >= |PlanOf(env, job.account, sync)| by { OverMeans(env, session, target); }
        }
      }
    }
  }

  lemma OverMeans(env: Env, session: Session, kind: string)
    requires Over(env, session) && kind in session.syncs
    ensures Ended(env, session.account, session.syncs[kind])
  {
  }

  // ---------------------------------------------------------------- what every run keeps

  /** The picked jobs the loop still holds, the current one first. */
  function LoopPicks(loop: A.Loop): seq<A.Picked> {
    match loop
    case Waiting => []
    case Between(queue) => queue
    case InFlight(job, queue) => [job] + queue
    case Deciding(job, _, queue) => [job] + queue
  }

  predicate PickKnown(w: World, pick: A.Picked) {
    pick.id in w.details && w.details[pick.id].account == pick.account
  }

  /** Every job row has its details, and what the loop holds agrees with them. */
  ghost predicate DetailsInv(w: World) {
    && w.details.Keys == w.server.past.Keys
    && (forall id :: id in w.server.jobs ==> id in w.details && w.server.jobs[id].account == w.details[id].account)
    && (forall pick :: pick in LoopPicks(w.server.loop) ==> PickKnown(w, pick))
  }

  /** The pass in flight syncs the types of its job, and its account is not deleted while the job exists. */
  ghost predicate PassInv(w: World) {
    w.server.loop.InFlight? ==>
      var pick := w.server.loop.job;
      && pick.id in w.details && LOOP in w.sessions && w.sessions[LOOP].account == pick.account
      && w.sessions[LOOP].kinds == ActionSyncTypes(w.details[pick.id].resourceType, w.details[pick.id].action)
      && AllInRegion(w.details[pick.id], w.sessions[LOOP])
      && (pick.id in w.server.jobs ==> Purged(pick.account) !in Later(w.log, w.sessions[LOOP].since))
  }

  /** The evidence justifies the confirmation of a job. */
  ghost predicate Justified(env: Env, log: seq<Change>, job: ActionJob, e: Evidence) {
    var target := ActionTargetType(job);
    && e.session.since <= |log| && e.before == Replay(map[], Earlier(log, e.session.since))
    && target in SYNC_TYPES && target in e.session.syncs
    && (Unconfused(job, e.session.syncs[target]) ==> Met(env, job, e.before, e.session.syncs[target]))
  }

  /** The job names its region, or the scanned region ids cannot be confused. */
  ghost predicate Unconfused(job: ActionJob, sync: Sync) {
    !Spaces(job.region) || KeySafe(sync.req.regions)
  }

  lemma NamedRegionIsSafe(job: ActionJob, session: Session, kind: string)
    requires AllInRegion(job, session) && kind in session.syncs && Unconfused(job, session.syncs[kind])
    ensures KeySafe(session.syncs[kind].req.regions)
  {
    TrimBlank(job.region);
    hide TrimSpace;
    assert RightRegion(job, session.syncs[kind].req);
  }

  ghost predicate EvidenceInv(env: Env, w: World) {
    && w.evidence.Keys <= w.details.Keys
    && (forall id :: id in w.evidence && id in w.server.jobs ==>
          id in w.details && Justified(env, w.log, w.details[id], w.evidence[id]))
    && (forall id :: id in w.server.jobs && w.server.jobs[id].status == A.Completed ==> id in w.evidence)
    && (w.server.loop.Deciding? && w.server.loop.confirmed && w.server.loop.job.id in w.server.jobs ==>
          w.server.loop.job.id in w.evidence)
  }

  ghost predicate Inv(env: Env, w: World) {
    && A.Inv(w.server) && SessionsInv(env, w) && w.rows == Replay(map[], w.log)
    && DetailsInv(w) && PassInv(w) && EvidenceInv(env, w)
  }

  /** What a step does to the job rows. */
  lemma JobsStep(s: A.Server, b: A.Event, id: string)
    requires A.Inv(s) && A.Enabled(s, b) && id in A.Step(s, b).jobs
    ensures
      var n := A.Step(s, b);
      && (id in s.jobs ==> n.jobs[id].account == s.jobs[id].account)
      && (id !in s.jobs ==> b.Create? && b.id == id && n.jobs[id].account == b.account && n.jobs[id].status == A.Pending)
      && (n.jobs[id].status == A.Completed && !(id in s.jobs && s.jobs[id].status == A.Completed) ==>
            b.Conclude? && s.loop.Deciding? && s.loop.job.id == id && s.loop.confirmed)
  {
    assert s.jobs.Keys <= s.past.Keys;
    hide A.Inv;
  }

  lemma PastStep(s: A.Server, b: A.Event)
    requires A.Inv(s) && A.Enabled(s, b)
    ensures A.Step(s, b).past.Keys == s.past.Keys + if b.Create? then {b.id} else {}
  {
    if b.Next? { assert s.loop.queue[0].id in s.past; }
  }

  /** What a step does to the loop: no pick appears but by a query, and only `Next` begins a pass. */
  lemma LoopStep(s: A.Server, b: A.Event)
    requires A.Inv(s) && A.Enabled(s, b)
    ensures
      var n := A.Step(s, b);
      && (forall pick :: pick in LoopPicks(n.loop) ==>
            pick in LoopPicks(s.loop) || (pick.id in s.jobs && s.jobs[pick.id].account == pick.account))
      && (n.loop.InFlight? ==>
            || (s.loop.InFlight? && n.loop.job == s.loop.job && !b.Next? && !b.Finish? && !b.Crash?)
            || (b.Next? && n.loop.job == s.loop.queue[0] && s.loop.queue[0].account !in s.syncing))
      && (n.loop.Deciding? ==>
            || (s.loop.Deciding? && n.loop.job == s.loop.job && n.loop.confirmed == s.loop.confirmed)
            || (b.Finish? && n.loop.job == s.loop.job && n.loop.confirmed == b.confirmed))
  {
    hide A.Inv, A.Settled, A.Leased;
  }

  /** The parts of a step. */
  lemma StepParts(env: Env, w: World, e: Event)
    requires A.Inv(w.server) && Enabled(env, w, e)
    ensures
      var n, b := Step(env, w, e), Base(env, w, e);
      && n.log == w.log + Changes(env, w, e) && n.sessions == Sessions(env, w, e)
      && (b.None? ==> n.server == w.server && n.details == w.details && n.evidence == w.evidence)
      && (b.Some? ==> A.Enabled(w.server, b.value) && n.server == A.Step(w.server, b.value))
      && (e.Create? ==> b == Some(A.Create(e.id, e.job.account)) && n.details == w.details[e.id := e.job])
      && (!e.Create? ==> n.details == w.details && (b.Some? ==> !b.value.Create?))
      && (e.Finish? <==> b.Some? && b.value.Finish?) && (e.Next? <==> b.Some? && b.value.Next?)
      && (!e.Finish? || b == Some(A.Finish(false)) ==> n.evidence == w.evidence)
  {
    hide A.Inv, A.Step, A.Enabled, Verdict, Over, AllBegun, Ended, PlanOf, Replay, After, Sessions, Changes, InRegion,
      SYNC_TYPES, ActionSyncTypes;
  }

  lemma JobDetailsKept(env: Env, w: World, e: Event, id: string)
    requires A.Inv(w.server) && DetailsInv(w) && Enabled(env, w, e) && id in Step(env, w, e).server.jobs
    ensures var n := Step(env, w, e); id in n.details && n.server.jobs[id].account == n.details[id].account
  {
    StepParts(env, w, e);
    CreatedIsNew(env, w, e);
    hide Step, Enabled, Base, A.Inv, A.Step, A.Enabled;
    if Base(env, w, e).Some? { JobsStep(w.server, Base(env, w, e).value, id); }
  }

  lemma PicksKept(env: Env, w: World, e: Event)
    requires A.Inv(w.server) && DetailsInv(w) && Enabled(env, w, e)
    ensures var n := Step(env, w, e); forall pick :: pick in LoopPicks(n.server.loop) ==> PickKnown(n, pick)
  {
    StepParts(env, w, e);
    CreatedIsNew(env, w, e);
    hide Step, Enabled, Base, A.Inv, A.Step, A.Enabled;
    if Base(env, w, e).Some? { LoopStep(w.server, Base(env, w, e).value); }
  }

  lemma DetailsKept(env: Env, w: World, e: Event)
    requires A.Inv(w.server) && DetailsInv(w) && Enabled(env, w, e)
    ensures DetailsInv(Step(env, w, e))
  {
    StepParts(env, w, e);
    PicksKept(env, w, e);
    hide Step, Enabled, Base, A.Inv, A.Step, A.Enabled, LoopPicks, PickKnown;
    if Base(env, w, e).Some? { PastStep(w.server, Base(env, w, e).value); }
    forall id | id in Step(env, w, e).server.jobs
      ensures var n := Step(env, w, e); id in n.details && n.server.jobs[id].account == n.details[id].account
    {
      JobDetailsKept(env, w, e, id);
    }
  }

  lemma CreatedIsNew(env: Env, w: World, e: Event)
    requires A.Inv(w.server) && DetailsInv(w) && Enabled(env, w, e)
    ensures e.Create? ==> e.id !in w.details
  {
    hide A.Inv, Verdict, PlanOf, InRegion, SYNC_TYPES;
  }

  /** While a pass is in flight its session keeps its account, its types and its beginning. */
  lemma LoopSessionStays(env: Env, w: World, e: Event)
    requires Enabled(env, w, e) && LOOP in w.sessions && !e.Next? && !e.Finish? && !e.Crash?
    ensures
      var after := Sessions(env, w, e);
      LOOP in after && after[LOOP].(syncs := map[]) == w.sessions[LOOP].(syncs := map[])
    ensures w.server.loop.InFlight? && w.server.loop.job.id in w.details ==>
      var job := w.details[w.server.loop.job.id];
      AllInRegion(job, w.sessions[LOOP]) ==> AllInRegion(job, Sessions(env, w, e)[LOOP])
  {
    hide Verdict, Over, AllBegun, PlanOf, RightRegion, SYNC_TYPES, A.Enabled;
  }

  lemma NewLoopSession(env: Env, w: World, landed: bool)
    requires Enabled(env, w, Next(landed)) && w.server.loop.Between? && w.server.loop.queue != []
    requires w.server.loop.queue[0].account !in w.server.syncing && w.server.loop.queue[0].id in w.details
    ensures
      var pick := w.server.loop.queue[0];
      var kinds := ActionSyncTypes(w.details[pick.id].resourceType, w.details[pick.id].action);
      && LOOP in Sessions(env, w, Next(landed))
      && Sessions(env, w, Next(landed))[LOOP] == Session(pick.account, kinds, map[], |w.log|)
  {
    hide ActionSyncTypes, A.Enabled;
  }

  lemma NextHasQueue(env: Env, w: World, e: Event)
    requires Enabled(env, w, e) && e.Next?
    ensures w.server.loop.Between? && w.server.loop.queue != []
  {
    hide Verdict, PlanOf, InRegion, SYNC_TYPES;
  }

  /** An account is deleted together with its jobs. */
  lemma DeletedWithJobs(s: A.Server, account: int, id: string)
    requires A.Inv(s) && id in s.jobs && id in A.Step(s, A.Delete(account)).jobs
    ensures s.jobs[id].account != account
  {
    hide A.Inv;
  }

  lemma PurgeIsDelete(env: Env, w: World, e: Event, account: int)
    requires Enabled(env, w, e)
    ensures Purged(account) in Changes(env, w, e) ==> e == Delete(account) && Base(env, w, e) == Some(A.Delete(account))
  {
    hide Verdict, Over, AllBegun, PlanOf, InRegion, SYNC_TYPES, A.Enabled;
  }

  lemma LaterStays(env: Env, w: World, e: Event, id: string, account: int, since: nat)
    requires A.Inv(w.server) && DetailsInv(w) && Enabled(env, w, e) && since <= |w.log|
    requires id in w.details && w.details[id].account == account && Purged(account) !in Later(w.log, since)
    requires id in w.server.jobs && id in Step(env, w, e).server.jobs
    ensures Purged(account) !in Later(w.log + Changes(env, w, e), since)
  {
    StepParts(env, w, e);
    PurgeIsDelete(env, w, e, account);
    hide A.Inv, A.Step, A.Enabled, Step, Enabled, Base, Changes;
    if Purged(account) in Changes(env, w, e) { DeletedWithJobs(w.server, account, id); }
    assert Later(w.log + Changes(env, w, e), since) == Later(w.log, since) + Changes(env, w, e);
  }

  lemma PassKept(env: Env, w: World, e: Event)
    requires Inv(env, w) && Enabled(env, w, e)
    ensures PassInv(Step(env, w, e))
  {
    StepParts(env, w, e);
    hide Step, Enabled, Base, A.Inv, A.Step, A.Enabled, Sessions, Changes, ActionSyncTypes, EvidenceInv, Replay;
    var n, b := Step(env, w, e), Base(env, w, e);
    if n.server.loop.InFlight? {
      var pick := n.server.loop.job;
      if b.Some? { LoopStep(w.server, b.value); }
      CreatedIsNew(env, w, e);
      if e.Next? {
        NextHasQueue(env, w, e);
        if !w.server.loop.InFlight? {
          assert pick in LoopPicks(w.server.loop);
          NewLoopSession(env, w, e.landed);
          assert Later(n.log, |w.log|) == [];
        }
      } else {
        PassStays(env, w, e);
      }
    }
  }

  lemma PassStays(env: Env, w: World, e: Event)
    requires Inv(env, w) && Enabled(env, w, e) && !e.Next? && w.server.loop.InFlight?
    requires Step(env, w, e).server.loop.InFlight? && Step(env, w, e).server.loop.job == w.server.loop.job
    ensures PassInv(Step(env, w, e))
  {
    StepParts(env, w, e);
    hide Step, Enabled, Base, A.Inv, A.Step, A.Enabled, Sessions, Changes, ActionSyncTypes, EvidenceInv, Replay;
    var n, b := Step(env, w, e), Base(env, w, e);
    var pick := w.server.loop.job;
    assert pick in LoopPicks(w.server.loop);
    NotOver(env, w, e);
    LoopSessionStays(env, w, e);
    CreatedIsNew(env, w, e);
    if pick.id in n.server.jobs {
      if b.Some? { JobsStep(w.server, b.value, pick.id); }
      assert SessionInv(env, w.log, w.sessions[LOOP]);
      LaterStays(env, w, e, pick.id, pick.account, w.sessions[LOOP].since);
    }
  }

  lemma NotOver(env: Env, w: World, e: Event)
    requires A.Inv(w.server) && Enabled(env, w, e) && Step(env, w, e).server.loop.InFlight? && !e.Next?
    ensures !e.Finish? && !e.Crash?
  {
    StepParts(env, w, e);
    hide Step, A.Inv, A.Step, A.Enabled, Verdict, Over, AllBegun, PlanOf, InRegion, SYNC_TYPES;
    if Base(env, w, e).Some? { LoopStep(w.server, Base(env, w, e).value); }
  }

  // ---------------------------------------------------------------- the evidence is kept

  lemma EarlierStays(log: seq<Change>, more: seq<Change>, since: nat)
    requires since <= |log|
    ensures Earlier(log + more, since) == Earlier(log, since)
  {
  }

  lemma JustifiedStays(env: Env, log: seq<Change>, more: seq<Change>, job: ActionJob, e: Evidence)
    requires Justified(env, log, job, e)
    ensures Justified(env, log + more, job, e)
  {
    hide Met, SYNC_TYPES, Replay, Earlier, KeySafe;
    EarlierStays(log, more, e.session.since);
  }

  /** A pass that ends in a confirmation leaves the evidence for it. */
  lemma FinishJustified(env: Env, w: World)
    requires Inv(env, w) && Enabled(env, w, Finish(true)) && w.server.loop.InFlight?
    requires w.server.loop.job.id in w.details && LOOP in w.sessions && Verdict(env, w)
    requires w.server.loop.job.id in w.server.jobs
    ensures
      var session := w.sessions[LOOP];
      Justified(env, w.log, w.details[w.server.loop.job.id], Evidence(Replay(map[], Earlier(w.log, session.since)), session))
  {
    hide A.Inv, A.Enabled, Replay, EvidenceInv, ActionSyncTypes, SYNC_TYPES, Verdict, Met, KeySafe, Over, AllBegun,
      InRegion, PlanOf, AllInRegion, Unconfused, ActionTargetType;
    var pick, session := w.server.loop.job, w.sessions[LOOP];
    var job := w.details[pick.id];
    assert pick in LoopPicks(w.server.loop);
    assert SessionInv(env, w.log, session);
    VerdictExactly(env, w, Replay(map[], Earlier(w.log, session.since)));
    var target := ActionTargetType(job);
    if target in session.syncs && Unconfused(job, session.syncs[target]) { NamedRegionIsSafe(job, session, target); }
  }

  lemma FinishedBy(env: Env, w: World, e: Event)
    requires A.Inv(w.server) && Enabled(env, w, e) && e.Finish? && Base(env, w, e) == Some(A.Finish(true))
    ensures e == Finish(true) && w.server.loop.InFlight? && w.server.loop.job.id in w.details && LOOP in w.sessions
    ensures Verdict(env, w)
    ensures Step(env, w, e).evidence
         == w.evidence[w.server.loop.job.id := Evidence(Replay(map[], Earlier(w.log, w.sessions[LOOP].since)), w.sessions[LOOP])]
  {
    hide A.Inv, A.Step, A.Enabled, Verdict, Over, AllBegun, PlanOf, InRegion, SYNC_TYPES, Replay, After, Sessions;
  }

  /** One entry of the evidence after a step. */
  lemma EntryKept(env: Env, w: World, e: Event, id: string)
    requires Inv(env, w) && Enabled(env, w, e)
    requires id in Step(env, w, e).evidence && id in Step(env, w, e).server.jobs
    ensures var n := Step(env, w, e); id in n.details && Justified(env, n.log, n.details[id], n.evidence[id])
  {
    StepParts(env, w, e);
    CreatedIsNew(env, w, e);
    var n, b := Step(env, w, e), Base(env, w, e);
    var finished := e.Finish? && b == Some(A.Finish(true));
    if finished { FinishedBy(env, w, e); }
    hide Step, Enabled, Base, A.Inv, A.Step, A.Enabled, Sessions, Changes, Justified, Replay, SessionsInv, PassInv, Verdict;
    if b.Some? { JobsStep(w.server, b.value, id); }
    assert id in w.server.jobs && id in w.details;
    if finished && id == w.server.loop.job.id { FinishJustified(env, w); }
    JustifiedStays(env, w.log, Changes(env, w, e), w.details[id], n.evidence[id]);
  }

  /** A completed job was confirmed by a pass that has left its evidence. */
  lemma CompletedKept(env: Env, w: World, e: Event, id: string)
    requires Inv(env, w) && Enabled(env, w, e) && id in Step(env, w, e).server.jobs
    requires Step(env, w, e).server.jobs[id].status == A.Completed
    ensures id in Step(env, w, e).evidence
  {
    EvidenceGrows(env, w, e);
    StepParts(env, w, e);
    hide Step, Enabled, Base, A.Inv, A.Step, A.Enabled, SessionsInv, PassInv, DetailsInv, Replay, Justified;
    if Base(env, w, e).Some? { JobsStep(w.server, Base(env, w, e).value, id); }
  }

  lemma DecidingKept(env: Env, w: World, e: Event, id: string)
    requires Inv(env, w) && Enabled(env, w, e) && id in Step(env, w, e).server.jobs
    requires
      var loop := Step(env, w, e).server.loop;
      loop.Deciding? && loop.confirmed && loop.job.id == id
    ensures id in Step(env, w, e).evidence
  {
    EvidenceGrows(env, w, e);
    StepParts(env, w, e);
    if e.Finish? && Base(env, w, e) == Some(A.Finish(true)) { FinishedBy(env, w, e); }
    hide Step, Enabled, Base, A.Inv, A.Step, A.Enabled, SessionsInv, PassInv, DetailsInv, Replay, Justified, Verdict;
    var b := Base(env, w, e);
    if b.Some? {
      LoopStep(w.server, b.value);
      JobsStep(w.server, b.value, id);
      if e.Create? && id == e.id { DecidedIsOld(env, w, e, id); }
    }
  }

  lemma DecidedIsOld(env: Env, w: World, e: Event, id: string)
    requires Inv(env, w) && Enabled(env, w, e) && e.Create? && id == e.id
    ensures w.server.loop.Deciding? ==> w.server.loop.job.id != id
  {
    CreatedIsNew(env, w, e);
    hide Step, Enabled, Base, A.Inv, A.Step, A.Enabled, SessionsInv, PassInv, EvidenceInv, Replay;
    if w.server.loop.Deciding? { assert w.server.loop.job in LoopPicks(w.server.loop); }
  }

  lemma EvidenceGrows(env: Env, w: World, e: Event)
    requires A.Inv(w.server) && Enabled(env, w, e)
    ensures w.evidence.Keys <= Step(env, w, e).evidence.Keys
  {
    hide A.Inv, A.Step, A.Enabled, Verdict, Over, AllBegun, PlanOf, InRegion, SYNC_TYPES, Replay, After, Sessions, Changes;
  }

  lemma EvidenceKeys(env: Env, w: World, e: Event)
    requires Inv(env, w) && Enabled(env, w, e)
    ensures Step(env, w, e).evidence.Keys <= Step(env, w, e).details.Keys
  {
    StepParts(env, w, e);
    var b := Base(env, w, e);
    if e.Finish? && b == Some(A.Finish(true)) { FinishedBy(env, w, e); }
    hide Step, Enabled, Base, A.Inv, A.Step, A.Enabled, Sessions, Changes, Justified, Replay, SessionsInv, PassInv, Verdict;
  }

  /** The three clauses, one job at a time. */
  lemma EvidenceOf(env: Env, w: World, e: Event, id: string)
    requires Inv(env, w) && Enabled(env, w, e) && id in Step(env, w, e).server.jobs
    ensures
      var n := Step(env, w, e);
      && (id in n.evidence ==> id in n.details && Justified(env, n.log, n.details[id], n.evidence[id]))
      && (n.server.jobs[id].status == A.Completed ==> id in n.evidence)
      && (n.server.loop.Deciding? && n.server.loop.confirmed && n.server.loop.job.id == id ==> id in n.evidence)
  {
    assert A.Inv(w.server);
    hide Step, Enabled, Base, Inv, Justified;
    var n := Step(env, w, e);
    if id in n.evidence { EntryKept(env, w, e, id); }
    if n.server.jobs[id].status == A.Completed { CompletedKept(env, w, e, id); }
    if n.server.loop.Deciding? && n.server.loop.confirmed && n.server.loop.job.id == id { DecidingKept(env, w, e, id); }
  }

  lemma EvidenceKept(env: Env, w: World, e: Event)
    requires Inv(env, w) && Enabled(env, w, e)
    ensures EvidenceInv(env, Step(env, w, e))
  {
    assert A.Inv(w.server);
    hide Step, Enabled, Base, Inv, Justified;
    EvidenceKeys(env, w, e);
    var n := Step(env, w, e);
    forall id | id in n.server.jobs
      ensures id in n.evidence ==> id in n.details && Justified(env, n.log, n.details[id], n.evidence[id])
      ensures n.server.jobs[id].status == A.Completed ==> id in n.evidence
      ensures n.server.loop.Deciding? && n.server.loop.confirmed && n.server.loop.job.id == id ==> id in n.evidence
    {
      EvidenceOf(env, w, e, id);
    }
  }

  // ---------------------------------------------------------------- the theorems

  lemma StepKeepsInv(env: Env, w: World, e: Event)
    requires Inv(env, w) && Enabled(env, w, e)
    ensures Inv(env, Step(env, w, e))
  {
    StepParts(env, w, e);
    if Base(env, w, e).Some? { A.StepKeepsInv(w.server, Base(env, w, e).value); }
    RowsKept(env, w, e);
    MatchedKept(env, w, e);
    DetailsKept(env, w, e);
    PassKept(env, w, e);
    EvidenceKept(env, w, e);
    hide Step, Enabled, Base, A.Inv, A.Step, A.Enabled, DetailsInv, PassInv, EvidenceInv, Replay, SessionInv;
    var n := Step(env, w, e);
    forall u | u in n.sessions ensures SessionInv(env, n.log, n.sessions[u]) { SessionsKept(env, w, e, u); }
  }

  function Run(env: Env, w: World, events: seq<Event>): Option<World>
    requires Inv(env, w)
    decreases |events|
  {
    if events == [] then Some(w)
    else if !Enabled(env, w, events[0]) then None
    else
      StepKeepsInv(env, w, events[0]);
      Run(env, Step(env, w, events[0]), events[1..])
  }

  lemma {:induction false} RunKeepsInv(env: Env, w: World, events: seq<Event>)
    requires Inv(env, w)
    ensures Run(env, w, events).Some? ==> Inv(env, Run(env, w, events).value)
    decreases |events|
  {
    assert A.Inv(w.server);
    hide Inv, Step, Enabled;
    if events != [] && Enabled(env, w, events[0]) {
      StepKeepsInv(env, w, events[0]);
      RunKeepsInv(env, Step(env, w, events[0]), events[1..]);
    }
  }

  /** In every run, whatever other threads sync meanwhile and whichever accounts are deleted: since a thread entered an
      account, the committed transactions on that account are exactly its own, type by type. */
  lemma GuardIsExclusive(env: Env, threads: nat, events: seq<Event>, t: int, kind: string)
    requires Run(env, Start(env, threads), events).Some?
    requires t in Run(env, Start(env, threads), events).value.sessions
    ensures
      var w := Run(env, Start(env, threads), events).value;
      var session := w.sessions[t];
      session.since <= |w.log| && Own(w.log[session.since..], session.account, kind) == Done(env, session, kind)
  {
    RunKeepsInv(env, Start(env, threads), events);
    hide Run, Start, A.Inv, DetailsInv, PassInv, EvidenceInv, Own, Done, Replay;
    var w := Run(env, Start(env, threads), events).value;
    assert SessionInv(env, w.log, w.sessions[t]) && Exclusive(env, w.log, w.sessions[t], kind);
  }

  /** In every run, the pass of a job that still exists is about to be confirmed if and only if its target type's scan ran
      to its end over regions that all answered in full, and the answers show what the action asks for: for a deletion
      that none of the pages held the id and no row with the id stood outside the regions when the pass began, for a
      change of state that the item last reported under the id has a status or binding that fits, and for a job without
      an id that an awaited row was reported. */
  lemma FinishVerdict(env: Env, threads: nat, events: seq<Event>)
    requires Run(env, Start(env, threads), events).Some?
    requires
      var w := Run(env, Start(env, threads), events).value;
      && w.server.loop.InFlight? && Enabled(env, w, Finish(true)) && w.server.loop.job.id in w.server.jobs
    ensures
      var w := Run(env, Start(env, threads), events).value;
      && w.server.loop.job.id in w.details && LOOP in w.sessions
      && var job, session := w.details[w.server.loop.job.id], w.sessions[LOOP];
         var target := ActionTargetType(job);
         && session.since <= |w.log|
         && (target !in SYNC_TYPES ==> !Verdict(env, w))
         && (target in SYNC_TYPES ==>
               && target in session.syncs
               && (Unconfused(job, session.syncs[target]) ==>
                     (Verdict(env, w) <==> Met(env, job, Replay(map[], w.log[..session.since]), session.syncs[target]))))
  {
    RunKeepsInv(env, Start(env, threads), events);
    hide Run, Start, A.Inv, A.Enabled, EvidenceInv, Replay, Verdict, Met, KeySafe, SYNC_TYPES, Over, AllBegun,
      InRegion, ActionSyncTypes, AllInRegion, Unconfused, ActionTargetType;
    var w := Run(env, Start(env, threads), events).value;
    assert w.server.loop.job in LoopPicks(w.server.loop);
    assert SessionInv(env, w.log, w.sessions[LOOP]);
    var job := w.details[w.server.loop.job.id];
    VerdictExactly(env, w, Replay(map[], Earlier(w.log, w.sessions[LOOP].since)));
    var target := ActionTargetType(job);
    if target in w.sessions[LOOP].syncs && Unconfused(job, w.sessions[LOOP].syncs[target]) {
      NamedRegionIsSafe(job, w.sessions[LOOP], target);
    }
  }

  /** In every run, a job is completed only after a pass of its own in which every scanned region of its target type
      answered in full and the answers showed what its action asks for; `evidence` is that pass. For a deletion: none of
      the listings held the id. */
  lemma CompletedMeansMet(env: Env, threads: nat, events: seq<Event>, id: string)
    requires Run(env, Start(env, threads), events).Some?
    requires id in Run(env, Start(env, threads), events).value.server.jobs
    requires Run(env, Start(env, threads), events).value.server.jobs[id].status == A.Completed
    ensures
      var w := Run(env, Start(env, threads), events).value;
      && id in w.details && id in w.evidence
      && var job, session := w.details[id], w.evidence[id].session;
         var target := ActionTargetType(job);
         && session.since <= |w.log| && target in SYNC_TYPES && target in session.syncs
         && (Unconfused(job, session.syncs[target]) ==>
               Met(env, job, Replay(map[], w.log[..session.since]), session.syncs[target]))
  {
    RunKeepsInv(env, Start(env, threads), events);
    hide Run, Start, A.Inv, SessionsInv, PassInv, DetailsInv, Replay, Met, KeySafe, SYNC_TYPES;
    var w := Run(env, Start(env, threads), events).value;
    assert Justified(env, w.log, w.details[id], w.evidence[id]);
  }
}
