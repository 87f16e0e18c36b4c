/** The action-job loop and the account guard it shares with HTTP syncs and the background sync
    (internal/httpserver/background.go, internal/httpserver/server.go), as a state machine whose
    steps are the moments at which shared state is read or written. */
module ActionJobs {
  import opened Numbers
  import opened Wrappers

  // ---------------------------------------------------------------- job rows

  datatype JobStatus = Pending | Retrying | Completed | Unconfirmed

  datatype Job = Job(account: int, status: JobStatus, attempts: nat, due: int)
  {
    predicate Live() {
      status == Pending || status == Retrying
    }
  }

  const MAX_ATTEMPTS: nat := 9
  const LEASE: nat := 300
  const DELAYS: seq<nat> := [2, 5, 10, 20, 40, 80, 150, 300, 600]

  /** The index into DELAYS after an attempt. */
  function DelayIndex(attempt: nat): int {
    Min(attempt - 1, |DELAYS| - 1)
  }

  /** The lease: the row as it stands while its account is being synced. */
  function Leased(job: Job, attempt: nat, now: int): Job {
    job.(status := Retrying, attempts := attempt, due := now + LEASE)
  }

  /** The outcome of an attempt. */
  function Settled(job: Job, attempt: nat, confirmed: bool, now: int): Job
    requires attempt >= 1
  {
    if confirmed then job.(status := Completed, attempts := attempt, due := 0)
    else if attempt >= MAX_ATTEMPTS then job.(status := Unconfirmed, attempts := attempt, due := 0)
    else job.(status := Retrying, attempts := attempt, due := now + DELAYS[DelayIndex(attempt)])
  }

  /** A pass first puts the job off by 300 seconds. After attempts 1 to 8 it then waits 2, 5, 10, 20, 40, 80, 150 and 300
      seconds; the ninth closes it. The last entry of the table is out of reach. */
  lemma RetryDelay(job: Job, attempt: nat, confirmed: bool, now: int)
    requires attempt >= 1
    ensures Leased(job, attempt, now) == Job(job.account, Retrying, attempt, now + 300)
    ensures
      Settled(job, attempt, confirmed, now)
      == if confirmed then Job(job.account, Completed, attempt, 0)
         else if attempt > 8 then Job(job.account, Unconfirmed, attempt, 0)
         else Job(job.account, Retrying, attempt, now + [2, 5, 10, 20, 40, 80, 150, 300][attempt - 1])
  {
    if attempt <= 8 { assert DELAYS[attempt - 1] == DELAYS[..8][attempt - 1]; }
  }

  // ---------------------------------------------------------------- the machine

  /** A request handler or the background sync loop: one account at a time. */
  datatype Thread = Free | Syncing(account: int)

  /** A row as DueActionJobs returned it. */
  datatype Picked = Picked(id: string, account: int, attempts: nat)

  /** Where the job loop stands. `Between` walks the picked rows; `InFlight` holds the guard and
      syncs; `Deciding` has released the guard and still has to write the outcome. */
  datatype Loop =
    | Waiting
    | Between(queue: seq<Picked>)
    | InFlight(job: Picked, queue: seq<Picked>)
    | Deciding(job: Picked, confirmed: bool, queue: seq<Picked>)

  /** What happened to a job so far: passes begun, passes whose outcome never reached the row, and
      when the row was last written. */
  datatype History = History(passes: nat, lost: nat, written: int)

  datatype Server = Server(
    syncing: set<int>, threads: seq<Thread>, loop: Loop,
    jobs: map<string, Job>, past: map<string, History>, now: int)

  datatype Event =
    | Tick(seconds: nat)
    | Acquire(thread: nat, account: int)     // a sync request or the background sync wants an account
    | Release(thread: nat)
    | Create(id: string, account: int)
    | Delete(account: int)                   // the account and its jobs are removed
    | Query(picks: seq<Picked>)              // DueActionJobs
    | Next(landed: bool)                     // the loop takes the next picked row, writing its lease
    | Finish(confirmed: bool)                // the sync is over, the guard is released
    | Conclude(landed: bool)                 // the outcome write
    | Stop                                   // the loop leaves a pass: nothing picked is left, or shutdown
    | Crash                                  // the process dies and is started again

  function Start(threads: nat): (s: Server)
    ensures Inv(s)
  {
    Server({}, seq(threads, _ => Free), Waiting, map[], map[], 0)
  }

  predicate Matches(jobs: map<string, Job>, pick: Picked, now: int) {
    && pick.id in jobs
    && jobs[pick.id].Live() && jobs[pick.id].due <= now
    && pick == Picked(pick.id, jobs[pick.id].account, jobs[pick.id].attempts)
  }

  predicate Distinct(picks: seq<Picked>) {
    forall i, j :: 0 <= i < j < |picks| ==> picks[i].id != picks[j].id
  }

  predicate Enabled(s: Server, e: Event) {
    match e
    case Tick(_) => true
    case Acquire(t, _) => t < |s.threads| && s.threads[t].Free?
    case Release(t) => t < |s.threads| && s.threads[t].Syncing?
    case Create(id, _) => id !in s.past
    case Delete(_) => true
    case Query(picks) =>
      s.loop.Waiting? && |picks| <= 50 && Distinct(picks) &&
      forall i :: 0 <= i < |picks| ==> Matches(s.jobs, picks[i], s.now)
    case Next(_) => s.loop.Between? && s.loop.queue != []
    case Finish(_) => s.loop.InFlight?
    case Conclude(_) => s.loop.Deciding?
    case Stop => s.loop.Between?
    case Crash => true
  }

  /** An update of a row that no longer exists changes nothing. */
  function Store(jobs: map<string, Job>, id: string, job: Job): map<string, Job> {
    if id in jobs then jobs[id := job] else jobs
  }

  function Begin(past: map<string, History>, id: string): map<string, History>
    requires id in past
  {
    past[id := past[id].(passes := past[id].passes + 1)]
  }

  function Lose(past: map<string, History>, id: string): map<string, History>
    requires id in past
  {
    past[id := past[id].(lost := past[id].lost + 1)]
  }

  function Touch(past: map<string, History>, id: string, now: int): map<string, History>
    requires id in past
  {
    past[id := past[id].(written := now)]
  }

  function Step(s: Server, e: Event): Server
    requires Inv(s) && Enabled(s, e)
  {
    match e
    case Tick(seconds) => s.(now := s.now + seconds)
    case Acquire(t, a) =>
      if a in s.syncing then s
      else s.(syncing := s.syncing + {a}, threads := s.threads[t := Syncing(a)])
    case Release(t) =>
      s.(syncing := s.syncing - {s.threads[t].account}, threads := s.threads[t := Free])
    case Create(id, a) =>
      s.(jobs := s.jobs[id := Job(a, Pending, 0, s.now + 2)], past := s.past[id := History(0, 0, s.now)])
    case Delete(a) =>
      s.(jobs := map id | id in s.jobs && s.jobs[id].account != a :: s.jobs[id])
    case Query(picks) => s.(loop := Between(picks))
    case Next(landed) =>
      var job, rest := s.loop.queue[0], s.loop.queue[1..];
      if job.account in s.syncing then s.(loop := Between(rest))
      else
        var begun := s.(syncing := s.syncing + {job.account}, loop := InFlight(job, rest),
                        past := Begin(s.past, job.id));
        if landed && job.id in s.jobs then
          begun.(jobs := Store(s.jobs, job.id, Leased(s.jobs[job.id], job.attempts + 1, s.now)),
                 past := Touch(begun.past, job.id, s.now))
        else begun
    case Finish(confirmed) =>
      s.(syncing := s.syncing - {s.loop.job.account}, loop := Deciding(s.loop.job, confirmed, s.loop.queue))
    case Conclude(landed) =>
      var job := s.loop.job;
      if landed && job.id in s.jobs then
        s.(jobs := Store(s.jobs, job.id, Settled(s.jobs[job.id], job.attempts + 1, s.loop.confirmed, s.now)),
           past := Touch(s.past, job.id, s.now), loop := Between(s.loop.queue))
      else
        s.(past := Lose(s.past, job.id), loop := Between(s.loop.queue))
    case Stop => s.(loop := Waiting)
    case Crash =>
      s.(syncing := {}, threads := seq(|s.threads|, _ => Free), loop := Waiting,
         past := if s.loop.InFlight? || s.loop.Deciding? then Lose(s.past, s.loop.job.id) else s.past)
  }

  function Run(s: Server, events: seq<Event>): Option<Server>
    requires Inv(s)
    decreases |events|
  {
    if events == [] then Some(s)
    else if !Enabled(s, events[0]) then None
    else
      StepKeepsInv(s, events[0]);
      Run(Step(s, events[0]), events[1..])
  }

  // ---------------------------------------------------------------- what every run keeps

  ghost predicate Holds(s: Server, t: int, account: int) {
    if t == -1 then s.loop.InFlight? && s.loop.job.account == account
    else 0 <= t < |s.threads| && s.threads[t] == Syncing(account)
  }

  /** `syncing` is exactly the accounts some thread is syncing, and no two threads share one.
      The job loop is thread -1. */
  ghost predicate GuardInv(s: Server) {
    && (forall a :: a in s.syncing <==> exists t :: Holds(s, t, a))
    && (forall t, u, a :: Holds(s, t, a) && Holds(s, u, a) ==> t == u)
  }

  predicate Current(s: Server, id: string) {
    (s.loop.InFlight? || s.loop.Deciding?) && s.loop.job.id == id
  }

  /** Passes of a job whose outcome reached its row. */
  function Outcomes(s: Server, id: string): int
    requires id in s.past
  {
    s.past[id].passes - s.past[id].lost - if Current(s, id) then 1 else 0
  }

  ghost predicate QueueInv(s: Server, queue: seq<Picked>) {
    && Distinct(queue)
    && forall i :: 0 <= i < |queue| ==>
         && queue[i].id in s.past && !Current(s, queue[i].id)
         && Outcomes(s, queue[i].id) <= MAX_ATTEMPTS - 1
         && Outcomes(s, queue[i].id) <= queue[i].attempts
         && (queue[i].id in s.jobs ==>
               s.jobs[queue[i].id].Live() && s.jobs[queue[i].id].attempts == queue[i].attempts)
  }

  ghost predicate CurrentInv(s: Server, job: Picked) {
    && job.id in s.past
    && Outcomes(s, job.id) <= MAX_ATTEMPTS - 1
    && Outcomes(s, job.id) <= job.attempts
    && (job.id in s.jobs ==>
          s.jobs[job.id].Live() && job.attempts <= s.jobs[job.id].attempts <= job.attempts + 1)
  }

  ghost predicate JobInv(s: Server, id: string)
    requires id in s.past
  {
    && 0 <= Outcomes(s, id) <= MAX_ATTEMPTS
    && s.past[id].written <= s.now
    && (id in s.jobs && s.jobs[id].Live() ==>
          && Outcomes(s, id) <= MAX_ATTEMPTS - 1
          && Outcomes(s, id) <= s.jobs[id].attempts
          && s.jobs[id].due <= s.past[id].written + LEASE)
  }

  ghost predicate Inv(s: Server) {
    && GuardInv(s)
    && s.jobs.Keys <= s.past.Keys
    && (forall id :: id in s.past ==> JobInv(s, id))
    && match s.loop
       case Waiting => true
       case Between(queue) => QueueInv(s, queue)
       case InFlight(job, queue) => CurrentInv(s, job) && QueueInv(s, queue)
       case Deciding(job, _, queue) => CurrentInv(s, job) && QueueInv(s, queue)
  }

  lemma StepKeepsInv(s: Server, e: Event)
    requires Inv(s) && Enabled(s, e)
    ensures Inv(Step(s, e))
  {
    StepKeepsGuard(s, e);
    match e
    case Next(landed) => NextKeepsJobs(s, landed);
    case Conclude(landed) => ConcludeKeepsJobs(s, landed);
    case Query(picks) => QueryKeepsJobs(s, picks);
    case Create(_, _) => RowsKeepJobs(s, e);
    case Delete(_) => RowsKeepJobs(s, e);
    case Crash => CrashKeepsJobs(s);
    case _ => OthersKeepJobs(s, e);
  }

  lemma StepKeepsGuard(s: Server, e: Event)
    requires Inv(s) && Enabled(s, e)
    ensures GuardInv(Step(s, e))
  {
    hide JobInv, QueueInv, CurrentInv, Settled, Leased;
    match e
    case Acquire(t, a) => if a !in s.syncing { Taken(s, Step(s, e), t, a); }
    case Release(t) => Returned(s, Step(s, e), t, s.threads[t].account);
    case Next(landed) =>
      if s.loop.queue[0].account !in s.syncing { Taken(s, Step(s, e), -1, s.loop.queue[0].account); }
      else { SameHolders(s, Step(s, e)); }
    case Finish(_) => Returned(s, Step(s, e), -1, s.loop.job.account);
    case Crash =>
    case _ => SameHolders(s, Step(s, e));
  }

  lemma SameHolders(s: Server, n: Server)
    requires GuardInv(s) && n.syncing == s.syncing
    requires forall t, a :: Holds(n, t, a) <==> Holds(s, t, a)
    ensures GuardInv(n)
  {
  }

  /** Thread `t` enters the account. */
  lemma Taken(s: Server, n: Server, t: int, account: int)
    requires GuardInv(s) && account !in s.syncing && n.syncing == s.syncing + {account}
    requires forall u, a :: Holds(n, u, a) <==> Holds(s, u, a) || (u == t && a == account)
    requires forall a :: !Holds(s, t, a)
    ensures GuardInv(n)
  {
    assert Holds(n, t, account);
    forall a | a in s.syncing ensures exists u :: Holds(n, u, a) {
      var u :| Holds(s, u, a);
      assert Holds(n, u, a);
    }
  }

  /** Thread `t` leaves its account; every other thread keeps its own. */
  lemma Returned(s: Server, n: Server, t: int, account: int)
    requires GuardInv(s) && Holds(s, t, account) && n.syncing == s.syncing - {account}
    requires forall u, a :: Holds(n, u, a) <==> Holds(s, u, a) && u != t
    ensures GuardInv(n)
  {
    forall a | a in n.syncing ensures exists u :: Holds(n, u, a) {
      var u :| Holds(s, u, a);
      assert u != t;
      assert Holds(n, u, a);
    }
  }

  ghost predicate JobsInv(s: Server) {
    && s.jobs.Keys <= s.past.Keys
    && (forall id :: id in s.past ==> JobInv(s, id))
    && match s.loop
       case Waiting => true
       case Between(queue) => QueueInv(s, queue)
       case InFlight(job, queue) => CurrentInv(s, job) && QueueInv(s, queue)
       case Deciding(job, _, queue) => CurrentInv(s, job) && QueueInv(s, queue)
  }

  lemma NextKeepsJobs(s: Server, landed: bool)
    requires Inv(s) && Enabled(s, Next(landed))
    ensures JobsInv(Step(s, Next(landed)))
  {
  }

  lemma ConcludeKeepsJobs(s: Server, landed: bool)
    requires Inv(s) && Enabled(s, Conclude(landed))
    ensures JobsInv(Step(s, Conclude(landed)))
  {
    var job := s.loop.job;
    if job.id in s.jobs { RetryDelay(s.jobs[job.id], job.attempts + 1, s.loop.confirmed, s.now); }
  }

  lemma QueryKeepsJobs(s: Server, picks: seq<Picked>)
    requires Inv(s) && Enabled(s, Query(picks))
    ensures JobsInv(Step(s, Query(picks)))
  {
  }

  /** A step that leaves the rows, their history and the current job alone. */
  lemma SameRows(s: Server, n: Server)
    requires JobsInv(s) && n.jobs == s.jobs && n.past == s.past && s.now <= n.now
    requires forall id :: Current(n, id) == Current(s, id)
    requires
      || n.loop.Waiting? || n.loop == s.loop
      || (s.loop.InFlight? && n.loop.Deciding? && n.loop.job == s.loop.job && n.loop.queue == s.loop.queue)
    ensures JobsInv(n)
  {
    hide Current;
    assert forall id :: id in s.past ==> Outcomes(n, id) == Outcomes(s, id);
  }

  /** Steps of other threads, of the clock, and leaving a pass. */
  lemma OthersKeepJobs(s: Server, e: Event)
    requires Inv(s) && Enabled(s, e)
    requires e.Tick? || e.Acquire? || e.Release? || e.Finish? || e.Stop?
    ensures JobsInv(Step(s, e))
  {
    hide GuardInv, JobInv, QueueInv, CurrentInv, Settled, Leased;
    SameRows(s, Step(s, e));
  }

  lemma RowsKeepJobs(s: Server, e: Event)
    requires Inv(s) && Enabled(s, e) && (e.Create? || e.Delete?)
    ensures JobsInv(Step(s, e))
  {
    hide GuardInv, Settled, Leased;
    var n := Step(s, e);
    assert forall id :: id in s.past ==> Outcomes(n, id) == Outcomes(s, id);
  }

  lemma CrashKeepsJobs(s: Server)
    requires Inv(s)
    ensures JobsInv(Step(s, Crash))
  {
    hide GuardInv, Settled, Leased;
  }

  lemma {:induction false} RunKeepsInv(s: Server, events: seq<Event>)
    requires Inv(s)
    ensures Run(s, events).Some? ==> Inv(Run(s, events).value)
    decreases |events|
  {
    hide Inv, Step, Enabled;
    if events != [] && Enabled(s, events[0]) {
      StepKeepsInv(s, events[0]);
      RunKeepsInv(Step(s, events[0]), events[1..]);
    }
  }

  // ---------------------------------------------------------------- the theorems

  /** In every run at most one sync per account is in flight, and `syncing` holds exactly the
      accounts in flight; so the only thread that can release an entry is the one that made it. */
  lemma OneSyncPerAccount(threads: nat, events: seq<Event>, t: int, u: int, account: int)
    requires Run(Start(threads), events).Some?
    ensures
      var s := Run(Start(threads), events).value;
      && (Holds(s, t, account) && Holds(s, u, account) ==> t == u)
      && (account in s.syncing <==> exists v :: Holds(s, v, account))
  {
    RunKeepsInv(Start(threads), events);
  }

  /** In every run a job has at most nine passes more than it has passes whose outcome was lost to a
      crash or a failed write; when nine outcomes have reached its row it is closed; and while it
      is live it is due again at most 300 seconds after its row was last written. */
  lemma JobsAreBounded(threads: nat, events: seq<Event>, id: string)
    requires Run(Start(threads), events).Some?
    requires id in Run(Start(threads), events).value.past
    ensures
      var s := Run(Start(threads), events).value;
      && s.past[id].passes <= 9 + s.past[id].lost
      && (id in s.jobs && s.jobs[id].Live() ==>
            Outcomes(s, id) < 9 && s.jobs[id].due <= s.past[id].written + 300 <= s.now + 300)
  {
    RunKeepsInv(Start(threads), events);
    var s := Run(Start(threads), events).value;
    assert Inv(s) && JobInv(s, id);
    if Current(s, id) { assert CurrentInv(s, s.loop.job); }
  }

  /** The loop reaches this job on an account that nobody is syncing. */
  predicate BeginsPass(s: Server, e: Event, id: string) {
    && e.Next? && s.loop.Between? && s.loop.queue != []
    && s.loop.queue[0].id == id && s.loop.queue[0].account !in s.syncing
  }

  /** How often that happens in a run. */
  function Begun(s: Server, events: seq<Event>, id: string): nat
    requires Inv(s)
    decreases |events|
  {
    if events == [] || !Enabled(s, events[0]) then 0
    else
      StepKeepsInv(s, events[0]);
      (if BeginsPass(s, events[0], id) then 1 else 0) + Begun(Step(s, events[0]), events[1..], id)
  }

  function Passes(s: Server, id: string): nat {
    if id in s.past then s.past[id].passes else 0
  }

  /** The attempts on record never exceed the passes begun, and for a pass that has not begun they are fewer. */
  ghost predicate AttemptsInv(s: Server) {
    && (forall id :: id in s.jobs ==> s.jobs[id].attempts <= Passes(s, id))
    && ((s.loop.InFlight? || s.loop.Deciding?) && s.loop.job.id in s.jobs ==>
          s.loop.job.attempts < Passes(s, s.loop.job.id))
  }

  lemma PassesStep(s: Server, e: Event, id: string)
    requires Inv(s) && Enabled(s, e)
    ensures Passes(Step(s, e), id) == Passes(s, id) + if BeginsPass(s, e, id) then 1 else 0
  {
    hide GuardInv, JobInv, Settled, Leased;
  }

  lemma AttemptsStep(s: Server, e: Event)
    requires Inv(s) && Enabled(s, e) && AttemptsInv(s)
    ensures AttemptsInv(Step(s, e))
  {
    hide GuardInv, JobInv, Passes;
    forall id ensures Passes(Step(s, e), id) == Passes(s, id) + if BeginsPass(s, e, id) then 1 else 0 {
      PassesStep(s, e, id);
    }
  }

  lemma {:induction false} PassesOfRun(s: Server, events: seq<Event>, id: string)
    requires Inv(s) && AttemptsInv(s)
    ensures Run(s, events).Some? ==>
      var final := Run(s, events).value;
      AttemptsInv(final) && Passes(final, id) == Passes(s, id) + Begun(s, events, id)
    decreases |events|
  {
    if events != [] && Enabled(s, events[0]) {
      hide Inv, Step, Enabled, AttemptsInv, Passes, BeginsPass;
      StepKeepsInv(s, events[0]);
      AttemptsStep(s, events[0]);
      PassesStep(s, events[0], id);
      PassesOfRun(Step(s, events[0]), events[1..], id);
    }
  }

  /** In every run the passes of a job are exactly the times the loop reached it while its account was free, and the
      attempts on its row are at most these: however often a busy account is passed over, it costs nothing. */
  lemma BusyAccountIsFree(threads: nat, events: seq<Event>, id: string)
    requires Run(Start(threads), events).Some?
    ensures
      var s := Run(Start(threads), events).value;
      && Passes(s, id) == Begun(Start(threads), events, id)
      && (id in s.jobs ==> s.jobs[id].attempts <= Begun(Start(threads), events, id))
  {
    hide Inv, Step, Enabled, BeginsPass;
    PassesOfRun(Start(threads), events, id);
  }

  /** A job no pass has been made for is as it was created: pending, and due two seconds later. */
  ghost predicate NewInv(s: Server) {
    forall id :: id in s.jobs && id in s.past && Passes(s, id) == 0 ==>
      s.jobs[id] == Job(s.jobs[id].account, Pending, 0, s.past[id].written + 2)
  }

  lemma NewStep(s: Server, e: Event)
    requires Inv(s) && Enabled(s, e) && AttemptsInv(s) && NewInv(s)
    ensures NewInv(Step(s, e))
  {
    hide GuardInv, JobInv, Settled;
    forall id ensures Passes(Step(s, e), id) >= Passes(s, id) { PassesStep(s, e, id); }
  }

  lemma {:induction false} NewRun(s: Server, events: seq<Event>)
    requires Inv(s) && AttemptsInv(s) && NewInv(s)
    ensures Run(s, events).Some? ==> NewInv(Run(s, events).value)
    decreases |events|
  {
    if events != [] && Enabled(s, events[0]) {
      hide Inv, Step, Enabled, AttemptsInv, NewInv;
      StepKeepsInv(s, events[0]);
      AttemptsStep(s, events[0]);
      NewStep(s, events[0]);
      NewRun(Step(s, events[0]), events[1..]);
    }
  }

  lemma UntriedJobs(threads: nat, events: seq<Event>, id: string)
    requires Run(Start(threads), events).Some?
    requires id in Run(Start(threads), events).value.jobs && Begun(Start(threads), events, id) == 0
    ensures id in Run(Start(threads), events).value.past
    ensures
      var s := Run(Start(threads), events).value;
      s.jobs[id] == Job(s.jobs[id].account, Pending, 0, s.past[id].written + 2)
  {
    hide Step, Enabled;
    BusyAccountIsFree(threads, events, id);
    NewRun(Start(threads), events);
    RunKeepsInv(Start(threads), events);
  }

  /** The waiting loop can pick exactly any fifty or fewer different jobs that are pending or retrying and due. */
  lemma DueJobsArePicked(s: Server, picks: seq<Picked>)
    requires Inv(s) && s.loop.Waiting?
    ensures Enabled(s, Query(picks)) <==>
      && |picks| <= 50 && (forall i, j :: 0 <= i < j < |picks| ==> picks[i].id != picks[j].id)
      && forall i :: 0 <= i < |picks| ==>
           && picks[i].id in s.jobs
           && var job := s.jobs[picks[i].id];
              (job.status == Pending || job.status == Retrying) && job.due <= s.now
              && picks[i].account == job.account && picks[i].attempts == job.attempts
  {
    hide Inv;
  }

  /** Entering works exactly when no thread holds the account, and leaving frees it. */
  lemma GuardServes(s: Server, t: nat, account: int)
    requires Inv(s) && t < |s.threads|
    ensures s.threads[t].Free? ==>
      (Holds(Step(s, Acquire(t, account)), t, account) <==> forall u :: !Holds(s, u, account))
    ensures s.threads[t] == Syncing(account) ==> forall u :: !Holds(Step(s, Release(t)), u, account)
  {
    hide JobInv, QueueInv, CurrentInv;
    if s.threads[t] == Syncing(account) {
      assert Holds(s, t, account);
      forall u ensures !Holds(Step(s, Release(t)), u, account) {
        assert Holds(Step(s, Release(t)), u, account) ==> Holds(s, u, account);
      }
    } else if s.threads[t].Free? && account !in s.syncing {
      assert Holds(Step(s, Acquire(t, account)), t, account);
    }
  }

  /** A pass that is neither interrupted nor loses its write moves the job one outcome on. */
  lemma OutcomeCounts(s: Server)
    requires Inv(s) && s.loop.Deciding? && s.loop.job.id in s.jobs
    ensures
      var id := s.loop.job.id;
      var n := Step(s, Conclude(true));
      && Outcomes(n, id) == Outcomes(s, id) + 1
      && (n.jobs[id].Live() <==> !s.loop.confirmed && s.loop.job.attempts < 8)
  {
    var job := s.loop.job;
    RetryDelay(s.jobs[job.id], job.attempts + 1, s.loop.confirmed, s.now);
  }

  // ---------------------------------------------------------------- the loop as the source runs it

  /** The in-memory set of accounts being synced; each method is one critical section. */
  class AccountGuard {
    var syncing: set<int>

    constructor ()
      ensures syncing == {}
    {
      syncing := {};
    }

    method TryBegin(account: int) returns (entered: bool)
      modifies this
      ensures entered <==> account !in old(syncing)
      ensures syncing == old(syncing) + {account}
    {
      if account in syncing { return false; }
      syncing := syncing + {account};
      entered := true;
    }

    method End(account: int)
      modifies this
      ensures syncing == old(syncing) - {account}
    {
      syncing := syncing - {account};
    }
  }

  class JobTable {
    var rows: map<string, Job>

    constructor (rows: map<string, Job>)
      ensures this.rows == rows
    {
      this.rows := rows;
    }

    method UpdateActionJob(id: string, status: JobStatus, attempts: nat, due: int, landed: bool)
      modifies this
      ensures rows == if landed && id in old(rows)
                      then old(rows)[id := Job(old(rows)[id].account, status, attempts, due)] else old(rows)
    {
      if landed && id in rows {
        rows := rows[id := Job(rows[id].account, status, attempts, due)];
      }
    }
  }

  /** What one job meets in a pass: the parent context, the clock, the sync and the database. */
  datatype Turn = Turn(stopped: bool, confirmed: bool, leasedAt: int, leaseLands: bool, settledAt: int, outcomeLands: bool)

  /** One job's two writes. */
  function Worked(rows: map<string, Job>, job: Picked, turn: Turn): map<string, Job> {
    if job.id !in rows then rows
    else
      var attempt := job.attempts + 1;
      var leased := if turn.leaseLands then rows[job.id := Leased(rows[job.id], attempt, turn.leasedAt)] else rows;
      if turn.outcomeLands then
        leased[job.id := Settled(leased[job.id], attempt, turn.confirmed, turn.settledAt)]
      else leased
  }

  function PassRows(rows: map<string, Job>, busy: set<int>, picks: seq<Picked>, turns: nat -> Turn, i: nat): map<string, Job>
    decreases |picks| - i
  {
    if i >= |picks| || turns(i).stopped then rows
    else if picks[i].account in busy then PassRows(rows, busy, picks, turns, i + 1)
    else PassRows(Worked(rows, picks[i], turns(i)), busy, picks, turns, i + 1)
  }

  /** One pass over the picked jobs, while `guard` already holds the accounts of other threads. */
  method ActionJobsOnce(guard: AccountGuard, table: JobTable, picks: seq<Picked>, turns: nat -> Turn)
    modifies guard, table
    ensures guard.syncing == old(guard.syncing)
    ensures table.rows == PassRows(old(table.rows), old(guard.syncing), picks, turns, 0)
  {
    for i := 0 to |picks|
      invariant guard.syncing == old(guard.syncing)
      invariant PassRows(table.rows, old(guard.syncing), picks, turns, i)
             == PassRows(old(table.rows), old(guard.syncing), picks, turns, 0)
    {
      var job, turn := picks[i], turns(i);
      if turn.stopped { return; }
      var entered := guard.TryBegin(job.account);
      if !entered { continue; }
      var attempt := job.attempts + 1;
      table.UpdateActionJob(job.id, Retrying, attempt, turn.leasedAt + LEASE, turn.leaseLands);
      guard.End(job.account);
      if turn.confirmed {
        table.UpdateActionJob(job.id, Completed, attempt, 0, turn.outcomeLands);
      } else if attempt >= MAX_ATTEMPTS {
        table.UpdateActionJob(job.id, Unconfirmed, attempt, 0, turn.outcomeLands);
      } else {
        var delay := DELAYS[Min(attempt - 1, |DELAYS| - 1)];
        table.UpdateActionJob(job.id, Retrying, attempt, turn.settledAt + delay, turn.outcomeLands);
      }
    }
  }

  // ---------------------------------------------------------------- a pass is a run of the machine

  /** The turns that are reached happen one after the other. */
  predicate InOrder(now: int, busy: set<int>, picks: seq<Picked>, turns: nat -> Turn, i: nat)
    decreases |picks| - i
  {
    if i >= |picks| || turns(i).stopped then true
    else if picks[i].account in busy then InOrder(now, busy, picks, turns, i + 1)
    else now <= turns(i).leasedAt <= turns(i).settledAt && InOrder(turns(i).settledAt, busy, picks, turns, i + 1)
  }

  /** The events of a pass from the i-th picked job on. */
  function PassEvents(now: int, busy: set<int>, picks: seq<Picked>, turns: nat -> Turn, i: nat): seq<Event>
    requires InOrder(now, busy, picks, turns, i)
    decreases |picks| - i
  {
    if i >= |picks| || turns(i).stopped then [Stop]
    else if picks[i].account in busy then [Next(true)] + PassEvents(now, busy, picks, turns, i + 1)
    else
      var turn := turns(i);
      [Tick(turn.leasedAt - now)] + ([Next(turn.leaseLands)] + ([Tick(turn.settledAt - turn.leasedAt)]
      + ([Finish(turn.confirmed)] + ([Conclude(turn.outcomeLands)]
      + PassEvents(turn.settledAt, busy, picks, turns, i + 1)))))
  }

  lemma RunStep(s: Server, e: Event, rest: seq<Event>)
    requires Inv(s) && Enabled(s, e)
    ensures Inv(Step(s, e)) && Run(s, [e] + rest) == Run(Step(s, e), rest)
  {
    hide Inv, Step, Enabled;
    StepKeepsInv(s, e);
    assert ([e] + rest)[1..] == rest;
  }

  /** The steps of one job, from its lease to its outcome. */
  lemma TurnIsRun(s: Server, turn: Turn, rest: seq<Event>) returns (n: Server)
    requires Inv(s) && s.loop.Between? && s.loop.queue != [] && s.loop.queue[0].account !in s.syncing
    requires s.now <= turn.leasedAt <= turn.settledAt
    ensures Inv(n) && n.loop == Between(s.loop.queue[1..]) && n.syncing == s.syncing && n.now == turn.settledAt
    ensures n.jobs == Worked(s.jobs, s.loop.queue[0], turn)
    ensures Run(s, [Tick(turn.leasedAt - s.now)] + ([Next(turn.leaseLands)] + ([Tick(turn.settledAt - turn.leasedAt)]
                   + ([Finish(turn.confirmed)] + ([Conclude(turn.outcomeLands)] + rest))))) == Run(n, rest)
  {
    hide Inv, Run, Settled, Leased;
    var e, d, c := [Conclude(turn.outcomeLands)] + rest, Finish(turn.confirmed), Tick(turn.settledAt - turn.leasedAt);
    var b := Next(turn.leaseLands);
    RunStep(s, Tick(turn.leasedAt - s.now), [b] + ([c] + ([d] + e)));
    var s1 := Step(s, Tick(turn.leasedAt - s.now));
    RunStep(s1, b, [c] + ([d] + e));
    var s2 := Step(s1, b);
    RunStep(s2, c, [d] + e);
    var s3 := Step(s2, c);
    RunStep(s3, d, e);
    var s4 := Step(s3, d);
    RunStep(s4, Conclude(turn.outcomeLands), rest);
    n := Step(s4, Conclude(turn.outcomeLands));
  }

  lemma PassStops(s: Server)
    requires Inv(s) && s.loop.Between?
    ensures Run(s, [Stop]) == Some(s.(loop := Waiting))
  {
    hide Inv;
    RunStep(s, Stop, []);
    assert [Stop] + [] == [Stop];
  }

  lemma BusySkipped(s: Server, rest: seq<Event>)
    requires Inv(s) && s.loop.Between? && s.loop.queue != [] && s.loop.queue[0].account in s.syncing
    ensures var n := s.(loop := Between(s.loop.queue[1..])); Inv(n) && Run(s, [Next(true)] + rest) == Run(n, rest)
  {
    hide Inv, Run;
    RunStep(s, Next(true), rest);
  }

  /** The pass that the method makes over the picked jobs is a run of the machine with the same rows at its end. */
  lemma {:induction false} PassIsRun(s: Server, picks: seq<Picked>, turns: nat -> Turn, i: nat)
    requires Inv(s) && i <= |picks| && s.loop == Between(picks[i..])
    requires InOrder(s.now, s.syncing, picks, turns, i)
    ensures var final := Run(s, PassEvents(s.now, s.syncing, picks, turns, i));
      && final.Some? && final.value.loop == Waiting && final.value.syncing == s.syncing
      && final.value.jobs == PassRows(s.jobs, s.syncing, picks, turns, i)
    decreases |picks| - i
  {
    hide Inv, Worked, Run;
    if i >= |picks| || turns(i).stopped {
      PassStops(s);
    } else {
      assert picks[i..][0] == picks[i] && picks[i..][1..] == picks[i + 1..];
      if picks[i].account in s.syncing {
        BusySkipped(s, PassEvents(s.now, s.syncing, picks, turns, i + 1));
        PassIsRun(s.(loop := Between(picks[i + 1..])), picks, turns, i + 1);
      } else {
        var n := TurnIsRun(s, turns(i), PassEvents(turns(i).settledAt, s.syncing, picks, turns, i + 1));
        PassIsRun(n, picks, turns, i + 1);
      }
    }
  }
}
