/** The worker pool of ListAllDetailed (internal/ctyun/client.go:265-352) as a state machine: region
    indices are handed out over a channel, each worker scans its region privately and writes one
    slot of the result slice, and the context may be cancelled at any moment. */
module WorkerPool {
  import opened Wrappers
  import opened RegionListing

  /** Where a worker stands: waiting on the channel, inside the page loop, or returned. */
  datatype Worker =
    | Idle
    | Scanning(region: nat, path: nat, variant: nat, page: nat, total: int, local: Local)
    | Exited

  datatype Pool = Pool(workers: seq<Worker>, next: nat, results: seq<Local>, cancelled: bool)

  datatype Event =
    | Cancel                  // the context is cancelled
    | Take(worker: nat)       // an idle worker receives the next region index
    | Work(worker: nat)       // a scanning worker runs one iteration of its innermost loop
    | Exit(worker: nat)       // an idle worker finds the channel closed

  function Start(req: Request, workers: nat): Pool {
    Pool(seq(workers, _ => Idle), 0, seq(|req.regions|, _ => EMPTY), false)
  }

  ghost predicate Done(s: Pool) {
    forall w :: 0 <= w < |s.workers| ==> s.workers[w].Exited?
  }

  predicate Enabled(req: Request, s: Pool, e: Event) {
    match e
    case Cancel => true
    case Take(w) => w < |s.workers| && s.workers[w].Idle? && s.next < |req.regions|
    case Work(w) => w < |s.workers| && s.workers[w].Scanning?
    case Exit(w) => w < |s.workers| && s.workers[w].Idle? && s.next >= |req.regions|
  }

  /** One iteration of a worker that still has a path to scan. */
  function Iterate(req: Request, provider: Provider, w: Worker, cancelled: bool): Worker
    requires w.Scanning? && w.region < |req.regions| && w.path < |req.paths|
  {
    var path, region := req.paths[w.path], req.regions[w.region];
    if w.variant >= req.Variants() then
      Scanning(w.region, w.path + 1, 0, 1, 1, w.local)
    else if w.page <= w.total && w.page <= MAX_PAGES then
      match if cancelled then Cancelled else provider(w.region, w.path, w.variant)(w.page)
      case Cancelled => NextVariant(w, w.local)
      case Failed(message) => NextVariant(w, Reject(w.local, path, region, w.page, message))
      case Page(pages, items) =>
        Scanning(w.region, w.path, w.variant, w.page + 1, if req.paging then pages else w.total,
                 Accept(w.local, Usable(items, req.kind, path, region)))
    else if w.page > MAX_PAGES && w.total > MAX_PAGES then
      NextVariant(w, Overflow(w.local, path, region))
    else
      NextVariant(w, w.local)
  }

  function NextVariant(w: Worker, local: Local): Worker
    requires w.Scanning?
  {
    Scanning(w.region, w.path, w.variant + 1, 1, 1, local)
  }

  function Step(req: Request, provider: Provider, s: Pool, e: Event): Pool
    requires Shaped(req, s) && Enabled(req, s, e)
  {
    match e
    case Cancel => s.(cancelled := true)
    case Take(w) => s.(workers := s.workers[w := Scanning(s.next, 0, 0, 1, 1, EMPTY)], next := s.next + 1)
    case Exit(w) => s.(workers := s.workers[w := Exited])
    case Work(w) =>
      var worker := s.workers[w];
      if worker.path < |req.paths| then
        s.(workers := s.workers[w := Iterate(req, provider, worker, s.cancelled)])
      else
        s.(workers := s.workers[w := Idle], results := s.results[worker.region := Settle(worker.local)])
  }

  /** The final state of a schedule, if every event of it was possible. */
  function Run(req: Request, provider: Provider, s: Pool, events: seq<Event>): Option<Pool>
    requires Shaped(req, s)
    decreases |events|
  {
    if events == [] then Some(s)
    else if !Enabled(req, s, events[0]) then None
    else
      StepShaped(req, provider, s, events[0]);
      Run(req, provider, Step(req, provider, s, events[0]), events[1..])
  }

  // ---------------------------------------------------------------- invariant

  ghost predicate Shaped(req: Request, s: Pool) {
    && |s.results| == |req.regions|
    && s.next <= |req.regions|
    && (forall w :: 0 <= w < |s.workers| && s.workers[w].Scanning? ==> s.workers[w].region < s.next)
  }

  lemma StepShaped(req: Request, provider: Provider, s: Pool, e: Event)
    requires Shaped(req, s) && Enabled(req, s, e)
    ensures Shaped(req, Step(req, provider, s, e))
  {
  }

  /** What a scanning worker will have accumulated once its region is finished. */
  function Remaining(req: Request, provider: Provider, w: Worker): Local
    requires w.Scanning? && w.region < |req.regions|
  {
    if w.path >= |req.paths| then w.local
    else if w.variant >= req.Variants() then
      ScanPaths(req, provider, w.region, w.path + 1, w.local)
    else
      ScanPaths(req, provider, w.region, w.path + 1,
        ScanVariants(req, provider, w.region, w.path, w.variant + 1,
          ScanPages(req, provider(w.region, w.path, w.variant), req.paths[w.path], req.regions[w.region],
                    w.page, w.total, w.local)))
  }

  ghost predicate OnTrack(req: Request, provider: Provider, w: Worker) {
    w.Scanning? && w.region < |req.regions| ==>
      Settle(Remaining(req, provider, w)) == ScanRegion(req, provider, w.region)
  }

  ghost predicate Claims(w: Worker, region: nat) {
    w.Scanning? && w.region == region
  }

  ghost predicate Claimed(workers: seq<Worker>, region: nat) {
    exists w :: 0 <= w < |workers| && Claims(workers[w], region)
  }

  ghost predicate Inv(req: Request, provider: Provider, s: Pool) {
    && Shaped(req, s)
    && (forall v, w :: 0 <= v < w < |s.workers| && s.workers[v].Scanning? ==> !Claims(s.workers[w], s.workers[v].region))
    && (forall w :: 0 <= w < |s.workers| && s.workers[w].Exited? ==> s.next == |req.regions|)
    && (!s.cancelled ==>
          && (forall w :: 0 <= w < |s.workers| ==> OnTrack(req, provider, s.workers[w]))
          && (forall r: nat :: r < s.next && !Claimed(s.workers, r) ==>
                s.results[r] == ScanRegion(req, provider, r)))
  }

  lemma IterateOnTrack(req: Request, provider: Provider, w: Worker)
    requires w.Scanning? && w.region < |req.regions| && w.path < |req.paths|
    requires OnTrack(req, provider, w)
    ensures OnTrack(req, provider, Iterate(req, provider, w, false))
  {
    hide Reject, Overflow, Usable, ScanRegion, Settle;
    var next := Iterate(req, provider, w, false);
    assert Remaining(req, provider, next) == Remaining(req, provider, w);
  }

  /** The worker moves inside its region. */
  lemma MoveKeepsInv(req: Request, provider: Provider, s: Pool, w: nat)
    requires Inv(req, provider, s) && Enabled(req, s, Work(w)) && s.workers[w].path < |req.paths|
    ensures Inv(req, provider, Step(req, provider, s, Work(w)))
  {
    var t := Step(req, provider, s, Work(w));
    Unaffected(s.workers, w, t.workers[w]);
    assert forall r: nat :: Claims(s.workers[w], r) == Claims(t.workers[w], r);
    if !s.cancelled {
      assert OnTrack(req, provider, s.workers[w]);
      IterateOnTrack(req, provider, s.workers[w]);
    }
  }

  /** The worker stores its region and goes back to the channel. */
  lemma StoreKeepsInv(req: Request, provider: Provider, s: Pool, w: nat)
    requires Inv(req, provider, s) && Enabled(req, s, Work(w)) && s.workers[w].path >= |req.paths|
    ensures Inv(req, provider, Step(req, provider, s, Work(w)))
  {
    var t := Step(req, provider, s, Work(w));
    Unaffected(s.workers, w, Idle);
    if !s.cancelled {
      assert OnTrack(req, provider, s.workers[w]);
    }
  }

  lemma StepKeepsInv(req: Request, provider: Provider, s: Pool, e: Event)
    requires Inv(req, provider, s) && Enabled(req, s, e)
    ensures Inv(req, provider, Step(req, provider, s, e))
  {
    match e
    case Cancel =>
    case Exit(w) => Unaffected(s.workers, w, Exited);
    case Take(w) => Unaffected(s.workers, w, Step(req, provider, s, e).workers[w]);
    case Work(w) =>
      if s.workers[w].path < |req.paths| {
        MoveKeepsInv(req, provider, s, w);
      } else {
        StoreKeepsInv(req, provider, s, w);
      }
  }

  /** Replacing one worker touches only the claims of that worker. */
  lemma Unaffected(workers: seq<Worker>, w: nat, worker: Worker)
    requires w < |workers|
    ensures forall r: nat :: !Claims(workers[w], r) && !Claims(worker, r) ==>
              Claimed(workers[w := worker], r) == Claimed(workers, r)
    ensures forall r: nat :: Claims(worker, r) ==> Claimed(workers[w := worker], r)
  {
    forall r: nat | !Claims(workers[w], r) && !Claims(worker, r)
      ensures Claimed(workers[w := worker], r) == Claimed(workers, r)
    {
      if Claimed(workers, r) {
        var k :| 0 <= k < |workers| && Claims(workers[k], r);
        assert Claims(workers[w := worker][k], r);
      }
    }
    assert workers[w := worker][w] == worker;
  }

  lemma {:induction false} RunKeepsInv(req: Request, provider: Provider, s: Pool, events: seq<Event>)
    requires Inv(req, provider, s)
    ensures Run(req, provider, s, events).Some? ==> Inv(req, provider, Run(req, provider, s, events).value)
    decreases |events|
  {
    if events != [] && Enabled(req, s, events[0]) {
      StepKeepsInv(req, provider, s, events[0]);
      RunKeepsInv(req, provider, Step(req, provider, s, events[0]), events[1..]);
    }
  }

  /** Whatever the number of workers and the order of their steps: once all have returned, the
      outcome is that of scanning the regions from left to right, unless the context was
      cancelled, in which case nothing is listed. */
  lemma AnyScheduleIsSequential(req: Request, provider: Provider, workers: nat, events: seq<Event>)
    requires workers > 0 && req.regions != [] && req.paths != []
    ensures
      var final := Run(req, provider, Start(req, workers), events);
      final.Some? && Done(final.value) ==>
        && Shaped(req, final.value) && (final.value.cancelled <==> Cancel in events)
        && (!final.value.cancelled ==> final.value.results == Sequential(req, provider))
        && Detailed(req, final.value.results, final.value.cancelled)
           == if final.value.cancelled then Err(ABORTED) else Detailed(req, Sequential(req, provider), false)
  {
    var s := Start(req, workers);
    RunKeepsInv(req, provider, s, events);
    CountKept(req, provider, s, events);
    CancelledBy(req, provider, s, events);
    var final := Run(req, provider, s, events);
    if final.Some? && Done(final.value) {
      assert final.value.workers[0].Exited?;
      if !final.value.cancelled {
        forall r: nat | r < |req.regions| ensures final.value.results[r] == ScanRegion(req, provider, r) {
          assert !Claimed(final.value.workers, r);
        }
        assert final.value.results == Sequential(req, provider);
      }
    }
  }

  /** The context is cancelled in the end if a step of the schedule cancelled it. */
  lemma {:induction false} CancelledBy(req: Request, provider: Provider, s: Pool, events: seq<Event>)
    requires Shaped(req, s)
    ensures var final := Run(req, provider, s, events);
      final.Some? ==> (final.value.cancelled <==> s.cancelled || Cancel in events)
    decreases |events|
  {
    if events != [] && Enabled(req, s, events[0]) {
      CancelledBy(req, provider, Step(req, provider, s, events[0]), events[1..]);
      assert events == [events[0]] + events[1..];
    }
  }

  lemma {:induction false} CountKept(req: Request, provider: Provider, s: Pool, events: seq<Event>)
    requires Shaped(req, s)
    ensures var final := Run(req, provider, s, events);
      final.Some? ==> Shaped(req, final.value) && |final.value.workers| == |s.workers|
    decreases |events|
  {
    if events != [] && Enabled(req, s, events[0]) {
      CountKept(req, provider, Step(req, provider, s, events[0]), events[1..]);
    }
  }

  // ---------------------------------------------------------------- every schedule ends

  /** The longest a worker can still take from a position in the loops. */
  function StepsLeft(req: Request, path: nat, variant: nat, page: nat): nat
    decreases |req.paths| - path, req.Variants() - variant, MAX_PAGES + 1 - page
  {
    if path >= |req.paths| then 1
    else if variant >= req.Variants() then 1 + StepsLeft(req, path + 1, 0, 1)
    else if page > MAX_PAGES then 1 + StepsLeft(req, path, variant + 1, 1)
    else 1 + StepsLeft(req, path, variant, page + 1)
  }

  lemma {:induction false} BreakIsShorter(req: Request, path: nat, variant: nat, page: nat)
    requires path < |req.paths| && variant < req.Variants()
    ensures StepsLeft(req, path, variant + 1, 1) < StepsLeft(req, path, variant, page)
    decreases MAX_PAGES + 1 - page
  {
    if page <= MAX_PAGES { BreakIsShorter(req, path, variant, page + 1); }
  }

  function WorkerLeft(req: Request, w: Worker): nat {
    match w
    case Exited => 0
    case Idle => 1
    case Scanning(_, path, variant, page, _, _) => 1 + StepsLeft(req, path, variant, page)
  }

  function WorkersLeft(req: Request, workers: seq<Worker>): nat {
    if workers == [] then 0 else WorkerLeft(req, workers[0]) + WorkersLeft(req, workers[1..])
  }

  function RegionsLeft(req: Request, next: nat): nat
    decreases |req.regions| - next
  {
    if next >= |req.regions| then 0 else 1 + StepsLeft(req, 0, 0, 1) + RegionsLeft(req, next + 1)
  }

  function PoolLeft(req: Request, s: Pool): nat {
    WorkersLeft(req, s.workers) + RegionsLeft(req, s.next)
  }

  lemma {:induction false} WorkersLeftUpdate(req: Request, workers: seq<Worker>, w: nat, worker: Worker)
    requires w < |workers|
    ensures WorkersLeft(req, workers[w := worker])
         == WorkersLeft(req, workers) - WorkerLeft(req, workers[w]) + WorkerLeft(req, worker)
  {
    if w == 0 {
      assert workers[w := worker][1..] == workers[1..];
    } else {
      assert workers[w := worker][1..] == workers[1..][w - 1 := worker];
      WorkersLeftUpdate(req, workers[1..], w - 1, worker);
    }
  }

  lemma IterateIsShorter(req: Request, provider: Provider, w: Worker, cancelled: bool)
    requires w.Scanning? && w.region < |req.regions| && w.path < |req.paths|
    ensures WorkerLeft(req, Iterate(req, provider, w, cancelled)) < WorkerLeft(req, w)
  {
    if w.variant < req.Variants() { BreakIsShorter(req, w.path, w.variant, w.page); }
  }

  /** Every event but a cancellation uses up some of the bound, and until all workers have returned
      some worker can move: no schedule blocks, and none runs for more than PoolLeft events. */
  lemma Progress(req: Request, provider: Provider, s: Pool)
    requires Shaped(req, s)
    ensures forall e | Enabled(req, s, e) && e != Cancel :: PoolLeft(req, Step(req, provider, s, e)) < PoolLeft(req, s)
    ensures Done(s) <==> forall e | e != Cancel :: !Enabled(req, s, e)
  {
    forall e | Enabled(req, s, e) && e != Cancel
      ensures PoolLeft(req, Step(req, provider, s, e)) < PoolLeft(req, s)
    {
      var t := Step(req, provider, s, e);
      WorkersLeftUpdate(req, s.workers, e.worker, t.workers[e.worker]);
      if e.Work? && s.workers[e.worker].path < |req.paths| {
        IterateIsShorter(req, provider, s.workers[e.worker], s.cancelled);
      }
    }
    if !Done(s) {
      var w :| 0 <= w < |s.workers| && !s.workers[w].Exited?;
      assert Enabled(req, s, Work(w)) || Enabled(req, s, Take(w)) || Enabled(req, s, Exit(w));
    }
  }
}
