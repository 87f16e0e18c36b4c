/** The texts a region's listing reports: which failures, in which order (internal/ctyun/client.go:302-341, 353-367). */
module ListingErrors {
  import opened Wrappers
  import opened RegionListing
  import opened ListingTheorems

  /** The one problem a scan can leave. */
  function ProblemOf(req: Request, scan: Scan, path: string, region: string): seq<string> {
    match EndOf(req.paging, scan)
    case Complete => []
    case Capped => [path + " " + region + ": 分页超过安全上限 200"]
    case Cut(Failed(message)) => if UnsupportedRegion(message) then [] else [path + " " + region + ": " + message]
    case Cut(_) => []
  }

  /** The refusal that ended a scan. */
  function RefusalOf(req: Request, scan: Scan): seq<string> {
    match EndOf(req.paging, scan)
    case Cut(Failed(message)) => if UnsupportedRegion(message) then [message] else []
    case _ => []
  }

  /** `after` is `local` with these texts noted. */
  predicate Notes(local: Local, after: Local, problems: seq<string>, refusals: seq<string>) {
    after.problems == local.problems + problems && after.skipped == local.skipped + refusals
  }

  lemma {:induction false} ScanPagesNotes(
      req: Request, scan: Scan, path: string, region: string, page: nat, local: Local)
    requires 1 <= page <= MAX_PAGES + 1
    requires PagesFrom(req.paging, scan, page) == PagesRead(req.paging, scan)
    ensures Notes(local, ScanPages(req, scan, path, region, page, Known(req.paging, scan, page), local),
                  ProblemOf(req, scan, path, region), RefusalOf(req, scan))
    decreases MAX_PAGES + 1 - page
  {
    hide UnsupportedRegion, Usable;
    if Available(req.paging, scan, page) {
      PagesFromGrows(req.paging, scan, page + 1);
      ScanPagesNotes(req, scan, path, region, page + 1, Accept(local, Usable(scan(page).items, req.kind, path, region)));
    }
  }

  /** The texts of the variants of a path from `v` on, and of the paths from `p` on. */
  function VariantProblems(req: Request, provider: Provider, r: nat, p: nat, v: nat): seq<string>
    requires r < |req.regions| && p < |req.paths|
    decreases req.Variants() - v
  {
    if v >= req.Variants() then []
    else ProblemOf(req, provider(r, p, v), req.paths[p], req.regions[r]) + VariantProblems(req, provider, r, p, v + 1)
  }

  function Problems(req: Request, provider: Provider, r: nat, p: nat): seq<string>
    requires r < |req.regions|
    decreases |req.paths| - p
  {
    if p >= |req.paths| then [] else VariantProblems(req, provider, r, p, 0) + Problems(req, provider, r, p + 1)
  }

  function VariantRefusals(req: Request, provider: Provider, r: nat, p: nat, v: nat): seq<string>
    decreases req.Variants() - v
  {
    if v >= req.Variants() then [] else RefusalOf(req, provider(r, p, v)) + VariantRefusals(req, provider, r, p, v + 1)
  }

  function Refusals(req: Request, provider: Provider, r: nat, p: nat): seq<string>
    decreases |req.paths| - p
  {
    if p >= |req.paths| then [] else VariantRefusals(req, provider, r, p, 0) + Refusals(req, provider, r, p + 1)
  }

  lemma NotesCompose(local: Local, mid: Local, after: Local, a: seq<string>, b: seq<string>, c: seq<string>, d: seq<string>)
    requires Notes(local, mid, a, b) && Notes(mid, after, c, d)
    ensures Notes(local, after, a + c, b + d)
  {
    assert local.problems + (a + c) == (local.problems + a) + c;
    assert local.skipped + (b + d) == (local.skipped + b) + d;
  }

  lemma {:induction false} VariantsNotes(req: Request, provider: Provider, r: nat, p: nat, v: nat, local: Local)
    requires r < |req.regions| && p < |req.paths|
    ensures Notes(local, ScanVariants(req, provider, r, p, v, local), VariantProblems(req, provider, r, p, v),
                  VariantRefusals(req, provider, r, p, v))
    decreases req.Variants() - v
  {
    hide ScanPages, ProblemOf, RefusalOf;
    if v < req.Variants() {
      hide Notes;
      var scan, path, region := provider(r, p, v), req.paths[p], req.regions[r];
      var next := ScanPages(req, scan, path, region, 1, 1, local);
      ScanPagesNotes(req, scan, path, region, 1, local);
      VariantsNotes(req, provider, r, p, v + 1, next);
      NotesCompose(local, next, ScanVariants(req, provider, r, p, v + 1, next), ProblemOf(req, scan, path, region),
                   RefusalOf(req, scan), VariantProblems(req, provider, r, p, v + 1), VariantRefusals(req, provider, r, p, v + 1));
    }
  }

  lemma {:induction false} PathsNotes(req: Request, provider: Provider, r: nat, p: nat, local: Local)
    requires r < |req.regions|
    ensures Notes(local, ScanPaths(req, provider, r, p, local), Problems(req, provider, r, p), Refusals(req, provider, r, p))
    decreases |req.paths| - p
  {
    hide ScanVariants, VariantProblems, VariantRefusals;
    if p < |req.paths| {
      hide Notes;
      var next := ScanVariants(req, provider, r, p, 0, local);
      VariantsNotes(req, provider, r, p, 0, local);
      PathsNotes(req, provider, r, p + 1, next);
      NotesCompose(local, next, ScanPaths(req, provider, r, p + 1, next), VariantProblems(req, provider, r, p, 0),
                   VariantRefusals(req, provider, r, p, 0), Problems(req, provider, r, p + 1), Refusals(req, provider, r, p + 1));
    }
  }

  /** The texts with the ideographic semicolon between them. */
  function Listed(texts: seq<string>): string {
    if texts == [] then ""
    else if |texts| == 1 then texts[0]
    else Listed(texts[..|texts| - 1]) + "；" + texts[|texts| - 1]
  }

  lemma {:induction false} JoinLast(texts: seq<string>, last: string)
    requires texts != []
    ensures Join(texts + [last], "；") == Join(texts, "；") + "；" + last
  {
    assert (texts + [last])[1..] == texts[1..] + [last];
    if |texts| > 1 {
      JoinLast(texts[1..], last);
    } else {
      assert texts[1..] + [last] == [last];
    }
  }

  lemma {:induction false} JoinIsListed(texts: seq<string>)
    ensures Join(texts, "；") == Listed(texts)
  {
    if |texts| > 1 {
      var n := |texts| - 1;
      JoinIsListed(texts[..n]);
      JoinLast(texts[..n], texts[n]);
      assert texts == texts[..n] + [texts[n]];
    }
  }

  /** A failed region reports the problems of its scans, scan by scan; a skipped one its refusals, or that nothing
      answered; a success reports nothing. */
  lemma ErrorMeaning(req: Request, provider: Provider, r: nat)
    requires r < |req.regions|
    ensures
      var local := ScanRegion(req, provider, r);
      && (Classify(local) == Success ==> ErrorText(local) == "")
      && (Classify(local) == Failure ==> ErrorText(local) == Listed(Problems(req, provider, r, 0)))
      && (Classify(local) == Skipped ==>
            ErrorText(local)
            == if Listed(Refusals(req, provider, r, 0)) == "" then "资源池没有返回可用响应"
               else Listed(Refusals(req, provider, r, 0)))
  {
    PathsNotes(req, provider, r, 0, EMPTY);
    hide Problems, Refusals, ScanPaths;
    var whole := ScanPaths(req, provider, r, 0, EMPTY);
    assert [] + Problems(req, provider, r, 0) == Problems(req, provider, r, 0);
    assert [] + Refusals(req, provider, r, 0) == Refusals(req, provider, r, 0);
    JoinIsListed(Problems(req, provider, r, 0));
    JoinIsListed(Refusals(req, provider, r, 0));
  }

  /** The whole listing is an error without a region, without a path, or when the request was aborted, in this order; and
      else it has one entry for each region, in the order asked for. */
  lemma ListingOutcome(req: Request, provider: Provider, aborted: bool)
    ensures
      var listed := Detailed(req, Sequential(req, provider), aborted);
      if req.regions == [] then listed == Err("没有查询到可用资源池")
      else if req.paths == [] then listed == Err("接口 path 未配置")
      else if aborted then listed == Err("同步资源时请求被中止")
      else
        && listed.Ok? && |listed.value| == |req.regions|
        && forall r :: 0 <= r < |req.regions| ==>
             && listed.value[r].region == req.regions[r]
             && listed.value[r].status == Classify(ScanRegion(req, provider, r))
             && listed.value[r].error == ErrorText(ScanRegion(req, provider, r))
  {
    var locals := Sequential(req, provider);
    assert forall r :: 0 <= r < |req.regions| ==> locals[r] == ScanRegion(req, provider, r);
    hide ScanRegion, Sequential, Merge, ErrorText, Classify;
    MergedInOrder(req, locals, 0, {});
    forall r | 0 <= r < |req.regions|
      ensures var entry := Merge(req, locals, 0, {})[r - 0];
        entry.region == req.regions[r] && entry.status == Classify(ScanRegion(req, provider, r))
        && entry.error == ErrorText(ScanRegion(req, provider, r))
    {
    }
  }

  lemma {:induction false} MergedInOrder(req: Request, locals: seq<Local>, r: nat, seen: set<string>)
    requires |locals| == |req.regions| && r <= |locals|
    ensures |Merge(req, locals, r, seen)| == |locals| - r
    ensures forall k :: r <= k < |locals| ==>
      var entry := Merge(req, locals, r, seen)[k - r];
      entry.region == req.regions[k] && entry.status == Classify(locals[k]) && entry.error == ErrorText(locals[k])
    decreases |locals| - r
  {
    hide ErrorText, Classify, Dedupe;
    if r < |locals| {
      MergedInOrder(req, locals, r + 1, Dedupe(locals[r].items, req.kind, req.regions[r], seen).seen);
    }
  }
}
