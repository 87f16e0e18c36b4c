/** What a region's listing means, independently of the loops that compute it. */
module ListingTheorems {
  import opened Wrappers
  import opened RegionListing

  // ---------------------------------------------------------------- one path/variant scan

  /** The page count known when `page` is about to be requested. */
  function Known(paging: bool, scan: Scan, page: nat): int {
    if page <= 1 || !paging then 1
    else match scan(page - 1)
      case Page(total, _) => total
      case _ => 1
  }

  predicate Available(paging: bool, scan: Scan, page: nat) {
    1 <= page <= 200 && page <= Known(paging, scan, page) && scan(page).Page?
  }

  /** The scan reads exactly the pages 1 to `n`. */
  ghost predicate Reads(paging: bool, scan: Scan, n: nat) {
    (forall page: nat | 1 <= page <= n :: Available(paging, scan, page)) && !Available(paging, scan, n + 1)
  }

  /** How many pages a scan reads, counted from `page`. */
  function PagesFrom(paging: bool, scan: Scan, page: nat): nat
    requires 1 <= page
    decreases MAX_PAGES + 1 - page
  {
    if Available(paging, scan, page) then PagesFrom(paging, scan, page + 1) else page - 1
  }

  function PagesRead(paging: bool, scan: Scan): nat {
    PagesFrom(paging, scan, 1)
  }

  lemma {:induction false} PagesFromGrows(paging: bool, scan: Scan, page: nat)
    requires 1 <= page
    ensures PagesFrom(paging, scan, page) >= page - 1
    decreases MAX_PAGES + 1 - page
  {
    if Available(paging, scan, page) { PagesFromGrows(paging, scan, page + 1); }
  }

  lemma {:induction false} PagesFromReads(paging: bool, scan: Scan, page: nat)
    requires 1 <= page
    requires forall before: nat | 1 <= before < page :: Available(paging, scan, before)
    ensures Reads(paging, scan, PagesFrom(paging, scan, page))
    decreases MAX_PAGES + 1 - page
  {
    if Available(paging, scan, page) { PagesFromReads(paging, scan, page + 1); }
  }

  lemma PagesReadIsExact(paging: bool, scan: Scan, n: nat)
    ensures Reads(paging, scan, n) <==> n == PagesRead(paging, scan)
  {
    PagesFromReads(paging, scan, 1);
    var read := PagesRead(paging, scan);
    assert Available(paging, scan, n + 1) <==> 1 <= n + 1 <= read || Available(paging, scan, n + 1);
    assert read < n && Reads(paging, scan, n) ==> Available(paging, scan, read + 1);
  }

  /** Why a scan stopped after its last page. */
  datatype End =
    | Complete                          // every page up to the last reported total was read
    | Capped                            // the page limit was reached with pages left
    | Cut(answer: Answer)               // a page that was due could not be read

  function EndOf(paging: bool, scan: Scan): End {
    var n := PagesRead(paging, scan);
    if Known(paging, scan, n + 1) <= n then Complete
    else if n >= 200 then Capped
    else Cut(scan(n + 1))
  }

  /** The scan stopped somewhere after page 1 by an error that is no refusal, or at the cap. */
  predicate Broken(req: Request, scan: Scan) {
    match EndOf(req.paging, scan)
    case Complete => false
    case Capped => true
    case Cut(Failed(message)) => !UnsupportedRegion(message) && PagesRead(req.paging, scan) > 0
    case Cut(_) => false
  }

  /** The scan recorded a problem. */
  predicate Complains(req: Request, scan: Scan) {
    match EndOf(req.paging, scan)
    case Complete => false
    case Capped => true
    case Cut(Failed(message)) => !UnsupportedRegion(message)
    case Cut(_) => false
  }

  function PageItems(req: Request, scan: Scan, path: string, region: string, from: nat, to: nat): seq<Item>
    decreases to - from
  {
    if from > to then []
    else
      (match scan(from) case Page(_, items) => Usable(items, req.kind, path, region) case _ => [])
      + PageItems(req, scan, path, region, from + 1, to)
  }

  /** `after` is `local` with these items added and these facts recorded. */
  ghost predicate Adds(local: Local, after: Local, items: seq<Item>, answered: bool, broken: bool, complains: bool) {
    && after.items == local.items + items
    && (after.successes > 0 <==> local.successes > 0 || answered)
    && after.incomplete == (local.incomplete || broken)
    && (after.problems != [] <==> local.problems != [] || complains)
  }

  lemma AddsCompose(local: Local, mid: Local, after: Local, items: seq<Item>, more: seq<Item>,
                    a: bool, b: bool, c: bool, a': bool, b': bool, c': bool)
    requires Adds(local, mid, items, a, b, c) && Adds(mid, after, more, a', b', c')
    ensures Adds(local, after, items + more, a || a', b || b', c || c')
  {
    assert local.items + (items + more) == (local.items + items) + more;
  }

  lemma ScanAhead(req: Request, scan: Scan, path: string, region: string, page: nat, local: Local)
    requires Available(req.paging, scan, page)
    ensures ScanPages(req, scan, path, region, page, Known(req.paging, scan, page), local)
         == ScanPages(req, scan, path, region, page + 1, Known(req.paging, scan, page + 1),
                      Accept(local, Usable(scan(page).items, req.kind, path, region)))
  {
    hide Usable;
  }

  lemma ScanHalts(req: Request, scan: Scan, path: string, region: string, page: nat, local: Local)
    requires 1 <= page <= MAX_PAGES + 1 && page - 1 == PagesRead(req.paging, scan)
    requires !Available(req.paging, scan, page)
    ensures Adds(local, ScanPages(req, scan, path, region, page, Known(req.paging, scan, page), local), [],
                 false, Broken(req, scan), Complains(req, scan))
  {
    hide UnsupportedRegion, Usable;
  }

  lemma {:induction false} ScanPagesMeaning(
      req: Request, scan: Scan, path: string, region: string, page: nat, local: Local)
    requires 1 <= page <= MAX_PAGES + 1
    requires PagesFrom(req.paging, scan, page) == PagesRead(req.paging, scan)
    ensures
      var n := PagesRead(req.paging, scan);
      Adds(local, ScanPages(req, scan, path, region, page, Known(req.paging, scan, page), local),
           PageItems(req, scan, path, region, page, n), n >= page, Broken(req, scan), Complains(req, scan))
    decreases MAX_PAGES + 1 - page
  {
    hide UnsupportedRegion, Usable, Broken, Complains, ScanPages, Known;
    if Available(req.paging, scan, page) {
      var next := Accept(local, Usable(scan(page).items, req.kind, path, region));
      PagesFromGrows(req.paging, scan, page + 1);
      ScanAhead(req, scan, path, region, page, local);
      ScanPagesMeaning(req, scan, path, region, page + 1, next);
    } else {
      ScanHalts(req, scan, path, region, page, local);
    }
  }

  // ---------------------------------------------------------------- one region

  function Count(req: Request, provider: Provider, r: nat, p: nat, v: nat): nat {
    PagesRead(req.paging, provider(r, p, v))
  }

  predicate ScanBroken(req: Request, provider: Provider, r: nat, p: nat, v: nat) {
    Broken(req, provider(r, p, v))
  }

  predicate ScanComplains(req: Request, provider: Provider, r: nat, p: nat, v: nat) {
    Complains(req, provider(r, p, v))
  }

  /** The usable items of the pages that were read, in the order they were read. */
  function VariantItems(req: Request, provider: Provider, r: nat, p: nat, v: nat): seq<Item>
    requires r < |req.regions| && p < |req.paths|
    decreases req.Variants() - v
  {
    if v >= req.Variants() then []
    else
      PageItems(req, provider(r, p, v), req.paths[p], req.regions[r], 1, Count(req, provider, r, p, v))
      + VariantItems(req, provider, r, p, v + 1)
  }

  function PathItems(req: Request, provider: Provider, r: nat, p: nat): seq<Item>
    requires r < |req.regions|
    decreases |req.paths| - p
  {
    if p >= |req.paths| then []
    else VariantItems(req, provider, r, p, 0) + PathItems(req, provider, r, p + 1)
  }

  function ReturnedItems(req: Request, provider: Provider, r: nat): seq<Item>
    requires r < |req.regions|
  {
    PathItems(req, provider, r, 0)
  }

  ghost predicate Answered(req: Request, provider: Provider, r: nat, p: nat, from: nat) {
    exists v: nat :: from <= v < req.Variants() && Count(req, provider, r, p, v) > 0
  }

  ghost predicate CutShort(req: Request, provider: Provider, r: nat, p: nat, from: nat) {
    exists v: nat :: from <= v < req.Variants() && ScanBroken(req, provider, r, p, v)
  }

  ghost predicate Complained(req: Request, provider: Provider, r: nat, p: nat, from: nat) {
    exists v: nat :: from <= v < req.Variants() && ScanComplains(req, provider, r, p, v)
  }

  lemma VariantStep(req: Request, provider: Provider, r: nat, p: nat, v: nat)
    requires v < req.Variants()
    ensures Answered(req, provider, r, p, v) <==>
            Count(req, provider, r, p, v) > 0 || Answered(req, provider, r, p, v + 1)
    ensures CutShort(req, provider, r, p, v) <==>
            ScanBroken(req, provider, r, p, v) || CutShort(req, provider, r, p, v + 1)
    ensures Complained(req, provider, r, p, v) <==>
            ScanComplains(req, provider, r, p, v) || Complained(req, provider, r, p, v + 1)
  {
  }

  lemma {:induction false} VariantsMeaning(req: Request, provider: Provider, r: nat, p: nat, v: nat, local: Local)
    requires r < |req.regions| && p < |req.paths| && v <= req.Variants()
    ensures Adds(local, ScanVariants(req, provider, r, p, v, local), VariantItems(req, provider, r, p, v),
                 Answered(req, provider, r, p, v), CutShort(req, provider, r, p, v), Complained(req, provider, r, p, v))
    decreases req.Variants() - v
  {
    hide ScanPages, PageItems, Broken, Complains;
    if v < req.Variants() {
      hide Adds, Answered, CutShort, Complained;
      var scan, path, region := provider(r, p, v), req.paths[p], req.regions[r];
      var next := ScanPages(req, scan, path, region, 1, 1, local);
      var n := Count(req, provider, r, p, v);
      ScanPagesMeaning(req, scan, path, region, 1, local);
      VariantsMeaning(req, provider, r, p, v + 1, next);
      VariantStep(req, provider, r, p, v);
      AddsCompose(local, next, ScanVariants(req, provider, r, p, v + 1, next),
                  PageItems(req, scan, path, region, 1, n), VariantItems(req, provider, r, p, v + 1),
                  n > 0, ScanBroken(req, provider, r, p, v), ScanComplains(req, provider, r, p, v),
                  Answered(req, provider, r, p, v + 1), CutShort(req, provider, r, p, v + 1),
                  Complained(req, provider, r, p, v + 1));
    }
  }

  ghost predicate RegionAnswered(req: Request, provider: Provider, r: nat, from: nat) {
    exists p: nat :: from <= p < |req.paths| && Answered(req, provider, r, p, 0)
  }

  ghost predicate RegionCutShort(req: Request, provider: Provider, r: nat, from: nat) {
    exists p: nat :: from <= p < |req.paths| && CutShort(req, provider, r, p, 0)
  }

  ghost predicate RegionComplained(req: Request, provider: Provider, r: nat, from: nat) {
    exists p: nat :: from <= p < |req.paths| && Complained(req, provider, r, p, 0)
  }

  lemma PathStep(req: Request, provider: Provider, r: nat, p: nat)
    requires p < |req.paths|
    ensures RegionAnswered(req, provider, r, p) <==>
            Answered(req, provider, r, p, 0) || RegionAnswered(req, provider, r, p + 1)
    ensures RegionCutShort(req, provider, r, p) <==>
            CutShort(req, provider, r, p, 0) || RegionCutShort(req, provider, r, p + 1)
    ensures RegionComplained(req, provider, r, p) <==>
            Complained(req, provider, r, p, 0) || RegionComplained(req, provider, r, p + 1)
  {
    hide Answered, CutShort, Complained;
  }

  lemma {:induction false} PathsMeaning(req: Request, provider: Provider, r: nat, p: nat, local: Local)
    requires r < |req.regions| && p <= |req.paths|
    ensures Adds(local, ScanPaths(req, provider, r, p, local), PathItems(req, provider, r, p),
                 RegionAnswered(req, provider, r, p), RegionCutShort(req, provider, r, p),
                 RegionComplained(req, provider, r, p))
    decreases |req.paths| - p
  {
    hide ScanVariants, VariantItems;
    if p < |req.paths| {
      hide Adds, Answered, CutShort, Complained, RegionAnswered, RegionCutShort, RegionComplained;
      var next := ScanVariants(req, provider, r, p, 0, local);
      VariantsMeaning(req, provider, r, p, 0, local);
      PathsMeaning(req, provider, r, p + 1, next);
      PathStep(req, provider, r, p);
      AddsCompose(local, next, ScanPaths(req, provider, r, p + 1, next),
                  VariantItems(req, provider, r, p, 0), PathItems(req, provider, r, p + 1),
                  Answered(req, provider, r, p, 0), CutShort(req, provider, r, p, 0), Complained(req, provider, r, p, 0),
                  RegionAnswered(req, provider, r, p + 1), RegionCutShort(req, provider, r, p + 1),
                  RegionComplained(req, provider, r, p + 1));
    }
  }

  /** A broken scan has read a page: both ways to break need page 1. */
  lemma BrokenMeansCounted(req: Request, provider: Provider, r: nat, p: nat, v: nat)
    requires ScanBroken(req, provider, r, p, v)
    ensures Count(req, provider, r, p, v) > 0 && ScanComplains(req, provider, r, p, v)
  {
  }

  /** A region is a success exactly when some page of it was read and none of its scans was cut
      short after page 1; it is skipped exactly when no page was read and no scan complained. */
  lemma StatusMeaning(req: Request, provider: Provider, r: nat)
    requires r < |req.regions|
    ensures
      var status := Classify(ScanRegion(req, provider, r));
      && (status == Success <==> RegionAnswered(req, provider, r, 0) && !RegionCutShort(req, provider, r, 0))
      && (status == Skipped <==> !RegionAnswered(req, provider, r, 0) && !RegionComplained(req, provider, r, 0))
    ensures ScanRegion(req, provider, r).items == ReturnedItems(req, provider, r)
  {
    PathsMeaning(req, provider, r, 0, EMPTY);
    if RegionCutShort(req, provider, r, 0) {
      var p: nat :| p < |req.paths| && CutShort(req, provider, r, p, 0);
      var v: nat :| v < req.Variants() && ScanBroken(req, provider, r, p, v);
      BrokenMeansCounted(req, provider, r, p, v);
      assert Answered(req, provider, r, p, 0) && Complained(req, provider, r, p, 0);
    }
  }

  // ---------------------------------------------------------------- the merge

  /** Every non-empty id once, at its first occurrence. */
  function FirstSeen(items: seq<Item>, kind: string): seq<Item> {
    if items == [] then []
    else
      var before, item := items[..|items| - 1], items[|items| - 1];
      if ResourceId(item, kind) == "" || HasId(before, kind, ResourceId(item, kind)) then FirstSeen(before, kind)
      else FirstSeen(before, kind) + [item]
  }

  predicate HasId(items: seq<Item>, kind: string, id: string) {
    exists i :: 0 <= i < |items| && ResourceId(items[i], kind) == id
  }

  ghost predicate IsFirst(items: seq<Item>, kind: string, i: int) {
    && 0 <= i < |items|
    && ResourceId(items[i], kind) != ""
    && !HasId(items[..i], kind, ResourceId(items[i], kind))
  }

  /** `out` is the items at `positions`: the first occurrences, all of them, in order. */
  ghost predicate Picks(items: seq<Item>, kind: string, out: seq<Item>, positions: seq<int>) {
    && |positions| == |out|
    && (forall k :: 0 <= k < |out| ==> IsFirst(items, kind, positions[k]) && out[k] == items[positions[k]])
    && (forall j, k :: 0 <= j < k < |out| ==> positions[j] < positions[k])
    && (forall i :: IsFirst(items, kind, i) ==> i in positions)
  }

  lemma IsFirstPrefix(items: seq<Item>, kind: string, n: nat, i: int)
    requires 0 <= i < n <= |items|
    ensures IsFirst(items, kind, i) == IsFirst(items[..n], kind, i)
  {
    assert items[..n][..i] == items[..i];
  }

  lemma {:induction false} FirstSeenPicks(items: seq<Item>, kind: string) returns (positions: seq<int>)
    ensures Picks(items, kind, FirstSeen(items, kind), positions)
  {
    hide ResourceId;
    if items == [] {
      positions := [];
    } else {
      var n := |items| - 1;
      var before := FirstSeenPicks(items[..n], kind);
      forall i | 0 <= i < n ensures IsFirst(items, kind, i) == IsFirst(items[..n], kind, i) {
        IsFirstPrefix(items, kind, n, i);
      }
      positions := if IsFirst(items, kind, n) then before + [n] else before;
    }
  }

  /** In a listing reduced to first occurrences no two entries share an id, and the ids are
      exactly the non-empty ids of the items it came from. */
  lemma FirstSeenIds(items: seq<Item>, kind: string)
    ensures
      var out := FirstSeen(items, kind);
      && (forall j, k :: 0 <= j < k < |out| ==> ResourceId(out[j], kind) != ResourceId(out[k], kind))
      && (forall id :: HasId(out, kind, id) <==> id != "" && HasId(items, kind, id))
  {
    var out := FirstSeen(items, kind);
    var positions := FirstSeenPicks(items, kind);
    forall j, k | 0 <= j < k < |out| ensures ResourceId(out[j], kind) != ResourceId(out[k], kind) {
      assert IsFirst(items, kind, positions[k]) && positions[j] < positions[k];
      assert items[..positions[k]][positions[j]] == out[j];
    }
    forall id | id != "" && HasId(items, kind, id) ensures HasId(out, kind, id) {
      var i := FirstPosition(items, kind, id);
      assert IsFirst(items, kind, i) && i in positions;
      var k :| 0 <= k < |positions| && positions[k] == i;
      assert ResourceId(out[k], kind) == id;
    }
    forall id | HasId(out, kind, id) ensures id != "" && HasId(items, kind, id) {
      var k :| 0 <= k < |out| && ResourceId(out[k], kind) == id;
      assert IsFirst(items, kind, positions[k]);
    }
  }

  lemma {:induction false} FirstPosition(items: seq<Item>, kind: string, id: string) returns (i: int)
    requires id != "" && HasId(items, kind, id)
    ensures IsFirst(items, kind, i) && ResourceId(items[i], kind) == id
    decreases |items|
  {
    i :| 0 <= i < |items| && ResourceId(items[i], kind) == id;
    if HasId(items[..i], kind, id) {
      var k := i;
      i := FirstPosition(items[..k], kind, id);
      IsFirstPrefix(items, kind, k, i);
    }
  }

  /** Region ids whose keys cannot be confused: distinct, and none the tail of another after a colon. */
  ghost predicate KeySafe(regions: seq<string>) {
    forall i, j :: 0 <= i < j < |regions| ==> !Confusable(regions[i], regions[j])
  }

  predicate HasSuffix(text: string, tail: string) {
    |tail| <= |text| && text[|text| - |tail|..] == tail
  }

  predicate Confusable(a: string, b: string) {
    a == b || HasSuffix(a, ":" + b) || HasSuffix(b, ":" + a)
  }

  lemma ConfusedKeys(x: string, a: string, y: string, b: string)
    requires SeenKey(x, a) == SeenKey(y, b)
    ensures Confusable(a, b)
  {
    var key := SeenKey(x, a);
    assert key[|x|..] == ":" + a && key[|y|..] == ":" + b;
    if |a| < |b| {
      assert b == key[|y| + 1..];
      assert b[|b| - |a| - 1..] == key[|x|..];
    } else if |b| < |a| {
      assert a == key[|x| + 1..];
      assert a[|a| - |b| - 1..] == key[|y|..];
    } else {
      assert a == key[|x| + 1..] == b;
    }
  }

  /** Every key in `seen` was made from one of the regions before index `r`. */
  ghost predicate FromBefore(seen: set<string>, regions: seq<string>, r: nat) {
    forall key :: key in seen ==> exists j: nat, id :: j < r && j < |regions| && key == SeenKey(id, regions[j])
  }

  /** The keys a region adds to the `seen` map. */
  function Keys(items: seq<Item>, kind: string, region: string): set<string> {
    if items == [] then {}
    else
      var id := ResourceId(items[|items| - 1], kind);
      Keys(items[..|items| - 1], kind, region) + if id == "" then {} else {SeenKey(id, region)}
  }

  lemma SameRegionKeys(x: string, y: string, region: string)
    requires SeenKey(x, region) == SeenKey(y, region)
    ensures x == y
  {
    assert SeenKey(x, region)[..|x|] == x && SeenKey(y, region)[..|y|] == y;
  }

  lemma HasIdLast(items: seq<Item>, kind: string, id: string)
    requires items != []
    ensures HasId(items, kind, id)
       <==> HasId(items[..|items| - 1], kind, id) || ResourceId(items[|items| - 1], kind) == id
  {
    if HasId(items, kind, id) {
      var i :| 0 <= i < |items| && ResourceId(items[i], kind) == id;
      assert i < |items| - 1 ==> items[..|items| - 1][i] == items[i];
    }
  }

  lemma {:induction false} KeysAreIds(items: seq<Item>, kind: string, region: string, id: string)
    ensures SeenKey(id, region) in Keys(items, kind, region) <==> id != "" && HasId(items, kind, id)
  {
    if items != [] {
      var n := |items| - 1;
      KeysAreIds(items[..n], kind, region, id);
      HasIdLast(items, kind, id);
      var last := ResourceId(items[n], kind);
      if SeenKey(id, region) == SeenKey(last, region) { SameRegionKeys(id, last, region); }
    }
  }

  lemma {:induction false} KeysFromRegion(items: seq<Item>, kind: string, region: string, key: string)
    requires key in Keys(items, kind, region)
    ensures exists id :: key == SeenKey(id, region)
  {
    if items != [] && key in Keys(items[..|items| - 1], kind, region) {
      KeysFromRegion(items[..|items| - 1], kind, region, key);
    }
  }

  ghost predicate Unseen(seen: set<string>, region: string) {
    forall id :: SeenKey(id, region) !in seen
  }

  lemma {:induction false} DedupeIsFirstSeen(items: seq<Item>, kind: string, region: string, seen: set<string>)
    requires Unseen(seen, region)
    ensures Dedupe(items, kind, region, seen)
         == Dedup(FirstSeen(items, kind), seen + Keys(items, kind, region))
  {
    if items != [] {
      var before, id := items[..|items| - 1], ResourceId(items[|items| - 1], kind);
      DedupeIsFirstSeen(before, kind, region, seen);
      KeysAreIds(before, kind, region, id);
      assert SeenKey(id, region) !in seen;
    }
  }

  lemma UnseenRegion(seen: set<string>, regions: seq<string>, r: nat)
    requires r < |regions| && KeySafe(regions) && FromBefore(seen, regions, r)
    ensures Unseen(seen, regions[r])
  {
    forall id ensures SeenKey(id, regions[r]) !in seen {
      if SeenKey(id, regions[r]) in seen {
        var j: nat, y :| j < r && SeenKey(id, regions[r]) == SeenKey(y, regions[j]);
        ConfusedKeys(y, regions[j], id, regions[r]);
      }
    }
  }

  lemma StillFromBefore(seen: set<string>, items: seq<Item>, kind: string, regions: seq<string>, r: nat)
    requires r < |regions| && FromBefore(seen, regions, r)
    ensures FromBefore(seen + Keys(items, kind, regions[r]), regions, r + 1)
  {
    forall key | key in seen + Keys(items, kind, regions[r])
      ensures exists j: nat, id :: j < r + 1 && j < |regions| && key == SeenKey(id, regions[j])
    {
      if key in seen {
        var j: nat, id :| j < r && key == SeenKey(id, regions[j]);
      } else {
        KeysFromRegion(items, kind, regions[r], key);
      }
    }
  }

  lemma {:induction false} MergeIsFirstSeen(req: Request, locals: seq<Local>, r: nat, seen: set<string>, k: nat)
    requires |locals| == |req.regions| && KeySafe(req.regions) && r <= k < |locals|
    requires FromBefore(seen, req.regions, r)
    ensures k - r < |Merge(req, locals, r, seen)|
    ensures Merge(req, locals, r, seen)[k - r]
         == Entry(locals[k], req.regions[k], FirstSeen(locals[k].items, req.kind))
    decreases |locals| - r
  {
    hide ResourceId, Classify, ErrorText;
    var region := req.regions[r];
    UnseenRegion(seen, req.regions, r);
    DedupeIsFirstSeen(locals[r].items, req.kind, region, seen);
    if r < k {
      StillFromBefore(seen, locals[r].items, req.kind, req.regions, r);
      MergeIsFirstSeen(req, locals, r + 1, seen + Keys(locals[r].items, req.kind, region), k);
    }
  }

  /** Region, status and error of an entry come from its own region alone. */
  lemma {:induction false} MergeShape(req: Request, locals: seq<Local>, r: nat, seen: set<string>, k: nat)
    requires |locals| == |req.regions| && r <= k < |locals|
    ensures |Merge(req, locals, r, seen)| == |locals| - r
    ensures Merge(req, locals, r, seen)[k - r].(items := [])
         == Entry(locals[k], req.regions[k], [])
    decreases |locals| - r
  {
    var next := Dedupe(locals[r].items, req.kind, req.regions[r], seen).seen;
    if r < k {
      MergeShape(req, locals, r + 1, next, k);
    } else if r + 1 < |locals| {
      MergeShape(req, locals, r + 1, next, r + 1);
    }
  }

  /** The listing theorem: for region ids that cannot be confused, the entry of every region
      carries the first occurrence of each non-empty id its pages returned, in that order. */
  lemma ListingMeaning(req: Request, provider: Provider, r: nat)
    requires KeySafe(req.regions) && req.paths != [] && r < |req.regions|
    ensures
      var result := Detailed(req, Sequential(req, provider), false);
      && result.Ok? && |result.value| == |req.regions|
      && result.value[r].region == req.regions[r]
      && result.value[r].items == FirstSeen(ReturnedItems(req, provider, r), req.kind)
      && (result.value[r].status == Success <==>
            RegionAnswered(req, provider, r, 0) && !RegionCutShort(req, provider, r, 0))
      && (result.value[r].status == Skipped <==>
            !RegionAnswered(req, provider, r, 0) && !RegionComplained(req, provider, r, 0))
  {
    MergeIsFirstSeen(req, Sequential(req, provider), 0, {}, r);
    MergeShape(req, Sequential(req, provider), 0, {}, r);
    StatusMeaning(req, provider, r);
  }

  // ---------------------------------------------------------------- when a success is complete

  /** Every scan of the region read all pages up to the last reported total. */
  ghost predicate EveryScanRead(req: Request, provider: Provider, r: nat) {
    forall p: nat, v: nat | p < |req.paths| && v < req.Variants() :: EndOf(req.paging, provider(r, p, v)) == Complete
  }

  predicate Refused(req: Request, provider: Provider, r: nat, p: nat, v: nat) {
    match EndOf(req.paging, provider(r, p, v))
    case Cut(Failed(message)) => UnsupportedRegion(message)
    case _ => false
  }

  /** The scan's first page could not be read. */
  predicate FailedFirst(req: Request, provider: Provider, r: nat, p: nat, v: nat) {
    Count(req, provider, r, p, v) == 0 && EndOf(req.paging, provider(r, p, v)) != Complete
  }

  /** Some scan was refused as unsupported, on whatever page. */
  ghost predicate SomeRefused(req: Request, provider: Provider, r: nat) {
    exists p: nat, v: nat :: p < |req.paths| && v < req.Variants() && Refused(req, provider, r, p, v)
  }

  /** Some scan failed on its first page. */
  ghost predicate SomeFailedFirst(req: Request, provider: Provider, r: nat) {
    exists p: nat, v: nat :: p < |req.paths| && v < req.Variants() && FailedFirst(req, provider, r, p, v)
  }

  /** No scan of the region was stopped by a cancelled context; a cancelled scan never reaches
      the merge, because the context is still cancelled when the workers are done. */
  ghost predicate Uncancelled(req: Request, provider: Provider, r: nat) {
    forall p: nat, v: nat | p < |req.paths| && v < req.Variants() ::
      EndOf(req.paging, provider(r, p, v)) != Cut(Cancelled)
  }

  lemma CutIsNoPage(req: Request, scan: Scan, answer: Answer)
    requires EndOf(req.paging, scan) == Cut(answer)
    ensures !answer.Page?
  {
    PagesReadIsExact(req.paging, scan, PagesRead(req.paging, scan));
  }

  /** A success read everything exactly when no scan was refused on any page and none failed on its first page: these
      are the two failures the classification forgives. */
  lemma SuccessIsComplete(req: Request, provider: Provider, r: nat)
    requires r < |req.regions| && Uncancelled(req, provider, r)
    requires Classify(ScanRegion(req, provider, r)) == Success
    ensures EveryScanRead(req, provider, r) <==> !SomeRefused(req, provider, r) && !SomeFailedFirst(req, provider, r)
  {
    StatusMeaning(req, provider, r);
    forall p: nat, v: nat | p < |req.paths| && v < req.Variants()
      ensures EndOf(req.paging, provider(r, p, v)) != Complete
         <==> Refused(req, provider, r, p, v) || FailedFirst(req, provider, r, p, v)
    {
      if ScanBroken(req, provider, r, p, v) {
        assert CutShort(req, provider, r, p, 0);
      }
      match EndOf(req.paging, provider(r, p, v))
      case Cut(answer) => CutIsNoPage(req, provider(r, p, v), answer);
      case _ =>
    }
  }

  /** A listing of one region whose pages returned one item. */
  lemma OneItemListed(req: Request, provider: Provider, item: Item, path: string)
    requires |req.regions| == 1 && req.paths != [] && ResourceId(item, req.kind) != ""
    requires RegionAnswered(req, provider, 0, 0) && !RegionCutShort(req, provider, 0, 0)
    requires ReturnedItems(req, provider, 0) == [Stamp(item, path, req.regions[0])]
    ensures
      var result := Detailed(req, Sequential(req, provider), false);
      && result.Ok? && |result.value| == 1 && result.value[0].status == Success
      && |result.value[0].items| == 1 && ResourceId(result.value[0].items[0], req.kind) == ResourceId(item, req.kind)
  {
    hide Detailed, Sequential, RegionAnswered, RegionCutShort, RegionComplained, ReturnedItems, ResourceId;
    ListingMeaning(req, provider, 0);
    var listed := Stamp(item, path, req.regions[0]);
    StampKeepsId(item, req.kind, path, req.regions[0]);
    assert [listed][..0] == [];
    assert FirstSeen([listed], req.kind) == [listed];
  }

  /** What a scan returns whose first page holds one item. */
  lemma OneItemRead(req: Request, scan: Scan, path: string, region: string, total: int, item: Item)
    requires scan(1) == Page(total, [item]) && ResourceId(item, req.kind) != ""
    ensures PageItems(req, scan, path, region, 1, 1) == [Stamp(item, path, region)]
  {
    hide ResourceId, Stamp;
    assert [item][1..] == [];
    assert Usable([item], req.kind, path, region) == [Stamp(item, path, region)];
  }

  const REFUSAL := "region is not supported"

  lemma LowerStays(text: string)
    requires forall i :: 0 <= i < |text| ==> 'a' <= text[i] <= 'z' || text[i] == ' '
    ensures Lower(text) == text
  {
  }

  lemma ContainsItself(text: string)
    ensures Contains(text, text)
  {
  }

  lemma RefusalIsUnsupported()
    ensures UnsupportedRegion(REFUSAL)
  {
    hide Lower, Contains;
    LowerStays(REFUSAL);
    ContainsItself(REFUSAL);
  }

  /** Page 1 announces two pages and lists one server; page 2 is refused. */
  function RefusedOnPageTwo(): Provider {
    (r, p, v) => page =>
      if page == 1 then Page(2, [map["instanceID" := "i-1"]]) else Failed(REFUSAL)
  }

  const ONE_REGION := Request("ecs", ["r1"], ["/ecs"], 0, true)

  /** The classification does not notice a late refusal: half a listing passes as a success. */
  lemma LateRefusalPasses()
    ensures
      var result := Detailed(ONE_REGION, Sequential(ONE_REGION, RefusedOnPageTwo()), false);
      && SomeRefused(ONE_REGION, RefusedOnPageTwo(), 0) && !SomeFailedFirst(ONE_REGION, RefusedOnPageTwo(), 0)
      && result.Ok? && |result.value| == 1
      && result.value[0].status == Success
      && |result.value[0].items| == 1 && ResourceId(result.value[0].items[0], "ecs") == "i-1"
  {
    var item: Item := map["instanceID" := "i-1"];
    assert ResourceId(item, "ecs") == "i-1";
    hide Detailed, Sequential, UnsupportedRegion, ResourceId, Usable;
    var provider, scan := RefusedOnPageTwo(), RefusedOnPageTwo()(0, 0, 0);
    RefusalIsUnsupported();
    assert Available(true, scan, 1) && !Available(true, scan, 2);
    assert PagesFrom(true, scan, 2) == 1 && PagesRead(true, scan) == 1;
    assert EndOf(true, scan) == Cut(Failed(REFUSAL));
    assert Count(ONE_REGION, provider, 0, 0, 0) == 1 && Refused(ONE_REGION, provider, 0, 0, 0);
    assert Answered(ONE_REGION, provider, 0, 0, 0);
    OneItemRead(ONE_REGION, scan, "/ecs", "r1", 2, item);
    assert VariantItems(ONE_REGION, provider, 0, 0, 0) == [Stamp(item, "/ecs", "r1")];
    OneItemListed(ONE_REGION, provider, item, "/ecs");
  }

  const THREE_KINDS := Request("image", ["r1"], ["/image"], 3, true)

  /** The first kind of image is listed; the scans of the other two kinds fail on their first page. */
  function FailedVariants(): Provider {
    (r, p, v) => page => if v == 0 then Page(1, [map["id" := "i-1"]]) else Failed("timeout")
  }

  lemma FailedVariantsScans()
    ensures
      var req, provider := THREE_KINDS, FailedVariants();
      && Count(req, provider, 0, 0, 0) == 1 && EndOf(true, provider(0, 0, 0)) == Complete
      && (forall v: nat :: v > 0 ==> Count(req, provider, 0, 0, v) == 0)
      && (forall v: nat :: v > 0 ==> EndOf(true, provider(0, 0, v)) == Cut(Failed("timeout")))
  {
    var first := FailedVariants()(0, 0, 0);
    assert Available(true, first, 1) && !Available(true, first, 2);
    assert PagesFrom(true, first, 2) == 1;
    forall v: nat | v > 0
      ensures PagesRead(true, FailedVariants()(0, 0, v)) == 0
    {
      assert !Available(true, FailedVariants()(0, 0, v), 1);
    }
  }

  lemma TimeoutIsNoRefusal()
    ensures !UnsupportedRegion("timeout")
  {
    assert Lower("timeout") == "timeout";
    TooShort("timeout");
  }

  lemma {:induction false} TooShort(text: string)
    requires |text| <= 7
    ensures !UnsupportedRegion(text)
  {
    ShortContainsNothing(Lower(text), "region is not supported");
    ShortContainsNothing(Lower(text), "region not supported");
    ShortContainsNothing(Lower(text), "region is not allow to access");
    ShortContainsNothing(Lower(text), "region is not allowed to access");
    ShortContainsNothing(Lower(text), "no permission for region");
  }

  lemma {:induction false} ShortContainsNothing(text: string, part: string)
    requires |text| < |part|
    ensures !Contains(text, part)
  {
    if text != "" { ShortContainsNothing(text[1..], part); }
  }

  /** Nor does it notice a variant that failed on its first page, whatever only that variant would have listed. */
  lemma FailedVariantPasses()
    ensures
      var result := Detailed(THREE_KINDS, Sequential(THREE_KINDS, FailedVariants()), false);
      && SomeFailedFirst(THREE_KINDS, FailedVariants(), 0) && !SomeRefused(THREE_KINDS, FailedVariants(), 0)
      && result.Ok? && |result.value| == 1
      && result.value[0].status == Success
      && |result.value[0].items| == 1 && ResourceId(result.value[0].items[0], "image") == "i-1"
  {
    hide Detailed, Sequential, UnsupportedRegion, ResourceId, Usable, PagesRead, EndOf;
    var req, provider, item: Item := THREE_KINDS, FailedVariants(), map["id" := "i-1"];
    OnlyId("i-1", "image");
    FailedVariantsScans();
    TimeoutIsNoRefusal();
    assert FailedFirst(req, provider, 0, 0, 1);
    assert Answered(req, provider, 0, 0, 0);
    OneItemRead(req, provider(0, 0, 0), "/image", "r1", 1, item);
    assert VariantItems(req, provider, 0, 0, 2) == [] && VariantItems(req, provider, 0, 0, 1) == [];
    assert VariantItems(req, provider, 0, 0, 0) == [Stamp(item, "/image", "r1")];
    OneItemListed(req, provider, item, "/image");
  }

  // ---------------------------------------------------------------- when the merge loses items

  /** Every region answers every scan with one page holding one item. */
  function OneItemEach(ids: seq<string>): Provider {
    (r: nat, p: nat, v: nat) => (page: nat) => Page(1, [map["id" := if r < |ids| then ids[r] else "x"]])
  }

  function OnePath(kind: string, regions: seq<string>): Request {
    Request(kind, regions, ["/list"], 0, true)
  }

  lemma {:induction false} FirstTextFinds(item: Item, keys: seq<string>, key: string)
    requires key in keys && item.Keys == {key} && item[key] != ""
    ensures FirstText(item, keys) == item[key]
  {
    if keys[0] != key { FirstTextFinds(item, keys[1..], key); }
  }

  lemma OnlyId(id: string, kind: string)
    requires id != ""
    ensures ResourceId(map["id" := id], kind) == id
  {
    var keys := IdKeys(kind);
    assert "id" in keys by { assert if kind == "ecs" then keys[8] == "id" else keys[0] == "id"; }
    FirstTextFinds(map["id" := id], keys, "id");
  }

  /** One region's scan of a one-item provider. */
  lemma OneItemScan(kind: string, regions: seq<string>, ids: seq<string>, r: nat)
    requires r < |regions| == |ids| && ids[r] != ""
    ensures
      var item := Stamp(map["id" := ids[r]], "/list", regions[r]);
      && ResourceId(item, kind) == ids[r]
      && ScanRegion(OnePath(kind, regions), OneItemEach(ids), r) == Local([item], 1, [], [], false)
  {
    var req, scan := OnePath(kind, regions), OneItemEach(ids)(r, 0, 0);
    var item := map["id" := ids[r]];
    OnlyId(ids[r], kind);
    StampKeepsId(item, kind, "/list", regions[r]);
    assert scan(1) == Page(1, [item]);
    assert Usable([item], kind, "/list", regions[r]) == [Stamp(item, "/list", regions[r])];
    var after := Local([Stamp(item, "/list", regions[r])], 1, [], [], false);
    assert Accept(EMPTY, Usable([item], kind, "/list", regions[r])) == after;
    assert ScanPages(req, scan, "/list", regions[r], 2, 1, after) == after;
    assert ScanPages(req, scan, "/list", regions[r], 1, 1, EMPTY) == after;
    assert ScanVariants(req, OneItemEach(ids), r, 0, 1, after) == after;
    assert ScanVariants(req, OneItemEach(ids), r, 0, 0, EMPTY) == after;
    assert ScanPaths(req, OneItemEach(ids), r, 1, after) == after;
  }

  /** Once a key is in the map, a later region whose only item has that key lists nothing. */
  lemma {:induction false} KeySeenEarlier(req: Request, locals: seq<Local>, r: nat, seen: set<string>, j: nat)
    requires |locals| == |req.regions| && r <= j < |locals| && |locals[j].items| == 1
    requires SeenKey(ResourceId(locals[j].items[0], req.kind), req.regions[j]) in seen
    ensures j - r < |Merge(req, locals, r, seen)| && Merge(req, locals, r, seen)[j - r].items == []
    decreases |locals| - r
  {
    hide ResourceId, Classify, ErrorText;
    var kept := Dedupe(locals[r].items, req.kind, req.regions[r], seen);
    SeenGrows(locals[r].items, req.kind, req.regions[r], seen);
    if r < j {
      KeySeenEarlier(req, locals, r + 1, kept.seen, j);
    } else {
      assert locals[j].items[..0] == [];
    }
  }

  lemma {:induction false} SeenGrows(items: seq<Item>, kind: string, region: string, seen: set<string>)
    ensures seen <= Dedupe(items, kind, region, seen).seen
  {
    if items != [] { SeenGrows(items[..|items| - 1], kind, region, seen); }
  }

  lemma {:induction false} LaterItemLost(req: Request, locals: seq<Local>, r: nat, seen: set<string>, i: nat, j: nat)
    requires |locals| == |req.regions| && r <= i < j < |locals|
    requires |locals[i].items| == 1 && |locals[j].items| == 1
    requires ResourceId(locals[i].items[0], req.kind) != ""
    requires SeenKey(ResourceId(locals[i].items[0], req.kind), req.regions[i])
          == SeenKey(ResourceId(locals[j].items[0], req.kind), req.regions[j])
    ensures j - r < |Merge(req, locals, r, seen)| && Merge(req, locals, r, seen)[j - r].items == []
    decreases |locals| - r
  {
    hide ResourceId, Classify, ErrorText;
    var kept := Dedupe(locals[r].items, req.kind, req.regions[r], seen);
    if r < i {
      LaterItemLost(req, locals, r + 1, kept.seen, i, j);
    } else {
      var item := locals[i].items[0];
      assert locals[i].items == [item] && [item][..0] == [];
      assert Dedupe([], req.kind, req.regions[i], seen) == Dedup([], seen);
      KeySeenEarlier(req, locals, r + 1, kept.seen, j);
    }
  }

  /** Two ids that give confusable regions the same key. */
  lemma ConfusingIds(a: string, b: string) returns (x: string, y: string)
    requires Confusable(a, b)
    ensures x != "" && y != "" && SeenKey(x, a) == SeenKey(y, b)
    ensures y != "b" && (x == y ==> a == b)
  {
    if a == b {
      x, y := "a", "a";
    } else if HasSuffix(a, ":" + b) {
      var w := a[..|a| - |b| - 1];
      assert a == w + (":" + b);
      x, y := "a", "a:" + w;
      assert SeenKey(x, a) == "a:" + w + ":" + b;
    } else {
      var w := b[..|b| - |a| - 1];
      assert b == w + (":" + a);
      x, y := "a:" + w, "a";
      assert SeenKey(y, b) == "a:" + w + ":" + a;
    }
  }

  /** One-item answers that make two regions `i` and `j` clash. */
  lemma ClashingIds(regions: seq<string>) returns (ids: seq<string>, i: nat, j: nat)
    requires !KeySafe(regions)
    ensures i < j < |regions| == |ids| && forall n :: 0 <= n < |ids| ==> ids[n] != ""
    ensures SeenKey(ids[i], regions[i]) == SeenKey(ids[j], regions[j])
    ensures forall n :: 0 <= n < |ids| && n != j && ids[n] == ids[j] ==> n == i && regions[i] == regions[j]
  {
    i, j :| i < j < |regions| && Confusable(regions[i], regions[j]);
    var x, y := ConfusingIds(regions[i], regions[j]);
    ids := seq(|regions|, n => if n == j then y else if n == i then x else "b");
  }

  /** KeySafe is exact: any other region list has a provider whose answers are read in full and
      without error, yet one region is listed as an empty success. */
  lemma UnsafeKeysLoseItems(kind: string, regions: seq<string>) returns (ids: seq<string>, i: nat, j: nat)
    requires !KeySafe(regions)
    ensures i < j < |regions| == |ids| && forall n :: 0 <= n < |ids| ==> ids[n] != ""
    ensures forall n :: 0 <= n < |ids| && n != j && ids[n] == ids[j] ==> n == i && regions[i] == regions[j]
    ensures
      var req := OnePath(kind, regions);
      var result := Detailed(req, Sequential(req, OneItemEach(ids)), false);
      && result.Ok? && |result.value| == |regions|
      && result.value[j].status == Success && result.value[j].items == []
      && |ScanRegion(req, OneItemEach(ids), j).items| == 1
      && ResourceId(ScanRegion(req, OneItemEach(ids), j).items[0], kind) == ids[j]
  {
    ids, i, j := ClashingIds(regions);
    var req := OnePath(kind, regions);
    var locals := Sequential(req, OneItemEach(ids));
    OneItemScan(kind, regions, ids, i);
    OneItemScan(kind, regions, ids, j);
    LaterItemLost(req, locals, 0, {}, i, j);
    MergeShape(req, locals, 0, {}, j);
  }

  /** The merge never adds an id to a region. */
  lemma {:induction false} MergeAddsNothing(req: Request, locals: seq<Local>, r: nat, seen: set<string>, k: nat, id: string)
    requires |locals| == |req.regions| && r <= k < |locals|
    requires k - r < |Merge(req, locals, r, seen)| && HasId(Merge(req, locals, r, seen)[k - r].items, req.kind, id)
    ensures HasId(locals[k].items, req.kind, id)
    decreases |locals| - r
  {
    hide ResourceId, ErrorText, Classify;
    var kept := Dedupe(locals[r].items, req.kind, req.regions[r], seen);
    if r < k {
      MergeAddsNothing(req, locals, r + 1, kept.seen, k, id);
    } else {
      DedupeAddsNothing(locals[r].items, req.kind, req.regions[r], seen, id);
    }
  }

  lemma {:induction false} DedupeAddsNothing(items: seq<Item>, kind: string, region: string, seen: set<string>, id: string)
    requires HasId(Dedupe(items, kind, region, seen).items, kind, id)
    ensures HasId(items, kind, id)
  {
    hide ResourceId;
    if items != [] {
      var n := |items| - 1;
      var before := Dedupe(items[..n], kind, region, seen).items;
      HasIdLast(items, kind, id);
      if HasId(before, kind, id) {
        DedupeAddsNothing(items[..n], kind, region, seen, id);
      } else {
        var out := Dedupe(items, kind, region, seen).items;
        HasIdLast(out, kind, id);
      }
    }
  }
}
