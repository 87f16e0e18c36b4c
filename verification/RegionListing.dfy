/** Listing one resource type over the provider's regions: the page loop, the classification of
    a region and the merge that drops repeated ids (internal/ctyun/client.go). */
module RegionListing {
  import opened Wrappers

  const MAX_PAGES: nat := 200

  /** A decoded JSON object, each field reduced to the text `textValue` gives for it. */
  type Item = map<string, string>

  /** What one pass of the page loop meets: a context that is already cancelled, a request that
      fails, or a page with the page count it announces. */
  datatype Answer =
    | Cancelled
    | Failed(message: string)
    | Page(total: int, items: seq<Item>)

  /** The answers of one path/variant scan, by page number. */
  type Scan = nat -> Answer

  /** All answers, by region, path and variant index. A request is never repeated under the same
      indices, so a function loses no behaviour of a provider that changes over time. */
  type Provider = (nat, nat, nat) -> Scan

  datatype Request = Request(
    kind: string, regions: seq<string>, paths: seq<string>, variants: nat, paging: bool)
  {
    /** An empty variant list counts as one empty variant. */
    function Variants(): nat {
      if variants == 0 then 1 else variants
    }
  }

  /** The per-region accumulator of the scanning goroutine. */
  datatype Local = Local(
    items: seq<Item>, successes: nat, problems: seq<string>, skipped: seq<string>, incomplete: bool)

  const EMPTY: Local := Local([], 0, [], [], false)

  datatype Status = Success | Failure | Skipped

  datatype RegionResult = RegionResult(region: string, status: Status, items: seq<Item>, error: string)

  // ---------------------------------------------------------------- identity of a resource

  function IdKeys(kind: string): seq<string> {
    if kind == "ecs" then
      ["instanceID", "instanceId", "instance_id", "deviceUUID", "deviceUuid", "resourceID",
       "resourceId", "uuid", "id", "ID"]
    else
      ["id", "uuid", "ID", kind + "ID", "resourceID", "instanceID", "eipID", "vpcID", "subnetID",
       "imageID", "imageUUID", "imageUuid", "image_uuid"]
  }

  function FirstText(item: Item, keys: seq<string>): string {
    if keys == [] then ""
    else if keys[0] in item && item[keys[0]] != "" then item[keys[0]]
    else FirstText(item, keys[1..])
  }

  function ResourceId(item: Item, kind: string): string {
    FirstText(item, IdKeys(kind))
  }

  function Stamp(item: Item, path: string, region: string): Item {
    item["_api_path" := path]["_scan_region" := region]
  }

  lemma {:induction false} FirstTextIgnores(item: Item, other: Item, keys: seq<string>)
    requires forall k | k in keys :: k in item <==> k in other
    requires forall k | k in keys && k in item :: item[k] == other[k]
    ensures FirstText(item, keys) == FirstText(other, keys)
  {
    if keys != [] {
      assert keys[0] in keys;
      FirstTextIgnores(item, other, keys[1..]);
    }
  }

  lemma IdKeysAreNotStamps(kind: string)
    ensures "_api_path" !in IdKeys(kind) && "_scan_region" !in IdKeys(kind)
  {
    var own := kind + "ID";
    assert own[|own| - 1] == 'D';
  }

  /** Recording where an item came from never changes which resource it is. */
  lemma StampKeepsId(item: Item, kind: string, path: string, region: string)
    ensures ResourceId(Stamp(item, path, region), kind) == ResourceId(item, kind)
  {
    IdKeysAreNotStamps(kind);
    FirstTextIgnores(Stamp(item, path, region), item, IdKeys(kind));
  }

  /** The usable items of a page: those with an id, stamped with their origin. */
  function Usable(items: seq<Item>, kind: string, path: string, region: string): seq<Item> {
    if items == [] then []
    else
      (if ResourceId(items[0], kind) == "" then [] else [Stamp(items[0], path, region)])
      + Usable(items[1..], kind, path, region)
  }

  // ---------------------------------------------------------------- refusals

  /** Lower case as far as it can matter for the ASCII phrases below. */
  function Lower(message: string): string {
    seq(|message|, i requires 0 <= i < |message| =>
      var c := message[i];
      if 'A' <= c <= 'Z' then c + ('a' - 'A')
      else if c == '\U{212A}' then 'k'
      else if c == '\U{0130}' then 'i'
      else c)
  }

  predicate Contains(text: string, part: string) {
    part <= text || (text != "" && Contains(text[1..], part))
  }

  predicate UnsupportedRegion(message: string) {
    var lower := Lower(message);
    || Contains(lower, "region is not supported")
    || Contains(lower, "region not supported")
    || Contains(lower, "region is not allow to access")
    || Contains(lower, "region is not allowed to access")
    || Contains(lower, "no permission for region")
  }

  // ---------------------------------------------------------------- the scan as a function

  function Reject(local: Local, path: string, region: string, page: nat, message: string): Local {
    if UnsupportedRegion(message) then local.(skipped := local.skipped + [message])
    else local.(problems := local.problems + [path + " " + region + ": " + message],
                incomplete := local.incomplete || page > 1)
  }

  function Accept(local: Local, items: seq<Item>): Local {
    local.(successes := local.successes + 1, items := local.items + items)
  }

  function Overflow(local: Local, path: string, region: string): Local {
    local.(incomplete := true,
           problems := local.problems + [path + " " + region + ": 分页超过安全上限 200"])
  }

  /** The page loop from `page` on, when `total` pages are announced so far. */
  function ScanPages(req: Request, scan: Scan, path: string, region: string,
                     page: nat, total: int, local: Local): Local
    decreases MAX_PAGES + 1 - page
  {
    if page <= total && page <= MAX_PAGES then
      match scan(page)
      case Cancelled => local
      case Failed(message) => Reject(local, path, region, page, message)
      case Page(pages, items) =>
        ScanPages(req, scan, path, region, page + 1, if req.paging then pages else total,
                  Accept(local, Usable(items, req.kind, path, region)))
    else if page > MAX_PAGES && total > MAX_PAGES then Overflow(local, path, region)
    else local
  }

  function ScanVariants(req: Request, provider: Provider, r: nat, p: nat, v: nat, local: Local): Local
    requires r < |req.regions| && p < |req.paths|
    decreases req.Variants() - v
  {
    if v >= req.Variants() then local
    else
      ScanVariants(req, provider, r, p, v + 1,
                   ScanPages(req, provider(r, p, v), req.paths[p], req.regions[r], 1, 1, local))
  }

  function ScanPaths(req: Request, provider: Provider, r: nat, p: nat, local: Local): Local
    requires r < |req.regions|
    decreases |req.paths| - p
  {
    if p >= |req.paths| then local
    else ScanPaths(req, provider, r, p + 1, ScanVariants(req, provider, r, p, 0, local))
  }

  /** A region that answered somewhere and was never cut short forgets its other failures. */
  function Settle(local: Local): Local {
    if local.successes > 0 && !local.incomplete then local.(problems := [], skipped := []) else local
  }

  function ScanRegion(req: Request, provider: Provider, r: nat): Local
    requires r < |req.regions|
  {
    Settle(ScanPaths(req, provider, r, 0, EMPTY))
  }

  // ---------------------------------------------------------------- the scan as the source runs it

  /** The item loop of one page. */
  method CollectItems(items: seq<Item>, kind: string, path: string, region: string)
    returns (kept: seq<Item>)
    ensures kept == Usable(items, kind, path, region)
  {
    hide ResourceId, Stamp;
    kept := [];
    for i := 0 to |items|
      invariant kept + Usable(items[i..], kind, path, region) == Usable(items, kind, path, region)
    {
      ghost var rest := Usable(items[i + 1..], kind, path, region);
      assert items[i..][1..] == items[i + 1..];
      if ResourceId(items[i], kind) != "" {
        assert kept + ([Stamp(items[i], path, region)] + rest) == kept + [Stamp(items[i], path, region)] + rest;
        kept := kept + [Stamp(items[i], path, region)];
      } else {
        assert [] + rest == rest;
      }
    }
  }

  /** The page loop of one path and variant. */
  method RunPages(req: Request, scan: Scan, path: string, region: string, before: Local)
    returns (local: Local)
    ensures local == ScanPages(req, scan, path, region, 1, 1, before)
  {
    hide Reject, Overflow, Usable;
    local := before;
    var page: nat, total: int := 1, 1;
    while page <= total && page <= MAX_PAGES
      invariant ScanPages(req, scan, path, region, page, total, local)
             == ScanPages(req, scan, path, region, 1, 1, before)
      decreases MAX_PAGES + 1 - page
    {
      match scan(page) {
        case Cancelled => return;
        case Failed(message) =>
          local := Reject(local, path, region, page, message);
          return;
        case Page(pages, items) =>
          local := local.(successes := local.successes + 1);
          if req.paging { total := pages; }
          var usable := CollectItems(items, req.kind, path, region);
          local := local.(items := local.items + usable);
          page := page + 1;
      }
    }
    if page > MAX_PAGES && total > MAX_PAGES {
      local := Overflow(local, path, region);
    }
  }

  /** What one worker does for one region index. */
  method RunRegion(req: Request, provider: Provider, r: nat) returns (local: Local)
    requires r < |req.regions|
    ensures local == ScanRegion(req, provider, r)
  {
    hide ScanPages;
    local := EMPTY;
    var p := 0;
    while p < |req.paths|
      invariant 0 <= p <= |req.paths|
      invariant ScanPaths(req, provider, r, p, local) == ScanPaths(req, provider, r, 0, EMPTY)
    {
      var v := 0;
      while v < req.Variants()
        invariant 0 <= v <= req.Variants()
        invariant ScanPaths(req, provider, r, p + 1, ScanVariants(req, provider, r, p, v, local))
               == ScanPaths(req, provider, r, 0, EMPTY)
      {
        local := RunPages(req, provider(r, p, v), req.paths[p], req.regions[r], local);
        v := v + 1;
      }
      p := p + 1;
    }
    local := Settle(local);
  }

  // ---------------------------------------------------------------- merging the regions

  function Classify(local: Local): Status {
    if local.problems != [] || local.incomplete then Failure
    else if local.successes == 0 then Skipped
    else Success
  }

  function Join(parts: seq<string>, separator: string): string {
    if parts == [] then ""
    else if |parts| == 1 then parts[0]
    else parts[0] + separator + Join(parts[1..], separator)
  }

  function ErrorText(local: Local): string {
    match Classify(local)
    case Success => ""
    case Failure => Join(local.problems, "；")
    case Skipped =>
      var text := Join(local.skipped, "；");
      if text == "" then "资源池没有返回可用响应" else text
  }

  /** The key under which the merge remembers an item. */
  function SeenKey(id: string, region: string): string {
    id + ":" + region
  }

  datatype Dedup = Dedup(items: seq<Item>, seen: set<string>)

  /** The items that survive the `seen` map, and the map afterwards. */
  function Dedupe(items: seq<Item>, kind: string, region: string, seen: set<string>): Dedup {
    if items == [] then Dedup([], seen)
    else
      var before := Dedupe(items[..|items| - 1], kind, region, seen);
      var item := items[|items| - 1];
      var id := ResourceId(item, kind);
      if id == "" || SeenKey(id, region) in before.seen then before
      else Dedup(before.items + [item], before.seen + {SeenKey(id, region)})
  }

  function Entry(local: Local, region: string, items: seq<Item>): RegionResult {
    RegionResult(region, Classify(local), items, ErrorText(local))
  }

  /** The entries of the regions from index `r` on. */
  function Merge(req: Request, locals: seq<Local>, r: nat, seen: set<string>): seq<RegionResult>
    requires |locals| == |req.regions|
    decreases |locals| - r
  {
    if r >= |locals| then []
    else
      var kept := Dedupe(locals[r].items, req.kind, req.regions[r], seen);
      [Entry(locals[r], req.regions[r], kept.items)] + Merge(req, locals, r + 1, kept.seen)
  }

  /** The merge as the source runs it, with one `seen` map over all regions. */
  method MergeRegions(req: Request, locals: seq<Local>) returns (result: seq<RegionResult>)
    requires |locals| == |req.regions|
    ensures result == Merge(req, locals, 0, {})
  {
    hide ResourceId, ErrorText;
    result := [];
    var seen := {};
    for r := 0 to |locals|
      invariant result + Merge(req, locals, r, seen) == Merge(req, locals, 0, {})
    {
      var region, found := req.regions[r], locals[r].items;
      var items := [];
      ghost var entering := seen;
      for i := 0 to |found|
        invariant Dedup(items, seen) == Dedupe(found[..i], req.kind, region, entering)
      {
        assert found[..i + 1][..i] == found[..i];
        var id := ResourceId(found[i], req.kind);
        if id != "" && SeenKey(id, region) !in seen {
          seen := seen + {SeenKey(id, region)};
          items := items + [found[i]];
        }
      }
      assert found[..|found|] == found;
      result := result + [Entry(locals[r], region, items)];
    }
  }

  /** All regions scanned one after the other. */
  function Sequential(req: Request, provider: Provider): (locals: seq<Local>)
    ensures |locals| == |req.regions|
  {
    seq(|req.regions|, r requires 0 <= r < |req.regions| => ScanRegion(req, provider, r))
  }

  const NO_REGIONS := "没有查询到可用资源池"
  const NO_PATHS := "接口 path 未配置"
  const ABORTED := "同步资源时请求被中止"

  /** The result once the workers are done; `aborted` is ctx.Err() != nil at that point. */
  function Detailed(req: Request, locals: seq<Local>, aborted: bool): Result<seq<RegionResult>, string>
    requires |locals| == |req.regions|
  {
    if req.regions == [] then Err(NO_REGIONS)
    else if req.paths == [] then Err(NO_PATHS)
    else if aborted then Err(ABORTED)
    else Ok(Merge(req, locals, 0, {}))
  }
}
