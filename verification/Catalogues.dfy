/** What a sync keeps of what the provider holds: the exact condition under which a successful region's stored rows
    include everything behind the answers (internal/ctyun/client.go:302-341, internal/ctyun/sync.go:193-213). */
module Catalogues {
  import opened Wrappers
  import opened RegionListing
  import opened ListingTheorems
  import opened ResourceStore
  import opened SyncCommit
  import opened SyncSafety

  /** What the provider holds of one region: the pages behind each path and variant. */
  type Catalogue = (nat, nat) -> seq<seq<Item>>

  function PageOf(scan: Scan, k: nat): seq<Item> {
    match scan(k + 1)
    case Page(_, items) => items
    case _ => []
  }

  /** How many pages there are: as many as were announced last, and at least those that were read. A scan that read
      nothing announced nothing. */
  predicate PageCount(paging: bool, scan: Scan, count: nat) {
    var n := PagesRead(paging, scan);
    n > 0 ==> count == if Known(paging, scan, n + 1) > n then Known(paging, scan, n + 1) else n
  }

  /** The answers of a scan come from these pages. */
  ghost predicate ServesScan(paging: bool, scan: Scan, pages: seq<seq<Item>>) {
    && PagesRead(paging, scan) <= |pages| && PageCount(paging, scan, |pages|)
    && forall k: nat :: k < PagesRead(paging, scan) ==> pages[k] == PageOf(scan, k)
  }

  ghost predicate Serves(req: Request, provider: Provider, r: nat, catalogue: Catalogue) {
    forall p: nat, v: nat :: p < |req.paths| && v < req.Variants() ==>
      ServesScan(req.paging, provider(r, p, v), catalogue(p, v))
  }

  ghost predicate PageHas(pages: seq<seq<Item>>, kind: string, id: string) {
    exists k: nat :: k < |pages| && HasId(pages[k], kind, id)
  }

  /** Some page behind some path and variant holds the id. */
  ghost predicate Holds(req: Request, catalogue: Catalogue, id: string) {
    exists p: nat, v: nat :: p < |req.paths| && v < req.Variants() && PageHas(catalogue(p, v), req.kind, id)
  }

  // ---------------------------------------------------------------- the ids that were read

  lemma {:induction false} UsableIds(items: seq<Item>, kind: string, path: string, region: string, id: string)
    requires id != ""
    ensures HasId(Usable(items, kind, path, region), kind, id) <==> HasId(items, kind, id)
  {
    hide ResourceId, Stamp;
    if items != [] {
      var first, rest := items[0], items[1..];
      var kept := if ResourceId(first, kind) == "" then [] else [Stamp(first, path, region)];
      UsableIds(rest, kind, path, region, id);
      StampKeepsId(first, kind, path, region);
      assert items == [first] + rest && Usable(items, kind, path, region) == kept + Usable(rest, kind, path, region);
      HasIdConcat([first], rest, kind, id);
      HasIdConcat(kept, Usable(rest, kind, path, region), kind, id);
      assert HasId([first], kind, id) <==> ResourceId(first, kind) == id by { assert [first][0] == first; }
      assert HasId(kept, kind, id) <==> ResourceId(first, kind) == id by { if kept != [] { assert kept[0] == kept[0]; } }
    }
  }

  lemma HasIdConcat(a: seq<Item>, b: seq<Item>, kind: string, id: string)
    ensures HasId(a + b, kind, id) <==> HasId(a, kind, id) || HasId(b, kind, id)
  {
    hide ResourceId;
    if HasId(b, kind, id) {
      var i :| 0 <= i < |b| && ResourceId(b[i], kind) == id;
      assert (a + b)[|a| + i] == b[i];
    }
    if HasId(a, kind, id) {
      var i :| 0 <= i < |a| && ResourceId(a[i], kind) == id;
      assert (a + b)[i] == a[i];
    }
  }

  /** An id among the pages of a scan from `from` on. */
  ghost predicate ReadFrom(req: Request, scan: Scan, from: nat, to: nat, id: string) {
    exists k: nat :: from <= k + 1 <= to && HasId(PageOf(scan, k), req.kind, id)
  }

  lemma {:induction false} PageIds(req: Request, scan: Scan, path: string, region: string, from: nat, to: nat, id: string)
    requires id != "" && 1 <= from
    ensures HasId(PageItems(req, scan, path, region, from, to), req.kind, id) <==> ReadFrom(req, scan, from, to, id)
    decreases if from <= to then to + 1 - from else 0
  {
    hide HasId, Usable;
    if from <= to {
      PageIds(req, scan, path, region, from + 1, to, id);
      UsableIds(PageOf(scan, from - 1), req.kind, path, region, id);
      HasIdConcat(Usable(PageOf(scan, from - 1), req.kind, path, region),
                  PageItems(req, scan, path, region, from + 1, to), req.kind, id);
      NothingUsable(req.kind, path, region);
      assert ReadFrom(req, scan, from, to, id)
        <==> HasId(PageOf(scan, from - 1), req.kind, id) || ReadFrom(req, scan, from + 1, to, id) by {
        if HasId(PageOf(scan, from - 1), req.kind, id) { assert from <= (from - 1) + 1 <= to; }
      }
    } else {
      NoIds(req.kind, id);
    }
  }

  lemma NothingUsable(kind: string, path: string, region: string)
    ensures Usable([], kind, path, region) == []
  {
  }

  lemma NoIds(kind: string, id: string)
    ensures !HasId([], kind, id)
  {
  }

  ghost predicate ReadBy(req: Request, provider: Provider, r: nat, p: nat, v: nat, id: string) {
    ReadFrom(req, provider(r, p, v), 1, Count(req, provider, r, p, v), id)
  }

  lemma {:induction false} VariantIds(req: Request, provider: Provider, r: nat, p: nat, v: nat, id: string)
    requires id != "" && r < |req.regions| && p < |req.paths|
    ensures HasId(VariantItems(req, provider, r, p, v), req.kind, id)
       <==> exists w: nat :: v <= w < req.Variants() && ReadBy(req, provider, r, p, w, id)
    decreases req.Variants() - v
  {
    hide HasId, ReadFrom, PageItems;
    if v < req.Variants() {
      var n := Count(req, provider, r, p, v);
      VariantIds(req, provider, r, p, v + 1, id);
      PageIds(req, provider(r, p, v), req.paths[p], req.regions[r], 1, n, id);
      HasIdConcat(PageItems(req, provider(r, p, v), req.paths[p], req.regions[r], 1, n),
                  VariantItems(req, provider, r, p, v + 1), req.kind, id);
      assert ReadBy(req, provider, r, p, v, id) <==> ReadFrom(req, provider(r, p, v), 1, n, id);
      hide ReadBy, Count;
      assert (exists w: nat :: v <= w < req.Variants() && ReadBy(req, provider, r, p, w, id))
        <==> ReadBy(req, provider, r, p, v, id)
             || exists w: nat :: v + 1 <= w < req.Variants() && ReadBy(req, provider, r, p, w, id);
    } else {
      NoIds(req.kind, id);
    }
  }

  ghost predicate ReadUnder(req: Request, provider: Provider, r: nat, p: nat, id: string) {
    exists v: nat :: v < req.Variants() && ReadBy(req, provider, r, p, v, id)
  }

  lemma {:induction false} PathIds(req: Request, provider: Provider, r: nat, p: nat, id: string)
    requires id != "" && r < |req.regions|
    ensures HasId(PathItems(req, provider, r, p), req.kind, id)
       <==> exists q: nat :: p <= q < |req.paths| && ReadUnder(req, provider, r, q, id)
    decreases |req.paths| - p
  {
    hide HasId, ReadBy, VariantItems;
    if p < |req.paths| {
      PathIds(req, provider, r, p + 1, id);
      VariantIds(req, provider, r, p, 0, id);
      assert ReadUnder(req, provider, r, p, id) <==> exists w: nat :: 0 <= w < req.Variants() && ReadBy(req, provider, r, p, w, id);
      hide ReadUnder;
      HasIdConcat(VariantItems(req, provider, r, p, 0), PathItems(req, provider, r, p + 1), req.kind, id);
    } else {
      NoIds(req.kind, id);
    }
  }

  // ---------------------------------------------------------------- an id that was not read

  function LongestId(items: seq<Item>, kind: string): nat {
    if items == [] then 0
    else
      var rest, n := LongestId(items[1..], kind), |ResourceId(items[0], kind)|;
      if n > rest then n else rest
  }

  function Repeat(n: nat): string {
    seq(n, _ => 'x')
  }

  lemma {:induction false} LongestIsLongest(items: seq<Item>, kind: string, id: string)
    requires |id| > LongestId(items, kind)
    ensures !HasId(items, kind, id)
  {
    hide ResourceId;
    if items != [] {
      LongestIsLongest(items[1..], kind, id);
      assert items == [items[0]] + items[1..];
      HasIdConcat([items[0]], items[1..], kind, id);
      assert [items[0]][0] == items[0];
    }
  }

  /** The pages that were read, and behind them, where more were announced or nothing is known, pages with a new item. */
  function Extended(paging: bool, scan: Scan, item: Item): seq<seq<Item>> {
    var n := PagesRead(paging, scan);
    var known := Known(paging, scan, n + 1);
    seq(if known > n then known else n, k requires k >= 0 => if k < n then PageOf(scan, k) else [item])
  }

  lemma ExtendedServes(paging: bool, scan: Scan, item: Item)
    ensures ServesScan(paging, scan, Extended(paging, scan, item))
    ensures EndOf(paging, scan) != Complete ==>
      var n := PagesRead(paging, scan);
      n < |Extended(paging, scan, item)| && Extended(paging, scan, item)[n] == [item]
  {
    hide PagesRead;
  }

  /** Unless every scan was read to its end, the provider may hold an id that the listing does not. */
  lemma SomethingUnread(req: Request, provider: Provider, r: nat) returns (catalogue: Catalogue, id: string)
    requires r < |req.regions| && !EveryScanRead(req, provider, r)
    ensures Serves(req, provider, r, catalogue) && id != "" && Holds(req, catalogue, id)
    ensures !HasId(ReturnedItems(req, provider, r), req.kind, id)
  {
    hide EndOf, PagesRead, ServesScan, ResourceId, ReturnedItems;
    id := Repeat(LongestId(ReturnedItems(req, provider, r), req.kind) + 1);
    LongestIsLongest(ReturnedItems(req, provider, r), req.kind, id);
    var item: Item := map["id" := id];
    OnlyId(id, req.kind);
    catalogue := (p: nat, v: nat) => Extended(req.paging, provider(r, p, v), item);
    forall p: nat, v: nat | p < |req.paths| && v < req.Variants()
      ensures ServesScan(req.paging, provider(r, p, v), catalogue(p, v))
    {
      ExtendedServes(req.paging, provider(r, p, v), item);
    }
    var p: nat, v: nat :| p < |req.paths| && v < req.Variants() && EndOf(req.paging, provider(r, p, v)) != Complete;
    ExtendedServes(req.paging, provider(r, p, v), item);
    assert HasId([item], req.kind, id) by { assert [item][0] == item; }
    assert PageHas(catalogue(p, v), req.kind, id);
  }

  /** If every scan was read to its end, the listing has all ids the provider can hold. */
  lemma NothingUnread(req: Request, provider: Provider, r: nat, catalogue: Catalogue, id: string)
    requires r < |req.regions| && EveryScanRead(req, provider, r)
    requires Serves(req, provider, r, catalogue) && id != "" && Holds(req, catalogue, id)
    ensures HasId(ReturnedItems(req, provider, r), req.kind, id)
  {
    hide PagesRead, HasId, PathItems;
    var p: nat, v: nat :| p < |req.paths| && v < req.Variants() && PageHas(catalogue(p, v), req.kind, id);
    var scan := provider(r, p, v);
    assert ServesScan(req.paging, scan, catalogue(p, v)) && EndOf(req.paging, scan) == Complete;
    var k: nat :| k < |catalogue(p, v)| && HasId(catalogue(p, v)[k], req.kind, id);
    assert k < PagesRead(req.paging, scan);
    assert HasId(PageOf(scan, k), req.kind, id);
    assert ReadBy(req, provider, r, p, v, id);
    assert ReadUnder(req, provider, r, p, id);
    PathIds(req, provider, r, 0, id);
  }

  /** The stored rows of a successful region include everything the provider can hold behind its answers, if and only
      if none of the region's scans was refused on any page and none failed on its first page. */
  lemma RowsHoldCatalogue(rows: Table, account: int, req: Request, provider: Provider, normalize: Normalizer,
                          r: nat, owned: set<Key>)
    requires KeySafe(req.regions) && req.paths != [] && r < |req.regions| && Uncancelled(req, provider, r)
    requires RegionAnswered(req, provider, r, 0) && !RegionCutShort(req, provider, r, 0)
    requires
      var call := Call(account, req.kind, Detailed(req, Sequential(req, provider), false));
      Unshared(CallPlan(call, normalize), account, req.kind, req.regions[r], owned)
    requires RowsIn(rows, account, req.kind, req.regions[r]).Keys <= owned
    ensures
      var call := Call(account, req.kind, Detailed(req, Sequential(req, provider), false));
      var after := RowsIn(ApplyAll(rows, CallPlan(call, normalize)), account, req.kind, req.regions[r]);
      (forall catalogue: Catalogue, id: string ::
         Serves(req, provider, r, catalogue) && id != "" && Holds(req, catalogue, id) ==> Key(account, req.kind, id) in after)
      <==> !SomeRefused(req, provider, r) && !SomeFailedFirst(req, provider, r)
  {
    hide RowsIn, Listing, Writes, FirstSeen, ReturnedItems, CallPlan, RegionAnswered, RegionCutShort, ApplyAll, Unshared,
      Uncancelled, EveryScanRead, SomeRefused, SomeFailedFirst, Serves, Holds, KeySafe, HasId, Detailed, Sequential;
    StatusMeaning(req, provider, r);
    SuccessIsComplete(req, provider, r);
    SyncStoresListing(rows, account, req, provider, normalize, r, owned);
    var items, region := ReturnedItems(req, provider, r), req.regions[r];
    FirstSeenIds(items, req.kind);
    forall id ensures Key(account, req.kind, id) in Listing(account, req.kind, Writes(FirstSeen(items, req.kind), req.kind, region, normalize))
                 <==> id != "" && HasId(items, req.kind, id)
    {
      ListingIds(FirstSeen(items, req.kind), req.kind, region, normalize, account, id);
    }
    if EveryScanRead(req, provider, r) {
      forall catalogue: Catalogue, id: string |
        Serves(req, provider, r, catalogue) && id != "" && Holds(req, catalogue, id)
        ensures HasId(items, req.kind, id)
      {
        NothingUnread(req, provider, r, catalogue, id);
      }
    } else {
      var catalogue, id := SomethingUnread(req, provider, r);
    }
  }
}
