/** Where the entries of a listing come from: the listing theorem in terms of the provider's pages and of nothing the
    scan computes (internal/ctyun/client.go:273-378). */
module ListingOrigins {
  import opened Identity
  import opened RegionListing
  import opened ListingTheorems

  /** One place in the answers for a region. */
  datatype Origin = Origin(path: nat, variant: nat, page: nat, index: nat)

  /** The order in which places are reached. */
  predicate Before(a: Origin, b: Origin) {
    || a.path < b.path
    || (a.path == b.path && a.variant < b.variant)
    || (a.path == b.path && a.variant == b.variant && a.page < b.page)
    || (a.path == b.path && a.variant == b.variant && a.page == b.page && a.index < b.index)
  }

  /** The scan read this place: its page is one of the first pages, all of which were announced and answered. */
  predicate Read(req: Request, provider: Provider, r: nat, o: Origin) {
    && o.path < |req.paths| && (o.variant < req.variants || o.variant == req.variants == 0)
    && 1 <= o.page <= PagesRead(req.paging, provider(r, o.path, o.variant))
    && provider(r, o.path, o.variant)(o.page).Page?
    && o.index < |provider(r, o.path, o.variant)(o.page).items|
  }

  /** The item as the provider sent it. */
  function Raw(req: Request, provider: Provider, r: nat, o: Origin): Item
    requires Read(req, provider, r, o)
  {
    provider(r, o.path, o.variant)(o.page).items[o.index]
  }

  /** What is listed for a place: the provider's item with its origin noted on it. */
  predicate ListedAs(req: Request, provider: Provider, r: nat, o: Origin, item: Item)
    requires r < |req.regions|
  {
    && Read(req, provider, r, o)
    && item == Raw(req, provider, r, o)["_api_path" := req.paths[o.path]]["_scan_region" := req.regions[r]]
  }

  predicate Named(req: Request, provider: Provider, r: nat, o: Origin) {
    Read(req, provider, r, o) && ResourceId(Raw(req, provider, r, o), req.kind) != ""
  }

  /** `o` comes at or after `from`, below the same page, scan or path, depending on the level. */
  predicate Within(level: nat, from: Origin, o: Origin) {
    && (level < 3 ==> o.path == from.path) && (level < 2 ==> o.variant == from.variant)
    && (level < 1 ==> o.page == from.page)
    && (level == 0 ==> o.index >= from.index) && (level == 1 ==> o.page >= from.page)
    && (level == 2 ==> o.variant >= from.variant) && (level == 3 ==> o.path >= from.path)
  }

  /** These items were read at these places, in order, and at no other place within the level an item with an id. */
  ghost predicate Traced(req: Request, provider: Provider, r: nat, level: nat, from: Origin,
                         items: seq<Item>, origins: seq<Origin>)
    requires r < |req.regions|
  {
    && |origins| == |items|
    && (forall k :: 0 <= k < |items| ==>
          ListedAs(req, provider, r, origins[k], items[k]) && Named(req, provider, r, origins[k])
          && Within(level, from, origins[k]))
    && (forall j, k :: 0 <= j < k < |origins| ==> Before(origins[j], origins[k]))
    && (forall o :: Named(req, provider, r, o) && Within(level, from, o) ==> o in origins)
  }

  /** Two traced parts, one after the other. */
  lemma TracedConcat(req: Request, provider: Provider, r: nat, level: nat, from: Origin, items: seq<Item>,
                     origins: seq<Origin>, inner: nat, first: Origin, more: seq<Item>, others: seq<Origin>, next: Origin)
    requires r < |req.regions|
    requires Traced(req, provider, r, inner, first, items, origins) && Traced(req, provider, r, level, next, more, others)
    requires forall o :: Named(req, provider, r, o) && Within(level, from, o)
               ==> Within(inner, first, o) || Within(level, next, o)
    requires forall o :: Within(inner, first, o) ==> Within(level, from, o)
    requires forall o :: Within(level, next, o) ==> Within(level, from, o)
    requires forall o, o' :: Within(inner, first, o) && Within(level, next, o') ==> Before(o, o')
    ensures Traced(req, provider, r, level, from, items + more, origins + others)
  {
    hide Named, Before, Within, ListedAs;
  }

  /** One more item before the ones traced from the next place on. */
  lemma TracedCons(req: Request, provider: Provider, r: nat, here: Origin, items: seq<Item>, origins: seq<Origin>)
    requires r < |req.regions| && Read(req, provider, r, here)
    requires Traced(req, provider, r, 0, here.(index := here.index + 1), items, origins)
    ensures
      var item := Stamp(Raw(req, provider, r, here), req.paths[here.path], req.regions[r]);
      if Named(req, provider, r, here) then Traced(req, provider, r, 0, here, [item] + items, [here] + origins)
      else Traced(req, provider, r, 0, here, items, origins)
  {
    hide Read, Raw, ResourceId;
    var next := here.(index := here.index + 1);
    forall o | Within(0, here, o) ensures o == here || Within(0, next, o) {}
    forall o | Within(0, next, o) ensures Within(0, here, o) && Before(here, o) {}
    hide Within, Before, Named;
  }

  lemma {:induction false} UsableTraced(req: Request, provider: Provider, r: nat, p: nat, v: nat, k: nat, i: nat)
    returns (origins: seq<Origin>)
    requires r < |req.regions| && p < |req.paths| && v < req.Variants()
    requires 1 <= k <= PagesRead(req.paging, provider(r, p, v)) && provider(r, p, v)(k).Page?
    requires i <= |provider(r, p, v)(k).items|
    ensures Traced(req, provider, r, 0, Origin(p, v, k, i),
                   Usable(provider(r, p, v)(k).items[i..], req.kind, req.paths[p], req.regions[r]), origins)
    decreases |provider(r, p, v)(k).items| - i
  {
    hide ResourceId, PagesRead, Traced, Stamp;
    var items, here := provider(r, p, v)(k).items, Origin(p, v, k, i);
    origins := [];
    if i < |items| {
      origins := UsableTraced(req, provider, r, p, v, k, i + 1);
      assert items[i..][0] == items[i] && items[i..][1..] == items[i + 1..];
      assert Read(req, provider, r, here) && Raw(req, provider, r, here) == items[i];
      var rest := Usable(items[i + 1..], req.kind, req.paths[p], req.regions[r]);
      TracedCons(req, provider, r, here, rest, origins);
      assert [] + rest == rest;
      if ResourceId(items[i], req.kind) != "" { origins := [here] + origins; }
    } else {
      NothingTraced(req, provider, r, 0, here);
    }
  }

  lemma {:induction false} PagesTraced(req: Request, provider: Provider, r: nat, p: nat, v: nat, k: nat)
    returns (origins: seq<Origin>)
    requires r < |req.regions| && p < |req.paths| && v < req.Variants() && 1 <= k
    ensures Traced(req, provider, r, 1, Origin(p, v, k, 0),
                   PageItems(req, provider(r, p, v), req.paths[p], req.regions[r], k, Count(req, provider, r, p, v)), origins)
    decreases Count(req, provider, r, p, v) + 1 - k
  {
    hide ResourceId, PagesRead, Usable, Traced;
    var n := Count(req, provider, r, p, v);
    origins := [];
    if k <= n {
      PageIsThere(req, provider, r, p, v, k);
      var items := provider(r, p, v)(k).items;
      var here := UsableTraced(req, provider, r, p, v, k, 0);
      assert items[0..] == items;
      var rest := PagesTraced(req, provider, r, p, v, k + 1);
      origins := here + rest;
      TracedConcat(req, provider, r, 1, Origin(p, v, k, 0), Usable(items, req.kind, req.paths[p], req.regions[r]), here,
                   0, Origin(p, v, k, 0),
                   PageItems(req, provider(r, p, v), req.paths[p], req.regions[r], k + 1, n), rest, Origin(p, v, k + 1, 0));
    } else {
      NothingTraced(req, provider, r, 1, Origin(p, v, k, 0));
    }
  }

  lemma PageIsThere(req: Request, provider: Provider, r: nat, p: nat, v: nat, k: nat)
    requires 1 <= k <= Count(req, provider, r, p, v)
    ensures provider(r, p, v)(k).Page?
  {
    PagesReadIsExact(req.paging, provider(r, p, v), PagesRead(req.paging, provider(r, p, v)));
    assert Available(req.paging, provider(r, p, v), k);
  }

  lemma NothingTraced(req: Request, provider: Provider, r: nat, level: nat, from: Origin)
    requires r < |req.regions|
    requires forall o :: Within(level, from, o) ==> !Named(req, provider, r, o)
    ensures Traced(req, provider, r, level, from, [], [])
  {
  }

  lemma {:induction false} VariantsTraced(req: Request, provider: Provider, r: nat, p: nat, v: nat)
    returns (origins: seq<Origin>)
    requires r < |req.regions| && p < |req.paths|
    ensures Traced(req, provider, r, 2, Origin(p, v, 1, 0), VariantItems(req, provider, r, p, v), origins)
    decreases req.Variants() - v
  {
    hide ResourceId, PagesRead, PageItems, Traced;
    origins := [];
    if v < req.Variants() {
      var here := PagesTraced(req, provider, r, p, v, 1);
      var rest := VariantsTraced(req, provider, r, p, v + 1);
      origins := here + rest;
      TracedConcat(req, provider, r, 2, Origin(p, v, 1, 0),
                   PageItems(req, provider(r, p, v), req.paths[p], req.regions[r], 1, Count(req, provider, r, p, v)), here,
                   1, Origin(p, v, 1, 0), VariantItems(req, provider, r, p, v + 1), rest, Origin(p, v + 1, 1, 0));
    } else {
      NothingTraced(req, provider, r, 2, Origin(p, v, 1, 0));
    }
  }

  lemma {:induction false} PathsTraced(req: Request, provider: Provider, r: nat, p: nat)
    returns (origins: seq<Origin>)
    requires r < |req.regions|
    ensures Traced(req, provider, r, 3, Origin(p, 0, 1, 0), PathItems(req, provider, r, p), origins)
    decreases |req.paths| - p
  {
    hide ResourceId, PagesRead, VariantItems, Traced;
    origins := [];
    if p < |req.paths| {
      var here := VariantsTraced(req, provider, r, p, 0);
      var rest := PathsTraced(req, provider, r, p + 1);
      origins := here + rest;
      TracedConcat(req, provider, r, 3, Origin(p, 0, 1, 0), VariantItems(req, provider, r, p, 0), here,
                   2, Origin(p, 0, 1, 0), PathItems(req, provider, r, p + 1), rest, Origin(p + 1, 0, 1, 0));
    } else {
      NothingTraced(req, provider, r, 3, Origin(p, 0, 1, 0));
    }
  }

  // ---------------------------------------------------------------- the theorem

  /** An item with the id was read before this place. */
  ghost predicate EarlierWith(req: Request, provider: Provider, r: nat, o: Origin, id: string, e: Origin) {
    Read(req, provider, r, e) && Before(e, o) && Identifies(Raw(req, provider, r, e), req.kind, id)
  }

  /** The item at this place has the id, and no item read before it has. */
  ghost predicate FirstWith(req: Request, provider: Provider, r: nat, o: Origin, id: string) {
    && id != "" && Read(req, provider, r, o) && Identifies(Raw(req, provider, r, o), req.kind, id)
    && forall e :: !EarlierWith(req, provider, r, o, id, e)
  }

  lemma ListedId(req: Request, provider: Provider, r: nat, o: Origin, item: Item, id: string)
    requires r < |req.regions| && ListedAs(req, provider, r, o, item)
    ensures ResourceId(item, req.kind) == id <==> Identifies(Raw(req, provider, r, o), req.kind, id)
  {
    hide ResourceId, Identifies;
    StampKeepsId(Raw(req, provider, r, o), req.kind, req.paths[o.path], req.regions[r]);
    IdByPlace(Raw(req, provider, r, o), req.kind, id);
  }

  /** An item before one of the traced ones was read at an earlier place. */
  lemma ItemsAreEarlier(req: Request, provider: Provider, r: nat, items: seq<Item>, origins: seq<Origin>, i: nat, id: string)
    requires r < |req.regions| && i < |items| && Traced(req, provider, r, 3, Origin(0, 0, 1, 0), items, origins)
    requires HasId(items[..i], req.kind, id)
    ensures exists e :: EarlierWith(req, provider, r, origins[i], id, e)
  {
    hide ResourceId, Identifies, Read, Raw, Before, Within, Named;
    var j :| 0 <= j < i && ResourceId(items[..i][j], req.kind) == id;
    assert items[..i][j] == items[j] && ListedAs(req, provider, r, origins[j], items[j]);
    ListedId(req, provider, r, origins[j], items[j], id);
    assert EarlierWith(req, provider, r, origins[i], id, origins[j]);
  }

  /** And an item with the id at an earlier place is one of the items before. */
  lemma EarlierAreItems(req: Request, provider: Provider, r: nat, items: seq<Item>, origins: seq<Origin>, i: nat, id: string,
                        e: Origin)
    requires r < |req.regions| && i < |items| && Traced(req, provider, r, 3, Origin(0, 0, 1, 0), items, origins)
    requires id != "" && EarlierWith(req, provider, r, origins[i], id, e)
    ensures HasId(items[..i], req.kind, id)
  {
    hide ResourceId, Identifies, Read, Raw;
    IdByPlace(Raw(req, provider, r, e), req.kind, id);
    assert Named(req, provider, r, e) && Within(3, Origin(0, 0, 1, 0), e);
    NotBefore(e, origins[i]);
    hide Before, Within, Named;
    var j :| 0 <= j < |origins| && origins[j] == e;
    assert ListedAs(req, provider, r, e, items[j]);
    ListedId(req, provider, r, e, items[j], id);
    assert items[..i][j] == items[j];
  }

  /** A first occurrence among the items is a first occurrence among the places. */
  lemma FirstPlace(req: Request, provider: Provider, r: nat, items: seq<Item>, origins: seq<Origin>, i: nat)
    requires r < |req.regions| && i < |items| && Traced(req, provider, r, 3, Origin(0, 0, 1, 0), items, origins)
    ensures IsFirst(items, req.kind, i)
       <==> FirstWith(req, provider, r, origins[i], ResourceId(items[i], req.kind))
  {
    hide ResourceId, Identifies, PagesRead;
    var id, o := ResourceId(items[i], req.kind), origins[i];
    assert ListedAs(req, provider, r, o, items[i]);
    ListedId(req, provider, r, o, items[i], id);
    if HasId(items[..i], req.kind, id) { ItemsAreEarlier(req, provider, r, items, origins, i, id); }
    if id != "" {
      if e :| EarlierWith(req, provider, r, o, id, e) { EarlierAreItems(req, provider, r, items, origins, i, id, e); }
    }
  }

  lemma NotBefore(a: Origin, b: Origin)
    requires Before(a, b)
    ensures !Before(b, a) && a != b
  {
  }

  /** The places of the first occurrences. */
  lemma PickedPlaces(req: Request, provider: Provider, r: nat, items: seq<Item>, all: seq<Origin>, out: seq<Item>,
                     positions: seq<int>, o: Origin)
    requires r < |req.regions| && Traced(req, provider, r, 3, Origin(0, 0, 1, 0), items, all)
    requires Picks(items, req.kind, out, positions)
    ensures (exists k :: 0 <= k < |positions| && all[positions[k]] == o) <==> exists id :: FirstWith(req, provider, r, o, id)
  {
    hide ResourceId, Identifies, PagesRead, Read, Raw, FirstWith, Before, Within, Named;
    if k :| 0 <= k < |positions| && all[positions[k]] == o { FirstPlace(req, provider, r, items, all, positions[k]); }
    if id :| FirstWith(req, provider, r, o, id) {
      FirstIsNamed(req, provider, r, o, id);
      var i :| 0 <= i < |all| && all[i] == o;
      assert ListedAs(req, provider, r, o, items[i]);
      FirstIdentifies(req, provider, r, o, id);
      ListedId(req, provider, r, o, items[i], id);
      FirstPlace(req, provider, r, items, all, i);
      assert IsFirst(items, req.kind, i) && i in positions;
      var k :| 0 <= k < |positions| && positions[k] == i;
    }
  }

  lemma FirstIdentifies(req: Request, provider: Provider, r: nat, o: Origin, id: string)
    requires FirstWith(req, provider, r, o, id)
    ensures Read(req, provider, r, o) && Identifies(Raw(req, provider, r, o), req.kind, id)
  {
    hide Identifies, Read;
  }

  /** The listing, exactly: for region ids that cannot be confused, a region's entry holds the first item read with each
      id, for every id read, in the order of reading, each with its path and region noted on it. */
  lemma ListingExactly(req: Request, provider: Provider, r: nat) returns (origins: seq<Origin>)
    requires KeySafe(req.regions) && req.paths != [] && r < |req.regions|
    ensures
      var result := Detailed(req, Sequential(req, provider), false);
      && result.Ok? && |result.value| == |req.regions| && |origins| == |result.value[r].items|
      && forall k :: 0 <= k < |origins| ==> ListedAs(req, provider, r, origins[k], result.value[r].items[k])
    ensures forall j, k :: 0 <= j < k < |origins| ==> Before(origins[j], origins[k])
    ensures forall o :: o in origins <==> exists id :: FirstWith(req, provider, r, o, id)
  {
    hide ResourceId, PagesRead, PathItems, Detailed, Sequential, RegionAnswered, RegionCutShort, FirstSeen,
      RegionComplained, Read, FirstWith, Before, Within, Named, KeySafe;
    ListingMeaning(req, provider, r);
    var items := ReturnedItems(req, provider, r);
    var all := PathsTraced(req, provider, r, 0);
    var positions := FirstSeenPicks(items, req.kind);
    origins := seq(|positions|, k requires 0 <= k < |positions| => all[positions[k]]);
    forall o ensures o in origins <==> exists id :: FirstWith(req, provider, r, o, id) {
      PickedPlaces(req, provider, r, items, all, FirstSeen(items, req.kind), positions, o);
      if k :| 0 <= k < |positions| && all[positions[k]] == o { assert origins[k] == o; }
    }
  }

  lemma FirstIsNamed(req: Request, provider: Provider, r: nat, o: Origin, id: string)
    requires FirstWith(req, provider, r, o, id)
    ensures Named(req, provider, r, o) && Within(3, Origin(0, 0, 1, 0), o)
  {
    hide ResourceId, Identifies;
    IdByPlace(Raw(req, provider, r, o), req.kind, id);
  }
}
