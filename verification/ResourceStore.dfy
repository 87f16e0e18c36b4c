/** The resource table and its two transactions (internal/storage/storage.go). */
module ResourceStore {

  /** The unique key of the table. */
  datatype Key = Key(account: int, kind: string, id: string)

  datatype Content = Content(name: string, region: string, status: string, billing: string, payload: string)

  /** A row: what the provider listed, and how current it is. */
  datatype Row = Row(content: Content, current: bool, error: string)

  datatype Write = Write(id: string, content: Content)

  type Table = map<Key, Row>

  predicate Targets(key: Key, row: Row, account: int, kind: string, regions: seq<string>) {
    key.account == account && key.kind == kind && (regions == [] || row.content.region in regions)
  }

  /** The deletion that opens a replacement: the rows of the listed regions, or all without regions. */
  function Cleared(rows: Table, account: int, kind: string, regions: seq<string>): Table {
    map key | key in rows && !Targets(key, rows[key], account, kind, regions) :: rows[key]
  }

  /** The insertion of one row; a row under the same unique key is overwritten but keeps its sync state. */
  function Upsert(rows: Table, account: int, kind: string, write: Write): Table {
    var key := Key(account, kind, write.id);
    if write.id == "" then rows
    else if key in rows then rows[key := rows[key].(content := write.content)]
    else rows[key := Row(write.content, false, "")]
  }

  function UpsertAll(rows: Table, account: int, kind: string, writes: seq<Write>): Table {
    if writes == [] then rows
    else Upsert(UpsertAll(rows, account, kind, writes[..|writes| - 1]), account, kind, writes[|writes| - 1])
  }

  /** The update that closes a replacement marks the rows of the listed regions as current. */
  function Freshened(rows: Table, account: int, kind: string, regions: seq<string>): Table {
    map key | key in rows ::
      if Targets(key, rows[key], account, kind, regions) then Row(rows[key].content, true, "") else rows[key]
  }

  function Replaced(rows: Table, account: int, kind: string, regions: seq<string>, writes: seq<Write>): Table {
    Freshened(UpsertAll(Cleared(rows, account, kind, regions), account, kind, writes), account, kind, regions)
  }

  function Staled(rows: Table, account: int, kind: string, region: string, error: string): Table {
    map key | key in rows ::
      if Targets(key, rows[key], account, kind, [region]) then Row(rows[key].content, false, error) else rows[key]
  }

  datatype SyncStatus = Succeeded | FailedRegion | SkippedRegion

  datatype Tx =
    | Replace(account: int, kind: string, regions: seq<string>, writes: seq<Write>)
    | Record(account: int, kind: string, region: string, status: SyncStatus, count: nat, error: string)

  /** What a committed transaction does to the resource rows. */
  function Apply(rows: Table, tx: Tx): Table {
    match tx
    case Replace(account, kind, regions, writes) => Replaced(rows, account, kind, regions, writes)
    case Record(account, kind, region, status, _, error) =>
      if status == Succeeded then rows else Staled(rows, account, kind, region, error)
  }

  function ApplyAll(rows: Table, trace: seq<Tx>): Table {
    if trace == [] then rows else Apply(ApplyAll(rows, trace[..|trace| - 1]), trace[|trace| - 1])
  }

  lemma ApplyOne(rows: Table, trace: seq<Tx>, tx: Tx)
    ensures ApplyAll(rows, trace + [tx]) == Apply(ApplyAll(rows, trace), tx)
  {
    assert (trace + [tx])[..|trace|] == trace;
  }

  /** The store. `log` is its committed transactions; one that fails is rolled back. */
  class Store {
    var rows: Table
    ghost var log: seq<Tx>

    ghost predicate Valid()
      reads this
    {
      rows == ApplyAll(map[], log)
    }

    constructor ()
      ensures Valid() && rows == map[] && log == []
    {
      rows, log := map[], [];
    }

    method ReplaceResources(account: int, kind: string, regions: seq<string>, writes: seq<Write>, fails: bool)
      requires Valid()
      modifies this
      ensures Valid()
      ensures log == old(log) + if fails then [] else [Replace(account, kind, regions, writes)]
      ensures rows == if fails then old(rows) else Replaced(old(rows), account, kind, regions, writes)
    {
      var before := rows;
      rows := Cleared(rows, account, kind, regions);
      ghost var cleared := rows;
      for i := 0 to |writes|
        invariant rows == UpsertAll(cleared, account, kind, writes[..i])
        invariant log == old(log)
      {
        assert writes[..i + 1][..i] == writes[..i];
        rows := Upsert(rows, account, kind, writes[i]);
      }
      assert writes[..|writes|] == writes;
      rows := Freshened(rows, account, kind, regions);
      if fails {
        rows := before;
      } else {
        ApplyOne(map[], log, Replace(account, kind, regions, writes));
        log := log + [Replace(account, kind, regions, writes)];
      }
    }

    method RecordRegionSync(account: int, kind: string, region: string, status: SyncStatus, count: nat,
                            error: string, fails: bool)
      requires Valid()
      modifies this
      ensures Valid()
      ensures log == old(log) + if fails then [] else [Record(account, kind, region, status, count, error)]
      ensures rows == if fails || status == Succeeded then old(rows)
                      else Staled(old(rows), account, kind, region, error)
    {
      hide Staled, ApplyAll, Replaced;
      if !fails {
        if status != Succeeded {
          rows := Staled(rows, account, kind, region, error);
        }
        ApplyOne(map[], log, Record(account, kind, region, status, count, error));
        log := log + [Record(account, kind, region, status, count, error)];
      }
    }

    method ResourceByProvider(account: int, kind: string, id: string) returns (found: bool, row: Row)
      ensures found <==> Key(account, kind, id) in rows
      ensures found ==> row == rows[Key(account, kind, id)]
    {
      var key := Key(account, kind, id);
      found := key in rows;
      row := if found then rows[key] else Row(Content("", "", "", "", ""), false, "");
    }
  }

  // ---------------------------------------------------------------- the rows of one region

  /** What is stored for an account, type and region, whatever its sync state. */
  function RowsIn(rows: Table, account: int, kind: string, region: string): map<Key, Content> {
    map key | key in rows && Targets(key, rows[key], account, kind, [region]) :: rows[key].content
  }

  /** A listing as a table: one entry per non-empty id, a repeated id keeping its last write. */
  function Listing(account: int, kind: string, writes: seq<Write>): map<Key, Content> {
    if writes == [] then map[]
    else
      var last := writes[|writes| - 1];
      var before := Listing(account, kind, writes[..|writes| - 1]);
      if last.id == "" then before else before[Key(account, kind, last.id) := last.content]
  }

  ghost predicate ForRegion(writes: seq<Write>, region: string) {
    forall i :: 0 <= i < |writes| ==> writes[i].content.region == region
  }

  lemma {:induction false} UpsertAllContent(rows: Table, account: int, kind: string, writes: seq<Write>)
    ensures
      var after := UpsertAll(rows, account, kind, writes);
      var listing := Listing(account, kind, writes);
      && after.Keys == rows.Keys + listing.Keys
      && (forall key :: key in listing ==>
            after[key] == if key in rows then rows[key].(content := listing[key]) else Row(listing[key], false, ""))
      && (forall key :: key in rows && key !in listing ==> after[key] == rows[key])
  {
    if writes != [] {
      UpsertAllContent(rows, account, kind, writes[..|writes| - 1]);
    }
  }

  lemma {:induction false} ListingKeys(account: int, kind: string, writes: seq<Write>, region: string)
    requires ForRegion(writes, region)
    ensures forall key :: key in Listing(account, kind, writes) ==>
              key.account == account && key.kind == kind && Listing(account, kind, writes)[key].region == region
  {
    if writes != [] { ListingKeys(account, kind, writes[..|writes| - 1], region); }
  }

  /** Replacing a region makes its rows the listing, whatever was there. */
  lemma ReplaceSetsRegion(rows: Table, account: int, kind: string, region: string, writes: seq<Write>)
    requires ForRegion(writes, region)
    ensures RowsIn(Apply(rows, Replace(account, kind, [region], writes)), account, kind, region)
         == Listing(account, kind, writes)
  {
    var cleared := Cleared(rows, account, kind, [region]);
    UpsertAllContent(cleared, account, kind, writes);
    ListingKeys(account, kind, writes, region);
  }

  /** One key of another account, type or region through a replacement. */
  lemma ReplaceKeepsKey(rows: Table, account: int, kind: string, region: string, writes: seq<Write>,
                        key: Key, r: string)
    requires ForRegion(writes, region) && !(key.account == account && key.kind == kind && r == region)
    ensures
      var after := Apply(rows, Replace(account, kind, [region], writes));
      var kept := key in rows && rows[key].content.region == r && key !in Listing(account, kind, writes);
      && (key in after && after[key].content.region == r <==> kept)
      && (kept ==> after[key].content == rows[key].content)
  {
    hide UpsertAll, Listing, ForRegion;
    UpsertAllContent(Cleared(rows, account, kind, [region]), account, kind, writes);
    ListingKeys(account, kind, writes, region);
    assert forall x :: x in [region] <==> x == region;
  }

  /** Elsewhere it only takes away the ids it lists: the unique key moves such a row over. */
  lemma ReplaceElsewhere(rows: Table, account: int, kind: string, region: string, writes: seq<Write>,
                         a: int, k: string, r: string)
    requires ForRegion(writes, region) && !(a == account && k == kind && r == region)
    ensures RowsIn(Apply(rows, Replace(account, kind, [region], writes)), a, k, r)
         == RowsIn(rows, a, k, r) - Listing(account, kind, writes).Keys
  {
    hide Apply, Listing, ForRegion;
    var after := Apply(rows, Replace(account, kind, [region], writes));
    assert forall x :: x in [r] <==> x == r;
    forall key: Key | key.account == a && key.kind == k
      ensures key in RowsIn(after, a, k, r)
         <==> key in RowsIn(rows, a, k, r) && key !in Listing(account, kind, writes)
      ensures key in RowsIn(after, a, k, r) ==> RowsIn(after, a, k, r)[key] == RowsIn(rows, a, k, r)[key]
    {
      ReplaceKeepsKey(rows, account, kind, region, writes, key, r);
    }
  }

  lemma {:induction false} ListingOwned(account: int, kind: string, writes: seq<Write>)
    ensures forall key :: key in Listing(account, kind, writes) ==> key.account == account && key.kind == kind && key.id != ""
  {
    if writes != [] { ListingOwned(account, kind, writes[..|writes| - 1]); }
  }

  /** A replacement without regions makes all rows of the account and type the listing, and fresh; no other row changes. */
  lemma ReplaceWithoutRegions(rows: Table, account: int, kind: string, writes: seq<Write>, key: Key)
    ensures
      var after, listing := Apply(rows, Replace(account, kind, [], writes)), Listing(account, kind, writes);
      if key.account == account && key.kind == kind then
        (key in after <==> key in listing) && (key in after ==> after[key] == Row(listing[key], true, ""))
      else
        (key in after <==> key in rows) && (key in after ==> after[key] == rows[key])
  {
    UpsertAllContent(Cleared(rows, account, kind, []), account, kind, writes);
    ListingOwned(account, kind, writes);
  }

  lemma RecordKeepsRows(rows: Table, tx: Tx, a: int, k: string, r: string)
    requires tx.Record?
    ensures RowsIn(Apply(rows, tx), a, k, r) == RowsIn(rows, a, k, r)
  {
  }
}
