/** The protection of a just confirmed private address against stale listings (app/main.py:651-688, 1403-1432,
    3159-3194, 3222-3263). */
module PrivateIp {
  import opened PythonText
  import opened Wrappers

  /** A decoded JSON value as Python holds it. */
  datatype Py =
    | Null
    | Flag(flag: bool)
    | Number(number: real)
    | Text(text: string)
    | List(items: seq<Py>)
    | Dict(fields: map<string, Py>)

  type Payload = map<string, Py>

  /** str on numbers, lists and dictionaries, and float on texts. */
  datatype Python = Python(shown: Py -> string, parsed: string -> Option<real>)

  function Str(python: Python, value: Py): string {
    match value
    case Text(text) => text
    case Flag(flag) => if flag then "True" else "False"
    case _ => python.shown(value)
  }

  predicate Truthy(value: Py) {
    match value
    case Null => false
    case Flag(flag) => flag
    case Number(number) => number != 0.0
    case Text(text) => text != ""
    case List(items) => items != []
    case Dict(fields) => fields != map[]
  }

  function Get(payload: Payload, key: string): Py {
    if key in payload then payload[key] else Null
  }

  // ---------------------------------------------------------------- the addresses of a payload

  predicate IsSeparator(c: char) {
    c == '\U{FF0C}' || c == ';' || c == '\U{FF1B}' || c == '\n' || c == '\r' || c == ','
  }

  function Commas(text: string): string {
    if text == "" then "" else [if IsSeparator(text[0]) then ',' else text[0]] + Commas(text[1..])
  }

  function AddParts(parts: seq<string>, result: seq<string>): seq<string> {
    if parts == [] then result
    else
      var ip := Split(Strip(parts[0]), '/')[0];
      AddParts(parts[1..], if ip != "" && ip !in result then result + [ip] else result)
  }

  function AddText(text: string, result: seq<string>): seq<string> {
    AddParts(Split(Commas(Strip(text)), ','), result)
  }

  const VALUE_KEYS: seq<string> :=
    ["ip", "ipv4", "ipAddress", "private_ip", "privateIP", "privateIp", "IPv4Address", "addr", "address"]

  function Add(python: Python, value: Py, result: seq<string>): seq<string>
    decreases value, 1, 0
  {
    match value
    case Null => result
    case List(items) => AddItems(python, value, 0, result)
    case Dict(_) => AddKeys(python, value, VALUE_KEYS, result)
    case _ => AddText(Str(python, value), result)
  }

  function AddItems(python: Python, list: Py, i: nat, result: seq<string>): seq<string>
    requires list.List?
    decreases list, 0, |list.items| - i
  {
    if i >= |list.items| then result else AddItems(python, list, i + 1, Add(python, list.items[i], result))
  }

  function AddKeys(python: Python, dict: Py, keys: seq<string>, result: seq<string>): seq<string>
    requires dict.Dict?
    decreases dict, 0, |keys|
  {
    if keys == [] then result
    else AddKeys(python, dict, keys[1..],
                 if keys[0] in dict.fields then Add(python, dict.fields[keys[0]], result) else result)
  }

  const PAYLOAD_KEYS: seq<string> :=
    ["private_ip", "privateIP", "privateIp", "ipAddress", "IPv4Address", "fixedIpList", "fixedIPList", "privateIpList",
     "privateIPList"]

  const CARD_KEYS: seq<string> :=
    ["IPv4Address", "ipAddress", "privateIP", "privateIp", "fixedIpList", "fixedIPList", "privateIpList", "privateIPList"]

  function Cards(payload: Payload): seq<Py> {
    var cards := Get(payload, "networkCardList");
    if cards.List? then cards.items else []
  }

  function AddCards(python: Python, cards: seq<Py>, result: seq<string>): seq<string> {
    if cards == [] then result
    else
      AddCards(python, cards[1..], if cards[0].Dict? then AddKeys(python, cards[0], CARD_KEYS, result) else result)
  }

  function PrivateIps(python: Python, payload: Payload): seq<string> {
    AddCards(python, Cards(payload), AddKeys(python, Dict(payload), PAYLOAD_KEYS, []))
  }

  // ---------------------------------------------------------------- what the scan of a payload finds

  /** Text that the scan takes as one address. */
  predicate Clean(ip: string) {
    forall c :: c in ip ==> !IsSeparator(c) && c != '/'
  }

  predicate AllClean(ips: seq<string>) {
    forall ip :: ip in ips ==> Clean(ip)
  }

  /** What every addition to the result keeps. */
  predicate Grows(before: seq<string>, after: seq<string>) {
    before <= after && (AllClean(before) ==> AllClean(after))
  }

  lemma {:induction false} CommasClean(text: string)
    ensures forall c :: c in Commas(text) ==> c == ',' || !IsSeparator(c)
    ensures (forall c :: c in text ==> !IsSeparator(c)) ==> Commas(text) == text
  {
    if text != "" {
      CommasClean(text[1..]);
      assert text[0] in text && text == [text[0]] + text[1..];
      assert forall c :: c in text[1..] ==> c in text;
    }
  }

  lemma {:induction false} AddPartsGrows(parts: seq<string>, result: seq<string>)
    requires forall part, c :: part in parts && c in part ==> !IsSeparator(c)
    ensures Grows(result, AddParts(parts, result))
  {
    hide IsSeparator, Strip, Split;
    if parts != [] {
      var part, ip := Strip(parts[0]), Split(Strip(parts[0]), '/')[0];
      StripParts(parts[0]);
      SplitParts(part, '/');
      assert ip in Split(part, '/') && parts[0] in parts;
      assert Clean(ip);
      AddPartsGrows(parts[1..], if ip != "" && ip !in result then result + [ip] else result);
    }
  }

  lemma AddTextGrows(text: string, result: seq<string>)
    ensures Grows(result, AddText(text, result))
  {
    hide Grows, IsSeparator;
    var commas := Commas(Strip(text));
    CommasClean(Strip(text));
    SplitParts(commas, ',');
    AddPartsGrows(Split(commas, ','), result);
  }

  lemma {:induction false} AddGrows(python: Python, value: Py, result: seq<string>)
    ensures Grows(result, Add(python, value, result))
    decreases value, 1, 0
  {
    hide AddText;
    match value
    case Null =>
    case List(_) => AddItemsGrows(python, value, 0, result);
    case Dict(_) => AddKeysGrows(python, value, VALUE_KEYS, result);
    case _ => AddTextGrows(Str(python, value), result);
  }

  lemma {:induction false} AddItemsGrows(python: Python, list: Py, i: nat, result: seq<string>)
    requires list.List?
    ensures Grows(result, AddItems(python, list, i, result))
    decreases list, 0, |list.items| - i
  {
    if i < |list.items| {
      AddGrows(python, list.items[i], result);
      AddItemsGrows(python, list, i + 1, Add(python, list.items[i], result));
    }
  }

  lemma {:induction false} AddKeysGrows(python: Python, dict: Py, keys: seq<string>, result: seq<string>)
    requires dict.Dict?
    ensures Grows(result, AddKeys(python, dict, keys, result))
    decreases dict, 0, |keys|
  {
    hide Add;
    if keys != [] {
      if keys[0] in dict.fields {
        AddGrows(python, dict.fields[keys[0]], result);
        AddKeysGrows(python, dict, keys[1..], Add(python, dict.fields[keys[0]], result));
      } else {
        AddKeysGrows(python, dict, keys[1..], result);
      }
    }
  }

  lemma {:induction false} AddCardsGrows(python: Python, cards: seq<Py>, result: seq<string>)
    ensures Grows(result, AddCards(python, cards, result))
  {
    hide AddKeys;
    if cards != [] {
      if cards[0].Dict? {
        AddKeysGrows(python, cards[0], CARD_KEYS, result);
        AddCardsGrows(python, cards[1..], AddKeys(python, cards[0], CARD_KEYS, result));
      } else {
        AddCardsGrows(python, cards[1..], result);
      }
    }
  }

  /** A clean address standing first is found first. */
  lemma AddClean(ip: string)
    requires ip != "" && Strip(ip) == ip && Clean(ip)
    ensures AddText(ip, []) == [ip]
  {
    assert IsSeparator(',');
    hide Strip, IsSeparator;
    CommasClean(ip);
    SplitWhole(ip, ',');
    SplitWhole(ip, '/');
    assert Split(Commas(Strip(ip)), ',') == [ip];
    assert AddParts([ip], []) == AddParts([ip][1..], [] + [ip]);
    assert [ip][1..] == [] && [] + [ip] == [ip];
  }

  lemma FirstKeyFound(python: Python, payload: Payload, ip: string)
    requires ip != "" && Strip(ip) == ip && Get(payload, "private_ip") == Text(ip)
    ensures ip in PrivateIps(python, payload) <==> Clean(ip)
  {
    hide AddText, Clean, AddCards, Strip;
    var all := AddKeys(python, Dict(payload), PAYLOAD_KEYS, []);
    AddKeysGrows(python, Dict(payload), PAYLOAD_KEYS, []);
    AddCardsGrows(python, Cards(payload), all);
    if Clean(ip) {
      AddClean(ip);
      assert PAYLOAD_KEYS[0] == "private_ip";
      assert Add(python, Text(ip), []) == [ip];
      AddKeysGrows(python, Dict(payload), PAYLOAD_KEYS[1..], [ip]);
      assert [ip] <= all;
      assert all[0] == ip;
      assert PrivateIps(python, payload)[0] == ip;
    }
  }

  // ---------------------------------------------------------------- the protection

  /** How long a confirmation is believed against the listings. */
  const PROTECTION_SECONDS: real := 900.0

  function ConfirmedIp(python: Python, payload: Payload): string {
    var value := Get(payload, "_confirmed_private_ip");
    if Truthy(value) then Strip(Str(python, value)) else ""
  }

  function Deadline(python: Python, payload: Payload): real {
    match Get(payload, "_confirmed_private_ip_until")
    case Number(number) => number
    case Flag(flag) => if flag then 1.0 else 0.0
    case Text(text) => if python.parsed(text).Some? then python.parsed(text).value else 0.0
    case _ => 0.0
  }

  function UpdateFirst(cards: seq<Py>, matches: Py -> bool, update: Py -> Py): seq<Py> {
    if cards == [] then []
    else if matches(cards[0]) then [update(cards[0])] + cards[1..]
    else [cards[0]] + UpdateFirst(cards[1..], matches, update)
  }

  function WithCards(payload: Payload, cards: seq<Py>): Payload {
    if cards == [] then payload else payload["networkCardList" := List(cards)]
  }

  /** The item of a listing as it is stored in place of the existing payload. */
  function Protected(python: Python, item: Payload, existing: Payload, now: real): Payload {
    var ip, until := ConfirmedIp(python, existing), Deadline(python, existing);
    if ip == "" || until <= now then item
    else if ip in PrivateIps(python, item) then
      item["_confirmed_private_ip" := Text(ip)]["_confirmed_private_ip_until" := Number(until)]
    else
      var stale := PrivateIps(python, item);
      var noted := if stale != [] then item["_openapi_private_ip_before_confirmed" := Text(stale[0])] else item;
      var marked := noted["_confirmed_private_ip" := Text(ip)]["_confirmed_private_ip_until" := Number(until)]
                         ["private_ip" := Text(ip)]["privateIP" := Text(ip)]["fixedIPList" := List([Text(ip)])];
      var listed := if "fixedIpList" in marked then marked["fixedIpList" := List([Text(ip)])] else marked;
      WithCards(listed, UpdateFirst(Cards(listed), (card: Py) => card.Dict?, (card: Py) => CardWith(card, ip)))
  }

  function CardWith(card: Py, ip: string): Py {
    if card.Dict? then Dict(card.fields["IPv4Address" := Text(ip)]["privateIP" := Text(ip)]) else card
  }

  /** The confirmation found on a stored payload. */
  predicate Guarded(python: Python, payload: Payload, ip: string, until: real) {
    ConfirmedIp(python, payload) == ip && Deadline(python, payload) == until && ip in PrivateIps(python, payload)
  }

  predicate SingleAddress(ip: string) {
    ip != "" && Strip(ip) == ip && Clean(ip)
  }

  lemma MarksRead(python: Python, payload: Payload, ip: string, until: real)
    requires ip != "" && Strip(ip) == ip
    requires Get(payload, "_confirmed_private_ip") == Text(ip)
    requires Get(payload, "_confirmed_private_ip_until") == Number(until)
    ensures ConfirmedIp(python, payload) == ip && Deadline(python, payload) == until
  {
  }

  lemma {:induction false} AddKeysAgree(python: Python, a: Payload, b: Payload, keys: seq<string>, result: seq<string>)
    requires forall key :: key in keys ==> Get(a, key) == Get(b, key)
    ensures AddKeys(python, Dict(a), keys, result) == AddKeys(python, Dict(b), keys, result)
  {
    if keys != [] {
      var key := keys[0];
      assert Get(a, key) == Get(b, key);
      var next := Add(python, Get(a, key), result);
      assert Add(python, Null, result) == result;
      AddKeysAgree(python, a, b, keys[1..], next);
    }
  }

  lemma MarkNames()
    ensures "_confirmed_private_ip" !in PAYLOAD_KEYS && "_confirmed_private_ip_until" !in PAYLOAD_KEYS
    ensures "_confirmed_private_ip" != "networkCardList" && "_confirmed_private_ip_until" != "networkCardList"
    ensures "_confirmed_private_ip" != "_confirmed_private_ip_until"
  {
    assert "_confirmed_private_ip"[0] == '_' && "_confirmed_private_ip_until"[0] == '_' && "networkCardList"[0] == 'n';
    assert forall key :: key in PAYLOAD_KEYS ==> key[0] != '_';
    assert |"_confirmed_private_ip"| < |"_confirmed_private_ip_until"|;
  }

  /** Marking a payload does not change its addresses. */
  lemma MarkKeepsIps(python: Python, item: Payload, ip: string, until: real)
    ensures PrivateIps(python, item["_confirmed_private_ip" := Text(ip)]["_confirmed_private_ip_until" := Number(until)])
         == PrivateIps(python, item)
  {
    hide AddCards, AddKeys;
    MarkNames();
    var marked := item["_confirmed_private_ip" := Text(ip)]["_confirmed_private_ip_until" := Number(until)];
    AddKeysAgree(python, marked, item, PAYLOAD_KEYS, []);
    assert Cards(marked) == Cards(item);
  }

  lemma OverriddenNames()
    ensures "fixedIPList" != "private_ip" && "fixedIpList" != "private_ip" && "networkCardList" != "private_ip"
    ensures "privateIP" != "private_ip"
    ensures "_confirmed_private_ip" != "private_ip" && "_confirmed_private_ip" != "privateIP"
    ensures "_confirmed_private_ip" != "fixedIPList" && "_confirmed_private_ip" != "fixedIpList"
    ensures "_confirmed_private_ip_until" != "private_ip" && "_confirmed_private_ip_until" != "privateIP"
    ensures "_confirmed_private_ip_until" != "fixedIPList" && "_confirmed_private_ip_until" != "fixedIpList"
  {
    assert "private_ip"[0] == 'p' && "fixedIPList"[0] == 'f' && "fixedIpList"[0] == 'f' && "networkCardList"[0] == 'n';
    assert |"privateIP"| == 9 && |"private_ip"| == 10;
    assert "privateIP"[0] == 'p' && "_confirmed_private_ip"[0] == '_' && "_confirmed_private_ip_until"[0] == '_';
  }

  /** What replaces the addresses of a stale item. */
  lemma OverrideReads(python: Python, item: Payload, existing: Payload, now: real)
    requires var ip := ConfirmedIp(python, existing);
      ip != "" && Strip(ip) == ip && now < Deadline(python, existing) && ip !in PrivateIps(python, item)
    ensures var ip, until := ConfirmedIp(python, existing), Deadline(python, existing);
      var stored := Protected(python, item, existing, now);
      && Get(stored, "private_ip") == Text(ip)
      && Get(stored, "_confirmed_private_ip") == Text(ip) && Get(stored, "_confirmed_private_ip_until") == Number(until)
  {
    hide PrivateIps, UpdateFirst, ConfirmedIp, Deadline, Strip;
    MarkNames();
    OverriddenNames();
  }

  lemma ConfirmedIsStripped(python: Python, payload: Payload)
    ensures Strip(ConfirmedIp(python, payload)) == ConfirmedIp(python, payload)
  {
    hide Strip;
    StripTwice(Str(python, Get(payload, "_confirmed_private_ip")));
    StripNothing();
  }

  lemma StripNothing()
    ensures Strip("") == ""
  {
  }

  /**
   * While the protection lasts, what is stored in place of a listed item carries the same confirmation and deadline,
   * and has the confirmed address among its addresses exactly when that is a single address.
   */
  lemma ProtectionHolds(python: Python, item: Payload, existing: Payload, now: real)
    requires ConfirmedIp(python, existing) != "" && now < Deadline(python, existing)
    ensures var stored := Protected(python, item, existing, now);
      && ConfirmedIp(python, stored) == ConfirmedIp(python, existing)
      && Deadline(python, stored) == Deadline(python, existing)
      && (ConfirmedIp(python, existing) in PrivateIps(python, stored) <==> Clean(ConfirmedIp(python, existing)))
  {
    ConfirmedIsStripped(python, existing);
    hide PrivateIps, ConfirmedIp, Deadline, Strip, Clean;
    var ip, until := ConfirmedIp(python, existing), Deadline(python, existing);
    var stored := Protected(python, item, existing, now);
    if ip in PrivateIps(python, item) {
      assert stored == item["_confirmed_private_ip" := Text(ip)]["_confirmed_private_ip_until" := Number(until)];
      hide Protected;
      MarkNames();
      MarkKeepsIps(python, item, ip, until);
      IpsAreClean(python, item);
    } else {
      hide Protected;
      OverrideReads(python, item, existing, now);
      FirstKeyFound(python, stored, ip);
    }
    MarksRead(python, stored, ip, until);
  }

  lemma IpsAreClean(python: Python, payload: Payload)
    ensures AllClean(PrivateIps(python, payload))
  {
    hide Clean, AddCards, AddKeys;
    AddKeysGrows(python, Dict(payload), PAYLOAD_KEYS, []);
    AddCardsGrows(python, Cards(payload), AddKeys(python, Dict(payload), PAYLOAD_KEYS, []));
  }

  /** Once the deadline is reached the listed item is stored as it is. */
  lemma ProtectionEnds(python: Python, item: Payload, existing: Payload, now: real)
    requires Deadline(python, existing) <= now || ConfirmedIp(python, existing) == ""
    ensures Protected(python, item, existing, now) == item
  {
  }

  // ---------------------------------------------------------------- the stored rows

  /** A stored instance of one account. */
  datatype Row = Row(region: string, payload: Payload)

  /** A normalised item of a listing; an empty id is not stored. */
  datatype Listed = Listed(id: string, region: string, payload: Payload)

  /** The rows a sync of these regions deletes first; without regions, all. */
  function Cleared(rows: map<string, Row>, targets: seq<string>): map<string, Row> {
    map id | id in rows && targets != [] && rows[id].region !in targets :: rows[id]
  }

  function PayloadOf(rows: map<string, Row>, id: string): Payload {
    if id in rows then rows[id].payload else map[]
  }

  /** The rows after the first `n` items were written, the i-th at time `clock(i)`. */
  function Written(python: Python, before: map<string, Row>, targets: seq<string>, listing: seq<Listed>,
                   clock: nat -> real, n: nat): map<string, Row>
    requires n <= |listing|
  {
    if n == 0 then Cleared(before, targets)
    else
      var rows, item := Written(python, before, targets, listing, clock, n - 1), listing[n - 1];
      if item.id == "" then rows
      else rows[item.id := Row(item.region, Protected(python, item.payload, PayloadOf(before, item.id), clock(n - 1)))]
  }

  /** The card loop of a confirmation stops at the first card that can be the changed one. */
  predicate CardMatches(python: Python, card: Py, nic: string) {
    card.Dict?
    && (nic == "" || CardId(python, card.fields) == "" || CardId(python, card.fields) == nic)
  }

  function CardId(python: Python, card: Payload): string {
    var a, b, c := Get(card, "networkCardID"), Get(card, "networkInterfaceID"), Get(card, "id");
    Strip(if Truthy(a) then Str(python, a) else if Truthy(b) then Str(python, b)
          else if Truthy(c) then Str(python, c) else "")
  }

  function CardConfirmed(card: Py, ip: string, subnet: string): Py {
    if card.Dict? then
      var fields := card.fields["IPv4Address" := Text(ip)];
      Dict(if subnet != "" then fields["subnetID" := Text(subnet)] else fields)
    else card
  }

  /** The payload a confirmation stores. */
  function Confirmed(python: Python, payload: Payload, ip: string, subnet: string, nic: string, now: real): Payload {
    var marked := payload["private_ip" := Text(ip)]["privateIP" := Text(ip)]["_confirmed_private_ip" := Text(ip)]
                         ["_confirmed_private_ip_until" := Number(now + PROTECTION_SECONDS)];
    WithCards(marked, UpdateFirst(Cards(marked), (card: Py) => CardMatches(python, card, nic),
                                  (card: Py) => CardConfirmed(card, ip, subnet)))
  }

  lemma {:induction false} UpdateFirstAt(cards: seq<Py>, matches: Py -> bool, update: Py -> Py, i: nat)
    requires i <= |cards| && (forall j :: 0 <= j < i ==> !matches(cards[j])) && (i < |cards| ==> matches(cards[i]))
    ensures UpdateFirst(cards, matches, update) == if i < |cards| then cards[i := update(cards[i])] else cards
  {
    if i > 0 { UpdateFirstAt(cards[1..], matches, update, i - 1); }
  }

  class EcsRows {
    var rows: map<string, Row>

    constructor ()
      ensures rows == map[]
    {
      rows := map[];
    }

    /** After a change of the private address was confirmed with the provider. */
    method ConfirmPrivateIp(python: Python, id: string, ip: string, subnet: string, nic: string, now: real)
      modifies this
      ensures rows == if id == "" || ip == "" || id !in old(rows) then old(rows)
        else old(rows)[id := old(rows)[id].(payload := Confirmed(python, old(rows)[id].payload, ip, subnet, nic, now))]
    {
      if id == "" || ip == "" { return; }
      if id !in rows { return; }
      var payload := rows[id].payload;
      payload := payload["private_ip" := Text(ip)];
      payload := payload["privateIP" := Text(ip)];
      payload := payload["_confirmed_private_ip" := Text(ip)];
      payload := payload["_confirmed_private_ip_until" := Number(now + PROTECTION_SECONDS)];
      var cards := Cards(payload);
      ghost var matches := (card: Py) => CardMatches(python, card, nic);
      ghost var update := (card: Py) => CardConfirmed(card, ip, subnet);
      ghost var was := cards;
      ghost var found := |cards|;
      for index := 0 to |cards|
        invariant cards == was && found == |cards|
        invariant forall j :: 0 <= j < index ==> !matches(was[j])
      {
        if !CardMatches(python, cards[index], nic) { continue; }
        cards := cards[index := CardConfirmed(cards[index], ip, subnet)];
        found := index;
        break;
      }
      UpdateFirstAt(was, matches, update, found);
      assert cards == UpdateFirst(was, matches, update);
      if cards != [] { payload := payload["networkCardList" := List(cards)]; }
      rows := rows[id := rows[id].(payload := payload)];
    }

    /** The write part of a sync; a sync that fails to list writes nothing. */
    method SyncEcs(python: Python, targets: seq<string>, listing: seq<Listed>, clock: nat -> real)
      modifies this
      ensures rows == Written(python, old(rows), targets, listing, clock, |listing|)
    {
      hide Protected, Cleared;
      var existing := rows;
      rows := Cleared(rows, targets);
      for i := 0 to |listing|
        invariant existing == old(rows)
        invariant rows == Written(python, existing, targets, listing, clock, i)
      {
        var item := listing[i];
        if item.id == "" { continue; }
        var payload := Protected(python, item.payload, PayloadOf(existing, item.id), clock(i));
        rows := rows[item.id := Row(item.region, payload)];
      }
    }
  }

  // ---------------------------------------------------------------- runs

  datatype Sync = Sync(targets: seq<string>, listing: seq<Listed>, clock: nat -> real)

  function After(python: Python, rows: map<string, Row>, sync: Sync): map<string, Row> {
    Written(python, rows, sync.targets, sync.listing, sync.clock, |sync.listing|)
  }

  predicate Lists(sync: Sync, id: string) {
    exists i :: 0 <= i < |sync.listing| && sync.listing[i].id == id
  }

  /** Every write of the sync happens before `until`. */
  predicate Before(sync: Sync, until: real) {
    forall i :: 0 <= i < |sync.listing| ==> sync.clock(i) < until
  }

  predicate Stored(python: Python, rows: map<string, Row>, id: string, ip: string, until: real) {
    id in rows && Guarded(python, rows[id].payload, ip, until)
  }

  lemma {:induction false} WrittenKeeps(python: Python, before: map<string, Row>, sync: Sync, n: nat,
                                        id: string, ip: string, until: real)
    requires n <= |sync.listing| && id != "" && SingleAddress(ip)
    requires Stored(python, before, id, ip, until) && Before(sync, until)
    ensures var rows := Written(python, before, sync.targets, sync.listing, sync.clock, n);
      (id in rows ==> Guarded(python, rows[id].payload, ip, until))
      && (forall i :: 0 <= i < n && sync.listing[i].id == id ==> id in rows)
  {
    hide Protected, ConfirmedIp, Deadline, PrivateIps, Strip, Clean;
    if n > 0 {
      WrittenKeeps(python, before, sync, n - 1, id, ip, until);
      var item := sync.listing[n - 1];
      if item.id == id {
        assert sync.clock(n - 1) < until;
        ProtectionHolds(python, item.payload, before[id].payload, sync.clock(n - 1));
      }
    }
  }

  /** A sync that lists the instance before the deadline leaves the confirmation and its deadline as they were. */
  lemma SyncKeeps(python: Python, before: map<string, Row>, sync: Sync, id: string, ip: string, until: real)
    requires id != "" && SingleAddress(ip) && Stored(python, before, id, ip, until)
    requires Before(sync, until) && Lists(sync, id)
    ensures Stored(python, After(python, before, sync), id, ip, until)
  {
    hide Protected, Guarded, Written;
    WrittenKeeps(python, before, sync, |sync.listing|, id, ip, until);
  }

  function AfterAll(python: Python, rows: map<string, Row>, syncs: seq<Sync>): map<string, Row> {
    if syncs == [] then rows else After(python, AfterAll(python, rows, syncs[..|syncs| - 1]), syncs[|syncs| - 1])
  }

  lemma {:induction false} RunKeeps(python: Python, rows: map<string, Row>, syncs: seq<Sync>,
                                    id: string, ip: string, until: real)
    requires id != "" && SingleAddress(ip) && Stored(python, rows, id, ip, until)
    requires forall k :: 0 <= k < |syncs| ==> Before(syncs[k], until) && Lists(syncs[k], id)
    ensures Stored(python, AfterAll(python, rows, syncs), id, ip, until)
  {
    hide Stored, After, Before, Lists, SingleAddress;
    if syncs != [] {
      RunKeeps(python, rows, syncs[..|syncs| - 1], id, ip, until);
      SyncKeeps(python, AfterAll(python, rows, syncs[..|syncs| - 1]), syncs[|syncs| - 1], id, ip, until);
    }
  }

  lemma ConfirmationGuards(python: Python, payload: Payload, ip: string, subnet: string, nic: string, now: real)
    requires SingleAddress(ip)
    ensures Guarded(python, Confirmed(python, payload, ip, subnet, nic, now), ip, now + PROTECTION_SECONDS)
  {
    hide UpdateFirst, PrivateIps, Strip, Clean, ConfirmedIp, Deadline;
    MarkNames();
    OverriddenNames();
    var stored := Confirmed(python, payload, ip, subnet, nic, now);
    FirstKeyFound(python, stored, ip);
    MarksRead(python, stored, ip, now + PROTECTION_SECONDS);
  }

  /**
   * Once an address is confirmed, every run of syncs that list the instance within the 900 seconds keeps the address
   * among the stored ones, with the deadline of the confirmation.
   */
  lemma ConfirmedAddressStays(python: Python, rows: map<string, Row>, id: string, ip: string, subnet: string,
                              nic: string, now: real, syncs: seq<Sync>)
    requires id != "" && id in rows && SingleAddress(ip)
    requires forall k :: 0 <= k < |syncs| ==> Before(syncs[k], now + 900.0) && Lists(syncs[k], id)
    ensures
      var confirmed := rows[id := rows[id].(payload := Confirmed(python, rows[id].payload, ip, subnet, nic, now))];
      Stored(python, AfterAll(python, confirmed, syncs), id, ip, now + 900.0)
  {
    hide Confirmed, Guarded, Before, Lists, AfterAll, SingleAddress;
    ConfirmationGuards(python, rows[id].payload, ip, subnet, nic, now);
    var confirmed := rows[id := rows[id].(payload := Confirmed(python, rows[id].payload, ip, subnet, nic, now))];
    RunKeeps(python, confirmed, syncs, id, ip, now + 900.0);
  }

  lemma {:induction false} WrittenLast(python: Python, before: map<string, Row>, sync: Sync, n: nat, i: nat)
    requires i < n <= |sync.listing| && sync.listing[i].id != ""
    requires forall j :: i < j < n ==> sync.listing[j].id != sync.listing[i].id
    ensures var rows, id := Written(python, before, sync.targets, sync.listing, sync.clock, n), sync.listing[i].id;
      id in rows
      && rows[id].payload == Protected(python, sync.listing[i].payload, PayloadOf(before, id), sync.clock(i))
  {
    hide Protected;
    if i < n - 1 { WrittenLast(python, before, sync, n - 1, i); }
  }

  /** The first sync that writes the instance at or after the deadline stores the listing's payload untouched. */
  lemma SyncDrops(python: Python, before: map<string, Row>, sync: Sync, i: nat)
    requires i < |sync.listing| && sync.listing[i].id != ""
    requires forall j :: i < j < |sync.listing| ==> sync.listing[j].id != sync.listing[i].id
    requires Deadline(python, PayloadOf(before, sync.listing[i].id)) <= sync.clock(i)
    ensures sync.listing[i].id in After(python, before, sync)
    ensures After(python, before, sync)[sync.listing[i].id].payload == sync.listing[i].payload
  {
    hide Written, Deadline;
    WrittenLast(python, before, sync, |sync.listing|, i);
    ProtectionEnds(python, sync.listing[i].payload, PayloadOf(before, sync.listing[i].id), sync.clock(i));
  }

  /** How long it lasts, exactly: after a sync whose listing brings no marks of its own, the instance is still protected
      with the same address and deadline if and only if it was last written before the deadline. */
  lemma ProtectedExactly(python: Python, before: map<string, Row>, sync: Sync, i: nat, ip: string, until: real)
    requires i < |sync.listing| && sync.listing[i].id != "" && SingleAddress(ip)
    requires forall j :: i < j < |sync.listing| ==> sync.listing[j].id != sync.listing[i].id
    requires "_confirmed_private_ip" !in sync.listing[i].payload
    requires Stored(python, before, sync.listing[i].id, ip, until)
    ensures Stored(python, After(python, before, sync), sync.listing[i].id, ip, until) <==> sync.clock(i) < until
  {
    hide Written, Protected, PrivateIps, Strip, Clean, Deadline;
    var id, payload := sync.listing[i].id, sync.listing[i].payload;
    WrittenLast(python, before, sync, |sync.listing|, i);
    if sync.clock(i) < until {
      ProtectionHolds(python, payload, before[id].payload, sync.clock(i));
    } else {
      ProtectionEnds(python, payload, before[id].payload, sync.clock(i));
    }
  }
}
