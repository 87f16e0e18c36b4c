/** Which addresses a payload has, and what a confirmation and a protected sync write into each field, said without the
    functions of the scan. */
module PrivateIpPlaces {
  import opened PythonText
  import opened Wrappers
  import opened PrivateIp

  // ---------------------------------------------------------------- the addresses of a text

  /** Comma, semicolon, their full-width forms, and the line ends. */
  predicate Between(c: char) {
    c as int == 44 || c as int == 59 || c as int == 0xFF0C || c as int == 0xFF1B || c as int == 10 || c as int == 13
  }

  /** From `a` to `b` no separator, and one, or nothing, on both sides. */
  predicate EntryAt(text: string, a: nat, b: nat) {
    && a <= b <= |text| && (a == 0 || Between(text[a - 1])) && (b == |text| || Between(text[b]))
    && forall j :: a <= j < b ==> !Between(text[j])
  }

  /** The address is what stands in the entry, without the white space around it, up to the first slash. */
  predicate IsAddress(entry: string, ip: string) {
    ip != "" && '/' !in ip && (Strip(entry) == ip || ip + "/" <= Strip(entry))
  }

  /** One of the entries of the text has this address. */
  ghost predicate Names(text: string, ip: string) {
    exists a: nat, b: nat :: a <= b <= |text| && EntryAt(text, a, b) && IsAddress(text[a..b], ip)
  }

  lemma {:induction false} CommasAt(text: string)
    ensures |Commas(text)| == |text|
    ensures forall i :: 0 <= i < |text| ==> Commas(text)[i] == if Between(text[i]) then ',' else text[i]
  {
    if text != "" { CommasAt(text[1..]); }
  }

  lemma EntryIsPiece(text: string, a: nat, b: nat)
    ensures EntryAt(text, a, b) <==> PieceAt(Commas(text), ',', a, b)
    ensures EntryAt(text, a, b) ==> a <= b <= |text| == |Commas(text)| && Commas(text)[a..b] == text[a..b]
  {
    CommasAt(text);
    hide Commas;
  }

  lemma SlashCuts(text: string, ip: string)
    ensures ip == Split(text, '/')[0] <==> '/' !in ip && (text == ip || ip + "/" <= text)
  {
    SplitPieces(text, '/');
    var first := Split(text, '/')[0];
    hide Split;
    assert forall j :: 0 <= j < |first| ==> first[j] == text[j];
    if |first| < |text| {
      assert first + "/" <= text by { assert text[..|first| + 1] == first + "/"; }
    } else {
      assert first == text;
    }
    if '/' !in ip && (text == ip || ip + "/" <= text) {
      assert PieceAt(text, '/', 0, |ip|) by {
        assert text == ip || text[..|ip| + 1] == ip + "/";
        assert forall j :: 0 <= j < |ip| ==> text[j] == ip[j];
      }
      FirstPiece(text, '/', |first|, |ip|);
      assert ip == text[..|ip|];
    }
  }

  lemma {:induction false} PartsFound(parts: seq<string>, result: seq<string>, ip: string)
    ensures ip in AddParts(parts, result)
       <==> ip in result || exists i :: 0 <= i < |parts| && IsAddress(parts[i], ip)
  {
    if parts != [] {
      var found := Split(Strip(parts[0]), '/')[0];
      SlashCuts(Strip(parts[0]), ip);
      hide Split, Strip;
      PartsFound(parts[1..], if found != "" && found !in result then result + [found] else result, ip);
      assert IsAddress(parts[0], ip) <==> ip != "" && ip == found;
      if i :| 0 <= i < |parts| && IsAddress(parts[i], ip) {
        assert i > 0 ==> IsAddress(parts[1..][i - 1], ip);
      }
      if i :| 0 <= i < |parts[1..]| && IsAddress(parts[1..][i], ip) {
        assert IsAddress(parts[i + 1], ip);
      }
    }
  }

  lemma TextFound(text: string, result: seq<string>, ip: string)
    ensures ip in AddText(text, result) <==> ip in result || Names(Strip(text), ip)
  {
    var whole := Strip(text);
    var parts := Split(Commas(whole), ',');
    PartsFound(parts, result, ip);
    hide Split, Strip, Commas, EntryAt, IsAddress;
    if i :| 0 <= i < |parts| && IsAddress(parts[i], ip) {
      PartsArePieces(Commas(whole), ',', parts[i]);
      var a: nat, b: nat :|
        (a <= b <= |Commas(whole)| && PieceAt(Commas(whole), ',', a, b) && parts[i] == Commas(whole)[a..b]);
      EntryIsPiece(whole, a, b);
    }
    if a: nat, b: nat :| a <= b <= |whole| && EntryAt(whole, a, b) && IsAddress(whole[a..b], ip) {
      EntryIsPiece(whole, a, b);
      PartsArePieces(Commas(whole), ',', whole[a..b]);
      assert whole[a..b] in parts;
    }
  }

  // ---------------------------------------------------------------- the addresses of a value

  /** The address stands in the value: in its text, in an item of the list, or under one of these keys. */
  ghost predicate Holds(python: Python, value: Py, ip: string)
    decreases value, 0
  {
    match value
    case Null => false
    case List(items) => exists i :: 0 <= i < |items| && Holds(python, items[i], ip)
    case Dict(fields) =>
      exists key :: key in fields && Holds(python, fields[key], ip)
        && key in ["ip", "ipv4", "ipAddress", "private_ip", "privateIP", "privateIp", "IPv4Address", "addr", "address"]
    case _ => Names(Strip(Str(python, value)), ip)
  }

  /** It stands under one of the keys. */
  ghost predicate Under(python: Python, fields: Payload, keys: seq<string>, ip: string) {
    exists key :: key in fields && Holds(python, fields[key], ip) && key in keys
  }

  lemma {:induction false} ValueFound(python: Python, value: Py, result: seq<string>, ip: string)
    ensures ip in Add(python, value, result) <==> ip in result || Holds(python, value, ip)
    decreases value, 1, 0
  {
    match value
    case Null =>
    case List(items) => ItemsFound(python, value, 0, result, ip);
    case Dict(fields) => KeysFound(python, value, VALUE_KEYS, result, ip);
    case _ => TextFound(Str(python, value), result, ip);
  }

  lemma {:induction false} ItemsFound(python: Python, list: Py, i: nat, result: seq<string>, ip: string)
    requires list.List?
    ensures ip in AddItems(python, list, i, result)
       <==> ip in result || exists k :: i <= k < |list.items| && Holds(python, list.items[k], ip)
    decreases list, 0, |list.items| - i
  {
    hide Add, Holds;
    if i < |list.items| {
      ValueFound(python, list.items[i], result, ip);
      ItemsFound(python, list, i + 1, Add(python, list.items[i], result), ip);
    }
  }

  lemma {:induction false} KeysFound(python: Python, dict: Py, keys: seq<string>, result: seq<string>, ip: string)
    requires dict.Dict?
    ensures ip in AddKeys(python, dict, keys, result) <==> ip in result || Under(python, dict.fields, keys, ip)
    decreases dict, 0, |keys|
  {
    hide Add, Holds;
    if keys != [] {
      assert forall key :: key in keys <==> key == keys[0] || key in keys[1..];
      if keys[0] in dict.fields {
        ValueFound(python, dict.fields[keys[0]], result, ip);
        KeysFound(python, dict, keys[1..], Add(python, dict.fields[keys[0]], result), ip);
      } else {
        KeysFound(python, dict, keys[1..], result, ip);
      }
    }
  }

  // ---------------------------------------------------------------- the addresses of a payload

  /** The card has the address under one of the keys of a card. */
  ghost predicate CardHolds(python: Python, card: Py, ip: string) {
    card.Dict? && Under(python, card.fields,
      ["IPv4Address", "ipAddress", "privateIP", "privateIp", "fixedIpList", "fixedIPList", "privateIpList",
       "privateIPList"], ip)
  }

  /** One of the network cards has it; anything but a list of cards has none. */
  ghost predicate CardsHold(python: Python, payload: Payload, ip: string) {
    "networkCardList" in payload && payload["networkCardList"].List?
    && exists i :: 0 <= i < |payload["networkCardList"].items| && CardHolds(python, payload["networkCardList"].items[i], ip)
  }

  lemma {:induction false} CardsFound(python: Python, cards: seq<Py>, result: seq<string>, ip: string)
    ensures ip in AddCards(python, cards, result)
       <==> ip in result || exists i :: 0 <= i < |cards| && CardHolds(python, cards[i], ip)
  {
    if cards != [] {
      if cards[0].Dict? { KeysFound(python, cards[0], CARD_KEYS, result, ip); }
      hide AddKeys, Under;
      var next := if cards[0].Dict? then AddKeys(python, cards[0], CARD_KEYS, result) else result;
      CardsFound(python, cards[1..], next, ip);
      assert ip in next <==> ip in result || CardHolds(python, cards[0], ip);
      hide CardHolds;
      if i :| 0 <= i < |cards| && CardHolds(python, cards[i], ip) {
        assert i > 0 ==> CardHolds(python, cards[1..][i - 1], ip);
      }
      if i :| 0 <= i < |cards[1..]| && CardHolds(python, cards[1..][i], ip) {
        assert CardHolds(python, cards[i + 1], ip);
      }
    }
  }

  /** The scan finds exactly the addresses that stand under one of nine keys of the payload or in one of its cards. */
  lemma FoundExactly(python: Python, payload: Payload, ip: string)
    ensures ip in PrivateIps(python, payload) <==>
      || Under(python, payload, ["private_ip", "privateIP", "privateIp", "ipAddress", "IPv4Address", "fixedIpList",
                                 "fixedIPList", "privateIpList", "privateIPList"], ip)
      || CardsHold(python, payload, ip)
  {
    hide AddKeys, AddCards, Under, CardHolds;
    KeysFound(python, Dict(payload), PAYLOAD_KEYS, [], ip);
    CardsFound(python, Cards(payload), AddKeys(python, Dict(payload), PAYLOAD_KEYS, []), ip);
  }

  // ---------------------------------------------------------------- the fields that are written

  function Field(payload: Payload, key: string): Option<Py> {
    if key in payload then Some(payload[key]) else None
  }

  lemma FieldNames()
    ensures "_openapi_private_ip_before_confirmed" != "_confirmed_private_ip"
    ensures "_openapi_private_ip_before_confirmed" != "_confirmed_private_ip_until"
    ensures "_openapi_private_ip_before_confirmed" !in ["private_ip", "privateIP", "fixedIPList", "fixedIpList"]
    ensures "networkCardList" !in ["_openapi_private_ip_before_confirmed", "_confirmed_private_ip", "_confirmed_private_ip_until"]
    ensures "networkCardList" !in ["private_ip", "privateIP", "fixedIPList", "fixedIpList"]
    ensures "fixedIPList" !in ["private_ip", "privateIP"] && "fixedIpList" !in ["private_ip", "privateIP"]
    ensures "fixedIPList" != "fixedIpList"
  {
    assert "_openapi_private_ip_before_confirmed"[1] == 'o' && "_confirmed_private_ip"[1] == 'c';
    assert "_confirmed_private_ip_until"[1] == 'c' && "networkCardList"[0] == 'n';
    assert "_openapi_private_ip_before_confirmed"[0] == '_' && "_confirmed_private_ip"[0] == '_';
    assert "_confirmed_private_ip_until"[0] == '_';
    assert "private_ip"[0] == 'p' && "privateIP"[0] == 'p' && "fixedIPList"[0] == 'f' && "fixedIpList"[0] == 'f';
    assert "fixedIPList"[6] == 'P' && "fixedIpList"[6] == 'p';
  }

  /** An item that does not show the confirmed address yet is stored with these fields, and all others as listed. */
  lemma ProtectedFields(python: Python, item: Payload, existing: Payload, now: real, key: string)
    requires ConfirmedIp(python, existing) != "" && now < Deadline(python, existing)
    requires ConfirmedIp(python, existing) !in PrivateIps(python, item) && key != "networkCardList"
    ensures
      var ip, until, listed := ConfirmedIp(python, existing), Deadline(python, existing), PrivateIps(python, item);
      Field(Protected(python, item, existing, now), key)
      == if key == "private_ip" || key == "privateIP" || key == "_confirmed_private_ip" then Some(Text(ip))
         else if key == "_confirmed_private_ip_until" then Some(Number(until))
         else if key == "fixedIPList" || (key == "fixedIpList" && key in item) then Some(List([Text(ip)]))
         else if key == "_openapi_private_ip_before_confirmed" && listed != [] then Some(Text(listed[0]))
         else Field(item, key)
  {
    hide ConfirmedIp, Deadline, PrivateIps, UpdateFirst;
    FieldNames();
    MarkNames();
    OverriddenNames();
  }

  /** The payload's network cards, if it has a list of them that is not empty. */
  predicate HasCards(payload: Payload) {
    "networkCardList" in payload && payload["networkCardList"].List? && payload["networkCardList"].items != []
  }

  /** The first card that is a dictionary, number `i`, gets the address under two keys; without a list of cards nothing is
      written. */
  lemma ProtectedCards(python: Python, item: Payload, existing: Payload, now: real, i: nat)
    requires ConfirmedIp(python, existing) != "" && now < Deadline(python, existing)
    requires ConfirmedIp(python, existing) !in PrivateIps(python, item)
    requires HasCards(item) ==>
      var cards := item["networkCardList"].items;
      i <= |cards| && (i < |cards| ==> cards[i].Dict?) && forall j :: 0 <= j < i ==> !cards[j].Dict?
    ensures
      Field(Protected(python, item, existing, now), "networkCardList")
      == if !HasCards(item) then Field(item, "networkCardList")
         else
           var ip, cards := ConfirmedIp(python, existing), item["networkCardList"].items;
           Some(List(if i == |cards| then cards
                     else cards[i := Dict(cards[i].fields["IPv4Address" := Text(ip)]["privateIP" := Text(ip)])]))
  {
    FieldNames();
    var ip := ConfirmedIp(python, existing);
    var dict, update := (card: Py) => card.Dict?, (card: Py) => CardWith(card, ip);
    if HasCards(item) { UpdateFirstAt(Cards(item), dict, update, i); }
    hide ConfirmedIp, Deadline, PrivateIps;
  }

  /** A confirmation writes four fields, the deadline 900 seconds ahead. */
  lemma ConfirmedFields(python: Python, payload: Payload, ip: string, subnet: string, nic: string, now: real, key: string)
    requires key != "networkCardList"
    ensures Field(Confirmed(python, payload, ip, subnet, nic, now), key)
         == if key in ["private_ip", "privateIP", "_confirmed_private_ip"] then Some(Text(ip))
            else if key == "_confirmed_private_ip_until" then Some(Number(now + 900.0))
            else Field(payload, key)
  {
    hide UpdateFirst, CardMatches, CardConfirmed;
    FieldNames();
    MarkNames();
    OverriddenNames();
  }

  /** The id of a card: the first of three keys with a value that counts. */
  lemma CardIdPlace(python: Python, card: Payload, i: nat)
    requires i <= 3
    requires forall j :: 0 <= j < i ==> !Truthy(Get(card, ["networkCardID", "networkInterfaceID", "id"][j]))
    ensures i == 3 ==> CardId(python, card) == ""
    ensures i < 3 && Truthy(Get(card, ["networkCardID", "networkInterfaceID", "id"][i])) ==>
      CardId(python, card) == Strip(Str(python, Get(card, ["networkCardID", "networkInterfaceID", "id"][i])))
  {
    var keys := ["networkCardID", "networkInterfaceID", "id"];
    assert keys[0] == "networkCardID" && keys[1] == "networkInterfaceID" && keys[2] == "id";
    StripNothing();
    hide Strip, Str, Truthy;
  }

  /** A card that can be the changed one: any, if no id is given, and else one without an id or with this one. */
  predicate Meant(python: Python, card: Py, nic: string) {
    card.Dict? && (nic == "" || CardId(python, card.fields) in ["", nic])
  }

  /** The first such card, number `i`, gets the address, and the subnet if one is given. */
  lemma ConfirmedCards(python: Python, payload: Payload, ip: string, subnet: string, nic: string, now: real, i: nat)
    requires HasCards(payload) ==>
      var cards := payload["networkCardList"].items;
      i <= |cards| && (i < |cards| ==> Meant(python, cards[i], nic)) && forall j :: 0 <= j < i ==> !Meant(python, cards[j], nic)
    ensures
      Field(Confirmed(python, payload, ip, subnet, nic, now), "networkCardList")
      == if !HasCards(payload) then Field(payload, "networkCardList")
         else
           var cards := payload["networkCardList"].items;
           Some(List(if i == |cards| then cards
                     else if subnet == "" then cards[i := Dict(cards[i].fields["IPv4Address" := Text(ip)])]
                     else cards[i := Dict(cards[i].fields["IPv4Address" := Text(ip)]["subnetID" := Text(subnet)])]))
  {
    FieldNames();
    hide CardId;
    var meant, update := (card: Py) => CardMatches(python, card, nic), (card: Py) => CardConfirmed(card, ip, subnet);
    forall card: Py ensures meant(card) <==> Meant(python, card, nic) {}
    if HasCards(payload) { UpdateFirstAt(Cards(payload), meant, update, i); }
    var marked := payload["private_ip" := Text(ip)]["privateIP" := Text(ip)]["_confirmed_private_ip" := Text(ip)]
                         ["_confirmed_private_ip_until" := Number(now + 900.0)];
    assert Cards(marked) == Cards(payload);
  }

  // ---------------------------------------------------------------- the rows after a sync

  lemma {:induction false} WrittenAt(python: Python, before: map<string, Row>, sync: Sync, n: nat, id: string)
    requires n <= |sync.listing|
    ensures
      var rows := Written(python, before, sync.targets, sync.listing, sync.clock, n);
      (id == "" || forall i :: 0 <= i < n ==> sync.listing[i].id != id) ==>
        && (id in rows <==> id in before && sync.targets != [] && before[id].region !in sync.targets)
        && (id in rows ==> rows[id] == before[id])
  {
    hide Protected;
    if n > 0 { WrittenAt(python, before, sync, n - 1, id); }
  }

  /** A sync leaves a row that it does not list exactly if it names regions and the row's is none of them, and stores the
      last item listed under an id, protected by what was there before, under that item's region. */
  lemma RowsAfter(python: Python, before: map<string, Row>, sync: Sync, id: string)
    ensures
      !Lists(sync, id) || id == "" ==>
        && (id in After(python, before, sync) <==> id in before && sync.targets != [] && before[id].region !in sync.targets)
        && (id in After(python, before, sync) ==> After(python, before, sync)[id] == before[id])
    ensures
      forall i: nat | LastListed(sync, id, i) && id != "" ::
        && id in After(python, before, sync)
        && After(python, before, sync)[id]
           == Row(sync.listing[i].region,
                  Protected(python, sync.listing[i].payload, if id in before then before[id].payload else map[], sync.clock(i)))
  {
    hide Protected, Written;
    WrittenAt(python, before, sync, |sync.listing|, id);
    forall i: nat | LastListed(sync, id, i) && id != ""
      ensures id in After(python, before, sync)
      ensures After(python, before, sync)[id]
           == Row(sync.listing[i].region, Protected(python, sync.listing[i].payload, PayloadOf(before, id), sync.clock(i)))
    {
      WrittenRow(python, before, sync, |sync.listing|, i);
    }
  }

  predicate LastListed(sync: Sync, id: string, i: nat) {
    && i < |sync.listing| && sync.listing[i].id == id
    && forall j :: i < j < |sync.listing| ==> sync.listing[j].id != id
  }

  lemma {:induction false} WrittenRow(python: Python, before: map<string, Row>, sync: Sync, n: nat, i: nat)
    requires i < n <= |sync.listing| && sync.listing[i].id != ""
    requires forall j :: i < j < n ==> sync.listing[j].id != sync.listing[i].id
    ensures
      var rows, id := Written(python, before, sync.targets, sync.listing, sync.clock, n), sync.listing[i].id;
      id in rows
      && rows[id] == Row(sync.listing[i].region,
                         Protected(python, sync.listing[i].payload, PayloadOf(before, id), sync.clock(i)))
  {
    hide Protected;
    if i < n - 1 { WrittenRow(python, before, sync, n - 1, i); }
  }
}
