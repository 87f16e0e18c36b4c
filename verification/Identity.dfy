/** Which resource an item is, by the place of a key in its list (internal/ctyun/client.go:391-402). */
module Identity {
  import opened RegionListing

  predicate HasText(item: Item, key: string) {
    key in item && item[key] != ""
  }

  /** The first of these keys with a text has this one, or none has one and the text is empty. */
  ghost predicate FirstOf(item: Item, keys: seq<string>, text: string) {
    || (text == "" && forall k :: 0 <= k < |keys| ==> !HasText(item, keys[k]))
    || exists k :: FirstAt(item, keys, text, k)
  }

  predicate FirstAt(item: Item, keys: seq<string>, text: string, k: int) {
    0 <= k < |keys| && HasText(item, keys[k]) && item[keys[k]] == text && forall j :: 0 <= j < k ==> !HasText(item, keys[j])
  }

  /** The id of an item: for a server its instance id comes first, for anything else the plain id. */
  ghost predicate Identifies(item: Item, kind: string, id: string) {
    if kind == "ecs" then
      FirstOf(item, ["instanceID", "instanceId", "instance_id", "deviceUUID", "deviceUuid", "resourceID", "resourceId",
                     "uuid", "id", "ID"], id)
    else
      FirstOf(item, ["id", "uuid", "ID", kind + "ID", "resourceID", "instanceID", "eipID", "vpcID", "subnetID", "imageID",
                     "imageUUID", "imageUuid", "image_uuid"], id)
  }

  lemma {:induction false} FirstTextByPlace(item: Item, keys: seq<string>, text: string)
    ensures FirstText(item, keys) == text <==> FirstOf(item, keys, text)
  {
    hide HasText;
    if keys == [] {
    } else if HasText(item, keys[0]) {
      TextIsThere(item, keys);
      if FirstText(item, keys) == text { assert FirstAt(item, keys, text, 0); }
      if k :| FirstAt(item, keys, text, k) { assert k == 0; }
    } else {
      TextIsThere(item, keys);
      FirstTextByPlace(item, keys[1..], text);
      if k :| FirstAt(item, keys[1..], text, k) {
        forall j | 0 <= j < k + 1 ensures !HasText(item, keys[j]) { if j > 0 { assert keys[j] == keys[1..][j - 1]; } }
        assert FirstAt(item, keys, text, k + 1);
      }
      if k :| FirstAt(item, keys, text, k) {
        forall j | 0 <= j < k - 1 ensures !HasText(item, keys[1..][j]) { assert keys[1..][j] == keys[j + 1]; }
        assert FirstAt(item, keys[1..], text, k - 1);
      }
      forall j | 0 < j < |keys| ensures HasText(item, keys[j]) == HasText(item, keys[1..][j - 1]) {}
      forall j | 0 <= j < |keys[1..]| ensures HasText(item, keys[1..][j]) == HasText(item, keys[j + 1]) {}
    }
  }

  lemma TextIsThere(item: Item, keys: seq<string>)
    requires keys != []
    ensures HasText(item, keys[0]) ==> FirstText(item, keys) == item[keys[0]] != ""
    ensures !HasText(item, keys[0]) ==> FirstText(item, keys) == FirstText(item, keys[1..])
  {
  }

  /** The id is the text at the least place of the list whose key has one; there is none exactly when no key has one. */
  lemma IdByPlace(item: Item, kind: string, id: string)
    ensures ResourceId(item, kind) == id <==> Identifies(item, kind, id)
  {
    hide FirstOf, FirstText;
    FirstTextByPlace(item, IdKeys(kind), id);
  }
}
