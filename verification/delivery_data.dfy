/** The two validators of delivery messages: the store's, before a message is written and after it is read, and the
    worker's own, on what it claimed. They walk the same trees with different budgets, depths and refusals. */
module DeliveryData {
  import opened Secrets

  const MAX_JSON_CHARACTERS := 1_000_000
  const MAX_FIELDS := 1000
  const RAW := "raw-secret"
  const MESSAGE_KEYS := {"data", "locale", "metadata", "templateId", "to"}
  const ADDRESS_KEYS := {"channel", "display", "target"}

  datatype Validator = Store | Worker

  predicate IsDescriptor(entries: seq<Entry>) {
    Lookup(entries, "type") == Str(RAW) || Poses(entries)
  }

  predicate HasReveal(entries: seq<Entry>) {
    || HasKey(entries, "reveal") || HasKey(entries, "revealForPersistence")
    || HasKey(entries, "revealCiphertextForPersistence")
  }

  /** What both validators check of a JSON value besides their budgets. The store also refuses a plain object with a
      key named after a secret's method; the worker refuses it only when the value is a function, which is never JSON. */
  predicate IsJson(v: Value, depth: nat, who: Validator) {
    match v
    case Null => true
    case Bool(_) => true
    case Num(finite, _) => finite
    case Str(text) => SafeText(text, 65536, false)
    case Arr(items) => depth < MAX_DEPTH && AllJson(items, depth + 1, who)
    case Obj(entries) =>
      depth < MAX_DEPTH && !IsDescriptor(entries) && (who.Store? ==> !HasReveal(entries))
      && EntriesJson(entries, depth + 1, who)
    case _ => false
  }

  predicate AllJson(items: seq<Value>, depth: nat, who: Validator) {
    items == [] || (IsJson(items[0], depth, who) && AllJson(items[1..], depth, who))
  }

  predicate EntriesJson(entries: seq<Entry>, depth: nat, who: Validator) {
    entries == []
    || (SafeText(entries[0].key, 512, true) && IsJson(entries[0].value, depth, who)
        && EntriesJson(entries[1..], depth, who))
  }

  predicate FitsJson(nodes: nat, characters: nat) {
    nodes <= MAX_NODES && characters <= MAX_JSON_CHARACTERS
  }

  /** The store counts the object itself and starts its fields one level down; the worker does neither, and does not ask
      whether the object itself is a secret's description. */
  predicate IsJsonObject(v: Value, who: Validator) {
    && v.Obj?
    && match who
       case Store => IsJson(v, 0, Store) && FitsJson(Nodes(v), Chars(v))
       case Worker => EntriesJson(v.entries, 0, Worker) && FitsJson(NodesOfEntries(v.entries), CharsOfEntries(v.entries))
  }

  // ---- Delivery data: JSON fields and sealed secrets side by side ----

  predicate SealedHeader(v: Value) {
    v.Sealed? && SafeText(v.algorithm, 256, true) && SafeText(v.sealedKeyId, 512, true) && !v.expiresAt.BadDate?
  }

  function PublicNodes(entries: seq<Entry>): nat {
    if entries == [] then 0
    else PublicNodes(entries[1..]) + if entries[0].value.Sealed? then 0 else Nodes(entries[0].value)
  }

  function PublicCharacters(entries: seq<Entry>): nat {
    if entries == [] then 0
    else PublicCharacters(entries[1..]) + if entries[0].value.Sealed? then 0 else Chars(entries[0].value)
  }

  function SecretCharacters(entries: seq<Entry>): nat {
    if entries == [] then 0
    else SecretCharacters(entries[1..]) + if entries[0].value.Sealed? then |entries[0].value.ciphertext| else 0
  }

  function KeyCharacters(entries: seq<Entry>): nat {
    if entries == [] then 0 else |entries[0].key| + KeyCharacters(entries[1..])
  }

  predicate FieldOk(e: Entry, who: Validator) {
    match who
    case Store =>
      && SafeText(e.key, 512, true)
      && (if e.value.Sealed? then SealedHeader(e.value) && SafeText(e.value.ciphertext, MAX_JSON_CHARACTERS, true)
          else IsJson(e.value, 0, Store))
    case Worker =>
      if e.value.Sealed? then SealedHeader(e.value) && e.value.ciphertext != ""
      else IsJson(e.value, 0, Worker) && FitsJson(Nodes(e.value), Chars(e.value))
  }

  predicate FieldsOk(entries: seq<Entry>, who: Validator) {
    entries == [] || (FieldOk(entries[0], who) && FieldsOk(entries[1..], who))
  }

  /** The store spends one character budget on keys, values and ciphertexts together; the worker has one for all values,
      one for all ciphertexts, none for keys, and first checks each value with a budget of its own. */
  predicate IsData(v: Value, who: Validator) {
    && v.Obj? && |v.entries| <= MAX_FIELDS && FieldsOk(v.entries, who)
    && match who
       case Store =>
         FitsJson(PublicNodes(v.entries),
                  KeyCharacters(v.entries) + PublicCharacters(v.entries) + SecretCharacters(v.entries))
       case Worker =>
         && SecretCharacters(v.entries) <= MAX_JSON_CHARACTERS
         && FitsJson(PublicNodes(v.entries), PublicCharacters(v.entries))
  }

  // ---- Delivery messages ----

  predicate OnlyKeys(entries: seq<Entry>, allowed: set<string>) {
    entries == [] || (entries[0].key in allowed && OnlyKeys(entries[1..], allowed))
  }

  predicate IsText(v: Value, maxLength: nat, nonEmpty: bool) {
    v.Str? && SafeText(v.text, maxLength, nonEmpty)
  }

  predicate IsAddress(v: Value) {
    && v.Obj? && OnlyKeys(v.entries, ADDRESS_KEYS)
    && IsText(Lookup(v.entries, "channel"), 64, true)
    && IsText(Lookup(v.entries, "target"), 2048, true)
    && (Lookup(v.entries, "display").Undefined? || IsText(Lookup(v.entries, "display"), 512, false))
  }

  predicate IsDeliveryMessage(v: Value, who: Validator) {
    && v.Obj? && OnlyKeys(v.entries, MESSAGE_KEYS)
    && IsAddress(Lookup(v.entries, "to"))
    && IsText(Lookup(v.entries, "templateId"), 256, true)
    && (Lookup(v.entries, "locale").Undefined? || IsText(Lookup(v.entries, "locale"), 128, true))
    && (Lookup(v.entries, "metadata").Undefined? || IsJsonObject(Lookup(v.entries, "metadata"), who))
    && (Lookup(v.entries, "data").Undefined? || IsData(Lookup(v.entries, "data"), who))
  }

  /** The data of a message poses as a secret at its own top level. */
  predicate DataPoses(v: Value) {
    v.Obj? && Lookup(v.entries, "data").Obj? && Poses(Lookup(v.entries, "data").entries)
  }

  // ---- The store's validator is the stricter one ----

  lemma {:induction false} StrictJsonIsJson(v: Value, depth: nat, shallower: nat)
    requires IsJson(v, depth, Store) && shallower <= depth
    ensures IsJson(v, shallower, Worker)
  {
    match v
    case Arr(items) => StrictItemsAreJson(items, depth + 1, shallower + 1);
    case Obj(entries) => StrictEntriesAreJson(entries, depth + 1, shallower + 1);
    case _ =>
  }

  lemma {:induction false} StrictItemsAreJson(items: seq<Value>, depth: nat, shallower: nat)
    requires AllJson(items, depth, Store) && shallower <= depth
    ensures AllJson(items, shallower, Worker)
  {
    if items != [] {
      StrictJsonIsJson(items[0], depth, shallower);
      StrictItemsAreJson(items[1..], depth, shallower);
    }
  }

  lemma {:induction false} StrictEntriesAreJson(entries: seq<Entry>, depth: nat, shallower: nat)
    requires EntriesJson(entries, depth, Store) && shallower <= depth
    ensures EntriesJson(entries, shallower, Worker)
  {
    if entries != [] {
      StrictJsonIsJson(entries[0].value, depth, shallower);
      StrictEntriesAreJson(entries[1..], depth, shallower);
    }
  }

  lemma StoredObjectIsJson(v: Value)
    requires IsJsonObject(v, Store)
    ensures IsJsonObject(v, Worker)
  {
    StrictEntriesAreJson(v.entries, 1, 0);
  }

  lemma {:induction false} StoredFieldsOk(entries: seq<Entry>)
    requires FieldsOk(entries, Store) && FitsJson(PublicNodes(entries), PublicCharacters(entries))
    ensures FieldsOk(entries, Worker)
  {
    if entries != [] {
      if !entries[0].value.Sealed? {
        StrictJsonIsJson(entries[0].value, 0, 0);
      }
      StoredFieldsOk(entries[1..]);
    }
  }

  /** Every delivery message the store's validator accepts is one the worker's accepts. */
  lemma StoreAcceptsLess(v: Value)
    requires IsDeliveryMessage(v, Store)
    ensures IsDeliveryMessage(v, Worker)
  {
    if !Lookup(v.entries, "metadata").Undefined? {
      StoredObjectIsJson(Lookup(v.entries, "metadata"));
    }
    if !Lookup(v.entries, "data").Undefined? {
      StoredFieldsOk(Lookup(v.entries, "data").entries);
    }
  }

  // ---- What storing and reading back does to a message ----

  lemma {:induction false} JsonIsPlain(v: Value, depth: nat, who: Validator)
    requires IsJson(v, depth, who)
    ensures Stripped(v) == v && FreeOfPosing(v) && !v.Undefined?
  {
    match v
    case Arr(items) => ItemsArePlain(items, depth + 1, who);
    case Obj(entries) => EntriesArePlain(entries, depth + 1, who);
    case _ =>
  }

  lemma {:induction false} ItemsArePlain(items: seq<Value>, depth: nat, who: Validator)
    requires AllJson(items, depth, who)
    ensures StrippedAll(items) == items && AllFreeOfPosing(items)
  {
    if items != [] {
      JsonIsPlain(items[0], depth, who);
      ItemsArePlain(items[1..], depth, who);
    }
  }

  lemma {:induction false} EntriesArePlain(entries: seq<Entry>, depth: nat, who: Validator)
    requires EntriesJson(entries, depth, who)
    ensures StrippedEntries(entries) == entries && EntriesFreeOfPosing(entries)
  {
    if entries != [] {
      JsonIsPlain(entries[0].value, depth, who);
      EntriesArePlain(entries[1..], depth, who);
    }
  }

  lemma {:induction false} FieldsArePlain(entries: seq<Entry>)
    requires FieldsOk(entries, Store)
    ensures StrippedEntries(entries) == entries && EntriesFreeOfPosing(entries)
  {
    if entries != [] {
      if !entries[0].value.Sealed? {
        JsonIsPlain(entries[0].value, 0, Store);
      }
      FieldsArePlain(entries[1..]);
    }
  }

  lemma {:induction false} StrippedLookup(entries: seq<Entry>, key: string)
    requires EntriesDistinct(entries)
    ensures Lookup(StrippedEntries(entries), key) == Stripped(Lookup(entries, key))
  {
    if entries != [] {
      StrippedLookup(entries[1..], key);
      if entries[0].value.Undefined? {
        if entries[0].key == key {
          AbsentIsUndefined(entries[1..], key);
        }
      } else {
        var rest := StrippedEntries(entries[1..]);
        assert ([Entry(entries[0].key, Stripped(entries[0].value))] + rest)[1..] == rest;
      }
    }
  }

  lemma {:induction false} StrippedOnlyKeys(entries: seq<Entry>, allowed: set<string>)
    requires OnlyKeys(entries, allowed)
    ensures OnlyKeys(StrippedEntries(entries), allowed)
  {
    if entries != [] {
      StrippedOnlyKeys(entries[1..], allowed);
      if !entries[0].value.Undefined? {
        var rest := StrippedEntries(entries[1..]);
        assert ([Entry(entries[0].key, Stripped(entries[0].value))] + rest)[1..] == rest;
      }
    }
  }

  lemma {:induction false} LookupDistinct(entries: seq<Entry>, key: string)
    requires EntriesDistinct(entries)
    ensures Lookup(entries, key).Undefined? || DistinctKeys(Lookup(entries, key))
  {
    if entries != [] {
      LookupDistinct(entries[1..], key);
    }
  }

  lemma StrippedAddress(v: Value)
    requires IsAddress(v) && DistinctKeys(v)
    ensures IsAddress(Stripped(v))
  {
    StrippedOnlyKeys(v.entries, ADDRESS_KEYS);
    StrippedLookup(v.entries, "channel");
    StrippedLookup(v.entries, "target");
    StrippedLookup(v.entries, "display");
  }

  lemma StrippedMessage(v: Value)
    requires IsDeliveryMessage(v, Store) && DistinctKeys(v)
    ensures IsDeliveryMessage(Stripped(v), Store)
  {
    var entries := v.entries;
    StrippedOnlyKeys(entries, MESSAGE_KEYS);
    StrippedLookup(entries, "to");
    StrippedLookup(entries, "templateId");
    StrippedLookup(entries, "locale");
    StrippedLookup(entries, "metadata");
    StrippedLookup(entries, "data");
    LookupDistinct(entries, "to");
    StrippedAddress(Lookup(entries, "to"));
    if !Lookup(entries, "metadata").Undefined? {
      JsonIsPlain(Lookup(entries, "metadata"), 0, Store);
    }
    if !Lookup(entries, "data").Undefined? {
      FieldsArePlain(Lookup(entries, "data").entries);
    }
  }

  // ---- Where a message can pose ----

  lemma {:induction false} NoTypeKey(entries: seq<Entry>, allowed: set<string>)
    requires OnlyKeys(entries, allowed) && "type" !in allowed
    ensures Lookup(entries, "type").Undefined?
  {
    if entries != [] {
      NoTypeKey(entries[1..], allowed);
    }
  }

  lemma KeysHaveNoType()
    ensures "type" !in MESSAGE_KEYS && "type" !in ADDRESS_KEYS
  {
  }

  lemma {:induction false} TextsAreFree(entries: seq<Entry>, i: nat)
    requires i <= |entries| && forall k :: i <= k < |entries| ==> FreeOfPosing(entries[k].value)
    ensures EntriesFreeOfPosing(entries[i..])
    decreases |entries| - i
  {
    if i < |entries| {
      assert entries[i..][0] == entries[i] && entries[i..][1..] == entries[i + 1..];
      TextsAreFree(entries, i + 1);
    }
  }

  lemma {:induction false} EachIsLookedUp(entries: seq<Entry>, k: nat)
    requires EntriesDistinct(entries) && k < |entries|
    ensures Lookup(entries, entries[k].key) == entries[k].value
  {
    if k > 0 {
      EachIsLookedUp(entries[1..], k - 1);
      PresentKey(entries[1..], k - 1);
    }
  }

  lemma {:induction false} PresentKey(entries: seq<Entry>, k: nat)
    requires k < |entries|
    ensures HasKey(entries, entries[k].key)
  {
    if k > 0 {
      PresentKey(entries[1..], k - 1);
    }
  }

  lemma {:induction false} KeyAllowed(entries: seq<Entry>, allowed: set<string>, k: nat)
    requires OnlyKeys(entries, allowed) && k < |entries|
    ensures entries[k].key in allowed
  {
    if k > 0 {
      KeyAllowed(entries[1..], allowed, k - 1);
    }
  }

  lemma AddressIsFree(v: Value)
    requires IsAddress(v) && DistinctKeys(v)
    ensures FreeOfPosing(v)
  {
    KeysHaveNoType();
    NoTypeKey(v.entries, ADDRESS_KEYS);
    forall k | 0 <= k < |v.entries|
      ensures FreeOfPosing(v.entries[k].value)
    {
      KeyAllowed(v.entries, ADDRESS_KEYS, k);
      EachIsLookedUp(v.entries, k);
    }
    TextsAreFree(v.entries, 0);
    assert v.entries[0..] == v.entries;
  }

  lemma MessageFieldIsFree(v: Value, key: string)
    requires IsDeliveryMessage(v, Store) && DistinctKeys(v) && key in MESSAGE_KEYS && !DataPoses(v)
    ensures FreeOfPosing(Lookup(v.entries, key))
  {
    LookupDistinct(v.entries, "to");
    AddressIsFree(Lookup(v.entries, "to"));
    if !Lookup(v.entries, "metadata").Undefined? {
      JsonIsPlain(Lookup(v.entries, "metadata"), 0, Store);
    }
    if !Lookup(v.entries, "data").Undefined? {
      FieldsArePlain(Lookup(v.entries, "data").entries);
    }
  }

  /** In a message the store's validator accepts, nothing but the top level of its data can pose as a secret. */
  lemma OnlyDataPoses(v: Value)
    requires IsDeliveryMessage(v, Store) && DistinctKeys(v) && !DataPoses(v)
    ensures FreeOfPosing(v)
  {
    KeysHaveNoType();
    NoTypeKey(v.entries, MESSAGE_KEYS);
    forall k | 0 <= k < |v.entries|
      ensures FreeOfPosing(v.entries[k].value)
    {
      KeyAllowed(v.entries, MESSAGE_KEYS, k);
      EachIsLookedUp(v.entries, k);
      MessageFieldIsFree(v, v.entries[k].key);
    }
    TextsAreFree(v.entries, 0);
    assert v.entries[0..] == v.entries;
  }

  // ---- What becomes of data that poses ----

  lemma {:induction false} RevivedLookup(entries: seq<Entry>, key: string, depth: nat, times: Times)
    requires ReviveEntries(entries, depth, times).Some? && !Lookup(entries, key).Undefined?
    ensures Revive(Lookup(entries, key), depth, times).Some?
    ensures Lookup(ReviveEntries(entries, depth, times).value.entries, key)
            == Revive(Lookup(entries, key), depth, times).value.value
  {
    if entries != [] && entries[0].key != key {
      RevivedLookup(entries[1..], key, depth, times);
      var rest := ReviveEntries(entries[1..], depth, times).value.entries;
      var first := Entry(entries[0].key, Revive(entries[0].value, depth, times).value.value);
      assert ([first] + rest)[1..] == rest;
    }
  }

  /** Data that poses is read back as a secret, or not at all; either way it is no longer delivery data. */
  lemma PosingDataIsLost(v: Value, times: Times)
    requires IsDeliveryMessage(v, Store) && DistinctKeys(v) && DataPoses(v)
    ensures var r := Revive(Serialized(v, times), 0, times);
            r.Some? ==> !IsDeliveryMessage(r.value.value, Store)
  {
    KeysHaveNoType();
    NoTypeKey(v.entries, MESSAGE_KEYS);
    SerializedPoses(v.entries, times);
    SerializedLookup(v.entries, "data", times);
    LookupDistinct(v.entries, "data");
    var data := Lookup(v.entries, "data");
    SerializedPoses(data.entries, times);
    var stored := SerializedEntries(v.entries, times);
    if Revive(Serialized(v, times), 0, times).Some? {
      RevivedLookup(stored, "data", 1, times);
    }
  }
}
