/** Trees of JSON values and secrets, the plain form they are stored in, and reading that form back. */
module Secrets {
  import opened Common

  // ---- Values ----

  datatype Moment = NoMoment | At(time: int) | BadDate

  /** A value as the serializer sees it. `Refused` stands for dates, functions, raw secrets and objects that have a
      secret's methods without being one. The keys of an object are distinct. */
  datatype Value =
    | Undefined
    | Null
    | Bool(b: bool)
    | Num(finite: bool, number: real)
    | Str(text: string)
    | Protected(scheme: string, verifier: string, keyId: Option<string>, createdAt: Moment)
    | Sealed(algorithm: string, sealedKeyId: string, ciphertext: string, expiresAt: Moment)
    | Refused
    | Arr(items: seq<Value>)
    | Obj(entries: seq<Entry>)

  datatype Entry = Entry(key: string, value: Value)

  /** How a time is written as text and read back. */
  datatype Times = Times(text: int -> string, read: string -> Option<int>)

  ghost predicate Exact(times: Times) {
    forall t: int :: times.text(t) != "" && times.read(times.text(t)) == Some(t)
  }

  const MAX_NODES := 1000
  const MAX_DEPTH := 16
  const MAX_CHARACTERS := 10_000_000
  const PROTECTED := "protected-value"
  const SEALED := "sealed-secret"

  predicate IsControl(c: char) {
    c < '\U{20}' || c == '\U{7f}'
  }

  predicate SafeText(text: string, maxLength: nat, nonEmpty: bool) {
    (nonEmpty ==> text != "") && |text| <= maxLength && forall i :: 0 <= i < |text| ==> !IsControl(text[i])
  }

  function Lookup(entries: seq<Entry>, key: string): Value {
    if entries == [] then Undefined
    else if entries[0].key == key then entries[0].value
    else Lookup(entries[1..], key)
  }

  /** A plain object whose own type field is the name of a stored secret. */
  predicate Poses(entries: seq<Entry>) {
    Lookup(entries, "type") == Str(PROTECTED) || Lookup(entries, "type") == Str(SEALED)
  }

  predicate FreeOfPosing(v: Value) {
    match v
    case Arr(items) => AllFreeOfPosing(items)
    case Obj(entries) => !Poses(entries) && EntriesFreeOfPosing(entries)
    case _ => true
  }

  predicate AllFreeOfPosing(items: seq<Value>) {
    items == [] || (FreeOfPosing(items[0]) && AllFreeOfPosing(items[1..]))
  }

  predicate EntriesFreeOfPosing(entries: seq<Entry>) {
    entries == [] || (FreeOfPosing(entries[0].value) && EntriesFreeOfPosing(entries[1..]))
  }

  /** The keys of an object are distinct, at every level. */
  predicate DistinctKeys(v: Value) {
    match v
    case Arr(items) => AllDistinctKeys(items)
    case Obj(entries) => EntriesDistinct(entries)
    case _ => true
  }

  predicate AllDistinctKeys(items: seq<Value>) {
    items == [] || (DistinctKeys(items[0]) && AllDistinctKeys(items[1..]))
  }

  predicate EntriesDistinct(entries: seq<Entry>) {
    entries == []
    || (DistinctKeys(entries[0].value) && !HasKey(entries[1..], entries[0].key) && EntriesDistinct(entries[1..]))
  }

  predicate HasKey(entries: seq<Entry>, key: string) {
    entries != [] && (entries[0].key == key || HasKey(entries[1..], key))
  }

  // ---- What a traversal costs ----

  function KeyIdLength(keyId: Option<string>): nat {
    if keyId.Some? then |keyId.value| else 0
  }

  function Nodes(v: Value): nat {
    match v
    case Arr(items) => 1 + NodesOfAll(items)
    case Obj(entries) => 1 + NodesOfEntries(entries)
    case _ => 1
  }

  function NodesOfAll(items: seq<Value>): nat {
    if items == [] then 0 else Nodes(items[0]) + NodesOfAll(items[1..])
  }

  function NodesOfEntries(entries: seq<Entry>): nat {
    if entries == [] then 0 else Nodes(entries[0].value) + NodesOfEntries(entries[1..])
  }

  function Chars(v: Value): nat {
    match v
    case Str(text) => |text|
    case Protected(scheme, verifier, keyId, _) => |scheme| + |verifier| + KeyIdLength(keyId)
    case Sealed(algorithm, keyId, ciphertext, _) => |algorithm| + |keyId| + |ciphertext|
    case Arr(items) => CharsOfAll(items)
    case Obj(entries) => CharsOfEntries(entries)
    case _ => 0
  }

  function CharsOfAll(items: seq<Value>): nat {
    if items == [] then 0 else Chars(items[0]) + CharsOfAll(items[1..])
  }

  function CharsOfEntries(entries: seq<Entry>): nat {
    if entries == [] then 0 else |entries[0].key| + Chars(entries[0].value) + CharsOfEntries(entries[1..])
  }

  // ---- Serializing ----

  predicate SafeProtected(scheme: string, verifier: string, keyId: Option<string>) {
    && SafeText(scheme, 256, true) && SafeText(verifier, 1_000_000, true)
    && (keyId.Some? ==> SafeText(keyId.value, 512, false))
  }

  predicate SafeSealed(algorithm: string, keyId: string, ciphertext: string) {
    SafeText(algorithm, 256, true) && SafeText(keyId, 512, true) && SafeText(ciphertext, 5_000_000, true)
  }

  /** Everything the serializer checks that does not depend on its budgets. */
  predicate Persistable(v: Value, depth: nat) {
    match v
    case Undefined => true
    case Null => true
    case Bool(_) => true
    case Num(finite, _) => finite
    case Str(text) => |text| <= 65536
    case Refused => false
    case Protected(scheme, verifier, keyId, createdAt) =>
      depth < MAX_DEPTH && SafeProtected(scheme, verifier, keyId) && !createdAt.BadDate?
    case Sealed(algorithm, keyId, ciphertext, expiresAt) =>
      depth < MAX_DEPTH && SafeSealed(algorithm, keyId, ciphertext) && !expiresAt.BadDate?
    case Arr(items) => depth < MAX_DEPTH && AllPersistable(items, depth + 1)
    case Obj(entries) => depth < MAX_DEPTH && EntriesPersistable(entries, depth + 1)
  }

  predicate AllPersistable(items: seq<Value>, depth: nat) {
    items == [] || (Persistable(items[0], depth) && !items[0].Undefined? && AllPersistable(items[1..], depth))
  }

  predicate EntriesPersistable(entries: seq<Entry>, depth: nat) {
    entries == []
    || (SafeText(entries[0].key, 512, true) && Persistable(entries[0].value, depth)
        && EntriesPersistable(entries[1..], depth))
  }

  function TimeField(m: Moment, times: Times): Value {
    if m.At? then Str(times.text(m.time)) else Undefined
  }

  function Serialized(v: Value, times: Times): Value {
    match v
    case Protected(scheme, verifier, keyId, createdAt) =>
      Obj([Entry("type", Str(PROTECTED)), Entry("scheme", Str(scheme)), Entry("value", Str(verifier)),
           Entry("keyId", if keyId.Some? then Str(keyId.value) else Undefined),
           Entry("createdAt", TimeField(createdAt, times))])
    case Sealed(algorithm, keyId, ciphertext, expiresAt) =>
      Obj([Entry("type", Str(SEALED)), Entry("algorithm", Str(algorithm)), Entry("keyId", Str(keyId)),
           Entry("ciphertext", Str(ciphertext)), Entry("expiresAt", TimeField(expiresAt, times))])
    case Arr(items) => Arr(SerializedAll(items, times))
    case Obj(entries) => Obj(SerializedEntries(entries, times))
    case _ => v
  }

  function SerializedAll(items: seq<Value>, times: Times): seq<Value> {
    if items == [] then [] else [Serialized(items[0], times)] + SerializedAll(items[1..], times)
  }

  function SerializedEntries(entries: seq<Entry>, times: Times): seq<Entry> {
    if entries == [] then []
    else
      var rest := SerializedEntries(entries[1..], times);
      if entries[0].value.Undefined? then rest
      else [Entry(entries[0].key, Serialized(entries[0].value, times))] + rest
  }

  predicate Serializes(v: Value) {
    Persistable(v, 0) && Nodes(v) <= MAX_NODES && Chars(v) <= MAX_CHARACTERS
  }

  function SerializeSecrets(v: Value, times: Times): Option<Value> {
    if Serializes(v) then Some(Serialized(v, times)) else None
  }

  // ---- Reviving ----

  predicate OptionalDate(v: Value, times: Times) {
    v.Undefined? || (v.Str? && v.text != "" && times.read(v.text).Some?)
  }

  function MomentOf(v: Value, times: Times): Moment
    requires OptionalDate(v, times)
  {
    if v.Undefined? then NoMoment else At(times.read(v.text).value)
  }

  predicate RevivesAsProtected(entries: seq<Entry>, times: Times) {
    && Lookup(entries, "scheme").Str? && SafeText(Lookup(entries, "scheme").text, 256, true)
    && Lookup(entries, "value").Str? && SafeText(Lookup(entries, "value").text, 1_000_000, true)
    && (Lookup(entries, "keyId").Undefined?
        || (Lookup(entries, "keyId").Str? && SafeText(Lookup(entries, "keyId").text, 512, false)))
    && OptionalDate(Lookup(entries, "createdAt"), times)
  }

  predicate RevivesAsSealed(entries: seq<Entry>, times: Times) {
    && Lookup(entries, "algorithm").Str? && SafeText(Lookup(entries, "algorithm").text, 256, true)
    && Lookup(entries, "keyId").Str? && SafeText(Lookup(entries, "keyId").text, 512, true)
    && Lookup(entries, "ciphertext").Str? && SafeText(Lookup(entries, "ciphertext").text, 5_000_000, true)
    && OptionalDate(Lookup(entries, "expiresAt"), times)
  }

  function RevivedProtected(entries: seq<Entry>, times: Times): Value
    requires RevivesAsProtected(entries, times)
  {
    Protected(Lookup(entries, "scheme").text, Lookup(entries, "value").text,
              if Lookup(entries, "keyId").Str? then Some(Lookup(entries, "keyId").text) else None,
              MomentOf(Lookup(entries, "createdAt"), times))
  }

  function RevivedSealed(entries: seq<Entry>, times: Times): Value
    requires RevivesAsSealed(entries, times)
  {
    Sealed(Lookup(entries, "algorithm").text, Lookup(entries, "keyId").text, Lookup(entries, "ciphertext").text,
           MomentOf(Lookup(entries, "expiresAt"), times))
  }

  /** What reviving makes of a stored value, and what it spends on it. */
  datatype Revival = Revival(value: Value, nodes: nat, characters: nat)

  /** Everything the reviver checks that does not depend on its budgets; no revival when a check fails. */
  function Revive(v: Value, depth: nat, times: Times): Option<Revival> {
    match v
    case Null => Some(Revival(v, 1, 0))
    case Bool(_) => Some(Revival(v, 1, 0))
    case Num(finite, _) => if finite then Some(Revival(v, 1, 0)) else None
    case Str(text) => if |text| <= 65536 then Some(Revival(v, 1, |text|)) else None
    case Arr(items) =>
      if depth >= MAX_DEPTH then None
      else
        var all := ReviveAll(items, depth + 1, times);
        if all.None? then None
        else Some(Revival(Arr(all.value.items), 1 + all.value.nodes, all.value.characters))
    case Obj(entries) =>
      if depth >= MAX_DEPTH then None
      else if Lookup(entries, "type") == Str(PROTECTED) then
        if RevivesAsProtected(entries, times) then
          Some(Revival(RevivedProtected(entries, times), 1, Chars(RevivedProtected(entries, times))))
        else None
      else if Lookup(entries, "type") == Str(SEALED) then
        if RevivesAsSealed(entries, times) then
          Some(Revival(RevivedSealed(entries, times), 1, Chars(RevivedSealed(entries, times))))
        else None
      else
        var all := ReviveEntries(entries, depth + 1, times);
        if all.None? then None
        else Some(Revival(Obj(all.value.entries), 1 + all.value.nodes, all.value.characters))
    case _ => None
  }

  datatype ItemsRevival = ItemsRevival(items: seq<Value>, nodes: nat, characters: nat)

  datatype EntriesRevival = EntriesRevival(entries: seq<Entry>, nodes: nat, characters: nat)

  function ReviveAll(items: seq<Value>, depth: nat, times: Times): Option<ItemsRevival> {
    if items == [] then Some(ItemsRevival([], 0, 0))
    else
      var first := Revive(items[0], depth, times);
      var rest := ReviveAll(items[1..], depth, times);
      if first.None? || rest.None? then None
      else Some(ItemsRevival([first.value.value] + rest.value.items, first.value.nodes + rest.value.nodes,
                             first.value.characters + rest.value.characters))
  }

  function ReviveEntries(entries: seq<Entry>, depth: nat, times: Times): Option<EntriesRevival> {
    if entries == [] then Some(EntriesRevival([], 0, 0))
    else
      var first := Revive(entries[0].value, depth, times);
      var rest := ReviveEntries(entries[1..], depth, times);
      if first.None? || rest.None? || !SafeText(entries[0].key, 512, true) then None
      else Some(EntriesRevival([Entry(entries[0].key, first.value.value)] + rest.value.entries,
                               first.value.nodes + rest.value.nodes,
                               |entries[0].key| + first.value.characters + rest.value.characters))
  }

  function ReviveSecrets(v: Value, times: Times): Option<Value> {
    var r := Revive(v, 0, times);
    if r.Some? && r.value.nodes <= MAX_NODES && r.value.characters <= MAX_CHARACTERS then Some(r.value.value) else None
  }

  // ---- The round trip ----

  /** The tree without its undefined fields. */
  function Stripped(v: Value): Value {
    match v
    case Arr(items) => Arr(StrippedAll(items))
    case Obj(entries) => Obj(StrippedEntries(entries))
    case _ => v
  }

  function StrippedAll(items: seq<Value>): seq<Value> {
    if items == [] then [] else [Stripped(items[0])] + StrippedAll(items[1..])
  }

  function StrippedEntries(entries: seq<Entry>): seq<Entry> {
    if entries == [] then []
    else
      var rest := StrippedEntries(entries[1..]);
      if entries[0].value.Undefined? then rest else [Entry(entries[0].key, Stripped(entries[0].value))] + rest
  }

  /** A revival that gives back the stripped tree within what serializing it cost. */
  predicate GivesBack(r: Option<Revival>, v: Value) {
    r.Some? && r.value.value == Stripped(v) && r.value.nodes <= Nodes(v) && r.value.characters <= Chars(v)
  }

  lemma {:induction false} SerializedLookup(entries: seq<Entry>, key: string, times: Times)
    requires EntriesDistinct(entries)
    ensures Lookup(SerializedEntries(entries, times), key)
            == if Lookup(entries, key).Undefined? then Undefined else Serialized(Lookup(entries, key), times)
  {
    if entries != [] {
      SerializedLookup(entries[1..], key, times);
      if entries[0].value.Undefined? {
        if entries[0].key == key {
          AbsentIsUndefined(entries[1..], key);
        }
      } else {
        var rest := SerializedEntries(entries[1..], times);
        assert ([Entry(entries[0].key, Serialized(entries[0].value, times))] + rest)[1..] == rest;
      }
    }
  }

  lemma {:induction false} AbsentIsUndefined(entries: seq<Entry>, key: string)
    requires !HasKey(entries, key)
    ensures Lookup(entries, key) == Undefined
  {
    if entries != [] {
      AbsentIsUndefined(entries[1..], key);
    }
  }

  /** The stored form poses exactly when the original does: a secret in the type field does not count. */
  lemma SerializedPoses(entries: seq<Entry>, times: Times)
    requires EntriesDistinct(entries)
    ensures Poses(SerializedEntries(entries, times)) <==> Poses(entries)
  {
    SerializedLookup(entries, "type", times);
  }

  lemma FieldNamesDiffer()
    ensures "type" != "scheme" && "type" != "value" && "type" != "keyId" && "type" != "createdAt"
    ensures "scheme" != "value" && "scheme" != "keyId" && "scheme" != "createdAt"
    ensures "value" != "keyId" && "value" != "createdAt" && "keyId" != "createdAt"
    ensures "type" != "algorithm" && "type" != "ciphertext" && "type" != "expiresAt"
    ensures "algorithm" != "keyId" && "algorithm" != "ciphertext" && "algorithm" != "expiresAt"
    ensures "keyId" != "ciphertext" && "keyId" != "expiresAt" && "ciphertext" != "expiresAt"
    ensures PROTECTED != SEALED
  {
  }

  lemma {:induction false} LookupFirst(entries: seq<Entry>, i: nat)
    requires i < |entries| && forall j :: 0 <= j < i ==> entries[j].key != entries[i].key
    ensures Lookup(entries, entries[i].key) == entries[i].value
  {
    if i > 0 {
      assert entries[1..][i - 1] == entries[i];
      LookupFirst(entries[1..], i - 1);
    }
  }

  lemma FiveLookups(entries: seq<Entry>)
    requires |entries| == 5 && forall i, j :: 0 <= i < j < 5 ==> entries[i].key != entries[j].key
    ensures forall i :: 0 <= i < 5 ==> Lookup(entries, entries[i].key) == entries[i].value
  {
    forall i | 0 <= i < 5
      ensures Lookup(entries, entries[i].key) == entries[i].value
    {
      LookupFirst(entries, i);
    }
  }

  lemma ProtectedFields(v: Value, times: Times)
    requires v.Protected?
    ensures var entries := Serialized(v, times).entries;
            && Lookup(entries, "type") == Str(PROTECTED) && Lookup(entries, "scheme") == Str(v.scheme)
            && Lookup(entries, "value") == Str(v.verifier)
            && Lookup(entries, "keyId") == (if v.keyId.Some? then Str(v.keyId.value) else Undefined)
            && Lookup(entries, "createdAt") == TimeField(v.createdAt, times)
  {
    var entries := Serialized(v, times).entries;
    FieldNamesDiffer();
    FiveLookups(entries);
    assert entries[0].key == "type" && entries[1].key == "scheme" && entries[2].key == "value"
           && entries[3].key == "keyId" && entries[4].key == "createdAt";
  }

  lemma SealedFields(v: Value, times: Times)
    requires v.Sealed?
    ensures var entries := Serialized(v, times).entries;
            && Lookup(entries, "type") == Str(SEALED) && Lookup(entries, "algorithm") == Str(v.algorithm)
            && Lookup(entries, "keyId") == Str(v.sealedKeyId) && Lookup(entries, "ciphertext") == Str(v.ciphertext)
            && Lookup(entries, "expiresAt") == TimeField(v.expiresAt, times)
  {
    var entries := Serialized(v, times).entries;
    FieldNamesDiffer();
    FiveLookups(entries);
    assert entries[0].key == "type" && entries[1].key == "algorithm" && entries[2].key == "keyId"
           && entries[3].key == "ciphertext" && entries[4].key == "expiresAt";
  }

  lemma ProtectedComesBack(v: Value, depth: nat, times: Times)
    requires Exact(times) && v.Protected? && Persistable(v, depth)
    ensures GivesBack(Revive(Serialized(v, times), depth, times), v)
  {
    var entries := Serialized(v, times).entries;
    ProtectedFields(v, times);
    assert RevivedProtected(entries, times) == v;
  }

  lemma SealedComesBack(v: Value, depth: nat, times: Times)
    requires Exact(times) && v.Sealed? && Persistable(v, depth)
    ensures GivesBack(Revive(Serialized(v, times), depth, times), v)
  {
    var entries := Serialized(v, times).entries;
    FieldNamesDiffer();
    SealedFields(v, times);
    assert RevivedSealed(entries, times) == v;
  }

  // ---- Trees that do not pose come back ----

  predicate GivesBackAll(r: Option<ItemsRevival>, items: seq<Value>) {
    && r.Some? && r.value.items == StrippedAll(items)
    && r.value.nodes <= NodesOfAll(items) && r.value.characters <= CharsOfAll(items)
  }

  predicate GivesBackEntries(r: Option<EntriesRevival>, entries: seq<Entry>) {
    && r.Some? && r.value.entries == StrippedEntries(entries)
    && r.value.nodes <= NodesOfEntries(entries) && r.value.characters <= CharsOfEntries(entries)
  }

  lemma {:induction false} ComesBack(v: Value, depth: nat, times: Times)
    requires Exact(times) && Persistable(v, depth) && DistinctKeys(v) && FreeOfPosing(v) && !v.Undefined?
    ensures GivesBack(Revive(Serialized(v, times), depth, times), v)
  {
    match v
    case Protected(_, _, _, _) => ProtectedComesBack(v, depth, times);
    case Sealed(_, _, _, _) => SealedComesBack(v, depth, times);
    case Arr(items) => AllComeBack(items, depth + 1, times);
    case Obj(entries) =>
      SerializedPoses(entries, times);
      EntriesComeBack(entries, depth + 1, times);
    case _ =>
  }

  lemma {:induction false} AllComeBack(items: seq<Value>, depth: nat, times: Times)
    requires Exact(times) && AllPersistable(items, depth) && AllDistinctKeys(items) && AllFreeOfPosing(items)
    ensures GivesBackAll(ReviveAll(SerializedAll(items, times), depth, times), items)
  {
    if items != [] {
      ComesBack(items[0], depth, times);
      AllComeBack(items[1..], depth, times);
      var rest := SerializedAll(items[1..], times);
      assert ([Serialized(items[0], times)] + rest)[1..] == rest;
    }
  }

  lemma {:induction false} EntriesComeBack(entries: seq<Entry>, depth: nat, times: Times)
    requires Exact(times) && EntriesPersistable(entries, depth) && EntriesDistinct(entries)
    requires EntriesFreeOfPosing(entries)
    ensures GivesBackEntries(ReviveEntries(SerializedEntries(entries, times), depth, times), entries)
  {
    if entries != [] {
      EntriesComeBack(entries[1..], depth, times);
      if !entries[0].value.Undefined? {
        ComesBack(entries[0].value, depth, times);
        var rest := SerializedEntries(entries[1..], times);
        assert ([Entry(entries[0].key, Serialized(entries[0].value, times))] + rest)[1..] == rest;
      }
    }
  }

  // ---- Trees that come back do not pose ----

  lemma {:induction false} CameBack(v: Value, depth: nat, times: Times)
    requires DistinctKeys(v)
    requires var r := Revive(Serialized(v, times), depth, times); r.Some? && r.value.value == Stripped(v)
    ensures FreeOfPosing(v)
  {
    match v
    case Arr(items) => AllCameBack(items, depth + 1, times);
    case Obj(entries) =>
      SerializedPoses(entries, times);
      EntriesCameBack(entries, depth + 1, times);
    case _ =>
  }

  lemma {:induction false} AllCameBack(items: seq<Value>, depth: nat, times: Times)
    requires AllDistinctKeys(items)
    requires var r := ReviveAll(SerializedAll(items, times), depth, times);
             r.Some? && r.value.items == StrippedAll(items)
    ensures AllFreeOfPosing(items)
  {
    if items != [] {
      var rest := SerializedAll(items[1..], times);
      assert ([Serialized(items[0], times)] + rest)[1..] == rest;
      var r := ReviveAll(SerializedAll(items, times), depth, times).value.items;
      assert r[0] == StrippedAll(items)[0] && r[1..] == StrippedAll(items)[1..];
      assert StrippedAll(items)[1..] == StrippedAll(items[1..]);
      assert r[1..] == ReviveAll(rest, depth, times).value.items;
      CameBack(items[0], depth, times);
      AllCameBack(items[1..], depth, times);
    }
  }

  lemma {:induction false} EntriesCameBack(entries: seq<Entry>, depth: nat, times: Times)
    requires EntriesDistinct(entries)
    requires var r := ReviveEntries(SerializedEntries(entries, times), depth, times);
             r.Some? && r.value.entries == StrippedEntries(entries)
    ensures EntriesFreeOfPosing(entries)
  {
    if entries != [] {
      if !entries[0].value.Undefined? {
        var rest := SerializedEntries(entries[1..], times);
        assert ([Entry(entries[0].key, Serialized(entries[0].value, times))] + rest)[1..] == rest;
        var r := ReviveEntries(SerializedEntries(entries, times), depth, times).value.entries;
        assert r[0] == StrippedEntries(entries)[0] && r[1..] == StrippedEntries(entries)[1..];
        assert StrippedEntries(entries)[1..] == StrippedEntries(entries[1..]);
        assert r[1..] == ReviveEntries(rest, depth, times).value.entries;
        CameBack(entries[0].value, depth, times);
      }
      EntriesCameBack(entries[1..], depth, times);
    }
  }

  /** Whatever the serializer accepts, the reviver gives back within its own budgets as the same tree minus its
      undefined fields, exactly when the tree is not itself undefined and no plain object in it poses as a secret. */
  lemma RoundTrip(v: Value, times: Times)
    requires Exact(times) && DistinctKeys(v) && SerializeSecrets(v, times).Some?
    ensures ReviveSecrets(SerializeSecrets(v, times).value, times) == Some(Stripped(v))
            <==> !v.Undefined? && FreeOfPosing(v)
  {
    if !v.Undefined? && FreeOfPosing(v) {
      ComesBack(v, 0, times);
    } else if ReviveSecrets(SerializeSecrets(v, times).value, times) == Some(Stripped(v)) {
      CameBack(v, 0, times);
    }
  }

  /** An undefined value is serialized as itself, and what comes back is a failure. */
  lemma UndefinedIsLost(times: Times)
    ensures SerializeSecrets(Undefined, times) == Some(Undefined) && ReviveSecrets(Undefined, times).None?
  {
  }
}
