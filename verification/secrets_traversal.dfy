/** The two traversals as they run: one shared count of nodes and characters, updated value by value, and a stop at the
    first thing that does not fit. They accept exactly the trees that fit as a whole. */
module SecretsTraversal {
  import opened Common
  import opened Secrets

  // ---- How far a loop over items or fields has come ----

  ghost predicate ItemsWritten(items: seq<Value>, i: nat, depth: nat, times: Times, done: seq<Value>, nodes: int,
                               characters: int) {
    && i <= |items| && |done| == i
    && nodes + NodesOfAll(items[i..]) == NodesOfAll(items)
    && characters + CharsOfAll(items[i..]) == CharsOfAll(items)
    && done + SerializedAll(items[i..], times) == SerializedAll(items, times)
    && (forall j :: 0 <= j < i ==> (done[j].Undefined? <==> items[j].Undefined?))
    && (AllPersistable(items, depth)
        <==> (forall j :: 0 <= j < i ==> !items[j].Undefined?) && AllPersistable(items[i..], depth))
  }

  lemma WriteItem(items: seq<Value>, i: nat, depth: nat, times: Times, done: seq<Value>, nodes: int, characters: int)
    requires i < |items| && ItemsWritten(items, i, depth, times, done, nodes, characters)
    ensures nodes + Nodes(items[i]) <= NodesOfAll(items) && characters + Chars(items[i]) <= CharsOfAll(items)
    ensures !Persistable(items[i], depth) ==> !AllPersistable(items, depth)
    ensures Persistable(items[i], depth) ==>
              ItemsWritten(items, i + 1, depth, times, done + [Serialized(items[i], times)], nodes + Nodes(items[i]),
                           characters + Chars(items[i]))
  {
    assert items[i..][0] == items[i] && items[i..][1..] == items[i + 1..];
  }

  lemma AllWritten(items: seq<Value>, depth: nat, times: Times, done: seq<Value>, nodes: int, characters: int)
    requires ItemsWritten(items, |items|, depth, times, done, nodes, characters)
    ensures done == SerializedAll(items, times) && nodes == NodesOfAll(items) && characters == CharsOfAll(items)
    ensures AllPersistable(items, depth) <==> forall k :: 0 <= k < |done| ==> !done[k].Undefined?
  {
    assert items[|items|..] == [];
  }

  ghost predicate FieldsWritten(entries: seq<Entry>, i: nat, depth: nat, times: Times, done: seq<Entry>, nodes: int,
                                characters: int) {
    && i <= |entries|
    && nodes + NodesOfEntries(entries[i..]) == NodesOfEntries(entries)
    && characters + CharsOfEntries(entries[i..]) == CharsOfEntries(entries)
    && done + SerializedEntries(entries[i..], times) == SerializedEntries(entries, times)
    && (EntriesPersistable(entries, depth) <==> EntriesPersistable(entries[i..], depth))
  }

  lemma WriteField(entries: seq<Entry>, i: nat, depth: nat, times: Times, done: seq<Entry>, nodes: int, characters: int)
    requires i < |entries| && FieldsWritten(entries, i, depth, times, done, nodes, characters)
    ensures var e := entries[i];
            var more := if e.value.Undefined? then [] else [Entry(e.key, Serialized(e.value, times))];
            && nodes + Nodes(e.value) <= NodesOfEntries(entries)
            && characters + |e.key| + Chars(e.value) <= CharsOfEntries(entries)
            && (!SafeText(e.key, 512, true) || !Persistable(e.value, depth) ==> !EntriesPersistable(entries, depth))
            && (SafeText(e.key, 512, true) && Persistable(e.value, depth) ==>
                  FieldsWritten(entries, i + 1, depth, times, done + more, nodes + Nodes(e.value),
                                characters + |e.key| + Chars(e.value)))
  {
    assert entries[i..][0] == entries[i] && entries[i..][1..] == entries[i + 1..];
    if entries[i].value.Undefined? {
      assert done + [] == done;
    }
  }

  lemma AllFieldsWritten(entries: seq<Entry>, depth: nat, times: Times, done: seq<Entry>, nodes: int, characters: int)
    requires FieldsWritten(entries, |entries|, depth, times, done, nodes, characters)
    ensures done == SerializedEntries(entries, times) && EntriesPersistable(entries, depth)
    ensures nodes == NodesOfEntries(entries) && characters == CharsOfEntries(entries)
  {
    assert entries[|entries|..] == [];
  }

  ghost predicate ItemsRead(items: seq<Value>, i: nat, depth: nat, times: Times, done: seq<Value>, nodes: int,
                            characters: int) {
    && i <= |items|
    && var all, rest := ReviveAll(items, depth, times), ReviveAll(items[i..], depth, times);
       && (all.Some? <==> rest.Some?)
       && (all.Some? ==> && all.value.items == done + rest.value.items
                         && all.value.nodes == nodes + rest.value.nodes
                         && all.value.characters == characters + rest.value.characters)
  }

  lemma ReadItem(items: seq<Value>, i: nat, depth: nat, times: Times, done: seq<Value>, nodes: int, characters: int)
    requires i < |items| && ItemsRead(items, i, depth, times, done, nodes, characters)
    ensures var all, item := ReviveAll(items, depth, times), Revive(items[i], depth, times);
            && (item.None? ==> all.None?)
            && (item.Some? && all.Some? ==> && nodes + item.value.nodes <= all.value.nodes
                                            && characters + item.value.characters <= all.value.characters)
            && (item.Some? ==> ItemsRead(items, i + 1, depth, times, done + [item.value.value],
                                         nodes + item.value.nodes, characters + item.value.characters))
  {
    assert items[i..][0] == items[i] && items[i..][1..] == items[i + 1..];
  }

  lemma AllRead(items: seq<Value>, depth: nat, times: Times, done: seq<Value>, nodes: int, characters: int)
    requires ItemsRead(items, |items|, depth, times, done, nodes, characters)
    ensures ReviveAll(items, depth, times).Some?
    ensures var all := ReviveAll(items, depth, times).value;
            all.items == done && all.nodes == nodes && all.characters == characters
  {
    assert items[|items|..] == [];
  }

  ghost predicate FieldsRead(entries: seq<Entry>, i: nat, depth: nat, times: Times, done: seq<Entry>, nodes: int,
                             characters: int) {
    && i <= |entries|
    && var all, rest := ReviveEntries(entries, depth, times), ReviveEntries(entries[i..], depth, times);
       && (all.Some? <==> rest.Some?)
       && (all.Some? ==> && all.value.entries == done + rest.value.entries
                         && all.value.nodes == nodes + rest.value.nodes
                         && all.value.characters == characters + rest.value.characters)
  }

  lemma ReadField(entries: seq<Entry>, i: nat, depth: nat, times: Times, done: seq<Entry>, nodes: int, characters: int)
    requires i < |entries| && FieldsRead(entries, i, depth, times, done, nodes, characters)
    ensures var all, item := ReviveEntries(entries, depth, times), Revive(entries[i].value, depth, times);
            var key := entries[i].key;
            && (item.None? || !SafeText(key, 512, true) ==> all.None?)
            && (all.Some? ==> item.Some? && nodes + item.value.nodes <= all.value.nodes
                              && characters + |key| + item.value.characters <= all.value.characters)
            && (item.Some? && SafeText(key, 512, true) ==>
                  FieldsRead(entries, i + 1, depth, times, done + [Entry(key, item.value.value)],
                             nodes + item.value.nodes, characters + |key| + item.value.characters))
  {
    assert entries[i..][0] == entries[i] && entries[i..][1..] == entries[i + 1..];
  }

  lemma AllFieldsRead(entries: seq<Entry>, depth: nat, times: Times, done: seq<Entry>, nodes: int, characters: int)
    requires FieldsRead(entries, |entries|, depth, times, done, nodes, characters)
    ensures ReviveEntries(entries, depth, times).Some?
    ensures var all := ReviveEntries(entries, depth, times).value;
            all.entries == done && all.nodes == nodes && all.characters == characters
  {
    assert entries[|entries|..] == [];
  }

  class Traversal {
    var nodes: nat
    var characters: nat

    constructor ()
      ensures nodes == characters == 0
    {
      nodes, characters := 0, 0;
    }

    predicate Within()
      reads this
    {
      nodes <= MAX_NODES && characters <= MAX_CHARACTERS
    }

    method ConsumeCharacters(text: string, limit: nat) returns (ok: bool)
      requires Within()
      modifies this`characters
      ensures ok <==> |text| <= limit && old(characters) + |text| <= MAX_CHARACTERS
      ensures ok ==> characters == old(characters) + |text|
    {
      if |text| > limit {
        return false;
      }
      characters := characters + |text|;
      return characters <= MAX_CHARACTERS;
    }

    method ConsumeThree(a: string, aLimit: nat, b: string, bLimit: nat, c: Option<string>, cLimit: nat)
      returns (ok: bool)
      requires Within() && |a| <= aLimit && |b| <= bLimit && (c.Some? ==> |c.value| <= cLimit)
      modifies this`characters
      ensures ok <==> old(characters) + |a| + |b| + KeyIdLength(c) <= MAX_CHARACTERS
      ensures ok ==> characters == old(characters) + |a| + |b| + KeyIdLength(c)
    {
      ok := ConsumeCharacters(a, aLimit);
      if ok {
        ok := ConsumeCharacters(b, bLimit);
      }
      if ok && c.Some? {
        ok := ConsumeCharacters(c.value, cLimit);
      }
    }

    predicate Fits(more: nat, text: nat)
      reads this
    {
      nodes + more <= MAX_NODES && characters + text <= MAX_CHARACTERS
    }

    /** Accepts exactly what passes every local check and fits what is left of the budgets. */
    method Serialize(v: Value, depth: nat, times: Times) returns (r: Option<Value>)
      requires Within()
      modifies this
      ensures r.Some? <==> Persistable(v, depth) && old(Fits(Nodes(v), Chars(v)))
      ensures r.Some? ==> Within() && r == Some(Serialized(v, times))
      ensures r.Some? ==> nodes == old(nodes) + Nodes(v) && characters == old(characters) + Chars(v)
      decreases v, 1
    {
      nodes := nodes + 1;
      if nodes > MAX_NODES {
        return None;
      }
      match v
      case Undefined => return Some(v);
      case Null => return Some(v);
      case Bool(_) => return Some(v);
      case Num(finite, _) => return if finite then Some(v) else None;
      case Str(text) =>
        var ok := ConsumeCharacters(text, 65536);
        return if ok then Some(v) else None;
      case Refused => return None;
      case Protected(scheme, verifier, keyId, createdAt) =>
        if depth >= MAX_DEPTH || !SafeProtected(scheme, verifier, keyId) || createdAt.BadDate? {
          return None;
        }
        var ok := ConsumeThree(scheme, 256, verifier, 1_000_000, keyId, 512);
        return if ok then Some(Serialized(v, times)) else None;
      case Sealed(algorithm, keyId, ciphertext, expiresAt) =>
        if depth >= MAX_DEPTH || !SafeSealed(algorithm, keyId, ciphertext) || expiresAt.BadDate? {
          return None;
        }
        var ok := ConsumeThree(algorithm, 256, keyId, 512, Some(ciphertext), 5_000_000);
        return if ok then Some(Serialized(v, times)) else None;
      case Arr(items) =>
        if depth >= MAX_DEPTH {
          return None;
        }
        var all := SerializeItems(items, depth + 1, times);
        return if all.Some? then Some(Arr(all.value)) else None;
      case Obj(entries) =>
        if depth >= MAX_DEPTH {
          return None;
        }
        var all := SerializeEntries(entries, depth + 1, times);
        return if all.Some? then Some(Obj(all.value)) else None;
    }

    method SerializeItems(items: seq<Value>, depth: nat, times: Times) returns (r: Option<seq<Value>>)
      requires Within()
      modifies this
      ensures r.Some? <==> AllPersistable(items, depth) && old(Fits(NodesOfAll(items), CharsOfAll(items)))
      ensures r.Some? ==> Within() && r == Some(SerializedAll(items, times))
      ensures r.Some? ==> nodes == old(nodes) + NodesOfAll(items) && characters == old(characters) + CharsOfAll(items)
      decreases items, 0
    {
      var serialized: seq<Value> := [];
      var i := 0;
      assert items[0..] == items;
      while i < |items|
        invariant Within() && i <= |items|
        invariant ItemsWritten(items, i, depth, times, serialized, nodes - old(nodes), characters - old(characters))
      {
        WriteItem(items, i, depth, times, serialized, nodes - old(nodes), characters - old(characters));
        var item := Serialize(items[i], depth, times);
        if item.None? {
          return None;
        }
        serialized := serialized + [item.value];
        i := i + 1;
      }
      AllWritten(items, depth, times, serialized, nodes - old(nodes), characters - old(characters));
      if exists k :: 0 <= k < |serialized| && serialized[k].Undefined? {
        return None;
      }
      return Some(serialized);
    }

    method SerializeEntries(entries: seq<Entry>, depth: nat, times: Times) returns (r: Option<seq<Entry>>)
      requires Within()
      modifies this
      ensures r.Some? <==> EntriesPersistable(entries, depth) && old(Fits(NodesOfEntries(entries), CharsOfEntries(entries)))
      ensures r.Some? ==> Within() && r == Some(SerializedEntries(entries, times))
      ensures r.Some? ==> && nodes == old(nodes) + NodesOfEntries(entries)
                          && characters == old(characters) + CharsOfEntries(entries)
      decreases entries, 0
    {
      var serialized: seq<Entry> := [];
      var i := 0;
      assert entries[0..] == entries;
      while i < |entries|
        invariant Within() && i <= |entries|
        invariant FieldsWritten(entries, i, depth, times, serialized, nodes - old(nodes), characters - old(characters))
      {
        WriteField(entries, i, depth, times, serialized, nodes - old(nodes), characters - old(characters));
        var key := entries[i].key;
        if !SafeText(key, 512, true) {
          return None;
        }
        var ok := ConsumeCharacters(key, 512);
        if !ok {
          return None;
        }
        var item := Serialize(entries[i].value, depth, times);
        if item.None? {
          return None;
        }
        serialized := serialized + if item.value.Undefined? then [] else [Entry(key, item.value)];
        i := i + 1;
      }
      AllFieldsWritten(entries, depth, times, serialized, nodes - old(nodes), characters - old(characters));
      return Some(serialized);
    }

    predicate FitsRevival(spent: Revival)
      reads this
    {
      Fits(spent.nodes, spent.characters)
    }

    /** Accepts exactly what passes every local check and fits what is left of the budgets. */
    method ReviveValue(v: Value, depth: nat, times: Times) returns (r: Option<Value>)
      requires Within()
      modifies this
      ensures r.Some? <==> Revive(v, depth, times).Some? && old(FitsRevival(Revive(v, depth, times).value))
      ensures r.Some? ==> Within() && r.value == Revive(v, depth, times).value.value
      ensures r.Some? ==> && nodes == old(nodes) + Revive(v, depth, times).value.nodes
                          && characters == old(characters) + Revive(v, depth, times).value.characters
      decreases v, 1
    {
      nodes := nodes + 1;
      if nodes > MAX_NODES {
        return None;
      }
      match v
      case Null => return Some(v);
      case Bool(_) => return Some(v);
      case Num(finite, _) => return if finite then Some(v) else None;
      case Str(text) =>
        var ok := ConsumeCharacters(text, 65536);
        return if ok then Some(v) else None;
      case Arr(items) =>
        if depth >= MAX_DEPTH {
          return None;
        }
        var all := ReviveItems(items, depth + 1, times);
        return if all.Some? then Some(Arr(all.value)) else None;
      case Obj(entries) =>
        if depth >= MAX_DEPTH {
          return None;
        }
        if Lookup(entries, "type") == Str(PROTECTED) {
          r := ReviveProtected(entries, times);
          return;
        }
        if Lookup(entries, "type") == Str(SEALED) {
          r := ReviveSealed(entries, times);
          return;
        }
        var all := ReviveFields(entries, depth + 1, times);
        return if all.Some? then Some(Obj(all.value)) else None;
      case _ => return None;
    }

    method ReviveProtected(entries: seq<Entry>, times: Times) returns (r: Option<Value>)
      requires Within()
      modifies this`characters
      ensures r.Some? <==> RevivesAsProtected(entries, times) && old(Fits(0, Chars(RevivedProtected(entries, times))))
      ensures r.Some? ==> r.value == RevivedProtected(entries, times) && Within()
      ensures r.Some? ==> characters == old(characters) + Chars(RevivedProtected(entries, times))
    {
      if !RevivesAsProtected(entries, times) {
        return None;
      }
      var Protected(scheme, verifier, keyId, _) := RevivedProtected(entries, times);
      var ok := ConsumeThree(scheme, 256, verifier, 1_000_000, keyId, 512);
      return if ok then Some(RevivedProtected(entries, times)) else None;
    }

    method ReviveSealed(entries: seq<Entry>, times: Times) returns (r: Option<Value>)
      requires Within()
      modifies this`characters
      ensures r.Some? <==> RevivesAsSealed(entries, times) && old(Fits(0, Chars(RevivedSealed(entries, times))))
      ensures r.Some? ==> r.value == RevivedSealed(entries, times) && Within()
      ensures r.Some? ==> characters == old(characters) + Chars(RevivedSealed(entries, times))
    {
      if !RevivesAsSealed(entries, times) {
        return None;
      }
      var Sealed(algorithm, keyId, ciphertext, _) := RevivedSealed(entries, times);
      var ok := ConsumeThree(algorithm, 256, keyId, 512, Some(ciphertext), 5_000_000);
      return if ok then Some(RevivedSealed(entries, times)) else None;
    }

    method ReviveItems(items: seq<Value>, depth: nat, times: Times) returns (r: Option<seq<Value>>)
      requires Within()
      modifies this
      ensures var all := ReviveAll(items, depth, times);
              && (r.Some? <==> all.Some? && old(Fits(all.value.nodes, all.value.characters)))
              && (r.Some? ==> Within() && r.value == all.value.items && nodes == old(nodes) + all.value.nodes
                              && characters == old(characters) + all.value.characters)
      decreases items, 0
    {
      var revived: seq<Value> := [];
      var i := 0;
      assert items[0..] == items;
      while i < |items|
        invariant Within() && i <= |items|
        invariant ItemsRead(items, i, depth, times, revived, nodes - old(nodes), characters - old(characters))
      {
        ReadItem(items, i, depth, times, revived, nodes - old(nodes), characters - old(characters));
        var item := ReviveValue(items[i], depth, times);
        if item.None? {
          return None;
        }
        revived := revived + [item.value];
        i := i + 1;
      }
      AllRead(items, depth, times, revived, nodes - old(nodes), characters - old(characters));
      return Some(revived);
    }

    method ReviveFields(entries: seq<Entry>, depth: nat, times: Times) returns (r: Option<seq<Entry>>)
      requires Within()
      modifies this
      ensures var all := ReviveEntries(entries, depth, times);
              && (r.Some? <==> all.Some? && old(Fits(all.value.nodes, all.value.characters)))
              && (r.Some? ==> Within() && r.value == all.value.entries && nodes == old(nodes) + all.value.nodes
                              && characters == old(characters) + all.value.characters)
      decreases entries, 0
    {
      var revived: seq<Entry> := [];
      var i := 0;
      assert entries[0..] == entries;
      while i < |entries|
        invariant Within() && i <= |entries|
        invariant FieldsRead(entries, i, depth, times, revived, nodes - old(nodes), characters - old(characters))
      {
        ReadField(entries, i, depth, times, revived, nodes - old(nodes), characters - old(characters));
        var key := entries[i].key;
        if !SafeText(key, 512, true) {
          return None;
        }
        var ok := ConsumeCharacters(key, 512);
        if !ok {
          return None;
        }
        var item := ReviveValue(entries[i].value, depth, times);
        if item.None? {
          return None;
        }
        revived := revived + [Entry(key, item.value)];
        i := i + 1;
      }
      AllFieldsRead(entries, depth, times, revived, nodes - old(nodes), characters - old(characters));
      return Some(revived);
    }
  }

  /** What is stored and read back in one go, each traversal with budgets of its own: the tree minus its undefined
      fields, exactly when it is not undefined and nothing in it poses. */
  method StoreAndLoad(v: Value, times: Times) returns (stored: Option<Value>, loaded: Option<Value>)
    requires DistinctKeys(v)
    ensures stored == SerializeSecrets(v, times)
    ensures stored.Some? && Exact(times) ==> (loaded == Some(Stripped(v)) <==> !v.Undefined? && FreeOfPosing(v))
  {
    var writing := new Traversal();
    stored := writing.Serialize(v, 0, times);
    loaded := None;
    if stored.Some? {
      var reading := new Traversal();
      loaded := reading.ReviveValue(stored.value, 0, times);
      if Exact(times) {
        RoundTrip(v, times);
      }
    }
  }
}
