/** The validators as they run, each spending a shared count of nodes and characters as it goes. */
module DeliveryValidation {
  import opened Secrets
  import opened DeliveryData

  class JsonTraversal {
    const who: Validator
    var nodes: nat
    var characters: nat

    constructor (who: Validator)
      ensures this.who == who && nodes == characters == 0
    {
      this.who := who;
      nodes, characters := 0, 0;
    }

    predicate Within()
      reads this
    {
      FitsJson(nodes, characters)
    }

    predicate Fits(more: nat, text: nat)
      reads this
    {
      FitsJson(nodes + more, characters + text)
    }

    method ConsumeText(text: string, maxLength: nat, nonEmpty: bool) returns (ok: bool)
      requires Within()
      modifies this`characters
      ensures ok <==> SafeText(text, maxLength, nonEmpty) && old(Fits(0, |text|))
      ensures ok ==> characters == old(characters) + |text|
    {
      if !SafeText(text, maxLength, nonEmpty) {
        return false;
      }
      characters := characters + |text|;
      return characters <= MAX_JSON_CHARACTERS;
    }

    method IsJsonValue(v: Value, depth: nat) returns (ok: bool)
      requires Within()
      modifies this`nodes, this`characters
      ensures ok <==> IsJson(v, depth, who) && old(Fits(Nodes(v), Chars(v)))
      ensures ok ==> nodes == old(nodes) + Nodes(v) && characters == old(characters) + Chars(v)
      decreases v, 1
    {
      nodes := nodes + 1;
      if nodes > MAX_NODES {
        return false;
      }
      match v
      case Null => return true;
      case Bool(_) => return true;
      case Num(finite, _) => return finite;
      case Str(text) => ok := ConsumeText(text, 65536, false);
      case Arr(items) =>
        if depth >= MAX_DEPTH {
          return false;
        }
        ok := AreJsonItems(items, depth + 1);
      case Obj(entries) =>
        if depth >= MAX_DEPTH || IsDescriptor(entries) || (who.Store? && HasReveal(entries)) {
          return false;
        }
        ok := AreJsonEntries(entries, depth + 1);
      case _ => return false;
    }

    method AreJsonItems(items: seq<Value>, depth: nat) returns (ok: bool)
      requires Within()
      modifies this`nodes, this`characters
      ensures ok <==> AllJson(items, depth, who) && old(Fits(NodesOfAll(items), CharsOfAll(items)))
      ensures ok ==> nodes == old(nodes) + NodesOfAll(items) && characters == old(characters) + CharsOfAll(items)
      decreases items, 0
    {
      var i := 0;
      while i < |items|
        invariant 0 <= i <= |items| && Within()
        invariant nodes + NodesOfAll(items[i..]) == old(nodes) + NodesOfAll(items)
        invariant characters + CharsOfAll(items[i..]) == old(characters) + CharsOfAll(items)
        invariant AllJson(items, depth, who) <==> AllJson(items[i..], depth, who)
      {
        assert items[i..][0] == items[i] && items[i..][1..] == items[i + 1..];
        ok := IsJsonValue(items[i], depth);
        if !ok {
          return false;
        }
        i := i + 1;
      }
      return true;
    }

    method AreJsonEntries(entries: seq<Entry>, depth: nat) returns (ok: bool)
      requires Within()
      modifies this`nodes, this`characters
      ensures ok <==> EntriesJson(entries, depth, who) && old(Fits(NodesOfEntries(entries), CharsOfEntries(entries)))
      ensures ok ==> && nodes == old(nodes) + NodesOfEntries(entries)
                     && characters == old(characters) + CharsOfEntries(entries)
      decreases entries, 0
    {
      var i := 0;
      while i < |entries|
        invariant 0 <= i <= |entries| && Within()
        invariant nodes + NodesOfEntries(entries[i..]) == old(nodes) + NodesOfEntries(entries)
        invariant characters + CharsOfEntries(entries[i..]) == old(characters) + CharsOfEntries(entries)
        invariant EntriesJson(entries, depth, who) <==> EntriesJson(entries[i..], depth, who)
      {
        assert entries[i..][0] == entries[i] && entries[i..][1..] == entries[i + 1..];
        ok := ConsumeText(entries[i].key, 512, true);
        if !ok {
          return false;
        }
        ok := IsJsonValue(entries[i].value, depth);
        if !ok {
          return false;
        }
        i := i + 1;
      }
      return true;
    }
  }

  /** Each side starts with a new traversal; the worker enters at the fields. */
  method CheckJsonObject(v: Value, who: Validator) returns (ok: bool)
    ensures ok <==> IsJsonObject(v, who)
  {
    if !v.Obj? {
      return false;
    }
    var traversal := new JsonTraversal(who);
    match who
    case Store => ok := traversal.IsJsonValue(v, 0);
    case Worker => ok := traversal.AreJsonEntries(v.entries, 0);
  }

  /** The store's pass over delivery data: one traversal for keys, values and ciphertexts. */
  method CheckStoredData(v: Value) returns (ok: bool)
    ensures ok <==> IsData(v, Store)
  {
    if !v.Obj? || |v.entries| > MAX_FIELDS {
      return false;
    }
    var entries := v.entries;
    var traversal := new JsonTraversal(Store);
    var i := 0;
    while i < |entries|
      invariant 0 <= i <= |entries| && traversal.Within() && traversal.who == Store
      invariant traversal.nodes + PublicNodes(entries[i..]) == PublicNodes(entries)
      invariant traversal.characters + KeyCharacters(entries[i..]) + PublicCharacters(entries[i..])
                + SecretCharacters(entries[i..])
                == KeyCharacters(entries) + PublicCharacters(entries) + SecretCharacters(entries)
      invariant FieldsOk(entries, Store) <==> FieldsOk(entries[i..], Store)
    {
      assert entries[i..][0] == entries[i] && entries[i..][1..] == entries[i + 1..];
      ok := traversal.ConsumeText(entries[i].key, 512, true);
      if !ok {
        return false;
      }
      var item := entries[i].value;
      if SealedHeader(item) {
        ok := traversal.ConsumeText(item.ciphertext, MAX_JSON_CHARACTERS, true);
      } else {
        ok := traversal.IsJsonValue(item, 0);
      }
      if !ok {
        return false;
      }
      i := i + 1;
    }
    return true;
  }

  /** The worker's first pass copies the fields, spending one budget on all ciphertexts and a new one on each value; its
      second pass walks all values again with one budget. */
  method CheckClaimedData(v: Value) returns (ok: bool)
    ensures ok <==> IsData(v, Worker)
  {
    if !v.Obj? || |v.entries| > MAX_FIELDS {
      return false;
    }
    var entries := v.entries;
    var secretCharacters := 0;
    var i := 0;
    while i < |entries|
      invariant 0 <= i <= |entries| && secretCharacters <= MAX_JSON_CHARACTERS
      invariant secretCharacters + SecretCharacters(entries[i..]) == SecretCharacters(entries)
      invariant FieldsOk(entries, Worker) <==> FieldsOk(entries[i..], Worker)
    {
      assert entries[i..][0] == entries[i] && entries[i..][1..] == entries[i + 1..];
      var item := entries[i].value;
      if SealedHeader(item) {
        if item.ciphertext == "" {
          return false;
        }
        secretCharacters := secretCharacters + |item.ciphertext|;
        if secretCharacters > MAX_JSON_CHARACTERS {
          return false;
        }
      } else {
        var alone := new JsonTraversal(Worker);
        ok := alone.IsJsonValue(item, 0);
        if !ok {
          return false;
        }
      }
      i := i + 1;
    }
    ok := CheckPublicValues(entries);
  }

  method CheckPublicValues(entries: seq<Entry>) returns (ok: bool)
    requires FieldsOk(entries, Worker)
    ensures ok <==> FitsJson(PublicNodes(entries), PublicCharacters(entries))
  {
    var together := new JsonTraversal(Worker);
    var i := 0;
    while i < |entries|
      invariant 0 <= i <= |entries| && together.Within() && together.who == Worker
      invariant FieldsOk(entries[i..], Worker)
      invariant together.nodes + PublicNodes(entries[i..]) == PublicNodes(entries)
      invariant together.characters + PublicCharacters(entries[i..]) == PublicCharacters(entries)
    {
      assert entries[i..][0] == entries[i] && entries[i..][1..] == entries[i + 1..];
      if !SealedHeader(entries[i].value) {
        ok := together.IsJsonValue(entries[i].value, 0);
        if !ok {
          return false;
        }
      }
      i := i + 1;
    }
    return true;
  }
}
