/** Credential rows: at most one per identity and method, never deleted, every change raising the version. */
module Credentials {
  import opened Common

  datatype Status = Active | Disabled

  datatype Key = Key(tenantId: string, credentialId: string)

  datatype Owner = Owner(tenantId: string, identityId: string, methodId: string)

  datatype Credential = Credential(tenantId: string, credentialId: string, accountId: string, identityId: string,
                                   methodId: string, methodKind: string, status: Status, material: string,
                                   version: nat, createdAt: int, updatedAt: int)
  {
    function Id(): Key {
      Key(tenantId, credentialId)
    }

    function OwnedBy(): Owner {
      Owner(tenantId, identityId, methodId)
    }

    /** What the stores check of a record; the rest of the shape is in the types. */
    predicate IsStorable() {
      && tenantId != "" && credentialId != "" && accountId != "" && identityId != "" && methodId != "" && methodKind != ""
      && 0 < version
    }

    /** What core checks of a record it was given: also that it was not updated before it was created. */
    predicate IsCoreRecord() {
      IsStorable() && createdAt <= updatedAt
    }
  }

  type Table = map<Key, Credential>

  datatype Failure = CredentialConflict | CredentialNotFound | TransactionFailed | StoreUnavailable

  type Answer = Result<Credential, Failure>

  datatype Outcome = Outcome(table: Table, answer: Answer)

  predicate CanTransition(from: Status, to: Status) {
    from != to
  }

  // ---- One atomic update ----

  function WithMaterial(c: Credential, material: string, now: int): Credential {
    c.(material := material, version := c.version + 1, updatedAt := now)
  }

  function WithStatus(c: Credential, status: Status, now: int): Credential {
    c.(status := status, version := c.version + 1, updatedAt := now)
  }

  datatype Change = SetMaterial(material: string) | SetStatus(status: Status)

  function Changed(c: Credential, change: Change, now: int): Credential {
    match change
    case SetMaterial(material) => WithMaterial(c, material, now)
    case SetStatus(status) => WithStatus(c, status, now)
  }

  predicate Allows(c: Credential, change: Change) {
    change.SetStatus? ==> CanTransition(c.status, change.status)
  }

  /** The change as one step: check, then write. */
  function ChangeAtOnce(table: Table, key: Key, version: nat, change: Change, now: int): Outcome {
    if key !in table then Outcome(table, Err(CredentialNotFound))
    else if table[key].version != version then Outcome(table, Err(TransactionFailed))
    else if !Allows(table[key], change) then Outcome(table, Err(StoreUnavailable))
    else
      var updated := Changed(table[key], change, now);
      Outcome(table[key := updated], Ok(updated))
  }

  // ---- The guarded update and the read that classifies its failure ----

  predicate GuardHolds(table: Table, key: Key, version: nat, change: Change) {
    key in table && table[key].version == version && Allows(table[key], change)
  }

  function GuardedUpdate(table: Table, key: Key, version: nat, change: Change, now: int): Table {
    if GuardHolds(table, key, version, change) then table[key := Changed(table[key], change, now)] else table
  }

  function Classified(table: Table, key: Key, version: nat): Failure {
    if key !in table then CredentialNotFound
    else if table[key].version != version then TransactionFailed
    else StoreUnavailable
  }

  datatype Statement =
    | Insert(credential: Credential)
    | Update(key: Key, version: nat, change: Change, now: int)

  predicate OwnerTaken(table: Table, owner: Owner) {
    exists key :: key in table && table[key].OwnedBy() == owner
  }

  /** An insert is refused by the primary key or by the unique index over identity and method. */
  function Executed(table: Table, s: Statement): Table {
    match s
    case Insert(c) =>
      if c.IsStorable() && c.Id() !in table && !OwnerTaken(table, c.OwnedBy()) then table[c.Id() := c] else table
    case Update(key, version, change, now) => GuardedUpdate(table, key, version, change, now)
  }

  function ExecutedAll(table: Table, ss: seq<Statement>): Table
    decreases |ss|
  {
    if ss == [] then table else ExecutedAll(Executed(table, ss[0]), ss[1..])
  }

  // ---- What every run of statements keeps ----

  ghost predicate TableOk(table: Table) {
    && (forall key :: key in table ==> table[key].Id() == key && table[key].IsStorable())
    && (forall k, l :: k in table && l in table && table[k].OwnedBy() == table[l].OwnedBy() ==> k == l)
  }

  /** What was once read is still the row, as long as the version is the same. */
  predicate Remembers(table: Table, seen: Credential) {
    && seen.Id() in table
    && table[seen.Id()].OwnedBy() == seen.OwnedBy()
    && seen.version <= table[seen.Id()].version
    && (table[seen.Id()].version == seen.version ==> table[seen.Id()] == seen)
  }

  lemma StatementKeepsTable(table: Table, s: Statement)
    requires TableOk(table)
    ensures TableOk(Executed(table, s))
  {
    if s.Insert? && s.credential.IsStorable() && s.credential.Id() !in table
       && !OwnerTaken(table, s.credential.OwnedBy()) {
      assert forall key :: key in table ==> table[key].OwnedBy() != s.credential.OwnedBy();
    }
  }

  lemma StatementKeepsMemory(table: Table, s: Statement, seen: Credential)
    requires Remembers(table, seen)
    ensures Remembers(Executed(table, s), seen)
  {
  }

  lemma {:induction false} StatementsKeep(table: Table, ss: seq<Statement>, seen: Credential)
    requires TableOk(table) && Remembers(table, seen)
    ensures TableOk(ExecutedAll(table, ss)) && Remembers(ExecutedAll(table, ss), seen)
    decreases |ss|
  {
    if ss != [] {
      StatementKeepsTable(table, ss[0]);
      StatementKeepsMemory(table, ss[0], seen);
      StatementsKeep(Executed(table, ss[0]), ss[1..], seen);
    }
  }

  lemma {:induction false} StatementsKeepTable(table: Table, ss: seq<Statement>)
    requires TableOk(table)
    ensures TableOk(ExecutedAll(table, ss))
    decreases |ss|
  {
    if ss != [] {
      StatementKeepsTable(table, ss[0]);
      StatementsKeepTable(Executed(table, ss[0]), ss[1..]);
    }
  }

  /** Whatever runs in between, two changes guarded by the same version of the same credential cannot both take
      effect. */
  lemma OneChangePerVersion(table: Table, key: Key, version: nat, first: Change, at: int, between: seq<Statement>,
                            second: Change)
    requires TableOk(table) && GuardHolds(table, key, version, first)
    ensures var middle := ExecutedAll(GuardedUpdate(table, key, version, first, at), between);
            key in middle && version < middle[key].version && !GuardHolds(middle, key, version, second)
  {
    var s := Update(key, version, first, at);
    var after := Executed(table, s);
    StatementKeepsTable(table, s);
    StatementsKeep(after, between, after[key]);
  }

  // ---- The credential of an identity ----

  ghost function FoundFor(table: Table, owner: Owner): Option<Credential> {
    if OwnerTaken(table, owner) then
      var key :| key in table && table[key].OwnedBy() == owner;
      Some(table[key])
    else None
  }

  lemma FoundIs(table: Table, key: Key)
    requires TableOk(table) && key in table
    ensures FoundFor(table, table[key].OwnedBy()) == Some(table[key])
  {
  }

  lemma FoundIsStored(table: Table, owner: Owner)
    requires TableOk(table) && FoundFor(table, owner).Some?
    ensures var c := FoundFor(table, owner).value; c.Id() in table && table[c.Id()] == c && c.OwnedBy() == owner
  {
  }

  /** The version alone tells whether a credential read earlier is still exactly what its owner has. */
  lemma SameVersionIsSameCredential(table: Table, ss: seq<Statement>, owner: Owner)
    requires TableOk(table) && FoundFor(table, owner).Some?
    ensures FoundFor(ExecutedAll(table, ss), owner).Some?
    ensures var seen := FoundFor(table, owner).value;
            var later := FoundFor(ExecutedAll(table, ss), owner).value;
            && later.credentialId == seen.credentialId && later.tenantId == seen.tenantId
            && (later.version == seen.version <==> later == seen)
  {
    FoundIsStored(table, owner);
    var seen := FoundFor(table, owner).value;
    StatementsKeep(table, ss, seen);
    FoundIs(ExecutedAll(table, ss), seen.Id());
  }

  // ---- The two forms of a change ----

  /** Answer of the guarded update followed, when no row was returned, by the classifying read at a later state. */
  function TwoStepAnswer(before: Table, later: Table, key: Key, version: nat, change: Change, now: int): Answer {
    if GuardHolds(before, key, version, change) then Ok(Changed(before[key], change, now))
    else Err(Classified(later, key, version))
  }

  /** Without interference the pair of statements is the atomic change. */
  lemma AloneTheFormsAgree(table: Table, key: Key, version: nat, change: Change, now: int)
    ensures Outcome(GuardedUpdate(table, key, version, change, now),
                    TwoStepAnswer(table, GuardedUpdate(table, key, version, change, now), key, version, change, now))
            == ChangeAtOnce(table, key, version, change, now)
  {
  }

  /** With interference, a failed update answers what the atomic change would at the time of the classifying read,
      exactly unless the credential has by then reached a state that would have allowed it. */
  lemma FailureIsClassifiedExactly(before: Table, between: seq<Statement>, key: Key, version: nat, change: Change,
                                   now: int)
    requires TableOk(before) && !GuardHolds(before, key, version, change)
    ensures var later := ExecutedAll(before, between);
            && (TwoStepAnswer(before, later, key, version, change, now)
                == ChangeAtOnce(later, key, version, change, now).answer
                <==> !GuardHolds(later, key, version, change))
            && (GuardHolds(later, key, version, change) ==>
                  && TwoStepAnswer(before, later, key, version, change, now) == Err(StoreUnavailable)
                  && (key !in before || before[key].version < version))
  {
    var later := ExecutedAll(before, between);
    if key in before {
      StatementsKeep(before, between, before[key]);
    }
  }

  // ---- Which failed updates can be explained wrongly ----

  function Other(s: Status): Status {
    if s == Active then Disabled else Active
  }

  /** A step that raises the version and leaves a credential the change would apply to. */
  function Nudge(c: Credential, change: Change): Change {
    if change.SetStatus? && c.status == change.status then SetStatus(Other(c.status)) else SetMaterial(c.material)
  }

  /** Whatever its version, a credential can be brought to any later one, ready for the change. */
  lemma {:induction false} VersionCanBeReached(table: Table, key: Key, version: nat, change: Change)
    returns (between: seq<Statement>)
    requires TableOk(table) && key in table && table[key].version < version
    ensures GuardHolds(ExecutedAll(table, between), key, version, change)
    decreases version - table[key].version
  {
    var step := Update(key, table[key].version, Nudge(table[key], change), 0);
    var next := Executed(table, step);
    StatementKeepsTable(table, step);
    var rest: seq<Statement> := [];
    if next[key].version < version {
      rest := VersionCanBeReached(next, key, version, change);
    }
    between := [step] + rest;
    assert between[0] == step && between[1..] == rest;
  }

  lemma {:induction false} LongerThanAll(table: Table, keys: set<Key>) returns (n: nat)
    requires keys <= table.Keys
    ensures forall key <- keys :: |table[key].identityId| < n
    decreases |keys|
  {
    n := 0;
    if keys != {} {
      var key :| key in keys;
      n := LongerThanAll(table, keys - {key});
      if |table[key].identityId| >= n {
        n := |table[key].identityId| + 1;
      }
    }
  }

  /** An identity no credential of the table belongs to. */
  lemma NewIdentity(table: Table) returns (identityId: string)
    ensures identityId != "" && forall key <- table :: table[key].identityId != identityId
  {
    var n := LongerThanAll(table, table.Keys);
    identityId := seq(n + 1, _ => 'i');
  }

  /** An absent credential can appear at any version a stored one may have. */
  lemma AbsentCanAppear(table: Table, key: Key, version: nat, change: Change) returns (between: seq<Statement>)
    requires key !in table && 0 < version && key.tenantId != "" && key.credentialId != ""
    ensures GuardHolds(ExecutedAll(table, between), key, version, change)
  {
    var identityId := NewIdentity(table);
    var status := if change.SetStatus? then Other(change.status) else Active;
    var c := Credential(key.tenantId, key.credentialId, "a", identityId, "m", "k", status, "", version, 0, 0);
    between := [Insert(c)];
    assert !OwnerTaken(table, c.OwnedBy());
    assert ExecutedAll(table, between) == Executed(table, Insert(c));
  }

  ghost predicate CanBeMisreported(before: Table, key: Key, version: nat, change: Change, now: int) {
    exists between :: TwoStepAnswer(before, ExecutedAll(before, between), key, version, change, now)
                      != ChangeAtOnce(ExecutedAll(before, between), key, version, change, now).answer
  }

  /** When others could make the explanation of a failed update wrong, told from what was there before it: exactly when
      the credential was at a lower version than the one asked for, or was absent and could still be created. */
  lemma MisreportedExactly(before: Table, key: Key, version: nat, change: Change, now: int)
    requires TableOk(before) && !GuardHolds(before, key, version, change)
    ensures CanBeMisreported(before, key, version, change, now)
            <==> if key in before then before[key].version < version
                 else 0 < version && key.tenantId != "" && key.credentialId != ""
  {
    if CanBeMisreported(before, key, version, change, now) {
      var between :| TwoStepAnswer(before, ExecutedAll(before, between), key, version, change, now)
                     != ChangeAtOnce(ExecutedAll(before, between), key, version, change, now).answer;
      FailureIsClassifiedExactly(before, between, key, version, change, now);
      StatementsKeepTable(before, between);
    }
    if key in before && before[key].version < version {
      var between := VersionCanBeReached(before, key, version, change);
      FailureIsClassifiedExactly(before, between, key, version, change, now);
    }
    if key !in before && 0 < version && key.tenantId != "" && key.credentialId != "" {
      var between := AbsentCanAppear(before, key, version, change);
      FailureIsClassifiedExactly(before, between, key, version, change, now);
    }
  }

  /** An update guarded by a version its caller really read is always explained as the atomic change would be. */
  lemma ReadVersionsAreExplained(start: Table, read: Key, sinceRead: seq<Statement>, between: seq<Statement>,
                                 change: Change, now: int)
    requires TableOk(start) && read in start
    requires !GuardHolds(ExecutedAll(start, sinceRead), read, start[read].version, change)
    ensures var before := ExecutedAll(start, sinceRead);
            var later := ExecutedAll(before, between);
            TwoStepAnswer(before, later, read, start[read].version, change, now)
            == ChangeAtOnce(later, read, start[read].version, change, now).answer
  {
    StatementsKeep(start, sinceRead, start[read]);
    var before := ExecutedAll(start, sinceRead);
    MisreportedExactly(before, read, start[read].version, change, now);
    assert !CanBeMisreported(before, read, start[read].version, change, now);
  }

  const EXAMPLE_KEY := Key("tenant", "credential")
  const EXAMPLE := Credential("tenant", "credential", "account", "identity", "password", "secret", Active, "old", 1, 0, 0)

  /** A caller asks for version 2 of a credential at version 1; another session raises it before the failure is
      explained: the answer is an unavailable store, though the change would now apply. */
  lemma MisreportedFailureExists()
    ensures var before := map[EXAMPLE_KEY := EXAMPLE];
            var later := Executed(before, Update(EXAMPLE_KEY, 1, SetMaterial("new"), 5));
            && TableOk(before) && !GuardHolds(before, EXAMPLE_KEY, 2, SetMaterial("mine"))
            && TwoStepAnswer(before, later, EXAMPLE_KEY, 2, SetMaterial("mine"), 6) == Err(StoreUnavailable)
            && ChangeAtOnce(later, EXAMPLE_KEY, 2, SetMaterial("mine"), 6).answer.Ok?
  {
  }
}
