/** The two credential stores as objects: the in-memory one with its index by identity, and the Postgres one with its
    guarded updates. */
module CredentialStores {
  import opened Common
  import opened Credentials

  class MemoryCredentials {
    var credentials: Table
    var credentialsByIdentity: map<Owner, string>

    /** The index names exactly the owners that have a credential, and names that credential. */
    ghost predicate Valid()
      reads this
    {
      && TableOk(credentials)
      && (forall key :: key in credentials ==>
            && credentials[key].OwnedBy() in credentialsByIdentity
            && credentialsByIdentity[credentials[key].OwnedBy()] == key.credentialId)
      && (forall owner :: owner in credentialsByIdentity ==>
            && Key(owner.tenantId, credentialsByIdentity[owner]) in credentials
            && credentials[Key(owner.tenantId, credentialsByIdentity[owner])].OwnedBy() == owner)
    }

    constructor ()
      ensures Valid() && credentials == map[]
    {
      credentials, credentialsByIdentity := map[], map[];
    }

    /** `ownerExists` says whether the account and a matching identity are on record. */
    method Create(record: Credential, ownerExists: bool) returns (answer: Answer)
      requires Valid()
      modifies this
      ensures Valid()
      ensures answer.Ok? <==> record.IsStorable() && ownerExists && record.Id() !in old(credentials)
                              && !OwnerTaken(old(credentials), record.OwnedBy())
      ensures answer.Ok? ==> answer.value == record
      ensures answer.Err? ==> answer.error == if record.IsStorable() then CredentialConflict else StoreUnavailable
      ensures credentials == if ownerExists then Executed(old(credentials), Insert(record)) else old(credentials)
    {
      if !record.IsStorable() {
        return Err(StoreUnavailable);
      }
      if !ownerExists {
        return Err(CredentialConflict);
      }
      StatementKeepsTable(credentials, Insert(record));
      if record.Id() in credentials || record.OwnedBy() in credentialsByIdentity {
        return Err(CredentialConflict);
      }
      assert !OwnerTaken(credentials, record.OwnedBy());
      credentials := credentials[record.Id() := record];
      credentialsByIdentity := credentialsByIdentity[record.OwnedBy() := record.credentialId];
      return Ok(record);
    }

    method FindById(key: Key) returns (c: Option<Credential>)
      ensures c == if key in credentials then Some(credentials[key]) else None
    {
      return if key in credentials then Some(credentials[key]) else None;
    }

    /** Two lookups through the index find what a search of the whole table would. */
    method FindForIdentity(owner: Owner) returns (c: Option<Credential>)
      requires Valid()
      ensures c == FoundFor(credentials, owner)
    {
      if owner !in credentialsByIdentity || credentialsByIdentity[owner] == "" {
        return None;
      }
      var key := Key(owner.tenantId, credentialsByIdentity[owner]);
      FoundIs(credentials, key);
      return if key in credentials then Some(credentials[key]) else None;
    }

    method Change(key: Key, expectedVersion: nat, change: Change, now: int) returns (answer: Answer)
      requires Valid()
      modifies this`credentials
      ensures Valid()
      ensures credentials == GuardedUpdate(old(credentials), key, expectedVersion, change, now)
      ensures answer == TwoStepAnswer(old(credentials), credentials, key, expectedVersion, change, now)
    {
      AloneTheFormsAgree(credentials, key, expectedVersion, change, now);
      StatementKeepsTable(credentials, Update(key, expectedVersion, change, now));
      if key !in credentials {
        return Err(CredentialNotFound);
      }
      var record := credentials[key];
      if record.version != expectedVersion {
        return Err(TransactionFailed);
      }
      if change.SetStatus? && !CanTransition(record.status, change.status) {
        return Err(StoreUnavailable);
      }
      credentials := credentials[key := Changed(record, change, now)];
      return Ok(credentials[key]);
    }
  }

  class PostgresCredentials {
    var table: Table

    constructor ()
      ensures TableOk(table) && table == map[]
    {
      table := map[];
    }

    /** Whatever other sessions commit before our next statement. */
    method Others(between: seq<Statement>)
      requires TableOk(table)
      modifies this
      ensures TableOk(table) && table == ExecutedAll(old(table), between)
    {
      var i := 0;
      while i < |between|
        invariant 0 <= i <= |between| && TableOk(table)
        invariant ExecutedAll(table, between[i..]) == ExecutedAll(old(table), between)
      {
        assert between[i..][1..] == between[i + 1..];
        StatementKeepsTable(table, between[i]);
        table := Executed(table, between[i]);
        i := i + 1;
      }
    }

    method FindForIdentity(owner: Owner) returns (c: Option<Credential>)
      requires TableOk(table)
      ensures c == FoundFor(table, owner)
    {
      if key :| key in table && table[key].OwnedBy() == owner {
        FoundIs(table, key);
        return Some(table[key]);
      }
      return None;
    }

    method GuardedChange(key: Key, expectedVersion: nat, change: Change, now: int) returns (updated: Option<Credential>)
      requires TableOk(table)
      modifies this
      ensures TableOk(table) && table == GuardedUpdate(old(table), key, expectedVersion, change, now)
      ensures updated == if GuardHolds(old(table), key, expectedVersion, change) then Some(table[key]) else None
    {
      StatementKeepsTable(table, Update(key, expectedVersion, change, now));
      updated := None;
      if key in table && table[key].version == expectedVersion && Allows(table[key], change) {
        table := table[key := Changed(table[key], change, now)];
        updated := Some(table[key]);
      }
    }

    method ClassifyFailure(key: Key, expectedVersion: nat) returns (failure: Failure)
      ensures failure == Classified(table, key, expectedVersion)
    {
      if key !in table {
        return CredentialNotFound;
      }
      return if table[key].version != expectedVersion then TransactionFailed else StoreUnavailable;
    }

    /** `replaceMaterial` and `updateStatus`: the guarded update, and the classifying read others may come before. */
    method Change(key: Key, expectedVersion: nat, change: Change, now: int, between: seq<Statement>)
      returns (answer: Answer)
      requires TableOk(table)
      modifies this
      ensures TableOk(table)
      ensures GuardHolds(old(table), key, expectedVersion, change) ==>
                Outcome(table, answer) == ChangeAtOnce(old(table), key, expectedVersion, change, now)
      ensures !GuardHolds(old(table), key, expectedVersion, change) ==>
                && table == ExecutedAll(old(table), between)
                && (answer == ChangeAtOnce(table, key, expectedVersion, change, now).answer
                    <==> !GuardHolds(table, key, expectedVersion, change))
                && (GuardHolds(table, key, expectedVersion, change) ==>
                      answer == Err(StoreUnavailable)
                      && (key !in old(table) || old(table)[key].version < expectedVersion))
    {
      if !GuardHolds(table, key, expectedVersion, change) {
        FailureIsClassifiedExactly(table, between, key, expectedVersion, change, now);
      }
      var updated := GuardedChange(key, expectedVersion, change, now);
      if updated.Some? {
        return Ok(updated.value);
      }
      Others(between);
      var failure := ClassifyFailure(key, expectedVersion);
      return Err(failure);
    }
  }
}
