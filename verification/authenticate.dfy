/** Authentication: the method verifies a credential read outside the transaction; the transaction reads it again, checks
    its version and may replace its material. */
module Authentication {
  import opened Common
  import opened Credentials
  import opened CredentialStores

  datatype Identity = Identity(tenantId: string, identityId: string, accountId: string)

  datatype MethodRef = MethodRef(methodId: string, methodKind: string)

  /** What the method says about the material it was given; it is also run when there is none. */
  datatype Verdict = Rejected(reason: string) | Accepted(newMaterial: Option<string>)

  datatype Reason =
    | MethodRejected(reason: string)
    | Internal
    | ValidationFailed
    | AuthenticationFailed
    | IdentityBindingMismatch
    | SideEffectFailed
    | PolicyDenied
    | StoreFailed(failure: Failure)
    | AccountUnavailable
    | SessionFailed

  /** Everything else an authentication depends on. An absent time is a clock that could not be read. */
  datatype Outside = Outside(verify: Option<string> -> Verdict, outputValid: bool, proofMatches: bool,
                             effectsCanPersist: bool, policyAccepts: bool, persistenceNow: Option<int>,
                             proofMatchesInTransaction: bool, accountActive: bool, effectsDispatched: bool,
                             sessionCreated: bool, completedAt: Option<int>, proofMatchesAtEnd: bool)
  {
    predicate Permits() {
      && outputValid && proofMatches && effectsCanPersist && policyAccepts && persistenceNow.Some?
      && proofMatchesInTransaction && accountActive && effectsDispatched && sessionCreated && completedAt.Some?
      && proofMatchesAtEnd
    }
  }

  predicate Belongs(c: Credential, identity: Identity, ref: MethodRef) {
    && c.IsCoreRecord() && c.tenantId == identity.tenantId && c.identityId == identity.identityId
    && c.accountId == identity.accountId && c.methodId == ref.methodId && c.methodKind == ref.methodKind
  }

  function OwnerOf(identity: Identity, ref: MethodRef): Owner {
    Owner(identity.tenantId, identity.identityId, ref.methodId)
  }

  /** Core compares records through a fingerprint that is undefined for records it finds invalid. */
  function Fingerprint(c: Credential): Option<Credential> {
    if c.IsCoreRecord() then Some(c) else None
  }

  /** The credential the method verified: the active one of this identity and method when the call began. */
  ghost predicate Verified(table: Table, identity: Identity, ref: MethodRef, c: Credential) {
    FoundFor(table, OwnerOf(identity, ref)) == Some(c) && Belongs(c, identity, ref) && c.status == Active
  }

  /** When a call succeeds: everything outside permits it, the method accepts the material, and the very same credential
      is still there when the transaction reads it again, and still when it is replaced. */
  ghost predicate Succeeds(table: Table, identity: Option<Identity>, ref: MethodRef, o: Outside,
                           meanwhile: seq<Statement>, within: seq<Statement>) {
    && identity.Some? && o.Permits()
    && FoundFor(table, OwnerOf(identity.value, ref)).Some?
    && var c := FoundFor(table, OwnerOf(identity.value, ref)).value;
    && Verified(table, identity.value, ref, c)
    && o.verify(Some(c.material)).Accepted?
    && FoundFor(ExecutedAll(table, meanwhile), OwnerOf(identity.value, ref)) == Some(c)
    && (o.verify(Some(c.material)).newMaterial.Some? ==>
          FoundFor(ExecutedAll(ExecutedAll(table, meanwhile), within), OwnerOf(identity.value, ref)) == Some(c))
  }

  /** What a successful call leaves: the verified credential with the new material under the next version, if any. */
  ghost function TableAfter(table: Table, c: Credential, o: Outside, meanwhile: seq<Statement>, within: seq<Statement>)
    : Table
    requires o.persistenceNow.Some? && o.verify(Some(c.material)).Accepted?
  {
    var reread := ExecutedAll(table, meanwhile);
    var output := o.verify(Some(c.material)).newMaterial;
    if output.None? then reread
    else ExecutedAll(reread, within)[c.Id() := WithMaterial(c, output.value, o.persistenceNow.value)]
  }

  /** After a successful call that replaced the material, the identity's credential is the new one, and the next call can
      verify it exactly when the clock was not behind the credential's creation: the fingerprint comparison cannot see
      that, since core then finds both records invalid. */
  lemma ReplacedStaysUsableExactly(table: Table, identity: Identity, ref: MethodRef, o: Outside,
                                   meanwhile: seq<Statement>, within: seq<Statement>)
    requires TableOk(table) && Succeeds(table, Some(identity), ref, o, meanwhile, within)
    requires o.verify(Some(FoundFor(table, OwnerOf(identity, ref)).value.material)).newMaterial.Some?
    ensures var c := FoundFor(table, OwnerOf(identity, ref)).value;
            var replaced := WithMaterial(c, o.verify(Some(c.material)).newMaterial.value, o.persistenceNow.value);
            var after := TableAfter(table, c, o, meanwhile, within);
            && TableOk(after) && FoundFor(after, OwnerOf(identity, ref)) == Some(replaced)
            && (Verified(after, identity, ref, replaced) <==> c.createdAt <= o.persistenceNow.value)
  {
    var c := FoundFor(table, OwnerOf(identity, ref)).value;
    FoundIsStored(table, OwnerOf(identity, ref));
    StatementsKeep(table, meanwhile, c);
    var reread := ExecutedAll(table, meanwhile);
    StatementsKeep(reread, within, c);
    var others := ExecutedAll(reread, within);
    FoundIsStored(others, OwnerOf(identity, ref));
    var change := SetMaterial(o.verify(Some(c.material)).newMaterial.value);
    StatementKeepsTable(others, Update(c.Id(), c.version, change, o.persistenceNow.value));
    FoundIs(TableAfter(table, c, o, meanwhile, within), c.Id());
  }

  const EARLY_IDENTITY := Identity("tenant", "identity", "account")
  const EARLY_METHOD := MethodRef("password", "secret")
  const EARLY_CREDENTIAL :=
    Credential("tenant", "credential", "account", "identity", "password", "secret", Active, "old", 1, 50, 50)

  /** Everything permits the call, and the clock reads 40, before the credential's creation at 50. */
  const EARLY_CLOCK := Outside(_ => Accepted(Some("new")), true, true, true, true, Some(40), true, true, true, true,
                               Some(40), true)

  /** A call under such a clock succeeds and leaves a credential no further call can verify. */
  lemma EarlyClockLocksOut()
    ensures var table := map[EARLY_CREDENTIAL.Id() := EARLY_CREDENTIAL];
            var after := TableAfter(table, EARLY_CREDENTIAL, EARLY_CLOCK, [], []);
            && TableOk(table) && Succeeds(table, Some(EARLY_IDENTITY), EARLY_METHOD, EARLY_CLOCK, [], [])
            && forall c :: !Verified(after, EARLY_IDENTITY, EARLY_METHOD, c)
  {
    var table := map[EARLY_CREDENTIAL.Id() := EARLY_CREDENTIAL];
    FoundIs(table, EARLY_CREDENTIAL.Id());
    ReplacedStaysUsableExactly(table, EARLY_IDENTITY, EARLY_METHOD, EARLY_CLOCK, [], []);
  }

  class Authenticator {
    const store: PostgresCredentials

    constructor (store: PostgresCredentials)
      ensures this.store == store
    {
      this.store := store;
    }

    /** `persistAuthentication`. `undo` is the credential as it was before it was replaced, for a rollback. */
    method Persist(identity: Identity, ref: MethodRef, credential: Credential, output: Option<string>, now: int,
                   o: Outside, within: seq<Statement>)
      returns (failure: Option<Reason>, undo: Option<Credential>)
      requires TableOk(store.table) && Remembers(store.table, credential)
      requires Belongs(credential, identity, ref) && credential.status == Active
      modifies store
      ensures TableOk(store.table)
      ensures failure.None? <==>
                && FoundFor(old(store.table), OwnerOf(identity, ref)) == Some(credential)
                && (output.Some? ==>
                      FoundFor(ExecutedAll(old(store.table), within), OwnerOf(identity, ref)) == Some(credential))
                && o.accountActive && o.effectsDispatched && o.sessionCreated
      ensures undo.Some? ==> undo.value == credential && output.Some?
      ensures undo.Some? ==>
                && Remembers(ExecutedAll(old(store.table), within), credential)
                && ExecutedAll(old(store.table), within)[credential.Id()] == credential
                && store.table == ExecutedAll(old(store.table), within)[credential.Id() :=
                                    WithMaterial(credential, output.value, now)]
      ensures undo.None? ==>
                store.table == old(store.table)
                || (output.Some? && failure.Some? && store.table == ExecutedAll(old(store.table), within))
      ensures failure.None? ==> undo.Some? == output.Some?
    {
      undo := None;
      var owner := OwnerOf(identity, ref);
      FoundIs(store.table, credential.Id());
      StatementsKeep(store.table, within, credential);
      FoundIs(ExecutedAll(store.table, within), credential.Id());
      var current := store.FindForIdentity(owner);
      if current.None? || !current.value.IsCoreRecord() || current.value.tenantId != identity.tenantId
         || current.value.credentialId != credential.credentialId || current.value.accountId != identity.accountId
         || current.value.identityId != identity.identityId || current.value.methodId != ref.methodId
         || current.value.methodKind != ref.methodKind || current.value.status != Active
         || current.value.version != credential.version {
        return Some(AuthenticationFailed), None;
      }
      if output.Some? {
        var expected := Fingerprint(WithMaterial(current.value, output.value, now));
        store.Others(within);
        var replaced := store.Change(credential.Id(), current.value.version, SetMaterial(output.value), now, []);
        if replaced.Err? {
          return Some(StoreFailed(replaced.error)), None;
        }
        undo := Some(credential);
        if Fingerprint(replaced.value) != expected {
          return Some(Internal), undo;
        }
      }
      if !o.accountActive {
        return Some(AccountUnavailable), undo;
      }
      if !o.effectsDispatched {
        return Some(SideEffectFailed), undo;
      }
      if !o.sessionCreated {
        return Some(SessionFailed), undo;
      }
      return None, undo;
    }

    method Rollback(undo: Option<Credential>, ghost before: Table)
      requires undo.Some? ==> Remembers(before, undo.value) && before[undo.value.Id()] == undo.value && TableOk(before)
      requires undo.Some? ==> exists material, now ::
                                store.table == before[undo.value.Id() := WithMaterial(undo.value, material, now)]
      requires undo.None? ==> TableOk(store.table)
      modifies store
      ensures TableOk(store.table) && store.table == if undo.Some? then before else old(store.table)
    {
      if undo.Some? {
        store.table := store.table[undo.value.Id() := undo.value];
      }
    }

    /** Succeeds exactly when the credential the method verified is, unchanged and active, what the transaction reads
        again; then its material is replaced under the next version. A failed call leaves nothing of its own. */
    method Authenticate(identity: Option<Identity>, ref: MethodRef, o: Outside, meanwhile: seq<Statement>,
                        within: seq<Statement>)
      returns (failure: Option<Reason>, ghost verified: Option<Credential>)
      requires TableOk(store.table)
      modifies store
      ensures TableOk(store.table)
      ensures failure.None? <==> Succeeds(old(store.table), identity, ref, o, meanwhile, within)
      ensures failure.None? ==>
                && verified.Some? && Verified(old(store.table), identity.value, ref, verified.value)
                && store.table == TableAfter(old(store.table), verified.value, o, meanwhile, within)
      ensures failure.Some? ==>
                || store.table == old(store.table)
                || store.table == ExecutedAll(old(store.table), meanwhile)
                || store.table == ExecutedAll(ExecutedAll(old(store.table), meanwhile), within)
    {
      verified := None;
      var credential: Option<Credential> := None;
      if identity.Some? {
        var found := store.FindForIdentity(OwnerOf(identity.value, ref));
        if found.Some? && !Belongs(found.value, identity.value, ref) {
          return Some(Internal), verified;
        }
        if found.Some? && found.value.status == Active {
          credential := found;
        }
      }
      verified := credential;
      var verdict := o.verify(if credential.Some? then Some(credential.value.material) else None);
      if verdict.Rejected? {
        return Some(MethodRejected(verdict.reason)), verified;
      }
      if credential.None? {
        return Some(AuthenticationFailed), verified;
      }
      if !o.outputValid {
        return Some(ValidationFailed), verified;
      }
      if !o.proofMatches {
        return Some(IdentityBindingMismatch), verified;
      }
      if !o.effectsCanPersist {
        return Some(SideEffectFailed), verified;
      }
      if !o.policyAccepts {
        return Some(PolicyDenied), verified;
      }
      FoundIsStored(store.table, OwnerOf(identity.value, ref));
      StatementsKeep(store.table, meanwhile, credential.value);
      store.Others(meanwhile);
      failure := Transaction(identity.value, ref, credential.value, verdict.newMaterial, o, within);
    }

    method Transaction(identity: Identity, ref: MethodRef, credential: Credential, output: Option<string>, o: Outside,
                       within: seq<Statement>)
      returns (failure: Option<Reason>)
      requires TableOk(store.table) && Remembers(store.table, credential)
      requires Belongs(credential, identity, ref) && credential.status == Active
      modifies store
      ensures TableOk(store.table)
      ensures failure.None? <==>
                && o.persistenceNow.Some? && o.proofMatchesInTransaction && o.accountActive && o.effectsDispatched
                && o.sessionCreated && o.completedAt.Some? && o.proofMatchesAtEnd
                && FoundFor(old(store.table), OwnerOf(identity, ref)) == Some(credential)
                && (output.Some? ==>
                      FoundFor(ExecutedAll(old(store.table), within), OwnerOf(identity, ref)) == Some(credential))
      ensures failure.None? ==>
                store.table == if output.None? then old(store.table)
                               else ExecutedAll(old(store.table), within)[credential.Id() :=
                                      WithMaterial(credential, output.value, o.persistenceNow.value)]
      ensures failure.Some? ==>
                store.table == old(store.table) || store.table == ExecutedAll(old(store.table), within)
    {
      if o.persistenceNow.None? {
        return Some(Internal);
      }
      if !o.proofMatchesInTransaction {
        return Some(AuthenticationFailed);
      }
      ghost var others := ExecutedAll(store.table, within);
      StatementsKeepTable(store.table, within);
      var undo;
      failure, undo := Persist(identity, ref, credential, output, o.persistenceNow.value, o, within);
      if failure.None? {
        if o.completedAt.None? {
          failure := Some(Internal);
        } else if !o.proofMatchesAtEnd {
          failure := Some(AuthenticationFailed);
        }
      }
      if failure.Some? {
        Rollback(undo, others);
      }
    }
  }
}
