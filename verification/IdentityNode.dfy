/** One node process over storage and a key provider, both with faults. */
module IdentityNode {
  import opened Results
  import opened Storage
  import opened FaultyStorage
  import opened IdentityRecords
  import opened IdentityMachine

  /** One start of the process: what entropy and the clock give it, and the faults it meets. */
  datatype Restart = Restart(node: NodeId, operation: KeyOperationId, stamp: int, script: seq<Fault>)

  datatype KeyState = KeyPresent(key: CreatedKey) | KeyAbsent | KeyUnknown

  datatype DeleteState = WasPresent | WasAbsent | DeleteUnknown

  /** A provider's handle names the operation it was created under. */
  ghost predicate HandlesNameOperations(mint: KeyOperationId -> CreatedKey) {
    forall a, b | mint(a).handle == mint(b).handle :: a == b
  }

  class Node {
    /** The key the provider makes for an operation, the first and every later time. */
    const mint: KeyOperationId -> CreatedKey
    var store: Metadata
    var created: map<KeyOperationId, CreatedKey>
    /** The handles whose deletion the provider has carried out. */
    var gone: set<KeyHandle>
    var script: seq<Fault>
    /** This process's faults leave no journal record behind. */
    const steady: bool

    ghost predicate Steady()
      reads this
    {
      steady ==> Harmless(script)
    }

    /** A node that was never opened. */
    constructor (mint: KeyOperationId -> CreatedKey, script: seq<Fault>, steady: bool)
      requires HandlesNameOperations(mint) && (steady ==> Harmless(script))
      ensures Valid() && store == Store(map[], map[], 0) && this.script == script && this.steady == steady && this.mint == mint
    {
      this.mint, this.script, this.steady := mint, script, steady;
      store, created, gone := Store(map[], map[], 0), map[], {};
    }

    ghost predicate Valid()
      reads this
    {
      && HandlesNameOperations(mint) && Steady()
      && Sound(store.entries) && Backed(store.entries, created) && PendingInv(store)
      && (forall operation | operation in created :: created[operation] == mint(operation))
      && (forall h | h in gone :: Spent(store.entries, h))
    }

    // ---- storage ----

    /**
     Prepares the decided transaction from the current store and commits it.  The node keeps its
     invariant, and the entries are the decision's outcome exactly when the answer says so.
     */
    method CommitDecision(d: Decision) returns (r: Result<bool>, id: TransactionId)
      requires Valid() && Decides(store.entries, created, d) && !d.Unrelated?
      modifies this`store, this`script
      ensures Valid()
      ensures store == old(store) ||
              (ConditionsHold(old(store.entries), d) && store.entries == Outcome(old(store.entries), id, d))
      ensures r == Ok(true) ==>
                ConditionsHold(old(store.entries), d) && store.entries == Outcome(old(store.entries), id, d)
      ensures r == Ok(false) ==> store == old(store)
      ensures Head(old(script)) == Pass ==> script == Rest(old(script)) && r == Ok(ConditionsHold(old(store.entries), d))
      ensures ConditionsHold(old(store.entries), d) ==>
                && script == AfterVerdict(old(script))
                && (r == Ok(true) <==> Verdict(old(script)) == Yes) && (r == Ok(false) <==> Verdict(old(script)) == No)
      ensures ConditionsHold(old(store.entries), d) ==> (store != old(store) <==> Takes(Head(old(script))))
      ensures r.Err? ==> r.error.kind != Conflict
      ensures store.revision == old(store.revision) + (if store == old(store) then 0 else 1)
      ensures r == Ok(true) ==> store != old(store)
    {
      hide Decides, ConditionsHold, Outcome, Writes, Landed, Backed, Typed, Consistent, PendingInv;
      id := FreshId(store.receipts.Keys);
      PrepareIsDefined(store.entries, created, d);
      var t := Prepare(store, id, d);
      LandingTheDecision(store, created, id, d);
      SpentHandlesStaySpent(store.entries, created, id, d);
      LandedRevision(store, t);
      store, script, r := CommitWithReconcile(store, script, t);
    }

    /**
     The same decision committed without reconciliation: an indeterminate answer is an error, and
     so is a commit that did not apply.
     */
    method CommitOrFail(d: Decision, context: string) returns (r: Result<()>, ghost id: TransactionId)
      requires Valid() && Decides(store.entries, created, d) && !d.Unrelated?
      modifies this`store, this`script
      ensures Valid()
      ensures store == old(store) ||
              (ConditionsHold(old(store.entries), d) && store.entries == Outcome(old(store.entries), id, d))
      ensures r.Ok? ==> store != old(store)
      ensures script == Rest(old(script)) && (r.Ok? <==> Head(old(script)) == Pass && ConditionsHold(old(store.entries), d))
    {
      hide Decides, ConditionsHold, Outcome, Writes, Landed, Backed, Typed, Consistent, PendingInv;
      var unused := FreshId(store.receipts.Keys);
      id := unused;
      PrepareIsDefined(store.entries, created, d);
      var t := Prepare(store, unused, d);
      LandingTheDecision(store, created, unused, d);
      SpentHandlesStaySpent(store.entries, created, unused, d);
      LandedRevision(store, t);
      var outcome;
      store, outcome := TryCommit(store, script, t);
      if steady { HarmlessRest(script); }
      script := Rest(script);
      if outcome.Err? {
        return Err(outcome.error), id;
      }
      match outcome.value {
        case Committed(_) => return Ok(()), id;
        case Unknown(_, _) => return Err(Error(CommitUnknown, "storage commit")), id;
        case _ => return Err(Error(Conflict, context)), id;
      }
    }

    /** Deletes a journal record, tolerating one proven abort. */
    method CleanupPending(purpose: Purpose) returns (r: Result<()>)
      requires Valid()
      modifies this`store, this`script
      ensures Valid()
      ensures store.entries == old(store.entries) || store.entries == old(store.entries) - {Pending(purpose)}
      ensures r.Ok? ==> store.entries == old(store.entries) - {Pending(purpose)}
      ensures old(script) == [] ==> script == [] && r.Ok?
      ensures Pending(purpose) in old(store.entries) ==>
                (r.Err? && r.error.kind == Conflict <==> AbortsTwice(old(script)))
      ensures Pending(purpose) in old(store.entries) ==>
                (r.Ok? <==> CleanupEnd(old(script)).Some?) && (r.Ok? ==> script == CleanupEnd(old(script)).value)
      ensures Pending(purpose) in old(store.entries) && AbortsTwice(old(script)) ==>
                store == old(store) && script == AfterVerdict(AfterVerdict(old(script)))
    {
      hide Sound, Backed, PendingInv, Spent;
      ghost var before := store;
      store, script, r := CleanupExact(store, script, Pending(purpose));
      WithoutPending(before, store, created, purpose);
    }

    /** Recovers a stored journal record: its transaction must have committed. */
    method RecoverJournal(purpose: Purpose) returns (r: Result<bool>)
      requires Valid()
      modifies this`store, this`script
      ensures Valid()
      ensures store.entries == old(store.entries) || store.entries == old(store.entries) - {Pending(purpose)}
      ensures r.Ok? ==> store.entries == old(store.entries) - {Pending(purpose)}
      ensures old(script) == [] ==> script == [] && r.Ok?
      ensures Pending(purpose) !in old(store.entries) ==> r.Ok? && store == old(store) && script == old(script)
      ensures Pending(purpose) in old(store.entries) ==>
                match RecoveryEnd(old(script))
                case Some(end) => r.Ok? && script == end
                case None => r.Err?
    {
      hide Backed, Consistent, Spent, RecoveryEnd;
      ghost var before := store;
      var id := if Pending(purpose) in store.entries then store.entries[Pending(purpose)].transaction else "";
      store, script, r := FaultyStorage.RecoverJournal(store, script, Pending(purpose), id);
      WithoutPending(before, store, created, purpose);
    }

    // ---- the key provider ----

    /** The provider holds the key of this handle. */
    predicate Live(h: KeyHandle)
      reads this
    {
      h !in gone && exists operation | operation in created :: created[operation].handle == h
    }

    /** Idempotent creation: the first key made for an operation is the one every call returns. */
    method CreateKey(operation: KeyOperationId) returns (r: Result<KeyState>)
      requires Valid()
      modifies this`created, this`script
      ensures Valid()
      ensures created == old(created) || created == old(created)[operation := mint(operation)]
      ensures r.Ok? && r.value.KeyPresent? ==>
                operation in created && r.value.key == created[operation] && Live(r.value.key.handle)
      ensures Head(old(script)) == Pass ==>
                r == Ok(if mint(operation).handle in gone then KeyAbsent else KeyPresent(mint(operation)))
      ensures script == Rest(old(script)) && (Head(old(script)) != Pass ==> r.Err? || !r.value.KeyPresent?)
    {
      hide Sound, PendingInv;
      var fault := Head(script);
      if steady { HarmlessRest(script); }
      script := Rest(script);
      var able := mint(operation).handle !in gone;
      if able && Takes(fault) {
        created := created[operation := mint(operation)];
      }
      match fault {
        case Pass => return Ok(if able then KeyPresent(mint(operation)) else KeyAbsent);
        case Drop => return Ok(KeyAbsent);
        case Lost(_) => return Ok(KeyUnknown);
        case Die(_) => return Err(CRASHED);
      }
    }

    method ReconcileCreate(operation: KeyOperationId) returns (r: Result<KeyState>)
      requires Steady()
      modifies this`script
      ensures Steady() && script == Rest(old(script))
      ensures r.Ok? && r.value.KeyPresent? ==>
                operation in created && r.value.key == created[operation] && Live(r.value.key.handle)
      ensures Head(old(script)) == Pass ==>
                r == Ok(if operation in created && created[operation].handle !in gone
                        then KeyPresent(created[operation]) else KeyAbsent)
      ensures Head(old(script)) != Pass ==> r.Err? || r.value.KeyUnknown?
    {
      var fault := Head(script);
      if steady { HarmlessRest(script); }
      script := Rest(script);
      match fault {
        case Pass =>
          return Ok(if operation in created && created[operation].handle !in gone
                    then KeyPresent(created[operation]) else KeyAbsent);
        case Die(_) => return Err(CRASHED);
        case _ => return Ok(KeyUnknown);
      }
    }

    /** The provider returns exactly the expected public key for the handle. */
    method VerifyProviderKey(handle: KeyHandle, expected: PublicKey) returns (r: Result<()>)
      requires Valid()
      modifies this`script
      ensures Valid() && script == Rest(old(script)) && (r.Ok? ==> Head(old(script)) == Pass)
      ensures r.Ok? ==> Live(handle) && forall operation | operation in created :: created[operation].handle == handle ==>
                created[operation].publicKey == expected
      ensures Head(old(script)) == Pass && handle !in gone ==>
                forall operation | operation in created && created[operation] == CreatedKey(handle, expected) :: r.Ok?
    {
      hide Sound, PendingInv, Backed;
      var fault := Head(script);
      if steady { HarmlessRest(script); }
      script := Rest(script);
      if fault.Die? {
        return Err(CRASHED);
      }
      if !fault.Pass? || !Live(handle) {
        return Err(Error(Internal, "key public key"));
      }
      var operation :| operation in created && created[operation].handle == handle;
      assert forall other | other in created :: created[other].handle == handle ==> other == operation;
      if created[operation].publicKey != expected {
        return Err(Error(Internal, "key public key"));
      }
      assert created[operation] == CreatedKey(handle, expected);
      return Ok(());
    }

    /** Signing needs the key to be held. */
    method Sign(handle: KeyHandle) returns (r: Result<()>)
      requires Valid()
      modifies this`script
      ensures Valid() && script == Rest(old(script)) && (r.Ok? <==> Head(old(script)) == Pass && Live(handle))
    {
      var fault := Head(script);
      if steady { HarmlessRest(script); }
      script := Rest(script);
      match fault {
        case Pass => return if Live(handle) then Ok(()) else Err(Error(Internal, "key sign"));
        case Die(_) => return Err(CRASHED);
        case _ => return Err(Error(CommitUnknown, "key sign"));
      }
    }

    /** The provider is only ever asked to delete a handle whose deletion is journaled. */
    method DeleteKey(handle: KeyHandle) returns (r: Result<DeleteState>)
      requires Valid() && Spent(store.entries, handle)
      modifies this`gone, this`script
      ensures Valid()
      ensures gone == old(gone) || gone == old(gone) + {handle}
      ensures r.Ok? && !r.value.DeleteUnknown? ==> !Live(handle)
      ensures script == Rest(old(script)) && (Head(old(script)) == Pass <==> r.Ok? && !r.value.DeleteUnknown?)
      ensures r.Err? ==> r.error == CRASHED
    {
      hide Sound, PendingInv, Backed;
      var fault := Head(script);
      if steady { HarmlessRest(script); }
      script := Rest(script);
      var state := if Live(handle) then WasPresent else WasAbsent;
      if Takes(fault) {
        gone := gone + {handle};
      }
      match fault {
        case Pass => return Ok(state);
        case Die(_) => return Err(CRASHED);
        case _ => return Ok(DeleteUnknown);
      }
    }

    method ReconcileDelete(handle: KeyHandle) returns (r: Result<DeleteState>)
      requires Steady()
      modifies this`script
      ensures Steady() && script == Rest(old(script))
      ensures r.Ok? && r.value.WasAbsent? ==> !Live(handle)
      ensures Head(old(script)) == Pass ==> r == Ok(if Live(handle) then WasPresent else WasAbsent)
      ensures Head(old(script)) != Pass ==> r.Err? || r.value.DeleteUnknown?
      ensures r.Err? ==> r.error == CRASHED
    {
      var fault := Head(script);
      if steady { HarmlessRest(script); }
      script := Rest(script);
      match fault {
        case Pass => return Ok(if Live(handle) then WasPresent else WasAbsent);
        case Die(_) => return Err(CRASHED);
        case _ => return Ok(DeleteUnknown);
      }
    }
  }

  // ---- what a landed decision leaves ----

  lemma PrepareIsDefined(e: Entries, created: map<KeyOperationId, CreatedKey>, d: Decision)
    requires Decides(e, created, d)
    ensures d.WipeBatch? ==> forall k | k in d.rows :: k in e
    ensures d.Finalize? || d.CreateIntent? ==> d.intent.CreationIntentV1?
    ensures d.Swap? ==> d.intent.LeaveIntentV1? && LocalIdentity in e
    ensures d.InstallDeletion? || d.Tombstone? ==> d.intent.DeletionIntentV1?
    ensures d.PersistLeaveRecord? ==> d.record.LeaveRecordV1?
    ensures d.CleanupPending? ==> Pending(d.purpose) in e
  {
  }

  lemma LandedRevision(s: Metadata, t: Transaction<Key, Record>)
    ensures Landed(s, t).revision == s.revision + 1
  {
  }

  lemma WithoutPending(s: Metadata, s': Metadata, created: map<KeyOperationId, CreatedKey>, purpose: Purpose)
    requires Sound(s.entries) && Backed(s.entries, created) && PendingInv(s)
    requires s' == s || Removed(s, s', Pending(purpose))
    ensures Sound(s'.entries) && Backed(s'.entries, created) && PendingInv(s')
    ensures forall h | Spent(s.entries, h) :: Spent(s'.entries, h)
  {
    assert forall k | k in s.entries && k.CreationIntent? :: k in s'.entries;
  }

  lemma LandingTheDecision(s: Metadata, created: map<KeyOperationId, CreatedKey>, id: TransactionId, d: Decision)
    requires Sound(s.entries) && Backed(s.entries, created) && PendingInv(s) && id !in s.receipts
    requires Decides(s.entries, created, d) && !d.Unrelated?
    ensures Lands(s, Prepare(s, id, d)) <==> ConditionsHold(s.entries, d)
    ensures ConditionsHold(s.entries, d) ==>
              var landed := Landed(s, Prepare(s, id, d));
              && landed.entries == Outcome(s.entries, id, d)
              && Sound(landed.entries) && Backed(landed.entries, created) && PendingInv(landed)
  {
    hide Writes, Landed, ConditionsHold;
    PreparedConditions(s, created, id, d);
    PreparedOutcome(s, created, id, d);
    if ConditionsHold(s.entries, d) {
      OutcomeIsTyped(s.entries, created, id, d);
      OutcomeIsConsistent(s.entries, created, id, d);
      OutcomeIsBacked(s.entries, created, id, d);
      PendingAfter(s, created, id, d);
    }
  }

  lemma PendingAfter(s: Metadata, created: map<KeyOperationId, CreatedKey>, id: TransactionId, d: Decision)
    requires PendingInv(s) && Decides(s.entries, created, d) && !d.Unrelated?
    ensures PendingInv(Landed(s, Prepare(s, id, d)))
  {
    hide Writes, Landed;
    PreparedOutcome(s, created, id, d);
  }

  lemma SpentHandlesStaySpent(e: Entries, created: map<KeyOperationId, CreatedKey>, id: TransactionId, d: Decision)
    requires Sound(e) && Decides(e, created, d) && !d.Unrelated?
    ensures ConditionsHold(e, d) ==> forall h | Spent(e, h) :: Spent(Outcome(e, id, d), h)
  {
    hide Sound, ConditionsHold, Outcome;
    if ConditionsHold(e, d) {
      forall h | Spent(e, h) ensures Spent(Outcome(e, id, d), h) {
        OutcomeAdvancesHandles(e, created, id, d, h);
      }
    }
  }
}
