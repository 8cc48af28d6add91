/**
 How far a leave has come, read off the entries.  Everything but the wiped rows is a function of
 the entries before the leave, the journaled intent, the replacement key and the progress.
 */
module LeaveProgress {
  import opened Results
  import opened Storage
  import opened IdentityRecords
  import opened IdentityMachine
  import opened IdentityNode
  import opened Deletion

  datatype Progress =
    | Journaled
    | Recorded(record: Record)
    | Swapped(record: Record)
    | KeyIntended(record: Record)
    | KeyDeleted(record: Record, journal: Option<TransactionId>)
    | Completed(record: Record, journal: Option<TransactionId>)
  {
    function Rank(): nat {
      match this
      case Journaled => 0
      case Recorded(_) => 1
      case Swapped(_) => 2
      case KeyIntended(_) => 3
      case KeyDeleted(_, _) => 4
      case Completed(_, _) => 5
    }
  }

  /** The entries before the leave without the wiped rows, the intent, and the replacement key. */
  datatype Plan = Plan(start: Entries, intent: Record, key: CreatedKey)

  function Kept(e: Entries): Entries {
    map k | k in e && !k.Row? :: e[k]
  }

  ghost predicate NoRows(e: Entries) {
    forall k | k in e :: !k.Row?
  }

  /** What a leave starts from: the former identity in place, nothing of this leave stored yet. */
  ghost predicate Feasible(plan: Plan, mint: KeyOperationId -> CreatedKey) {
    && plan.intent.LeaveIntentV1? && plan.intent.former.IdentityV1?
    && var former := plan.intent.former;
       && NoRows(plan.start) && Sound(plan.start)
       && LocalIdentity in plan.start && plan.start[LocalIdentity] == former
       && LeaveIntent !in plan.start && LeaveRecord(former.node) !in plan.start
       && Pending(LocalIdentityPurpose) !in plan.start
       && plan.intent.replacementNode != former.node
       && plan.key == mint(plan.intent.replacementOperation)
       && plan.key.handle != former.handle && !Spent(plan.start, plan.key.handle)
  }

  function SwappedEntries(plan: Plan, record: Record): Entries
    requires plan.intent.LeaveIntentV1? && plan.intent.former.IdentityV1?
  {
    plan.start[LeaveIntent := plan.intent][LeaveRecord(plan.intent.former.node) := record]
      [LocalIdentity := Replacement(plan.intent, plan.key)]
  }

  function WithTombstone(plan: Plan, e: Entries, journal: Option<TransactionId>): Entries
    requires plan.intent.LeaveIntentV1? && plan.intent.former.IdentityV1?
  {
    var former := plan.intent.former;
    var e' := e[DeletedKey(former.handle) := KeyDeletedV1(former.operation, former.handle)];
    match journal
    case None => e'
    case Some(id) => e'[Pending(KeyDeletionPurpose(former.handle)) := PendingV1(KeyDeletionPurpose(former.handle), id)]
  }

  function KeptAt(plan: Plan, p: Progress): Entries
    requires plan.intent.LeaveIntentV1? && plan.intent.former.IdentityV1?
  {
    var former := plan.intent.former;
    match p
    case Journaled => plan.start[LeaveIntent := plan.intent]
    case Recorded(record) => plan.start[LeaveIntent := plan.intent][LeaveRecord(former.node) := record]
    case Swapped(record) => SwappedEntries(plan, record)
    case KeyIntended(record) =>
      SwappedEntries(plan, record)[DeletionIntent(former.handle) := DeletionIntentV1(former.operation, former.handle)]
    case KeyDeleted(record, journal) => WithTombstone(plan, SwappedEntries(plan, record), journal)
    case Completed(record, journal) => WithTombstone(plan, SwappedEntries(plan, record), journal) - {LeaveIntent}
  }

  /** The persisted record announces the former identity under its own key. */
  predicate OwnRecord(plan: Plan, p: Progress)
    requires plan.intent.LeaveIntentV1? && plan.intent.former.IdentityV1?
  {
    !p.Journaled? ==>
      p.record.LeaveRecordV1? && p.record.node == plan.intent.former.node && p.record.publicKey == plan.intent.former.publicKey
  }

  /** A retained binding of the node, if any, carries the same key. */
  predicate BindingAgrees(e: Entries, node: NodeId, publicKey: PublicKey) {
    Row(IdentityBinding, node) in e ==> e[Row(IdentityBinding, node)] == BindingV1(publicKey)
  }

  /** The node stands at `p` of the planned leave. */
  ghost predicate OnPath(n: Node, plan: Plan, p: Progress)
    reads n
  {
    && Feasible(plan, n.mint) && Kept(n.store.entries) == KeptAt(plan, p) && OwnRecord(plan, p)
    && plan.intent.former.operation in n.created
    && n.created[plan.intent.former.operation] == CreatedKey(plan.intent.former.handle, plan.intent.former.publicKey)
    && (p.KeyDeleted? || p.Completed? ==> plan.intent.former.handle in n.gone)
    && (p.Rank() > 2 ==> NoRows(n.store.entries))
    && (p.Journaled? ==> BindingAgrees(n.store.entries, plan.intent.former.node, plan.intent.former.publicKey))
  }

  /** Progress only moves forward and never replaces a persisted record. */
  predicate Onward(p: Progress, q: Progress) {
    p.Rank() <= q.Rank() && (!p.Journaled? ==> !q.Journaled? && q.record == p.record)
  }

  lemma FormerIsFresh(plan: Plan, mint: KeyOperationId -> CreatedKey)
    requires Feasible(plan, mint)
    ensures !Spent(plan.start, plan.intent.former.handle)
    ensures Pending(KeyDeletionPurpose(plan.intent.former.handle)) !in plan.start
  {
  }

  /** Everything outside the leave's own keys is as it was before. */
  lemma RestIsUntouched(plan: Plan, p: Progress, k: Key)
    requires plan.intent.LeaveIntentV1? && plan.intent.former.IdentityV1?
    requires k != LocalIdentity && k != LeaveIntent && k != LeaveRecord(plan.intent.former.node)
    requires !DeletionKey(k, plan.intent.former.handle)
    ensures k in KeptAt(plan, p) <==> k in plan.start
    ensures k in KeptAt(plan, p) ==> KeptAt(plan, p)[k] == plan.start[k]
  {
  }

  lemma OwnKeysAt(plan: Plan, mint: KeyOperationId -> CreatedKey, p: Progress)
    requires Feasible(plan, mint) && OwnRecord(plan, p)
    ensures var e := KeptAt(plan, p);
            var former := plan.intent.former;
            var replacement := Replacement(plan.intent, plan.key);
            && LocalIdentity in e && e[LocalIdentity] == (if p.Rank() < 2 then former else replacement) && former != replacement
            && (Spent(e, former.handle) ==> p.Rank() > 2)
            && (LeaveRecord(former.node) in e <==> !p.Journaled?)
            && (LeaveIntent in e <==> !p.Completed?) && (LeaveIntent in e ==> e[LeaveIntent] == plan.intent)
  {
    FormerIsFresh(plan, mint);
    hide Sound;
  }

  /**
   What is true at every point of a leave: the identity is exactly the former or the replacement;
   the former key's deletion begins only after the swap; a swapped identity has its record
   persisted; the intent stays until completion; and nothing unrelated changes.
   */
  lemma LeaveIsNeverMixed(plan: Plan, mint: KeyOperationId -> CreatedKey, p: Progress)
    requires Feasible(plan, mint) && OwnRecord(plan, p)
    ensures var e := KeptAt(plan, p);
            var former := plan.intent.former;
            var replacement := Replacement(plan.intent, plan.key);
            && LocalIdentity in e && e[LocalIdentity] == (if p.Rank() < 2 then former else replacement) && former != replacement
            && (Spent(e, former.handle) ==> e[LocalIdentity] == replacement)
            && (e[LocalIdentity] == replacement ==> LeaveRecord(former.node) in e && !Spent(e, replacement.handle))
            && (LeaveIntent in e <==> !p.Completed?) && (LeaveIntent in e ==> e[LeaveIntent] == plan.intent)
            && forall k | k != LocalIdentity && k != LeaveIntent && k != LeaveRecord(former.node) && !DeletionKey(k, former.handle) ::
                 (k in e <==> k in plan.start) && (k in e ==> e[k] == plan.start[k])
  {
    hide KeptAt, Sound;
    OwnKeysAt(plan, mint, p);
    var former := plan.intent.former;
    forall k | k != LocalIdentity && k != LeaveIntent && k != LeaveRecord(former.node) && !DeletionKey(k, former.handle)
      ensures (k in KeptAt(plan, p) <==> k in plan.start) && (k in KeptAt(plan, p) ==> KeptAt(plan, p)[k] == plan.start[k])
    {
      RestIsUntouched(plan, p, k);
    }
    RestIsUntouched(plan, p, DeletionIntent(plan.key.handle));
    RestIsUntouched(plan, p, DeletedKey(plan.key.handle));
  }

  // ---- the steps ----

  lemma BeginStep(plan: Plan, e: Entries, id: TransactionId)
    requires plan.intent.LeaveIntentV1? && plan.intent.former.IdentityV1? && Kept(e) == plan.start
    ensures Kept(Outcome(e, id, BeginLeave(plan.intent))) == KeptAt(plan, Journaled)
  {
  }

  lemma RecordStep(plan: Plan, mint: KeyOperationId -> CreatedKey, e: Entries, id: TransactionId, record: Record)
    requires Feasible(plan, mint) && Kept(e) == KeptAt(plan, Journaled)
    requires record.LeaveRecordV1? && record.node == plan.intent.former.node
    ensures Kept(Outcome(e, id, PersistLeaveRecord(record))) == KeptAt(plan, Recorded(record))
  {
    var f := Outcome(e, id, PersistLeaveRecord(record));
    assert forall k | k in f && k != LeaveRecord(record.node) :: k in e && f[k] == e[k];
  }

  lemma SwapStep(plan: Plan, mint: KeyOperationId -> CreatedKey, e: Entries, id: TransactionId, record: Record)
    requires Feasible(plan, mint) && Kept(e) == KeptAt(plan, Recorded(record))
    ensures Kept(Outcome(e, id, Swap(plan.intent, plan.key))) == KeptAt(plan, Swapped(record))
  {
    var f := Outcome(e, id, Swap(plan.intent, plan.key));
    assert forall k | k in f && k != LocalIdentity :: k in e && f[k] == e[k];
  }

  lemma WipeStep(e: Entries, rows: set<Key>)
    requires forall k | k in rows :: k.Row?
    ensures Kept(e - rows) == Kept(e)
  {
  }

  lemma CompleteStep(plan: Plan, mint: KeyOperationId -> CreatedKey, e: Entries, id: TransactionId, p: Progress)
    requires Feasible(plan, mint) && p.KeyDeleted? && Kept(e) == KeptAt(plan, p)
    ensures Kept(Outcome(e, id, CompleteLeave(plan.intent))) == KeptAt(plan, Completed(p.record, p.journal))
  {
    var f := Outcome(e, id, CompleteLeave(plan.intent));
    assert forall k | k in f :: k in e && f[k] == e[k];
  }

  /** Where the former key's deletion has brought the leave. */
  function AfterDeletion(record: Record, f: Entries, h: KeyHandle): Progress {
    if DeletedKey(h) in f then
      KeyDeleted(record, if Pending(KeyDeletionPurpose(h)) in f && f[Pending(KeyDeletionPurpose(h))].PendingV1?
                         then Some(f[Pending(KeyDeletionPurpose(h))].transaction) else None)
    else if DeletionIntent(h) in f then KeyIntended(record)
    else Swapped(record)
  }

  /** Between the swap and completion only the former key's deletion keys differ. */
  lemma SameOutsideDeletion(plan: Plan, p: Progress, q: Progress, k: Key)
    requires plan.intent.LeaveIntentV1? && plan.intent.former.IdentityV1?
    requires 2 <= p.Rank() <= 4 && 2 <= q.Rank() <= 4 && p.record == q.record
    requires !DeletionKey(k, plan.intent.former.handle)
    ensures k in KeptAt(plan, p) <==> k in KeptAt(plan, q)
    ensures k in KeptAt(plan, p) ==> KeptAt(plan, p)[k] == KeptAt(plan, q)[k]
  {
  }

  lemma DeletionKeysAt(plan: Plan, mint: KeyOperationId -> CreatedKey, p: Progress)
    requires Feasible(plan, mint) && 2 <= p.Rank() <= 4
    ensures var e := KeptAt(plan, p);
            var former := plan.intent.former;
            var journal := Pending(KeyDeletionPurpose(former.handle));
            && (DeletionIntent(former.handle) in e <==> p.KeyIntended?)
            && (p.KeyIntended? ==> e[DeletionIntent(former.handle)] == DeletionIntentV1(former.operation, former.handle))
            && (DeletedKey(former.handle) in e <==> p.KeyDeleted?)
            && (p.KeyDeleted? ==> e[DeletedKey(former.handle)] == KeyDeletedV1(former.operation, former.handle))
            && (journal in e <==> p.KeyDeleted? && p.journal.Some?)
            && (journal in e ==> e[journal] == PendingV1(KeyDeletionPurpose(former.handle), p.journal.value))
  {
    hide OneCreationIntent, Typed;
  }

  lemma KeptAgrees(e: Entries, k: Key)
    requires !k.Row?
    ensures k in Kept(e) <==> k in e
    ensures k in e ==> Kept(e)[k] == e[k]
  {
  }

  lemma NoRowsAt(plan: Plan, mint: KeyOperationId -> CreatedKey, p: Progress)
    requires Feasible(plan, mint)
    ensures NoRows(KeptAt(plan, p))
  {
    hide Sound, Spent;
  }

  lemma DeletionKeysAfter(plan: Plan, mint: KeyOperationId -> CreatedKey, e: Entries, f: Entries, p: Progress, k: Key)
    requires Feasible(plan, mint) && OwnRecord(plan, p) && 2 <= p.Rank() <= 4 && Kept(e) == KeptAt(plan, p)
    requires Sound(f) && Advances(e, f, plan.intent.former.operation, plan.intent.former.handle)
    requires DeletionKey(k, plan.intent.former.handle)
    ensures var q := AfterDeletion(p.record, f, plan.intent.former.handle);
            && (k in f <==> k in KeptAt(plan, q))
            && (k in f ==> f[k] == KeptAt(plan, q)[k])
            && Onward(p, q)
  {
    hide KeptAt, Kept, OneCreationIntent;
    var h := plan.intent.former.handle;
    var q := AfterDeletion(p.record, f, h);
    DeletionKeysAt(plan, mint, p);
    DeletionKeysAt(plan, mint, q);
    KeptAgrees(e, DeletionIntent(h));
    KeptAgrees(e, DeletedKey(h));
    assert k in f ==> WellPlaced(k, f[k]);
  }

  /** Carrying the former key's deletion on moves the leave forward and touches nothing else. */
  lemma DeletionStep(plan: Plan, mint: KeyOperationId -> CreatedKey, e: Entries, f: Entries, p: Progress)
    requires Feasible(plan, mint) && OwnRecord(plan, p) && 2 <= p.Rank() <= 4 && Kept(e) == KeptAt(plan, p)
    requires Sound(f) && Advances(e, f, plan.intent.former.operation, plan.intent.former.handle)
    ensures var q := AfterDeletion(p.record, f, plan.intent.former.handle);
            Kept(f) == KeptAt(plan, q) && Onward(p, q)
  {
    hide KeptAt, Kept, Sound, OwnRecord;
    var h := plan.intent.former.handle;
    var q := AfterDeletion(p.record, f, h);
    NoRowsAt(plan, mint, p);
    NoRowsAt(plan, mint, q);
    DeletionKeysAfter(plan, mint, e, f, p, DeletedKey(h));
    forall k: Key | !k.Row?
      ensures k in f <==> k in KeptAt(plan, q)
      ensures k in f ==> f[k] == KeptAt(plan, q)[k]
    {
      if DeletionKey(k, h) {
        DeletionKeysAfter(plan, mint, e, f, p, k);
      } else {
        SameOutsideDeletion(plan, p, q, k);
        KeptAgrees(e, k);
      }
    }
    KeptIsItsKeys(f, KeptAt(plan, q));
  }

  lemma KeptIsItsKeys(f: Entries, kept: Entries)
    requires NoRows(kept)
    requires forall k: Key | !k.Row? :: (k in f <==> k in kept) && (k in f ==> f[k] == kept[k])
    ensures Kept(f) == kept
  {
    assert forall k | k in Kept(f) :: k in kept;
  }
}
