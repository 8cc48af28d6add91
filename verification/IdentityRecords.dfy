/**
 The durable records of the identity protocols and, for every write the protocols make, the
 exact transaction they prepare from a snapshot.  Records stand for their canonical encodings.
 */
module IdentityRecords {
  import opened Ordering
  import opened Storage

  type NodeId = string
  type PublicKey = string
  type KeyOperationId = string
  type KeyHandle = string

  datatype CreatedKey = CreatedKey(handle: KeyHandle, publicKey: PublicKey)

  /** The families a leave wipes: the member-visible domains and the old identity's own records. */
  datatype Family =
    | IdentityBinding | CredentialUse | MergeGrant | Revocation
    | NodeDescriptor | ResourceRecord | ResourceChangeFeed | RouteTrace

  datatype Purpose = LocalIdentityPurpose | KeyDeletionPurpose(handle: KeyHandle)

  datatype Key =
    | LocalIdentity
    | CreationIntent(operation: KeyOperationId)
    | DeletionIntent(handle: KeyHandle)
    | DeletedKey(handle: KeyHandle)
    | LeaveIntent
    | LeaveRecord(node: NodeId)
    | Pending(purpose: Purpose)
    | Row(family: Family, name: string)
    | Other(name: string) // families no identity protocol touches

  datatype Record =
    | IdentityV1(node: NodeId, publicKey: PublicKey, operation: KeyOperationId, handle: KeyHandle)
    | CreationIntentV1(operation: KeyOperationId, node: NodeId)
    | DeletionIntentV1(operation: KeyOperationId, handle: KeyHandle)
    | KeyDeletedV1(operation: KeyOperationId, handle: KeyHandle)
    | LeaveIntentV1(former: Record, replacementNode: NodeId, replacementOperation: KeyOperationId)
    | LeaveRecordV1(node: NodeId, publicKey: PublicKey, stamp: int)
    | PendingV1(purpose: Purpose, transaction: TransactionId)
    | BindingV1(publicKey: PublicKey)
    | RowV1(content: seq<Byte>)

  type Entries = map<Key, Record>
  type Metadata = Store<Key, Record>
  type Write = Operation<Key, Record>

  /** Every record sits under the key its own fields name. */
  predicate WellPlaced(k: Key, r: Record) {
    match k
    case LocalIdentity => r.IdentityV1?
    case CreationIntent(operation) => r.CreationIntentV1? && r.operation == operation
    case DeletionIntent(handle) => r.DeletionIntentV1? && r.handle == handle
    case DeletedKey(handle) => r.KeyDeletedV1? && r.handle == handle
    case LeaveIntent => r.LeaveIntentV1? && r.former.IdentityV1?
    case LeaveRecord(node) => r.LeaveRecordV1? && r.node == node
    case Pending(purpose) => r.PendingV1? && r.purpose == purpose
    case Row(family, _) => if family.IdentityBinding? then r.BindingV1? else r.RowV1?
    case Other(_) => r.RowV1?
  }

  ghost predicate Typed(e: Entries) {
    forall k | k in e :: WellPlaced(k, e[k])
  }

  function FinalIdentity(intent: Record, created: CreatedKey): Record
    requires intent.CreationIntentV1?
  {
    IdentityV1(intent.node, created.publicKey, intent.operation, created.handle)
  }

  function Replacement(intent: Record, created: CreatedKey): Record
    requires intent.LeaveIntentV1?
  {
    IdentityV1(intent.replacementNode, created.publicKey, intent.replacementOperation, created.handle)
  }

  /** The handle carries a deletion intent or a tombstone. */
  predicate Spent(e: Entries, handle: KeyHandle) {
    DeletionIntent(handle) in e || DeletedKey(handle) in e
  }

  /** One decided write of one of the protocols. */
  datatype Decision =
    | CreateIntent(intent: Record)
    | Finalize(intent: Record, created: CreatedKey)
    | BeginLeave(intent: Record)
    | PersistLeaveRecord(record: Record)
    | Swap(intent: Record, created: CreatedKey)
    | WipeBatch(rows: seq<Key>)
    | InstallDeletion(intent: Record)
    | Tombstone(intent: Record)
    | CompleteLeave(intent: Record)
    | CleanupPending(purpose: Purpose)
    | Unrelated(writes: seq<Write>)

  /** What the protocol has checked on its snapshot, and on the provider, before it prepares. */
  ghost predicate Decides(e: Entries, created: map<KeyOperationId, CreatedKey>, d: Decision) {
    match d
    case CreateIntent(intent) =>
      intent.CreationIntentV1? && LocalIdentity !in e && forall k | k in e :: !k.CreationIntent?
    case Finalize(intent, key) =>
      && intent.CreationIntentV1? && intent.operation in created && created[intent.operation] == key
      && !Spent(e, key.handle)
    case BeginLeave(intent) =>
      intent.LeaveIntentV1? && intent.former.IdentityV1? // the identity the process opened, not re-read
    case PersistLeaveRecord(record) =>
      record.LeaveRecordV1?
    case Swap(intent, key) =>
      && intent.LeaveIntentV1? && intent.former.IdentityV1?
      && intent.replacementOperation in created && created[intent.replacementOperation] == key
      && LocalIdentity in e && e[LocalIdentity].IdentityV1? && e[LocalIdentity].node == intent.former.node
      && !Spent(e, key.handle)
    case WipeBatch(rows) =>
      && NoRepeats(rows) && forall k | k in rows :: k in e && k.Row?
    case InstallDeletion(intent) =>
      && intent.DeletionIntentV1? && !Spent(e, intent.handle)
      && (LocalIdentity in e ==> e[LocalIdentity].IdentityV1? && e[LocalIdentity].handle != intent.handle)
    case Tombstone(intent) =>
      intent.DeletionIntentV1? && DeletionIntent(intent.handle) in e && e[DeletionIntent(intent.handle)] == intent
    case CompleteLeave(intent) =>
      intent.LeaveIntentV1?
    case CleanupPending(purpose) =>
      Pending(purpose) in e
    case Unrelated(writes) =>
      forall w | w in writes :: TouchesNoProtocolKey(w)
  }

  /** The key belongs to an identity protocol, not to a data row. */
  predicate ProtocolKey(k: Key) {
    !k.Row? && !k.Other?
  }

  predicate TouchesNoProtocolKey(w: Write) {
    match w
    case Check(_, _) => true
    case Put(key, _, value) => !ProtocolKey(key) && WellPlaced(key, value)
    case Delete(key, _) => !ProtocolKey(key)
    case ForgetReceipt(_, _) => false
  }

  function Deletes(e: Entries, rows: seq<Key>): (writes: seq<Write>)
    requires forall k | k in rows :: k in e
    ensures |writes| == |rows| && forall i | 0 <= i < |rows| :: writes[i] == Delete(rows[i], e[rows[i]])
  {
    seq(|rows|, i requires 0 <= i < |rows| => Delete(rows[i], e[rows[i]]))
  }

  /** The operations of the prepared transaction, in the order the program builds them. */
  function Writes(e: Entries, id: TransactionId, d: Decision): seq<Write>
    requires d.WipeBatch? ==> forall k | k in d.rows :: k in e
    requires d.Finalize? || d.CreateIntent? ==> d.intent.CreationIntentV1?
    requires d.Swap? ==> d.intent.LeaveIntentV1? && LocalIdentity in e
    requires d.InstallDeletion? || d.Tombstone? ==> d.intent.DeletionIntentV1?
    requires d.PersistLeaveRecord? ==> d.record.LeaveRecordV1?
    requires d.CleanupPending? ==> Pending(d.purpose) in e
  {
    match d
    case CreateIntent(intent) => [Put(CreationIntent(intent.operation), Absent, intent)]
    case Finalize(intent, key) =>
      [Delete(CreationIntent(intent.operation), intent),
       Put(LocalIdentity, Absent, FinalIdentity(intent, key)),
       Check(DeletionIntent(key.handle), Absent),
       Check(DeletedKey(key.handle), Absent),
       Put(Pending(LocalIdentityPurpose), Absent, PendingV1(LocalIdentityPurpose, id))]
    case BeginLeave(intent) => [Put(LeaveIntent, Absent, intent)]
    case PersistLeaveRecord(record) => [Put(LeaveRecord(record.node), Absent, record)]
    case Swap(intent, key) =>
      [Put(LocalIdentity, Exact(e[LocalIdentity]), Replacement(intent, key)),
       Check(DeletionIntent(key.handle), Absent),
       Check(DeletedKey(key.handle), Absent)]
    case WipeBatch(rows) => Deletes(e, rows)
    case InstallDeletion(intent) =>
      (if LocalIdentity in e then [Check(LocalIdentity, Exact(e[LocalIdentity]))] else []) +
      [Put(DeletionIntent(intent.handle), Absent, intent)]
    case Tombstone(intent) =>
      [Delete(DeletionIntent(intent.handle), intent),
       Put(DeletedKey(intent.handle), Absent, KeyDeletedV1(intent.operation, intent.handle)),
       Put(Pending(KeyDeletionPurpose(intent.handle)), Absent, PendingV1(KeyDeletionPurpose(intent.handle), id))]
    case CompleteLeave(intent) => [Delete(LeaveIntent, intent)]
    case CleanupPending(purpose) => [Delete(Pending(purpose), e[Pending(purpose)])]
    case Unrelated(writes) => writes
  }

  function Prepare(snapshot: Metadata, id: TransactionId, d: Decision): Transaction<Key, Record>
    requires d.WipeBatch? ==> forall k | k in d.rows :: k in snapshot.entries
    requires d.Finalize? || d.CreateIntent? ==> d.intent.CreationIntentV1?
    requires d.Swap? ==> d.intent.LeaveIntentV1? && LocalIdentity in snapshot.entries
    requires d.InstallDeletion? || d.Tombstone? ==> d.intent.DeletionIntentV1?
    requires d.PersistLeaveRecord? ==> d.record.LeaveRecordV1?
    requires d.CleanupPending? ==> Pending(d.purpose) in snapshot.entries
  {
    Transaction(id, snapshot.revision, Writes(snapshot.entries, id, d))
  }

  /** The entries after the decided transaction landed. */
  function Outcome(e: Entries, id: TransactionId, d: Decision): Entries
    requires d.Finalize? || d.CreateIntent? ==> d.intent.CreationIntentV1?
    requires d.Swap? ==> d.intent.LeaveIntentV1?
    requires d.InstallDeletion? || d.Tombstone? ==> d.intent.DeletionIntentV1?
    requires d.PersistLeaveRecord? ==> d.record.LeaveRecordV1?
    requires !d.Unrelated?
  {
    match d
    case CreateIntent(intent) => e[CreationIntent(intent.operation) := intent]
    case Finalize(intent, key) =>
      (e - {CreationIntent(intent.operation)})
      [LocalIdentity := FinalIdentity(intent, key)]
      [Pending(LocalIdentityPurpose) := PendingV1(LocalIdentityPurpose, id)]
    case BeginLeave(intent) => e[LeaveIntent := intent]
    case PersistLeaveRecord(record) => e[LeaveRecord(record.node) := record]
    case Swap(intent, key) => e[LocalIdentity := Replacement(intent, key)]
    case WipeBatch(rows) => e - Elements(rows)
    case InstallDeletion(intent) => e[DeletionIntent(intent.handle) := intent]
    case Tombstone(intent) =>
      (e - {DeletionIntent(intent.handle)})
      [DeletedKey(intent.handle) := KeyDeletedV1(intent.operation, intent.handle)]
      [Pending(KeyDeletionPurpose(intent.handle)) := PendingV1(KeyDeletionPurpose(intent.handle), id)]
    case CompleteLeave(_) => e - {LeaveIntent}
    case CleanupPending(purpose) => e - {Pending(purpose)}
  }

  // ---- the transactions do what the outcomes say ----

  lemma {:induction false} ApplyDeletes(s: Metadata, e: Entries, rows: seq<Key>)
    requires forall k | k in rows :: k in e
    ensures ApplyAll(s, Deletes(e, rows)).entries == s.entries - Elements(rows)
    ensures ApplyAll(s, Deletes(e, rows)).receipts == s.receipts
    decreases |rows|
  {
    if rows == [] {
      assert Deletes(e, rows) == [];
      assert Elements(rows) == {};
    } else {
      var next := Apply(s, Delete(rows[0], e[rows[0]]));
      assert rows[0] in rows;
      assert Deletes(e, rows)[1..] == Deletes(e, rows[1..]);
      ApplyDeletes(next, e, rows[1..]);
      assert rows == [rows[0]] + rows[1..];
      assert Elements(rows) == {rows[0]} + Elements(rows[1..]);
    }
  }

  /** The landed transaction turns the entries into the decision's outcome and forgets no receipt. */
  lemma PreparedOutcome(s: Metadata, created: map<KeyOperationId, CreatedKey>, id: TransactionId, d: Decision)
    requires Decides(s.entries, created, d) && !d.Unrelated?
    ensures var landed := Landed(s, Prepare(s, id, d));
            landed.entries == Outcome(s.entries, id, d) && landed.receipts.Keys == s.receipts.Keys + {id}
  {
    hide ApplyAll;
    var writes := Writes(s.entries, id, d);
    match d {
      case CreateIntent(_) => ApplyOne(s, writes[0]);
      case Finalize(_, _) => ApplyFive(s, writes[0], writes[1], writes[2], writes[3], writes[4]);
      case BeginLeave(_) => ApplyOne(s, writes[0]);
      case PersistLeaveRecord(_) => ApplyOne(s, writes[0]);
      case Swap(_, _) => ApplyThree(s, writes[0], writes[1], writes[2]);
      case WipeBatch(rows) => ApplyDeletes(s, s.entries, rows);
      case InstallDeletion(_) =>
        if LocalIdentity in s.entries {
          assert writes == [writes[0], writes[1]];
          ApplyTwo(s, writes[0], writes[1]);
        } else {
          assert writes == [writes[0]];
          ApplyOne(s, writes[0]);
        }
      case Tombstone(_) => ApplyThree(s, writes[0], writes[1], writes[2]);
      case CompleteLeave(_) => ApplyOne(s, writes[0]);
      case CleanupPending(_) => ApplyOne(s, writes[0]);
    }
  }

  /** No two operations of a prepared transaction name the same key, as the store demands. */
  lemma PreparedIsDistinct(e: Entries, created: map<KeyOperationId, CreatedKey>, id: TransactionId, d: Decision)
    requires Decides(e, created, d) && !d.Unrelated?
    ensures PairwiseDistinct(Writes(e, id, d))
  {
  }

  /** When the transaction's own conditions hold on the state it was prepared from. */
  predicate ConditionsHold(e: Entries, d: Decision)
    requires d.Finalize? || d.CreateIntent? ==> d.intent.CreationIntentV1?
    requires d.InstallDeletion? || d.Tombstone? ==> d.intent.DeletionIntentV1?
    requires d.PersistLeaveRecord? ==> d.record.LeaveRecordV1?
  {
    match d
    case CreateIntent(intent) => CreationIntent(intent.operation) !in e
    case Finalize(intent, _) =>
      && CreationIntent(intent.operation) in e && e[CreationIntent(intent.operation)] == intent
      && LocalIdentity !in e && Pending(LocalIdentityPurpose) !in e
    case BeginLeave(_) => LeaveIntent !in e
    case PersistLeaveRecord(record) => LeaveRecord(record.node) !in e
    case Tombstone(intent) => DeletedKey(intent.handle) !in e && Pending(KeyDeletionPurpose(intent.handle)) !in e
    case CompleteLeave(intent) => LeaveIntent in e && e[LeaveIntent] == intent
    case _ => true
  }

  lemma PreparedConditions(s: Metadata, created: map<KeyOperationId, CreatedKey>, id: TransactionId, d: Decision)
    requires Decides(s.entries, created, d) && !d.Unrelated?
    ensures AllConditions(s, Writes(s.entries, id, d)) <==> ConditionsHold(s.entries, d)
  {
    var writes := Writes(s.entries, id, d);
    match d {
      case Finalize(_, _) =>
        assert AllConditions(s, writes) <==>
               ConditionMatches(s, writes[0]) && ConditionMatches(s, writes[1]) && ConditionMatches(s, writes[2]) &&
               ConditionMatches(s, writes[3]) && ConditionMatches(s, writes[4]);
      case Swap(_, _) =>
        assert AllConditions(s, writes) <==>
               ConditionMatches(s, writes[0]) && ConditionMatches(s, writes[1]) && ConditionMatches(s, writes[2]);
      case Tombstone(_) =>
        assert AllConditions(s, writes) <==>
               ConditionMatches(s, writes[0]) && ConditionMatches(s, writes[1]) && ConditionMatches(s, writes[2]);
      case WipeBatch(rows) =>
        assert forall i | 0 <= i < |rows| :: rows[i] in rows;
      case InstallDeletion(_) =>
        if LocalIdentity in s.entries {
          assert writes == [writes[0], writes[1]];
        } else {
          assert writes == [writes[0]];
        }
        assert ConditionMatches(s, writes[|writes| - 1]);
      case CreateIntent(_) => assert AllConditions(s, writes) <==> ConditionMatches(s, writes[0]);
      case BeginLeave(_) => assert AllConditions(s, writes) <==> ConditionMatches(s, writes[0]);
      case PersistLeaveRecord(_) => assert AllConditions(s, writes) <==> ConditionMatches(s, writes[0]);
      case CompleteLeave(_) => assert AllConditions(s, writes) <==> ConditionMatches(s, writes[0]);
      case CleanupPending(_) => assert AllConditions(s, writes) <==> ConditionMatches(s, writes[0]);
    }
  }
}
