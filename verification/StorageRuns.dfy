/**
 What the storage contract gives its callers: a committed batch is one serial step, a batch
 prepared from a snapshot commits only on that very state, and every transaction changes the
 store at most once over any run of attempts, retries, unknown outcomes and forgotten receipts.
 */
module StorageRuns {
  import opened Results
  import opened Storage

  // ---- a batch is one serial step ----

  /** Checking and applying the operations one at a time, in list order. */
  function Serial<K, V(==)>(s: Store<K, V>, operations: seq<Operation<K, V>>): Option<Store<K, V>>
    decreases |operations|
  {
    if operations == [] then Some(s)
    else if !ConditionMatches(s, operations[0]) then None
    else Serial(Apply(s, operations[0]), operations[1..])
  }

  /** The declared joint effect: each named record or receipt changes as its own operation says,
      everything else stays. */
  ghost predicate AppliedTogether<K(!new), V(!new)>(s: Store<K, V>, operations: seq<Operation<K, V>>, r: Store<K, V>) {
    && r.revision == s.revision
    && (forall op | op in operations :: EffectHolds(op, r))
    && (forall k | Untouched(KeyIdentity(k), operations) :: SameEntry(s, r, k))
    && (forall id | Untouched(ReceiptIdentity(id), operations) :: SameReceipt(s, r, id))
    && (forall op | op in operations && op.Check? :: SameEntry(s, r, op.key))
  }

  ghost predicate EffectHolds<K, V>(op: Operation<K, V>, r: Store<K, V>) {
    match op
    case Check(_, _) => true
    case Put(key, _, value) => key in r.entries && r.entries[key] == value
    case Delete(key, _) => key !in r.entries
    case ForgetReceipt(transaction, _) => transaction !in r.receipts
  }

  ghost predicate Untouched<K, V>(identity: Identity<K>, operations: seq<Operation<K, V>>) {
    forall op | op in operations :: IdentityOf(op) != identity
  }

  ghost predicate SameEntry<K, V>(s: Store<K, V>, r: Store<K, V>, k: K) {
    (k in s.entries <==> k in r.entries) && (k in s.entries ==> s.entries[k] == r.entries[k])
  }

  ghost predicate SameReceipt<K, V>(s: Store<K, V>, r: Store<K, V>, id: TransactionId) {
    (id in s.receipts <==> id in r.receipts) && (id in s.receipts ==> s.receipts[id] == r.receipts[id])
  }

  lemma ApplyIsLocal<K(!new), V(!new)>(s: Store<K, V>, op: Operation<K, V>)
    ensures EffectHolds(op, Apply(s, op))
    ensures forall k | KeyIdentity(k) != IdentityOf(op) || op.Check? :: SameEntry(s, Apply(s, op), k)
    ensures forall id | ReceiptIdentity(id) != IdentityOf(op) :: SameReceipt(s, Apply(s, op), id)
  {
  }

  /** A condition reads only the record its operation names. */
  lemma ConditionIsLocal<K(!new), V(!new)>(s: Store<K, V>, op: Operation<K, V>, other: Operation<K, V>)
    requires IdentityOf(op) != IdentityOf(other)
    ensures ConditionMatches(Apply(s, op), other) <==> ConditionMatches(s, other)
  {
    ApplyIsLocal(s, op);
  }

  lemma {:induction false} ApplyAllIsJoint<K(!new), V(!new)>(s: Store<K, V>, operations: seq<Operation<K, V>>)
    requires PairwiseDistinct(operations)
    ensures AppliedTogether(s, operations, ApplyAll(s, operations))
    decreases |operations|
  {
    if operations != [] {
      var op, rest := operations[0], operations[1..];
      var mid, r := Apply(s, op), ApplyAll(s, operations);
      assert operations == [op] + rest;
      ApplyAllIsJoint(mid, rest);
      ApplyIsLocal(s, op);
      HeadIsUntouched(operations);
      HeadSurvives(op, mid, rest, r);
      forall k | Untouched(KeyIdentity(k), operations) ensures SameEntry(s, r, k) {
        assert Untouched(KeyIdentity(k), rest) && op in operations;
      }
      forall id | Untouched(ReceiptIdentity(id), operations) ensures SameReceipt(s, r, id) {
        assert Untouched(ReceiptIdentity(id), rest) && op in operations;
      }
      forall other | other in operations && other.Check? ensures SameEntry(s, r, other.key) {
        if other in rest {
          assert IdentityOf(other) != IdentityOf(op);
        }
      }
    }
  }

  lemma HeadIsUntouched<K, V>(operations: seq<Operation<K, V>>)
    requires operations != [] && PairwiseDistinct(operations)
    ensures Untouched(IdentityOf(operations[0]), operations[1..])
  {
    forall op | op in operations[1..] ensures IdentityOf(op) != IdentityOf(operations[0]) {
      var i :| 0 <= i < |operations[1..]| && operations[1..][i] == op;
      assert operations[i + 1] == op;
    }
  }

  lemma HeadSurvives<K(!new), V(!new)>(op: Operation<K, V>, mid: Store<K, V>, rest: seq<Operation<K, V>>, r: Store<K, V>)
    requires EffectHolds(op, mid) && Untouched(IdentityOf(op), rest) && AppliedTogether(mid, rest, r)
    ensures EffectHolds(op, r)
  {
    if op.ForgetReceipt? {
      assert SameReceipt(mid, r, op.transaction);
    } else {
      assert SameEntry(mid, r, op.key);
    }
  }

  lemma {:induction false} SerialIsCheckThenApply<K(!new), V(!new)>(s: Store<K, V>, operations: seq<Operation<K, V>>)
    requires PairwiseDistinct(operations)
    ensures Serial(s, operations) == if AllConditions(s, operations) then Some(ApplyAll(s, operations)) else None
    decreases |operations|
  {
    if operations != [] {
      var op, rest := operations[0], operations[1..];
      HeadIsUntouched(operations);
      SerialIsCheckThenApply(Apply(s, op), rest);
      forall i | 0 <= i < |rest| ensures ConditionMatches(Apply(s, op), rest[i]) <==> ConditionMatches(s, rest[i]) {
        assert rest[i] in rest;
        ConditionIsLocal(s, op, rest[i]);
      }
      assert forall i | 0 <= i < |rest| :: rest[i] == operations[i + 1];
      assert AllConditions(s, operations) <==> ConditionMatches(s, op) && AllConditions(Apply(s, op), rest);
    }
  }

  /** The joint effect is determined, and only by which operations are in the batch. */
  lemma JointEffectIsUnique<K(!new), V(!new)>(
      s: Store<K, V>, a: seq<Operation<K, V>>, b: seq<Operation<K, V>>, x: Store<K, V>, y: Store<K, V>)
    requires multiset(a) == multiset(b)
    requires AppliedTogether(s, a, x) && AppliedTogether(s, b, y)
    ensures x == y
  {
    forall op ensures op in a <==> op in b {
      assert op in a <==> op in multiset(a);
      assert op in b <==> op in multiset(b);
    }
    forall k ensures SameEntry(x, y, k) {
      if Untouched(KeyIdentity(k), a) {
        assert Untouched(KeyIdentity(k), b);
      } else {
        var op :| op in a && IdentityOf(op) == KeyIdentity(k);
        assert EffectHolds(op, x) && EffectHolds(op, y);
      }
    }
    forall id ensures SameReceipt(x, y, id) {
      if Untouched(ReceiptIdentity(id), a) {
        assert Untouched(ReceiptIdentity(id), b);
      } else {
        var op :| op in a && IdentityOf(op) == ReceiptIdentity(id);
        assert EffectHolds(op, x) && EffectHolds(op, y);
      }
    }
    assert x.entries == y.entries by {
      forall k ensures (k in x.entries <==> k in y.entries) && (k in x.entries ==> x.entries[k] == y.entries[k]) {
        assert SameEntry(x, y, k);
      }
    }
    assert x.receipts == y.receipts by {
      forall id ensures (id in x.receipts <==> id in y.receipts) && (id in x.receipts ==> x.receipts[id] == y.receipts[id]) {
        assert SameReceipt(x, y, id);
      }
    }
  }

  lemma DistinctSurvivesRearranging<K, V>(a: seq<Operation<K, V>>, b: seq<Operation<K, V>>)
    requires multiset(a) == multiset(b) && PairwiseDistinct(a)
    ensures PairwiseDistinct(b)
  {
    assert NoRepeats(a);
    RepeatsSurviveRearranging(a, b);
    forall i, j | 0 <= i < j < |b| ensures IdentityOf(b[i]) != IdentityOf(b[j]) {
      assert b[i] in multiset(b) && b[j] in multiset(b);
      assert b[i] in a && b[j] in a;
      var m, n :| 0 <= m < |a| && a[m] == b[i] && 0 <= n < |a| && a[n] == b[j];
      assert b[i] != b[j];
      if m < n { } else { assert n < m; }
    }
  }

  /** A committed batch is one serial step: checking everything first and applying together is
      checking and applying one by one, in whatever order. */
  lemma BatchIsSerialInAnyOrder<K(!new), V(!new)>(
      s: Store<K, V>, operations: seq<Operation<K, V>>, order: seq<Operation<K, V>>)
    requires PairwiseDistinct(operations) && multiset(order) == multiset(operations)
    ensures Serial(s, order) == if AllConditions(s, operations) then Some(ApplyAll(s, operations)) else None
  {
    DistinctSurvivesRearranging(operations, order);
    SerialIsCheckThenApply(s, order);
    forall op ensures op in order <==> op in operations {
      assert op in order <==> op in multiset(order);
      assert op in operations <==> op in multiset(operations);
    }
    assert AllConditions(s, order) <==> AllConditions(s, operations) by {
      SameConditions(s, order, operations);
      SameConditions(s, operations, order);
    }
    ApplyAllIsJoint(s, operations);
    ApplyAllIsJoint(s, order);
    JointEffectIsUnique(s, operations, order, ApplyAll(s, operations), ApplyAll(s, order));
  }

  lemma SameConditions<K, V>(s: Store<K, V>, a: seq<Operation<K, V>>, b: seq<Operation<K, V>>)
    requires forall op | op in b :: op in a
    ensures AllConditions(s, a) ==> AllConditions(s, b)
  {
    if AllConditions(s, a) {
      forall i | 0 <= i < |b| ensures ConditionMatches(s, b[i]) {
        assert b[i] in a;
      }
    }
  }

  /**
   What a landing commit found: an unused id, the revision it was prepared from, and every
   expectation fulfilled by the value it names.
   */
  lemma LandsExactly<K, V>(s: Store<K, V>, t: Transaction<K, V>)
    ensures Lands(s, t) <==>
            && t.id !in s.receipts && t.base == s.revision
            && (forall k, v | Put(k, Absent, v) in t.operations :: k !in s.entries)
            && (forall k, was, v | Put(k, Exact(was), v) in t.operations :: k in s.entries && s.entries[k] == was)
            && (forall k | Check(k, Absent) in t.operations :: k !in s.entries)
            && (forall k, was | Check(k, Exact(was)) in t.operations :: k in s.entries && s.entries[k] == was)
            && (forall k, was | Delete(k, was) in t.operations :: k in s.entries && s.entries[k] == was)
            && (forall id, digest | ForgetReceipt(id, digest) in t.operations :: id in s.receipts && s.receipts[id].digest == digest)
  {
    if !AllConditions(s, t.operations) {
      var i :| 0 <= i < |t.operations| && !ConditionMatches(s, t.operations[i]);
      assert t.operations[i] in t.operations;
    }
    forall op | op in t.operations ensures AllConditions(s, t.operations) ==> ConditionMatches(s, op) {
      var i :| 0 <= i < |t.operations| && t.operations[i] == op;
    }
  }

  // ---- runs ----

  /** One commit attempt.  It may not reach the store at all: a proven abort, a crash before the
      write, or an unknown outcome that did not apply.  What the caller is told is not the state. */
  datatype Attempt<K, V> = Attempt(transaction: Transaction<K, V>, reaches: bool)

  predicate Changes<K, V(==)>(s: Store<K, V>, a: Attempt<K, V>) {
    a.reaches && Lands(s, a.transaction)
  }

  function After<K, V(==)>(s: Store<K, V>, a: Attempt<K, V>): Store<K, V> {
    if Changes(s, a) then Landed(s, a.transaction) else s
  }

  /** A run: `states[i + 1]` follows `states[i]` by attempt `i`. */
  ghost predicate IsRun<K, V>(states: seq<Store<K, V>>, attempts: seq<Attempt<K, V>>) {
    && |states| == |attempts| + 1
    && forall i | 0 <= i < |attempts| :: states[i + 1] == After(states[i], attempts[i])
  }

  lemma {:induction false} RevisionsAdvance<K, V>(states: seq<Store<K, V>>, attempts: seq<Attempt<K, V>>, i: nat, j: nat)
    requires IsRun(states, attempts) && i <= j < |states|
    ensures states[i].revision <= states[j].revision
    ensures states[i].revision == states[j].revision ==> states[i] == states[j]
    decreases j - i
  {
    if i < j {
      RevisionsAdvance(states, attempts, i, j - 1);
      assert states[j] == After(states[j - 1], attempts[j - 1]);
    }
  }

  /** No update is lost: a transaction prepared from the snapshot `states[i]` lands later only on
      a state equal to that snapshot. */
  lemma CommitsOnlyOnItsSnapshot<K, V>(states: seq<Store<K, V>>, attempts: seq<Attempt<K, V>>, i: nat, j: nat)
    requires IsRun(states, attempts) && i <= j < |attempts|
    requires attempts[j].transaction.base == states[i].revision
    requires Changes(states[j], attempts[j])
    ensures states[j] == states[i]
  {
    RevisionsAdvance(states, attempts, i, j);
  }

  /** At most once: over any run, an (id, operation digest) pair changes the store at most once,
      even after its receipt was forgotten, because its base revision is stale from then on. */
  lemma ChangesAtMostOnce<K, V>(states: seq<Store<K, V>>, attempts: seq<Attempt<K, V>>, i: nat, j: nat)
    requires IsRun(states, attempts) && i < j < |attempts|
    requires attempts[i].transaction.Digest() == attempts[j].transaction.Digest()
    requires Changes(states[i], attempts[i])
    ensures !Changes(states[j], attempts[j])
  {
    assert states[i + 1] == After(states[i], attempts[i]);
    RevisionsAdvance(states, attempts, i + 1, j);
  }

  predicate Forgets<K, V(==)>(operations: seq<Operation<K, V>>, id: TransactionId) {
    exists i | 0 <= i < |operations| :: operations[i].ForgetReceipt? && operations[i].transaction == id
  }

  /** Attempt `i` put the receipt `(id, digest)` there and nothing before `n` forgot it. */
  ghost predicate StillReceipted<K, V>(
      states: seq<Store<K, V>>, attempts: seq<Attempt<K, V>>, n: nat, id: TransactionId,
      digest: OperationDigest<K, V>, i: nat)
    requires IsRun(states, attempts) && n < |states|
  {
    && i < n
    && Changes(states[i], attempts[i])
    && attempts[i].transaction.id == id && attempts[i].transaction.Digest() == digest
    && forall k | i < k < n && Changes(states[k], attempts[k]) :: !Forgets(attempts[k].transaction.operations, id)
  }

  ghost predicate Receipted<K, V>(
      states: seq<Store<K, V>>, attempts: seq<Attempt<K, V>>, n: nat, id: TransactionId, digest: OperationDigest<K, V>)
    requires IsRun(states, attempts) && n < |states|
  {
    exists i :: StillReceipted(states, attempts, n, id, digest, i)
  }

  lemma {:induction false} ReceiptsAfter<K, V>(s: Store<K, V>, operations: seq<Operation<K, V>>, id: TransactionId)
    ensures id in ApplyAll(s, operations).receipts <==> id in s.receipts && !Forgets(operations, id)
    ensures id in ApplyAll(s, operations).receipts ==> ApplyAll(s, operations).receipts[id] == s.receipts[id]
    decreases |operations|
  {
    if operations != [] {
      var op, rest := operations[0], operations[1..];
      ReceiptsAfter(Apply(s, op), rest, id);
      assert forall i | 0 <= i < |rest| :: rest[i] == operations[i + 1];
      assert Forgets(operations, id) <==> (op.ForgetReceipt? && op.transaction == id) || Forgets(rest, id) by {
        if Forgets(operations, id) {
          var i :| 0 <= i < |operations| && operations[i].ForgetReceipt? && operations[i].transaction == id;
          if i > 0 { assert rest[i - 1] == operations[i]; }
        }
        if Forgets(rest, id) {
          var i :| 0 <= i < |rest| && rest[i].ForgetReceipt? && rest[i].transaction == id;
          assert operations[i + 1] == rest[i];
        }
      }
    }
  }

  /** Reconcile tells the truth about receipts it still has: over every run from a store without
      receipts, it answers Committed exactly when some attempt landed this transaction and no
      later landed transaction forgot the receipt. */
  lemma {:induction false} ReconcileIsExact<K, V>(
      states: seq<Store<K, V>>, attempts: seq<Attempt<K, V>>, n: nat, id: TransactionId, digest: OperationDigest<K, V>)
    requires IsRun(states, attempts) && n < |states| && states[0].receipts == map[]
    ensures Reconcile(states[n], id, digest).ReconciledCommitted? <==> Receipted(states, attempts, n, id, digest)
    decreases n
  {
    if n > 0 {
      var s, a := states[n - 1], attempts[n - 1];
      ReconcileIsExact(states, attempts, n - 1, id, digest);
      ReceiptsAfter(s, a.transaction.operations, id);
      assert states[n] == After(s, a);
      if Changes(s, a) && a.transaction.id == id {
        assert a.transaction.Digest() == digest ==> StillReceipted(states, attempts, n, id, digest, n - 1);
        ReceiptedBefore(states, attempts, n, id, digest);
      } else {
        CarryReceipt(states, attempts, n, id, digest);
      }
    }
  }

  /** A receipt stored now was stored one step ago, or that step landed it. */
  lemma ReceiptedBefore<K, V>(
      states: seq<Store<K, V>>, attempts: seq<Attempt<K, V>>, n: nat, id: TransactionId, digest: OperationDigest<K, V>)
    requires IsRun(states, attempts) && 0 < n < |states|
    ensures Receipted(states, attempts, n, id, digest) ==>
              Receipted(states, attempts, n - 1, id, digest) || attempts[n - 1].transaction.Digest() == digest
  {
    if Receipted(states, attempts, n, id, digest) {
      var i: nat :| StillReceipted(states, attempts, n, id, digest, i);
      if i < n - 1 {
        assert StillReceipted(states, attempts, n - 1, id, digest, i);
      }
    }
  }

  lemma CarryReceipt<K, V>(
      states: seq<Store<K, V>>, attempts: seq<Attempt<K, V>>, n: nat, id: TransactionId, digest: OperationDigest<K, V>)
    requires IsRun(states, attempts) && 0 < n < |states|
    requires Changes(states[n - 1], attempts[n - 1]) ==> attempts[n - 1].transaction.id != id
    ensures Receipted(states, attempts, n, id, digest) <==>
            Receipted(states, attempts, n - 1, id, digest) &&
            !(Changes(states[n - 1], attempts[n - 1]) && Forgets(attempts[n - 1].transaction.operations, id))
  {
    if Receipted(states, attempts, n, id, digest) {
      var i :| StillReceipted(states, attempts, n, id, digest, i);
      assert StillReceipted(states, attempts, n - 1, id, digest, i);
    }
    if Receipted(states, attempts, n - 1, id, digest) &&
       !(Changes(states[n - 1], attempts[n - 1]) && Forgets(attempts[n - 1].transaction.operations, id)) {
      var i :| StillReceipted(states, attempts, n - 1, id, digest, i);
      assert StillReceipted(states, attempts, n, id, digest, i);
    }
  }

  /** A receipt that nothing forgot is stored as the landing commit wrote it. */
  lemma {:induction false} KeptReceipt<K, V>(
      states: seq<Store<K, V>>, attempts: seq<Attempt<K, V>>, n: nat, id: TransactionId, digest: OperationDigest<K, V>, i: nat)
    requires IsRun(states, attempts) && n < |states| && StillReceipted(states, attempts, n, id, digest, i)
    ensures id in states[n].receipts && states[n].receipts[id] == CommitReceipt(id, digest, states[i].revision + 1)
    decreases n
  {
    var s, a := states[n - 1], attempts[n - 1];
    assert states[n] == After(s, a);
    if i < n - 1 {
      assert StillReceipted(states, attempts, n - 1, id, digest, i);
      KeptReceipt(states, attempts, n - 1, id, digest, i);
      ReceiptsAfter(s, a.transaction.operations, id);
    }
  }

  /**
   A commit whose id landed before and kept its receipt changes nothing, whatever its base and
   expectations are: the same transaction is answered exactly as it was the first time, another
   one under that id is refused, and reconciling tells the two apart in the same way.
   */
  lemma ReplayIsAnswered<K, V>(
      states: seq<Store<K, V>>, attempts: seq<Attempt<K, V>>, n: nat, i: nat, t: Transaction<K, V>)
    requires IsRun(states, attempts) && i < n < |states|
    requires StillReceipted(states, attempts, n, t.id, attempts[i].transaction.Digest(), i)
    ensures Commit(states[n], t).0 == states[n]
    ensures var first := attempts[i].transaction;
            var receipt := CommitReceipt(t.id, first.Digest(), states[i].revision + 1);
            if t.Digest() == first.Digest()
            then && Commit(states[n], t).1 == Commit(states[i], first).1 == Committed(receipt)
                 && Reconcile(states[n], t.id, t.Digest()) == ReconciledCommitted(receipt)
            else Commit(states[n], t).1 == Refused && Reconcile(states[n], t.id, t.Digest()) == DigestConflict
  {
    KeptReceipt(states, attempts, n, t.id, attempts[i].transaction.Digest(), i);
  }

  /** The whole reconcile verdict: a conflict is another landed transaction under the id, an abort is none. */
  lemma ReconcileTable<K, V>(
      states: seq<Store<K, V>>, attempts: seq<Attempt<K, V>>, n: nat, id: TransactionId, digest: OperationDigest<K, V>)
    requires IsRun(states, attempts) && n < |states| && states[0].receipts == map[]
    ensures Reconcile(states[n], id, digest).ReconciledAborted? <==>
            forall other :: !Receipted(states, attempts, n, id, other)
    ensures Reconcile(states[n], id, digest).DigestConflict? <==>
            !Receipted(states, attempts, n, id, digest) && exists other :: Receipted(states, attempts, n, id, other)
  {
    hide Receipted;
    forall other { ReconcileIsExact(states, attempts, n, id, other); }
    if id in states[n].receipts {
      assert Receipted(states, attempts, n, id, states[n].receipts[id].digest);
    }
  }

  /** While receipts are kept, Committed means exactly that the effects landed. */
  lemma KeptReceiptsReconcileExactly<K, V>(
      states: seq<Store<K, V>>, attempts: seq<Attempt<K, V>>, n: nat, id: TransactionId, digest: OperationDigest<K, V>)
    requires IsRun(states, attempts) && n < |states| && states[0].receipts == map[]
    requires forall k | 0 <= k < n && Changes(states[k], attempts[k]) :: !Forgets(attempts[k].transaction.operations, id)
    ensures Reconcile(states[n], id, digest).ReconciledCommitted? <==>
            exists i | 0 <= i < n ::
              Changes(states[i], attempts[i]) && attempts[i].transaction.id == id && attempts[i].transaction.Digest() == digest
  {
    ReconcileIsExact(states, attempts, n, id, digest);
    if exists i | 0 <= i < n ::
         Changes(states[i], attempts[i]) && attempts[i].transaction.id == id && attempts[i].transaction.Digest() == digest {
      var i :| 0 <= i < n && Changes(states[i], attempts[i]) && attempts[i].transaction.id == id &&
               attempts[i].transaction.Digest() == digest;
      assert StillReceipted(states, attempts, n, id, digest, i);
    }
  }

  /** The documentation says an absent receipt means the transaction never applied.  A forgotten
      one is the exception: this run lands a write, forgets its receipt, and reconciles to Aborted. */
  lemma ForgottenReceiptReadsAsAborted()
    ensures exists states: seq<Store<int, int>>, attempts: seq<Attempt<int, int>> ::
              && IsRun(states, attempts) && |attempts| == 2
              && states[0].receipts == map[]
              && Changes(states[0], attempts[0])
              && 7 in states[2].entries
              && Reconcile(states[2], attempts[0].transaction.id, attempts[0].transaction.Digest()).ReconciledAborted?
  {
    var write := Transaction("w", 0, [Put(7, Absent, 1)]);
    var forget := Transaction("f", 1, [ForgetReceipt("w", write.Digest())]);
    var s0: Store<int, int> := Store(map[], map[], 0);
    var s1 := Landed(s0, write);
    var s2 := Landed(s1, forget);
    assert ApplyAll(s0, write.operations) == Apply(s0, write.operations[0]);
    assert Lands(s0, write);
    assert s1.receipts == map["w" := CommitReceipt("w", write.Digest(), 1)];
    assert ApplyAll(s1, forget.operations) == Apply(s1, forget.operations[0]);
    assert AllConditions(s1, forget.operations);
    assert Lands(s1, forget);
    var states, attempts := [s0, s1, s2], [Attempt(write, true), Attempt(forget, true)];
    assert states[1] == After(states[0], attempts[0]) && states[2] == After(states[1], attempts[1]);
    assert IsRun(states, attempts);
  }
}
