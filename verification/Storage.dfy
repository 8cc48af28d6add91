/**
 The conditional storage contract: entries, receipts and a revision that every applied
 transaction advances by one.  Keys and values are type parameters, so the identity and
 merge protocols run on this same store.

 A value's digest is represented by the value and a transaction's operation digest by what it
 hashes, `(base, operations)`: this is the assumption that SHA-256 does not collide, and
 `TransactionDigest` proves that the hashed byte string loses nothing.
 */
module Storage {
  import opened Ordering
  import opened Results

  type TransactionId = string

  datatype Expectation<V> = Absent | Exact(value: V)

  datatype Operation<K, V> =
    | Check(key: K, expected: Expectation<V>)
    | Put(key: K, expected: Expectation<V>, value: V)
    | Delete(key: K, pinned: V)
    | ForgetReceipt(transaction: TransactionId, digest: OperationDigest<K, V>)

  datatype OperationDigest<K, V> = OperationDigest(base: nat, operations: seq<Operation<K, V>>)

  datatype Transaction<K, V> = Transaction(id: TransactionId, base: nat, operations: seq<Operation<K, V>>) {
    function Digest(): OperationDigest<K, V> {
      OperationDigest(base, operations)
    }
  }

  datatype CommitReceipt<K, V> =
    CommitReceipt(transaction: TransactionId, digest: OperationDigest<K, V>, revision: nat)

  datatype Store<K, V> =
    Store(entries: map<K, V>, receipts: map<TransactionId, CommitReceipt<K, V>>, revision: nat)

  datatype CommitOutcome<K, V> =
    | Committed(receipt: CommitReceipt<K, V>)
    | Aborted
    | Refused // `CommitOutcome::Conflict`
    | Unknown(transaction: TransactionId, digest: OperationDigest<K, V>)

  datatype ReconcileOutcome<K, V> =
    | ReconciledCommitted(receipt: CommitReceipt<K, V>)
    | ReconciledAborted
    | DigestConflict
    | ReconcileUnknown

  // ---- one commit ----

  predicate ExpectationMatches<K, V(==)>(entries: map<K, V>, key: K, expected: Expectation<V>) {
    match expected
    case Absent => key !in entries
    case Exact(value) => key in entries && entries[key] == value
  }

  predicate ConditionMatches<K, V(==)>(s: Store<K, V>, operation: Operation<K, V>) {
    match operation
    case Check(key, expected) => ExpectationMatches(s.entries, key, expected)
    case Put(key, expected, _) => ExpectationMatches(s.entries, key, expected)
    case Delete(key, pinned) => key in s.entries && s.entries[key] == pinned
    case ForgetReceipt(transaction, digest) => transaction in s.receipts && s.receipts[transaction].digest == digest
  }

  predicate AllConditions<K, V(==)>(s: Store<K, V>, operations: seq<Operation<K, V>>) {
    forall i | 0 <= i < |operations| :: ConditionMatches(s, operations[i])
  }

  /** The pinned order: receipt replay, base revision, then every expectation; `None` may apply. */
  function Precheck<K, V(==)>(s: Store<K, V>, t: Transaction<K, V>): Option<CommitOutcome<K, V>> {
    if t.id in s.receipts then
      Some(if s.receipts[t.id].digest == t.Digest() then Committed(s.receipts[t.id]) else Refused)
    else if t.base != s.revision || !AllConditions(s, t.operations) then Some(Refused)
    else None
  }

  /** `commit_precheck`: the loop over the expectations stops at the first miss. */
  method CommitPrecheck<K, V(==)>(s: Store<K, V>, t: Transaction<K, V>) returns (r: Option<CommitOutcome<K, V>>)
    ensures r == Precheck(s, t)
  {
    if t.id in s.receipts {
      return Some(if s.receipts[t.id].digest == t.Digest() then Committed(s.receipts[t.id]) else Refused);
    }
    if t.base != s.revision {
      return Some(Refused);
    }
    for i := 0 to |t.operations|
      invariant forall j | 0 <= j < i :: ConditionMatches(s, t.operations[j])
    {
      if !ConditionMatches(s, t.operations[i]) {
        return Some(Refused);
      }
    }
    return None;
  }

  /** The change one operation makes, with no condition checked and the revision untouched. */
  function Apply<K, V>(s: Store<K, V>, operation: Operation<K, V>): Store<K, V> {
    match operation
    case Check(_, _) => s
    case Put(key, _, value) => s.(entries := s.entries[key := value])
    case Delete(key, _) => s.(entries := s.entries - {key})
    case ForgetReceipt(transaction, _) => s.(receipts := s.receipts - {transaction})
  }

  function ApplyAll<K, V>(s: Store<K, V>, operations: seq<Operation<K, V>>): (r: Store<K, V>)
    ensures r.revision == s.revision
    decreases |operations|
  {
    if operations == [] then s else ApplyAll(Apply(s, operations[0]), operations[1..])
  }

  /** The state after the transaction lands: its changes, one revision, its receipt. */
  function Landed<K, V>(s: Store<K, V>, t: Transaction<K, V>): Store<K, V> {
    var changed := ApplyAll(s, t.operations);
    var receipt := CommitReceipt(t.id, t.Digest(), s.revision + 1);
    Store(changed.entries, changed.receipts[t.id := receipt], s.revision + 1)
  }

  predicate Lands<K, V(==)>(s: Store<K, V>, t: Transaction<K, V>) {
    Precheck(s, t).None?
  }

  function Commit<K, V(==)>(s: Store<K, V>, t: Transaction<K, V>): (Store<K, V>, CommitOutcome<K, V>) {
    if Precheck(s, t).Some? then (s, Precheck(s, t).value)
    else (Landed(s, t), Committed(CommitReceipt(t.id, t.Digest(), s.revision + 1)))
  }

  /** `classify_receipt`: the three-way reconcile verdict. */
  function Reconcile<K, V(==)>(s: Store<K, V>, id: TransactionId, digest: OperationDigest<K, V>): ReconcileOutcome<K, V> {
    if id !in s.receipts then ReconciledAborted
    else if s.receipts[id].digest == digest then ReconciledCommitted(s.receipts[id])
    else DigestConflict
  }

  // ---- applying short lists ----

  lemma ApplyOne<K, V>(s: Store<K, V>, a: Operation<K, V>)
    ensures ApplyAll(s, [a]) == Apply(s, a)
  {
    assert [a][1..] == [];
  }

  lemma ApplyTwo<K, V>(s: Store<K, V>, a: Operation<K, V>, b: Operation<K, V>)
    ensures ApplyAll(s, [a, b]) == Apply(Apply(s, a), b)
  {
    assert [a, b][1..] == [b];
    ApplyOne(Apply(s, a), b);
  }

  lemma ApplyThree<K, V>(s: Store<K, V>, a: Operation<K, V>, b: Operation<K, V>, c: Operation<K, V>)
    ensures ApplyAll(s, [a, b, c]) == Apply(Apply(Apply(s, a), b), c)
  {
    assert [a, b, c][1..] == [b, c];
    ApplyTwo(Apply(s, a), b, c);
  }

  lemma ApplyFive<K, V>(s: Store<K, V>, a: Operation<K, V>, b: Operation<K, V>, c: Operation<K, V>, d: Operation<K, V>, f: Operation<K, V>)
    ensures ApplyAll(s, [a, b, c, d, f]) == Apply(Apply(Apply(Apply(Apply(s, a), b), c), d), f)
  {
    var t := Apply(Apply(s, a), b);
    assert [a, b, c, d, f][1..] == [b, c, d, f] && [b, c, d, f][1..] == [c, d, f];
    assert ApplyAll(s, [a, b, c, d, f]) == ApplyAll(Apply(s, a), [b, c, d, f]) == ApplyAll(t, [c, d, f]);
    ApplyThree(t, c, d, f);
  }

  lemma {:induction false} ApplyConcat<K, V>(s: Store<K, V>, a: seq<Operation<K, V>>, b: seq<Operation<K, V>>)
    ensures ApplyAll(s, a + b) == ApplyAll(ApplyAll(s, a), b)
    decreases |a|
  {
    if a == [] {
      assert a + b == b;
    } else {
      assert (a + b)[1..] == a[1..] + b;
      ApplyConcat(Apply(s, a[0]), a[1..], b);
    }
  }

  // ---- distinct operations ----

  datatype Identity<K> = KeyIdentity(key: K) | ReceiptIdentity(transaction: TransactionId)

  function IdentityOf<K, V>(operation: Operation<K, V>): Identity<K> {
    match operation
    case Check(key, _) => KeyIdentity(key)
    case Put(key, _, _) => KeyIdentity(key)
    case Delete(key, _) => KeyIdentity(key)
    case ForgetReceipt(transaction, _) => ReceiptIdentity(transaction)
  }

  ghost predicate PairwiseDistinct<K, V>(operations: seq<Operation<K, V>>) {
    forall i, j | 0 <= i < j < |operations| :: IdentityOf(operations[i]) != IdentityOf(operations[j])
  }

  /** The derived order of the identity enum: keys before receipts. */
  predicate IdentityLe<K>(keyLe: (K, K) -> bool, a: Identity<K>, b: Identity<K>) {
    match (a, b)
    case (KeyIdentity(x), KeyIdentity(y)) => keyLe(x, y)
    case (KeyIdentity(_), ReceiptIdentity(_)) => true
    case (ReceiptIdentity(_), KeyIdentity(_)) => false
    case (ReceiptIdentity(x), ReceiptIdentity(y)) => StringLe(x, y)
  }

  function IdentityOrder<K(!new)>(keyLe: (K, K) -> bool): (le: (Identity<K>, Identity<K>) -> bool)
    requires IsTotalOrder(keyLe)
    ensures IsTotalOrder(le)
  {
    IdentityLeIsTotal(keyLe);
    (a: Identity<K>, b: Identity<K>) => IdentityLe(keyLe, a, b)
  }

  lemma IdentityLeIsTotal<K(!new)>(keyLe: (K, K) -> bool)
    requires IsTotalOrder(keyLe)
    ensures forall a: Identity<K>, b: Identity<K> :: IdentityLe(keyLe, a, b) || IdentityLe(keyLe, b, a)
    ensures forall a: Identity<K>, b: Identity<K> :: IdentityLe(keyLe, a, b) && IdentityLe(keyLe, b, a) ==> a == b
    ensures forall a: Identity<K>, b: Identity<K>, c: Identity<K> ::
              IdentityLe(keyLe, a, b) && IdentityLe(keyLe, b, c) ==> IdentityLe(keyLe, a, c)
  {
    StringOrderIsTotal();
    assert IsTotalOrder(StringLe);
    hide LexLe, StringLe;
  }

  ghost predicate NoRepeats<T>(s: seq<T>) {
    forall i, j | 0 <= i < j < |s| :: s[i] != s[j]
  }

  /** A list has as many elements as entries exactly when nothing repeats. */
  lemma {:induction false} DistinctCount<T>(s: seq<T>)
    ensures |Elements(s)| <= |s| && (|Elements(s)| == |s| <==> NoRepeats(s))
    decreases |s|
  {
    if s == [] {
      assert Elements(s) == {};
    } else {
      DistinctCount(s[1..]);
      HeadRepeats(s);
      hide NoRepeats, Elements;
    }
  }

  lemma HeadRepeats<T>(s: seq<T>)
    requires s != []
    ensures NoRepeats(s) <==> s[0] !in s[1..] && NoRepeats(s[1..])
    ensures Elements(s) == {s[0]} + Elements(s[1..]) && (s[0] in Elements(s[1..]) <==> s[0] in s[1..])
  {
    assert s == [s[0]] + s[1..];
    assert forall i | 0 <= i < |s[1..]| :: s[1..][i] == s[i + 1];
    if NoRepeats(s[1..]) && s[0] !in s[1..] {
      forall i, j | 0 <= i < j < |s| ensures s[i] != s[j] {
        assert s[j] == s[1..][j - 1];
        assert i > 0 ==> s[i] == s[1..][i - 1];
      }
    }
  }

  lemma {:induction false} NoRepeatsIsMultiplicity<T>(s: seq<T>)
    ensures NoRepeats(s) <==> forall x :: multiset(s)[x] <= 1
  {
    if s != [] {
      var x, rest := s[0], s[1..];
      NoRepeatsIsMultiplicity(rest);
      assert s == [x] + rest;
      assert multiset(s) == multiset{x} + multiset(rest);
      assert x in rest <==> multiset(rest)[x] >= 1;
      if NoRepeats(s) {
        assert forall i | 0 <= i < |rest| :: rest[i] == s[i + 1];
      } else {
        var i, j :| 0 <= i < j < |s| && s[i] == s[j];
        if i == 0 {
          assert rest[j - 1] == x;
          assert multiset(s)[x] > 1;
        } else {
          assert rest[i - 1] == rest[j - 1];
          var y :| multiset(rest)[y] > 1;
          assert multiset(s)[y] > 1;
        }
      }
    }
  }

  lemma RepeatsSurviveRearranging<T>(a: seq<T>, b: seq<T>)
    requires multiset(a) == multiset(b)
    ensures NoRepeats(a) <==> NoRepeats(b)
  {
    NoRepeatsIsMultiplicity(a);
    NoRepeatsIsMultiplicity(b);
  }

  lemma SortedRepeatsAreNeighbours<T(!new)>(le: (T, T) -> bool, s: seq<T>)
    requires IsTotalOrder(le) && Sorted(le, s)
    requires forall i | 0 <= i < |s| - 1 :: s[i] != s[i + 1]
    ensures NoRepeats(s)
  {
    forall i, j | 0 <= i < j < |s| ensures s[i] != s[j] {
      assert le(s[i], s[i + 1]) && (i + 1 == j || le(s[i + 1], s[j]));
    }
  }

  /** `validate_distinct_operations`: sorting and comparing neighbours accepts exactly the lists
      whose operations are pairwise distinct. */
  method ValidateDistinctOperations<K(!new, ==), V>(operations: seq<Operation<K, V>>, keyLe: (K, K) -> bool)
    returns (ok: bool)
    requires IsTotalOrder(keyLe)
    ensures ok <==> PairwiseDistinct(operations)
  {
    var identities: seq<Identity<K>> := [];
    for i := 0 to |operations|
      invariant |identities| == i
      invariant forall j | 0 <= j < i :: identities[j] == IdentityOf(operations[j])
    {
      identities := identities + [IdentityOf(operations[i])];
    }
    var order := IdentityOrder(keyLe);
    var sorted := Sort(order, identities);
    SortSorts(order, identities);
    RepeatsSurviveRearranging(sorted, identities);
    assert NoRepeats(identities) <==> PairwiseDistinct(operations);
    var i := 0;
    while i + 1 < |sorted|
      invariant i == 0 || i < |sorted|
      invariant forall j | 0 <= j < i :: sorted[j] != sorted[j + 1]
    {
      if sorted[i] == sorted[i + 1] {
        return false;
      }
      i := i + 1;
    }
    SortedRepeatsAreNeighbours(order, sorted);
    return true;
  }
}
