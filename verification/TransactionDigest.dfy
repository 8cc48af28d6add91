/**
 The byte string a transaction's operation digest hashes.  It is injective: it determines the
 base revision and the whole operation list, across the four operation kinds and both
 expectation kinds, although most fields have variable length.
 */
module TransactionDigest {
  import opened Ordering

  type Bytes = seq<Byte>

  /** A SHA-256 digest. */
  type Digest = d: Bytes | |d| == 32 witness seq(32, i => 0)

  datatype Expectation = Absent | Exact(digest: Digest)

  datatype StoreOperation =
    | Check(namespace: Bytes, key: Bytes, expected: Expectation)
    | Put(namespace: Bytes, key: Bytes, expected: Expectation, value: Bytes)
    | Delete(namespace: Bytes, key: Bytes, pinned: Digest)
    | ForgetReceipt(transaction: Bytes, digest: Digest)

  const STORE_TRANSACTION_DOMAIN: Bytes := // "radiata/store-transaction/v1\0"
    [114, 97, 100, 105, 97, 116, 97, 47, 115, 116, 111, 114, 101, 45, 116, 114, 97, 110, 115, 97, 99,
     116, 105, 111, 110, 47, 118, 49, 0]

  // ---- lengths ----

  function Power256(width: nat): (p: nat)
    ensures p > 0
  {
    if width == 0 then 1 else 256 * Power256(width - 1)
  }

  /** `to_be_bytes` at a given width. */
  function BigEndian(n: nat, width: nat): (bytes: Bytes)
    ensures |bytes| == width
  {
    if width == 0 then [] else BigEndian(n / 256, width - 1) + [n % 256]
  }

  lemma {:induction false} BigEndianInjective(a: nat, b: nat, width: nat)
    requires a < Power256(width) && b < Power256(width)
    requires BigEndian(a, width) == BigEndian(b, width)
    ensures a == b
  {
    if width > 0 {
      var x, y := BigEndian(a / 256, width - 1), BigEndian(b / 256, width - 1);
      assert (x + [a % 256])[..width - 1] == x && (y + [b % 256])[..width - 1] == y;
      assert (x + [a % 256])[width - 1] == a % 256 && (y + [b % 256])[width - 1] == b % 256;
      BigEndianInjective(a / 256, b / 256, width - 1);
    }
  }

  lemma {:induction false} Power256Grows(low: nat, high: nat)
    requires low <= high
    ensures Power256(low) <= Power256(high)
  {
    if low < high {
      Power256Grows(low, high - 1);
    }
  }

  const USIZE_BYTES := 8
  const LENGTH_BYTES := 16

  /** A length the program can hold in a `usize`. */
  predicate Sized<T>(s: seq<T>) {
    |s| < Power256(USIZE_BYTES)
  }

  function LengthBytes(n: nat): (bytes: Bytes)
    ensures |bytes| == LENGTH_BYTES
  {
    BigEndian(n, LENGTH_BYTES)
  }

  lemma LengthInjective<T>(a: seq<T>, b: seq<T>)
    requires Sized(a) && Sized(b) && LengthBytes(|a|) == LengthBytes(|b|)
    ensures |a| == |b|
  {
    Power256Grows(USIZE_BYTES, LENGTH_BYTES);
    BigEndianInjective(|a|, |b|, LENGTH_BYTES);
  }

  // ---- the byte string ----

  function FieldBytes(value: Bytes): Bytes {
    LengthBytes(|value|) + value
  }

  function ExpectationBytes(expected: Expectation): Bytes {
    match expected
    case Absent => [0]
    case Exact(digest) => [1] + digest
  }

  function NamespaceAndKeyBytes(namespace: Bytes, key: Bytes): Bytes {
    FieldBytes(namespace) + FieldBytes(key)
  }

  function KindByte(operation: StoreOperation): Byte {
    match operation
    case Check(_, _, _) => 0
    case Put(_, _, _, _) => 1
    case Delete(_, _, _) => 2
    case ForgetReceipt(_, _) => 3
  }

  function BodyBytes(operation: StoreOperation): Bytes {
    match operation
    case Check(namespace, key, expected) => NamespaceAndKeyBytes(namespace, key) + ExpectationBytes(expected)
    case Put(namespace, key, expected, value) =>
      NamespaceAndKeyBytes(namespace, key) + ExpectationBytes(expected) + FieldBytes(value)
    case Delete(namespace, key, pinned) => NamespaceAndKeyBytes(namespace, key) + pinned
    case ForgetReceipt(transaction, digest) => FieldBytes(transaction) + digest
  }

  function OperationBytes(operation: StoreOperation): Bytes {
    [KindByte(operation)] + BodyBytes(operation)
  }

  function ListBytes(operations: seq<StoreOperation>): Bytes {
    if operations == [] then [] else OperationBytes(operations[0]) + ListBytes(operations[1..])
  }

  function Preimage(base: Bytes, operations: seq<StoreOperation>): Bytes {
    STORE_TRANSACTION_DOMAIN + (FieldBytes(base) + (LengthBytes(|operations|) + ListBytes(operations)))
  }

  predicate SizedOperation(operation: StoreOperation) {
    match operation
    case Check(namespace, key, _) => Sized(namespace) && Sized(key)
    case Put(namespace, key, _, value) => Sized(namespace) && Sized(key) && Sized(value)
    case Delete(namespace, key, _) => Sized(namespace) && Sized(key)
    case ForgetReceipt(transaction, _) => Sized(transaction)
  }

  // ---- each part can be cut off the front again ----

  lemma FrontSplits(a: Bytes, x: Bytes, b: Bytes, y: Bytes)
    requires |a| == |b| && a + x == b + y
    ensures a == b && x == y
  {
    assert (a + x)[..|a|] == a && (b + y)[..|a|] == b;
    assert (a + x)[|a|..] == x && (b + y)[|a|..] == y;
  }

  lemma FieldSplits(a: Bytes, x: Bytes, b: Bytes, y: Bytes)
    requires Sized(a) && Sized(b)
    requires FieldBytes(a) + x == FieldBytes(b) + y
    ensures a == b && x == y
  {
    assert FieldBytes(a) + x == LengthBytes(|a|) + (a + x);
    assert FieldBytes(b) + y == LengthBytes(|b|) + (b + y);
    FrontSplits(LengthBytes(|a|), a + x, LengthBytes(|b|), b + y);
    LengthInjective(a, b);
    FrontSplits(a, x, b, y);
  }

  lemma ExpectationSplits(a: Expectation, x: Bytes, b: Expectation, y: Bytes)
    requires ExpectationBytes(a) + x == ExpectationBytes(b) + y
    ensures a == b && x == y
  {
    assert (ExpectationBytes(a) + x)[0] == ExpectationBytes(a)[0];
    assert (ExpectationBytes(b) + y)[0] == ExpectationBytes(b)[0];
    FrontSplits(ExpectationBytes(a), x, ExpectationBytes(b), y);
    if a.Exact? && b.Exact? {
      assert a.digest == ([1] + a.digest)[1..] && b.digest == ([1] + b.digest)[1..];
    }
  }

  lemma NamespaceAndKeySplit(a: Bytes, k: Bytes, x: Bytes, b: Bytes, l: Bytes, y: Bytes)
    requires Sized(a) && Sized(b) && Sized(k) && Sized(l)
    requires NamespaceAndKeyBytes(a, k) + x == NamespaceAndKeyBytes(b, l) + y
    ensures a == b && k == l && x == y
  {
    hide FieldBytes, Sized;
    assert NamespaceAndKeyBytes(a, k) + x == FieldBytes(a) + (FieldBytes(k) + x);
    assert NamespaceAndKeyBytes(b, l) + y == FieldBytes(b) + (FieldBytes(l) + y);
    FieldSplits(a, FieldBytes(k) + x, b, FieldBytes(l) + y);
    FieldSplits(k, x, l, y);
  }

  lemma PutSplits(a: StoreOperation, x: Bytes, b: StoreOperation, y: Bytes)
    requires a.Put? && b.Put? && SizedOperation(a) && SizedOperation(b)
    requires BodyBytes(a) + x == BodyBytes(b) + y
    ensures a == b && x == y
  {
    hide FieldBytes, ExpectationBytes, NamespaceAndKeyBytes, Sized;
    var p := ExpectationBytes(a.expected) + (FieldBytes(a.value) + x);
    var q := ExpectationBytes(b.expected) + (FieldBytes(b.value) + y);
    assert BodyBytes(a) + x == NamespaceAndKeyBytes(a.namespace, a.key) + p;
    assert BodyBytes(b) + y == NamespaceAndKeyBytes(b.namespace, b.key) + q;
    NamespaceAndKeySplit(a.namespace, a.key, p, b.namespace, b.key, q);
    ExpectationSplits(a.expected, FieldBytes(a.value) + x, b.expected, FieldBytes(b.value) + y);
    FieldSplits(a.value, x, b.value, y);
  }

  lemma CheckSplits(a: StoreOperation, x: Bytes, b: StoreOperation, y: Bytes)
    requires a.Check? && b.Check? && SizedOperation(a) && SizedOperation(b)
    requires BodyBytes(a) + x == BodyBytes(b) + y
    ensures a == b && x == y
  {
    hide ExpectationBytes, NamespaceAndKeyBytes, Sized;
    var p, q := ExpectationBytes(a.expected) + x, ExpectationBytes(b.expected) + y;
    assert BodyBytes(a) + x == NamespaceAndKeyBytes(a.namespace, a.key) + p;
    assert BodyBytes(b) + y == NamespaceAndKeyBytes(b.namespace, b.key) + q;
    NamespaceAndKeySplit(a.namespace, a.key, p, b.namespace, b.key, q);
    ExpectationSplits(a.expected, x, b.expected, y);
  }

  lemma DeleteSplits(a: StoreOperation, x: Bytes, b: StoreOperation, y: Bytes)
    requires a.Delete? && b.Delete? && SizedOperation(a) && SizedOperation(b)
    requires BodyBytes(a) + x == BodyBytes(b) + y
    ensures a == b && x == y
  {
    hide NamespaceAndKeyBytes, Sized;
    assert BodyBytes(a) + x == NamespaceAndKeyBytes(a.namespace, a.key) + (a.pinned + x);
    assert BodyBytes(b) + y == NamespaceAndKeyBytes(b.namespace, b.key) + (b.pinned + y);
    NamespaceAndKeySplit(a.namespace, a.key, a.pinned + x, b.namespace, b.key, b.pinned + y);
    FrontSplits(a.pinned, x, b.pinned, y);
  }

  lemma ForgetSplits(a: StoreOperation, x: Bytes, b: StoreOperation, y: Bytes)
    requires a.ForgetReceipt? && b.ForgetReceipt? && SizedOperation(a) && SizedOperation(b)
    requires BodyBytes(a) + x == BodyBytes(b) + y
    ensures a == b && x == y
  {
    hide FieldBytes, Sized;
    assert BodyBytes(a) + x == FieldBytes(a.transaction) + (a.digest + x);
    assert BodyBytes(b) + y == FieldBytes(b.transaction) + (b.digest + y);
    FieldSplits(a.transaction, a.digest + x, b.transaction, b.digest + y);
    FrontSplits(a.digest, x, b.digest, y);
  }

  /** One operation's bytes can be cut off the front of any continuation, uniquely. */
  lemma OperationSplits(a: StoreOperation, x: Bytes, b: StoreOperation, y: Bytes)
    requires SizedOperation(a) && SizedOperation(b)
    requires OperationBytes(a) + x == OperationBytes(b) + y
    ensures a == b && x == y
  {
    hide BodyBytes, SizedOperation;
    assert OperationBytes(a) + x == [KindByte(a)] + (BodyBytes(a) + x);
    assert OperationBytes(b) + y == [KindByte(b)] + (BodyBytes(b) + y);
    FrontSplits([KindByte(a)], BodyBytes(a) + x, [KindByte(b)], BodyBytes(b) + y);
    assert KindByte(a) == [KindByte(a)][0] == [KindByte(b)][0] == KindByte(b);
    match a {
      case Check(_, _, _) => CheckSplits(a, x, b, y);
      case Put(_, _, _, _) => PutSplits(a, x, b, y);
      case Delete(_, _, _) => DeleteSplits(a, x, b, y);
      case ForgetReceipt(_, _) => ForgetSplits(a, x, b, y);
    }
  }

  lemma {:induction false} ListInjective(a: seq<StoreOperation>, b: seq<StoreOperation>)
    requires |a| == |b| && ListBytes(a) == ListBytes(b)
    requires forall op | op in a :: SizedOperation(op)
    requires forall op | op in b :: SizedOperation(op)
    ensures a == b
  {
    hide OperationBytes, SizedOperation;
    if a != [] {
      OperationSplits(a[0], ListBytes(a[1..]), b[0], ListBytes(b[1..]));
      ListInjective(a[1..], b[1..]);
      assert a == [a[0]] + a[1..] && b == [b[0]] + b[1..];
    }
  }

  /** The hashed byte string determines the transaction. */
  lemma PreimageInjective(base: Bytes, a: seq<StoreOperation>, other: Bytes, b: seq<StoreOperation>)
    requires Sized(base) && Sized(other) && Sized(a) && Sized(b)
    requires forall op | op in a :: SizedOperation(op)
    requires forall op | op in b :: SizedOperation(op)
    ensures Preimage(base, a) == Preimage(other, b) <==> base == other && a == b
  {
    if Preimage(base, a) == Preimage(other, b) {
      var x, y := LengthBytes(|a|) + ListBytes(a), LengthBytes(|b|) + ListBytes(b);
      FrontSplits(STORE_TRANSACTION_DOMAIN, FieldBytes(base) + x, STORE_TRANSACTION_DOMAIN, FieldBytes(other) + y);
      FieldSplits(base, x, other, y);
      FrontSplits(LengthBytes(|a|), ListBytes(a), LengthBytes(|b|), ListBytes(b));
      LengthInjective(a, b);
      ListInjective(a, b);
    }
  }

  /** The layout of each kind: its tag, then its fields in order, the variable ones with their lengths. */
  lemma OperationLayout(namespace: Bytes, key: Bytes, value: Bytes, digest: Digest)
    ensures OperationBytes(Check(namespace, key, Absent)) == [0] + (FieldBytes(namespace) + FieldBytes(key) + [0])
    ensures OperationBytes(Check(namespace, key, Exact(digest))) == [0] + (FieldBytes(namespace) + FieldBytes(key) + ([1] + digest))
    ensures OperationBytes(Put(namespace, key, Absent, value)) == [1] + (FieldBytes(namespace) + FieldBytes(key) + [0] + FieldBytes(value))
    ensures OperationBytes(Delete(namespace, key, digest)) == [2] + (FieldBytes(namespace) + FieldBytes(key) + digest)
    ensures OperationBytes(ForgetReceipt(value, digest)) == [3] + (FieldBytes(value) + digest)
  {
    hide FieldBytes;
  }

  // ---- the hasher loop ----

  /** The streaming hasher, by the bytes it has absorbed. */
  class Hasher {
    var absorbed: Bytes

    constructor ()
      ensures absorbed == []
    {
      absorbed := [];
    }

    method Update(bytes: Bytes)
      modifies this
      ensures absorbed == old(absorbed) + bytes
    {
      absorbed := absorbed + bytes;
    }

    method UpdateBytes(value: Bytes)
      modifies this
      ensures absorbed == old(absorbed) + FieldBytes(value)
    {
      Update(LengthBytes(|value|));
      Update(value);
    }

    method UpdateExpectation(expected: Expectation)
      modifies this
      ensures absorbed == old(absorbed) + ExpectationBytes(expected)
    {
      match expected {
        case Absent => Update([0]);
        case Exact(digest) =>
          Update([1]);
          Update(digest);
      }
    }

    method UpdateNamespaceAndKey(namespace: Bytes, key: Bytes)
      modifies this
      ensures absorbed == old(absorbed) + NamespaceAndKeyBytes(namespace, key)
    {
      hide FieldBytes;
      UpdateBytes(namespace);
      UpdateBytes(key);
    }

    method UpdateOperation(operation: StoreOperation)
      modifies this
      ensures absorbed == old(absorbed) + OperationBytes(operation)
    {
      hide BodyBytes;
      ghost var start := absorbed;
      Update([KindByte(operation)]);
      UpdateBody(operation);
      assert absorbed == start + ([KindByte(operation)] + BodyBytes(operation));
    }

    method UpdateBody(operation: StoreOperation)
      modifies this
      ensures absorbed == old(absorbed) + BodyBytes(operation)
    {
      hide FieldBytes, ExpectationBytes, NamespaceAndKeyBytes;
      ghost var start := absorbed;
      match operation {
        case Check(namespace, key, expected) =>
          UpdateNamespaceAndKey(namespace, key);
          UpdateExpectation(expected);
        case Put(namespace, key, expected, value) =>
          UpdateNamespaceAndKey(namespace, key);
          UpdateExpectation(expected);
          UpdateBytes(value);
        case Delete(namespace, key, pinned) =>
          UpdateNamespaceAndKey(namespace, key);
          Update(pinned);
        case ForgetReceipt(transaction, digest) =>
          UpdateBytes(transaction);
          Update(digest);
      }
      assert absorbed == start + BodyBytes(operation);
    }
  }

  lemma {:induction false} ListBytesAppend(a: seq<StoreOperation>, op: StoreOperation)
    ensures ListBytes(a + [op]) == ListBytes(a) + OperationBytes(op)
  {
    hide OperationBytes, ListBytes;
    if a == [] {
      assert a + [op] == [op] && [op][1..] == [];
      ListBytesUnfolds([op]);
      ListBytesUnfolds(a);
    } else {
      ListBytesAppend(a[1..], op);
      assert (a + [op])[1..] == a[1..] + [op] && (a + [op])[0] == a[0];
      ListBytesUnfolds(a + [op]);
      ListBytesUnfolds(a);
    }
  }

  lemma ListBytesUnfolds(operations: seq<StoreOperation>)
    ensures operations == [] ==> ListBytes(operations) == []
    ensures operations != [] ==> ListBytes(operations) == OperationBytes(operations[0]) + ListBytes(operations[1..])
  {
  }

  /** `digest_store_operations` feeds the hasher exactly `Preimage`. */
  method AbsorbTransaction(base: Bytes, operations: seq<StoreOperation>) returns (absorbed: Bytes)
    ensures absorbed == Preimage(base, operations)
  {
    hide FieldBytes, OperationBytes;
    var hasher := new Hasher();
    hasher.Update(STORE_TRANSACTION_DOMAIN);
    hasher.UpdateBytes(base);
    hasher.Update(LengthBytes(|operations|));
    var head := STORE_TRANSACTION_DOMAIN + (FieldBytes(base) + LengthBytes(|operations|));
    assert hasher.absorbed == head + ListBytes(operations[..0]);
    for i := 0 to |operations|
      invariant hasher.absorbed == head + ListBytes(operations[..i])
    {
      hasher.UpdateOperation(operations[i]);
      assert operations[..i + 1] == operations[..i] + [operations[i]];
      ListBytesAppend(operations[..i], operations[i]);
    }
    assert operations[..|operations|] == operations;
    absorbed := hasher.absorbed;
  }
}
