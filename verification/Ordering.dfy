/**
 Total orders, lexicographic order, and the sort-then-deduplicate normal form that the
 selector's canonical text, the operation-identity check and the ordered scans all use.
 */
module Ordering {

  ghost predicate IsTotalOrder<T(!new)>(le: (T, T) -> bool) {
    && (forall a, b :: le(a, b) || le(b, a))
    && (forall a, b :: le(a, b) && le(b, a) ==> a == b)
    && (forall a, b, c :: le(a, b) && le(b, c) ==> le(a, c))
  }

  predicate CharLe(a: char, b: char) {
    a <= b
  }

  type Byte = b: int | 0 <= b < 256

  predicate ByteLe(a: Byte, b: Byte) {
    a <= b
  }

  /** Lexicographic order: Rust's order on `str` (by scalar value) and on `[u8]`. */
  predicate LexLe<T(==)>(le: (T, T) -> bool, a: seq<T>, b: seq<T>) {
    if a == [] then true
    else if b == [] then false
    else if a[0] == b[0] then LexLe(le, a[1..], b[1..])
    else le(a[0], b[0])
  }

  predicate StringLe(a: string, b: string) {
    LexLe(CharLe, a, b)
  }

  predicate BytesLe(a: seq<Byte>, b: seq<Byte>) {
    LexLe(ByteLe, a, b)
  }

  lemma LexTotal<T(!new)>(le: (T, T) -> bool, a: seq<T>, b: seq<T>)
    requires IsTotalOrder(le)
    ensures LexLe(le, a, b) || LexLe(le, b, a)
  {
  }

  lemma {:induction false} LexAntisymmetric<T(!new)>(le: (T, T) -> bool, a: seq<T>, b: seq<T>)
    requires IsTotalOrder(le)
    requires LexLe(le, a, b) && LexLe(le, b, a)
    ensures a == b
  {
    if a != [] && b != [] && a[0] == b[0] {
      LexAntisymmetric(le, a[1..], b[1..]);
      assert a == [a[0]] + a[1..] && b == [b[0]] + b[1..];
    }
  }

  lemma {:induction false} LexTransitive<T(!new)>(le: (T, T) -> bool, a: seq<T>, b: seq<T>, c: seq<T>)
    requires IsTotalOrder(le)
    requires LexLe(le, a, b) && LexLe(le, b, c)
    ensures LexLe(le, a, c)
  {
    if a != [] && b != [] && c != [] && a[0] == b[0] == c[0] {
      LexTransitive(le, a[1..], b[1..], c[1..]);
    }
  }

  lemma StringOrderIsTotal()
    ensures IsTotalOrder(StringLe)
  {
    assert IsTotalOrder(CharLe);
    forall a: string, b: string ensures StringLe(a, b) || StringLe(b, a) {
      LexTotal(CharLe, a, b);
    }
    forall a: string, b: string | StringLe(a, b) && StringLe(b, a) ensures a == b {
      LexAntisymmetric(CharLe, a, b);
    }
    forall a: string, b: string, c: string | StringLe(a, b) && StringLe(b, c) ensures StringLe(a, c) {
      LexTransitive(CharLe, a, b, c);
    }
  }

  lemma BytesOrderIsTotal()
    ensures IsTotalOrder(BytesLe)
  {
    assert IsTotalOrder(ByteLe);
    forall a: seq<Byte>, b: seq<Byte> ensures BytesLe(a, b) || BytesLe(b, a) {
      LexTotal(ByteLe, a, b);
    }
    forall a: seq<Byte>, b: seq<Byte> | BytesLe(a, b) && BytesLe(b, a) ensures a == b {
      LexAntisymmetric(ByteLe, a, b);
    }
    forall a: seq<Byte>, b: seq<Byte>, c: seq<Byte> | BytesLe(a, b) && BytesLe(b, c) ensures BytesLe(a, c) {
      LexTransitive(ByteLe, a, b, c);
    }
  }

  ghost predicate Sorted<T>(le: (T, T) -> bool, s: seq<T>) {
    forall i, j | 0 <= i < j < |s| :: le(s[i], s[j])
  }

  /** Sorted with no repeats. */
  ghost predicate Strict<T>(le: (T, T) -> bool, s: seq<T>) {
    forall i, j | 0 <= i < j < |s| :: le(s[i], s[j]) && s[i] != s[j]
  }

  function Elements<T>(s: seq<T>): set<T> {
    set x | x in s
  }

  function Insert<T>(le: (T, T) -> bool, x: T, s: seq<T>): (r: seq<T>)
    ensures multiset(r) == multiset{x} + multiset(s)
  {
    if s == [] then [x]
    else if le(x, s[0]) then [x] + s
    else
      assert s == [s[0]] + s[1..];
      [s[0]] + Insert(le, x, s[1..])
  }

  /** `sort` and `sort_unstable`, which cannot differ on a total order. */
  function Sort<T>(le: (T, T) -> bool, s: seq<T>): (r: seq<T>)
    ensures multiset(r) == multiset(s)
    ensures |r| == |s|
  {
    if s == [] then []
    else
      assert s == [s[0]] + s[1..];
      var r := Insert(le, s[0], Sort(le, s[1..]));
      MultisetLength(r, s);
      r
  }

  lemma MultisetLength<T>(a: seq<T>, b: seq<T>)
    requires multiset(a) == multiset(b)
    ensures |a| == |b|
  {
    assert |multiset(a)| == |a| && |multiset(b)| == |b|;
  }

  lemma {:induction false} InsertKeepsSorted<T(!new)>(le: (T, T) -> bool, x: T, s: seq<T>)
    requires IsTotalOrder(le) && Sorted(le, s)
    ensures Sorted(le, Insert(le, x, s))
  {
    if s != [] && !le(x, s[0]) {
      InsertKeepsSorted(le, x, s[1..]);
      var rest := Insert(le, x, s[1..]);
      assert s == [s[0]] + s[1..];
      forall y | y in rest ensures le(s[0], y) {
        assert y in multiset(rest);
        assert y == x || y in s[1..];
      }
      assert Insert(le, x, s) == [s[0]] + rest;
    }
  }

  lemma {:induction false} SortSorts<T(!new)>(le: (T, T) -> bool, s: seq<T>)
    requires IsTotalOrder(le)
    ensures Sorted(le, Sort(le, s))
  {
    if s != [] {
      SortSorts(le, s[1..]);
      InsertKeepsSorted(le, s[0], Sort(le, s[1..]));
    }
  }

  lemma SameMultisetSameElements<T>(a: seq<T>, b: seq<T>)
    requires multiset(a) == multiset(b)
    ensures Elements(a) == Elements(b)
  {
    forall x ensures x in a <==> x in b {
      assert x in a <==> x in multiset(a);
      assert x in b <==> x in multiset(b);
    }
  }

  /** `Vec::dedup`: keeps the first of every run of equal neighbours. */
  function Dedup<T(==)>(s: seq<T>): (r: seq<T>)
    ensures |r| <= |s|
    ensures s != [] ==> r != [] && r[0] == s[0]
  {
    if |s| <= 1 then s
    else if s[0] == s[1] then Dedup(s[1..])
    else [s[0]] + Dedup(s[1..])
  }

  lemma {:induction false} DedupSorted<T(!new)>(le: (T, T) -> bool, s: seq<T>)
    requires IsTotalOrder(le) && Sorted(le, s)
    ensures Strict(le, Dedup(s))
    ensures Elements(Dedup(s)) == Elements(s)
  {
    if |s| > 1 {
      DedupSorted(le, s[1..]);
      var rest := Dedup(s[1..]);
      assert s == [s[0]] + s[1..];
      assert Elements(s) == {s[0]} + Elements(s[1..]);
      if s[0] != s[1] {
        forall y | y in rest ensures le(s[0], y) && y != s[0] {
          assert y in Elements(rest) && y in s[1..];
          assert le(s[0], y) && le(s[1], y);
        }
        assert Elements(Dedup(s)) == {s[0]} + Elements(rest);
      } else {
        assert s[0] in s[1..];
      }
    }
  }

  lemma NonEmptyHasElements<T>(s: seq<T>)
    ensures s != [] ==> Elements(s) != {}
  {
    if s != [] {
      assert s[0] in Elements(s);
    }
  }

  /** Two strictly sorted sequences with the same elements are the same sequence. */
  lemma {:induction false} StrictIsUnique<T(!new)>(le: (T, T) -> bool, a: seq<T>, b: seq<T>)
    requires IsTotalOrder(le) && Strict(le, a) && Strict(le, b)
    requires Elements(a) == Elements(b)
    ensures a == b
  {
    if a == [] {
      NonEmptyHasElements(b);
    } else {
      assert a[0] in Elements(a);
      assert a[0] in b;
      assert b[0] in Elements(b);
      assert b[0] in a;
      assert le(a[0], b[0]) && le(b[0], a[0]);
      forall x ensures x in a[1..] <==> x in b[1..] {
        if x in a[1..] { assert x in Elements(a); assert x in b; assert x != a[0]; }
        if x in b[1..] { assert x in Elements(b); assert x in a; assert x != b[0]; }
      }
      assert Elements(a[1..]) == Elements(b[1..]);
      StrictIsUnique(le, a[1..], b[1..]);
      assert a == [a[0]] + a[1..] && b == [b[0]] + b[1..];
    }
  }

  /** The normal form of a list read as a set: sorted, duplicates removed. */
  function Normal<T(==)>(le: (T, T) -> bool, s: seq<T>): (r: seq<T>)
    ensures |r| <= |s|
    ensures s != [] ==> r != []
  {
    Dedup(Sort(le, s))
  }

  lemma NormalIsStrict<T(!new)>(le: (T, T) -> bool, s: seq<T>)
    requires IsTotalOrder(le)
    ensures Strict(le, Normal(le, s))
    ensures Elements(Normal(le, s)) == Elements(s)
  {
    SortSorts(le, s);
    DedupSorted(le, Sort(le, s));
    SameMultisetSameElements(Sort(le, s), s);
  }

  lemma NormalOfStrict<T(!new)>(le: (T, T) -> bool, s: seq<T>)
    requires IsTotalOrder(le) && Strict(le, s)
    ensures Normal(le, s) == s
  {
    NormalIsStrict(le, s);
    StrictIsUnique(le, Normal(le, s), s);
  }

  /** The normal form is a complete invariant of the element set. */
  lemma NormalIdentifiesSets<T(!new)>(le: (T, T) -> bool, a: seq<T>, b: seq<T>)
    requires IsTotalOrder(le)
    ensures Normal(le, a) == Normal(le, b) <==> Elements(a) == Elements(b)
  {
    NormalIsStrict(le, a);
    NormalIsStrict(le, b);
    if Elements(a) == Elements(b) {
      StrictIsUnique(le, Normal(le, a), Normal(le, b));
    }
  }
}
