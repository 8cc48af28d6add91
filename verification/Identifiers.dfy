/**
 Identifier suffixes: fixed-width big-endian base 36, and task ids, composed from a masked base
 and an admission counter.
 */
module Identifiers {
  import opened Arithmetic
  import opened Ordering
  import opened Results

  const SUFFIX_LENGTH := 21
  const TASK_COUNTER_BITS := 40

  function Pow(b: nat, e: nat): (p: nat)
    requires b > 0
    ensures p > 0
  {
    if e == 0 then 1 else b * Pow(b, e - 1)
  }

  // ---- digits ----

  function Alphabet(digit: nat): char
    requires digit < 36
  {
    if digit < 10 then '0' + digit as char else 'a' + (digit - 10) as char
  }

  predicate IsSuffixChar(c: char) {
    '0' <= c <= '9' || 'a' <= c <= 'z'
  }

  function DigitOf(c: char): (digit: nat)
    requires IsSuffixChar(c)
    ensures digit < 36 && Alphabet(digit) == c
  {
    if c <= '9' then (c - '0') as nat else (c - 'a') as nat + 10
  }

  lemma AlphabetIsOrdered(a: nat, b: nat)
    requires a < 36 && b < 36
    ensures IsSuffixChar(Alphabet(a)) && DigitOf(Alphabet(a)) == a
    ensures a < b <==> Alphabet(a) < Alphabet(b)
  {
  }

  // ---- suffixes ----

  /** The last `n` base-36 digits of a value, most significant first. */
  function Suffix(value: nat, n: nat): (s: string)
    ensures |s| == n
  {
    if n == 0 then "" else Suffix(value / 36, n - 1) + [Alphabet(value % 36)]
  }

  ghost predicate IsSuffix(s: string) {
    forall i | 0 <= i < |s| :: IsSuffixChar(s[i])
  }

  function Value(s: string): nat
    requires IsSuffix(s)
    decreases |s|
  {
    if s == "" then 0 else Value(s[..|s| - 1]) * 36 + DigitOf(s[|s| - 1])
  }

  /** The program fills the array from the back while dividing the value. */
  method EncodeSuffix(value: nat) returns (suffix: string)
    ensures suffix == Suffix(value, SUFFIX_LENGTH)
  {
    var digits := new char[SUFFIX_LENGTH];
    var index, rest := SUFFIX_LENGTH, value;
    while index > 0
      invariant 0 <= index <= SUFFIX_LENGTH
      invariant Suffix(value, SUFFIX_LENGTH) == Suffix(rest, index) + digits[index..]
    {
      index := index - 1;
      ghost var later := digits[index + 1..];
      digits[index] := Alphabet(rest % 36);
      assert digits[index..] == [digits[index]] + later;
      assert Suffix(rest, index + 1) == Suffix(rest / 36, index) + [Alphabet(rest % 36)];
      rest := rest / 36;
    }
    return digits[..];
  }

  /** Decoding an encoded value gives it back, reduced to the suffix space. */
  lemma {:induction false} DecodeEncode(value: nat, n: nat)
    ensures IsSuffix(Suffix(value, n))
    ensures value < Pow(36, n) ==> Value(Suffix(value, n)) == value
    decreases n
  {
    if n > 0 {
      AlphabetIsOrdered(value % 36, 0);
      DecodeEncode(value / 36, n - 1);
      var s := Suffix(value, n);
      assert s[..n - 1] == Suffix(value / 36, n - 1);
      assert s[n - 1] == Alphabet(value % 36);
    }
  }

  /** Encoding a decoded suffix gives it back, so the two are a bijection. */
  lemma {:induction false} EncodeDecode(s: string)
    requires IsSuffix(s)
    ensures Value(s) < Pow(36, |s|) && Suffix(Value(s), |s|) == s
    decreases |s|
  {
    if s != "" {
      var before := s[..|s| - 1];
      EncodeDecode(before);
      var digit := DigitOf(s[|s| - 1]);
      assert (Value(before) * 36 + digit) / 36 == Value(before);
      assert (Value(before) * 36 + digit) % 36 == digit;
      assert s == before + [s[|s| - 1]];
    }
  }

  /** A value survives encoding exactly when it is inside the suffix space; above it digits are lost. */
  lemma RoundTripExactly(value: nat, n: nat)
    ensures IsSuffix(Suffix(value, n)) && (Value(Suffix(value, n)) == value <==> value < Pow(36, n))
  {
    DecodeEncode(value, n);
    EncodeDecode(Suffix(value, n));
  }

  // ---- order ----

  predicate Less(a: string, b: string) {
    StringLe(a, b) && a != b
  }

  lemma {:induction false} LessByLastChar(a: string, b: string, x: char, y: char)
    requires |a| == |b|
    ensures Less(a + [x], b + [y]) <==> Less(a, b) || (a == b && x < y)
    decreases |a|
  {
    if a == "" {
      assert a + [x] == [x] && b + [y] == [y];
      assert [x][1..] == [] && [y][1..] == [];
    } else {
      assert (a + [x])[1..] == a[1..] + [x] && (b + [y])[1..] == b[1..] + [y];
      LessByLastChar(a[1..], b[1..], x, y);
      assert a == [a[0]] + a[1..] && b == [b[0]] + b[1..];
      assert a + [x] == [a[0]] + (a[1..] + [x]) && b + [y] == [b[0]] + (b[1..] + [y]);
    }
  }

  /** Encoding keeps the order of values. */
  lemma {:induction false} EncodingKeepsOrder(v: nat, w: nat, n: nat)
    requires v < Pow(36, n) && w < Pow(36, n)
    ensures v < w <==> Less(Suffix(v, n), Suffix(w, n))
    decreases n
  {
    if n > 0 {
      EncodingKeepsOrder(v / 36, w / 36, n - 1);
      DecodeEncode(v / 36, n - 1);
      DecodeEncode(w / 36, n - 1);
      AlphabetIsOrdered(v % 36, w % 36);
      LessByLastChar(Suffix(v / 36, n - 1), Suffix(w / 36, n - 1), Alphabet(v % 36), Alphabet(w % 36));
    }
  }

  // ---- identifiers ----

  function PrefixedId(prefix: string, value: nat): string {
    prefix + "-" + Suffix(value, SUFFIX_LENGTH)
  }

  /** Exact prefix, one separator, and the suffix alphabet only. */
  predicate ValidId(id: string, prefix: string) {
    && |id| == |prefix| + 1 + SUFFIX_LENGTH && prefix <= id && id[|prefix|] == '-'
    && forall i | |prefix| < i < |id| :: IsSuffixChar(id[i])
  }

  /** The valid identifiers of a family are exactly the composed ones, each from one value. */
  lemma ValidIdsAreTheComposed(id: string, prefix: string)
    ensures ValidId(id, prefix) <==> exists value: nat | value < Pow(36, SUFFIX_LENGTH) :: id == PrefixedId(prefix, value)
  {
    hide Pow, Value;
    if ValidId(id, prefix) {
      var s := id[|prefix| + 1..];
      assert forall i | 0 <= i < |s| :: s[i] == id[|prefix| + 1 + i];
      EncodeDecode(s);
      assert id == prefix + "-" + s;
      assert id == PrefixedId(prefix, Value(s));
    }
    if value: nat :| value < Pow(36, SUFFIX_LENGTH) && id == PrefixedId(prefix, value) {
      DecodeEncode(value, SUFFIX_LENGTH);
      var s := Suffix(value, SUFFIX_LENGTH);
      assert forall i | |prefix| < i < |id| :: id[i] == s[i - |prefix| - 1];
    }
  }

  // ---- task ids ----

  /** Bitwise and, on unbounded numbers. */
  function And(a: nat, b: nat): nat {
    if a == 0 || b == 0 then 0 else 2 * And(a / 2, b / 2) + (if a % 2 == 1 && b % 2 == 1 then 1 else 0)
  }

  /** Bitwise or, on unbounded numbers. */
  function Or(a: nat, b: nat): nat {
    if a == 0 then b else if b == 0 then a else 2 * Or(a / 2, b / 2) + (if a % 2 == 1 || b % 2 == 1 then 1 else 0)
  }

  const TASK_COUNTER_LIMIT: nat := 0x100_0000_0000

  const TWO_TO_THE_108: nat := 0x1000_0000_0000_0000_0000_0000_0000

  /** Bits 40 to 107. */
  const TASK_BASE_MASK: nat := 0xfff_ffff_ffff_ffff_ff00_0000_0000

  lemma Powers()
    ensures TASK_COUNTER_LIMIT == Pow(2, TASK_COUNTER_BITS) && TWO_TO_THE_108 == Pow(2, 108)
    ensures TASK_BASE_MASK == Pow(2, 108) - Pow(2, 40)
    ensures Pow(2, 108) == Pow(2, 40) * Pow(2, 68) < Pow(36, SUFFIX_LENGTH)
  {
    hide Pow;
    PowSum(2, 4, 4);
    PowSum(2, 8, 8);
    PowSum(2, 16, 16);
    PowSum(2, 32, 8);
    PowSum(2, 32, 32);
    PowSum(2, 64, 4);
    PowSum(2, 40, 68);
    PowSum(36, 7, 7);
    PowSum(36, 14, 7);
    SmallPowers();
  }

  lemma SmallPowers()
    ensures Pow(2, 4) == 16 && Pow(36, 7) == 78364164096
  {
    PowSum(36, 2, 2);
    PowSum(36, 4, 3);
    assert Pow(36, 2) == 1296;
    assert Pow(36, 3) == 46656;
  }

  lemma {:induction false} PowIsMonotone(b: nat, m: nat, n: nat)
    requires b > 0 && m <= n
    ensures Pow(b, m) <= Pow(b, n)
    decreases n
  {
    if m < n {
      PowIsMonotone(b, m, n - 1);
    }
  }

  /** The low `n` bits. */
  function Low(x: nat, n: nat): nat {
    x % Pow(2, n)
  }

  lemma HalfModulo(x: nat, n: nat)
    requires n > 0
    ensures Low(x, n) == 2 * Low(x / 2, n - 1) + x % 2
  {
    var m := Pow(2, n - 1);
    var q, r := (x / 2) / m, (x / 2) % m;
    assert x / 2 == q * m + r;
    assert x == q * (2 * m) + (2 * r + x % 2);
    DivisionIsUnique(x, 2 * m, q, 2 * r + x % 2);
  }

  /** Masking with ones in the bits from `k` up to `n` keeps exactly those bits. */
  lemma {:induction false} AndWithMask(x: nat, k: nat, n: nat)
    requires k <= n
    ensures Pow(2, k) <= Pow(2, n) && And(x, Pow(2, n) - Pow(2, k)) == Low(x, n) - Low(x, k)
    decreases n
  {
    hide And, Pow, Low;
    PowIsMonotone(2, k, n);
    if n == k {
      AndZero(x);
    } else if k > 0 {
      HalfModulo(x, n);
      HalfModulo(x, k);
      DoublePow(n);
      DoublePow(k);
      AndWithMask(x / 2, k - 1, n - 1);
      AndEven(x, Pow(2, n - 1) - Pow(2, k - 1));
    } else {
      HalfModulo(x, n);
      DoublePow(n);
      AndWithMask(x / 2, 0, n - 1);
      NoLowBits(x);
      NoLowBits(x / 2);
      AndOdd(x, Pow(2, n - 1) - 1);
    }
  }

  lemma DoublePow(n: nat)
    requires n > 0
    ensures Pow(2, n) == 2 * Pow(2, n - 1)
  {
  }

  lemma NoLowBits(x: nat)
    ensures Pow(2, 0) == 1 && Low(x, 0) == 0
  {
  }

  lemma AndEven(x: nat, m: nat)
    ensures And(x, 2 * m) == 2 * And(x / 2, m)
  {
    hide And;
    assert 2 * m / 2 == m && 2 * m % 2 == 0;
    AndHalves(x, 2 * m);
  }

  lemma AndOdd(x: nat, m: nat)
    ensures And(x, 2 * m + 1) == 2 * And(x / 2, m) + x % 2
  {
    hide And;
    assert (2 * m + 1) / 2 == m && (2 * m + 1) % 2 == 1;
    AndHalves(x, 2 * m + 1);
  }

  lemma AndZero(x: nat)
    ensures And(x, 0) == 0
  {
  }

  lemma AndHalves(a: nat, b: nat)
    ensures And(a, b) == 2 * And(a / 2, b / 2) + (if a % 2 == 1 && b % 2 == 1 then 1 else 0)
  {
    if a == 0 {
      assert And(a / 2, b / 2) == 0;
    } else if b == 0 {
      assert And(a / 2, b / 2) == 0;
    }
  }

  /** Or-ing bits below `k` into a multiple of 2^k adds them. */
  lemma {:induction false} OrIsSum(m: nat, c: nat, k: nat)
    requires Low(m, k) == 0 && c < Pow(2, k)
    ensures Or(m, c) == m + c
    decreases k
  {
    hide Low;
    if k > 0 {
      HalfModulo(m, k);
      OrIsSum(m / 2, c / 2, k - 1);
    }
  }

  /** The masked base of a task id: a multiple of the counter limit, below 2^108 with any counter. */
  function MaskedBase(base: nat): nat {
    And(base, TASK_BASE_MASK)
  }

  lemma MaskedBaseIsAligned(base: nat)
    ensures MaskedBase(base) == base % TWO_TO_THE_108 - base % TASK_COUNTER_LIMIT
    ensures MaskedBase(base) % TASK_COUNTER_LIMIT == 0 && MaskedBase(base) + TASK_COUNTER_LIMIT <= TWO_TO_THE_108
  {
    hide And, Pow;
    Powers();
    AndWithMask(base, 40, 108);
    Aligned(base, Pow(2, 40), Pow(2, 68));
  }

  /** Dropping the low part of a number below `low * high` leaves a multiple of `low` with room for it. */
  lemma Aligned(base: nat, low: nat, high: nat)
    requires low > 0 && high > 0
    ensures low * high > 0
    ensures var m := base % (low * high) - base % low;
            0 <= m && m % low == 0 && m + low <= low * high
  {
    var x := base % (low * high);
    var p := x / low;
    NestedModulo(base, low, high);
    assert x == p * low + x % low;
    DivisionIsUnique(p * low, low, p, 0);
    if p >= high {
      ScalesUp(p, high, low);
      assert false;
    }
    ScalesUp(high, p + 1, low);
    assert (p + 1) * low == p * low + low;
  }

  lemma NestedModulo(base: nat, low: nat, high: nat)
    requires low > 0 && high > 0
    ensures low * high > 0 && (base % (low * high)) % low == base % low
  {
    AtLeastOne(high, low);
    var q, x := base / (low * high), base % (low * high);
    var p, r := x / low, x % low;
    assert base == q * (low * high) + x && x == p * low + r;
    assert q * (low * high) == (q * high) * low;
    assert (q * high + p) * low == (q * high) * low + p * low;
    DivisionIsUnique(base, low, q * high + p, r);
  }

  lemma {:induction false} PowSum(b: nat, m: nat, n: nat)
    requires b > 0
    ensures Pow(b, m + n) == Pow(b, m) * Pow(b, n)
    decreases m
  {
    if m > 0 {
      PowSum(b, m - 1, n);
    }
  }

  function Compose(base: nat, counter: nat): Result<string> {
    if counter >= TASK_COUNTER_LIMIT then Err(ExhaustedError("task id counter"))
    else
      var id := PrefixedId("task", Or(And(base, TASK_BASE_MASK), counter));
      if ValidId(id, "task") then Ok(id) else Err(InvalidInputError("task id"))
  }

  /** The composed number, without bit operations: it stays below 2^108 and so inside the suffix space. */
  lemma ComposedNumber(base: nat, counter: nat)
    requires counter < TASK_COUNTER_LIMIT
    ensures Or(And(base, TASK_BASE_MASK), counter) == MaskedBase(base) + counter
    ensures MaskedBase(base) + counter < Pow(2, 108) < Pow(36, SUFFIX_LENGTH)
  {
    hide Pow, Or, And;
    Powers();
    MaskedBaseIsAligned(base);
    OrIsSum(MaskedBase(base), counter, 40);
  }

  /** Composition succeeds exactly below the counter limit, and nothing of the number is truncated. */
  lemma ComposeIsExact(base: nat, counter: nat)
    ensures Compose(base, counter).Ok? <==> counter < TASK_COUNTER_LIMIT
    ensures counter < TASK_COUNTER_LIMIT ==>
              && Compose(base, counter) == Ok(PrefixedId("task", MaskedBase(base) + counter))
              && IsSuffix(Suffix(MaskedBase(base) + counter, SUFFIX_LENGTH))
              && Value(Suffix(MaskedBase(base) + counter, SUFFIX_LENGTH)) == MaskedBase(base) + counter
  {
    hide Pow, And, Or, MaskedBase, Suffix, ValidId;
    if counter < TASK_COUNTER_LIMIT {
      ComposedNumber(base, counter);
      ValidIdsAreTheComposed(PrefixedId("task", MaskedBase(base) + counter), "task");
      DecodeEncode(MaskedBase(base) + counter, SUFFIX_LENGTH);
    }
  }

  lemma LessAfterPrefix(prefix: string, a: string, b: string)
    ensures Less(prefix + a, prefix + b) <==> Less(a, b)
    decreases |prefix|
  {
    if prefix == "" {
      assert prefix + a == a && prefix + b == b;
    } else {
      assert (prefix + a)[1..] == prefix[1..] + a && (prefix + b)[1..] == prefix[1..] + b;
      LessAfterPrefix(prefix[1..], a, b);
      assert prefix + a == [prefix[0]] + (prefix[1..] + a) && prefix + b == [prefix[0]] + (prefix[1..] + b);
    }
  }

  /** Ids order by counter within a base, and a higher masked base outranks any counter. */
  lemma TaskIdsOrder(base: nat, counter: nat, base': nat, counter': nat)
    requires counter < TASK_COUNTER_LIMIT && counter' < TASK_COUNTER_LIMIT
    ensures Compose(base, counter).Ok? && Compose(base', counter').Ok?
    ensures Less(Compose(base, counter).value, Compose(base', counter').value) <==>
            MaskedBase(base) < MaskedBase(base') || (MaskedBase(base) == MaskedBase(base') && counter < counter')
  {
    hide Pow, And, Or, Suffix, Less;
    ComposeIsExact(base, counter);
    ComposeIsExact(base', counter');
    MaskedBaseIsAligned(base);
    MaskedBaseIsAligned(base');
    var v, w := MaskedBase(base) + counter, MaskedBase(base') + counter';
    ComposedNumber(base, counter);
    ComposedNumber(base', counter');
    EncodingKeepsOrder(v, w, SUFFIX_LENGTH);
    LessAfterPrefix("task-", Suffix(v, SUFFIX_LENGTH), Suffix(w, SUFFIX_LENGTH));
    assert "task" + "-" == "task-";
    MultiplesAreApart(MaskedBase(base), MaskedBase(base'), TASK_COUNTER_LIMIT);
  }
}
