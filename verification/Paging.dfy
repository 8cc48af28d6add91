/**
 Keyset paging over ordered tables: the positioned scan, the skipping scan, one page, and whole
 walks along cursors, also while the table changes between pages.
 */
module Paging {
  import opened Arithmetic
  import opened Ordering
  import opened Results

  type Bytes = seq<Byte>

  datatype Entry<V> = Entry(key: Bytes, value: V)

  datatype Paged<T> = Paged(items: seq<T>, next: Option<Bytes>)

  // ---- key order ----

  predicate Before(a: Bytes, b: Bytes) {
    BytesLe(a, b) && a != b
  }

  lemma BeforeOrNot(a: Bytes, b: Bytes)
    ensures Before(a, b) <==> !BytesLe(b, a)
  {
    BytesOrderIsTotal();
    assert IsTotalOrder(BytesLe);
    hide LexLe, BytesLe;
    assert BytesLe(a, b) || BytesLe(b, a);
    assert BytesLe(a, b) && BytesLe(b, a) ==> a == b;
  }

  lemma BeforeTransitive(a: Bytes, b: Bytes, c: Bytes)
    ensures BytesLe(a, b) && BytesLe(b, c) ==> BytesLe(a, c)
    ensures Before(a, b) && BytesLe(b, c) ==> Before(a, c)
    ensures BytesLe(a, b) && Before(b, c) ==> Before(a, c)
  {
    BytesOrderIsTotal();
    assert IsTotalOrder(BytesLe);
    hide LexLe, BytesLe;
    assert BytesLe(a, b) && BytesLe(b, c) ==> BytesLe(a, c);
    assert BytesLe(a, b) && BytesLe(b, a) ==> a == b;
    assert BytesLe(b, c) && BytesLe(c, b) ==> b == c;
  }

  /** A table: entries in strictly increasing key order. */
  ghost predicate IsTable<V>(entries: seq<Entry<V>>) {
    forall i, j | 0 <= i < j < |entries| :: Before(entries[i].key, entries[j].key)
  }

  predicate Past(cursor: Option<Bytes>, key: Bytes) {
    cursor.None? || Before(cursor.value, key)
  }

  // ---- positioning ----

  /** The position a cursor resumes at: the first key strictly after it. */
  ghost predicate IsStart<V>(entries: seq<Entry<V>>, cursor: Option<Bytes>, start: nat) {
    && start <= |entries|
    && (forall i | 0 <= i < start :: !Past(cursor, entries[i].key))
    && (forall i | start <= i < |entries| :: Past(cursor, entries[i].key))
  }

  /** The entries after a cursor, in order. */
  function After<V>(entries: seq<Entry<V>>, cursor: Option<Bytes>): (rest: seq<Entry<V>>)
    ensures |rest| <= |entries|
  {
    if entries == [] then []
    else if Past(cursor, entries[0].key) then [entries[0]] + After(entries[1..], cursor)
    else After(entries[1..], cursor)
  }

  lemma {:induction false} AfterIsSuffix<V>(entries: seq<Entry<V>>, cursor: Option<Bytes>, start: nat)
    requires IsStart(entries, cursor, start)
    ensures After(entries, cursor) == entries[start..]
    decreases |entries|
  {
    if entries != [] {
      if start == 0 {
        assert IsStart(entries[1..], cursor, 0);
        AfterIsSuffix(entries[1..], cursor, 0);
        assert entries == [entries[0]] + entries[1..][0..];
      } else {
        assert !Past(cursor, entries[0].key);
        assert IsStart(entries[1..], cursor, start - 1) by {
          assert forall i | 0 <= i < |entries[1..]| :: entries[1..][i] == entries[i + 1];
        }
        AfterIsSuffix(entries[1..], cursor, start - 1);
        assert entries[1..][start - 1..] == entries[start..];
      }
    }
  }

  /** `partition_point`: binary search for the first key past the cursor. */
  method PartitionPoint<V>(entries: seq<Entry<V>>, cursor: Option<Bytes>) returns (start: nat)
    requires IsTable(entries)
    ensures IsStart(entries, cursor, start)
  {
    hide Before;
    var low, high := 0, |entries|;
    while low < high
      invariant 0 <= low <= high <= |entries|
      invariant forall i | 0 <= i < low :: !Past(cursor, entries[i].key)
      invariant forall i | high <= i < |entries| :: Past(cursor, entries[i].key)
    {
      var mid := (low + high) / 2;
      if Past(cursor, entries[mid].key) {
        forall i | mid <= i < |entries| ensures Past(cursor, entries[i].key) {
          PastIsUpward(entries, cursor, mid, i);
        }
        high := mid;
      } else {
        forall i | 0 <= i <= mid ensures !Past(cursor, entries[i].key) {
          if Past(cursor, entries[i].key) { PastIsUpward(entries, cursor, i, mid); }
        }
        low := mid + 1;
      }
    }
    return low;
  }

  lemma PastIsUpward<V>(entries: seq<Entry<V>>, cursor: Option<Bytes>, i: nat, j: nat)
    requires IsTable(entries) && i <= j < |entries| && Past(cursor, entries[i].key)
    ensures Past(cursor, entries[j].key)
  {
    if i < j && cursor.Some? {
      BeforeTransitive(cursor.value, entries[i].key, entries[j].key);
    }
  }

  /** The default positioned scan: an ordered scan whose head is dropped on the way. */
  class SkippingScan<V> {
    var inner: seq<Entry<V>>
    const from: Bytes

    /** What the scan still has to deliver. */
    function Remaining(): seq<Entry<V>>
      reads this
    {
      After(inner, Some(from))
    }

    method Next() returns (entry: Option<Entry<V>>)
      modifies this
      ensures old(Remaining()) == [] <==> entry.None?
      ensures entry.Some? ==> old(Remaining()) == [entry.value] + Remaining()
      ensures entry.None? ==> Remaining() == []
    {
      while inner != [] && BytesLe(inner[0].key, from)
        invariant Remaining() == old(Remaining())
        decreases |inner|
      {
        BeforeOrNot(from, inner[0].key);
        inner := inner[1..];
      }
      if inner == [] {
        return None;
      }
      BeforeOrNot(from, inner[0].key);
      entry := Some(inner[0]);
      inner := inner[1..];
    }
  }

  /** Draining the skipping scan yields exactly the entries the positioned scan holds. */
  method DrainSkippingScan<V>(scan: SkippingScan<V>, ghost start: nat) returns (entries: seq<Entry<V>>)
    requires IsStart(scan.inner, Some(scan.from), start)
    modifies scan
    ensures entries == old(scan.inner)[start..]
  {
    hide After;
    entries := [];
    AfterIsSuffix(scan.inner, Some(scan.from), start);
    var entry := scan.Next();
    while entry.Some?
      invariant old(scan.Remaining()) == entries + (if entry.Some? then [entry.value] else []) + scan.Remaining()
      invariant entry.None? ==> scan.Remaining() == []
      decreases |scan.Remaining()|, entry.Some?
    {
      entries := entries + [entry.value];
      entry := scan.Next();
    }
  }

  // ---- one page ----

  /** `select` makes an item of an entry, skips it, or fails the page with an error. */
  predicate Picks<V, T>(select: Entry<V> -> Result<Option<T>>, entry: Entry<V>) {
    select(entry).Ok? && select(entry).value.Some?
  }

  /** The entries a stream delivers, in order. */
  function Chosen<V, T>(stream: seq<Entry<V>>, select: Entry<V> -> Result<Option<T>>): (chosen: seq<Entry<V>>)
    ensures forall e | e in chosen :: e in stream && Picks(select, e)
  {
    if stream == [] then []
    else (if Picks(select, stream[0]) then [stream[0]] else []) + Chosen(stream[1..], select)
  }

  /** How many entries a page of `n` items processes. */
  function Cut<V, T>(stream: seq<Entry<V>>, n: nat, select: Entry<V> -> Result<Option<T>>): (cut: nat)
    requires n > 0
    ensures cut <= |stream| && (stream != [] ==> cut > 0)
    decreases |stream|
  {
    if stream == [] then 0
    else if !Picks(select, stream[0]) then 1 + Cut(stream[1..], n, select)
    else if n == 1 then 1
    else 1 + Cut(stream[1..], n - 1, select)
  }

  /** The entries one page delivers and the cursor it hands out. */
  function Page<V, T>(stream: seq<Entry<V>>, n: nat, select: Entry<V> -> Result<Option<T>>): Paged<Entry<V>>
    requires n > 0
  {
    var cut := Cut(stream, n, select);
    Paged(Chosen(stream[..cut], select), if cut < |stream| then Some(stream[cut - 1].key) else None)
  }

  function Items<V, T>(entries: seq<Entry<V>>, select: Entry<V> -> Result<Option<T>>): (items: seq<T>)
    requires forall e | e in entries :: Picks(select, e)
    ensures |items| == |entries|
  {
    if entries == [] then []
    else assert entries[0] in entries && Picks(select, entries[0]); [select(entries[0]).value.value] + Items(entries[1..], select)
  }

  lemma {:induction false} ItemsOneMore<V, T>(entries: seq<Entry<V>>, e: Entry<V>, select: Entry<V> -> Result<Option<T>>)
    requires forall x | x in entries :: Picks(select, x)
    requires Picks(select, e)
    ensures Items(entries + [e], select) == Items(entries, select) + [select(e).value.value]
    decreases |entries|
  {
    if entries == [] {
      assert entries + [e] == [e];
    } else {
      assert (entries + [e])[1..] == entries[1..] + [e];
      ItemsOneMore(entries[1..], e, select);
    }
  }

  function Capacity(limit: nat): (n: nat)
    ensures n > 0
  {
    if limit == 0 then 1 else limit
  }

  lemma {:induction false} ChosenConcat<V, T>(a: seq<Entry<V>>, b: seq<Entry<V>>, select: Entry<V> -> Result<Option<T>>)
    ensures Chosen(a + b, select) == Chosen(a, select) + Chosen(b, select)
    decreases |a|
  {
    if a == [] {
      assert a + b == b;
    } else {
      assert (a + b)[1..] == a[1..] + b;
      ChosenConcat(a[1..], b, select);
    }
  }

  lemma ChosenOneMore<V, T>(stream: seq<Entry<V>>, i: nat, select: Entry<V> -> Result<Option<T>>)
    requires i < |stream|
    ensures Chosen(stream[..i + 1], select) ==
            Chosen(stream[..i], select) + if Picks(select, stream[i]) then [stream[i]] else []
  {
    assert stream[..i + 1] == stream[..i] + [stream[i]];
    ChosenConcat(stream[..i], [stream[i]], select);
  }

  ghost predicate Fails<V, T>(stream: seq<Entry<V>>, select: Entry<V> -> Result<Option<T>>, k: nat)
    requires k < |stream|
  {
    select(stream[k]).Err? && forall j | 0 <= j < k :: select(stream[j]).Ok?
  }

  lemma CutStep<V, T>(stream: seq<Entry<V>>, i: nat, m: nat, select: Entry<V> -> Result<Option<T>>)
    requires m > 0 && i < |stream|
    ensures Cut(stream[i..], m, select) ==
            if !Picks(select, stream[i]) then 1 + Cut(stream[i + 1..], m, select)
            else if m == 1 then 1
            else 1 + Cut(stream[i + 1..], m - 1, select)
  {
    assert stream[i..][0] == stream[i] && stream[i..][1..] == stream[i + 1..];
  }

  /** The first `i` entries are processed without filling the page or meeting an error. */
  ghost predicate Processed<V, T>(stream: seq<Entry<V>>, n: nat, select: Entry<V> -> Result<Option<T>>, i: nat, items: seq<T>)
    requires n > 0
  {
    && i <= |stream| && |items| < n
    && Cut(stream, n, select) == i + Cut(stream[i..], n - |items|, select)
    && items == Items(Chosen(stream[..i], select), select)
    && forall j | 0 <= j < i :: select(stream[j]).Ok?
  }

  lemma SkipEntry<V, T>(stream: seq<Entry<V>>, n: nat, select: Entry<V> -> Result<Option<T>>, i: nat, items: seq<T>)
    requires n > 0 && Processed(stream, n, select, i, items) && i < |stream| && select(stream[i]) == Ok(None)
    ensures Processed(stream, n, select, i + 1, items)
  {
    hide Cut, Chosen, Items;
    CutStep(stream, i, n - |items|, select);
    ChosenOneMore(stream, i, select);
    assert Chosen(stream[..i + 1], select) == Chosen(stream[..i], select);
  }

  lemma TakeEntry<V, T>(stream: seq<Entry<V>>, n: nat, select: Entry<V> -> Result<Option<T>>, i: nat, items: seq<T>)
    requires n > 0 && Processed(stream, n, select, i, items) && i < |stream| && Picks(select, stream[i])
    ensures var next := items + [select(stream[i]).value.value];
            && next == Items(Chosen(stream[..i + 1], select), select)
            && (if |next| < n then Processed(stream, n, select, i + 1, next) else Cut(stream, n, select) == i + 1)
  {
    hide Cut, Chosen, Items;
    CutStep(stream, i, n - |items|, select);
    ChosenOneMore(stream, i, select);
    ItemsOneMore(Chosen(stream[..i], select), stream[i], select);
  }

  lemma NothingProcessed<V, T>(stream: seq<Entry<V>>, n: nat, select: Entry<V> -> Result<Option<T>>)
    requires n > 0
    ensures Processed(stream, n, select, 0, [])
  {
    assert stream[0..] == stream && stream[..0] == [];
  }

  lemma AllProcessed<V, T>(stream: seq<Entry<V>>, n: nat, select: Entry<V> -> Result<Option<T>>, items: seq<T>)
    requires n > 0 && Processed(stream, n, select, |stream|, items)
    ensures Cut(stream, n, select) == |stream| && items == Items(Chosen(stream, select), select) && stream[..|stream|] == stream
  {
    assert stream[..|stream|] == stream;
  }

  /** A met error lies before the cut. */
  lemma ErrorIsMet<V, T>(stream: seq<Entry<V>>, n: nat, select: Entry<V> -> Result<Option<T>>, i: nat, items: seq<T>)
    requires n > 0 && Processed(stream, n, select, i, items) && i < |stream| && select(stream[i]).Err?
    ensures i < Cut(stream, n, select) && Fails(stream, select, i)
  {
    assert |stream[i..]| > 0;
  }

  /**
   Collects one page from a positioned stream.  A limit of zero acts as one, because the page is
   found full after an item is pushed.  An entry's error fails the page exactly when it is met.
   */
  method ScanPaged<V, T>(stream: seq<Entry<V>>, limit: nat, select: Entry<V> -> Result<Option<T>>) returns (r: Result<Paged<T>>)
    ensures var n := Capacity(limit);
            var page := Page(stream, n, select);
            if exists k | 0 <= k < Cut(stream, n, select) :: select(stream[k]).Err? then
              r.Err? && exists k | 0 <= k < Cut(stream, n, select) :: Fails(stream, select, k) && select(stream[k]) == Err(r.error)
            else r == Ok(Paged(Items(page.items, select), page.next))
  {
    hide Cut, Chosen, Items, Processed;
    ghost var n := Capacity(limit);
    var items: seq<T> := [];
    var i := 0;
    NothingProcessed(stream, n, select);
    while i < |stream|
      invariant i <= |stream| && |items| < n && Processed(stream, n, select, i, items)
      invariant forall j | 0 <= j < i :: select(stream[j]).Ok?
    {
      var selected := select(stream[i]);
      if selected.Err? {
        ErrorIsMet(stream, n, select, i, items);
        return Err(selected.error);
      }
      if selected.value.Some? {
        TakeEntry(stream, n, select, i, items);
        items := items + [selected.value.value];
        if |items| >= limit {
          return Ok(Paged(items, if i + 1 < |stream| then Some(stream[i].key) else None));
        }
      } else {
        SkipEntry(stream, n, select, i, items);
      }
      i := i + 1;
    }
    AllProcessed(stream, n, select, items);
    return Ok(Paged(items, None));
  }

  function Min(a: nat, b: nat): nat {
    if a < b then a else b
  }

  function Values<V>(entries: seq<Entry<V>>): (values: seq<V>)
    ensures |values| == |entries| && forall i | 0 <= i < |entries| :: values[i] == entries[i].value
  {
    seq(|entries|, i requires 0 <= i < |entries| => entries[i].value)
  }

  /** Unfiltered, a page is the next `n` entries. */
  lemma {:induction false} UnfilteredPage<V>(stream: seq<Entry<V>>, n: nat)
    requires n > 0
    ensures Cut(stream, n, Everything) == Min(n, |stream|) && Chosen(stream, Everything) == stream
    decreases |stream|
  {
    if stream != [] {
      UnfilteredPage(stream[1..], if n == 1 then 1 else n - 1);
      assert stream == [stream[0]] + stream[1..];
    }
  }

  /** The in-memory twin: the next `limit` entries after the cursor. */
  method PageKeys<V>(entries: seq<Entry<V>>, cursor: Option<Bytes>, limit: nat) returns (paged: Paged<V>)
    requires IsTable(entries)
    ensures var page := Page(After(entries, cursor), Capacity(limit), Everything);
            paged == Paged(Values(page.items), page.next)
  {
    hide Cut, Chosen, After;
    var start := PartitionPoint(entries, cursor);
    AfterIsSuffix(entries, cursor, start);
    var stream := entries[start..];
    ghost var n := Capacity(limit);
    UnfilteredPage(stream, n);
    UnfilteredPage(stream[..Min(n, |stream|)], n);
    var items: seq<V> := [];
    var i := 0;
    while i < |stream|
      invariant i <= |stream| && i < n && items == Values(stream[..i])
    {
      items := items + [stream[i].value];
      i := i + 1;
      if |items| >= limit {
        return Paged(items, if i < |stream| then Some(stream[i - 1].key) else None);
      }
    }
    return Paged(items, None);
  }

  function Everything<V>(entry: Entry<V>): Result<Option<V>> {
    Ok(Some(entry.value))
  }

  /** A cursor is never empty: the shared tail refuses an empty continuation key. */
  function FinishPage<T>(paged: Paged<T>): Result<Paged<T>> {
    if paged.next == Some([]) then Err(InvalidInputError("page cursor")) else Ok(paged)
  }

  // ---- whole walks ----

  lemma {:induction false} AfterMembers<V>(entries: seq<Entry<V>>, cursor: Option<Bytes>, e: Entry<V>)
    ensures e in After(entries, cursor) <==> e in entries && Past(cursor, e.key)
    decreases |entries|
  {
    hide Past;
    if entries != [] {
      AfterMembers(entries[1..], cursor, e);
      assert entries == [entries[0]] + entries[1..];
    }
  }

  lemma PrependedIsTable<V>(first: Entry<V>, rest: seq<Entry<V>>)
    requires IsTable(rest) && forall e | e in rest :: Before(first.key, e.key)
    ensures IsTable([first] + rest)
  {
    hide Before;
  }

  lemma {:induction false} AfterIsOrdered<V>(entries: seq<Entry<V>>, cursor: Option<Bytes>)
    requires IsTable(entries)
    ensures IsTable(After(entries, cursor))
    decreases |entries|
  {
    hide Past, Before;
    if entries != [] {
      var rest := entries[1..];
      assert forall i | 0 <= i < |rest| :: rest[i] == entries[i + 1];
      AfterIsOrdered(rest, cursor);
      forall e | e in After(rest, cursor) ensures Before(entries[0].key, e.key) {
        AfterMembers(rest, cursor, e);
        var i :| 0 <= i < |rest| && rest[i] == e;
      }
      if Past(cursor, entries[0].key) {
        PrependedIsTable(entries[0], After(rest, cursor));
      }
    }
  }

  lemma ChosenIn<V, T>(stream: seq<Entry<V>>, select: Entry<V> -> Result<Option<T>>, i: nat)
    requires i < |stream| && Picks(select, stream[i])
    ensures stream[i] in Chosen(stream, select)
  {
    assert stream == stream[..i] + [stream[i]] + stream[i + 1..];
    ChosenConcat(stream[..i] + [stream[i]], stream[i + 1..], select);
    ChosenConcat(stream[..i], [stream[i]], select);
    assert Chosen([stream[i]], select) == [stream[i]];
  }

  lemma {:induction false} ChosenIsOrdered<V, T>(stream: seq<Entry<V>>, select: Entry<V> -> Result<Option<T>>)
    requires IsTable(stream)
    ensures IsTable(Chosen(stream, select))
    decreases |stream|
  {
    hide Before, Picks;
    if stream != [] {
      var rest := stream[1..];
      assert forall i | 0 <= i < |rest| :: rest[i] == stream[i + 1];
      ChosenIsOrdered(rest, select);
      forall e | e in Chosen(rest, select) ensures Before(stream[0].key, e.key) {
        var i :| 0 <= i < |rest| && rest[i] == e;
      }
      if Picks(select, stream[0]) {
        PrependedIsTable(stream[0], Chosen(rest, select));
      }
    }
  }

  lemma {:induction false} FullPageEndsInItem<V, T>(stream: seq<Entry<V>>, n: nat, select: Entry<V> -> Result<Option<T>>)
    requires n > 0 && Cut(stream, n, select) < |stream|
    ensures Picks(select, stream[Cut(stream, n, select) - 1]) && |Chosen(stream[..Cut(stream, n, select)], select)| == n
    decreases |stream|
  {
    var rest := stream[1..];
    if !Picks(select, stream[0]) {
      FullPageEndsInItem(rest, n, select);
      assert stream[..Cut(stream, n, select)][1..] == rest[..Cut(rest, n, select)];
    } else if n > 1 {
      FullPageEndsInItem(rest, n - 1, select);
      assert stream[..Cut(stream, n, select)][1..] == rest[..Cut(rest, n - 1, select)];
    } else {
      assert stream[..1][1..] == [];
    }
  }

  /**
   What one page says of the table it read: its keys are past the cursor and increase; up to the
   cursor it hands out, or to the end, it has every selected key; and that cursor is its last key.
   */
  lemma PageIsExact<V, T>(entries: seq<Entry<V>>, cursor: Option<Bytes>, n: nat, select: Entry<V> -> Result<Option<T>>)
    requires IsTable(entries) && n > 0
    ensures var page := Page(After(entries, cursor), n, select);
            && IsTable(page.items)
            && (forall e :: e in page.items <==>
                  e in entries && Picks(select, e) && Past(cursor, e.key) && (page.next.None? || BytesLe(e.key, page.next.value)))
            && (page.next.Some? ==> |page.items| == n && page.items[n - 1].key == page.next.value)
  {
    hide Cut, Chosen, After, Page, IsTable, Before, BytesLe, Picks, Past;
    var stream := After(entries, cursor);
    var page := Page(stream, n, select);
    AfterIsOrdered(entries, cursor);
    PageEnds(stream, n, select);
    forall e
      ensures e in page.items <==>
              e in entries && Picks(select, e) && Past(cursor, e.key) && (page.next.None? || BytesLe(e.key, page.next.value))
    {
      AfterMembers(entries, cursor, e);
      PageMembers(stream, n, select, e);
    }
  }

  lemma PageItem<V, T>(entries: seq<Entry<V>>, cursor: Option<Bytes>, n: nat, select: Entry<V> -> Result<Option<T>>, e: Entry<V>)
    requires IsTable(entries) && n > 0 && e in Page(After(entries, cursor), n, select).items
    ensures Past(cursor, e.key)
  {
    hide Cut, Chosen, After, Page, IsTable, Before, BytesLe, Picks, Past;
    AfterIsOrdered(entries, cursor);
    AfterMembers(entries, cursor, e);
    PageMembers(After(entries, cursor), n, select, e);
  }

  lemma PageEnds<V, T>(stream: seq<Entry<V>>, n: nat, select: Entry<V> -> Result<Option<T>>)
    requires IsTable(stream) && n > 0
    ensures var page := Page(stream, n, select);
            IsTable(page.items) && (page.next.Some? ==> |page.items| == n && page.items[n - 1].key == page.next.value)
  {
    hide Before;
    var cut := Cut(stream, n, select);
    ChosenIsOrdered(stream[..cut], select);
    if cut < |stream| {
      FullPageEndsInItem(stream, n, select);
      LastChosen(stream, cut, select);
    }
  }

  lemma LastChosen<V, T>(stream: seq<Entry<V>>, cut: nat, select: Entry<V> -> Result<Option<T>>)
    requires 0 < cut <= |stream| && Picks(select, stream[cut - 1])
    ensures Chosen(stream[..cut], select) != []
    ensures Chosen(stream[..cut], select)[|Chosen(stream[..cut], select)| - 1] == stream[cut - 1]
  {
    ChosenOneMore(stream, cut - 1, select);
  }

  lemma PageMembers<V, T>(stream: seq<Entry<V>>, n: nat, select: Entry<V> -> Result<Option<T>>, e: Entry<V>)
    requires IsTable(stream) && n > 0
    ensures var page := Page(stream, n, select);
            e in page.items <==> e in stream && Picks(select, e) && (page.next.None? || BytesLe(e.key, page.next.value))
  {
    hide Before, BytesLe;
    var cut := Cut(stream, n, select);
    var page := Page(stream, n, select);
    if e in page.items {
      var i :| 0 <= i < cut && stream[..cut][i] == e;
      assert stream[i] == e;
      if cut < |stream| { OrderedKeys(stream, i, cut - 1); }
    }
    if e in stream && Picks(select, e) && (page.next.None? || BytesLe(e.key, page.next.value)) {
      var i :| 0 <= i < |stream| && stream[i] == e;
      if cut <= i {
        OrderedKeys(stream, cut - 1, i);
        assert false;
      }
      assert stream[..cut][i] == e;
      ChosenIn(stream[..cut], select, i);
    }
  }

  lemma OrderedKeys<V>(stream: seq<Entry<V>>, i: nat, j: nat)
    requires IsTable(stream) && i <= j < |stream|
    ensures BytesLe(stream[i].key, stream[j].key)
    ensures i < j ==> !BytesLe(stream[j].key, stream[i].key)
  {
    BeforeOrNot(stream[i].key, stream[j].key);
    BeforeOrNot(stream[j].key, stream[i].key);
    if i == j { LexReflexive(stream[i].key); }
  }

  lemma LexReflexive(a: Bytes)
    ensures BytesLe(a, a)
  {
    BytesOrderIsTotal();
    assert IsTotalOrder(BytesLe);
    hide LexLe, BytesLe;
    assert BytesLe(a, a) || BytesLe(a, a);
  }

  /** One page read: the table as it then is, the cursor it resumes at and the limit it asks for. */
  datatype Read<V> = Read(table: seq<Entry<V>>, cursor: Option<Bytes>, limit: nat)

  function PageOf<V, T>(read: Read<V>, select: Entry<V> -> Result<Option<T>>): Paged<Entry<V>> {
    Page(After(read.table, read.cursor), Capacity(read.limit), select)
  }

  /** Page after page, each resuming at the cursor the page before handed out. */
  ghost predicate IsRun<V, T>(walk: seq<Read<V>>, select: Entry<V> -> Result<Option<T>>) {
    && (forall i | 0 <= i < |walk| :: IsTable(walk[i].table))
    && (forall i | 0 <= i < |walk| - 1 :: PageOf(walk[i], select).next.Some? && walk[i + 1].cursor == PageOf(walk[i], select).next)
  }

  /** A walk starts without a cursor. */
  ghost predicate IsWalk<V, T>(walk: seq<Read<V>>, select: Entry<V> -> Result<Option<T>>) {
    IsRun(walk, select) && walk != [] && walk[0].cursor.None?
  }

  /** The last page hands out no cursor. */
  ghost predicate IsFinished<V, T>(walk: seq<Read<V>>, select: Entry<V> -> Result<Option<T>>) {
    walk != [] && PageOf(walk[|walk| - 1], select).next.None?
  }

  /** Cursors only move forward. */
  lemma {:induction false} CursorsAdvance<V, T>(walk: seq<Read<V>>, select: Entry<V> -> Result<Option<T>>, i: nat, j: nat)
    requires IsRun(walk, select) && 0 < i <= j < |walk|
    ensures walk[i].cursor.Some? && walk[j].cursor.Some? && BytesLe(walk[i].cursor.value, walk[j].cursor.value)
    decreases j - i
  {
    hide Before, BytesLe, IsTable, PageOf;
    var prior := walk[j - 1];
    assert PageOf(prior, select).next == walk[j].cursor;
    if i == j {
      LexReflexive(walk[i].cursor.value);
    } else {
      CursorsAdvance(walk, select, i, j - 1);
      NextIsPast(prior, select);
      PastIsAfter(prior.cursor.value, walk[j].cursor.value);
      BeforeTransitive(walk[i].cursor.value, prior.cursor.value, walk[j].cursor.value);
    }
  }

  /** The cursor a page hands out is past the one it resumed at. */
  lemma NextIsPast<V, T>(read: Read<V>, select: Entry<V> -> Result<Option<T>>)
    requires IsTable(read.table) && PageOf(read, select).next.Some?
    ensures Past(read.cursor, PageOf(read, select).next.value)
  {
    hide Before, BytesLe, IsTable, Page, After;
    var n := Capacity(read.limit);
    var page := PageOf(read, select);
    PageIsExact(read.table, read.cursor, n, select);
    assert page.items[n - 1] in page.items;
    PageItem(read.table, read.cursor, n, select, page.items[n - 1]);
  }

  lemma PastIsAfter(a: Bytes, b: Bytes)
    ensures Past(Some(a), b) <==> !BytesLe(b, a)
    ensures Past(Some(a), b) ==> BytesLe(a, b)
  {
    BeforeOrNot(a, b);
  }

  /** Delivered keys strictly increase along the walk, even when the table changes between pages. */
  lemma DeliveredKeysIncrease<V, T>(
    walk: seq<Read<V>>, select: Entry<V> -> Result<Option<T>>, i: nat, j: nat, a: Entry<V>, b: Entry<V>)
    requires IsRun(walk, select) && i < j < |walk|
    requires a in PageOf(walk[i], select).items && b in PageOf(walk[j], select).items
    ensures Before(a.key, b.key)
  {
    hide BytesLe, IsTable, Page, After, Picks;
    assert walk[i + 1].cursor == PageOf(walk[i], select).next;
    PageIsExact(walk[i].table, walk[i].cursor, Capacity(walk[i].limit), select);
    PageIsExact(walk[j].table, walk[j].cursor, Capacity(walk[j].limit), select);
    CursorsAdvance(walk, select, i + 1, j);
    BeforeTransitive(a.key, walk[i + 1].cursor.value, walk[j].cursor.value);
    BeforeTransitive(a.key, walk[j].cursor.value, b.key);
  }

  /**
   In a finished walk a key that is present and selected at every page read is delivered, and by
   exactly one page.
   */
  lemma StableKeysAreDeliveredOnce<V, T>(walk: seq<Read<V>>, select: Entry<V> -> Result<Option<T>>, key: Bytes)
    requires IsWalk(walk, select) && IsFinished(walk, select)
    requires forall i | 0 <= i < |walk| :: Holds(walk[i].table, select, key)
    ensures exists i | 0 <= i < |walk| :: Delivers(walk[i], select, key)
    ensures forall i, j | 0 <= i < j < |walk| :: !(Delivers(walk[i], select, key) && Delivers(walk[j], select, key))
  {
    hide BytesLe, Before, IsTable, PageOf, Picks;
    FirstCursorReaching(walk, select, key, 0);
    forall i, j | 0 <= i < j < |walk|
      ensures !(Delivers(walk[i], select, key) && Delivers(walk[j], select, key))
    {
      if Delivers(walk[i], select, key) && Delivers(walk[j], select, key) {
        var a :| a in PageOf(walk[i], select).items && a.key == key;
        var b :| b in PageOf(walk[j], select).items && b.key == key;
        DeliveredKeysIncrease(walk, select, i, j, a, b);
        NotBeforeItself(key);
      }
    }
  }

  lemma NotBeforeItself(key: Bytes)
    ensures !Before(key, key)
  {
  }

  ghost predicate Holds<V, T>(table: seq<Entry<V>>, select: Entry<V> -> Result<Option<T>>, key: Bytes) {
    exists e | e in table :: e.key == key && Picks(select, e)
  }

  ghost predicate Delivers<V, T>(read: Read<V>, select: Entry<V> -> Result<Option<T>>, key: Bytes) {
    exists e | e in PageOf(read, select).items :: e.key == key
  }

  lemma {:induction false} FirstCursorReaching<V, T>(
    walk: seq<Read<V>>, select: Entry<V> -> Result<Option<T>>, key: Bytes, i: nat)
    requires IsRun(walk, select) && IsFinished(walk, select) && i < |walk| && Past(walk[i].cursor, key)
    requires forall k | 0 <= k < |walk| :: Holds(walk[k].table, select, key)
    ensures exists k | 0 <= k < |walk| :: Delivers(walk[k], select, key)
    decreases |walk| - i
  {
    hide BytesLe, Before, IsTable, Page, After, Picks, Past;
    assert Holds(walk[i].table, select, key);
    var e :| e in walk[i].table && e.key == key && Picks(select, e);
    var page := PageOf(walk[i], select);
    PageIsExact(walk[i].table, walk[i].cursor, Capacity(walk[i].limit), select);
    if page.next.None? || BytesLe(key, page.next.value) {
      assert e in page.items;
      assert Delivers(walk[i], select, key);
    } else {
      PastIsAfter(page.next.value, key);
      FirstCursorReaching(walk, select, key, i + 1);
    }
  }

  // ---- a table that does not change ----

  ghost predicate AllOf<V>(walk: seq<Read<V>>, table: seq<Entry<V>>) {
    forall read | read in walk :: read.table == table
  }

  /** What the pages of a run deliver, one after the other. */
  function Delivered<V, T>(walk: seq<Read<V>>, select: Entry<V> -> Result<Option<T>>): seq<Entry<V>> {
    if walk == [] then [] else PageOf(walk[0], select).items + Delivered(walk[1..], select)
  }

  lemma {:induction false} AfterAgain<V>(entries: seq<Entry<V>>, cursor: Option<Bytes>, next: Bytes)
    requires Past(cursor, next)
    ensures After(After(entries, cursor), Some(next)) == After(entries, Some(next))
    decreases |entries|
  {
    hide Before;
    if entries != [] {
      var key := entries[0].key;
      AfterAgain(entries[1..], cursor, next);
      if cursor.Some? {
        BeforeTransitive(cursor.value, next, key);
        PastIsAfter(next, key);
      }
      if Past(cursor, key) {
        assert After(entries, cursor)[1..] == After(entries[1..], cursor);
      }
    }
  }

  lemma ResumesInTheStream<V, T>(stream: seq<Entry<V>>, n: nat, select: Entry<V> -> Result<Option<T>>)
    requires IsTable(stream) && n > 0 && Cut(stream, n, select) < |stream|
    ensures After(stream, Page(stream, n, select).next) == stream[Cut(stream, n, select)..]
  {
    hide Before, BytesLe, After, Chosen;
    var cut := Cut(stream, n, select);
    var cursor := Some(stream[cut - 1].key);
    forall i | 0 <= i < |stream| ensures Past(cursor, stream[i].key) <==> cut <= i {
      PastIsAfter(cursor.value, stream[i].key);
      if i < cut { OrderedKeys(stream, i, cut - 1); } else { OrderedKeys(stream, cut - 1, i); }
    }
    AfterIsSuffix(stream, cursor, cut);
  }

  /** Resuming at the cursor any page of a walk hands out continues right behind the entries it processed. */
  lemma ResumesBehindThePage<V, T>(read: Read<V>, select: Entry<V> -> Result<Option<T>>)
    requires IsTable(read.table)
    ensures var stream := After(read.table, read.cursor);
            var cut := Cut(stream, Capacity(read.limit), select);
            var page := PageOf(read, select);
            && (page.next.Some? <==> cut < |stream|)
            && (page.next.Some? ==> After(read.table, page.next) == stream[cut..])
  {
    hide After, IsTable, Cut, Chosen, Past;
    var page := PageOf(read, select);
    if page.next.Some? {
      AfterIsOrdered(read.table, read.cursor);
      ResumesInTheStream(After(read.table, read.cursor), Capacity(read.limit), select);
      NextIsPast(read, select);
      AfterAgain(read.table, read.cursor, page.next.value);
    }
  }

  /** A page and what is chosen behind it are what is chosen from its cursor on. */
  lemma PageThenRest<V, T>(read: Read<V>, select: Entry<V> -> Result<Option<T>>)
    requires IsTable(read.table)
    ensures var page := PageOf(read, select);
            Chosen(After(read.table, read.cursor), select) ==
            page.items + if page.next.Some? then Chosen(After(read.table, page.next), select) else []
  {
    hide After, IsTable, Cut, Chosen;
    var stream := After(read.table, read.cursor);
    var cut := Cut(stream, Capacity(read.limit), select);
    ResumesBehindThePage(read, select);
    assert stream == stream[..cut] + stream[cut..];
    ChosenConcat(stream[..cut], stream[cut..], select);
    if cut == |stream| {
      assert stream[cut..] == [];
      NothingChosen(select);
    }
  }

  lemma TailOfRun<V, T>(walk: seq<Read<V>>, select: Entry<V> -> Result<Option<T>>, table: seq<Entry<V>>)
    requires IsRun(walk, select) && AllOf(walk, table) && |walk| > 1
    ensures IsRun(walk[1..], select) && AllOf(walk[1..], table)
    ensures IsFinished(walk, select) <==> IsFinished(walk[1..], select)
    ensures PageOf(walk[0], select).next == walk[1..][0].cursor && walk[1..][0].cursor.Some?
  {
    hide IsTable, PageOf;
    assert forall i | 0 <= i < |walk[1..]| :: walk[1..][i] == walk[i + 1];
    assert PageOf(walk[0], select).next == walk[0 + 1].cursor;
  }

  lemma {:induction false} RunDelivers<V, T>(walk: seq<Read<V>>, select: Entry<V> -> Result<Option<T>>, table: seq<Entry<V>>)
    requires IsRun(walk, select) && AllOf(walk, table) && IsFinished(walk, select)
    ensures Delivered(walk, select) == Chosen(After(table, walk[0].cursor), select)
    decreases |walk|
  {
    hide IsTable, PageOf, After, Chosen;
    assert walk[0] in walk;
    PageThenRest(walk[0], select);
    if |walk| == 1 {
      assert walk[1..] == [];
    } else {
      TailOfRun(walk, select, table);
      RunDelivers(walk[1..], select, table);
    }
  }

  /**
   A finished walk over an unchanged table, whatever limit each page asks for, delivers the whole
   filtered table.
   */
  lemma PagesAreTheTable<V, T>(walk: seq<Read<V>>, select: Entry<V> -> Result<Option<T>>, table: seq<Entry<V>>)
    requires IsWalk(walk, select) && AllOf(walk, table) && IsFinished(walk, select)
    ensures Delivered(walk, select) == Chosen(table, select)
  {
    RunDelivers(walk, select, table);
    AfterNone(table);
  }

  lemma {:induction false} RunIsBounded<V, T>(walk: seq<Read<V>>, select: Entry<V> -> Result<Option<T>>, table: seq<Entry<V>>)
    requires IsRun(walk, select) && AllOf(walk, table) && walk != []
    ensures |walk| <= |Chosen(After(table, walk[0].cursor), select)| + 1
    decreases |walk|
  {
    hide IsTable, After, Chosen, Page;
    if |walk| > 1 {
      var read := walk[0];
      assert read in walk;
      PageThenRest(read, select);
      PageIsExact(read.table, read.cursor, Capacity(read.limit), select);
      TailOfRun(walk, select, table);
      RunIsBounded(walk[1..], select, table);
    }
  }

  /** Over an unchanged table every walk comes to its end: a page more than there are items is not read. */
  lemma WalkIsBounded<V, T>(walk: seq<Read<V>>, select: Entry<V> -> Result<Option<T>>, table: seq<Entry<V>>)
    requires IsWalk(walk, select) && AllOf(walk, table)
    ensures |walk| <= |Chosen(table, select)| + 1
  {
    RunIsBounded(walk, select, table);
    AfterNone(table);
  }

  lemma NothingChosen<V, T>(select: Entry<V> -> Result<Option<T>>)
    ensures Chosen([], select) == []
  {
  }

  /** The pages `size` entries start. */
  function StartedPages(size: nat, n: nat): nat
    requires n > 0
  {
    (size + n - 1) / n
  }

  lemma OneMorePage(size: nat, n: nat)
    requires 0 < n
    ensures 0 < size <= n ==> StartedPages(size, n) == 1
    ensures n < size ==> StartedPages(size, n) == StartedPages(size - n, n) + 1
  {
    if 0 < size <= n {
      DivisionIsUnique(size + n - 1, n, 1, size - 1);
    } else if n < size {
      var q, r := (size - 1) / n, (size - 1) % n;
      assert size - 1 == q * n + r;
      assert size + n - 1 == (q + 1) * n + r;
      DivisionIsUnique(size + n - 1, n, q + 1, r);
    }
  }

  lemma UnfilteredRead<V>(read: Read<V>)
    requires IsTable(read.table)
    ensures var stream := After(read.table, read.cursor);
            var n := Capacity(read.limit);
            var page := PageOf(read, Everything);
            && page.items == stream[..Min(n, |stream|)]
            && (page.next.Some? <==> n < |stream|)
            && (page.next.Some? ==> After(read.table, page.next) == stream[n..])
  {
    hide After, IsTable, Cut, Chosen;
    var stream := After(read.table, read.cursor);
    var n := Capacity(read.limit);
    ResumesBehindThePage(read, Everything);
    UnfilteredPage(stream, n);
    UnfilteredPage(stream[..Min(n, |stream|)], n);
  }

  lemma {:induction false} UnfilteredRun<V>(walk: seq<Read<V>>, table: seq<Entry<V>>, n: nat)
    requires IsRun(walk, Everything) && AllOf(walk, table) && IsFinished(walk, Everything)
    requires n > 0 && forall read | read in walk :: Capacity(read.limit) == n
    requires After(table, walk[0].cursor) != []
    ensures |walk| == StartedPages(|After(table, walk[0].cursor)|, n)
    ensures forall read | read in walk :: PageOf(read, Everything).items != []
    decreases |walk|
  {
    hide IsTable, PageOf, After, StartedPages;
    assert walk[0] in walk;
    UnfilteredRead(walk[0]);
    OneMorePage(|After(table, walk[0].cursor)|, n);
    if |walk| > 1 {
      TailOfRun(walk, Everything, table);
      UnfilteredRun(walk[1..], table, n);
      assert walk == [walk[0]] + walk[1..];
    }
  }

  /** In memory a walk reads one page per started `n` entries, and none of them is empty. */
  lemma UnfilteredPageCount<V>(walk: seq<Read<V>>, table: seq<Entry<V>>, n: nat)
    requires IsWalk(walk, Everything) && AllOf(walk, table) && IsFinished(walk, Everything)
    requires n > 0 && forall read | read in walk :: Capacity(read.limit) == n
    ensures table != [] ==> |walk| == StartedPages(|table|, n) && forall read | read in walk :: PageOf(read, Everything).items != []
    ensures table == [] ==> |walk| == 1
  {
    hide PageOf, StartedPages;
    AfterNone(table);
    if table == [] {
      WalkIsBounded(walk, Everything, table);
      NothingChosen<V, V>(Everything);
    } else {
      UnfilteredRun(walk, table, n);
    }
  }

  lemma NothingBeforeEmpty(a: Bytes)
    ensures !Before(a, [])
  {
  }

  lemma {:induction false} AfterNone<V>(entries: seq<Entry<V>>)
    ensures After(entries, None) == entries
    decreases |entries|
  {
    if entries != [] {
      AfterNone(entries[1..]);
    }
  }

  /** The only page the shared tail refuses: one item per page and a first key that is empty. */
  lemma EmptyCursorExactly<V, T>(entries: seq<Entry<V>>, cursor: Option<Bytes>, n: nat, select: Entry<V> -> Result<Option<T>>)
    requires IsTable(entries) && n > 0
    ensures FinishPage(Page(After(entries, cursor), n, select)).Err? <==>
              cursor.None? && n == 1 && |entries| > 1 && entries[0].key == [] && Picks(select, entries[0])
  {
    hide Before, BytesLe;
    var stream := After(entries, cursor);
    if FinishPage(Page(stream, n, select)).Err? {
      EmptyCursorOnlyThere(entries, cursor, n, select);
    } else if cursor.None? && n == 1 && |entries| > 1 && entries[0].key == [] {
      AfterNone(entries);
    }
  }

  lemma EmptyCursorOnlyThere<V, T>(entries: seq<Entry<V>>, cursor: Option<Bytes>, n: nat, select: Entry<V> -> Result<Option<T>>)
    requires IsTable(entries) && n > 0 && Page(After(entries, cursor), n, select).next == Some([])
    ensures cursor.None? && n == 1 && |entries| > 1 && entries[0].key == [] && Picks(select, entries[0])
  {
    hide Before, BytesLe, Chosen, Cut, After;
    var page := Page(After(entries, cursor), n, select);
    PageIsExact(entries, cursor, n, select);
    var last := page.items[n - 1];
    assert last in page.items;
    if n > 1 {
      assert Before(page.items[0].key, last.key);
      NothingBeforeEmpty(page.items[0].key);
      assert false;
    }
    if cursor.Some? {
      NothingBeforeEmpty(cursor.value);
      assert false;
    }
    var i :| 0 <= i < |entries| && entries[i] == last;
    if i > 0 {
      NothingBeforeEmpty(entries[0].key);
      assert false;
    }
    AfterNone(entries);
  }
}
