/**
 Convergent removal evidence: the one cleanup record a subject's slot holds, and the cleanup
 checkpoint whose watermark only grows.
 */
module Tombstones {
  import opened Ordering
  import opened Results
  import opened Storage
  import opened FaultyStorage

  type NodeId = string
  type PublicKey = string
  type Bytes = seq<Byte>

  /** What the merge reads out of a record's canonical encoding. */
  datatype Decoded = Decoded(subject: NodeId, subjectKey: PublicKey, issuer: NodeId, stamp: int)
  type Decoder = Bytes -> Decoded

  datatype Winner = StoredWins | FreshWins

  datatype Install = Installed | Unchanged

  /** Two verified records over one binding: the earlier stamp wins, the encoding breaks ties. */
  function CleanupMerge(decode: Decoder, stored: Bytes, offered: Bytes): Result<Winner> {
    if decode(stored).subjectKey != decode(offered).subjectKey then Err(Error(Conflict, "cleanup record"))
    else if decode(offered).stamp < decode(stored).stamp then Ok(FreshWins)
    else if decode(offered).stamp > decode(stored).stamp then Ok(StoredWins)
    else if BytesLe(offered, stored) && offered != stored then Ok(FreshWins)
    else Ok(StoredWins)
  }

  /** The slot after one delivery. */
  function Deliver(decode: Decoder, slot: Option<Bytes>, offered: Bytes): (Option<Bytes>, Result<Install>) {
    match slot
    case None => (Some(offered), Ok(Installed))
    case Some(stored) =>
      if stored == offered then (slot, Ok(Unchanged))
      else
        match CleanupMerge(decode, stored, offered)
        case Err(error) => (slot, Err(error))
        case Ok(StoredWins) => (slot, Ok(Unchanged))
        case Ok(FreshWins) => (Some(offered), Ok(Installed))
  }

  /** The answer tells whether the slot changed, and a record is refused exactly for another pinned key. */
  lemma AnswersTellTheSlot(decode: Decoder, slot: Option<Bytes>, offered: Bytes)
    ensures var (after, answer) := Deliver(decode, slot, offered);
            && (answer == Ok(Installed) <==> after != slot)
            && (answer == Ok(Installed) ==> after == Some(offered))
            && (answer == Ok(Unchanged) ==> slot.Some? && Precedes(decode, slot.value, offered))
            && (answer.Err? <==> slot.Some? && decode(slot.value).subjectKey != decode(offered).subjectKey)
  {
    if slot.Some? { PrecedesIsTotal(decode, slot.value, offered, offered); }
  }

  function DeliverAll(decode: Decoder, slot: Option<Bytes>, records: seq<Bytes>): Option<Bytes>
    decreases |records|
  {
    if records == [] then slot
    else Deliver(decode, DeliverAll(decode, slot, records[..|records| - 1]), records[|records| - 1]).0
  }

  /** The canonical order of records: by stamp, then by encoding. */
  predicate Precedes(decode: Decoder, a: Bytes, b: Bytes) {
    decode(a).stamp < decode(b).stamp || (decode(a).stamp == decode(b).stamp && BytesLe(a, b))
  }

  lemma PrecedesIsTotal(decode: Decoder, a: Bytes, b: Bytes, c: Bytes)
    ensures Precedes(decode, a, b) || Precedes(decode, b, a)
    ensures Precedes(decode, a, b) && Precedes(decode, b, a) ==> a == b
    ensures Precedes(decode, a, b) && Precedes(decode, b, c) ==> Precedes(decode, a, c)
  {
    BytesOrderIsTotal();
    assert IsTotalOrder(BytesLe);
    hide LexLe, BytesLe;
    assert BytesLe(a, b) || BytesLe(b, a);
    assert BytesLe(a, b) && BytesLe(b, a) ==> a == b;
    assert BytesLe(a, b) && BytesLe(b, c) ==> BytesLe(a, c);
  }

  /** `m` is the first in canonical order of the delivered records that pin `key`. */
  ghost predicate IsWinner(decode: Decoder, records: seq<Bytes>, key: PublicKey, m: Bytes) {
    && m in records && decode(m).subjectKey == key
    && forall r | r in records && decode(r).subjectKey == key :: Precedes(decode, m, r)
  }

  lemma OneMoreDelivery(decode: Decoder, records: seq<Bytes>, key: PublicKey, m: Bytes, offered: Bytes)
    requires IsWinner(decode, records, key, m)
    ensures var slot := Deliver(decode, Some(m), offered).0;
            slot.Some? && IsWinner(decode, records + [offered], key, slot.value)
  {
    hide BytesLe;
    assert forall r :: r in records + [offered] <==> r in records || r == offered;
    var slot := Deliver(decode, Some(m), offered).0;
    PrecedesIsTotal(decode, m, offered, m);
    PrecedesIsTotal(decode, offered, offered, offered);
    assert m in records;
    forall r | r in records + [offered] && decode(r).subjectKey == key ensures Precedes(decode, slot.value, r) {
      PrecedesIsTotal(decode, offered, m, r);
    }
  }

  /**
   After any deliveries the slot holds the winner among the records that pin the first one's key;
   one more record that pins another key is refused and changes nothing.
   */
  lemma {:induction false} SlotIsTheWinner(decode: Decoder, records: seq<Bytes>)
    requires records != []
    ensures var slot := DeliverAll(decode, None, records);
            && slot.Some? && IsWinner(decode, records, decode(records[0]).subjectKey, slot.value)
            && forall other | decode(other).subjectKey != decode(records[0]).subjectKey ::
                 Deliver(decode, slot, other).0 == slot && Deliver(decode, slot, other).1.Err?
    decreases |records|
  {
    var before, last := records[..|records| - 1], records[|records| - 1];
    assert records == before + [last];
    if before == [] {
      assert DeliverAll(decode, None, before) == None;
      PrecedesIsTotal(decode, last, last, last);
    } else {
      SlotIsTheWinner(decode, before);
      assert before[0] == records[0];
      OneMoreDelivery(decode, before, decode(records[0]).subjectKey, DeliverAll(decode, None, before).value, last);
    }
  }

  /** Every order and repetition of the same records over one pinned key leaves the same slot. */
  lemma TombstonesConverge(decode: Decoder, a: seq<Bytes>, b: seq<Bytes>)
    requires a != [] && forall r :: r in a <==> r in b
    requires forall r, s | r in a && s in a :: decode(r).subjectKey == decode(s).subjectKey
    ensures DeliverAll(decode, None, a) == DeliverAll(decode, None, b)
  {
    assert a[0] in a && a[0] in b;
    SlotIsTheWinner(decode, a);
    SlotIsTheWinner(decode, b);
    assert b[0] in b;
    var x, y := DeliverAll(decode, None, a).value, DeliverAll(decode, None, b).value;
    PrecedesIsTotal(decode, x, y, x);
  }

  // ---- the checkpoint ----

  datatype Checkpoint = Checkpoint(watermark: int, issuer: NodeId)

  /** Max-wins by watermark; an equal one leaves the stored record. */
  function Advance(slot: Option<Checkpoint>, c: Checkpoint): Option<Checkpoint> {
    if slot.Some? && slot.value.watermark >= c.watermark then slot else Some(c)
  }

  function AdvanceAll(slot: Option<Checkpoint>, checkpoints: seq<Checkpoint>): Option<Checkpoint>
    decreases |checkpoints|
  {
    if checkpoints == [] then slot else Advance(AdvanceAll(slot, checkpoints[..|checkpoints| - 1]), checkpoints[|checkpoints| - 1])
  }

  /** The watermark never decreases and is the maximum of all that were issued or received. */
  lemma {:induction false} WatermarkIsTheMaximum(slot: Option<Checkpoint>, checkpoints: seq<Checkpoint>)
    ensures var r := AdvanceAll(slot, checkpoints);
            && (r.None? <==> slot.None? && checkpoints == [])
            && (slot.Some? ==> r.value.watermark >= slot.value.watermark)
            && (forall c | c in checkpoints :: r.value.watermark >= c.watermark)
            && (r == slot || r.value in checkpoints)
    decreases |checkpoints|
  {
    if checkpoints != [] {
      var before, last := checkpoints[..|checkpoints| - 1], checkpoints[|checkpoints| - 1];
      assert checkpoints == before + [last];
      WatermarkIsTheMaximum(slot, before);
    }
  }

  // ---- persistence ----

  datatype Key = CleanupKey(subject: NodeId) | CheckpointKey | BindingKey(node: NodeId) | OtherKey(name: string)

  datatype Row =
    | CleanupRow(encoding: Bytes)
    | CheckpointRow(checkpoint: Checkpoint)
    | BindingRow(publicKey: PublicKey)
    | OtherRow(content: Bytes)

  type Entries = map<Key, Row>

  function CleanupSlot(e: Entries, subject: NodeId): Option<Bytes> {
    if CleanupKey(subject) in e && e[CleanupKey(subject)].CleanupRow? then Some(e[CleanupKey(subject)].encoding) else None
  }

  function CheckpointSlot(e: Entries): Option<Checkpoint> {
    if CheckpointKey in e && e[CheckpointKey].CheckpointRow? then Some(e[CheckpointKey].checkpoint) else None
  }

  ghost predicate Typed(e: Entries) {
    forall k | k in e ::
      (k.CleanupKey? ==> e[k].CleanupRow?) && (k.CheckpointKey? ==> e[k].CheckpointRow?) && (k.BindingKey? ==> e[k].BindingRow?)
  }

  /** Whether the issuer's key signed the record, as a parameter of the model. */
  type Verifier = (PublicKey, Bytes) -> bool

  function BoundKey(e: Entries, node: NodeId): Option<PublicKey> {
    if BindingKey(node) in e && e[BindingKey(node)].BindingRow? then Some(e[BindingKey(node)].publicKey) else None
  }

  /** The retained bindings vouch for a record: a bound issuer signed it and no other subject key is bound. */
  predicate Vouched(decode: Decoder, verify: Verifier, e: Entries, record: Bytes) {
    && BoundKey(e, decode(record).issuer).Some?
    && verify(BoundKey(e, decode(record).issuer).value, record)
    && BoundKey(e, decode(record).subject) in {None, Some(decode(record).subjectKey)}
  }

  function VerifyRetained(decode: Decoder, verify: Verifier, e: Entries, record: Bytes): (r: Result<()>)
    ensures r.Ok? <==> Vouched(decode, verify, e, record)
    ensures BoundKey(e, decode(record).issuer).None? ==> r == Err(Error(NotTrusted, "cleanup issuer"))
    ensures forall issuerKey, bound ::
              (BoundKey(e, decode(record).issuer) == Some(issuerKey) && BoundKey(e, decode(record).subject) == Some(bound) &&
               verify(issuerKey, record) && bound != decode(record).subjectKey) ==> r == Err(Error(NotTrusted, "cleanup subject binding"))
    ensures forall issuerKey ::
              BoundKey(e, decode(record).issuer) == Some(issuerKey) && !verify(issuerKey, record) ==>
                r == Err(Error(AuthenticationFailed, "cleanup record"))
  {
    match BoundKey(e, decode(record).issuer)
    case None => Err(Error(NotTrusted, "cleanup issuer"))
    case Some(issuerKey) =>
      if !verify(issuerKey, record) then Err(Error(AuthenticationFailed, "cleanup record"))
      else
        match BoundKey(e, decode(record).subject)
        case None => Ok(())
        case Some(bound) =>
          if bound != decode(record).subjectKey then Err(Error(NotTrusted, "cleanup subject binding")) else Ok(())
  }

  /** One conditional put under the value the snapshot showed; anything but a commit is an error. */
  method PutCurrent(s: Store<Key, Row>, script: seq<Fault>, key: Key, row: Row)
    returns (s': Store<Key, Row>, rest: seq<Fault>, r: Result<()>)
    ensures s' == s || s'.entries == s.entries[key := row]
    ensures r.Ok? ==> s'.entries == s.entries[key := row]
    ensures r.Err? && r.error.kind == Conflict ==> s' == s
    ensures script == [] ==> rest == [] && r.Ok?
    ensures r.Ok? <==> Head(script) == Pass
  {
    var expected := if key in s.entries then Exact(s.entries[key]) else Absent;
    var id := FreshId(s.receipts.Keys);
    var t := Transaction(id, s.revision, [Put(key, expected, row)]);
    ApplyOne(s, t.operations[0]);
    assert AllConditions(s, t.operations);
    rest := Rest(script);
    var outcome;
    s', outcome := TryCommit(s, script, t);
    if outcome.Err? {
      return s', rest, Err(outcome.error);
    }
    match outcome.value {
      case Committed(_) => return s', rest, Ok(());
      case Unknown(_, _) => return s', rest, Err(Error(CommitUnknown, "storage commit"));
      case _ => return s', rest, Err(Error(Conflict, "storage commit"));
    }
  }

  /**
   Persists one cleanup record into its subject's slot.  A record the retained bindings do not
   vouch for is refused with no change; a vouched one is exactly one delivery.
   */
  method PersistCleanup(decode: Decoder, verify: Verifier, s: Store<Key, Row>, script: seq<Fault>, offered: Bytes)
    returns (s': Store<Key, Row>, r: Result<Install>)
    requires Typed(s.entries)
    ensures var subject := decode(offered).subject;
            var (slot, answer) := Deliver(decode, CleanupSlot(s.entries, subject), offered);
            && Typed(s'.entries)
            && (s' == s || s'.entries == s.entries[CleanupKey(subject) := CleanupRow(offered)])
            && (!Vouched(decode, verify, s.entries, offered) || answer.Err? ==> s' == s && r.Err?)
            && (r.Ok? ==> CleanupSlot(s'.entries, subject) == slot && r == answer)
            && (r.Ok? && r.value.Unchanged? ==> s' == s)
            && (script == [] && Vouched(decode, verify, s.entries, offered) ==> r == answer)
            && (Vouched(decode, verify, s.entries, offered) ==>
                  if answer == Ok(Installed) then r.Ok? <==> Head(script) == Pass else r == answer)
  {
    s' := s;
    var subject := decode(offered).subject;
    var vouched := VerifyRetained(decode, verify, s.entries, offered);
    if vouched.Err? {
      return s', Err(vouched.error);
    }
    if CleanupKey(subject) in s.entries {
      var stored := s.entries[CleanupKey(subject)].encoding;
      if stored == offered {
        return s', Ok(Unchanged);
      }
      match CleanupMerge(decode, stored, offered) {
        case Err(error) => return s', Err(error);
        case Ok(StoredWins) => return s', Ok(Unchanged);
        case Ok(FreshWins) =>
      }
    }
    var put, rest;
    s', rest, put := PutCurrent(s, script, CleanupKey(subject), CleanupRow(offered));
    return s', if put.Ok? then Ok(Installed) else Err(put.error);
  }

  /** A refused put is fine when a checkpoint at least as high is in force. */
  function AfterRefusal(latest: Option<Checkpoint>, requested: int): Result<int> {
    if latest.Some? && latest.value.watermark >= requested then Ok(latest.value.watermark)
    else Err(Error(Conflict, "cleanup checkpoint"))
  }

  /** Issues a checkpoint at the requested time; the answer is the watermark then in force. */
  method IssueCheckpoint(s: Store<Key, Row>, script: seq<Fault>, requested: int, issuer: NodeId)
    returns (s': Store<Key, Row>, r: Result<int>)
    requires Typed(s.entries)
    ensures Typed(s'.entries)
    ensures CheckpointSlot(s'.entries) == CheckpointSlot(s.entries) ||
            CheckpointSlot(s'.entries) == Advance(CheckpointSlot(s.entries), Checkpoint(requested, issuer))
    ensures r.Ok? ==>
              && CheckpointSlot(s'.entries) == Advance(CheckpointSlot(s.entries), Checkpoint(requested, issuer))
              && CheckpointSlot(s'.entries).Some? && r.value == CheckpointSlot(s'.entries).value.watermark
    ensures script == [] ==> r.Ok?
    ensures r.Ok? <==> Head(script) == Pass || Advance(CheckpointSlot(s.entries), Checkpoint(requested, issuer)) == CheckpointSlot(s.entries)
  {
    s' := s;
    if CheckpointKey in s.entries && s.entries[CheckpointKey].checkpoint.watermark >= requested {
      return s', Ok(s.entries[CheckpointKey].checkpoint.watermark);
    }
    var put, rest;
    s', rest, put := PutCurrent(s, script, CheckpointKey, CheckpointRow(Checkpoint(requested, issuer)));
    if put.Ok? {
      return s', Ok(requested);
    }
    return s', if put.error.kind == Conflict then AfterRefusal(CheckpointSlot(s'.entries), requested) else Err(put.error);
  }

  /** Persists a received checkpoint: a stale one is silently kept out. */
  method PersistCheckpoint(s: Store<Key, Row>, script: seq<Fault>, c: Checkpoint) returns (s': Store<Key, Row>, r: Result<()>)
    requires Typed(s.entries)
    ensures Typed(s'.entries)
    ensures CheckpointSlot(s'.entries) == CheckpointSlot(s.entries) ||
            CheckpointSlot(s'.entries) == Advance(CheckpointSlot(s.entries), c)
    ensures r.Ok? ==> CheckpointSlot(s'.entries) == Advance(CheckpointSlot(s.entries), c)
    ensures script == [] ==> r.Ok?
    ensures r.Ok? <==> Head(script) == Pass || Advance(CheckpointSlot(s.entries), c) == CheckpointSlot(s.entries)
  {
    s' := s;
    if CheckpointKey in s.entries && s.entries[CheckpointKey].checkpoint.watermark >= c.watermark {
      return s', Ok(());
    }
    var rest;
    s', rest, r := PutCurrent(s, script, CheckpointKey, CheckpointRow(c));
  }
}
