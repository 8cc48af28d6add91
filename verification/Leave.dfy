/** The crash-resumable leave: journal, record, replacement identity, wipe, former key, completion. */
module Leave {
  import opened Results
  import opened Ordering
  import opened Storage
  import opened IdentityRecords
  import opened IdentityMachine
  import opened FaultyStorage
  import opened IdentityNode
  import opened Deletion
  import opened Lifecycle
  import opened LeaveProgress

  const WIPE_BATCH := 64
  const WIPE_RETRIES := 8
  const INTENT_RACE_BUDGET := 8

  ghost predicate SameRows(e: Entries, f: Entries) {
    forall k: Key | k.Row? :: (k in e <==> k in f) && (k in e ==> e[k] == f[k])
  }

  // ---- the leave record ----

  /**
   Persists a verified leave record: the exact record again is a no-op, a different one for the
   same node conflicts, and a binding with another key refuses it, none of them with any effect.
   */
  method PersistRecord(n: Node, record: Record) returns (r: Result<()>, ghost id: TransactionId)
    requires n.Valid() && record.LeaveRecordV1?
    modifies n`store, n`script
    ensures n.Valid()
    ensures n.store == old(n.store) ||
            (LeaveRecord(record.node) !in old(n.store.entries) &&
             n.store.entries == Outcome(old(n.store.entries), id, PersistLeaveRecord(record)))
    ensures r.Ok? ==> LeaveRecord(record.node) in n.store.entries && n.store.entries[LeaveRecord(record.node)] == record
    ensures !BindingAgrees(old(n.store.entries), record.node, record.publicKey) ==>
              r == Err(Error(NotTrusted, "leave record binding")) && n.store == old(n.store) && n.script == old(n.script)
    ensures BindingAgrees(old(n.store.entries), record.node, record.publicKey) && LeaveRecord(record.node) in old(n.store.entries) ==>
              && n.store == old(n.store) && n.script == old(n.script)
              && r == (if old(n.store.entries)[LeaveRecord(record.node)] == record then Ok(()) else Err(Error(Conflict, "leave record")))
    ensures old(n.script) == [] ==> n.script == []
    ensures LeaveRecord(record.node) !in old(n.store.entries) && BindingAgrees(old(n.store.entries), record.node, record.publicKey) ==>
              n.script == Rest(old(n.script)) && (r.Ok? <==> Head(old(n.script)) == Pass)
  {
    id := "";
    if !BindingAgrees(n.store.entries, record.node, record.publicKey) {
      return Err(Error(NotTrusted, "leave record binding")), id;
    }
    if LeaveRecord(record.node) in n.store.entries {
      if n.store.entries[LeaveRecord(record.node)] == record {
        return Ok(()), id;
      }
      return Err(Error(Conflict, "leave record")), id;
    }
    r, id := n.CommitOrFail(PersistLeaveRecord(record), "leave record");
  }

  /**
   A persisted record is delivered again, or another one for the same node is: through any faults
   the repeat of a success succeeds without a call and the other one conflicts, with no change.
   */
  method PersistAgain(n: Node, record: Record, other: Record) returns (first: Result<()>, second: Result<()>)
    requires n.Valid() && record.LeaveRecordV1? && other.LeaveRecordV1? && other.node == record.node
    modifies n`store, n`script
    ensures n.Valid()
    ensures first.Ok? && other == record ==> second.Ok?
    ensures first.Ok? && other != record ==> second.Err?
    ensures first.Ok? ==> LeaveRecord(record.node) in n.store.entries && n.store.entries[LeaveRecord(record.node)] == record
    ensures (old(n.script) == [] && BindingAgrees(old(n.store.entries), record.node, record.publicKey) &&
             LeaveRecord(record.node) !in old(n.store.entries)) ==> first.Ok?
  {
    hide Sound, PendingInv, Backed;
    ghost var id;
    first, id := PersistRecord(n, record);
    second, id := PersistRecord(n, other);
  }

  /** Signs the record with the former key while it is still held. */
  method SignRecord(n: Node, identity: Record, stamp: int) returns (r: Result<Record>)
    requires n.Valid() && identity.IdentityV1?
    modifies n`script
    ensures n.Valid() && n.script == Rest(old(n.script))
    ensures r.Ok? <==> Head(old(n.script)) == Pass && n.Live(identity.handle)
    ensures r.Ok? ==> r.value == LeaveRecordV1(identity.node, identity.publicKey, stamp)
  {
    var _ :- n.Sign(identity.handle);
    return Ok(LeaveRecordV1(identity.node, identity.publicKey, stamp));
  }

  /** What standing at `p` says about the entries the leave reads. */
  lemma PathFacts(n: Node, plan: Plan, p: Progress)
    requires n.Valid() && OnPath(n, plan, p)
    ensures plan.intent.LeaveIntentV1? && plan.intent.former.IdentityV1?
    ensures plan.intent.former.node != plan.intent.replacementNode && (!p.Journaled? ==> p.record.LeaveRecordV1?)
    ensures var e := n.store.entries;
            var former := plan.intent.former;
            && LocalIdentity in e
            && e[LocalIdentity] == (if p.Rank() < 2 then former else Replacement(plan.intent, plan.key))
            && (LeaveIntent in e <==> !p.Completed?) && (LeaveIntent in e ==> e[LeaveIntent] == plan.intent)
            && (LeaveRecord(former.node) in e <==> !p.Journaled?)
            && !Spent(e, plan.key.handle) && plan.key.handle != former.handle
            && (p.Rank() < 2 ==> n.Live(former.handle)) && (n.Live(former.handle) <==> former.handle !in n.gone)
            && Pending(LocalIdentityPurpose) !in e
  {
    hide Sound, PendingInv, Backed, KeptAt, Kept;
    var e := n.store.entries;
    var former := plan.intent.former;
    LeaveIsNeverMixed(plan, n.mint, p);
    OwnKeysAt(plan, n.mint, p);
    KeptAgrees(e, LocalIdentity);
    KeptAgrees(e, LeaveIntent);
    KeptAgrees(e, LeaveRecord(former.node));
    KeptAgrees(e, DeletionIntent(plan.key.handle));
    KeptAgrees(e, DeletedKey(plan.key.handle));
    KeptAgrees(e, DeletionIntent(former.handle));
    KeptAgrees(e, DeletedKey(former.handle));
    KeptAgrees(e, Pending(LocalIdentityPurpose));
    assert n.created[former.operation].handle == former.handle;
  }

  lemma RecordedIsOnPath(n: Node, plan: Plan, e: Entries, id: TransactionId, record: Record)
    requires Feasible(plan, n.mint) && Kept(e) == KeptAt(plan, Journaled)
    requires record.LeaveRecordV1? && record.node == plan.intent.former.node && record.publicKey == plan.intent.former.publicKey
    requires plan.intent.former.operation in n.created
    requires n.created[plan.intent.former.operation] == CreatedKey(plan.intent.former.handle, plan.intent.former.publicKey)
    requires n.store.entries == Outcome(e, id, PersistLeaveRecord(record))
    ensures OnPath(n, plan, Recorded(record)) && SameRows(e, n.store.entries)
  {
    RecordStep(plan, n.mint, e, id, record);
  }

  /** Completes a journaled leave whose record was never persisted; an existing record is kept. */
  method EnsureRecord(n: Node, context: Record, stamp: int, ghost plan: Plan, ghost p: Progress)
    returns (r: Result<()>, ghost q: Progress)
    requires n.Valid() && OnPath(n, plan, p) && !p.Completed?
    requires LocalIdentity in n.store.entries && context == n.store.entries[LocalIdentity]
    modifies n`store, n`script
    ensures n.Valid() && OnPath(n, plan, q) && Onward(p, q) && !q.Completed?
    ensures SameRows(old(n.store.entries), n.store.entries)
    ensures (n.store == old(n.store) && q == p) ||
            (p.Journaled? && q.Recorded? && q.record.LeaveRecordV1? && q.record.stamp == stamp)
    ensures r.Ok? ==> !q.Journaled?
    ensures p.Journaled? ==> (r.Ok? <==> Head(old(n.script)) == Pass && Head(Rest(old(n.script))) == Pass)
    ensures !p.Journaled? ==> r.Ok?
    ensures r.Ok? ==> n.script == if p.Journaled? then Rest(Rest(old(n.script))) else old(n.script)
    ensures old(n.script) == [] ==> n.script == [] && r.Ok?
  {
    hide Sound, PendingInv, Backed, KeptAt, Kept, Feasible, HandlesNameOperations, Outcome;
    q := p;
    PathFacts(n, plan, p);
    ghost var e := n.store.entries;
    var former := n.store.entries[LeaveIntent].former;
    if LeaveRecord(former.node) in n.store.entries {
      return Ok(()), q;
    }
    if context.node != former.node {
      return Err(Error(StorageCorrupt, "leave")), q;
    }
    var signed := SignRecord(n, context, stamp);
    if signed.Err? {
      return Err(signed.error), q;
    }
    ghost var id;
    r, id := PersistRecord(n, signed.value);
    if n.store != old(n.store) {
      q := Recorded(signed.value);
      RecordedIsOnPath(n, plan, e, id, signed.value);
    }
  }

  // ---- the wipe ----

  function FamilyRows(e: Entries, family: Family): set<Key> {
    set k | k in e && k.Row? && k.family == family
  }

  /** The rows of `taken` come before those of `left` in scan order. */
  ghost predicate ScansBefore(taken: set<Key>, left: set<Key>) {
    forall a, b | a in taken && b in left && a.Row? && b.Row? :: StringLe(a.name, b.name)
  }

  /** The next row of an ordered scan. */
  method NextRow(rest: set<Key>) returns (k: Key)
    requires rest != {} && forall o | o in rest :: o.Row?
    ensures k in rest && ScansBefore({k}, rest)
  {
    hide ScansBefore, StringLe;
    k :| k in rest;
    var seen, ahead := {k}, rest - {k};
    FirstOfOneMore(k, k, {});
    while ahead != {}
      invariant seen + ahead == rest && k in seen && ScansBefore({k}, seen)
      decreases |ahead|
    {
      var o :| o in ahead;
      FirstOfOneMore(k, o, seen);
      ahead, seen := ahead - {o}, seen + {o};
      if !StringLe(k.name, o.name) {
        k := o;
      }
    }
    assert seen == rest;
  }

  /** The first of the rows seen so far and one more. */
  lemma FirstOfOneMore(k: Key, o: Key, seen: set<Key>)
    requires k.Row? && o.Row? && (seen == {} || ScansBefore({k}, seen)) && (k in seen || k == o)
    ensures if StringLe(k.name, o.name) then ScansBefore({k}, seen + {o}) else ScansBefore({o}, seen + {o})
    ensures seen == {} ==> ScansBefore({k}, {o})
  {
    hide StringLe;
    NameOrder(k.name, o.name, o.name);
    NameOrder(o.name, o.name, o.name);
    forall b | b in seen && b.Row? && !StringLe(k.name, o.name) ensures StringLe(o.name, b.name) {
      NameOrder(o.name, k.name, b.name);
    }
  }

  lemma NameOrder(a: string, b: string, c: string)
    ensures StringLe(a, b) || StringLe(b, a)
    ensures StringLe(a, b) && StringLe(b, c) ==> StringLe(a, c)
  {
    assert IsTotalOrder(CharLe);
    LexTotal(CharLe, a, b);
    if StringLe(a, b) && StringLe(b, c) {
      LexTransitive(CharLe, a, b, c);
    }
  }

  ghost predicate InScanOrder(rows: seq<Key>) {
    forall i, j | 0 <= i < j < |rows| && rows[i].Row? && rows[j].Row? :: StringLe(rows[i].name, rows[j].name)
  }

  /** The scan has delivered `rows` of `all` and still has `rest`. */
  ghost predicate Scanned(all: set<Key>, rows: seq<Key>, rest: set<Key>) {
    && rest == all - Elements(rows) && Elements(rows) <= all && NoRepeats(rows)
    && InScanOrder(rows) && ScansBefore(Elements(rows), rest)
  }

  lemma ScanStep(all: set<Key>, rows: seq<Key>, rest: set<Key>, k: Key)
    requires Scanned(all, rows, rest) && k in rest && ScansBefore({k}, rest)
    ensures Scanned(all, rows + [k], rest - {k})
  {
    hide StringLe;
    assert Elements(rows + [k]) == Elements(rows) + {k};
    forall i | 0 <= i < |rows| ensures rows[i] != k && (rows[i].Row? && k.Row? ==> StringLe(rows[i].name, k.name)) {
      assert rows[i] in Elements(rows);
    }
  }

  /** One scan: the first batch of the family's rows in key order, each once. */
  method ScanBatch(e: Entries, family: Family) returns (rows: seq<Key>)
    ensures Scanned(FamilyRows(e, family), rows, FamilyRows(e, family) - Elements(rows))
    ensures forall k | k in rows :: k in FamilyRows(e, family)
    ensures |rows| == if |FamilyRows(e, family)| < WIPE_BATCH then |FamilyRows(e, family)| else WIPE_BATCH
  {
    hide InScanOrder, ScansBefore, NoRepeats;
    rows := [];
    var all := FamilyRows(e, family);
    var rest := all;
    ScanStarts(all);
    while rest != {} && |rows| < WIPE_BATCH
      invariant Scanned(all, rows, rest) && |rest| + |rows| == |all| && |rows| <= WIPE_BATCH
      decreases |rest|
    {
      var k := NextRow(rest);
      ScanStep(all, rows, rest, k);
      rows := rows + [k];
      rest := rest - {k};
    }
    assert forall k | k in rows :: k in Elements(rows);
  }

  lemma ScanStarts(all: set<Key>)
    ensures Scanned(all, [], all)
  {
    assert Elements<Key>([]) == {};
  }

  lemma BatchShrinksFamily(e: Entries, family: Family, rows: seq<Key>)
    requires NoRepeats(rows) && forall k | k in rows :: k in FamilyRows(e, family)
    ensures FamilyRows(e - Elements(rows), family) == FamilyRows(e, family) - Elements(rows)
    ensures |FamilyRows(e - Elements(rows), family)| == |FamilyRows(e, family)| - |rows|
    ensures forall other: Family | other != family :: FamilyRows(e - Elements(rows), other) == FamilyRows(e, other)
  {
    DistinctCount(rows);
    assert FamilyRows(e - Elements(rows), family) == FamilyRows(e, family) - Elements(rows);
    assert Elements(rows) <= FamilyRows(e, family);
  }

  /** The rows an attempt has removed, on top of those already gone. */
  ghost predicate RowsRemoved(e: Entries, f: Entries) {
    && Kept(e) == Kept(f)
    && forall k | k in f :: k in e && e[k] == f[k]
  }

  lemma MoreRowsRemoved(e: Entries, f: Entries, rows: seq<Key>)
    requires e == f || RowsRemoved(e, f)
    requires forall k | k in rows :: k.Row?
    ensures RowsRemoved(e, f - Elements(rows))
    ensures rows == [] ==> RowsRemoved(e, f)
  {
    WipeStep(f, Elements(rows));
  }

  lemma RowsRemovedTransitive(e: Entries, f: Entries, g: Entries)
    requires RowsRemoved(e, f) && RowsRemoved(f, g)
    ensures RowsRemoved(e, g)
  {
    hide Kept;
  }

  function Batches(rows: nat): nat {
    (rows + WIPE_BATCH - 1) / WIPE_BATCH
  }

  lemma OneBatch(rows: nat)
    ensures Batches(0) == 0
    ensures rows > 0 ==> Batches(rows) == 1 + Batches(if rows < WIPE_BATCH then 0 else rows - WIPE_BATCH)
  {
  }

  /** The faults left once `batches` batches of a family are wiped, if the faults let it come to that. */
  function AfterFamily(script: seq<Fault>, batches: nat, retries: nat): Option<seq<Fault>>
    requires retries <= WIPE_RETRIES
    decreases batches, WIPE_RETRIES - retries
  {
    if batches == 0 then Some(script)
    else
      match Verdict(script)
      case Yes => AfterFamily(AfterVerdict(script), batches - 1, retries)
      case No => if retries == WIPE_RETRIES then None else AfterFamily(AfterVerdict(script), batches, retries + 1)
      case NoAnswer => None
  }

  /** Refusals up to the retry budget are survived, and no more. */
  lemma {:induction false} FewAbortsAreWiped(aborts: seq<Fault>, batches: nat, retries: nat)
    requires retries <= WIPE_RETRIES && forall fault | fault in aborts :: fault == Drop
    ensures AfterFamily(aborts, batches, retries) ==
            if batches == 0 then Some(aborts) else if retries + |aborts| <= WIPE_RETRIES then Some([]) else None
    decreases |aborts|, batches
  {
    if batches > 0 {
      if aborts == [] {
        FewAbortsAreWiped([], batches - 1, retries);
      } else {
        assert aborts[0] in aborts && forall fault | fault in aborts[1..] :: fault in aborts;
        if retries < WIPE_RETRIES { FewAbortsAreWiped(aborts[1..], batches, retries + 1); }
      }
    }
  }

  lemma BatchTurn(script: seq<Fault>, batches: nat, retries: nat)
    requires retries <= WIPE_RETRIES
    ensures batches == 0 ==> AfterFamily(script, batches, retries) == Some(script)
    ensures batches > 0 && Verdict(script) == Yes ==>
              AfterFamily(script, batches, retries) == AfterFamily(AfterVerdict(script), batches - 1, retries)
    ensures batches > 0 && Verdict(script) == No ==>
              AfterFamily(script, batches, retries) ==
              if retries == WIPE_RETRIES then None else AfterFamily(AfterVerdict(script), batches, retries + 1)
    ensures batches > 0 && Verdict(script) == NoAnswer ==> AfterFamily(script, batches, retries) == None
  {
  }

  /** The same for families one after the other. */
  function AfterFamilies(script: seq<Fault>, work: seq<nat>): Option<seq<Fault>>
    decreases |work|
  {
    if work == [] then Some(script)
    else
      match AfterFamily(script, work[0], 0)
      case Some(rest) => AfterFamilies(rest, work[1..])
      case None => None
  }

  lemma FamilyTurn(script: seq<Fault>, work: seq<nat>, i: nat)
    requires i < |work|
    ensures AfterFamilies(script, work[i..]) ==
            match AfterFamily(script, work[i], 0)
            case Some(rest) => AfterFamilies(rest, work[i + 1..])
            case None => None
  {
    hide AfterFamily;
    assert work[i..][0] == work[i] && work[i..][1..] == work[i + 1..];
  }

  /** Whole batches are gone, from the front of the scan. */
  ghost predicate WipedInOrder(before: set<Key>, now: set<Key>) {
    && now <= before && ScansBefore(before - now, now)
    && (now == {} || (|before| - |now|) % WIPE_BATCH == 0)
  }

  lemma NothingWiped(before: set<Key>)
    ensures WipedInOrder(before, before)
  {
    assert before - before == {};
  }

  lemma OneMoreBatch(before: set<Key>, now: set<Key>, rows: seq<Key>, next: set<Key>)
    requires WipedInOrder(before, now) && next == now - Elements(rows) && |next| == |now| - |rows|
    requires ScansBefore(Elements(rows), next) && now != {}
    requires |rows| == if |now| < WIPE_BATCH then |now| else WIPE_BATCH
    ensures WipedInOrder(before, next)
  {
    assert before - next <= (before - now) + Elements(rows);
  }

  /** Of this family whole batches are gone, from the front of the scan, and nothing else. */
  ghost predicate FamilyWiped(e: Entries, f: Entries, family: Family) {
    && RowsRemoved(e, f)
    && (forall other: Family | other != family :: FamilyRows(f, other) == FamilyRows(e, other))
    && WipedInOrder(FamilyRows(e, family), FamilyRows(f, family))
  }

  lemma NothingOfFamilyWiped(e: Entries, family: Family)
    ensures FamilyWiped(e, e, family)
  {
    hide RowsRemoved, WipedInOrder;
    MoreRowsRemoved(e, e, []);
    NothingWiped(FamilyRows(e, family));
  }

  lemma OneMoreBatchOfFamily(e: Entries, f: Entries, family: Family, rows: seq<Key>)
    requires FamilyWiped(e, f, family) && Scanned(FamilyRows(f, family), rows, FamilyRows(f, family) - Elements(rows))
    requires forall k | k in rows :: k in FamilyRows(f, family)
    requires rows != [] && |rows| == if |FamilyRows(f, family)| < WIPE_BATCH then |FamilyRows(f, family)| else WIPE_BATCH
    ensures FamilyWiped(e, f - Elements(rows), family)
    ensures |FamilyRows(f - Elements(rows), family)| == |FamilyRows(f, family)| - |rows|
    ensures Batches(|FamilyRows(f, family)|) == 1 + Batches(|FamilyRows(f - Elements(rows), family)|)
  {
    hide RowsRemoved, WipedInOrder, ScansBefore, InScanOrder, Batches;
    BatchShrinksFamily(f, family, rows);
    OneMoreBatch(FamilyRows(e, family), FamilyRows(f, family), rows, FamilyRows(f - Elements(rows), family));
    MoreRowsRemoved(e, f, rows);
    OneBatch(|FamilyRows(f, family)|);
  }

  /** Commits the removal of one scanned batch. */
  method CommitWipe(n: Node, rows: seq<Key>, ghost family: Family) returns (r: Result<bool>)
    requires n.Valid() && rows != [] && |rows| <= WIPE_BATCH && NoRepeats(rows)
    requires forall k | k in rows :: k in FamilyRows(n.store.entries, family)
    modifies n`store, n`script
    ensures n.Valid() && n.script == AfterVerdict(old(n.script))
    ensures n.store == old(n.store) ||
            (n.store.entries == old(n.store.entries) - Elements(rows) && n.store.revision == old(n.store.revision) + 1)
    ensures (r == Ok(true) <==> Verdict(old(n.script)) == Yes) && (r == Ok(false) <==> Verdict(old(n.script)) == No)
    ensures r == Ok(true) ==> n.store != old(n.store)
    ensures r == Ok(false) ==> n.store == old(n.store)
  {
    hide Sound, PendingInv, Backed, Verdict, AfterVerdict;
    ghost var id;
    r, id := n.CommitDecision(WipeBatch(rows));
  }

  /**
   Wipes one family in batches.  It removes only rows of that family, whole batches in scan order;
   success means none is left, and comes exactly when at most `WIPE_RETRIES` commits in all are
   proven aborted and none stays undecided; without faults it takes one commit per started batch.
   */
  method WipeFamily(n: Node, family: Family) returns (r: Result<()>)
    requires n.Valid()
    modifies n`store, n`script
    ensures n.Valid() && FamilyWiped(old(n.store.entries), n.store.entries, family)
    ensures r.Ok? ==> FamilyRows(n.store.entries, family) == {}
    ensures match AfterFamily(old(n.script), Batches(|FamilyRows(old(n.store.entries), family)|), 0)
            case Some(rest) => r.Ok? && n.script == rest
            case None => r.Err?
    ensures old(n.script) == [] ==>
              n.script == [] && r.Ok? && n.store.revision == old(n.store.revision) + Batches(|FamilyRows(old(n.store.entries), family)|)
  {
    hide Sound, PendingInv, Backed, FamilyWiped, ScansBefore, InScanOrder, Batches, AfterFamily, Verdict, AfterVerdict;
    NoFaultsLeft();
    NothingOfFamilyWiped(n.store.entries, family);
    var retries := 0;
    while true
      invariant n.Valid() && retries <= WIPE_RETRIES && FamilyWiped(old(n.store.entries), n.store.entries, family)
      invariant AfterFamily(old(n.script), Batches(|FamilyRows(old(n.store.entries), family)|), 0) ==
                AfterFamily(n.script, Batches(|FamilyRows(n.store.entries, family)|), retries)
      invariant old(n.script) == [] ==>
                  && n.script == [] && retries == 0
                  && n.store.revision + Batches(|FamilyRows(n.store.entries, family)|)
                     == old(n.store.revision) + Batches(|FamilyRows(old(n.store.entries), family)|)
      decreases |FamilyRows(n.store.entries, family)|, WIPE_RETRIES - retries
    {
      ghost var e := n.store.entries;
      var rows := ScanBatch(n.store.entries, family);
      if rows == [] {
        OneBatch(0);
        BatchTurn(n.script, 0, retries);
        return Ok(());
      }
      ghost var script := n.script;
      var committed := CommitWipe(n, rows, family);
      OneMoreBatchOfFamily(old(n.store.entries), e, family, rows);
      BatchTurn(script, Batches(|FamilyRows(e, family)|), retries);
      if committed.Err? {
        return Err(committed.error);
      }
      if !committed.value {
        retries := retries + 1;
        if retries > WIPE_RETRIES {
          return Err(Error(Conflict, "leave wipe"));
        }
      }
    }
  }

  const WIPED_FAMILIES: seq<Family> :=
    [IdentityBinding, CredentialUse, MergeGrant, Revocation, NodeDescriptor, ResourceRecord, ResourceChangeFeed, RouteTrace]

  /** The batches each family takes. */
  function WipeWork(e: Entries): seq<nat> {
    seq(|WIPED_FAMILIES|, i requires 0 <= i < |WIPED_FAMILIES| => Batches(|FamilyRows(e, WIPED_FAMILIES[i])|))
  }

  method WipeOldMetadata(n: Node) returns (r: Result<()>)
    requires n.Valid()
    modifies n`store, n`script
    ensures n.Valid() && RowsRemoved(old(n.store.entries), n.store.entries)
    ensures r.Ok? ==> NoRows(n.store.entries)
    ensures match AfterFamilies(old(n.script), WipeWork(old(n.store.entries)))
            case Some(rest) => r.Ok? && n.script == rest
            case None => r.Err?
    ensures old(n.script) == [] ==> n.script == [] && r.Ok?
  {
    hide Sound, PendingInv, Backed, AfterFamily, AfterFamilies, Batches, FamilyRows, RowsRemoved, WipedInOrder;
    MoreRowsRemoved(n.store.entries, n.store.entries, []);
    ghost var work := WipeWork(n.store.entries);
    assert work[0..] == work;
    for i := 0 to |WIPED_FAMILIES|
      invariant forall j | i <= j < |WIPED_FAMILIES| ::
                  FamilyRows(n.store.entries, WIPED_FAMILIES[j]) == FamilyRows(old(n.store.entries), WIPED_FAMILIES[j])
      invariant AfterFamilies(old(n.script), work) == AfterFamilies(n.script, work[i..])
      invariant n.Valid() && RowsRemoved(old(n.store.entries), n.store.entries)
      invariant forall j | 0 <= j < i :: FamilyRows(n.store.entries, WIPED_FAMILIES[j]) == {}
      invariant old(n.script) == [] ==> n.script == []
    {
      FamilyTurn(n.script, work, i);
      ghost var e := n.store.entries;
      var wiped := WipeFamily(n, WIPED_FAMILIES[i]);
      RowsRemovedTransitive(old(n.store.entries), e, n.store.entries);
      if wiped.Err? {
        return wiped;
      }
    }
    NoFamilyLeft(n.script, work);
    EveryFamilyIsWiped(n.store.entries);
    return Ok(());
  }

  lemma NoFamilyLeft(script: seq<Fault>, work: seq<nat>)
    ensures AfterFamilies(script, work[|work|..]) == Some(script)
  {
  }

  lemma EveryFamilyIsWiped(e: Entries)
    requires forall j | 0 <= j < |WIPED_FAMILIES| :: FamilyRows(e, WIPED_FAMILIES[j]) == {}
    ensures NoRows(e)
  {
    forall family: Family ensures FamilyRows(e, family) == {} {
      var j := match family
        case IdentityBinding => 0 case CredentialUse => 1 case MergeGrant => 2 case Revocation => 3
        case NodeDescriptor => 4 case ResourceRecord => 5 case ResourceChangeFeed => 6 case RouteTrace => 7;
      assert WIPED_FAMILIES[j] == family;
    }
    assert forall k | k in e :: k.Row? ==> k in FamilyRows(e, k.family);
  }

  // ---- the phases ----

  /** Creates the replacement key or finds the one already created under the intent's operation. */
  method ReplacementKey(n: Node, intent: Record) returns (r: Result<CreatedKey>)
    requires n.Valid() && intent.LeaveIntentV1?
    modifies n`created, n`script
    ensures n.Valid() && old(n.created.Keys) <= n.created.Keys
    ensures r.Ok? ==> intent.replacementOperation in n.created && r.value == n.mint(intent.replacementOperation)
    ensures old(n.script) == [] ==> n.script == [] && (n.mint(intent.replacementOperation).handle !in n.gone ==> r.Ok?)
    ensures n.mint(intent.replacementOperation).handle !in n.gone ==>
              var created := intent.replacementOperation in old(n.created);
              (r.Ok? <==> GivesKey(old(n.script), created)) && (r.Ok? ==> n.script == AfterKey(old(n.script), created))
  {
    var operation := intent.replacementOperation;
    var state :- n.ReconcileCreate(operation);
    if state.KeyAbsent? {
      state :- n.CreateKey(operation);
    }
    match state {
      case KeyPresent(created) =>
        assert n.created[operation] == CreatedKey(created.handle, created.publicKey);
        var _ :- n.VerifyProviderKey(created.handle, created.publicKey);
        return Ok(created);
      case KeyAbsent => return Err(Error(NotReady, "leave replacement key create"));
      case KeyUnknown => return Err(RECONCILE_UNKNOWN);
    }
  }

  /** Swaps the stored identity for the replacement in one transaction. */
  method SwapIdentity(n: Node, intent: Record, key: CreatedKey, ghost plan: Plan, ghost p: Progress)
    returns (r: Result<()>, ghost q: Progress)
    requires n.Valid() && OnPath(n, plan, p) && p.Recorded? && intent == plan.intent && key == plan.key
    requires intent.LeaveIntentV1? && intent.replacementOperation in n.created
    modifies n`store, n`script
    ensures n.Valid() && OnPath(n, plan, q) && Onward(p, q) && q.Rank() <= 2
    ensures q.Rank() < 2 ==> n.store == old(n.store)
    ensures SameRows(old(n.store.entries), n.store.entries)
    ensures r.Ok? ==> q.Swapped?
    ensures (r.Ok? <==> Verdict(old(n.script)) == Yes) && n.script == AfterVerdict(old(n.script))
    ensures Verdict(old(n.script)) == No ==> r == Err(Error(Conflict, "leave identity swap"))
    ensures old(n.script) == [] ==> n.script == [] && r.Ok?
  {
    hide Sound, PendingInv, Backed, KeptAt, Kept, Outcome, HandlesNameOperations;
    q := p;
    PathFacts(n, plan, p);
    ghost var e := n.store.entries;
    if LocalIdentity !in n.store.entries || n.store.entries[LocalIdentity].node != intent.former.node {
      return Err(Error(Conflict, "leave identity swap")), q;
    }
    if Spent(n.store.entries, key.handle) {
      return Err(Error(Conflict, "key handle")), q;
    }
    var committed, id := n.CommitDecision(Swap(intent, key));
    if n.store != old(n.store) {
      q := Swapped(p.record);
      SwappedIsOnPath(n, plan, e, id, p);
    }
    if committed.Err? {
      return Err(committed.error), q;
    }
    if !committed.value {
      return Err(Error(Conflict, "leave identity swap")), q;
    }
    return Ok(()), q;
  }

  lemma SwappedIsOnPath(n: Node, plan: Plan, e: Entries, id: TransactionId, p: Progress)
    requires Feasible(plan, n.mint) && p.Recorded? && Kept(e) == KeptAt(plan, p) && OwnRecord(plan, p)
    requires plan.intent.former.operation in n.created
    requires n.created[plan.intent.former.operation] == CreatedKey(plan.intent.former.handle, plan.intent.former.publicKey)
    requires n.store.entries == Outcome(e, id, Swap(plan.intent, plan.key))
    ensures OnPath(n, plan, Swapped(p.record)) && SameRows(e, n.store.entries)
  {
    SwapStep(plan, n.mint, e, id, p.record);
  }

  /** The faults left behind the former key's deletion, from those the wipe left. */
  function WipeDeleteEnd(wiped: Option<seq<Fault>>, p: Progress, live: bool): Option<seq<Fault>> {
    if wiped.None? then None
    else DeletionEnd(wiped.value, p.KeyDeleted? && p.journal.Some?, p.KeyDeleted?, p.KeyIntended?, live)
  }

  /** The wipe and the former key's deletion: both run with the replacement in place. */
  method WipeAndDelete(n: Node, intent: Record, ghost plan: Plan, ghost p: Progress) returns (r: Result<()>, ghost q: Progress)
    requires n.Valid() && OnPath(n, plan, p) && 2 <= p.Rank() <= 4 && intent == plan.intent
    modifies n`store, n`gone, n`script
    ensures n.Valid() && OnPath(n, plan, q) && Onward(p, q) && q.Rank() <= 4
    ensures RowsShrink(old(n.store.entries), n.store.entries)
    ensures r.Ok? ==> q.KeyDeleted?
    ensures n.steady && r.Ok? ==> q.journal.None?
    ensures old(n.script) == [] ==> n.script == [] && r.Ok? && q.journal.None?
    ensures var rest := AfterFamilies(old(n.script), WipeWork(old(n.store.entries)));
            var live := old(n.Live(intent.former.handle));
            && (r.Ok? && q.journal.Some? <==> !p.KeyDeleted? && rest.Some? && LeavesJournal(rest.value, p.KeyIntended?, live))
            && (r.Ok? && q.journal.Some? ==> n.script == AfterLeaving(rest.value, p.KeyIntended?, live))
            && match WipeDeleteEnd(rest, p, live)
               case Some(end) => r.Ok? && n.script == end
               case None => r.Err?
  {
    hide Sound, PendingInv, Backed, KeptAt, Kept, Advances, HandlesNameOperations, Feasible, LeavesJournal, AfterLeaving, AfterFamilies, DeletionEnd;
    q := p;
    PathFacts(n, plan, p);
    var wiped := WipeOldMetadata(n);
    if wiped.Err? {
      return Err(wiped.error), q;
    }
    ghost var e := n.store.entries;
    PathFacts(n, plan, p);
    r := DeleteUnreferencedKey(n, intent.former.operation, intent.former.handle);
    q := AfterDeletion(p.record, n.store.entries, intent.former.handle);
    DeletionStands(n, plan, p, e);
    DeletedIsOnPath(n, plan, e, p);
  }

  /** The deletion keys the store holds are those of the progress, and nothing refers to the former key. */
  lemma DeletionStands(n: Node, plan: Plan, p: Progress, e: Entries)
    requires Feasible(plan, n.mint) && Kept(e) == KeptAt(plan, p) && 2 <= p.Rank() <= 4
    requires LocalIdentity in e && e[LocalIdentity] == Replacement(plan.intent, plan.key) && plan.key.handle != plan.intent.former.handle
    ensures var h := plan.intent.former.handle;
            && (DeletionIntent(h) in e <==> p.KeyIntended?) && (DeletedKey(h) in e <==> p.KeyDeleted?) && !Referenced(e, h)
            && (Pending(KeyDeletionPurpose(h)) in e <==> p.KeyDeleted? && p.journal.Some?)
  {
    hide KeptAt, Kept;
    DeletionKeysAt(plan, n.mint, p);
    KeptAgrees(e, Pending(KeyDeletionPurpose(plan.intent.former.handle)));
    KeptAgrees(e, DeletionIntent(plan.intent.former.handle));
    KeptAgrees(e, DeletedKey(plan.intent.former.handle));
  }

  ghost predicate RowsShrink(e: Entries, f: Entries) {
    forall k | k in f && k.Row? :: k in e && e[k] == f[k]
  }

  lemma DeletedIsOnPath(n: Node, plan: Plan, e: Entries, p: Progress)
    requires n.Valid() && Feasible(plan, n.mint) && OwnRecord(plan, p) && 2 <= p.Rank() <= 4
    requires Kept(e) == KeptAt(plan, p) && NoRows(e)
    requires Advances(e, n.store.entries, plan.intent.former.operation, plan.intent.former.handle)
    requires plan.intent.former.operation in n.created
    requires n.created[plan.intent.former.operation] == CreatedKey(plan.intent.former.handle, plan.intent.former.publicKey)
    requires p.KeyDeleted? ==> plan.intent.former.handle in n.gone
    requires DeletedKey(plan.intent.former.handle) in n.store.entries && DeletedKey(plan.intent.former.handle) !in e ==>
               !n.Live(plan.intent.former.handle)
    ensures var q := AfterDeletion(p.record, n.store.entries, plan.intent.former.handle);
            && OnPath(n, plan, q) && Onward(p, q) && 2 <= q.Rank() <= 4 && NoRows(n.store.entries)
            && (DeletedKey(plan.intent.former.handle) in n.store.entries ==> q.KeyDeleted?)
            && (q.KeyDeleted? ==> (q.journal.Some? <==> Pending(KeyDeletionPurpose(plan.intent.former.handle)) in n.store.entries))
  {
    hide Sound, PendingInv, Backed, KeptAt, Kept;
    var h := plan.intent.former.handle;
    DeletionStep(plan, n.mint, e, n.store.entries, p);
    DeletionKeysAt(plan, n.mint, p);
    KeptAgrees(e, DeletedKey(h));
    assert n.created[plan.intent.former.operation].handle == h;
    PendingIsTyped(n.store.entries, KeyDeletionPurpose(h));
    assert forall k | k in n.store.entries :: !DeletionKey(k, h) ==> k in e;
  }

  lemma PendingIsTyped(e: Entries, purpose: Purpose)
    requires Sound(e)
    ensures Pending(purpose) in e ==> e[Pending(purpose)].PendingV1?
  {
    assert Pending(purpose) in e ==> WellPlaced(Pending(purpose), e[Pending(purpose)]);
  }

  /** Removes the leave intent: the last step. */
  method FinishLeave(n: Node, ghost plan: Plan, ghost p: Progress) returns (r: Result<()>, ghost q: Progress)
    requires n.Valid() && OnPath(n, plan, p) && p.KeyDeleted? && LeaveIntent in n.store.entries
    modifies n`store, n`script
    ensures n.Valid() && OnPath(n, plan, q) && Onward(p, q)
    ensures q == p || q == Completed(p.record, p.journal)
    ensures r.Ok? ==> q.Completed?
    ensures q.Completed? <==> Takes(Head(old(n.script)))
    ensures r.Ok? <==> Verdict(old(n.script)) == Yes
    ensures Verdict(old(n.script)) == No ==> r == Err(Error(Conflict, "leave completion"))
    ensures old(n.script) == [] ==> n.script == [] && r.Ok?
  {
    hide Sound, PendingInv, Backed, KeptAt, Kept, HandlesNameOperations, Outcome;
    q := p;
    PathFacts(n, plan, p);
    ghost var e := n.store.entries;
    var committed, id := n.CommitDecision(CompleteLeave(n.store.entries[LeaveIntent]));
    if n.store != old(n.store) {
      q := Completed(p.record, p.journal);
      CompletedIsOnPath(n, plan, e, id, p);
    }
    if committed.Err? {
      return Err(committed.error), q;
    }
    if !committed.value {
      return Err(Error(Conflict, "leave completion")), q;
    }
    return Ok(()), q;
  }

  lemma CompletedIsOnPath(n: Node, plan: Plan, e: Entries, id: TransactionId, p: Progress)
    requires Feasible(plan, n.mint) && p.KeyDeleted? && Kept(e) == KeptAt(plan, p) && OwnRecord(plan, p) && NoRows(e)
    requires plan.intent.former.operation in n.created && plan.intent.former.handle in n.gone
    requires n.created[plan.intent.former.operation] == CreatedKey(plan.intent.former.handle, plan.intent.former.publicKey)
    requires n.store.entries == Outcome(e, id, CompleteLeave(plan.intent))
    ensures OnPath(n, plan, Completed(p.record, p.journal))
  {
    CompleteStep(plan, n.mint, e, id, p);
  }

  // ---- when a completed leave keeps the deletion's journal record ----

  /** The faults left when a drive of the leave reaches the former key's deletion, if it does. */
  function AtDeletion(script: seq<Fault>, swapped: bool, created: bool, work: seq<nat>): Option<seq<Fault>> {
    if swapped then AfterFamilies(script, work)
    else
      var swap := AfterKey(script, created);
      if GivesKey(script, created) && Verdict(swap) == Yes then AfterFamilies(AfterVerdict(swap), work) else None
  }

  /**
   The drive reaches the deletion, the deletion leaves its journal record, and the commit that
   completes the leave takes effect.
   */
  predicate CompletesWithJournal(script: seq<Fault>, rank: nat, created: bool, live: bool, work: seq<nat>) {
    && rank < 4
    && match AtDeletion(script, rank >= 2, created, work)
       case None => false
       case Some(rest) => LeavesJournal(rest, rank == 3, live) && Takes(Head(AfterLeaving(rest, rank == 3, live)))
  }

  /** The drive completes the leave and knows it: the deletion succeeds and the last commit is known to have landed. */
  predicate Completes(script: seq<Fault>, p: Progress, created: bool, live: bool, work: seq<nat>) {
    var end := WipeDeleteEnd(AtDeletion(script, p.Rank() >= 2, created, work), p, live);
    end.Some? && Verdict(end.value) == Yes
  }

  /** The start gets to the leave: the stored key shows itself, and a missing record is signed and persisted. */
  predicate OpensAt(script: seq<Fault>, rank: nat) {
    Head(script) == Pass && (rank == 0 ==> Head(Rest(script)) == Pass && Head(Rest(Rest(script))) == Pass)
  }

  function AfterOpening(script: seq<Fault>, rank: nat): seq<Fault> {
    if rank == 0 then Rest(Rest(Rest(script))) else Rest(script)
  }

  lemma {:induction false} NoWorkTakesNoFaults(script: seq<Fault>, work: seq<nat>)
    requires forall batches | batches in work :: batches == 0
    ensures AfterFamilies(script, work) == Some(script)
    decreases |work|
  {
    if work != [] {
      assert work[0] in work && forall batches | batches in work[1..] :: batches in work;
      NoWorkTakesNoFaults(script, work[1..]);
    }
  }

  /** A start with only the former key's deletion before it may keep the journal record: both cleanups are refused. */
  lemma AStartMayKeepTheJournal(work: seq<nat>)
    requires forall batches | batches in work :: batches == 0
    ensures CompletesWithJournal([Pass, Pass, Pass, Drop, Drop], 3, true, true, work)
  {
    var script := [Pass, Pass, Pass, Drop, Drop];
    NoWorkTakesNoFaults(script, work);
    TwoRefusedCleanupsLeaveTheJournal();
    assert script[1..][1..] == [Pass, Drop, Drop] && [Pass, Drop, Drop][1..] == [Drop, Drop];
    assert [Drop, Drop][1..] == [Drop] && [Drop][1..] == [];
  }

  lemma SameRowsSameWork(e: Entries, f: Entries)
    requires SameRows(e, f)
    ensures WipeWork(e) == WipeWork(f)
  {
    hide Batches;
    forall family: Family ensures FamilyRows(e, family) == FamilyRows(f, family) {
    }
  }

  /** The phases behind the swap. */
  method RunSwapped(n: Node, intent: Record, ghost plan: Plan, ghost p: Progress) returns (r: Result<()>, ghost q: Progress)
    requires n.Valid() && OnPath(n, plan, p) && 2 <= p.Rank() <= 4 && intent == plan.intent
    modifies n`store, n`gone, n`script
    ensures n.Valid() && OnPath(n, plan, q) && Onward(p, q)
    ensures RowsShrink(old(n.store.entries), n.store.entries)
    ensures r.Ok? ==> q.Completed?
    ensures n.steady && q.Completed? ==> q.journal.None?
    ensures q.Completed? && q.journal.Some? <==>
            CompletesWithJournal(old(n.script), p.Rank(), true, old(n.Live(intent.former.handle)), WipeWork(old(n.store.entries)))
    ensures r.Ok? <==> Completes(old(n.script), p, true, old(n.Live(intent.former.handle)), WipeWork(old(n.store.entries)))
    ensures old(n.script) == [] ==> n.script == [] && r.Ok? && q.journal.None?
  {
    hide Sound, PendingInv, Backed, KeptAt, Kept, HandlesNameOperations, Spent, Feasible, LeavesJournal, AfterLeaving, AfterFamilies, WipeWork,
         WipeDeleteEnd;
    r, q := WipeAndDelete(n, intent, plan, p);
    if r.Err? {
      return;
    }
    PathFacts(n, plan, q);
    r, q := FinishLeave(n, plan, q);
  }

  /**
   Runs the phases from wherever the leave stands.  Until the swap lands nothing is touched; the
   rows only shrink; completion means everything is wiped and the former key is deleted, and
   leaves the deletion's journal record exactly under `CompletesWithJournal`.
   */
  method RunLeave(n: Node, intent: Record, ghost plan: Plan, ghost p: Progress) returns (r: Result<()>, ghost q: Progress)
    requires n.Valid() && OnPath(n, plan, p) && 1 <= p.Rank() <= 4 && intent == plan.intent
    modifies n`store, n`created, n`gone, n`script
    ensures n.Valid() && OnPath(n, plan, q) && Onward(p, q)
    ensures q.Rank() < 2 ==> n.store == old(n.store)
    ensures RowsShrink(old(n.store.entries), n.store.entries)
    ensures r.Ok? ==> q.Completed?
    ensures n.steady && q.Completed? ==> q.journal.None?
    ensures q.Completed? && q.journal.Some? <==>
            CompletesWithJournal(old(n.script), p.Rank(), intent.replacementOperation in old(n.created),
                                 old(n.Live(intent.former.handle)), WipeWork(old(n.store.entries)))
    ensures r.Ok? <==> Completes(old(n.script), p, intent.replacementOperation in old(n.created),
                                 old(n.Live(intent.former.handle)), WipeWork(old(n.store.entries)))
    ensures old(n.script) == [] ==> n.script == [] && r.Ok? && q.journal.None?
  {
    hide Sound, PendingInv, Backed, KeptAt, Kept, HandlesNameOperations, Spent, LeavesJournal, AfterLeaving, AfterFamilies, Verdict,
         AfterVerdict, GivesKey, AfterKey, WipeWork, DeletionEnd;
    q := p;
    PathFacts(n, plan, p);
    var node := n.store.entries[LocalIdentity].node;
    if node == intent.former.node {
      var key :- ReplacementKey(n, intent);
      r, q := SwapIdentity(n, intent, key, plan, p);
      SameRowsSameWork(old(n.store.entries), n.store.entries);
      if r.Err? {
        return;
      }
    } else if node != intent.replacementNode {
      return Err(Error(StorageCorrupt, "leave")), q;
    }
    PathFacts(n, plan, q);
    r, q := RunSwapped(n, intent, plan, q);
  }

  // ---- journaling, resuming, and the whole leave ----

  /** The faults left once the intent is stored: proven aborts are retried, the budget counts the tries. */
  function IntentEnd(script: seq<Fault>, tries: nat): Option<seq<Fault>>
    decreases tries
  {
    if tries == 0 then None
    else
      match Verdict(script)
      case Yes => Some(AfterVerdict(script))
      case No => IntentEnd(AfterVerdict(script), tries - 1)
      case NoAnswer => None
  }

  /** Refusals fewer than the tries are survived, and no more. */
  lemma {:induction false} FewAbortsAreSurvived(aborts: seq<Fault>, tries: nat)
    requires forall fault | fault in aborts :: fault == Drop
    ensures IntentEnd(aborts, tries) == if |aborts| < tries then Some([]) else None
    decreases |aborts|
  {
    if aborts != [] && tries > 0 {
      assert aborts[0] in aborts && forall fault | fault in aborts[1..] :: fault in aborts;
      FewAbortsAreSurvived(aborts[1..], tries - 1);
    }
  }

  /** The budgets: seven refusals of the intent and eight in a family's wipe are survived, and a batch is 64 rows. */
  lemma BudgetsInNumbers(aborts: seq<Fault>)
    requires forall fault | fault in aborts :: fault == Drop
    ensures IntentEnd(aborts, INTENT_RACE_BUDGET).Some? <==> |aborts| <= 7
    ensures AfterFamily(aborts, 1, 0).Some? <==> |aborts| <= 8
    ensures Batches(64) == 1 && Batches(65) == 2
  {
    hide IntentEnd, AfterFamily;
    FewAbortsAreSurvived(aborts, INTENT_RACE_BUDGET);
    FewAbortsAreWiped(aborts, 1, 0);
  }

  /** Journals the intent; a lost race is retried within the budget, and nothing else is. */
  method BeginIntent(n: Node, former: Record, replacementNode: NodeId, replacementOperation: KeyOperationId)
    returns (r: Result<Record>)
    requires n.Valid() && former.IdentityV1?
    modifies n`store, n`script
    ensures n.Valid()
    ensures var intent := LeaveIntentV1(former, replacementNode, replacementOperation);
            && (n.store == old(n.store) ||
                (LeaveIntent !in old(n.store.entries) && n.store.entries == old(n.store.entries)[LeaveIntent := intent]))
            && (r.Ok? ==> r.value == intent && n.store != old(n.store))
    ensures old(n.script) == [] ==> n.script == [] && (r.Ok? <==> LeaveIntent !in old(n.store.entries))
    ensures LeaveIntent in old(n.store.entries) && old(n.script) == [] ==> r == Err(Error(Conflict, "leave intent"))
    ensures LeaveIntent !in old(n.store.entries) ==>
              match IntentEnd(old(n.script), INTENT_RACE_BUDGET)
              case Some(rest) => r.Ok? && n.script == rest
              case None => r.Err?
  {
    hide Sound, PendingInv, Backed, Writes;
    var intent := LeaveIntentV1(former, replacementNode, replacementOperation);
    for i := 0 to INTENT_RACE_BUDGET
      invariant LeaveIntent !in n.store.entries ==>
                  IntentEnd(old(n.script), INTENT_RACE_BUDGET) == IntentEnd(n.script, INTENT_RACE_BUDGET - i)
      invariant n.Valid() && n.store == old(n.store)
      invariant old(n.script) == [] ==> n.script == [] && (i > 0 ==> LeaveIntent in n.store.entries)
    {
      var committed, _ :- n.CommitDecision(BeginLeave(intent));
      if committed {
        return Ok(intent);
      }
    }
    return Err(Error(Conflict, "leave intent"));
  }

  lemma StoredIdentityIsTyped(e: Entries)
    requires Sound(e) && LocalIdentity in e
    ensures e[LocalIdentity].IdentityV1?
  {
  }

  datatype Standing = NotLeaving | Leaving(plan: Plan, progress: Progress)

  /** The node stands where `at` says: nothing of a leave stored, or at a point of its plan. */
  ghost predicate Stands(n: Node, at: Standing)
    reads n
  {
    match at
    case NotLeaving => LeaveIntent !in n.store.entries
    case Leaving(plan, p) => OnPath(n, plan, p)
  }

  /** A leave of the stored identity may start with these fresh coordinates. */
  ghost predicate MayLeave(n: Node, node: NodeId, operation: KeyOperationId)
    reads n
  {
    && LocalIdentity in n.store.entries && n.store.entries[LocalIdentity].IdentityV1?
    && var former := n.store.entries[LocalIdentity];
       && Feasible(NewPlan(n, node, operation), n.mint)
       && BindingAgrees(n.store.entries, former.node, former.publicKey)
  }

  ghost function NewPlan(n: Node, node: NodeId, operation: KeyOperationId): Plan
    requires LocalIdentity in n.store.entries
    reads n
  {
    Plan(Kept(n.store.entries), LeaveIntentV1(n.store.entries[LocalIdentity], node, operation), n.mint(operation))
  }

  lemma JournaledIsOnPath(n: Node, plan: Plan, e: Entries)
    requires n.Valid() && Feasible(plan, n.mint) && plan.start == Kept(e)
    requires n.store.entries == e[LeaveIntent := plan.intent]
    requires BindingAgrees(e, plan.intent.former.node, plan.intent.former.publicKey)
    ensures OnPath(n, plan, Journaled) && SameRows(e, n.store.entries)
  {
    hide Sound, PendingInv;
    BeginStep(plan, e, "");
    KeptAgrees(e, LocalIdentity);
    assert n.store.entries[LocalIdentity] == plan.intent.former;
  }

  /** The faults left once a new leave is journaled: the intent stored, its record signed and stored. */
  function JournalEnd(script: seq<Fault>): Option<seq<Fault>> {
    match IntentEnd(script, INTENT_RACE_BUDGET)
    case None => None
    case Some(rest) => if Head(rest) == Pass && Head(Rest(rest)) == Pass then Some(Rest(Rest(rest))) else None
  }

  /**
   Phase J: the intent first, then the record.  A crash before the intent commits leaves the store
   untouched; an intent left by an earlier drive is reused with its record.
   */
  method JournalLeave(n: Node, node: NodeId, operation: KeyOperationId, stamp: int, ghost at: Standing)
    returns (r: Result<Record>, ghost now: Standing)
    requires n.Valid() && Stands(n, at) && LocalIdentity in n.store.entries
    requires at.NotLeaving? ==> MayLeave(n, node, operation)
    requires at.Leaving? ==> !at.progress.Completed?
    modifies n`store, n`script
    ensures n.Valid() && Stands(n, now) && SameRows(old(n.store.entries), n.store.entries)
    ensures now.NotLeaving? ==> at.NotLeaving? && n.store == old(n.store)
    ensures now.Leaving? ==>
              && now.plan == (if at.Leaving? then at.plan else old(NewPlan(n, node, operation)))
              && !now.progress.Completed? && (at.Leaving? ==> Onward(at.progress, now.progress))
    ensures r.Ok? ==> now.Leaving? && r.value == now.plan.intent && 1 <= now.progress.Rank()
    ensures now.Leaving? && !now.progress.Journaled? && (at.NotLeaving? || at.progress.Journaled?) ==>
              now.progress.record.LeaveRecordV1? && now.progress.record.stamp == stamp
    ensures at.NotLeaving? && now.Leaving? ==> now.progress.Rank() <= 1
    ensures at.NotLeaving? ==>
              match JournalEnd(old(n.script))
              case Some(rest) => r.Ok? && n.script == rest
              case None => r.Err?
    ensures old(n.script) == [] ==> n.script == [] && r.Ok?
  {
    hide Sound, PendingInv, Backed, KeptAt, Kept, HandlesNameOperations, BindingAgrees;
    now := at;
    var context := n.store.entries[LocalIdentity];
    if at.Leaving? { PathFacts(n, at.plan, at.progress); }
    if LeaveIntent in n.store.entries {
      var recorded;
      ghost var q;
      var intent := n.store.entries[LeaveIntent];
      recorded, q := EnsureRecord(n, context, stamp, at.plan, at.progress);
      now := Leaving(at.plan, q);
      return if recorded.Ok? then Ok(intent) else Err(recorded.error), now;
    }
    ghost var plan := NewPlan(n, node, operation);
    ghost var e := n.store.entries;
    StoredIdentityIsTyped(e);
    var begun := BeginIntent(n, context, node, operation);
    if n.store != old(n.store) {
      JournaledIsOnPath(n, plan, e);
      now := Leaving(plan, Journaled);
    }
    if begun.Err? {
      return Err(begun.error), now;
    }
    PathFacts(n, plan, Journaled);
    var signed := SignRecord(n, context, stamp);
    if signed.Err? {
      return Err(signed.error), now;
    }
    ghost var journaled := n.store.entries;
    ghost var before := n.store;
    var persisted;
    ghost var id;
    persisted, id := PersistRecord(n, signed.value);
    if n.store != before {
      RecordedIsOnPath(n, plan, journaled, id, signed.value);
      now := Leaving(plan, Recorded(signed.value));
    }
    return if persisted.Ok? then Ok(begun.value) else Err(persisted.error), now;
  }

  /** The uninterrupted leave: journal, then every phase. */
  method Execute(n: Node, node: NodeId, operation: KeyOperationId, stamp: int) returns (r: Result<()>, ghost now: Standing)
    requires n.Valid() && LeaveIntent !in n.store.entries && MayLeave(n, node, operation)
    modifies n`store, n`created, n`gone, n`script
    ensures n.Valid() && Stands(n, now)
    ensures now.NotLeaving? ==> n.store == old(n.store)
    ensures now.Leaving? ==> now.plan == old(NewPlan(n, node, operation))
    ensures now.Leaving? && now.progress.Rank() < 2 ==> SameRows(old(n.store.entries), n.store.entries)
    ensures r.Ok? ==> now.Leaving? && now.progress.Completed?
    ensures r.Ok? <==>
            var rest := JournalEnd(old(n.script));
            rest.Some? && Completes(rest.value, Recorded(old(n.store.entries[LocalIdentity])), operation in old(n.created), true,
                                    WipeWork(old(n.store.entries)))
    ensures now.Leaving? && !now.progress.Journaled? ==>
              now.progress.record.LeaveRecordV1? && now.progress.record.stamp == stamp
    ensures n.steady && now.Leaving? && now.progress.Completed? ==> now.progress.journal.None?
    ensures old(n.script) == [] ==>
              n.script == [] && r.Ok? && now.progress.journal.None?
  {
    hide Sound, PendingInv, Backed, KeptAt, Kept, HandlesNameOperations, BindingAgrees, Feasible,
         AtDeletion, DeletionEnd, JournalEnd, CompletesWithJournal, WipeWork;
    var journaled;
    journaled, now := JournalLeave(n, node, operation, stamp, NotLeaving);
    SameRowsSameWork(old(n.store.entries), n.store.entries);
    if journaled.Err? {
      return Err(journaled.error), now;
    }
    PathFacts(n, now.plan, now.progress);
    ghost var q;
    r, q := RunLeave(n, journaled.value, now.plan, now.progress);
    now := Leaving(now.plan, q);
  }

  /** At startup a pending leave runs to its end before the node serves. */
  method ResumeIfPending(n: Node, context: Record, stamp: int, ghost plan: Plan, ghost p: Progress)
    returns (r: Result<Option<Record>>, ghost q: Progress)
    requires n.Valid() && OnPath(n, plan, p)
    requires LocalIdentity in n.store.entries && context == n.store.entries[LocalIdentity]
    modifies n`store, n`created, n`gone, n`script
    ensures n.Valid() && OnPath(n, plan, q) && Onward(p, q)
    ensures q.Rank() < 2 ==> SameRows(old(n.store.entries), n.store.entries)
    ensures r.Ok? ==> q.Completed? && (p.Completed? <==> r.value.None?)
    ensures r.Ok? && r.value.Some? ==> r.value.value == Replacement(plan.intent, plan.key)
    ensures n.steady && q.Completed? && !p.Completed? ==> q.journal.None?
    ensures p.Journaled? && !q.Journaled? ==> q.record.LeaveRecordV1? && q.record.stamp == stamp
    ensures p.Completed? ==> q == p && r.Ok?
    ensures !p.Completed? ==>
              (q.Completed? && q.journal.Some? <==>
               && (p.Journaled? ==> Head(old(n.script)) == Pass && Head(Rest(old(n.script))) == Pass)
               && CompletesWithJournal(if p.Journaled? then Rest(Rest(old(n.script))) else old(n.script), p.Rank(),
                                       plan.intent.replacementOperation in old(n.created),
                                       old(n.Live(plan.intent.former.handle)), WipeWork(old(n.store.entries))))
    ensures !p.Completed? ==>
              (r.Ok? <==>
               && (p.Journaled? ==> Head(old(n.script)) == Pass && Head(Rest(old(n.script))) == Pass)
               && Completes(if p.Journaled? then Rest(Rest(old(n.script))) else old(n.script), p,
                            plan.intent.replacementOperation in old(n.created),
                            old(n.Live(plan.intent.former.handle)), WipeWork(old(n.store.entries))))
    ensures old(n.script) == [] ==> n.script == [] && r.Ok? && (!p.Completed? ==> q.journal.None?)
  {
    hide Sound, PendingInv, Backed, KeptAt, Kept, HandlesNameOperations, Feasible, BindingAgrees, OwnRecord, Spent, AtDeletion, AfterFamilies,
         LeavesJournal, AfterLeaving, WipeWork, DeletionEnd;
    q := p;
    PathFacts(n, plan, p);
    if LeaveIntent !in n.store.entries {
      return Ok(None), q;
    }
    var intent := n.store.entries[LeaveIntent];
    var recorded;
    recorded, q := EnsureRecord(n, context, stamp, plan, p);
    SameRowsSameWork(old(n.store.entries), n.store.entries);
    if recorded.Err? {
      return Err(recorded.error), q;
    }
    PathFacts(n, plan, q);
    var run;
    run, q := RunLeave(n, intent, plan, q);
    if run.Err? {
      return Err(run.error), q;
    }
    PathFacts(n, plan, q);
    return Ok(Some(n.store.entries[LocalIdentity])), q;
  }

  /**
   The startup of a node with a leave behind it: it opens, and finishes the leave.  Nothing is
   wiped before the swap; the deletion's journal record outlives the leave that this start
   completes exactly when the start gets to the leave and `CompletesWithJournal` holds there.
   */
  method OpenLocalIdentity(n: Node, node: NodeId, operation: KeyOperationId, stamp: int, ghost plan: Plan, ghost p: Progress)
    returns (r: Result<Record>, ghost q: Progress)
    requires n.Valid() && OnPath(n, plan, p)
    modifies n`store, n`created, n`gone, n`script
    ensures n.Valid() && OnPath(n, plan, q) && Onward(p, q)
    ensures r.Ok? ==> q.Completed? && r.value == Replacement(plan.intent, plan.key)
    ensures q.Rank() < 2 ==> SameRows(old(n.store.entries), n.store.entries)
    ensures n.steady && q.Completed? && !p.Completed? ==> q.journal.None?
    ensures !p.Completed? ==>
              (q.Completed? && q.journal.Some? <==>
               && OpensAt(old(n.script), p.Rank())
               && CompletesWithJournal(AfterOpening(old(n.script), p.Rank()), p.Rank(),
                                       plan.intent.replacementOperation in old(n.created),
                                       old(n.Live(plan.intent.former.handle)), WipeWork(old(n.store.entries))))
    ensures if p.Completed? then r.Ok? <==> Head(old(n.script)) == Pass
            else r.Ok? <==>
                 && OpensAt(old(n.script), p.Rank())
                 && Completes(AfterOpening(old(n.script), p.Rank()), p, plan.intent.replacementOperation in old(n.created),
                              old(n.Live(plan.intent.former.handle)), WipeWork(old(n.store.entries)))
    ensures p.Journaled? && !q.Journaled? ==> q.record.LeaveRecordV1? && q.record.stamp == stamp
    ensures p.Completed? ==> q == p
    ensures old(n.script) == [] ==> n.script == [] && r.Ok? && (!p.Completed? ==> q.journal.None?)
  {
    hide Sound, PendingInv, Backed, KeptAt, Kept, HandlesNameOperations, Feasible, BindingAgrees, OwnRecord, At, Blank, Spent,
         CompletesWithJournal, Completes, WipeWork;
    q := p;
    PathFacts(n, plan, p);
    var context :- OpenIdentity(n, node, operation);
    var resumed;
    resumed, q := ResumeIfPending(n, context, stamp, plan, p);
    if resumed.Err? {
      return Err(resumed.error), q;
    }
    PathFacts(n, plan, q);
    return Ok(if resumed.value.Some? then resumed.value.value else context), q;
  }

  /** The record was signed in one of these starts. */
  predicate StampedBy(record: Record, stamp: int, restarts: seq<Restart>) {
    record.LeaveRecordV1? && (record.stamp == stamp || exists restart | restart in restarts :: restart.stamp == record.stamp)
  }

  /**
   A leave that is interrupted any number of times, anywhere: it stands at a point of its plan, no
   row is gone while the swap has not landed, and its record has the stamp of the start that
   signed it.  If the intent never committed the store is untouched.
   */
  method LeaveInterrupted(n: Node, node: NodeId, operation: KeyOperationId, stamp: int, restarts: seq<Restart>)
    returns (left: bool, ghost p: Progress)
    requires n.Valid() && LeaveIntent !in n.store.entries && MayLeave(n, node, operation)
    requires n.steady ==> forall restart | restart in restarts :: Harmless(restart.script)
    modifies n`store, n`created, n`gone, n`script
    ensures n.Valid()
    ensures !left ==> n.store == old(n.store)
    ensures left ==>
              && OnPath(n, old(NewPlan(n, node, operation)), p)
              && (p.Rank() < 2 ==> SameRows(old(n.store.entries), n.store.entries))
              && (n.steady && p.Completed? ==> p.journal.None?)
              && (!p.Journaled? ==> StampedBy(p.record, stamp, restarts))
    ensures old(n.script) == [] ==>
              left && p.Completed? && p.journal.None? && p.record.LeaveRecordV1? && p.record.stamp == stamp
  {
    hide Sound, PendingInv, Backed, KeptAt, Kept, HandlesNameOperations, BindingAgrees, Feasible, OwnRecord, Spent,
         CompletesWithJournal, OpensAt, AfterOpening, WipeWork;
    var former := n.store.entries[LocalIdentity];
    ghost var plan := NewPlan(n, node, operation);
    p := Journaled;
    var first;
    ghost var now;
    first, now := Execute(n, node, operation, stamp);
    if now.Leaving? { PathFacts(n, now.plan, now.progress); }
    left := LeaveIntent in n.store.entries || n.store.entries[LocalIdentity] != former;
    if !left {
      return;
    }
    p := now.progress;
    ghost var clean := old(n.script) == [];
    for i := 0 to |restarts|
      invariant n.Valid() && OnPath(n, plan, p) && (n.steady && p.Completed? ==> p.journal.None?)
      invariant p.Rank() < 2 ==> SameRows(old(n.store.entries), n.store.entries)
      invariant !p.Journaled? ==> StampedBy(p.record, stamp, restarts)
      invariant clean ==> p.Completed? && p.journal.None? && p.record.LeaveRecordV1? && p.record.stamp == stamp
    {
      assert restarts[i] in restarts;
      n.script := restarts[i].script;
      var reopened;
      reopened, p := OpenLocalIdentity(n, restarts[i].node, restarts[i].operation, restarts[i].stamp, plan, p);
    }
  }

  /**
   An interrupted leave that is finally restarted without faults ends in the entries of the
   uninterrupted leave (`Execute`): the planned replacement, the record, the tombstone, every row
   wiped.  The one entry that can be there besides is the deletion's journal record, and only when
   the faults of some start hold a landed commit followed by two aborted ones (`OpenLocalIdentity`
   says of each start exactly when).
   */
  method LeaveThroughCrashes(n: Node, node: NodeId, operation: KeyOperationId, stamp: int, restarts: seq<Restart>, last: Restart)
    returns (left: bool, ghost record: Record, ghost journal: Option<TransactionId>)
    requires n.Valid() && LeaveIntent !in n.store.entries && MayLeave(n, node, operation)
    requires n.steady ==> forall restart | restart in restarts :: Harmless(restart.script)
    modifies n`store, n`created, n`gone, n`script
    ensures n.Valid()
    ensures !left ==> n.store == old(n.store)
    ensures left ==>
              var plan := old(NewPlan(n, node, operation));
              && n.store.entries == KeptAt(plan, Completed(record, journal)) && OwnRecord(plan, Completed(record, journal))
              && plan.intent.former.handle in n.gone && (n.steady ==> journal.None?)
              && StampedBy(record, stamp, restarts + [last])
    ensures old(n.script) == [] ==> left && journal.None? && record.LeaveRecordV1? && record.stamp == stamp
  {
    hide Sound, PendingInv, Backed, KeptAt, Kept, HandlesNameOperations, BindingAgrees, Feasible, OwnRecord, Spent,
         CompletesWithJournal, OpensAt, AfterOpening, WipeWork;
    record, journal := n.store.entries[LocalIdentity], None;
    ghost var plan := NewPlan(n, node, operation);
    ghost var p;
    left, p := LeaveInterrupted(n, node, operation, stamp, restarts);
    if !left {
      return;
    }
    n.script := [];
    var reopened;
    reopened, p := OpenLocalIdentity(n, last.node, last.operation, last.stamp, plan, p);
    record, journal := p.record, p.journal;
    KeptWithoutRows(n.store.entries);
    assert last in restarts + [last] && forall restart | restart in restarts :: restart in restarts + [last];
  }

  lemma KeptWithoutRows(e: Entries)
    requires NoRows(e)
    ensures Kept(e) == e
  {
    assert forall k | k in e :: k in Kept(e);
  }
}
