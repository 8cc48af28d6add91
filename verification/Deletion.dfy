/** Deleting an unreferenced provider key: intent, provider deletion, tombstone, journal cleanup. */
module Deletion {
  import opened Results
  import opened Storage
  import opened IdentityRecords
  import opened IdentityMachine
  import opened FaultyStorage
  import opened IdentityNode

  predicate DeletionKey(k: Key, h: KeyHandle) {
    k == DeletionIntent(h) || k == DeletedKey(h) || k == Pending(KeyDeletionPurpose(h))
  }

  /** The intent a deletion works under: the stored one, or the one it installs. */
  function IntentOf(e: Entries, operation: KeyOperationId, h: KeyHandle): Record {
    if DeletionIntent(h) in e then e[DeletionIntent(h)] else DeletionIntentV1(operation, h)
  }

  function TombstoneOf(e: Entries, operation: KeyOperationId, h: KeyHandle): Record {
    if DeletedKey(h) in e then e[DeletedKey(h)]
    else if IntentOf(e, operation, h).DeletionIntentV1? then KeyDeletedV1(IntentOf(e, operation, h).operation, h)
    else KeyDeletedV1(operation, h)
  }

  /** `f` is `e` with the deletion of `h` carried on: nothing else changes and no step is undone. */
  ghost predicate Advances(e: Entries, f: Entries, operation: KeyOperationId, h: KeyHandle) {
    && (forall k | !DeletionKey(k, h) :: (k in e <==> k in f) && (k in e ==> e[k] == f[k]))
    && Status(e, h) <= Status(f, h)
    && (DeletionIntent(h) in f ==> f[DeletionIntent(h)] == IntentOf(e, operation, h))
    && (DeletedKey(h) in f ==> f[DeletedKey(h)] == TombstoneOf(e, operation, h))
    && (Status(e, h) == Status(f, h) && Pending(KeyDeletionPurpose(h)) in f ==>
          Pending(KeyDeletionPurpose(h)) in e && e[Pending(KeyDeletionPurpose(h))] == f[Pending(KeyDeletionPurpose(h))])
  }

  lemma AdvancesReflexive(e: Entries, operation: KeyOperationId, h: KeyHandle)
    requires Sound(e)
    ensures Advances(e, e, operation, h)
    ensures Advances(e, e - {Pending(KeyDeletionPurpose(h))}, operation, h)
  {
  }

  lemma AdvancesTransitive(e: Entries, f: Entries, g: Entries, operation: KeyOperationId, h: KeyHandle)
    requires Sound(e) && Sound(f) && Sound(g)
    requires Advances(e, f, operation, h) && Advances(f, g, operation, h)
    ensures Advances(e, g, operation, h)
  {
    hide OneCreationIntent, NoCreationIntent, JournaledDeletions;
    assert DeletionIntent(h) in f ==> WellPlaced(DeletionIntent(h), f[DeletionIntent(h)]);
  }

  lemma InstallingAdvances(e: Entries, id: TransactionId, operation: KeyOperationId, h: KeyHandle)
    requires Sound(e) && !Spent(e, h)
    ensures Advances(e, Outcome(e, id, InstallDeletion(DeletionIntentV1(operation, h))), operation, h)
  {
  }

  lemma TombstoneAdvances(e: Entries, id: TransactionId, operation: KeyOperationId, h: KeyHandle)
    requires Sound(e) && DeletionIntent(h) in e
    ensures e[DeletionIntent(h)].DeletionIntentV1? && e[DeletionIntent(h)].handle == h
    ensures Advances(e, Outcome(e, id, Tombstone(e[DeletionIntent(h)])), operation, h)
  {
    assert WellPlaced(DeletionIntent(h), e[DeletionIntent(h)]);
  }

  /** A proven non-commit is accepted only when a fresh snapshot shows exactly the tombstone. */
  predicate ShowsTombstone(e: Entries, tombstone: Record)
    requires tombstone.KeyDeletedV1?
  {
    DeletionIntent(tombstone.handle) !in e && DeletedKey(tombstone.handle) in e && e[DeletedKey(tombstone.handle)] == tombstone
  }

  // ---- when a successful deletion leaves its journal record ----

  /** The provider calls of one pass all answer: a resumed pass asks first whether the key is still held. */
  predicate LetsGo(script: seq<Fault>, resumed: bool, live: bool) {
    Head(script) == Pass && (resumed && live ==> Head(Rest(script)) == Pass)
  }

  function AfterProvider(script: seq<Fault>, resumed: bool, live: bool): seq<Fault> {
    if resumed && live then Rest(Rest(script)) else Rest(script)
  }

  /** How one pass over a handle ends that is neither deleted nor referenced. */
  datatype PassEnd =
    | Finished(rest: seq<Fault>)
    | Again(rest: seq<Fault>, intended: bool, live: bool, deleted: bool) // a conflict, worth a second pass
    | GivenUp

  /** Once the key is let go: the tombstone's commit, then the removal of its journal record. */
  function TombstoneEnd(script: seq<Fault>): PassEnd {
    match Verdict(script)
    case NoAnswer => GivenUp
    case No => Again(AfterVerdict(script), true, false, false)
    case Yes =>
      var cleanup := AfterVerdict(script);
      if CleanupEnd(cleanup).Some? then Finished(CleanupEnd(cleanup).value)
      else if AbortsTwice(cleanup) then Again(AfterVerdict(AfterVerdict(cleanup)), false, false, true)
      else GivenUp
  }

  /** With the intent stored: the provider's answer, then the tombstone. */
  function ProviderEnd(script: seq<Fault>, resumed: bool, live: bool): PassEnd {
    if LetsGo(script, resumed, live) then TombstoneEnd(AfterProvider(script, resumed, live)) else GivenUp
  }

  /** The whole pass: it installs its intent unless one is stored. */
  function PassOf(script: seq<Fault>, intended: bool, live: bool): PassEnd {
    if intended then ProviderEnd(script, true, live)
    else
      match Verdict(script)
      case Yes => ProviderEnd(AfterVerdict(script), false, live)
      case No => Again(AfterVerdict(script), false, live, false)
      case NoAnswer => GivenUp
  }

  /** The faults left behind a deletion that succeeds: it has at most two passes, and one with the tombstone stored is done. */
  function DeletionEnd(script: seq<Fault>, journaled: bool, deleted: bool, intended: bool, live: bool): Option<seq<Fault>> {
    if journaled then RecoveryEnd(script)
    else if deleted then Some(script)
    else
      match PassOf(script, intended, live)
      case Finished(rest) => Some(rest)
      case GivenUp => None
      case Again(rest, stillIntended, stillLive, stored) =>
        if stored then Some(rest)
        else
          match PassOf(rest, stillIntended, stillLive)
          case Finished(end) => Some(end)
          case _ => None
  }

  lemma DeletionEnds(script: seq<Fault>, intended: bool, live: bool)
    ensures forall deleted :: DeletionEnd(script, true, deleted, intended, live) == RecoveryEnd(script)
    ensures DeletionEnd(script, false, true, intended, live) == Some(script)
    ensures LeavesJournal(script, intended, live) ==>
              DeletionEnd(script, false, false, intended, live) == Some(AfterLeaving(script, intended, live))
  {
  }

  /** Without faults the first pass is enough. */
  lemma NoFaultsDelete(deleted: bool, intended: bool, live: bool)
    ensures DeletionEnd([], true, deleted, intended, live) == DeletionEnd([], false, deleted, intended, live) == Some([])
    ensures !LeavesJournal([], intended, live)
  {
  }

  /** One proven abort is survived, of the intent, of the tombstone or of the cleanup; a second one of the intent is not. */
  lemma OneAbortIsSurvived(script: seq<Fault>, live: bool)
    requires Verdict(script) == No
    ensures AfterVerdict(script) == [] ==> DeletionEnd(script, false, false, false, live) == Some([])
    ensures AfterVerdict(script) == [] ==> DeletionEnd([Pass, Pass] + script, false, false, true, true) == Some([])
    ensures AfterVerdict(script) == [] ==> DeletionEnd([Pass, Pass, Pass] + script, false, false, true, true) == Some([])
    ensures Verdict(AfterVerdict(script)) == No ==> DeletionEnd(script, false, false, false, live) == None
  {
    var tombstone, cleanup := [Pass, Pass] + script, [Pass, Pass, Pass] + script;
    assert tombstone[1..] == [Pass] + script && tombstone[1..][1..] == script;
    assert cleanup[1..] == [Pass, Pass] + script && cleanup[1..][1..] == [Pass] + script && cleanup[1..][1..][1..] == script;
  }

  /** The first pass lands the tombstone and fails twice to remove the journal record. */
  predicate LeavesJournal(script: seq<Fault>, intended: bool, live: bool) {
    PassOf(script, intended, live).Again? && PassOf(script, intended, live).deleted
  }

  /** The faults left then. */
  function AfterLeaving(script: seq<Fault>, intended: bool, live: bool): seq<Fault> {
    match PassOf(script, intended, live)
    case Again(rest, _, _, _) => rest
    case _ => script
  }

  lemma KeptByTheTombstone(script: seq<Fault>)
    ensures TombstoneEnd(script).Again? && TombstoneEnd(script).deleted <==> KeepsJournal(script)
  {
  }

  lemma HarmlessLeavesNoJournal(script: seq<Fault>, intended: bool, live: bool)
    requires Harmless(script)
    ensures !LeavesJournal(script, intended, live)
  {
    hide Harmless, KeepsJournal, TombstoneEnd;
    if !intended { HarmlessAfterVerdict(script); }
    var start := if intended then script else AfterVerdict(script);
    HarmlessRest(start);
    HarmlessRest(Rest(start));
    HarmlessRest(Rest(Rest(start)));
    KeptByTheTombstone(AfterProvider(start, intended, live));
  }

  /** A resumed deletion of a held key whose two cleanup commits are both refused. */
  lemma TwoRefusedCleanupsLeaveTheJournal()
    ensures LeavesJournal([Pass, Pass, Pass, Drop, Drop], true, true)
  {
    var script := [Pass, Pass, Pass, Drop, Drop];
    assert script[1..] == [Pass, Pass, Drop, Drop] && script[2..] == [Pass, Drop, Drop] && script[3..] == [Drop, Drop];
    assert script[1..][1..] == script[2..] && script[2..][1..] == script[3..] && script[3..][1..] == [Drop];
  }

  /** Makes the provider let go of the key: after a definite answer it holds the key no longer. */
  method AskProvider(n: Node, h: KeyHandle, resumed: bool) returns (r: Result<()>)
    requires n.Valid() && Spent(n.store.entries, h)
    modifies n`gone, n`script
    ensures n.Valid() && old(n.gone) <= n.gone <= old(n.gone) + {h}
    ensures r.Ok? ==> !n.Live(h)
    ensures r.Err? ==> r.error.kind != Conflict
    ensures old(n.script) == [] ==> n.script == [] && r.Ok?
    ensures r.Ok? <==> LetsGo(old(n.script), resumed, old(n.Live(h)))
    ensures r.Ok? ==> n.script == AfterProvider(old(n.script), resumed, old(n.Live(h)))
  {
    var state: DeleteState;
    if resumed {
      state :- n.ReconcileDelete(h);
      if state.WasPresent? {
        state :- n.DeleteKey(h);
      }
    } else {
      state :- n.DeleteKey(h);
    }
    if state.DeleteUnknown? {
      return Err(Error(CommitUnknown, "key delete"));
    }
    return Ok(());
  }

  /** The node stands where the pass ended. */
  ghost predicate Ends(end: PassEnd, n: Node, h: KeyHandle, r: Result<()>, retry: bool)
    reads n
  {
    match end
    case Finished(rest) => r.Ok? && n.script == rest
    case GivenUp => r.Err? && !retry
    case Again(rest, intended, live, deleted) =>
      && r.Err? && retry && n.script == rest && (n.Live(h) <==> live)
      && (DeletionIntent(h) in n.store.entries <==> intended) && (DeletedKey(h) in n.store.entries <==> deleted)
      && (deleted ==> Pending(KeyDeletionPurpose(h)) in n.store.entries)
      && (!deleted ==> Pending(KeyDeletionPurpose(h)) !in n.store.entries)
  }

  /** Replaces the intent by the tombstone in one journaled transaction, then removes the journal record. */
  method FinishDeletion(n: Node, intent: Record, ghost operation: KeyOperationId) returns (r: Result<()>)
    requires n.Valid() && intent.DeletionIntentV1? && DeletionIntent(intent.handle) in n.store.entries
    requires n.store.entries[DeletionIntent(intent.handle)] == intent && !n.Live(intent.handle)
    modifies n`store, n`script
    ensures n.Valid()
    ensures Advances(old(n.store.entries), n.store.entries, operation, intent.handle)
    ensures r.Ok? ==>
              DeletedKey(intent.handle) in n.store.entries && Pending(KeyDeletionPurpose(intent.handle)) !in n.store.entries
    ensures old(n.script) == [] ==> n.script == [] && r.Ok?
    ensures Ends(TombstoneEnd(old(n.script)), n, intent.handle, r, r.Err? && r.error.kind == Conflict)
  {
    hide Backed, PendingInv, OneCreationIntent, NoCreationIntent, Typed, Advances;
    ghost var before := n.store.entries;
    var h := intent.handle;
    AdvancesReflexive(before, operation, h);
    PendingNeedsTombstone(before, h);
    var committed, id := n.CommitDecision(Tombstone(intent));
    TombstoneAdvances(before, id, operation, h);
    if committed.Err? {
      return Err(committed.error);
    }
    if !committed.value {
      if ShowsTombstone(n.store.entries, KeyDeletedV1(intent.operation, h)) {
        return Ok(());
      }
      return Err(Error(Conflict, "key deletion tombstone"));
    }
    ghost var after := n.store.entries;
    r := n.CleanupPending(KeyDeletionPurpose(h));
    AdvancesReflexive(after, operation, h);
    AdvancesTransitive(before, after, n.store.entries, operation, h);
  }

  /** The provider step for an installed intent, and then the tombstone. */
  method DeleteProviderStep(n: Node, intent: Record, resumed: bool, ghost operation: KeyOperationId) returns (r: Result<()>)
    requires n.Valid() && intent.DeletionIntentV1? && DeletionIntent(intent.handle) in n.store.entries
    requires n.store.entries[DeletionIntent(intent.handle)] == intent
    modifies n`store, n`gone, n`script
    ensures n.Valid() && old(n.gone) <= n.gone <= old(n.gone) + {intent.handle}
    ensures Advances(old(n.store.entries), n.store.entries, operation, intent.handle)
    ensures DeletedKey(intent.handle) in n.store.entries ==> !n.Live(intent.handle)
    ensures r.Ok? ==>
              DeletedKey(intent.handle) in n.store.entries && Pending(KeyDeletionPurpose(intent.handle)) !in n.store.entries
    ensures old(n.script) == [] ==> n.script == [] && r.Ok?
    ensures Ends(ProviderEnd(old(n.script), resumed, old(n.Live(intent.handle))), n, intent.handle, r,
                 r.Err? && r.error.kind == Conflict)
  {
    hide Backed, PendingInv, Sound, Advances, TombstoneEnd, LetsGo, AfterProvider;
    AdvancesReflexive(n.store.entries, operation, intent.handle);
    PendingNeedsTombstone(n.store.entries, intent.handle);
    var _ :- AskProvider(n, intent.handle, resumed);
    r := FinishDeletion(n, intent, operation);
  }

  lemma JournalHasTombstone(e: Entries, h: KeyHandle)
    requires Sound(e)
    ensures Pending(KeyDeletionPurpose(h)) in e ==> DeletedKey(h) in e
  {
  }

  lemma PendingNeedsTombstone(e: Entries, h: KeyHandle)
    requires Sound(e) && DeletionIntent(h) in e
    ensures DeletedKey(h) !in e && Pending(KeyDeletionPurpose(h)) !in e
  {
  }

  predicate Referenced(e: Entries, h: KeyHandle) {
    LocalIdentity in e && e[LocalIdentity].IdentityV1? && e[LocalIdentity].handle == h
  }

  /** One pass of the deletion; `retry` marks the conflicts worth a second pass. */
  method DeleteOnce(n: Node, operation: KeyOperationId, h: KeyHandle) returns (r: Result<()>, retry: bool)
    requires n.Valid()
    modifies n`store, n`gone, n`script
    ensures n.Valid() && old(n.gone) <= n.gone <= old(n.gone) + {h}
    ensures Advances(old(n.store.entries), n.store.entries, operation, h)
    ensures DeletedKey(h) in n.store.entries && DeletedKey(h) !in old(n.store.entries) ==> !n.Live(h)
    ensures Referenced(old(n.store.entries), h) ==> r.Err? && !retry && n.store == old(n.store) && n.gone == old(n.gone)
    ensures r.Ok? ==> DeletedKey(h) in n.store.entries
    ensures r.Ok? && DeletedKey(h) !in old(n.store.entries) ==> Pending(KeyDeletionPurpose(h)) !in n.store.entries
    ensures DeletedKey(h) in old(n.store.entries) ==> r.Ok? && n.store == old(n.store) && n.script == old(n.script)
    ensures retry ==> r.Err?
    ensures old(n.script) == [] ==> n.script == [] && (Referenced(old(n.store.entries), h) || r.Ok?)
    ensures DeletedKey(h) !in old(n.store.entries) && !Referenced(old(n.store.entries), h) ==>
              Ends(PassOf(old(n.script), DeletionIntent(h) in old(n.store.entries), old(n.Live(h))), n, h, r, retry)
  {
    hide Backed, PendingInv, Typed, OneCreationIntent, NoCreationIntent, Advances, JournaledDeletions, ProviderEnd;
    var e := n.store.entries;
    AdvancesReflexive(e, operation, h);
    JournalHasTombstone(e, h);
    if DeletedKey(h) in e {
      return Ok(()), false;
    }
    if LocalIdentity in e && e[LocalIdentity].handle == h {
      return Err(Error(Conflict, "referenced key handle")), false;
    }
    var resumed := DeletionIntent(h) in e;
    var intent := IntentOf(e, operation, h);
    if !resumed {
      var committed, id := n.CommitDecision(InstallDeletion(intent));
      InstallingAdvances(e, id, operation, h);
      if committed.Err? {
        return Err(committed.error), false;
      }
      if !committed.value {
        return Err(Error(Conflict, "key deletion intent")), true;
      }
    }
    ghost var installed := n.store.entries;
    IntentIsPlaced(e, h);
    r := DeleteProviderStep(n, intent, resumed, operation);
    AdvancesTransitive(e, installed, n.store.entries, operation, h);
    retry := r.Err? && r.error.kind == Conflict;
  }

  lemma IntentIsPlaced(e: Entries, h: KeyHandle)
    requires Sound(e)
    ensures DeletionIntent(h) in e ==> e[DeletionIntent(h)].DeletionIntentV1? && e[DeletionIntent(h)].handle == h
  {
    assert DeletionIntent(h) in e ==> WellPlaced(DeletionIntent(h), e[DeletionIntent(h)]);
  }

  lemma AdvancesKeepsReference(e: Entries, f: Entries, operation: KeyOperationId, h: KeyHandle)
    requires Advances(e, f, operation, h)
    ensures Referenced(e, h) <==> Referenced(f, h)
  {
  }

  /** At most two passes over a handle with no journal record. */
  method DeleteInPasses(n: Node, operation: KeyOperationId, h: KeyHandle) returns (r: Result<()>)
    requires n.Valid() && Pending(KeyDeletionPurpose(h)) !in n.store.entries
    modifies n`store, n`gone, n`script
    ensures n.Valid() && old(n.gone) <= n.gone <= old(n.gone) + {h}
    ensures Advances(old(n.store.entries), n.store.entries, operation, h)
    ensures DeletedKey(h) in n.store.entries && DeletedKey(h) !in old(n.store.entries) ==> !n.Live(h)
    ensures Referenced(old(n.store.entries), h) ==> r.Err? && n.store == old(n.store) && n.gone == old(n.gone)
    ensures r.Ok? ==> DeletedKey(h) in n.store.entries
    ensures !Referenced(old(n.store.entries), h) ==>
              match DeletionEnd(old(n.script), false, DeletedKey(h) in old(n.store.entries),
                                DeletionIntent(h) in old(n.store.entries), old(n.Live(h)))
              case Some(end) => r.Ok? && n.script == end
              case None => r.Err?
    ensures r.Ok? && Pending(KeyDeletionPurpose(h)) in n.store.entries <==>
            && DeletedKey(h) !in old(n.store.entries) && !Referenced(old(n.store.entries), h)
            && LeavesJournal(old(n.script), DeletionIntent(h) in old(n.store.entries), old(n.Live(h)))
    ensures old(n.script) == [] && Referenced(old(n.store.entries), h) ==> n.script == []
  {
    hide Backed, PendingInv, Sound, Advances, PassOf;
    ghost var before := n.store.entries;
    ghost var first := PassOf(n.script, DeletionIntent(h) in before, n.Live(h));
    AdvancesReflexive(before, operation, h);
    r := Ok(());
    var attempts := 0;
    while true
      invariant n.Valid() && attempts <= 1 && old(n.gone) <= n.gone <= old(n.gone) + {h}
      invariant Advances(before, n.store.entries, operation, h)
      invariant DeletedKey(h) in n.store.entries && DeletedKey(h) !in before ==> !n.Live(h)
      invariant attempts == 0 ==> n.store == old(n.store) && n.gone == old(n.gone) && n.script == old(n.script)
      invariant attempts == 1 ==> DeletedKey(h) !in before && !Referenced(before, h) && first.Again? && Ends(first, n, h, r, true)
      decreases 2 - attempts
    {
      attempts := attempts + 1;
      ghost var now := n.store.entries;
      AdvancesKeepsReference(before, now, operation, h);
      var retry;
      r, retry := DeleteOnce(n, operation, h);
      AdvancesTransitive(before, now, n.store.entries, operation, h);
      if r.Ok? || !retry || attempts >= 2 {
        return;
      }
    }
  }

  /**
   Deletes one unreferenced handle.  A handle the stored identity uses is refused with no effect.
   Through any faults the entries change only by carrying this deletion on; success means the
   tombstone is stored.  The journal record stays behind a successful deletion exactly when the
   first pass lands its tombstone and both of its cleanup commits are proven aborted.
   */
  method DeleteUnreferencedKey(n: Node, operation: KeyOperationId, h: KeyHandle) returns (r: Result<()>)
    requires n.Valid()
    modifies n`store, n`gone, n`script
    ensures n.Valid() && old(n.gone) <= n.gone <= old(n.gone) + {h}
    ensures Advances(old(n.store.entries), n.store.entries, operation, h)
    ensures DeletedKey(h) in n.store.entries && DeletedKey(h) !in old(n.store.entries) ==> !n.Live(h)
    ensures Referenced(old(n.store.entries), h) ==>
              r.Err? && n.store.entries == old(n.store.entries) && n.gone == old(n.gone)
    ensures r.Ok? ==> DeletedKey(h) in n.store.entries
    ensures n.steady && r.Ok? ==> Pending(KeyDeletionPurpose(h)) !in n.store.entries
    ensures old(n.script) == [] ==> n.script == [] && (r.Ok? <==> !Referenced(old(n.store.entries), h))
    ensures old(n.script) == [] && r.Ok? ==> Pending(KeyDeletionPurpose(h)) !in n.store.entries
    ensures r.Ok? && Pending(KeyDeletionPurpose(h)) in n.store.entries <==>
            && DeletedKey(h) !in old(n.store.entries) && !Referenced(old(n.store.entries), h)
            && LeavesJournal(old(n.script), DeletionIntent(h) in old(n.store.entries), old(n.Live(h)))
    ensures r.Ok? && Pending(KeyDeletionPurpose(h)) in n.store.entries ==>
              n.script == AfterLeaving(old(n.script), DeletionIntent(h) in old(n.store.entries), old(n.Live(h)))
    ensures !Referenced(old(n.store.entries), h) ==>
              match DeletionEnd(old(n.script), Pending(KeyDeletionPurpose(h)) in old(n.store.entries),
                                DeletedKey(h) in old(n.store.entries), DeletionIntent(h) in old(n.store.entries), old(n.Live(h)))
              case Some(end) => r.Ok? && n.script == end
              case None => r.Err?
  {
    hide Backed, PendingInv, Sound, Advances, DeletionEnd, LeavesJournal, AfterLeaving, RecoveryEnd, Spent, Referenced;
    ghost var before := n.store.entries;
    DeletionEnds(n.script, DeletionIntent(h) in before, n.Live(h));
    if n.steady { HarmlessLeavesNoJournal(n.script, DeletionIntent(h) in before, n.Live(h)); }
    AdvancesReflexive(before, operation, h);
    NoFaultsDelete(DeletedKey(h) in before, DeletionIntent(h) in before, n.Live(h));
    JournalHasTombstone(before, h);
    if Referenced(before, h) { ReferencedIsUntouched(before, h); }
    var recovered := n.RecoverJournal(KeyDeletionPurpose(h));
    if recovered.Err? {
      return Err(recovered.error);
    }
    ghost var start := n.store.entries;
    AdvancesKeepsReference(before, start, operation, h);
    DeletionEnds(n.script, DeletionIntent(h) in start, n.Live(h));
    r := DeleteInPasses(n, operation, h);
    AdvancesTransitive(before, start, n.store.entries, operation, h);
  }

  lemma ReferencedIsUntouched(e: Entries, h: KeyHandle)
    requires Sound(e) && Referenced(e, h)
    ensures !Spent(e, h) && e - {Pending(KeyDeletionPurpose(h))} == e
  {
  }
}
