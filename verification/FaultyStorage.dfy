/**
 Storage that may answer indeterminately or take the process down around any call.  The faults of
 a run are a script the calls consume; an exhausted script means every further call completes and
 answers.
 */
module FaultyStorage {
  import opened Results
  import opened Storage

  /**
   What happens at one call.  `Drop`: refused without effect.  `Lost`: the caller learns nothing,
   `applied` says whether the call took effect.  `Die`: the process is gone.
   */
  datatype Fault = Pass | Drop | Lost(applied: bool) | Die(applied: bool)

  const CRASHED := Error(Crashed, "crash")
  const RECONCILE_UNKNOWN := Error(CommitUnknown, "storage reconcile")

  /** The fault the next call meets. */
  function Head(script: seq<Fault>): Fault {
    if script == [] then Pass else script[0]
  }

  function Rest(script: seq<Fault>): (rest: seq<Fault>)
    ensures AbortFree(script) ==> AbortFree(rest)
  {
    assert script != [] ==> forall fault | fault in script[1..] :: fault in script;
    if script == [] then [] else script[1..]
  }

  /** The script holds crashes and lost answers, but no call that is proven not to have happened. */
  predicate AbortFree(script: seq<Fault>) {
    forall fault | fault in script :: fault != Drop && fault != Lost(false)
  }

  lemma HeadOfAbortFree(script: seq<Fault>)
    requires AbortFree(script)
    ensures Head(script) != Drop && Head(script) != Lost(false)
  {
    assert script != [] ==> script[0] in script;
  }

  /** The call this fault meets takes effect. */
  predicate Takes(fault: Fault) {
    fault.Pass? || ((fault.Lost? || fault.Die?) && fault.applied)
  }

  datatype Answer = Yes | No | NoAnswer

  /** What a commit that can land ends in: its own answer, or the reconciliation of a lost one. */
  function Verdict(script: seq<Fault>): Answer {
    match Head(script)
    case Pass => Yes
    case Drop => No
    case Lost(applied) => if Head(Rest(script)) != Pass then NoAnswer else if applied then Yes else No
    case Die(_) => NoAnswer
  }

  /** The faults left once that commit has ended. */
  function AfterVerdict(script: seq<Fault>): (rest: seq<Fault>)
    ensures AbortFree(script) ==> AbortFree(rest)
  {
    if Head(script).Lost? then Rest(Rest(script)) else Rest(script)
  }

  lemma NoFaultsLeft()
    ensures Verdict([]) == Yes && AfterVerdict([]) == []
  {
  }

  /** Two commits in a row are proven not to have happened. */
  predicate AbortsTwice(script: seq<Fault>) {
    Verdict(script) == No && Verdict(AfterVerdict(script)) == No
  }

  /** The faults left once a journal record is removed: one proven abort is tolerated. */
  function CleanupEnd(script: seq<Fault>): Option<seq<Fault>> {
    match Verdict(script)
    case Yes => Some(AfterVerdict(script))
    case No => if Verdict(AfterVerdict(script)) == Yes then Some(AfterVerdict(AfterVerdict(script))) else None
    case NoAnswer => None
  }

  /** A journaled commit lands and both cleanup commits of its journal record are proven aborted. */
  predicate KeepsJournal(script: seq<Fault>) {
    Verdict(script) == Yes && AbortsTwice(AfterVerdict(script))
  }

  /** From no point of the script on does a journal record stay behind. */
  ghost predicate Harmless(script: seq<Fault>) {
    forall k | 0 <= k <= |script| :: !KeepsJournal(script[k..])
  }

  lemma HarmlessRest(script: seq<Fault>)
    requires Harmless(script)
    ensures Harmless(Rest(script)) && !KeepsJournal(script)
  {
    assert script[0..] == script;
    if script != [] {
      forall k | 0 <= k <= |script[1..]| ensures !KeepsJournal(script[1..][k..]) {
        assert script[1..][k..] == script[k + 1..];
      }
    }
  }

  lemma HarmlessAfterVerdict(script: seq<Fault>)
    requires Harmless(script)
    ensures Harmless(AfterVerdict(script))
  {
    HarmlessRest(script);
    HarmlessRest(Rest(script));
  }

  /** Crashes and lost answers alone are harmless. */
  lemma AbortFreeIsHarmless(script: seq<Fault>)
    requires AbortFree(script)
    ensures Harmless(script)
  {
    forall k | 0 <= k <= |script| ensures !KeepsJournal(script[k..]) {
      assert forall fault | fault in script[k..] :: fault in script;
      AbortFreeNeverSaysNo(AfterVerdict(script[k..]));
    }
  }

  lemma AbortFreeNeverSaysNo(script: seq<Fault>)
    requires AbortFree(script)
    ensures Verdict(script) != No
  {
    HeadOfAbortFree(script);
  }

  /** Entropy: a transaction id that was never used. */
  method FreshId(used: set<TransactionId>) returns (id: TransactionId)
    ensures id !in used
  {
    var rest := used;
    id := "";
    while rest != {}
      invariant rest <= used && forall u | u in used && u !in rest :: |u| < |id|
      decreases |rest|
    {
      var u :| u in rest;
      rest := rest - {u};
      if |u| >= |id| {
        id := u + "0";
      }
    }
  }

  /** The store's own commit: it applies atomically or not at all, and the answer may be lost. */
  method TryCommit<K(!new), V(==)>(s: Store<K, V>, script: seq<Fault>, t: Transaction<K, V>)
    returns (s': Store<K, V>, r: Result<CommitOutcome<K, V>>)
    ensures s' == s || (Lands(s, t) && s' == Landed(s, t))
    ensures s' == if Takes(Head(script)) then Commit(s, t).0 else s
    ensures AbortFree(script) && r.Ok? ==> !r.value.Aborted? && s' == Commit(s, t).0
    ensures Head(script) == Drop ==> r == Ok(Aborted)
    ensures Head(script).Lost? ==>
              r == Ok(Unknown(t.id, t.Digest())) && s' == (if Head(script).applied then Commit(s, t).0 else s)
    ensures Head(script).Die? ==> r.Err?
    ensures r.Ok? && !r.value.Unknown? && !r.value.Aborted? ==> (s', r.value) == Commit(s, t)
    ensures r.Ok? && r.value.Aborted? ==> s' == s
    ensures r.Err? ==> r.error == CRASHED
    ensures Head(script) == Pass ==> r.Ok? && !r.value.Unknown? && !r.value.Aborted?
  {
    if AbortFree(script) { HeadOfAbortFree(script); }
    var after := Commit(s, t);
    match Head(script) {
      case Pass => return after.0, Ok(after.1);
      case Drop => return s, Ok(Aborted);
      case Lost(applied) => return if applied then after.0 else s, Ok(Unknown(t.id, t.Digest()));
      case Die(applied) => return if applied then after.0 else s, Err(CRASHED);
    }
  }

  method TryReconcile<K(!new), V(==)>(s: Store<K, V>, script: seq<Fault>, id: TransactionId, digest: OperationDigest<K, V>)
    returns (r: Result<ReconcileOutcome<K, V>>)
    ensures r.Ok? && !r.value.ReconcileUnknown? ==> r.value == Reconcile(s, id, digest)
    ensures r.Err? ==> r.error == CRASHED
    ensures Head(script) == Pass <==> r.Ok? && !r.value.ReconcileUnknown?
  {
    match Head(script) {
      case Pass => return Ok(Reconcile(s, id, digest));
      case Die(_) => return Err(CRASHED);
      case _ => return Ok(ReconcileUnknown);
    }
  }

  /**
   Commits one prepared transaction with an unused id; an indeterminate answer is reconciled.
   A definite answer is the truth about the store, whatever was lost on the way.
   */
  method CommitWithReconcile<K(!new), V(==)>(s: Store<K, V>, script: seq<Fault>, t: Transaction<K, V>)
    returns (s': Store<K, V>, rest: seq<Fault>, r: Result<bool>)
    requires t.id !in s.receipts
    ensures s' == s || (Lands(s, t) && s' == Landed(s, t))
    ensures s' != s <==> Lands(s, t) && Takes(Head(script))
    ensures r.Ok? ==> (r.value <==> s' != s)
    ensures r.Err? ==> r.error.kind != Conflict
    ensures Head(script) == Pass ==> rest == Rest(script) && r == Ok(Lands(s, t))
    ensures AbortFree(script) ==> AbortFree(rest) && (r.Ok? ==> r.value == Lands(s, t))
    ensures Harmless(script) ==> Harmless(rest)
    ensures Lands(s, t) ==>
              && rest == AfterVerdict(script)
              && (r == Ok(true) <==> Verdict(script) == Yes) && (r == Ok(false) <==> Verdict(script) == No)
  {
    if Harmless(script) {
      HarmlessRest(script);
      HarmlessRest(Rest(script));
    }
    rest := Rest(script);
    var outcome;
    s', outcome := TryCommit(s, script, t);
    if outcome.Err? {
      return s', rest, Err(outcome.error);
    }
    match outcome.value {
      case Committed(_) => return s', rest, Ok(true);
      case Aborted => return s', rest, Ok(false);
      case Refused => return s', rest, Ok(false);
      case Unknown(_, _) =>
        var verdict := TryReconcile(s', rest, t.id, t.Digest());
        rest := Rest(rest);
        if verdict.Err? {
          return s', rest, Err(verdict.error);
        }
        match verdict.value {
          case ReconciledCommitted(_) => return s', rest, Ok(true);
          case ReconciledAborted => return s', rest, Ok(false);
          case DigestConflict => return s', rest, Err(Error(StorageCorrupt, "storage reconcile"));
          case ReconcileUnknown => return s', rest, Err(RECONCILE_UNKNOWN);
        }
    }
  }

  /** What removing one record by an exact delete leaves. */
  ghost predicate Removed<K, V>(s: Store<K, V>, s': Store<K, V>, key: K) {
    s'.entries == s.entries - {key} && s.receipts.Keys <= s'.receipts.Keys
  }

  /** One cleanup commit: `false` is a proven abort, a refusal is a conflict. */
  method CleanupOnce<K(!new), V(==)>(s: Store<K, V>, script: seq<Fault>, key: K)
    returns (s': Store<K, V>, rest: seq<Fault>, r: Result<bool>)
    requires key in s.entries
    ensures s' == s || Removed(s, s', key)
    ensures r == Ok(true) ==> Removed(s, s', key)
    ensures r == Ok(false) ==> s' == s
    ensures r.Err? ==> r.error.kind != Conflict
    ensures rest == AfterVerdict(script) && (Harmless(script) ==> Harmless(rest))
    ensures (r == Ok(true) <==> Verdict(script) == Yes) && (r == Ok(false) <==> Verdict(script) == No)
  {
    if Harmless(script) { HarmlessAfterVerdict(script); }
    var id := FreshId(s.receipts.Keys);
    var t := Transaction(id, s.revision, [Delete(key, s.entries[key])]);
    DeletingOne(s, t, key);
    rest := Rest(script);
    var outcome;
    s', outcome := TryCommit(s, script, t);
    if outcome.Err? {
      return s', rest, Err(outcome.error);
    }
    match outcome.value {
      case Committed(_) => return s', rest, Ok(true);
      case Refused => return s', rest, Err(Error(Conflict, "pending cleanup"));
      case Aborted => return s', rest, Ok(false);
      case Unknown(_, _) =>
        var verdict := TryReconcile(s', rest, t.id, t.Digest());
        rest := Rest(rest);
        if verdict.Err? {
          return s', rest, Err(verdict.error);
        }
        match verdict.value {
          case ReconciledCommitted(_) => return s', rest, Ok(true);
          case ReconciledAborted => return s', rest, Ok(false);
          case DigestConflict => return s', rest, Err(Error(StorageCorrupt, "storage reconcile"));
          case ReconcileUnknown => return s', rest, Err(RECONCILE_UNKNOWN);
        }
    }
  }

  lemma DeletingOne<K(!new), V>(s: Store<K, V>, t: Transaction<K, V>, key: K)
    requires key in s.entries && t.operations == [Delete(key, s.entries[key])]
    ensures AllConditions(s, t.operations) && Removed(s, Landed(s, t), key)
    ensures t.id in Landed(s, t).receipts && Landed(s, t).receipts[t.id].digest == t.Digest()
  {
    assert t.operations[1..] == [];
    assert ApplyAll(s, t.operations) == Apply(s, t.operations[0]);
  }

  /** Deletes a journal record once, tolerating one proven abort with a fresh transaction id. */
  method CleanupExact<K(!new), V(==)>(s: Store<K, V>, script: seq<Fault>, key: K)
    returns (s': Store<K, V>, rest: seq<Fault>, r: Result<()>)
    ensures s' == s || Removed(s, s', key)
    ensures r.Ok? ==> s'.entries == s.entries - {key}
    ensures script == [] ==> rest == [] && r.Ok?
    ensures AbortFree(script) ==> AbortFree(rest) && (r.Err? ==> r.error.kind != Conflict)
    ensures Harmless(script) ==> Harmless(rest)
    ensures key in s.entries ==> (r.Err? && r.error.kind == Conflict <==> AbortsTwice(script))
    ensures key in s.entries ==>
              (r.Ok? <==> CleanupEnd(script).Some?) && (r.Ok? ==> rest == CleanupEnd(script).value)
    ensures key in s.entries && AbortsTwice(script) ==> s' == s && rest == AfterVerdict(AfterVerdict(script))
  {
    s', rest := s, script;
    if AbortFree(script) { AbortFreeNeverSaysNo(script); }
    var attempts := 0;
    while true
      invariant attempts <= 1 && s' == s && (script == [] ==> rest == [])
      invariant AbortFree(script) ==> AbortFree(rest) && attempts == 0
      invariant Harmless(script) ==> Harmless(rest)
      invariant attempts == 0 ==> rest == script
      invariant attempts == 1 ==> Verdict(script) == No && rest == AfterVerdict(script)
      decreases 2 - attempts
    {
      attempts := attempts + 1;
      if key !in s'.entries {
        return s', rest, Ok(());
      }
      var cleaned;
      s', rest, cleaned := CleanupOnce(s', rest, key);
      if cleaned.Err? {
        return s', rest, Err(cleaned.error);
      }
      if cleaned.value {
        return s', rest, Ok(());
      }
      if attempts >= 2 {
        return s', rest, Err(Error(Conflict, "pending cleanup"));
      }
    }
  }

  /** The faults left once a stored journal record is resolved and removed. */
  function RecoveryEnd(script: seq<Fault>): Option<seq<Fault>> {
    if Head(script) == Pass then CleanupEnd(Rest(script)) else None
  }

  /**
   The journal-recovery prologue: a stored journal record proves its transaction committed, so
   only a committed verdict is accepted, and the record is cleaned up.  `true` is a recovery.
   */
  method RecoverJournal<K(!new), V(==)>(s: Store<K, V>, script: seq<Fault>, key: K, id: TransactionId)
    returns (s': Store<K, V>, rest: seq<Fault>, r: Result<bool>)
    requires key in s.entries ==> id in s.receipts
    ensures s' == s || Removed(s, s', key)
    ensures r.Ok? ==> s'.entries == s.entries - {key} && (r.value <==> key in s.entries)
    ensures script == [] ==> rest == [] && r.Ok?
    ensures (AbortFree(script) ==> AbortFree(rest)) && (Harmless(script) ==> Harmless(rest))
    ensures key !in s.entries ==> r == Ok(false) && s' == s && rest == script
    ensures key in s.entries ==>
              match RecoveryEnd(script)
              case Some(end) => r.Ok? && rest == end
              case None => r.Err?
  {
    s', rest := s, script;
    if key !in s.entries {
      return s', rest, Ok(false);
    }
    if Harmless(script) { HarmlessRest(script); }
    var verdict := TryReconcile(s, script, id, s.receipts[id].digest);
    rest := Rest(script);
    if verdict.Err? {
      return s', rest, Err(verdict.error);
    }
    if !verdict.value.ReconciledCommitted? {
      return s', rest, Err(Error(StorageCorrupt, "storage reconcile"));
    }
    var cleaned;
    s', rest, cleaned := CleanupExact(s, rest, key);
    return s', rest, if cleaned.Ok? then Ok(true) else Err(cleaned.error);
  }
}
