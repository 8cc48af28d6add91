/** Committing and adopting merges on a member's store, through any faults. */
module Merge {
  import opened Results
  import opened Storage
  import opened FaultyStorage
  import opened MergeAdmission

  /** Every journal record names a transaction whose receipt is stored. */
  ghost predicate Journaled(s: Store<Key, Record>) {
    forall p | JournalKey(p) in s.entries && s.entries[JournalKey(p)].JournalRecord? ::
      s.entries[JournalKey(p)].transaction in s.receipts
  }

  lemma AdmitEntries(s: Store<Key, Record>, self: Self, proposal: Proposal, bindSubject: bool, grant: Grant, id: TransactionId)
    ensures var r := ApplyAll(s, AdmitWrites(self, proposal, bindSubject, grant, id));
            r.entries == Admitted(s.entries, self, proposal, bindSubject, grant, id) && r.receipts == s.receipts
  {
    hide ApplyAll;
    var writes := AdmitWrites(self, proposal, bindSubject, grant, id);
    var checks := writes[..2];
    var bind := writes[2..|writes| - 3];
    var puts := writes[|writes| - 3..];
    assert writes == (checks + bind) + puts;
    ApplyConcat(s, checks + bind, puts);
    ApplyConcat(s, checks, bind);
    ApplyTwo(s, writes[0], writes[1]);
    ApplyNothing(s);
    if bindSubject {
      assert bind == [writes[2]];
      ApplyOne(s, writes[2]);
    }
    assert puts == [puts[0], puts[1], puts[2]];
    ApplyThree(ApplyAll(s, checks + bind), puts[0], puts[1], puts[2]);
  }

  lemma ApplyNothing(s: Store<Key, Record>)
    ensures ApplyAll(s, []) == s
  {
  }

  lemma AdmitConditions(s: Store<Key, Record>, self: Self, proposal: Proposal, bindSubject: bool, grant: Grant, id: TransactionId)
    requires Sound(s.entries, self) && Decide(s.entries, self, proposal) == Admit(bindSubject)
    ensures AllConditions(s, AdmitWrites(self, proposal, bindSubject, grant, id)) <==>
            JournalKey(MergePurpose(proposal.generation)) !in s.entries
  {
    DecisionTable(s.entries, self, proposal);
    hide Decide;
    var writes := AdmitWrites(self, proposal, bindSubject, grant, id);
    assert ConditionMatches(s, writes[|writes| - 1]) <==> JournalKey(MergePurpose(proposal.generation)) !in s.entries;
    forall i | 0 <= i < |writes| - 1 ensures ConditionMatches(s, writes[i]) {
    }
  }

  /** The admission transaction is well-formed, lands unless a journal occupies the slot, and stores the triple. */
  lemma AdmitLands(s: Store<Key, Record>, self: Self, proposal: Proposal, bindSubject: bool, grant: Grant, id: TransactionId)
    requires Sound(s.entries, self) && Journaled(s) && Decide(s.entries, self, proposal) == Admit(bindSubject)
    ensures var t := Transaction(id, s.revision, AdmitWrites(self, proposal, bindSubject, grant, id));
            && PairwiseDistinct(t.operations)
            && Landed(s, t).entries == Admitted(s.entries, self, proposal, bindSubject, grant, id)
            && Journaled(Landed(s, t))
            && (id !in s.receipts ==> (Lands(s, t) <==> JournalKey(MergePurpose(proposal.generation)) !in s.entries))
  {
    AdmitConditions(s, self, proposal, bindSubject, grant, id);
    AdmitEntries(s, self, proposal, bindSubject, grant, id);
    assert bindSubject ==> proposal.subject != self.node by { DecisionTable(s.entries, self, proposal); }
    AdmitDistinct(self, proposal, bindSubject, grant, id);
    hide Decide, Sound, ApplyAll, AllConditions, PairwiseDistinct, AdmitWrites;
  }

  lemma AdmitDistinct(self: Self, proposal: Proposal, bindSubject: bool, grant: Grant, id: TransactionId)
    requires bindSubject ==> proposal.subject != self.node
    ensures PairwiseDistinct(AdmitWrites(self, proposal, bindSubject, grant, id))
  {
    assert !bindSubject ==> |AdmitWrites(self, proposal, bindSubject, grant, id)| == 5;
  }

  lemma AdoptEntries(s: Store<Key, Record>, self: Self, grant: Grant, issuerKey: PublicKey, d: AdoptionDecision, id: TransactionId)
    requires d.Adopt? && d.storeGrant
    ensures var r := ApplyAll(s, AdoptWrites(self, grant, issuerKey, d, id));
            r.entries == Adopted(s.entries, grant, issuerKey, d, id) && r.receipts == s.receipts
  {
    hide ApplyAll;
    var writes := AdoptWrites(self, grant, issuerKey, d, id);
    if d.bindIssuer {
      assert writes == [writes[0]] + [writes[1], writes[2], writes[3]];
      ApplyConcat(s, [writes[0]], [writes[1], writes[2], writes[3]]);
      ApplyOne(s, writes[0]);
      ApplyThree(s, writes[1], writes[2], writes[3]);
    } else {
      assert writes == [writes[0], writes[1], writes[2]];
      ApplyThree(s, writes[0], writes[1], writes[2]);
    }
  }

  lemma AdoptLands(s: Store<Key, Record>, self: Self, grant: Grant, issuerKey: PublicKey, id: TransactionId)
    requires Sound(s.entries, self) && Journaled(s) && DecideAdoption(s.entries, self, grant, issuerKey).Adopt?
    ensures var d := DecideAdoption(s.entries, self, grant, issuerKey);
            var t := Transaction(id, s.revision, AdoptWrites(self, grant, issuerKey, d, id));
            && PairwiseDistinct(t.operations)
            && Landed(s, t).entries == Adopted(s.entries, grant, issuerKey, d, id)
            && Journaled(Landed(s, t))
            && (id !in s.receipts ==> (Lands(s, t) <==> JournalKey(AdoptionPurpose(grant.merge)) !in s.entries))
  {
    AdoptionTable(s.entries, self, grant, issuerKey);
    var d := DecideAdoption(s.entries, self, grant, issuerKey);
    AdoptEntries(s, self, grant, issuerKey, d, id);
    hide DecideAdoption, ApplyAll, UsesGranted, GrantsUsed, Typed;
    var writes := AdoptWrites(self, grant, issuerKey, d, id);
    assert AllConditions(s, writes) <==> JournalKey(AdoptionPurpose(grant.merge)) !in s.entries by {
      assert ConditionMatches(s, writes[|writes| - 1]) <==> JournalKey(AdoptionPurpose(grant.merge)) !in s.entries;
    }
  }

  lemma SelfIsBoundToItself(e: Entries, self: Self)
    requires Sound(e, self)
    ensures BindingKey(self.node) in e ==> Bound(e, self.node, self.publicKey)
  {
  }

  lemma BindingLands(s: Store<Key, Record>, self: Self, t: Transaction<Key, Record>)
    requires Sound(s.entries, self) && Journaled(s) && BindingKey(self.node) !in s.entries && t.id !in s.receipts
    requires t.base == s.revision && t.operations == [Put(BindingKey(self.node), Absent, BindingRecord(self.node, self.publicKey))]
    ensures Lands(s, t) && Landed(s, t).entries == SelfBound(s.entries, self) && Journaled(Landed(s, t))
    ensures Sound(SelfBound(s.entries, self), self) && Grows(s.entries, SelfBound(s.entries, self))
  {
    SelfBoundIsSound(s.entries, self);
    ApplyOne(s, t.operations[0]);
    hide Sound;
  }

  /** A proposal to be admitted is not applied yet, and its admission is journaled. */
  lemma AdmitIsNew(e: Entries, self: Self, proposal: Proposal, bindSubject: bool, grant: Grant, id: TransactionId)
    requires Decide(e, self, proposal) == Admit(bindSubject)
    ensures Classify(e, self, proposal) == Ok(Unapplied)
    ensures JournalKey(MergePurpose(proposal.generation)) in Admitted(e, self, proposal, bindSubject, grant, id)
  {
  }

  /** A grant to be adopted is not adopted yet, and its adoption is journaled. */
  lemma AdoptIsNew(e: Entries, self: Self, grant: Grant, issuerKey: PublicKey, id: TransactionId)
    requires DecideAdoption(e, self, grant, issuerKey).Adopt?
    ensures AdoptionClassify(e, self, grant, issuerKey) != Ok(true)
    ensures JournalKey(AdoptionPurpose(grant.merge)) in Adopted(e, grant, issuerKey, DecideAdoption(e, self, grant, issuerKey), id)
  {
  }

  /** A journaled commit is known to have landed, and its journal record is removed. */
  predicate JournaledEnd(script: seq<Fault>) {
    Verdict(script) == Yes && CleanupEnd(AfterVerdict(script)).Some?
  }

  class Member {
    const self: Self
    var store: Store<Key, Record>
    var script: seq<Fault>

    ghost predicate Valid()
      reads this
    {
      Sound(store.entries, self) && Journaled(store)
    }

    /** A member with its own identity stored and nothing else. */
    constructor (self: Self, script: seq<Fault>)
      ensures Valid() && this.self == self && this.script == script
      ensures store == Store(map[LocalKey := LocalRecord(self.node, self.publicKey)], map[], 0)
    {
      this.self, this.script := self, script;
      store := Store(map[LocalKey := LocalRecord(self.node, self.publicKey)], map[], 0);
      new;
      FreshMemberIsSound(self);
    }

    /** The stored binding of this node must be its own. */
    function ExactSelfBinding(e: Entries): Result<()> {
      if BindingKey(self.node) !in e then Err(Error(Conflict, "self binding"))
      else if e[BindingKey(self.node)] == BindingRecord(self.node, self.publicKey) then Ok(())
      else Err(DISCOVERY_CORRUPT)
    }

    /**
     Every start: the node's own binding is stored unless it already is.  It succeeds exactly when
     the binding was there or its commit is known to have landed.
     */
    method EnsureSelfBinding() returns (r: Result<()>)
      requires Valid()
      modifies this`store, this`script
      ensures Valid() && Grows(old(store.entries), store.entries)
      ensures r.Ok? ==> Bound(store.entries, self.node, self.publicKey)
      ensures BindingKey(self.node) in old(store.entries) ==> r.Ok? && store == old(store) && script == old(script)
      ensures BindingKey(self.node) !in old(store.entries) ==>
                && (r.Ok? <==> Verdict(old(script)) == Yes)
                && store.entries == (if Takes(Head(old(script))) then SelfBound(old(store.entries), self) else old(store.entries))
    {
      hide Sound;
      SelfIsBoundToItself(store.entries, self);
      var key := BindingKey(self.node);
      if key in store.entries {
        return ExactSelfBinding(store.entries);
      }
      var id := FreshId(store.receipts.Keys);
      var t := Transaction(id, store.revision, [Put(key, Absent, BindingRecord(self.node, self.publicKey))]);
      BindingLands(store, self, t);
      var committed;
      store, script, committed := CommitWithReconcile(store, script, t);
      if committed.Err? {
        return Err(committed.error);
      }
      if !committed.value {
        return ExactSelfBinding(store.entries);
      }
      return Ok(());
    }

    /** Resolves and removes a journal record left in this purpose's slot. */
    method Recover(purpose: Purpose) returns (r: Result<bool>)
      requires Valid()
      modifies this`store, this`script
      ensures Valid() && Grows(old(store.entries), store.entries)
      ensures store.entries == old(store.entries) || store.entries == old(store.entries) - {JournalKey(purpose)}
      ensures r.Ok? ==>
                store.entries == old(store.entries) - {JournalKey(purpose)} && (r.value <==> JournalKey(purpose) in old(store.entries))
      ensures JournalKey(purpose) !in old(store.entries) ==> r == Ok(false) && store == old(store) && script == old(script)
      ensures JournalKey(purpose) in old(store.entries) ==> (r.Ok? <==> RecoveryEnd(old(script)).Some?)
      ensures old(script) == [] ==> script == [] && r.Ok?
    {
      hide UsesGranted, GrantsUsed;
      var key := JournalKey(purpose);
      var id := if key in store.entries then store.entries[key].transaction else "";
      JournalGoneIsSound(store.entries, self, purpose);
      store, script, r := RecoverJournal(store, script, key, id);
    }

    method Cleanup(purpose: Purpose) returns (r: Result<()>)
      requires Valid()
      modifies this`store, this`script
      ensures Valid() && Grows(old(store.entries), store.entries)
      ensures store.entries == old(store.entries) || store.entries == old(store.entries) - {JournalKey(purpose)}
      ensures r.Ok? ==> store.entries == old(store.entries) - {JournalKey(purpose)}
      ensures old(script) == [] ==> script == [] && r.Ok?
      ensures JournalKey(purpose) in old(store.entries) ==> (r.Ok? <==> CleanupEnd(old(script)).Some?)
    {
      hide UsesGranted, GrantsUsed;
      JournalGoneIsSound(store.entries, self, purpose);
      store, script, r := CleanupExact(store, script, JournalKey(purpose));
    }

    /**
     Commits one merge or answers from what is stored.  Through any faults the invariant holds and
     nothing stored is lost; a returned grant is stored with its use and binding; an attempt that
     is answered changes nothing.
     */
    method CommitMerge(proposal: Proposal, signature: Option<Signature>) returns (r: Result<Grant>)
      requires Valid()
      modifies this`store, this`script
      ensures Valid() && Grows(old(store.entries), store.entries)
      ensures r.Ok? ==> ReAdmission(store.entries, self, proposal) == Ok(r.value)
      ensures JournalKey(MergePurpose(proposal.generation)) !in old(store.entries) && Decide(old(store.entries), self, proposal).Answer? ==>
                store == old(store) && r == Decide(old(store.entries), self, proposal).result
      ensures JournalKey(MergePurpose(proposal.generation)) in old(store.entries) && old(script) == [] ==>
                && r == AfterRecovery(old(store.entries), self, proposal)
                && store.entries == old(store.entries) - {JournalKey(MergePurpose(proposal.generation))}
      ensures JournalKey(MergePurpose(proposal.generation)) in old(store.entries) ==>
                if RecoveryEnd(old(script)).Some? then r == AfterRecovery(old(store.entries), self, proposal) else r.Err?
      ensures JournalKey(MergePurpose(proposal.generation)) !in old(store.entries) && Decide(old(store.entries), self, proposal).Admit? ==>
                && (signature.None? ==> r == Err(Error(CommitUnknown, "key sign")) && store == old(store))
                && (signature.Some? && !self.verify(self.publicKey, GrantFor(self, proposal, signature.value)) ==>
                      r == Err(Error(AuthenticationFailed, "merge grant")) && store == old(store))
                && (signature.Some? && self.verify(self.publicKey, GrantFor(self, proposal, signature.value)) ==>
                      && (r.Ok? <==> JournaledEnd(old(script)))
                      && (r.Ok? ==> r.value == GrantFor(self, proposal, signature.value)))
      ensures JournalKey(MergePurpose(proposal.generation)) !in old(store.entries) && old(script) == [] &&
              Decide(old(store.entries), self, proposal).Admit? && signature.Some? &&
              self.verify(self.publicKey, GrantFor(self, proposal, signature.value)) ==>
                r == Ok(GrantFor(self, proposal, signature.value))
      ensures old(script) == [] && IsAdmitted(old(store.entries), self, proposal) ==>
                (r.Ok? <==> || JournalKey(MergePurpose(proposal.generation)) !in old(store.entries)
                            || AdmittedUnder(old(store.entries), self, proposal) == proposal.merge)
    {
      hide Sound, Decide, Classify, ReAdmission, Journaled, IsAdmitted, AdmittedUnder;
      AdmittedIsAnswered(store.entries, self, proposal);
      ghost var before := store.entries;
      var purpose := MergePurpose(proposal.generation);
      JournalIsNotClassified(before, self, purpose, proposal);
      var recovered :- Recover(purpose);
      if recovered {
        ClassifiedIsReAdmitted(store.entries, self, proposal);
        return match Classify(store.entries, self, proposal)
          case Ok(Consumed(_, grant)) => Ok(grant)
          case Ok(Unapplied) => Err(CORRUPT)
          case Err(error) => Err(error);
      }
      var d := Decide(store.entries, self, proposal);
      AnswersAreReAdmitted(store.entries, self, proposal);
      if d.Answer? {
        return d.result;
      }
      if signature.None? {
        return Err(Error(CommitUnknown, "key sign"));
      }
      var grant := GrantFor(self, proposal, signature.value);
      if !self.verify(self.publicKey, grant) {
        return Err(Error(AuthenticationFailed, "merge grant"));
      }
      r := Admit(proposal, d.bindSubject, grant);
    }

    /** What a proven abort is answered: from the stored attempt if there is one, otherwise with a conflict. */
    method AfterAbort(proposal: Proposal) returns (r: Result<Grant>)
      requires Valid()
      modifies this`store, this`script
      ensures Valid() && Grows(old(store.entries), store.entries)
      ensures r.Ok? ==> ReAdmission(store.entries, self, proposal) == Ok(r.value)
      ensures match Classify(old(store.entries), self, proposal)
              case Ok(Consumed(_, grant)) => r.Ok? ==> r.value == grant
              case Ok(Unapplied) => r == Err(Error(Conflict, "merge commit")) && store == old(store)
              case Err(error) => r == Err(error) && store == old(store)
      ensures (old(script) == [] && Classify(old(store.entries), self, proposal).Ok? &&
               Classify(old(store.entries), self, proposal).value.Consumed?) ==> r.Ok?
    {
      hide Sound, Classify, ReAdmission, Journaled;
      var purpose := MergePurpose(proposal.generation);
      JournalIsNotClassified(store.entries, self, purpose, proposal);
      var state :- Classify(store.entries, self, proposal);
      if state.Unapplied? {
        return Err(Error(Conflict, "merge commit"));
      }
      var _ :- Cleanup(purpose);
      ClassifiedIsReAdmitted(store.entries, self, proposal);
      return Ok(state.grant);
    }

    /** The journaled admission transaction, its cleanup, and the classification of a proven abort. */
    method Admit(proposal: Proposal, bindSubject: bool, grant: Grant) returns (r: Result<Grant>)
      requires Valid() && Decide(store.entries, self, proposal) == Decision.Admit(bindSubject)
      requires grant == GrantFor(self, proposal, grant.signature) && self.verify(self.publicKey, grant)
      modifies this`store, this`script
      ensures Valid() && Grows(old(store.entries), store.entries)
      ensures r.Ok? ==> ReAdmission(store.entries, self, proposal) == Ok(r.value)
      ensures old(script) == [] && JournalKey(MergePurpose(proposal.generation)) !in old(store.entries) ==> r == Ok(grant)
      ensures JournalKey(MergePurpose(proposal.generation)) !in old(store.entries) ==>
                && (r.Ok? <==> JournaledEnd(old(script))) && (r.Ok? ==> r.value == grant)
                && (Verdict(old(script)) == No ==> r == Err(Error(Conflict, "merge commit")) && store == old(store))
    {
      hide Sound, Decide, Classify, ReAdmission, Journaled, Admitted, Landed, Lands, CleanupEnd;
      ghost var before := store.entries;
      var purpose := MergePurpose(proposal.generation);
      var id := FreshId(store.receipts.Keys);
      var t := Transaction(id, store.revision, AdmitWrites(self, proposal, bindSubject, grant, id));
      AdmitLands(store, self, proposal, bindSubject, grant, id);
      AdmittedIsSound(store.entries, self, proposal, bindSubject, grant, id);
      AdmitIsNew(store.entries, self, proposal, bindSubject, grant, id);
      LandedChanges(store, t);
      var committed;
      store, script, committed := CommitWithReconcile(store, script, t);
      if committed.Err? {
        return Err(committed.error);
      }
      JournalIsNotClassified(store.entries, self, purpose, proposal);
      ClassifiedIsReAdmitted(store.entries, self, proposal);
      if !committed.value {
        r := AfterAbort(proposal);
        return;
      }
      var _ :- Cleanup(purpose);
      return Ok(grant);
    }

    /**
     Adopts a received grant.  Through any faults the invariant holds and nothing stored is lost; a
     completed adoption has the grant and its issuer's binding stored; a refused one changes nothing.
     */
    method AdoptMerge(grant: Grant, issuerKey: PublicKey) returns (r: Result<()>)
      requires Valid()
      modifies this`store, this`script
      ensures Valid() && Grows(old(store.entries), store.entries)
      ensures r.Ok? ==>
                && Bound(store.entries, grant.issuer, issuerKey)
                && GrantKey(grant.merge) in store.entries && store.entries[GrantKey(grant.merge)] == GrantRecord(grant)
      ensures JournalKey(AdoptionPurpose(grant.merge)) !in old(store.entries) &&
              DecideAdoption(old(store.entries), self, grant, issuerKey).AdoptionAnswer? ==>
                store == old(store) && r == DecideAdoption(old(store.entries), self, grant, issuerKey).result
      ensures JournalKey(AdoptionPurpose(grant.merge)) !in old(store.entries) && old(script) == [] ==>
                (DecideAdoption(old(store.entries), self, grant, issuerKey).Adopt? ==> r.Ok?)
      ensures JournalKey(AdoptionPurpose(grant.merge)) !in old(store.entries) &&
              DecideAdoption(old(store.entries), self, grant, issuerKey).Adopt? ==>
                (r.Ok? <==> JournaledEnd(old(script)))
      ensures JournalKey(AdoptionPurpose(grant.merge)) in old(store.entries) ==>
                if RecoveryEnd(old(script)).Some? then r == AfterAdoptionRecovery(old(store.entries), self, grant, issuerKey) else r.Err?
      ensures JournalKey(AdoptionPurpose(grant.merge)) in old(store.entries) && old(script) == [] ==>
                && r == AfterAdoptionRecovery(old(store.entries), self, grant, issuerKey)
                && store.entries == old(store.entries) - {JournalKey(AdoptionPurpose(grant.merge))}
    {
      hide Sound, Journaled, Landed, Lands, Adopted, DecideAdoption, CleanupEnd, RecoveryEnd;
      var purpose := AdoptionPurpose(grant.merge);
      JournalIsNoAdoption(store.entries, self, purpose, grant, issuerKey);
      var recovered :- Recover(purpose);
      AdoptionAnswersHold(store.entries, self, grant, issuerKey);
      if recovered {
        var adopted :- AdoptionClassify(store.entries, self, grant, issuerKey);
        return if adopted then Ok(()) else Err(CORRUPT);
      }
      var d := DecideAdoption(store.entries, self, grant, issuerKey);
      if d.AdoptionAnswer? {
        return d.result;
      }
      var id := FreshId(store.receipts.Keys);
      var t := Transaction(id, store.revision, AdoptWrites(self, grant, issuerKey, d, id));
      AdoptLands(store, self, grant, issuerKey, id);
      AdoptedIsSound(store.entries, self, grant, issuerKey, id);
      AdoptIsNew(store.entries, self, grant, issuerKey, id);
      LandedChanges(store, t);
      var committed;
      store, script, committed := CommitWithReconcile(store, script, t);
      if committed.Err? {
        return Err(committed.error);
      }
      AdoptionAnswersHold(store.entries, self, grant, issuerKey);
      if !committed.value {
        var adopted :- AdoptionClassify(store.entries, self, grant, issuerKey);
        if !adopted {
          return Err(Error(Conflict, "adoption commit"));
        }
      }
      r := Cleanup(purpose);
    }
  }

  lemma JournalIsNoAdoption(e: Entries, self: Self, purpose: Purpose, grant: Grant, issuerKey: PublicKey)
    ensures AdoptionClassify(e - {JournalKey(purpose)}, self, grant, issuerKey) == AdoptionClassify(e, self, grant, issuerKey)
  {
  }

  lemma LandedChanges(s: Store<Key, Record>, t: Transaction<Key, Record>)
    ensures Landed(s, t) != s
  {
    assert Landed(s, t).revision == s.revision + 1;
  }

  /** An adoption that is classified or answered as done has its records stored. */
  lemma AdoptionAnswersHold(e: Entries, self: Self, grant: Grant, issuerKey: PublicKey)
    requires Sound(e, self)
    ensures (AdoptionClassify(e, self, grant, issuerKey) == Ok(true) ||
             (DecideAdoption(e, self, grant, issuerKey).AdoptionAnswer? && DecideAdoption(e, self, grant, issuerKey).result.Ok?)) ==>
              && Bound(e, grant.issuer, issuerKey)
              && GrantKey(grant.merge) in e && e[GrantKey(grant.merge)] == GrantRecord(grant)
  {
    AdoptionTable(e, self, grant, issuerKey);
  }

  /** One request a member serves in some start of its process. */
  datatype Request =
    | StartRequest(script: seq<Fault>)
    | CommitRequest(proposal: Proposal, signature: Option<Signature>, script: seq<Fault>)
    | AdoptRequest(grant: Grant, issuerKey: PublicKey, script: seq<Fault>)

  /** Any run of starts, commits and adoptions, each interrupted anywhere, keeps the invariant and loses nothing. */
  method Serve(m: Member, requests: seq<Request>)
    requires m.Valid()
    modifies m`store, m`script
    ensures m.Valid() && Grows(old(m.store.entries), m.store.entries)
  {
    hide Sound, Journaled, Decide, ReAdmission, DecideAdoption, AfterRecovery;
    for i := 0 to |requests|
      invariant m.Valid() && Grows(old(m.store.entries), m.store.entries)
    {
      ghost var e := m.store.entries;
      m.script := requests[i].script;
      match requests[i] {
        case StartRequest(_) => var _ := m.EnsureSelfBinding();
        case CommitRequest(proposal, signature, _) => var _ := m.CommitMerge(proposal, signature);
        case AdoptRequest(grant, issuerKey, _) => var _ := m.AdoptMerge(grant, issuerKey);
      }
      GrowsTransitive(old(m.store.entries), e, m.store.entries);
    }
  }

  /** What an admitted subject is answered, with and without a journal record in the slot. */
  lemma AdmittedIsAnswered(e: Entries, self: Self, proposal: Proposal)
    requires Sound(e, self)
    ensures IsAdmitted(e, self, proposal) ==>
              && Decide(e, self, proposal).Answer? && Decide(e, self, proposal).result.Ok?
              && (AfterRecovery(e, self, proposal).Ok? <==> AdmittedUnder(e, self, proposal) == proposal.merge)
  {
    DecisionTable(e, self, proposal);
    RecoveryTable(e, self, proposal);
    hide Decide, AfterRecovery;
  }

  lemma ClassifiedIsReAdmitted(e: Entries, self: Self, proposal: Proposal)
    requires Sound(e, self)
    ensures Classify(e, self, proposal).Ok? && Classify(e, self, proposal).value.Consumed? ==>
              ReAdmission(e, self, proposal) == Ok(Classify(e, self, proposal).value.grant)
  {
  }

  /** A grant answered from the store is the one re-admission returns. */
  lemma AnswersAreReAdmitted(e: Entries, self: Self, proposal: Proposal)
    requires Sound(e, self)
    ensures Decide(e, self, proposal).Answer? && Decide(e, self, proposal).result.Ok? ==>
              ReAdmission(e, self, proposal) == Decide(e, self, proposal).result
  {
    ClassifiedIsReAdmitted(e, self, proposal);
  }
}
