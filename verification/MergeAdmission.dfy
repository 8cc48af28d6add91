/**
 Merge admission on values: what a node decides about a proposal or a received grant from one
 snapshot, and the invariant that relates bindings, credential uses and grants.
 */
module MergeAdmission {
  import opened Results
  import opened Storage

  type NodeId = string
  type PublicKey = string
  type GenerationId = string
  type MergeId = string
  type Signature = string

  datatype Grant = Grant(
    merge: MergeId, subject: NodeId, subjectKey: PublicKey, issuer: NodeId, generation: GenerationId, signature: Signature)

  datatype CredentialUse = CredentialUse(
    issuer: NodeId, generation: GenerationId, merge: MergeId, subject: NodeId, subjectKey: PublicKey)

  datatype Proposal = Proposal(subject: NodeId, subjectKey: PublicKey, generation: GenerationId, merge: MergeId)

  datatype Purpose = MergePurpose(generation: GenerationId) | AdoptionPurpose(merge: MergeId)

  datatype Key =
    | LocalKey
    | BindingKey(node: NodeId)
    | UseKey(issuer: NodeId, generation: GenerationId, subject: NodeId)
    | GrantKey(merge: MergeId)
    | JournalKey(purpose: Purpose)

  datatype Record =
    | LocalRecord(node: NodeId, publicKey: PublicKey)
    | BindingRecord(node: NodeId, publicKey: PublicKey)
    | UseRecord(use: CredentialUse)
    | GrantRecord(grant: Grant)
    | JournalRecord(transaction: TransactionId)

  type Entries = map<Key, Record>
  type Write = Operation<Key, Record>

  /** The node's own identity and the signature check, which is a parameter of the model. */
  datatype Self = Self(node: NodeId, publicKey: PublicKey, verify: (PublicKey, Grant) -> bool)

  predicate WellPlaced(k: Key, r: Record) {
    match k
    case LocalKey => r.LocalRecord?
    case BindingKey(node) => r.BindingRecord? && r.node == node
    case UseKey(issuer, generation, subject) =>
      r.UseRecord? && r.use.issuer == issuer && r.use.generation == generation && r.use.subject == subject
    case GrantKey(merge) => r.GrantRecord? && r.grant.merge == merge
    case JournalKey(_) => r.JournalRecord?
  }

  ghost predicate Typed(e: Entries) {
    forall k | k in e :: WellPlaced(k, e[k])
  }

  /** The entry is stored as a binding of this node to this key. */
  predicate Bound(e: Entries, node: NodeId, publicKey: PublicKey) {
    BindingKey(node) in e && e[BindingKey(node)] == BindingRecord(node, publicKey)
  }

  /** The grant that belongs to a credential use. */
  predicate Matches(use: CredentialUse, grant: Grant) {
    && grant.merge == use.merge && grant.subject == use.subject && grant.subjectKey == use.subjectKey
    && grant.issuer == use.issuer && grant.generation == use.generation
  }

  /** Every use is this node's own and has its grant and its subject's binding. */
  ghost predicate UsesGranted(e: Entries, self: Self) {
    forall issuer, generation, subject | UseKey(issuer, generation, subject) in e && e[UseKey(issuer, generation, subject)].UseRecord? ::
      var use := e[UseKey(issuer, generation, subject)].use;
      && issuer == self.node && GrantKey(use.merge) in e && e[GrantKey(use.merge)].GrantRecord?
      && Matches(use, e[GrantKey(use.merge)].grant) && Bound(e, subject, use.subjectKey)
  }

  /** Every self-issued grant has its use; every other grant admits this node and binds its issuer. */
  ghost predicate GrantsUsed(e: Entries, self: Self) {
    forall merge | GrantKey(merge) in e && e[GrantKey(merge)].GrantRecord? ::
      var grant := e[GrantKey(merge)].grant;
      if grant.issuer == self.node then
        && self.verify(self.publicKey, grant) && Bound(e, self.node, self.publicKey)
        && UseKey(self.node, grant.generation, grant.subject) in e
        && e[UseKey(self.node, grant.generation, grant.subject)].UseRecord?
        && Matches(e[UseKey(self.node, grant.generation, grant.subject)].use, grant)
      else
        && grant.subject == self.node && grant.subjectKey == self.publicKey
        && BindingKey(grant.issuer) in e && e[BindingKey(grant.issuer)].BindingRecord?
        && self.verify(e[BindingKey(grant.issuer)].publicKey, grant)
  }

  ghost predicate Sound(e: Entries, self: Self) {
    && Typed(e) && LocalKey in e && e[LocalKey] == LocalRecord(self.node, self.publicKey)
    && UsesGranted(e, self) && GrantsUsed(e, self)
    && (BindingKey(self.node) in e ==> Bound(e, self.node, self.publicKey))
  }

  /** Nothing an admission relies on is ever removed or changed. */
  ghost predicate Grows(e: Entries, f: Entries) {
    forall k | k in e && !k.JournalKey? :: k in f && f[k] == e[k]
  }

  lemma GrowsTransitive(e: Entries, f: Entries, g: Entries)
    requires Grows(e, f) && Grows(f, g)
    ensures Grows(e, g)
  {
  }

  /** A member that has admitted and adopted nothing yet. */
  lemma FreshMemberIsSound(self: Self)
    ensures Sound(map[LocalKey := LocalRecord(self.node, self.publicKey)], self)
  {
  }

  /** The entries with the node's own binding. */
  function SelfBound(e: Entries, self: Self): Entries {
    e[BindingKey(self.node) := BindingRecord(self.node, self.publicKey)]
  }

  /** Storing the node's own binding keeps the invariant and opens admission. */
  lemma SelfBoundIsSound(e: Entries, self: Self)
    requires Sound(e, self) && BindingKey(self.node) !in e
    ensures var f := SelfBound(e, self);
            && Sound(f, self) && Grows(e, f)
            && (forall proposal :: Decide(e, self, proposal) == Answer(Err(Error(NotTrusted, "merge issuer"))))
            && (forall proposal :: Decide(f, self, proposal) != Answer(Err(Error(NotTrusted, "merge issuer"))))
  {
    hide Decide;
    forall proposal
      ensures Decide(e, self, proposal) == Answer(Err(Error(NotTrusted, "merge issuer")))
      ensures Decide(SelfBound(e, self), self, proposal) != Answer(Err(Error(NotTrusted, "merge issuer")))
    {
      TrustedExactly(e, self, proposal);
      TrustedExactly(SelfBound(e, self), self, proposal);
    }
  }

  lemma TrustedExactly(e: Entries, self: Self, proposal: Proposal)
    requires LocalKey in e && e[LocalKey] == LocalRecord(self.node, self.publicKey)
    ensures Decide(e, self, proposal) == Answer(Err(Error(NotTrusted, "merge issuer"))) <==> BindingKey(self.node) !in e
  {
  }

  // ---- classification of a stored attempt ----

  datatype MergeState = Consumed(use: CredentialUse, grant: Grant) | Unapplied

  const CORRUPT := Error(StorageCorrupt, "merge")

  function StoredUse(e: Entries, self: Self, proposal: Proposal): Result<Option<CredentialUse>> {
    var k := UseKey(self.node, proposal.generation, proposal.subject);
    if k !in e then Ok(None)
    else if !e[k].UseRecord? then Err(CORRUPT)
    else if e[k].use == CredentialUse(self.node, proposal.generation, proposal.merge, proposal.subject, proposal.subjectKey)
    then Ok(Some(e[k].use))
    else Err(Error(Conflict, "merge record"))
  }

  function StoredGrant(e: Entries, self: Self, proposal: Proposal): Result<Option<Grant>> {
    var k := GrantKey(proposal.merge);
    if k !in e then Ok(None)
    else if !e[k].GrantRecord? then Err(CORRUPT)
    else if e[k].grant.merge == proposal.merge && e[k].grant.subject == proposal.subject &&
            e[k].grant.subjectKey == proposal.subjectKey && e[k].grant.issuer == self.node &&
            e[k].grant.generation == proposal.generation && self.verify(self.publicKey, e[k].grant)
    then Ok(Some(e[k].grant))
    else Err(Error(Conflict, "merge grant"))
  }

  function StoredBinding(e: Entries, node: NodeId, publicKey: PublicKey, context: string): Result<bool> {
    var k := BindingKey(node);
    if k !in e then Ok(false)
    else if !e[k].BindingRecord? then Err(CORRUPT)
    else if e[k] == BindingRecord(node, publicKey) then Ok(true)
    else Err(Error(Conflict, context))
  }

  /** The use and the grant are both there with the proposal's fields, or both absent. */
  function Classify(e: Entries, self: Self, proposal: Proposal): Result<MergeState> {
    var use :- StoredUse(e, self, proposal);
    var grant :- StoredGrant(e, self, proposal);
    var bound :- StoredBinding(e, proposal.subject, proposal.subjectKey, "merge record");
    if use.Some? && grant.Some? && bound then Ok(Consumed(use.value, grant.value))
    else if use.None? && grant.None? then Ok(Unapplied)
    else Err(CORRUPT)
  }

  /** A credential still in force returns the grant it was admitted with. */
  function ReAdmission(e: Entries, self: Self, proposal: Proposal): Result<Grant> {
    var k := UseKey(self.node, proposal.generation, proposal.subject);
    if k !in e then Err(Error(Conflict, "merge record"))
    else if !e[k].UseRecord? then Err(CORRUPT)
    else
      var use := e[k].use;
      if use.issuer != self.node || use.generation != proposal.generation || use.subject != proposal.subject ||
         use.subjectKey != proposal.subjectKey
      then Err(Error(Conflict, "merge record"))
      else if GrantKey(use.merge) !in e || !e[GrantKey(use.merge)].GrantRecord? then Err(CORRUPT)
      else
        var grant := e[GrantKey(use.merge)].grant;
        if !Matches(use, grant) || !self.verify(self.publicKey, grant) then Err(CORRUPT)
        else if BindingKey(proposal.subject) !in e || !e[BindingKey(proposal.subject)].BindingRecord? then Err(CORRUPT)
        else if !Bound(e, proposal.subject, proposal.subjectKey) then Err(Error(Conflict, "merge binding"))
        else Ok(grant)
  }

  // ---- the decision of `commit_merge` on its snapshot ----

  datatype Decision = Answer(result: Result<Grant>) | Admit(bindSubject: bool)

  function Decide(e: Entries, self: Self, proposal: Proposal): Decision {
    if LocalKey !in e || e[LocalKey] != LocalRecord(self.node, self.publicKey) then Answer(Err(CORRUPT))
    else if BindingKey(self.node) !in e then Answer(Err(Error(NotTrusted, "merge issuer")))
    else if !Bound(e, self.node, self.publicKey) then Answer(Err(CORRUPT))
    else if UseKey(self.node, proposal.generation, proposal.subject) in e || GrantKey(proposal.merge) in e then
      match Classify(e, self, proposal)
      case Ok(Consumed(_, grant)) => Answer(Ok(grant))
      case Ok(Unapplied) => Answer(Err(CORRUPT))
      case Err(error) => if error.kind == StorageCorrupt then Answer(Err(error)) else Answer(ReAdmission(e, self, proposal))
    else
      match StoredBinding(e, proposal.subject, proposal.subjectKey, "merge binding")
      case Ok(bound) => Admit(!bound)
      case Err(error) => Answer(Err(error))
  }

  /** The exact transaction of an admission, in the order the program builds it. */
  function AdmitWrites(self: Self, proposal: Proposal, bindSubject: bool, grant: Grant, id: TransactionId): seq<Write> {
    var use := CredentialUse(self.node, proposal.generation, proposal.merge, proposal.subject, proposal.subjectKey);
    [Check(LocalKey, Exact(LocalRecord(self.node, self.publicKey))),
     Check(BindingKey(self.node), Exact(BindingRecord(self.node, self.publicKey)))] +
    (if bindSubject then [Put(BindingKey(proposal.subject), Absent, BindingRecord(proposal.subject, proposal.subjectKey))] else []) +
    [Put(UseKey(self.node, proposal.generation, proposal.subject), Absent, UseRecord(use)),
     Put(GrantKey(proposal.merge), Absent, GrantRecord(grant)),
     Put(JournalKey(MergePurpose(proposal.generation)), Absent, JournalRecord(id))]
  }

  function Admitted(e: Entries, self: Self, proposal: Proposal, bindSubject: bool, grant: Grant, id: TransactionId): Entries {
    var use := CredentialUse(self.node, proposal.generation, proposal.merge, proposal.subject, proposal.subjectKey);
    (if bindSubject then e[BindingKey(proposal.subject) := BindingRecord(proposal.subject, proposal.subjectKey)] else e)
    [UseKey(self.node, proposal.generation, proposal.subject) := UseRecord(use)]
    [GrantKey(proposal.merge) := GrantRecord(grant)]
    [JournalKey(MergePurpose(proposal.generation)) := JournalRecord(id)]
  }

  /** The grant the node signs for a proposal. */
  function GrantFor(self: Self, proposal: Proposal, signature: Signature): Grant {
    Grant(proposal.merge, proposal.subject, proposal.subjectKey, self.node, proposal.generation, signature)
  }

  // ---- adoption ----

  function AdoptionClassify(e: Entries, self: Self, grant: Grant, issuerKey: PublicKey): Result<bool> {
    var bound :- StoredBinding(e, grant.issuer, issuerKey, "adoption record");
    if GrantKey(grant.merge) !in e then Ok(false)
    else if !e[GrantKey(grant.merge)].GrantRecord? then Err(CORRUPT)
    else if e[GrantKey(grant.merge)].grant != grant || !self.verify(issuerKey, grant) then Err(Error(Conflict, "adoption grant"))
    else if bound then Ok(true)
    else Err(CORRUPT)
  }

  datatype AdoptionDecision = AdoptionAnswer(result: Result<()>) | Adopt(bindIssuer: bool, storeGrant: bool)

  function DecideAdoption(e: Entries, self: Self, grant: Grant, issuerKey: PublicKey): AdoptionDecision {
    if grant.subject != self.node || grant.subjectKey != self.publicKey || grant.issuer == self.node then
      AdoptionAnswer(Err(Error(AuthenticationFailed, "adoption grant subject")))
    else if !self.verify(issuerKey, grant) then AdoptionAnswer(Err(Error(AuthenticationFailed, "merge grant")))
    else if LocalKey !in e || e[LocalKey] != LocalRecord(self.node, self.publicKey) then AdoptionAnswer(Err(CORRUPT))
    else
      match StoredBinding(e, grant.issuer, issuerKey, "adoption binding")
      case Err(error) => AdoptionAnswer(Err(error))
      case Ok(bound) =>
        if GrantKey(grant.merge) !in e then Adopt(!bound, true)
        else if !e[GrantKey(grant.merge)].GrantRecord? then AdoptionAnswer(Err(CORRUPT))
        else if e[GrantKey(grant.merge)].grant != grant then AdoptionAnswer(Err(Error(Conflict, "adoption grant")))
        else if bound then AdoptionAnswer(Ok(()))
        else Adopt(true, false)
  }

  function AdoptWrites(self: Self, grant: Grant, issuerKey: PublicKey, d: AdoptionDecision, id: TransactionId): seq<Write>
    requires d.Adopt?
  {
    [Check(LocalKey, Exact(LocalRecord(self.node, self.publicKey)))] +
    (if d.bindIssuer then [Put(BindingKey(grant.issuer), Absent, BindingRecord(grant.issuer, issuerKey))] else []) +
    (if d.storeGrant then [Put(GrantKey(grant.merge), Absent, GrantRecord(grant))] else []) +
    [Put(JournalKey(AdoptionPurpose(grant.merge)), Absent, JournalRecord(id))]
  }

  function Adopted(e: Entries, grant: Grant, issuerKey: PublicKey, d: AdoptionDecision, id: TransactionId): Entries
    requires d.Adopt?
  {
    var bound := if d.bindIssuer then e[BindingKey(grant.issuer) := BindingRecord(grant.issuer, issuerKey)] else e;
    (if d.storeGrant then bound[GrantKey(grant.merge) := GrantRecord(grant)] else bound)
    [JournalKey(AdoptionPurpose(grant.merge)) := JournalRecord(id)]
  }

  // ---- which classifier branches are reachable ----

  /** A stored attempt is never classified as corrupt. */
  lemma NeverCorrupt(e: Entries, self: Self, proposal: Proposal)
    requires Sound(e, self)
    ensures Classify(e, self, proposal).Err? ==> Classify(e, self, proposal).error.kind == Conflict
    ensures ReAdmission(e, self, proposal).Err? ==> ReAdmission(e, self, proposal).error.kind == Conflict
  {
    var k := UseKey(self.node, proposal.generation, proposal.subject);
    assert k in e ==> WellPlaced(k, e[k]);
    assert GrantKey(proposal.merge) in e ==> WellPlaced(GrantKey(proposal.merge), e[GrantKey(proposal.merge)]);
    assert BindingKey(proposal.subject) in e ==> WellPlaced(BindingKey(proposal.subject), e[BindingKey(proposal.subject)]);
  }

  lemma AdoptionNeverCorrupt(e: Entries, self: Self, grant: Grant, issuerKey: PublicKey)
    requires Sound(e, self)
    ensures AdoptionClassify(e, self, grant, issuerKey).Err? ==> AdoptionClassify(e, self, grant, issuerKey).error.kind == Conflict
    ensures DecideAdoption(e, self, grant, issuerKey).Adopt? ==> DecideAdoption(e, self, grant, issuerKey).storeGrant
  {
    var k := GrantKey(grant.merge);
    assert k in e ==> WellPlaced(k, e[k]);
    assert BindingKey(grant.issuer) in e ==> WellPlaced(BindingKey(grant.issuer), e[BindingKey(grant.issuer)]);
  }

  /**
   The whole decision, without the classifiers: an admitted subject with the same key gets the
   grant of its use back whatever merge id it presents; another key conflicts; a merge id already
   granted to someone else conflicts; otherwise the subject is admitted, reusing a binding.
   */
  lemma DecisionTable(e: Entries, self: Self, proposal: Proposal)
    requires Sound(e, self)
    ensures var d := Decide(e, self, proposal);
            var k := UseKey(self.node, proposal.generation, proposal.subject);
            if BindingKey(self.node) !in e then d == Answer(Err(Error(NotTrusted, "merge issuer")))
            else if k in e then
              && e[k].UseRecord? && GrantKey(e[k].use.merge) in e && e[GrantKey(e[k].use.merge)].GrantRecord?
              && (if e[k].use.subjectKey == proposal.subjectKey then d == Answer(Ok(e[GrantKey(e[k].use.merge)].grant))
                  else d == Answer(Err(Error(Conflict, "merge record"))))
            else if GrantKey(proposal.merge) in e || (BindingKey(proposal.subject) in e && !Bound(e, proposal.subject, proposal.subjectKey))
              then d.Answer? && d.result.Err? && d.result.error.kind == Conflict
            else d == Admit(BindingKey(proposal.subject) !in e)
  {
    var k := UseKey(self.node, proposal.generation, proposal.subject);
    assert k in e ==> WellPlaced(k, e[k]);
    assert GrantKey(proposal.merge) in e ==> WellPlaced(GrantKey(proposal.merge), e[GrantKey(proposal.merge)]);
    assert BindingKey(proposal.subject) in e ==> WellPlaced(BindingKey(proposal.subject), e[BindingKey(proposal.subject)]);
  }

  /** An adoption's whole decision: it is repeated without effect, conflicts, or stores the grant. */
  lemma AdoptionTable(e: Entries, self: Self, grant: Grant, issuerKey: PublicKey)
    requires Sound(e, self)
    ensures var d := DecideAdoption(e, self, grant, issuerKey);
            if grant.subject != self.node || grant.subjectKey != self.publicKey || grant.issuer == self.node ||
               !self.verify(issuerKey, grant)
            then d.AdoptionAnswer? && d.result.Err? && d.result.error.kind == AuthenticationFailed
            else if (BindingKey(grant.issuer) in e && !Bound(e, grant.issuer, issuerKey)) ||
                    (GrantKey(grant.merge) in e && e[GrantKey(grant.merge)] != GrantRecord(grant))
            then d.AdoptionAnswer? && d.result.Err? && d.result.error.kind == Conflict
            else if GrantKey(grant.merge) in e then d == AdoptionAnswer(Ok(()))
            else d == Adopt(BindingKey(grant.issuer) !in e, true)
  {
    AdoptionNeverCorrupt(e, self, grant, issuerKey);
    assert GrantKey(grant.merge) in e ==> WellPlaced(GrantKey(grant.merge), e[GrantKey(grant.merge)]);
    assert BindingKey(grant.issuer) in e ==> WellPlaced(BindingKey(grant.issuer), e[BindingKey(grant.issuer)]);
  }

  // ---- what an applied decision leaves ----

  lemma AdmittedIsSound(e: Entries, self: Self, proposal: Proposal, bindSubject: bool, grant: Grant, id: TransactionId)
    requires Sound(e, self) && Decide(e, self, proposal) == Admit(bindSubject)
    requires grant == GrantFor(self, proposal, grant.signature) && self.verify(self.publicKey, grant)
    ensures var f := Admitted(e, self, proposal, bindSubject, grant, id);
            Sound(f, self) && Grows(e, f) && ReAdmission(f, self, proposal) == Ok(grant)
  {
    DecisionTable(e, self, proposal);
    hide Decide, Classify, ReAdmission;
    var f := Admitted(e, self, proposal, bindSubject, grant, id);
    assert Typed(f);
    assert Grows(e, f);
    AdmittedUses(e, self, proposal, bindSubject, grant, id);
    AdmittedGrants(e, self, proposal, bindSubject, grant, id);
    assert ReAdmission(f, self, proposal) == Ok(grant) by { ReturnsItsGrant(f, self, proposal, grant); }
  }

  lemma AdmittedUses(e: Entries, self: Self, proposal: Proposal, bindSubject: bool, grant: Grant, id: TransactionId)
    requires UsesGranted(e, self) && GrantKey(proposal.merge) !in e && grant == GrantFor(self, proposal, grant.signature)
    requires if bindSubject then BindingKey(proposal.subject) !in e else Bound(e, proposal.subject, proposal.subjectKey)
    ensures UsesGranted(Admitted(e, self, proposal, bindSubject, grant, id), self)
  {
  }

  lemma AdmittedGrants(e: Entries, self: Self, proposal: Proposal, bindSubject: bool, grant: Grant, id: TransactionId)
    requires GrantsUsed(e, self) && UseKey(self.node, proposal.generation, proposal.subject) !in e
    requires Bound(e, self.node, self.publicKey) && (bindSubject ==> BindingKey(proposal.subject) !in e)
    requires grant == GrantFor(self, proposal, grant.signature) && self.verify(self.publicKey, grant)
    ensures GrantsUsed(Admitted(e, self, proposal, bindSubject, grant, id), self)
  {
  }

  /** A stored use, grant and binding of a proposal are what re-admission returns. */
  lemma ReturnsItsGrant(e: Entries, self: Self, proposal: Proposal, grant: Grant)
    requires Sound(e, self)
    requires UseKey(self.node, proposal.generation, proposal.subject) in e
    requires e[UseKey(self.node, proposal.generation, proposal.subject)].UseRecord?
    requires e[UseKey(self.node, proposal.generation, proposal.subject)].use.subjectKey == proposal.subjectKey
    requires GrantKey(e[UseKey(self.node, proposal.generation, proposal.subject)].use.merge) in e
    requires e[GrantKey(e[UseKey(self.node, proposal.generation, proposal.subject)].use.merge)] == GrantRecord(grant)
    ensures ReAdmission(e, self, proposal) == Ok(grant)
  {
    var k := UseKey(self.node, proposal.generation, proposal.subject);
    assert WellPlaced(k, e[k]);
  }

  lemma AdoptedIsSound(e: Entries, self: Self, grant: Grant, issuerKey: PublicKey, id: TransactionId)
    requires Sound(e, self) && DecideAdoption(e, self, grant, issuerKey).Adopt?
    ensures var f := Adopted(e, grant, issuerKey, DecideAdoption(e, self, grant, issuerKey), id);
            && Sound(f, self) && Grows(e, f) && Bound(f, grant.issuer, issuerKey)
            && GrantKey(grant.merge) in f && f[GrantKey(grant.merge)] == GrantRecord(grant)
  {
    AdoptionTable(e, self, grant, issuerKey);
    var d := DecideAdoption(e, self, grant, issuerKey);
    hide DecideAdoption;
    var f := Adopted(e, grant, issuerKey, d, id);
    assert Grows(e, f);
    GrowthKeepsUses(e, f, self);
    assert GrantsUsed(f, self);
  }

  /** Growing without a new use keeps every use granted and bound. */
  lemma GrowthKeepsUses(e: Entries, f: Entries, self: Self)
    requires UsesGranted(e, self) && Grows(e, f) && forall k | k in f && k.UseKey? :: k in e
    ensures UsesGranted(f, self)
  {
  }

  lemma JournalGoneIsSound(e: Entries, self: Self, purpose: Purpose)
    requires Sound(e, self)
    ensures Sound(e - {JournalKey(purpose)}, self) && Grows(e, e - {JournalKey(purpose)})
  {
    var f := e - {JournalKey(purpose)};
    GrowthKeepsUses(e, f, self);
  }

  lemma JournalIsNotClassified(e: Entries, self: Self, purpose: Purpose, proposal: Proposal)
    ensures Classify(e - {JournalKey(purpose)}, self, proposal) == Classify(e, self, proposal)
    ensures ReAdmission(e - {JournalKey(purpose)}, self, proposal) == ReAdmission(e, self, proposal)
    ensures Decide(e - {JournalKey(purpose)}, self, proposal) == Decide(e, self, proposal)
  {
  }

  // ---- over whole runs ----

  /**
   Once a subject is admitted it stays admitted.  In every later state of every run the decision for
   the same credential is the original grant under any merge id, and so is the recovery under the
   merge id it was admitted with; any other key conflicts in both.
   */
  lemma AdmittedForever(e: Entries, f: Entries, self: Self, generation: GenerationId, subject: NodeId, merge: MergeId, key: PublicKey)
    requires Sound(e, self) && Sound(f, self) && Grows(e, f)
    requires UseKey(self.node, generation, subject) in e
    ensures var k := UseKey(self.node, generation, subject);
            && e[k].UseRecord? && GrantKey(e[k].use.merge) in e && e[GrantKey(e[k].use.merge)].GrantRecord?
            && var d := Decide(f, self, Proposal(subject, key, generation, merge));
               var recovered := AfterRecovery(f, self, Proposal(subject, key, generation, merge));
               if key == e[k].use.subjectKey then
                 && d == Answer(Ok(e[GrantKey(e[k].use.merge)].grant))
                 && (merge == e[k].use.merge ==> recovered == Ok(e[GrantKey(e[k].use.merge)].grant))
               else
                 && d.Answer? && d.result.Err? && d.result.error.kind == Conflict
                 && recovered.Err? && recovered.error.kind == Conflict
  {
    var k := UseKey(self.node, generation, subject);
    assert WellPlaced(k, e[k]) && WellPlaced(GrantKey(e[k].use.merge), e[GrantKey(e[k].use.merge)]);
    DecisionTable(f, self, Proposal(subject, key, generation, merge));
    RecoveryTable(f, self, Proposal(subject, key, generation, merge));
    hide Decide, Classify, ReAdmission, AfterRecovery;
    assert GrantKey(e[k].use.merge) in f;
  }

  /** No run ever rebinds a node: a stored binding with another key refuses the proposal for good. */
  lemma BoundForever(e: Entries, f: Entries, self: Self, proposal: Proposal)
    requires Sound(e, self) && Sound(f, self) && Grows(e, f)
    requires BindingKey(self.node) in e && BindingKey(proposal.subject) in e && !Bound(e, proposal.subject, proposal.subjectKey)
    ensures f[BindingKey(proposal.subject)] == e[BindingKey(proposal.subject)]
    ensures var d := Decide(f, self, proposal); d.Answer? && d.result.Err? && d.result.error.kind == Conflict
    ensures AfterRecovery(f, self, proposal).Err? && AfterRecovery(f, self, proposal).error.kind == Conflict
  {
    DecisionTable(f, self, proposal);
    RecoveryTable(f, self, proposal);
    hide Decide, Classify, ReAdmission, AfterRecovery;
    var k := UseKey(self.node, proposal.generation, proposal.subject);
    assert k in f ==> WellPlaced(k, f[k]);
  }

  // ---- recovery under a journal of the same generation ----

  /** What an attempt answers when it finds a journal record of its generation and has cleaned it up. */
  function AfterRecovery(e: Entries, self: Self, proposal: Proposal): Result<Grant> {
    match Classify(e, self, proposal)
    case Ok(Consumed(_, grant)) => Ok(grant)
    case Ok(Unapplied) => Err(CORRUPT)
    case Err(error) => Err(error)
  }

  /** The subject is admitted in this generation with the key it presents. */
  predicate IsAdmitted(e: Entries, self: Self, proposal: Proposal) {
    var k := UseKey(self.node, proposal.generation, proposal.subject);
    k in e && e[k].UseRecord? && e[k].use.subjectKey == proposal.subjectKey
  }

  /** The merge id it was admitted under. */
  function AdmittedUnder(e: Entries, self: Self, proposal: Proposal): MergeId
    requires IsAdmitted(e, self, proposal)
  {
    e[UseKey(self.node, proposal.generation, proposal.subject)].use.merge
  }

  /**
   The whole answer while a journal record of the generation is stored: only the merge id an
   admitted subject was admitted under returns its grant; an attempt that would be admitted is
   called corrupt; everything else, a new merge id of an admitted subject included, conflicts.
   */
  lemma RecoveryTable(e: Entries, self: Self, proposal: Proposal)
    requires Sound(e, self)
    ensures var answer := AfterRecovery(e, self, proposal);
            if IsAdmitted(e, self, proposal) && AdmittedUnder(e, self, proposal) == proposal.merge
            then GrantKey(proposal.merge) in e && e[GrantKey(proposal.merge)].GrantRecord? && answer == Ok(e[GrantKey(proposal.merge)].grant)
            else if UseKey(self.node, proposal.generation, proposal.subject) !in e && GrantKey(proposal.merge) !in e &&
                    (BindingKey(proposal.subject) in e ==> Bound(e, proposal.subject, proposal.subjectKey))
            then answer == Err(CORRUPT)
            else answer.Err? && answer.error.kind == Conflict
  {
    var k := UseKey(self.node, proposal.generation, proposal.subject);
    assert k in e ==> WellPlaced(k, e[k]);
    assert GrantKey(proposal.merge) in e ==> WellPlaced(GrantKey(proposal.merge), e[GrantKey(proposal.merge)]);
    assert BindingKey(proposal.subject) in e ==> WellPlaced(BindingKey(proposal.subject), e[BindingKey(proposal.subject)]);
  }

  /**
   A restarted member that re-joins under a new merge id right after the crash that left its
   journal record: the decision would return its grant, the recovery answers with a conflict.
   */
  lemma ReJoinMeetsTheJournal(
    e: Entries, self: Self, proposal: Proposal, merge: MergeId, bindSubject: bool, grant: Grant, id: TransactionId)
    requires Sound(e, self) && Decide(e, self, proposal) == Admit(bindSubject) && merge != proposal.merge
    requires grant == GrantFor(self, proposal, grant.signature) && self.verify(self.publicKey, grant)
    ensures var f := Admitted(e, self, proposal, bindSubject, grant, id);
            var again := proposal.(merge := merge);
            && Sound(f, self) && JournalKey(MergePurpose(again.generation)) in f
            && Decide(f, self, again) == Answer(Ok(grant))
            && AfterRecovery(f, self, again).Err? && AfterRecovery(f, self, again).error.kind == Conflict
  {
    var f := Admitted(e, self, proposal, bindSubject, grant, id);
    var again := proposal.(merge := merge);
    AdmittedIsSound(e, self, proposal, bindSubject, grant, id);
    DecisionTable(e, self, proposal);
    DecisionTable(f, self, again);
    RecoveryTable(f, self, again);
    hide Decide, Classify, ReAdmission, AfterRecovery, Sound;
  }

  /**
   The journal slot belongs to the generation, not to the attempt: recovery reports corruption
   exactly for the attempts that would otherwise be admitted.
   */
  lemma RecoveryReportsCorruptionExactly(e: Entries, self: Self, proposal: Proposal)
    requires Sound(e, self) && BindingKey(self.node) in e
    ensures AfterRecovery(e, self, proposal) == Err(CORRUPT) <==> Decide(e, self, proposal).Admit?
  {
    DecisionTable(e, self, proposal);
    NeverCorrupt(e, self, proposal);
    hide Decide, ReAdmission;
    assert BindingKey(proposal.subject) in e ==> WellPlaced(BindingKey(proposal.subject), e[BindingKey(proposal.subject)]);
  }

  /** A retry of the very attempt that was journaled recovers its grant. */
  lemma RetryRecoversItsGrant(e: Entries, self: Self, proposal: Proposal, bindSubject: bool, grant: Grant, id: TransactionId)
    requires Sound(e, self) && Decide(e, self, proposal) == Admit(bindSubject)
    requires grant == GrantFor(self, proposal, grant.signature) && self.verify(self.publicKey, grant)
    ensures AfterRecovery(Admitted(e, self, proposal, bindSubject, grant, id), self, proposal) == Ok(grant)
  {
    DecisionTable(e, self, proposal);
  }

  /** What an adoption answers when it finds its journal record and has cleaned it up. */
  function AfterAdoptionRecovery(e: Entries, self: Self, grant: Grant, issuerKey: PublicKey): Result<()> {
    match AdoptionClassify(e, self, grant, issuerKey)
    case Ok(adopted) => if adopted then Ok(()) else Err(CORRUPT)
    case Err(error) => Err(error)
  }

  /** It succeeds exactly when this very grant is stored with its issuer's key bound and verifying. */
  lemma AdoptionRecoversExactly(e: Entries, self: Self, grant: Grant, issuerKey: PublicKey)
    requires Sound(e, self)
    ensures AfterAdoptionRecovery(e, self, grant, issuerKey).Ok? <==>
              && GrantKey(grant.merge) in e && e[GrantKey(grant.merge)] == GrantRecord(grant)
              && Bound(e, grant.issuer, issuerKey) && self.verify(issuerKey, grant)
  {
    AdoptionNeverCorrupt(e, self, grant, issuerKey);
    assert GrantKey(grant.merge) in e ==> WellPlaced(GrantKey(grant.merge), e[GrantKey(grant.merge)]);
  }

  /** A retry of the very adoption that was journaled succeeds. */
  lemma RetryRecoversItsAdoption(e: Entries, self: Self, grant: Grant, issuerKey: PublicKey, id: TransactionId)
    requires Sound(e, self) && DecideAdoption(e, self, grant, issuerKey).Adopt?
    ensures var f := Adopted(e, grant, issuerKey, DecideAdoption(e, self, grant, issuerKey), id);
            AfterAdoptionRecovery(f, self, grant, issuerKey).Ok?
  {
    AdoptionTable(e, self, grant, issuerKey);
    AdoptedIsSound(e, self, grant, issuerKey, id);
    AdoptionRecoversExactly(Adopted(e, grant, issuerKey, DecideAdoption(e, self, grant, issuerKey), id), self, grant, issuerKey);
    hide DecideAdoption, AfterAdoptionRecovery, Sound;
  }

  /** Another subject's attempt in the same generation meets that journal and is called corrupt. */
  lemma AnotherSubjectIsCalledCorrupt(
    e: Entries, self: Self, first: Proposal, second: Proposal, bindSubject: bool, grant: Grant, id: TransactionId)
    requires Sound(e, self) && Decide(e, self, first) == Admit(bindSubject) && Decide(e, self, second).Admit?
    requires grant == GrantFor(self, first, grant.signature) && self.verify(self.publicKey, grant)
    requires second.generation == first.generation && second.subject != first.subject && second.merge != first.merge
    ensures var f := Admitted(e, self, first, bindSubject, grant, id);
            && JournalKey(MergePurpose(second.generation)) in f
            && AfterRecovery(f, self, second) == Err(CORRUPT)
            && Decide(f - {JournalKey(MergePurpose(second.generation))}, self, second).Admit?
  {
    DecisionTable(e, self, first);
    DecisionTable(e, self, second);
    var f := Admitted(e, self, first, bindSubject, grant, id);
    AdmittedIsSound(e, self, first, bindSubject, grant, id);
    JournalIsNotClassified(f, self, MergePurpose(second.generation), second);
    DecisionTable(f, self, second);
    RecoveryReportsCorruptionExactly(f, self, second);
    hide Decide, ReAdmission, Classify, AfterRecovery;
  }
}
