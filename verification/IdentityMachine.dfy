/**
 Every interleaving of identity creation, key deletion, leave, the other writers of the store and
 crashes.  A task prepares its transaction from the store it reads and the commit lands at some
 later moment, or never; a crash drops every task.
 */
module IdentityMachine {
  import opened Results
  import opened Storage
  import opened IdentityRecords

  // ---- what the entries keep ----

  predicate NoCreationIntent(e: Entries) {
    forall k | k in e :: !k.CreationIntent?
  }

  ghost predicate OneCreationIntent(e: Entries) {
    forall a, b | a in e && b in e && a.CreationIntent? && b.CreationIntent? :: a == b
  }

  ghost predicate NeverIntendedAndDeleted(e: Entries) {
    forall h: KeyHandle :: !(DeletionIntent(h) in e && DeletedKey(h) in e)
  }

  /** A deletion's journal record is written with the tombstone. */
  ghost predicate JournaledDeletions(e: Entries) {
    forall h :: Pending(KeyDeletionPurpose(h)) in e ==> DeletedKey(h) in e
  }

  /** The identity and a creation intent exclude each other; no stored identity's handle is spent. */
  ghost predicate Consistent(e: Entries) {
    && OneCreationIntent(e) && NeverIntendedAndDeleted(e) && JournaledDeletions(e)
    && (LocalIdentity in e ==> NoCreationIntent(e) && e[LocalIdentity].IdentityV1? && !Spent(e, e[LocalIdentity].handle))
  }

  ghost predicate Sound(e: Entries) {
    Typed(e) && Consistent(e)
  }

  /** The stored identity's key is the one the provider created for its operation. */
  ghost predicate Backed(e: Entries, created: map<KeyOperationId, CreatedKey>) {
    LocalIdentity in e ==>
      && e[LocalIdentity].IdentityV1? && e[LocalIdentity].operation in created
      && created[e[LocalIdentity].operation] == CreatedKey(e[LocalIdentity].handle, e[LocalIdentity].publicKey)
  }

  datatype Coordinates = Coordinates(node: NodeId, operation: KeyOperationId)

  /** The stored identity, or the pending creation when there is none, has these coordinates. */
  predicate At(e: Entries, c: Coordinates) {
    if LocalIdentity in e then
      e[LocalIdentity].IdentityV1? && e[LocalIdentity].node == c.node && e[LocalIdentity].operation == c.operation
    else
      CreationIntent(c.operation) in e && e[CreationIntent(c.operation)] == CreationIntentV1(c.operation, c.node)
  }

  ghost predicate Blank(e: Entries) {
    LocalIdentity !in e && NoCreationIntent(e)
  }

  /** Where a handle is on its one-way path. */
  function Status(e: Entries, h: KeyHandle): nat {
    if DeletedKey(h) in e then 2 else if DeletionIntent(h) in e then 1 else 0
  }

  /** The coordinates a landed decision moves to. */
  function NextCoordinates(d: Decision): Option<Coordinates> {
    match d
    case CreateIntent(intent) => if intent.CreationIntentV1? then Some(Coordinates(intent.node, intent.operation)) else None
    case Swap(intent, _) =>
      if intent.LeaveIntentV1? then Some(Coordinates(intent.replacementNode, intent.replacementOperation)) else None
    case _ => None
  }

  lemma OutcomeIsTyped(e: Entries, created: map<KeyOperationId, CreatedKey>, id: TransactionId, d: Decision)
    requires Typed(e) && Decides(e, created, d) && !d.Unrelated?
    ensures Typed(Outcome(e, id, d))
  {
  }

  lemma OutcomeKeepsExclusion(e: Entries, created: map<KeyOperationId, CreatedKey>, id: TransactionId, d: Decision)
    requires Sound(e) && Decides(e, created, d) && !d.Unrelated? && ConditionsHold(e, d)
    ensures OneCreationIntent(Outcome(e, id, d))
    ensures LocalIdentity in Outcome(e, id, d) ==> NoCreationIntent(Outcome(e, id, d))
  {
  }

  lemma OutcomeKeepsHandlesApart(e: Entries, created: map<KeyOperationId, CreatedKey>, id: TransactionId, d: Decision)
    requires Sound(e) && Decides(e, created, d) && !d.Unrelated? && ConditionsHold(e, d)
    ensures NeverIntendedAndDeleted(Outcome(e, id, d)) && JournaledDeletions(Outcome(e, id, d))
  {
    hide OneCreationIntent, NoCreationIntent, Typed;
  }

  lemma OutcomeKeepsIdentityLive(e: Entries, created: map<KeyOperationId, CreatedKey>, id: TransactionId, d: Decision)
    requires Sound(e) && Decides(e, created, d) && !d.Unrelated? && ConditionsHold(e, d)
    ensures LocalIdentity in Outcome(e, id, d) ==>
              Outcome(e, id, d)[LocalIdentity].IdentityV1? && !Spent(Outcome(e, id, d), Outcome(e, id, d)[LocalIdentity].handle)
  {
    hide OneCreationIntent, NoCreationIntent, JournaledDeletions, Typed;
  }

  lemma OutcomeIsConsistent(e: Entries, created: map<KeyOperationId, CreatedKey>, id: TransactionId, d: Decision)
    requires Sound(e) && Decides(e, created, d) && !d.Unrelated? && ConditionsHold(e, d)
    ensures Consistent(Outcome(e, id, d))
  {
    OutcomeKeepsExclusion(e, created, id, d);
    OutcomeKeepsHandlesApart(e, created, id, d);
    OutcomeKeepsIdentityLive(e, created, id, d);
    hide Outcome, ConditionsHold, OneCreationIntent, NoCreationIntent, NeverIntendedAndDeleted, JournaledDeletions, Spent;
  }

  lemma OutcomeIsBacked(e: Entries, created: map<KeyOperationId, CreatedKey>, id: TransactionId, d: Decision)
    requires Sound(e) && Backed(e, created) && Decides(e, created, d) && !d.Unrelated? && ConditionsHold(e, d)
    ensures Backed(Outcome(e, id, d), created)
  {
  }

  /** No landed decision moves a handle backwards or skips the intent. */
  lemma OutcomeAdvancesHandles(e: Entries, created: map<KeyOperationId, CreatedKey>, id: TransactionId, d: Decision, h: KeyHandle)
    requires Sound(e) && Decides(e, created, d) && !d.Unrelated? && ConditionsHold(e, d)
    ensures Status(e, h) <= Status(Outcome(e, id, d), h) <= Status(e, h) + 1
  {
  }

  lemma OutcomeMovesCoordinates(e: Entries, created: map<KeyOperationId, CreatedKey>, id: TransactionId, d: Decision, c: Coordinates)
    requires Sound(e) && Decides(e, created, d) && !d.Unrelated? && ConditionsHold(e, d)
    ensures NextCoordinates(d).Some? ==> At(Outcome(e, id, d), NextCoordinates(d).value)
    ensures NextCoordinates(d).None? && At(e, c) ==> At(Outcome(e, id, d), c)
    ensures NextCoordinates(d).None? && Blank(e) ==> Blank(Outcome(e, id, d))
  {
  }

  /** Writes outside the protocols leave every protocol key as it was. */
  lemma {:induction false} UnrelatedWrites(s: Metadata, writes: seq<Write>)
    requires forall w | w in writes :: TouchesNoProtocolKey(w)
    requires Typed(s.entries)
    ensures var r := ApplyAll(s, writes);
            && Typed(r.entries) && r.receipts == s.receipts
            && forall k | ProtocolKey(k) :: (k in r.entries <==> k in s.entries) && (k in s.entries ==> r.entries[k] == s.entries[k])
    decreases |writes|
  {
    if writes != [] {
      assert writes[0] in writes && forall w | w in writes[1..] :: w in writes;
      UnrelatedWrites(Apply(s, writes[0]), writes[1..]);
    }
  }

  // ---- the system ----

  datatype Provider = Provider(created: map<KeyOperationId, CreatedKey>, askedToDelete: set<KeyHandle>)

  datatype Task =
    | Committing(snapshot: Metadata, id: TransactionId, decision: Decision)
    | Deleting(handle: KeyHandle)

  /** `lineage` and `journaled` are history: the coordinates taken and the leave intents committed. */
  datatype System = System(
    store: Metadata, keys: Provider, tasks: map<nat, Task>, lineage: seq<Coordinates>, journaled: set<Record>)

  datatype Event =
    | Decide(task: nat, id: TransactionId, decision: Decision)
    | Land(task: nat)
    | Abandon(task: nat)
    | ReadDeletionIntent(task: nat, handle: KeyHandle)
    | AskDeletion(task: nat)
    | CreateKey(operation: KeyOperationId, key: CreatedKey)
    | Crash

  /** A swap or a completion acts on a leave intent that was committed before. */
  predicate FromJournal(journaled: set<Record>, d: Decision) {
    d.Swap? || d.CompleteLeave? ==> d.intent in journaled
  }

  function Lineage(lineage: seq<Coordinates>, d: Decision): seq<Coordinates> {
    match NextCoordinates(d)
    case Some(c) => lineage + [c]
    case None => lineage
  }

  /** The commit reaches the store: it lands, or it is refused and its writer gives up. */
  ghost function AfterLanding(s: System, task: nat): System
    requires task in s.tasks && s.tasks[task].Committing?
    requires Decides(s.tasks[task].snapshot.entries, s.keys.created, s.tasks[task].decision)
  {
    var Committing(snapshot, id, d) := s.tasks[task];
    var t := Prepare(snapshot, id, d);
    if Lands(s.store, t) then
      System(Landed(s.store, t), s.keys,
             if d.InstallDeletion? then s.tasks[task := Deleting(d.intent.handle)] else s.tasks - {task},
             Lineage(s.lineage, d), if d.BeginLeave? then s.journaled + {d.intent} else s.journaled)
    else s.(tasks := s.tasks - {task})
  }

  /** Events that are not enabled change nothing. */
  ghost function Next(s: System, event: Event): System {
    match event
    case Decide(task, id, d) =>
      if task !in s.tasks && Decides(s.store.entries, s.keys.created, d) && FromJournal(s.journaled, d)
      then s.(tasks := s.tasks[task := Committing(s.store, id, d)])
      else s
    case Land(task) =>
      if task in s.tasks && s.tasks[task].Committing? &&
         Decides(s.tasks[task].snapshot.entries, s.keys.created, s.tasks[task].decision)
      then AfterLanding(s, task)
      else s
    case Abandon(task) => s.(tasks := s.tasks - {task})
    case ReadDeletionIntent(task, handle) =>
      if task !in s.tasks && DeletionIntent(handle) in s.store.entries
      then s.(tasks := s.tasks[task := Deleting(handle)])
      else s
    case AskDeletion(task) =>
      if task in s.tasks && s.tasks[task].Deleting?
      then s.(keys := s.keys.(askedToDelete := s.keys.askedToDelete + {s.tasks[task].handle}))
      else s
    case CreateKey(operation, key) =>
      if operation !in s.keys.created
      then s.(keys := s.keys.(created := s.keys.created[operation := key]))
      else s
    case Crash => s.(tasks := map[])
  }

  ghost function Reached(s: System, events: seq<Event>): System
    decreases |events|
  {
    if events == [] then s else Next(Reached(s, events[..|events| - 1]), events[|events| - 1])
  }

  ghost predicate Initial(s: System) {
    s.store.entries == map[] && s.store.receipts == map[] && s.keys == Provider(map[], {}) && s.tasks == map[] &&
    s.lineage == [] && s.journaled == {}
  }

  // ---- what every reachable state satisfies ----

  ghost predicate TaskInv(s: System, task: Task) {
    match task
    case Committing(snapshot, _, d) =>
      && snapshot.revision <= s.store.revision
      && (snapshot.revision == s.store.revision ==> snapshot == s.store)
      && Decides(snapshot.entries, s.keys.created, d) && FromJournal(s.journaled, d)
    case Deleting(handle) => Spent(s.store.entries, handle)
  }

  ghost predicate TasksInv(s: System) {
    forall task | task in s.tasks :: TaskInv(s, s.tasks[task])
  }

  ghost predicate AskedInv(s: System) {
    forall h | h in s.keys.askedToDelete :: Spent(s.store.entries, h)
  }

  /** Every journal record names a transaction whose receipt is stored. */
  ghost predicate PendingInv(s: Metadata) {
    forall p | Pending(p) in s.entries && s.entries[Pending(p)].PendingV1? :: s.entries[Pending(p)].transaction in s.receipts
  }

  /** A committed leave intent leads from one identity's node to the other coordinates. */
  predicate Leads(journaled: set<Record>, from: Coordinates, to: Coordinates) {
    exists intent | intent in journaled ::
      && intent.LeaveIntentV1? && intent.former.IdentityV1? && intent.former.node == from.node
      && to == Coordinates(intent.replacementNode, intent.replacementOperation)
  }

  ghost predicate LineageInv(s: System) {
    && (if s.lineage == [] then Blank(s.store.entries) else At(s.store.entries, s.lineage[|s.lineage| - 1]))
    && (forall i | 0 <= i < |s.lineage| - 1 :: Leads(s.journaled, s.lineage[i], s.lineage[i + 1]))
  }

  ghost predicate Inv(s: System) {
    && Sound(s.store.entries) && Backed(s.store.entries, s.keys.created) && PendingInv(s.store)
    && TasksInv(s) && AskedInv(s) && LineageInv(s)
  }

  /** What a landing commit does: its snapshot is the store, and the entries take the outcome. */
  lemma LandsOnItsSnapshot(s: System, task: nat)
    requires TasksInv(s) && task in s.tasks && s.tasks[task].Committing?
    requires Lands(s.store, Prepare(s.tasks[task].snapshot, s.tasks[task].id, s.tasks[task].decision))
    ensures s.tasks[task].snapshot == s.store
    ensures !s.tasks[task].decision.Unrelated? ==>
              && ConditionsHold(s.store.entries, s.tasks[task].decision)
              && var landed := Landed(s.store, Prepare(s.store, s.tasks[task].id, s.tasks[task].decision));
                 && landed.entries == Outcome(s.store.entries, s.tasks[task].id, s.tasks[task].decision)
                 && landed.receipts.Keys == s.store.receipts.Keys + {s.tasks[task].id}
  {
    assert TaskInv(s, s.tasks[task]);
    var Committing(snapshot, id, d) := s.tasks[task];
    assert snapshot.revision == s.store.revision;
    if !d.Unrelated? {
      PreparedConditions(s.store, s.keys.created, id, d);
      PreparedOutcome(s.store, s.keys.created, id, d);
    }
  }

  ghost predicate SameProtocolKeys(e: Entries, f: Entries) {
    forall k | ProtocolKey(k) :: (k in e <==> k in f) && (k in e ==> e[k] == f[k])
  }

  /** Entries that agree on the protocol keys agree on everything the invariant says of them. */
  lemma SameProtocolKeysSameFacts(e: Entries, f: Entries, created: map<KeyOperationId, CreatedKey>)
    requires SameProtocolKeys(e, f)
    ensures Consistent(e) ==> Consistent(f)
    ensures Backed(e, created) ==> Backed(f, created)
    ensures forall h :: Status(e, h) == Status(f, h)
    ensures forall c :: At(e, c) <==> At(f, c)
    ensures Blank(e) ==> Blank(f)
  {
    assert forall k | k in f && k.CreationIntent? :: k in e;
  }

  lemma LandingKeepsEntries(s: System, task: nat)
    requires Inv(s) && task in s.tasks && s.tasks[task].Committing?
    ensures var n := AfterLanding(s, task);
            && Sound(n.store.entries) && Backed(n.store.entries, n.keys.created)
            && forall h :: Status(s.store.entries, h) <= Status(n.store.entries, h) <= Status(s.store.entries, h) + 1
  {
    hide Outcome, Writes, Landed, Precheck, ConditionsHold;
    assert TaskInv(s, s.tasks[task]);
    var Committing(snapshot, id, d) := s.tasks[task];
    var t := Prepare(snapshot, id, d);
    if Lands(s.store, t) {
      LandsOnItsSnapshot(s, task);
      if d.Unrelated? {
        UnrelatedWritesAreItsOwn(s.store.entries, id, d);
        UnrelatedLanding(s.store, t, d);
        SameProtocolKeysSameFacts(s.store.entries, Landed(s.store, t).entries, s.keys.created);
      } else {
        OutcomeIsTyped(s.store.entries, s.keys.created, id, d);
        OutcomeIsConsistent(s.store.entries, s.keys.created, id, d);
        OutcomeIsBacked(s.store.entries, s.keys.created, id, d);
        forall h ensures Status(s.store.entries, h) <= Status(Outcome(s.store.entries, id, d), h) <= Status(s.store.entries, h) + 1 {
          OutcomeAdvancesHandles(s.store.entries, s.keys.created, id, d, h);
        }
      }
    }
  }

  lemma UnrelatedLanding(s: Metadata, t: Transaction<Key, Record>, d: Decision)
    requires Typed(s.entries) && d.Unrelated? && t.operations == d.writes
    requires forall w | w in d.writes :: TouchesNoProtocolKey(w)
    ensures SameProtocolKeys(s.entries, Landed(s, t).entries) && Typed(Landed(s, t).entries)
    ensures Landed(s, t).receipts.Keys == s.receipts.Keys + {t.id}
  {
    UnrelatedWrites(s, d.writes);
  }

  lemma LandingKeepsPending(s: System, task: nat)
    requires Inv(s) && task in s.tasks && s.tasks[task].Committing?
    ensures PendingInv(AfterLanding(s, task).store)
  {
    hide ConditionsHold, Writes, Landed, Precheck;
    assert TaskInv(s, s.tasks[task]);
    var Committing(snapshot, id, d) := s.tasks[task];
    var t := Prepare(snapshot, id, d);
    if Lands(s.store, t) {
      LandsOnItsSnapshot(s, task);
      if d.Unrelated? {
        assert t.operations == d.writes by { UnrelatedWritesAreItsOwn(s.store.entries, id, d); }
        UnrelatedLanding(s.store, t, d);
      }
    }
  }

  lemma UnrelatedWritesAreItsOwn(e: Entries, id: TransactionId, d: Decision)
    requires d.Unrelated?
    ensures Writes(e, id, d) == d.writes
  {
  }

  lemma LandingKeepsLineage(s: System, task: nat)
    requires Inv(s) && task in s.tasks && s.tasks[task].Committing?
    ensures LineageInv(AfterLanding(s, task))
  {
    hide ConditionsHold, Writes, Landed, Precheck, Outcome;
    assert TaskInv(s, s.tasks[task]);
    var Committing(snapshot, id, d) := s.tasks[task];
    var t := Prepare(snapshot, id, d);
    var n := AfterLanding(s, task);
    if Lands(s.store, t) {
      LandsOnItsSnapshot(s, task);
      var last := if s.lineage == [] then Coordinates("", "") else s.lineage[|s.lineage| - 1];
      if d.Unrelated? {
        UnrelatedWritesAreItsOwn(s.store.entries, id, d);
        UnrelatedLanding(s.store, t, d);
        SameProtocolKeysSameFacts(s.store.entries, n.store.entries, s.keys.created);
      } else {
        OutcomeMovesCoordinates(s.store.entries, s.keys.created, id, d, last);
        LineageIsLinked(s, d);
      }
      forall i | 0 <= i < |n.lineage| - 1 ensures Leads(n.journaled, n.lineage[i], n.lineage[i + 1]) {
        assert Leads(s.journaled, n.lineage[i], n.lineage[i + 1]);
      }
    }
  }

  lemma LineageIsLinked(s: System, d: Decision)
    requires LineageInv(s) && Decides(s.store.entries, s.keys.created, d) && FromJournal(s.journaled, d)
    ensures forall i | 0 <= i < |Lineage(s.lineage, d)| - 1 ::
              Leads(s.journaled, Lineage(s.lineage, d)[i], Lineage(s.lineage, d)[i + 1])
  {
    if d.Swap? && s.lineage != [] {
      assert Leads(s.journaled, s.lineage[|s.lineage| - 1], NextCoordinates(d).value);
    }
  }

  lemma LandingKeepsTasks(s: System, task: nat)
    requires Inv(s) && task in s.tasks && s.tasks[task].Committing?
    ensures TasksInv(AfterLanding(s, task)) && AskedInv(AfterLanding(s, task))
  {
    hide ConditionsHold, Writes, Precheck, Decides, ApplyAll;
    assert TaskInv(s, s.tasks[task]);
    LandingKeepsEntries(s, task);
    var n := AfterLanding(s, task);
    assert forall h :: Spent(s.store.entries, h) ==> Status(s.store.entries, h) > 0;
    assert forall h :: Status(n.store.entries, h) > 0 ==> Spent(n.store.entries, h);
    forall other | other in n.tasks ensures TaskInv(n, n.tasks[other]) {
      if other in s.tasks && n.tasks[other] == s.tasks[other] {
        assert TaskInv(s, s.tasks[other]);
      } else {
        LandsOnItsSnapshot(s, task);
      }
    }
  }

  lemma LandingKeepsInv(s: System, task: nat)
    requires Inv(s) && task in s.tasks && s.tasks[task].Committing?
    ensures Inv(AfterLanding(s, task))
  {
    LandingKeepsEntries(s, task);
    LandingKeepsPending(s, task);
    LandingKeepsLineage(s, task);
    LandingKeepsTasks(s, task);
    hide *;
    assert Inv(AfterLanding(s, task)) by { InvIsItsParts(AfterLanding(s, task)); }
  }

  lemma InvIsItsParts(s: System)
    requires Sound(s.store.entries) && Backed(s.store.entries, s.keys.created) && PendingInv(s.store)
    requires TasksInv(s) && AskedInv(s) && LineageInv(s)
    ensures Inv(s)
  {
  }

  lemma NextKeepsInv(s: System, event: Event)
    requires Inv(s)
    ensures Inv(Next(s, event))
    ensures forall h :: Status(s.store.entries, h) <= Status(Next(s, event).store.entries, h) <= Status(s.store.entries, h) + 1
    ensures s.lineage <= Next(s, event).lineage
  {
    hide Decides, Sound, PendingInv, Landed, Lands, Writes;
    match event {
      case Land(task) =>
        if task in s.tasks && s.tasks[task].Committing? {
          LandingKeepsEntries(s, task);
          LandingKeepsInv(s, task);
        }
      case CreateKey(operation, key) =>
        CreatingKeepsInv(s, operation, key);
      case Crash =>
      case _ =>
        var n := Next(s, event);
        forall task | task in n.tasks ensures TaskInv(n, n.tasks[task]) {
          if task in s.tasks { assert TaskInv(s, s.tasks[task]); }
        }
    }
  }

  lemma CreatingKeepsInv(s: System, operation: KeyOperationId, key: CreatedKey)
    requires Inv(s)
    ensures Inv(Next(s, CreateKey(operation, key)))
  {
    hide Sound, PendingInv;
    var n := Next(s, CreateKey(operation, key));
    forall task | task in n.tasks ensures TaskInv(n, n.tasks[task]) {
      assert TaskInv(s, s.tasks[task]);
    }
  }

  /** A program that decides and commits without interruption is two events of the machine. */
  lemma UninterruptedCommitIsTwoEvents(s: System, task: nat, id: TransactionId, d: Decision)
    requires task !in s.tasks && Decides(s.store.entries, s.keys.created, d) && FromJournal(s.journaled, d)
    ensures var before := Reached(s, []);
            var after := Reached(s, [Decide(task, id, d), Land(task)]);
            && before == s && after.keys == s.keys
            && after.store == Storage.Commit(s.store, Prepare(s.store, id, d)).0
            && (task in after.tasks ==> d.InstallDeletion? && after.tasks[task] == Deleting(d.intent.handle))
  {
    hide Writes, Landed;
    var events := [Decide(task, id, d), Land(task)];
    assert events[..1] == [Decide(task, id, d)] && events[..1][..0] == [];
    assert Reached(s, events[..1]) == Next(Reached(s, []), Decide(task, id, d));
    assert Reached(s, events) == Next(Reached(s, events[..1]), Land(task));
  }

  /** A program that resumes a stored deletion intent asks the provider, and a key is made once for its operation. */
  lemma ResumedDeletionAsks(s: System, task: nat, handle: KeyHandle, operation: KeyOperationId, key: CreatedKey)
    requires task !in s.tasks && DeletionIntent(handle) in s.store.entries
    ensures var after := Reached(s, [ReadDeletionIntent(task, handle), AskDeletion(task)]);
            after.keys.askedToDelete == s.keys.askedToDelete + {handle} && after.store == s.store
    ensures var created := Reached(s, [CreateKey(operation, key)]).keys.created;
            operation in created && created[operation] == if operation in s.keys.created then s.keys.created[operation] else key
  {
    var events := [ReadDeletionIntent(task, handle), AskDeletion(task)];
    assert events[..1] == [ReadDeletionIntent(task, handle)] && events[..1][..0] == [];
    assert Reached(s, events[..1]) == Next(Reached(s, []), events[0]);
    assert Reached(s, events) == Next(Reached(s, events[..1]), AskDeletion(task));
    assert [CreateKey(operation, key)][..0] == [];
  }

  // ---- theorems over every run ----

  lemma {:induction false} ReachedKeepsInv(s: System, events: seq<Event>)
    requires Initial(s)
    ensures Inv(Reached(s, events))
    decreases |events|
  {
    if events == [] {
      InitialInv(s);
    } else {
      hide *;
      ReachedKeepsInv(s, events[..|events| - 1]);
      NextKeepsInv(Reached(s, events[..|events| - 1]), events[|events| - 1]);
      LastEvent(s, events);
    }
  }

  lemma InitialInv(s: System)
    requires Initial(s)
    ensures Inv(s)
  {
  }

  lemma LastEvent(s: System, events: seq<Event>)
    requires events != []
    ensures Reached(s, events) == Next(Reached(s, events[..|events| - 1]), events[|events| - 1])
  {
  }

  /** The provider is never asked to delete the key the stored identity uses, before or after it is stored. */
  lemma LiveKeyIsNeverDeleted(s: System, events: seq<Event>)
    requires Initial(s)
    ensures var r := Reached(s, events);
            LocalIdentity in r.store.entries ==>
              && r.store.entries[LocalIdentity].IdentityV1?
              && r.store.entries[LocalIdentity].handle !in r.keys.askedToDelete
              && r.store.entries[LocalIdentity].operation in r.keys.created
              && r.keys.created[r.store.entries[LocalIdentity].operation]
                 == CreatedKey(r.store.entries[LocalIdentity].handle, r.store.entries[LocalIdentity].publicKey)
  {
    hide Reached, Next;
    ReachedKeepsInv(s, events);
  }

  /** Along every run a handle only moves from live to intended to deleted, one step at a time. */
  lemma {:induction false} HandlesOnlyAdvance(s: System, events: seq<Event>, n: nat, h: KeyHandle)
    requires Initial(s) && n <= |events|
    ensures Status(Reached(s, events[..n]).store.entries, h) <= Status(Reached(s, events).store.entries, h)
    ensures n + 1 == |events| ==>
              Status(Reached(s, events).store.entries, h) <= Status(Reached(s, events[..n]).store.entries, h) + 1
    decreases |events|
  {
    hide *;
    if n == |events| {
      assert events[..n] == events;
    } else {
      var before := events[..|events| - 1];
      assert before[..n] == events[..n];
      HandlesOnlyAdvance(s, before, n, h);
      ReachedKeepsInv(s, before);
      NextKeepsInv(Reached(s, before), events[|events| - 1]);
      LastEvent(s, events);
      assert n + 1 == |events| ==> before == events[..n];
    }
  }

  /** The coordinates taken so far are never revised, whatever happens later. */
  lemma {:induction false} LineageOnlyGrows(s: System, events: seq<Event>, n: nat)
    requires Initial(s) && n <= |events|
    ensures Reached(s, events[..n]).lineage <= Reached(s, events).lineage
    decreases |events|
  {
    hide *;
    if n == |events| {
      assert events[..n] == events;
    } else {
      var before := events[..|events| - 1];
      assert before[..n] == events[..n];
      LineageOnlyGrows(s, before, n);
      ReachedKeepsInv(s, before);
      NextKeepsInv(Reached(s, before), events[|events| - 1]);
      LastEvent(s, events);
    }
  }

  /**
   The first committed creation intent fixes the identity: in every later state of every run the
   stored identity or pending creation has its coordinates, unless committed leave intents led on
   from them one by one; and an identity never coexists with a creation intent.
   */
  lemma FirstIntentFixesIdentity(s: System, events: seq<Event>, n: nat, first: Coordinates)
    requires Initial(s) && n <= |events|
    requires Reached(s, events[..n]).lineage == [first]
    ensures var r := Reached(s, events);
            && |r.lineage| > 0 && r.lineage[0] == first && At(r.store.entries, r.lineage[|r.lineage| - 1])
            && (forall i | 0 <= i < |r.lineage| - 1 :: Leads(r.journaled, r.lineage[i], r.lineage[i + 1]))
            && (LocalIdentity in r.store.entries ==> NoCreationIntent(r.store.entries))
  {
    hide Reached, Next;
    LineageOnlyGrows(s, events, n);
    ReachedKeepsInv(s, events);
  }

  /** While no leave was committed, the first intent's coordinates are the only ones ever stored. */
  lemma WithoutLeaveTheIdentityIsTheFirst(s: System, events: seq<Event>, n: nat, first: Coordinates)
    requires Initial(s) && n <= |events|
    requires Reached(s, events[..n]).lineage == [first] && Reached(s, events).journaled == {}
    ensures At(Reached(s, events).store.entries, first)
  {
    hide Reached, Next;
    FirstIntentFixesIdentity(s, events, n, first);
    var r := Reached(s, events);
    assert |r.lineage| > 1 ==> Leads(r.journaled, r.lineage[0], r.lineage[1]);
  }

  /** A creation intent commits only into a blank store, so it commits at most once in a run. */
  lemma CreationCommitsOnce(s: System, events: seq<Event>, task: nat)
    requires Initial(s)
    requires var r := Reached(s, events);
             && task in r.tasks && r.tasks[task].Committing? && r.tasks[task].decision.CreateIntent?
             && Next(r, Land(task)).store != r.store
    ensures Reached(s, events).lineage == []
  {
    hide Reached;
    ReachedKeepsInv(s, events);
    var r := Reached(s, events);
    LandsOnItsSnapshot(r, task);
  }
}
