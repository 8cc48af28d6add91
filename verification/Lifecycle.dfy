/** Opening or creating the local identity, from any durable state and through any faults. */
module Lifecycle {
  import opened Results
  import opened IdentityRecords
  import opened IdentityMachine
  import opened FaultyStorage
  import opened IdentityNode

  /** The keys an open may touch. */
  predicate OpenKey(k: Key) {
    k.LocalIdentity? || k.CreationIntent? || k == Pending(LocalIdentityPurpose)
  }

  ghost predicate OnlyOpenKeysChange(e: Entries, f: Entries) {
    forall k | !OpenKey(k) :: (k in e <==> k in f) && (k in e ==> e[k] == f[k])
  }

  /** The creation intents a snapshot may show: at most one, under the key its own fields name. */
  ghost predicate Discoverable(e: Entries) {
    OneCreationIntent(e) && forall k | k in e && k.CreationIntent? :: WellPlaced(k, e[k])
  }

  /** The scan for the one pending creation intent; a second or malformed row is corruption. */
  method DiscoverCreationIntent(e: Entries) returns (r: Result<Option<Record>>)
    ensures r.Ok? <==> Discoverable(e)
    ensures r.Err? ==> r.error == DISCOVERY_CORRUPT
    ensures r.Ok? ==> (r.value.None? <==> NoCreationIntent(e))
    ensures r.Ok? && r.value.Some? ==>
              && r.value.value.CreationIntentV1? && CreationIntent(r.value.value.operation) in e
              && e[CreationIntent(r.value.value.operation)] == r.value.value
  {
    var intents := set k | k in e && k.CreationIntent?;
    assert forall k | k in e :: k.CreationIntent? ==> k in intents;
    var rest := intents;
    var found: Option<Record> := None;
    while rest != {}
      invariant rest <= intents && (found.None? <==> rest == intents)
      invariant found.Some? ==>
                  && found.value.CreationIntentV1? && CreationIntent(found.value.operation) in intents - rest
                  && e[CreationIntent(found.value.operation)] == found.value
                  && forall k | k in intents - rest :: k == CreationIntent(found.value.operation)
      decreases |rest|
    {
      var k :| k in rest;
      rest := rest - {k};
      if found.Some? || !WellPlaced(k, e[k]) {
        return Err(DISCOVERY_CORRUPT);
      }
      found := Some(e[k]);
    }
    assert forall k | k in e && k.CreationIntent? :: k in intents - rest;
    return Ok(found);
  }

  datatype Discovery = Fresh | Stored(identity: Record) | Intended(intent: Record)

  /** What the two singletons of a snapshot amount to; an identity beside an intent is corruption. */
  function Classify(e: Entries, intent: Option<Record>): (r: Result<Discovery>)
    ensures r.Err? <==> LocalIdentity in e && (intent.Some? || !e[LocalIdentity].IdentityV1?)
    ensures r.Err? ==> r.error == DISCOVERY_CORRUPT
    ensures r.Ok? ==>
              match r.value
              case Stored(identity) => LocalIdentity in e && identity == e[LocalIdentity]
              case Intended(pending) => intent == Some(pending)
              case Fresh => LocalIdentity !in e && intent.None?
  {
    if LocalIdentity in e && !e[LocalIdentity].IdentityV1? then Err(DISCOVERY_CORRUPT)
    else if LocalIdentity in e && intent.Some? then Err(DISCOVERY_CORRUPT)
    else if LocalIdentity in e then Ok(Stored(e[LocalIdentity]))
    else if intent.None? then Ok(Fresh)
    else Ok(Intended(intent.value))
  }

  /** The provider answers when asked for the key, to create one it does not hold, and to show it. */
  predicate GivesKey(script: seq<Fault>, created: bool) {
    Head(script) == Pass && Head(Rest(script)) == Pass && (!created ==> Head(Rest(Rest(script))) == Pass)
  }

  function AfterKey(script: seq<Fault>, created: bool): seq<Fault> {
    if created then Rest(Rest(script)) else Rest(Rest(Rest(script)))
  }

  /** Asks the provider to create the key of the operation and checks what it hands back. */
  method CreateKeyExact(n: Node, operation: KeyOperationId) returns (r: Result<CreatedKey>)
    requires n.Valid()
    modifies n`created, n`script
    ensures n.Valid()
    ensures r.Ok? ==> operation in n.created && r.value == n.created[operation]
    ensures old(n.script) == [] ==> n.script == [] && (n.mint(operation).handle !in n.gone ==> r.Ok?)
    ensures n.mint(operation).handle !in n.gone ==> (r.Ok? <==> Head(old(n.script)) == Pass && Head(Rest(old(n.script))) == Pass)
    ensures r.Ok? ==> n.script == Rest(Rest(old(n.script)))
  {
    var state :- n.CreateKey(operation);
    match state {
      case KeyPresent(created) =>
        assert n.created[operation] == CreatedKey(created.handle, created.publicKey);
        var _ :- n.VerifyProviderKey(created.handle, created.publicKey);
        return Ok(created);
      case KeyAbsent => return Err(Error(NotReady, "local identity key create"));
      case KeyUnknown => return Err(Error(CommitUnknown, "key create"));
    }
  }

  /** On resume the provider is reconciled first; a key is created only when it is proven absent. */
  method ResumeKey(n: Node, operation: KeyOperationId) returns (r: Result<CreatedKey>)
    requires n.Valid()
    modifies n`created, n`script
    ensures n.Valid()
    ensures r.Ok? ==> operation in n.created && r.value == n.created[operation]
    ensures old(n.script) == [] ==> n.script == [] && (n.mint(operation).handle !in n.gone ==> r.Ok?)
    ensures n.mint(operation).handle !in n.gone ==>
              var created := operation in old(n.created);
              (r.Ok? <==> GivesKey(old(n.script), created)) && (r.Ok? ==> n.script == AfterKey(old(n.script), created))
  {
    var state :- n.ReconcileCreate(operation);
    match state {
      case KeyPresent(created) =>
        assert n.created[operation] == CreatedKey(created.handle, created.publicKey);
        var _ :- n.VerifyProviderKey(created.handle, created.publicKey);
        return Ok(created);
      case KeyAbsent =>
        r := CreateKeyExact(n, operation);
      case KeyUnknown => return Err(Error(CommitUnknown, "key reconcile"));
    }
  }

  /** A proven abort is accepted only when a fresh snapshot shows exactly the final state. */
  predicate ShowsFinalState(e: Entries, identity: Record) {
    LocalIdentity in e && e[LocalIdentity] == identity && NoCreationIntent(e)
  }

  /** The faults left once the identity is finalized: its commit, then the removal of the journal record. */
  function FinalizeEnd(script: seq<Fault>): Option<seq<Fault>> {
    if Verdict(script) == Yes then CleanupEnd(AfterVerdict(script)) else None
  }

  /** The same from a blank store: the intent, the key and its check, the identity. */
  function CreateEnd(script: seq<Fault>): Option<seq<Fault>> {
    var key := AfterVerdict(script);
    if Verdict(script) == Yes && Head(key) == Pass && Head(Rest(key)) == Pass then FinalizeEnd(Rest(Rest(key))) else None
  }

  /** The same from a stored intent. */
  function ResumeEnd(script: seq<Fault>, created: bool): Option<seq<Fault>> {
    if GivesKey(script, created) then FinalizeEnd(AfterKey(script, created)) else None
  }

  /** The faults left behind an open that completes. */
  function OpenEnd(script: seq<Fault>, journaled: bool, stored: bool, intended: bool, created: bool): Option<seq<Fault>> {
    var start := if journaled then RecoveryEnd(script) else Some(script);
    if start.None? then None
    else if stored then (if Head(start.value) == Pass then Some(Rest(start.value)) else None)
    else if intended then ResumeEnd(start.value, created)
    else CreateEnd(start.value)
  }

  /** Replaces the stored intent by the identity in one transaction, then removes the journal record. */
  method FinalizeIdentity(n: Node, intent: Record, key: CreatedKey) returns (r: Result<Record>)
    requires n.Valid()
    requires intent.CreationIntentV1? && intent.operation in n.created && n.created[intent.operation] == key
    requires CreationIntent(intent.operation) in n.store.entries && n.store.entries[CreationIntent(intent.operation)] == intent
    requires LocalIdentity !in n.store.entries && Pending(LocalIdentityPurpose) !in n.store.entries
    modifies n`store, n`script
    ensures n.Valid()
    ensures OnlyOpenKeysChange(old(n.store.entries), n.store.entries)
    ensures At(n.store.entries, Coordinates(intent.node, intent.operation))
    ensures r.Ok? ==>
              && LocalIdentity in n.store.entries && n.store.entries[LocalIdentity] == r.value
              && r.value == FinalIdentity(intent, key) && Pending(LocalIdentityPurpose) !in n.store.entries
    ensures old(n.script) == [] ==> n.script == [] && (!Spent(old(n.store.entries), key.handle) ==> r.Ok?)
    ensures (r.Ok? <==> !Spent(old(n.store.entries), key.handle) && FinalizeEnd(old(n.script)).Some?)
    ensures r.Ok? ==> n.script == FinalizeEnd(old(n.script)).value
  {
    hide PendingInv, Backed, Typed, JournaledDeletions, NeverIntendedAndDeleted, HandlesNameOperations;
    var identity := FinalIdentity(intent, key);
    if Spent(n.store.entries, key.handle) {
      return Err(Error(Conflict, "key handle"));
    }
    var committed, _ :- n.CommitDecision(Finalize(intent, key));
    if !committed {
      if !ShowsFinalState(n.store.entries, identity) {
        return Err(Error(Conflict, "local identity finalize"));
      }
    }
    var _ :- n.CleanupPending(LocalIdentityPurpose);
    return Ok(identity);
  }

  method CreateIdentity(n: Node, node: NodeId, operation: KeyOperationId) returns (r: Result<Record>)
    requires n.Valid() && Blank(n.store.entries) && Pending(LocalIdentityPurpose) !in n.store.entries
    modifies n`store, n`script, n`created
    ensures n.Valid()
    ensures OnlyOpenKeysChange(old(n.store.entries), n.store.entries)
    ensures Blank(n.store.entries) || At(n.store.entries, Coordinates(node, operation))
    ensures r.Ok? ==>
              && LocalIdentity in n.store.entries && n.store.entries[LocalIdentity] == r.value
              && Pending(LocalIdentityPurpose) !in n.store.entries
    ensures old(n.script) == [] ==> n.script == [] && (!Spent(old(n.store.entries), n.mint(operation).handle) ==> r.Ok?)
    ensures r.Ok? <==> !Spent(old(n.store.entries), n.mint(operation).handle) && CreateEnd(old(n.script)).Some?
    ensures r.Ok? ==> n.script == CreateEnd(old(n.script)).value
  {
    hide PendingInv, Backed, Typed, Consistent, HandlesNameOperations, FinalizeEnd;
    var intent := CreationIntentV1(operation, node);
    var committed, _ :- n.CommitDecision(CreateIntent(intent));
    if !committed {
      return Err(Error(Conflict, "local identity intent commit"));
    }
    var key :- CreateKeyExact(n, operation);
    r := FinalizeIdentity(n, intent, key);
  }

  method ResumeCreation(n: Node, intent: Record) returns (r: Result<Record>)
    requires n.Valid() && intent.CreationIntentV1?
    requires CreationIntent(intent.operation) in n.store.entries && n.store.entries[CreationIntent(intent.operation)] == intent
    requires LocalIdentity !in n.store.entries && Pending(LocalIdentityPurpose) !in n.store.entries
    modifies n`store, n`script, n`created
    ensures n.Valid()
    ensures OnlyOpenKeysChange(old(n.store.entries), n.store.entries)
    ensures At(n.store.entries, Coordinates(intent.node, intent.operation))
    ensures r.Ok? ==>
              && LocalIdentity in n.store.entries && n.store.entries[LocalIdentity] == r.value
              && Pending(LocalIdentityPurpose) !in n.store.entries
    ensures old(n.script) == [] ==>
              n.script == [] && (!Spent(old(n.store.entries), n.mint(intent.operation).handle) ==> r.Ok?)
    ensures var end := ResumeEnd(old(n.script), intent.operation in old(n.created));
            && (r.Ok? <==> !Spent(old(n.store.entries), n.mint(intent.operation).handle) && end.Some?)
            && (r.Ok? ==> n.script == end.value)
  {
    hide FinalizeEnd;
    var key :- ResumeKey(n, intent.operation);
    r := FinalizeIdentity(n, intent, key);
  }

  /** Loads a stored identity only when the provider still holds exactly its key. */
  method LoadExisting(n: Node) returns (r: Result<Record>)
    requires n.Valid() && LocalIdentity in n.store.entries
    modifies n`script
    ensures n.Valid()
    ensures r.Ok? ==> r.value == n.store.entries[LocalIdentity]
    ensures n.script == Rest(old(n.script)) && (r.Ok? <==> Head(old(n.script)) == Pass)
  {
    var identity := n.store.entries[LocalIdentity];
    assert n.created[identity.operation] == CreatedKey(identity.handle, identity.publicKey);
    var _ :- n.VerifyProviderKey(identity.handle, identity.publicKey);
    return Ok(identity);
  }

  /** The operation whose key the open will use when no identity is stored. */
  ghost predicate Usable(e: Entries, mint: KeyOperationId -> CreatedKey, operation: KeyOperationId) {
    LocalIdentity !in e ==>
      && (NoCreationIntent(e) ==> !Spent(e, mint(operation).handle))
      && forall c :: At(e, c) ==> !Spent(e, mint(c.operation).handle)
  }

  /** The provider has made a key for the stored coordinates. */
  ghost predicate KeyIsMade(e: Entries, created: map<KeyOperationId, CreatedKey>) {
    exists c :: At(e, c) && c.operation in created
  }

  /**
   Opens or creates the identity.  Whatever coordinates are already stored stay; a blank store
   takes the freshly generated ones or stays blank; a completed open returns the stored identity;
   and an open with a usable key completes exactly when its faults let it (`OpenEnd`).
   */
  method OpenIdentity(n: Node, node: NodeId, operation: KeyOperationId) returns (r: Result<Record>)
    requires n.Valid()
    modifies n`store, n`script, n`created
    ensures n.Valid()
    ensures OnlyOpenKeysChange(old(n.store.entries), n.store.entries)
    ensures LocalIdentity in old(n.store.entries) ==>
              LocalIdentity in n.store.entries && n.store.entries[LocalIdentity] == old(n.store.entries[LocalIdentity])
    ensures LocalIdentity in old(n.store.entries) && Pending(LocalIdentityPurpose) !in old(n.store.entries) ==>
              && n.store == old(n.store) && n.created == old(n.created)
              && n.script == Rest(old(n.script)) && (r.Ok? <==> Head(old(n.script)) == Pass)
    ensures forall c :: At(old(n.store.entries), c) ==> At(n.store.entries, c)
    ensures Blank(old(n.store.entries)) ==> Blank(n.store.entries) || At(n.store.entries, Coordinates(node, operation))
    ensures r.Ok? ==>
              && LocalIdentity in n.store.entries && n.store.entries[LocalIdentity] == r.value
              && Pending(LocalIdentityPurpose) !in n.store.entries
    ensures old(n.script) == [] ==> n.script == [] && (Usable(old(n.store.entries), n.mint, operation) ==> r.Ok?)
    ensures Usable(old(n.store.entries), n.mint, operation) ==>
              match OpenEnd(old(n.script), Pending(LocalIdentityPurpose) in old(n.store.entries), LocalIdentity in old(n.store.entries),
                            !NoCreationIntent(old(n.store.entries)), KeyIsMade(old(n.store.entries), old(n.created)))
              case Some(end) => r.Ok? && n.script == end
              case None => r.Err?
  {
    hide Sound, PendingInv, Backed, Discoverable, CreateEnd, ResumeEnd, RecoveryEnd;
    ghost var before := n.store.entries;
    var _ :- n.RecoverJournal(LocalIdentityPurpose);
    JournalIsNoCoordinate(before, n.store.entries);
    SoundIsDiscoverable(n.store.entries);
    var intent := DiscoverCreationIntent(n.store.entries);
    if intent.Err? {
      return Err(DISCOVERY_CORRUPT);
    }
    match Classify(n.store.entries, intent.value) {
      case Err(_) => return Err(DISCOVERY_CORRUPT);
      case Ok(Stored(_)) =>
        r := LoadExisting(n);
      case Ok(Fresh) =>
        r := CreateIdentity(n, node, operation);
      case Ok(Intended(pending)) =>
        OnlyCoordinates(n.store.entries, pending);
        r := ResumeCreation(n, pending);
    }
  }

  lemma JournalIsNoCoordinate(e: Entries, f: Entries)
    requires Sound(e) && (f == e || f == e - {Pending(LocalIdentityPurpose)})
    ensures OnlyOpenKeysChange(e, f) && (Blank(e) <==> Blank(f)) && (NoCreationIntent(e) <==> NoCreationIntent(f))
    ensures LocalIdentity in e ==> LocalIdentity in f && e[LocalIdentity] == f[LocalIdentity]
    ensures forall c :: At(e, c) <==> At(f, c)
    ensures forall h :: Spent(e, h) <==> Spent(f, h)
  {
    assert forall k | k in e && k.CreationIntent? :: k in f;
  }

  /** The discovery never answers corrupt on a store the protocols left. */
  lemma SoundIsDiscoverable(e: Entries)
    requires Sound(e)
    ensures Discoverable(e) && (LocalIdentity in e ==> e[LocalIdentity].IdentityV1? && NoCreationIntent(e))
  {
  }

  lemma OnlyCoordinates(e: Entries, intent: Record)
    requires Sound(e) && LocalIdentity !in e && intent.CreationIntentV1?
    requires CreationIntent(intent.operation) in e && e[CreationIntent(intent.operation)] == intent
    ensures forall c :: At(e, c) ==> c == Coordinates(intent.node, intent.operation)
    ensures !NoCreationIntent(e)
  {
  }

  /**
   Any number of starts, each with its own entropy and faults: every one that completes returns
   the same identity, which stays stored; coordinates once stored never change; and a store that
   was blank holds the coordinates of one of these starts or is still blank.
   */
  method OpenRepeatedly(n: Node, restarts: seq<Restart>) returns (results: seq<Result<Record>>)
    requires n.Valid() && (n.steady ==> forall restart | restart in restarts :: Harmless(restart.script))
    modifies n`store, n`script, n`created
    ensures n.Valid() && |results| == |restarts|
    ensures forall c :: At(old(n.store.entries), c) ==> At(n.store.entries, c)
    ensures forall i | 0 <= i < |results| && results[i].Ok? ::
              LocalIdentity in n.store.entries && n.store.entries[LocalIdentity] == results[i].value
    ensures Blank(old(n.store.entries)) ==> Blank(n.store.entries) || TookFrom(n.store.entries, restarts)
  {
    hide Sound, PendingInv, Backed, HandlesNameOperations, OnlyOpenKeysChange, Usable, Blank, At;
    results := [];
    for i := 0 to |restarts|
      invariant n.Valid() && |results| == i
      invariant forall c :: At(old(n.store.entries), c) ==> At(n.store.entries, c)
      invariant forall j | 0 <= j < i && results[j].Ok? ::
                  LocalIdentity in n.store.entries && n.store.entries[LocalIdentity] == results[j].value
      invariant Blank(old(n.store.entries)) ==> Blank(n.store.entries) || TookFrom(n.store.entries, restarts)
    {
      assert restarts[i] in restarts;
      n.script := restarts[i].script;
      var r := OpenIdentity(n, restarts[i].node, restarts[i].operation);
      results := results + [r];
    }
  }

  /** The stored coordinates are the ones entropy gave to one of the starts. */
  predicate TookFrom(e: Entries, restarts: seq<Restart>) {
    exists restart | restart in restarts :: At(e, Coordinates(restart.node, restart.operation))
  }
}
