/**
 Descriptor registers: one descriptor per node, replaced only by a strictly greater revision.
 Sequential installs, the page contest and the one-transaction page apply are related, and
 replicas converge.
 */
module Membership {
  import opened Results
  import opened Storage
  import opened FaultyStorage
  import StorageRuns

  type NodeId = string

  datatype Descriptor = Descriptor(node: NodeId, revision: nat, content: string)

  type Registers = map<NodeId, Descriptor>

  /** Why a descriptor is refused: stale, or a first install that may not skip revisions. */
  predicate Skips(existing: Option<Descriptor>, d: Descriptor, adopted: bool) {
    match existing
    case Some(stored) => d.revision <= stored.revision
    case None => d.revision == 0 || (d.revision > 1 && !adopted)
  }

  function Lookup(registers: Registers, node: NodeId): Option<Descriptor> {
    if node in registers then Some(registers[node]) else None
  }

  function Install(registers: Registers, adopted: set<NodeId>, d: Descriptor): Registers {
    if Skips(Lookup(registers, d.node), d, d.node in adopted) then registers else registers[d.node := d]
  }

  /** Descriptors applied one at a time. */
  function InstallAll(registers: Registers, adopted: set<NodeId>, rows: seq<Descriptor>): Registers
    decreases |rows|
  {
    if rows == [] then registers
    else Install(InstallAll(registers, adopted, rows[..|rows| - 1]), adopted, rows[|rows| - 1])
  }

  // ---- one node's register ----

  function Step(o: Option<Descriptor>, adopted: bool, d: Descriptor): Option<Descriptor> {
    if Skips(o, d, adopted) then o else Some(d)
  }

  function Fold(o: Option<Descriptor>, adopted: bool, rows: seq<Descriptor>, node: NodeId): Option<Descriptor>
    decreases |rows|
  {
    if rows == [] then o
    else
      var before := Fold(o, adopted, rows[..|rows| - 1], node);
      if rows[|rows| - 1].node == node then Step(before, adopted, rows[|rows| - 1]) else before
  }

  /** Registers of different nodes do not affect each other. */
  lemma {:induction false} RegistersAreIndependent(registers: Registers, adopted: set<NodeId>, rows: seq<Descriptor>, node: NodeId)
    ensures Lookup(InstallAll(registers, adopted, rows), node) == Fold(Lookup(registers, node), node in adopted, rows, node)
    decreases |rows|
  {
    if rows != [] {
      RegistersAreIndependent(registers, adopted, rows[..|rows| - 1], node);
    }
  }

  /** No row of the same node has a greater revision, and no earlier one an equal revision. */
  predicate FirstMaximum(rows: seq<Descriptor>, w: nat)
    requires w < |rows|
  {
    forall j | 0 <= j < |rows| && rows[j].node == rows[w].node ::
      rows[j].revision <= rows[w].revision && (j < w ==> rows[j].revision < rows[w].revision)
  }

  /** The position of the first row of the node's greatest revision. */
  function BestAt(rows: seq<Descriptor>, node: NodeId): (best: Option<nat>)
    ensures best.None? <==> forall j | 0 <= j < |rows| :: rows[j].node != node
    ensures best.Some? ==> best.value < |rows| && rows[best.value].node == node && FirstMaximum(rows, best.value)
    decreases |rows|
  {
    if rows == [] then None
    else
      var k := |rows| - 1;
      var before := BestAt(rows[..k], node);
      if rows[k].node == node && (before.None? || rows[k].revision > rows[before.value].revision) then Some(k) else before
  }

  function Best(rows: seq<Descriptor>, node: NodeId): Option<Descriptor> {
    match BestAt(rows, node)
    case None => None
    case Some(w) => Some(rows[w])
  }

  // ---- the page contest ----

  /** The positions below `n`, each once. */
  function Positions(n: nat): (m: multiset<nat>)
    ensures forall i: nat | i < n :: m[i] == 1
    ensures forall i: nat | n <= i :: m[i] == 0
  {
    if n == 0 then multiset{} else Positions(n - 1) + multiset{n - 1}
  }

  /** The nodes of the rows in first-seen order. */
  function FirstNodes(rows: seq<Descriptor>): (nodes: seq<NodeId>)
    decreases |rows|
  {
    if rows == [] then []
    else
      var before := FirstNodes(rows[..|rows| - 1]);
      if rows[|rows| - 1].node in before then before else before + [rows[|rows| - 1].node]
  }

  lemma FirstNodesOfOneMore(rows: seq<Descriptor>, d: Descriptor)
    ensures FirstNodes(rows + [d]) == if d.node in FirstNodes(rows) then FirstNodes(rows) else FirstNodes(rows) + [d.node]
  {
    assert (rows + [d])[..|rows|] == rows;
  }

  /** The winners stand in the first-seen order of their nodes. */
  ghost predicate InFirstSeenOrder(rows: seq<Descriptor>, winners: seq<nat>) {
    |winners| == |FirstNodes(rows)| &&
    forall j | 0 <= j < |winners| :: winners[j] < |rows| && rows[winners[j]].node == FirstNodes(rows)[j]
  }

  ghost predicate WinnersOf(rows: seq<Descriptor>, winners: seq<nat>) {
    && (forall w | w in winners :: w < |rows| && BestAt(rows, rows[w].node) == Some(w))
    && (forall node :: BestAt(rows, node).Some? ==> BestAt(rows, node).value in winners)
  }

  /** The contest's hash map finds each seen node's current winner. */
  ghost predicate Indexed(rows: seq<Descriptor>, winners: seq<nat>, index: map<NodeId, nat>) {
    && InFirstSeenOrder(rows, winners)
    && (forall node :: node in index <==> BestAt(rows, node).Some?)
    && (forall node | node in index :: index[node] < |winners| && winners[index[node]] == BestAt(rows, node).value)
    && (forall j | 0 <= j < |winners| :: winners[j] < |rows| && rows[winners[j]].node in index && index[rows[winners[j]].node] == j)
  }

  lemma IndexedWinners(rows: seq<Descriptor>, winners: seq<nat>, index: map<NodeId, nat>)
    requires Indexed(rows, winners, index)
    ensures WinnersOf(rows, winners) && InFirstSeenOrder(rows, winners)
  {
  }

  lemma BestOfOneMore(rows: seq<Descriptor>, d: Descriptor, node: NodeId)
    ensures BestAt(rows + [d], node) ==
            if d.node == node && (BestAt(rows, node).None? || d.revision > rows[BestAt(rows, node).value].revision)
            then Some(|rows|) else BestAt(rows, node)
  {
    assert (rows + [d])[..|rows|] == rows;
  }

  lemma NewNode(rows: seq<Descriptor>, winners: seq<nat>, index: map<NodeId, nat>, d: Descriptor)
    requires Indexed(rows, winners, index) && d.node !in index
    ensures Indexed(rows + [d], winners + [|rows|], index[d.node := |winners|])
  {
    hide BestAt, FirstNodes, FirstMaximum;
    FirstNodesOfOneMore(rows, d);
    SeenIsIndexed(rows, winners, index, d.node);
    forall node { BestOfOneMore(rows, d, node); }
  }

  lemma StaleRow(rows: seq<Descriptor>, winners: seq<nat>, index: map<NodeId, nat>, d: Descriptor)
    requires Indexed(rows, winners, index) && d.node in index && rows[winners[index[d.node]]].revision >= d.revision
    ensures Indexed(rows + [d], winners, index)
  {
    hide BestAt, FirstNodes, FirstMaximum;
    FirstNodesOfOneMore(rows, d);
    SeenIsIndexed(rows, winners, index, d.node);
    forall node { BestOfOneMore(rows, d, node); }
  }

  lemma SameNodesSameOrder(rows: seq<Descriptor>, winners: seq<nat>, more: seq<Descriptor>, next: seq<nat>)
    requires InFirstSeenOrder(rows, winners) && FirstNodes(more) == FirstNodes(rows) && |next| == |winners|
    requires forall j | 0 <= j < |next| :: next[j] < |more| && more[next[j]].node == rows[winners[j]].node
    ensures InFirstSeenOrder(more, next)
  {
    hide FirstNodes;
  }

  lemma GreaterRow(rows: seq<Descriptor>, winners: seq<nat>, index: map<NodeId, nat>, d: Descriptor)
    requires Indexed(rows, winners, index) && d.node in index && rows[winners[index[d.node]]].revision < d.revision
    ensures Indexed(rows + [d], winners[index[d.node] := |rows|], index)
  {
    hide BestAt, FirstNodes, FirstMaximum, InFirstSeenOrder;
    FirstNodesOfOneMore(rows, d);
    SeenIsIndexed(rows, winners, index, d.node);
    forall node { BestOfOneMore(rows, d, node); }
    var next := winners[index[d.node] := |rows|];
    assert forall j | 0 <= j < |next| :: next[j] < |rows| + 1 && (rows + [d])[next[j]].node == rows[winners[j]].node;
    SameNodesSameOrder(rows, winners, rows + [d], next);
  }

  /** Who loses when `d` arrives behind `rows`: itself when stale, the incumbent when displaced. */
  function Loser(rows: seq<Descriptor>, d: Descriptor): seq<nat> {
    match BestAt(rows, d.node)
    case None => []
    case Some(w) => [if rows[w].revision >= d.revision then |rows| else w]
  }

  /** The losers in decision order. */
  function Losers(rows: seq<Descriptor>): seq<nat>
    decreases |rows|
  {
    if rows == [] then [] else Losers(rows[..|rows| - 1]) + Loser(rows[..|rows| - 1], rows[|rows| - 1])
  }

  lemma LosersOfOneMore(rows: seq<Descriptor>, d: Descriptor)
    ensures Losers(rows + [d]) == Losers(rows) + Loser(rows, d)
  {
    hide Loser;
    assert (rows + [d])[..|rows|] == rows;
  }

  /**
   The contest: winners and losers partition the page; the winners are exactly the first positions
   of their nodes' greatest revisions, one for every node of the page, in first-seen order; the
   losers stand in the order they were decided.
   */
  method Contest(rows: seq<Descriptor>) returns (winners: seq<nat>, losers: seq<nat>)
    ensures multiset(winners) + multiset(losers) == Positions(|rows|)
    ensures WinnersOf(rows, winners) && InFirstSeenOrder(rows, winners) && losers == Losers(rows)
  {
    hide BestAt, Indexed, InFirstSeenOrder, WinnersOf, Positions, Losers;
    winners, losers := [], [];
    var index: map<NodeId, nat> := map[];
    NothingIndexed();
    for i := 0 to |rows|
      invariant Indexed(rows[..i], winners, index)
      invariant multiset(winners) + multiset(losers) == Positions(i)
      invariant losers == Losers(rows[..i])
    {
      var d := rows[i];
      assert rows[..i + 1] == rows[..i] + [d];
      OneMorePosition(i);
      LosersOfOneMore(rows[..i], d);
      IndexIsInRange(rows[..i], winners, index, d.node);
      if d.node !in index {
        NewNode(rows[..i], winners, index, d);
        index := index[d.node := |winners|];
        winners := winners + [i];
      } else if rows[winners[index[d.node]]].revision >= d.revision {
        StaleRow(rows[..i], winners, index, d);
        losers := losers + [i];
      } else {
        GreaterRow(rows[..i], winners, index, d);
        losers := losers + [winners[index[d.node]]];
        winners := winners[index[d.node] := i];
      }
    }
    assert rows[..|rows|] == rows;
    IndexedWinners(rows, winners, index);
  }

  lemma NothingIndexed()
    ensures Indexed([], [], map[]) && InFirstSeenOrder([], []) && Positions(0) == multiset{} && Losers([]) == []
  {
  }

  lemma OneMorePosition(n: nat)
    ensures Positions(n + 1) == Positions(n) + multiset{n}
  {
  }

  lemma SeenIsIndexed(rows: seq<Descriptor>, winners: seq<nat>, index: map<NodeId, nat>, node: NodeId)
    requires Indexed(rows, winners, index)
    ensures node in index <==> node in FirstNodes(rows)
  {
    hide BestAt, FirstNodes;
    if node in index {
      assert rows[winners[index[node]]].node == FirstNodes(rows)[index[node]];
    }
    if node in FirstNodes(rows) {
      var j :| 0 <= j < |FirstNodes(rows)| && FirstNodes(rows)[j] == node;
      assert rows[winners[j]].node in index;
    }
  }

  lemma IndexIsInRange(rows: seq<Descriptor>, winners: seq<nat>, index: map<NodeId, nat>, node: NodeId)
    requires Indexed(rows, winners, index)
    ensures node in index ==> index[node] < |winners| && winners[index[node]] < |rows|
    ensures BestAt(rows, node) == if node in index then Some(winners[index[node]]) else None
  {
  }

  // ---- what the winners amount to ----

  lemma {:induction false} FirstNodesAreTheNodes(rows: seq<Descriptor>)
    ensures NoRepeats(FirstNodes(rows)) && forall node :: node in FirstNodes(rows) <==> BestAt(rows, node).Some?
    decreases |rows|
  {
    if rows != [] {
      var before := rows[..|rows| - 1];
      FirstNodesAreTheNodes(before);
      assert rows == before + [rows[|rows| - 1]];
      forall node { BestOfOneMore(before, rows[|rows| - 1], node); }
      FirstNodesOfOneMore(before, rows[|rows| - 1]);
      hide FirstNodes, BestAt;
    }
  }

  /** The winning rows, in first-seen order. */
  function Winning(rows: seq<Descriptor>): (page: seq<Descriptor>)
    ensures |page| == |FirstNodes(rows)|
    ensures forall j | 0 <= j < |page| :: page[j].node == FirstNodes(rows)[j] && Best(rows, page[j].node) == Some(page[j])
  {
    FirstNodesAreTheNodes(rows);
    var nodes := FirstNodes(rows);
    assert forall j | 0 <= j < |nodes| :: nodes[j] in nodes;
    seq(|nodes|, j requires 0 <= j < |nodes| => rows[BestAt(rows, nodes[j]).value])
  }

  /** The contest's winner positions hold exactly the winning rows. */
  lemma WinnersAreWinning(rows: seq<Descriptor>, winners: seq<nat>)
    requires WinnersOf(rows, winners) && InFirstSeenOrder(rows, winners)
    ensures |winners| == |Winning(rows)| && forall j | 0 <= j < |winners| :: rows[winners[j]] == Winning(rows)[j]
  {
    hide BestAt, FirstNodes;
    assert forall j | 0 <= j < |winners| :: winners[j] in winners;
  }

  predicate DistinctNodes(page: seq<Descriptor>) {
    forall i, j | 0 <= i < j < |page| :: page[i].node != page[j].node
  }

  lemma WinningIsDistinct(rows: seq<Descriptor>)
    ensures DistinctNodes(Winning(rows))
    ensures forall node :: Best(Winning(rows), node) == Best(rows, node)
  {
    FirstNodesAreTheNodes(rows);
    var page := Winning(rows);
    hide FirstNodes, Winning;
    forall node ensures Best(page, node) == Best(rows, node) {
      var w := BestAt(page, node);
      if w.Some? {
        assert page[w.value].node == node;
      }
    }
  }

  /** A row offered to one register. */
  function Offer(o: Option<Descriptor>, adopted: bool, row: Option<Descriptor>): Option<Descriptor> {
    match row
    case None => o
    case Some(d) => Step(o, adopted, d)
  }

  /** On a page with one row per node, each register is offered that row. */
  lemma {:induction false} DistinctPageOffers(o: Option<Descriptor>, adopted: bool, page: seq<Descriptor>, node: NodeId)
    requires DistinctNodes(page)
    ensures Fold(o, adopted, page, node) == Offer(o, adopted, Best(page, node))
    decreases |page|
  {
    if page != [] {
      var before := page[..|page| - 1];
      DistinctPageOffers(o, adopted, before, node);
      BestOfOneMore(before, page[|page| - 1], node);
      assert page == before + [page[|page| - 1]];
    }
  }

  /** A stored or adopted register ends where offering it the best row alone would bring it. */
  lemma {:induction false} SequenceOffersBest(o: Option<Descriptor>, adopted: bool, rows: seq<Descriptor>, node: NodeId)
    requires o.Some? || adopted
    ensures Fold(o, adopted, rows, node) == Offer(o, adopted, Best(rows, node))
    decreases |rows|
  {
    if rows != [] {
      var before := rows[..|rows| - 1];
      SequenceOffersBest(o, adopted, before, node);
      BestOfOneMore(before, rows[|rows| - 1], node);
      assert rows == before + [rows[|rows| - 1]];
    }
  }

  predicate HasFirst(rows: seq<Descriptor>, node: NodeId) {
    exists d | d in rows :: d.node == node && d.revision == 1
  }

  predicate HasHigher(rows: seq<Descriptor>, node: NodeId) {
    exists d | d in rows :: d.node == node && d.revision > 1
  }

  /** A register that is neither stored nor adopted starts at revision 1 or stays empty. */
  lemma {:induction false} FreshRegister(rows: seq<Descriptor>, node: NodeId)
    ensures Fold(None, false, rows, node).Some? <==> HasFirst(rows, node)
    ensures HasFirst(rows, node) && !HasHigher(rows, node) ==> Fold(None, false, rows, node) == Best(rows, node)
    ensures Best(rows, node).Some? && Best(rows, node).value.revision > 1 <==> HasHigher(rows, node)
    ensures HasFirst(rows, node) ==> Best(rows, node).Some? && Best(rows, node).value.revision >= 1
    ensures Best(rows, node).Some? && Best(rows, node).value.revision == 1 ==> HasFirst(rows, node)
    decreases |rows|
  {
    hide BestAt, HasFirst, HasHigher;
    if rows == [] {
      NothingFirst(node);
    } else {
      var before := rows[..|rows| - 1];
      var last := rows[|rows| - 1];
      FreshRegister(before, node);
      BestOfOneMore(before, last, node);
      FirstAndHigherOfOneMore(before, last, node);
      assert rows == before + [last];
    }
  }

  lemma NothingFirst(node: NodeId)
    ensures !HasFirst([], node) && !HasHigher([], node) && Best([], node).None?
  {
  }

  lemma FirstAndHigherOfOneMore(rows: seq<Descriptor>, d: Descriptor, node: NodeId)
    ensures HasFirst(rows + [d], node) <==> HasFirst(rows, node) || (d.node == node && d.revision == 1)
    ensures HasHigher(rows + [d], node) <==> HasHigher(rows, node) || (d.node == node && d.revision > 1)
  {
    assert forall c :: c in rows + [d] <==> c in rows || c == d;
  }

  lemma FreshRegisterAgrees(rows: seq<Descriptor>, node: NodeId)
    ensures Fold(None, false, rows, node) == Offer(None, false, Best(rows, node)) <==>
            !(HasFirst(rows, node) && HasHigher(rows, node))
  {
    FreshRegister(rows, node);
    hide Fold, HasFirst, HasHigher, BestAt;
  }

  lemma SameRegisters(a: Registers, b: Registers)
    requires forall node :: Lookup(a, node) == Lookup(b, node)
    ensures a == b
  {
    assert forall node :: node in a <==> Lookup(a, node).Some?;
    assert forall node :: node in b <==> Lookup(b, node).Some?;
    forall node | node in a ensures node in b && a[node] == b[node] {
      assert Lookup(a, node) == Lookup(b, node);
    }
  }

  /** The only registers where the contest and one-at-a-time install can differ. */
  ghost predicate ContestAgrees(registers: Registers, adopted: set<NodeId>, rows: seq<Descriptor>) {
    forall node | node !in registers && node !in adopted :: !(HasFirst(rows, node) && HasHigher(rows, node))
  }

  /**
   Contest-then-install equals one-at-a-time install exactly when no node that is neither stored
   nor adopted has both a first revision and a higher one on the page.
   */
  lemma ContestEqualsSequence(registers: Registers, adopted: set<NodeId>, rows: seq<Descriptor>)
    ensures InstallAll(registers, adopted, Winning(rows)) == InstallAll(registers, adopted, rows) <==>
            ContestAgrees(registers, adopted, rows)
  {
    hide InstallAll, Fold, Winning, Best, HasFirst, HasHigher;
    WinningIsDistinct(rows);
    var a := InstallAll(registers, adopted, Winning(rows));
    var b := InstallAll(registers, adopted, rows);
    forall node
      ensures Lookup(a, node) == Lookup(b, node) <==>
              (node in registers || node in adopted || !(HasFirst(rows, node) && HasHigher(rows, node)))
    {
      RegistersAreIndependent(registers, adopted, Winning(rows), node);
      RegistersAreIndependent(registers, adopted, rows, node);
      DistinctPageOffers(Lookup(registers, node), node in adopted, Winning(rows), node);
      if node in registers || node in adopted {
        SequenceOffersBest(Lookup(registers, node), node in adopted, rows, node);
      } else {
        FreshRegisterAgrees(rows, node);
      }
    }
    if ContestAgrees(registers, adopted, rows) {
      SameRegisters(a, b);
    }
  }

  // ---- convergence ----

  /** One content per node and revision. */
  ghost predicate OneContent(rows: seq<Descriptor>) {
    forall c, d | c in rows && d in rows && c.node == d.node && c.revision == d.revision :: c == d
  }

  lemma SeenThereToo(a: seq<Descriptor>, b: seq<Descriptor>, node: NodeId)
    requires forall d | d in a :: d in b
    ensures BestAt(a, node).Some? ==> BestAt(b, node).Some? && Best(b, node).value.revision >= Best(a, node).value.revision
  {
    var x, y := BestAt(a, node), BestAt(b, node);
    hide BestAt;
    if x.Some? {
      assert a[x.value] in b;
      var j :| 0 <= j < |b| && b[j] == a[x.value];
    }
  }

  lemma SameRowsSameBest(a: seq<Descriptor>, b: seq<Descriptor>, node: NodeId)
    requires OneContent(a) && forall d :: d in a <==> d in b
    ensures Best(a, node) == Best(b, node)
  {
    hide BestAt, FirstMaximum;
    SeenThereToo(a, b, node);
    SeenThereToo(b, a, node);
    if BestAt(a, node).Some? {
      assert Best(b, node).value in b;
    }
  }

  /** Order and repetition do not matter. */
  lemma Converges(registers: Registers, adopted: set<NodeId>, a: seq<Descriptor>, b: seq<Descriptor>)
    requires OneContent(a) && forall d :: d in a <==> d in b
    requires forall d | d in a :: d.node in adopted || d.node in registers
    ensures InstallAll(registers, adopted, a) == InstallAll(registers, adopted, b)
  {
    hide InstallAll, Fold;
    forall node ensures Lookup(InstallAll(registers, adopted, a), node) == Lookup(InstallAll(registers, adopted, b), node) {
      RegistersAreIndependent(registers, adopted, a, node);
      RegistersAreIndependent(registers, adopted, b, node);
      if node in registers || node in adopted {
        SequenceOffersBest(Lookup(registers, node), node in adopted, a, node);
        SequenceOffersBest(Lookup(registers, node), node in adopted, b, node);
        SameRowsSameBest(a, b, node);
      } else {
        UnmentionedStays(None, false, a, node);
        UnmentionedStays(None, false, b, node);
      }
    }
    SameRegisters(InstallAll(registers, adopted, a), InstallAll(registers, adopted, b));
  }

  lemma {:induction false} UnmentionedStays(o: Option<Descriptor>, adopted: bool, rows: seq<Descriptor>, node: NodeId)
    requires forall d | d in rows :: d.node != node
    ensures Fold(o, adopted, rows, node) == o
    decreases |rows|
  {
    if rows != [] {
      assert rows[|rows| - 1] in rows && forall d | d in rows[..|rows| - 1] :: d in rows;
      UnmentionedStays(o, adopted, rows[..|rows| - 1], node);
    }
  }

  function InstallPages(registers: Registers, adopted: set<NodeId>, pages: seq<seq<Descriptor>>): Registers
    decreases |pages|
  {
    if pages == [] then registers
    else InstallAll(InstallPages(registers, adopted, pages[..|pages| - 1]), adopted, Winning(pages[|pages| - 1]))
  }

  function Flatten(pages: seq<seq<Descriptor>>): seq<Descriptor>
    decreases |pages|
  {
    if pages == [] then [] else Flatten(pages[..|pages| - 1]) + pages[|pages| - 1]
  }

  lemma {:induction false} InstallConcat(registers: Registers, adopted: set<NodeId>, a: seq<Descriptor>, b: seq<Descriptor>)
    ensures InstallAll(registers, adopted, a + b) == InstallAll(InstallAll(registers, adopted, a), adopted, b)
    decreases |b|
  {
    if b == [] {
      assert a + b == a;
    } else {
      assert (a + b)[..|a + b| - 1] == a + b[..|b| - 1];
      InstallConcat(registers, adopted, a, b[..|b| - 1]);
    }
  }

  /** Batching does not matter: contested pages amount to the rows one at a time. */
  lemma {:induction false} PagesAreASequence(registers: Registers, adopted: set<NodeId>, pages: seq<seq<Descriptor>>)
    requires forall d | d in Flatten(pages) :: d.node in adopted
    ensures InstallPages(registers, adopted, pages) == InstallAll(registers, adopted, Flatten(pages))
    decreases |pages|
  {
    hide InstallAll, Winning;
    if pages != [] {
      var before, last := pages[..|pages| - 1], pages[|pages| - 1];
      assert Flatten(pages) == Flatten(before) + last;
      PagesAreASequence(registers, adopted, before);
      var mid := InstallPages(registers, adopted, before);
      ContestEqualsSequence(mid, adopted, last);
      assert forall d | d in last :: d in Flatten(pages);
      InstallConcat(registers, adopted, Flatten(before), last);
    } else {
      assert InstallAll(registers, adopted, []) == registers by { InstallNothing(registers, adopted); }
    }
  }

  lemma InstallNothing(registers: Registers, adopted: set<NodeId>)
    ensures InstallAll(registers, adopted, []) == registers
  {
  }

  /** Replicas fed the same descriptors in any order, batching and repetition end equal. */
  lemma ReplicasConverge(adopted: set<NodeId>, a: seq<seq<Descriptor>>, b: seq<seq<Descriptor>>)
    requires forall d | d in Flatten(a) :: d.node in adopted
    requires OneContent(Flatten(a)) && forall d :: d in Flatten(a) <==> d in Flatten(b)
    ensures InstallPages(map[], adopted, a) == InstallPages(map[], adopted, b)
  {
    hide Flatten, InstallPages, InstallAll, OneContent;
    PagesAreASequence(map[], adopted, a);
    PagesAreASequence(map[], adopted, b);
    Converges(map[], adopted, Flatten(a), Flatten(b));
  }

  /** A register changes only to a strictly greater revision and never becomes empty again. */
  lemma {:induction false} RevisionsIncrease(registers: Registers, adopted: set<NodeId>, rows: seq<Descriptor>, node: NodeId)
    requires node in registers
    ensures var after := InstallAll(registers, adopted, rows);
            node in after && (after[node] == registers[node] || after[node].revision > registers[node].revision)
    decreases |rows|
  {
    if rows != [] {
      RevisionsIncrease(registers, adopted, rows[..|rows| - 1], node);
    }
  }

  // ---- one page, one transaction ----

  datatype Key = RegisterKey(node: NodeId) | BindingKey(node: NodeId) | OtherKey(name: string)

  /** A register may hold bytes this binary cannot decode. */
  datatype Row = DescriptorRow(descriptor: Descriptor) | OpaqueRow(content: string)

  type Entries = map<Key, Row>

  /** A stored descriptor; an undecodable row reads as absent. */
  function Stored(e: Entries, node: NodeId): (stored: Option<Descriptor>)
    ensures stored.Some? ==> stored.value.node == node && RegisterKey(node) in e && e[RegisterKey(node)] == DescriptorRow(stored.value)
  {
    if RegisterKey(node) in e && e[RegisterKey(node)].DescriptorRow? && e[RegisterKey(node)].descriptor.node == node
    then Some(e[RegisterKey(node)].descriptor) else None
  }

  predicate IsAdopted(e: Entries, node: NodeId) {
    BindingKey(node) in e
  }

  predicate Refused(e: Entries, d: Descriptor) {
    Skips(Stored(e, d.node), d, IsAdopted(e, d.node))
  }

  /** The binding is probed only for a first install above revision 1; the verdict is the same. */
  lemma LazyProbe(e: Entries, d: Descriptor)
    ensures var existing := Stored(e, d.node);
            var probed := existing.None? && d.revision > 1 && IsAdopted(e, d.node);
            Skips(existing, d, probed) <==> Refused(e, d)
  {
  }

  function CurrentExpectation(e: Entries, k: Key): Expectation<Row> {
    if k in e then Exact(e[k]) else Absent
  }

  function InstallWrite(e: Entries, d: Descriptor): Operation<Key, Row> {
    Put(RegisterKey(d.node), CurrentExpectation(e, RegisterKey(d.node)), DescriptorRow(d))
  }

  /** The rows of a page the snapshot accepts, in page order. */
  function Accepted(e: Entries, page: seq<Descriptor>): seq<Descriptor>
    decreases |page|
  {
    if page == [] then []
    else
      var before := Accepted(e, page[..|page| - 1]);
      if Refused(e, page[|page| - 1]) then before else before + [page[|page| - 1]]
  }

  function RefusedRows(e: Entries, page: seq<Descriptor>): seq<Descriptor>
    decreases |page|
  {
    if page == [] then []
    else
      var before := RefusedRows(e, page[..|page| - 1]);
      if Refused(e, page[|page| - 1]) then before + [page[|page| - 1]] else before
  }

  function Nodes(rows: seq<Descriptor>): (nodes: seq<NodeId>)
    ensures |nodes| == |rows| && forall i | 0 <= i < |rows| :: nodes[i] == rows[i].node
  {
    seq(|rows|, i requires 0 <= i < |rows| => rows[i].node)
  }

  function PageWrites(e: Entries, rows: seq<Descriptor>): (writes: seq<Operation<Key, Row>>)
    ensures |writes| == |rows| && forall i | 0 <= i < |rows| :: writes[i] == InstallWrite(e, rows[i])
  {
    seq(|rows|, i requires 0 <= i < |rows| => InstallWrite(e, rows[i]))
  }

  lemma {:induction false} AcceptedRows(e: Entries, page: seq<Descriptor>)
    requires DistinctNodes(page)
    ensures DistinctNodes(Accepted(e, page)) && forall d :: d in Accepted(e, page) <==> d in page && !Refused(e, d)
    decreases |page|
  {
    if page != [] {
      var before := page[..|page| - 1];
      AcceptedRows(e, before);
      assert page == before + [page[|page| - 1]];
      forall d | d in before ensures d.node != page[|page| - 1].node {
        var i :| 0 <= i < |before| && before[i] == d;
      }
      assert forall d | d in Accepted(e, before) :: d in before;
    }
  }

  /** `f` is `e` with these rows in their registers. */
  ghost predicate RowsPut(e: Entries, f: Entries, rows: seq<Descriptor>) {
    && (forall d | d in rows :: RegisterKey(d.node) in f && f[RegisterKey(d.node)] == DescriptorRow(d))
    && (forall k: Key | !k.RegisterKey? || (forall d | d in rows :: d.node != k.node) ::
          (k in f <==> k in e) && (k in f ==> f[k] == e[k]))
  }

  lemma OneMoreRowPut(e: Entries, f: Entries, rows: seq<Descriptor>, d: Descriptor)
    requires RowsPut(e, f, rows) && forall c | c in rows :: c.node != d.node
    ensures RowsPut(e, f[RegisterKey(d.node) := DescriptorRow(d)], rows + [d])
  {
    var g := f[RegisterKey(d.node) := DescriptorRow(d)];
    assert forall c :: c in rows + [d] <==> c in rows || c == d;
    forall k: Key | !k.RegisterKey? || (forall c | c in rows + [d] :: c.node != k.node)
      ensures (k in g <==> k in e) && (k in g ==> g[k] == e[k])
    {
      assert k.RegisterKey? ==> k.node != d.node;
    }
  }

  lemma NothingPut(s: Store<Key, Row>, writes: seq<Operation<Key, Row>>)
    requires writes == []
    ensures RowsPut(s.entries, ApplyAll(s, writes).entries, [])
  {
  }

  lemma PutsItsRow(s: Store<Key, Row>, e: Entries, d: Descriptor)
    ensures Apply(s, InstallWrite(e, d)).entries == s.entries[RegisterKey(d.node) := DescriptorRow(d)]
  {
  }

  lemma LastIsNew(rows: seq<Descriptor>)
    requires rows != [] && DistinctNodes(rows)
    ensures DistinctNodes(rows[..|rows| - 1])
    ensures forall d | d in rows[..|rows| - 1] :: d.node != rows[|rows| - 1].node
  {
    var before := rows[..|rows| - 1];
    forall d | d in before ensures d.node != rows[|rows| - 1].node {
      var i :| 0 <= i < |before| && before[i] == d;
    }
  }

  lemma {:induction false} PuttingRows(s: Store<Key, Row>, e: Entries, rows: seq<Descriptor>)
    requires DistinctNodes(rows)
    ensures RowsPut(s.entries, ApplyAll(s, PageWrites(e, rows)).entries, rows)
    decreases |rows|
  {
    hide ApplyAll, RowsPut, InstallWrite;
    if rows == [] {
      NothingPut(s, PageWrites(e, rows));
    } else {
      var before, last := rows[..|rows| - 1], rows[|rows| - 1];
      PuttingRows(s, e, before);
      var mid := ApplyAll(s, PageWrites(e, before));
      assert PageWrites(e, rows) == PageWrites(e, before) + [InstallWrite(e, last)];
      ApplyConcat(s, PageWrites(e, before), [InstallWrite(e, last)]);
      ApplyOne(mid, InstallWrite(e, last));
      LastIsNew(rows);
      OneMoreRowPut(s.entries, mid.entries, before, last);
      PutsItsRow(mid, e, last);
      assert rows == before + [last];
    }
  }

  /** The page's effect: every register as after the rows one at a time, nothing else touched. */
  ghost predicate PageApplied(e: Entries, f: Entries, page: seq<Descriptor>) {
    && (forall node :: Stored(f, node) == Fold(Stored(e, node), IsAdopted(e, node), page, node))
    && (forall k: Key | !k.RegisterKey? :: (k in f <==> k in e) && (k in f ==> f[k] == e[k]))
  }

  lemma AcceptedRowsApplyThePage(s: Store<Key, Row>, page: seq<Descriptor>)
    requires DistinctNodes(page)
    ensures PageApplied(s.entries, ApplyAll(s, PageWrites(s.entries, Accepted(s.entries, page))).entries, page)
  {
    var e := s.entries;
    var rows := Accepted(e, page);
    AcceptedRows(e, page);
    PuttingRows(s, e, rows);
    var f := ApplyAll(s, PageWrites(e, rows)).entries;
    hide ApplyAll, PageWrites, Accepted, Fold, BestAt;
    forall node ensures Stored(f, node) == Fold(Stored(e, node), IsAdopted(e, node), page, node) {
      DistinctPageOffers(Stored(e, node), IsAdopted(e, node), page, node);
      var best := BestAt(page, node);
      if best.Some? {
        assert page[best.value] in page;
        OnlyRow(page, best.value, rows, e);
      } else {
        assert forall d | d in rows :: d in page && d.node != node;
      }
    }
  }

  lemma OnlyRow(page: seq<Descriptor>, w: nat, rows: seq<Descriptor>, e: Entries)
    requires DistinctNodes(page) && w < |page| && forall d :: d in rows <==> d in page && !Refused(e, d)
    ensures if Refused(e, page[w]) then forall d | d in rows :: d.node != page[w].node else page[w] in rows
  {
    forall d | d in page && d.node == page[w].node ensures d == page[w] {
      var i :| 0 <= i < |page| && page[i] == d;
    }
  }

  lemma PageConditions(s: Store<Key, Row>, rows: seq<Descriptor>)
    requires DistinctNodes(rows)
    ensures AllConditions(s, PageWrites(s.entries, rows)) && PairwiseDistinct(PageWrites(s.entries, rows))
  {
  }

  /** The page decided row by row against one snapshot. */
  method DecidePage(e: Entries, page: seq<Descriptor>)
    returns (operations: seq<Operation<Key, Row>>, applied: seq<NodeId>, skipped: seq<NodeId>)
    ensures operations == PageWrites(e, Accepted(e, page))
    ensures applied == Nodes(Accepted(e, page)) && skipped == Nodes(RefusedRows(e, page))
  {
    operations, applied, skipped := [], [], [];
    for i := 0 to |page|
      invariant operations == PageWrites(e, Accepted(e, page[..i]))
      invariant applied == Nodes(Accepted(e, page[..i])) && skipped == Nodes(RefusedRows(e, page[..i]))
    {
      var d := page[i];
      assert page[..i + 1][..i] == page[..i];
      var existing := Stored(e, d.node);
      var adopted := existing.None? && d.revision > 1 && IsAdopted(e, d.node);
      LazyProbe(e, d);
      if Skips(existing, d, adopted) {
        skipped := skipped + [d.node];
      } else {
        operations := operations + [InstallWrite(e, d)];
        applied := applied + [d.node];
      }
    }
    assert page[..|page|] == page;
  }

  /** The store after another writer's transaction, if one came between. */
  function Raced(s: Store<Key, Row>, rival: Option<Transaction<Key, Row>>): Store<Key, Row> {
    match rival
    case None => s
    case Some(t) => Commit(s, t).0
  }

  /** A page with something to install whose snapshot is overtaken before its commit. */
  predicate Loses(s: Store<Key, Row>, rival: Option<Transaction<Key, Row>>, page: seq<Descriptor>) {
    Accepted(s.entries, page) != [] && Raced(s, rival) != s
  }

  function Verdicts(e: Entries, page: seq<Descriptor>): (seq<NodeId>, seq<NodeId>) {
    (Nodes(Accepted(e, page)), Nodes(RefusedRows(e, page)))
  }

  /** One attempt: decided on its snapshot, committed after a rival may have; `None` is worth another. */
  method AttemptPage(s: Store<Key, Row>, script: seq<Fault>, page: seq<Descriptor>, rival: Option<Transaction<Key, Row>>)
    returns (s': Store<Key, Row>, rest: seq<Fault>, r: Result<Option<(seq<NodeId>, seq<NodeId>)>>)
    requires DistinctNodes(page)
    ensures s' == s || s' == Raced(s, rival) || PageApplied(s.entries, s'.entries, page)
    ensures r.Ok? && r.value.Some? ==> PageApplied(s.entries, s'.entries, page) && r.value.value == Verdicts(s.entries, page)
    ensures r == Ok(None) ==> s' == Raced(s, rival) && Accepted(s.entries, page) != []
    ensures script == [] ==> rest == [] && r.Ok? && (r.value.None? <==> Loses(s, rival, page))
    ensures Accepted(s.entries, page) != [] ==>
              && rest == Rest(script) && (r.Ok? <==> Head(script) == Pass || Head(script) == Drop)
              && (r == Ok(None) <==> Head(script) == Drop || (Head(script) == Pass && Raced(s, rival) != s))
    ensures Accepted(s.entries, page) == [] ==> s' == s && r.Ok? && r.value.Some?
  {
    hide PageApplied, DistinctNodes, Accepted, RefusedRows, AllConditions;
    AcceptedRowsApplyThePage(s, page);
    AcceptedRows(s.entries, page);
    PageConditions(s, Accepted(s.entries, page));
    rest := script;
    var operations, applied, skipped := DecidePage(s.entries, page);
    if operations == [] {
      assert ApplyAll(s, operations) == s;
      return s, rest, Ok(Some((applied, skipped)));
    }
    var id := FreshId(s.receipts.Keys + if rival.Some? then {rival.value.id} else {});
    var raced := Raced(s, rival);
    RivalKeepsIds(s, rival, id);
    var outcome;
    s', outcome := TryCommit(raced, rest, Transaction(id, s.revision, operations));
    rest := Rest(rest);
    if outcome.Err? {
      return s', rest, Err(outcome.error);
    }
    match outcome.value {
      case Committed(_) => return s', rest, Ok(Some((applied, skipped)));
      case Unknown(_, _) => return s', rest, Err(Error(CommitUnknown, "membership page"));
      case _ => return s', rest, Ok(None);
    }
  }

  lemma RivalKeepsIds(s: Store<Key, Row>, rival: Option<Transaction<Key, Row>>, id: TransactionId)
    requires id !in s.receipts && (rival.Some? ==> rival.value.id != id)
    ensures id !in Raced(s, rival).receipts
    ensures Raced(s, rival) == s || Raced(s, rival).revision == s.revision + 1
  {
    if rival.Some? {
      StorageRuns.ReceiptsAfter(s, rival.value.operations, id);
    }
  }

  /** How one attempt ends: the page is in, the attempt is worth another, or its answer is lost. */
  function AttemptEnd(s: Store<Key, Row>, fault: Fault, page: seq<Descriptor>, rival: Option<Transaction<Key, Row>>): Answer {
    if Accepted(s.entries, page) == [] then Yes
    else if fault == Drop || (fault == Pass && Raced(s, rival) != s) then No
    else if fault == Pass then Yes
    else NoAnswer
  }

  /** The page is applied: by the first attempt, or by the second when the first is refused. */
  predicate PageGoesIn(
    s: Store<Key, Row>, script: seq<Fault>, page: seq<Descriptor>,
    first: Option<Transaction<Key, Row>>, second: Option<Transaction<Key, Row>>)
  {
    match AttemptEnd(s, Head(script), page, first)
    case Yes => true
    case No => AttemptEnd(Raced(s, first), Head(Rest(script)), page, second) == Yes
    case NoAnswer => false
  }

  /**
   Applies one page as one transaction and says which nodes it installed and which it refused.
   The page lands on the store it was decided on (`base`) or not at all.  A commit that another
   writer overtakes is decided again once, on what that writer left; without faults the page fails
   exactly when both attempts are overtaken.
   */
  method ApplyPage(
    s: Store<Key, Row>, script: seq<Fault>, page: seq<Descriptor>,
    first: Option<Transaction<Key, Row>>, second: Option<Transaction<Key, Row>>)
    returns (s': Store<Key, Row>, r: Result<(seq<NodeId>, seq<NodeId>)>, ghost base: Store<Key, Row>)
    requires DistinctNodes(page)
    ensures base == s || base == Raced(s, first)
    ensures s' == s || s' == Raced(s, first) || s' == Raced(Raced(s, first), second) || PageApplied(base.entries, s'.entries, page)
    ensures r.Ok? ==> PageApplied(base.entries, s'.entries, page) && r.value == Verdicts(base.entries, page)
    ensures script == [] ==> (r.Err? <==> Loses(s, first, page) && Loses(Raced(s, first), second, page))
    ensures r.Ok? <==> PageGoesIn(s, script, page, first, second)
    ensures Accepted(s.entries, page) == [] ==> s' == s && r.Ok?
  {
    hide PageApplied, DistinctNodes, Accepted, Verdicts, Raced;
    s', base := s, s;
    var rest := script;
    for attempt := 0 to 2
      invariant base == s || base == Raced(s, first)
      invariant attempt == 0 ==> s' == s && rest == script
      invariant attempt >= 1 ==> AttemptEnd(s, Head(script), page, first) == No
      invariant attempt == 2 ==> AttemptEnd(Raced(s, first), Head(Rest(script)), page, second) == No
      invariant attempt == 1 ==> s' == Raced(s, first) && rest == Rest(script) && Accepted(s.entries, page) != []
      invariant attempt == 2 ==> s' == Raced(Raced(s, first), second) && Accepted(s.entries, page) != []
      invariant script == [] ==> rest == [] && (attempt >= 1 ==> Loses(s, first, page)) &&
                                 (attempt == 2 ==> Loses(Raced(s, first), second, page))
    {
      base := s';
      var outcome;
      s', rest, outcome := AttemptPage(s', rest, page, if attempt == 0 then first else second);
      if outcome.Err? {
        return s', Err(outcome.error), base;
      }
      if outcome.value.Some? {
        return s', Ok(outcome.value.value), base;
      }
    }
    return s', Err(Error(Conflict, "membership page")), base;
  }

  /** The answer to a page tells which registers it changed: the installed nodes, and the refused ones beside them. */
  lemma VerdictsTell(e: Entries, f: Entries, page: seq<Descriptor>, d: Descriptor)
    requires DistinctNodes(page) && PageApplied(e, f, page) && d in page
    ensures var (installed, refused) := Verdicts(e, page);
            && (d.node in installed <==> Stored(f, d.node) == Some(d) != Stored(e, d.node))
            && (d.node in refused <==> Stored(f, d.node) == Stored(e, d.node))
  {
    var i :| 0 <= i < |page| && page[i] == d;
    DistinctPageOffers(Stored(e, d.node), IsAdopted(e, d.node), page, d.node);
    InstalledNode(e, page, d);
    RefusedNode(e, page, d);
    hide Accepted, RefusedRows, Fold, BestAt;
    var best := BestAt(page, d.node);
    assert page[best.value] == d;
  }

  lemma InstalledNode(e: Entries, page: seq<Descriptor>, d: Descriptor)
    requires DistinctNodes(page) && d in page
    ensures d.node in Nodes(Accepted(e, page)) <==> !Refused(e, d)
  {
    hide Accepted;
    AcceptedRows(e, page);
    var rows := Accepted(e, page);
    if d.node in Nodes(rows) {
      var i :| 0 <= i < |rows| && Nodes(rows)[i] == d.node;
      assert rows[i] in rows && rows[i] in page;
      OneRowPerNode(page, rows[i], d);
    }
    if !Refused(e, d) {
      var i :| 0 <= i < |rows| && rows[i] == d;
      assert Nodes(rows)[i] == d.node;
    }
  }

  lemma RefusedNode(e: Entries, page: seq<Descriptor>, d: Descriptor)
    requires DistinctNodes(page) && d in page
    ensures d.node in Nodes(RefusedRows(e, page)) <==> Refused(e, d)
  {
    hide RefusedRows;
    RefusedAre(e, page);
    var rows := RefusedRows(e, page);
    if d.node in Nodes(rows) {
      var i :| 0 <= i < |rows| && Nodes(rows)[i] == d.node;
      assert rows[i] in rows && rows[i] in page;
      OneRowPerNode(page, rows[i], d);
    }
    if Refused(e, d) {
      var i :| 0 <= i < |rows| && rows[i] == d;
      assert Nodes(rows)[i] == d.node;
    }
  }

  lemma {:induction false} RefusedAre(e: Entries, page: seq<Descriptor>)
    ensures forall d :: d in RefusedRows(e, page) <==> d in page && Refused(e, d)
    decreases |page|
  {
    if page != [] {
      var before := page[..|page| - 1];
      RefusedAre(e, before);
      assert page == before + [page[|page| - 1]];
    }
  }

  lemma OneRowPerNode(page: seq<Descriptor>, c: Descriptor, d: Descriptor)
    requires DistinctNodes(page) && c in page && d in page && c.node == d.node
    ensures c == d
  {
    var i :| 0 <= i < |page| && page[i] == c;
    var j :| 0 <= j < |page| && page[j] == d;
  }

  function RegistersOf(e: Entries): Registers {
    map k | k in e && k.RegisterKey? && Stored(e, k.node).Some? :: k.node := Stored(e, k.node).value
  }

  function AdoptedIn(e: Entries): set<NodeId> {
    set k | k in e && k.BindingKey? :: k.node
  }

  lemma RegistersAreStored(e: Entries, node: NodeId)
    ensures Lookup(RegistersOf(e), node) == Stored(e, node)
    ensures node in AdoptedIn(e) <==> IsAdopted(e, node)
  {
    if Stored(e, node).Some? {
      assert RegisterKey(node) in e;
    }
    if BindingKey(node) in e {
      assert BindingKey(node).node == node;
    }
  }

  /** One applied page is its rows installed one at a time. */
  lemma AppliedPageIsASequence(e: Entries, f: Entries, page: seq<Descriptor>)
    requires PageApplied(e, f, page)
    ensures RegistersOf(f) == InstallAll(RegistersOf(e), AdoptedIn(e), page)
  {
    hide InstallAll, Fold, RegistersOf, AdoptedIn;
    forall node ensures Lookup(RegistersOf(f), node) == Lookup(InstallAll(RegistersOf(e), AdoptedIn(e), page), node) {
      RegistersAreStored(e, node);
      RegistersAreStored(f, node);
      RegistersAreIndependent(RegistersOf(e), AdoptedIn(e), page, node);
    }
    SameRegisters(RegistersOf(f), InstallAll(RegistersOf(e), AdoptedIn(e), page));
  }

  // ---- replicas ----

  /** One delivery of wire rows to a replica, with the faults and the other writers it meets. */
  datatype Delivery = Delivery(
    rows: seq<Descriptor>, script: seq<Fault>, first: Option<Transaction<Key, Row>>, second: Option<Transaction<Key, Row>>)

  /** The operation writes no register and no binding. */
  predicate WritesElsewhere(operation: Operation<Key, Row>) {
    match operation
    case Put(k, _, _) => k.OtherKey?
    case Delete(k, _) => k.OtherKey?
    case _ => true
  }

  predicate Elsewhere(rival: Option<Transaction<Key, Row>>) {
    rival.Some? ==> forall operation | operation in rival.value.operations :: WritesElsewhere(operation)
  }

  lemma {:induction false} ElsewhereIsApart(s: Store<Key, Row>, operations: seq<Operation<Key, Row>>, k: Key)
    requires !k.OtherKey? && forall operation | operation in operations :: WritesElsewhere(operation)
    ensures StorageRuns.SameEntry(s, ApplyAll(s, operations), k)
    decreases |operations|
  {
    if operations != [] {
      assert operations[0] in operations && forall operation | operation in operations[1..] :: operation in operations;
      ElsewhereIsApart(Apply(s, operations[0]), operations[1..], k);
    }
  }

  lemma RivalsLeaveRegisters(s: Store<Key, Row>, rival: Option<Transaction<Key, Row>>)
    requires Elsewhere(rival)
    ensures RegistersOf(Raced(s, rival).entries) == RegistersOf(s.entries)
    ensures AdoptedIn(Raced(s, rival).entries) == AdoptedIn(s.entries)
  {
    hide RegistersOf, AdoptedIn;
    var e, f := s.entries, Raced(s, rival).entries;
    forall node
      ensures Lookup(RegistersOf(f), node) == Lookup(RegistersOf(e), node)
      ensures node in AdoptedIn(f) <==> node in AdoptedIn(e)
    {
      if rival.Some? {
        ElsewhereIsApart(s, rival.value.operations, RegisterKey(node));
        ElsewhereIsApart(s, rival.value.operations, BindingKey(node));
      }
      RegistersAreStored(e, node);
      RegistersAreStored(f, node);
    }
    SameRegisters(RegistersOf(f), RegistersOf(e));
  }

  /** Every delivery's other writers write elsewhere. */
  ghost predicate Unrelated(deliveries: seq<Delivery>) {
    forall delivery | delivery in deliveries :: Elsewhere(delivery.first) && Elsewhere(delivery.second)
  }

  /** Both attempts at a page are overtaken. */
  predicate Overtaken(s: Store<Key, Row>, delivery: Delivery) {
    var page := Winning(delivery.rows);
    Loses(s, delivery.first, page) && Loses(Raced(s, delivery.first), delivery.second, page)
  }

  /** The page built from the contest's winner positions. */
  method PageOf(rows: seq<Descriptor>, winners: seq<nat>) returns (page: seq<Descriptor>)
    requires WinnersOf(rows, winners) && InFirstSeenOrder(rows, winners)
    ensures page == Winning(rows)
  {
    hide BestAt, FirstNodes, Winning, WinnersOf;
    WinnersAreWinning(rows, winners);
    page := [];
    for j := 0 to |winners|
      invariant page == Winning(rows)[..j]
    {
      page := page + [rows[winners[j]]];
    }
  }

  /**
   Wire rows go through the contest, and its winners are applied as one page.  Without faults they
   are acknowledged unless both attempts at the page are overtaken.
   */
  method ReceiveRows(s: Store<Key, Row>, delivery: Delivery) returns (s': Store<Key, Row>, acknowledged: bool)
    requires Elsewhere(delivery.first) && Elsewhere(delivery.second)
    ensures AdoptedIn(s'.entries) == AdoptedIn(s.entries)
    ensures || RegistersOf(s'.entries) == RegistersOf(s.entries)
            || RegistersOf(s'.entries) == InstallAll(RegistersOf(s.entries), AdoptedIn(s.entries), Winning(delivery.rows))
    ensures acknowledged ==>
              RegistersOf(s'.entries) == InstallAll(RegistersOf(s.entries), AdoptedIn(s.entries), Winning(delivery.rows))
    ensures delivery.script == [] ==> (acknowledged <==> !Overtaken(s, delivery))
    ensures acknowledged <==> PageGoesIn(s, delivery.script, Winning(delivery.rows), delivery.first, delivery.second)
  {
    hide InstallAll, Winning, PageApplied, RegistersOf, AdoptedIn, WinnersOf, InFirstSeenOrder, Loses, Raced, Elsewhere, PageGoesIn;
    var rows := delivery.rows;
    var winners, losers := Contest(rows);
    var page := PageOf(rows, winners);
    WinningIsDistinct(rows);
    var r;
    ghost var base;
    s', r, base := ApplyPage(s, delivery.script, page, delivery.first, delivery.second);
    acknowledged := r.Ok?;
    RivalsLeaveRegisters(s, delivery.first);
    RivalsLeaveRegisters(Raced(s, delivery.first), delivery.second);
    if PageApplied(base.entries, s'.entries, page) {
      AppliedPageIsASequence(base.entries, s'.entries, page);
      PagesAdoptNothing(base.entries, s'.entries, page);
    }
  }

  lemma PagesAdoptNothing(e: Entries, f: Entries, page: seq<Descriptor>)
    requires PageApplied(e, f, page)
    ensures AdoptedIn(f) == AdoptedIn(e)
  {
    forall node ensures node in AdoptedIn(e) <==> node in AdoptedIn(f) {
      RegistersAreStored(e, node);
      RegistersAreStored(f, node);
      assert BindingKey(node) in e <==> BindingKey(node) in f;
    }
  }

  lemma NothingInstalled(registers: Registers, adopted: set<NodeId>)
    ensures InstallPages(registers, adopted, []) == registers
  {
  }

  lemma OneMoreLanded(registers: Registers, adopted: set<NodeId>, landed: seq<seq<Descriptor>>, rows: seq<Descriptor>)
    ensures InstallPages(registers, adopted, landed + [rows]) ==
            InstallAll(InstallPages(registers, adopted, landed), adopted, Winning(rows))
  {
    hide InstallAll, Winning;
    assert (landed + [rows])[..|landed|] == landed;
  }

  /**
   Any deliveries with any faults and other writers elsewhere: the registers are those of the rows
   that landed, installed as contested pages; what was acknowledged landed, and only delivered
   rows did.
   */
  method Feed(s: Store<Key, Row>, deliveries: seq<Delivery>)
    returns (s': Store<Key, Row>, acknowledged: seq<bool>, ghost landed: seq<seq<Descriptor>>)
    requires Unrelated(deliveries)
    ensures |acknowledged| == |deliveries| && AdoptedIn(s'.entries) == AdoptedIn(s.entries)
    ensures RegistersOf(s'.entries) == InstallPages(RegistersOf(s.entries), AdoptedIn(s.entries), landed)
    ensures forall i | 0 <= i < |deliveries| && acknowledged[i] :: deliveries[i].rows in landed
    ensures forall page | page in landed :: exists i | 0 <= i < |deliveries| :: deliveries[i].rows == page
  {
    hide InstallAll, InstallPages, Winning, RegistersOf, AdoptedIn, Elsewhere, Overtaken, PageGoesIn;
    NothingInstalled(RegistersOf(s.entries), AdoptedIn(s.entries));
    s', acknowledged, landed := s, [], [];
    for i := 0 to |deliveries|
      invariant |acknowledged| == i && AdoptedIn(s'.entries) == AdoptedIn(s.entries)
      invariant RegistersOf(s'.entries) == InstallPages(RegistersOf(s.entries), AdoptedIn(s.entries), landed)
      invariant forall j | 0 <= j < i && acknowledged[j] :: deliveries[j].rows in landed
      invariant forall page | page in landed :: exists j | 0 <= j < |deliveries| :: deliveries[j].rows == page
    {
      ghost var before := s';
      var taken;
      s', taken := ReceiveRows(s', deliveries[i]);
      if taken || RegistersOf(s'.entries) != RegistersOf(before.entries) {
        OneMoreLanded(RegistersOf(s.entries), AdoptedIn(s.entries), landed, deliveries[i].rows);
        landed := landed + [deliveries[i].rows];
      }
      acknowledged := acknowledged + [taken];
    }
  }

  lemma {:induction false} FlattenedRows(pages: seq<seq<Descriptor>>, d: Descriptor)
    ensures d in Flatten(pages) <==> exists page | page in pages :: d in page
    decreases |pages|
  {
    if pages != [] {
      var before, last := pages[..|pages| - 1], pages[|pages| - 1];
      FlattenedRows(before, d);
      assert pages == before + [last];
      assert forall page :: page in pages <==> page in before || page == last;
    }
  }

  ghost predicate Delivered(deliveries: seq<Delivery>, d: Descriptor) {
    exists i | 0 <= i < |deliveries| :: d in deliveries[i].rows
  }

  /** Every delivered row arrived in some acknowledged delivery. */
  ghost predicate AllAcknowledged(deliveries: seq<Delivery>, acknowledged: seq<bool>) {
    && |acknowledged| == |deliveries|
    && forall d | Delivered(deliveries, d) :: exists i | 0 <= i < |deliveries| :: acknowledged[i] && d in deliveries[i].rows
  }

  lemma LandedIsDelivered(deliveries: seq<Delivery>, acknowledged: seq<bool>, landed: seq<seq<Descriptor>>, d: Descriptor)
    requires AllAcknowledged(deliveries, acknowledged)
    requires forall i | 0 <= i < |deliveries| && acknowledged[i] :: deliveries[i].rows in landed
    requires forall page | page in landed :: exists i | 0 <= i < |deliveries| :: deliveries[i].rows == page
    ensures d in Flatten(landed) <==> Delivered(deliveries, d)
  {
    hide Flatten;
    FlattenedRows(landed, d);
  }

  /** Which nodes are adopted does not matter as long as the delivered ones are. */
  lemma AdoptedSetsAgree(registers: Registers, a: set<NodeId>, b: set<NodeId>, rows: seq<Descriptor>)
    requires forall d | d in rows :: d.node in a && d.node in b
    ensures InstallAll(registers, a, rows) == InstallAll(registers, b, rows)
    decreases |rows|
  {
    if rows != [] {
      assert rows[|rows| - 1] in rows && forall d | d in rows[..|rows| - 1] :: d in rows;
      AdoptedSetsAgree(registers, a, b, rows[..|rows| - 1]);
    }
  }

  /**
   Two replicas with the same registers that are fed the same descriptors, each in its own order,
   batching and repetition, through its own faults and beside its own other writers, hold the same registers once every
   descriptor was acknowledged by both.
   */
  method FeedTwoReplicas(a: Store<Key, Row>, b: Store<Key, Row>, toA: seq<Delivery>, toB: seq<Delivery>)
    returns (a': Store<Key, Row>, b': Store<Key, Row>, ackA: seq<bool>, ackB: seq<bool>)
    requires RegistersOf(a.entries) == RegistersOf(b.entries)
    requires Unrelated(toA) && Unrelated(toB)
    requires forall d :: Delivered(toA, d) <==> Delivered(toB, d)
    requires forall d | Delivered(toA, d) :: d.node in AdoptedIn(a.entries) && d.node in AdoptedIn(b.entries)
    requires forall c, d | Delivered(toA, c) && Delivered(toA, d) && c.node == d.node && c.revision == d.revision :: c == d
    ensures AllAcknowledged(toA, ackA) && AllAcknowledged(toB, ackB) ==> RegistersOf(a'.entries) == RegistersOf(b'.entries)
  {
    hide InstallAll, InstallPages, Flatten, RegistersOf, AdoptedIn, Delivered, AllAcknowledged, Unrelated;
    ghost var landedA, landedB;
    a', ackA, landedA := Feed(a, toA);
    b', ackB, landedB := Feed(b, toB);
    if AllAcknowledged(toA, ackA) && AllAcknowledged(toB, ackB) {
      forall d ensures (d in Flatten(landedA) <==> Delivered(toA, d)) && (d in Flatten(landedB) <==> Delivered(toB, d)) {
        LandedIsDelivered(toA, ackA, landedA, d);
        LandedIsDelivered(toB, ackB, landedB, d);
      }
      var registers := RegistersOf(a.entries);
      PagesAreASequence(registers, AdoptedIn(a.entries), landedA);
      PagesAreASequence(registers, AdoptedIn(b.entries), landedB);
      AdoptedSetsAgree(registers, AdoptedIn(a.entries), AdoptedIn(b.entries), Flatten(landedB));
      Converges(registers, AdoptedIn(a.entries), Flatten(landedA), Flatten(landedB));
    }
  }
}
