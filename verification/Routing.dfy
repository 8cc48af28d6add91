/** The routing envelope: dispatch, the checked receive at each hop, and whole route runs. */
module Routing {
  import opened Ordering
  import opened Results
  import opened Storage

  type NodeId = string

  datatype HopState = HopState(current: NodeId, visited: seq<NodeId>, remainingHops: nat, path: seq<NodeId>)

  datatype RouteContext = RouteContext(source: NodeId, destination: NodeId, hop: HopState)

  datatype Progress = Arrive | Continue(nextHop: NodeId, context: RouteContext)

  /** What a holder plans when the path it received is used up. */
  type Planner = (NodeId, RouteContext) -> Result<seq<NodeId>>

  // ---- path checks ----

  predicate DuplicateFree(path: seq<NodeId>) {
    |Elements(path)| == |path|
  }

  /** The origin's dispatch is free and arrival is checked first, so a budget carries one entry more. */
  function PathEntryBound(maxHops: nat): nat {
    maxHops + 1
  }

  function ValidatePathShape(path: seq<NodeId>, maxEntries: nat, context: string): (r: Result<()>)
    ensures r.Ok? <==> path != [] && |path| <= maxEntries && NoRepeats(path)
  {
    DistinctCount(path);
    if path == [] then Err(InvalidInputError(context))
    else if |path| > maxEntries then Err(ExhaustedError(context))
    else if !DuplicateFree(path) then Err(InvalidInputError(context))
    else Ok(())
  }

  // ---- one hop ----

  function NewContext(source: NodeId, destination: NodeId, path: seq<NodeId>, maxHops: nat): RouteContext {
    RouteContext(source, destination, HopState(source, [], maxHops, path))
  }

  /** The previous holder joins the visited chain, `local` becomes the holder, the budget shrinks. */
  function Forward(c: RouteContext, local: NodeId, remaining: seq<NodeId>): RouteContext {
    c.(hop := HopState(local, c.hop.visited + [c.hop.current], if c.hop.remainingHops == 0 then 0 else c.hop.remainingHops - 1, remaining))
  }

  function Receive(c: RouteContext, local: NodeId, peer: NodeId, plan: Planner): Result<Progress> {
    if c.hop.current != peer then Err(Error(NotTrusted, "route holder"))
    else if c.destination == local then Ok(Arrive)
    else if c.hop.remainingHops == 0 then Err(ExhaustedError("route hops"))
    else
      var path :-
        if c.hop.path == [] then
          var planned :- plan(local, c);
          var _ :- ValidatePathShape(planned, PathEntryBound(c.hop.remainingHops), "route path");
          Ok(planned)
        else Ok(c.hop.path);
      if path == [] then Err(InvalidInputError("route path"))
      else Ok(Continue(path[0], Forward(c, local, path[1..])))
  }

  /** When a received envelope is refused, arrives or goes on, and why. */
  lemma ReceiveTable(c: RouteContext, local: NodeId, peer: NodeId, plan: Planner)
    ensures var r := Receive(c, local, peer, plan);
            var relays := peer == c.hop.current && local != c.destination;
            var planned := plan(local, c);
            && (r == Err(Error(NotTrusted, "route holder")) <== peer != c.hop.current)
            && (r == Ok(Arrive) <==> peer == c.hop.current && local == c.destination)
            && (relays && c.hop.remainingHops == 0 ==> r == Err(ExhaustedError("route hops")))
            && (relays && c.hop.remainingHops > 0 && c.hop.path != [] ==> r.Ok?)
            && (relays && c.hop.remainingHops > 0 && c.hop.path == [] ==>
                  && (planned.Err? ==> r == Err(planned.error))
                  && (r.Ok? <==> planned.Ok? && planned.value != [] && |planned.value| <= c.hop.remainingHops + 1 && NoRepeats(planned.value)))
  {
  }

  /** The envelope as the program holds it: dispatch and receive rewrite its hop state. */
  class Envelope {
    const source: NodeId
    const destination: NodeId
    var hop: HopState

    function Value(): RouteContext
      reads this
    {
      RouteContext(source, destination, hop)
    }

    /** The origin's send: the plan loses its head and no budget is used. */
    method Dispatch() returns (r: Result<NodeId>)
      modifies this
      ensures old(hop.path) == [] ==> r.Err? && hop == old(hop)
      ensures old(hop.path) != [] ==> r == Ok(old(hop.path)[0]) && hop == old(hop).(path := old(hop.path)[1..])
    {
      if hop.path == [] {
        return Err(InvalidInputError("route path"));
      }
      r := Ok(hop.path[0]);
      hop := hop.(path := hop.path[1..]);
    }

    /** The checked receive: `None` is arrival, otherwise the route goes on to the named hop. */
    method ReceiveAt(local: NodeId, peer: NodeId, plan: Planner) returns (r: Result<Option<NodeId>>)
      modifies this
      ensures match Receive(old(Value()), local, peer, plan)
              case Err(error) => r == Err(error) && hop == old(hop)
              case Ok(Arrive) => r == Ok(None) && hop == old(hop)
              case Ok(Continue(nextHop, context)) => r == Ok(Some(nextHop)) && Value() == context
      ensures peer != old(hop.current) ==> r == Err(Error(NotTrusted, "route holder")) && hop == old(hop)
      ensures r == Ok(None) <==> peer == old(hop.current) && destination == local
      ensures r.Ok? && r.value.Some? ==>
                && destination != local && old(hop.remainingHops) == hop.remainingHops + 1
                && hop.current == local && hop.visited == old(hop.visited) + [old(hop.current)]
                && (old(hop.path) != [] ==> [r.value.value] + hop.path == old(hop.path))
                && (old(hop.path) == [] ==> plan(local, old(Value())) == Ok([r.value.value] + hop.path))
    {
      if hop.current != peer {
        return Err(Error(NotTrusted, "route holder"));
      }
      if destination == local {
        return Ok(None);
      }
      if hop.remainingHops == 0 {
        return Err(ExhaustedError("route hops"));
      }
      var path := hop.path;
      if path == [] {
        path :- plan(local, Value());
        var _ :- ValidatePathShape(path, PathEntryBound(hop.remainingHops), "route path");
      }
      var nextHop := path[0];
      assert path == [path[0]] + path[1..];
      hop := HopState(local, hop.visited + [hop.current], hop.remainingHops - 1, path[1..]);
      return Ok(Some(nextHop));
    }
  }

  // ---- whole runs ----

  /** How a run ends: where, with which envelope, and which nodes relayed on the way. */
  datatype Outcome =
    | Delivered(at: NodeId, context: RouteContext, relays: seq<NodeId>)
    | Stopped(error: Error, at: NodeId, context: RouteContext, relays: seq<NodeId>)

  /** Packets travel over authenticated sessions: each receiver's peer is the last holder. */
  function Walk(c: RouteContext, local: NodeId, plan: Planner): Outcome
    decreases c.hop.remainingHops
  {
    match Receive(c, local, c.hop.current, plan)
    case Err(error) => Stopped(error, local, c, [])
    case Ok(Arrive) => Delivered(local, c, [])
    case Ok(Continue(nextHop, context)) =>
      match Walk(context, nextHop, plan)
      case Delivered(at, last, relays) => Delivered(at, last, [local] + relays)
      case Stopped(error, at, last, relays) => Stopped(error, at, last, [local] + relays)
  }

  /**
   Under any planners: the budget pays for every relay, the visited chain and the current holder
   are the full holder history, source and destination never change, a packet is delivered only
   at its destination, and no relay is the destination.
   */
  lemma {:induction false} RunsKeepTheirBooks(c: RouteContext, local: NodeId, plan: Planner)
    ensures var o := Walk(c, local, plan);
            && o.context.source == c.source && o.context.destination == c.destination
            && |o.context.hop.visited| + o.context.hop.remainingHops == |c.hop.visited| + c.hop.remainingHops
            && |o.relays| + o.context.hop.remainingHops == c.hop.remainingHops
            && o.context.hop.visited + [o.context.hop.current] == c.hop.visited + [c.hop.current] + o.relays
            && (o.Delivered? ==> o.at == c.destination)
            && c.destination !in o.relays
    decreases c.hop.remainingHops
  {
    var step := Receive(c, local, c.hop.current, plan);
    if step.Ok? && step.value.Continue? {
      var Continue(nextHop, context) := step.value;
      RunsKeepTheirBooks(context, nextHop, plan);
      var o := Walk(context, nextHop, plan);
      assert c.hop.visited + [c.hop.current] + ([local] + o.relays) == (c.hop.visited + [c.hop.current]) + [local] + o.relays;
    }
  }

  /** The origin plans a path and sends to its first hop. */
  function Send(source: NodeId, destination: NodeId, path: seq<NodeId>, maxHops: nat, plan: Planner): Outcome
    requires path != []
  {
    Walk(NewContext(source, destination, path[1..], maxHops), path[0], plan)
  }

  /** The rest of a duplicate-free path to the destination is followed as far as the budget carries. */
  lemma {:induction false} FollowsThePath(c: RouteContext, local: NodeId, plan: Planner)
    requires NoRepeats([local] + c.hop.path) && ([local] + c.hop.path)[|c.hop.path|] == c.destination
    ensures var o := Walk(c, local, plan);
            if |c.hop.path| <= c.hop.remainingHops
            then o.Delivered? && o.at == c.destination && o.relays == ([local] + c.hop.path)[..|c.hop.path|]
            else o.Stopped? && o.error == ExhaustedError("route hops") && o.relays == ([local] + c.hop.path)[..c.hop.remainingHops]
    decreases c.hop.remainingHops
  {
    hide Walk, Receive, NoRepeats;
    var path := c.hop.path;
    LastIsNotFirst(local, path);
    WalkUnfolds(c, local, plan);
    if path != [] && c.hop.remainingHops > 0 {
      assert [path[0]] + path[1..] == path;
      assert ([local] + path)[|path|] == path[|path| - 1];
      FollowsThePath(Forward(c, local, path[1..]), path[0], plan);
      assert ([local] + path)[..|path|] == [local] + path[..|path| - 1];
      if |path| > c.hop.remainingHops {
        assert ([local] + path)[..c.hop.remainingHops] == [local] + path[..c.hop.remainingHops - 1];
      }
    }
  }

  lemma LastIsNotFirst(local: NodeId, path: seq<NodeId>)
    requires NoRepeats([local] + path)
    ensures path != [] ==> path[|path| - 1] != local && NoRepeats(path)
  {
    var all := [local] + path;
    assert forall i | 0 <= i < |path| :: path[i] == all[i + 1];
    assert all[0] == local;
  }

  /** One step of a walk that needs no planning. */
  lemma WalkUnfolds(c: RouteContext, local: NodeId, plan: Planner)
    ensures var o := Walk(c, local, plan);
            if c.destination == local then o == Delivered(local, c, [])
            else if c.hop.remainingHops == 0 then o == Stopped(ExhaustedError("route hops"), local, c, [])
            else c.hop.path != [] ==>
              o == match Walk(Forward(c, local, c.hop.path[1..]), c.hop.path[0], plan)
                   case Delivered(at, last, relays) => Delivered(at, last, [local] + relays)
                   case Stopped(error, at, last, relays) => Stopped(error, at, last, [local] + relays)
  {
  }

  /**
   A duplicate-free path that ends at the destination is delivered with no planning, through all
   its nodes, exactly when it has at most one entry more than the budget; otherwise the walk stops
   after exactly the budget many relays.
   */
  lemma PathIsDeliveredExactly(source: NodeId, destination: NodeId, path: seq<NodeId>, maxHops: nat, plan: Planner)
    requires path != [] && NoRepeats(path) && path[|path| - 1] == destination
    ensures var o := Send(source, destination, path, maxHops, plan);
            && (o.Delivered? <==> |path| <= PathEntryBound(maxHops))
            && (o.Delivered? <==> ValidatePathShape(path, PathEntryBound(maxHops), "route path").Ok?)
            && (if o.Delivered? then o.relays == path[..|path| - 1]
                else o.error == ExhaustedError("route hops") && o.relays == path[..maxHops])
  {
    var c := NewContext(source, destination, path[1..], maxHops);
    assert [path[0]] + path[1..] == path;
    FollowsThePath(c, path[0], plan);
  }

  // ---- runs among strangers ----

  /** An envelope on the wire, and the node that put it there. */
  datatype Sent = Sent(sender: NodeId, context: RouteContext)

  datatype Origin = Origin(source: NodeId, destination: NodeId, maxHops: nat)

  datatype Arrival = Arrival(at: NodeId, peer: NodeId, context: RouteContext)

  /** What the nodes that follow the program have originated, sent on and been handed as their own. */
  datatype Mesh = Mesh(origins: set<Origin>, sent: set<Sent>, arrived: set<Arrival>)

  /** A node sends a packet of its own, or any envelope comes in at a node over somebody's session. */
  datatype Event =
    | Originates(source: NodeId, destination: NodeId, path: seq<NodeId>, maxHops: nat)
    | Comes(context: RouteContext, local: NodeId, peer: NodeId, plan: Planner)

  /**
   The session of a node that follows the program carries only what that node sent.  Everybody
   else may hand over any envelope, to any node, at any time.
   */
  ghost predicate Possible(nodes: set<NodeId>, m: Mesh, event: Event) {
    match event
    case Originates(source, _, path, _) => source in nodes && path != []
    case Comes(context, _, peer, _) => peer in nodes ==> Sent(peer, context) in m.sent
  }

  function Step(nodes: set<NodeId>, m: Mesh, event: Event): Mesh {
    match event
    case Originates(source, destination, path, maxHops) =>
      if path == [] then m
      else m.(origins := m.origins + {Origin(source, destination, maxHops)},
              sent := m.sent + {Sent(source, NewContext(source, destination, path[1..], maxHops))})
    case Comes(context, local, peer, plan) =>
      if local !in nodes then m
      else
        match Receive(context, local, peer, plan)
        case Err(_) => m
        case Ok(Arrive) => m.(arrived := m.arrived + {Arrival(local, peer, context)})
        case Ok(Continue(_, next)) => m.(sent := m.sent + {Sent(local, next)})
  }

  function Run(nodes: set<NodeId>, events: seq<Event>): Mesh
    decreases |events|
  {
    if events == [] then Mesh({}, {}, {}) else Step(nodes, Run(nodes, events[..|events| - 1]), events[|events| - 1])
  }

  ghost predicate IsRun(nodes: set<NodeId>, events: seq<Event>) {
    forall i | 0 <= i < |events| :: Possible(nodes, Run(nodes, events[..i]), events[i])
  }

  /** Every holder the envelope names follows the program. */
  ghost predicate HeldBy(nodes: set<NodeId>, c: RouteContext) {
    c.hop.current in nodes && forall node | node in c.hop.visited :: node in nodes
  }

  /** The first holder is the source, and it did originate this packet with the budget that is accounted for. */
  ghost predicate Originated(m: Mesh, c: RouteContext) {
    && (c.hop.visited + [c.hop.current])[0] == c.source
    && Origin(c.source, c.destination, |c.hop.visited| + c.hop.remainingHops) in m.origins
  }

  ghost predicate Genuine(nodes: set<NodeId>, m: Mesh) {
    && (forall s | s in m.sent :: s.sender in nodes && s.context.hop.current == s.sender && (HeldBy(nodes, s.context) ==> Originated(m, s.context)))
    && (forall a | a in m.arrived ::
          && a.at == a.context.destination && a.peer == a.context.hop.current
          && (HeldBy(nodes, a.context) ==> Originated(m, a.context)))
  }

  lemma StepKeepsGenuine(nodes: set<NodeId>, m: Mesh, event: Event)
    requires Genuine(nodes, m) && Possible(nodes, m, event)
    ensures Genuine(nodes, Step(nodes, m, event))
  {
    var n := Step(nodes, m, event);
    if event.Comes? && event.local in nodes {
      var c := event.context;
      ReceiveTable(c, event.local, event.peer, event.plan);
      var r := Receive(c, event.local, event.peer, event.plan);
      if r.Ok? && r.value.Continue? {
        RelayIsOriginated(nodes, m, c, event.local, r.value.context);
      }
    }
  }

  /** A relay among nodes that follow the program hands on a packet that was originated as it says. */
  lemma RelayIsOriginated(nodes: set<NodeId>, m: Mesh, c: RouteContext, local: NodeId, next: RouteContext)
    requires c.hop.remainingHops > 0 && next == Forward(c, local, next.hop.path)
    requires HeldBy(nodes, c) ==> Originated(m, c)
    ensures HeldBy(nodes, next) ==> HeldBy(nodes, c) && Originated(m, next)
  {
    assert c.hop.current in next.hop.visited;
    assert forall node | node in c.hop.visited :: node in next.hop.visited;
    assert (next.hop.visited + [next.hop.current])[0] == (c.hop.visited + [c.hop.current])[0];
  }

  /**
   Whatever strangers hand over: a packet arrives only at its destination and only from the holder
   it names, and a packet that names only holders which follow the program was originated by its
   source, for this destination and with the budget its hops account for.
   */
  lemma {:induction false} StrangersCannotForge(nodes: set<NodeId>, events: seq<Event>)
    requires IsRun(nodes, events)
    ensures Genuine(nodes, Run(nodes, events))
    decreases |events|
  {
    hide Genuine, Possible, Step;
    if events == [] {
      NothingIsGenuine(nodes);
    } else {
      var before := events[..|events| - 1];
      assert forall i | 0 <= i < |before| :: before[..i] == events[..i] && before[i] == events[i];
      StrangersCannotForge(nodes, before);
      StepKeepsGenuine(nodes, Run(nodes, before), events[|events| - 1]);
    }
  }

  lemma NothingIsGenuine(nodes: set<NodeId>)
    ensures Genuine(nodes, Mesh({}, {}, {}))
  {
  }
}
