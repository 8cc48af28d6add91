/** The sync plane's fair rotation over its peers and the chunking of its payloads. */
module Sync {
  import opened Arithmetic
  import opened Ordering
  import opened Results
  import opened Storage

  type NodeId = string

  // ---- rotation ----

  /** The first position of a peer. */
  function Position(peers: seq<NodeId>, peer: NodeId): (position: Option<nat>)
    ensures position.Some? ==> position.value < |peers| && peers[position.value] == peer
    ensures position.None? <==> peer !in peers
  {
    if peers == [] then None
    else if peers[0] == peer then Some(0)
    else
      match Position(peers[1..], peer)
      case None => None
      case Some(i) => Some(i + 1)
  }

  function Wrapped(x: nat, n: nat): (r: nat)
    requires n > 0
    ensures r < n
  {
    x % n
  }

  /** Where the next window starts: behind the continuation point, or at the front. */
  function WindowStart(peers: seq<NodeId>, after: Option<NodeId>): (start: nat)
    requires peers != []
    ensures start < |peers|
  {
    match after
    case None => 0
    case Some(last) =>
      match Position(peers, last)
      case None => 0
      case Some(i) => Wrapped(i + 1, |peers|)
  }

  /** `take` peers from a position on, wrapping. */
  function Window(peers: seq<NodeId>, start: nat, take: nat): (window: seq<NodeId>)
    requires peers != []
    ensures |window| == take && forall i | 0 <= i < take :: window[i] == peers[Wrapped(start + i, |peers|)]
  {
    seq(take, offset requires 0 <= offset < take => peers[Wrapped(start + offset, |peers|)])
  }

  function Take(peers: seq<NodeId>, cap: nat): nat {
    if cap < |peers| then cap else |peers|
  }

  function RotationWindow(peers: seq<NodeId>, after: Option<NodeId>, cap: nat): (seq<NodeId>, Option<NodeId>) {
    if peers == [] || cap == 0 then ([], None)
    else
      var window := Window(peers, WindowStart(peers, after), Take(peers, cap));
      (window, Some(window[|window| - 1]))
  }

  // ---- the endless cycle of services ----

  function Following(peers: seq<NodeId>, at: nat): (next: nat)
    requires at < |peers|
    ensures next < |peers|
  {
    if at + 1 == |peers| then 0 else at + 1
  }

  /** `m` services in turn, beginning at a position of the cycle. */
  function Services(peers: seq<NodeId>, at: nat, m: nat): (s: seq<NodeId>)
    requires at < |peers|
    ensures |s| == m
    decreases m
  {
    if m == 0 then [] else [peers[at]] + Services(peers, Following(peers, at), m - 1)
  }

  function PositionAfter(peers: seq<NodeId>, at: nat, m: nat): (position: nat)
    requires at < |peers|
    ensures position < |peers|
    decreases m
  {
    if m == 0 then at else PositionAfter(peers, Following(peers, at), m - 1)
  }

  lemma {:induction false} ServicesConcat(peers: seq<NodeId>, at: nat, a: nat, b: nat)
    requires at < |peers|
    ensures Services(peers, at, a + b) == Services(peers, at, a) + Services(peers, PositionAfter(peers, at, a), b)
    ensures PositionAfter(peers, at, a + b) == PositionAfter(peers, PositionAfter(peers, at, a), b)
    decreases a
  {
    if a > 0 {
      ServicesConcat(peers, Following(peers, at), a - 1, b);
    }
  }

  lemma OneService(peers: seq<NodeId>, at: nat, m: nat)
    requires at < |peers| && m > 0
    ensures Services(peers, at, m) == [peers[at]] + Services(peers, Following(peers, at), m - 1)
    ensures PositionAfter(peers, at, m) == PositionAfter(peers, Following(peers, at), m - 1)
    ensures PositionAfter(peers, at, 0) == at
  {
  }

  /** One window is an arc of the cycle. */
  lemma {:induction false} ArcOfServices(peers: seq<NodeId>, at: nat, m: nat)
    requires at < |peers| && m <= |peers|
    ensures forall i | 0 <= i < m :: Services(peers, at, m)[i] == peers[Wrapped(at + i, |peers|)]
    ensures PositionAfter(peers, at, m) == Wrapped(at + m, |peers|)
    decreases m
  {
    hide Wrapped, Services, PositionAfter;
    OneService(peers, at, if m == 0 then 1 else m);
    if m == 0 {
      Wraps(at, |peers|);
    } else {
      var next := Following(peers, at);
      ArcOfServices(peers, next, m - 1);
      forall i | 0 <= i < m ensures Services(peers, at, m)[i] == peers[Wrapped(at + i, |peers|)] {
        if i == 0 {
          Wraps(at, |peers|);
        } else {
          Wraps(next + (i - 1), |peers|);
          Wraps(at + i, |peers|);
        }
      }
      Wraps(next + (m - 1), |peers|);
      Wraps(at + m, |peers|);
    }
  }

  lemma Wraps(x: nat, n: nat)
    requires n > 0 && x < n + n
    ensures Wrapped(x, n) == if x < n then x else x - n
  {
    if x < n { DivisionIsUnique(x, n, 0, x); } else { DivisionIsUnique(x, n, 1, x - n); }
  }

  lemma {:induction false} PositionIsExact(peers: seq<NodeId>, i: nat)
    requires NoRepeats(peers) && i < |peers|
    ensures Position(peers, peers[i]) == Some(i)
  {
    var position := Position(peers, peers[i]);
    assert peers[i] in peers;
  }

  lemma WindowServes(peers: seq<NodeId>, start: nat, take: nat)
    requires start < |peers| && take <= |peers|
    ensures Window(peers, start, take) == Services(peers, start, take)
  {
    hide Services, Wrapped;
    ArcOfServices(peers, start, take);
  }

  /** A window serves the next peers of the cycle and hands on where it stopped. */
  lemma WindowIsAnArc(peers: seq<NodeId>, after: Option<NodeId>, cap: nat)
    requires NoRepeats(peers) && peers != [] && cap > 0
    ensures var start := WindowStart(peers, after);
            && RotationWindow(peers, after, cap).0 == Services(peers, start, Take(peers, cap))
            && RotationWindow(peers, after, cap).1.Some?
            && WindowStart(peers, RotationWindow(peers, after, cap).1) == PositionAfter(peers, start, Take(peers, cap))
  {
    hide Services, PositionAfter, WindowStart, NoRepeats, Wrapped, Window;
    var start, take := WindowStart(peers, after), Take(peers, cap);
    WindowServes(peers, start, take);
    ArcOfServices(peers, start, take);
    StartsBehind(peers, start, take);
    assert Window(peers, start, take)[take - 1] == peers[Wrapped(start + (take - 1), |peers|)];
  }

  lemma StartsBehind(peers: seq<NodeId>, start: nat, take: nat)
    requires NoRepeats(peers) && start < |peers| && 0 < take <= |peers|
    ensures WindowStart(peers, Some(peers[Wrapped(start + (take - 1), |peers|)])) == Wrapped(start + take, |peers|)
  {
    var n := |peers|;
    Wraps(start + (take - 1), n);
    Wraps(start + take, n);
    var last := Wrapped(start + (take - 1), n);
    PositionIsExact(peers, last);
    Wraps(last + 1, n);
  }

  /** The services of `k` consecutive windows. */
  function Rounds(peers: seq<NodeId>, after: Option<NodeId>, cap: nat, k: nat): seq<NodeId>
    decreases k
  {
    if k == 0 then []
    else
      var (window, next) := RotationWindow(peers, after, cap);
      window + Rounds(peers, next, cap, k - 1)
  }

  /** Consecutive windows are consecutive arcs of one cycle. */
  lemma {:induction false} RoundsAreOneCycle(peers: seq<NodeId>, after: Option<NodeId>, cap: nat, k: nat)
    requires NoRepeats(peers) && peers != [] && cap > 0
    ensures Rounds(peers, after, cap, k) == Services(peers, WindowStart(peers, after), k * Take(peers, cap))
    decreases k
  {
    hide RotationWindow, WindowStart, Services, PositionAfter;
    var take := Take(peers, cap);
    var start := WindowStart(peers, after);
    if k == 0 {
      assert Services(peers, start, 0) == [];
    } else {
      WindowIsAnArc(peers, after, cap);
      var (window, next) := RotationWindow(peers, after, cap);
      RoundsAreOneCycle(peers, next, cap, k - 1);
      assert k * take == take + (k - 1) * take;
      ServicesConcat(peers, start, take, (k - 1) * take);
    }
  }

  /** Without a known continuation point the window is the front of the list. */
  lemma WindowFromTheFront(peers: seq<NodeId>, after: Option<NodeId>, cap: nat)
    requires after.None? || after.value !in peers
    ensures var (window, next) := RotationWindow(peers, after, cap);
            && window == peers[..Take(peers, cap)]
            && next == if window == [] then None else Some(window[|window| - 1])
  {
    if peers != [] && cap > 0 {
      var window := RotationWindow(peers, after, cap).0;
      forall i | 0 <= i < |window| ensures window[i] == peers[i] {
        Wraps(i, |peers|);
      }
    }
  }

  // ---- fairness ----

  lemma SliceHead<T>(s: seq<T>, i: nat, j: nat)
    requires i < j <= |s|
    ensures s[i..j] == [s[i]] + s[i + 1..j]
  {
  }

  lemma {:induction false} StraightServices(peers: seq<NodeId>, at: nat, m: nat)
    requires at < |peers| && at + m <= |peers|
    ensures Services(peers, at, m) == peers[at..at + m]
    ensures PositionAfter(peers, at, m) == if at + m == |peers| then 0 else at + m
    decreases m
  {
    if m > 1 {
      StraightServices(peers, at + 1, m - 1);
      SliceHead(peers, at, at + m);
    } else if m == 1 {
      assert Services(peers, Following(peers, at), 0) == [];
      assert PositionAfter(peers, Following(peers, at), 0) == Following(peers, at);
    }
  }

  /** Any full turn of the cycle serves each peer exactly once and ends where it began. */
  lemma FullTurn(peers: seq<NodeId>, at: nat)
    requires at < |peers|
    ensures multiset(Services(peers, at, |peers|)) == multiset(peers)
    ensures PositionAfter(peers, at, |peers|) == at
  {
    hide Services, PositionAfter;
    var n := |peers|;
    StraightServices(peers, at, n - at);
    ServicesConcat(peers, at, n - at, at);
    StraightServices(peers, 0, at);
    assert peers == peers[..at] + peers[at..];
    assert peers[at..at + (n - at)] == peers[at..] && peers[0..0 + at] == peers[..at];
    assert Services(peers, at, n) == peers[at..] + peers[..at];
  }

  /** After any number of services every peer has been served `turns` or one more time. */
  lemma {:induction false} ServedEvenly(peers: seq<NodeId>, at: nat, m: nat) returns (turns: nat)
    requires NoRepeats(peers) && at < |peers|
    ensures forall p | p in peers :: turns <= multiset(Services(peers, at, m))[p] <= turns + 1
    decreases m
  {
    hide Services, PositionAfter, NoRepeats;
    var n := |peers|;
    FullTurn(peers, at);
    if m < n {
      turns := 0;
      ServicesConcat(peers, at, m, n - m);
      var rest := Services(peers, PositionAfter(peers, at, m), n - m);
      forall p | p in peers ensures multiset(Services(peers, at, m))[p] <= 1 {
        OnceEach(peers, p);
        assert multiset(Services(peers, at, m) + rest)[p] == 1;
      }
    } else {
      var before := ServedEvenly(peers, at, m - n);
      turns := before + 1;
      ServicesConcat(peers, at, n, m - n);
      var rest := Services(peers, at, m - n);
      forall p | p in peers ensures turns <= multiset(Services(peers, at, m))[p] <= turns + 1 {
        OnceEach(peers, p);
        assert multiset(Services(peers, at, m))[p] == multiset(Services(peers, at, n))[p] + multiset(rest)[p];
      }
    }
  }

  lemma OnceEach(peers: seq<NodeId>, p: NodeId)
    requires NoRepeats(peers) && p in peers
    ensures multiset(peers)[p] == 1
  {
    NoRepeatsIsMultiplicity(peers);
    assert p in multiset(peers);
  }

  /** After any number of windows, two peers' service counts differ by at most one. */
  lemma RotationIsFair(peers: seq<NodeId>, after: Option<NodeId>, cap: nat, k: nat, p: NodeId, q: NodeId)
    requires NoRepeats(peers) && cap > 0 && p in peers && q in peers
    ensures var served := multiset(Rounds(peers, after, cap, k));
            served[p] <= served[q] + 1
  {
    hide Rounds, Services, WindowStart, NoRepeats;
    var take := Take(peers, cap);
    RoundsAreOneCycle(peers, after, cap, k);
    ScalesUp(k, 0, take + 1);
    var turns := ServedEvenly(peers, WindowStart(peers, after), k * take);
  }

  // ---- payload chunks ----

  const MAX_CHUNK_BYTES := 32 * 1024
  const MAX_SYNC_BYTES := 256 * 1024
  const MAX_SYNC_CHUNKS := 4096

  /** Consecutive chunks of the chunk bound, the last one possibly shorter. */
  function Chunks(payload: seq<Byte>): (chunks: seq<seq<Byte>>)
    ensures forall chunk | chunk in chunks :: 0 < |chunk| <= MAX_CHUNK_BYTES
    decreases |payload|
  {
    if payload == [] then []
    else if |payload| <= MAX_CHUNK_BYTES then [payload]
    else [payload[..MAX_CHUNK_BYTES]] + Chunks(payload[MAX_CHUNK_BYTES..])
  }

  function Joined(chunks: seq<seq<Byte>>): seq<Byte>
    decreases |chunks|
  {
    if chunks == [] then [] else Joined(chunks[..|chunks| - 1]) + chunks[|chunks| - 1]
  }

  /** The chunks of a stream that has not failed. */
  function Bodies(stream: seq<Result<seq<Byte>>>): (chunks: seq<seq<Byte>>)
    requires forall item | item in stream :: item.Ok?
    ensures |chunks| == |stream| && forall i | 0 <= i < |stream| :: stream[i] == Ok(chunks[i])
    decreases |stream|
  {
    if stream == [] then []
    else
      assert stream[|stream| - 1] in stream && forall item | item in stream[..|stream| - 1] :: item in stream;
      Bodies(stream[..|stream| - 1]) + [stream[|stream| - 1].value]
  }

  /** The first `k` items are chunks within both bounds. */
  predicate Fits(stream: seq<Result<seq<Byte>>>, k: nat)
    requires k <= |stream|
  {
    && (forall item | item in stream[..k] :: item.Ok?)
    && k <= MAX_SYNC_CHUNKS && |Joined(Bodies(stream[..k]))| <= MAX_SYNC_BYTES
  }

  /**
   Reads one bounded body.  It is the joined chunks exactly when the whole stream fits; otherwise
   the answer is the stream's own error or exhaustion, whichever is met first.
   */
  method DrainBody(stream: seq<Result<seq<Byte>>>, context: string) returns (r: Result<seq<Byte>>)
    ensures r.Ok? <==> Fits(stream, |stream|)
    ensures r.Ok? ==> stream[..|stream|] == stream && r.value == Joined(Bodies(stream))
    ensures r.Err? ==> exists k | 0 <= k < |stream| ::
              && Fits(stream, k) && !Fits(stream, k + 1)
              && r.error == if stream[k].Err? then stream[k].error else ExhaustedError(context)
  {
    var bytes: seq<Byte> := [];
    var chunks := 0;
    while chunks < |stream|
      invariant chunks <= |stream| && Fits(stream, chunks)
      invariant bytes == Joined(Bodies(stream[..chunks]))
    {
      hide Fits, Joined;
      FitsOneMore(stream, chunks);
      if stream[chunks].Err? {
        NeverFitsAgain(stream, chunks + 1, |stream|);
        return Err(stream[chunks].error);
      }
      var chunk := stream[chunks].value;
      if chunks + 1 > MAX_SYNC_CHUNKS || |bytes| + |chunk| > MAX_SYNC_BYTES {
        NeverFitsAgain(stream, chunks + 1, |stream|);
        return Err(ExhaustedError(context));
      }
      chunks := chunks + 1;
      bytes := bytes + chunk;
    }
    assert stream[..|stream|] == stream;
    return Ok(bytes);
  }

  lemma FitsOneMore(stream: seq<Result<seq<Byte>>>, k: nat)
    requires k < |stream| && Fits(stream, k)
    ensures Fits(stream, k + 1) <==>
              stream[k].Ok? && k + 1 <= MAX_SYNC_CHUNKS && |Joined(Bodies(stream[..k]))| + |stream[k].value| <= MAX_SYNC_BYTES
    ensures stream[k].Ok? ==>
              && (forall item | item in stream[..k + 1] :: item.Ok?)
              && Joined(Bodies(stream[..k + 1])) == Joined(Bodies(stream[..k])) + stream[k].value
  {
    assert stream[..k + 1] == stream[..k] + [stream[k]];
    assert stream[..k + 1][..k] == stream[..k];
    if stream[k].Ok? {
      JoinedUnfolds(Bodies(stream[..k + 1]));
      assert Bodies(stream[..k + 1]) == Bodies(stream[..k]) + [stream[k].value];
      assert Bodies(stream[..k + 1])[..k] == Bodies(stream[..k]);
    } else {
      assert stream[k] in stream[..k + 1];
    }
  }

  lemma NeverFitsAgain(stream: seq<Result<seq<Byte>>>, k: nat, m: nat)
    requires k <= m <= |stream| && !Fits(stream, k)
    ensures !Fits(stream, m)
  {
    if Fits(stream, m) {
      assert stream[..m][..k] == stream[..k];
      assert forall item | item in stream[..k] :: item in stream[..m];
      BodiesOfPrefix(stream[..m], k);
      JoinedGrows(Bodies(stream[..m]), k);
      assert false;
    }
  }

  lemma {:induction false} BodiesOfPrefix(stream: seq<Result<seq<Byte>>>, k: nat)
    requires k <= |stream| && forall item | item in stream :: item.Ok?
    ensures (forall item | item in stream[..k] :: item.Ok?) && Bodies(stream)[..k] == Bodies(stream[..k])
  {
    assert forall item | item in stream[..k] :: item in stream;
    forall i | 0 <= i < k ensures Bodies(stream)[i] == Bodies(stream[..k])[i] {
      assert stream[..k][i] == stream[i];
    }
  }

  lemma {:induction false} JoinedGrows(stream: seq<seq<Byte>>, k: nat)
    requires k <= |stream|
    ensures |Joined(stream[..k])| <= |Joined(stream)|
    decreases |stream| - k
  {
    if k == |stream| {
      assert stream[..k] == stream;
    } else {
      assert stream[..k + 1][..k] == stream[..k];
      JoinedGrows(stream, k + 1);
    }
  }

  lemma JoinedUnfolds(chunks: seq<seq<Byte>>)
    requires chunks != []
    ensures Joined(chunks) == Joined(chunks[..|chunks| - 1]) + chunks[|chunks| - 1]
  {
  }

  lemma JoinedFew(chunk: seq<Byte>)
    ensures Joined([]) == [] && Joined([chunk]) == chunk
  {
    assert [chunk][..0] == [];
  }

  lemma {:induction false} JoinedConcat(a: seq<seq<Byte>>, b: seq<seq<Byte>>)
    ensures Joined(a + b) == Joined(a) + Joined(b)
    decreases |b|
  {
    hide Joined;
    JoinedFew([]);
    if b == [] {
      assert a + b == a;
    } else {
      assert (a + b)[..|a + b| - 1] == a + b[..|b| - 1];
      JoinedConcat(a, b[..|b| - 1]);
      JoinedUnfolds(a + b);
      JoinedUnfolds(b);
    }
  }

  /** Chunks join to the payload. */
  lemma {:induction false} ChunksJoin(payload: seq<Byte>)
    ensures Joined(Chunks(payload)) == payload
    decreases |payload|
  {
    hide Joined;
    JoinedFew(payload);
    if |payload| > MAX_CHUNK_BYTES {
      var first, rest := payload[..MAX_CHUNK_BYTES], payload[MAX_CHUNK_BYTES..];
      ChunksJoin(rest);
      JoinedFew(first);
      JoinedConcat([first], Chunks(rest));
      assert payload == first + rest;
    }
  }

  /** Every chunk but the last is full. */
  lemma {:induction false} ChunkCount(payload: seq<Byte>)
    ensures (|Chunks(payload)| - 1) * MAX_CHUNK_BYTES <= |payload|
    decreases |payload|
  {
    if |payload| > MAX_CHUNK_BYTES {
      ChunkCount(payload[MAX_CHUNK_BYTES..]);
    }
  }

  /** The chunks as an undisturbed stream delivers them. */
  function Streamed(chunks: seq<seq<Byte>>): (stream: seq<Result<seq<Byte>>>)
    ensures |stream| == |chunks| && forall i | 0 <= i < |chunks| :: stream[i] == Ok(chunks[i])
  {
    seq(|chunks|, i requires 0 <= i < |chunks| => Ok(chunks[i]))
  }

  /** A chunked payload is reassembled exactly when it is within the receiver's byte bound. */
  lemma ChunkedPayloadArrivesExactly(payload: seq<Byte>)
    ensures var stream := Streamed(Chunks(payload));
            && (forall item | item in stream :: item.Ok?)
            && Joined(Bodies(stream)) == payload
            && (Fits(stream, |stream|) <==> |payload| <= MAX_SYNC_BYTES)
  {
    hide Chunks, Joined;
    var stream := Streamed(Chunks(payload));
    ChunksJoin(payload);
    ChunkCount(payload);
    assert Bodies(stream) == Chunks(payload);
    assert stream[..|stream|] == stream;
  }
}
