/** Network events and the blocks they wait for (network_event_queue.cc, block_fetch_manager.cc). */
module Network {
  import opened Blocks
  import opened CoreSpec

  /** A block in a message has a header, so it is never the genesis block. */
  type NetBlock = b: Block | b.Node? witness Node(Genesis, Genesis, Parsed(map[]), [])

  /** A validated message.  A vote names a block by hash; the other two carry one. */
  datatype NetEvent =
    | VoteNet(hash: Block, voter: ReplicaId)
    | ProposalNet(block: NetBlock, proposer: ReplicaId)
    | BlockReceiveNet(block: NetBlock, sender: ReplicaId)

  /** Whom to ask for what the event is missing. */
  function Source(e: NetEvent): ReplicaId {
    match e
    case VoteNet(_, v) => v
    case ProposalNet(_, p) => p
    case BlockReceiveNet(_, s) => s
  }

  function Target(e: NetEvent): Block {
    if e.VoteNet? then e.hash else e.block
  }

  /** `h` is `b` or is reached from it by parent and justify links. */
  predicate Reaches(b: Block, h: Block) {
    b == h || (b.Node? && (Reaches(b.parent, h) || Reaches(b.justify, h)))
  }

  lemma {:induction false} ReachesTransitive(a: Block, b: Block, h: Block)
    requires Reaches(a, b) && Reaches(b, h)
    ensures Reaches(a, h)
  {
    if a != b {
      if Reaches(a.parent, b) { ReachesTransitive(a.parent, b, h); } else { ReachesTransitive(a.justify, b, h); }
    }
  }

  /** What an event waits for: a vote for the block it names, a carried block for what it links to. */
  predicate Needs(e: NetEvent, h: Block) {
    if e.VoteNet? then Reaches(e.hash, h) else Reaches(e.block.parent, h) || Reaches(e.block.justify, h)
  }

  /** Who needs `b` needs the blocks `b` links to. */
  lemma NeedsFurther(e: NetEvent, b: Block, h: Block)
    requires Needs(e, b) && b.Node? && (h == b.parent || h == b.justify)
    ensures Needs(e, h)
  {
    assert Reaches(b, h);
    if e.VoteNet? {
      ReachesTransitive(e.hash, b, h);
    } else if Reaches(e.block.parent, b) {
      ReachesTransitive(e.block.parent, b, h);
    } else {
      ReachesTransitive(e.block.justify, b, h);
    }
  }

  predicate LinksIn(store: set<Block>, b: Block) {
    b.Node? ==> b.parent in store && b.justify in store
  }

  /** The store holds what its blocks link to. */
  predicate Closed(store: set<Block>) {
    forall b {:trigger LinksIn(store, b)} | b in store :: LinksIn(store, b)
  }

  lemma StaysClosed(store: set<Block>, b: Block)
    requires Closed(store) && LinksIn(store, b)
    ensures Closed(store + {b})
  {
    forall x | x in store + {b} ensures LinksIn(store + {b}, x) {
      assert LinksIn(store, x);
    }
  }

  lemma {:induction false} ReachedIsStored(store: set<Block>, b: Block, h: Block)
    requires Closed(store) && b in store && Reaches(b, h)
    ensures h in store
  {
    if b != h {
      assert LinksIn(store, b);
      if Reaches(b.parent, h) { ReachedIsStored(store, b.parent, h); } else { ReachedIsStored(store, b.justify, h); }
    }
  }

  /** The event can be handled at once. */
  predicate Ready(store: set<Block>, e: NetEvent) {
    if e.VoteNet? then e.hash in store else e.block.parent in store && e.block.justify in store
  }

  /** In a closed store, that is so exactly when nothing the event needs is missing. */
  lemma ReadyLacksNothing(store: set<Block>, e: NetEvent)
    requires Closed(store)
    ensures Ready(store, e) <==> forall h | Needs(e, h) :: h in store
  {
    if Ready(store, e) {
      forall h | Needs(e, h) ensures h in store {
        if e.VoteNet? {
          ReachedIsStored(store, e.hash, h);
        } else if Reaches(e.block.parent, h) {
          ReachedIsStored(store, e.block.parent, h);
        } else {
          ReachedIsStored(store, e.block.justify, h);
        }
      }
    } else if e.VoteNet? {
      assert Needs(e, e.hash);
    } else {
      assert Needs(e, e.block.parent) && Needs(e, e.block.justify);
    }
  }

  /** The block an event that is not ready waits under: the parent before the justify. */
  function FirstMissing(store: set<Block>, e: NetEvent): Block {
    if e.VoteNet? then e.hash else if e.block.parent !in store then e.block.parent else e.block.justify
  }

  // -------------------------------------------------------------------------------------------
  // Parked events

  type Requests = map<Block, seq<NetEvent>>

  ghost function Parked(m: Requests): multiset<NetEvent> {
    if m == map[] then multiset{}
    else
      var k :| k in m;
      multiset(m[k]) + Parked(m - {k})
  }

  lemma {:induction false} ParkedSplit(m: Requests, k: Block)
    requires k in m
    ensures Parked(m) == multiset(m[k]) + Parked(m - {k})
    decreases |m|
  {
    var j :| j in m && Parked(m) == multiset(m[j]) + Parked(m - {j});
    if j != k {
      var rest := m - {j} - {k};
      assert rest == m - {k} - {j};
      assert Parked(m - {j}) == multiset(m[k]) + Parked(rest) by { ParkedSplit(m - {j}, k); }
      assert Parked(m - {k}) == multiset(m[j]) + Parked(rest) by { ParkedSplit(m - {k}, j); }
    }
  }

  lemma ParkedAt(m: Requests, k: Block, es: seq<NetEvent>)
    ensures Parked(m[k := es]) == multiset(es) + Parked(m - {k})
  {
    var m' := m[k := es];
    ParkedSplit(m', k);
    assert m' - {k} == m - {k};
  }

  function WaitingFor(m: Requests, k: Block): seq<NetEvent> {
    if k in m then m[k] else []
  }

  lemma ParkedMore(m: Requests, k: Block, es: seq<NetEvent>)
    ensures Parked(m[k := WaitingFor(m, k) + es]) == Parked(m) + multiset(es)
  {
    ParkedAt(m, k, WaitingFor(m, k) + es);
    if k in m {
      ParkedSplit(m, k);
    } else {
      assert m - {k} == m;
    }
  }

  /** What is parked is parked under some hash. */
  lemma {:induction false} ParkedSomewhere(m: Requests, e: NetEvent)
    requires e in Parked(m)
    ensures exists k :: k in m && e in m[k]
    decreases |m|
  {
    var j :| j in m && Parked(m) == multiset(m[j]) + Parked(m - {j});
    if e in multiset(m[j]) {
      assert e in m[j];
    } else {
      ParkedSomewhere(m - {j}, e);
    }
  }

  function Carried(accepted: multiset<NetEvent>): set<Block> {
    set e | e in accepted && !e.VoteNet? :: e.block
  }

  // -------------------------------------------------------------------------------------------
  // The queue as a value

  datatype Net = Net(
    store: set<Block>,                     // hashes in the block store
    outstanding: Requests,                 // requested hash -> events waiting for it
    queue: seq<NetEvent>,
    finished: seq<NetEvent>,               // votes and proposals given to the core, fetched blocks stored
    fetches: seq<(Block, ReplicaId)>,      // requests handed to the fetch workers
    dropped: seq<NetEvent>,                // handed to a fetch request with an unknown target
    accepted: multiset<NetEvent>)          // every message ever queued

  /** Ask for `h` and park the events under it.  An unknown target drops them. */
  function Request(n: Net, replicas: set<ReplicaId>, h: Block, target: ReplicaId, es: seq<NetEvent>): Net {
    if target in replicas
    then n.(outstanding := n.outstanding[h := WaitingFor(n.outstanding, h) + es], fetches := n.fetches + [(h, target)])
    else n.(dropped := n.dropped + es)
  }

  /** Hand the events over under the first missing block, and ask for both. */
  function RequestMissing(n: Net, replicas: set<ReplicaId>, b: NetBlock, target: ReplicaId, es: seq<NetEvent>): Net {
    if b.parent in n.store then Request(n, replicas, b.justify, target, es)
    else
      var n1 := Request(n, replicas, b.parent, target, es);
      if b.justify in n.store then n1 else Request(n1, replicas, b.justify, target, [])
  }

  function Untie(n: Net, b: Block): Net {
    n.(outstanding := n.outstanding - {b})
  }

  /** Something is missing: the event, and all that waits for its block, wait for that instead. */
  function Delay(n: Net, replicas: set<ReplicaId>, e: NetEvent): Net {
    if e.VoteNet? then Request(n, replicas, e.hash, Source(e), [e])
    else RequestMissing(Untie(n, e.block), replicas, e.block, Source(e), WaitingFor(n.outstanding, e.block) + [e])
  }

  /** A block is stored, and what waited for it goes back on the queue. */
  function Complete(n: Net, b: Block): Net {
    Untie(n, b).(store := n.store + {b}, queue := n.queue + WaitingFor(n.outstanding, b))
  }

  /** The event is dealt with: a vote or a proposal goes to the core, a fetched block needs nothing more. */
  function Finish(n: Net, e: NetEvent): Net {
    n.(finished := n.finished + [e])
  }

  /** One event, taken off the queue. */
  function Handle(n: Net, replicas: set<ReplicaId>, e: NetEvent): Net {
    if !Ready(n.store, e) then Delay(n, replicas, e)
    else Finish(if e.VoteNet? then n else Complete(n, e.block), e)
  }

  // -------------------------------------------------------------------------------------------
  // The invariant

  /** Waiting for a block, or lost. */
  ghost function Held(n: Net): multiset<NetEvent> {
    Parked(n.outstanding) + multiset(n.dropped)
  }

  predicate WaitsFor(es: seq<NetEvent>, h: Block) {
    forall e {:trigger Needs(e, h)} | e in es :: Needs(e, h)
  }

  /** Nothing waits for a stored block, and what waits for a hash needs it. */
  predicate ParkedWell(m: Requests, store: set<Block>) {
    && m.Keys !! store
    && forall h {:trigger WaitsFor(m[h], h)} | h in m :: WaitsFor(m[h], h)
  }

  /** The block a finished event carries or names is stored. */
  predicate FinishedWell(finished: seq<NetEvent>, store: set<Block>) {
    forall e {:trigger Target(e)} | e in finished :: Target(e) in store
  }

  /** Some message came from an unknown source. */
  predicate FromStranger(es: multiset<NetEvent>, replicas: set<ReplicaId>) {
    exists f {:trigger Source(f)} | f in es :: Source(f) !in replicas
  }

  /** Everything but the count; without a message from a stranger nothing is lost. */
  predicate Orderly(replicas: set<ReplicaId>, n: Net) {
    && ParkedWell(n.outstanding, n.store)
    && Closed(n.store) && Genesis in n.store
    && FinishedWell(n.finished, n.store)
    && (n.dropped != [] ==> FromStranger(n.accepted, replicas))
  }

  /** Every accepted event is in exactly one place. */
  ghost predicate NetOk(replicas: set<ReplicaId>, n: Net) {
    Orderly(replicas, n) && n.accepted == multiset(n.queue) + Held(n) + multiset(n.finished)
  }

  /** `e` has been taken off the queue and is being handled. */
  ghost predicate InHand(replicas: set<ReplicaId>, n: Net, e: NetEvent) {
    && Orderly(replicas, n)
    && n.accepted == multiset(n.queue) + multiset{e} + Held(n) + multiset(n.finished)
    && e in n.accepted
  }

  lemma PopTakesInHand(replicas: set<ReplicaId>, n: Net)
    requires NetOk(replicas, n) && n.queue != []
    ensures InHand(replicas, n.(queue := n.queue[1..]), n.queue[0])
  {
    assert n.queue == [n.queue[0]] + n.queue[1..];
    assert n.queue[0] in multiset(n.queue);
  }

  lemma StrangerStays(es: multiset<NetEvent>, e: NetEvent, replicas: set<ReplicaId>)
    requires FromStranger(es, replicas)
    ensures FromStranger(es + multiset{e}, replicas)
  {
    var f :| f in es && Source(f) !in replicas;
    assert f in es + multiset{e};
  }

  lemma QueueKeeps(replicas: set<ReplicaId>, n: Net, e: NetEvent)
    requires NetOk(replicas, n)
    ensures NetOk(replicas, n.(queue := n.queue + [e], accepted := n.accepted + multiset{e}))
  {
    if n.dropped != [] {
      StrangerStays(n.accepted, e, replicas);
    }
  }

  lemma ParkKeeps(m: Requests, store: set<Block>, h: Block, es: seq<NetEvent>)
    requires ParkedWell(m, store) && h !in store && WaitsFor(es, h)
    ensures ParkedWell(m[h := WaitingFor(m, h) + es], store)
  {
    var m' := m[h := WaitingFor(m, h) + es];
    forall k | k in m' ensures WaitsFor(m'[k], k) {
      assert k in m ==> WaitsFor(m[k], k);
    }
  }

  lemma RequestKeeps(n: Net, replicas: set<ReplicaId>, h: Block, target: ReplicaId, es: seq<NetEvent>)
    requires ParkedWell(n.outstanding, n.store) && h !in n.store && WaitsFor(es, h)
    ensures ParkedWell(Request(n, replicas, h, target, es).outstanding, n.store)
    ensures Held(Request(n, replicas, h, target, es)) == Held(n) + multiset(es)
  {
    ParkKeeps(n.outstanding, n.store, h, es);
    ParkedMore(n.outstanding, h, es);
    assert multiset(n.dropped + es) == multiset(n.dropped) + multiset(es);
  }

  lemma RequestMissingKeeps(n: Net, replicas: set<ReplicaId>, b: NetBlock, target: ReplicaId, es: seq<NetEvent>)
    requires ParkedWell(n.outstanding, n.store) && !(b.parent in n.store && b.justify in n.store)
    requires WaitsFor(es, b.parent) && WaitsFor(es, b.justify)
    ensures ParkedWell(RequestMissing(n, replicas, b, target, es).outstanding, n.store)
    ensures Held(RequestMissing(n, replicas, b, target, es)) == Held(n) + multiset(es)
  {
    if b.parent in n.store {
      RequestKeeps(n, replicas, b.justify, target, es);
    } else {
      RequestKeeps(n, replicas, b.parent, target, es);
      if b.justify !in n.store {
        RequestKeeps(Request(n, replicas, b.parent, target, es), replicas, b.justify, target, []);
      }
    }
  }

  /** The events that waited for a block are taken off its request. */
  lemma UntieKeeps(n: Net, b: Block)
    requires ParkedWell(n.outstanding, n.store)
    ensures ParkedWell(Untie(n, b).outstanding, n.store + {b})
    ensures Held(Untie(n, b)) + multiset(WaitingFor(n.outstanding, b)) == Held(n)
    ensures WaitsFor(WaitingFor(n.outstanding, b), b)
  {
    var m := n.outstanding;
    if b in m {
      assert WaitsFor(m[b], b);
      ParkedSplit(m, b);
    } else {
      assert m - {b} == m;
    }
    forall k | k in m - {b} ensures WaitsFor((m - {b})[k], k) {
      assert WaitsFor(m[k], k);
    }
  }

  /** What waits for the block of `e`, and `e` itself, wait for the blocks it links to. */
  lemma WaitFurther(es: seq<NetEvent>, e: NetEvent)
    requires !e.VoteNet? && WaitsFor(es, e.block)
    ensures WaitsFor(es + [e], e.block.parent) && WaitsFor(es + [e], e.block.justify)
  {
    assert Needs(e, e.block.parent) && Needs(e, e.block.justify);
    forall x | x in es ensures Needs(x, e.block.parent) && Needs(x, e.block.justify) {
      assert Needs(x, e.block);
      NeedsFurther(x, e.block, e.block.parent);
      NeedsFurther(x, e.block, e.block.justify);
    }
  }

  /** The event in hand is held, and the events that waited for its block are held with it again. */
  lemma DelayHolds(n: Net, replicas: set<ReplicaId>, e: NetEvent)
    requires ParkedWell(n.outstanding, n.store) && !Ready(n.store, e)
    ensures ParkedWell(Delay(n, replicas, e).outstanding, n.store)
    ensures Held(Delay(n, replicas, e)) == Held(n) + multiset{e}
  {
    if e.VoteNet? {
      assert Needs(e, e.hash);
      RequestKeeps(n, replicas, e.hash, Source(e), [e]);
    } else {
      var es := WaitingFor(n.outstanding, e.block);
      UntieKeeps(n, e.block);
      WaitFurther(es, e);
      RequestMissingKeeps(Untie(n, e.block), replicas, e.block, Source(e), es + [e]);
      assert multiset(es + [e]) == multiset(es) + multiset{e};
    }
  }

  /** Only parking places, requests and losses change; there are no losses if the source is known. */
  lemma DelayFrame(n: Net, replicas: set<ReplicaId>, e: NetEvent)
    ensures var n' := Delay(n, replicas, e);
            && n' == n.(outstanding := n'.outstanding, fetches := n'.fetches, dropped := n'.dropped)
            && n'.dropped == if Source(e) in replicas then n.dropped else n.dropped + Moved(n.outstanding, e)
  {
    assert forall s: seq<NetEvent> :: s + [] == s;
  }

  lemma DelayKeeps(replicas: set<ReplicaId>, n: Net, e: NetEvent)
    requires InHand(replicas, n, e) && !Ready(n.store, e)
    ensures NetOk(replicas, Delay(n, replicas, e))
  {
    DelayHolds(n, replicas, e);
    DelayFrame(n, replicas, e);
  }

  lemma FinishKeeps(replicas: set<ReplicaId>, n: Net, e: NetEvent)
    requires InHand(replicas, n, e) && Target(e) in n.store
    ensures NetOk(replicas, Finish(n, e))
  {
    assert multiset(n.finished + [e]) == multiset(n.finished) + multiset{e};
  }

  /** While `e` is in hand, the events `es` go from held to queued. */
  lemma CountRequeued(q: seq<NetEvent>, e: NetEvent, held: multiset<NetEvent>, fin: seq<NetEvent>,
                      es: seq<NetEvent>, held1: multiset<NetEvent>)
    requires held1 + multiset(es) == held
    ensures multiset(q) + multiset{e} + held + multiset(fin) == multiset(q + es) + multiset{e} + held1 + multiset(fin)
  {
  }

  /** Storing a complete block keeps the store closed, and the event that carries it in hand. */
  lemma CompleteKeeps(replicas: set<ReplicaId>, n: Net, e: NetEvent, b: Block)
    requires InHand(replicas, n, e) && LinksIn(n.store, b)
    ensures InHand(replicas, Complete(n, b), e)
  {
    UntieKeeps(n, b);
    StaysClosed(n.store, b);
    CountRequeued(n.queue, e, Held(n), n.finished, WaitingFor(n.outstanding, b), Held(Untie(n, b)));
  }

  lemma HandleKeeps(replicas: set<ReplicaId>, n: Net, e: NetEvent)
    requires InHand(replicas, n, e)
    ensures NetOk(replicas, Handle(n, replicas, e))
  {
    if !Ready(n.store, e) {
      DelayKeeps(replicas, n, e);
    } else if e.VoteNet? {
      FinishKeeps(replicas, n, e);
    } else {
      CompleteKeeps(replicas, n, e, e.block);
      FinishKeeps(replicas, Complete(n, e.block), e);
    }
  }

  // -------------------------------------------------------------------------------------------
  // What becomes of an event

  /** The event, behind those that waited for the block it carries. */
  function Moved(outstanding: Requests, e: NetEvent): seq<NetEvent> {
    if e.VoteNet? then [e] else WaitingFor(outstanding, e.block) + [e]
  }

  /** Every block the event lacks is asked for at its source. */
  predicate AskedFor(store: set<Block>, e: NetEvent, fetches: seq<(Block, ReplicaId)>) {
    if e.VoteNet? then (e.hash, Source(e)) in fetches
    else && (e.block.parent !in store ==> (e.block.parent, Source(e)) in fetches)
         && (e.block.justify !in store ==> (e.block.justify, Source(e)) in fetches)
  }

  /** The event waits for the first block it lacks, behind what waited for that already. */
  predicate ParkedBehind(store: set<Block>, e: NetEvent, outstanding: Requests, outstanding': Requests) {
    var first := FirstMissing(store, e);
    WaitingFor(outstanding', first) == WaitingFor(outstanding, first) + Moved(outstanding, e)
  }

  /** An event that is ready is finished, the block it carries is stored and what waited for that block is
      queued.  One that is not changes neither store nor queue: what it lacks is requested from its source, and
      it waits with the events that waited for its own block.  A source that is no replica cannot be asked:
      then all of them are lost. */
  predicate Handled(n: Net, n': Net, replicas: set<ReplicaId>, e: NetEvent) {
    if Ready(n.store, e)
    then && n'.finished == n.finished + [e] && n'.dropped == n.dropped
         && n'.store == (if e.VoteNet? then n.store else n.store + {e.block})
         && n'.queue == (if e.VoteNet? then n.queue else n.queue + WaitingFor(n.outstanding, e.block))
    else && n'.store == n.store && n'.queue == n.queue && n'.finished == n.finished
         && if Source(e) in replicas
            then && n'.dropped == n.dropped && AskedFor(n.store, e, n'.fetches)
                 && ParkedBehind(n.store, e, n.outstanding, n'.outstanding)
            else n'.dropped == n.dropped + Moved(n.outstanding, e)
  }

  lemma HandledSo(n: Net, replicas: set<ReplicaId>, e: NetEvent)
    ensures Handled(n, Handle(n, replicas, e), replicas, e)
  {
    if !Ready(n.store, e) {
      DelayFrame(n, replicas, e);
      if Source(e) in replicas {
        DelayParks(n, replicas, e);
      }
    }
  }

  lemma DelayParks(n: Net, replicas: set<ReplicaId>, e: NetEvent)
    requires !Ready(n.store, e) && Source(e) in replicas
    ensures AskedFor(n.store, e, Delay(n, replicas, e).fetches)
    ensures ParkedBehind(n.store, e, n.outstanding, Delay(n, replicas, e).outstanding)
  {
    if !e.VoteNet? {
      var first, es := FirstMissing(n.store, e), WaitingFor(n.outstanding, e.block) + [e];
      var n0 := Untie(n, e.block);
      assert WaitingFor(n0.outstanding, first) == WaitingFor(n.outstanding, first);
      var n1 := Request(n0, replicas, first, Source(e), es);
      assert n1.fetches == n0.fetches + [(first, Source(e))];
      assert (first, Source(e)) in n1.fetches;
      assert n1.outstanding[first] + [] == n1.outstanding[first];
    }
  }

  /** A step has stored a carried block, or changed no store and made the queue shorter. */
  predicate Progressed(store: set<Block>, length: nat, n': Net) {
    || (n'.store == store && |n'.queue| < length)
    || exists b :: b in n'.store && b !in store && b in Carried(n'.accepted)
  }

  lemma HandleProgresses(replicas: set<ReplicaId>, n: Net, e: NetEvent)
    requires InHand(replicas, n, e)
    ensures n.store <= Handle(n, replicas, e).store
    ensures Handle(n, replicas, e).accepted == n.accepted
    ensures Progressed(n.store, |n.queue| + 1, Handle(n, replicas, e))
  {
    DelayFrame(n, replicas, e);
    if Ready(n.store, e) && !e.VoteNet? {
      assert e.block in Carried(n.accepted);
      if e.block in n.store {
        assert n.store + {e.block} == n.store;
      } else {
        assert e.block in Handle(n, replicas, e).store;
      }
    }
  }

  /** Once the queue is empty, an accepted event is finished if it is ready.  Otherwise it waits for a block
      that it needs and that is not stored.  The exception is an event lost with a block from an unknown
      source.  What is finished was ready, and its block is stored. */
  lemma NothingIsLost(replicas: set<ReplicaId>, n: Net, e: NetEvent)
    requires NetOk(replicas, n) && n.queue == [] && e in n.accepted
    ensures e in n.finished ==> Ready(n.store, e) && Target(e) in n.store
    ensures Ready(n.store, e) ==> e in n.finished || (e in n.dropped && FromStranger(n.accepted, replicas))
    ensures !Ready(n.store, e) ==>
              || (exists h :: h in n.outstanding && e in n.outstanding[h] && h !in n.store && Needs(e, h))
              || (e in n.dropped && FromStranger(n.accepted, replicas))
  {
    ReadyLacksNothing(n.store, e);
    assert e in n.finished ==> Target(e) in n.store && LinksIn(n.store, Target(e));
    if e !in n.finished && e !in n.dropped {
      assert e in Parked(n.outstanding);
      ParkedSomewhere(n.outstanding, e);
      var h :| h in n.outstanding && e in n.outstanding[h];
      assert WaitsFor(n.outstanding[h], h) && Needs(e, h);
    }
  }

  // -------------------------------------------------------------------------------------------

  class NetworkEventQueue {
    const replicas: set<ReplicaId>
    var store: set<Block>
    var outstanding: Requests
    var queue: seq<NetEvent>
    var finished: seq<NetEvent>
    var fetches: seq<(Block, ReplicaId)>
    ghost var dropped: seq<NetEvent>
    ghost var accepted: multiset<NetEvent>

    ghost function State(): Net
      reads this
    {
      Net(store, outstanding, queue, finished, fetches, dropped, accepted)
    }

    ghost predicate Valid()
      reads this
    {
      NetOk(replicas, State())
    }

    constructor (replicas: set<ReplicaId>)
      ensures Valid() && this.replicas == replicas
      ensures State() == Net({Genesis}, map[], [], [], [], [], multiset{})
    {
      this.replicas := replicas;
      store, outstanding, queue, finished, fetches := {Genesis}, map[], [], [], [];
      dropped, accepted := [], multiset{};
    }

    /** A validated message joins the queue. */
    method AddEvent(e: NetEvent)
      requires Valid()
      modifies this`queue, this`accepted
      ensures Valid()
      ensures queue == old(queue) + [e] && accepted == old(accepted) + multiset{e}
    {
      QueueKeeps(replicas, State(), e);
      queue := queue + [e];
      accepted := accepted + multiset{e};
    }

    /** A block minted here enters the store directly, if what it links to is there; nobody can have asked
        for its hash yet. */
    method InsertMinted(b: NetBlock)
      requires Valid() && b !in outstanding
      modifies this`store
      ensures Valid()
      ensures store == if b.parent in old(store) && b.justify in old(store) then old(store) + {b} else old(store)
    {
      if b.parent in store && b.justify in store {
        StaysClosed(store, b);
        store := store + {b};
      }
    }

    method AddFetchRequest(h: Block, target: ReplicaId, events: seq<NetEvent>)
      modifies this`outstanding, this`fetches, this`dropped
      ensures State() == Request(old(State()), replicas, h, target, events)
    {
      if target !in replicas {
        dropped := dropped + events;
        return;
      }
      outstanding := outstanding[h := (if h in outstanding then outstanding[h] else []) + events];
      fetches := fetches + [(h, target)];
    }

    /** The events that waited for this block; its request is closed. */
    method DeliverBlock(b: Block) returns (events: seq<NetEvent>)
      modifies this`outstanding
      ensures State() == Untie(old(State()), b) && events == WaitingFor(old(outstanding), b)
    {
      if b !in outstanding {
        assert outstanding - {b} == outstanding;
        return [];
      }
      events := outstanding[b];
      outstanding := outstanding - {b};
    }

    method OnVote(e: NetEvent)
      requires e.VoteNet?
      modifies this`outstanding, this`fetches, this`finished, this`dropped
      ensures State() == Handle(old(State()), replicas, e)
    {
      if e.hash in store {
        finished := finished + [e];
      } else {
        AddFetchRequest(e.hash, e.voter, [e]);
      }
    }

    /** The block is complete: a proposal is forwarded to the core. */
    method OnCompleteBlock(e: NetEvent)
      requires !e.VoteNet? && e.block.parent in store && e.block.justify in store
      modifies this`store, this`outstanding, this`queue, this`finished
      ensures State() == Handle(old(State()), replicas, e)
    {
      store := store + {e.block};
      var events := DeliverBlock(e.block);
      queue := queue + events;
      finished := finished + [e];
    }

    method OnIncompleteBlock(e: NetEvent)
      requires !e.VoteNet? && !(e.block.parent in store && e.block.justify in store)
      modifies this`outstanding, this`fetches, this`dropped
      ensures State() == Handle(old(State()), replicas, e)
    {
      var dep := DeliverBlock(e.block);
      dep := dep + [e];
      if e.block.parent !in store {
        AddFetchRequest(e.block.parent, Source(e), dep);
        dep := [];
      }
      if e.block.justify !in store {
        AddFetchRequest(e.block.justify, Source(e), dep);
      }
    }

    /** The three handlers. */
    method OnEvent(e: NetEvent)
      modifies this`store, this`outstanding, this`queue, this`fetches, this`finished, this`dropped
      ensures State() == Handle(old(State()), replicas, e)
    {
      if e.VoteNet? {
        OnVote(e);
      } else if e.block.parent in store && e.block.justify in store {
        OnCompleteBlock(e);
      } else {
        OnIncompleteBlock(e);
      }
    }

    /** Take the oldest event and handle it.  Either a carried block is stored for the first time, or the queue
        gets shorter. */
    method Step()
      requires Valid() && queue != []
      modifies this`store, this`outstanding, this`queue, this`fetches, this`finished, this`dropped
      ensures Valid()
      ensures Handled(old(State()).(queue := old(queue)[1..]), State(), replicas, old(queue)[0])
      ensures old(store) <= store && Progressed(old(store), |old(queue)|, State())
    {
      ghost var n := State();
      PopTakesInHand(replicas, n);
      var e := queue[0];
      queue := queue[1..];
      ghost var n1 := State();
      HandleKeeps(replicas, n1, e);
      HandledSo(n1, replicas, e);
      HandleProgresses(replicas, n1, e);
      OnEvent(e);
    }

    /** With no new arrivals the queue drains, although delivery puts events back on it. */
    method Drain()
      requires Valid()
      modifies this`store, this`outstanding, this`queue, this`fetches, this`finished, this`dropped
      ensures Valid() && queue == []
      ensures accepted == Parked(outstanding) + multiset(finished) + multiset(dropped)
    {
      while queue != []
        invariant Valid()
        decreases |Carried(accepted) - store|, |queue|
      {
        ghost var missing := Carried(accepted) - store;
        Step();
        Shrinks(missing, Carried(accepted) - store);
      }
    }
  }

  /** One message arrives at an empty queue and is handled. */
  method Feed(q: NetworkEventQueue, e: NetEvent)
    requires q.Valid() && q.queue == []
    modifies q
    ensures q.Valid() && Handled(old(q.State()), q.State(), q.replicas, e)
  {
    q.AddEvent(e);
    assert q.queue[1..] == [];
    q.Step();
  }

  /** A vote that waits for `b` is lost when a copy of `b` arrives incomplete from an unknown source. */
  lemma LostWithBlock(n0: Net, n1: Net, n2: Net, voter: ReplicaId, stranger: ReplicaId, b: NetBlock)
    requires stranger != voter && b !in n0.store && b.parent !in n0.store
    requires Handled(n0, n1, {voter}, VoteNet(b, voter))
    ensures n1.queue == n0.queue
    ensures Handled(n1, n2, {voter}, ProposalNet(b, stranger)) ==> VoteNet(b, voter) in n2.dropped
  {
    var vote, e := VoteNet(b, voter), ProposalNet(b, stranger);
    assert vote in WaitingFor(n1.outstanding, b);
    assert vote in Moved(n1.outstanding, e);
  }

  /** So a vote from a configured replica can be lost. */
  method VoteCanBeLost(voter: ReplicaId, stranger: ReplicaId, b: NetBlock) returns (q: NetworkEventQueue)
    requires stranger != voter && b.parent.Node?
    ensures fresh(q) && q.Valid() && q.replicas == {voter} && VoteNet(b, voter) in q.dropped
  {
    q := new NetworkEventQueue({voter});
    ghost var n0 := q.State();
    Feed(q, VoteNet(b, voter));
    ghost var n1 := q.State();
    LostWithBlock(n0, n1, n1, voter, stranger, b);
    Feed(q, ProposalNet(b, stranger));
    LostWithBlock(n0, n1, q.State(), voter, stranger, b);
  }

  lemma Shrinks(a: set<Block>, b: set<Block>)
    requires b <= a
    ensures |b| <= |a| && (b != a ==> |b| < |a|)
  {
    assert a == b + (a - b);
  }
}
