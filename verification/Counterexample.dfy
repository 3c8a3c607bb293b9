/** Why a received block has to justify one of its own ancestors, or a block with only genesis below.

  The code accepts any block whose parent and justify are stored and whose certificate verifies.  Four
  replicas, one of them faulty: replica 0 decides a1.  The faulty replica then publishes a branch x1..x3
  beside it and a block x4 on top of that branch which carries the certificate of a2.  Replicas 1 and 2
  vote for x4, because a2 is above their lock a1, and soon replica 1 decides x1.
*/
module Counterexample {
  import opened Blocks
  import opened Quorums
  import opened CoreSpec
  import opened Safety
  import opened ReplicaInvariant
  import opened Reload
  import opened Protocol
  import opened Paths
  import Recovery

  // -------------------------------------------------------------------------------------------
  // One replica that has decided nothing yet

  predicate Undecided(c: Core, vheight: nat, lock: Block) {
    && c.vheight == vheight && c.bLock == lock
    && c.bExec == Genesis && c.decided == {Genesis} && c.applied == []
  }

  /** Where the lock goes on `b`. */
  function LockAfter(lock: Block, b: Block): Block {
    if Height(GrandJustify(b)) > Height(lock) then GrandJustify(b) else lock
  }

  /** No three-chain ends below `b`. */
  predicate CommitsNothing(b: Block) {
    && b.Node?
    && (b.justify.Genesis? || b.justify.justify.Genesis? || b.justify.justify.justify.Genesis?
        || b.justify.parent != b.justify.justify || b.justify.justify.parent != b.justify.justify.justify)
  }

  predicate WouldVote(vheight: nat, lock: Block, b: Block) {
    && b.Node? && vheight < Height(b) < VHEIGHT_MODULUS
    && (Height(b.justify) > Height(lock) || lock.Genesis?)
  }

  lemma RaiseLockFrame(c: Core, blk1: Block)
    ensures var c' := RaiseLock(c, blk1);
            && c'.bLock == (if Height(blk1) > Height(c.bLock) then blk1 else c.bLock)
            && c' == c.(bLock := c'.bLock, written := c'.written, disk := c'.disk)
  {
    var c1 := if Height(blk1) > Height(c.bLock) then c.(bLock := blk1) else c;
    WriteToDiskFrame(c1, c1.bLock);
  }

  lemma LocksAndWaits(c: Core, vheight: nat, lock: Block, b: Block)
    requires Undecided(c, vheight, lock) && CommitsNothing(b)
    ensures Undecided(Update(c, b).0, vheight, LockAfter(lock, b)) && Update(c, b).0.store == c.store
  {
    if b.justify.Node? {
      RaiseLockFrame(UpdateHqc(c, JustifyQc(b)), b.justify.justify);
    }
  }

  lemma VotesAndWaits(c: Core, vheight: nat, lock: Block, b: Block)
    requires Undecided(c, vheight, lock) && WouldVote(vheight, lock, b) && CommitsNothing(b)
    ensures Opinion(c, b, true)
    ensures Undecided(OnReceiveProposal(c, b, true).0, Height(b), LockAfter(lock, b))
    ensures OnReceiveProposal(c, b, true).0.store == c.store
  {
    assert Opinion(c, b, true) by {
      GenesisIsBelow(b);
      WalkDecidesAncestry(b, Genesis);
    }
    LocksAndWaits(AfterVote(c, b, true), Height(b), lock, b);
  }

  /** A three-chain with direct parents, at the end of which a replica that has decided nothing decides. */
  predicate Completes(b: Block) {
    && b.Node? && b.justify.Node? && b.justify.justify.Node? && b.justify.justify.justify.Node?
    && b.justify.parent == b.justify.justify && b.justify.justify.parent == b.justify.justify.justify
  }

  lemma CommitsFromGenesis(c: Core, qc: Qc)
    requires c.bExec == Genesis && c.applied == []
    ensures Commit(c, qc).0.bExec == qc.block && Commit(c, qc).0.applied == CommandsAbove(c.bodies, qc.block, 0)
  {
    GenesisIsBelow(qc.block);
    WalkDecidesAncestry(qc.block, Genesis);
  }

  lemma Decides(c: Core, vheight: nat, lock: Block, b: Block)
    requires Undecided(c, vheight, lock) && Completes(b)
    ensures var c' := OnReceiveProposal(c, b, true).0; var blk := b.justify.justify.justify;
            c'.bExec == blk && c'.applied == CommandsAbove(c.bodies, blk, 0)
  {
    var blk2, blk1 := b.justify, b.justify.justify;
    var c2 := UpdateHqc(AfterVote(c, b, true), JustifyQc(b));
    assert c2.decided == {Genesis} && c2.bExec == Genesis && c2.applied == [] && c2.bodies == c.bodies;
    var c3 := RaiseLock(c2, blk1);
    RaiseLockFrame(c2, blk1);
    assert OnReceiveProposal(c, b, true) == TryCommit(c3, blk1, blk2) == Commit(c3, JustifyQc(blk1));
    CommitsFromGenesis(c3, JustifyQc(blk1));
  }

  // -------------------------------------------------------------------------------------------
  // Four replicas

  const FOUR := Params({0, 1, 2, 3}, {3})
  const SIGS: Signatures := map[1 := [], 2 := [], 3 := []]

  lemma FourIsWithinBounds()
    ensures ValidParams(FOUR) && Honest(FOUR) == {0, 1, 2}
  {
    assert |FOUR.replicas| == 4 && |FOUR.faulty| == 1;
  }

  ghost predicate Reached(s: System, exempt: Option<Block>) {
    && Leads(FOUR, Init(FOUR), s, exempt)
    && s.cores.Keys == {0, 1, 2} && s.ballots.Keys == {0, 1, 2} && s.reloaded == {}
  }

  /** Replicas 1 and 2 hold `store`, have voted for `voted`, and have decided nothing; replica 0 has seen
      nothing at all. */
  ghost predicate Twins(s: System, exempt: Option<Block>, vheight: nat, lock: Block,
                        store: set<Block>, voted: set<Block>)
  {
    && Reached(s, exempt)
    && s.cores[0] == InitCore()
    && TwinOk(s, 1, vheight, lock, store, voted)
    && TwinOk(s, 2, vheight, lock, store, voted)
  }

  predicate TwinOk(s: System, r: ReplicaId, vheight: nat, lock: Block, store: set<Block>, voted: set<Block>)
    requires r in s.cores && r in s.ballots
  {
    Undecided(s.cores[r], vheight, lock) && store <= s.cores[r].store && voted <= s.ballots[r].Keys
  }

  lemma TwinsCertify(s: System, b: Block, sigs: Signatures)
    requires s.ballots.Keys == {0, 1, 2}
    requires b.Genesis? || (b in s.ballots[1] && b in s.ballots[2] && sigs == SIGS)
    ensures QcVerifies(FOUR, s.ballots, Qc(b, sigs))
  {
    if b.Node? {
      assert (set r | r in sigs && Signed(FOUR, s.ballots, r, b)) == {1, 2, 3};
    }
  }

  /** A block the theorems let a replica receive, or the exempt one. */
  predicate MayReceive(b: Block, exempt: Option<Block>) {
    Height(b) < VHEIGHT_MODULUS && (SoundJustify(b) || exempt == Some(b))
  }

  /** Replica `r` is now in state `c`, and no other replica's state has changed. */
  predicate OnlyCore(s: System, s': System, r: ReplicaId, c: Core) {
    && s'.cores.Keys == s.cores.Keys && r in s'.cores && s'.cores[r] == c
    && forall i | i in s.cores && i != r :: s'.cores[i] == s.cores[i]
  }

  /** At most replica `r` has voted. */
  predicate OnlyVotes(bal: Ballots, bal': Ballots, r: ReplicaId) {
    && bal'.Keys == bal.Keys
    && (r in bal ==> bal[r].Keys <= bal'[r].Keys)
    && forall i | i in bal && i != r :: bal'[i] == bal[i]
  }

  lemma VoteCounts(bal: Ballots, r: ReplicaId, c: Core, b: Block)
    requires r in bal
    ensures var bal' := NewBallots(bal, r, c, b, true);
            OnlyVotes(bal, bal', r) && (Opinion(c, b, true) ==> b in bal'[r])
  {
  }

  lemma Receives(s: System, r: ReplicaId, b: Block, exempt: Option<Block>) returns (s': System)
    requires Reached(s, exempt) && r in s.cores && MayReceive(b, exempt)
    requires CanInsert(s.cores[r], b) && QcVerifies(FOUR, s.ballots, JustifyQc(b))
    ensures Reached(s', exempt) && s'.ballots == s.ballots
    ensures OnlyCore(s, s', r, Insert(s.cores[r], b))
  {
    s' := Apply(FOUR, s, Receive(r, b));
    LeadsFurther(FOUR, Init(FOUR), s, exempt, Receive(r, b));
  }

  /** Deliver a block to one replica: store it, then run the proposal handler. */
  lemma Feed(s: System, r: ReplicaId, b: Block, exempt: Option<Block>) returns (s': System)
    requires Reached(s, exempt) && r in s.cores && MayReceive(b, exempt)
    requires CanInsert(s.cores[r], b) && QcVerifies(FOUR, s.ballots, JustifyQc(b))
    ensures Reached(s', exempt)
    ensures OnlyCore(s, s', r, OnReceiveProposal(Insert(s.cores[r], b), b, true).0)
    ensures OnlyVotes(s.ballots, s'.ballots, r) && (Opinion(Insert(s.cores[r], b), b, true) ==> b in s'.ballots[r])
  {
    var s1 := Receives(s, r, b, exempt);
    s' := Delivers(s1, r, b, exempt);
  }

  lemma Delivers(s: System, r: ReplicaId, b: Block, exempt: Option<Block>) returns (s': System)
    requires Reached(s, exempt) && r in s.cores && b.Node? && b in s.cores[r].store
    ensures Reached(s', exempt)
    ensures OnlyCore(s, s', r, OnReceiveProposal(s.cores[r], b, true).0)
    ensures OnlyVotes(s.ballots, s'.ballots, r) && (Opinion(s.cores[r], b, true) ==> b in s'.ballots[r])
  {
    s' := Apply(FOUR, s, Deliver(r, b, true));
    VoteCounts(s.ballots, r, s.cores[r], b);
    LeadsFurther(FOUR, Init(FOUR), s, exempt, Deliver(r, b, true));
  }

  lemma FeedTwin(s: System, exempt: Option<Block>, r: ReplicaId, vheight: nat, lock: Block,
                 store: set<Block>, voted: set<Block>, b: Block)
    returns (s': System)
    requires Reached(s, exempt) && r in {1, 2} && TwinOk(s, r, vheight, lock, store, voted)
    requires WouldVote(vheight, lock, b) && CommitsNothing(b) && {b.parent, b.justify} <= store
    requires MayReceive(b, exempt) && QcVerifies(FOUR, s.ballots, JustifyQc(b))
    ensures Reached(s', exempt)
    ensures TwinOk(s', r, Height(b), LockAfter(lock, b), store + {b}, voted + {b})
    ensures OnlyCore(s, s', r, s'.cores[r]) && OnlyVotes(s.ballots, s'.ballots, r)
  {
    s' := Feed(s, r, b, exempt);
    VotesAndWaits(Insert(s.cores[r], b), vheight, lock, b);
  }

  lemma FeedTwins(s: System, exempt: Option<Block>, vheight: nat, lock: Block,
                  store: set<Block>, voted: set<Block>, b: Block)
    returns (s': System)
    requires Twins(s, exempt, vheight, lock, store, voted)
    requires WouldVote(vheight, lock, b) && CommitsNothing(b) && {b.parent, b.justify} <= store
    requires MayReceive(b, exempt) && (b.justify.Genesis? || (b.justify in voted && b.cert.Sigs() == SIGS))
    ensures Twins(s', exempt, Height(b), LockAfter(lock, b), store + {b}, voted + {b})
  {
    TwinsCertify(s, b.justify, b.cert.Sigs());
    var s1 := FeedTwin(s, exempt, 1, vheight, lock, store, voted, b);
    TwinsCertify(s1, b.justify, b.cert.Sigs());
    s' := FeedTwin(s1, exempt, 2, vheight, lock, store, voted, b);
  }

  /** Put a block in both stores without proposing it. */
  lemma StockTwins(s: System, exempt: Option<Block>, vheight: nat, lock: Block,
                   store: set<Block>, voted: set<Block>, b: Block)
    returns (s': System)
    requires Twins(s, exempt, vheight, lock, store, voted)
    requires b.Node? && b.justify.Genesis? && {b.parent, Genesis} <= store && MayReceive(b, exempt)
    ensures Twins(s', exempt, vheight, lock, store + {b}, voted)
  {
    var s1 := Receives(s, 1, b, exempt);
    s' := Receives(s1, 2, b, exempt);
  }

  // -------------------------------------------------------------------------------------------
  // The common branch, by the body of its first block

  function A1(body: Body): Block { Node(Genesis, Genesis, Parsed(map[]), body) }
  function A2(body: Body): Block { Node(A1(body), A1(body), Parsed(SIGS), []) }
  function A3(body: Body): Block { Node(A2(body), A2(body), Parsed(SIGS), []) }
  function A4(body: Body): Block { Node(A3(body), A3(body), Parsed(SIGS), []) }

  lemma HeightsOfA(body: Body)
    ensures Height(A1(body)) == 1 && Height(A2(body)) == 2 && Height(A3(body)) == 3 && Height(A4(body)) == 4
  {
  }

  lemma InitTwins(exempt: Option<Block>) returns (s: System)
    ensures Twins(s, exempt, 0, Genesis, {Genesis}, {})
  {
    s := Init(FOUR);
    FourIsWithinBounds();
    LeadsToItself(FOUR, s, exempt);
  }

  function StoredA(body: Body): set<Block> { {Genesis} + {A1(body)} + {A2(body)} + {A3(body)} }
  function VotedA(body: Body): set<Block> { {} + {A1(body)} + {A2(body)} + {A3(body)} }

  lemma BuildA1(body: Body, exempt: Option<Block>) returns (s: System)
    ensures Twins(s, exempt, 1, Genesis, {Genesis} + {A1(body)}, {} + {A1(body)})
  {
    HeightsOfA(body);
    s := InitTwins(exempt);
    s := FeedTwins(s, exempt, 0, Genesis, {Genesis}, {}, A1(body));
  }

  lemma BuildA2(body: Body, exempt: Option<Block>) returns (s: System)
    ensures Twins(s, exempt, 2, Genesis, {Genesis} + {A1(body)} + {A2(body)}, {} + {A1(body)} + {A2(body)})
  {
    HeightsOfA(body);
    s := BuildA1(body, exempt);
    s := FeedTwins(s, exempt, 1, Genesis, {Genesis} + {A1(body)}, {} + {A1(body)}, A2(body));
  }

  /** Replicas 1 and 2 vote up to a3: the lock is a1. */
  lemma BuildA(body: Body, exempt: Option<Block>) returns (s: System)
    ensures Twins(s, exempt, 3, A1(body), StoredA(body), VotedA(body))
  {
    HeightsOfA(body);
    s := BuildA2(body, exempt);
    s := FeedTwins(s, exempt, 2, Genesis, {Genesis} + {A1(body)} + {A2(body)}, {} + {A1(body)} + {A2(body)}, A3(body));
  }

  // -------------------------------------------------------------------------------------------
  // The other branch

  const X1 := Node(Genesis, Genesis, Parsed(map[]), [1])
  const X2 := Node(X1, Genesis, Parsed(map[]), [])
  const X3 := Node(X2, Genesis, Parsed(map[]), [])
  const X4 := Node(X3, A2([]), Parsed(SIGS), [])    // parent on one branch, justify on the other
  const X5 := Node(X4, X4, Parsed(SIGS), [])
  const X6 := Node(X5, X5, Parsed(SIGS), [])
  const X7 := Node(X6, X6, Parsed(SIGS), [])

  lemma HeightsOfX()
    ensures Height(X1) == 1 && Height(X2) == 2 && Height(X3) == 3 && Height(X4) == 4
    ensures Height(X5) == 5 && Height(X6) == 6 && Height(X7) == 7
  {
  }

  const STOCKED := StoredA([]) + {X1} + {X2} + {X3}
  const VOTED := VotedA([])

  /** They store the other branch. */
  lemma StockX() returns (s: System)
    ensures Twins(s, Some(X4), 3, A1([]), STOCKED, VOTED)
  {
    HeightsOfX();
    s := BuildA([], Some(X4));
    s := StockTwins(s, Some(X4), 3, A1([]), StoredA([]), VOTED, X1);
    s := StockTwins(s, Some(X4), 3, A1([]), StoredA([]) + {X1}, VOTED, X2);
    s := StockTwins(s, Some(X4), 3, A1([]), StoredA([]) + {X1} + {X2}, VOTED, X3);
  }

  /** They vote for x4: a2 is above their lock. */
  lemma BuildX4() returns (s: System)
    ensures Twins(s, Some(X4), 4, A1([]), STOCKED + {X4}, VOTED + {X4})
  {
    HeightsOfA([]);
    HeightsOfX();
    s := StockX();
    s := FeedTwins(s, Some(X4), 3, A1([]), STOCKED, VOTED, X4);
  }

  lemma BuildX5() returns (s: System)
    ensures Twins(s, Some(X4), 5, A2([]), STOCKED + {X4} + {X5}, VOTED + {X4} + {X5})
  {
    HeightsOfA([]);
    HeightsOfX();
    s := BuildX4();
    s := FeedTwins(s, Some(X4), 4, A1([]), STOCKED + {X4}, VOTED + {X4}, X5);
  }

  lemma BuildX6() returns (s: System)
    ensures Twins(s, Some(X4), 6, X4, STOCKED + {X4} + {X5} + {X6}, VOTED + {X4} + {X5} + {X6})
  {
    HeightsOfA([]);
    HeightsOfX();
    s := BuildX5();
    s := FeedTwins(s, Some(X4), 5, A2([]), STOCKED + {X4} + {X5}, VOTED + {X4} + {X5}, X6);
  }

  predicate FirstApplied(s: System, r: ReplicaId, b: Block) {
    r in s.cores && s.cores[r].applied != [] && s.cores[r].applied[0].block == b
  }

  /** Replica 1 completes the three-chain x4, x5, x6 and decides its whole branch. */
  lemma ReplicaOneDecides(s: System) returns (s': System)
    requires Twins(s, Some(X4), 6, X4, STOCKED + {X4} + {X5} + {X6}, VOTED + {X4} + {X5} + {X6})
    ensures Reached(s', Some(X4)) && s'.cores[0] == InitCore() && FirstApplied(s', 1, X1)
    ensures VOTED <= s'.ballots[1].Keys && VOTED <= s'.ballots[2].Keys
  {
    assert MayReceive(X7, None) by { HeightsOfX(); }
    var c := s.cores[1];
    assert Undecided(c, 6, X4) && X6 in c.store;
    TwinsCertify(s, X6, SIGS);
    s' := Feed(s, 1, X7, Some(X4));
    X7Decides(Insert(c, X7));
  }

  lemma X7Decides(c: Core)
    requires Undecided(c, 6, X4)
    ensures var log := OnReceiveProposal(c, X7, true).0.applied; log != [] && log[0].block == X1
  {
    Decides(c, 6, X4, X7);
    FirstCommand(c.bodies, X4);
  }

  /** The log of a branch starts with its block of height 1. */
  lemma {:induction false} FirstCommand(bodies: map<Block, Body>, b: Block)
    requires b.Node?
    ensures var log := CommandsAbove(bodies, b, 0); log != [] && log[0].block == AncestorAt(b, 1)
  {
    if b.parent.Node? {
      FirstCommand(bodies, b.parent);
    }
  }

  /** A replica that has seen nothing receives the common branch. */
  lemma ReceivesA(s: System, r: ReplicaId, body: Body, exempt: Option<Block>) returns (s': System)
    requires Reached(s, exempt) && r in s.cores && s.cores[r] == InitCore()
    requires VotedA(body) <= s.ballots[1].Keys && VotedA(body) <= s.ballots[2].Keys
    ensures Reached(s', exempt) && s'.ballots == s.ballots
    ensures Undecided(s'.cores[r], 0, Genesis) && A3(body) in s'.cores[r].store
    ensures forall i | i in s.cores && i != r :: s'.cores[i] == s.cores[i]
  {
    HeightsOfA(body);
    TwinsCertify(s, Genesis, map[]);
    TwinsCertify(s, A1(body), SIGS);
    TwinsCertify(s, A2(body), SIGS);
    var s1 := Receives(s, r, A1(body), exempt);
    var s2 := Receives(s1, r, A2(body), exempt);
    s' := Receives(s2, r, A3(body), exempt);
  }

  /** It catches up on that branch, where a three-chain is complete. */
  lemma DecidesA1(s: System, r: ReplicaId, body: Body, exempt: Option<Block>) returns (s': System)
    requires Reached(s, exempt) && r in s.cores && s.cores[r] == InitCore()
    requires VotedA(body) <= s.ballots[1].Keys && VotedA(body) <= s.ballots[2].Keys
    ensures Reached(s', exempt) && s'.cores[r].bExec == A1(body) && FirstApplied(s', r, A1(body))
    ensures forall i | i in s.cores && i != r :: s'.cores[i] == s.cores[i]
  {
    var s1 := ReceivesA(s, r, body, exempt);
    HeightsOfA(body);
    TwinsCertify(s1, A3(body), SIGS);
    s' := Feed(s1, r, A4(body), exempt);
    A4Decides(Insert(s1.cores[r], A4(body)), body);
  }

  lemma A4Decides(c: Core, body: Body)
    requires Undecided(c, 0, Genesis)
    ensures var c' := OnReceiveProposal(c, A4(body), true).0;
            c'.bExec == A1(body) && c'.applied != [] && c'.applied[0].block == A1(body)
  {
    Decides(c, 0, Genesis, A4(body));
    FirstCommand(c.bodies, A1(body));
  }

  /** Agreement fails as soon as one block is received whose justify is off its branch at height 2: within
      the fault bound, by steps that are otherwise as the theorems assume, replica 0 applies a1 first and
      replica 1 applies x1 first. */
  lemma OffChainJustifyBreaksAgreement()
    ensures ValidParams(FOUR) && {0, 1} <= Honest(FOUR) && A1([]) != X1
    ensures !SoundJustify(X4) && Height(X4.justify) == 2
    ensures exists s :: Leads(FOUR, Init(FOUR), s, Some(X4)) && FirstApplied(s, 0, A1([])) && FirstApplied(s, 1, X1)
  {
    FourIsWithinBounds();
    X4IsUnsound();
    var s := BothDecide();
  }

  lemma X4IsUnsound()
    ensures !SoundJustify(X4) && Height(X4.justify) == 2
  {
    HeightsOfA([]);
    assert !Extends(X1, A2([])) && !Extends(X2, A2([]));
  }

  lemma BothDecide() returns (s: System)
    ensures Leads(FOUR, Init(FOUR), s, Some(X4)) && FirstApplied(s, 0, A1([])) && FirstApplied(s, 1, X1)
  {
    var s0 := BuildX6();
    var s1 := ReplicaOneDecides(s0);
    s := DecidesA1(s1, 0, [], Some(X4));
  }

  // -------------------------------------------------------------------------------------------
  // The voting rule on its own

  /** The vote is for a block that extends the lock, or that extends a higher certified block. */
  predicate VoteRespectsLock(lock: Block, b: Block)
    requires b.Node?
  {
    Extends(b, lock) || (Extends(b, b.justify) && Height(b.justify) > Height(lock))
  }

  /** Whoever votes for `b`, in any state of any good run, respects the lock. */
  ghost predicate RuleKeepsPromise(b: Block)
    requires b.Node?
  {
    forall p, s, r, cached |
        ValidParams(p) && Leads(p, Init(p), s, None) && r in s.cores && Opinion(s.cores[r], b, cached) ::
      VoteRespectsLock(s.cores[r].bLock, b)
  }

  lemma VoteIsRespectful(p: Params, s: System, r: ReplicaId, b: Block, cached: bool)
    requires ValidParams(p) && Leads(p, Init(p), s, None) && r in s.cores
    requires b.Node? && Opinion(s.cores[r], b, cached)
    requires Extends(b, b.justify) || Height(b.justify) <= 1 || Height(b) <= 1
    ensures VoteRespectsLock(s.cores[r].bLock, b)
  {
    var run, steps := GoodRunTo(p, s);
    RunInvariant(p, run, steps, |run| - 1);
    assert Ok(p, s, r);
    WalkDecidesAncestry(b, s.cores[r].bLock);
    GenesisIsBelow(b);
  }

  /** A good run after which some replica is locked on a1 and has forgotten its votes above. */
  lemma LockedOnA1(body: Body) returns (s: System)
    ensures ValidParams(FOUR) && Leads(FOUR, Init(FOUR), s, None)
    ensures 0 in s.cores && s.cores[0].bLock == A1(body) && s.cores[0].vheight == 1
  {
    FourIsWithinBounds();
    HeightsOfA(body);
    var s0 := BuildA(body, None);
    var s1 := DecidesA1(s0, 0, body, None);
    var run, steps := GoodRunTo(FOUR, s1);
    RunInvariant(FOUR, run, steps, |run| - 1);
    s := RestartsAt(s1, 0);
  }

  lemma RestartsAt(s: System, r: ReplicaId) returns (s': System)
    requires SystemInv(FOUR, s) && Leads(FOUR, Init(FOUR), s, None)
    requires r in s.cores && s.cores[r].bExec.Node? && OnChain(s.cores[r].bExec)
    ensures Leads(FOUR, Init(FOUR), s', None) && r in s'.cores
    ensures s'.cores[r].bLock == s.cores[r].bExec && s'.cores[r].vheight == Height(s.cores[r].bExec)
  {
    var c := s.cores[r];
    assert Ok(FOUR, s, r);
    var entries := BranchCursor(c.bExec);
    ReloadAfterCrash(FOUR, s.ballots, c, c.disk, entries);
    Recovery.RestartedShape(FOUR, s.ballots, c, c.disk, entries, ReloadAll(DiskOf(c, c.disk), entries).value);
    s' := Apply(FOUR, s, Restart(r, c.disk, entries));
    LeadsFurther(FOUR, Init(FOUR), s, None, Restart(r, c.disk, entries));
  }

  /** The rule keeps its promise on `b` at every replica of every good run exactly when `b` extends its
      justify, or that justify has only genesis below, or `b` is a first block. */
  lemma VotingRuleExact(b: Block)
    requires b.Node?
    ensures RuleKeepsPromise(b) <==> Extends(b, b.justify) || Height(b.justify) <= 1 || Height(b) <= 1
  {
    if Extends(b, b.justify) || Height(b.justify) <= 1 || Height(b) <= 1 {
      forall p, s, r, cached |
          ValidParams(p) && Leads(p, Init(p), s, None) && r in s.cores && Opinion(s.cores[r], b, cached)
        ensures VoteRespectsLock(s.cores[r].bLock, b)
      {
        VoteIsRespectful(p, s, r, b, cached);
      }
    } else {
      AncestorAtProperties(b, 1);
      var body := AncestorAt(b, 1).body + [0];
      var s := LockedOnA1(body);
      HeightsOfA(body);
      WalkDecidesAncestry(b, A1(body));
      assert Opinion(s.cores[0], b, true) && !VoteRespectsLock(s.cores[0].bLock, b);
    }
  }
}
