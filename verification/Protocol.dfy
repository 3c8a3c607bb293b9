/** All replicas together: every run of the protocol, and what holds in all of them.

  Each handler of an honest replica is one atomic step.  Faulty replicas have no state here: they may
  sign any block at any moment, so their certificates, blocks and votes simply appear.  Messages may be
  delayed, reordered, duplicated or lost, since a step needs no earlier send.  An honest replica may crash
  and reload its disk at any moment.
*/
module Protocol {
  import opened Blocks
  import opened Quorums
  import opened CoreSpec
  import opened Safety
  import opened ReplicaInvariant
  import opened Reload

  /** `reloaded` are the replicas that have reloaded their disk and not voted since. */
  datatype System = System(cores: map<ReplicaId, Core>, ballots: Ballots, reloaded: set<ReplicaId>)

  datatype Step =
    | Receive(r: ReplicaId, b: Block)                    // a validated network block is put in the store
    | Deliver(r: ReplicaId, b: Block, cached: bool)      // on_receive_proposal
    | Vote(r: ReplicaId, b: Block, before: Signatures, voter: ReplicaId, sig: Signature)  // on_receive_vote
    | Mint(r: ReplicaId, body: Body)                     // do_propose, do_empty_propose
    | Prune(r: ReplicaId, victims: set<Block>)           // a pass of the garbage collector
    | Restart(r: ReplicaId, blocks: map<Block, Body>, entries: Cursor)  // crash, then reload_decided_blocks

  function Init(p: Params): System {
    System(map r | r in Honest(p) :: InitCore(), map r | r in Honest(p) :: map[], {})
  }

  /** The checks the code makes before a handler runs.  A reload that throws leaves no running replica, so
      it is no step; the block directory may hold more files than the replica knows it wrote. */
  ghost predicate Enabled(p: Params, s: System, step: Step) {
    && step.r in s.cores && step.r in s.ballots
    && var c := s.cores[step.r];
    match step
    case Receive(_, b) => b.Node? && QcVerifies(p, s.ballots, JustifyQc(b))
    case Deliver(_, b, _) => b.Node? && b in c.store
    case Vote(_, b, before, voter, _) =>
      && b in c.store && before.Keys + {voter} <= p.replicas
      && forall v | v in before.Keys + {voter} :: Signed(p, s.ballots, v, b)
    case Mint(_, _) => true
    case Prune(_, victims) => victims <= c.store && forall b | b in victims :: Height(b) < c.pruneLimit
    case Restart(_, blocks, entries) =>
      && (forall b | b in c.disk :: b in blocks && blocks[b] == c.disk[b])
      && IsCursor(entries, c.index)
      && ReloadAll(DiskOf(c, blocks), entries).Some?
  }

  /** A vote for `b` is above all of `votes`, and the lock is where they left it or above. */
  predicate CaughtUp(votes: map<Block, Block>, c: Core, b: Block) {
    forall y | y in votes :: Height(y) < Height(b) && Height(GrandJustify(y)) <= Height(c.bLock)
  }

  /** What the code does not check and the theorems assume of a step: a received block justifies one of
      its own ancestors or a block with only genesis below, heights fit the 32-bit vote height, and a
      reloaded replica casts its next vote only when it has caught up with its earlier ones. */
  predicate Assumed(s: System, step: Step) {
    match step
    case Receive(_, b) => SoundJustify(b) && Height(b) < VHEIGHT_MODULUS
    case Mint(r, _) => r in s.cores && Height(s.cores[r].bLeaf) + 1 < VHEIGHT_MODULUS
    case Deliver(r, b, cached) =>
      r in s.reloaded && r in s.cores && r in s.ballots && Opinion(s.cores[r], b, cached)
      ==> CaughtUp(s.ballots[r], s.cores[r], b)
    case _ => true
  }

  /** The new state of the replica that takes the step.  A throw leaves it as it was. */
  function StepCore(p: Params, c: Core, step: Step): Core {
    match step
    case Receive(_, b) => Insert(c, b)
    case Deliver(_, b, cached) => OnReceiveProposal(c, b, cached).0
    case Vote(_, b, before, voter, sig) => OnReceiveVote(c, NMajority(|p.replicas|), b, before, voter, sig)
    case Mint(_, body) => Propose(c, body).GetOr(c)
    case Prune(_, victims) => Flush(c, victims)
    case Restart(_, blocks, entries) => ReloadAll(DiskOf(c, blocks), entries).GetOr(c)
  }

  function NewBallots(bal: Ballots, r: ReplicaId, c: Core, b: Block, cached: bool): Ballots
    requires r in bal
  {
    if Opinion(c, b, cached) then CastVote(bal, r, b, c.bLock) else bal
  }

  ghost function Apply(p: Params, s: System, step: Step): System
    requires Enabled(p, s, step)
  {
    var c := s.cores[step.r];
    var cores := s.cores[step.r := StepCore(p, c, step)];
    match step
    case Deliver(r, b, cached) =>
      System(cores, NewBallots(s.ballots, r, c, b, cached),
             if Opinion(c, b, cached) then s.reloaded - {r} else s.reloaded)
    case Restart(r, _, _) => System(cores, s.ballots, s.reloaded + {r})
    case _ => System(cores, s.ballots, s.reloaded)
  }

  /** `run[i]` is the state before step `i`. */
  ghost predicate IsPath(p: Params, run: seq<System>, steps: seq<Step>) {
    && |run| == |steps| + 1
    && forall i | 0 <= i < |steps| :: Enabled(p, run[i], steps[i]) && run[i + 1] == Apply(p, run[i], steps[i])
  }

  ghost predicate IsRun(p: Params, run: seq<System>, steps: seq<Step>) {
    IsPath(p, run, steps) && run[0] == Init(p)
  }

  ghost predicate GoodRun(p: Params, run: seq<System>, steps: seq<Step>) {
    && ValidParams(p)
    && IsRun(p, run, steps)
    && forall i | 0 <= i < |steps| :: Assumed(run[i], steps[i])
  }

  // -------------------------------------------------------------------------------------------
  // The invariant of the whole system

  /** A replica's own votes, against its vote height and lock. */
  predicate VoterInv(votes: map<Block, Block>, c: Core) {
    forall x | x in votes :: Height(x) <= c.vheight && Height(GrandJustify(x)) <= Height(c.bLock)
  }

  /** The lock is never above the vote height, and a vote height above the executed block is that of a
      vote. */
  predicate HeightsInv(votes: map<Block, Block>, c: Core) {
    && Height(c.bLock) <= c.vheight < VHEIGHT_MODULUS
    && (c.vheight <= Height(c.bExec) || exists x | x in votes :: Height(x) == c.vheight)
  }

  ghost predicate ReplicaOk(p: Params, bal: Ballots, votes: map<Block, Block>, c: Core, reloaded: bool) {
    CoreInv(p, bal, c) && HeightsInv(votes, c) && (!reloaded ==> VoterInv(votes, c))
  }

  ghost predicate Ok(p: Params, s: System, r: ReplicaId)
    requires r in s.cores && r in s.ballots
  {
    ReplicaOk(p, s.ballots, s.ballots[r], s.cores[r], r in s.reloaded)
  }

  ghost predicate SystemInv(p: Params, s: System) {
    && ValidParams(p)
    && s.cores.Keys == Honest(p) && s.ballots.Keys == Honest(p)
    && BallotInv(p, s.ballots)
    && forall r {:trigger Ok(p, s, r)} | r in s.cores :: Ok(p, s, r)
  }

  lemma NothingCertified(p: Params, bal: Ballots, b: Block)
    requires ValidParams(p) && b.Node? && (forall r | r in bal :: bal[r] == map[])
    ensures !Certified(p, bal, b)
  {
    forall q ensures !Backs(p, bal, q, b) {
      if IsQuorum(q, p.replicas) {
        var r := QuorumsShareHonest(p.replicas, p.faulty, q, q);
        assert !Signed(p, bal, r, b);
      }
    }
  }

  lemma InitHolds(p: Params)
    requires ValidParams(p)
    ensures SystemInv(p, Init(p))
  {
    var s := Init(p);
    forall b: Block | b.Node? ensures !Certified(p, s.ballots, b) {
      NothingCertified(p, s.ballots, b);
    }
    assert CoreInv(p, s.ballots, InitCore());
  }

  /** The vote an honest replica casts on a stored proposal is one the ballots allow. */
  lemma OpinionMayVote(p: Params, s: System, r: ReplicaId, b: Block, cached: bool)
    requires SystemInv(p, s) && r in s.cores && b in s.cores[r].store
    requires Assumed(s, Deliver(r, b, cached)) && Opinion(s.cores[r], b, cached)
    ensures MayVote(p, s.ballots, r, b, s.cores[r].bLock)
  {
    var c := s.cores[r];
    assert Ok(p, s, r);
    StoredJustify(p, s.ballots, c, b);
    WalkDecidesAncestry(b, c.bLock);
    assert CaughtUp(s.ballots[r], c, b);
  }

  /** After a step, every executed block extends what it was. */
  predicate ExecutedExtends(s: System, s': System) {
    s.cores.Keys == s'.cores.Keys && forall r | r in s.cores :: Extends(s'.cores[r].bExec, s.cores[r].bExec)
  }

  /** Only replica `r` casts a vote. */
  predicate OnlyVoter(bal: Ballots, bal': Ballots, r: ReplicaId) {
    BallotsGrow(bal, bal') && forall i | i in bal && i != r :: bal'[i] == bal[i]
  }

  lemma OtherReplicaOk(p: Params, s: System, bal': Ballots, i: ReplicaId)
    requires SystemInv(p, s) && i in s.cores && BallotsGrow(s.ballots, bal') && bal'[i] == s.ballots[i]
    ensures ReplicaOk(p, bal', bal'[i], s.cores[i], i in s.reloaded)
  {
    assert Ok(p, s, i);
    CoreInvMonotone(p, s.ballots, bal', s.cores[i]);
  }

  /** Changing one replica and adding to its votes keeps the rest of the system as it was. */
  lemma ReplacingOneKeeps(p: Params, s: System, r: ReplicaId, c': Core, bal': Ballots, reloaded': set<ReplicaId>)
    requires SystemInv(p, s) && r in s.cores
    requires BallotInv(p, bal') && OnlyVoter(s.ballots, bal', r)
    requires reloaded' - {r} == s.reloaded - {r}
    requires ReplicaOk(p, bal', bal'[r], c', r in reloaded')
    ensures SystemInv(p, System(s.cores[r := c'], bal', reloaded'))
  {
    var s' := System(s.cores[r := c'], bal', reloaded');
    forall i | i in s'.cores ensures Ok(p, s', i) {
      if i != r {
        OtherReplicaOk(p, s, bal', i);
        assert i in s.reloaded - {r} <==> i in reloaded' - {r};
      }
    }
  }

  /** The state `update` starts from: only the vote height has moved. */
  function AfterVote(c: Core, b: Block, cached: bool): Core {
    if Opinion(c, b, cached) then c.(vheight := TruncateHeight(Height(b))) else c
  }

  lemma AfterVoteKeeps(p: Params, bal: Ballots, c: Core, b: Block, cached: bool)
    requires CoreInv(p, bal, c)
    ensures CoreInv(p, bal, AfterVote(c, b, cached))
  {
  }

  /** The replica's votes after the proposal. */
  function NewVotes(votes: map<Block, Block>, c: Core, b: Block, cached: bool): map<Block, Block> {
    if Opinion(c, b, cached) then votes[b := c.bLock] else votes
  }

  /** A replica that votes is caught up from then on. */
  lemma VotesStayBelow(votes: map<Block, Block>, c: Core, b: Block, cached: bool, c': Core)
    requires if Opinion(c, b, cached) then CaughtUp(votes, c, b) else VoterInv(votes, c)
    requires Height(b) < VHEIGHT_MODULUS && c'.vheight == AfterVote(c, b, cached).vheight
    requires Height(c'.bLock) >= Height(c.bLock) && Height(c'.bLock) >= Height(GrandJustify(b))
    ensures VoterInv(NewVotes(votes, c, b, cached), c')
  {
  }

  /** The lock follows only blocks the replica votes for or voted above. */
  lemma LockStaysBelowVote(votes: map<Block, Block>, c: Core, b: Block, cached: bool, c': Core)
    requires HeightsInv(votes, c) && b.Node? && Height(b) < VHEIGHT_MODULUS
    requires Height(GrandJustify(b)) <= Height(b.justify) <= Height(b)
    requires c'.vheight == AfterVote(c, b, cached).vheight
    requires LockMoved(c.bLock, c'.bLock, GrandJustify(b))
    requires Height(c'.bExec) >= Height(c.bExec)
    ensures HeightsInv(NewVotes(votes, c, b, cached), c')
  {
    if Opinion(c, b, cached) {
      assert b in NewVotes(votes, c, b, cached);
    }
  }

  lemma DeliverOneKeeps(p: Params, bal: Ballots, votes: map<Block, Block>, c: Core, b: Block, cached: bool,
                        reloaded: bool)
    requires ValidParams(p) && BallotInv(p, bal) && ReplicaOk(p, bal, votes, c, reloaded) && b in c.store && b.Node?
    requires reloaded && Opinion(c, b, cached) ==> CaughtUp(votes, c, b)
    ensures WentWell(p, bal, AfterVote(c, b, cached), OnReceiveProposal(c, b, cached))
    ensures HeightsInv(NewVotes(votes, c, b, cached), OnReceiveProposal(c, b, cached).0)
    ensures !reloaded || Opinion(c, b, cached) ==>
              VoterInv(NewVotes(votes, c, b, cached), OnReceiveProposal(c, b, cached).0)
  {
    AfterVoteKeeps(p, bal, c, b, cached);
    UpdateKeeps(p, bal, AfterVote(c, b, cached), b);
    StoredJustify(p, bal, c, b);
    assert StoredOk(p, bal, c.store, b);
    var c' := OnReceiveProposal(c, b, cached).0;
    ExtendsHeight(c'.bExec, c.bExec);
    LockStaysBelowVote(votes, c, b, cached, c');
    if !reloaded || Opinion(c, b, cached) {
      VotesStayBelow(votes, c, b, cached, c');
    }
  }

  lemma NewBallotsShape(bal: Ballots, r: ReplicaId, c: Core, b: Block, cached: bool)
    requires r in bal && (Opinion(c, b, cached) ==> b !in bal[r])
    ensures OnlyVoter(bal, NewBallots(bal, r, c, b, cached), r)
    ensures NewBallots(bal, r, c, b, cached)[r] == NewVotes(bal[r], c, b, cached)
  {
  }

  lemma NewBallotsKeep(p: Params, s: System, r: ReplicaId, b: Block, cached: bool)
    requires SystemInv(p, s) && r in s.cores && b in s.cores[r].store && Assumed(s, Deliver(r, b, cached))
    ensures BallotInv(p, NewBallots(s.ballots, r, s.cores[r], b, cached))
    ensures OnlyVoter(s.ballots, NewBallots(s.ballots, r, s.cores[r], b, cached), r)
    ensures NewBallots(s.ballots, r, s.cores[r], b, cached)[r] == NewVotes(s.ballots[r], s.cores[r], b, cached)
  {
    if Opinion(s.cores[r], b, cached) {
      OpinionMayVote(p, s, r, b, cached);
      CastVoteKeepsInv(p, s.ballots, r, b, s.cores[r].bLock);
    }
    NewBallotsShape(s.ballots, r, s.cores[r], b, cached);
  }

  lemma DeliveredOk(p: Params, s: System, r: ReplicaId, b: Block, cached: bool)
    requires SystemInv(p, s) && r in s.cores && b in s.cores[r].store && b.Node?
    requires Assumed(s, Deliver(r, b, cached))
    ensures OnReceiveProposal(s.cores[r], b, cached).1 == Done
    ensures Extends(OnReceiveProposal(s.cores[r], b, cached).0.bExec, s.cores[r].bExec)
    ensures ReplicaOk(p, s.ballots, NewVotes(s.ballots[r], s.cores[r], b, cached),
                      OnReceiveProposal(s.cores[r], b, cached).0,
                      r in s.reloaded && !Opinion(s.cores[r], b, cached))
  {
    assert Ok(p, s, r);
    DeliverOneKeeps(p, s.ballots, s.ballots[r], s.cores[r], b, cached, r in s.reloaded);
  }

  lemma DeliverKeeps(p: Params, s: System, r: ReplicaId, b: Block, cached: bool)
    requires SystemInv(p, s) && Enabled(p, s, Deliver(r, b, cached)) && Assumed(s, Deliver(r, b, cached))
    ensures SystemInv(p, Apply(p, s, Deliver(r, b, cached)))
  {
    var c := s.cores[r];
    var c' := OnReceiveProposal(c, b, cached).0;
    var bal' := NewBallots(s.ballots, r, c, b, cached);
    var reloaded' := if Opinion(c, b, cached) then s.reloaded - {r} else s.reloaded;
    NewBallotsKeep(p, s, r, b, cached);
    assert ReplicaOk(p, bal', bal'[r], c', r in reloaded') by {
      DeliveredOk(p, s, r, b, cached);
      CoreInvMonotone(p, s.ballots, bal', c');
    }
    ReplacingOneKeeps(p, s, r, c', bal', reloaded');
  }

  lemma RecoveredHeights(p: Params, bal: Ballots, votes: map<Block, Block>, c: Core, blocks: map<Block, Body>)
    requires StoreInv(p, bal, c) && c.bExec in c.store
    ensures HeightsInv(votes, Recovered(DiskOf(c, blocks), c))
    ensures Recovered(DiskOf(c, blocks), c).bExec == c.bExec
  {
    assert StoredOk(p, bal, c.store, c.bExec);
  }

  /** A reload that succeeds gives back a replica that satisfies the replica invariant. */
  lemma RestartedOk(p: Params, s: System, r: ReplicaId, blocks: map<Block, Body>, entries: Cursor)
    requires SystemInv(p, s) && Enabled(p, s, Restart(r, blocks, entries))
    ensures ReplicaOk(p, s.ballots, s.ballots[r], ReloadAll(DiskOf(s.cores[r], blocks), entries).value, true)
    ensures ReloadAll(DiskOf(s.cores[r], blocks), entries).value.bExec == s.cores[r].bExec
  {
    assert Ok(p, s, r);
    ReloadAfterCrash(p, s.ballots, s.cores[r], blocks, entries);
    RecoveredHeights(p, s.ballots, s.ballots[r], s.cores[r], blocks);
  }

  lemma RestartKeeps(p: Params, s: System, r: ReplicaId, blocks: map<Block, Body>, entries: Cursor)
    requires SystemInv(p, s) && Enabled(p, s, Restart(r, blocks, entries))
    ensures SystemInv(p, Apply(p, s, Restart(r, blocks, entries)))
  {
    RestartedOk(p, s, r, blocks, entries);
    ReplacingOneKeeps(p, s, r, ReloadAll(DiskOf(s.cores[r], blocks), entries).value, s.ballots, s.reloaded + {r});
  }

  predicate Quiet(step: Step) { !step.Deliver? && !step.Restart? }

  /** Steps that cast no vote and leave vote height, lock and executed block alone. */
  lemma QuietCoreKeeps(p: Params, s: System, step: Step)
    requires SystemInv(p, s) && Enabled(p, s, step) && Assumed(s, step) && Quiet(step)
    ensures CoreInv(p, s.ballots, StepCore(p, s.cores[step.r], step))
    ensures step.Mint? ==> Propose(s.cores[step.r], step.body).Some?
  {
    var c := s.cores[step.r];
    assert Ok(p, s, step.r);
    match step
    case Receive(_, b) => InsertKeeps(p, s.ballots, c, b);
    case Vote(_, b, before, voter, sig) => VoteKeeps(p, s.ballots, c, b, before, voter, sig);
    case Mint(_, body) => ProposeKeeps(p, s.ballots, c, body);
    case Prune(_, victims) => FlushKeeps(p, s.ballots, c, victims);
  }

  lemma QuietStepFrame(p: Params, c: Core, step: Step)
    requires Quiet(step)
    ensures var c' := StepCore(p, c, step); c'.bExec == c.bExec && c'.bLock == c.bLock && c'.vheight == c.vheight
  {
  }

  lemma QuietStepKeeps(p: Params, s: System, step: Step)
    requires SystemInv(p, s) && Enabled(p, s, step) && Assumed(s, step) && Quiet(step)
    ensures SystemInv(p, Apply(p, s, step))
  {
    QuietStepFrame(p, s.cores[step.r], step);
    QuietCoreKeeps(p, s, step);
    var c' := StepCore(p, s.cores[step.r], step);
    assert Ok(p, s, step.r);
    ReplacingOneKeeps(p, s, step.r, c', s.ballots, s.reloaded);
  }

  lemma StepKeeps(p: Params, s: System, step: Step)
    requires SystemInv(p, s) && Enabled(p, s, step) && Assumed(s, step)
    ensures SystemInv(p, Apply(p, s, step))
  {
    match step
    case Deliver(r, b, cached) => DeliverKeeps(p, s, r, b, cached);
    case Restart(r, blocks, entries) => RestartKeeps(p, s, r, blocks, entries);
    case _ => QuietStepKeeps(p, s, step);
  }

  lemma StepCoreExtends(p: Params, s: System, step: Step)
    requires SystemInv(p, s) && Enabled(p, s, step) && Assumed(s, step)
    ensures Extends(StepCore(p, s.cores[step.r], step).bExec, s.cores[step.r].bExec)
  {
    match step
    case Deliver(r, b, cached) => DeliveredOk(p, s, r, b, cached);
    case Restart(r, blocks, entries) => RestartedOk(p, s, r, blocks, entries);
    case _ => QuietStepFrame(p, s.cores[step.r], step);
  }

  /** The one replica that takes the step is the only one whose state changes. */
  lemma ApplyExtends(p: Params, s: System, step: Step)
    requires Enabled(p, s, step)
    requires Extends(StepCore(p, s.cores[step.r], step).bExec, s.cores[step.r].bExec)
    ensures ExecutedExtends(s, Apply(p, s, step))
  {
    var c' := StepCore(p, s.cores[step.r], step);
    var s' := Apply(p, s, step);
    forall r | r in s.cores ensures Extends(s'.cores[r].bExec, s.cores[r].bExec) {
      assert s'.cores[r] == if r == step.r then c' else s.cores[r];
    }
  }

  // -------------------------------------------------------------------------------------------
  // Every run

  lemma {:induction false} RunInvariant(p: Params, run: seq<System>, steps: seq<Step>, i: nat)
    requires GoodRun(p, run, steps) && i < |run|
    ensures SystemInv(p, run[i])
  {
    if i == 0 {
      InitHolds(p);
    } else {
      RunInvariant(p, run, steps, i - 1);
      StepKeeps(p, run[i - 1], steps[i - 1]);
    }
  }

  /** No throw: `update` never reports a breach, and a minted block is always insertable. */
  lemma NoStepThrows(p: Params, run: seq<System>, steps: seq<Step>, i: nat)
    requires GoodRun(p, run, steps) && i < |steps|
    ensures steps[i].Deliver? ==>
              OnReceiveProposal(run[i].cores[steps[i].r], steps[i].b, steps[i].cached).1 == Done
    ensures steps[i].Mint? ==> Propose(run[i].cores[steps[i].r], steps[i].body).Some?
  {
    RunInvariant(p, run, steps, i);
    match steps[i]
    case Deliver(r, b, cached) => DeliveredOk(p, run[i], r, b, cached);
    case Mint(_, _) => QuietCoreKeeps(p, run[i], steps[i]);
    case _ =>
  }

  lemma RunExtends(p: Params, run: seq<System>, steps: seq<Step>, i: nat)
    requires GoodRun(p, run, steps) && i < |steps|
    ensures run[i].cores.Keys == Honest(p) && run[i + 1].cores.Keys == Honest(p)
    ensures ExecutedExtends(run[i], run[i + 1])
  {
    ReplicasStay(p, run, steps, i);
    RunInvariant(p, run, steps, i);
    StepCoreExtends(p, run[i], steps[i]);
    ApplyExtends(p, run[i], steps[i]);
  }

  lemma {:induction false} ReplicasStay(p: Params, run: seq<System>, steps: seq<Step>, i: nat)
    requires GoodRun(p, run, steps) && i < |run|
    ensures run[i].cores.Keys == Honest(p)
  {
    RunInvariant(p, run, steps, i);
  }

  lemma {:induction false} GrowsAlong(run: seq<System>, i: nat, j: nat, r: ReplicaId)
    requires i <= j < |run| && r in run[i].cores
    requires forall k | 0 <= k < |run| - 1 :: ExecutedExtends(run[k], run[k + 1])
    ensures r in run[j].cores && Extends(run[j].cores[r].bExec, run[i].cores[r].bExec)
  {
    if i < j {
      GrowsAlong(run, i, j - 1, r);
      assert ExecutedExtends(run[j - 1], run[j - 1 + 1]);
      ExtendsTransitive(run[j].cores[r].bExec, run[j - 1].cores[r].bExec, run[i].cores[r].bExec);
    }
  }

  /** A decision is never revoked, not even by a restart. */
  lemma ExecutedOnlyGrows(p: Params, run: seq<System>, steps: seq<Step>, i: nat, j: nat, r: ReplicaId)
    requires GoodRun(p, run, steps) && i <= j < |run| && r in Honest(p)
    ensures r in run[i].cores && r in run[j].cores
    ensures Extends(run[j].cores[r].bExec, run[i].cores[r].bExec)
  {
    forall k | 0 <= k < |run| - 1 ensures ExecutedExtends(run[k], run[k + 1]) {
      RunExtends(p, run, steps, k);
    }
    ReplicasStay(p, run, steps, i);
    GrowsAlong(run, i, j, r);
  }

  /** In one state, the executed blocks of any two honest replicas lie on one branch. */
  lemma ExecutedBlocksAgree(p: Params, s: System, r1: ReplicaId, r2: ReplicaId)
    requires SystemInv(p, s) && r1 in s.cores && r2 in s.cores
    ensures Extends(s.cores[r1].bExec, s.cores[r2].bExec) || Extends(s.cores[r2].bExec, s.cores[r1].bExec)
  {
    var b1, b2 := s.cores[r1].bExec, s.cores[r2].bExec;
    assert Ok(p, s, r1) && Ok(p, s, r2);
    CommittedIsCertified(p, s.ballots, b1);
    CommittedIsCertified(p, s.ballots, b2);
    if Height(b1) >= Height(b2) {
      ExecutedIsBelow(p, s.ballots, b2, b1);
    } else {
      ExecutedIsBelow(p, s.ballots, b1, b2);
    }
  }

  lemma {:induction false} CommandsArePrefix(b: Block, a: Block)
    requires Extends(b, a)
    ensures OwnCommands(a, 0) <= OwnCommands(b, 0)
  {
    if a != b {
      CommandsArePrefix(b.parent, a);
    }
  }

  lemma LogIsBranch(p: Params, run: seq<System>, steps: seq<Step>, i: nat, r: ReplicaId)
    requires GoodRun(p, run, steps) && i < |run| && r in Honest(p)
    ensures r in run[i].cores && run[i].cores[r].applied == OwnCommands(run[i].cores[r].bExec, 0)
  {
    RunInvariant(p, run, steps, i);
    assert Ok(p, run[i], r);
  }

  /** Agreement: the command logs of two honest replicas, taken at any two moments of any run, are
      prefix-comparable. */
  lemma Agreement(p: Params, run: seq<System>, steps: seq<Step>, i: nat, j: nat, r1: ReplicaId, r2: ReplicaId)
    requires GoodRun(p, run, steps) && i < |run| && j < |run| && r1 in Honest(p) && r2 in Honest(p)
    ensures r1 in run[i].cores && r2 in run[j].cores
    ensures run[i].cores[r1].applied <= run[j].cores[r2].applied
            || run[j].cores[r2].applied <= run[i].cores[r1].applied
  {
    LogIsBranch(p, run, steps, i, r1);
    LogIsBranch(p, run, steps, j, r2);
    var last := if i < j then j else i;
    var b1, b2 := run[i].cores[r1].bExec, run[j].cores[r2].bExec;
    ExecutedOnlyGrows(p, run, steps, i, last, r1);
    ExecutedOnlyGrows(p, run, steps, j, last, r2);
    var e1, e2 := run[last].cores[r1].bExec, run[last].cores[r2].bExec;
    RunInvariant(p, run, steps, last);
    ExecutedBlocksAgree(p, run[last], r1, r2);
    var top := if Extends(e1, e2) then e1 else e2;
    if Extends(e1, e2) { ExtendsTransitive(e1, e2, b2); } else { ExtendsTransitive(e2, e1, b1); }
    if Height(b1) <= Height(b2) {
      AncestorsAreLinear(top, b1, b2);
      CommandsArePrefix(b2, b1);
    } else {
      AncestorsAreLinear(top, b2, b1);
      CommandsArePrefix(b1, b2);
    }
  }

  /** The log in closed form: one command per height from 1 on, each with its block's own bytes. */
  lemma {:induction false} CommandsAreConsecutive(b: Block)
    ensures |OwnCommands(b, 0)| == Height(b)
    ensures forall k | 0 <= k < Height(b) ::
              && OwnCommands(b, 0)[k].block == AncestorAt(b, k + 1)
              && Height(AncestorAt(b, k + 1)) == k + 1
              && AncestorAt(b, k + 1).Node?
              && OwnCommands(b, 0)[k].body == AncestorAt(b, k + 1).body
  {
    if b.Node? {
      CommandsAreConsecutive(b.parent);
    }
  }

  /** The decided flag is set on exactly the ancestors of the executed block. */
  ghost predicate DecidesItsBranch(c: Core) {
    forall b :: b in c.decided <==> Extends(c.bExec, b)
  }

  /** The VM got one command per height, in height order from 1, each the decided block's own body. */
  predicate AppliesInOrder(c: Core) {
    && |c.applied| == Height(c.bExec)
    && forall k | 0 <= k < |c.applied| ::
         && c.applied[k].block.Node?
         && Height(c.applied[k].block) == k + 1
         && c.applied[k].body == c.applied[k].block.body
         && Extends(c.bExec, c.applied[k].block)
  }

  /** Every decided block is in the block directory with its own body. */
  predicate DecidedOnDisk(c: Core) {
    forall b | b in c.decided && b.Node? :: b in c.disk && c.disk[b] == b.body
  }

  lemma DecidesItsBranchHolds(c: Core)
    requires c.decided == Ancestors(c.bExec)
    ensures DecidesItsBranch(c)
  {
    forall b ensures b in c.decided <==> Extends(c.bExec, b) { AncestorsAreExtended(c.bExec, b); }
  }

  lemma AppliesInOrderHolds(c: Core)
    requires c.applied == OwnCommands(c.bExec, 0)
    ensures AppliesInOrder(c)
  {
    CommandsAreConsecutive(c.bExec);
    forall k | 0 <= k < |c.applied| ensures Extends(c.bExec, c.applied[k].block) {
      AncestorAtProperties(c.bExec, k + 1);
    }
  }

  lemma DecidedOnDiskHolds(c: Core)
    requires DiskInv(c) && c.decided == Ancestors(c.bExec)
    ensures DecidedOnDisk(c)
  {
    WrittenBelow(c.written, c.bExec);
  }

  /** In every run each replica decides exactly one branch, hands each of its blocks to the VM once and
      in order with an unpruned body, and has them on disk. */
  lemma DecisionsAreOrderedAndDurable(p: Params, run: seq<System>, steps: seq<Step>, i: nat, r: ReplicaId)
    requires GoodRun(p, run, steps) && i < |run| && r in Honest(p)
    ensures r in run[i].cores
    ensures DecidesItsBranch(run[i].cores[r])
    ensures AppliesInOrder(run[i].cores[r])
    ensures DecidedOnDisk(run[i].cores[r])
  {
    RunInvariant(p, run, steps, i);
    var c := run[i].cores[r];
    assert Ok(p, run[i], r);
    DecidesItsBranchHolds(c);
    AppliesInOrderHolds(c);
    DecidedOnDiskHolds(c);
  }

  /** The lock lemma and the uniqueness of certificates, in every reachable state. */
  lemma CertificatesInEveryRun(p: Params, run: seq<System>, steps: seq<Step>, i: nat)
    requires GoodRun(p, run, steps) && i < |run|
    ensures forall a, b | Certified(p, run[i].ballots, a) && Certified(p, run[i].ballots, b)
                          && Height(a) == Height(b) :: a == b
    ensures forall b, b1, b2, d | ThreeChain(p, run[i].ballots, b, b1, b2) && Certified(p, run[i].ballots, d)
                                  && Height(d) >= Height(b) :: Extends(d, b)
  {
    RunInvariant(p, run, steps, i);
    var bal := run[i].ballots;
    forall a, b | Certified(p, bal, a) && Certified(p, bal, b) && Height(a) == Height(b) ensures a == b {
      OneCertificatePerHeight(p, bal, a, b);
    }
    forall b, b1, b2, d | ThreeChain(p, bal, b, b1, b2) && Certified(p, bal, d) && Height(d) >= Height(b)
      ensures Extends(d, b)
    {
      LockLemma(p, bal, b, b1, b2, d);
    }
  }

  /** hqc, lock and executed block are certified and ordered in every reachable state. */
  lemma PointersInEveryRun(p: Params, run: seq<System>, steps: seq<Step>, i: nat, r: ReplicaId)
    requires GoodRun(p, run, steps) && i < |run| && r in Honest(p)
    ensures r in run[i].cores
    ensures var c := run[i].cores[r];
            && Height(c.hqc.block) >= Height(c.bLock) >= Height(c.bExec)
            && Certified(p, run[i].ballots, c.hqc.block)
            && Certified(p, run[i].ballots, c.bLock)
            && Certified(p, run[i].ballots, c.bExec)
            && Extends(c.bLock, c.bExec) && Extends(c.bLeaf, c.hqc.block)
  {
    RunInvariant(p, run, steps, i);
    var c := run[i].cores[r];
    assert Ok(p, run[i], r);
    VerifiedIsCertified(p, run[i].ballots, c.hqc);
    CommittedIsCertified(p, run[i].ballots, c.bExec);
    ExecutedIsBelow(p, run[i].ballots, c.bExec, c.bLock);
  }
}
