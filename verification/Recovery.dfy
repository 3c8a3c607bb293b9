/** Durability, restarts and the leader gate, in every run. */
module Recovery {
  import opened Blocks
  import opened Quorums
  import opened CoreSpec
  import opened Safety
  import opened ReplicaInvariant
  import opened Reload
  import opened Protocol
  import opened Paths

  /** Crash recovery, in every run: whatever further files the crash left behind. */
  lemma RecoveryInEveryRun(p: Params, run: seq<System>, steps: seq<Step>, i: nat, r: ReplicaId,
                           blocks: map<Block, Body>, entries: Cursor)
    requires GoodRun(p, run, steps) && i < |run| && r in run[i].cores
    requires IsCursor(entries, run[i].cores[r].index)
    requires forall b | b in run[i].cores[r].disk :: b in blocks && blocks[b] == run[i].cores[r].disk[b]
    ensures var c := run[i].cores[r];
            var reloaded := ReloadAll(DiskOf(c, blocks), entries);
            && (reloaded.Some? <==> c.bExec.Node? && OnChain(c.bExec))
            && (reloaded.Some? ==>
                  && reloaded.value.bExec == reloaded.value.bLock == reloaded.value.hqc.block == c.bExec
                  && reloaded.value.applied == c.applied && reloaded.value.decided == c.decided
                  && CoreInv(p, run[i].ballots, reloaded.value))
  {
    RunInvariant(p, run, steps, i);
    assert Ok(p, run[i], r);
    ReloadAfterCrash(p, run[i].ballots, run[i].cores[r], blocks, entries);
    if run[i].cores[r].bExec.Node? {
      RecoveredMatches(p, run[i].ballots, run[i].cores[r], blocks);
    }
  }

  /** The reloaded replica goes on from its executed block: that is where it builds, what it has voted up to,
      and the height the VM bridge is started with. */
  lemma RestartResumes(p: Params, run: seq<System>, steps: seq<Step>, i: nat)
    requires GoodRun(p, run, steps) && i < |steps| && steps[i].Restart?
    ensures var c, c' := run[i].cores[steps[i].r], run[i + 1].cores[steps[i].r];
            && c'.bExec == c'.bLeaf == c.bExec && c'.vheight == Height(c.bExec) && c'.store == c.decided
            && LastLoaded(steps[i].entries, |steps[i].entries|) == Height(c.bExec)
  {
    RunInvariant(p, run, steps, i);
    var c, entries := run[i].cores[steps[i].r], steps[i].entries;
    assert Ok(p, run[i], steps[i].r);
    LastLoadedIsTop(entries, c.bExec);
    RestartedShape(p, run[i].ballots, c, steps[i].blocks, entries,
                   ReloadAll(DiskOf(c, steps[i].blocks), entries).value);
  }

  predicate StoreOnChain(c: Core) {
    forall b | b in c.store :: OnChain(b)
  }

  /** Where every block received is on-chain, so is every block stored, hence every block decided: then only a
      replica that has decided nothing fails to reload. */
  lemma {:induction false} StoresStayOnChain(p: Params, run: seq<System>, steps: seq<Step>, i: nat, r: ReplicaId)
    requires GoodRun(p, run, steps) && i < |run| && r in Honest(p)
    requires forall k | 0 <= k < |steps| :: steps[k].Receive? ==> OnChain(steps[k].b)
    ensures r in run[i].cores && StoreOnChain(run[i].cores[r])
  {
    ReplicasStay(p, run, steps, i);
    if i > 0 {
      StoresStayOnChain(p, run, steps, i - 1, r);
      RunInvariant(p, run, steps, i - 1);
      StepStaysOnChain(p, run[i - 1], steps[i - 1], r);
    }
  }

  lemma DecidedOnChain(p: Params, run: seq<System>, steps: seq<Step>, i: nat, r: ReplicaId)
    requires GoodRun(p, run, steps) && i < |run| && r in Honest(p)
    requires forall k | 0 <= k < |steps| :: steps[k].Receive? ==> OnChain(steps[k].b)
    ensures r in run[i].cores && OnChain(run[i].cores[r].bExec)
  {
    StoresStayOnChain(p, run, steps, i, r);
    RunInvariant(p, run, steps, i);
    assert Ok(p, run[i], r);
  }

  lemma StepStaysOnChain(p: Params, s: System, step: Step, r: ReplicaId)
    requires SystemInv(p, s) && Enabled(p, s, step) && Assumed(s, step)
    requires r in s.cores && StoreOnChain(s.cores[r]) && (step.Receive? ==> OnChain(step.b))
    ensures StoreOnChain(Apply(p, s, step).cores[r])
  {
    assert CoreInv(p, s.ballots, s.cores[r]) by { assert Ok(p, s, r); }
    forall b | b in Apply(p, s, step).cores[r].store ensures OnChain(b) {
      NewlyStored(p, s, step, r, b);
      if step.Mint? && step.r == r {
        MintedBlockIsValid(p, s.ballots, s.cores[r], step.body);
      }
    }
  }

  /** A block new in a store was received or minted just now. */
  lemma NewlyStored(p: Params, s: System, step: Step, r: ReplicaId, b: Block)
    requires SystemInv(p, s) && Enabled(p, s, step) && Assumed(s, step)
    requires r in s.cores && b in Apply(p, s, step).cores[r].store
    ensures || b in s.cores[r].store
            || (step.r == r && step.Receive? && step.b == b)
            || (step.r == r && step.Mint? && b == MintedBlock(s.cores[r], step.body))
  {
    assert Ok(p, s, r);
    if step.r == r {
      var c := s.cores[r];
      match step
      case Deliver(_, x, cached) =>
        DeliverOneKeeps(p, s.ballots, s.ballots[r], c, x, cached, r in s.reloaded);
      case Restart(_, blocks, entries) =>
        ReloadAfterCrash(p, s.ballots, c, blocks, entries);
        StoredBelow(p, s.ballots, c, c.bExec);
      case _ =>
    }
  }

  // -------------------------------------------------------------------------------------------
  // What a restart forgets

  /** A restart keeps the record of votes sound, as if it had not happened, exactly when the replica had
      not voted above its executed block. */
  lemma RestartIsHarmlessIff(p: Params, s: System, r: ReplicaId, blocks: map<Block, Body>, entries: Cursor)
    requires SystemInv(p, s) && Enabled(p, s, Restart(r, blocks, entries)) && r !in s.reloaded
    ensures SystemInv(p, Apply(p, s, Restart(r, blocks, entries)).(reloaded := s.reloaded))
            <==> s.cores[r].vheight <= Height(s.cores[r].bExec)
  {
    var c, c' := s.cores[r], ReloadAll(DiskOf(s.cores[r], blocks), entries).value;
    assert Ok(p, s, r);
    RestartedOk(p, s, r, blocks, entries);
    RestartedShape(p, s.ballots, c, blocks, entries, c');
    ForgetsVotesIff(s.ballots[r], c, c');
    RestartReplaces(p, s, r, c');
  }

  /** What a successful reload gives back of its pointers, store and vote height. */
  lemma RestartedShape(p: Params, bal: Ballots, c: Core, blocks: map<Block, Body>, entries: Cursor, c': Core)
    requires CoreInv(p, bal, c) && IsCursor(entries, c.index)
    requires forall b | b in c.disk :: b in blocks && blocks[b] == c.disk[b]
    requires ReloadAll(DiskOf(c, blocks), entries) == Some(c')
    ensures c'.vheight == Height(c.bExec) && c'.bLock == c'.bExec == c'.bLeaf == c.bExec && c.bExec in c'.store
    ensures c'.store == c.decided
    ensures c.topQc.Some? && QcVerifies(p, bal, Qc(c.bExec, c.topQc.value.sigs))
  {
    ReloadAfterCrash(p, bal, c, blocks, entries);
    RecoveredShape(p, bal, c, blocks);
  }

  lemma RecoveredShape(p: Params, bal: Ballots, c: Core, blocks: map<Block, Body>)
    requires CoreInv(p, bal, c) && c.bExec.Node?
    ensures var c' := Recovered(DiskOf(c, blocks), c);
            && c'.vheight == Height(c.bExec) && c'.bLock == c'.bExec == c'.bLeaf == c.bExec && c.bExec in c'.store
            && c'.store == c.decided
    ensures c.topQc.Some? && QcVerifies(p, bal, Qc(c.bExec, c.topQc.value.sigs))
  {
    assert StoredOk(p, bal, c.store, c.bExec);
    AncestorsAreExtended(c.bExec, c.bExec);
  }

  lemma RestartReplaces(p: Params, s: System, r: ReplicaId, c': Core)
    requires SystemInv(p, s) && r in s.cores && r !in s.reloaded
    requires ReplicaOk(p, s.ballots, s.ballots[r], c', true)
    ensures SystemInv(p, s.(cores := s.cores[r := c'])) <==> VoterInv(s.ballots[r], c')
  {
    var s' := s.(cores := s.cores[r := c']);
    if VoterInv(s.ballots[r], c') {
      ReplacingOneKeeps(p, s, r, c', s.ballots, s.reloaded);
    } else {
      assert !Ok(p, s', r);
    }
  }

  lemma ForgetsVotesIff(votes: map<Block, Block>, c: Core, c': Core)
    requires HeightsInv(votes, c) && VoterInv(votes, c)
    requires c'.vheight == Height(c.bExec) && c'.bLock == c.bExec
    ensures VoterInv(votes, c') <==> c.vheight <= Height(c.bExec)
  {
  }

  /** A step that decides: the block delivered and the chain under it. */
  predicate DecidesBy(c: Core, c': Core, b: Block) {
    && b.Node? && b.justify.Node? && b.justify.justify.Node?
    && b.justify.parent == b.justify.justify && b.justify.justify.parent == b.justify.justify.justify
    && c'.bExec == b.justify.justify.justify
  }

  lemma UpdateDecidesBy(c: Core, b: Block)
    ensures Update(c, b).0.bExec == c.bExec || DecidesBy(c, Update(c, b).0, b)
  {
    if b.Node? && b.justify.Node? {
      var c1 := UpdateHqc(c, JustifyQc(b));
      var blk1 := b.justify.justify;
      WriteToDiskFrame(c1, c1.bLock);
      WriteToDiskFrame(c1.(bLock := blk1), blk1);
    }
  }

  predicate VotedAhead(c: Core) {
    c.bExec.Node? ==> c.vheight >= Height(c.bExec) + 2
  }

  /** The vote height never falls, and a block or its justify is no higher afterwards. */
  lemma VoteHeightRises(votes: map<Block, Block>, c: Core, b: Block, cached: bool)
    requires HeightsInv(votes, c) && b.Node? && Height(b.justify) <= Height(b) < VHEIGHT_MODULUS
    ensures AfterVote(c, b, cached).vheight >= c.vheight
    ensures AfterVote(c, b, cached).vheight >= Height(b.justify)
  {
  }

  /** Whoever decides has voted two heights above. */
  lemma DecidingIsVotingAhead(votes: map<Block, Block>, c: Core, b: Block, cached: bool)
    requires HeightsInv(votes, c) && VotedAhead(c)
    requires b.Node? && SoundJustify(b) && Height(b) < VHEIGHT_MODULUS
    ensures VotedAhead(OnReceiveProposal(c, b, cached).0)
  {
    SoundHeight(b);
    VoteHeightRises(votes, c, b, cached);
    UpdateDecidesBy(AfterVote(c, b, cached), b);
    UpdateKeepsVheight(AfterVote(c, b, cached), b);
    AheadOf(AfterVote(c, b, cached), Update(AfterVote(c, b, cached), b).0, b);
  }

  lemma AheadOf(c: Core, c': Core, b: Block)
    requires VotedAhead(c) && c'.vheight == c.vheight && b.Node? && c.vheight >= Height(b.justify)
    requires c'.bExec == c.bExec || DecidesBy(c, c', b)
    ensures VotedAhead(c')
  {
  }

  lemma UpdateKeepsVheight(c: Core, b: Block)
    ensures Update(c, b).0.vheight == c.vheight
  {
    if b.Node? && b.justify.Node? {
      var c1 := UpdateHqc(c, JustifyQc(b));
      var blk1 := b.justify.justify;
      WriteToDiskFrame(c1, c1.bLock);
      WriteToDiskFrame(c1.(bLock := blk1), blk1);
    }
  }

  /** In every run: a replica that has not restarted and has decided something has voted above it.  So its
      first restart is never harmless. */
  lemma {:induction false} VotesRunAhead(p: Params, run: seq<System>, steps: seq<Step>, i: nat, r: ReplicaId)
    requires GoodRun(p, run, steps) && i < |run| && r in Honest(p)
    requires forall k | 0 <= k < i :: !(steps[k].Restart? && steps[k].r == r)
    ensures r in run[i].cores && VotedAhead(run[i].cores[r])
  {
    ReplicasStay(p, run, steps, i);
    if i > 0 {
      VotesRunAhead(p, run, steps, i - 1, r);
      RunInvariant(p, run, steps, i - 1);
      StepVotesAhead(p, run[i - 1], steps[i - 1], r);
    }
  }

  lemma StepVotesAhead(p: Params, s: System, step: Step, r: ReplicaId)
    requires SystemInv(p, s) && Enabled(p, s, step) && !(step.Restart? && step.r == r)
    requires r in s.cores && VotedAhead(s.cores[r])
    ensures VotedAhead(Apply(p, s, step).cores[r])
  {
    assert Ok(p, s, r);
    if step.r == r {
      if step.Deliver? {
        assert StoredOk(p, s.ballots, s.cores[r].store, step.b);
        DecidingIsVotingAhead(s.ballots[r], s.cores[r], step.b, step.cached);
      } else {
        QuietStepFrame(p, s.cores[r], step);
      }
    }
  }

  // -------------------------------------------------------------------------------------------
  // The second vote

  /** `n` blocks on top of `base`, each justified by it. */
  function Fork(base: Block, sigs: Signatures, body: Body, n: nat): Block {
    if n == 0 then base else Node(Fork(base, sigs, body, n - 1), base, Parsed(sigs), body)
  }

  lemma {:induction false} ForkShape(base: Block, sigs: Signatures, body: Body, n: nat)
    ensures Height(Fork(base, sigs, body, n)) == Height(base) + n
    ensures Extends(Fork(base, sigs, body, n), base)
  {
    if n > 0 {
      ForkShape(base, sigs, body, n - 1);
    }
  }

  /** The blocks of the fork can be received one after another; nothing else changes. */
  lemma {:induction false} ReceiveFork(p: Params, s: System, r: ReplicaId, base: Block, sigs: Signatures, body: Body,
                                       n: nat, exempt: Option<Block>)
    returns (s': System)
    requires r in s.cores && r in s.ballots && base in s.cores[r].store
    requires QcVerifies(p, s.ballots, Qc(base, sigs)) && Height(base) + n < VHEIGHT_MODULUS
    ensures Leads(p, s, s', exempt) && s'.ballots == s.ballots && r in s'.cores
    ensures {base, Fork(base, sigs, body, n)} <= s'.cores[r].store
    ensures s'.cores[r] == s.cores[r].(store := s'.cores[r].store, bodies := s'.cores[r].bodies)
  {
    if n == 0 {
      s' := s;
      LeadsToItself(p, s, exempt);
    } else {
      var s1 := ReceiveFork(p, s, r, base, sigs, body, n - 1, exempt);
      var b := Fork(base, sigs, body, n);
      ForkShape(base, sigs, body, n - 1);
      s' := Apply(p, s1, Receive(r, b));
      LeadsFurther(p, s, s1, exempt, Receive(r, b));
    }
  }

  ghost predicate VotedTwice(bal: Ballots, r: ReplicaId, x: Block, y: Block) {
    r in bal && x in bal[r] && y in bal[r] && x != y && Height(x) == Height(y)
  }

  /** From the reloaded state the replica votes for `y`, a block the theorems would let it receive. */
  lemma VotesAgain(p: Params, s: System, r: ReplicaId, x: Block, sigs: Signatures)
    returns (y: Block, s': System)
    requires r in s.cores && r in s.ballots && x in s.ballots[r] && x.Node?
    requires s.cores[r].vheight == Height(s.cores[r].bLock) < Height(x) < VHEIGHT_MODULUS
    requires s.cores[r].bLock in s.cores[r].store && QcVerifies(p, s.ballots, Qc(s.cores[r].bLock, sigs))
    ensures Leads(p, s, s', Some(y)) && VotedTwice(s'.ballots, r, x, y)
  {
    var base := s.cores[r].bLock;
    var n := Height(x) - Height(base);
    var body: Body := if x.body == [] then [1] else [];
    y := Fork(base, sigs, body, n);
    ForkShape(base, sigs, body, n);
    var s1 := ReceiveFork(p, s, r, base, sigs, body, n, Some(y));
    WalkDecidesAncestry(y, base);
    s' := Apply(p, s1, Deliver(r, y, true));
    LeadsFurther(p, s, s1, Some(y), Deliver(r, y, true));
  }

  /** A replica that has voted above its executed block and restarts can vote twice at one height, on
      blocks that satisfy every assumption; only that it had not caught up is amiss. */
  lemma ReloadedVotesTwice(p: Params, s: System, r: ReplicaId, blocks: map<Block, Body>, entries: Cursor)
    returns (x: Block, y: Block, s': System)
    requires SystemInv(p, s) && Enabled(p, s, Restart(r, blocks, entries))
    requires s.cores[r].vheight > Height(s.cores[r].bExec)
    ensures Leads(p, Apply(p, s, Restart(r, blocks, entries)), s', Some(y)) && VotedTwice(s'.ballots, r, x, y)
  {
    var c := s.cores[r];
    assert Ok(p, s, r);
    x :| x in s.ballots[r] && Height(x) == c.vheight;
    RestartedShape(p, s.ballots, c, blocks, entries, ReloadAll(DiskOf(c, blocks), entries).value);
    y, s' := VotesAgain(p, Apply(p, s, Restart(r, blocks, entries)), r, x, c.topQc.value.sigs);
  }

  /** In every run, the first restart of any replica that has decided something on-chain can lead to this. */
  lemma FirstRestartCanVoteTwice(p: Params, run: seq<System>, steps: seq<Step>, i: nat, r: ReplicaId)
    requires GoodRun(p, run, steps) && i < |run| && r in Honest(p)
    requires forall k | 0 <= k < i :: !(steps[k].Restart? && steps[k].r == r)
    ensures r in run[i].cores
    ensures var c := run[i].cores[r];
            c.bExec.Node? && OnChain(c.bExec) ==>
              exists entries, x, y, s' ::
                && Enabled(p, run[i], Restart(r, c.disk, entries))
                && Leads(p, Apply(p, run[i], Restart(r, c.disk, entries)), s', Some(y))
                && VotedTwice(s'.ballots, r, x, y)
  {
    VotesRunAhead(p, run, steps, i, r);
    RunInvariant(p, run, steps, i);
    var c := run[i].cores[r];
    assert Ok(p, run[i], r);
    if c.bExec.Node? && OnChain(c.bExec) {
      var entries := BranchCursor(c.bExec);
      ReloadAfterCrash(p, run[i].ballots, c, c.disk, entries);
      var x, y, s' := ReloadedVotesTwice(p, run[i], r, c.disk, entries);
    }
  }

  // -------------------------------------------------------------------------------------------
  // Durability, at the moment of deciding

  /** When `update` reaches its commit, everything it is about to decide is already on disk, even if the
      lock is some other block than blk1. */
  lemma DurableBeforeDeciding(p: Params, bal: Ballots, c: Core, nblk: Block)
    requires ValidParams(p) && BallotInv(p, bal) && CoreInv(p, bal, c) && nblk in c.store
    requires nblk.Node? && nblk.justify.Node? && nblk.justify.justify.Node?
    requires nblk.justify !in c.decided && nblk.justify.justify !in c.decided
    ensures var blk1 := nblk.justify.justify;
            var c2 := RaiseLock(UpdateHqc(c, JustifyQc(nblk)), blk1);
            var after := Update(c, nblk).0;
            && after.disk == c2.disk
            && forall b | b in after.decided && b.Node? :: b in c2.disk && c2.disk[b] == b.body
  {
    UpdateKeeps(p, bal, c, nblk);
    DecidedOnDiskHolds(Update(c, nblk).0);
  }

  // -------------------------------------------------------------------------------------------
  // The leader gate

  /** A leaf that may carry a nonempty child has its great-grandparent decided once `update` has run on
      it, whichever early return was taken. */
  lemma LeaderGate(p: Params, bal: Ballots, c: Core, proposer: map<Block, ReplicaId>, self: ReplicaId, leaf: Block)
    requires ValidParams(p) && BallotInv(p, bal) && CoreInv(p, bal, c) && leaf in c.store
    requires SupportsNonempty(proposer, self, leaf, 3)
    ensures leaf.Node? && leaf.parent.Node? && leaf.parent.parent.Node?
    ensures leaf.parent.parent.parent in Update(c, leaf).0.decided
  {
    var p1 := leaf.parent;
    assert SupportsNonempty(proposer, self, p1, 2);
    var p2 := p1.parent;
    assert SupportsNonempty(proposer, self, p2, 1);
    UpdateKeeps(p, bal, c, leaf);
    if p1 in c.decided {
      BelowDecided(c, p1);
    }
    if p2 in c.decided {
      BelowDecided(c, p2);
    }
    if p1 !in c.decided && p2 !in c.decided {
      GateAtCommit(c, leaf);
    }
  }

  /** In every run, once a proposal that opens the gate has been handled. */
  lemma LeaderGateInEveryRun(p: Params, run: seq<System>, steps: seq<Step>, i: nat,
                             proposer: map<Block, ReplicaId>, self: ReplicaId)
    requires GoodRun(p, run, steps) && i < |steps| && steps[i].Deliver?
    requires SupportsNonempty(proposer, self, steps[i].b, 3)
    ensures var leaf := steps[i].b;
            && leaf.Node? && leaf.parent.Node? && leaf.parent.parent.Node?
            && leaf.parent.parent.parent in run[i + 1].cores[steps[i].r].decided
  {
    RunInvariant(p, run, steps, i);
    var c, leaf := run[i].cores[steps[i].r], steps[i].b;
    assert Ok(p, run[i], steps[i].r);
    AfterVoteKeeps(p, run[i].ballots, c, leaf, steps[i].cached);
    LeaderGate(p, run[i].ballots, AfterVote(c, leaf, steps[i].cached), proposer, self, leaf);
  }

  lemma BelowDecided(c: Core, b: Block)
    requires c.decided == Ancestors(c.bExec) && b.Node? && b in c.decided
    ensures b.parent in c.decided
  {
    BranchIsClosed(c.bExec, b);
  }

  /** Past the first two early returns, a directly linked chain below `leaf` ends decided. */
  lemma GateAtCommit(c: Core, leaf: Block)
    requires leaf.Node? && leaf.parent.Node? && leaf.parent.parent.Node?
    requires leaf.justify == leaf.parent && leaf.parent.justify == leaf.parent.parent
    requires leaf.parent.parent.justify == leaf.parent.parent.parent
    requires leaf.parent !in c.decided && leaf.parent.parent !in c.decided
    requires c.decided == Ancestors(c.bExec)
    requires Update(c, leaf).1 == Done
    ensures leaf.parent.parent.parent in Update(c, leaf).0.decided
  {
    var blk1 := leaf.parent.parent;
    var c1 := UpdateHqc(c, JustifyQc(leaf));
    var c2 := RaiseLock(c1, blk1);
    WriteToDiskFrame(if Height(blk1) > Height(c1.bLock) then c1.(bLock := blk1) else c1,
                     if Height(blk1) > Height(c1.bLock) then blk1 else c1.bLock);
    assert c2.decided == c.decided && c2.bExec == c.bExec;
    if blk1.parent !in c.decided {
      assert AncestorAt(blk1.parent, Height(c.bExec)) == c.bExec;
      AncestorsAreExtended(c.bExec, c.bExec);
    }
  }
}
