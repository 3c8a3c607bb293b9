/** What each handler of an honest replica does in every run, told on the block tree: how the votes, the
    certificate, the leaf, the lock and the executed block move, and when they do not. */
module Handlers {
  import opened Blocks
  import opened Quorums
  import opened CoreSpec
  import opened Safety
  import opened ReplicaInvariant
  import opened Reload
  import opened Protocol
  import opened Recovery

  // -------------------------------------------------------------------------------------------
  // Votes

  /** In a reachable state the block above the last vote is not the lock itself, so it does not matter which
      copy of it is delivered. */
  lemma RuleInRuns(p: Params, s: System, r: ReplicaId, b: Block, cached: bool)
    requires SystemInv(p, s) && r in s.cores && b.Node?
    ensures var c := s.cores[r];
            Opinion(c, b, cached) <==>
              Height(b) > c.vheight && (Height(b.justify) > Height(c.bLock) || Extends(b, c.bLock))
  {
    assert Ok(p, s, r);
    OpinionOnTree(s.cores[r], b, cached);
  }

  lemma HeightFits(h: nat)
    requires h < VHEIGHT_MODULUS
    ensures TruncateHeight(h) == h
  {
  }

  lemma VoteHeightAfter(c: Core, b: Block, cached: bool)
    requires Height(b) < VHEIGHT_MODULUS
    ensures OnReceiveProposal(c, b, cached).0.vheight == if Opinion(c, b, cached) then Height(b) else c.vheight
  {
    HeightFits(Height(b));
    assert OnReceiveProposal(c, b, cached) == Update(AfterVote(c, b, cached), b);
    UpdateKeepsVheight(AfterVote(c, b, cached), b);
  }

  /** A delivered proposal is voted for exactly when it is above the last vote and either its justify is
      above the lock or it extends the lock; the vote is new, and records the lock. */
  lemma VotesExactly(p: Params, run: seq<System>, steps: seq<Step>, i: nat)
    requires GoodRun(p, run, steps) && i < |steps| && steps[i].Deliver?
    ensures var r, b := steps[i].r, steps[i].b;
            var c, c', votes := run[i].cores[r], run[i + 1].cores[r], run[i].ballots[r];
            if Height(b) > c.vheight && (Height(b.justify) > Height(c.bLock) || Extends(b, c.bLock))
            then && b !in votes && run[i + 1].ballots == run[i].ballots[r := votes[b := c.bLock]]
                 && c'.vheight == Height(b)
            else run[i + 1].ballots == run[i].ballots && c'.vheight == c.vheight
  {
    RunInvariant(p, run, steps, i);
    DeliverVotes(p, run[i], steps[i].r, steps[i].b, steps[i].cached);
  }

  lemma DeliverVotes(p: Params, s: System, r: ReplicaId, b: Block, cached: bool)
    requires SystemInv(p, s) && Enabled(p, s, Deliver(r, b, cached)) && Assumed(s, Deliver(r, b, cached))
    ensures var c, s' := s.cores[r], Apply(p, s, Deliver(r, b, cached));
            if Height(b) > c.vheight && (Height(b.justify) > Height(c.bLock) || Extends(b, c.bLock))
            then && b !in s.ballots[r] && s'.ballots == s.ballots[r := s.ballots[r][b := c.bLock]]
                 && s'.cores[r].vheight == Height(b)
            else s'.ballots == s.ballots && s'.cores[r].vheight == c.vheight
  {
    RuleInRuns(p, s, r, b, cached);
    if Opinion(s.cores[r], b, cached) {
      OpinionMayVote(p, s, r, b, cached);
    }
    assert Height(b) < VHEIGHT_MODULUS by {
      assert Ok(p, s, r);
      assert StoredOk(p, s.ballots, s.cores[r].store, b);
    }
    VoteHeightAfter(s.cores[r], b, cached);
  }

  lemma OnlyProposalsAreVotedFor(p: Params, run: seq<System>, steps: seq<Step>, i: nat)
    requires GoodRun(p, run, steps) && i < |steps| && !steps[i].Deliver?
    ensures run[i + 1].ballots == run[i].ballots
  {
  }

  // -------------------------------------------------------------------------------------------
  // The certificate and the leaf

  lemma PastFirstReturn(c: Core, b: Block)
    requires b.Node? && (b.justify in c.decided ==> Height(b.justify) <= Height(c.hqc.block))
    requires Genesis in c.decided
    ensures var c' := Update(c, b).0;
            if Height(b.justify) > Height(c.hqc.block) then c'.hqc == JustifyQc(b) && c'.bLeaf == b.justify
            else c'.hqc == c.hqc && c'.bLeaf == c.bLeaf
  {
    if b.justify !in c.decided {
      var c1, blk1 := UpdateHqc(c, JustifyQc(b)), b.justify.justify;
      WriteToDiskFrame(c1, c1.bLock);
      WriteToDiskFrame(c1.(bLock := blk1), blk1);
    }
  }

  /** `update` moves the certificate and the leaf together, and only up. */
  lemma UpdateMovesHqc(p: Params, bal: Ballots, c: Core, b: Block)
    requires CoreInv(p, bal, c) && b.Node?
    ensures var c' := Update(c, b).0;
            if Height(b.justify) > Height(c.hqc.block) then c'.hqc == JustifyQc(b) && c'.bLeaf == b.justify
            else c'.hqc == c.hqc && c'.bLeaf == c.bLeaf
  {
    GenesisDecided(p, bal, c);
    if b.justify in c.decided {
      DecidedIsLow(p, bal, c, b.justify);
    }
    PastFirstReturn(c, b);
  }

  lemma DeliverMovesHqc(p: Params, run: seq<System>, steps: seq<Step>, i: nat)
    requires GoodRun(p, run, steps) && i < |steps| && steps[i].Deliver?
    ensures var r, b := steps[i].r, steps[i].b;
            var c, c' := run[i].cores[r], run[i + 1].cores[r];
            if Height(b.justify) > Height(c.hqc.block) then c'.hqc == JustifyQc(b) && c'.bLeaf == b.justify
            else c'.hqc == c.hqc && c'.bLeaf == c.bLeaf
  {
    var r, b, cached := steps[i].r, steps[i].b, steps[i].cached;
    RunInvariant(p, run, steps, i);
    assert Ok(p, run[i], r);
    AfterVoteKeeps(p, run[i].ballots, run[i].cores[r], b, cached);
    UpdateMovesHqc(p, run[i].ballots, AfterVote(run[i].cores[r], b, cached), b);
  }

  /** A vote that completes a quorum on a block above the certificate makes it the new certificate, signed by
      the voters so far; no other vote moves anything. */
  lemma VoteMovesHqc(p: Params, run: seq<System>, steps: seq<Step>, i: nat)
    requires GoodRun(p, run, steps) && i < |steps| && steps[i].Vote?
    ensures var r, b, signers := steps[i].r, steps[i].b, steps[i].before.Keys;
            var c, c' := run[i].cores[r], run[i + 1].cores[r];
            var n := |p.replicas| - |p.replicas| / 3;
            if && steps[i].voter < 32 && |signers| < n <= |signers + {steps[i].voter}|
               && Height(b) > Height(c.hqc.block)
            then && c'.hqc.block == c'.bLeaf == b && c'.hqc.sigs.Keys == signers + {steps[i].voter}
                 && c' == c.(hqc := c'.hqc, bLeaf := b)
            else c' == c
  {
    var before, voter, sig := steps[i].before, steps[i].voter, steps[i].sig;
    assert AddSignature(before, voter, sig).Keys == before.Keys + {voter};
    assert |before| == |before.Keys|;
    assert |AddSignature(before, voter, sig)| == |AddSignature(before, voter, sig).Keys|;
  }

  /** In every step but minting and restarting, the certificate and the leaf stay as they are, or the
      certificate rises and the leaf is reset to it. */
  lemma LeafFollowsHqc(p: Params, run: seq<System>, steps: seq<Step>, i: nat, r: ReplicaId)
    requires GoodRun(p, run, steps) && i < |steps| && r in Honest(p)
    requires steps[i].r == r ==> !steps[i].Mint? && !steps[i].Restart?
    ensures r in run[i].cores && r in run[i + 1].cores
    ensures var c, c' := run[i].cores[r], run[i + 1].cores[r];
            if Height(c'.hqc.block) > Height(c.hqc.block) then c'.bLeaf == c'.hqc.block
            else c'.hqc == c.hqc && c'.bLeaf == c.bLeaf
  {
    ReplicasStay(p, run, steps, i);
    if steps[i].r == r {
      match steps[i]
      case Deliver(_, _, _) => DeliverMovesHqc(p, run, steps, i);
      case Vote(_, _, _, _, _) => VoteMovesHqc(p, run, steps, i);
      case _ =>
    }
  }

  /** A minted block is a child of the old leaf, carries the certificate, is stored, and is the new leaf. */
  lemma MintExactly(p: Params, run: seq<System>, steps: seq<Step>, i: nat)
    requires GoodRun(p, run, steps) && i < |steps| && steps[i].Mint?
    ensures var c, c' := run[i].cores[steps[i].r], run[i + 1].cores[steps[i].r];
            && c'.bLeaf.Node? && c'.bLeaf.parent == c.bLeaf && c'.bLeaf.justify == c.hqc.block
            && c'.bLeaf.cert.Sigs() == c.hqc.sigs && c'.bLeaf.body == steps[i].body
            && c'.store == c.store + {c'.bLeaf} && c'.hqc == c.hqc
  {
    NoStepThrows(p, run, steps, i);
  }

  // -------------------------------------------------------------------------------------------
  // The lock and the executed block

  /** The block that a delivered `b` would decide: the tail of the chain of certificates under it, if the
      top two of its three links are parent links too. */
  predicate CompletesChain(b: Block) {
    && b.Node? && b.justify.Node? && b.justify.justify.Node?
    && b.justify.parent == b.justify.justify && b.justify.justify.parent == b.justify.justify.justify
  }

  /** A delivery decides the tail of a chain exactly when that is above the executed block. */
  lemma DecidesExactly(p: Params, run: seq<System>, steps: seq<Step>, i: nat)
    requires GoodRun(p, run, steps) && i < |steps| && steps[i].Deliver?
    ensures var r, b := steps[i].r, steps[i].b;
            var c, c' := run[i].cores[r], run[i + 1].cores[r];
            if CompletesChain(b) && Height(b.justify.justify.justify) > Height(c.bExec)
            then c'.bExec == b.justify.justify.justify
            else c'.bExec == c.bExec
  {
    var r, b, cached := steps[i].r, steps[i].b, steps[i].cached;
    RunInvariant(p, run, steps, i);
    assert Ok(p, run[i], r);
    AfterVoteKeeps(p, run[i].ballots, run[i].cores[r], b, cached);
    UpdateDecides(p, run[i].ballots, AfterVote(run[i].cores[r], b, cached), b);
  }

  lemma UpdateDecides(p: Params, bal: Ballots, c: Core, b: Block)
    requires ValidParams(p) && BallotInv(p, bal) && CoreInv(p, bal, c) && b in c.store
    ensures var c' := Update(c, b).0;
            if CompletesChain(b) && Height(b.justify.justify.justify) > Height(c.bExec)
            then c'.bExec == b.justify.justify.justify
            else c'.bExec == c.bExec
  {
    UpdateKeeps(p, bal, c, b);
    ExtendsHeight(Update(c, b).0.bExec, c.bExec);
    UpdateDecidesBy(c, b);
    if CompletesChain(b) && Height(b.justify.justify.justify) > Height(c.bExec) {
      HighIsUndecided(p, bal, c, b.justify);
      HighIsUndecided(p, bal, c, b.justify.justify);
      HighIsUndecided(p, bal, c, b.justify.justify.justify);
      ReachesCommit(c, b);
    }
  }

  lemma HighIsUndecided(p: Params, bal: Ballots, c: Core, b: Block)
    requires CoreInv(p, bal, c) && Height(b) > Height(c.bExec)
    ensures b !in c.decided
  {
    if b in c.decided {
      DecidedIsLow(p, bal, c, b);
    }
  }

  lemma ReachesCommit(c: Core, b: Block)
    requires CompletesChain(b) && Update(c, b).1 == Done
    requires b.justify !in c.decided && b.justify.justify !in c.decided && b.justify.justify.justify !in c.decided
    ensures Update(c, b).0.bExec == b.justify.justify.justify
  {
    var c1, blk1 := UpdateHqc(c, JustifyQc(b)), b.justify.justify;
    WriteToDiskFrame(c1, c1.bLock);
    WriteToDiskFrame(c1.(bLock := blk1), blk1);
  }

  lemma UpdateLocks(p: Params, bal: Ballots, c: Core, b: Block)
    requires ValidParams(p) && BallotInv(p, bal) && CoreInv(p, bal, c) && b in c.store && b.Node?
    ensures Update(c, b).0.bLock
            == if b.justify.Node? && Height(b.justify.justify) > Height(c.bLock) then b.justify.justify else c.bLock
  {
    UpdateKeeps(p, bal, c, b);
  }

  /** A delivery locks the block two certificates below it exactly when that is above the lock. */
  lemma LocksExactly(p: Params, run: seq<System>, steps: seq<Step>, i: nat)
    requires GoodRun(p, run, steps) && i < |steps| && steps[i].Deliver?
    ensures var r, b := steps[i].r, steps[i].b;
            var c, c' := run[i].cores[r], run[i + 1].cores[r];
            if b.justify.Node? && Height(b.justify.justify) > Height(c.bLock) then c'.bLock == b.justify.justify
            else c'.bLock == c.bLock
  {
    var r, b, cached := steps[i].r, steps[i].b, steps[i].cached;
    RunInvariant(p, run, steps, i);
    assert Ok(p, run[i], r);
    AfterVoteKeeps(p, run[i].ballots, run[i].cores[r], b, cached);
    UpdateLocks(p, run[i].ballots, AfterVote(run[i].cores[r], b, cached), b);
  }

  /** Nothing but deliveries and restarts moves them. */
  lemma OthersMoveNoPointer(p: Params, run: seq<System>, steps: seq<Step>, i: nat, r: ReplicaId)
    requires GoodRun(p, run, steps) && i < |steps| && r in Honest(p)
    requires steps[i].r == r ==> Quiet(steps[i])
    ensures r in run[i].cores && r in run[i + 1].cores
    ensures var c, c' := run[i].cores[r], run[i + 1].cores[r];
            c'.bExec == c.bExec && c'.bLock == c.bLock && c'.vheight == c.vheight
  {
    ReplicasStay(p, run, steps, i);
    if steps[i].r == r {
      QuietStepFrame(p, run[i].cores[r], steps[i]);
    }
  }

  // -------------------------------------------------------------------------------------------
  // Pruning and durability

  /** A step that decides tells the collector to keep the last hundred heights. */
  lemma PrunesExactly(p: Params, run: seq<System>, steps: seq<Step>, i: nat)
    requires GoodRun(p, run, steps) && i < |steps| && steps[i].Deliver?
    ensures var c, c' := run[i].cores[steps[i].r], run[i + 1].cores[steps[i].r];
            c'.pruneLimit == if c'.bExec == c.bExec then c.pruneLimit
                             else if Height(c'.bExec) > 100 then Height(c'.bExec) - 100 else 0
  {
    var r, b, cached := steps[i].r, steps[i].b, steps[i].cached;
    RunInvariant(p, run, steps, i);
    assert Ok(p, run[i], r);
    AncestorsAreExtended(run[i].cores[r].bExec, run[i].cores[r].bExec);
    UpdatePrunes(AfterVote(run[i].cores[r], b, cached), b);
  }

  lemma UpdatePrunes(c: Core, b: Block)
    requires c.bExec in c.decided
    ensures var c' := Update(c, b).0;
            c'.pruneLimit == if c'.bExec == c.bExec then c.pruneLimit else PruneHeight(Height(c'.bExec))
  {
    if b.Node? && b.justify.Node? {
      var c1, blk1 := UpdateHqc(c, JustifyQc(b)), b.justify.justify;
      WriteToDiskFrame(c1, c1.bLock);
      WriteToDiskFrame(c1.(bLock := blk1), blk1);
    }
  }

  /** In every run, a stored block that is at most a hundred heights below the executed one has its body. */
  lemma RecentBodiesStay(p: Params, run: seq<System>, steps: seq<Step>, i: nat, r: ReplicaId, b: Block)
    requires GoodRun(p, run, steps) && i < |run| && r in Honest(p)
    ensures r in run[i].cores
    ensures var c := run[i].cores[r];
            b in c.store && b.Node? && Height(b) + 100 >= Height(c.bExec) ==> b in c.bodies && c.bodies[b] == b.body
  {
    RunInvariant(p, run, steps, i);
    assert Ok(p, run[i], r);
  }

  /** In every run, the locked branch is on disk. */
  lemma {:induction false} LockIsDurable(p: Params, run: seq<System>, steps: seq<Step>, i: nat, r: ReplicaId)
    requires GoodRun(p, run, steps) && i < |run| && r in Honest(p)
    ensures r in run[i].cores && run[i].cores[r].bLock in run[i].cores[r].written
    ensures var c := run[i].cores[r];
            forall b | Extends(c.bLock, b) && b.Node? :: b in c.disk && c.disk[b] == b.body
  {
    ReplicasStay(p, run, steps, i);
    if i > 0 {
      LockIsDurable(p, run, steps, i - 1, r);
      RunInvariant(p, run, steps, i - 1);
      StepKeepsLockWritten(p, run[i - 1], steps[i - 1], r);
    }
    RunInvariant(p, run, steps, i);
    assert Ok(p, run[i], r);
    BranchIsSaved(run[i].cores[r], run[i].cores[r].bLock);
  }

  lemma BranchIsSaved(c: Core, top: Block)
    requires DiskInv(c) && top in c.written
    ensures forall b | Extends(top, b) && b.Node? :: b in c.disk && c.disk[b] == b.body
  {
    WrittenBelow(c.written, top);
    forall b | Extends(top, b) ensures b in c.written { AncestorsAreExtended(top, b); }
  }

  lemma StepKeepsLockWritten(p: Params, s: System, step: Step, r: ReplicaId)
    requires SystemInv(p, s) && Enabled(p, s, step) && r in s.cores && s.cores[r].bLock in s.cores[r].written
    ensures var c' := Apply(p, s, step).cores[r]; c'.bLock in c'.written
  {
    if step.r == r {
      match step
      case Deliver(_, b, cached) => UpdateWritesLock(AfterVote(s.cores[r], b, cached), b);
      case Restart(_, blocks, entries) =>
        assert Ok(p, s, r);
        RestartedShape(p, s.ballots, s.cores[r], blocks, entries, ReloadAll(DiskOf(s.cores[r], blocks), entries).value);
        RestartedOk(p, s, r, blocks, entries);
      case _ =>
    }
  }

  lemma UpdateWritesLock(c: Core, b: Block)
    requires c.bLock in c.written
    ensures Update(c, b).0.bLock in Update(c, b).0.written
  {
    if b.Node? && b.justify.Node? {
      var c1, blk1 := UpdateHqc(c, JustifyQc(b)), b.justify.justify;
      WriteToDiskFrame(c1, c1.bLock);
      WriteToDiskFrame(c1.(bLock := blk1), blk1);
    }
  }
}
