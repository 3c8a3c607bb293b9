/** What every step of an honest replica keeps, given the certificates that exist. */
module ReplicaInvariant {
  import opened Blocks
  import opened Quorums
  import opened CoreSpec
  import opened Safety

  /** The check a received certificate passes: enough of the named replicas really signed. */
  predicate QcVerifies(p: Params, bal: Ballots, qc: Qc) {
    || qc.block.Genesis?
    || (&& qc.sigs.Keys <= p.replicas
        && |set r | r in qc.sigs && Signed(p, bal, r, qc.block)| >= NMajority(|p.replicas|))
  }

  lemma VerifiedIsCertified(p: Params, bal: Ballots, qc: Qc)
    requires QcVerifies(p, bal, qc)
    ensures Certified(p, bal, qc.block)
  {
    if qc.block.Node? {
      var q := set r | r in qc.sigs && Signed(p, bal, r, qc.block);
      assert Backs(p, bal, q, qc.block);
    }
  }

  // -------------------------------------------------------------------------------------------
  // The invariant

  ghost predicate StoredOk(p: Params, bal: Ballots, store: set<Block>, b: Block) {
    && SoundJustify(b) && Height(b) < VHEIGHT_MODULUS
    && (b.Node? ==> b.parent in store && b.justify in store
                    && QcVerifies(p, bal, JustifyQc(b)))
  }

  ghost predicate StoreInv(p: Params, bal: Ballots, c: Core) {
    && Genesis in c.store
    && forall b {:trigger StoredOk(p, bal, c.store, b)} | b in c.store :: StoredOk(p, bal, c.store, b)
  }

  ghost predicate PointersInv(p: Params, bal: Ballots, c: Core) {
    && c.hqc.block in c.store && c.bLock in c.store && c.bExec in c.store && c.bLeaf in c.store
    && QcVerifies(p, bal, c.hqc)
    && Certified(p, bal, c.bLock)
    && Extends(c.bLeaf, c.hqc.block)
    && Height(c.hqc.block) >= Height(c.bLock) >= Height(c.bExec)
  }

  /** `b` was decided: it is the tail of a certified three-chain. */
  ghost predicate Committed(p: Params, bal: Ballots, b: Block) {
    b.Genesis? || exists b1, b2 :: ThreeChain(p, bal, b, b1, b2)
  }

  ghost predicate DecidedInv(p: Params, bal: Ballots, c: Core) {
    && Committed(p, bal, c.bExec)
    && c.decided == Ancestors(c.bExec)
    && c.applied == OwnCommands(c.bExec, 0)
    && c.index == IndexAbove(map[], c.bExec, 0)
    && (c.bExec.Genesis? ==> c.topQc.None?)
    && (c.bExec.Node? ==> c.topQc.Some? && c.topQc.value.block == c.bExec
                          && QcVerifies(p, bal, c.topQc.value))
  }

  ghost predicate DiskInv(c: Core) {
    && Genesis in c.written && c.written <= c.store
    && c.bExec in c.written
    && (forall b {:trigger b.parent} | b in c.written && b.Node? :: b.parent in c.written)
    && (forall b | b in c.written && b.Node? :: b in c.disk && c.disk[b] == b.body)
  }

  ghost predicate PruneInv(c: Core) {
    && c.pruneLimit <= PruneHeight(Height(c.bExec))
    && c.bodies.Keys == c.store
    && forall b | b in c.bodies && b.Node? && Height(b) >= c.pruneLimit :: c.bodies[b] == b.body
  }

  ghost predicate CoreInv(p: Params, bal: Ballots, c: Core) {
    && StoreInv(p, bal, c)
    && PointersInv(p, bal, c)
    && DecidedInv(p, bal, c)
    && DiskInv(c)
    && PruneInv(c)
  }

  // -------------------------------------------------------------------------------------------
  // More votes never hurt

  lemma VerifiesMonotone(p: Params, bal: Ballots, bal': Ballots, qc: Qc)
    requires BallotsGrow(bal, bal') && QcVerifies(p, bal, qc)
    ensures QcVerifies(p, bal', qc)
  {
    if qc.block.Node? {
      var q := set r | r in qc.sigs && Signed(p, bal, r, qc.block);
      var q' := set r | r in qc.sigs && Signed(p, bal', r, qc.block);
      SubsetSize(q, q');
    }
  }

  lemma CommittedMonotone(p: Params, bal: Ballots, bal': Ballots, b: Block)
    requires BallotsGrow(bal, bal') && Committed(p, bal, b)
    ensures Committed(p, bal', b)
  {
    if b.Node? {
      var b1, b2 :| ThreeChain(p, bal, b, b1, b2);
      CertifiedMonotone(p, bal, bal', b);
      CertifiedMonotone(p, bal, bal', b1);
      CertifiedMonotone(p, bal, bal', b2);
      assert ThreeChain(p, bal', b, b1, b2);
    }
  }

  lemma CoreInvMonotone(p: Params, bal: Ballots, bal': Ballots, c: Core)
    requires BallotsGrow(bal, bal') && CoreInv(p, bal, c)
    ensures CoreInv(p, bal', c)
  {
    forall b | b in c.store ensures StoredOk(p, bal', c.store, b) {
      assert StoredOk(p, bal, c.store, b);
      if b.Node? {
        VerifiesMonotone(p, bal, bal', JustifyQc(b));
      }
    }
    VerifiesMonotone(p, bal, bal', c.hqc);
    CertifiedMonotone(p, bal, bal', c.bLock);
    CommittedMonotone(p, bal, bal', c.bExec);
    if c.topQc.Some? && c.bExec.Node? {
      VerifiesMonotone(p, bal, bal', c.topQc.value);
    }
  }

  // -------------------------------------------------------------------------------------------
  // Storing, flushing and proposing

  lemma InsertKeeps(p: Params, bal: Ballots, c: Core, b: Block)
    requires CoreInv(p, bal, c)
    requires b.Node? ==> Height(b) < VHEIGHT_MODULUS && SoundJustify(b) && QcVerifies(p, bal, JustifyQc(b))
    ensures CoreInv(p, bal, Insert(c, b))
  {
    InsertKeepsStore(p, bal, c, b);
    InsertKeepsBodies(c, b);
  }

  lemma InsertKeepsStore(p: Params, bal: Ballots, c: Core, b: Block)
    requires StoreInv(p, bal, c)
    requires b.Node? ==> Height(b) < VHEIGHT_MODULUS && SoundJustify(b) && QcVerifies(p, bal, JustifyQc(b))
    ensures StoreInv(p, bal, Insert(c, b))
  {
    var c' := Insert(c, b);
    forall a | a in c'.store ensures StoredOk(p, bal, c'.store, a) {
      if a in c.store {
        assert StoredOk(p, bal, c.store, a);
      }
    }
  }

  lemma InsertKeepsBodies(c: Core, b: Block)
    requires PruneInv(c)
    ensures PruneInv(Insert(c, b))
  {
  }

  lemma FlushKeeps(p: Params, bal: Ballots, c: Core, victims: set<Block>)
    requires CoreInv(p, bal, c)
    requires forall b | b in victims :: Height(b) < c.pruneLimit
    ensures CoreInv(p, bal, Flush(c, victims))
  {
  }

  /** A minted block justifies one of its ancestors with a verifying certificate, and its insertion
      succeeds.  Only off-chain blocks below it can make it off-chain. */
  lemma MintedBlockIsValid(p: Params, bal: Ballots, c: Core, body: Body)
    requires CoreInv(p, bal, c)
    ensures CanInsert(c, MintedBlock(c, body))
    ensures Extends(MintedBlock(c, body).parent, MintedBlock(c, body).justify)
    ensures OnChain(MintedBlock(c, body)) <==> OnChain(c.bLeaf)
    ensures QcVerifies(p, bal, JustifyQc(MintedBlock(c, body)))
  {
    assert StoredOk(p, bal, c.store, c.bLeaf);
  }

  lemma ProposeKeeps(p: Params, bal: Ballots, c: Core, body: Body)
    requires CoreInv(p, bal, c) && Height(c.bLeaf) + 1 < VHEIGHT_MODULUS
    ensures Propose(c, body).Some?
    ensures CoreInv(p, bal, Propose(c, body).value)
  {
    MintedBlockIsValid(p, bal, c, body);
    InsertKeeps(p, bal, c, MintedBlock(c, body));
  }

  // -------------------------------------------------------------------------------------------
  // hqc

  lemma UpdateHqcKeeps(p: Params, bal: Ballots, c: Core, qc: Qc)
    requires CoreInv(p, bal, c) && qc.block in c.store && QcVerifies(p, bal, qc)
    ensures CoreInv(p, bal, UpdateHqc(c, qc))
    ensures Height(UpdateHqc(c, qc).hqc.block) >= Height(qc.block)
  {
  }

  lemma VotesVerify(p: Params, bal: Ballots, b: Block, before: Signatures, voter: ReplicaId, sig: Signature)
    requires before.Keys + {voter} <= p.replicas
    requires forall r | r in before.Keys + {voter} :: Signed(p, bal, r, b)
    requires |AddSignature(before, voter, sig)| >= NMajority(|p.replicas|)
    ensures QcVerifies(p, bal, Qc(b, AddSignature(before, voter, sig)))
  {
    var sigs := AddSignature(before, voter, sig);
    assert sigs.Keys == set r | r in sigs && Signed(p, bal, r, b);
  }

  lemma VoteKeeps(p: Params, bal: Ballots, c: Core, b: Block, before: Signatures, voter: ReplicaId, sig: Signature)
    requires CoreInv(p, bal, c) && b in c.store
    requires before.Keys + {voter} <= p.replicas
    requires forall r | r in before.Keys + {voter} :: Signed(p, bal, r, b)
    ensures CoreInv(p, bal, OnReceiveVote(c, NMajority(|p.replicas|), b, before, voter, sig))
  {
    var qc := Qc(b, AddSignature(before, voter, sig));
    var c' := OnReceiveVote(c, NMajority(|p.replicas|), b, before, voter, sig);
    assert c' == c || (c' == UpdateHqc(c, qc) && |qc.sigs| >= NMajority(|p.replicas|));
    if c' != c {
      VotesVerify(p, bal, b, before, voter, sig);
      UpdateHqcKeeps(p, bal, c, qc);
    }
  }

  // -------------------------------------------------------------------------------------------
  // The lock, and what reaches the disk

  lemma CommittedIsCertified(p: Params, bal: Ballots, b: Block)
    requires Committed(p, bal, b)
    ensures Certified(p, bal, b)
  {
    if b.Node? {
      var b1, b2 :| ThreeChain(p, bal, b, b1, b2);
    }
  }

  /** The last executed block is below every certified block that is as high. */
  lemma ExecutedIsBelow(p: Params, bal: Ballots, b: Block, d: Block)
    requires ValidParams(p) && BallotInv(p, bal)
    requires Committed(p, bal, b) && Certified(p, bal, d) && Height(d) >= Height(b)
    ensures Extends(d, b)
  {
    if b.Genesis? {
      GenesisIsBelow(d);
    } else {
      var b1, b2 :| ThreeChain(p, bal, b, b1, b2);
      LockLemma(p, bal, b, b1, b2, d);
    }
  }

  lemma {:induction false} WriteToDiskFrame(c: Core, b: Block)
    ensures var c' := WriteToDisk(c, b); c' == c.(written := c'.written, disk := c'.disk)
    ensures b in WriteToDisk(c, b).written && c.written <= WriteToDisk(c, b).written
    decreases b
  {
    if b !in c.written && b.Node? {
      WriteToDiskFrame(c.(written := c.written + {b}, disk := c.disk[b := ReadBody(c.bodies, b)]), b.parent);
    }
  }

  /** Only the written flags and the block directory change, and they take in the branch of `b`. */
  predicate WroteBranch(c: Core, c': Core, b: Block) {
    && c' == c.(written := c'.written, disk := c'.disk)
    && c'.written == c.written + Ancestors(b)
    && c'.disk.Keys == c.disk.Keys + (Ancestors(b) - c.written)
    && (forall a | a in Ancestors(b) - c.written :: a.Node? && c'.disk[a] == a.body)
    && (forall a | a in c.disk && a !in Ancestors(b) - c.written :: c'.disk[a] == c.disk[a])
  }

  /** Writing a block flags and saves exactly the ancestors not written before. */
  lemma {:induction false} WriteToDiskEffect(c: Core, b: Block)
    requires forall a | a in Ancestors(b) && a in c.written && a.Node? :: Ancestors(a.parent) <= c.written
    requires forall a | a in Ancestors(b) && a !in c.written :: a.Node? && ReadBody(c.bodies, a) == a.body
    ensures WroteBranch(c, WriteToDisk(c, b), b)
    decreases b
  {
    if b !in c.written {
      var c1 := c.(written := c.written + {b}, disk := c.disk[b := ReadBody(c.bodies, b)]);
      assert b !in Ancestors(b.parent) by {
        AncestorsAreExtended(b.parent, b);
        if b in Ancestors(b.parent) { ExtendsHeight(b.parent, b); }
      }
      forall a | a in Ancestors(b.parent) && a in c1.written && a.Node? ensures Ancestors(a.parent) <= c1.written {
        assert a in Ancestors(b);
      }
      WriteToDiskEffect(c1, b.parent);
    }
  }

  lemma {:induction false} WrittenBelow(written: set<Block>, b: Block)
    requires forall a | a in written && a.Node? :: a.parent in written
    requires b in written
    ensures Ancestors(b) <= written
  {
    if b.Node? {
      WrittenBelow(written, b.parent);
    }
  }

  lemma {:induction false} StoredBelow(p: Params, bal: Ballots, c: Core, b: Block)
    requires StoreInv(p, bal, c) && b in c.store
    ensures Ancestors(b) <= c.store
  {
    if b.Node? {
      assert StoredOk(p, bal, c.store, b);
      StoredBelow(p, bal, c, b.parent);
    }
  }

  /** What is still to be written lies above the last executed block, so it was never flushed. */
  lemma UnwrittenIsIntact(c: Core, lock: Block, a: Block)
    requires DiskInv(c) && PruneInv(c)
    requires Extends(lock, c.bExec)
    requires a in Ancestors(lock) && a in c.store && a !in c.written
    ensures Height(a) > Height(c.bExec) && ReadBody(c.bodies, a) == a.body
  {
    AncestorsAreExtended(lock, a);
    if Height(a) <= Height(c.bExec) {
      AncestorsAreLinear(lock, a, c.bExec);
      AncestorsAreExtended(c.bExec, a);
      WrittenBelow(c.written, c.bExec);
    }
  }

  lemma WriteToDiskAtLock(c: Core)
    requires DiskInv(c) && PruneInv(c) && Extends(c.bLock, c.bExec) && Ancestors(c.bLock) <= c.store
    ensures WroteBranch(c, WriteToDisk(c, c.bLock), c.bLock)
  {
    forall a | a in Ancestors(c.bLock) && a !in c.written ensures a.Node? && ReadBody(c.bodies, a) == a.body {
      UnwrittenIsIntact(c, c.bLock, a);
    }
    forall a: Block | a in c.written && a.Node? ensures Ancestors(a.parent) <= c.written {
      WrittenBelow(c.written, a.parent);
    }
    WriteToDiskEffect(c, c.bLock);
  }

  lemma WroteBranchKeepsDisk(c: Core, c': Core, b: Block)
    requires DiskInv(c) && WroteBranch(c, c', b) && Ancestors(b) <= c.store
    ensures DiskInv(c')
  {
    forall a | a in c'.written && a.Node? ensures a.parent in c'.written {
      if a !in c.written {
        AncestorsAreExtended(b, a);
        ExtendsTransitive(b, a, a.parent);
        AncestorsAreExtended(b, a.parent);
      }
    }
    assert Genesis !in Ancestors(b) - c.written;
  }

  lemma WriteToDiskKeeps(p: Params, bal: Ballots, c: Core)
    requires ValidParams(p) && BallotInv(p, bal) && CoreInv(p, bal, c)
    ensures CoreInv(p, bal, WriteToDisk(c, c.bLock))
    ensures WroteBranch(c, WriteToDisk(c, c.bLock), c.bLock)
  {
    ExecutedIsBelow(p, bal, c.bExec, c.bLock);
    StoredBelow(p, bal, c, c.bLock);
    WriteToDiskAtLock(c);
    WroteBranchKeepsDisk(c, WriteToDisk(c, c.bLock), c.bLock);
  }

  /** The lock went up to `blk1` or stayed, and is as high as `blk1` now. */
  predicate LockMoved(lock: Block, lock': Block, blk1: Block) {
    && (lock' == lock || (lock' == blk1 && Height(blk1) > Height(lock)))
    && Height(lock') >= Height(blk1)
  }

  lemma RaiseLockKeeps(p: Params, bal: Ballots, c: Core, blk1: Block)
    requires ValidParams(p) && BallotInv(p, bal) && CoreInv(p, bal, c)
    requires blk1 in c.store && Certified(p, bal, blk1) && Height(blk1) <= Height(c.hqc.block)
    ensures var c' := RaiseLock(c, blk1);
            && CoreInv(p, bal, c')
            && LockMoved(c.bLock, c'.bLock, blk1)
            && Ancestors(c'.bLock) <= c'.written
            && c' == c.(bLock := c'.bLock, written := c'.written, disk := c'.disk)
  {
    var c1 := if Height(blk1) > Height(c.bLock) then c.(bLock := blk1) else c;
    WriteToDiskKeeps(p, bal, c1);
  }

  // -------------------------------------------------------------------------------------------
  // Committing

  lemma {:induction false} SegmentJoins(b: Block, a: Block)
    requires Extends(b, a)
    ensures Ancestors(a) + Segment(b, Height(a)) == Ancestors(b)
    ensures OwnCommands(a, 0) + OwnCommands(b, Height(a)) == OwnCommands(b, 0)
    ensures IndexAbove(IndexAbove(map[], a, 0), b, Height(a)) == IndexAbove(map[], b, 0)
  {
    if a != b {
      ExtendsHeight(b.parent, a);
      SegmentJoins(b.parent, a);
    }
  }

  lemma {:induction false} CommandsReadIntact(c: Core, b: Block)
    requires PruneInv(c) && Ancestors(b) <= c.store
    ensures CommandsAbove(c.bodies, b, Height(c.bExec)) == OwnCommands(b, Height(c.bExec))
  {
    if Height(b) > Height(c.bExec) {
      CommandsReadIntact(c, b.parent);
    }
  }

  /** Passing the three-chain test on an undecided block, the parent walk ends at `bExec`. */
  lemma WalkReachesExecuted(p: Params, bal: Ballots, c: Core, blk: Block, blk1: Block, blk2: Block)
    requires ValidParams(p) && BallotInv(p, bal) && CoreInv(p, bal, c)
    requires ThreeChain(p, bal, blk, blk1, blk2) && blk !in c.decided
    ensures Extends(blk, c.bExec) && AncestorAt(blk, Height(c.bExec)) == c.bExec
  {
    if Height(blk) >= Height(c.bExec) {
      ExecutedIsBelow(p, bal, c.bExec, blk);
    } else {
      CommittedIsCertified(p, bal, c.bExec);
      LockLemma(p, bal, blk, blk1, blk2, c.bExec);
      AncestorsAreExtended(c.bExec, blk);
    }
    WalkDecidesAncestry(blk, c.bExec);
  }

  lemma CommitKeeps(p: Params, bal: Ballots, c: Core, blk: Block, blk1: Block, blk2: Block)
    requires ValidParams(p) && BallotInv(p, bal) && CoreInv(p, bal, c)
    requires ThreeChain(p, bal, blk, blk1, blk2) && blk !in c.decided && blk in c.store
    requires QcVerifies(p, bal, JustifyQc(blk1))
    requires Height(c.bLock) >= Height(blk1) && Ancestors(c.bLock) <= c.written
    ensures var r := Commit(c, JustifyQc(blk1));
            && r.1 == Done
            && CoreInv(p, bal, r.0)
            && r.0.bExec == blk && r.0.bLock == c.bLock && Extends(blk, c.bExec)
  {
    WalkReachesExecuted(p, bal, c, blk, blk1, blk2);
    SegmentJoins(blk, c.bExec);
    StoredBelow(p, bal, c, blk);
    CommandsReadIntact(c, blk);
    ExtendsHeight(blk, c.bExec);
    LockLemma(p, bal, blk, blk1, blk2, c.bLock);
    AncestorsAreExtended(c.bLock, blk);
    assert Committed(p, bal, blk);
    AncestorsAreExtended(c.bExec, Genesis);
    GenesisIsBelow(c.bExec);
  }

  // -------------------------------------------------------------------------------------------
  // update, whole

  /** The two blocks `update` looks at below its argument, with what is known about them. */
  lemma StoredJustify(p: Params, bal: Ballots, c: Core, b: Block)
    requires StoreInv(p, bal, c) && b in c.store && b.Node?
    ensures b.justify in c.store && Certified(p, bal, b.justify)
    ensures SoundJustify(b) && SoundJustify(b.justify)
    ensures Height(GrandJustify(b)) <= Height(b.justify) <= Height(b)
    ensures QcVerifies(p, bal, JustifyQc(b))
  {
    assert StoredOk(p, bal, c.store, b) && StoredOk(p, bal, c.store, b.justify);
    VerifiedIsCertified(p, bal, JustifyQc(b));
    GrandJustifyIsLow(b);
  }

  lemma DecidedIsLow(p: Params, bal: Ballots, c: Core, b: Block)
    requires CoreInv(p, bal, c) && b in c.decided
    ensures Height(b) <= Height(c.bExec) <= Height(c.bLock)
  {
    AncestorsAreExtended(c.bExec, b);
    ExtendsHeight(c.bExec, b);
  }

  lemma GenesisDecided(p: Params, bal: Ballots, c: Core)
    requires CoreInv(p, bal, c)
    ensures Genesis in c.decided
  {
    GenesisIsBelow(c.bExec);
    AncestorsAreExtended(c.bExec, Genesis);
  }

  /** A run of `update` from `c` to `r` went well: no breach, the invariant kept, the lock not lowered,
      and what was executed only extended. */
  ghost predicate WentWell(p: Params, bal: Ballots, c: Core, r: (Core, Outcome)) {
    && r.1 == Done
    && CoreInv(p, bal, r.0)
    && Height(r.0.bLock) >= Height(c.bLock)
    && Extends(r.0.bExec, c.bExec)
    && r.0.vheight == c.vheight && r.0.store == c.store
  }

  lemma TryCommitKeeps(p: Params, bal: Ballots, c: Core, blk1: Block, blk2: Block)
    requires ValidParams(p) && BallotInv(p, bal) && CoreInv(p, bal, c)
    requires blk2 in c.store && blk2.Node? && blk1 == blk2.justify
    requires Certified(p, bal, blk2)
    requires Height(c.bLock) >= Height(blk1) && Ancestors(c.bLock) <= c.written
    ensures WentWell(p, bal, c, TryCommit(c, blk1, blk2))
    ensures TryCommit(c, blk1, blk2).0.bLock == c.bLock
  {
    StoredJustify(p, bal, c, blk2);
    if blk1.Node? {
      StoredJustify(p, bal, c, blk1);
      var blk := blk1.justify;
      if blk !in c.decided && blk2.parent == blk1 && blk1.parent == blk {
        assert ThreeChain(p, bal, blk, blk1, blk2);
        CommitKeeps(p, bal, c, blk, blk1, blk2);
        return;
      }
    }
    assert TryCommit(c, blk1, blk2) == (c, Done);
  }

  lemma LockAndCommitKeeps(p: Params, bal: Ballots, c: Core, blk2: Block)
    requires ValidParams(p) && BallotInv(p, bal) && CoreInv(p, bal, c)
    requires blk2 in c.store && blk2.Node?
    requires Certified(p, bal, blk2) && Height(blk2) <= Height(c.hqc.block)
    ensures WentWell(p, bal, c, LockAndCommit(c, blk2))
    ensures LockMoved(c.bLock, LockAndCommit(c, blk2).0.bLock, blk2.justify)
  {
    StoredJustify(p, bal, c, blk2);
    if blk2.justify in c.decided {
      DecidedIsLow(p, bal, c, blk2.justify);
    } else {
      RaiseLockKeeps(p, bal, c, blk2.justify);
      TryCommitKeeps(p, bal, RaiseLock(c, blk2.justify), blk2.justify, blk2);
    }
  }

  lemma UpdateUndecided(p: Params, bal: Ballots, c: Core, nblk: Block)
    requires ValidParams(p) && BallotInv(p, bal) && CoreInv(p, bal, c) && nblk in c.store
    requires nblk.Node? && nblk.justify.Node? && nblk.justify !in c.decided
    ensures WentWell(p, bal, c, Update(c, nblk))
    ensures LockMoved(c.bLock, Update(c, nblk).0.bLock, nblk.justify.justify)
  {
    StoredJustify(p, bal, c, nblk);
    UpdateHqcKeeps(p, bal, c, JustifyQc(nblk));
    LockAndCommitKeeps(p, bal, UpdateHqc(c, JustifyQc(nblk)), nblk.justify);
  }

  /** `update` on a stored block never breaches safety, and leaves the lock at blk1's height or above
      whichever early return it takes. */
  lemma UpdateKeeps(p: Params, bal: Ballots, c: Core, nblk: Block)
    requires ValidParams(p) && BallotInv(p, bal) && CoreInv(p, bal, c) && nblk in c.store
    ensures WentWell(p, bal, c, Update(c, nblk))
    ensures LockMoved(c.bLock, Update(c, nblk).0.bLock, GrandJustify(nblk))
  {
    if nblk.Node? {
      StoredJustify(p, bal, c, nblk);
      if nblk.justify in c.decided {
        DecidedIsLow(p, bal, c, nblk.justify);
      } else {
        GenesisDecided(p, bal, c);
        UpdateUndecided(p, bal, c, nblk);
      }
    }
  }
}
