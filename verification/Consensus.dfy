/** The replica's handlers on block objects, in place (consensus.cc, hotstuff.cc). */
module Consensus {
  import opened Blocks
  import opened CoreSpec
  import opened BlockStorage
  import Reload

  /** A replica in the middle of a commit, with its open index transaction. */
  datatype Committing = Committing(core: Core, txn: map<nat, Block>)

  function Decide(c: Core, b: Block): Core {
    c.(decided := c.decided + {b}, applied := c.applied + [Command(b, ReadBody(c.bodies, b))])
  }

  function ApplyOne(m: Committing, b: Block): Committing {
    Committing(Decide(m.core, b), m.txn[Height(b) := b])
  }

  /** Everything on the branch of `b` above height `low` applied to `c`. */
  function AppliedUpTo(c: Core, b: Block, low: nat): Committing {
    Committing(c.(decided := c.decided + Segment(b, low),
                  applied := c.applied + CommandsAbove(c.bodies, b, low)),
               IndexAbove(c.index, b, low))
  }

  /** `c` applied up to height `k` of the branch of `top` is `c1`, with the index transaction `txn`. */
  predicate AppliedTo(c: Core, top: Block, low: nat, k: nat, c1: Core, txn: map<nat, Block>) {
    Committing(c1, txn) == AppliedUpTo(c, AncestorAt(top, k), low)
  }

  /** One block further up the branch of `top`. */
  lemma NextInBranch(c: Core, top: Block, low: nat, k: nat, c1: Core, txn: map<nat, Block>)
    requires low <= k < Height(top) && AppliedTo(c, top, low, k, c1, txn)
    ensures var b := AncestorAt(top, k + 1); AppliedTo(c, top, low, k + 1, Decide(c1, b), txn[Height(b) := b])
  {
    AncestorAtSteps(top, k);
    AncestorAtProperties(top, k + 1);
  }

  lemma NothingApplied(c: Core, top: Block, low: nat)
    requires low <= Height(top)
    ensures AppliedTo(c, top, low, low, c, c.index)
  {
    AncestorAtProperties(top, low);
  }

  function Save(c: Core, b: Block): Core {
    c.(written := c.written + {b}, disk := c.disk[b := ReadBody(c.bodies, b)])
  }

  /** A decided and written block joins the store, if it is not there. */
  function TakeIn(c: Core, b: Block, body: Body): Core {
    if b in c.store then c
    else c.(store := c.store + {b}, bodies := c.bodies[b := body],
            decided := c.decided + {b}, written := c.written + {b})
  }

  /** While every stored block is decided and written, loading is joining. */
  lemma LoadsBy(c: Core, b: Block)
    requires c.store <= c.decided && c.store <= c.written && c.bodies.Keys == c.store
    ensures Reload.LoadOne(c, b).Some? <==> b in c.disk && CanInsert(c, b)
    ensures Reload.LoadOne(c, b).Some? ==>
              Reload.LoadOne(c, b).value
              == TakeIn(c, b, c.disk[b]).(applied := c.applied + [Command(b, c.disk[b])])
  {
  }

  class HotstuffCore {
    const self: ReplicaId
    const store: BlockStore
    var hqcBlock: HotstuffBlock
    var hqcSigs: Signatures
    var bLock: HotstuffBlock
    var bExec: HotstuffBlock
    var bLeaf: HotstuffBlock
    var vheight: nat
    var disk: map<Block, Body>
    var index: map<nat, Block>
    var topQc: Option<Qc>
    var applied: seq<Command>
    ghost var pruneLimit: nat    // the height last handed to the garbage collector

    ghost predicate Valid()
      reads this, store, store.gc, store.objects
    {
      && store.Valid()
      && store.IsCached(bLock) && store.IsCached(bExec)
      && hqcBlock in store.objects && hqcBlock.hash in store.cache
      && bLeaf in store.objects && bLeaf.hash in store.cache
      && (store.gc.heightToGc.Some? ==> store.gc.heightToGc.value <= pruneLimit)
    }

    /** The state of the replica, as a value. */
    ghost function State(): Core
      reads this, store
    {
      Core(store.cache.Keys, store.bodies, Qc(hqcBlock.hash, hqcSigs), bLock.hash, bExec.hash, bLeaf.hash, vheight,
           store.decided, store.written, pruneLimit, disk, index, topQc, applied)
    }

    constructor (self: ReplicaId, genesis: HotstuffBlock, store: BlockStore)
      requires store.Valid() && store.cache == map[Genesis := genesis] && store.gc.heightToGc == None
      requires store.decided == {Genesis} && store.written == {Genesis} && store.bodies == map[Genesis := []]
      ensures this.self == self && this.store == store
      ensures Valid() && State() == InitCore()
    {
      this.self, this.store := self, store;
      hqcBlock, hqcSigs := genesis, map[];
      bLock, bExec, bLeaf := genesis, genesis, genesis;
      vheight, pruneLimit := 0, 0;
      disk, index, topQc, applied := map[], map[], None, [];
      new;
      assert store.cache[Genesis].hash == Genesis;
    }

    // -----------------------------------------------------------------------------------------
    // update

    method UpdateHqc(qcBlock: HotstuffBlock, sigs: Signatures)
      requires Valid() && qcBlock in store.objects && qcBlock.hash in store.cache
      modifies this`hqcBlock, this`hqcSigs, this`bLeaf
      ensures Valid()
      ensures State() == CoreSpec.UpdateHqc(old(State()), Qc(qcBlock.hash, sigs))
      ensures if qcBlock.height > old(hqcBlock.height) then hqcBlock == bLeaf == qcBlock && hqcSigs == sigs
              else hqcBlock == old(hqcBlock) && hqcSigs == old(hqcSigs) && bLeaf == old(bLeaf)
    {
      assert store.Linked(qcBlock) && store.Linked(hqcBlock);
      if qcBlock.height > hqcBlock.height {
        hqcBlock, hqcSigs := qcBlock, sigs;
        bLeaf := qcBlock;
      }
    }

    /** Set the written flag and save what the object holds. */
    method SaveBlock(o: HotstuffBlock)
      requires Valid() && store.IsCached(o)
      modifies this`disk, store`written, o`written
      ensures Valid()
      ensures State() == Save(old(State()), o.hash)
    {
      store.ReadsFlags(o);
      store.SetWritten(o);
      disk := disk[o.hash := o.body];
    }

    /** Save this block, then recursively its parent, up to the first one already written. */
    method WriteToDisk(o: HotstuffBlock)
      requires Valid() && store.IsCached(o)
      modifies this`disk, store`written, store.objects`written
      ensures Valid()
      ensures State() == CoreSpec.WriteToDisk(old(State()), o.hash)
      decreases o.hash
    {
      store.ReadsFlags(o);
      if o.written { return; }
      store.CachedIsLinked(o);
      SaveBlock(o);
      if o.parent != null {
        store.LinksStayInside(o);
        WriteToDisk(o.parent);
      }
    }

    /** Collect what is to be committed, top down, and the block the walk stops at. */
    method CommitQueue(blk: HotstuffBlock) returns (queue: seq<HotstuffBlock>, b: HotstuffBlock)
      requires Valid() && store.IsCached(blk)
      ensures store.IsCached(b) && b.hash == AncestorAt(blk.hash, Height(bExec.hash))
      ensures QueueOf(queue, blk.hash, Height(b.hash))
    {
      queue, b := [], blk;
      store.CachedIsLinked(b);
      store.CachedIsLinked(bExec);
      while b.height > bExec.height
        invariant store.IsCached(b) && b in store.objects && b.height == Height(b.hash)
        invariant b == blk || Height(b.hash) >= Height(bExec.hash)
        invariant Height(b.hash) <= Height(blk.hash) && b.hash == AncestorAt(blk.hash, Height(b.hash))
        invariant QueueOf(queue, blk.hash, Height(b.hash))
        decreases b.height
      {
        queue := queue + [b];
        store.LinksStayInside(b);
        AncestorAtSteps(blk.hash, Height(b.hash) - 1);
        b := b.parent;
        store.CachedIsLinked(b);
      }
    }

    /** `queue` lists the cached blocks of the branch of `top` above height `low`, highest first. */
    ghost predicate QueueOf(queue: seq<HotstuffBlock>, top: Block, low: nat)
      reads store`cache
    {
      && |queue| + low == Height(top)
      && forall i | 0 <= i < |queue| ::
           store.IsCached(queue[i]) && queue[i].hash == AncestorAt(top, Height(top) - i)
    }

    /** Decide one block and hand it to the VM. */
    method ApplyBlock(o: HotstuffBlock)
      requires Valid() && store.IsCached(o)
      modifies this`applied, store`decided, o`decided
      ensures Valid()
      ensures State() == Decide(old(State()), o.hash)
    {
      store.ReadsFlags(o);
      store.SetDecided(o);
      applied := applied + [Command(o.hash, o.body)];
    }

    /** Replay the queue in reverse: ancestors first, each recorded in the index transaction. */
    method ApplyQueue(queue: seq<HotstuffBlock>, ghost top: Block, ghost low: nat) returns (txn: map<nat, Block>)
      requires Valid() && QueueOf(queue, top, low)
      modifies this`applied, store`decided, store.objects`decided
      ensures Valid()
      ensures AppliedTo(old(State()), top, low, Height(top), State(), txn)
    {
      txn := index;
      ghost var c, c1, k := State(), State(), low;
      var i := |queue|;
      NothingApplied(c, top, low);
      while i > 0
        invariant 0 <= i <= |queue| && k == Height(top) - i && low <= k && Valid() && c1 == State()
        invariant AppliedTo(c, top, low, k, c1, txn)
      {
        ghost var b, txn0 := AncestorAt(top, k + 1), txn;
        NextInBranch(c, top, low, k, c1, txn);
        i, k := i - 1, k + 1;
        assert queue[i].hash == b;
        store.CachedIsLinked(queue[i]);
        txn := txn[queue[i].height := queue[i].hash];
        assert txn == txn0[Height(b) := b];
        ApplyBlock(queue[i]);
        c1 := Decide(c1, b);
      }
    }

    /** Move the executed block and commit the index transaction. */
    method FinishCommit(blk: HotstuffBlock, sigs: Signatures, txn: map<nat, Block>)
      requires Valid() && store.IsCached(blk)
      modifies this`bExec, this`topQc, this`index
      ensures Valid()
      ensures State() == old(State()).(index := txn, topQc := Some(Qc(blk.hash, sigs)), bExec := blk.hash)
    {
      bExec := blk;
      topQc := Some(Qc(blk.hash, sigs));
      index := txn;
    }

    /** notify_ok_to_prune_blocks: the collector is told how far it may go. */
    method NotifyOkToPrune(committed: nat)
      requires Valid()
      modifies this`pruneLimit, store.gc`heightToGc
      ensures Valid() && store.gc.heightToGc == Some(pruneLimit)
      ensures pruneLimit == if committed > 100 then committed - 100 else 0
      ensures State() == old(State()).(pruneLimit := PruneHeight(committed))
    {
      pruneLimit := PruneHeight(committed);
      store.PruneBelowHeight(if committed > KEEP_DEPTH then committed - KEEP_DEPTH else 0);
    }

    method Commit(blk: HotstuffBlock, sigs: Signatures) returns (out: Outcome)
      requires Valid() && store.IsCached(blk)
      modifies this, store`decided, store.objects`decided, store.gc`heightToGc
      ensures Valid()
      ensures (State(), out) == CoreSpec.Commit(old(State()), Qc(blk.hash, sigs))
    {
      var queue, b := CommitQueue(blk);
      store.PointersAreHashes(b, bExec);
      if b != bExec { return SafetyBreached; }
      var txn := ApplyQueue(queue, blk.hash, Height(bExec.hash));
      FinishCommit(blk, sigs, txn);
      store.CachedIsLinked(blk);
      NotifyOkToPrune(blk.height);
      return Done;
    }

    method RaiseLock(blk1: HotstuffBlock)
      requires Valid() && store.IsCached(blk1)
      modifies this`bLock, this`disk, store`written, store.objects`written
      ensures Valid()
      ensures State() == CoreSpec.RaiseLock(old(State()), blk1.hash)
    {
      store.CachedIsLinked(blk1);
      store.CachedIsLinked(bLock);
      if blk1.height > bLock.height {
        bLock := blk1;
      }
      WriteToDisk(bLock);
    }

    /** From the lock on; a null pointer is the genesis block's missing justify. */
    method TryCommit(blk1: HotstuffBlock, blk2: HotstuffBlock) returns (out: Outcome)
      requires Valid() && store.IsCached(blk1) && store.IsCached(blk2)
      modifies this, store`decided, store.objects`decided, store.gc`heightToGc
      ensures Valid()
      ensures (State(), out) == CoreSpec.TryCommit(old(State()), blk1.hash, blk2.hash)
    {
      store.CachedIsLinked(blk1);
      store.CachedIsLinked(blk2);
      var blk := blk1.justify;
      if blk == null { return Done; }
      store.LinksStayInside(blk1);
      store.ReadsFlags(blk);
      if blk.decided { return Done; }
      if blk2.hash.Genesis? { return Done; }
      store.LinksStayInside(blk2);
      if blk2.parent != blk1 || blk1.parent != blk { return Done; }
      out := Commit(blk, blk1.hash.cert.Sigs());
    }

    method LockAndCommit(blk2: HotstuffBlock) returns (out: Outcome)
      requires Valid() && store.IsCached(blk2)
      modifies this, store`decided, store.objects`decided, store`written, store.objects`written, store.gc`heightToGc
      ensures Valid()
      ensures (State(), out) == CoreSpec.LockAndCommit(old(State()), blk2.hash)
    {
      store.CachedIsLinked(blk2);
      var blk1 := blk2.justify;
      if blk1 == null { return Done; }
      store.LinksStayInside(blk2);
      store.ReadsFlags(blk1);
      if blk1.decided { return Done; }
      RaiseLock(blk1);
      out := TryCommit(blk1, blk2);
    }

    method Update(nblk: HotstuffBlock) returns (out: Outcome)
      requires Valid() && nblk in store.objects
      modifies this, store`decided, store.objects`decided, store`written, store.objects`written, store.gc`heightToGc
      ensures Valid()
      ensures (State(), out) == CoreSpec.Update(old(State()), nblk.hash)
    {
      assert store.Linked(nblk);
      var blk2 := nblk.justify;
      if blk2 == null { return Done; }
      store.LinksStayInside(nblk);
      store.ReadsFlags(blk2);
      if blk2.decided { return Done; }
      UpdateHqc(blk2, nblk.hash.cert.Sigs());
      out := LockAndCommit(blk2);
    }

    // -----------------------------------------------------------------------------------------
    // Events

    /** Decide whether to vote; the walk compares objects. */
    method FormOpinion(bnew: HotstuffBlock) returns (opinion: bool)
      requires Valid() && bnew in store.objects && bnew.hash.Node?
      ensures opinion == Opinion(State(), bnew.hash, store.IsCached(bnew))
      ensures opinion <==>
                && Height(bnew.hash) > vheight
                && (|| Height(bnew.hash.justify) > Height(bLock.hash)
                    || (Extends(bnew.hash, bLock.hash) && (store.IsCached(bnew) || bnew.hash != bLock.hash)))
    {
      opinion := false;
      OpinionOnTree(State(), bnew.hash, store.IsCached(bnew));
      store.LinksStayInside(bnew);
      store.CachedIsLinked(bLock);
      store.CachedIsLinked(bnew.justify);
      if bnew.height > vheight {
        if bnew.justify.height > bLock.height {
          opinion := true;
        } else {
          var b := store.WalkDown(bnew, bLock.height);
          opinion := b == bLock;
        }
      }
    }

    method OnReceiveProposal(bnew: HotstuffBlock) returns (voted: bool, out: Outcome)
      requires Valid() && bnew in store.objects && bnew.hash.Node?
      modifies this, store`decided, store.objects`decided, store`written, store.objects`written, store.gc`heightToGc
      ensures Valid()
      ensures voted <==>
                && Height(bnew.hash) > old(vheight)
                && (|| Height(bnew.hash.justify) > Height(old(bLock).hash)
                    || (Extends(bnew.hash, old(bLock).hash)
                        && (old(store.IsCached(bnew)) || bnew.hash != old(bLock).hash)))
      ensures (State(), out) == CoreSpec.OnReceiveProposal(old(State()), bnew.hash, old(store.IsCached(bnew)))
    {
      voted := FormOpinion(bnew);
      if voted {
        assert store.Linked(bnew);
        vheight := bnew.height % VHEIGHT_MODULUS;
      }
      out := Update(bnew);
    }

    /** Count a vote on the object it names.  `ok` is false when the code throws; `newQc` is the on_new_qc
        call. */
    method OnReceiveVote(certified: HotstuffBlock, voter: ReplicaId, sig: Signature, nmajority: nat)
      returns (ok: bool, newQc: bool)
      requires Valid() && certified in store.objects && certified.hash in store.cache
      modifies this`hqcBlock, this`hqcSigs, this`bLeaf, certified`selfQc
      ensures Valid()
      ensures ok <==> voter < MAX_REPLICAS
      ensures certified.selfQc == if ok then AddSignature(old(certified.selfQc), voter, sig) else old(certified.selfQc)
      ensures newQc <==> |old(certified.selfQc)| < nmajority <= |certified.selfQc|
      ensures if newQc && certified.height > old(hqcBlock.height)
              then hqcBlock == bLeaf == certified && hqcSigs == certified.selfQc
              else hqcBlock == old(hqcBlock) && hqcSigs == old(hqcSigs) && bLeaf == old(bLeaf)
      ensures State()
              == CoreSpec.OnReceiveVote(old(State()), nmajority, certified.hash, old(certified.selfQc), voter, sig)
    {
      var hadQuorumBefore := nmajority <= |certified.selfQc|;
      if voter >= MAX_REPLICAS { return false, false; }
      if voter !in certified.selfQc {
        certified.selfQc := certified.selfQc[voter := sig];
      }
      var hasQuorumAfter := nmajority <= |certified.selfQc|;
      ok, newQc := true, hasQuorumAfter && !hadQuorumBefore;
      if newQc {
        UpdateHqc(certified, certified.selfQc);
      }
    }

    /** An insertion moves none of the replica's own pointers. */
    method PutInStore(o: HotstuffBlock) returns (missing: MissingDependencies)
      requires Valid() && o.hash.Node? && !store.IsCached(o) && o.BodyOk()
      modifies store, store.gc`gcListBuffer, o`height, o`parent, o`justify
      ensures Valid()
      ensures missing.Any() <==> !(o.hash.parent in old(store.cache) && o.hash.justify in old(store.cache))
      ensures missing.Any() ==> unchanged(store)
      ensures !missing.Any() ==>
                && o in store.objects && store.cache.Keys == old(store.cache.Keys) + {o.hash}
                && store.Recorded(o, o.hash !in old(store.cache),
                                  old(store.decided), old(store.written), old(store.bodies))
    {
      missing := store.InsertBlock(o);
    }

    /** Put a block just made from a network message, or just minted, in the store. */
    method InsertNew(o: HotstuffBlock) returns (missing: MissingDependencies)
      requires Valid() && o.hash.Node? && !store.IsCached(o) && o.BodyOk()
      requires !o.decided && !o.written && o.body == o.hash.body
      modifies store, store.gc`gcListBuffer, o`height, o`parent, o`justify
      ensures Valid()
      ensures missing.Any() <==> !CanInsert(old(State()), o.hash)
      ensures !missing.Any() ==> o in store.objects && o.hash in store.cache
      ensures State() == Insert(old(State()), o.hash)
    {
      missing := PutInStore(o);
    }

    /** A block on top of b_leaf that carries hqc. */
    method Mint(body: Body) returns (o: HotstuffBlock)
      requires Valid()
      ensures Valid() && fresh(o) && o.proposer == self && o.hash == MintedBlock(State(), body)
      ensures o.hash == Node(bLeaf.hash, hqcBlock.hash, Parsed(hqcSigs), body)
      ensures !store.IsCached(o) && o.BodyOk() && !o.decided && !o.written && o.body == o.hash.body
    {
      o := new HotstuffBlock.Received(Node(bLeaf.hash, hqcBlock.hash, Parsed(hqcSigs), body), self);
    }

    method SetLeaf(o: HotstuffBlock)
      requires Valid() && o in store.objects && o.hash in store.cache
      modifies this`bLeaf
      ensures Valid() && bLeaf == o && State() == old(State()).(bLeaf := o.hash)
    {
      bLeaf := o;
    }

    /** Mint, insert, and build on the new block from then on.  Null is the throw, which never happens. */
    method ProposeBody(body: Body) returns (minted: HotstuffBlock?)
      requires Valid()
      modifies this`bLeaf, store, store.gc`gcListBuffer
      ensures Valid() && minted != null && minted == bLeaf && minted.proposer == self
      ensures minted.hash == Node(old(bLeaf.hash), old(hqcBlock.hash), Parsed(old(hqcSigs)), body)
      ensures Some(State()) == Propose(old(State()), body)
    {
      var o := Mint(body);
      var missing := InsertNew(o);
      if missing.Any() { return null; }
      SetLeaf(o);
      return o;
    }

    /** The leaf and the two blocks below it were proposed here, each on a certificate for its parent. */
    ghost predicate Leading()
      reads this, store, store.objects
    {
      SupportsNonempty(store.Proposers()[bLeaf.hash := bLeaf.proposer], self, bLeaf.hash, 3)
    }

    /** do_propose: `proposal` is what the VM bridge would return, asked for only if the leaf supports it. */
    method DoPropose(proposal: Body) returns (minted: HotstuffBlock?)
      requires Valid()
      modifies this`bLeaf, store, store.gc`gcListBuffer
      ensures Valid() && minted != null && minted == bLeaf && minted.proposer == self
      ensures minted.hash == Node(old(bLeaf.hash), old(hqcBlock.hash), Parsed(old(hqcSigs)),
                                  if old(Leading()) then proposal else [])
      ensures Some(State()) == Propose(old(State()), if old(Leading()) then proposal else [])
    {
      var nonempty := store.SupportsNonemptyChild(bLeaf, self, 3);
      minted := ProposeBody(if nonempty then proposal else []);
    }

    method DoEmptyPropose() returns (minted: HotstuffBlock?)
      requires Valid()
      modifies this`bLeaf, store, store.gc`gcListBuffer
      ensures Valid() && minted != null && minted == bLeaf && minted.proposer == self
      ensures minted.hash == Node(old(bLeaf.hash), old(hqcBlock.hash), Parsed(old(hqcSigs)), [])
      ensures Some(State()) == Propose(old(State()), [])
    {
      minted := ProposeBody([]);
    }

    // -----------------------------------------------------------------------------------------
    // Garbage collection

    /** A pass of the collector, seen from the replica: it drops the bodies of all blocks below the height last
        handed to it, and changes nothing else. */
    method Collect() returns (ghost victims: set<Block>)
      requires Valid() && store.gc.heightToGc.Some?
      modifies store`bodies, store.gc, store.objects`flushed, store.objects`body
      ensures Valid() && store.gc.heightToGc == None
      ensures victims == set b | b in store.cache && Height(b) < old(store.gc.heightToGc.value)
      ensures forall b | b in victims :: Height(b) < pruneLimit
      ensures State() == Flush(old(State()), victims)
    {
      victims := store.Sweep();
    }

    // -----------------------------------------------------------------------------------------
    // Restart

    /** While loading, every cached block is decided and written. */
    ghost predicate AllLoaded()
      reads store
    {
      store.cache.Keys <= store.decided && store.cache.Keys <= store.written
    }

    /** Load one decided block from the directory and insert it; false stands for either throw.  The VM
        replays it from the same file. */
    method LoadDecided(b: Block) returns (ok: bool)
      requires Valid() && AllLoaded() && b.Node?
      modifies this`applied, store, store.gc`gcListBuffer
      ensures Valid() && AllLoaded()
      ensures ok <==> Reload.LoadOne(old(State()), b).Some?
      ensures State() == Reload.LoadOne(old(State()), b).GetOr(old(State()))
    {
      LoadsBy(State(), b);
      ok := InsertDecided(b);
      if ok {
        ReplayCommand(b, disk[b]);
      }
    }

    method InsertDecided(b: Block) returns (ok: bool)
      requires Valid() && AllLoaded() && b.Node?
      modifies store, store.gc`gcListBuffer
      ensures Valid() && AllLoaded()
      ensures ok <==> b in disk && CanInsert(old(State()), b)
      ensures State() == if ok then TakeIn(old(State()), b, disk[b]) else old(State())
    {
      if b !in disk { return false; }
      var o := ReadDecided(b);
      var missing := InsertLoaded(o);
      return !missing.Any();
    }

    /** Insert an object whose decided and written flags are set. */
    method InsertLoaded(o: HotstuffBlock) returns (missing: MissingDependencies)
      requires Valid() && AllLoaded() && o.hash.Node? && !store.IsCached(o) && o.BodyOk() && o.decided && o.written
      modifies store, store.gc`gcListBuffer, o`height, o`parent, o`justify
      ensures Valid() && AllLoaded()
      ensures missing.Any() <==> !CanInsert(old(State()), o.hash)
      ensures State() == if missing.Any() then old(State()) else TakeIn(old(State()), o.hash, o.body)
    {
      missing := PutInStore(o);
    }

    method ReadDecided(b: Block) returns (o: HotstuffBlock)
      requires Valid() && b.Node? && b in disk
      ensures Valid() && fresh(o) && o.hash == b && o.body == disk[b] && o.decided && o.written
      ensures !store.IsCached(o) && o.BodyOk()
    {
      o := new HotstuffBlock.Loaded(b, disk[b]);
    }

    method ReplayCommand(b: Block, body: Body)
      requires Valid()
      modifies this`applied
      ensures Valid() && State() == old(State()).(applied := old(State()).applied + [Command(b, body)])
    {
      applied := applied + [Command(b, body)];
    }

    /** The loop of reload_decided_blocks: stops at the first throw. */
    method LoadEntries(entries: Reload.Cursor) returns (ok: bool, highest: nat)
      requires Valid() && AllLoaded()
      requires forall e | e in entries :: e.1.Node?
      modifies this`applied, store, store.gc`gcListBuffer
      ensures Valid()
      ensures ok <==> Reload.LoadFirst(old(State()), entries, |entries|).Some?
      ensures ok ==> Some(State()) == Reload.LoadFirst(old(State()), entries, |entries|)
      ensures ok ==> highest == Reload.LastLoaded(entries, |entries|)
    {
      ghost var c := State();
      ok, highest := true, 0;
      var i := 0;
      while i < |entries|
        invariant 0 <= i <= |entries| && Valid() && ok && AllLoaded()
        invariant Reload.LoadFirst(c, entries, i) == Some(State()) && highest == Reload.LastLoaded(entries, i)
      {
        LoadsOneMore(c, entries, i, State());
        ok := LoadDecided(entries[i].1);
        if !ok {
          LoadFails(c, entries, i + 1, |entries|);
          return;
        }
        highest := Height(entries[i].1);
        i := i + 1;
      }
    }

    /** reload_decided_blocks followed by reload_state_from_index, on a replica just constructed. */
    method ReloadDecidedBlocks(entries: Reload.Cursor) returns (ok: bool, highest: nat)
      requires Valid() && State() == Reload.FreshCore(Reload.Disk(disk, index, topQc))
      requires forall e | e in entries :: e.1.Node?
      modifies this, store, store.gc`gcListBuffer
      ensures Valid()
      ensures ok <==> Reload.ReloadAll(Reload.Disk(old(disk), old(index), old(topQc)), entries).Some?
      ensures ok ==> Some(State()) == Reload.ReloadAll(Reload.Disk(old(disk), old(index), old(topQc)), entries)
      ensures ok ==> highest == Reload.LastLoaded(entries, |entries|)
    {
      ok, highest := LoadEntries(entries);
      if ok {
        ok := ReloadState();
      }
    }

    method ReloadState() returns (ok: bool)
      requires Valid()
      modifies this
      ensures Valid()
      ensures ok <==> Reload.ReloadState(old(State())).Some?
      ensures State() == Reload.ReloadState(old(State())).GetOr(old(State()))
    {
      if topQc.None? { return false; }
      var highest := store.GetBlock(topQc.value.block);
      if highest == null { return false; }
      UpdateHqc(highest, topQc.value.sigs);
      Adopt(highest);
      return true;
    }

    /** The loaded top block becomes executed block, lock and last vote. */
    method Adopt(o: HotstuffBlock)
      requires Valid() && store.IsCached(o)
      modifies this`vheight, this`bExec, this`bLock
      ensures Valid()
      ensures State() == old(State()).(vheight := TruncateHeight(Height(o.hash)), bExec := o.hash, bLock := o.hash)
    {
      store.CachedIsLinked(o);
      vheight := o.height % VHEIGHT_MODULUS;
      bExec, bLock := o, o;
    }
  }

  lemma LoadsOneMore(c: Core, entries: Reload.Cursor, i: nat, c': Core)
    requires i < |entries| && Reload.LoadFirst(c, entries, i) == Some(c')
    ensures Reload.LoadFirst(c, entries, i + 1) == Reload.LoadOne(c', entries[i].1)
  {
  }

  /** Once a load has thrown, so has the whole. */
  lemma {:induction false} LoadFails(c: Core, entries: Reload.Cursor, n: nat, m: nat)
    requires n <= m <= |entries| && Reload.LoadFirst(c, entries, n).None?
    ensures Reload.LoadFirst(c, entries, m).None?
    decreases m
  {
    if n < m {
      LoadFails(c, entries, n, m - 1);
    }
  }
}
