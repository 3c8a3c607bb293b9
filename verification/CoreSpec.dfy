/** What one replica does, as functions from state to state.

  `Core` is the state one replica keeps: the fields of HotstuffCore, the status flags its block
  objects carry (gathered into sets of blocks), the block directory and the decided-block index.
  The class in Consensus.dfy performs these steps on objects in place; Protocol.dfy runs many
  replicas together.
*/
module CoreSpec {
  import opened Blocks

  datatype Option<+T> = None | Some(value: T) {
    function GetOr(default: T): T { if Some? then value else default }
  }

  /** A certificate: the certified block and the signatures on it. */
  datatype Qc = Qc(block: Block, sigs: Signatures)

  /** The certificate a block carries. */
  function JustifyQc(b: Block): Qc
    requires b.Node?
  {
    Qc(b.justify, b.cert.Sigs())
  }

  /** A replica's first signature is kept. */
  function AddSignature(sigs: Signatures, voter: ReplicaId, sig: Signature): Signatures {
    if voter in sigs then sigs else sigs[voter := sig]
  }

  /** One call of the apply_block hook, with the body bytes it was handed. */
  datatype Command = Command(block: Block, body: Body)

  datatype Outcome = Done | SafetyBreached

  datatype Core = Core(
    store: set<Block>,              // keys of the block cache
    bodies: map<Block, Body>,       // the body each cached object holds
    hqc: Qc,
    bLock: Block,
    bExec: Block,
    bLeaf: Block,
    vheight: nat,
    decided: set<Block>,            // blocks whose decided flag is set
    written: set<Block>,            // blocks whose written_to_disk flag is set
    pruneLimit: nat,                // the height last handed to the garbage collector
    disk: map<Block, Body>,         // block directory: file name (hash) -> saved body
    index: map<nat, Block>,         // decided-hash index: height -> hash
    topQc: Option<Qc>,              // the certificate stored beside the index
    applied: seq<Command>)          // apply_block calls, oldest first

  function InitCore(): Core {
    Core({Genesis}, map[Genesis := []], Qc(Genesis, map[]), Genesis, Genesis, Genesis, 0,
         {Genesis}, {Genesis}, 0, map[], map[], None, [])
  }

  /** `vheight` is a 32-bit field; heights are 64-bit. */
  const VHEIGHT_MODULUS: nat := 0x1_0000_0000

  function TruncateHeight(h: nat): nat { h % VHEIGHT_MODULUS }

  const KEEP_DEPTH: nat := 100

  function PruneHeight(committed: nat): nat {
    if committed > KEEP_DEPTH then committed - KEEP_DEPTH else 0
  }

  // -------------------------------------------------------------------------------------------
  // Block storage

  predicate CanInsert(c: Core, b: Block) {
    b.Node? && b.parent in c.store && b.justify in c.store
  }

  function Insert(c: Core, b: Block): Core {
    if CanInsert(c, b) then c.(store := c.store + {b}, bodies := KeepFirst(c.bodies, b, b.body)) else c
  }

  /** The first object inserted under a hash stays. */
  function KeepFirst(bodies: map<Block, Body>, b: Block, body: Body): map<Block, Body> {
    if b in bodies then bodies else bodies[b := body]
  }

  /** The body the cached object still holds: flushing clears it. */
  function ReadBody(bodies: map<Block, Body>, b: Block): Body {
    if b in bodies then bodies[b] else []
  }

  /** Save `b`, then its parent, and so on until a block already flagged as written. */
  function WriteToDisk(c: Core, b: Block): Core
    decreases b
  {
    if b in c.written then c
    else
      var c' := c.(written := c.written + {b}, disk := c.disk[b := ReadBody(c.bodies, b)]);
      if b.Genesis? then c' else WriteToDisk(c', b.parent)
  }

  // -------------------------------------------------------------------------------------------
  // The consensus rules

  function UpdateHqc(c: Core, qc: Qc): Core {
    if Height(qc.block) > Height(c.hqc.block) then c.(hqc := qc, bLeaf := qc.block) else c
  }

  /** Blocks on the branch of `b` strictly above height `h`. */
  function Segment(b: Block, h: nat): set<Block> {
    if Height(b) <= h then {} else Segment(b.parent, h) + {b}
  }

  function CommandsAbove(bodies: map<Block, Body>, b: Block, h: nat): seq<Command> {
    if Height(b) <= h then [] else CommandsAbove(bodies, b.parent, h) + [Command(b, ReadBody(bodies, b))]
  }

  /** The same commands with each block's own body. */
  function OwnCommands(b: Block, h: nat): seq<Command> {
    if Height(b) <= h then [] else OwnCommands(b.parent, h) + [Command(b, b.body)]
  }

  function IndexAbove(index: map<nat, Block>, b: Block, h: nat): map<nat, Block> {
    if Height(b) <= h then index else IndexAbove(index, b.parent, h)[Height(b) := b]
  }

  /** Decide everything from just above `bExec` up to `qc.block`. */
  function Commit(c: Core, qc: Qc): (Core, Outcome) {
    var h := Height(c.bExec);
    if AncestorAt(qc.block, h) != c.bExec then (c, SafetyBreached)
    else
      (c.(decided := c.decided + Segment(qc.block, h),
          applied := c.applied + CommandsAbove(c.bodies, qc.block, h),
          index := IndexAbove(c.index, qc.block, h),
          topQc := Some(qc),
          bExec := qc.block,
          pruneLimit := PruneHeight(Height(qc.block))),
       Done)
  }

  /** The lock moves up to `blk1` if that is higher; the lock and what is below it go to disk. */
  function RaiseLock(c: Core, blk1: Block): Core {
    var c1 := if Height(blk1) > Height(c.bLock) then c.(bLock := blk1) else c;
    WriteToDisk(c1, c1.bLock)
  }

  /** Commit the tail of the chain if blk2, blk1 and its justify are linked by parents too. */
  function TryCommit(c: Core, blk1: Block, blk2: Block): (Core, Outcome) {
    if blk1.Genesis? || blk1.justify in c.decided then (c, Done)
    else if blk2.Genesis? || blk2.parent != blk1 || blk1.parent != blk1.justify then (c, Done)
    else Commit(c, JustifyQc(blk1))
  }

  function LockAndCommit(c: Core, blk2: Block): (Core, Outcome) {
    if blk2.Genesis? || blk2.justify in c.decided then (c, Done)
    else TryCommit(RaiseLock(c, blk2.justify), blk2.justify, blk2)
  }

  /** A null justify pointer, which only the genesis block has, ends the function at each level. */
  function Update(c: Core, nblk: Block): (Core, Outcome) {
    if nblk.Genesis? || nblk.justify in c.decided then (c, Done)
    else LockAndCommit(UpdateHqc(c, JustifyQc(nblk)), nblk.justify)
  }

  /** The voting rule.  `cached` says whether the proposal object is the one held in the block cache:
      the walk compares objects, so a second copy of the locked block itself is not recognised. */
  predicate Opinion(c: Core, bnew: Block, cached: bool) {
    bnew.Node? && Height(bnew) > c.vheight
    && (|| Height(bnew.justify) > Height(c.bLock)
        || (AncestorAt(bnew, Height(c.bLock)) == c.bLock && (cached || bnew != c.bLock)))
  }

  function OnReceiveProposal(c: Core, bnew: Block, cached: bool): (Core, Outcome) {
    var c1 := if Opinion(c, bnew, cached) then c.(vheight := TruncateHeight(Height(bnew))) else c;
    Update(c1, bnew)
  }

  /** A vote arrives on an object whose certificate so far is `before`.  A large id makes the code throw. */
  function OnReceiveVote(c: Core, nmajority: nat, b: Block, before: Signatures, voter: ReplicaId, sig: Signature)
    : Core
  {
    var after := AddSignature(before, voter, sig);
    if voter < MAX_REPLICAS && |before| < nmajority <= |after| then UpdateHqc(c, Qc(b, after)) else c
  }

  function MintedBlock(c: Core, body: Body): Block {
    Node(c.bLeaf, c.hqc.block, Parsed(c.hqc.sigs), body)
  }

  /** None stands for the throw on a failed insertion. */
  function Propose(c: Core, body: Body): Option<Core> {
    var b := MintedBlock(c, body);
    if CanInsert(c, b) then Some(Insert(c, b).(bLeaf := b)) else None
  }

  /** supports_nonempty_child_proposal; `proposer` is the id each stored object carries. */
  predicate SupportsNonempty(proposer: map<Block, ReplicaId>, self: ReplicaId, b: Block, depth: int)
    decreases b
  {
    || depth <= 0
    || (&& b in proposer && proposer[b] == self
        && b.Node?
        && b.justify == b.parent
        && SupportsNonempty(proposer, self, b.parent, depth - 1))
  }

  /** `self` proposed `b`, and had a certificate for the block right below it. */
  predicate OwnAndCertified(proposer: map<Block, ReplicaId>, self: ReplicaId, b: Block) {
    b.Node? && b in proposer && proposer[b] == self && b.justify == b.parent
  }

  /** The top `depth` blocks of the branch are like that. */
  ghost predicate TopIsOwn(proposer: map<Block, ReplicaId>, self: ReplicaId, b: Block, depth: int) {
    forall a {:trigger Extends(b, a)} | Extends(b, a) && Height(b) - Height(a) < depth ::
      OwnAndCertified(proposer, self, a)
  }

  /** This is what the gate asks for. */
  lemma SupportsNonemptyIff(proposer: map<Block, ReplicaId>, self: ReplicaId, b: Block, depth: int)
    ensures SupportsNonempty(proposer, self, b, depth) <==> TopIsOwn(proposer, self, b, depth)
  {
    if SupportsNonempty(proposer, self, b, depth) {
      forall a | Extends(b, a) && Height(b) - Height(a) < depth ensures OwnAndCertified(proposer, self, a) {
        SupportedIsOwn(proposer, self, b, depth, a);
      }
    }
    if TopIsOwn(proposer, self, b, depth) {
      OwnIsSupported(proposer, self, b, depth);
    }
  }

  lemma {:induction false} SupportedIsOwn(proposer: map<Block, ReplicaId>, self: ReplicaId, b: Block, depth: int,
                                          a: Block)
    requires SupportsNonempty(proposer, self, b, depth) && Extends(b, a) && Height(b) - Height(a) < depth
    ensures OwnAndCertified(proposer, self, a)
    decreases b
  {
    ExtendsHeight(b, a);
    if a != b {
      SupportedIsOwn(proposer, self, b.parent, depth - 1, a);
    }
  }

  lemma {:induction false} OwnIsSupported(proposer: map<Block, ReplicaId>, self: ReplicaId, b: Block, depth: int)
    requires TopIsOwn(proposer, self, b, depth)
    ensures SupportsNonempty(proposer, self, b, depth)
    decreases b
  {
    if depth > 0 {
      assert Extends(b, b);
      forall a | Extends(b.parent, a) && Height(b.parent) - Height(a) < depth - 1
        ensures OwnAndCertified(proposer, self, a)
      {
        assert Extends(b, a);
      }
      OwnIsSupported(proposer, self, b.parent, depth - 1);
    }
  }

  /** Whoever proposed a block off the branch does not matter. */
  lemma {:induction false} SupportsNonemptyLocal(proposer: map<Block, ReplicaId>, self: ReplicaId, b: Block, depth: int,
                                                 x: Block, id: ReplicaId)
    requires !Extends(b, x)
    ensures SupportsNonempty(proposer[x := id], self, b, depth) <==> SupportsNonempty(proposer, self, b, depth)
    decreases b
  {
    if b.Node? {
      SupportsNonemptyLocal(proposer, self, b.parent, depth - 1, x, id);
    }
  }

  /** The garbage collector drops the bodies of `victims`. */
  function Flush(c: Core, victims: set<Block>): Core {
    c.(bodies := map b | b in c.bodies :: if b in victims then [] else c.bodies[b])
  }

  /** The voting rule on the block tree. */
  lemma OpinionOnTree(c: Core, b: Block, cached: bool)
    requires b.Node?
    ensures Opinion(c, b, cached) <==>
              && Height(b) > c.vheight
              && (Height(b.justify) > Height(c.bLock) || (Extends(b, c.bLock) && (cached || b != c.bLock)))
  {
    WalkDecidesAncestry(b, c.bLock);
  }

  /** A 32-bit `vheight` shuts out every block no higher than the one voted on, exactly when that
      block's height fits. */
  lemma VoteGuardExact(b: Block)
    ensures (forall c: Core, b': Block, cached: bool |
                  c.vheight == TruncateHeight(Height(b)) && Height(b') <= Height(b) ::
               !Opinion(c, b', cached))
            <==> Height(b) < VHEIGHT_MODULUS
  {
    if Height(b) >= VHEIGHT_MODULUS {
      assert TruncateHeight(Height(b)) < Height(b);
      var c := InitCore().(vheight := TruncateHeight(Height(b)));
      GenesisIsBelow(b);
      WalkDecidesAncestry(b, Genesis);
      assert Opinion(c, b, true);
    }
  }
}
