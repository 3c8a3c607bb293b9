/** Certificates and the safety argument, on the votes cast so far.

  Honest replicas sign a block once, at the moment they vote for it; faulty replicas sign anything.
  `Ballots` records, for every honest replica, the blocks it voted for and the lock it held just
  before each vote.  The invariant below is what the voting rule keeps; everything else here is a
  consequence of it in a single state.
*/
module Safety {
  import opened Blocks
  import opened Quorums

  datatype Params = Params(replicas: set<ReplicaId>, faulty: set<ReplicaId>)

  predicate ValidParams(p: Params) { FaultsBounded(p.replicas, p.faulty) }

  function Honest(p: Params): set<ReplicaId> { p.replicas - p.faulty }

  /** honest replica -> block voted for -> lock held when voting */
  type Ballots = map<ReplicaId, map<Block, Block>>

  /** `r` has put its signature on `b`.  Signatures are unforgeable: an honest replica's signature on
      `b` exists only if that replica voted for `b`. */
  predicate Signed(p: Params, bal: Ballots, r: ReplicaId, b: Block) {
    r in p.faulty || (r in bal && b in bal[r])
  }

  predicate Backs(p: Params, bal: Ballots, q: set<ReplicaId>, b: Block) {
    IsQuorum(q, p.replicas) && forall r | r in q :: Signed(p, bal, r, b)
  }

  /** A certificate for `b` can be shown; the genesis block needs none. */
  ghost predicate Certified(p: Params, bal: Ballots, b: Block) {
    b.Genesis? || exists q :: Backs(p, bal, q, b)
  }

  /** A quorum whose honest members did not yet hold `b` as their lock when they voted for it. */
  predicate BacksFreshly(p: Params, bal: Ballots, q: set<ReplicaId>, b: Block) {
    Backs(p, bal, q, b) && forall r | r in q && r !in p.faulty :: bal[r][b] != b
  }

  /** What the voting rule checks, and what a received block was validated for. */
  ghost predicate VoteLegal(p: Params, bal: Ballots, x: Block, lock: Block) {
    && x.Node? && SoundJustify(x)
    && Certified(p, bal, x.justify)
    && Certified(p, bal, lock)
    && (Height(x.justify) > Height(lock) || Extends(x, lock))
  }

  /** Votes rise in height, and a later vote is cast under a lock an earlier vote forced. */
  predicate VotesInOrder(votes: map<Block, Block>, x: Block, y: Block)
    requires x in votes && y in votes
  {
    && (Height(x) == Height(y) ==> x == y)
    && (Height(x) < Height(y) ==> Height(GrandJustify(x)) <= Height(votes[y]))
  }

  ghost predicate BallotsLegal(p: Params, bal: Ballots) {
    forall r, x | r in bal && x in bal[r] :: VoteLegal(p, bal, x, bal[r][x])
  }

  ghost predicate BallotsInOrder(bal: Ballots) {
    forall r, x, y | r in bal && x in bal[r] && y in bal[r] :: VotesInOrder(bal[r], x, y)
  }

  ghost predicate CertificatesFresh(p: Params, bal: Ballots) {
    forall b: Block | b.Node? && Certified(p, bal, b) :: exists q :: BacksFreshly(p, bal, q, b)
  }

  ghost predicate BallotInv(p: Params, bal: Ballots) {
    BallotsLegal(p, bal) && BallotsInOrder(bal) && CertificatesFresh(p, bal)
  }

  // -------------------------------------------------------------------------------------------
  // Consequences in one state

  /** Two certified blocks have a common honest voter, who was not locked on the second block yet. */
  lemma CommonVoter(p: Params, bal: Ballots, a: Block, b: Block) returns (r: ReplicaId)
    requires ValidParams(p) && BallotInv(p, bal)
    requires a.Node? && b.Node? && Certified(p, bal, a) && Certified(p, bal, b)
    ensures r in bal && a in bal[r] && b in bal[r] && bal[r][b] != b
  {
    var qa :| Backs(p, bal, qa, a);
    var qb :| BacksFreshly(p, bal, qb, b);
    r := QuorumsShareHonest(p.replicas, p.faulty, qa, qb);
    assert Signed(p, bal, r, a) && Signed(p, bal, r, b);
  }

  lemma OneCertificatePerHeight(p: Params, bal: Ballots, a: Block, b: Block)
    requires ValidParams(p) && BallotInv(p, bal)
    requires Certified(p, bal, a) && Certified(p, bal, b) && Height(a) == Height(b)
    ensures a == b
  {
    if a.Node? && b.Node? {
      var r := CommonVoter(p, bal, a, b);
      assert VotesInOrder(bal[r], a, b);
    }
  }

  /** `b`, `b1`, `b2` linked by parent and justify at once, the top one certified. */
  ghost predicate ThreeChain(p: Params, bal: Ballots, b: Block, b1: Block, b2: Block) {
    && b2.Node? && b2.parent == b1 && b2.justify == b1
    && b1.Node? && b1.parent == b && b1.justify == b
    && Certified(p, bal, b) && Certified(p, bal, b1) && Certified(p, bal, b2)
  }

  /** Every certified block as high as the tail of a certified three-chain extends that tail. */
  lemma {:induction false} LockLemma(p: Params, bal: Ballots, b: Block, b1: Block, b2: Block, d: Block)
    requires ValidParams(p) && BallotInv(p, bal)
    requires ThreeChain(p, bal, b, b1, b2)
    requires Certified(p, bal, d) && Height(d) >= Height(b)
    ensures Extends(d, b)
    decreases Height(d)
  {
    if b.Genesis? {
      GenesisIsBelow(d);
    } else if Height(d) <= Height(b2) {
      var same := if Height(d) == Height(b) then b else if Height(d) == Height(b1) then b1 else b2;
      OneCertificatePerHeight(p, bal, d, same);
      assert Extends(b1, b) && Extends(b2, b);
    } else {
      var r := CommonVoter(p, bal, b2, d);
      var lock := bal[r][d];
      assert VoteLegal(p, bal, d, lock);
      assert VotesInOrder(bal[r], b2, d) && GrandJustify(b2) == b;
      SoundHeight(d);
      var lower := if Height(d.justify) > Height(lock) then d.justify else lock;
      ExtendsHeight(d, lower);
      LockLemma(p, bal, b, b1, b2, lower);
      ExtendsTransitive(d, lower, b);
    }
  }

  // -------------------------------------------------------------------------------------------
  // Casting a vote keeps the invariant

  function CastVote(bal: Ballots, r: ReplicaId, x: Block, lock: Block): Ballots
    requires r in bal
  {
    bal[r := bal[r][x := lock]]
  }

  predicate BallotsGrow(bal: Ballots, bal': Ballots) {
    && bal.Keys == bal'.Keys
    && forall r, b | r in bal && b in bal[r] :: b in bal'[r] && bal'[r][b] == bal[r][b]
  }

  lemma CertifiedMonotone(p: Params, bal: Ballots, bal': Ballots, b: Block)
    requires BallotsGrow(bal, bal') && Certified(p, bal, b)
    ensures Certified(p, bal', b)
  {
    if b.Node? {
      var q :| Backs(p, bal, q, b);
      assert Backs(p, bal', q, b) by {
        forall r | r in q ensures Signed(p, bal', r, b) {
          assert Signed(p, bal, r, b);
        }
      }
    }
  }

  /** An honest replica may cast `x` under `lock`. */
  ghost predicate MayVote(p: Params, bal: Ballots, r: ReplicaId, x: Block, lock: Block) {
    && r in bal && x !in bal[r]
    && VoteLegal(p, bal, x, lock)
    && forall y | y in bal[r] :: Height(y) < Height(x) && Height(GrandJustify(y)) <= Height(lock)
  }

  lemma CastVoteKeepsLegal(p: Params, bal: Ballots, r: ReplicaId, x: Block, lock: Block)
    requires BallotsLegal(p, bal) && MayVote(p, bal, r, x, lock)
    ensures BallotsLegal(p, CastVote(bal, r, x, lock))
  {
    var bal' := CastVote(bal, r, x, lock);
    forall s, y | s in bal' && y in bal'[s] ensures VoteLegal(p, bal', y, bal'[s][y]) {
      assert VoteLegal(p, bal, y, bal'[s][y]) by {
        if !(s == r && y == x) { assert y in bal[s]; }
      }
      CertifiedMonotone(p, bal, bal', y.justify);
      CertifiedMonotone(p, bal, bal', bal'[s][y]);
    }
  }

  lemma CastVoteKeepsFresh(p: Params, bal: Ballots, r: ReplicaId, x: Block, lock: Block)
    requires BallotsLegal(p, bal) && CertificatesFresh(p, bal)
    requires MayVote(p, bal, r, x, lock)
    ensures CertificatesFresh(p, CastVote(bal, r, x, lock))
  {
    var bal' := CastVote(bal, r, x, lock);
    forall b: Block | b.Node? && Certified(p, bal', b) ensures exists q :: BacksFreshly(p, bal', q, b) {
      if Certified(p, bal, b) {
        var q :| BacksFreshly(p, bal, q, b);
        forall s | s in q ensures Signed(p, bal', s, b) && (s !in p.faulty ==> bal'[s][b] != b) {
          assert Signed(p, bal, s, b);
        }
        assert BacksFreshly(p, bal', q, b);
      } else {
        NewlyCertifiedIsFresh(p, bal, r, x, lock, b);
      }
    }
  }

  /** A lock is certified, so nobody holds a block as lock before that block is certified. */
  lemma NewlyCertifiedIsFresh(p: Params, bal: Ballots, r: ReplicaId, x: Block, lock: Block, b: Block)
    requires BallotsLegal(p, bal) && MayVote(p, bal, r, x, lock)
    requires b.Node? && !Certified(p, bal, b) && Certified(p, CastVote(bal, r, x, lock), b)
    ensures exists q :: BacksFreshly(p, CastVote(bal, r, x, lock), q, b)
  {
    var bal' := CastVote(bal, r, x, lock);
    var q :| Backs(p, bal', q, b);
    forall s | s in q && s !in p.faulty ensures bal'[s][b] != b {
      assert Signed(p, bal', s, b);
      if !(s == r && b == x) {
        assert VoteLegal(p, bal, b, bal[s][b]);
      }
    }
    assert BacksFreshly(p, bal', q, b);
  }

  lemma CastVoteKeepsInv(p: Params, bal: Ballots, r: ReplicaId, x: Block, lock: Block)
    requires BallotInv(p, bal) && MayVote(p, bal, r, x, lock)
    ensures BallotInv(p, CastVote(bal, r, x, lock))
    ensures BallotsGrow(bal, CastVote(bal, r, x, lock))
  {
    CastVoteKeepsLegal(p, bal, r, x, lock);
    CastVoteKeepsFresh(p, bal, r, x, lock);
    var bal' := CastVote(bal, r, x, lock);
    forall s, y, z | s in bal' && y in bal'[s] && z in bal'[s] ensures VotesInOrder(bal'[s], y, z) {
      if s != r || (y != x && z != x) {
        assert VotesInOrder(bal[s], y, z);
      }
    }
  }
}
