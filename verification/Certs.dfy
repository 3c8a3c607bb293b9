/** Quorum certificates: collecting votes, verifying, and the wire format (crypto/certs.cc). */
module Certs {
  import opened Blocks
  import opened Quorums
  import opened CoreSpec
  import opened Safety
  import opened ReplicaInvariant
  import opened BlockStorage
  import opened Consensus

  type PublicKey = seq<Byte>
  type CheckSig = (Signature, Block, PublicKey) -> bool

  const BITMAP_LIMIT: nat := Pow2(MAX_REPLICAS)

  /** The wire form: certified hash, bit map of signer ids, signatures from the lowest id to the highest. */
  datatype Wire = Wire(justify: Block, bmp: nat, sigs: seq<Signature>)

  // -------------------------------------------------------------------------------------------
  // The bit map

  function Pow2(n: nat): (p: nat)
    ensures p > 0
  {
    if n == 0 then 1 else 2 * Pow2(n - 1)
  }

  function Size(b: nat): nat {
    if b == 0 then 0 else b % 2 + Size(b / 2)
  }

  function Lowest(b: nat): nat
    requires b > 0
  {
    if b % 2 == 1 then 0 else Lowest(b / 2) + 1
  }

  function Add(b: nat, id: nat): nat {
    if id > 0 then 2 * Add(b / 2, id - 1) + b % 2 else if b % 2 == 1 then b else b + 1
  }

  /** The set bits of `b` in ascending order, the lowest being numbered `base`. */
  function BitsFrom(b: nat, base: nat): seq<nat> {
    if b == 0 then [] else (if b % 2 == 1 then [base] else []) + BitsFrom(b / 2, base + 1)
  }

  /** The bit map of the ids among `base`, ..., `base + n - 1`. */
  function MaskFrom(ids: set<nat>, base: nat, n: nat): nat
    decreases n
  {
    if n == 0 then 0 else (if base in ids then 1 else 0) + 2 * MaskFrom(ids, base + 1, n - 1)
  }

  /** Those ids in ascending order. */
  function Ascending(ids: set<nat>, base: nat, n: nat): seq<nat>
    decreases n
  {
    if n == 0 then [] else (if base in ids then [base] else []) + Ascending(ids, base + 1, n - 1)
  }

  lemma {:induction false} SizeCountsBits(b: nat, base: nat)
    ensures Size(b) == |BitsFrom(b, base)|
  {
    if b > 0 {
      SizeCountsBits(b / 2, base + 1);
    }
  }

  /** Popping the lowest bit takes the head off the list of set bits. */
  lemma {:induction false} PopTakesHead(b: nat, base: nat)
    requires b > 0
    ensures Pow2(Lowest(b)) <= b
    ensures BitsFrom(b, base) == [base + Lowest(b)] + BitsFrom(b - Pow2(Lowest(b)), base)
  {
    if b % 2 == 1 {
      assert (b - 1) / 2 == b / 2 && (b - 1) % 2 == 0;
      if b > 1 {
        assert BitsFrom(b - 1, base) == BitsFrom(b / 2, base + 1);
      }
    } else {
      PopTakesHead(b / 2, base + 1);
      var rest := b - Pow2(Lowest(b));
      assert rest / 2 == b / 2 - Pow2(Lowest(b / 2)) && rest % 2 == 0;
      if rest > 0 {
        assert BitsFrom(rest, base) == BitsFrom(rest / 2, base + 1);
      }
    }
  }

  /** The lowest set bit, and the bit map without it. */
  method Pop(b: nat) returns (id: nat, rest: nat)
    requires BitsFrom(b, 0) != []
    ensures BitsFrom(b, 0)[0] == id && BitsFrom(rest, 0) == BitsFrom(b, 0)[1..]
  {
    PopTakesHead(b, 0);
    id := Lowest(b);
    rest := b - Pow2(id);
  }

  /** The set bits of a mask are its ids. */
  lemma {:induction false} MaskBits(ids: set<nat>, base: nat, n: nat)
    ensures BitsFrom(MaskFrom(ids, base, n), base) == Ascending(ids, base, n)
    decreases n
  {
    if n > 0 {
      MaskBits(ids, base + 1, n - 1);
      var m := MaskFrom(ids, base + 1, n - 1);
      assert MaskFrom(ids, base, n) / 2 == m;
      if MaskFrom(ids, base, n) == 0 {
        assert Ascending(ids, base, n) == Ascending(ids, base + 1, n - 1);
      }
    }
  }

  predicate AscendingFrom(s: seq<nat>, base: nat) {
    && (forall x | x in s :: base <= x)
    && (forall i, j | 0 <= i < j < |s| :: s[i] < s[j])
  }

  lemma AscendsInFront(rest: seq<nat>, base: nat)
    requires AscendingFrom(rest, base + 1)
    ensures AscendingFrom([base] + rest, base) && AscendingFrom(rest, base)
  {
    assert forall i | 0 <= i < |rest| :: rest[i] in rest;
  }

  lemma {:induction false} BitsAbove(b: nat, base: nat)
    ensures AscendingFrom(BitsFrom(b, base), base)
  {
    if b > 0 {
      var rest := BitsFrom(b / 2, base + 1);
      BitsAbove(b / 2, base + 1);
      AscendsInFront(rest, base);
      assert BitsFrom(b, base) == if b % 2 == 1 then [base] + rest else rest;
    }
  }

  /** The set bits determine the bit map. */
  lemma {:induction false} BitsDetermine(a: nat, b: nat, base: nat)
    requires forall x :: x in BitsFrom(a, base) <==> x in BitsFrom(b, base)
    ensures a == b
  {
    if a > 0 && b > 0 {
      BitsAbove(a / 2, base + 1);
      BitsAbove(b / 2, base + 1);
      assert base in BitsFrom(a, base) <==> a % 2 == 1;
      assert base in BitsFrom(b, base) <==> b % 2 == 1;
      var restA, restB := BitsFrom(a / 2, base + 1), BitsFrom(b / 2, base + 1);
      forall x ensures x in restA <==> x in restB {
        assert x in BitsFrom(a, base) <==> (a % 2 == 1 && x == base) || x in restA;
        assert x in BitsFrom(b, base) <==> (b % 2 == 1 && x == base) || x in restB;
      }
      BitsDetermine(a / 2, b / 2, base + 1);
    } else {
      SomeBit(a, base);
      SomeBit(b, base);
    }
  }

  lemma SomeBit(b: nat, base: nat)
    ensures b > 0 ==> BitsFrom(b, base) != [] && BitsFrom(b, base)[0] in BitsFrom(b, base)
  {
    if b > 0 {
      PopTakesHead(b, base);
    }
  }

  lemma {:induction false} BitsBelow(b: nat, base: nat, n: nat)
    requires b < Pow2(n)
    ensures forall x | x in BitsFrom(b, base) :: x < base + n
    decreases n
  {
    if b > 0 {
      BitsBelow(b / 2, base + 1, n - 1);
    }
  }

  lemma BitmapIds(b: nat)
    requires b < BITMAP_LIMIT
    ensures forall x | x in BitsFrom(b, 0) :: x < MAX_REPLICAS
  {
    BitsBelow(b, 0, MAX_REPLICAS);
  }

  lemma {:induction false} AddFresh(b: nat, id: nat)
    requires b < Pow2(id)
    ensures Add(b, id) == b + Pow2(id)
  {
    if id > 0 {
      AddFresh(b / 2, id - 1);
    }
  }

  /** Setting bit `base + n` extends the mask by one id. */
  lemma {:induction false} MaskExtends(ids: set<nat>, base: nat, n: nat)
    ensures MaskFrom(ids, base, n) < Pow2(n)
    ensures MaskFrom(ids, base, n + 1) == MaskFrom(ids, base, n) + (if base + n in ids then Pow2(n) else 0)
    decreases n
  {
    if n > 0 {
      MaskExtends(ids, base + 1, n - 1);
    }
  }

  lemma {:induction false} AscendingExtends(ids: set<nat>, base: nat, n: nat)
    ensures Ascending(ids, base, n + 1) == Ascending(ids, base, n) + (if base + n in ids then [base + n] else [])
    decreases n
  {
    if n > 0 {
      AscendingExtends(ids, base + 1, n - 1);
    }
  }

  lemma {:induction false} AscendingLists(ids: set<nat>, base: nat, n: nat, x: nat)
    ensures x in Ascending(ids, base, n) <==> x in ids && base <= x < base + n
    decreases n
  {
    if n > 0 {
      AscendingLists(ids, base + 1, n - 1, x);
      assert x in Ascending(ids, base, n) <==> (x == base && base in ids) || x in Ascending(ids, base + 1, n - 1);
    }
  }

  // -------------------------------------------------------------------------------------------
  // The wire format

  function Zip(ids: seq<nat>, sigs: seq<Signature>): Signatures
    requires |ids| == |sigs|
  {
    if ids == [] then map[] else
      var n := |ids| - 1;
      Zip(ids[..n], sigs[..n])[ids[n] := sigs[n]]
  }

  /** `w` carries `h` and exactly the signatures `sigs`, in the order of their signers. */
  ghost predicate Encodes(w: Wire, h: Block, sigs: Signatures) {
    && w.justify == h
    && Pairs(BitsFrom(w.bmp, 0), w.sigs, sigs)
    && forall x :: x in BitsFrom(w.bmp, 0) <==> x in sigs
  }

  predicate Pairs(ids: seq<nat>, list: seq<Signature>, sigs: Signatures) {
    && |ids| == |list|
    && forall i | 0 <= i < |ids| :: ids[i] in sigs && sigs[ids[i]] == list[i]
  }

  /** A wrong number of signatures leaves none. */
  function Decoded(w: Wire): Signatures {
    var ids := BitsFrom(w.bmp, 0);
    if |ids| == |w.sigs| then Zip(ids, w.sigs) else map[]
  }

  lemma {:induction false} ZipFinds(ids: seq<nat>, sigs: seq<Signature>)
    requires |ids| == |sigs|
    requires forall i, j | 0 <= i < j < |ids| :: ids[i] < ids[j]
    ensures forall x :: x in Zip(ids, sigs) <==> x in ids
    ensures forall i | 0 <= i < |ids| :: ids[i] in Zip(ids, sigs) && Zip(ids, sigs)[ids[i]] == sigs[i]
  {
    if ids != [] {
      var n := |ids| - 1;
      ZipFinds(ids[..n], sigs[..n]);
      assert ids == ids[..n] + [ids[n]];
    }
  }

  lemma ZipStep(ids: seq<nat>, sigs: seq<Signature>, i: nat)
    requires |ids| == |sigs| && i < |ids|
    requires forall i, j | 0 <= i < j < |ids| :: ids[i] < ids[j]
    ensures ids[i] !in Zip(ids[..i], sigs[..i])
    ensures Zip(ids[..i + 1], sigs[..i + 1]) == Zip(ids[..i], sigs[..i])[ids[i] := sigs[i]]
  {
    ZipFinds(ids[..i], sigs[..i]);
    assert ids[..i + 1][..i] == ids[..i] && sigs[..i + 1][..i] == sigs[..i];
  }

  /** Decoding what was encoded gives back the certificate. */
  lemma DecodeEncode(w: Wire, h: Block, sigs: Signatures)
    requires Encodes(w, h, sigs)
    ensures w.justify == h && Decoded(w) == sigs
  {
    var ids := BitsFrom(w.bmp, 0);
    BitsAbove(w.bmp, 0);
    ZipFinds(ids, w.sigs);
    forall x | x in sigs ensures Decoded(w)[x] == sigs[x] {
      var i :| 0 <= i < |ids| && ids[i] == x;
    }
  }

  /** A message with as many signatures as set bits is an encoding of what it decodes to, and the only one. */
  lemma EncodeDecode(w: Wire)
    requires Size(w.bmp) == |w.sigs|
    ensures Encodes(w, w.justify, Decoded(w))
    ensures forall w' | Encodes(w', w.justify, Decoded(w)) :: w' == w
  {
    var ids, sigs := BitsFrom(w.bmp, 0), Decoded(w);
    SizeCountsBits(w.bmp, 0);
    BitsAbove(w.bmp, 0);
    ZipFinds(ids, w.sigs);
    forall w' | Encodes(w', w.justify, sigs) ensures w' == w {
      BitsDetermine(w'.bmp, w.bmp, 0);
      assert w'.sigs == w.sigs;
    }
  }

  /** The certificate a header carries, from its wire form. */
  function CertificateOf(w: Wire): Certificate {
    if Size(w.bmp) == |w.sigs| then Parsed(Decoded(w)) else Misfit(w.bmp, w.sigs)
  }

  /** Nothing of the wire form is lost: a block value and its header determine each other. */
  lemma HeaderDetermines(w1: Wire, w2: Wire)
    ensures w1 == w2 <==> w1.justify == w2.justify && CertificateOf(w1) == CertificateOf(w2)
  {
    if w1.justify == w2.justify && CertificateOf(w1) == CertificateOf(w2) && CertificateOf(w1).Parsed? {
      EncodeDecode(w1);
      EncodeDecode(w2);
    }
  }

  /** The signatures taken from a header are those its certificate parses to. */
  lemma ParsedSignatures(w: Wire)
    ensures CertificateOf(w).Sigs() == Decoded(w)
  {
    SizeCountsBits(w.bmp, 0);
  }

  /** Ids are popped off the bit map lowest first and paired with the signatures in order. */
  method PopAll(bmp: nat, list: seq<Signature>) returns (sigs: Signatures)
    requires |BitsFrom(bmp, 0)| == |list|
    ensures sigs == Zip(BitsFrom(bmp, 0), list)
    ensures forall x | x in sigs :: x in BitsFrom(bmp, 0)
  {
    ghost var ids := BitsFrom(bmp, 0);
    BitsAbove(bmp, 0);
    sigs := map[];
    var bv := bmp;
    ghost var left := ids;
    for i := 0 to |list|
      invariant BitsFrom(bv, 0) == left && left == ids[i..]
      invariant sigs == Zip(ids[..i], list[..i])
    {
      var id;
      id, bv := Pop(bv);
      left := left[1..];
      ZipStep(ids, list, i);
      sigs := if id in sigs then sigs else sigs[id := list[i]];
    }
    assert ids[..|list|] == ids && list[..|list|] == list;
    ZipFinds(ids, list);
  }

  // -------------------------------------------------------------------------------------------

  class QuorumCertificate {
    const objHash: Block
    var sigs: Signatures

    ghost predicate Valid()
      reads this
    {
      forall x | x in sigs :: x < MAX_REPLICAS
    }

    constructor (objHash: Block)
      ensures Valid() && this.objHash == objHash && sigs == map[]
    {
      this.objHash := objHash;
      sigs := map[];
    }

    constructor FromWire(w: Wire)
      requires w.bmp < BITMAP_LIMIT
      ensures Valid() && objHash == w.justify && sigs == Decoded(w)
    {
      objHash := w.justify;
      sigs := map[];
      new;
      SizeCountsBits(w.bmp, 0);
      if Size(w.bmp) == |w.sigs| {
        sigs := PopAll(w.bmp, w.sigs);
        BitmapIds(w.bmp);
      }
    }

    /** The ordered map is walked from the lowest signer to the highest. */
    method Serialize() returns (w: Wire)
      requires Valid()
      ensures Encodes(w, objHash, sigs) && w.bmp < BITMAP_LIMIT
    {
      var bv: nat, out: seq<Signature> := 0, [];
      var rid := 0;
      while rid < MAX_REPLICAS
        invariant rid <= MAX_REPLICAS
        invariant bv == MaskFrom(sigs.Keys, 0, rid)
        invariant Pairs(Ascending(sigs.Keys, 0, rid), out, sigs)
      {
        MaskExtends(sigs.Keys, 0, rid);
        AscendingExtends(sigs.Keys, 0, rid);
        if rid in sigs {
          out := out + [sigs[rid]];
          AddFresh(bv, rid);
          bv := Add(bv, rid);
        }
        rid := rid + 1;
      }
      MaskExtends(sigs.Keys, 0, rid);
      MaskBits(sigs.Keys, 0, rid);
      forall x ensures x in Ascending(sigs.Keys, 0, rid) <==> x in sigs { AscendingLists(sigs.Keys, 0, rid, x); }
      w := Wire(objHash, bv, out);
    }

    /** Sent over the wire and parsed again, a certificate is what it was. */
    method SendAndParse() returns (copy: QuorumCertificate)
      requires Valid()
      ensures fresh(copy) && copy.Valid() && copy.objHash == objHash && copy.sigs == sigs
    {
      var w := Serialize();
      DecodeEncode(w, objHash, sigs);
      copy := new QuorumCertificate.FromWire(w);
    }

    /** False stands for the throw.  The first signature of a replica is kept. */
    method AddPartialCertificate(rid: ReplicaId, hash: Block, sig: Signature) returns (ok: bool)
      requires Valid()
      modifies this`sigs
      ensures Valid()
      ensures ok <==> hash == objHash && rid < MAX_REPLICAS
      ensures sigs.Keys == if ok then old(sigs.Keys) + {rid} else old(sigs.Keys)
      ensures forall x | x in old(sigs) :: sigs[x] == old(sigs)[x]
      ensures ok && rid !in old(sigs) ==> sigs[rid] == sig
    {
      if hash != objHash || rid >= MAX_REPLICAS { return false; }
      if rid !in sigs {
        sigs := sigs[rid := sig];
      }
      return true;
    }

    /** None stands for the throw on an unknown signer. */
    method Verify(keys: map<ReplicaId, PublicKey>, nmajority: nat, check: CheckSig) returns (r: Option<bool>)
      requires Valid()
      ensures r == Verdict(objHash, sigs, keys, nmajority, check)
      ensures r == Some(true) <==>
                objHash.Genesis? || (sigs.Keys <= keys.Keys && |Good(objHash, sigs, keys, check)| >= nmajority)
      ensures r == None <==> objHash.Node? && |sigs| >= nmajority && !(sigs.Keys <= keys.Keys)
    {
      VerdictExact(objHash, sigs, keys, nmajority, check);
      if objHash.Genesis? { return Some(true); }
      if |sigs| < nmajority { return Some(false); }
      var nValid := 0;
      for rid := 0 to MAX_REPLICAS
        invariant forall x | x in sigs && x < rid :: x in keys
        invariant nValid == |GoodBelow(objHash, sigs, keys, check, rid)|
      {
        if rid in sigs {
          if rid !in keys { return None; }
          if check(sigs[rid], objHash, keys[rid]) {
            assert GoodBelow(objHash, sigs, keys, check, rid + 1) == GoodBelow(objHash, sigs, keys, check, rid) + {rid};
            nValid := nValid + 1;
          } else {
            assert GoodBelow(objHash, sigs, keys, check, rid + 1) == GoodBelow(objHash, sigs, keys, check, rid);
          }
        } else {
          assert GoodBelow(objHash, sigs, keys, check, rid + 1) == GoodBelow(objHash, sigs, keys, check, rid);
        }
      }
      assert GoodBelow(objHash, sigs, keys, check, MAX_REPLICAS) == Good(objHash, sigs, keys, check);
      return Some(nValid >= nmajority);
    }
  }

  /** The signers whose signature checks. */
  function Good(h: Block, sigs: Signatures, keys: map<ReplicaId, PublicKey>, check: CheckSig): set<ReplicaId> {
    set x | x in sigs && x in keys && check(sigs[x], h, keys[x])
  }

  function GoodBelow(h: Block, sigs: Signatures, keys: map<ReplicaId, PublicKey>, check: CheckSig, n: nat)
    : set<ReplicaId>
  {
    set x | x in sigs && x in keys && x < n && check(sigs[x], h, keys[x])
  }

  function Verdict(h: Block, sigs: Signatures, keys: map<ReplicaId, PublicKey>, nmajority: nat, check: CheckSig)
    : Option<bool>
  {
    if h.Genesis? then Some(true)
    else if |sigs| < nmajority then Some(false)
    else if exists x | x in sigs :: x !in keys then None
    else Some(|Good(h, sigs, keys, check)| >= nmajority)
  }

  /** The count taken first changes nothing; only the throw depends on it. */
  lemma VerdictExact(h: Block, sigs: Signatures, keys: map<ReplicaId, PublicKey>, nmajority: nat, check: CheckSig)
    ensures Verdict(h, sigs, keys, nmajority, check) == Some(true) <==>
              h.Genesis? || (sigs.Keys <= keys.Keys && |Good(h, sigs, keys, check)| >= nmajority)
    ensures Verdict(h, sigs, keys, nmajority, check) == None <==>
              h.Node? && |sigs| >= nmajority && !(sigs.Keys <= keys.Keys)
  {
    SubsetSize(Good(h, sigs, keys, check), sigs.Keys);
    assert |sigs| == |sigs.Keys|;
  }

  /** Where signatures cannot be forged, whatever the check accepts is really signed by enough replicas, also
      if some of the signatures carried are bad. */
  lemma VerifiedIsSigned(p: Params, bal: Ballots, h: Block, sigs: Signatures,
                         keys: map<ReplicaId, PublicKey>, check: CheckSig)
    requires keys.Keys == p.replicas
    requires forall r | r in sigs && r in keys && check(sigs[r], h, keys[r]) :: Signed(p, bal, r, h)
    ensures Verdict(h, sigs, keys, NMajority(|p.replicas|), check) == Some(true) ==> QcVerifies(p, bal, Qc(h, sigs))
  {
    SubsetSize(Good(h, sigs, keys, check), set r | r in sigs && Signed(p, bal, r, h));
  }

  /** Where in addition every signature carried is the one its signer made, the check accepts exactly those
      certificates. */
  lemma VerifyAcceptsExactly(p: Params, bal: Ballots, h: Block, sigs: Signatures,
                             keys: map<ReplicaId, PublicKey>, check: CheckSig)
    requires keys.Keys == p.replicas
    requires forall r | r in sigs && r in keys :: check(sigs[r], h, keys[r]) <==> Signed(p, bal, r, h)
    ensures Verdict(h, sigs, keys, NMajority(|p.replicas|), check) == Some(true) <==> QcVerifies(p, bal, Qc(h, sigs))
  {
    VerifiedIsSigned(p, bal, h, sigs, keys, check);
    if sigs.Keys <= p.replicas {
      assert Good(h, sigs, keys, check) == set r | r in sigs && Signed(p, bal, r, h);
      SubsetSize(Good(h, sigs, keys, check), sigs.Keys);
    }
  }

  // -------------------------------------------------------------------------------------------
  // Counting votes

  /** A vote as the core receives it. */
  datatype Ballot = Ballot(voter: ReplicaId, sig: Signature)

  /** The signers of a block's own certificate after these votes; a vote with a large id is thrown out. */
  function Voters(votes: seq<Ballot>): set<ReplicaId> {
    set v | v in votes && v.voter < MAX_REPLICAS :: v.voter
  }

  /** The vote numbered `k` completes a quorum. */
  predicate NewQcAt(votes: seq<Ballot>, nmajority: nat, k: nat)
    requires k < |votes|
  {
    |Voters(votes[..k])| < nmajority <= |Voters(votes[..k + 1])|
  }

  lemma OneMoreVoter(votes: seq<Ballot>, k: nat)
    requires k < |votes|
    ensures Voters(votes[..k + 1])
            == Voters(votes[..k]) + if votes[k].voter < MAX_REPLICAS then {votes[k].voter} else {}
  {
    assert votes[..k + 1] == votes[..k] + [votes[k]];
    forall x | x in Voters(votes[..k]) ensures x in Voters(votes[..k + 1]) {
      var v :| v in votes[..k] && v.voter == x && v.voter < MAX_REPLICAS;
      assert v in votes[..k + 1];
    }
  }

  lemma {:induction false} VotersGrow(votes: seq<Ballot>, i: nat, j: nat)
    requires i <= j <= |votes|
    ensures |Voters(votes[..i])| <= |Voters(votes[..j])|
    decreases j
  {
    if i < j {
      VotersGrow(votes, i, j - 1);
      OneMoreVoter(votes, j - 1);
      SubsetSize(Voters(votes[..j - 1]), Voters(votes[..j]));
    }
  }

  /** Whatever the order and the repetitions, a new certificate is announced at most once, by the vote of the
      last of exactly `nmajority` different replicas. */
  lemma NewQcOnce(votes: seq<Ballot>, nmajority: nat, j: nat, k: nat)
    requires j < |votes| && k < |votes| && NewQcAt(votes, nmajority, j) && NewQcAt(votes, nmajority, k)
    ensures j == k && |Voters(votes[..k + 1])| == nmajority && votes[k].voter !in Voters(votes[..k])
  {
    if j < k { VotersGrow(votes, j + 1, k); }
    if k < j { VotersGrow(votes, k + 1, j); }
    OneMoreVoter(votes, k);
  }

  /** It is announced exactly when enough different replicas have voted. */
  lemma {:induction false} NewQcIff(votes: seq<Ballot>, nmajority: nat)
    requires nmajority > 0
    ensures (exists k | 0 <= k < |votes| :: NewQcAt(votes, nmajority, k)) <==> |Voters(votes)| >= nmajority
  {
    assert votes[..|votes|] == votes;
    if |Voters(votes)| >= nmajority {
      assert Voters([]) == {};
      var k := |votes| - 1;
      while |Voters(votes[..k])| >= nmajority
        invariant 0 <= k < |votes| && |Voters(votes[..k + 1])| >= nmajority
        decreases k
      {
        k := k - 1;
      }
      assert NewQcAt(votes, nmajority, k);
    }
    forall k | 0 <= k < |votes| && NewQcAt(votes, nmajority, k) ensures |Voters(votes)| >= nmajority {
      VotersGrow(votes, k + 1, |votes|);
    }
  }

  /** Each voter's signature is that of its first vote. */
  predicate FirstSigs(sigs: Signatures, votes: seq<Ballot>, n: nat)
    requires n <= |votes|
  {
    forall k {:trigger votes[k]} | 0 <= k < n ::
      var v := votes[k];
      v.voter < MAX_REPLICAS && v.voter !in Voters(votes[..k]) ==> v.voter in sigs && sigs[v.voter] == v.sig
  }

  lemma FirstSigsStay(before: Signatures, votes: seq<Ballot>, i: nat)
    requires i < |votes| && before.Keys == Voters(votes[..i]) && FirstSigs(before, votes, i)
    ensures var v := votes[i];
            FirstSigs(if v.voter < MAX_REPLICAS then AddSignature(before, v.voter, v.sig) else before, votes, i + 1)
  {
  }

  /** One vote through the handler: the certificate has the voters so far. */
  method ReceiveOne(core: HotstuffCore, certified: HotstuffBlock, votes: seq<Ballot>, nmajority: nat, i: nat)
    returns (newQc: bool)
    requires core.Valid() && certified in core.store.objects && certified.hash in core.store.cache
    requires i < |votes| && certified.selfQc.Keys == Voters(votes[..i]) && FirstSigs(certified.selfQc, votes, i)
    modifies core`hqcBlock, core`hqcSigs, core`bLeaf, certified`selfQc
    ensures core.Valid() && certified.selfQc.Keys == Voters(votes[..i + 1])
    ensures FirstSigs(certified.selfQc, votes, i + 1)
    ensures newQc <==> NewQcAt(votes, nmajority, i)
    ensures if newQc && certified.height > old(core.hqcBlock.height)
            then core.hqcBlock == certified && core.hqcSigs.Keys == Voters(votes[..i + 1])
            else core.hqcBlock == old(core.hqcBlock) && core.hqcSigs == old(core.hqcSigs)
  {
    SignersAfter(certified.selfQc, votes, i);
    FirstSigsStay(certified.selfQc, votes, i);
    var ok;
    ok, newQc := core.OnReceiveVote(certified, votes[i].voter, votes[i].sig, nmajority);
  }

  lemma SignersAfter(before: Signatures, votes: seq<Ballot>, i: nat)
    requires i < |votes| && before.Keys == Voters(votes[..i])
    ensures var v := votes[i];
            var after := if v.voter < MAX_REPLICAS then AddSignature(before, v.voter, v.sig) else before;
            && after.Keys == Voters(votes[..i + 1])
            && |before| == |Voters(votes[..i])| && |after| == |Voters(votes[..i + 1])|
  {
    OneMoreVoter(votes, i);
    var v := votes[i];
    var after := if v.voter < MAX_REPLICAS then AddSignature(before, v.voter, v.sig) else before;
    assert |before| == |before.Keys| && |after| == |after.Keys|;
  }

  /** `announced` are the announcements among the first `i` votes. */
  ghost predicate Tally(announced: seq<nat>, votes: seq<Ballot>, nmajority: nat, i: nat)
    requires i <= |votes|
  {
    && (forall k: nat :: k in announced <==> k < i && NewQcAt(votes, nmajority, k))
    && |announced| == if |Voters(votes[..i])| >= nmajority then 1 else 0
  }

  lemma TallyOneMore(announced: seq<nat>, votes: seq<Ballot>, nmajority: nat, i: nat)
    requires i < |votes| && Tally(announced, votes, nmajority, i)
    ensures Tally(if NewQcAt(votes, nmajority, i) then announced + [i] else announced, votes, nmajority, i + 1)
  {
    VotersGrow(votes, i, i + 1);
  }

  /** An announcement makes a higher block the certified one, with the signers up to then; nothing else does. */
  predicate HqcAfter(announced: seq<nat>, votes: seq<Ballot>, certified: HotstuffBlock, higher: bool,
                     block0: HotstuffBlock, sigs0: Signatures, block: HotstuffBlock, sigs: Signatures)
  {
    if higher && announced != []
    then block == certified && announced[0] < |votes| && sigs.Keys == Voters(votes[..announced[0] + 1])
    else block == block0 && sigs == sigs0
  }

  lemma HqcOneMore(announced: seq<nat>, votes: seq<Ballot>, nmajority: nat, i: nat, certified: HotstuffBlock,
                   higher: bool, block0: HotstuffBlock, sigs0: Signatures, block: HotstuffBlock, sigs: Signatures)
    requires i < |votes| && Tally(announced, votes, nmajority, i) && NewQcAt(votes, nmajority, i)
    requires if higher then block == certified && sigs.Keys == Voters(votes[..i + 1])
             else block == block0 && sigs == sigs0
    ensures announced == [] && HqcAfter(announced + [i], votes, certified, higher, block0, sigs0, block, sigs)
  {
  }

  /** One vote, with the announcements so far. */
  method ReceiveNext(core: HotstuffCore, certified: HotstuffBlock, votes: seq<Ballot>, nmajority: nat, i: nat,
                     announced: seq<nat>, ghost block0: HotstuffBlock, ghost sigs0: Signatures)
    returns (announced': seq<nat>)
    requires core.Valid() && certified in core.store.objects && certified.hash in core.store.cache
    requires i < |votes| && certified.selfQc.Keys == Voters(votes[..i]) && FirstSigs(certified.selfQc, votes, i)
    requires Tally(announced, votes, nmajority, i)
    requires HqcAfter(announced, votes, certified, certified.height > block0.height,
                      block0, sigs0, core.hqcBlock, core.hqcSigs)
    modifies core`hqcBlock, core`hqcSigs, core`bLeaf, certified`selfQc
    ensures core.Valid() && certified.selfQc.Keys == Voters(votes[..i + 1])
    ensures FirstSigs(certified.selfQc, votes, i + 1)
    ensures Tally(announced', votes, nmajority, i + 1)
    ensures HqcAfter(announced', votes, certified, certified.height > block0.height,
                     block0, sigs0, core.hqcBlock, core.hqcSigs)
  {
    TallyOneMore(announced, votes, nmajority, i);
    var newQc := ReceiveOne(core, certified, votes, nmajority, i);
    announced' := announced;
    if newQc {
      HqcOneMore(announced, votes, nmajority, i, certified, certified.height > block0.height,
                 block0, sigs0, core.hqcBlock, core.hqcSigs);
      announced' := announced + [i];
    }
  }

  /** The handler run on any sequence of votes for one block: the certificate collects their voters, and there
      is one announcement if enough different replicas voted, and none otherwise. */
  method ReceiveVotes(core: HotstuffCore, certified: HotstuffBlock, votes: seq<Ballot>, nmajority: nat)
    returns (announced: seq<nat>)
    requires core.Valid() && certified in core.store.objects && certified.hash in core.store.cache
    requires certified.selfQc == map[] && nmajority > 0
    modifies core`hqcBlock, core`hqcSigs, core`bLeaf, certified`selfQc
    ensures core.Valid() && certified.selfQc.Keys == Voters(votes) && FirstSigs(certified.selfQc, votes, |votes|)
    ensures forall k: nat :: k in announced <==> k < |votes| && NewQcAt(votes, nmajority, k)
    ensures |announced| == if |Voters(votes)| >= nmajority then 1 else 0
    ensures HqcAfter(announced, votes, certified, certified.height > old(core.hqcBlock).height,
                     old(core.hqcBlock), old(core.hqcSigs), core.hqcBlock, core.hqcSigs)
    ensures |Voters(votes)| >= nmajority ==> core.hqcBlock.height >= certified.height
  {
    announced := [];
    var i := 0;
    assert Voters(votes[..0]) == {};
    while i < |votes|
      invariant 0 <= i <= |votes| && core.Valid() && certified.selfQc.Keys == Voters(votes[..i])
      invariant FirstSigs(certified.selfQc, votes, i) && Tally(announced, votes, nmajority, i)
      invariant HqcAfter(announced, votes, certified, certified.height > old(core.hqcBlock).height,
                         old(core.hqcBlock), old(core.hqcSigs), core.hqcBlock, core.hqcSigs)
    {
      announced := ReceiveNext(core, certified, votes, nmajority, i, announced, old(core.hqcBlock), old(core.hqcSigs));
      i := i + 1;
    }
    assert votes[..|votes|] == votes;
  }
}
