/** The block tree.

  A block header commits to its parent hash, to a quorum certificate (whose object hash names the
  justify block) and to its body.  Under a collision-free hash the header hash stands for the whole
  history below the block, so a block *value* of the inductive type below plays the part of its hash:
  headers with different hashes are different values, and equal headers are equal values.
*/
module Blocks {

  type ReplicaId = nat
  newtype Byte = x: int | 0 <= x < 256
  type Body = seq<Byte>
  type Signature = seq<Byte>
  type Signatures = map<ReplicaId, Signature>

  const MAX_REPLICAS: nat := 32
  const UNKNOWN_REPLICA: ReplicaId := 32

  /** The certificate in a header: signatures by signer, or a bit map and a list of signatures that do not
      fit each other, from which no signature is taken.  Certs.HeaderDetermines ties it to the wire form. */
  datatype Certificate = Parsed(sigs: Signatures) | Misfit(bmp: nat, list: seq<Signature>) {
    function Sigs(): Signatures { if Parsed? then sigs else map[] }
  }

  /** `cert` is the certificate over `justify`. */
  datatype Block =
    | Genesis
    | Node(parent: Block, justify: Block, cert: Certificate, body: Body)

  /** The height `set_parent` computes. */
  function Height(b: Block): nat {
    match b
    case Genesis => 0
    case Node(p, _, _, _) => Height(p) + 1
  }

  /** `a` is `b` or one of the blocks reached from `b` by parent links. */
  predicate Extends(b: Block, a: Block) {
    a == b || (b.Node? && Extends(b.parent, a))
  }

  /** Where the walk `for (x = b; x.height > h; x = x.parent)` stops. */
  function AncestorAt(b: Block, h: nat): Block {
    if Height(b) <= h then b else AncestorAt(b.parent, h)
  }

  function Ancestors(b: Block): set<Block> {
    if b.Genesis? then {b} else Ancestors(b.parent) + {b}
  }

  /** Every justify below `b` is a proper ancestor of the block that carries it. */
  predicate OnChain(b: Block) {
    b.Node? ==> Extends(b.parent, b.justify) && OnChain(b.parent)
  }

  /** What agreement needs of a block: its justify is a proper ancestor, or has only genesis below it. */
  predicate SoundJustify(b: Block) {
    b.Node? ==> Extends(b.parent, b.justify) || Height(b.justify) <= 1
  }

  /** The block a vote on `b` asks its voter to lock (consensus.cc calls it blk1). */
  function GrandJustify(b: Block): Block {
    if b.Genesis? || b.justify.Genesis? then Genesis else b.justify.justify
  }

  lemma {:induction false} ExtendsHeight(b: Block, a: Block)
    requires Extends(b, a)
    ensures Height(a) <= Height(b)
    ensures Height(a) == Height(b) ==> a == b
  {
    if a != b {
      ExtendsHeight(b.parent, a);
    }
  }

  lemma {:induction false} ExtendsTransitive(c: Block, b: Block, a: Block)
    requires Extends(c, b) && Extends(b, a)
    ensures Extends(c, a)
  {
    if c != b {
      ExtendsTransitive(c.parent, b, a);
    }
  }

  /** The parent walk decides ancestry exactly. */
  lemma {:induction false} WalkDecidesAncestry(b: Block, a: Block)
    ensures AncestorAt(b, Height(a)) == a <==> Extends(b, a)
  {
    if Height(b) <= Height(a) {
      if Extends(b, a) {
        ExtendsHeight(b, a);
      }
    } else {
      WalkDecidesAncestry(b.parent, a);
    }
  }

  lemma {:induction false} AncestorAtProperties(b: Block, h: nat)
    ensures Extends(b, AncestorAt(b, h))
    ensures Height(AncestorAt(b, h)) == if Height(b) <= h then Height(b) else h
  {
    if Height(b) > h {
      AncestorAtProperties(b.parent, h);
    }
  }

  lemma {:induction false} AncestorAtSteps(b: Block, n: nat)
    requires n < Height(b)
    ensures AncestorAt(b, n + 1).Node? && AncestorAt(b, n + 1).parent == AncestorAt(b, n)
  {
    if Height(b) > n + 1 {
      AncestorAtSteps(b.parent, n);
    }
  }

  /** The ancestors of one block are linearly ordered. */
  lemma {:induction false} AncestorsAreLinear(d: Block, a: Block, b: Block)
    requires Extends(d, a) && Extends(d, b) && Height(a) <= Height(b)
    ensures Extends(b, a)
  {
    if d != b {
      ExtendsHeight(d.parent, b);
      AncestorsAreLinear(d.parent, a, b);
    }
  }

  lemma {:induction false} AncestorsAreExtended(b: Block, a: Block)
    ensures a in Ancestors(b) <==> Extends(b, a)
  {
    if b.Node? {
      AncestorsAreExtended(b.parent, a);
    }
  }

  lemma {:induction false} GenesisIsBelow(b: Block)
    ensures Extends(b, Genesis)
  {
    if b.Node? {
      GenesisIsBelow(b.parent);
    }
  }

  lemma {:induction false} OnChainBelow(b: Block, a: Block)
    requires OnChain(b) && Extends(b, a)
    ensures OnChain(a)
  {
    if a != b {
      OnChainBelow(b.parent, a);
    }
  }

  lemma SoundHeight(b: Block)
    requires b.Node? && SoundJustify(b)
    ensures Height(b.justify) <= Height(b)
    ensures Height(b.justify) > 1 ==> Extends(b, b.justify) && Height(b.justify) < Height(b)
  {
    if Extends(b.parent, b.justify) {
      ExtendsHeight(b.parent, b.justify);
    }
  }

  /** Down the justify links heights never rise. */
  lemma GrandJustifyIsLow(b: Block)
    requires b.Node? && SoundJustify(b) && SoundJustify(b.justify)
    ensures Height(GrandJustify(b)) <= Height(b.justify) <= Height(b)
  {
    SoundHeight(b);
    if b.justify.Node? {
      SoundHeight(b.justify);
    }
  }
}
