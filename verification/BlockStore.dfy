/** Block objects, the block cache, and the garbage collector (block.cc, block_store.cc,
    garbage_collector.cc). */
module BlockStorage {
  import opened Blocks
  import opened CoreSpec

  /** `hash` is the header: what the block is.  The rest is the mutable state of one object. */
  class HotstuffBlock {
    const hash: Block
    const proposer: ReplicaId
    var body: Body
    var height: nat
    var parent: HotstuffBlock?
    var justify: HotstuffBlock?
    var selfQc: Signatures
    var decided: bool
    var written: bool
    var flushed: bool

    /** A block minted here or received from the network. */
    constructor Received(hash: Block, proposer: ReplicaId)
      requires hash.Node?
      ensures this.hash == hash && this.proposer == proposer && body == hash.body
      ensures height == 0 && parent == null && justify == null && selfQc == map[]
      ensures !decided && !written && !flushed
    {
      this.hash, this.proposer := hash, proposer;
      body, height, parent, justify, selfQc := hash.body, 0, null, null, map[];
      decided, written, flushed := false, false, false;
    }

    /** A decided block read back from the block directory. */
    constructor Loaded(hash: Block, body: Body)
      requires hash.Node?
      ensures this.hash == hash && proposer == UNKNOWN_REPLICA && this.body == body
      ensures height == 0 && parent == null && justify == null && selfQc == map[]
      ensures decided && written && !flushed
    {
      this.hash, this.proposer := hash, UNKNOWN_REPLICA;
      this.body, height, parent, justify, selfQc := body, 0, null, null, map[];
      decided, written, flushed := true, true, false;
    }

    constructor GenesisBlock()
      ensures hash == Genesis && proposer == UNKNOWN_REPLICA && body == []
      ensures height == 0 && parent == null && justify == null && selfQc == map[]
      ensures decided && written && flushed
    {
      hash, proposer := Genesis, UNKNOWN_REPLICA;
      body, height, parent, justify, selfQc := [], 0, null, null, map[];
      decided, written, flushed := true, true, true;
    }

    method SetParent(p: HotstuffBlock)
      modifies this`parent, this`height
      ensures parent == p && height == old(p.height) + 1
    {
      parent, height := p, p.height + 1;
    }

    method SetJustify(j: HotstuffBlock)
      modifies this`justify
      ensures justify == j
    {
      justify := j;
    }

    /** A flushed object holds no body. */
    ghost predicate BodyOk()
      reads this`body, this`flushed
    {
      flushed ==> body == []
    }

    /** The flags and the body are as a replica state records them. */
    ghost predicate Agrees(decidedBlocks: set<Block>, writtenBlocks: set<Block>, bodies: map<Block, Body>)
      reads this`decided, this`written, this`body
    {
      && (decided <==> hash in decidedBlocks)
      && (written <==> hash in writtenBlocks)
      && hash in bodies && body == bodies[hash]
    }

    method FlushFromMemory()
      requires BodyOk()
      modifies this`flushed, this`body
      ensures flushed && body == []
    {
      if flushed { return; }
      flushed := true;
      body := [];
    }
  }

  datatype MissingDependencies = Missing(parent: Option<Block>, justify: Option<Block>) {
    predicate Any() { parent.Some? || justify.Some? }
  }

  /** Overwrite position `i` with the last element and shorten by one. */
  function SwapAndPop<T>(s: seq<T>, i: nat): seq<T>
    requires i < |s|
  {
    s[i := s[|s| - 1]][..|s| - 1]
  }

  lemma SwapAndPopRemoves<T>(s: seq<T>, i: nat)
    requires i < |s|
    ensures |SwapAndPop(s, i)| == |s| - 1
    ensures forall k | 0 <= k < i :: SwapAndPop(s, i)[k] == s[k]
    ensures forall x | x in SwapAndPop(s, i) :: x in s
    ensures forall x | x in s && x != s[i] :: x in SwapAndPop(s, i)
  {
    forall x | x in s && x != s[i] ensures x in SwapAndPop(s, i) {
      var k :| 0 <= k < |s| && s[k] == x;
      assert SwapAndPop(s, i)[if k == |s| - 1 then i else k] == x;
    }
  }

  /** Keeps every inserted block until its height falls below a requested one, then drops its body. */
  class GarbageCollector {
    var heightToGc: Option<nat>
    var gcList: seq<HotstuffBlock>
    var gcListBuffer: seq<HotstuffBlock>

    constructor ()
      ensures heightToGc == None && gcList == [] && gcListBuffer == []
    {
      heightToGc, gcList, gcListBuffer := None, [], [];
    }

    method AddBlock(o: HotstuffBlock)
      modifies this`gcListBuffer
      ensures gcListBuffer == old(gcListBuffer) + [o]
    {
      gcListBuffer := gcListBuffer + [o];
    }

    /** A later request replaces one that is still pending. */
    method InvokeGc(h: nat)
      modifies this`heightToGc
      ensures heightToGc == Some(h)
    {
      heightToGc := Some(h);
    }

    /** Flush the block `o` at position `i` and take it off the list. */
    method DropAt(i: nat, o: HotstuffBlock)
      requires i < |gcList| && gcList[i] == o && o.BodyOk()
      modifies this`gcList, o`flushed, o`body
      ensures |gcList| == |old(gcList)| - 1 && (forall k | 0 <= k < i :: gcList[k] == old(gcList)[k])
      ensures forall x | x in gcList :: x in old(gcList)
      ensures forall x | x in old(gcList) && x != o :: x in gcList
      ensures o.flushed && o.body == []
    {
      o.FlushFromMemory();
      SwapAndPopRemoves(gcList, i);
      gcList := SwapAndPop(gcList, i);
    }

    /** What a sweep at height `h` makes of an object. */
    ghost static predicate Swept(o: HotstuffBlock, h: nat, flushed: bool, body: Body)
      reads o`height, o`flushed, o`body
    {
      if o.height < h then o.flushed && o.body == [] else o.flushed == flushed && o.body == body
    }

    /** Swap-and-pop over the list: the blocks below `h` are flushed and leave, the others stay and keep
        their bodies. */
    method DoGc(h: nat)
      requires forall o | o in gcList :: o.BodyOk()
      modifies this`gcList, gcList`flushed, gcList`body
      ensures forall o :: o in gcList <==> o in old(gcList) && o.height >= h
      ensures forall o | o in old(gcList) :: Swept(o, h, old(o.flushed), old(o.body))
    {
      ghost var all := gcList;
      var i := 0;
      while i < |gcList|
        invariant 0 <= i <= |gcList|
        invariant forall o | o in gcList :: o in all
        invariant forall k | 0 <= k < i :: gcList[k].height >= h
        invariant forall o | o in all :: o.BodyOk()
        invariant forall o | o in all && o.height >= h ::
                    o in gcList && o.flushed == old(o.flushed) && o.body == old(o.body)
        invariant forall o | o in all && o.height < h :: o in gcList || (o.flushed && o.body == [])
        decreases |gcList| - i
      {
        var o := gcList[i];
        assert o in all && all == old(gcList);
        if o.height < h {
          DropAt(i, o);
        } else {
          i := i + 1;
        }
      }
    }

    /** One pass of the worker loop: list and buffer together, at the pending height. */
    method Run()
      requires heightToGc.Some?
      requires forall o | o in gcList + gcListBuffer :: o.BodyOk()
      modifies this, gcList`flushed, gcList`body, gcListBuffer`flushed, gcListBuffer`body
      ensures heightToGc == None && gcListBuffer == []
      ensures forall o :: o in gcList <==> o in old(gcList + gcListBuffer) && o.height >= old(heightToGc.value)
      ensures forall o | o in old(gcList + gcListBuffer) ::
                Swept(o, old(heightToGc.value), old(o.flushed), old(o.body))
    {
      gcList, gcListBuffer := gcList + gcListBuffer, [];
      var h := heightToGc.value;
      heightToGc := None;
      DoGc(h);
    }
  }

  /** The cache.  Parent and justify pointers always lead to the cached objects, so on anything reached
      through a link comparing pointers is comparing hashes. */
  class BlockStore {
    var cache: map<Block, HotstuffBlock>
    const gc: GarbageCollector
    ghost var objects: set<HotstuffBlock>    // all that was ever inserted: cached, or a further copy
    ghost var decided: set<Block>            // what the cached objects record about their blocks
    ghost var written: set<Block>
    ghost var bodies: map<Block, Body>

    /** `o`, itself cached or a further copy, is linked into the cache. */
    ghost predicate Linked(o: HotstuffBlock)
      reads this`cache, o`height, o`parent, o`justify
    {
      && o.height == Height(o.hash)
      && (o.hash.Genesis? ==> o.parent == null && o.justify == null)
      && (o.hash.Node? ==>
            && o.hash.parent in cache && o.parent == cache[o.hash.parent]
            && o.hash.justify in cache && o.justify == cache[o.hash.justify])
    }

    ghost predicate IsCached(o: HotstuffBlock)
      reads this`cache
    {
      o.hash in cache && cache[o.hash] == o
    }

    ghost predicate LinksValid()
      reads this`cache, this`objects, gc`gcList, gc`gcListBuffer
      reads objects`height, objects`parent, objects`justify, objects`flushed, objects`body
    {
      && Genesis in cache
      && (forall h {:trigger cache[h].hash} | h in cache :: cache[h].hash == h && cache[h] in objects)
      && (forall o {:trigger Linked(o)} | o in objects :: Linked(o))
      && (forall o {:trigger o.BodyOk()} | o in objects :: o.BodyOk())
      && (forall o | o in gc.gcList :: o in objects)
      && (forall o | o in gc.gcListBuffer :: o in objects)
    }

    /** The flags and bodies of the cached objects add up to the three records. */
    ghost predicate RecordsValid()
      reads this, objects`decided, objects`written, objects`body
    {
      && decided <= cache.Keys && written <= cache.Keys && bodies.Keys == cache.Keys
      && forall o {:trigger o.Agrees(decided, written, bodies)} | o in objects && IsCached(o) ::
           o.Agrees(decided, written, bodies)
    }

    /** An object still has its body or not, but the collector does not lose sight of it before it is flushed. */
    ghost predicate Watched(o: HotstuffBlock)
      reads gc`gcList, gc`gcListBuffer, o`flushed
    {
      o.flushed || o in gc.gcList || o in gc.gcListBuffer
    }

    ghost predicate AllWatched()
      reads this`objects, gc`gcList, gc`gcListBuffer, objects`flushed
    {
      forall o {:trigger Watched(o)} | o in objects :: Watched(o)
    }

    ghost predicate Sound()
      reads this, gc`gcList, gc`gcListBuffer, objects
    {
      LinksValid() && RecordsValid()
    }

    ghost predicate Valid()
      reads this, gc`gcList, gc`gcListBuffer, objects
    {
      Sound() && AllWatched()
    }

    constructor (genesis: HotstuffBlock)
      requires genesis.hash == Genesis && genesis.height == 0 && genesis.parent == null && genesis.justify == null
      requires genesis.decided && genesis.written && genesis.flushed && genesis.BodyOk()
      ensures Valid() && cache == map[Genesis := genesis] && objects == {genesis}
      ensures decided == {Genesis} && written == {Genesis} && bodies == map[Genesis := []]
      ensures fresh(gc) && gc.heightToGc == None
    {
      cache := map[Genesis := genesis];
      objects := {genesis};
      decided, written, bodies := {Genesis}, {Genesis}, map[Genesis := []];
      gc := new GarbageCollector();
    }

    lemma CachedIsLinked(o: HotstuffBlock)
      requires LinksValid() && IsCached(o)
      ensures o in objects && Linked(o) && o.height == Height(o.hash)
    {
      assert cache[o.hash].hash == o.hash && Linked(o);
    }

    lemma ReadsFlags(o: HotstuffBlock)
      requires Valid() && IsCached(o)
      ensures (o.decided <==> o.hash in decided) && (o.written <==> o.hash in written)
      ensures o.body == ReadBody(bodies, o.hash)
    {
      CachedIsLinked(o);
      assert o.Agrees(decided, written, bodies);
    }

    /** The cache is closed under parent and justify; a parent is one lower. */
    lemma LinksStayInside(o: HotstuffBlock)
      requires LinksValid() && o in objects && o.hash.Node?
      ensures o.parent != null && o.parent.hash == o.hash.parent && o.parent in objects && IsCached(o.parent)
      ensures o.justify != null && o.justify.hash == o.hash.justify && o.justify in objects && IsCached(o.justify)
      ensures o.height == Height(o.hash) == o.parent.height + 1
    {
      assert Linked(o);
      assert cache[o.hash.parent].hash == o.hash.parent && Linked(cache[o.hash.parent]);
      assert cache[o.hash.justify].hash == o.hash.justify;
    }

    /** On objects of the cache, pointer equality is hash equality. */
    lemma PointersAreHashes(a: HotstuffBlock, b: HotstuffBlock)
      requires IsCached(a) && IsCached(b)
      ensures a == b <==> a.hash == b.hash
    {
    }

    method GetBlock(h: Block) returns (o: HotstuffBlock?)
      requires Valid()
      ensures if h in cache then o == cache[h] && o.hash == h && o in objects else o == null
    {
      assert h in cache ==> cache[h].hash == h;
      o := if h in cache then cache[h] else null;
    }

    /** Either reports what is missing and does nothing, or links the object, caches it unless a block with
        this hash is cached already, and has the collector watch it. */
    method InsertBlock(o: HotstuffBlock) returns (missing: MissingDependencies)
      requires Valid() && o.hash.Node? && o.BodyOk() && !IsCached(o)
      modifies this, gc`gcListBuffer, o`height, o`parent, o`justify
      ensures Valid()
      ensures missing.parent == if o.hash.parent in old(cache) then None else Some(o.hash.parent)
      ensures missing.justify == if o.hash.justify in old(cache) then None else Some(o.hash.justify)
      ensures missing.Any() ==> unchanged(this) && unchanged(o) && unchanged(gc)
      ensures !missing.Any() ==>
                && cache == (if o.hash in old(cache) then old(cache) else old(cache)[o.hash := o])
                && objects == old(objects) + {o} && gc.gcListBuffer == old(gc.gcListBuffer) + [o]
                && Recorded(o, o.hash !in old(cache), old(decided), old(written), old(bodies))
    {
      missing := Missing(if o.hash.parent in cache then None else Some(o.hash.parent),
                         if o.hash.justify in cache then None else Some(o.hash.justify));
      if missing.Any() { return; }
      Link(o);
      Admit(o);
      Watch(o);
      forall x | x in objects ensures Watched(x) {
        assert x == o || old(Watched(x));
      }
    }

    method Watch(o: HotstuffBlock)
      requires Sound() && o in objects
      modifies gc`gcListBuffer
      ensures Sound() && gc.gcListBuffer == old(gc.gcListBuffer) + [o]
    {
      gc.AddBlock(o);
    }

    /** Cached if it is the first under its hash. */
    method Admit(o: HotstuffBlock)
      requires Sound() && Linked(o) && o.BodyOk() && !IsCached(o)
      modifies this
      ensures Sound() && objects == old(objects) + {o}
      ensures cache == if o.hash in old(cache) then old(cache) else old(cache)[o.hash := o]
      ensures Recorded(o, o.hash !in old(cache), old(decided), old(written), old(bodies))
    {
      if o.hash in cache {
        KeepCopy(o);
      } else {
        CacheFirst(o);
      }
    }

    /** The records after an insertion: the first object under a hash adds its own flags and body. */
    ghost predicate Recorded(o: HotstuffBlock, first: bool,
                             decided0: set<Block>, written0: set<Block>, bodies0: map<Block, Body>)
      reads this`decided, this`written, this`bodies, o`decided, o`written, o`body
    {
      && decided == (if first && o.decided then decided0 + {o.hash} else decided0)
      && written == (if first && o.written then written0 + {o.hash} else written0)
      && bodies == (if first then bodies0[o.hash := o.body] else bodies0)
    }

    /** An object that was linked before is linked the same way again. */
    method Link(o: HotstuffBlock)
      requires Sound() && o.hash.Node? && o.hash.parent in cache && o.hash.justify in cache
      modifies o`height, o`parent, o`justify
      ensures Sound() && Linked(o)
    {
      assert Linked(cache[o.hash.parent]) && cache[o.hash.parent].hash == o.hash.parent;
      o.SetParent(cache[o.hash.parent]);
      o.SetJustify(cache[o.hash.justify]);
      forall x | x in objects ensures Linked(x) {
        assert old(Linked(x));
      }
    }

    /** The first object under a hash is cached and recorded. */
    method CacheFirst(o: HotstuffBlock)
      requires Sound() && Linked(o) && o.BodyOk() && o.hash !in cache
      modifies this
      ensures Sound() && objects == old(objects) + {o} && cache == old(cache)[o.hash := o]
      ensures Recorded(o, true, old(decided), old(written), old(bodies))
    {
      PutFirst(o);
      Record(o);
    }

    /** What was linked stays linked. */
    method PutFirst(o: HotstuffBlock)
      requires Sound() && Linked(o) && o.BodyOk() && o.hash !in cache
      modifies this`cache, this`objects
      ensures LinksValid() && objects == old(objects) + {o} && cache == old(cache)[o.hash := o]
      ensures forall x | x in objects && IsCached(x) && x != o :: x.Agrees(decided, written, bodies)
    {
      cache, objects := cache[o.hash := o], objects + {o};
      forall x | x in objects ensures Linked(x) {
        assert x == o || old(Linked(x));
      }
      forall h | h in cache ensures cache[h].hash == h && cache[h] in objects {
        assert h in old(cache) ==> old(cache[h].hash) == h;
      }
    }

    method Record(o: HotstuffBlock)
      requires LinksValid() && o in objects && IsCached(o) && o.hash !in decided + written + bodies.Keys
      requires decided <= cache.Keys && written <= cache.Keys && bodies.Keys + {o.hash} == cache.Keys
      requires forall x | x in objects && IsCached(x) && x != o :: x.Agrees(decided, written, bodies)
      modifies this`decided, this`written, this`bodies
      ensures Sound() && Recorded(o, true, old(decided), old(written), old(bodies))
    {
      if o.decided { decided := decided + {o.hash}; }
      if o.written { written := written + {o.hash}; }
      bodies := bodies[o.hash := o.body];
      forall x | x in objects && IsCached(x) ensures x.Agrees(decided, written, bodies) {
        assert x == o || old(x.Agrees(decided, written, bodies));
      }
    }

    /** A further copy changes no record. */
    method KeepCopy(o: HotstuffBlock)
      requires Sound() && Linked(o) && o.BodyOk() && o.hash in cache && !IsCached(o)
      modifies this`objects
      ensures Sound() && objects == old(objects) + {o}
    {
      objects := objects + {o};
      forall x | x in objects ensures Linked(x) {
        assert x == o || old(Linked(x));
      }
    }

    method SetWritten(o: HotstuffBlock)
      requires Valid() && IsCached(o)
      modifies this`written, o`written
      ensures Valid() && written == old(written) + {o.hash}
    {
      o.written := true;
      written := written + {o.hash};
      forall x | x in objects && IsCached(x) ensures x.Agrees(decided, written, bodies) {
        assert old(x.Agrees(decided, written, bodies));
      }
    }

    method SetDecided(o: HotstuffBlock)
      requires Valid() && IsCached(o)
      modifies this`decided, o`decided
      ensures Valid() && decided == old(decided) + {o.hash}
    {
      o.decided := true;
      decided := decided + {o.hash};
      forall x | x in objects && IsCached(x) ensures x.Agrees(decided, written, bodies) {
        assert old(x.Agrees(decided, written, bodies));
      }
    }

    method PruneBelowHeight(h: nat)
      modifies gc`heightToGc
      ensures gc.heightToGc == Some(h)
    {
      gc.InvokeGc(h);
    }

    /** A pass of the collector over the objects: links stay, and every object below the height has lost its
        body, now or before. */
    method SweepObjects(ghost h: nat)
      requires LinksValid() && AllWatched() && gc.heightToGc == Some(h)
      modifies gc, objects`flushed, objects`body
      ensures LinksValid() && AllWatched() && gc.heightToGc == None
      ensures forall o | o in objects :: o.body == if Height(o.hash) < h then [] else old(o.body)
    {
      forall o | o in objects ensures o.height == Height(o.hash) && o.BodyOk() && Watched(o) {
        assert Linked(o);
      }
      gc.Run();
      forall o | o in objects ensures Linked(o) && o.BodyOk() && Watched(o) {
        assert old(Linked(o) && o.BodyOk() && Watched(o));
      }
      forall h | h in cache ensures cache[h].hash == h && cache[h] in objects {
        assert old(cache[h].hash) == h;
      }
    }

    /** The same on the records: exactly the blocks below the height are left without a body. */
    method Sweep() returns (ghost victims: set<Block>)
      requires Valid() && gc.heightToGc.Some?
      modifies this`bodies, gc, objects`flushed, objects`body
      ensures Valid() && gc.heightToGc == None
      ensures victims == set b | b in cache && Height(b) < old(gc.heightToGc.value)
      ensures bodies == map b | b in old(bodies) :: if b in victims then [] else old(bodies)[b]
    {
      ghost var h := gc.heightToGc.value;
      victims := set b | b in cache && Height(b) < h;
      SweepObjects(h);
      forall x | x in objects && IsCached(x)
        ensures x.Agrees(decided, written, bodies[x.hash := if x.hash in victims then [] else bodies[x.hash]])
      {
        assert old(x.Agrees(decided, written, bodies));
      }
      ClearRecords(victims);
    }

    method ClearRecords(ghost victims: set<Block>)
      requires LinksValid() && AllWatched()
      requires decided <= cache.Keys && written <= cache.Keys && bodies.Keys == cache.Keys
      requires forall x | x in objects && IsCached(x) ::
                 x.Agrees(decided, written, bodies[x.hash := if x.hash in victims then [] else bodies[x.hash]])
      modifies this`bodies
      ensures Valid() && bodies == map b | b in old(bodies) :: if b in victims then [] else old(bodies)[b]
    {
      bodies := map b | b in bodies :: if b in victims then [] else bodies[b];
    }

    ghost function Proposers(): map<Block, ReplicaId>
      reads this`cache
    {
      map h | h in cache :: cache[h].proposer
    }

    /** Whether a child of `o` may carry a body: `self` proposed the top `depth` blocks in a row. */
    method SupportsNonemptyChild(o: HotstuffBlock, self: ReplicaId, depth: int) returns (ok: bool)
      requires Valid() && o in objects
      ensures ok == SupportsNonempty(Proposers()[o.hash := o.proposer], self, o.hash, depth)
      decreases o.hash
    {
      if depth <= 0 { return true; }
      if self != o.proposer { return false; }
      assert Linked(o);
      if o.justify == null || o.parent == null { return false; }
      if o.hash.justify != o.hash.parent { return false; }
      LinksStayInside(o);
      ok := SupportsNonemptyChild(o.parent, self, depth - 1);
      assert Proposers()[o.parent.hash := o.parent.proposer] == Proposers();
      assert !Extends(o.hash.parent, o.hash) by {
        if Extends(o.hash.parent, o.hash) { ExtendsHeight(o.hash.parent, o.hash); }
      }
      SupportsNonemptyLocal(Proposers(), self, o.hash.parent, depth - 1, o.hash, o.proposer);
    }

    /** The walk `for (b = o; b.height > h; b = b.parent)`: it ends, and lands on the ancestor. */
    method WalkDown(o: HotstuffBlock, h: nat) returns (b: HotstuffBlock)
      requires Valid() && o in objects
      ensures b.hash == AncestorAt(o.hash, h) && b in objects
      ensures Height(o.hash) <= h ==> b == o
      ensures Height(o.hash) > h ==> IsCached(b)
    {
      b := o;
      assert Linked(o);
      while b.height > h
        invariant b in objects && b.height == Height(b.hash)
        invariant AncestorAt(b.hash, h) == AncestorAt(o.hash, h)
        invariant b == o || (IsCached(b) && Height(o.hash) > h)
        decreases b.height
      {
        assert Linked(b);
        LinksStayInside(b);
        b := b.parent;
        CachedIsLinked(b);
      }
    }
  }
}
