/** What a restarted replica makes of its disk.

  What survives a crash is the block directory and the decided-block index with its certificate.
  Reloading walks the index in height order, loads every block it names, and takes the executed block,
  the lock and the vote height from the stored certificate.
*/
module Reload {
  import opened Blocks
  import opened Quorums
  import opened CoreSpec
  import opened Safety
  import opened ReplicaInvariant

  datatype Disk = Disk(blocks: map<Block, Body>, index: map<nat, Block>, topQc: Option<Qc>)

  type Cursor = seq<(nat, Block)>

  /** The index as its cursor lists it: every entry once, heights ascending. */
  ghost predicate IsCursor(entries: Cursor, index: map<nat, Block>) {
    && (forall i, j | 0 <= i < j < |entries| :: entries[i].0 < entries[j].0)
    && (forall i | 0 <= i < |entries| :: entries[i].0 in index && index[entries[i].0] == entries[i].1)
    && (forall h | h in index :: exists i :: 0 <= i < |entries| && entries[i].0 == h)
  }

  /** A replica just constructed over what the disk holds. */
  function FreshCore(d: Disk): Core {
    InitCore().(disk := d.blocks, index := d.index, topQc := d.topQc)
  }

  /** Load one decided block and put it in the store; None stands for either throw.  The VM replays it
      from the same file. */
  function LoadOne(c: Core, b: Block): Option<Core> {
    if b !in c.disk || !CanInsert(c, b) then None
    else Some(c.(store := c.store + {b}, bodies := KeepFirst(c.bodies, b, c.disk[b]),
                 decided := c.decided + {b}, written := c.written + {b},
                 applied := c.applied + [Command(b, c.disk[b])]))
  }

  /** The first `n` entries, in the order of the cursor; a throw ends it. */
  function LoadFirst(c: Core, entries: Cursor, n: nat): Option<Core>
    requires n <= |entries|
  {
    if n == 0 then Some(c)
    else
      match LoadFirst(c, entries, n - 1)
      case None => None
      case Some(c') => LoadOne(c', entries[n - 1].1)
  }

  /** Throws without a stored certificate, or if the certified block was not loaded. */
  function ReloadState(c: Core): Option<Core> {
    if c.topQc.None? || c.topQc.value.block !in c.store then None
    else
      var b := c.topQc.value.block;
      Some(UpdateHqc(c, c.topQc.value).(vheight := TruncateHeight(Height(b)), bExec := b, bLock := b))
  }

  function ReloadAll(d: Disk, entries: Cursor): Option<Core> {
    match LoadFirst(FreshCore(d), entries, |entries|)
    case None => None
    case Some(c) => ReloadState(c)
  }

  // -------------------------------------------------------------------------------------------
  // The index, read back

  lemma {:induction false} IndexMeaning(b: Block)
    ensures forall h :: h in IndexAbove(map[], b, 0) <==> 1 <= h <= Height(b)
    ensures forall h | 1 <= h <= Height(b) :: IndexAbove(map[], b, 0)[h] == AncestorAt(b, h)
  {
    if b.Node? {
      IndexMeaning(b.parent);
    }
  }

  function Keys(entries: Cursor): seq<nat> {
    seq(|entries|, i requires 0 <= i < |entries| => entries[i].0)
  }

  lemma CursorRange(entries: Cursor, b: Block)
    requires IsCursor(entries, IndexAbove(map[], b, 0))
    ensures forall i | 0 <= i < |entries| ::
              1 <= entries[i].0 <= Height(b) && entries[i].1 == AncestorAt(b, entries[i].0)
    ensures forall h | 1 <= h <= Height(b) :: h in Keys(entries)
  {
    IndexMeaning(b);
    forall h | 1 <= h <= Height(b) ensures h in Keys(entries) {
      assert h in IndexAbove(map[], b, 0);
      var i :| 0 <= i < |entries| && entries[i].0 == h;
      assert Keys(entries)[i] == h;
    }
  }

  predicate AscendingOver(keys: seq<nat>, n: nat) {
    && (forall j, k | 0 <= j < k < |keys| :: keys[j] < keys[k])
    && (forall j | 0 <= j < |keys| :: 1 <= keys[j] <= n)
    && (forall h | 1 <= h <= n :: h in keys)
  }

  /** Ascending keys that cover 1, ..., n without leaving that range are 1, ..., n in order. */
  lemma {:induction false} KeysAreConsecutive(keys: seq<nat>, n: nat, i: nat)
    requires AscendingOver(keys, n) && i < |keys|
    ensures keys[i] == i + 1
  {
    if i > 0 { KeysAreConsecutive(keys, n, i - 1); }
    assert i + 1 in keys;
    var j :| 0 <= j < |keys| && keys[j] == i + 1;
  }

  lemma KeysAreComplete(keys: seq<nat>, n: nat)
    requires AscendingOver(keys, n)
    ensures |keys| == n
  {
    if |keys| > 0 { KeysAreConsecutive(keys, n, |keys| - 1); }
    if n > 0 {
      assert n in keys;
      var j :| 0 <= j < |keys| && keys[j] == n;
      KeysAreConsecutive(keys, n, j);
    }
  }

  /** The cursor lists the ancestors of the executed block from height 1 up, with no gap. */
  lemma CursorListsBranch(entries: Cursor, b: Block)
    requires IsCursor(entries, IndexAbove(map[], b, 0))
    ensures |entries| == Height(b)
    ensures forall i | 0 <= i < |entries| :: entries[i] == (i + 1, AncestorAt(b, i + 1))
  {
    CursorRange(entries, b);
    KeysAreComplete(Keys(entries), Height(b));
    forall i | 0 <= i < |entries| ensures entries[i] == (i + 1, AncestorAt(b, i + 1)) {
      KeysAreConsecutive(Keys(entries), Height(b), i);
    }
  }

  /** The height of the last block loaded: what the VM bridge restarts from. */
  function LastLoaded(entries: Cursor, n: nat): nat
    requires n <= |entries|
  {
    if n == 0 then 0 else Height(entries[n - 1].1)
  }

  lemma LastLoadedIsTop(entries: Cursor, b: Block)
    requires IsCursor(entries, IndexAbove(map[], b, 0))
    ensures LastLoaded(entries, |entries|) == Height(b)
  {
    CursorListsBranch(entries, b);
    AncestorAtProperties(b, Height(b));
  }

  /** There is such a cursor. */
  lemma BranchCursor(b: Block) returns (entries: Cursor)
    ensures IsCursor(entries, IndexAbove(map[], b, 0))
  {
    IndexMeaning(b);
    entries := seq(Height(b), i requires 0 <= i < Height(b) => (i + 1, AncestorAt(b, i + 1)));
    forall h | h in IndexAbove(map[], b, 0) ensures exists i :: 0 <= i < |entries| && entries[i].0 == h {
      assert entries[h - 1].0 == h;
    }
  }

  // -------------------------------------------------------------------------------------------
  // Loading

  /** The branch of `b` is in the block directory, bodies intact. */
  predicate BranchOnDisk(blocks: map<Block, Body>, b: Block) {
    forall a | a in Ancestors(b) && a.Node? :: a in blocks && blocks[a] == a.body
  }

  function OwnBodies(b: Block): map<Block, Body> {
    map a | a in Ancestors(b) :: if a.Genesis? then [] else a.body
  }

  /** A core that has loaded exactly the branch of `b`. */
  function LoadedCore(d: Disk, b: Block): Core {
    FreshCore(d).(store := Ancestors(b), bodies := OwnBodies(b), decided := Ancestors(b), written := Ancestors(b),
                  applied := OwnCommands(b, 0))
  }

  lemma NotItsOwnAncestor(b: Block)
    requires b.Node?
    ensures b !in Ancestors(b.parent)
  {
    AncestorsAreExtended(b.parent, b);
    if b in Ancestors(b.parent) { ExtendsHeight(b.parent, b); }
  }

  /** On top of its loaded parent a block loads exactly when its justify is an ancestor. */
  lemma LoadsNext(d: Disk, a: Block)
    requires a.Node? && a in d.blocks && d.blocks[a] == a.body
    ensures LoadOne(LoadedCore(d, a.parent), a)
            == if Extends(a.parent, a.justify) then Some(LoadedCore(d, a)) else None
  {
    AncestorsAreExtended(a.parent, a.justify);
    AncestorsAreExtended(a.parent, a.parent);
    NotItsOwnAncestor(a);
    assert OwnBodies(a) == OwnBodies(a.parent)[a := a.body];
  }

  /** Loading in height order never misses a parent, and misses a justify exactly at the first block
      that justifies none of its own ancestors. */
  lemma {:induction false} LoadsBranch(d: Disk, entries: Cursor, b: Block, n: nat)
    requires BranchOnDisk(d.blocks, b)
    requires |entries| == Height(b) && n <= |entries|
    requires forall i | 0 <= i < |entries| :: entries[i] == (i + 1, AncestorAt(b, i + 1))
    ensures var a := AncestorAt(b, n);
            LoadFirst(FreshCore(d), entries, n) == if OnChain(a) then Some(LoadedCore(d, a)) else None
  {
    AncestorAtProperties(b, n);
    if n == 0 {
      LoadsNothing(d);
    } else {
      var a := AncestorAt(b, n);
      AncestorAtSteps(b, n - 1);
      AncestorsAreExtended(b, a);
      LoadsNext(d, a);
      LoadsBranch(d, entries, b, n - 1);
    }
  }

  lemma LoadsNothing(d: Disk)
    ensures LoadedCore(d, Genesis) == FreshCore(d)
  {
    assert OwnBodies(Genesis) == map[Genesis := []];
  }

  lemma LoadsWholeBranch(d: Disk, entries: Cursor, b: Block)
    requires BranchOnDisk(d.blocks, b) && IsCursor(entries, IndexAbove(map[], b, 0))
    ensures LoadFirst(FreshCore(d), entries, |entries|) == if OnChain(b) then Some(LoadedCore(d, b)) else None
  {
    CursorListsBranch(entries, b);
    LoadsBranch(d, entries, b, |entries|);
  }

  // -------------------------------------------------------------------------------------------
  // Recovery

  /** What a reload gives back for a replica that had executed up to `c.bExec`. */
  function Recovered(d: Disk, c: Core): Core {
    LoadedCore(d, c.bExec).(hqc := d.topQc.GetOr(Qc(c.bExec, map[])),
                            bLeaf := c.bExec, bLock := c.bExec, bExec := c.bExec,
                            vheight := TruncateHeight(Height(c.bExec)))
  }

  function DiskOf(c: Core, blocks: map<Block, Body>): Disk {
    Disk(blocks, c.index, c.topQc)
  }

  lemma ReloadsTop(d: Disk, c: Core)
    requires c.bExec.Node? && c.topQc.Some? && c.topQc.value.block == c.bExec && d.topQc == c.topQc
    ensures ReloadState(LoadedCore(d, c.bExec)) == Some(Recovered(d, c))
  {
    AncestorsAreExtended(c.bExec, c.bExec);
  }

  /** Reloading succeeds exactly when something was ever decided and the decided branch is on-chain; then it
      restores the executed block, every decided block, and the command log.  `blocks` may hold more files
      than `c` wrote. */
  lemma ReloadRestores(p: Params, bal: Ballots, c: Core, blocks: map<Block, Body>, entries: Cursor)
    requires CoreInv(p, bal, c) && BranchOnDisk(blocks, c.bExec) && IsCursor(entries, c.index)
    ensures var reloaded := ReloadAll(DiskOf(c, blocks), entries);
            && (reloaded.Some? <==> c.bExec.Node? && OnChain(c.bExec))
            && (reloaded.Some? ==> reloaded.value == Recovered(DiskOf(c, blocks), c))
  {
    var d := DiskOf(c, blocks);
    LoadsWholeBranch(d, entries, c.bExec);
    if c.bExec.Node? {
      ReloadsTop(d, c);
    }
  }

  lemma RecoveredMatches(p: Params, bal: Ballots, c: Core, blocks: map<Block, Body>)
    requires CoreInv(p, bal, c) && c.bExec.Node?
    ensures Recovered(DiskOf(c, blocks), c).applied == c.applied
    ensures Recovered(DiskOf(c, blocks), c).decided == c.decided
  {
  }

  /** The whole of it from what the replica itself wrote, whatever else the directory holds. */
  lemma ReloadAfterCrash(p: Params, bal: Ballots, c: Core, blocks: map<Block, Body>, entries: Cursor)
    requires CoreInv(p, bal, c) && IsCursor(entries, c.index)
    requires forall b | b in c.disk :: b in blocks && blocks[b] == c.disk[b]
    ensures var reloaded := ReloadAll(DiskOf(c, blocks), entries);
            && (reloaded.Some? <==> c.bExec.Node? && OnChain(c.bExec))
            && (reloaded.Some? ==> reloaded.value == Recovered(DiskOf(c, blocks), c) && CoreInv(p, bal, reloaded.value))
  {
    BranchStaysOnDisk(c, blocks);
    ReloadRestores(p, bal, c, blocks, entries);
    if c.bExec.Node? && OnChain(c.bExec) {
      RecoveredKeeps(p, bal, c, blocks);
    }
  }

  lemma BranchStaysOnDisk(c: Core, blocks: map<Block, Body>)
    requires DiskInv(c)
    requires forall b | b in c.disk :: b in blocks && blocks[b] == c.disk[b]
    ensures BranchOnDisk(blocks, c.bExec)
  {
    WrittenBelow(c.written, c.bExec);
  }

  lemma BranchIsClosed(top: Block, b: Block)
    requires b in Ancestors(top)
    ensures b.Node? ==> b.parent in Ancestors(top)
    ensures b.Node? && OnChain(top) ==> b.justify in Ancestors(top)
  {
    AncestorsAreExtended(top, b);
    if b.Node? {
      ExtendsTransitive(top, b, b.parent);
      AncestorsAreExtended(top, b.parent);
      if OnChain(top) {
        OnChainBelow(top, b);
        ExtendsTransitive(top, b.parent, b.justify);
        AncestorsAreExtended(top, b.justify);
      }
    }
  }

  lemma RecoveredStore(p: Params, bal: Ballots, c: Core, c': Core)
    requires CoreInv(p, bal, c) && OnChain(c.bExec) && c'.store == Ancestors(c.bExec)
    ensures StoreInv(p, bal, c')
  {
    GenesisIsBelow(c.bExec);
    AncestorsAreExtended(c.bExec, Genesis);
    StoredBelow(p, bal, c, c.bExec);
    forall b | b in c'.store ensures StoredOk(p, bal, c'.store, b) {
      assert StoredOk(p, bal, c.store, b);
      BranchIsClosed(c.bExec, b);
    }
  }

  lemma RecoveredDisk(c: Core, c': Core)
    requires BranchOnDisk(c'.disk, c.bExec)
    requires c'.store == c'.written == Ancestors(c.bExec) && c'.bExec == c.bExec
    ensures DiskInv(c')
  {
    GenesisIsBelow(c.bExec);
    AncestorsAreExtended(c.bExec, Genesis);
    AncestorsAreExtended(c.bExec, c.bExec);
    forall b | b in c'.written && b.Node? ensures b.parent in c'.written {
      BranchIsClosed(c.bExec, b);
    }
  }

  /** The recovered replica satisfies the whole replica invariant again. */
  lemma RecoveredKeeps(p: Params, bal: Ballots, c: Core, blocks: map<Block, Body>)
    requires CoreInv(p, bal, c) && c.bExec.Node? && OnChain(c.bExec) && BranchOnDisk(blocks, c.bExec)
    ensures CoreInv(p, bal, Recovered(DiskOf(c, blocks), c))
  {
    var c' := Recovered(DiskOf(c, blocks), c);
    RecoveredStore(p, bal, c, c');
    RecoveredDisk(c, c');
    AncestorsAreExtended(c.bExec, c.bExec);
    CommittedIsCertified(p, bal, c.bExec);
  }
}
