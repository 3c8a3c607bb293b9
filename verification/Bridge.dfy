/** The speculation bridge between consensus and the replicated state machine
    (speculative_exec_gadget.h, hotstuff_vm_bridge.cc). */
module Bridge {
  import opened Blocks
  import opened CoreSpec
  import Protocol
  import Recovery
  import Reload
  import Safety

  /** A VM block id: bytes, or nothing for a block the VM ignores. */
  type VmId = Option<seq<Byte>>

  datatype Entry = Entry(height: nat, id: VmId)

  datatype CommitResult = Committed(id: VmId) | EmptyMap | GapInLog

  /** The VM values logged for the heights above the last committed one. */
  class SpeculativeExecGadget {
    var heightMap: seq<Entry>
    var lastElt: Option<nat>      // position of the last element; None is the end iterator
    var speculationHead: nat
    var highestCommitted: nat
    var locked: bool              // the mutex
    var relocks: nat              // attempts of the one thread to take it while holding it

    /** The list holds exactly the heights from the one after the last commit up to the head. */
    ghost predicate Valid()
      reads this
    {
      && speculationHead == highestCommitted + 1 + |heightMap|
      && lastElt == (if heightMap == [] then None else Some(|heightMap| - 1))
      && forall i | 0 <= i < |heightMap| :: heightMap[i].height == highestCommitted + 1 + i
    }

    constructor ()
      ensures Valid() && heightMap == [] && highestCommitted == 0 && !locked && relocks == 0
    {
      heightMap, lastElt, speculationHead, highestCommitted := [], None, 1, 0;
      locked, relocks := false, 0;
    }

    /** Take the mutex; `taken` is false if the caller holds it already, where the code would wait for itself. */
    method Lock() returns (taken: bool)
      modifies this`locked, this`relocks
      ensures locked && taken == !old(locked)
      ensures relocks == if taken then old(relocks) else old(relocks) + 1
    {
      taken := !locked;
      if !taken {
        relocks := relocks + 1;
      }
      locked := true;
    }

    /** Leave the region `taken` belongs to. */
    method Unlock(taken: bool)
      modifies this`locked
      ensures locked == (old(locked) && !taken)
    {
      if taken {
        locked := false;
      }
    }

    predicate Empty()
      reads this
    {
      lastElt.None?
    }

    /** Logs a value at the head only; any other height is dropped with a warning. */
    method AddHeightPair(height: nat, id: VmId)
      requires Valid()
      modifies this`heightMap, this`lastElt, this`speculationHead
      ensures Valid()
      ensures heightMap == if height == old(speculationHead)
                           then old(heightMap) + [Entry(height, id)] else old(heightMap)
    {
      if speculationHead != height { return; }
      speculationHead := speculationHead + 1;
      if lastElt.None? {
        heightMap := [Entry(height, id)] + heightMap;
        lastElt := Some(0);
        return;
      }
      var at := lastElt.value + 1;
      heightMap := heightMap[..at] + [Entry(height, id)] + heightMap[at..];
      lastElt := Some(at);
    }

    /** Drops the lowest entry, if it is the one for `height`. */
    method OnCommitHotstuff(height: nat) returns (r: CommitResult)
      requires Valid()
      modifies this
      ensures Valid() && locked == old(locked)
      ensures relocks == if old(locked) then old(relocks) + 1 else old(relocks)
      ensures r.Committed? <==> old(heightMap) != [] && height == old(highestCommitted) + 1
      ensures r.Committed? ==>
                && r.id == old(heightMap)[0].id
                && heightMap == old(heightMap)[1..]
                && highestCommitted == height
      ensures !r.Committed? ==> heightMap == old(heightMap) && highestCommitted == old(highestCommitted)
    {
      var taken := Lock();
      if Empty() {
        r := EmptyMap;
      } else if height != heightMap[0].height {
        r := GapInLog;
      } else {
        r := CommitResult.Committed(heightMap[0].id);
        highestCommitted := heightMap[0].height;
        heightMap := heightMap[1..];
        lastElt := if heightMap == [] then None else Some(lastElt.value - 1);
      }
      Unlock(taken);
    }

    /** Locks for itself, whether or not its caller holds the mutex. */
    method Clear()
      modifies this
      ensures Valid() && heightMap == [] && highestCommitted == old(highestCommitted)
      ensures locked == old(locked) && relocks == if old(locked) then old(relocks) + 1 else old(relocks)
    {
      var taken := Lock();
      heightMap, lastElt := [], None;
      speculationHead := highestCommitted + 1;
      Unlock(taken);
    }

    method InitFromDisk(highestDecided: nat)
      requires !locked
      modifies this
      ensures Valid() && heightMap == [] && highestCommitted == highestDecided && !locked && relocks == old(relocks)
    {
      highestCommitted := highestDecided;
      Clear();
    }
  }

  /** What reaches the VM through its interface, in order. */
  datatype VmCall = Rewind | Exec(id: VmId) | LogCommitment(id: VmId)

  class HotstuffVMBridge {
    const idOf: Body -> VmId                 // parse a body and name the result; None if it does not parse
    const gadget: SpeculativeExecGadget
    var calls: seq<VmCall>

    constructor (idOf: Body -> VmId, gadget: SpeculativeExecGadget)
      ensures this.idOf == idOf && this.gadget == gadget && calls == []
    {
      this.idOf, this.gadget, calls := idOf, gadget, [];
    }

    /** The next block to commit is speculated already, and is the lowest entry. */
    ghost predicate Speculated(body: Body)
      reads gadget
    {
      gadget.heightMap != [] && gadget.heightMap[0].id == idOf(body)
    }

    /** There is a speculation, and its lowest entry is another block. */
    ghost predicate Misspeculated(body: Body)
      reads gadget
    {
      gadget.heightMap != [] && gadget.heightMap[0].id != idOf(body)
    }

    /** Both kinds of proposal: `proposal` is what the VM handed out, None for an empty block. */
    method Propose(height: nat, proposal: Option<Body>) returns (body: Body)
      requires gadget.Valid() && !gadget.locked
      modifies gadget
      ensures gadget.Valid() && gadget.highestCommitted == old(gadget.highestCommitted)
      ensures !gadget.locked && gadget.relocks == old(gadget.relocks)
      ensures body == proposal.GetOr([])
      ensures var id := if proposal.Some? then idOf(proposal.value) else None;
              gadget.heightMap == if height == old(gadget.speculationHead)
                                  then old(gadget.heightMap) + [Entry(height, id)] else old(gadget.heightMap)
    {
      var taken := gadget.Lock();
      if proposal.None? {
        gadget.AddHeightPair(height, None);
        body := [];
      } else {
        gadget.AddHeightPair(height, idOf(proposal.value));
        body := proposal.value;
      }
      gadget.Unlock(taken);
    }

    /** Keeps the speculation if its lowest entry is this block; otherwise drops all of it, rewinds the VM
        if there was any, and submits the block.  Either way the next block to commit is the lowest entry
        afterwards.  Dropping it takes the mutex a second time: that happens exactly when there is a
        speculation and its lowest entry is another block.  The effect stated is the one intended. */
    method ApplyBlock(height: nat, body: Body)
      requires gadget.Valid() && !gadget.locked
      modifies gadget, this
      ensures gadget.Valid() && gadget.highestCommitted == old(gadget.highestCommitted) && !gadget.locked
      ensures gadget.relocks == old(gadget.relocks) + (if old(Misspeculated(body)) then 1 else 0)
      ensures height == gadget.highestCommitted + 1 ==> Speculated(body)
      ensures old(Speculated(body)) ==> gadget.heightMap == old(gadget.heightMap) && calls == old(calls)
      ensures !old(Speculated(body)) ==>
                && gadget.heightMap == (if height == gadget.highestCommitted + 1
                                        then [Entry(height, idOf(body))] else [])
                && calls == old(calls) + (if old(gadget.heightMap) == [] then [] else [Rewind]) + [Exec(idOf(body))]
    {
      var taken := gadget.Lock();
      var id := idOf(body);
      if gadget.Empty() || id != gadget.heightMap[0].id {
        if !gadget.Empty() {
          gadget.Clear();
          calls := calls + [Rewind];
        }
        gadget.AddHeightPair(height, id);
        calls := calls + [Exec(id)];
      }
      gadget.Unlock(taken);
    }

    /** Consumes the lowest entry and tells the VM its id. */
    method NotifyCommitment(height: nat) returns (r: CommitResult)
      requires gadget.Valid() && !gadget.locked
      modifies gadget, this
      ensures gadget.Valid() && !gadget.locked && gadget.relocks == old(gadget.relocks)
      ensures r.Committed? <==> old(gadget.heightMap) != [] && height == old(gadget.highestCommitted) + 1
      ensures r.Committed? ==>
                && r.id == old(gadget.heightMap)[0].id
                && gadget.highestCommitted == height && gadget.heightMap == old(gadget.heightMap)[1..]
                && calls == old(calls) + [LogCommitment(r.id)]
      ensures !r.Committed? ==> calls == old(calls)
    {
      r := gadget.OnCommitHotstuff(height);
      if r.Committed? {
        calls := calls + [LogCommitment(r.id)];
      }
    }
  }

  // -------------------------------------------------------------------------------------------
  // Every interleaving with the core

  /** The commands the core decides, in order, from the height after `start`. */
  predicate Consecutive(log: seq<Command>, start: nat) {
    forall k | 0 <= k < |log| :: Height(log[k].block) == start + 1 + k
  }

  /** Apply and Notify are the two hooks of `update`; Propose comes from another thread. */
  datatype Tick = ApplyTick | NotifyTick | ProposeTick(height: nat, proposal: Option<Body>)

  /** After `ticks`: how many commands were applied, or None if the hooks did not alternate. */
  function Applied(ticks: seq<Tick>): Option<nat> {
    if ticks == [] then Some(0)
    else
      var rest := Applied(ticks[..|ticks| - 1]);
      match ticks[|ticks| - 1]
      case ApplyTick =>
        if rest.Some? && Notified(ticks[..|ticks| - 1]) == rest.value then Some(rest.value + 1) else None
      case NotifyTick => if rest.Some? && Notified(ticks[..|ticks| - 1]) < rest.value then rest else None
      case ProposeTick(_, _) => rest
  }

  function Notified(ticks: seq<Tick>): nat {
    if ticks == [] then 0
    else Notified(ticks[..|ticks| - 1]) + if ticks[|ticks| - 1].NotifyTick? then 1 else 0
  }

  function Commitments(calls: seq<VmCall>): seq<VmId> {
    if calls == [] then []
    else
      var last := calls[|calls| - 1];
      Commitments(calls[..|calls| - 1]) + if last.LogCommitment? then [last.id] else []
  }

  lemma {:induction false} CommitmentsAppend(calls: seq<VmCall>, more: seq<VmCall>)
    ensures Commitments(calls + more) == Commitments(calls) + Commitments(more)
  {
    if more == [] {
      assert calls + more == calls;
    } else {
      var all, n := calls + more, |more| - 1;
      assert all[..|all| - 1] == calls + more[..n];
      CommitmentsAppend(calls, more[..n]);
    }
  }

  function Ids(idOf: Body -> VmId, log: seq<Command>): seq<VmId> {
    seq(|log|, k requires 0 <= k < |log| => idOf(log[k].body))
  }

  predicate AnyProposal(ticks: seq<Tick>) {
    exists t | t in ticks :: t.ProposeTick?
  }

  /** The bridge after `applied` applies and `notified` notifies of `log`.  As long as nothing was proposed
      it holds at most the block just applied, and the mutex was never taken twice. */
  ghost predicate Driving(bridge: HotstuffVMBridge, log: seq<Command>, start: nat,
                          applied: nat, notified: nat, proposed: bool)
    reads bridge, bridge.gadget
  {
    && bridge.gadget.Valid() && !bridge.gadget.locked && bridge.gadget.highestCommitted == start + notified
    && notified <= applied <= notified + 1 && applied <= |log|
    && (applied == notified + 1 ==> bridge.Speculated(log[notified].body))
    && Commitments(bridge.calls) == Ids(bridge.idOf, log)[..notified]
    && (!proposed ==> |bridge.gadget.heightMap| == applied - notified && bridge.gadget.relocks == 0)
  }

  method DriveOne(bridge: HotstuffVMBridge, log: seq<Command>, ghost start: nat, applied: nat, notified: nat,
                  ghost proposed: bool, tick: Tick)
    returns (threw: bool)
    requires Consecutive(log, start) && Driving(bridge, log, start, applied, notified, proposed)
    requires tick.ApplyTick? ==> applied == notified < |log|
    requires tick.NotifyTick? ==> notified < applied
    modifies bridge, bridge.gadget
    ensures !threw
    ensures Driving(bridge, log, start, applied + (if tick.ApplyTick? then 1 else 0),
                    notified + (if tick.NotifyTick? then 1 else 0), proposed || tick.ProposeTick?)
  {
    threw := false;
    ghost var before := bridge.calls;
    match tick
    case ApplyTick =>
      bridge.ApplyBlock(Height(log[applied].block), log[applied].body);
      assert bridge.calls == before + bridge.calls[|before|..];
      CommitmentsAppend(before, bridge.calls[|before|..]);
    case NotifyTick =>
      var r := bridge.NotifyCommitment(Height(log[notified].block));
      threw := !r.Committed?;
      CommitmentsAppend(before, [LogCommitment(r.id)]);
    case ProposeTick(height, proposal) =>
      var _ := bridge.Propose(height, proposal);
  }

  /** Whatever proposals are interleaved at whatever heights, driving the bridge with consecutive
      apply/notify pairs never throws, and the VM is told the committed blocks' ids in order.  A replica that
      proposes nothing never takes the mutex twice. */
  method Drive(bridge: HotstuffVMBridge, log: seq<Command>, ticks: seq<Tick>) returns (threw: bool)
    requires bridge.gadget.Valid() && bridge.gadget.heightMap == [] && bridge.calls == []
    requires !bridge.gadget.locked && bridge.gadget.relocks == 0
    requires Consecutive(log, bridge.gadget.highestCommitted)
    requires Applied(ticks).Some? && Applied(ticks).value <= |log|
    modifies bridge, bridge.gadget
    ensures !threw
    ensures bridge.gadget.Valid()
    ensures Notified(ticks) <= |log|
    ensures Commitments(bridge.calls) == Ids(bridge.idOf, log)[..Notified(ticks)]
    ensures bridge.gadget.relocks > 0 ==> AnyProposal(ticks)
  {
    threw := false;
    var i, applied, notified := 0, 0, 0;
    ghost var start, proposed := bridge.gadget.highestCommitted, false;
    while i < |ticks|
      invariant 0 <= i <= |ticks| && !threw
      invariant Applied(ticks[..i]) == Some(applied) && Notified(ticks[..i]) == notified
      invariant proposed ==> AnyProposal(ticks)
      invariant Driving(bridge, log, start, applied, notified, proposed)
    {
      assert ticks[..i + 1][..i] == ticks[..i];
      PrefixApplied(ticks, i + 1);
      threw := DriveOne(bridge, log, start, applied, notified, proposed, ticks[i]);
      if threw { return; }
      if ticks[i].ApplyTick? { applied := applied + 1; }
      if ticks[i].NotifyTick? { notified := notified + 1; }
      proposed := proposed || ticks[i].ProposeTick?;
      i := i + 1;
    }
    assert ticks[..i] == ticks;
  }

  lemma {:induction false} PrefixApplied(ticks: seq<Tick>, n: nat)
    requires n <= |ticks| && Applied(ticks).Some?
    ensures Applied(ticks[..n]).Some? && Applied(ticks[..n]).value <= Applied(ticks).value
  {
    if n == |ticks| {
      assert ticks[..n] == ticks;
    } else {
      var shorter := ticks[..|ticks| - 1];
      assert shorter[..n] == ticks[..n];
      PrefixApplied(shorter, n);
    }
  }

  /** What an honest replica decides in any run is such a log, from a clean start and from a restart at any
      height. */
  lemma EveryRunIsConsecutive(p: Safety.Params, run: seq<Protocol.System>, steps: seq<Protocol.Step>,
                              i: nat, r: ReplicaId, start: nat)
    requires Protocol.GoodRun(p, run, steps) && i < |run| && r in Safety.Honest(p)
    ensures r in run[i].cores
    ensures start <= |run[i].cores[r].applied| ==> Consecutive(run[i].cores[r].applied[start..], start)
  {
    Protocol.DecisionsAreOrderedAndDurable(p, run, steps, i, r);
  }

  /** After a restart the bridge goes on from the height it is handed: no decided block is applied twice and
      none is left out. */
  lemma RestartLosesNoBlock(p: Safety.Params, run: seq<Protocol.System>, steps: seq<Protocol.Step>, i: nat, j: nat)
    requires Protocol.GoodRun(p, run, steps) && i < j < |run| && steps[i].Restart?
    ensures var r := steps[i].r;
            var start := Reload.LastLoaded(steps[i].entries, |steps[i].entries|);
            && r in run[i + 1].cores && r in run[j].cores
            && start == |run[i + 1].cores[r].applied| <= |run[j].cores[r].applied|
            && Consecutive(run[j].cores[r].applied[start..], start)
  {
    var r := steps[i].r;
    var start := Reload.LastLoaded(steps[i].entries, |steps[i].entries|);
    Protocol.ReplicasStay(p, run, steps, i);
    Recovery.RestartResumes(p, run, steps, i);
    Protocol.DecisionsAreOrderedAndDurable(p, run, steps, i + 1, r);
    Protocol.DecisionsAreOrderedAndDurable(p, run, steps, j, r);
    Protocol.ExecutedOnlyGrows(p, run, steps, i + 1, j, r);
    ExtendsHeight(run[j].cores[r].bExec, run[i + 1].cores[r].bExec);
    EveryRunIsConsecutive(p, run, steps, j, r, start);
  }
}
