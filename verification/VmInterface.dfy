/** The asynchronous VM interface: proposal buffer, request counter, worker thread
    (vm_control_interface.cc).  Each locked region is one step. */
module VmInterface {
  import opened Blocks
  import opened CoreSpec

  type VmBlock = seq<Byte>
  type VmBlockId = Option<seq<Byte>>

  /** What the VM is asked to do, in order. */
  datatype VmCall = Exec(block: VmBlock) | LogCommitment(id: VmBlockId) | Produce(block: VmBlock)

  /** The calls that execute the first `n` submissions; unparsable ones are skipped. */
  function ExecsTo(blocks: seq<Option<VmBlock>>, n: nat): seq<VmCall>
    requires n <= |blocks|
  {
    if n == 0 then []
    else ExecsTo(blocks, n - 1) + if blocks[n - 1].Some? then [Exec(blocks[n - 1].value)] else []
  }

  function Execs(blocks: seq<Option<VmBlock>>): seq<VmCall> {
    ExecsTo(blocks, |blocks|)
  }

  /** The executions among the first `n` calls. */
  function ExecutedTo(calls: seq<VmCall>, n: nat): seq<VmCall>
    requires n <= |calls|
  {
    if n == 0 then [] else ExecutedTo(calls, n - 1) + if calls[n - 1].Exec? then [calls[n - 1]] else []
  }

  function Executed(calls: seq<VmCall>): seq<VmCall> {
    ExecutedTo(calls, |calls|)
  }

  lemma {:induction false} ExecsPrefix(a: seq<Option<VmBlock>>, b: seq<Option<VmBlock>>, n: nat)
    requires n <= |a|
    ensures ExecsTo(a + b, n) == ExecsTo(a, n)
  {
    if n > 0 {
      ExecsPrefix(a, b, n - 1);
    }
  }

  lemma ExecsOneMore(a: seq<Option<VmBlock>>, x: Option<VmBlock>)
    ensures Execs(a + [x]) == Execs(a) + if x.Some? then [Exec(x.value)] else []
  {
    ExecsPrefix(a, [x], |a|);
  }

  lemma {:induction false} ExecutedPrefix(a: seq<VmCall>, b: seq<VmCall>, n: nat)
    requires n <= |a|
    ensures ExecutedTo(a + b, n) == ExecutedTo(a, n)
  {
    if n > 0 {
      ExecutedPrefix(a, b, n - 1);
    }
  }

  lemma ExecutedOneMore(a: seq<VmCall>, call: VmCall)
    ensures Executed(a + [call]) == Executed(a) + if call.Exec? then [call] else []
  {
    ExecutedPrefix(a, [call], |a|);
  }

  /** Executing submissions shows in the calls as just that. */
  lemma {:induction false} ExecutedAfter(calls: seq<VmCall>, blocks: seq<Option<VmBlock>>, n: nat)
    requires n <= |blocks|
    ensures Executed(calls + ExecsTo(blocks, n)) == Executed(calls) + ExecsTo(blocks, n)
  {
    if n == 0 {
      assert calls + ExecsTo(blocks, 0) == calls;
    } else {
      ExecutedAfter(calls, blocks, n - 1);
      if blocks[n - 1].Some? {
        var call := Exec(blocks[n - 1].value);
        assert calls + ExecsTo(blocks, n) == calls + ExecsTo(blocks, n - 1) + [call];
        ExecutedOneMore(calls + ExecsTo(blocks, n - 1), call);
      } else {
        assert ExecsTo(blocks, n) == ExecsTo(blocks, n - 1);
      }
    }
  }

  /** How many of the first `n` submissions are parsed. */
  function ParsedBefore(blocks: seq<Option<VmBlock>>, n: nat): nat
    requires n <= |blocks|
  {
    |set i | 0 <= i < n && blocks[i].Some?|
  }

  lemma ParsedOneMore(blocks: seq<Option<VmBlock>>, n: nat)
    requires n < |blocks|
    ensures ParsedBefore(blocks, n + 1) == ParsedBefore(blocks, n) + if blocks[n].Some? then 1 else 0
  {
    var before := set i | 0 <= i < n && blocks[i].Some?;
    var after := set i | 0 <= i < n + 1 && blocks[i].Some?;
    assert after == if blocks[n].Some? then before + {n} else before;
  }

  /** Every parsed submission is executed once, in its place, and nothing else is. */
  lemma {:induction false} ExecsInOrder(blocks: seq<Option<VmBlock>>, n: nat)
    requires n <= |blocks|
    ensures |ExecsTo(blocks, n)| == ParsedBefore(blocks, n)
    ensures forall i | 0 <= i < n && blocks[i].Some? ::
              && ParsedBefore(blocks, i) < ParsedBefore(blocks, n)
              && ExecsTo(blocks, n)[ParsedBefore(blocks, i)] == Exec(blocks[i].value)
  {
    if n > 0 {
      ExecsInOrder(blocks, n - 1);
      ParsedOneMore(blocks, n - 1);
    }
  }

  /** What was executed, then what waits, is what was submitted. */
  ghost predicate InStep(calls: seq<VmCall>, waiting: seq<Option<VmBlock>>, submitted: seq<Option<VmBlock>>) {
    Executed(calls) + Execs(waiting) == Execs(submitted)
  }

  lemma StaysInStep(calls: seq<VmCall>, waiting: seq<Option<VmBlock>>, submitted: seq<Option<VmBlock>>)
    requires InStep(calls, waiting, submitted)
    ensures forall call: VmCall | !call.Exec? :: InStep(calls + [call], waiting, submitted)
    ensures forall x :: InStep(calls, waiting + [x], submitted + [x])
    ensures InStep(calls + Execs(waiting), [], submitted)
  {
    forall call: VmCall | !call.Exec? ensures InStep(calls + [call], waiting, submitted) {
      ExecutedOneMore(calls, call);
    }
    forall x ensures InStep(calls, waiting + [x], submitted + [x]) {
      ExecsOneMore(waiting, x);
      ExecsOneMore(submitted, x);
    }
    ExecutedAfter(calls, waiting, |waiting|);
  }

  class VMControlInterface {
    const configured: nat                     // the target the interface was built with
    const refill: bool                        // immediately_refill_proposal_buffer
    var target: nat                           // zero once proposals are stopped
    var blocksToValidate: seq<Option<VmBlock>>
    var proposalBuffer: seq<VmBlock>
    var requests: nat                         // additional_proposal_requests
    var isProposer: bool
    var highestCommitted: Option<VmBlockId>
    var vmCalls: seq<VmCall>
    ghost var produced: seq<VmBlock>          // proposals made by the VM since the last clear
    ghost var delivered: seq<VmBlock>         // proposals handed out since the last clear
    ghost var submitted: seq<Option<VmBlock>> // everything ever submitted for execution

    ghost predicate Valid()
      reads this
    {
      && target <= configured
      && |proposalBuffer| + requests <= configured
      && (requests > 0 || proposalBuffer != [] ==> isProposer)
      && produced == delivered + proposalBuffer
      && InStep(vmCalls, blocksToValidate, submitted)
    }

    constructor (target: nat, refill: bool)
      ensures Valid() && configured == target && this.refill == refill && vmCalls == [] && delivered == []
      ensures submitted == []
    {
      configured, this.refill, this.target := target, refill, target;
      blocksToValidate, proposalBuffer, requests, isProposer, highestCommitted := [], [], 0, false, None;
      vmCalls, produced, delivered, submitted := [], [], [], [];
    }

    method SetProposer()
      requires Valid()
      modifies this`isProposer
      ensures Valid() && isProposer
    {
      isProposer := true;
    }

    method StopProposals()
      requires Valid()
      modifies this`target
      ensures Valid() && target == 0
    {
      target := 0;
    }

    /** The first half of get_proposal, up to its wait: false means it returns null at once. */
    method RequestProposal() returns (waits: bool)
      requires Valid()
      modifies this`requests
      ensures Valid()
      ensures waits <==> isProposer && (proposalBuffer != [] || target > 0)
      ensures waits ==> proposalBuffer != [] || requests > 0
      ensures requests == if isProposer && proposalBuffer == [] && old(requests) < target then target else old(requests)
    {
      if !isProposer { return false; }
      if proposalBuffer == [] {
        if requests < target {
          requests := target;
        }
        if target == 0 { return false; }
      }
      return true;
    }

    /** The second half, once the buffer is not empty: the oldest proposal leaves. */
    method TakeProposal() returns (out: VmBlock)
      requires Valid() && proposalBuffer != []
      modifies this`proposalBuffer, this`requests, this`delivered
      ensures Valid()
      ensures delivered == old(delivered) + [out] && delivered <= produced
      ensures out == old(proposalBuffer)[0] && proposalBuffer == old(proposalBuffer)[1..]
      ensures if !refill then requests == old(requests)
              else if |proposalBuffer| <= target then |proposalBuffer| + requests == target else requests == 0
    {
      out := proposalBuffer[0];
      delivered := delivered + [out];
      proposalBuffer := proposalBuffer[1..];
      if refill {
        requests := if |proposalBuffer| > target then 0 else target - |proposalBuffer|;
      }
    }

    /** Leaves proposer mode and forgets the buffer; a fresh order of proposals begins. */
    method SubmitBlockForExec(submission: Option<VmBlock>)
      requires Valid()
      modifies this
      ensures Valid() && !isProposer && proposalBuffer == [] && requests == 0
      ensures blocksToValidate == old(blocksToValidate) + [submission]
      ensures produced == [] && delivered == []
      ensures target == old(target) && highestCommitted == old(highestCommitted) && vmCalls == old(vmCalls)
      ensures submitted == old(submitted) + [submission]
    {
      StaysInStep(vmCalls, blocksToValidate, submitted);
      submitted := submitted + [submission];
      isProposer, proposalBuffer, requests := false, [], 0;
      produced, delivered := [], [];
      blocksToValidate := blocksToValidate + [submission];
    }

    /** An empty id does not replace a pending one. */
    method LogCommitment(id: VmBlockId)
      requires Valid()
      modifies this`highestCommitted
      ensures Valid()
      ensures highestCommitted == if id.Some? then Some(id) else old(highestCommitted)
    {
      if id.Some? {
        highestCommitted := Some(id);
      }
    }

    predicate ExistsWorkToDo()
      reads this
    {
      blocksToValidate != [] || (requests > 0 && isProposer) || highestCommitted.Some?
    }

    /** A call is made that executes nothing. */
    method Call(call: VmCall)
      requires Valid() && !call.Exec?
      modifies this`vmCalls
      ensures Valid() && vmCalls == old(vmCalls) + [call]
    {
      StaysInStep(vmCalls, blocksToValidate, submitted);
      vmCalls := vmCalls + [call];
    }

    /** Hand every waiting block to the VM, oldest first; unparsable ones are skipped. */
    method ExecWaiting()
      requires Valid()
      modifies this`blocksToValidate, this`vmCalls
      ensures Valid() && blocksToValidate == []
      ensures vmCalls == old(vmCalls) + Execs(old(blocksToValidate))
    {
      StaysInStep(vmCalls, blocksToValidate, submitted);
      ghost var all, k := blocksToValidate, 0;
      while blocksToValidate != []
        invariant 0 <= k <= |all| && blocksToValidate == all[k..]
        invariant vmCalls == old(vmCalls) + ExecsTo(all, k)
        decreases |blocksToValidate|
      {
        var block := blocksToValidate[0];
        blocksToValidate, k := blocksToValidate[1..], k + 1;
        if block.Some? {
          vmCalls := vmCalls + [Exec(block.value)];
        }
      }
    }

    method LogPending()
      requires Valid()
      modifies this`highestCommitted, this`vmCalls
      ensures Valid() && highestCommitted == None
      ensures vmCalls == old(vmCalls) + if old(highestCommitted).Some?
                                        then [VmCall.LogCommitment(old(highestCommitted).value)] else []
    {
      if highestCommitted.Some? {
        Call(VmCall.LogCommitment(highestCommitted.value));
        highestCommitted := None;
      }
    }

    method ProduceOne(proposal: VmBlock)
      requires Valid() && requests > 0
      modifies this`vmCalls, this`proposalBuffer, this`produced, this`requests
      ensures Valid() && requests == old(requests) - 1 && produced == old(produced) + [proposal]
      ensures vmCalls == old(vmCalls) + [Produce(proposal)]
    {
      Call(Produce(proposal));
      proposalBuffer := proposalBuffer + [proposal];
      produced := produced + [proposal];
      requests := requests - 1;
    }

    /** One iteration of the worker: exec, then log, then at most one new proposal.  `proposal` is what the
        VM would propose; `threw` is the "woke up early" exception. */
    method RunOnce(proposal: VmBlock) returns (threw: bool)
      requires Valid() && ExistsWorkToDo()
      modifies this
      ensures Valid() && !threw
      ensures blocksToValidate == [] && highestCommitted == None
      ensures isProposer == old(isProposer) && target == old(target) && delivered == old(delivered)
      ensures submitted == old(submitted)
      ensures if old(requests) > 0
              then requests == old(requests) - 1 && produced == old(produced) + [proposal]
              else requests == 0 && produced == old(produced)
      ensures vmCalls == old(vmCalls) + Execs(old(blocksToValidate))
                         + (if old(highestCommitted).Some?
                            then [VmCall.LogCommitment(old(highestCommitted).value)] else [])
                         + (if old(requests) > 0 then [Produce(proposal)] else [])
    {
      ExecWaiting();
      LogPending();
      if requests > 0 {
        if !isProposer { return true; }
        ProduceOne(proposal);
      }
      return false;
    }
  }

  // -------------------------------------------------------------------------------------------
  // Every interleaving

  datatype Op =
    | Lead | Stop | Request | Take
    | Submit(submission: Option<VmBlock>)
    | Log(id: VmBlockId)
    | Worker(proposal: VmBlock)

  /** One step of some thread; a step whose wait condition does not hold yet does nothing. */
  method Perform(vm: VMControlInterface, op: Op) returns (threw: bool)
    requires vm.Valid()
    modifies vm
    ensures vm.Valid() && !threw
    ensures vm.submitted == old(vm.submitted) + if op.Submit? then [op.submission] else []
  {
    threw := false;
    match op
    case Lead => vm.SetProposer();
    case Stop => vm.StopProposals();
    case Request => var _ := vm.RequestProposal();
    case Take =>
      if vm.proposalBuffer != [] {
        var _ := vm.TakeProposal();
      }
    case Submit(submission) => vm.SubmitBlockForExec(submission);
    case Log(id) => vm.LogCommitment(id);
    case Worker(proposal) =>
      if vm.ExistsWorkToDo() {
        threw := vm.RunOnce(proposal);
      }
  }

  /** What the first `n` operations submit. */
  function Submissions(ops: seq<Op>, n: nat): seq<Option<VmBlock>>
    requires n <= |ops|
  {
    if n == 0 then [] else Submissions(ops, n - 1) + if ops[n - 1].Submit? then [ops[n - 1].submission] else []
  }

  /** In every interleaving the worker never wakes up early, buffered and requested proposals stay within
      the configured target, and between clears proposals leave in the order they were made.
      The VM has executed the parsed submissions in order, up to those still waiting. */
  method RunAll(vm: VMControlInterface, ops: seq<Op>) returns (threw: bool)
    requires vm.Valid()
    modifies vm
    ensures !threw
    ensures Executed(vm.vmCalls) + Execs(vm.blocksToValidate) == Execs(vm.submitted)
    ensures vm.submitted == old(vm.submitted) + Submissions(ops, |ops|)
    ensures |vm.proposalBuffer| + vm.requests <= vm.configured
    ensures vm.requests > 0 ==> vm.isProposer
    ensures vm.delivered <= vm.produced
  {
    threw := false;
    for i := 0 to |ops|
      invariant vm.Valid() && !threw && vm.submitted == old(vm.submitted) + Submissions(ops, i)
    {
      threw := Perform(vm, ops[i]);
    }
  }
}
