# A verified model of the HotStuff replica

This project models a replica of three-chain, event-driven HotStuff and the code that turns its decisions
into durable, replayable commands for a replicated state machine. The main results are statements about every
run of any number of replicas with an arbitrary set of faulty voters.

The files, bottom up:

| file | contents |
|---|---|
| `Blocks.dfy` | the block tree; a block value stands for its header hash |
| `Quorums.dfy` | replica configuration, quorum arithmetic, the exact fault bound |
| `CoreSpec.dfy` | what one replica does, as functions from state to state |
| `Safety.dfy` | votes, certificates, the lock lemma |
| `ReplicaInvariant.dfy` | what each handler of an honest replica keeps |
| `Reload.dfy` | what a restarted replica makes of its disk |
| `Protocol.dfy` | all replicas together, restarts included; agreement over every run |
| `Paths.dfy` | continuations of a run, for results that say what can happen |
| `Recovery.dfy` | durability, restarts and the leader gate in every run |
| `Handlers.dfy` | what each handler does in every run, exactly: votes, certificate, leaf, lock, executed block, pruning |
| `Counterexample.dfy` | why a received block must justify one of its own ancestors |
| `BlockStore.dfy` | block objects, block cache, garbage collector, in place |
| `Consensus.dfy` | the handlers on block objects, proved equal to the functions of `CoreSpec.dfy` |
| `Certs.dfy` | quorum certificates, their wire format, and the counting of votes |
| `Network.dfy` | network events waiting for missing blocks |
| `Bridge.dfy` | the speculation bridge |
| `VmInterface.dfy` | the asynchronous VM interface |

`Consensus.HotstuffCore.State()` gives the value of a replica's heap state. The handlers of that class, the
garbage collector included, are proved to change it exactly as the functions of `CoreSpec` and `Reload` do, so the
theorems about runs speak about the code on objects.

## What the theorems assume

* Hashes do not collide, and signatures cannot be forged: an honest replica's signature on a block exists only
  if that replica voted for it. Faulty replicas sign anything at any moment.
* Fewer than `n - 2 * (n / 3)` replicas are faulty (`Quorums.FaultsBounded`). `QuorumIntersectionExact` shows that
  this is exactly what the quorum size buys. The number the code announces as tolerated, `n / 3`, is one too many
  when 3 divides `n` (`AnnouncedFaultsTolerated`).
* A received block justifies one of its own ancestors or a block of height at most 1, and heights stay below 2^32
  (`Protocol.Assumed`). The code checks neither. `OffChainJustifyBreaksAgreement` exhibits a run, within the fault
  bound, in which the only step outside the assumptions is the receipt of one block with an off-branch justify at
  height 2, and two honest replicas decide different first blocks. `VotingRuleExact` says exactly on which blocks the
  voting rule keeps its promise, and `VoteGuardExact` when a 32-bit vote height does. Blocks minted by an honest
  replica justify an ancestor, which is proved.
* A replica may crash and reload at any moment. After that it casts its next vote only when it has caught up with
  its earlier votes: above all of them, and with its lock where they left it or higher. The code does not check
  this. `RestartIsHarmlessIff` says exactly when a restart forgets nothing that matters, `VotesRunAhead` that a first
  restart always does, and `FirstRestartCanVoteTwice` that the replica can then vote twice at one height.
* Each handler, and each region held under one lock, is a single step. Messages may be lost, delayed, repeated
  and reordered.

## Where code and documentation differ, or the code surprises

* A proposal may be delivered on a second object for a hash that is cached already. The voting walk compares
  objects, so such a copy of the locked block itself is not recognised. The flag `cached` of
  `CoreSpec.Opinion` models this.
* Saving a block whose body was flushed writes an empty body without complaint. The model keeps this behaviour;
  `DecisionsAreOrderedAndDurable` shows that it does not happen in a run.
* Reloading throws if nothing was ever decided, since there is no stored certificate, and it throws if a decided
  block justifies a block off its own branch, since that one is not in the index (`ReloadRestores`).
* `apply_block` takes the gadget's mutex and, on a mismatch, takes it again through `clear`. `ApplyBlock` states
  exactly when, and otherwise the effect intended; `Drive` shows that a replica that proposes nothing never does.
* A proposal's source id is not validated. A block that arrives incomplete from an unknown id takes every event
  that waited for it along: `Network.HandledSo` says exactly which events are lost, `VoteCanBeLost` shows a vote of a
  configured replica lost this way, and without an unknown id nothing is (`Orderly`, part of `Valid`).
* The bit map of replicas a block was requested from is never filled in, so every request reaches the fetch
  workers again. The model does the same.

## Model

| member | source | states |
|---|---|---|
| Blocks.WalkDecidesAncestry | hotstuff/consensus.cc:151-155 | the parent walk down to a block's height ends at that block if and only if it is an ancestor |
| Blocks.AncestorsAreLinear | hotstuff/consensus.cc:83-88 | of two ancestors of one block, the lower is an ancestor of the higher |
| Blocks.GrandJustifyIsLow | hotstuff/consensus.cc:56-67 | along justifies the theorems admit, blk2 and blk1 are no higher than the block |
| Quorums.QuorumIntersectionExact | hotstuff/config/replica_config.cc:69-77 | any two quorums share an honest replica if and only if the faulty ones number fewer than n - 2(n/3) |
| Quorums.AnnouncedFaultsTolerated | hotstuff/config/replica_config.cc:69-77 | with as many faults as announced, quorums meet honestly if and only if 3 does not divide n |
| Quorums.ReplicaConfig.AddReplica | hotstuff/config/replica_config.cc:57-67 | a new id is added and counted; a known id fails and changes nothing |
| Quorums.ReplicaConfig.FinishInit | hotstuff/config/replica_config.cc:69-77 | the quorum size, and that certificates of that size meet in an honest replica |
| CoreSpec.VoteGuardExact | hotstuff/consensus.cc:140-166 | after a vote, the 32-bit vote height shuts out every block no higher exactly when the height voted on fits 32 bits |
| CoreSpec.OpinionOnTree | hotstuff/consensus.cc:139-158 | the opinion is positive if and only if the block is above the vote height and its justify is above the lock or it extends the lock (a second copy of the lock itself excepted) |
| CoreSpec.SupportsNonemptyIff | hotstuff/block.cc:77-85 | the gate is open if and only if each of the top blocks, as many as the depth, is one's own and carries a certificate for its parent |
| Safety.OneCertificatePerHeight | hotstuff/consensus.cc:140-166 | two certified blocks of one height are equal, header for header |
| Safety.LockLemma | hotstuff/consensus.cc:56-77 | every certified block as high as the tail of a certified three-chain extends that tail |
| Safety.CastVoteKeepsInv | hotstuff/consensus.cc:140-166 | a vote the rule allows keeps votes legal, ordered under rising locks, and certificates freshly backed |
| ReplicaInvariant.VerifiedIsCertified | hotstuff/crypto/certs.cc:113-129 | a certificate that passes verification is backed by a quorum that really signed |
| ReplicaInvariant.MintedBlockIsValid | hotstuff/hotstuff.cc:60-81 | a minted block justifies one of its ancestors, carries a verifying certificate, and can be inserted |
| ReplicaInvariant.WriteToDiskEffect | hotstuff/block.cc:110-124 | saving a block saves exactly its unwritten ancestors, bodies intact |
| ReplicaInvariant.UnwrittenIsIntact | hotstuff/hotstuff.cc:43-47 | a block still to be written lies above the executed block and still holds its own body |
| ReplicaInvariant.CommandsReadIntact | hotstuff/consensus.cc:95-103 | every body handed to the VM is the block's own |
| ReplicaInvariant.WalkReachesExecuted | hotstuff/consensus.cc:77-91 | when the three-chain test passes on an undecided block, the parent walk ends at b_exec |
| ReplicaInvariant.CommitKeeps | hotstuff/consensus.cc:79-109 | a commit succeeds, extends what was executed, and keeps the whole replica invariant |
| ReplicaInvariant.RaiseLockKeeps | hotstuff/consensus.cc:64-70 | the lock goes to blk1 or stays, never falls, and its whole branch is on disk |
| ReplicaInvariant.UpdateKeeps | hotstuff/consensus.cc:41-110 | update never breaches safety, keeps the invariant, and leaves the lock at blk1's height or above on every return |
| ReplicaInvariant.VoteKeeps | hotstuff/consensus.cc:112-131 | counting a vote keeps the replica invariant |
| ReplicaInvariant.ProposeKeeps | hotstuff/hotstuff.cc:60-104 | proposing never throws and keeps the replica invariant |
| Reload.CursorListsBranch | hotstuff/lmdb.cc:59-77 | an ascending cursor over the index lists the ancestors of b_exec from height 1 with no gap |
| Reload.LastLoadedIsTop | hotstuff/hotstuff.cc:142-162 | the height returned, that of the last block loaded, is the height of the executed block |
| Reload.LoadsBranch | hotstuff/hotstuff.cc:142-162 | loading in height order never misses a parent, and misses a justify exactly at the first block that justifies no ancestor |
| Reload.ReloadRestores | hotstuff/hotstuff.cc:142-162 | reloading succeeds if and only if something was decided on an on-chain branch, and gives back exactly the recovered state |
| Reload.RecoveredKeeps | hotstuff/consensus.cc:171-182 | the reloaded replica satisfies the replica invariant again |
| Protocol.OpinionMayVote | hotstuff/consensus.cc:136-169 | a vote cast on a stored proposal is one the ballot invariant allows |
| Protocol.RestartKeeps | hotstuff/consensus.cc:171-182 | a crash and reload at any moment keeps the system invariant |
| Protocol.StepKeeps | hotstuff/consensus.cc:41-182 | every step of every honest replica keeps the system invariant |
| Protocol.RunInvariant | hotstuff/consensus.cc:41-182 | the system invariant holds at every moment of every run |
| Protocol.NoStepThrows | hotstuff/consensus.cc:89-91 | in no run is safety reported breached, or a minted block refused |
| Protocol.ExecutedOnlyGrows | hotstuff/consensus.cc:79-109 | a decision is never revoked, not even by a restart |
| Protocol.Agreement | hotstuff/consensus.cc:41-182 | the command logs of two honest replicas, at any two moments of any run with restarts, are prefixes of one another |
| Protocol.DecisionsAreOrderedAndDurable | hotstuff/consensus.cc:79-109 | in every run: decided is exactly the branch of b_exec, the VM got each height once and in order with its own bytes, and all of it is on disk |
| Protocol.CertificatesInEveryRun | hotstuff/consensus.cc:56-77 | one certificate per height, and the lock lemma, in every reachable state |
| Protocol.PointersInEveryRun | hotstuff/consensus.cc:26-70 | hqc, lock and executed block are certified, ordered by height, and b_leaf extends hqc, in every reachable state |
| Recovery.RecoveryInEveryRun | hotstuff/consensus.cc:171-182 | after a crash at any moment of any run, whatever further files it left, reload restores executed block, decided set, log and invariant |
| Recovery.RestartResumes | hotstuff/consensus.cc:171-182 | in every run, a restarted replica builds on its executed block, counts as having voted up to it, holds exactly the decided blocks, and reports its height to the VM bridge |
| Recovery.DecidedOnChain | hotstuff/hotstuff.cc:142-162 | where every received block is on-chain so is every decided one, so that only a replica without decisions fails to reload |
| Recovery.RestartIsHarmlessIff | hotstuff/lmdb.h:20-27 | the system after a restart satisfies the full invariant as if nothing had happened, if and only if the vote height was not above the executed block |
| Recovery.VotesRunAhead | hotstuff/consensus.cc:140-168 | in every run, a replica that has not restarted and has decided a block has voted at least two heights above it |
| Recovery.ReloadedVotesTwice | hotstuff/lmdb.h:20-27 | from any state with a vote above the executed block, a restart leads to two votes of one replica at one height, on blocks it may receive |
| Recovery.FirstRestartCanVoteTwice | hotstuff/lmdb.h:20-27 | in every run, the first restart of any replica with on-chain decisions can lead there |
| Recovery.DurableBeforeDeciding | hotstuff/consensus.cc:64-107 | when a block is decided it and all its ancestors are on disk already, whichever block the lock is |
| Recovery.LeaderGate | hotstuff/block.cc:77-85 | a leaf that allows a nonempty child has its great-grandparent decided after update, whichever early return was taken |
| Recovery.LeaderGateInEveryRun | README.md:55-57 | the same after every such delivery in every run |
| Handlers.VotesExactly | hotstuff/consensus.cc:136-166 | in every run, a delivered proposal gets a new vote, recorded with the lock and the vote height, if and only if it is above the last vote and its justify is above the lock or it extends the lock |
| Handlers.OnlyProposalsAreVotedFor | hotstuff/consensus.cc:163-166 | no other step casts a vote |
| Handlers.DeliverMovesHqc | hotstuff/consensus.cc:26-54 | in every run, a delivery makes the certificate the block carries the hqc, and its block the leaf, if and only if it is higher; the early return makes no difference |
| Handlers.VoteMovesHqc | hotstuff/consensus.cc:112-131 | in every run, a vote that takes the signers of a higher block across n - n/3 makes it hqc and leaf, signed by exactly the voters so far; any other vote changes nothing |
| Handlers.LeafFollowsHqc | hotstuff/consensus.cc:26-39 | in every step of every run but minting and restarting, either the hqc rises and the leaf is reset to it, or both stay |
| Handlers.MintExactly | hotstuff/hotstuff.cc:60-104 | in every run, the new leaf is a stored child of the old one that carries the hqc with its signatures and the body |
| Handlers.DecidesExactly | hotstuff/consensus.cc:41-110 | in every run, a delivery moves b_exec to the tail of its chain of certificates if and only if the chain is linked by parents and that tail is above b_exec, whatever the decided flags say |
| Handlers.LocksExactly | hotstuff/consensus.cc:56-67 | in every run, a delivery moves the lock to blk1 if and only if that is above the lock |
| Handlers.OthersMoveNoPointer | hotstuff/consensus.cc:112-131 | no step but deliveries and restarts moves executed block, lock or vote height |
| Handlers.PrunesExactly | hotstuff/hotstuff.cc:43-47 | in every run, a step that decides sets the pruning height to the new executed height less 100, and no delivery changes it otherwise |
| Handlers.RecentBodiesStay | hotstuff/hotstuff.cc:43-47 | in every run, every stored block at most 100 heights below the executed one holds its own body |
| Handlers.LockIsDurable | hotstuff/consensus.cc:64-70 | in every run, the locked block and all its ancestors are on disk with their own bodies |
| Counterexample.OffChainJustifyBreaksAgreement | hotstuff/block_storage/block_store.cc:28-61 | receiving one block with an off-branch justify at height 2 lets replica 0 apply a1 first and replica 1 apply x1 first, all else as assumed |
| Counterexample.VotingRuleExact | hotstuff/consensus.cc:140-158 | every vote for a block in every good run respects the voter's lock if and only if the block extends its justify, or that is at height at most 1, or the block itself is |
| BlockStorage.BlockStore.InsertBlock | hotstuff/block_storage/block_store.cc:28-61 | reports exactly what is missing and changes nothing, or links the block, keeps the first object per hash, and has the collector watch it |
| BlockStorage.BlockStore.GetBlock | hotstuff/block_storage/block_store.cc:63-75 | the cached object, or null |
| BlockStorage.BlockStore.LinksStayInside | hotstuff/block.cc:57-66 | links lead to cached objects, a parent is one lower |
| BlockStorage.BlockStore.PointersAreHashes | hotstuff/consensus.cc:77 | on cached blocks, pointer equality is hash equality |
| BlockStorage.BlockStore.WalkDown | hotstuff/consensus.cc:149-155 | the walk ends at the ancestor of that height |
| BlockStorage.BlockStore.SupportsNonemptyChild | hotstuff/block.cc:77-85 | the recursion over parent pointers computes CoreSpec.SupportsNonempty of the ids the objects carry |
| BlockStorage.BlockStore.Sweep | hotstuff/block_storage/garbage_collector.cc:50-70 | a pass of the collector leaves exactly the blocks below the height without a body and changes no other record or link |
| BlockStorage.GarbageCollector.DoGc | hotstuff/block_storage/garbage_collector.cc:36-48 | exactly the blocks below the height are flushed and leave the list |
| BlockStorage.GarbageCollector.Run | hotstuff/block_storage/garbage_collector.cc:50-70 | one pass over list and buffer together |
| Consensus.HotstuffCore.UpdateHqc | hotstuff/consensus.cc:26-39 | a higher certificate replaces hqc and resets b_leaf to its block; any other leaves both alone |
| Consensus.HotstuffCore.WriteToDisk | hotstuff/block.cc:110-124 | performs CoreSpec.WriteToDisk on objects |
| Consensus.HotstuffCore.CommitQueue | hotstuff/consensus.cc:79-88 | the queue is the branch above b_exec, highest first, and the walk's end is the ancestor at b_exec's height |
| Consensus.HotstuffCore.ApplyQueue | hotstuff/consensus.cc:93-103 | the reversed replay decides, indexes and applies that branch lowest first |
| Consensus.HotstuffCore.NotifyOkToPrune | hotstuff/hotstuff.cc:43-47 | the collector is given the committed height less 100, or 0 |
| Consensus.HotstuffCore.Commit | hotstuff/consensus.cc:79-109 | performs CoreSpec.Commit on objects, the breach included |
| Consensus.HotstuffCore.Update | hotstuff/consensus.cc:41-110 | performs CoreSpec.Update on objects, every early return included |
| Consensus.HotstuffCore.FormOpinion | hotstuff/consensus.cc:139-158 | positive if and only if the block is above the vote height and its justify is above the lock or it extends the lock and is not a second copy of it |
| Consensus.HotstuffCore.OnReceiveProposal | hotstuff/consensus.cc:136-169 | votes by that rule on the state before, and performs CoreSpec.OnReceiveProposal on objects |
| Consensus.HotstuffCore.OnReceiveVote | hotstuff/consensus.cc:112-131 | throws exactly on ids of 32 and above; a new certificate is announced exactly when this vote completes a quorum, and then becomes hqc and leaf if its block is higher; otherwise neither moves |
| Consensus.HotstuffCore.DoPropose | hotstuff/hotstuff.cc:60-81 | never throws: the new leaf is a child of the old one, justified by hqc with its signatures, and its body is the VM's proposal if the leaf supports one and empty otherwise |
| Consensus.HotstuffCore.DoEmptyPropose | hotstuff/hotstuff.cc:83-104 | the same with an empty body |
| Consensus.HotstuffCore.Collect | hotstuff/block_storage/garbage_collector.cc:50-70 | a pass of the collector drops the bodies of exactly the blocks below the height last handed to it and changes nothing else of the replica |
| Consensus.HotstuffCore.LoadDecided | hotstuff/block.cc:159-167 | loads and inserts one decided block with whatever body its file holds, or fails as the code throws |
| Consensus.HotstuffCore.ReloadDecidedBlocks | hotstuff/hotstuff.cc:142-162 | performs Reload.ReloadAll on objects and returns the highest height loaded |
| Consensus.HotstuffCore.ReloadState | hotstuff/consensus.cc:171-182 | hqc, lock, vote height and executed block come from the stored certificate |
| Certs.HeaderDetermines | hotstuff/xdr/hotstuff.x:13-24 | a block value's certificate and the wire form in its header determine each other |
| Certs.DecodeEncode | hotstuff/crypto/certs.cc:62-100 | parsing a serialized certificate gives back its hash and signatures |
| Certs.EncodeDecode | hotstuff/crypto/certs.cc:62-100 | a message with as many signatures as bits is the only encoding of what it parses to |
| Certs.QuorumCertificate.Serialize | hotstuff/crypto/certs.cc:79-100 | the bits are exactly the signers, within 32 bits, and the signatures are in their order |
| Certs.PopAll | hotstuff/crypto/certs.cc:72-76 | the lowest remaining bit is paired with the next signature |
| Certs.QuorumCertificate.FromWire | hotstuff/crypto/certs.cc:62-77 | the signatures of the message, or none if their number is wrong |
| Certs.QuorumCertificate.SendAndParse | hotstuff/crypto/certs.cc:62-100 | serialized and parsed again, a certificate object has the same hash and signatures |
| Certs.QuorumCertificate.AddPartialCertificate | hotstuff/crypto/certs.cc:102-111 | fails on another hash or a large id; keeps the first signature of each replica |
| Certs.QuorumCertificate.Verify | hotstuff/crypto/certs.cc:113-129 | accepts exactly genesis and certificates whose signers are all known and enough of whose signatures check; throws exactly on enough signatures with an unknown signer among them |
| Certs.VerifiedIsSigned | hotstuff/crypto/certs.cc:113-129 | with unforgeable signatures, what verification accepts is really signed by enough replicas, bad signatures beside or not |
| Certs.VerifyAcceptsExactly | hotstuff/crypto/certs.cc:113-129 | if every signature carried is its signer's own, exactly those certificates are accepted |
| Certs.NewQcOnce | hotstuff/consensus.cc:112-131 | whatever the order and repetitions of votes, at most one announces a new certificate, that of the last of exactly nmajority replicas |
| Certs.NewQcIff | hotstuff/consensus.cc:112-131 | one does exactly when enough different replicas have voted |
| Certs.ReceiveVotes | hotstuff/consensus.cc:112-131 | the handler run on any votes collects exactly their voters, each with its first signature, announces once or never accordingly, and the announcement makes a higher block hqc, signed by the voters up to then |
| Network.NetworkEventQueue.AddEvent | hotstuff/network_event_queue.cc:96-103 | a validated event joins the queue and is accounted for |
| Network.NetworkEventQueue.AddFetchRequest | hotstuff/block_storage/block_fetch_manager.cc:84-107 | the events wait under the hash after those already there and the request goes out; an unknown target loses them |
| Network.NetworkEventQueue.DeliverBlock | hotstuff/block_storage/block_fetch_manager.cc:109-127 | hands back exactly the waiting events and closes the request |
| Network.NetworkEventQueue.OnVote | hotstuff/network_event_queue.cc:33-46 | performs Network.Handle on a vote: on a stored block it goes to the core, another one waits |
| Network.NetworkEventQueue.OnCompleteBlock | hotstuff/network_event_queue.cc:47-55 | performs Network.Handle on an event whose block has both links stored |
| Network.NetworkEventQueue.OnIncompleteBlock | hotstuff/network_event_queue.cc:78-90 | performs Network.Handle on an event whose block lacks a link |
| Network.HandledSo | hotstuff/network_event_queue.cc:33-90 | a ready event is finished, its block stored and what waited for that block queued; any other changes neither store nor queue, has all it lacks requested, and waits behind the first of these with what waited for its own block; from an unknown source exactly those are lost |
| Network.HandleKeeps | hotstuff/network_event_queue.cc:33-90 | handling an event keeps every accepted event in exactly one place, the store closed under links, and parked events only under absent blocks they need |
| Network.NetworkEventQueue.Step | hotstuff/network_event_queue.cc:29-94 | does to the oldest event what HandledSo says, keeps the invariant, and either stores a new carried block or shortens the queue |
| Network.NetworkEventQueue.Drain | hotstuff/network_event_queue.cc:29-94 | with no new arrivals the queue drains, though delivery refills it |
| Network.NothingIsLost | hotstuff/network_event_queue.cc:29-94 | after that an accepted event is finished if its links are stored, and otherwise waits for an absent block reached from its links, never its own; or it was lost, which takes a message from an unknown source; finished events were ready |
| Network.ReadyLacksNothing | hotstuff/network_event_queue.cc:33-90 | in a store closed under links, an event can be handled at once if and only if everything it needs, however deep, is stored |
| Network.VoteCanBeLost | hotstuff/block_storage/block_fetch_manager.cc:84-89 | a vote of a configured replica that waits for a block is lost when that block comes incomplete from an unknown source |
| Bridge.SpeculativeExecGadget.AddHeightPair | hotstuff/vm/speculative_exec_gadget.h:116-132 | logs at the head only; the list stays the contiguous heights above the last commit |
| Bridge.SpeculativeExecGadget.OnCommitHotstuff | hotstuff/vm/speculative_exec_gadget.h:134-157 | consumes the lowest entry exactly when it is the next height, else throws and changes nothing |
| Bridge.HotstuffVMBridge.Propose | hotstuff/vm/hotstuff_vm_bridge.cc:57-87 | a proposal at the head is logged under its id, any other is not |
| Bridge.HotstuffVMBridge.ApplyBlock | hotstuff/vm/hotstuff_vm_bridge.cc:89-127 | keeps a matching speculation; otherwise drops it, rewinds if there was any, and submits the block; the mutex is taken twice exactly when a nonempty speculation starts with another block |
| Bridge.HotstuffVMBridge.NotifyCommitment | hotstuff/vm/hotstuff_vm_bridge.cc:129-139 | reports the lowest entry's id to the VM, or throws |
| Bridge.Drive | hotstuff/vm/hotstuff_vm_bridge.cc:57-139 | with proposals interleaved at any heights, apply/notify pairs never throw, the VM hears the committed ids in order, and without proposals the mutex is never taken twice |
| Bridge.EveryRunIsConsecutive | hotstuff/consensus.cc:95-103 | the log of every honest replica in every run is one the bridge can be driven with, from any restart height |
| Bridge.RestartLosesNoBlock | hotstuff/hotstuff.cc:142-162 | after every restart in every run, the height handed to the bridge is the number of blocks applied so far, and what is decided from then on is consecutive from there |
| VmInterface.VMControlInterface.RequestProposal | hotstuff/vm/vm_control_interface.cc:41-69 | when get_proposal waits there is a proposal or a request for one |
| VmInterface.VMControlInterface.TakeProposal | hotstuff/vm/vm_control_interface.cc:76-90 | the oldest proposal leaves and the buffer is refilled up to the target |
| VmInterface.VMControlInterface.SubmitBlockForExec | hotstuff/vm/vm_control_interface.cc:93-112 | proposer mode ends, buffer and requests are forgotten, the block waits its turn |
| VmInterface.VMControlInterface.RunOnce | hotstuff/vm/vm_control_interface.cc:152-184 | exec, then log, then at most one proposal; the early-wake exception is not thrown |
| VmInterface.ExecsInOrder | hotstuff/vm/vm_control_interface.cc:152-166 | every parsed submission is executed once and in its place, and nothing else is |
| VmInterface.RunAll | hotstuff/vm/vm_control_interface.cc:38-187 | in every interleaving: no early wake, buffer plus requests within the target, proposals leave in the order made, and the VM has executed exactly the parsed submissions in order, up to those still waiting |

## Left out

- Sockets, RPC clients and servers, thread start and stop, condition variables: I/O; each locked region is one step.
- Signature, hash, marshalling and database internals: a signed-by relation, an injective block value, abstract maps, and an index cursor in ascending height order.
- `utils/bitvector.h` is not part of this model; the bit vector is taken to number bits from the lowest and to pop the lowest first.
- Liveness and the pacemaker: the repository implements neither timeouts nor failure detection.
- Restarting a replica that has decided nothing from a clean state: the code's reload throws there, so agreement is stated without such restarts; they can be counted among the faulty replicas.
- 64-bit wrap-around of heights: heights are assumed below 2^32 in the run theorems and unbounded elsewhere.
- The VM's own state: the model records the calls it receives. Parsing what the VM serialized is taken to give back a block with the same id.
- The VM block id stored beside each hash in the index, and a round trip for it: an empty id and a zero-length id serialize to the same bytes.
- `ReplicaFetchQueue` with its own garbage collection, and the block fetch server: they decide only how often and by whom a requested block is fetched. Conservation and draining of events do not depend on it, since they hold for any arrivals, and neither does agreement, which allows lost messages.
- `NonspeculativeVMBridge` and `CountingVM`: the first replaces the speculation bridge and the second is a state machine behind it. No theorem about the core or about the speculation bridge depends on either.
- Waiting for a new certificate, notification hooks without effect on the core, logging, key generation, data directories.
- Protocol.Agreement: assumes sound justifies, 32-bit heights and caught-up votes after a reload, which the code does not check; that each is needed is shown by a run that disagrees, a height at which the guard fails, and a double vote, not by a disagreeing run for every violation.
- Network.NetworkEventQueue.InsertMinted: assumes nobody has asked for the hash of a block before it is minted.
- Bridge.HotstuffVMBridge.ApplyBlock: states the effect intended where the code would wait for its own mutex.
- Bridge.Drive: starts from an empty gadget, as after either initialization.
