/** Replica configuration and quorum arithmetic (config/replica_config.cc). */
module Quorums {
  import opened Blocks

  /** The number of faults `finish_init` announces as tolerated. */
  function NFaulty(n: nat): nat { n / 3 }

  /** Votes needed for a certificate among `n` replicas. */
  function NMajority(n: nat): nat { n - NFaulty(n) }

  predicate IsQuorum(q: set<ReplicaId>, replicas: set<ReplicaId>) {
    q <= replicas && |q| >= NMajority(|replicas|)
  }

  /** Any two quorums share a replica that is not faulty. */
  ghost predicate QuorumsMeetHonestly(replicas: set<ReplicaId>, faulty: set<ReplicaId>) {
    forall q1, q2 | IsQuorum(q1, replicas) && IsQuorum(q2, replicas) ::
      exists r :: r in q1 * q2 - faulty
  }

  predicate FaultsBounded(replicas: set<ReplicaId>, faulty: set<ReplicaId>) {
    faulty <= replicas && |faulty| + 2 * NFaulty(|replicas|) < |replicas|
  }

  lemma QuorumsShareHonest(replicas: set<ReplicaId>, faulty: set<ReplicaId>,
                           q1: set<ReplicaId>, q2: set<ReplicaId>)
    returns (r: ReplicaId)
    requires FaultsBounded(replicas, faulty)
    requires IsQuorum(q1, replicas) && IsQuorum(q2, replicas)
    ensures r in q1 && r in q2 && r in replicas - faulty
  {
    var both := q1 * q2;
    assert |q1 + q2| == |q1| + |q2| - |both|;
    SubsetSize(q1 + q2, replicas);
    if both <= faulty {
      SubsetSize(both, faulty);
      assert false;
    }
    r :| r in both && r !in faulty;
  }

  lemma {:induction false} SubsetSize<T>(a: set<T>, b: set<T>)
    requires a <= b
    ensures |a| <= |b|
  {
    assert |b| == |a| + |b - a| by { assert b == a + (b - a); }
  }

  lemma {:induction false} TakeSubset(s: set<ReplicaId>, k: nat) returns (t: set<ReplicaId>)
    requires k <= |s|
    ensures t <= s && |t| == k
  {
    if k == 0 {
      t := {};
    } else {
      var x :| x in s;
      assert |s - {x}| == |s| - 1;
      var u := TakeSubset(s - {x}, k - 1);
      t := u + {x};
    }
  }

  /** With too many faults there are two quorums that meet in faulty replicas only. */
  lemma SplitQuorums(replicas: set<ReplicaId>, faulty: set<ReplicaId>)
    returns (q1: set<ReplicaId>, q2: set<ReplicaId>)
    requires faulty <= replicas && !FaultsBounded(replicas, faulty)
    ensures IsQuorum(q1, replicas) && IsQuorum(q2, replicas)
    ensures q1 * q2 <= faulty
  {
    var honest := replicas - faulty;
    assert |replicas| == |honest| + |faulty| by { assert replicas == honest + faulty; }
    var k := NFaulty(|replicas|);
    var h1 := TakeSubset(honest, if |honest| <= k then |honest| else k);
    var h2 := honest - h1;
    assert |h2| == |honest| - |h1| <= k;
    q1, q2 := replicas - h2, replicas - h1;
    assert |q1| == |replicas| - |h2| && |q2| == |replicas| - |h1|;
  }

  /** The fault bound the quorum size really buys, exactly. */
  lemma QuorumIntersectionExact(replicas: set<ReplicaId>, faulty: set<ReplicaId>)
    requires faulty <= replicas
    ensures QuorumsMeetHonestly(replicas, faulty) <==> |faulty| + 2 * NFaulty(|replicas|) < |replicas|
  {
    if FaultsBounded(replicas, faulty) {
      forall q1, q2 | IsQuorum(q1, replicas) && IsQuorum(q2, replicas)
        ensures exists r :: r in q1 * q2 - faulty
      {
        var r := QuorumsShareHonest(replicas, faulty, q1, q2);
        assert r in q1 * q2 - faulty;
      }
    } else {
      var q1, q2 := SplitQuorums(replicas, faulty);
      assert forall r :: r !in q1 * q2 - faulty;
    }
  }

  /** The announced `nfaulty` is tolerated unless 3 divides the number of replicas. */
  lemma AnnouncedFaultsTolerated(replicas: set<ReplicaId>, faulty: set<ReplicaId>)
    requires faulty <= replicas && |faulty| == NFaulty(|replicas|)
    ensures QuorumsMeetHonestly(replicas, faulty) <==> |replicas| % 3 != 0
  {
    QuorumIntersectionExact(replicas, faulty);
  }

  /** The replica map with its two derived counters. */
  class ReplicaConfig {
    var replicaMap: map<ReplicaId, seq<Byte>>  // id -> public key
    var nreplicas: nat
    var nmajority: nat

    ghost predicate Valid()
      reads this
    {
      nreplicas == |replicaMap|
    }

    constructor ()
      ensures Valid() && replicaMap == map[] && nmajority == 0
    {
      replicaMap := map[];
      nreplicas, nmajority := 0, 0;
    }

    /** Fails (the code throws) when the id is already present. */
    method AddReplica(id: ReplicaId, key: seq<Byte>) returns (ok: bool)
      requires Valid()
      modifies this`replicaMap, this`nreplicas
      ensures Valid()
      ensures ok <==> id !in old(replicaMap)
      ensures replicaMap == if ok then old(replicaMap)[id := key] else old(replicaMap)
    {
      ok := id !in replicaMap;
      if ok {
        replicaMap := replicaMap[id := key];
        nreplicas := nreplicas + 1;
      }
    }

    /** Fixes the quorum size; two certificates then meet honestly under the stated bound. */
    method FinishInit()
      requires Valid()
      modifies this`nmajority
      ensures Valid() && nmajority == NMajority(|replicaMap|)
      ensures forall faulty | FaultsBounded(replicaMap.Keys, faulty) ::
                forall q1, q2 | q1 <= replicaMap.Keys && q2 <= replicaMap.Keys
                                && |q1| >= nmajority && |q2| >= nmajority ::
                  exists r :: r in q1 * q2 - faulty
    {
      nmajority := nreplicas - nreplicas / 3;
      assert |replicaMap.Keys| == |replicaMap|;
      forall faulty | FaultsBounded(replicaMap.Keys, faulty)
        ensures QuorumsMeetHonestly(replicaMap.Keys, faulty)
      {
        QuorumIntersectionExact(replicaMap.Keys, faulty);
      }
      assert forall q | q <= replicaMap.Keys && |q| >= nmajority :: IsQuorum(q, replicaMap.Keys);
    }
  }
}
