/**
 CPU pools by NUMA affinity: every process extends the affinity list of each candidate NPU by the next NUMA node,
 groups the candidates with equal lists, and divides each list over its group.
 */
module CpuTopology {
  import opened Collections
  import opened Sorting
  import opened CpuPools

  type Numa = map<Node, seq<Cpu>>

  function Affinity(host: Host, npu: Npu): seq<Cpu> {
    if npu in host.affinity then host.affinity[npu] else []
  }

  /** The allowed CPUs of a list, in its order. */
  function Allowed(host: Host, cpus: seq<Cpu>): (r: seq<Cpu>)
    ensures forall c :: c in r <==> c in cpus && c in host.allowed
  {
    if cpus == [] then []
    else
      var front, last := cpus[..|cpus| - 1], cpus[|cpus| - 1];
      assert cpus == front + [last];
      Allowed(host, front) + if last in host.allowed then [last] else []
  }

  predicate Overlaps(host: Host, npu: Npu) {
    exists c :: c in Affinity(host, npu) && c in host.allowed
  }

  /** The NPUs a process lays out: its own and those whose affinity meets its cpuset. */
  function Candidates(host: Host, running: seq<Npu>, logic: seq<Npu>): seq<Npu> {
    if logic == [] then []
    else
      var front, npu := logic[..|logic| - 1], logic[|logic| - 1];
      Candidates(host, running, front) + if npu in running || Overlaps(host, npu) then [npu] else []
  }

  /** extend_numa: a list on one node gains the allowed CPUs of the next node. Looking up a node that the map
      lacks inserts it, so the map is part of the result. */
  function ExtendNuma(host: Host, numa: Numa, cpus: seq<Cpu>): Result<(seq<Cpu>, Numa), Error>
    requires |numa| > 0
  {
    if cpus == [] then Ok(([], numa))
    else if exists c :: c in cpus && c !in host.cpuNode then Err(MissingKey)
    else if exists c :: c in cpus && host.cpuNode[c] != host.cpuNode[cpus[0]] then Ok((cpus, numa))
    else
      var next := (host.cpuNode[cpus[0]] + 1) % |numa|;
      var after := if next in numa then numa else numa[next := []];
      Ok((SortedSet(cpus + Allowed(host, after[next])), after))
  }

  /** The extended pool of each candidate, or the first error. */
  function Extended(host: Host, npus: seq<Npu>): (r: Result<(Pools, Numa), Error>)
    requires |host.numa| > 0
    ensures r.Ok? ==> |r.value.1| > 0 && forall x :: x in npus <==> x in r.value.0
  {
    if npus == [] then Ok((map[], host.numa))
    else
      var front, npu := npus[..|npus| - 1], npus[|npus| - 1];
      assert npus == front + [npu];
      var before := Extended(host, front);
      if before.Err? then before
      else
        var base := Allowed(host, Affinity(host, npu));
        if base == [] then Err(AffinityConflict)
        else
          var e := ExtendNuma(host, before.value.1, base);
          if e.Err? then Err(e.error)
          else Ok((before.value.0[npu := e.value.0], e.value.1))
  }

  // ---- dividing a pool over its group ----

  /** The candidates with this pool, in order. */
  function Group(npus: seq<Npu>, pools: Pools, pool: seq<Cpu>): (r: seq<Npu>)
    requires forall x :: x in npus ==> x in pools
    ensures forall x :: x in r <==> x in npus && pools[x] == pool
  {
    if npus == [] then []
    else
      var front, npu := npus[..|npus| - 1], npus[|npus| - 1];
      assert npus == front + [npu];
      Group(front, pools, pool) + if pools[npu] == pool then [npu] else []
  }

  function Index(npus: seq<Npu>, npu: Npu): (k: nat)
    requires npu in npus
    ensures k < |npus| && npus[k] == npu
  {
    if npus[0] == npu then 0 else
      assert npus == [npus[0]] + npus[1..];
      1 + Index(npus[1..], npu)
  }

  /** average_distribute: equal parts, the last one also takes the rest. */
  function Part(cpus: seq<Cpu>, n: nat, i: nat): seq<Cpu>
    requires i < n
  {
    PartBounds(|cpus|, n, i);
    var width := |cpus| / n;
    cpus[i * width..if i < n - 1 then (i + 1) * width else |cpus|]
  }

  lemma PartBounds(len: nat, n: nat, i: nat)
    requires i < n
    ensures 0 <= i * (len / n) <= (i + 1) * (len / n) <= len
  {
    var width := len / n;
    QuotientBounds(len, n);
    AtMostQuotient(len, n, 0);
    MulMono(0, i, width);
    MulMono(i, i + 1, width);
    MulMono(i + 1, n, width);
  }

  /** What one candidate gets: its whole pool when it is alone in its group, else its part. */
  function Share(npus: seq<Npu>, pools: Pools, npu: Npu): seq<Cpu>
    requires npu in npus && forall x :: x in npus ==> x in pools
  {
    var group := Group(npus, pools, pools[npu]);
    if |group| == 1 then pools[npu] else Part(Sorted(pools[npu]), |group|, Index(group, npu))
  }

  /** The shares of the NPUs that the process sees. */
  function Visible(npus: seq<Npu>, pools: Pools, running: seq<Npu>): Result<Pools, Error>
    requires forall x :: x in npus ==> x in pools
  {
    if exists npu :: npu in running && npu !in npus then Err(MissingKey)
    else Ok(map npu | npu in running :: Share(npus, pools, npu))
  }

  /** build_cpu_pools in topology mode */
  function TopoPools(host: Host, running: seq<Npu>): Result<Pools, Error>
    requires |host.numa| > 0
  {
    var npus := Candidates(host, running, host.logic);
    var extended := Extended(host, npus);
    if extended.Err? then Err(extended.error) else Visible(npus, extended.value.0, running)
  }

  // ---- all processes compute the same layout ----

  /** The candidates as the host alone determines them. */
  function HostCandidates(host: Host): seq<Npu> {
    Candidates(host, [], host.logic)
  }

  lemma {:induction false} CandidatesAre(host: Host, running: seq<Npu>, logic: seq<Npu>, npu: Npu)
    ensures npu in Candidates(host, running, logic) <==> npu in logic && (npu in running || Overlaps(host, npu))
  {
    if logic != [] {
      var front, last := logic[..|logic| - 1], logic[|logic| - 1];
      assert logic == front + [last];
      CandidatesAre(host, running, front, npu);
    }
  }

  /** A candidate whose affinity misses the cpuset is an error. */
  lemma {:induction false} ExtendedOverlap(host: Host, npus: seq<Npu>, npu: Npu)
    requires |host.numa| > 0 && Extended(host, npus).Ok? && npu in npus
    ensures Overlaps(host, npu)
  {
    var front, last := npus[..|npus| - 1], npus[|npus| - 1];
    assert npus == front + [last];
    if npu == last {
      var base := Allowed(host, Affinity(host, npu));
      assert base[0] in base;
    } else {
      ExtendedOverlap(host, front, npu);
    }
  }

  lemma {:induction false} SameCandidates(host: Host, running: seq<Npu>, logic: seq<Npu>)
    requires forall npu :: npu in running && npu in logic ==> Overlaps(host, npu)
    ensures Candidates(host, running, logic) == Candidates(host, [], logic)
  {
    if logic != [] {
      var front, last := logic[..|logic| - 1], logic[|logic| - 1];
      assert logic == front + [last];
      SameCandidates(host, running, front);
    }
  }

  /** A process succeeds exactly when the host's own layout exists and contains all it sees; what it gets is then
      that layout, whatever else it sees. */
  lemma TopoPoolsAreHostPools(host: Host, running: seq<Npu>)
    requires |host.numa| > 0
    ensures var npus := HostCandidates(host);
            && (TopoPools(host, running).Ok?
                <==> Extended(host, npus).Ok? && forall npu :: npu in running ==> npu in npus)
            && (TopoPools(host, running).Ok? ==>
                  TopoPools(host, running).value
                  == map npu | npu in running :: Share(npus, Extended(host, npus).value.0, npu))
  {
    var npus, mine := HostCandidates(host), Candidates(host, running, host.logic);
    forall npu
      ensures npu in mine <==> npu in host.logic && (npu in running || Overlaps(host, npu))
      ensures npu in npus <==> npu in host.logic && Overlaps(host, npu)
    {
      CandidatesAre(host, running, host.logic, npu);
      CandidatesAre(host, [], host.logic, npu);
    }
    if TopoPools(host, running).Ok? {
      forall npu | npu in running && npu in host.logic
        ensures Overlaps(host, npu)
      {
        ExtendedOverlap(host, mine, npu);
      }
      SameCandidates(host, running, host.logic);
    } else if forall npu :: npu in running ==> npu in npus {
      SameCandidates(host, running, host.logic);
    }
  }

  /** Two processes agree on every NPU that both see. */
  lemma ProcessesAgree(host: Host, r1: seq<Npu>, r2: seq<Npu>, npu: Npu)
    requires |host.numa| > 0 && TopoPools(host, r1).Ok? && TopoPools(host, r2).Ok?
    requires npu in r1 && npu in r2
    ensures TopoPools(host, r1).value[npu] == TopoPools(host, r2).value[npu]
  {
    TopoPoolsAreHostPools(host, r1);
    TopoPoolsAreHostPools(host, r2);
  }

  // ---- within one group ----

  /** The parts of a list, in order. */
  function Parts(cpus: seq<Cpu>, n: nat, k: nat): seq<seq<Cpu>>
    requires k <= n
  {
    if k == 0 then [] else Parts(cpus, n, k - 1) + [Part(cpus, n, k - 1)]
  }

  lemma {:induction false} PartsConcat(cpus: seq<Cpu>, n: nat, k: nat)
    requires k < n
    ensures 0 <= k * (|cpus| / n) <= |cpus|
    ensures Flatten(Parts(cpus, n, k)) == cpus[..k * (|cpus| / n)]
  {
    PartBounds(|cpus|, n, k);
    if k > 0 {
      PartsConcat(cpus, n, k - 1);
      PartBounds(|cpus|, n, k - 1);
    }
  }

  /** The parts, one after the other, are the whole list. */
  lemma PartsCover(cpus: seq<Cpu>, n: nat)
    requires n > 0
    ensures Flatten(Parts(cpus, n, n)) == cpus
  {
    var k, cut := n - 1, (n - 1) * (|cpus| / n);
    PartsConcat(cpus, n, k);
    FlattenPush(Parts(cpus, n, k), Part(cpus, n, k));
    assert Part(cpus, n, k) == cpus[cut..] && cpus[..cut] + cpus[cut..] == cpus;
  }

  lemma PartsApart(cpus: seq<Cpu>, n: nat, i: nat, j: nat)
    requires Increasing(cpus) && i < j < n
    ensures NoCommon(Part(cpus, n, i), Part(cpus, n, j))
  {
    var width := |cpus| / n;
    PartBounds(|cpus|, n, i);
    PartBounds(|cpus|, n, j);
    MulMono(i + 1, j, width);
    ApartInIncreasing(cpus, i * width, (i + 1) * width, j * width, if j < n - 1 then (j + 1) * width else |cpus|);
  }

  lemma SharesApart(npus: seq<Npu>, pools: Pools, a: Npu, b: Npu)
    requires a in npus && b in npus && a != b && forall x :: x in npus ==> x in pools
    requires pools[a] == pools[b] && DuplicateFree(pools[a])
    ensures NoCommon(Share(npus, pools, a), Share(npus, pools, b))
  {
    var pool := pools[a];
    var group := Group(npus, pools, pool);
    var i, j := Index(group, a), Index(group, b);
    assert |group| > 1 && group[i] == a && group[j] == b;
    SortedDuplicateFree(pool);
    var cpus := Sorted(pool);
    if i < j {
      PartsApart(cpus, |group|, i, j);
    } else {
      PartsApart(cpus, |group|, j, i);
    }
  }

  /** The parts have equal size, except that the last one also has the rest. */
  lemma PartSize(cpus: seq<Cpu>, n: nat, i: nat)
    requires i < n
    ensures |Part(cpus, n, i)| == if i < n - 1 then |cpus| / n else |cpus| - (n - 1) * (|cpus| / n)
    ensures |Part(cpus, n, i)| >= |cpus| / n
  {
    PartBounds(|cpus|, n, i);
    var width := |cpus| / n;
    assert (i + 1) * width == i * width + width;
  }

  lemma {:induction false} GroupIncreasing(npus: seq<Npu>, pools: Pools, pool: seq<Cpu>)
    requires Increasing(npus) && forall x :: x in npus ==> x in pools
    ensures Increasing(Group(npus, pools, pool))
  {
    if npus != [] {
      var front, npu := npus[..|npus| - 1], npus[|npus| - 1];
      assert npus == front + [npu];
      GroupIncreasing(front, pools, pool);
      var group := Group(front, pools, pool);
      forall k | 0 <= k < |group|
        ensures group[k] < npu
      {
        assert group[k] in group;
        assert group[k] in front;
      }
    }
  }

  lemma PartsInOrder(cpus: seq<Cpu>, n: nat, i: nat, j: nat)
    requires Increasing(cpus) && i < j < n
    ensures forall x, y :: x in Part(cpus, n, i) && y in Part(cpus, n, j) ==> x < y
  {
    var width := |cpus| / n;
    PartBounds(|cpus|, n, i);
    PartBounds(|cpus|, n, j);
    MulMono(i + 1, j, width);
  }

  /** Within a group, an NPU with a lower id gets lower CPUs. */
  lemma SharesInOrder(npus: seq<Npu>, pools: Pools, a: Npu, b: Npu)
    requires Increasing(npus) && (forall x :: x in npus ==> x in pools) && a in npus && b in npus && a < b
    requires pools[a] == pools[b] && DuplicateFree(pools[a])
    ensures forall x, y :: x in Share(npus, pools, a) && y in Share(npus, pools, b) ==> x < y
  {
    var pool := pools[a];
    var group := Group(npus, pools, pool);
    GroupIncreasing(npus, pools, pool);
    var i, j := Index(group, a), Index(group, b);
    assert |group| > 1 && group[i] == a && group[j] == b;
    assert i < j;
    SortedDuplicateFree(pool);
    PartsInOrder(Sorted(pool), |group|, i, j);
  }

  /** No member of a group gets less than its quotient of the pool, and none but the last in order more. */
  lemma ShareSize(npus: seq<Npu>, pools: Pools, npu: Npu)
    requires npu in npus && forall x :: x in npus ==> x in pools
    ensures var group := Group(npus, pools, pools[npu]);
            && |group| > 0 && |Share(npus, pools, npu)| >= |pools[npu]| / |group|
            && (npu != group[|group| - 1] ==> |Share(npus, pools, npu)| == |pools[npu]| / |group|)
  {
    var group := Group(npus, pools, pools[npu]);
    assert npu in group;
    if |group| > 1 {
      PartSize(Sorted(pools[npu]), |group|, Index(group, npu));
    }
  }

  /** In different processes, two NPUs of one group get disjoint parts of their common pool. */
  lemma GroupSharesDisjoint(host: Host, r1: seq<Npu>, r2: seq<Npu>, a: Npu, b: Npu)
    requires |host.numa| > 0 && TopoPools(host, r1).Ok? && TopoPools(host, r2).Ok?
    requires a in r1 && b in r2 && a != b
    requires Extended(host, HostCandidates(host)).Ok?
    requires var pools := Extended(host, HostCandidates(host)).value.0;
             a in pools && b in pools && pools[a] == pools[b] && DuplicateFree(pools[a])
    ensures NoCommon(TopoPools(host, r1).value[a], TopoPools(host, r2).value[b])
  {
    var npus := HostCandidates(host);
    var pools := Extended(host, npus).value.0;
    assert TopoPools(host, r1).value[a] == Share(npus, pools, a) by { TopoPoolsAreHostPools(host, r1); }
    assert TopoPools(host, r2).value[b] == Share(npus, pools, b) by { TopoPoolsAreHostPools(host, r2); }
    SharesApart(npus, pools, a, b);
  }

  // ---- over the whole host ----

  lemma {:induction false} IndexOf(npus: seq<Npu>, k: nat)
    requires DuplicateFree(npus) && k < |npus|
    ensures Index(npus, npus[k]) == k
  {
    if k > 0 {
      IndexOf(npus[1..], k - 1);
    }
  }

  lemma {:induction false} GroupDuplicateFree(npus: seq<Npu>, pools: Pools, pool: seq<Cpu>)
    requires DuplicateFree(npus) && forall x :: x in npus ==> x in pools
    ensures DuplicateFree(Group(npus, pools, pool))
  {
    if npus != [] {
      var front, npu := npus[..|npus| - 1], npus[|npus| - 1];
      assert npus == front + [npu] && npu !in front;
      GroupDuplicateFree(front, pools, pool);
    }
  }

  lemma {:induction false} CandidatesDuplicateFree(host: Host, running: seq<Npu>, logic: seq<Npu>)
    requires DuplicateFree(logic)
    ensures DuplicateFree(Candidates(host, running, logic))
  {
    if logic != [] {
      var front, npu := logic[..|logic| - 1], logic[|logic| - 1];
      assert logic == front + [npu] && npu !in front;
      CandidatesDuplicateFree(host, running, front);
      CandidatesAre(host, running, front, npu);
    }
  }

  /** The shares of these members, in order. */
  function Shares(npus: seq<Npu>, pools: Pools, members: seq<Npu>): (r: seq<seq<Cpu>>)
    requires (forall x :: x in npus ==> x in pools) && forall x :: x in members ==> x in npus
    ensures |r| == |members|
  {
    if members == [] then []
    else
      var front, last := members[..|members| - 1], members[|members| - 1];
      assert members == front + [last];
      Shares(npus, pools, front) + [Share(npus, pools, last)]
  }

  lemma {:induction false} SharesAt(npus: seq<Npu>, pools: Pools, members: seq<Npu>, k: nat)
    requires (forall x :: x in npus ==> x in pools) && (forall x :: x in members ==> x in npus) && k < |members|
    ensures members[k] in npus && Shares(npus, pools, members)[k] == Share(npus, pools, members[k])
  {
    var front, last := members[..|members| - 1], members[|members| - 1];
    assert members == front + [last];
    if k < |front| {
      SharesAt(npus, pools, front, k);
    }
  }

  lemma {:induction false} PartsAt(cpus: seq<Cpu>, n: nat, k: nat, i: nat)
    requires i < k <= n
    ensures |Parts(cpus, n, k)| == k && Parts(cpus, n, k)[i] == Part(cpus, n, i)
  {
    PartsLength(cpus, n, k);
    if i < k - 1 {
      PartsAt(cpus, n, k - 1, i);
    } else {
      PartsLength(cpus, n, k - 1);
    }
  }

  lemma {:induction false} PartsLength(cpus: seq<Cpu>, n: nat, k: nat)
    requires k <= n
    ensures |Parts(cpus, n, k)| == k
  {
    if k > 0 {
      PartsLength(cpus, n, k - 1);
    }
  }

  lemma ShareIsPart(npus: seq<Npu>, pools: Pools, pool: seq<Cpu>, k: nat)
    requires DuplicateFree(npus) && forall x :: x in npus ==> x in pools
    requires k < |Group(npus, pools, pool)| && |Group(npus, pools, pool)| > 1
    ensures var group := Group(npus, pools, pool);
            group[k] in npus && Share(npus, pools, group[k]) == Part(Sorted(pool), |group|, k)
  {
    var group := Group(npus, pools, pool);
    GroupDuplicateFree(npus, pools, pool);
    IndexOf(group, k);
    assert group[k] in group;
  }

  lemma SharesAreParts(npus: seq<Npu>, pools: Pools, pool: seq<Cpu>)
    requires DuplicateFree(npus) && forall x :: x in npus ==> x in pools
    requires |Group(npus, pools, pool)| > 1
    ensures var group := Group(npus, pools, pool);
            Shares(npus, pools, group) == Parts(Sorted(pool), |group|, |group|)
  {
    var group, cpus := Group(npus, pools, pool), Sorted(pool);
    var n := |group|;
    PartsLength(cpus, n, n);
    forall k | 0 <= k < n
      ensures Shares(npus, pools, group)[k] == Parts(cpus, n, n)[k]
    {
      SharesAt(npus, pools, group, k);
      ShareIsPart(npus, pools, pool, k);
      PartsAt(cpus, n, n, k);
    }
  }

  /** The shares of a group's members together are exactly its pool. */
  lemma GroupCovers(npus: seq<Npu>, pools: Pools, pool: seq<Cpu>)
    requires DuplicateFree(npus) && (forall x :: x in npus ==> x in pools)
    requires Group(npus, pools, pool) != []
    ensures var group := Group(npus, pools, pool);
            multiset(Flatten(Shares(npus, pools, group))) == multiset(pool)
  {
    var group := Group(npus, pools, pool);
    if |group| == 1 {
      SharesAt(npus, pools, group, 0);
      var shares := Shares(npus, pools, group);
      assert group[0] in group && shares == [pool];
      FlattenPush([], pool);
      assert shares == [] + [pool];
    } else {
      SharesAreParts(npus, pools, pool);
      PartsCover(Sorted(pool), |group|);
    }
  }

  /** Every CPU of a pool goes to some member of its group. */
  lemma Covered(npus: seq<Npu>, pools: Pools, a: Npu, cpu: Cpu) returns (npu: Npu)
    requires DuplicateFree(npus) && (forall x :: x in npus ==> x in pools) && a in npus && cpu in pools[a]
    ensures npu in npus && pools[npu] == pools[a] && cpu in Share(npus, pools, npu)
  {
    var group := Group(npus, pools, pools[a]);
    assert a in group;
    GroupCovers(npus, pools, pools[a]);
    var shares := Shares(npus, pools, group);
    var all := Flatten(shares);
    assert cpu in multiset(pools[a]);
    assert cpu in all by { assert cpu in multiset(all); }
    var y :| 0 <= y < |all| && all[y] == cpu;
    var k, j := Locate(shares, y);
    FlattenAt(shares, k, j);
    npu := group[k];
    SharesAt(npus, pools, group, k);
    assert npu in group && shares[k][j] == cpu;
  }

  lemma {:induction false} PartInList(cpus: seq<Cpu>, n: nat, i: nat)
    requires i < n
    ensures forall c :: c in Part(cpus, n, i) ==> c in cpus
  {
    PartBounds(|cpus|, n, i);
  }

  lemma ShareInPool(npus: seq<Npu>, pools: Pools, npu: Npu)
    requires npu in npus && forall x :: x in npus ==> x in pools
    ensures forall c :: c in Share(npus, pools, npu) ==> c in pools[npu]
  {
    var group, pool := Group(npus, pools, pools[npu]), pools[npu];
    if |group| != 1 {
      PartInList(Sorted(pool), |group|, Index(group, npu));
      forall c | c in Sorted(pool)
        ensures c in pool
      {
        assert c in multiset(Sorted(pool));
      }
    }
  }

  ghost predicate SharesDisjoint(npus: seq<Npu>, pools: Pools)
    requires forall x :: x in npus ==> x in pools
  {
    forall a, b :: a in npus && b in npus && a != b ==> NoCommon(Share(npus, pools, a), Share(npus, pools, b))
  }

  /** Pools of different groups have no CPU in common. */
  ghost predicate GroupsApart(npus: seq<Npu>, pools: Pools)
    requires forall x :: x in npus ==> x in pools
  {
    forall a, b :: a in npus && b in npus ==> pools[a] == pools[b] || NoCommon(pools[a], pools[b])
  }

  lemma SharesDisjointIff(npus: seq<Npu>, pools: Pools)
    requires DuplicateFree(npus) && (forall x :: x in npus ==> x in pools)
    requires forall x :: x in npus ==> DuplicateFree(pools[x])
    ensures SharesDisjoint(npus, pools) <==> GroupsApart(npus, pools)
  {
    if SharesDisjoint(npus, pools) {
      forall a, b, cpu | a in npus && b in npus && cpu in pools[a] && cpu in pools[b]
        ensures pools[a] == pools[b]
      {
        var x := Covered(npus, pools, a, cpu);
        var y := Covered(npus, pools, b, cpu);
      }
    }
    if GroupsApart(npus, pools) {
      forall a, b | a in npus && b in npus && a != b
        ensures NoCommon(Share(npus, pools, a), Share(npus, pools, b))
      {
        if pools[a] == pools[b] {
          SharesApart(npus, pools, a, b);
        } else {
          ShareInPool(npus, pools, a);
          ShareInPool(npus, pools, b);
        }
      }
    }
  }

  lemma {:induction false} AllowedDuplicateFree(host: Host, cpus: seq<Cpu>)
    requires DuplicateFree(cpus)
    ensures DuplicateFree(Allowed(host, cpus))
  {
    if cpus != [] {
      var front, last := cpus[..|cpus| - 1], cpus[|cpus| - 1];
      assert cpus == front + [last] && last !in front;
      AllowedDuplicateFree(host, front);
    }
  }

  lemma ExtendNumaDuplicateFree(host: Host, numa: Numa, cpus: seq<Cpu>)
    requires |numa| > 0 && DuplicateFree(cpus) && ExtendNuma(host, numa, cpus).Ok?
    ensures DuplicateFree(ExtendNuma(host, numa, cpus).value.0)
  {
  }

  /** The pool of the last candidate, and of the others. */
  lemma ExtendedStep(host: Host, npus: seq<Npu>, npu: Npu)
    requires |host.numa| > 0 && Extended(host, npus).Ok? && npu in npus
    ensures var front := npus[..|npus| - 1];
            && Extended(host, front).Ok?
            && if npu == npus[|npus| - 1] then
                 var r := ExtendNuma(host, Extended(host, front).value.1, Allowed(host, Affinity(host, npu)));
                 r.Ok? && Extended(host, npus).value.0[npu] == r.value.0
               else
                 npu in front && Extended(host, npus).value.0[npu] == Extended(host, front).value.0[npu]
  {
    assert npus == npus[..|npus| - 1] + [npus[|npus| - 1]];
  }

  lemma {:induction false} ExtendedDuplicateFree(host: Host, npus: seq<Npu>, npu: Npu)
    requires |host.numa| > 0 && Extended(host, npus).Ok? && npu in npus
    requires forall x :: x in host.affinity ==> DuplicateFree(host.affinity[x])
    ensures DuplicateFree(Extended(host, npus).value.0[npu])
    decreases |npus|
  {
    var front := npus[..|npus| - 1];
    ExtendedStep(host, npus, npu);
    if npu == npus[|npus| - 1] {
      var cpus := Affinity(host, npu);
      AllowedDuplicateFree(host, cpus);
      ExtendNumaDuplicateFree(host, Extended(host, front).value.1, Allowed(host, cpus));
    } else {
      ExtendedDuplicateFree(host, front, npu);
    }
  }

  /** No two processes on this host, whatever they see, give distinct NPUs a common CPU. */
  ghost predicate ProcessesApart(host: Host)
    requires |host.numa| > 0
  {
    forall r1: seq<Npu>, r2: seq<Npu>, a: Npu, b: Npu ::
      TopoPools(host, r1).Ok? && TopoPools(host, r2).Ok? && a in r1 && b in r2 && a != b
      ==> NoCommon(TopoPools(host, r1).value[a], TopoPools(host, r2).value[b])
  }

  /** What a process gets for an NPU is that NPU's share in the host's layout. */
  lemma VisibleShare(host: Host, running: seq<Npu>, npu: Npu)
    requires |host.numa| > 0 && TopoPools(host, running).Ok? && npu in running
    ensures Extended(host, HostCandidates(host)).Ok? && npu in HostCandidates(host)
    ensures npu in TopoPools(host, running).value
    ensures TopoPools(host, running).value[npu]
            == Share(HostCandidates(host), Extended(host, HostCandidates(host)).value.0, npu)
  {
    TopoPoolsAreHostPools(host, running);
  }

  lemma SeesOnly(host: Host, npu: Npu)
    requires |host.numa| > 0 && Extended(host, HostCandidates(host)).Ok? && npu in HostCandidates(host)
    ensures TopoPools(host, [npu]).Ok? && npu in [npu]
  {
    TopoPoolsAreHostPools(host, [npu]);
  }

  lemma ProcessesApartAreShares(host: Host)
    requires |host.numa| > 0 && Extended(host, HostCandidates(host)).Ok?
    ensures ProcessesApart(host)
            <==> SharesDisjoint(HostCandidates(host), Extended(host, HostCandidates(host)).value.0)
  {
    var npus := HostCandidates(host);
    var pools := Extended(host, npus).value.0;
    if ProcessesApart(host) {
      forall a, b | a in npus && b in npus && a != b
        ensures NoCommon(Share(npus, pools, a), Share(npus, pools, b))
      {
        SeesOnly(host, a);
        SeesOnly(host, b);
        VisibleShare(host, [a], a);
        VisibleShare(host, [b], b);
      }
    }
    if SharesDisjoint(npus, pools) {
      forall r1: seq<Npu>, r2: seq<Npu>, a, b
        | TopoPools(host, r1).Ok? && TopoPools(host, r2).Ok? && a in r1 && b in r2 && a != b
        ensures NoCommon(TopoPools(host, r1).value[a], TopoPools(host, r2).value[b])
      {
        VisibleShare(host, r1, a);
        VisibleShare(host, r2, b);
      }
    }
  }

  /** Processes are kept apart exactly when the extended lists of any two candidates are equal or disjoint. */
  lemma ProcessesApartIff(host: Host)
    requires |host.numa| > 0 && DuplicateFree(host.logic)
    requires forall x :: x in host.affinity ==> DuplicateFree(host.affinity[x])
    requires Extended(host, HostCandidates(host)).Ok?
    ensures ProcessesApart(host)
            <==> GroupsApart(HostCandidates(host), Extended(host, HostCandidates(host)).value.0)
  {
    var npus := HostCandidates(host);
    CandidatesDuplicateFree(host, [], host.logic);
    forall x | x in npus
      ensures DuplicateFree(Extended(host, npus).value.0[x])
    {
      ExtendedDuplicateFree(host, npus, x);
    }
    SharesDisjointIff(npus, Extended(host, npus).value.0);
    ProcessesApartAreShares(host);
  }

  /** Nodes are numbered from 0 and list the CPUs that the CPU table puts there. */
  ghost predicate NodesInOrder(host: Host) {
    && (forall n :: 0 <= n < |host.numa| ==> n in host.numa)
    && (forall n :: n in host.numa ==> forall c :: c in host.numa[n] ==> c in host.cpuNode && host.cpuNode[c] == n)
    && (forall c :: c in host.cpuNode ==> host.cpuNode[c] in host.numa && c in host.numa[host.cpuNode[c]])
  }

  /** All allowed CPUs of the NPU's list are on one node. */
  ghost predicate OnNode(host: Host, npu: Npu, node: Node) {
    && Overlaps(host, npu)
    && forall c :: c in Affinity(host, npu) && c in host.allowed ==> c in host.cpuNode && host.cpuNode[c] == node
  }

  function NextNode(host: Host, node: Node): Node
    requires |host.numa| > 0
  {
    (node + 1) % |host.numa|
  }

  lemma ExtendNumaOnNode(host: Host, cpus: seq<Cpu>, node: Node, next: Node)
    requires |host.numa| > 0 && NodesInOrder(host) && cpus != [] && next == NextNode(host, node)
    requires ExtendNuma(host, host.numa, cpus).Ok?
    ensures ExtendNuma(host, host.numa, cpus).value.1 == host.numa && next in host.numa
    ensures (forall c :: c in cpus ==> c in host.cpuNode && host.cpuNode[c] == node) ==>
              forall c :: c in ExtendNuma(host, host.numa, cpus).value.0
                          <==> c in cpus || (c in host.numa[next] && c in host.allowed)
  {
    assert cpus[0] in cpus;
  }

  /** The list of an NPU on one node becomes its allowed CPUs and those of the next node. */
  lemma {:induction false} ExtendedOnNode(host: Host, npus: seq<Npu>, npu: Npu, node: Node, next: Node)
    requires |host.numa| > 0 && NodesInOrder(host) && Extended(host, npus).Ok? && next == NextNode(host, node)
    ensures Extended(host, npus).value.1 == host.numa && next in host.numa
    ensures npu in npus && OnNode(host, npu, node) ==>
              forall c :: c in Extended(host, npus).value.0[npu]
                          <==> c in host.allowed && (c in Affinity(host, npu) || c in host.numa[next])
  {
    if npus != [] {
      var front, last := npus[..|npus| - 1], npus[|npus| - 1];
      assert npus == front + [last];
      ExtendedOnNode(host, front, npu, node, next);
      ExtendNumaOnNode(host, Allowed(host, Affinity(host, last)), node, next);
    }
  }

  lemma {:induction false} ExtendedMapped(host: Host, npus: seq<Npu>, npu: Npu)
    requires |host.numa| > 0 && Extended(host, npus).Ok? && npu in npus
    ensures forall c :: c in Affinity(host, npu) && c in host.allowed ==> c in host.cpuNode
    decreases |npus|
  {
    ExtendedStep(host, npus, npu);
    if npu != npus[|npus| - 1] {
      ExtendedMapped(host, npus[..|npus| - 1], npu);
    } else {
      var base := Allowed(host, Affinity(host, npu));
      assert forall c :: c in Affinity(host, npu) && c in host.allowed ==> c in base;
    }
  }

  /** It exists exactly when every candidate has an allowed CPU, and all its allowed CPUs are in the CPU table. */
  lemma ExtendedOkIff(host: Host, npus: seq<Npu>)
    requires |host.numa| > 0
    ensures Extended(host, npus).Ok?
            <==> && (forall x :: x in npus ==> Overlaps(host, x))
                 && forall x, c :: x in npus && c in Affinity(host, x) && c in host.allowed ==> c in host.cpuNode
  {
    if Extended(host, npus).Ok? {
      forall x | x in npus
        ensures Overlaps(host, x) && forall c :: c in Affinity(host, x) && c in host.allowed ==> c in host.cpuNode
      {
        ExtendedOverlap(host, npus, x);
        ExtendedMapped(host, npus, x);
      }
    } else if && (forall x :: x in npus ==> Overlaps(host, x))
              && forall x, c :: x in npus && c in Affinity(host, x) && c in host.allowed ==> c in host.cpuNode {
      ExtendedExists(host, npus);
    }
  }

  /** A list that spans nodes is not extended. */
  lemma {:induction false} ExtendedSpread(host: Host, npus: seq<Npu>, npu: Npu, x: Cpu, y: Cpu)
    requires |host.numa| > 0 && Extended(host, npus).Ok? && npu in npus
    requires x in Affinity(host, npu) && x in host.allowed && x in host.cpuNode
    requires y in Affinity(host, npu) && y in host.allowed && y in host.cpuNode && host.cpuNode[x] != host.cpuNode[y]
    ensures Extended(host, npus).value.0[npu] == Allowed(host, Affinity(host, npu))
    decreases |npus|
  {
    ExtendedStep(host, npus, npu);
    if npu != npus[|npus| - 1] {
      ExtendedSpread(host, npus[..|npus| - 1], npu, x, y);
    } else {
      var base := Allowed(host, Affinity(host, npu));
      assert x in base && y in base;
      SpreadStays(host, Extended(host, npus[..|npus| - 1]).value.1, base, x, y);
    }
  }

  lemma SpreadStays(host: Host, numa: Numa, cpus: seq<Cpu>, x: Cpu, y: Cpu)
    requires |numa| > 0 && x in cpus && y in cpus && x in host.cpuNode && y in host.cpuNode
    requires host.cpuNode[x] != host.cpuNode[y] && ExtendNuma(host, numa, cpus).Ok?
    ensures ExtendNuma(host, numa, cpus).value.0 == cpus
  {
    assert cpus[0] in cpus;
  }

  /** All allowed CPUs of the NPU are on one node, and c is on the next one. */
  ghost predicate OnNextNode(host: Host, npu: Npu, c: Cpu)
    requires |host.numa| > 0
  {
    exists node ::
      OnNode(host, npu, node) && NextNode(host, node) in host.numa && c in host.numa[NextNode(host, node)]
  }

  /** The extended list of an NPU, exactly: its allowed CPUs, and those of the next node when they are on one node. */
  lemma ExtendedIs(host: Host, npus: seq<Npu>, npu: Npu, c: Cpu)
    requires |host.numa| > 0 && NodesInOrder(host) && Extended(host, npus).Ok? && npu in npus
    ensures c in Extended(host, npus).value.0[npu]
            <==> c in host.allowed && (c in Affinity(host, npu) || OnNextNode(host, npu, c))
  {
    ExtendedOverlap(host, npus, npu);
    ExtendedMapped(host, npus, npu);
    var x :| x in Affinity(host, npu) && x in host.allowed;
    var node := host.cpuNode[x];
    if OnNode(host, npu, node) {
      ExtendedOnNode(host, npus, npu, node, NextNode(host, node));
      assert OnNode(host, npu, node);
    } else {
      var y :| y in Affinity(host, npu) && y in host.allowed && host.cpuNode[y] != node;
      ExtendedSpread(host, npus, npu, x, y);
    }
  }

  lemma ThreeDistinct(node: nat, count: nat)
    requires count > 2 && node < count
    ensures node != (node + 1) % count && (node + 1) % count != ((node + 1) % count + 1) % count
    ensures node != ((node + 1) % count + 1) % count
  {
  }

  /** With three nodes or more, an NPU on one node and an NPU on the next always overlap across processes: the
      first one's list gains the second one's node, and not the other way round. */
  lemma NeighboursOverlap(host: Host, a: Npu, b: Npu, node: Node)
    requires |host.numa| > 2 && NodesInOrder(host) && DuplicateFree(host.logic)
    requires forall x :: x in host.affinity ==> DuplicateFree(host.affinity[x])
    requires a in host.logic && b in host.logic && 0 <= node < |host.numa|
    requires OnNode(host, a, node) && OnNode(host, b, NextNode(host, node))
    requires Extended(host, HostCandidates(host)).Ok?
    ensures !ProcessesApart(host)
  {
    var second := NextNode(host, node);
    var third := NextNode(host, second);
    assert node != second && second != third && node != third by { ThreeDistinct(node, |host.numa|); }
    ListsOverlap(host, a, b, node, second, third);
    ProcessesApartIff(host);
  }

  lemma ListsOverlap(host: Host, a: Npu, b: Npu, node: Node, second: Node, third: Node)
    requires |host.numa| > 0 && NodesInOrder(host) && a in host.logic && b in host.logic
    requires second == NextNode(host, node) && third == NextNode(host, second)
    requires node != second && second != third && node != third
    requires OnNode(host, a, node) && OnNode(host, b, second)
    requires Extended(host, HostCandidates(host)).Ok?
    ensures !GroupsApart(HostCandidates(host), Extended(host, HostCandidates(host)).value.0)
  {
    var npus := HostCandidates(host);
    var pools := Extended(host, npus).value.0;
    CandidatesAre(host, [], host.logic, a);
    CandidatesAre(host, [], host.logic, b);
    ExtendedOnNode(host, npus, a, node, second);
    ExtendedOnNode(host, npus, b, second, third);
    var x :| x in Affinity(host, a) && x in host.allowed;
    var y :| y in Affinity(host, b) && y in host.allowed;
    assert x in pools[a] && x !in pools[b];
    assert y in pools[a] && y in pools[b];
  }

  /** The layout exists when every candidate has an allowed CPU and all its allowed CPUs are in the CPU table. */
  lemma {:induction false} ExtendedExists(host: Host, npus: seq<Npu>)
    requires |host.numa| > 0
    requires forall x :: x in npus ==> Overlaps(host, x)
    requires forall x, c :: x in npus && c in Affinity(host, x) && c in host.allowed ==> c in host.cpuNode
    ensures Extended(host, npus).Ok?
  {
    if npus != [] {
      var front, last := npus[..|npus| - 1], npus[|npus| - 1];
      assert npus == front + [last];
      ExtendedExists(host, front);
      var base := Allowed(host, Affinity(host, last));
      assert forall c :: c in base ==> c in host.cpuNode;
      assert Overlaps(host, last);
      assert base != [] by {
        var c :| c in Affinity(host, last) && c in host.allowed;
        assert c in base;
      }
    }
  }

  /** CPUs lo, lo + 1, and so on. */
  function Range(lo: int, n: nat): (r: seq<Cpu>)
    ensures |r| == n && forall k :: 0 <= k < n ==> r[k] == lo + k
  {
    seq(n, k => lo + k)
  }

  lemma RangeHas(lo: int, n: nat)
    ensures DuplicateFree(Range(lo, n)) && forall c :: c in Range(lo, n) <==> lo <= c < lo + n
  {
    forall c | lo <= c < lo + n
      ensures c in Range(lo, n)
    {
      assert Range(lo, n)[c - lo] == c;
    }
  }

  /** A list that contains n CPUs has at least n elements. */
  lemma {:induction false} AtLeast(cpus: seq<Cpu>, lo: int, n: nat)
    requires forall c :: lo <= c < lo + n ==> c in cpus
    ensures |cpus| >= n
  {
    if n > 0 {
      var last := lo + n - 1;
      assert last in cpus;
      var k :| 0 <= k < |cpus| && cpus[k] == last;
      var rest := cpus[..k] + cpus[k + 1..];
      assert cpus == cpus[..k] + [last] + cpus[k + 1..];
      assert forall c :: c in cpus && c != last ==> c in rest;
      AtLeast(rest, lo, n - 1);
    }
  }

  /** Three nodes of five CPUs each, with an NPU on each of the first two. */
  function ThreeNodes(): Host {
    Host(Range(0, 15), map[0 := Range(0, 5), 1 := Range(5, 5)], [0, 1],
         map c | c in Range(0, 15) :: if c < 5 then 0 else if c < 10 then 1 else 2,
         map[0 := Range(0, 5), 1 := Range(5, 5), 2 := Range(10, 5)])
  }

  /** Exactly these CPUs. */
  ghost predicate Has(cpus: seq<Cpu>, lo: int, hi: int) {
    forall c :: c in cpus <==> lo <= c < hi
  }

  /** What the lemmas need to know about that host. */
  ghost predicate LikeThreeNodes(host: Host) {
    && |host.numa| == 3 && NodesInOrder(host) && host.logic == [0, 1]
    && (forall x :: x in host.affinity ==> DuplicateFree(host.affinity[x]))
    && Has(host.allowed, 0, 15) && Has(Affinity(host, 0), 0, 5) && Has(Affinity(host, 1), 5, 10)
    && Has(host.numa[1], 5, 10) && Has(host.numa[2], 10, 15)
    && OnNode(host, 0, 0) && OnNode(host, 1, 1)
  }

  lemma ThreeNodesCount(numa: Numa)
    requires numa.Keys == {0, 1, 2}
    ensures |numa| == 3 && forall n :: 0 <= n < 3 ==> n in numa
  {
    assert |numa| == |numa.Keys|;
    forall n | 0 <= n < 3
      ensures n in numa
    {
      assert n in {0, 1, 2};
    }
  }

  lemma ThreeNodesNuma(host: Host)
    requires host == ThreeNodes()
    ensures |host.numa| == 3 && NodesInOrder(host)
  {
    var numa, cpuNode := host.numa, host.cpuNode;
    assert numa.Keys == {0, 1, 2};
    ThreeNodesCount(numa);
    RangeHas(0, 15);
    RangeHas(0, 5);
    RangeHas(5, 5);
    RangeHas(10, 5);
    assert forall c :: c in cpuNode <==> 0 <= c < 15;
    assert forall c :: c in cpuNode ==> cpuNode[c] == if c < 5 then 0 else if c < 10 then 1 else 2;
    assert Has(numa[0], 0, 5) && Has(numa[1], 5, 10) && Has(numa[2], 10, 15);
    NodesAre(host, numa, cpuNode);
  }

  lemma NodesAre(host: Host, numa: Numa, cpuNode: map<Cpu, Node>)
    requires host.numa == numa && host.cpuNode == cpuNode
    requires |numa| == 3 && numa.Keys == {0, 1, 2} && forall n :: 0 <= n < 3 ==> n in numa
    requires Has(numa[0], 0, 5) && Has(numa[1], 5, 10) && Has(numa[2], 10, 15)
    requires forall c :: c in cpuNode <==> 0 <= c < 15
    requires forall c :: c in cpuNode ==> cpuNode[c] == if c < 5 then 0 else if c < 10 then 1 else 2
    ensures NodesInOrder(host)
  {
    forall n, c | n in numa && c in numa[n]
      ensures c in cpuNode && cpuNode[c] == n
    {
      assert n == 0 || n == 1 || n == 2;
    }
  }

  lemma ThreeNodesAre(host: Host)
    requires host == ThreeNodes()
    ensures LikeThreeNodes(host)
  {
    ThreeNodesNuma(host);
    RangeHas(0, 15);
    RangeHas(0, 5);
    RangeHas(5, 5);
    RangeHas(10, 5);
    assert Affinity(host, 0) == Range(0, 5) && Affinity(host, 1) == Range(5, 5);
    assert 0 in Affinity(host, 0) && 0 in host.allowed;
    assert 5 in Affinity(host, 1) && 5 in host.allowed;
  }

  lemma ThreeNodesLaidOut(host: Host)
    requires LikeThreeNodes(host)
    ensures Extended(host, HostCandidates(host)).Ok? && DuplicateFree(HostCandidates(host))
    ensures forall x :: x in HostCandidates(host) <==> x == 0 || x == 1
  {
    var npus := HostCandidates(host);
    CandidatesDuplicateFree(host, [], host.logic);
    forall x
      ensures x in npus <==> x in host.logic && Overlaps(host, x)
    {
      CandidatesAre(host, [], host.logic, x);
    }
    ExtendedExists(host, npus);
  }

  /** The extended lists of the two NPUs: ten CPUs each, five of them common. */
  lemma ThreeNodesLists(host: Host)
    requires LikeThreeNodes(host) && Extended(host, HostCandidates(host)).Ok?
    requires 0 in HostCandidates(host) && 1 in HostCandidates(host)
    ensures var pools := Extended(host, HostCandidates(host)).value.0; Has(pools[0], 0, 10) && Has(pools[1], 5, 15)
  {
    ExtendedOnNode(host, HostCandidates(host), 0, 0, 1);
    ExtendedOnNode(host, HostCandidates(host), 1, 1, 2);
  }

  lemma OneMember(s: seq<Npu>, x: Npu)
    requires forall y :: y in s ==> y == x
    ensures |s| > 1 ==> s[0] == s[1]
  {
    assert |s| > 1 ==> s[0] in s && s[1] in s;
  }

  /** An NPU whose list no other has keeps the whole of it. */
  lemma AloneInGroup(npus: seq<Npu>, pools: Pools, npu: Npu)
    requires DuplicateFree(npus) && (forall x :: x in npus ==> x in pools) && npu in npus
    requires forall x :: x in npus && x != npu ==> pools[x] != pools[npu]
    ensures Share(npus, pools, npu) == pools[npu]
  {
    var group := Group(npus, pools, pools[npu]);
    GroupDuplicateFree(npus, pools, pools[npu]);
    assert npu in group;
    OneMember(group, npu);
  }

  /** A process that sees one NPU alone in its group gets the extended list of that NPU. */
  lemma SeesAlone(host: Host, npu: Npu)
    requires |host.numa| > 0 && Extended(host, HostCandidates(host)).Ok? && DuplicateFree(HostCandidates(host))
    requires npu in HostCandidates(host)
    requires var npus, pools := HostCandidates(host), Extended(host, HostCandidates(host)).value.0;
             forall x :: x in npus && x != npu ==> pools[x] != pools[npu]
    ensures TopoPools(host, [npu]).Ok? && npu in TopoPools(host, [npu]).value
    ensures TopoPools(host, [npu]).value[npu] == Extended(host, HostCandidates(host)).value.0[npu]
  {
    SeesOnly(host, npu);
    VisibleShare(host, [npu], npu);
    AloneInGroup(HostCandidates(host), Extended(host, HostCandidates(host)).value.0, npu);
  }

  lemma CommonCpus(p: seq<Cpu>, q: seq<Cpu>)
    requires Has(p, 0, 10) && Has(q, 5, 15)
    ensures |p| >= MIN_CPUS_PER_NPU && |q| >= MIN_CPUS_PER_NPU && p != q
    ensures forall c :: c in p && c in q <==> 5 <= c < 10
  {
    AtLeast(p, 0, MIN_CPUS_PER_NPU);
    AtLeast(q, 5, MIN_CPUS_PER_NPU);
    assert 0 in p && 0 !in q;
  }

  /** On this host a process that sees NPU 0 and one that sees NPU 1 each get enough CPUs to bind, and share some. */
  lemma ThreeNodesOverlap(host: Host)
    requires host == ThreeNodes()
    ensures |host.numa| > 0 && TopoPools(host, [0]).Ok? && TopoPools(host, [1]).Ok?
    ensures 0 in TopoPools(host, [0]).value && 1 in TopoPools(host, [1]).value
    ensures var p, q := TopoPools(host, [0]).value[0], TopoPools(host, [1]).value[1];
            |p| >= MIN_CPUS_PER_NPU && |q| >= MIN_CPUS_PER_NPU && forall c :: c in p && c in q <==> 5 <= c < 10
  {
    ThreeNodesAre(host);
    LikeThreeNodesOverlap(host);
  }

  lemma LikeThreeNodesOverlap(host: Host)
    requires LikeThreeNodes(host)
    ensures TopoPools(host, [0]).Ok? && TopoPools(host, [1]).Ok?
    ensures 0 in TopoPools(host, [0]).value && 1 in TopoPools(host, [1]).value
    ensures var p, q := TopoPools(host, [0]).value[0], TopoPools(host, [1]).value[1];
            |p| >= MIN_CPUS_PER_NPU && |q| >= MIN_CPUS_PER_NPU && forall c :: c in p && c in q <==> 5 <= c < 10
  {
    ThreeNodesLaidOut(host);
    ThreeNodesLists(host);
    var pools := Extended(host, HostCandidates(host)).value.0;
    CommonCpus(pools[0], pools[1]);
    SeesAlone(host, 0);
    SeesAlone(host, 1);
  }
}
