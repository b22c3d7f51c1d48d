/**
 The allocator object of one process: it builds the pools of the NPUs it sees and splits each pool into the CPUs for
 interrupts, the main process, the ACL thread and the release thread.
 */
module CpuAllocation {
  import opened Collections
  import opened Sorting
  import opened CpuPools
  import opened CpuTopology

  datatype Mode = GlobalSlice | TopoAffinity

  /** build_cpu_pools: no topology means global slices too. */
  function BuiltPools(host: Host, mode: Mode, running: seq<Npu>): Result<Pools, Error> {
    if |host.numa| == 0 then Err(NoNumaNode)
    else if mode == GlobalSlice || |host.affinity| == 0 then GlobalPools(host, running)
    else TopoPools(host, running)
  }

  // ---- roles ----

  datatype Role = Irq | Main | Acl | Release

  /** The CPUs of a pool that serve a role: the first two take interrupts, the last two ACL and release. */
  function CpusOf(pool: seq<Cpu>, role: Role): seq<Cpu>
    requires |pool| >= MIN_CPUS_PER_NPU
  {
    match role
    case Irq => [pool[0], pool[1]]
    case Main => pool[2..|pool| - 2]
    case Acl => [pool[|pool| - 2]]
    case Release => [pool[|pool| - 1]]
  }

  /** The roles use up the pool, and the main process gets at least one CPU. */
  lemma RolesCoverPool(pool: seq<Cpu>)
    requires |pool| >= MIN_CPUS_PER_NPU
    ensures CpusOf(pool, Irq) + CpusOf(pool, Main) + CpusOf(pool, Acl) + CpusOf(pool, Release) == pool
    ensures |CpusOf(pool, Main)| >= 1
  {
  }

  /** Two CPUs take interrupts, one serves ACL, one release, and the rest the main process. */
  lemma RoleSizes(pool: seq<Cpu>)
    requires |pool| >= MIN_CPUS_PER_NPU
    ensures |CpusOf(pool, Irq)| == 2 && |CpusOf(pool, Acl)| == |CpusOf(pool, Release)| == 1
    ensures |CpusOf(pool, Main)| == |pool| - 4
  {
  }

  lemma RolesApart(pool: seq<Cpu>, x: Role, y: Role)
    requires |pool| >= MIN_CPUS_PER_NPU && DuplicateFree(pool) && x != y
    ensures NoCommon(CpusOf(pool, x), CpusOf(pool, y))
  {
  }

  lemma RoleInPool(pool: seq<Cpu>, role: Role)
    requires |pool| >= MIN_CPUS_PER_NPU
    ensures forall c :: c in CpusOf(pool, role) ==> c in pool
  {
  }

  // ---- what a mode promises ----

  /** Slices are used in their own mode, and when there is no topology. */
  ghost predicate UsesSlices(host: Host, mode: Mode) {
    mode == GlobalSlice || host.affinity == map[]
  }

  /** Without NUMA nodes no mode works; otherwise exactly one of the two algorithms runs. */
  lemma ModeDecides(host: Host, mode: Mode, running: seq<Npu>)
    ensures BuiltPools(host, mode, running) == Err(NoNumaNode) <==> host.numa == map[]
    ensures host.numa != map[] && UsesSlices(host, mode) ==>
              BuiltPools(host, mode, running) == GlobalPools(host, running)
    ensures host.numa != map[] && !UsesSlices(host, mode) ==>
              |host.numa| > 0 && BuiltPools(host, mode, running) == TopoPools(host, running)
  {
    NoAffinity(host);
    assert |host.numa| == 0 <==> host.numa == map[];
    var cpus := SortedSet(host.allowed);
    if running != [] && cpus != [] {
      SliceErrors(cpus, TotalNpus(host, running), running);
    }
    if |host.numa| > 0 {
      ExtendedErrors(host, Candidates(host, running, host.logic));
    }
  }

  lemma {:induction false} SliceErrors(cpus: seq<Cpu>, total: nat, running: seq<Npu>)
    ensures SlicePools(cpus, total, running) != Err(NoNumaNode)
  {
    if running != [] {
      SliceErrors(cpus, total, running[..|running| - 1]);
    }
  }

  lemma {:induction false} ExtendedErrors(host: Host, npus: seq<Npu>)
    requires |host.numa| > 0
    ensures Extended(host, npus) != Err(NoNumaNode)
  {
    if npus != [] {
      ExtendedErrors(host, npus[..|npus| - 1]);
    }
  }

  lemma NoAffinity(host: Host)
    ensures |host.affinity| == 0 <==> host.affinity == map[]
  {
  }

  /** With slices, whatever two processes see, distinct NPUs get disjoint pools. */
  lemma SlicedPoolsDisjoint(host: Host, mode: Mode, r1: seq<Npu>, r2: seq<Npu>, a: Npu, b: Npu)
    requires UsesSlices(host, mode) && Delivered(host, r1) && Delivered(host, r2)
    requires BuiltPools(host, mode, r1).Ok? && BuiltPools(host, mode, r2).Ok?
    requires a in BuiltPools(host, mode, r1).value && b in BuiltPools(host, mode, r2).value && a != b
    ensures NoCommon(BuiltPools(host, mode, r1).value[a], BuiltPools(host, mode, r2).value[b])
  {
    NoAffinity(host);
    GlobalPoolsDisjoint(host, r1, r2, a, b);
  }

  /** With the topology, a pool has only allowed CPUs, of the NPU's list or of the next node. */
  lemma TopoPoolContents(host: Host, running: seq<Npu>, npu: Npu, c: Cpu)
    requires |host.numa| > 0 && !UsesSlices(host, TopoAffinity) && NodesInOrder(host)
    requires BuiltPools(host, TopoAffinity, running).Ok? && npu in BuiltPools(host, TopoAffinity, running).value
    requires c in BuiltPools(host, TopoAffinity, running).value[npu]
    ensures c in host.allowed && (c in Affinity(host, npu) || OnNextNode(host, npu, c))
  {
    NoAffinity(host);
    TopoPoolsAreHostPools(host, running);
    VisibleShare(host, running, npu);
    var npus := HostCandidates(host);
    ShareInPool(npus, Extended(host, npus).value.0, npu);
    ExtendedIs(host, npus, npu, c);
  }

  /** With the topology, two processes give an NPU that both see one pool, and NPUs with one extended list disjoint
      pools, lower ids lower CPUs. */
  lemma TopoPoolsAgree(host: Host, r1: seq<Npu>, r2: seq<Npu>, a: Npu, b: Npu)
    requires |host.numa| > 0 && !UsesSlices(host, TopoAffinity) && Increasing(host.logic)
    requires BuiltPools(host, TopoAffinity, r1).Ok? && BuiltPools(host, TopoAffinity, r2).Ok? && a in r1 && b in r2
    ensures Extended(host, HostCandidates(host)).Ok?
    ensures var p, q := BuiltPools(host, TopoAffinity, r1).value, BuiltPools(host, TopoAffinity, r2).value;
            var lists := Extended(host, HostCandidates(host)).value.0;
            && a in p && b in q && a in lists && b in lists
            && (a == b ==> p[a] == q[b])
            && (a < b && lists[a] == lists[b] && DuplicateFree(lists[a]) ==>
                  forall x, y :: x in p[a] && y in q[b] ==> x < y)
  {
    NoAffinity(host);
    VisibleShare(host, r1, a);
    VisibleShare(host, r2, b);
    CandidatesIncreasing(host, [], host.logic);
    var npus := HostCandidates(host);
    var lists := Extended(host, npus).value.0;
    if a < b && lists[a] == lists[b] && DuplicateFree(lists[a]) {
      SharesInOrder(npus, lists, a, b);
    }
  }

  lemma {:induction false} CandidatesIncreasing(host: Host, running: seq<Npu>, logic: seq<Npu>)
    requires Increasing(logic)
    ensures Increasing(Candidates(host, running, logic))
  {
    if logic != [] {
      var front, npu := logic[..|logic| - 1], logic[|logic| - 1];
      CandidatesIncreasing(host, running, front);
      var before := Candidates(host, running, front);
      forall k | 0 <= k < |before|
        ensures before[k] < npu
      {
        CandidatesAre(host, running, front, before[k]);
      }
    }
  }

  /** With slices, over all processes, a CPU serves one role of one NPU only. */
  lemma EachCpuServesOnce(host: Host, mode: Mode, r1: seq<Npu>, r2: seq<Npu>, a: Npu, x: Role, b: Npu, y: Role)
    requires UsesSlices(host, mode) && Delivered(host, r1) && Delivered(host, r2)
    requires BuiltPools(host, mode, r1).Ok? && BuiltPools(host, mode, r2).Ok?
    requires a in BuiltPools(host, mode, r1).value && b in BuiltPools(host, mode, r2).value && (a, x) != (b, y)
    ensures var p, q := BuiltPools(host, mode, r1).value[a], BuiltPools(host, mode, r2).value[b];
            |p| >= MIN_CPUS_PER_NPU && |q| >= MIN_CPUS_PER_NPU && NoCommon(CpusOf(p, x), CpusOf(q, y))
  {
    NoAffinity(host);
    var p, q := GlobalPools(host, r1).value[a], GlobalPools(host, r2).value[b];
    GlobalPoolIs(host, r1, a);
    GlobalPoolIs(host, r2, b);
    if a == b {
      CountIsHosts(host, r1);
      CountIsHosts(host, r2);
      SliceIncreasing(SortedSet(host.allowed), TotalNpus(host, r1), a);
      RolesApart(p, x, y);
    } else {
      GlobalPoolsDisjoint(host, r1, r2, a, b);
      RoleInPool(p, x);
      RoleInPool(q, y);
    }
  }

  lemma SliceIncreasing(cpus: seq<Cpu>, total: nat, id: nat)
    requires Increasing(cpus) && id < total
    ensures DuplicateFree(Slice(cpus, total, id))
  {
    SliceOrder(|cpus|, total, id, id + 1);
    SliceOrder(|cpus|, total, id + 1, total);
    SliceEnds(|cpus|, total);
  }

  predicate LargeEnough(pools: Pools, order: seq<Npu>) {
    forall k :: 0 <= k < |order| ==> order[k] in pools && |pools[order[k]]| >= MIN_CPUS_PER_NPU
  }

  /** The table of a role after giving each NPU its CPUs, in order. */
  function Assigned(was: Pools, pools: Pools, order: seq<Npu>, role: Role): Pools
    requires LargeEnough(pools, order)
  {
    if order == [] then was
    else
      var front, npu := order[..|order| - 1], order[|order| - 1];
      Assigned(was, pools, front, role)[npu := CpusOf(pools[npu], role)]
  }

  /** It holds the role's CPUs for the NPUs in the order, and is otherwise unchanged. */
  lemma {:induction false} AssignedAt(was: Pools, pools: Pools, order: seq<Npu>, role: Role, npu: Npu)
    requires LargeEnough(pools, order)
    ensures npu in Assigned(was, pools, order, role) <==> npu in was || npu in order
    ensures npu in order ==> Assigned(was, pools, order, role)[npu] == CpusOf(pools[npu], role)
    ensures npu in was && npu !in order ==> Assigned(was, pools, order, role)[npu] == was[npu]
  {
    if order != [] {
      var front, last := order[..|order| - 1], order[|order| - 1];
      assert order == front + [last];
      AssignedAt(was, pools, front, role, npu);
    }
  }

  lemma LargeEnoughStep(pools: Pools, order: seq<Npu>, k: nat)
    requires k < |order|
    ensures LargeEnough(pools, order[..k + 1])
            <==> LargeEnough(pools, order[..k]) && order[k] in pools && |pools[order[k]]| >= MIN_CPUS_PER_NPU
  {
    forall i | 0 <= i < k
      ensures order[..k + 1][i] == order[..k][i]
    {
    }
    assert order[..k + 1][k] == order[k];
  }

  lemma AssignedStep(was: Pools, pools: Pools, order: seq<Npu>, k: nat, role: Role)
    requires k < |order| && LargeEnough(pools, order[..k + 1]) && LargeEnough(pools, order[..k])
    requires order[k] in pools && |pools[order[k]]| >= MIN_CPUS_PER_NPU
    ensures Assigned(was, pools, order[..k + 1], role)
            == Assigned(was, pools, order[..k], role)[order[k] := CpusOf(pools[order[k]], role)]
  {
    assert order[..k + 1][..k] == order[..k];
  }

  // ---- early exits of the loops ----

  lemma {:induction false} SliceErrorStays(cpus: seq<Cpu>, total: nat, running: seq<Npu>, k: nat)
    requires k <= |running| && SlicePools(cpus, total, running[..k]).Err?
    ensures SlicePools(cpus, total, running) == SlicePools(cpus, total, running[..k])
    decreases |running|
  {
    if k < |running| {
      var front := running[..|running| - 1];
      assert front[..k] == running[..k];
      SliceErrorStays(cpus, total, front, k);
    } else {
      assert running[..k] == running;
    }
  }

  lemma {:induction false} ExtendedErrorStays(host: Host, npus: seq<Npu>, k: nat)
    requires |host.numa| > 0 && k <= |npus| && Extended(host, npus[..k]).Err?
    ensures Extended(host, npus) == Extended(host, npus[..k])
    decreases |npus|
  {
    if k < |npus| {
      var front := npus[..|npus| - 1];
      assert front[..k] == npus[..k];
      ExtendedErrorStays(host, front, k);
    } else {
      assert npus[..k] == npus;
    }
  }

  lemma VisibleIs(npus: seq<Npu>, pools: Pools, running: seq<Npu>, final: Pools)
    requires forall x :: x in npus ==> x in pools
    requires forall x :: x in final <==> x in npus
    requires forall x :: x in npus ==> final[x] == Share(npus, pools, x)
    ensures Visible(npus, pools, running)
            == if exists npu :: npu in running && npu !in final then Err(MissingKey)
               else Ok(map npu | npu in running :: final[npu])
  {
    if forall npu :: npu in running ==> npu in final {
      var visible := map npu | npu in running :: Share(npus, pools, npu);
      assert visible == map npu | npu in running :: final[npu];
    }
  }

  // ---- the loops over values ----

  method FilterAllowed(host: Host, cpus: seq<Cpu>) returns (r: seq<Cpu>)
    ensures r == Allowed(host, cpus)
  {
    r := [];
    for k := 0 to |cpus|
      invariant r == Allowed(host, cpus[..k])
    {
      assert cpus[..k + 1][..k] == cpus[..k];
      if cpus[k] in host.allowed {
        r := r + [cpus[k]];
      }
    }
    assert cpus[..|cpus|] == cpus;
  }

  method FindCandidates(host: Host, running: seq<Npu>) returns (r: seq<Npu>)
    ensures r == Candidates(host, running, host.logic)
  {
    r := [];
    for k := 0 to |host.logic|
      invariant r == Candidates(host, running, host.logic[..k])
    {
      assert host.logic[..k + 1][..k] == host.logic[..k];
      if host.logic[k] in running || Overlaps(host, host.logic[k]) {
        r := r + [host.logic[k]];
      }
    }
    assert host.logic[..|host.logic|] == host.logic;
  }

  /** The groups are those of these candidates, and the keys are their pools. */
  ghost predicate Grouped(npus: seq<Npu>, pools: Pools, keys: seq<seq<Cpu>>, groups: map<seq<Cpu>, seq<Npu>>)
    requires forall x :: x in npus ==> x in pools
  {
    && (forall p :: p in keys <==> p in groups)
    && (forall x :: x in npus ==> pools[x] in groups)
    && (forall p :: p in groups ==> groups[p] == Group(npus, pools, p) && groups[p] != [])
  }

  lemma GroupStep(npus: seq<Npu>, npu: Npu, pools: Pools, p: seq<Cpu>)
    requires npu in pools && forall x :: x in npus ==> x in pools
    ensures Group(npus + [npu], pools, p) == Group(npus, pools, p) + if pools[npu] == p then [npu] else []
    ensures Group(npus, pools, p) == [] <==> forall x :: x in npus ==> pools[x] != p
  {
    assert (npus + [npu])[..|npus|] == npus;
    var group := Group(npus, pools, p);
    if group != [] {
      var x := group[0];
      assert x in group;
      assert x in npus && pools[x] == p;
    } else {
      forall x | x in npus
        ensures pools[x] != p
      {
        assert x !in group;
      }
    }
  }

  method AddToGroup(npus: seq<Npu>, npu: Npu, pools: Pools, keys: seq<seq<Cpu>>, groups: map<seq<Cpu>, seq<Npu>>)
    returns (keys': seq<seq<Cpu>>, groups': map<seq<Cpu>, seq<Npu>>)
    requires npu in pools && (forall x :: x in npus ==> x in pools) && Grouped(npus, pools, keys, groups)
    ensures Grouped(npus + [npu], pools, keys', groups')
  {
    var pool := pools[npu];
    forall p
      ensures Group(npus + [npu], pools, p) == Group(npus, pools, p) + if pools[npu] == p then [npu] else []
      ensures Group(npus, pools, p) == [] <==> forall x :: x in npus ==> pools[x] != p
    {
      GroupStep(npus, npu, pools, p);
    }
    if pool in groups {
      keys', groups' := keys, groups[pool := groups[pool] + [npu]];
    } else {
      keys', groups' := keys + [pool], groups[pool := [npu]];
    }
    forall x | x in npus + [npu]
      ensures pools[x] in groups'
    {
      assert x in npus || x == npu;
    }
    forall p | p in groups'
      ensures groups'[p] == Group(npus + [npu], pools, p) && groups'[p] != []
    {
      assert p == pool || p in groups;
      assert p !in groups ==> Group(npus, pools, p) == [];
    }
  }

  /** The candidates by pool; keys lists the pools in the order they first occur. */
  method GroupByPool(npus: seq<Npu>, pools: Pools)
    returns (keys: seq<seq<Cpu>>, groups: map<seq<Cpu>, seq<Npu>>)
    requires forall x :: x in npus ==> x in pools
    ensures Grouped(npus, pools, keys, groups)
  {
    keys, groups := [], map[];
    for k := 0 to |npus|
      invariant Grouped(npus[..k], pools, keys, groups)
    {
      assert npus[k] in npus;
      assert npus[..k + 1] == npus[..k] + [npus[k]];
      keys, groups := AddToGroup(npus[..k], npus[k], pools, keys, groups);
    }
    assert npus[..|npus|] == npus;
  }

  /** average_distribute, for one group */
  method AverageDistribute(pool: seq<Cpu>, group: seq<Npu>) returns (result: Pools)
    requires group != [] && DuplicateFree(group)
    ensures forall x :: x in result <==> x in group
    ensures forall i :: 0 <= i < |group| ==> group[i] in result && result[group[i]] == Part(Sorted(pool), |group|, i)
  {
    var cpus := Sorted(pool);
    var width := |cpus| / |group|;
    result := map[];
    for i := 0 to |group|
      invariant forall x :: x in result <==> x in group[..i]
      invariant forall j :: 0 <= j < i ==> group[j] in result && result[group[j]] == Part(cpus, |group|, j)
    {
      PartBounds(|cpus|, |group|, i);
      var start, end := i * width, if i < |group| - 1 then (i + 1) * width else |cpus|;
      assert group[..i + 1] == group[..i] + [group[i]];
      result := result[group[i] := cpus[start..end]];
    }
    assert group[..|group|] == group;
  }

  method DistributeGroups(npus: seq<Npu>, pools: Pools) returns (final: Pools)
    requires DuplicateFree(npus) && forall x :: x in npus ==> x in pools
    ensures forall x :: x in final <==> x in npus
    ensures forall x :: x in npus ==> final[x] == Share(npus, pools, x)
  {
    var keys, groups := GroupByPool(npus, pools);
    final := map[];
    for k := 0 to |keys|
      invariant forall x :: x in final ==> x in npus && final[x] == Share(npus, pools, x)
      invariant forall x :: x in npus && pools[x] in keys[..k] ==> x in final
    {
      var pool := keys[k];
      assert keys[..k + 1] == keys[..k] + [pool];
      var group := groups[pool];
      GroupDuplicateFree(npus, pools, pool);
      var part: Pools;
      if |group| == 1 {
        part := map[group[0] := pools[group[0]]];
      } else {
        part := AverageDistribute(pool, group);
      }
      forall x | x in group
        ensures x in part && part[x] == Share(npus, pools, x)
      {
        IndexOf(group, Index(group, x));
      }
      final := final + part;
    }
    assert keys[..|keys|] == keys;
  }

  // ---- the object ----

  class CpuAlloc {
    const host: Host
    const running: seq<Npu>
    var numa: Numa
    var npuCpuPool: Pools
    var assignMain: Pools
    var assignAcl: Pools
    var assignRel: Pools

    constructor (host: Host, running: seq<Npu>)
      ensures this.host == host && this.running == running && numa == host.numa
      ensures npuCpuPool == assignMain == assignAcl == assignRel == map[]
    {
      this.host, this.running, numa := host, running, host.numa;
      npuCpuPool, assignMain, assignAcl, assignRel := map[], map[], map[], map[];
    }

    method BuildGlobalSliceCpuPool() returns (status: Result<(), Error>)
      requires npuCpuPool == map[]
      modifies this`npuCpuPool
      ensures status.Ok? ==> GlobalPools(host, running) == Ok(npuCpuPool)
      ensures status.Err? ==> GlobalPools(host, running) == Err(status.error)
    {
      var allowed := SortedSet(host.allowed);
      if running == [] || allowed == [] {
        return Ok(());
      }
      var total := TotalNpus(host, running);
      var base, extra := |allowed| / total, |allowed| % total;
      if base < MIN_CPUS_PER_NPU {
        return Err(InsufficientCpus);
      }
      for k := 0 to |running|
        invariant SlicePools(allowed, total, running[..k]) == Ok(npuCpuPool)
      {
        var npu := running[k];
        assert running[..k + 1][..k] == running[..k];
        if npu < 0 || npu >= total {
          SliceErrorStays(allowed, total, running, k + 1);
          return Err(InvalidNpu);
        }
        var slice := TakeSlice(allowed, total, base, extra, npu);
        npuCpuPool := npuCpuPool[npu := slice];
      }
      assert running[..|running|] == running;
      return Ok(());
    }

    static method TakeSlice(allowed: seq<Cpu>, total: nat, base: nat, extra: nat, id: nat) returns (slice: seq<Cpu>)
      requires id < total && base == |allowed| / total && extra == |allowed| % total
      ensures slice == Slice(allowed, total, id)
    {
      var start := id * base + if id < extra then id else extra;
      var end := start + base + if id < extra then 1 else 0;
      SliceStep(|allowed|, total, id);
      SliceOrder(|allowed|, total, id, id + 1);
      SliceOrder(|allowed|, total, id + 1, total);
      SliceEnds(|allowed|, total);
      slice := allowed[start..end];
    }

    /** extend_numa */
    method ExtendByNextNode(cpus: seq<Cpu>) returns (r: Result<seq<Cpu>, Error>)
      requires |numa| > 0
      modifies this`numa
      ensures r.Ok? ==> ExtendNuma(host, old(numa), cpus) == Ok((r.value, numa))
      ensures r.Err? ==> ExtendNuma(host, old(numa), cpus) == Err(r.error)
    {
      if cpus == [] {
        return Ok([]);
      }
      if exists c :: c in cpus && c !in host.cpuNode {
        return Err(MissingKey);
      }
      var nodes := set c | c in cpus :: host.cpuNode[c];
      var node := host.cpuNode[cpus[0]];
      assert forall c :: c in cpus ==> host.cpuNode[c] in nodes;
      assert cpus[0] in cpus;
      if nodes != {node} {
        return Ok(cpus);
      }
      var next := (node + 1) % |numa|;
      if next !in numa {
        numa := numa[next := []];
      }
      var more := FilterAllowed(host, numa[next]);
      return Ok(SortedSet(cpus + more));
    }

    method ExtendCandidates(npus: seq<Npu>) returns (status: Result<(), Error>)
      requires npuCpuPool == map[] && numa == host.numa && |numa| > 0
      modifies this`npuCpuPool, this`numa
      ensures status.Ok? ==> Extended(host, npus) == Ok((npuCpuPool, numa))
      ensures status.Err? ==> Extended(host, npus) == Err(status.error)
    {
      for k := 0 to |npus|
        invariant Extended(host, npus[..k]) == Ok((npuCpuPool, numa))
      {
        assert npus[..k + 1][..k] == npus[..k];
        var affinity := if npus[k] in host.affinity then host.affinity[npus[k]] else [];
        var cpus := FilterAllowed(host, affinity);
        if cpus == [] {
          ExtendedErrorStays(host, npus, k + 1);
          return Err(AffinityConflict);
        }
        var extended := ExtendByNextNode(cpus);
        if extended.Err? {
          ExtendedErrorStays(host, npus, k + 1);
          return Err(extended.error);
        }
        npuCpuPool := npuCpuPool[npus[k] := extended.value];
      }
      assert npus[..|npus|] == npus;
      return Ok(());
    }

    method BuildTopoCpuPools() returns (status: Result<(), Error>)
      requires npuCpuPool == map[] && numa == host.numa && |numa| > 0 && DuplicateFree(host.logic)
      modifies this`npuCpuPool, this`numa
      ensures status.Ok? ==> TopoPools(host, running) == Ok(npuCpuPool)
      ensures status.Err? ==> TopoPools(host, running) == Err(status.error)
    {
      var npus := FindCandidates(host, running);
      CandidatesDuplicateFree(host, running, host.logic);
      status := ExtendCandidates(npus);
      if status.Err? {
        return;
      }
      var final := DistributeGroups(npus, npuCpuPool);
      VisibleIs(npus, npuCpuPool, running, final);
      if exists npu :: npu in running && npu !in final {
        return Err(MissingKey);
      }
      npuCpuPool := map npu | npu in running :: final[npu];
    }

    method BuildCpuPools(mode: Mode) returns (status: Result<(), Error>)
      requires npuCpuPool == map[] && numa == host.numa && DuplicateFree(host.logic)
      modifies this`npuCpuPool, this`numa
      ensures status.Ok? ==> BuiltPools(host, mode, running) == Ok(npuCpuPool)
      ensures status.Err? ==> BuiltPools(host, mode, running) == Err(status.error)
    {
      if |numa| == 0 {
        return Err(NoNumaNode);
      }
      if mode == GlobalSlice || |host.affinity| == 0 {
        status := BuildGlobalSliceCpuPool();
      } else {
        status := BuildTopoCpuPools();
      }
    }

    /** Splits the pools in their order; a pool of fewer than five CPUs ends it. */
    method Allocate(order: seq<Npu>) returns (ok: bool)
      requires forall npu :: npu in order <==> npu in npuCpuPool
      modifies this`assignMain, this`assignAcl, this`assignRel
      ensures ok <==> forall npu :: npu in npuCpuPool ==> |npuCpuPool[npu]| >= 5
      ensures ok ==> LargeEnough(npuCpuPool, order)
      ensures ok ==> assignMain == Assigned(old(assignMain), npuCpuPool, order, Main)
      ensures ok ==> assignAcl == Assigned(old(assignAcl), npuCpuPool, order, Acl)
      ensures ok ==> assignRel == Assigned(old(assignRel), npuCpuPool, order, Release)
    {
      for k := 0 to |order|
        invariant LargeEnough(npuCpuPool, order[..k])
        invariant assignMain == Assigned(old(assignMain), npuCpuPool, order[..k], Main)
        invariant assignAcl == Assigned(old(assignAcl), npuCpuPool, order[..k], Acl)
        invariant assignRel == Assigned(old(assignRel), npuCpuPool, order[..k], Release)
      {
        var npu := order[k];
        var pool := npuCpuPool[npu];
        if |pool| < MIN_CPUS_PER_NPU {
          return false;
        }
        LargeEnoughStep(npuCpuPool, order, k);
        AssignedStep(old(assignMain), npuCpuPool, order, k, Main);
        AssignedStep(old(assignAcl), npuCpuPool, order, k, Acl);
        AssignedStep(old(assignRel), npuCpuPool, order, k, Release);
        var main, acl, rel := pool[2..|pool| - 2], [pool[|pool| - 2]], [pool[|pool| - 1]];
        assert main == CpusOf(pool, Main) && acl == CpusOf(pool, Acl) && rel == CpusOf(pool, Release);
        assignMain := assignMain[npu := main];
        assignAcl := assignAcl[npu := acl];
        assignRel := assignRel[npu := rel];
      }
      assert order[..|order|] == order;
      return true;
    }
  }
}
