// The allocator of one worker process: the tables it keeps and the loops that
// fill them.
module CpuAllocator {
  import opened Options
  import opened Collections
  import opened Sorting
  import opened CpuSlices
  import opened CpuRoles
  import opened CpuTopology

  // The pools of the NPUs in a list, by the sharing rule.
  ghost predicate FinalPools(out: map<int, seq<int>>, done: seq<int>, npus: seq<int>, pools: map<int, seq<int>>)
    requires forall i :: 0 <= i < |npus| ==> npus[i] in pools
  {
    forall npu :: npu in done ==> npu in npus && npu in pools && npu in out && out[npu] == FinalPool(npus, pools, npu)
  }

  ghost predicate Grouped(groups: map<seq<int>, seq<int>>, npus: seq<int>, pools: map<int, seq<int>>)
    requires forall i :: 0 <= i < |npus| ==> npus[i] in pools
  {
    && (forall i :: 0 <= i < |npus| ==> pools[npus[i]] in groups)
    && (forall key :: key in groups ==> groups[key] != [] && groups[key] == Members(npus, pools, key))
  }

  function Joined(groups: map<seq<int>, seq<int>>, key: seq<int>, npu: int): map<seq<int>, seq<int>> {
    groups[key := (if key in groups then groups[key] else []) + [npu]]
  }

  lemma {:induction false} JoinedGroups(groups: map<seq<int>, seq<int>>, npus: seq<int>, npu: int, all: seq<int>,
                                        pools: map<int, seq<int>>)
    requires forall i :: 0 <= i < |all| ==> all[i] in pools
    requires all == npus + [npu] && npu in pools
    requires forall i :: 0 <= i < |npus| ==> npus[i] in pools
    requires Grouped(groups, npus, pools)
    ensures Grouped(Joined(groups, pools[npu], npu), all, pools)
  {
    assert all[..|all| - 1] == npus;
    if pools[npu] !in groups {
      NoMembers(npus, pools, pools[npu]);
    }
  }

  lemma {:induction false} NoMembers(npus: seq<int>, pools: map<int, seq<int>>, key: seq<int>)
    requires forall i :: 0 <= i < |npus| ==> npus[i] in pools && pools[npus[i]] != key
    ensures Members(npus, pools, key) == []
  {
    if npus == [] {
    } else {
      NoMembers(npus[..|npus| - 1], pools, key);
    }
  }

  // Collects the NPUs by pool.
  method GroupByPool(npus: seq<int>, pools: map<int, seq<int>>) returns (groups: map<seq<int>, seq<int>>)
    requires forall i :: 0 <= i < |npus| ==> npus[i] in pools
    ensures Grouped(groups, npus, pools)
  {
    groups := map[];
    for i := 0 to |npus|
      invariant Grouped(groups, npus[..i], pools)
    {
      JoinedGroups(groups, npus[..i], npus[i], npus[..i + 1], pools);
      groups := Joined(groups, pools[npus[i]], npus[i]);
    }
    assert npus[..|npus|] == npus;
  }

  // Gives each NPU of one group its share; a group of one keeps its pool as it is.
  method ShareOut(group: seq<int>, pool: seq<int>, start: map<int, seq<int>>) returns (out: map<int, seq<int>>)
    requires |group| > 0 && NoRepeats(group)
    ensures forall i :: 0 <= i < |group| ==>
              group[i] in out && out[group[i]] == if |group| == 1 then pool else Share(Sort(pool, CPU), |group|, i)
    ensures forall npu :: npu in start && npu !in group ==> npu in out && out[npu] == start[npu]
  {
    if |group| == 1 {
      out := start[group[0] := pool];
      return;
    }
    var list := Sort(pool, CPU);
    out := start;
    for i := 0 to |group|
      invariant forall j :: 0 <= j < i ==> group[j] in out && out[group[j]] == Share(list, |group|, j)
      invariant forall npu :: npu in start && npu !in group ==> npu in out && out[npu] == start[npu]
    {
      out := out[group[i] := Share(list, |group|, i)];
    }
  }

  // Shares every group out.
  method Distribute(npus: seq<int>, pools: map<int, seq<int>>, groups: map<seq<int>, seq<int>>)
    returns (out: map<int, seq<int>>)
    requires forall i :: 0 <= i < |npus| ==> npus[i] in pools
    requires NoRepeats(npus) && Grouped(groups, npus, pools)
    ensures FinalPools(out, npus, npus, pools)
  {
    out := map[];
    var todo := groups.Keys;
    while todo != {}
      invariant todo <= groups.Keys
      invariant forall npu :: npu in npus && pools[npu] !in todo ==>
                  npu in out && out[npu] == FinalPool(npus, pools, npu)
      decreases todo
    {
      var key :| key in todo;
      var group := groups[key];
      MembersDistinct(npus, pools, key);
      ghost var before := out;
      out := ShareOut(group, key, out);
      forall npu | npu in npus && pools[npu] !in todo - {key}
        ensures npu in out && out[npu] == FinalPool(npus, pools, npu)
      {
        if pools[npu] == key {
          assert npu in group;
          IndexOfDistinct(group, IndexOf(group, npu));
        } else {
          assert npu !in group;
        }
      }
      todo := todo - {key};
    }
    forall npu | npu in npus ensures npu in out && out[npu] == FinalPool(npus, pools, npu) {
      assert pools[npu] !in todo;
    }
  }

  // Keeps the pools of the visible NPUs; a visible NPU without a pool is an error.
  method KeepVisible(running: seq<int>, npus: seq<int>, final: map<int, seq<int>>)
    returns (visible: map<int, seq<int>>, error: Option<Failure>)
    requires forall npu :: npu in npus ==> npu in final
    ensures error.None? <==> forall i :: 0 <= i < |running| ==> running[i] in npus
    ensures error.None? ==> forall npu :: npu in visible <==> npu in running
    ensures error.None? ==> forall npu :: npu in visible ==> npu in npus && visible[npu] == final[npu]
  {
    visible := map[];
    for i := 0 to |running|
      invariant forall j :: 0 <= j < i ==> running[j] in npus
      invariant forall npu :: npu in visible <==> npu in running[..i]
      invariant forall npu :: npu in visible ==> npu in npus && visible[npu] == final[npu]
    {
      var npu := running[i];
      assert running[..i + 1] == running[..i] + [npu];
      if npu !in npus {
        return visible, Some(MissingNpu(npu));
      }
      visible := visible[npu := final[npu]];
    }
    assert running[..|running|] == running;
    return visible, None;
  }

  lemma {:induction false} FirstUnknownAt(cpus: seq<int>, cpuNode: map<int, int>, i: nat)
    requires i < |cpus| && cpus[i] !in cpuNode && forall j :: 0 <= j < i ==> cpus[j] in cpuNode
    ensures FirstUnknown(cpus, cpuNode) == Some(cpus[i])
  {
    if i == 0 {
    } else {
      FirstUnknownAt(cpus[1..], cpuNode, i - 1);
    }
  }

  lemma {:induction false} OneNodeIff(cpus: seq<int>, cpuNode: map<int, int>, nodes: set<int>)
    requires cpus != [] && FirstUnknown(cpus, cpuNode).None?
    requires forall i :: 0 <= i < |cpus| ==> cpuNode[cpus[i]] in nodes
    requires forall n :: n in nodes ==> exists i :: 0 <= i < |cpus| && cpuNode[cpus[i]] == n
    ensures nodes == {cpuNode[cpus[0]]} <==> OneNode(cpus, cpuNode)
  {
    var node := cpuNode[cpus[0]];
    if nodes == {node} {
      forall i | 0 <= i < |cpus| ensures cpuNode[cpus[i]] == node {
        assert cpuNode[cpus[i]] in nodes;
      }
    }
    if OneNode(cpus, cpuNode) {
      SameSet(nodes, {node});
    }
  }

  // Planning by topology succeeds: every candidate has CPUs, all of them on known
  // nodes, and every visible NPU is a candidate.
  ghost predicate CanShare(info: DeviceInfo, cpuNode: map<int, int>, numa: Numa)
    requires |numa| > 0
  {
    && RawPools(Candidates(info, info.logicNpus), info, cpuNode, numa).Done?
    && forall i :: 0 <= i < |info.running| ==> info.running[i] in Candidates(info, info.logicNpus)
  }

  // The visible NPUs, and only they, have their topology pools.
  ghost predicate SharedResult(pools: map<int, seq<int>>, info: DeviceInfo, cpuNode: map<int, int>, numa: Numa)
    requires |numa| > 0
  {
    && (forall npu :: npu in pools <==> npu in info.running)
    && forall npu :: npu in pools ==> TopologyPool(info, cpuNode, numa, npu) == Done(pools[npu])
  }

  datatype Mode = TopoAffinity | GlobalSlice

  // The role lists of one NPU are those of its pool.
  ghost predicate Split(npu: int, pools: map<int, seq<int>>, main: map<int, seq<int>>, acl: map<int, seq<int>>,
                        rel: map<int, seq<int>>, reserveIrq: bool)
    requires npu in pools
  {
    && npu in main && npu in acl && npu in rel
    && SplitRoles(pools[npu], reserveIrq).Some?
    && var roles := SplitRoles(pools[npu], reserveIrq).value;
       main[npu] == roles.main && acl[npu] == roles.acl && rel[npu] == roles.rel
  }

  class CpuAlloc {
    const info: DeviceInfo
    const cpuNode: map<int, int>
    var numaToCpu: Numa
    var npuCpuPool: map<int, seq<int>>
    var assignMain: map<int, seq<int>>
    var assignAcl: map<int, seq<int>>
    var assignRel: map<int, seq<int>>

    constructor (info: DeviceInfo, cpuNode: map<int, int>, numa: Numa)
      ensures this.info == info && this.cpuNode == cpuNode && numaToCpu == numa
      ensures npuCpuPool == assignMain == assignAcl == assignRel == map[]
    {
      this.info, this.cpuNode, numaToCpu, npuCpuPool := info, cpuNode, numa, map[];
      assignMain, assignAcl, assignRel := map[], map[], map[];
    }

    // Whether a list lies on one node; fails on the first CPU without a known node.
    method OnOneNode(cpus: seq<int>) returns (r: Outcome<bool>)
      requires cpus != []
      ensures match FirstUnknown(cpus, cpuNode)
              case Some(c) => r == Raised(UnknownCpu(c))
              case None => r == Done(OneNode(cpus, cpuNode))
    {
      var nodes := {};
      for i := 0 to |cpus|
        invariant forall j :: 0 <= j < i ==> cpus[j] in cpuNode && cpuNode[cpus[j]] in nodes
        invariant forall n :: n in nodes ==> exists j :: 0 <= j < i && cpuNode[cpus[j]] == n
      {
        if cpus[i] !in cpuNode {
          FirstUnknownAt(cpus, cpuNode, i);
          return Raised(UnknownCpu(cpus[i]));
        }
        nodes := nodes + {cpuNode[cpus[i]]};
      }
      OneNodeIff(cpus, cpuNode, nodes);
      return Done(nodes == {cpuNode[cpus[0]]});
    }

    // Appends the CPUs this process may use.
    method AppendAllowed(cpus: seq<int>, more: seq<int>) returns (extended: seq<int>)
      ensures extended == cpus + AllowedOf(more, info.allowed)
    {
      extended := cpus;
      for i := 0 to |more|
        invariant extended == cpus + AllowedOf(more[..i], info.allowed)
      {
        assert more[..i + 1][..i] == more[..i];
        if more[i] in info.allowed {
          extended := extended + [more[i]];
        }
      }
      assert more[..|more|] == more;
    }

    // Adds the allowed CPUs of the next node to a list that lies on one node.
    method Extend(cpus: seq<int>) returns (r: Outcome<seq<int>>)
      requires |numaToCpu| > 0
      modifies this`numaToCpu
      ensures match ExtendNuma(cpus, cpuNode, old(numaToCpu), info.allowed)
              case Done(e) => r == Done(e.cpus) && numaToCpu == e.numa
              case Raised(f) => r == Raised(f) && numaToCpu == old(numaToCpu)
    {
      if cpus == [] {
        return Done([]);
      }
      var together := OnOneNode(cpus);
      if together.Raised? {
        return Raised(together.failure);
      }
      if !together.value {
        return Done(cpus);
      }
      var next := NextNode(cpus, cpuNode, numaToCpu);
      numaToCpu := Opened(numaToCpu, next);
      var extended := AppendAllowed(cpus, numaToCpu[next]);
      return Done(SortedSet(extended));
    }

    // The pool of one candidate, before sharing.
    method AddPool(npu: int) returns (error: Option<Failure>)
      requires |numaToCpu| > 0
      modifies this`npuCpuPool, this`numaToCpu
      ensures Nearby(info, npu) == [] ==> error == Some(AffinityConflict(npu))
      ensures Nearby(info, npu) != [] ==>
                match ExtendNuma(Nearby(info, npu), cpuNode, old(numaToCpu), info.allowed)
                case Raised(failure) => error == Some(failure)
                case Done(ext) =>
                  error.None? && npuCpuPool == old(npuCpuPool)[npu := ext.cpus] && numaToCpu == ext.numa
    {
      var base := Nearby(info, npu);
      if base == [] {
        return Some(AffinityConflict(npu));
      }
      var extended := Extend(base);
      if extended.Raised? {
        return Some(extended.failure);
      }
      npuCpuPool := npuCpuPool[npu := extended.value];
      return None;
    }

    // The pool of every candidate, before sharing.
    method BuildRawPools(npus: seq<int>) returns (error: Option<Failure>)
      requires |numaToCpu| > 0 && npuCpuPool == map[]
      modifies this`npuCpuPool, this`numaToCpu
      ensures var r := RawPools(npus, info, cpuNode, old(numaToCpu));
              if r.Done? then error.None? && npuCpuPool == r.value.pools && numaToCpu == r.value.numa
              else error == Some(r.failure)
    {
      ghost var numa := numaToCpu;
      for i := 0 to |npus|
        invariant |numaToCpu| > 0
        invariant RawPools(npus[..i], info, cpuNode, numa) == Done(PoolState(npuCpuPool, numaToCpu))
      {
        ghost var before := PoolState(npuCpuPool, numaToCpu);
        assert npus[..i + 1] == npus[..i] + [npus[i]];
        error := AddPool(npus[i]);
        if error.Some? {
          AddRawFailure(npus[..i], info, cpuNode, numa, before, npus[i]);
          FailureStays(npus, i + 1, info, cpuNode, numa);
          return;
        }
        AddRawPool(npus[..i], info, cpuNode, numa, before, npus[i], Nearby(info, npus[i]),
          Extended(npuCpuPool[npus[i]], numaToCpu));
      }
      assert npus[..|npus|] == npus;
      return None;
    }

    // Topology-affinity planning; keeps the pools of the visible NPUs only.
    method BuildTopologyPools() returns (error: Option<Failure>)
      requires |numaToCpu| > 0 && npuCpuPool == map[] && NoRepeats(info.logicNpus)
      modifies this`npuCpuPool, this`numaToCpu
      ensures error.None? <==>
                && RawPools(Candidates(info, info.logicNpus), info, cpuNode, old(numaToCpu)).Done?
                && forall i :: 0 <= i < |info.running| ==> info.running[i] in Candidates(info, info.logicNpus)
      ensures error.None? ==> forall npu :: npu in npuCpuPool <==> npu in info.running
      ensures error.None? ==> forall npu :: npu in npuCpuPool ==>
                TopologyPool(info, cpuNode, old(numaToCpu), npu) == Done(npuCpuPool[npu])
    {
      var npus := Candidates(info, info.logicNpus);
      CandidatesDistinct(info, info.logicNpus);
      error := BuildRawPools(npus);
      if error.Some? {
        return;
      }
      var groups := GroupByPool(npus, npuCpuPool);
      var final := Distribute(npus, npuCpuPool, groups);
      npuCpuPool, error := KeepVisible(info.running, npus, final);
    }

    // The pools by the mode of the device type; without a topology, slicing is the fallback.
    method BuildCpuPools(mode: Mode, reserveIrq: bool) returns (error: Option<Failure>)
      requires |numaToCpu| > 0 && npuCpuPool == map[] && NoRepeats(info.logicNpus)
      modifies this`npuCpuPool, this`numaToCpu
      ensures mode.GlobalSlice? || info.affinity == map[] ==>
                && (error.None? <==> CanSlice(info, MinCpus(reserveIrq)))
                && (error.None? ==> SlicedResult(npuCpuPool, info))
      ensures mode.TopoAffinity? && info.affinity != map[] ==>
                && (error.None? <==> CanShare(info, cpuNode, old(numaToCpu)))
                && (error.None? ==> SharedResult(npuCpuPool, info, cpuNode, old(numaToCpu)))
    {
      if mode.GlobalSlice? || info.affinity == map[] {
        npuCpuPool, error := BuildGlobalSlicePools(info, MinCpus(reserveIrq));
      } else {
        error := BuildTopologyPools();
      }
    }

    // Splits every pool into roles; fails exactly when some pool is too small.
    method Allocate(reserveIrq: bool) returns (error: Option<Failure>)
      modifies this`assignMain, this`assignAcl, this`assignRel
      ensures error.None? <==> forall npu :: npu in npuCpuPool ==> |npuCpuPool[npu]| >= MinCpus(reserveIrq)
      ensures error.None? ==> forall npu :: npu in npuCpuPool ==>
                Split(npu, npuCpuPool, assignMain, assignAcl, assignRel, reserveIrq)
    {
      var todo := npuCpuPool.Keys;
      while todo != {}
        invariant todo <= npuCpuPool.Keys
        invariant forall npu :: npu in npuCpuPool && npu !in todo ==>
                    Split(npu, npuCpuPool, assignMain, assignAcl, assignRel, reserveIrq)
        decreases todo
      {
        SomeMember(todo);
        var npu :| npu in todo;
        var split := SplitRoles(npuCpuPool[npu], reserveIrq);
        if split.None? {
          return Some(InsufficientCpus);
        }
        assignMain := assignMain[npu := split.value.main];
        assignAcl := assignAcl[npu := split.value.acl];
        assignRel := assignRel[npu := split.value.rel];
        todo := todo - {npu};
      }
      return None;
    }
  }
}
