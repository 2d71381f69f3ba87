// Topology-affinity pools: each NPU starts from the CPUs near it, NPUs with the
// same pool share it evenly, and what one process sees does not change the answer.
module CpuTopology {
  import opened Options
  import opened Arithmetic
  import opened Sorting
  import opened CpuSlices

  type Numa = map<int, seq<int>>

  datatype Outcome<+T> = Done(value: T) | Raised(failure: Failure)

  function AllowedOf(cpus: seq<int>, allowed: seq<int>): (r: seq<int>)
    ensures forall x :: x in r <==> x in cpus && x in allowed
  {
    if cpus == [] then []
    else
      var last := cpus[|cpus| - 1];
      assert cpus == cpus[..|cpus| - 1] + [last];
      AllowedOf(cpus[..|cpus| - 1], allowed) + if last in allowed then [last] else []
  }

  // The CPUs of an NPU's affinity that this process may use.
  function Nearby(info: DeviceInfo, npu: int): seq<int> {
    AllowedOf(if npu in info.affinity then info.affinity[npu] else [], info.allowed)
  }

  // The logical NPUs to plan for: the visible ones, and every other one whose
  // affinity meets this process's CPUs.
  function Candidates(info: DeviceInfo, npus: seq<int>): (r: seq<int>)
    ensures forall x :: x in r <==> x in npus && (x in info.running || Nearby(info, x) != [])
  {
    if npus == [] then []
    else
      var kept := if npus[0] in info.running || Nearby(info, npus[0]) != [] then [npus[0]] else [];
      kept + Candidates(info, npus[1..])
  }

  // --------------------------------------------------------- NUMA extension

  datatype Extended = Extended(cpus: seq<int>, numa: Numa)

  function FirstUnknown(cpus: seq<int>, cpuNode: map<int, int>): (r: Option<int>)
    ensures r.None? <==> forall i :: 0 <= i < |cpus| ==> cpus[i] in cpuNode
  {
    if cpus == [] then None else if cpus[0] !in cpuNode then Some(cpus[0]) else FirstUnknown(cpus[1..], cpuNode)
  }

  predicate OneNode(cpus: seq<int>, cpuNode: map<int, int>)
    requires FirstUnknown(cpus, cpuNode).None?
  {
    forall i :: 0 <= i < |cpus| ==> cpuNode[cpus[i]] == cpuNode[cpus[0]]
  }

  function NextNode(cpus: seq<int>, cpuNode: map<int, int>, numa: Numa): int
    requires |numa| > 0 && cpus != [] && FirstUnknown(cpus, cpuNode).None?
  {
    (cpuNode[cpus[0]] + 1) % |numa|
  }

  // The node table is a defaulting dictionary: asking it for a node it does not
  // list adds the node, and that changes how later lists find their next node.
  function Opened(numa: Numa, node: int): (r: Numa)
    ensures node in r && r[node] == (if node in numa then numa[node] else [])
    ensures forall n :: n != node ==> (n in r <==> n in numa) && (n in numa ==> r[n] == numa[n])
    ensures |r| > 0
  {
    var r := if node in numa then numa else numa[node := []];
    assert node in r.Keys;
    r
  }

  // Adds the allowed CPUs of the next node to a list that lies on one node.
  function ExtendNuma(cpus: seq<int>, cpuNode: map<int, int>, numa: Numa, allowed: seq<int>): (r: Outcome<Extended>)
    requires |numa| > 0
    ensures r.Done? ==> |r.value.numa| > 0
    ensures r.Done? && (forall x :: x in cpus ==> x in allowed) ==> forall x :: x in r.value.cpus ==> x in allowed
  {
    if cpus == [] then Done(Extended([], numa))
    else if FirstUnknown(cpus, cpuNode).Some? then Raised(UnknownCpu(FirstUnknown(cpus, cpuNode).value))
    else if !OneNode(cpus, cpuNode) then Done(Extended(cpus, numa))
    else
      var next := NextNode(cpus, cpuNode, numa);
      var table := Opened(numa, next);
      Done(Extended(SortedSet(cpus + AllowedOf(table[next], allowed)), table))
  }

  // What the extension holds: on one node, the list and the allowed CPUs of the
  // node after it, each once and in increasing order; on several, the list.
  lemma {:induction false} ExtensionHolds(cpus: seq<int>, cpuNode: map<int, int>, numa: Numa, allowed: seq<int>,
                                          node: int)
    requires |numa| > 0 && cpus != [] && forall i :: 0 <= i < |cpus| ==> cpus[i] in cpuNode
    requires node == cpuNode[cpus[0]]
    ensures ExtendNuma(cpus, cpuNode, numa, allowed).Done?
    ensures var r := ExtendNuma(cpus, cpuNode, numa, allowed).value.cpus;
            if exists i :: 0 <= i < |cpus| && cpuNode[cpus[i]] != node then r == cpus
            else
              && Increasing(r)
              && forall x :: x in r <==>
                   x in cpus || (x in allowed && (node + 1) % |numa| in numa && x in numa[(node + 1) % |numa|])
  {
    if OneNode(cpus, cpuNode) {
      var next := NextNode(cpus, cpuNode, numa);
      var added := AllowedOf(Opened(numa, next)[next], allowed);
      forall x ensures x in cpus + added <==> x in cpus || (x in allowed && next in numa && x in numa[next]) {
        assert x in added <==> x in Opened(numa, next)[next] && x in allowed;
      }
    }
  }

  // -------------------------------------------------------------- raw pools

  datatype PoolState = PoolState(pools: map<int, seq<int>>, numa: Numa)

  function RawPools(npus: seq<int>, info: DeviceInfo, cpuNode: map<int, int>, numa: Numa): (r: Outcome<PoolState>)
    requires |numa| > 0
    ensures r.Done? ==> |r.value.numa| > 0 && forall x :: x in r.value.pools <==> x in npus
  {
    if npus == [] then Done(PoolState(map[], numa))
    else
      var last := npus[|npus| - 1];
      assert npus == npus[..|npus| - 1] + [last];
      match RawPools(npus[..|npus| - 1], info, cpuNode, numa)
      case Raised(e) => Raised(e)
      case Done(st) =>
        if Nearby(info, last) == [] then Raised(AffinityConflict(last))
        else
          match ExtendNuma(Nearby(info, last), cpuNode, st.numa, info.allowed)
          case Raised(e) => Raised(e)
          case Done(ext) => Done(PoolState(st.pools[last := ext.cpus], ext.numa))
  }

  // Once planning has failed for a prefix, it has failed for the whole list.
  lemma {:induction false} FailureStays(npus: seq<int>, i: nat, info: DeviceInfo, cpuNode: map<int, int>, numa: Numa)
    requires |numa| > 0 && i <= |npus| && RawPools(npus[..i], info, cpuNode, numa).Raised?
    ensures RawPools(npus, info, cpuNode, numa) == RawPools(npus[..i], info, cpuNode, numa)
    decreases |npus| - i
  {
    if i == |npus| {
      assert npus[..i] == npus;
    } else {
      assert npus[..i + 1][..i] == npus[..i];
      FailureStays(npus, i + 1, info, cpuNode, numa);
    }
  }

  lemma {:induction false} RawPoolsNearby(npus: seq<int>, info: DeviceInfo, cpuNode: map<int, int>, numa: Numa)
    requires |numa| > 0 && RawPools(npus, info, cpuNode, numa).Done?
    ensures forall npu :: npu in npus ==> Nearby(info, npu) != []
  {
    if npus == [] {
    } else {
      var before, last := npus[..|npus| - 1], npus[|npus| - 1];
      assert npus == before + [last];
      RawPoolsNearby(before, info, cpuNode, numa);
    }
  }

  ghost predicate AllAllowed(pools: map<int, seq<int>>, allowed: seq<int>) {
    forall npu, x :: npu in pools && x in pools[npu] ==> x in allowed
  }

  lemma {:induction false} RawPoolsAllowed(npus: seq<int>, info: DeviceInfo, cpuNode: map<int, int>, numa: Numa)
    requires |numa| > 0 && RawPools(npus, info, cpuNode, numa).Done?
    ensures AllAllowed(RawPools(npus, info, cpuNode, numa).value.pools, info.allowed)
  {
    if npus == [] {
    } else {
      var before, last := npus[..|npus| - 1], npus[|npus| - 1];
      RawPoolsAllowed(before, info, cpuNode, numa);
      var st := RawPools(before, info, cpuNode, numa).value;
      assert forall x :: x in Nearby(info, last) ==> x in info.allowed;
      var ext := ExtendNuma(Nearby(info, last), cpuNode, st.numa, info.allowed).value;
      AddAllowed(st.pools, last, ext.cpus, info.allowed);
    }
  }

  lemma {:induction false} AddAllowed(pools: map<int, seq<int>>, npu: int, cpus: seq<int>, allowed: seq<int>)
    requires AllAllowed(pools, allowed) && forall x :: x in cpus ==> x in allowed
    ensures AllAllowed(pools[npu := cpus], allowed)
  {
  }

  // -------------------------------------------------------- sharing of pools

  // The NPUs, in order, whose pool is `key`.
  function Members(npus: seq<int>, pools: map<int, seq<int>>, key: seq<int>): (r: seq<int>)
    requires forall i :: 0 <= i < |npus| ==> npus[i] in pools
    ensures forall x :: x in r <==> x in npus && pools[x] == key
  {
    if npus == [] then []
    else
      var last := npus[|npus| - 1];
      assert npus == npus[..|npus| - 1] + [last];
      Members(npus[..|npus| - 1], pools, key) + if pools[last] == key then [last] else []
  }

  function ShareStart(n: nat, k: nat, i: nat): nat
    requires k > 0
  {
    if i < k then i * (n / k) else n
  }

  // The i-th of k shares of a list: equal shares, the remainder to the last.
  function Share(list: seq<int>, k: nat, i: nat): seq<int>
    requires i < k
  {
    ShareBounds(|list|, k, i);
    list[ShareStart(|list|, k, i)..ShareStart(|list|, k, i + 1)]
  }

  lemma {:induction false} ShareBounds(n: nat, k: nat, i: nat)
    requires i < k
    ensures 0 <= i * (n / k) <= (i + 1) * (n / k) <= n
    ensures n / k > 0 && i > 0 ==> 0 < i * (n / k) < n
    ensures ShareStart(n, k, i) <= ShareStart(n, k, i + 1) <= n
  {
    var c := n / k;
    assert n == k * c + n % k;
    MulMonotone(i + 1, k, c);
    MulMonotone(0, i, c);
    if i > 0 {
      MulMonotone(1, i, c);
    }
    assert (i + 1) * c == i * c + c;
  }

  ghost function Shares(list: seq<int>, k: nat, i: nat): seq<int>
    requires i <= k
  {
    if i == 0 then [] else Shares(list, k, i - 1) + Share(list, k, i - 1)
  }

  lemma {:induction false} SharesArePrefix(list: seq<int>, k: nat, i: nat)
    requires 0 < k && i <= k
    ensures ShareStart(|list|, k, i) <= |list|
    ensures Shares(list, k, i) == list[..ShareStart(|list|, k, i)]
  {
    if i == 0 {
    } else {
      SharesArePrefix(list, k, i - 1);
      ShareBounds(|list|, k, i - 1);
      PrefixGrows(list, ShareStart(|list|, k, i - 1), ShareStart(|list|, k, i));
    }
  }

  // The shares of a group, put together in order, are the group's whole list.
  lemma {:induction false} SharesCover(list: seq<int>, k: nat)
    requires 0 < k
    ensures Shares(list, k, k) == list
  {
    SharesArePrefix(list, k, k);
  }

  // Every share but the last has the same size; the last also gets the remainder.
  lemma {:induction false} ShareSizes(list: seq<int>, k: nat, i: nat)
    requires i < k
    ensures |Share(list, k, i)| == |list| / k + if i == k - 1 then |list| % k else 0
  {
    var c := |list| / k;
    ShareBounds(|list|, k, i);
    assert (i + 1) * c == i * c + c;
    assert |list| == k * c + |list| % k;
  }

  ghost predicate SharesDisjoint(list: seq<int>, k: nat) {
    forall i, j :: 0 <= i < j < k ==> DisjointCpus(Share(list, k, i), Share(list, k, j))
  }

  // No CPU number is repeated across the boundary between two shares.
  ghost predicate BoundariesDiffer(list: seq<int>, k: nat)
    requires k > 0
  {
    forall i :: 0 < i < k && |list| / k > 0 ==> BoundaryDiffers(list, i * (|list| / k))
  }

  ghost predicate BoundaryDiffers(list: seq<int>, m: int) {
    0 < m < |list| ==> list[m - 1] != list[m]
  }

  // The NPUs of a group get different CPUs exactly when no CPU number is repeated
  // across a share boundary of the sorted list.
  lemma {:induction false} SharesDisjointIff(list: seq<int>, k: nat)
    requires k > 0 && Sorted(list, CPU)
    ensures SharesDisjoint(list, k) <==> BoundariesDiffer(list, k)
  {
    var c := |list| / k;
    if BoundariesDiffer(list, k) {
      forall i, j | 0 <= i < j < k ensures DisjointCpus(Share(list, k, i), Share(list, k, j)) {
        DifferentBoundaryParts(list, k, i, j);
      }
    }
    if SharesDisjoint(list, k) {
      forall i | 0 < i < k && c > 0 ensures BoundaryDiffers(list, i * c) {
        AdjacentShares(list, k, i);
      }
    }
  }

  lemma {:induction false} DifferentBoundaryParts(list: seq<int>, k: nat, i: nat, j: nat)
    requires i < j < k && Sorted(list, CPU) && BoundariesDiffer(list, k)
    ensures DisjointCpus(Share(list, k, i), Share(list, k, j))
  {
    var c := |list| / k;
    ShareBounds(|list|, k, i);
    ShareBounds(|list|, k, j);
    ShareBounds(|list|, k, i + 1);
    MulMonotone(i + 1, j, c);
    if c > 0 {
      assert BoundaryDiffers(list, (i + 1) * c);
      StepUp(list, i * c, (i + 1) * c, j * c, ShareStart(|list|, k, j + 1));
    }
  }

  // Across a strict step in a sorted list nothing repeats.
  lemma {:induction false} StepUp(list: seq<int>, a: nat, m: nat, b: nat, e: nat)
    requires a <= m <= b <= e <= |list| && 0 < m < |list| && Sorted(list, CPU) && list[m - 1] != list[m]
    ensures DisjointCpus(list[a..m], list[b..e])
  {
    assert CPU(list[m - 1]) <= CPU(list[m]);
    forall x | x in list[a..m] ensures x !in list[b..e] {
      var i :| a <= i < m && list[i] == x;
      assert i < m - 1 ==> CPU(list[i]) <= CPU(list[m - 1]);
      forall j | b <= j < e ensures list[j] != x {
        assert m < j ==> CPU(list[m]) <= CPU(list[j]);
      }
    }
  }

  lemma {:induction false} AdjacentShares(list: seq<int>, k: nat, i: nat)
    requires 0 < i < k && |list| / k > 0 && SharesDisjoint(list, k)
    ensures BoundaryDiffers(list, i * (|list| / k))
  {
    var c := |list| / k;
    var m := i * c;
    ShareBounds(|list|, k, i - 1);
    ShareBounds(|list|, k, i);
    assert (i - 1) * c == m - c && (i + 1) * c == m + c;
    var left, right := Share(list, k, i - 1), Share(list, k, i);
    var x, y := left[c - 1], right[0];
    assert x == list[m - 1] && y == list[m];
    assert x in left && y in right;
    assert DisjointCpus(left, right);
  }

  // What an NPU finally gets: its own pool, or its share of the group's pool.
  function FinalPool(npus: seq<int>, pools: map<int, seq<int>>, npu: int): seq<int>
    requires forall i :: 0 <= i < |npus| ==> npus[i] in pools
    requires npu in npus && npu in pools
  {
    var group := Members(npus, pools, pools[npu]);
    if |group| == 1 then pools[npu]
    else Share(Sort(pools[npu], CPU), |group|, IndexOf(group, npu))
  }

  function IndexOf(s: seq<int>, x: int): (i: nat)
    requires x in s
    ensures i < |s| && s[i] == x && x !in s[..i]
  {
    if s[0] == x then 0 else
      assert s == [s[0]] + s[1..];
      var i := IndexOf(s[1..], x);
      assert s[..i + 1] == [s[0]] + s[1..][..i];
      i + 1
  }

  // The pools of a process, as a function of what it reads from the machine.
  function TopologyPool(info: DeviceInfo, cpuNode: map<int, int>, numa: Numa, npu: int): (r: Outcome<seq<int>>)
    requires |numa| > 0
  {
    var npus := Candidates(info, info.logicNpus);
    match RawPools(npus, info, cpuNode, numa)
    case Raised(e) => Raised(e)
    case Done(st) => if npu in npus then Done(FinalPool(npus, st.pools, npu)) else Raised(MissingNpu(npu))
  }

  // ------------------------------------------------- independence of visibility

  function Overlapping(info: DeviceInfo, npus: seq<int>): seq<int> {
    if npus == [] then []
    else (if Nearby(info, npus[0]) != [] then [npus[0]] else []) + Overlapping(info, npus[1..])
  }

  // When planning does not fail, the visible NPUs add nothing to the candidates.
  lemma {:induction false} CandidatesAreOverlapping(info: DeviceInfo, npus: seq<int>)
    requires forall npu :: npu in Candidates(info, npus) ==> Nearby(info, npu) != []
    ensures Candidates(info, npus) == Overlapping(info, npus)
  {
    if npus == [] {
    } else {
      var first, rest := npus[0], npus[1..];
      CandidatesStep(info, npus, first, rest);
      CandidatesAreOverlapping(info, rest);
    }
  }

  lemma {:induction false} CandidatesStep(info: DeviceInfo, npus: seq<int>, first: int, rest: seq<int>)
    requires npus != [] && first == npus[0] && rest == npus[1..]
    ensures forall npu :: npu in Candidates(info, rest) ==> npu in Candidates(info, npus)
    ensures Candidates(info, npus)
            == (if first in info.running || Nearby(info, first) != [] then [first] else []) + Candidates(info, rest)
    ensures first in info.running ==> first in Candidates(info, npus)
  {
    assert npus == [first] + rest;
  }

  // What two processes of one machine have in common.
  ghost predicate SameMachine(p: DeviceInfo, q: DeviceInfo) {
    SameElements(p.allowed, q.allowed) && p.affinity == q.affinity && p.logicNpus == q.logicNpus
  }

  lemma {:induction false} AllowedOfSame(cpus: seq<int>, a: seq<int>, b: seq<int>)
    requires SameElements(a, b)
    ensures AllowedOf(cpus, a) == AllowedOf(cpus, b)
  {
    if cpus == [] {
    } else {
      var last := cpus[|cpus| - 1];
      assert last in a <==> last in b;
      AllowedOfSame(cpus[..|cpus| - 1], a, b);
    }
  }

  lemma {:induction false} NearbySame(p: DeviceInfo, q: DeviceInfo, npu: int)
    requires SameMachine(p, q)
    ensures Nearby(p, npu) == Nearby(q, npu)
  {
    AllowedOfSame(if npu in p.affinity then p.affinity[npu] else [], p.allowed, q.allowed);
  }

  lemma {:induction false} OverlappingSame(p: DeviceInfo, q: DeviceInfo, npus: seq<int>)
    requires SameMachine(p, q)
    ensures Overlapping(p, npus) == Overlapping(q, npus)
  {
    if npus == [] {
    } else {
      NearbySame(p, q, npus[0]);
      OverlappingSame(p, q, npus[1..]);
    }
  }

  lemma {:induction false} ExtendNumaSame(cpus: seq<int>, cpuNode: map<int, int>, numa: Numa, a: seq<int>, b: seq<int>)
    requires |numa| > 0 && SameElements(a, b)
    ensures ExtendNuma(cpus, cpuNode, numa, a) == ExtendNuma(cpus, cpuNode, numa, b)
  {
    if cpus != [] && FirstUnknown(cpus, cpuNode).None? {
      var next := NextNode(cpus, cpuNode, numa);
      AllowedOfSame(Opened(numa, next)[next], a, b);
    }
  }

  lemma {:induction false} RawPoolsSame(npus: seq<int>, p: DeviceInfo, q: DeviceInfo, cpuNode: map<int, int>,
                                        numa: Numa)
    requires |numa| > 0 && SameMachine(p, q)
    ensures RawPools(npus, p, cpuNode, numa) == RawPools(npus, q, cpuNode, numa)
  {
    if npus == [] {
    } else {
      var before, last := npus[..|npus| - 1], npus[|npus| - 1];
      RawPoolsSame(before, p, q, cpuNode, numa);
      NearbySame(p, q, last);
      var st := RawPools(before, p, cpuNode, numa);
      if st.Done? {
        ExtendNumaSame(Nearby(p, last), cpuNode, st.value.numa, p.allowed, q.allowed);
      }
    }
  }

  lemma {:induction false} PlansAgree(p: DeviceInfo, q: DeviceInfo, cpuNode: map<int, int>, numa: Numa)
    requires |numa| > 0 && SameMachine(p, q)
    requires RawPools(Candidates(p, p.logicNpus), p, cpuNode, numa).Done?
    requires RawPools(Candidates(q, q.logicNpus), q, cpuNode, numa).Done?
    ensures Candidates(p, p.logicNpus) == Candidates(q, q.logicNpus)
    ensures RawPools(Candidates(p, p.logicNpus), p, cpuNode, numa)
            == RawPools(Candidates(q, q.logicNpus), q, cpuNode, numa)
  {
    RawPoolsNearby(Candidates(p, p.logicNpus), p, cpuNode, numa);
    RawPoolsNearby(Candidates(q, q.logicNpus), q, cpuNode, numa);
    CandidatesAreOverlapping(p, p.logicNpus);
    CandidatesAreOverlapping(q, q.logicNpus);
    OverlappingSame(p, q, p.logicNpus);
    RawPoolsSame(Candidates(p, p.logicNpus), p, q, cpuNode, numa);
  }

  // Two processes that see different NPUs of one machine compute the same pool
  // for any NPU, whenever both get an answer.
  lemma {:induction false} PoolsIgnoreVisibility(p: DeviceInfo, q: DeviceInfo, cpuNode: map<int, int>, numa: Numa,
                                                 npu: int)
    requires |numa| > 0 && SameMachine(p, q)
    requires TopologyPool(p, cpuNode, numa, npu).Done? && TopologyPool(q, cpuNode, numa, npu).Done?
    ensures TopologyPool(p, cpuNode, numa, npu) == TopologyPool(q, cpuNode, numa, npu)
  {
    PlansAgree(p, q, cpuNode, numa);
  }

  // ------------------------------------------------------- contents of pools

  lemma {:induction false} SortSameElements(s: seq<int>, x: int)
    ensures x in Sort(s, CPU) <==> x in s
  {
    SortKeeps(s, CPU);
    assert x in Sort(s, CPU) <==> x in multiset(Sort(s, CPU));
    assert x in s <==> x in multiset(s);
  }

  lemma {:induction false} PartElements(list: seq<int>, i: nat, j: nat, x: int)
    requires i <= j <= |list| && x in list[i..j]
    ensures x in list
  {
  }

  lemma {:induction false} FinalPoolElements(npus: seq<int>, pools: map<int, seq<int>>, npu: int, x: int)
    requires forall i :: 0 <= i < |npus| ==> npus[i] in pools
    requires npu in npus && npu in pools && x in FinalPool(npus, pools, npu)
    ensures x in pools[npu]
  {
    var group := Members(npus, pools, pools[npu]);
    if |group| != 1 {
      var list, k, i := Sort(pools[npu], CPU), |group|, IndexOf(group, npu);
      ShareBounds(|list|, k, i);
      PartElements(list, ShareStart(|list|, k, i), ShareStart(|list|, k, i + 1), x);
      SortSameElements(pools[npu], x);
    }
  }

  // Every CPU of every pool is one this process may use.
  lemma {:induction false} PoolsStayAllowed(info: DeviceInfo, cpuNode: map<int, int>, numa: Numa, npu: int)
    requires |numa| > 0 && TopologyPool(info, cpuNode, numa, npu).Done?
    ensures forall x :: x in TopologyPool(info, cpuNode, numa, npu).value ==> x in info.allowed
  {
    var npus := Candidates(info, info.logicNpus);
    var pools := RawPools(npus, info, cpuNode, numa).value.pools;
    RawPoolsAllowed(npus, info, cpuNode, numa);
    forall x | x in TopologyPool(info, cpuNode, numa, npu).value ensures x in info.allowed {
      FinalPoolElements(npus, pools, npu, x);
    }
  }

  lemma {:induction false} CountOnce(s: seq<int>, x: int)
    requires NoRepeats(s)
    ensures multiset(s)[x] <= 1
  {
    if s == [] {
    } else {
      CountOnce(s[1..], x);
      assert s == [s[0]] + s[1..];
      assert s[0] == x ==> x !in s[1..];
    }
  }

  lemma {:induction false} CountTwice(s: seq<int>, i: nat, j: nat)
    requires i < j < |s| && s[i] == s[j]
    ensures multiset(s)[s[i]] >= 2
  {
    assert s == s[..i] + [s[i]] + s[i + 1..j] + [s[j]] + s[j + 1..];
  }

  lemma {:induction false} SortKeepsNoRepeats(s: seq<int>)
    requires NoRepeats(s)
    ensures NoRepeats(Sort(s, CPU))
  {
    var list := Sort(s, CPU);
    SortKeeps(s, CPU);
    forall i, j | 0 <= i < j < |list| ensures list[i] != list[j] {
      CountOnce(s, list[i]);
      if list[i] == list[j] {
        CountTwice(list, i, j);
      }
    }
  }

  lemma {:induction false} DistinctBoundaries(list: seq<int>, k: nat)
    requires k > 0 && NoRepeats(list)
    ensures BoundariesDiffer(list, k)
  {
  }

  lemma {:induction false} FinalPoolHasNoRepeats(npus: seq<int>, pools: map<int, seq<int>>, npu: int)
    requires forall i :: 0 <= i < |npus| ==> npus[i] in pools
    requires npu in npus && npu in pools && NoRepeats(pools[npu])
    ensures NoRepeats(FinalPool(npus, pools, npu))
  {
    var group := Members(npus, pools, pools[npu]);
    SortKeepsNoRepeats(pools[npu]);
    var list, k, i := Sort(pools[npu], CPU), |group|, IndexOf(group, npu);
    ShareBounds(|list|, k, i);
    PartHasNoRepeats(list, ShareStart(|list|, k, i), ShareStart(|list|, k, i + 1));
  }

  // The topology lists no CPU twice for an NPU.
  ghost predicate DistinctAffinity(info: DeviceInfo) {
    forall npu :: npu in info.affinity ==> NoRepeats(info.affinity[npu])
  }

  lemma {:induction false} AllowedOfHasNoRepeats(cpus: seq<int>, allowed: seq<int>)
    requires NoRepeats(cpus)
    ensures NoRepeats(AllowedOf(cpus, allowed))
  {
    if cpus == [] {
    } else {
      var before, last := cpus[..|cpus| - 1], cpus[|cpus| - 1];
      AllowedOfHasNoRepeats(before, allowed);
      assert last !in AllowedOf(before, allowed);
    }
  }

  lemma {:induction false} RawPoolsHaveNoRepeats(npus: seq<int>, info: DeviceInfo, cpuNode: map<int, int>, numa: Numa)
    requires |numa| > 0 && RawPools(npus, info, cpuNode, numa).Done? && DistinctAffinity(info)
    ensures var pools := RawPools(npus, info, cpuNode, numa).value.pools;
            forall npu :: npu in pools ==> NoRepeats(pools[npu])
  {
    if npus == [] {
    } else {
      var before, last := npus[..|npus| - 1], npus[|npus| - 1];
      RawPoolsHaveNoRepeats(before, info, cpuNode, numa);
      AllowedOfHasNoRepeats(if last in info.affinity then info.affinity[last] else [], info.allowed);
      ExtendNumaHasNoRepeats(Nearby(info, last), cpuNode, RawPools(before, info, cpuNode, numa).value.numa,
        info.allowed);
    }
  }

  lemma {:induction false} ExtendNumaHasNoRepeats(cpus: seq<int>, cpuNode: map<int, int>, numa: Numa, allowed: seq<int>)
    requires |numa| > 0 && NoRepeats(cpus) && ExtendNuma(cpus, cpuNode, numa, allowed).Done?
    ensures NoRepeats(ExtendNuma(cpus, cpuNode, numa, allowed).value.cpus)
  {
  }

  lemma {:induction false} TopologyPoolHasNoRepeats(info: DeviceInfo, cpuNode: map<int, int>, numa: Numa, npu: int)
    requires |numa| > 0 && DistinctAffinity(info) && TopologyPool(info, cpuNode, numa, npu).Done?
    ensures NoRepeats(TopologyPool(info, cpuNode, numa, npu).value)
  {
    var npus := Candidates(info, info.logicNpus);
    RawPoolsHaveNoRepeats(npus, info, cpuNode, numa);
    FinalPoolHasNoRepeats(npus, RawPools(npus, info, cpuNode, numa).value.pools, npu);
  }

  lemma {:induction false} MembersDistinct(npus: seq<int>, pools: map<int, seq<int>>, key: seq<int>)
    requires forall i :: 0 <= i < |npus| ==> npus[i] in pools
    requires NoRepeats(npus)
    ensures NoRepeats(Members(npus, pools, key))
  {
    if npus == [] {
    } else {
      var before, last := npus[..|npus| - 1], npus[|npus| - 1];
      MembersDistinct(before, pools, key);
      assert last !in before;
      assert last !in Members(before, pools, key);
    }
  }

  lemma {:induction false} IndexOfDistinct(s: seq<int>, i: nat)
    requires i < |s| && NoRepeats(s)
    ensures IndexOf(s, s[i]) == i
  {
  }

  lemma {:induction false} InSomeShare(list: seq<int>, k: nat, i: nat, x: int)
    requires 0 < k && i <= k && x in Shares(list, k, i)
    ensures exists j :: 0 <= j < i && x in Share(list, k, j)
  {
    if x in Shares(list, k, i - 1) {
      InSomeShare(list, k, i - 1, x);
    }
  }

  // No CPU of a group's pool is lost: each goes to some NPU of the group.
  lemma {:induction false} GroupCovers(npus: seq<int>, pools: map<int, seq<int>>, key: seq<int>, x: int)
    requires NoRepeats(npus) && forall i :: 0 <= i < |npus| ==> npus[i] in pools
    requires Members(npus, pools, key) != [] && x in key
    ensures exists npu :: npu in npus && pools[npu] == key && x in FinalPool(npus, pools, npu)
  {
    var group := Members(npus, pools, key);
    var list, k := Sort(key, CPU), |group|;
    SortSameElements(key, x);
    SharesCover(list, k);
    InSomeShare(list, k, k, x);
    var j :| 0 <= j < k && x in Share(list, k, j);
    MembersDistinct(npus, pools, key);
    IndexOfDistinct(group, j);
    var npu := group[j];
    assert npu in group;
    assert x in FinalPool(npus, pools, npu);
  }

  lemma {:induction false} CandidatesDistinct(info: DeviceInfo, npus: seq<int>)
    requires NoRepeats(npus)
    ensures NoRepeats(Candidates(info, npus))
  {
    if npus == [] {
    } else {
      CandidatesDistinct(info, npus[1..]);
      assert npus[0] !in npus[1..];
      assert npus[0] !in Candidates(info, npus[1..]);
    }
  }

  // ------------------------------------------- conflicts within an affinity group

  // The NPUs planned with the same pool as a.
  ghost function Group(info: DeviceInfo, cpuNode: map<int, int>, numa: Numa, a: int): seq<int>
    requires |numa| > 0 && TopologyPool(info, cpuNode, numa, a).Done?
  {
    var npus := Candidates(info, info.logicNpus);
    var pools := RawPools(npus, info, cpuNode, numa).value.pools;
    Members(npus, pools, pools[a])
  }

  // The pool that the group of a shares.
  ghost function GroupPool(info: DeviceInfo, cpuNode: map<int, int>, numa: Numa, a: int): seq<int>
    requires |numa| > 0 && TopologyPool(info, cpuNode, numa, a).Done?
  {
    RawPools(Candidates(info, info.logicNpus), info, cpuNode, numa).value.pools[a]
  }

  // A group of one, or no CPU number repeated across a share boundary.
  ghost predicate SharesApart(pool: seq<int>, k: nat)
    requires k > 0
  {
    k == 1 || BoundariesDiffer(Sort(pool, CPU), k)
  }

  lemma {:induction false} MemberShare(npus: seq<int>, pools: map<int, seq<int>>, key: seq<int>, i: nat)
    requires NoRepeats(npus) && forall j :: 0 <= j < |npus| ==> npus[j] in pools
    requires i < |Members(npus, pools, key)| && |Members(npus, pools, key)| > 1
    ensures var group := Members(npus, pools, key);
            && group[i] in npus && pools[group[i]] == key
            && FinalPool(npus, pools, group[i]) == Share(Sort(key, CPU), |group|, i)
  {
    var group := Members(npus, pools, key);
    MembersDistinct(npus, pools, key);
    IndexOfDistinct(group, i);
    var npu := group[i];
    assert npu in group;
  }

  ghost predicate MembersApart(npus: seq<int>, pools: map<int, seq<int>>, key: seq<int>)
    requires forall j :: 0 <= j < |npus| ==> npus[j] in pools
  {
    forall b, c :: b in npus && c in npus && pools[b] == key && pools[c] == key && b != c ==>
      DisjointCpus(FinalPool(npus, pools, b), FinalPool(npus, pools, c))
  }

  lemma {:induction false} MembersApartIff(npus: seq<int>, pools: map<int, seq<int>>, key: seq<int>)
    requires NoRepeats(npus) && forall j :: 0 <= j < |npus| ==> npus[j] in pools
    requires Members(npus, pools, key) != []
    ensures MembersApart(npus, pools, key) <==> SharesApart(key, |Members(npus, pools, key)|)
  {
    var group := Members(npus, pools, key);
    var list, k := Sort(key, CPU), |group|;
    if k == 1 {
      OneMemberApart(npus, pools, key);
    } else {
      SortKeeps(key, CPU);
      SharesDisjointIff(list, k);
      if MembersApart(npus, pools, key) {
        forall i, j | 0 <= i < j < k ensures DisjointCpus(Share(list, k, i), Share(list, k, j)) {
          MembersDistinct(npus, pools, key);
          MemberShare(npus, pools, key, i);
          MemberShare(npus, pools, key, j);
        }
      }
      if SharesDisjoint(list, k) {
        SharesSeparateMembers(npus, pools, key);
      }
    }
  }

  lemma {:induction false} OneMemberApart(npus: seq<int>, pools: map<int, seq<int>>, key: seq<int>)
    requires forall j :: 0 <= j < |npus| ==> npus[j] in pools
    requires |Members(npus, pools, key)| == 1
    ensures MembersApart(npus, pools, key)
  {
    var group := Members(npus, pools, key);
    forall b, c | b in npus && c in npus && pools[b] == key && pools[c] == key ensures b == c {
      assert b in group && c in group;
    }
  }

  lemma {:induction false} SharesSeparateMembers(npus: seq<int>, pools: map<int, seq<int>>, key: seq<int>)
    requires NoRepeats(npus) && forall j :: 0 <= j < |npus| ==> npus[j] in pools
    requires |Members(npus, pools, key)| > 1 && SharesDisjoint(Sort(key, CPU), |Members(npus, pools, key)|)
    ensures MembersApart(npus, pools, key)
  {
    var group := Members(npus, pools, key);
    forall b, c | b in npus && c in npus && pools[b] == key && pools[c] == key && b != c
      ensures DisjointCpus(FinalPool(npus, pools, b), FinalPool(npus, pools, c))
    {
      assert b in group && c in group;
      var i, j := IndexOf(group, b), IndexOf(group, c);
      MemberShare(npus, pools, key, i);
      MemberShare(npus, pools, key, j);
      if j < i {
        assert DisjointCpus(Share(Sort(key, CPU), |group|, j), Share(Sort(key, CPU), |group|, i));
      }
    }
  }

  // Any two NPUs of the group of a get different CPUs, planned in p and in q.
  ghost predicate GroupApart(p: DeviceInfo, q: DeviceInfo, cpuNode: map<int, int>, numa: Numa, a: int)
    requires |numa| > 0 && TopologyPool(p, cpuNode, numa, a).Done? && TopologyPool(q, cpuNode, numa, a).Done?
  {
    forall b, c :: b in Group(p, cpuNode, numa, a) && c in Group(p, cpuNode, numa, a) && b != c ==>
      && TopologyPool(p, cpuNode, numa, b).Done? && TopologyPool(q, cpuNode, numa, c).Done?
      && DisjointCpus(TopologyPool(p, cpuNode, numa, b).value, TopologyPool(q, cpuNode, numa, c).value)
  }

  // Different NPUs of one affinity group get different CPUs, in any two processes
  // of the machine, if and only if the group has one NPU or no CPU number is
  // repeated across a share boundary of the group's sorted pool.
  lemma {:induction false} NeighboursNeverConflictIff(p: DeviceInfo, q: DeviceInfo, cpuNode: map<int, int>,
                                                      numa: Numa, a: int)
    requires |numa| > 0 && SameMachine(p, q) && NoRepeats(p.logicNpus)
    requires TopologyPool(p, cpuNode, numa, a).Done? && TopologyPool(q, cpuNode, numa, a).Done?
    ensures Group(p, cpuNode, numa, a) != []
    ensures GroupApart(p, q, cpuNode, numa, a)
            <==> SharesApart(GroupPool(p, cpuNode, numa, a), |Group(p, cpuNode, numa, a)|)
  {
    PlansAgree(p, q, cpuNode, numa);
    CandidatesDistinct(p, p.logicNpus);
    var npus := Candidates(p, p.logicNpus);
    PlanApartIff(p, q, cpuNode, numa, a, npus, RawPools(npus, p, cpuNode, numa).value.pools);
  }

  lemma {:induction false} PlanApartIff(p: DeviceInfo, q: DeviceInfo, cpuNode: map<int, int>, numa: Numa, a: int,
                                        npus: seq<int>, pools: map<int, seq<int>>)
    requires |numa| > 0 && TopologyPool(p, cpuNode, numa, a).Done? && TopologyPool(q, cpuNode, numa, a).Done?
    requires npus == Candidates(p, p.logicNpus) == Candidates(q, q.logicNpus) && NoRepeats(npus)
    requires RawPools(npus, p, cpuNode, numa) == RawPools(npus, q, cpuNode, numa)
    requires pools == RawPools(npus, p, cpuNode, numa).value.pools
    ensures Members(npus, pools, pools[a]) != []
    ensures GroupApart(p, q, cpuNode, numa, a) <==> SharesApart(pools[a], |Members(npus, pools, pools[a])|)
  {
    OwnGroup(npus, pools, a);
    MembersApartIff(npus, pools, pools[a]);
    if MembersApart(npus, pools, pools[a]) {
      MembersGiveGroup(p, q, cpuNode, numa, a, npus, pools);
    }
    if GroupApart(p, q, cpuNode, numa, a) {
      GroupGivesMembers(p, q, cpuNode, numa, a, npus, pools);
    }
  }

  lemma {:induction false} OwnGroup(npus: seq<int>, pools: map<int, seq<int>>, a: int)
    requires (forall j :: 0 <= j < |npus| ==> npus[j] in pools) && a in npus && a in pools
    ensures a in Members(npus, pools, pools[a]) && Members(npus, pools, pools[a]) != []
  {
  }

  lemma {:induction false} PlannedPool(info: DeviceInfo, cpuNode: map<int, int>, numa: Numa, npus: seq<int>,
                                       pools: map<int, seq<int>>, npu: int)
    requires |numa| > 0 && npus == Candidates(info, info.logicNpus) && RawPools(npus, info, cpuNode, numa).Done?
    requires pools == RawPools(npus, info, cpuNode, numa).value.pools && npu in npus
    ensures TopologyPool(info, cpuNode, numa, npu) == Done(FinalPool(npus, pools, npu))
  {
  }

  // Two processes that plan the same pools.
  ghost predicate SamePlans(p: DeviceInfo, q: DeviceInfo, cpuNode: map<int, int>, numa: Numa, npus: seq<int>,
                            pools: map<int, seq<int>>)
    requires |numa| > 0
  {
    && npus == Candidates(p, p.logicNpus) == Candidates(q, q.logicNpus)
    && RawPools(npus, p, cpuNode, numa) == RawPools(npus, q, cpuNode, numa)
    && RawPools(npus, p, cpuNode, numa).Done? && pools == RawPools(npus, p, cpuNode, numa).value.pools
    && forall j :: 0 <= j < |npus| ==> npus[j] in pools
  }

  lemma {:induction false} PairApart(p: DeviceInfo, q: DeviceInfo, cpuNode: map<int, int>, numa: Numa, npus: seq<int>,
                                     pools: map<int, seq<int>>, b: int, c: int)
    requires |numa| > 0 && SamePlans(p, q, cpuNode, numa, npus, pools) && b in npus && c in npus
    ensures TopologyPool(p, cpuNode, numa, b) == Done(FinalPool(npus, pools, b))
    ensures TopologyPool(q, cpuNode, numa, c) == Done(FinalPool(npus, pools, c))
  {
    PlannedPool(p, cpuNode, numa, npus, pools, b);
    PlannedPool(q, cpuNode, numa, npus, pools, c);
  }

  lemma {:induction false} MembersGiveGroup(p: DeviceInfo, q: DeviceInfo, cpuNode: map<int, int>, numa: Numa, a: int,
                                            npus: seq<int>, pools: map<int, seq<int>>)
    requires |numa| > 0 && SamePlans(p, q, cpuNode, numa, npus, pools)
    requires TopologyPool(p, cpuNode, numa, a).Done? && TopologyPool(q, cpuNode, numa, a).Done?
    requires MembersApart(npus, pools, pools[a])
    ensures GroupApart(p, q, cpuNode, numa, a)
  {
    var group := Group(p, cpuNode, numa, a);
    forall b, c | b in group && c in group && b != c
      ensures TopologyPool(p, cpuNode, numa, b).Done? && TopologyPool(q, cpuNode, numa, c).Done?
      ensures DisjointCpus(TopologyPool(p, cpuNode, numa, b).value, TopologyPool(q, cpuNode, numa, c).value)
    {
      PairApart(p, q, cpuNode, numa, npus, pools, b, c);
    }
  }

  lemma {:induction false} GroupGivesMembers(p: DeviceInfo, q: DeviceInfo, cpuNode: map<int, int>, numa: Numa, a: int,
                                             npus: seq<int>, pools: map<int, seq<int>>)
    requires |numa| > 0 && SamePlans(p, q, cpuNode, numa, npus, pools)
    requires TopologyPool(p, cpuNode, numa, a).Done? && TopologyPool(q, cpuNode, numa, a).Done?
    requires GroupApart(p, q, cpuNode, numa, a)
    ensures MembersApart(npus, pools, pools[a])
  {
    var group := Group(p, cpuNode, numa, a);
    forall b, c | b in npus && c in npus && pools[b] == pools[a] && pools[c] == pools[a] && b != c
      ensures DisjointCpus(FinalPool(npus, pools, b), FinalPool(npus, pools, c))
    {
      assert b in group && c in group;
      PairApart(p, q, cpuNode, numa, npus, pools, b, c);
    }
  }

  // A topology that lists no CPU twice for an NPU keeps every group apart.
  lemma {:induction false} DistinctAffinityIsApart(info: DeviceInfo, cpuNode: map<int, int>, numa: Numa, a: int)
    requires |numa| > 0 && DistinctAffinity(info) && TopologyPool(info, cpuNode, numa, a).Done?
    requires Group(info, cpuNode, numa, a) != []
    ensures SharesApart(GroupPool(info, cpuNode, numa, a), |Group(info, cpuNode, numa, a)|)
  {
    RawPoolsHaveNoRepeats(Candidates(info, info.logicNpus), info, cpuNode, numa);
    var pool := GroupPool(info, cpuNode, numa, a);
    SortKeepsNoRepeats(pool);
    DistinctBoundaries(Sort(pool, CPU), |Group(info, cpuNode, numa, a)|);
  }

  lemma {:induction false} SortedStays(list: seq<int>)
    requires Sorted(list, CPU)
    ensures Sort(list, CPU) == list
  {
    SortKeeps(list, CPU);
    SortedIsUnique(Sort(list, CPU), list, CPU);
  }

  // A CPU number on both sides of a share boundary goes to both NPUs.
  lemma {:induction false} BoundaryRepeatIsShared(list: seq<int>, k: nat, i: nat, m: nat)
    requires 0 < i < k && |list| / k > 0 && m == i * (|list| / k)
    ensures 0 < m < |list|
    ensures list[m - 1] == list[m] ==> list[m] in Share(list, k, i - 1) && list[m] in Share(list, k, i)
  {
    var c := |list| / k;
    ShareBounds(|list|, k, i - 1);
    ShareBounds(|list|, k, i);
    assert (i - 1) * c == m - c && (i + 1) * c == m + c;
    var left, right := Share(list, k, i - 1), Share(list, k, i);
    assert left[c - 1] == list[m - 1] && right[0] == list[m];
  }

  lemma {:induction false} AllAllowedStay(cpus: seq<int>, allowed: seq<int>)
    requires forall i :: 0 <= i < |cpus| ==> cpus[i] in allowed
    ensures AllowedOf(cpus, allowed) == cpus
  {
    if cpus == [] {
    } else {
      var before, last := cpus[..|cpus| - 1], cpus[|cpus| - 1];
      AllAllowedStay(before, allowed);
      OneMoreAllowed(cpus, allowed, before, last);
    }
  }

  lemma {:induction false} OneMoreAllowed(cpus: seq<int>, allowed: seq<int>, before: seq<int>, last: int)
    requires cpus != [] && before == cpus[..|cpus| - 1] && last == cpus[|cpus| - 1] && last in allowed
    ensures AllowedOf(cpus, allowed) == AllowedOf(before, allowed) + [last] && cpus == before + [last]
  {
  }

  // Two NPUs with one allowed affinity list that spans several nodes.
  ghost predicate SpreadPair(info: DeviceInfo, cpuNode: map<int, int>, a: int, b: int, list: seq<int>) {
    && a != b && info.logicNpus == [a, b]
    && a in info.affinity && b in info.affinity && info.affinity[a] == info.affinity[b] == list
    && (forall i :: 0 <= i < |list| ==> list[i] in info.allowed && list[i] in cpuNode)
    && exists i, j :: 0 <= i < j < |list| && cpuNode[list[i]] != cpuNode[list[j]]
  }

  lemma {:induction false} SpreadPairPools(info: DeviceInfo, cpuNode: map<int, int>, numa: Numa, a: int, b: int,
                                           list: seq<int>)
    requires |numa| > 0 && SpreadPair(info, cpuNode, a, b, list)
    ensures Candidates(info, info.logicNpus) == [a, b]
    ensures RawPools([a, b], info, cpuNode, numa) == Done(PoolState(map[a := list, b := list], numa))
  {
    AllAllowedStay(list, info.allowed);
    PairCandidates(info, a, b);
    SpreadStays(list, cpuNode, numa, info.allowed);
    PairRawPools(info, cpuNode, numa, a, b, list);
  }

  lemma {:induction false} PairRawPools(info: DeviceInfo, cpuNode: map<int, int>, numa: Numa, a: int, b: int,
                                        list: seq<int>)
    requires |numa| > 0 && Nearby(info, a) == Nearby(info, b) == list != []
    requires ExtendNuma(list, cpuNode, numa, info.allowed) == Done(Extended(list, numa))
    ensures RawPools([a, b], info, cpuNode, numa) == Done(PoolState(map[a := list, b := list], numa))
  {
    AddRawPool([], info, cpuNode, numa, PoolState(map[], numa), a, list, Extended(list, numa));
    assert [] + [a] == [a];
    AddRawPool([a], info, cpuNode, numa, PoolState(map[a := list], numa), b, list, Extended(list, numa));
    assert [a] + [b] == [a, b];
  }

  lemma {:induction false} PairCandidates(info: DeviceInfo, a: int, b: int)
    requires info.logicNpus == [a, b] && Nearby(info, a) != [] && Nearby(info, b) != []
    ensures Candidates(info, info.logicNpus) == [a, b]
  {
    assert info.logicNpus[1..] == [b] && [b][1..] == [];
    assert Candidates(info, [b]) == [b];
  }

  // A list on several nodes is not extended.
  lemma {:induction false} SpreadStays(list: seq<int>, cpuNode: map<int, int>, numa: Numa, allowed: seq<int>)
    requires |numa| > 0 && forall i :: 0 <= i < |list| ==> list[i] in cpuNode
    requires exists i, j :: 0 <= i < j < |list| && cpuNode[list[i]] != cpuNode[list[j]]
    ensures ExtendNuma(list, cpuNode, numa, allowed) == Done(Extended(list, numa))
  {
    assert FirstUnknown(list, cpuNode).None?;
    assert !OneNode(list, cpuNode);
  }

  lemma {:induction false} AddRawPool(npus: seq<int>, info: DeviceInfo, cpuNode: map<int, int>, numa: Numa,
                                      st: PoolState, npu: int, list: seq<int>, ext: Extended)
    requires |numa| > 0 && RawPools(npus, info, cpuNode, numa) == Done(st) && Nearby(info, npu) == list != []
    requires |st.numa| > 0 && ExtendNuma(list, cpuNode, st.numa, info.allowed) == Done(ext)
    ensures RawPools(npus + [npu], info, cpuNode, numa) == Done(PoolState(st.pools[npu := ext.cpus], ext.numa))
  {
    var more := npus + [npu];
    assert more[..|more| - 1] == npus && more[|more| - 1] == npu;
  }

  lemma {:induction false} AddRawFailure(npus: seq<int>, info: DeviceInfo, cpuNode: map<int, int>, numa: Numa,
                                         st: PoolState, npu: int)
    requires |numa| > 0 && RawPools(npus, info, cpuNode, numa) == Done(st) && |st.numa| > 0
    requires Nearby(info, npu) == [] || ExtendNuma(Nearby(info, npu), cpuNode, st.numa, info.allowed).Raised?
    ensures RawPools(npus + [npu], info, cpuNode, numa) ==
            if Nearby(info, npu) == [] then Raised(AffinityConflict(npu))
            else Raised(ExtendNuma(Nearby(info, npu), cpuNode, st.numa, info.allowed).failure)
  {
    var more := npus + [npu];
    assert more[..|more| - 1] == npus && more[|more| - 1] == npu;
  }

  lemma {:induction false} SpreadPairGroup(pools: map<int, seq<int>>, a: int, b: int, list: seq<int>)
    requires a != b && pools == map[a := list, b := list]
    ensures Members([a, b], pools, list) == [a, b]
    ensures FinalPool([a, b], pools, a) == Share(Sort(list, CPU), 2, 0)
    ensures FinalPool([a, b], pools, b) == Share(Sort(list, CPU), 2, 1)
  {
    assert [a, b][..1] == [a] && [a][..0] == [];
    assert Members([a], pools, list) == [a];
    assert IndexOf([a, b], a) == 0 && IndexOf([a, b], b) == 1;
  }

  // A CPU number repeated in the middle of their list goes to both.
  lemma {:induction false} MiddleRepeatConflicts(info: DeviceInfo, cpuNode: map<int, int>, numa: Numa, a: int, b: int,
                                                 list: seq<int>, m: nat)
    requires |numa| > 0 && SpreadPair(info, cpuNode, a, b, list) && Sorted(list, CPU)
    requires 0 < m == |list| / 2 && list[m - 1] == list[m]
    ensures TopologyPool(info, cpuNode, numa, a).Done? && list[m] in TopologyPool(info, cpuNode, numa, a).value
    ensures TopologyPool(info, cpuNode, numa, b).Done? && list[m] in TopologyPool(info, cpuNode, numa, b).value
  {
    SpreadPairPools(info, cpuNode, numa, a, b, list);
    SpreadPairGroup(map[a := list, b := list], a, b, list);
    SortedStays(list);
    BoundaryRepeatIsShared(list, 2, 1, m);
  }

  // For instance CPU 1, when the topology lists the CPUs 0, 1, 1, 2 for both NPUs
  // and CPU 2 lies on another node.
  lemma {:induction false} RepeatedCpuConflicts(info: DeviceInfo, cpuNode: map<int, int>, numa: Numa, list: seq<int>)
    requires list == [0, 1, 1, 2] && info == DeviceInfo([0, 1, 2], [0], map[0 := list, 1 := list], [0, 1])
    requires cpuNode == map[0 := 0, 1 := 0, 2 := 1] && numa == map[0 := [0, 1], 1 := [2]]
    ensures |numa| > 0
    ensures TopologyPool(info, cpuNode, numa, 0).Done? && 1 in TopologyPool(info, cpuNode, numa, 0).value
    ensures TopologyPool(info, cpuNode, numa, 1).Done? && 1 in TopologyPool(info, cpuNode, numa, 1).value
  {
    assert 0 in numa.Keys;
    assert cpuNode[list[0]] != cpuNode[list[3]];
    assert SpreadPair(info, cpuNode, 0, 1, list);
    MiddleRepeatConflicts(info, cpuNode, numa, 0, 1, list, 2);
  }
}
