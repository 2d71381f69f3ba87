// What the planned pools contain: the CPUs near an NPU and, when those lie on one
// node, the allowed CPUs of the node after it.
module CpuPools {
  import opened Sorting
  import opened CpuSlices
  import opened CpuTopology

  // ------------------------------------------------------------- the node table

  // The table lists every node from 0 on.
  ghost predicate CompleteTable(numa: Numa) {
    forall n :: 0 <= n < |numa| ==> n in numa
  }

  // The table, possibly with nodes added that have no CPUs.
  ghost predicate Widened(numa: Numa, table: Numa) {
    && (forall n :: n in numa ==> n in table && table[n] == numa[n])
    && (forall n :: n in table && n !in numa ==> table[n] == [])
  }

  lemma {:induction false} ExtendWidens(cpus: seq<int>, cpuNode: map<int, int>, numa: Numa, table: Numa,
                                        allowed: seq<int>)
    requires |table| > 0 && Widened(numa, table) && ExtendNuma(cpus, cpuNode, table, allowed).Done?
    ensures Widened(numa, ExtendNuma(cpus, cpuNode, table, allowed).value.numa)
    ensures CompleteTable(table) ==> ExtendNuma(cpus, cpuNode, table, allowed).value.numa == table
  {
    if CompleteTable(table) && cpus != [] && FirstUnknown(cpus, cpuNode).None? {
      assert NextNode(cpus, cpuNode, table) in table;
    }
  }

  lemma {:induction false} PlanWidens(npus: seq<int>, info: DeviceInfo, cpuNode: map<int, int>, numa: Numa)
    requires |numa| > 0 && RawPools(npus, info, cpuNode, numa).Done?
    ensures Widened(numa, RawPools(npus, info, cpuNode, numa).value.numa)
    ensures CompleteTable(numa) ==> RawPools(npus, info, cpuNode, numa).value.numa == numa
  {
    if npus == [] {
    } else {
      var before, last := npus[..|npus| - 1], npus[|npus| - 1];
      PlanWidens(before, info, cpuNode, numa);
      ExtendWidens(Nearby(info, last), cpuNode, numa, RawPools(before, info, cpuNode, numa).value.numa, info.allowed);
    }
  }

  // The table as it stands when the i-th NPU is planned.
  ghost function TableAt(npus: seq<int>, i: nat, info: DeviceInfo, cpuNode: map<int, int>, numa: Numa): (t: Numa)
    requires |numa| > 0 && i <= |npus| && RawPools(npus, info, cpuNode, numa).Done?
    ensures |t| > 0
  {
    EarlierDone(npus, i, info, cpuNode, numa);
    RawPools(npus[..i], info, cpuNode, numa).value.numa
  }

  lemma {:induction false} EarlierDone(npus: seq<int>, i: nat, info: DeviceInfo, cpuNode: map<int, int>, numa: Numa)
    requires |numa| > 0 && i <= |npus| && RawPools(npus, info, cpuNode, numa).Done?
    ensures RawPools(npus[..i], info, cpuNode, numa).Done?
  {
    if RawPools(npus[..i], info, cpuNode, numa).Raised? {
      FailureStays(npus, i, info, cpuNode, numa);
    }
  }

  lemma {:induction false} TableIs(npus: seq<int>, i: nat, info: DeviceInfo, cpuNode: map<int, int>, numa: Numa)
    requires |numa| > 0 && i <= |npus| && RawPools(npus, info, cpuNode, numa).Done?
    ensures Widened(numa, TableAt(npus, i, info, cpuNode, numa))
    ensures CompleteTable(numa) ==> TableAt(npus, i, info, cpuNode, numa) == numa
  {
    EarlierDone(npus, i, info, cpuNode, numa);
    PlanWidens(npus[..i], info, cpuNode, numa);
  }

  // ------------------------------------------------------ what a raw pool holds

  // The pool of the i-th NPU is its own list, extended with the table as it stands.
  lemma {:induction false} PoolAt(npus: seq<int>, i: nat, info: DeviceInfo, cpuNode: map<int, int>, numa: Numa)
    requires |numa| > 0 && i < |npus| && NoRepeats(npus) && RawPools(npus, info, cpuNode, numa).Done?
    ensures Nearby(info, npus[i]) != []
    ensures var r := ExtendNuma(Nearby(info, npus[i]), cpuNode, TableAt(npus, i, info, cpuNode, numa), info.allowed);
            r.Done? && RawPools(npus, info, cpuNode, numa).value.pools[npus[i]] == r.value.cpus
  {
    var n := |npus| - 1;
    if i == n {
    } else {
      EarlierDone(npus, n, info, cpuNode, numa);
      PoolAt(npus[..n], i, info, cpuNode, numa);
      assert npus[..n][..i] == npus[..i];
      assert npus[i] != npus[n];
    }
  }

  // The list lies on node n.
  ghost predicate OnNode(cpus: seq<int>, cpuNode: map<int, int>, n: int) {
    cpus != [] && forall i :: 0 <= i < |cpus| ==> cpus[i] in cpuNode && cpuNode[cpus[i]] == n
  }

  // The CPU is an allowed one of the node after the NPU's, in a table of the given size.
  ghost predicate OnNextNode(info: DeviceInfo, cpuNode: map<int, int>, numa: Numa, size: nat, npu: int, x: int)
    requires size > 0
  {
    && Nearby(info, npu) != [] && Nearby(info, npu)[0] in cpuNode
    && var n := cpuNode[Nearby(info, npu)[0]];
       && OnNode(Nearby(info, npu), cpuNode, n) && x in info.allowed
       && (n + 1) % size in numa && x in numa[(n + 1) % size]
  }

  ghost predicate Planned(info: DeviceInfo, cpuNode: map<int, int>, numa: Numa, size: nat, npu: int, x: int)
    requires size > 0
  {
    x in Nearby(info, npu) || OnNextNode(info, cpuNode, numa, size, npu, x)
  }

  lemma {:induction false} ExtensionIs(info: DeviceInfo, cpuNode: map<int, int>, numa: Numa, table: Numa, npu: int,
                                       x: int)
    requires |table| > 0 && Widened(numa, table) && Nearby(info, npu) != []
    requires ExtendNuma(Nearby(info, npu), cpuNode, table, info.allowed).Done?
    ensures x in ExtendNuma(Nearby(info, npu), cpuNode, table, info.allowed).value.cpus
            <==> Planned(info, cpuNode, numa, |table|, npu, x)
  {
    var cpus := Nearby(info, npu);
    assert forall i :: 0 <= i < |cpus| ==> cpus[i] in cpuNode;
    var node := cpuNode[cpus[0]];
    ListExtensionIs(cpus, cpuNode, numa, table, info.allowed, node, x);
    PlannedIs(info, cpuNode, numa, |table|, npu, x, cpus, node);
  }

  lemma {:induction false} PlannedIs(info: DeviceInfo, cpuNode: map<int, int>, numa: Numa, size: nat, npu: int, x: int,
                                     cpus: seq<int>, node: int)
    requires size > 0 && cpus == Nearby(info, npu) != [] && cpus[0] in cpuNode && node == cpuNode[cpus[0]]
    ensures var next := (node + 1) % size;
            Planned(info, cpuNode, numa, size, npu, x) <==>
            x in cpus || (OnNode(cpus, cpuNode, node) && x in info.allowed && next in numa && x in numa[next])
  {
  }

  lemma {:induction false} ListExtensionIs(cpus: seq<int>, cpuNode: map<int, int>, numa: Numa, table: Numa,
                                           allowed: seq<int>, node: int, x: int)
    requires |table| > 0 && Widened(numa, table) && cpus != []
    requires (forall i :: 0 <= i < |cpus| ==> cpus[i] in cpuNode) && node == cpuNode[cpus[0]]
    ensures ExtendNuma(cpus, cpuNode, table, allowed).Done?
    ensures var next := (node + 1) % |table|;
            x in ExtendNuma(cpus, cpuNode, table, allowed).value.cpus <==>
            x in cpus || (OnNode(cpus, cpuNode, node) && x in allowed && next in numa && x in numa[next])
  {
    ExtensionHolds(cpus, cpuNode, table, allowed, node);
  }

  // Before sharing, the i-th NPU's pool holds exactly the CPUs near it and, when those
  // lie on one node, the allowed CPUs of the next node; a list on several nodes stays
  // as it is.
  lemma {:induction false} PoolHolds(npus: seq<int>, i: nat, info: DeviceInfo, cpuNode: map<int, int>, numa: Numa,
                                     x: int)
    requires |numa| > 0 && i < |npus| && NoRepeats(npus) && RawPools(npus, info, cpuNode, numa).Done?
    ensures var pool := RawPools(npus, info, cpuNode, numa).value.pools[npus[i]];
            && (x in pool <==>
                Planned(info, cpuNode, numa, |TableAt(npus, i, info, cpuNode, numa)|, npus[i], x))
            && ((forall n :: !OnNode(Nearby(info, npus[i]), cpuNode, n)) ==> pool == Nearby(info, npus[i]))
  {
    var cpus, table := Nearby(info, npus[i]), TableAt(npus, i, info, cpuNode, numa);
    TableIs(npus, i, info, cpuNode, numa);
    PoolAt(npus, i, info, cpuNode, numa);
    ExtensionIs(info, cpuNode, numa, table, npus[i], x);
    if forall n :: !OnNode(cpus, cpuNode, n) {
      assert !OnNode(cpus, cpuNode, cpuNode[cpus[0]]);
      assert !OneNode(cpus, cpuNode);
    }
  }

  // ----------------------------------------------------------- what a group gets

  // The NPUs of a group together get exactly the CPUs planned for each of them.
  lemma {:induction false} GroupGets(info: DeviceInfo, cpuNode: map<int, int>, numa: Numa, i: nat, x: int)
    requires |numa| > 0 && NoRepeats(info.logicNpus) && i < |Candidates(info, info.logicNpus)|
    requires RawPools(Candidates(info, info.logicNpus), info, cpuNode, numa).Done?
    ensures var npus := Candidates(info, info.logicNpus);
            && TopologyPool(info, cpuNode, numa, npus[i]).Done?
            && (SomeoneGets(info, cpuNode, numa, npus[i], x) <==>
                Planned(info, cpuNode, numa, |TableAt(npus, i, info, cpuNode, numa)|, npus[i], x))
  {
    var npus := Candidates(info, info.logicNpus);
    CandidatesDistinct(info, info.logicNpus);
    PoolHolds(npus, i, info, cpuNode, numa, x);
    GroupIsPool(info, cpuNode, numa, npus, RawPools(npus, info, cpuNode, numa).value.pools, npus[i], x);
  }

  // Some NPU of the group of a gets the CPU.
  ghost predicate SomeoneGets(info: DeviceInfo, cpuNode: map<int, int>, numa: Numa, a: int, x: int)
    requires |numa| > 0 && TopologyPool(info, cpuNode, numa, a).Done?
  {
    exists b :: b in Group(info, cpuNode, numa, a)
                && TopologyPool(info, cpuNode, numa, b).Done? && x in TopologyPool(info, cpuNode, numa, b).value
  }

  lemma {:induction false} GroupIsPool(info: DeviceInfo, cpuNode: map<int, int>, numa: Numa, npus: seq<int>,
                                       pools: map<int, seq<int>>, a: int, x: int)
    requires |numa| > 0 && npus == Candidates(info, info.logicNpus) && NoRepeats(npus) && a in npus
    requires RawPools(npus, info, cpuNode, numa).Done? && pools == RawPools(npus, info, cpuNode, numa).value.pools
    ensures TopologyPool(info, cpuNode, numa, a).Done?
    ensures SomeoneGets(info, cpuNode, numa, a, x) <==> x in pools[a]
  {
    PlannedPool(info, cpuNode, numa, npus, pools, a);
    OwnGroup(npus, pools, a);
    if x in pools[a] {
      GroupCovers(npus, pools, pools[a], x);
      var b :| b in npus && pools[b] == pools[a] && x in FinalPool(npus, pools, b);
      PlannedPool(info, cpuNode, numa, npus, pools, b);
      assert b in Group(info, cpuNode, numa, a);
    }
    if SomeoneGets(info, cpuNode, numa, a, x) {
      var b :| b in Group(info, cpuNode, numa, a)
               && TopologyPool(info, cpuNode, numa, b).Done? && x in TopologyPool(info, cpuNode, numa, b).value;
      PlannedPool(info, cpuNode, numa, npus, pools, b);
      FinalPoolElements(npus, pools, b, x);
    }
  }

  // With a table that lists every node, the pools of a group are together the CPUs
  // near its NPUs and those of the next node, whatever was planned before.
  lemma {:induction false} GroupGetsNextNode(info: DeviceInfo, cpuNode: map<int, int>, numa: Numa, a: int, x: int)
    requires |numa| > 0 && CompleteTable(numa) && NoRepeats(info.logicNpus)
    requires TopologyPool(info, cpuNode, numa, a).Done?
    ensures SomeoneGets(info, cpuNode, numa, a, x) <==> Planned(info, cpuNode, numa, |numa|, a, x)
  {
    var npus := Candidates(info, info.logicNpus);
    var i :| 0 <= i < |npus| && npus[i] == a;
    GroupGets(info, cpuNode, numa, i, x);
    TableIs(npus, i, info, cpuNode, numa);
  }

  // An NPU that shares its pool with nobody keeps it, order included.
  lemma {:induction false} LoneNpuKeepsPool(info: DeviceInfo, cpuNode: map<int, int>, numa: Numa, a: int)
    requires |numa| > 0 && TopologyPool(info, cpuNode, numa, a).Done? && |Group(info, cpuNode, numa, a)| == 1
    ensures TopologyPool(info, cpuNode, numa, a).value == GroupPool(info, cpuNode, numa, a)
  {
  }

  // ------------------------------------------------------------ when planning fails

  ghost predicate Plannable(info: DeviceInfo, cpuNode: map<int, int>, npu: int) {
    var cpus := Nearby(info, npu);
    cpus != [] && forall i :: 0 <= i < |cpus| ==> cpus[i] in cpuNode
  }

  // Planning succeeds exactly when every NPU has allowed CPUs near it, all of them on
  // known nodes.
  lemma {:induction false} PlanSucceedsIff(npus: seq<int>, info: DeviceInfo, cpuNode: map<int, int>, numa: Numa)
    requires |numa| > 0
    ensures RawPools(npus, info, cpuNode, numa).Done? <==>
            forall i :: 0 <= i < |npus| ==> Plannable(info, cpuNode, npus[i])
  {
    if npus == [] {
    } else {
      var before, last := npus[..|npus| - 1], npus[|npus| - 1];
      assert npus == before + [last];
      PlanSucceedsIff(before, info, cpuNode, numa);
      if RawPools(before, info, cpuNode, numa).Done? {
        ExtendsIff(Nearby(info, last), cpuNode, RawPools(before, info, cpuNode, numa).value.numa, info.allowed);
      }
      SnocAll(info, cpuNode, before, last);
    }
  }

  lemma {:induction false} ExtendsIff(cpus: seq<int>, cpuNode: map<int, int>, table: Numa, allowed: seq<int>)
    requires |table| > 0
    ensures ExtendNuma(cpus, cpuNode, table, allowed).Done? <==> forall i :: 0 <= i < |cpus| ==> cpus[i] in cpuNode
  {
  }

  lemma {:induction false} SnocAll(info: DeviceInfo, cpuNode: map<int, int>, before: seq<int>, last: int)
    ensures var npus := before + [last];
            (forall i :: 0 <= i < |npus| ==> Plannable(info, cpuNode, npus[i])) <==>
            (forall i :: 0 <= i < |before| ==> Plannable(info, cpuNode, before[i])) && Plannable(info, cpuNode, last)
  {
    var npus := before + [last];
    assert npus[|before|] == last;
    assert forall i :: 0 <= i < |before| ==> npus[i] == before[i];
  }

  // Otherwise it fails with the first NPU that has none, or that has one on no node.
  lemma {:induction false} PlanFailsAtFirst(npus: seq<int>, i: nat, info: DeviceInfo, cpuNode: map<int, int>,
                                            numa: Numa)
    requires |numa| > 0 && i < |npus| && !Plannable(info, cpuNode, npus[i])
    requires forall j :: 0 <= j < i ==> Plannable(info, cpuNode, npus[j])
    ensures var cpus, r := Nearby(info, npus[i]), RawPools(npus, info, cpuNode, numa);
            && r.Raised?
            && if cpus == [] then r.failure == AffinityConflict(npus[i])
               else r.failure.UnknownCpu? && r.failure.cpu in cpus && r.failure.cpu !in cpuNode
  {
    PlanSucceedsIff(npus[..i], info, cpuNode, numa);
    var upTo := npus[..i + 1];
    assert upTo[..i] == npus[..i] && upTo[i] == npus[i];
    UnknownIsListed(Nearby(info, npus[i]), cpuNode);
    FailureStays(npus, i + 1, info, cpuNode, numa);
  }

  lemma {:induction false} UnknownIsListed(cpus: seq<int>, cpuNode: map<int, int>)
    ensures var c := FirstUnknown(cpus, cpuNode); c.Some? ==> c.value in cpus && c.value !in cpuNode
  {
    if cpus == [] || cpus[0] !in cpuNode {
    } else {
      UnknownIsListed(cpus[1..], cpuNode);
    }
  }

  // ------------------------------------------------------------ the order of NPUs

  lemma {:induction false} CandidatesAscend(info: DeviceInfo, npus: seq<int>)
    requires Increasing(npus)
    ensures Increasing(Candidates(info, npus))
  {
    if npus == [] {
    } else {
      var first, rest := npus[0], npus[1..];
      CandidatesAscend(info, rest);
      CandidatesStep(info, npus, first, rest);
      AscendsFrom(first, rest, Candidates(info, rest));
    }
  }

  lemma {:induction false} AscendsFrom(first: int, rest: seq<int>, kept: seq<int>)
    requires (forall i :: 0 <= i < |rest| ==> first < rest[i]) && Increasing(kept)
    requires forall x :: x in kept ==> x in rest
    ensures Increasing([first] + kept)
  {
    forall i | 0 <= i < |kept| ensures first < kept[i] {
      var x := kept[i];
      assert x in kept;
    }
  }

  lemma {:induction false} AscendsTo(before: seq<int>, kept: seq<int>, last: int)
    requires (forall i :: 0 <= i < |before| ==> before[i] < last) && Increasing(kept)
    requires forall x :: x in kept ==> x in before
    ensures Increasing(kept + [last])
  {
    forall i | 0 <= i < |kept| ensures kept[i] < last {
      var x := kept[i];
      assert x in kept;
    }
  }

  lemma {:induction false} MembersAscend(npus: seq<int>, pools: map<int, seq<int>>, key: seq<int>)
    requires Increasing(npus) && forall i :: 0 <= i < |npus| ==> npus[i] in pools
    ensures Increasing(Members(npus, pools, key))
  {
    if npus == [] {
    } else {
      var before, last := npus[..|npus| - 1], npus[|npus| - 1];
      MembersAscend(before, pools, key);
      AscendsTo(before, Members(before, pools, key), last);
    }
  }

  lemma {:induction false} SharesAscend(list: seq<int>, k: nat, i: nat, j: nat, x: int, y: int)
    requires Sorted(list, CPU) && i < j < k && x in Share(list, k, i) && y in Share(list, k, j)
    ensures x <= y
  {
    var n := |list|;
    ShareBounds(n, k, i);
    ShareBounds(n, k, j);
    StartsAscend(n, k, i + 1, j);
    var p :| ShareStart(n, k, i) <= p < ShareStart(n, k, i + 1) && list[p] == x;
    var q :| ShareStart(n, k, j) <= q < ShareStart(n, k, j + 1) && list[q] == y;
    assert CPU(list[p]) <= CPU(list[q]);
  }

  lemma {:induction false} StartsAscend(n: nat, k: nat, i: nat, j: nat)
    requires i <= j < k
    ensures ShareStart(n, k, i) <= ShareStart(n, k, j)
    decreases j - i
  {
    if i == j {
    } else {
      ShareBounds(n, k, i);
      StartsAscend(n, k, i + 1, j);
    }
  }

  // Within a group, lower NPUs get lower CPUs.
  lemma {:induction false} LowerNpusGetLowerCpus(info: DeviceInfo, cpuNode: map<int, int>, numa: Numa, a: int, b: int,
                                                 x: int, y: int)
    requires |numa| > 0 && Increasing(info.logicNpus) && a < b
    requires TopologyPool(info, cpuNode, numa, a).Done? && TopologyPool(info, cpuNode, numa, b).Done?
    requires GroupPool(info, cpuNode, numa, a) == GroupPool(info, cpuNode, numa, b)
    requires x in TopologyPool(info, cpuNode, numa, a).value && y in TopologyPool(info, cpuNode, numa, b).value
    ensures x <= y
  {
    var npus := Candidates(info, info.logicNpus);
    CandidatesAscend(info, info.logicNpus);
    LowerMembersFirst(npus, RawPools(npus, info, cpuNode, numa).value.pools, a, b, x, y);
  }

  lemma {:induction false} LowerMembersFirst(npus: seq<int>, pools: map<int, seq<int>>, a: int, b: int, x: int, y: int)
    requires Increasing(npus) && (forall i :: 0 <= i < |npus| ==> npus[i] in pools) && a < b
    requires a in npus && b in npus && a in pools && b in pools && pools[a] == pools[b]
    requires x in FinalPool(npus, pools, a) && y in FinalPool(npus, pools, b)
    ensures x <= y
  {
    var group := Members(npus, pools, pools[a]);
    MembersAscend(npus, pools, pools[a]);
    assert a in group && b in group;
    LowerIsEarlier(group, a, b);
    SharesAscend(Sort(pools[a], CPU), |group|, IndexOf(group, a), IndexOf(group, b), x, y);
  }

  lemma {:induction false} LowerIsEarlier(group: seq<int>, a: int, b: int)
    requires Increasing(group) && a in group && b in group && a < b
    ensures IndexOf(group, a) < IndexOf(group, b)
  {
  }

  // The allowed part of a list keeps the order and the repeats of the list.
  lemma {:induction false} AllowedInOrder(a: seq<int>, b: seq<int>, allowed: seq<int>)
    ensures AllowedOf(a + b, allowed) == AllowedOf(a, allowed) + AllowedOf(b, allowed)
  {
    if b == [] {
      assert a + b == a;
    } else {
      var before, last := b[..|b| - 1], b[|b| - 1];
      assert (a + b)[..|a + b| - 1] == a + before;
      AllowedInOrder(a, before, allowed);
    }
  }

  // --------------------------------------------------- a table that misses a node

  // One CPU c near the NPU, on node n.
  ghost predicate OneNear(info: DeviceInfo, cpuNode: map<int, int>, npu: int, c: int, n: int) {
    Nearby(info, npu) == [c] && c in cpuNode && cpuNode[c] == n
  }

  lemma {:induction false} ExtendOne(info: DeviceInfo, cpuNode: map<int, int>, table: Numa, npu: int, c: int, n: int,
                                     next: int)
    requires |table| > 0 && OneNear(info, cpuNode, npu, c, n) && next == (n + 1) % |table|
    ensures var r := ExtendNuma([c], cpuNode, table, info.allowed);
            && r.Done? && r.value.numa == Opened(table, next)
            && (forall x :: x in r.value.cpus <==>
                  x == c || (x in info.allowed && next in table && x in table[next]))
  {
    OpensNext([c], cpuNode, table, info.allowed, next);
    forall x ensures x in ExtendNuma([c], cpuNode, table, info.allowed).value.cpus <==>
        x == c || (x in info.allowed && next in table && x in table[next])
    {
      ListExtensionIs([c], cpuNode, table, table, info.allowed, n, x);
    }
  }

  lemma {:induction false} OpensNext(cpus: seq<int>, cpuNode: map<int, int>, table: Numa, allowed: seq<int>, next: int)
    requires |table| > 0 && cpus != [] && FirstUnknown(cpus, cpuNode).None? && OneNode(cpus, cpuNode)
    requires next == NextNode(cpus, cpuNode, table)
    ensures var r := ExtendNuma(cpus, cpuNode, table, allowed); r.Done? && r.value.numa == Opened(table, next)
  {
  }

  lemma {:induction false} ApartPools(npus: seq<int>, pools: map<int, seq<int>>, a: int, b: int)
    requires a != b && npus == [a, b] && a in pools && b in pools && pools[a] != pools[b]
    ensures FinalPool(npus, pools, a) == pools[a] && FinalPool(npus, pools, b) == pools[b]
  {
    assert npus[..1] == [a];
    OneMember(pools, a, pools[a]);
    OneMember(pools, a, pools[b]);
  }

  lemma {:induction false} OneMember(pools: map<int, seq<int>>, a: int, key: seq<int>)
    requires a in pools
    ensures Members([a], pools, key) == if pools[a] == key then [a] else []
  {
    assert [a][..0] == [];
    assert Members([], pools, key) == [];
  }

  // Two NPUs with one CPU each, on the nodes m and n.  Node m + 1 is not in the table,
  // and asking for it makes the table longer by one.
  lemma {:induction false} SecondTable(info: DeviceInfo, cpuNode: map<int, int>, numa: Numa, a: int, b: int, c: int,
                                       d: int, m: int, n: int, table: Numa)
    requires |numa| > 0 && info.logicNpus == [a, b] && a != b && c != d
    requires OneNear(info, cpuNode, a, c, m) && OneNear(info, cpuNode, b, d, n)
    requires (m + 1) % |numa| !in numa && table == numa[(m + 1) % |numa| := []]
    ensures |table| == |numa| + 1 && TopologyPool(info, cpuNode, numa, a).Done?
    ensures TopologyPool(info, cpuNode, numa, b).Done?
    ensures c in TopologyPool(info, cpuNode, numa, a).value
    ensures var next := (n + 1) % |table|;
            forall x :: x in TopologyPool(info, cpuNode, numa, b).value <==>
                        x == d || (x in info.allowed && next in numa && x in numa[next])
  {
    PairCandidates(info, a, b);
    ExtendOne(info, cpuNode, numa, a, c, m, (m + 1) % |numa|);
    var first := ExtendNuma([c], cpuNode, numa, info.allowed).value;
    AddRawPool([], info, cpuNode, numa, PoolState(map[], numa), a, [c], first);
    assert [] + [a] == [a] && first.numa == table;
    ExtendOne(info, cpuNode, table, b, d, n, (n + 1) % |table|);
    var second := ExtendNuma([d], cpuNode, table, info.allowed).value;
    AddRawPool([a], info, cpuNode, numa, PoolState(map[a := first.cpus], table), b, [d], second);
    assert [a] + [b] == [a, b];
    assert d in second.cpus && d !in first.cpus;
    ApartPools([a, b], map[a := first.cpus, b := second.cpus], a, b);
  }

  // If that leads the second NPU to the node of the first one's CPU, both get it,
  // although the table as read would lead nowhere.
  lemma {:induction false} BothGetIt(info: DeviceInfo, cpuNode: map<int, int>, numa: Numa, a: int, b: int, c: int,
                                     d: int, m: int, n: int)
    requires |numa| > 0 && info.logicNpus == [a, b] && a != b && c != d && c in info.allowed
    requires OneNear(info, cpuNode, a, c, m) && OneNear(info, cpuNode, b, d, n)
    requires (m + 1) % |numa| !in numa && (n + 1) % |numa| !in numa
    requires (n + 1) % (|numa| + 1) in numa && c in numa[(n + 1) % (|numa| + 1)]
    ensures TopologyPool(info, cpuNode, numa, a).Done? && c in TopologyPool(info, cpuNode, numa, a).value
    ensures TopologyPool(info, cpuNode, numa, b).Done? && c in TopologyPool(info, cpuNode, numa, b).value
    ensures !Planned(info, cpuNode, numa, |numa|, b, c)
  {
    SecondTable(info, cpuNode, numa, a, b, c, d, m, n, numa[(m + 1) % |numa| := []]);
    NotPlanned(info, cpuNode, numa, |numa|, b, d, n, c);
  }

  // For instance with the nodes 0 and 2 only, and a CPU of each near the NPUs 0 and 1.
  lemma {:induction false} MissingNodeShiftsNext(info: DeviceInfo, cpuNode: map<int, int>, numa: Numa, a: int, b: int)
    requires a == 0 && b == 1 && info == DeviceInfo([0, 2], [0, 1], map[0 := [0], 1 := [2]], [0, 1])
    requires cpuNode == map[0 := 0, 2 := 2] && numa == map[0 := [0], 2 := [2]]
    ensures |numa| > 0
    ensures TopologyPool(info, cpuNode, numa, a).Done? && 0 in TopologyPool(info, cpuNode, numa, a).value
    ensures TopologyPool(info, cpuNode, numa, b).Done? && 0 in TopologyPool(info, cpuNode, numa, b).value
    ensures !Planned(info, cpuNode, numa, |numa|, b, 0)
  {
    TwoNodes(numa);
    NearIsListed(info, a, 0);
    NearIsListed(info, b, 2);
    BothGetIt(info, cpuNode, numa, a, b, 0, 2, 0, 2);
  }

  lemma {:induction false} TwoNodes(numa: Numa)
    requires numa == map[0 := [0], 2 := [2]]
    ensures |numa| == 2
  {
    assert numa.Keys == {0, 2};
  }

  lemma {:induction false} NearIsListed(info: DeviceInfo, npu: int, c: int)
    requires npu in info.affinity && info.affinity[npu] == [c] && c in info.allowed
    ensures Nearby(info, npu) == [c]
  {
    AllAllowedStay([c], info.allowed);
  }

  lemma {:induction false} NotPlanned(info: DeviceInfo, cpuNode: map<int, int>, numa: Numa, size: nat, npu: int,
                                      c: int, n: int, x: int)
    requires size > 0 && OneNear(info, cpuNode, npu, c, n) && (n + 1) % size !in numa && x != c
    ensures !Planned(info, cpuNode, numa, size, npu, x)
  {
  }
}
