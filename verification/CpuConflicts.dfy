// Conflict freedom of the whole plan: pools and roles together, across processes.
module CpuConflicts {
  import opened CpuSlices
  import opened CpuRoles
  import opened CpuTopology

  // Parts of disjoint pools are disjoint; parts of one pool are disjoint when the
  // roles differ.
  lemma {:induction false} PoolRolesNeverConflict(mine: seq<int>, other: seq<int>, reserveIrq: bool, r: Role, t: Role)
    requires SplitRoles(mine, reserveIrq).Some? && SplitRoles(other, reserveIrq).Some?
    requires DisjointCpus(mine, other) || (mine == other && NoRepeats(mine) && r != t)
    ensures DisjointCpus(SplitRoles(mine, reserveIrq).value.Of(r), SplitRoles(other, reserveIrq).value.Of(t))
  {
    if DisjointCpus(mine, other) {
      PartsOfPool(mine, reserveIrq, r);
      PartsOfPool(other, reserveIrq, t);
    } else {
      RolesDisjoint(mine, reserveIrq, r, t);
    }
  }

  // Global slicing: over all NPUs and all roles, across processes that share a
  // CPU set and an NPU count, different (NPU, role) pairs use different CPUs.
  lemma {:induction false} SlicedRolesNeverConflict(p: DeviceInfo, q: DeviceInfo, reserveIrq: bool, a: nat, b: nat,
                                                    r: Role, t: Role)
    requires SameElements(p.allowed, q.allowed) && TotalNpus(p) == TotalNpus(q)
    requires Sliceable(p, MinCpus(reserveIrq)) && a < TotalNpus(p) && b < TotalNpus(q)
    requires (a, r) != (b, t)
    ensures var mine := SplitRoles(Slice(SortedSet(p.allowed), TotalNpus(p), a), reserveIrq);
            var other := SplitRoles(Slice(SortedSet(q.allowed), TotalNpus(q), b), reserveIrq);
            && mine.Some? && other.Some?
            && DisjointCpus(mine.value.Of(r), other.value.Of(t))
  {
    IncreasingIsUnique(SortedSet(p.allowed), SortedSet(q.allowed));
    var allowed, total := SortedSet(p.allowed), TotalNpus(p);
    if a == b {
      SliceHasNoRepeats(allowed, total, a);
    } else {
      ProcessesNeverConflict(p, q, a, b);
    }
    PoolRolesNeverConflict(Slice(allowed, total, a), Slice(allowed, total, b), reserveIrq, r, t);
  }

  // ------------------------------------------------------------ affinity groups

  ghost predicate Splits(info: DeviceInfo, cpuNode: map<int, int>, numa: Numa, npu: int, reserveIrq: bool)
    requires |numa| > 0
  {
    var pool := TopologyPool(info, cpuNode, numa, npu);
    pool.Done? && SplitRoles(pool.value, reserveIrq).Some?
  }

  // The CPUs of one role of one NPU.
  ghost function RoleCpus(info: DeviceInfo, cpuNode: map<int, int>, numa: Numa, npu: int, reserveIrq: bool,
                          r: Role): seq<int>
    requires |numa| > 0 && Splits(info, cpuNode, numa, npu, reserveIrq)
  {
    SplitRoles(TopologyPool(info, cpuNode, numa, npu).value, reserveIrq).value.Of(r)
  }

  // Different (NPU, role) pairs of the group of a, planned in p and in q, use
  // different CPUs.
  ghost predicate GroupRolesApart(p: DeviceInfo, q: DeviceInfo, cpuNode: map<int, int>, numa: Numa, a: int,
                                  reserveIrq: bool)
    requires |numa| > 0 && TopologyPool(p, cpuNode, numa, a).Done?
    requires forall b :: b in Group(p, cpuNode, numa, a) ==>
               Splits(p, cpuNode, numa, b, reserveIrq) && Splits(q, cpuNode, numa, b, reserveIrq)
  {
    forall b, c, r, t :: b in Group(p, cpuNode, numa, a) && c in Group(p, cpuNode, numa, a) && (b, r) != (c, t) ==>
      DisjointCpus(RoleCpus(p, cpuNode, numa, b, reserveIrq, r), RoleCpus(q, cpuNode, numa, c, reserveIrq, t))
  }

  lemma {:induction false} PoolsFromRoles(mine: seq<int>, other: seq<int>, reserveIrq: bool)
    requires SplitRoles(mine, reserveIrq).Some? && SplitRoles(other, reserveIrq).Some?
    requires forall r, t ::
               DisjointCpus(SplitRoles(mine, reserveIrq).value.Of(r), SplitRoles(other, reserveIrq).value.Of(t))
    ensures DisjointCpus(mine, other)
  {
    var m, o := SplitRoles(mine, reserveIrq).value, SplitRoles(other, reserveIrq).value;
    forall x | x in mine ensures x !in other {
      InSomeRole(mine, reserveIrq, x);
      var r :| x in m.Of(r);
      forall t ensures x !in o.Of(t) {
        assert DisjointCpus(m.Of(r), o.Of(t));
      }
      InSomeRole(other, reserveIrq, x);
    }
  }

  lemma {:induction false} InSomeRole(pool: seq<int>, reserveIrq: bool, x: int)
    requires SplitRoles(pool, reserveIrq).Some?
    ensures x !in pool || exists r :: x in SplitRoles(pool, reserveIrq).value.Of(r)
  {
    if x in pool {
      var i :| 0 <= i < |pool| && pool[i] == x;
      RoleElements(pool, reserveIrq, RoleAt(|pool|, reserveIrq, i), x);
    }
  }

  // What makes a group of NPUs free of conflicts: no CPU number is repeated across
  // a share boundary of the group's sorted pool, nor across two roles of one NPU.
  ghost predicate GroupRolesSeparate(p: DeviceInfo, cpuNode: map<int, int>, numa: Numa, a: int, reserveIrq: bool)
    requires |numa| > 0 && TopologyPool(p, cpuNode, numa, a).Done? && Group(p, cpuNode, numa, a) != []
    requires forall b :: b in Group(p, cpuNode, numa, a) ==> TopologyPool(p, cpuNode, numa, b).Done?
  {
    && SharesApart(GroupPool(p, cpuNode, numa, a), |Group(p, cpuNode, numa, a)|)
    && forall b :: b in Group(p, cpuNode, numa, a) ==> RolesApart(TopologyPool(p, cpuNode, numa, b).value, reserveIrq)
  }

  // Topology affinity: over all NPUs of an affinity group and all roles, planned in
  // any two processes of the machine whatever they see, different pairs use
  // different CPUs if and only if the group separates.
  lemma {:induction false} GroupRolesNeverConflictIff(p: DeviceInfo, q: DeviceInfo, cpuNode: map<int, int>, numa: Numa,
                                                      a: int, reserveIrq: bool)
    requires |numa| > 0 && SameMachine(p, q) && NoRepeats(p.logicNpus)
    requires TopologyPool(p, cpuNode, numa, a).Done? && TopologyPool(q, cpuNode, numa, a).Done?
    requires forall b :: b in Group(p, cpuNode, numa, a) ==>
               Splits(p, cpuNode, numa, b, reserveIrq) && Splits(q, cpuNode, numa, b, reserveIrq)
    ensures Group(p, cpuNode, numa, a) != []
    ensures GroupRolesApart(p, q, cpuNode, numa, a, reserveIrq) <==> GroupRolesSeparate(p, cpuNode, numa, a, reserveIrq)
  {
    NeighboursNeverConflictIff(p, q, cpuNode, numa, a);
    if GroupRolesSeparate(p, cpuNode, numa, a, reserveIrq) {
      SeparateGroup(p, q, cpuNode, numa, a, reserveIrq);
    }
    if GroupRolesApart(p, q, cpuNode, numa, a, reserveIrq) {
      GroupFromRoles(p, q, cpuNode, numa, a, reserveIrq);
    }
  }

  lemma {:induction false} SeparateGroup(p: DeviceInfo, q: DeviceInfo, cpuNode: map<int, int>, numa: Numa, a: int,
                                         reserveIrq: bool)
    requires |numa| > 0 && SameMachine(p, q)
    requires TopologyPool(p, cpuNode, numa, a).Done? && TopologyPool(q, cpuNode, numa, a).Done?
    requires forall b :: b in Group(p, cpuNode, numa, a) ==>
               Splits(p, cpuNode, numa, b, reserveIrq) && Splits(q, cpuNode, numa, b, reserveIrq)
    requires GroupApart(p, q, cpuNode, numa, a)
    requires forall b :: b in Group(p, cpuNode, numa, a) ==>
               RolesApart(TopologyPool(p, cpuNode, numa, b).value, reserveIrq)
    ensures GroupRolesApart(p, q, cpuNode, numa, a, reserveIrq)
  {
    forall b, c, r, t | b in Group(p, cpuNode, numa, a) && c in Group(p, cpuNode, numa, a) && (b, r) != (c, t)
      ensures DisjointCpus(RoleCpus(p, cpuNode, numa, b, reserveIrq, r), RoleCpus(q, cpuNode, numa, c, reserveIrq, t))
    {
      var mine, other := TopologyPool(p, cpuNode, numa, b).value, TopologyPool(q, cpuNode, numa, c).value;
      if b == c {
        PoolsIgnoreVisibility(p, q, cpuNode, numa, b);
        RolesDisjointIff(mine, reserveIrq);
      } else {
        PartsOfPool(mine, reserveIrq, r);
        PartsOfPool(other, reserveIrq, t);
      }
    }
  }

  lemma {:induction false} GroupFromRoles(p: DeviceInfo, q: DeviceInfo, cpuNode: map<int, int>, numa: Numa, a: int,
                                          reserveIrq: bool)
    requires |numa| > 0 && SameMachine(p, q)
    requires TopologyPool(p, cpuNode, numa, a).Done? && TopologyPool(q, cpuNode, numa, a).Done?
    requires forall b :: b in Group(p, cpuNode, numa, a) ==>
               Splits(p, cpuNode, numa, b, reserveIrq) && Splits(q, cpuNode, numa, b, reserveIrq)
    requires GroupRolesApart(p, q, cpuNode, numa, a, reserveIrq)
    ensures GroupApart(p, q, cpuNode, numa, a)
    ensures forall b :: b in Group(p, cpuNode, numa, a) ==>
              RolesApart(TopologyPool(p, cpuNode, numa, b).value, reserveIrq)
  {
    var group := Group(p, cpuNode, numa, a);
    forall b, c | b in group && c in group && b != c
      ensures DisjointCpus(TopologyPool(p, cpuNode, numa, b).value, TopologyPool(q, cpuNode, numa, c).value)
    {
      var mine, other := TopologyPool(p, cpuNode, numa, b).value, TopologyPool(q, cpuNode, numa, c).value;
      forall r, t ensures DisjointCpus(SplitRoles(mine, reserveIrq).value.Of(r),
        SplitRoles(other, reserveIrq).value.Of(t)) {
        assert DisjointCpus(RoleCpus(p, cpuNode, numa, b, reserveIrq, r), RoleCpus(q, cpuNode, numa, c, reserveIrq, t));
      }
      PoolsFromRoles(mine, other, reserveIrq);
    }
    forall b | b in group ensures RolesApart(TopologyPool(p, cpuNode, numa, b).value, reserveIrq) {
      PoolsIgnoreVisibility(p, q, cpuNode, numa, b);
      var pool := TopologyPool(p, cpuNode, numa, b).value;
      forall r, t | r != t
        ensures DisjointCpus(SplitRoles(pool, reserveIrq).value.Of(r), SplitRoles(pool, reserveIrq).value.Of(t))
      {
        assert DisjointCpus(RoleCpus(p, cpuNode, numa, b, reserveIrq, r), RoleCpus(q, cpuNode, numa, b, reserveIrq, t));
      }
      RolesDisjointIff(pool, reserveIrq);
    }
  }

  // A topology that lists no CPU twice for an NPU satisfies the condition.
  lemma {:induction false} DistinctAffinitySeparates(p: DeviceInfo, cpuNode: map<int, int>, numa: Numa, a: int,
                                                     reserveIrq: bool)
    requires |numa| > 0 && DistinctAffinity(p) && TopologyPool(p, cpuNode, numa, a).Done?
    requires Group(p, cpuNode, numa, a) != []
    requires forall b :: b in Group(p, cpuNode, numa, a) ==> TopologyPool(p, cpuNode, numa, b).Done?
    ensures GroupRolesSeparate(p, cpuNode, numa, a, reserveIrq)
  {
    DistinctAffinityIsApart(p, cpuNode, numa, a);
    forall b | b in Group(p, cpuNode, numa, a) ensures RolesApart(TopologyPool(p, cpuNode, numa, b).value, reserveIrq) {
      TopologyPoolHasNoRepeats(p, cpuNode, numa, b);
    }
  }
}
