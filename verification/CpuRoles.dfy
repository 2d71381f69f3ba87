// Splitting one NPU's CPU pool into roles, and why no CPU serves two of them.
module CpuRoles {
  import opened Options
  import opened CpuSlices

  datatype Role = Irq | MainThread | Acl | ReleaseThread

  datatype Roles = Roles(irq: seq<int>, main: seq<int>, acl: seq<int>, rel: seq<int>) {
    function Of(r: Role): seq<int> {
      match r
      case Irq => irq
      case MainThread => main
      case Acl => acl
      case ReleaseThread => rel
    }
  }

  // Two interrupt CPUs where the device type reserves them, at least one main
  // CPU, one for the ACL thread and one for the release thread.
  function MinCpus(reserveIrq: bool): nat { if reserveIrq then 5 else 3 }

  // The split puts every CPU of the pool into exactly one place; it fails exactly
  // on a pool that is too small.
  function SplitRoles(pool: seq<int>, reserveIrq: bool): (r: Option<Roles>)
    ensures r.Some? <==> |pool| >= if reserveIrq then 5 else 3
    ensures r.Some? ==>
              && r.value.irq + r.value.main + r.value.acl + r.value.rel == pool
              && |r.value.irq| == (if reserveIrq then 2 else 0)
              && |r.value.main| > 0 && |r.value.acl| == |r.value.rel| == 1
  {
    var n := |pool|;
    if n < MinCpus(reserveIrq) then None
    else
      var first := if reserveIrq then 2 else 0;
      Some(Roles(pool[..first], pool[first..n - 2], [pool[n - 2]], [pool[n - 1]]))
  }

  lemma {:induction false} PartsOfPool(pool: seq<int>, reserveIrq: bool, r: Role)
    requires SplitRoles(pool, reserveIrq).Some?
    ensures forall x :: x in SplitRoles(pool, reserveIrq).value.Of(r) ==> x in pool
  {
    var roles := SplitRoles(pool, reserveIrq).value;
    forall x | x in roles.Of(r) ensures x in pool {
      assert x in roles.irq + roles.main + roles.acl + roles.rel;
    }
  }

  // Where each role sits in the pool.
  ghost function From(n: nat, reserveIrq: bool, r: Role): int {
    match r
    case Irq => 0
    case MainThread => if reserveIrq then 2 else 0
    case Acl => n - 2
    case ReleaseThread => n - 1
  }

  ghost function To(n: nat, reserveIrq: bool, r: Role): int {
    match r
    case Irq => if reserveIrq then 2 else 0
    case MainThread => n - 2
    case Acl => n - 1
    case ReleaseThread => n
  }

  lemma {:induction false} RoleIsPart(pool: seq<int>, reserveIrq: bool, r: Role)
    requires SplitRoles(pool, reserveIrq).Some?
    ensures 0 <= From(|pool|, reserveIrq, r) <= To(|pool|, reserveIrq, r) <= |pool|
    ensures SplitRoles(pool, reserveIrq).value.Of(r) == pool[From(|pool|, reserveIrq, r)..To(|pool|, reserveIrq, r)]
  {
    var n := |pool|;
    assert [pool[n - 2]] == pool[n - 2..n - 1] && [pool[n - 1]] == pool[n - 1..n];
  }

  lemma {:induction false} SeparateParts(s: seq<int>, i: nat, j: nat, k: nat, l: nat)
    requires NoRepeats(s) && i <= j <= |s| && k <= l <= |s| && (j <= k || l <= i)
    ensures DisjointCpus(s[i..j], s[k..l])
  {
    forall x | x in s[i..j] ensures x !in s[k..l] {
      var m :| i <= m < j && s[m] == x;
    }
  }

  // Within one pool without repeats, two roles never share a CPU.
  lemma {:induction false} RolesDisjoint(pool: seq<int>, reserveIrq: bool, r: Role, q: Role)
    requires NoRepeats(pool) && SplitRoles(pool, reserveIrq).Some? && r != q
    ensures var roles := SplitRoles(pool, reserveIrq).value; DisjointCpus(roles.Of(r), roles.Of(q))
  {
    var n := |pool|;
    RoleIsPart(pool, reserveIrq, r);
    RoleIsPart(pool, reserveIrq, q);
    SeparateParts(pool, From(n, reserveIrq, r), To(n, reserveIrq, r), From(n, reserveIrq, q), To(n, reserveIrq, q));
  }

  // The role of position i in a pool of n.
  ghost function RoleAt(n: nat, reserveIrq: bool, i: int): Role {
    if i < (if reserveIrq then 2 else 0) then Irq
    else if i < n - 2 then MainThread
    else if i == n - 2 then Acl
    else ReleaseThread
  }

  // No CPU number is repeated across two roles.
  ghost predicate RolesApart(pool: seq<int>, reserveIrq: bool) {
    var n := |pool|;
    forall i, j :: 0 <= i < n && 0 <= j < n && RoleAt(n, reserveIrq, i) != RoleAt(n, reserveIrq, j) ==>
      pool[i] != pool[j]
  }

  lemma {:induction false} RoleElements(pool: seq<int>, reserveIrq: bool, r: Role, x: int)
    requires SplitRoles(pool, reserveIrq).Some?
    ensures x in SplitRoles(pool, reserveIrq).value.Of(r) <==>
            exists i :: 0 <= i < |pool| && RoleAt(|pool|, reserveIrq, i) == r && pool[i] == x
  {
    var n := |pool|;
    RoleIsPart(pool, reserveIrq, r);
    var part := pool[From(n, reserveIrq, r)..To(n, reserveIrq, r)];
    assert x in part <==> exists i :: From(n, reserveIrq, r) <= i < To(n, reserveIrq, r) && pool[i] == x;
    assert forall i :: 0 <= i < n ==>
             (RoleAt(n, reserveIrq, i) == r <==> From(n, reserveIrq, r) <= i < To(n, reserveIrq, r));
  }

  ghost predicate AllRolesDisjoint(pool: seq<int>, reserveIrq: bool)
    requires SplitRoles(pool, reserveIrq).Some?
  {
    forall r, t :: r != t ==>
      DisjointCpus(SplitRoles(pool, reserveIrq).value.Of(r), SplitRoles(pool, reserveIrq).value.Of(t))
  }

  // The roles of one pool share no CPU if and only if no number is repeated across
  // two roles.
  lemma {:induction false} RolesDisjointIff(pool: seq<int>, reserveIrq: bool)
    requires SplitRoles(pool, reserveIrq).Some?
    ensures AllRolesDisjoint(pool, reserveIrq) <==> RolesApart(pool, reserveIrq)
  {
    var roles := SplitRoles(pool, reserveIrq).value;
    if RolesApart(pool, reserveIrq) {
      forall r, t, x | r != t && x in roles.Of(r) ensures x !in roles.Of(t) {
        RoleElements(pool, reserveIrq, r, x);
        RoleElements(pool, reserveIrq, t, x);
      }
    }
    if AllRolesDisjoint(pool, reserveIrq) {
      forall i, j | 0 <= i < |pool| && 0 <= j < |pool| && RoleAt(|pool|, reserveIrq, i) != RoleAt(|pool|, reserveIrq, j)
        ensures pool[i] != pool[j]
      {
        var r, t := RoleAt(|pool|, reserveIrq, i), RoleAt(|pool|, reserveIrq, j);
        assert DisjointCpus(roles.Of(r), roles.Of(t));
        RoleElements(pool, reserveIrq, r, pool[i]);
        RoleElements(pool, reserveIrq, t, pool[j]);
      }
    }
  }

  lemma {:induction false} SliceHasNoRepeats(allowed: seq<int>, total: nat, id: nat)
    requires Increasing(allowed) && id < total
    ensures NoRepeats(Slice(allowed, total, id))
  {
    var n := |allowed|;
    SlicesAbut(n, total, id);
    StartMonotone(n, total, id + 1, total);
    PartHasNoRepeats(allowed, Start(n, total, id), Start(n, total, id) + Take(n, total, id));
  }
}
