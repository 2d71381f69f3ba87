// Global slicing: every process cuts the same sorted CPU list by logical NPU id,
// so that processes which never talk to each other get different CPUs.
module CpuSlices {
  import opened Options
  import opened Sorting

  const CPU: int -> real := c => c as real

  ghost predicate Increasing(s: seq<int>) {
    forall i, j :: 0 <= i < j < |s| ==> s[i] < s[j]
  }

  ghost predicate NoRepeats(s: seq<int>) {
    forall i, j :: 0 <= i < j < |s| ==> s[i] != s[j]
  }

  ghost predicate SameElements(a: seq<int>, b: seq<int>) {
    forall x :: x in a <==> x in b
  }

  ghost predicate DisjointCpus(a: seq<int>, b: seq<int>) {
    forall x :: x in a ==> x !in b
  }

  lemma {:induction false} PartHasNoRepeats(s: seq<int>, i: nat, j: nat)
    requires NoRepeats(s) && i <= j <= |s|
    ensures NoRepeats(s[i..j])
  {
  }

  function Distinct(s: seq<int>): (r: seq<int>)
    requires Sorted(s, CPU)
    ensures Increasing(r) && SameElements(r, s)
    ensures s != [] ==> r != [] && r[0] == s[0]
  {
    if |s| < 2 then s
    else if s[0] == s[1] then Distinct(s[1..])
    else
      assert forall x :: x in s[1..] ==> s[0] < x;
      [s[0]] + Distinct(s[1..])
  }

  // sorted(set(xs))
  function SortedSet(xs: seq<int>): (r: seq<int>)
    ensures Increasing(r) && SameElements(r, xs)
  {
    SortKeeps(xs, CPU);
    assert forall x :: x in Sort(xs, CPU) <==> x in multiset(Sort(xs, CPU));
    assert forall x :: x in xs <==> x in multiset(xs);
    Distinct(Sort(xs, CPU))
  }

  lemma {:induction false} SameEmptiness(a: seq<int>, b: seq<int>)
    requires SameElements(a, b)
    ensures |a| == 0 <==> |b| == 0
  {
    if |a| > 0 {
      var x := a[0];
      assert x in a && x in b;
    }
    if |b| > 0 {
      var x := b[0];
      assert x in b && x in a;
    }
  }

  lemma {:induction false} IncreasingIsUnique(a: seq<int>, b: seq<int>)
    requires Increasing(a) && Increasing(b) && SameElements(a, b)
    ensures a == b
  {
    SameEmptiness(a, b);
    if a != [] {
      assert a[0] in b && b[0] in a;
      var a', b' := a[1..], b[1..];
      forall x | x in a' ensures x in b' { assert x in a && x != a[0]; }
      forall x | x in b' ensures x in a' { assert x in b && x != b[0]; }
      IncreasingIsUnique(a', b');
      assert a == [a[0]] + a' && b == [b[0]] + b';
    }
  }

  // ------------------------------------------------------------------- slices

  function Start(n: nat, total: nat, id: nat): nat
    requires total > 0
  {
    id * (n / total) + if id < n % total then id else n % total
  }

  function Take(n: nat, total: nat, id: nat): nat
    requires total > 0
  {
    n / total + if id < n % total then 1 else 0
  }

  // The slices sit side by side and end where the list ends.
  lemma {:induction false} SlicesAbut(n: nat, total: nat, id: nat)
    requires total > 0
    ensures Start(n, total, 0) == 0
    ensures Start(n, total, id + 1) == Start(n, total, id) + Take(n, total, id)
    ensures Start(n, total, total) == n
  {
    var base := n / total;
    assert (id + 1) * base == id * base + base;
    assert n == total * base + n % total;
  }

  lemma {:induction false} StartMonotone(n: nat, total: nat, a: nat, b: nat)
    requires total > 0 && a <= b
    ensures Start(n, total, a) <= Start(n, total, b)
    ensures a < b ==> Start(n, total, a) + Take(n, total, a) <= Start(n, total, b)
    decreases b - a
  {
    if a < b {
      SlicesAbut(n, total, a);
      StartMonotone(n, total, a + 1, b);
    }
  }

  // The CPUs of one logical NPU.
  function Slice(allowed: seq<int>, total: nat, id: nat): (s: seq<int>)
    requires id < total
    ensures |s| == Take(|allowed|, total, id)
  {
    var start := Start(|allowed|, total, id);
    SlicesAbut(|allowed|, total, id);
    StartMonotone(|allowed|, total, id + 1, total);
    allowed[start..start + Take(|allowed|, total, id)]
  }

  ghost function Slices(allowed: seq<int>, total: nat, k: nat): seq<int>
    requires k <= total
  {
    if k == 0 then [] else Slices(allowed, total, k - 1) + Slice(allowed, total, k - 1)
  }

  lemma {:induction false} SliceIsPart(allowed: seq<int>, total: nat, id: nat)
    requires id < total
    ensures Start(|allowed|, total, id) <= Start(|allowed|, total, id + 1) <= |allowed|
    ensures Slice(allowed, total, id) == allowed[Start(|allowed|, total, id)..Start(|allowed|, total, id + 1)]
  {
    SlicesAbut(|allowed|, total, id);
    StartMonotone(|allowed|, total, id + 1, total);
  }

  lemma {:induction false} PrefixGrows(s: seq<int>, i: nat, j: nat)
    requires i <= j <= |s|
    ensures s[..i] + s[i..j] == s[..j]
  {
  }

  lemma {:induction false} SlicesArePrefix(allowed: seq<int>, total: nat, k: nat)
    requires 0 < total && k <= total
    ensures Start(|allowed|, total, k) <= |allowed|
    ensures Slices(allowed, total, k) == allowed[..Start(|allowed|, total, k)]
  {
    if k == 0 {
      SlicesAbut(|allowed|, total, 0);
    } else {
      SlicesArePrefix(allowed, total, k - 1);
      SliceIsPart(allowed, total, k - 1);
      PrefixGrows(allowed, Start(|allowed|, total, k - 1), Start(|allowed|, total, k));
    }
  }

  // The slices of all logical NPUs, put together in order, are the whole list;
  // their sizes differ by at most one, and the larger ones come first.
  lemma {:induction false} SlicesPartition(allowed: seq<int>, total: nat)
    requires total > 0
    ensures Slices(allowed, total, total) == allowed
    ensures forall a, b :: 0 <= a < total && 0 <= b < total ==>
              |Slice(allowed, total, a)| <= |Slice(allowed, total, b)| + 1
    ensures forall a, b :: 0 <= a < b < total ==> |Slice(allowed, total, b)| <= |Slice(allowed, total, a)|
  {
    SlicesArePrefix(allowed, total, total);
    SlicesAbut(|allowed|, total, 0);
  }

  lemma {:induction false} PartsDisjoint(s: seq<int>, i: nat, j: nat, k: nat, l: nat)
    requires Increasing(s) && i <= j <= k <= l <= |s|
    ensures DisjointCpus(s[i..j], s[k..l]) && DisjointCpus(s[k..l], s[i..j])
  {
    forall x | x in s[i..j] ensures x !in s[k..l] {
      var m :| i <= m < j && s[m] == x;
    }
  }

  lemma {:induction false} SlicesDisjoint(allowed: seq<int>, total: nat, a: nat, b: nat)
    requires Increasing(allowed) && a < b < total
    ensures DisjointCpus(Slice(allowed, total, a), Slice(allowed, total, b))
    ensures DisjointCpus(Slice(allowed, total, b), Slice(allowed, total, a))
  {
    var n := |allowed|;
    StartMonotone(n, total, a, b);
    SlicesAbut(n, total, b);
    StartMonotone(n, total, b + 1, total);
    PartsDisjoint(allowed, Start(n, total, a), Start(n, total, a) + Take(n, total, a),
                  Start(n, total, b), Start(n, total, b) + Take(n, total, b));
  }

  ghost predicate NeverConflict(allowed: seq<int>, p: nat, q: nat) {
    forall a, b :: 0 <= a < p && 0 <= b < q && a != b ==> DisjointCpus(Slice(allowed, p, a), Slice(allowed, q, b))
  }

  // Two processes with the same CPUs, slicing for p and for q NPUs, keep all
  // different NPUs apart exactly when p and q are the same number.
  lemma {:induction false} SlicingAgreesIff(allowed: seq<int>, p: nat, q: nat)
    requires Increasing(allowed) && 0 < p <= |allowed| && 0 < q <= |allowed|
    ensures NeverConflict(allowed, p, q) <==> p == q
  {
    if p == q {
      forall a, b | 0 <= a < p && 0 <= b < q && a != b
        ensures DisjointCpus(Slice(allowed, p, a), Slice(allowed, q, b))
      {
        if a < b { SlicesDisjoint(allowed, p, a, b); } else { SlicesDisjoint(allowed, p, b, a); }
      }
    } else {
      LastSliceEndsList(allowed, p);
      LastSliceEndsList(allowed, q);
      assert !DisjointCpus(Slice(allowed, p, p - 1), Slice(allowed, q, q - 1));
    }
  }

  lemma {:induction false} LastSliceEndsList(allowed: seq<int>, p: nat)
    requires 0 < p <= |allowed|
    ensures allowed[|allowed| - 1] in Slice(allowed, p, p - 1)
  {
    SlicesAbut(|allowed|, p, p - 1);
    BaseIsPositive(|allowed|, p);
    var s := Slice(allowed, p, p - 1);
    assert s[|s| - 1] == allowed[|allowed| - 1];
  }

  lemma {:induction false} BaseIsPositive(n: nat, p: nat)
    requires 0 < p <= n
    ensures n / p >= 1
  {
    assert n == p * (n / p) + n % p;
  }

  // ------------------------------------------------------------- one process

  datatype Failure =
    | InsufficientCpus
    | InvalidNpu(npu: int)
    | AffinityConflict(conflict: int)
    | UnknownCpu(cpu: int)
    | MissingNpu(missing: int)

  datatype DeviceInfo = DeviceInfo(allowed: seq<int>, running: seq<int>, affinity: map<int, seq<int>>,
                                   logicNpus: seq<int>)

  // The number of NPUs to slice for: the NPU map, else the topology, else what is visible.
  function TotalNpus(info: DeviceInfo): nat {
    if |info.logicNpus| > 0 then |info.logicNpus|
    else if |info.affinity| > 0 then |info.affinity|
    else |info.running|
  }

  predicate Sliceable(info: DeviceInfo, minCpus: nat) {
    TotalNpus(info) > 0 && |SortedSet(info.allowed)| / TotalNpus(info) >= minCpus
  }

  // The pools of the NPUs in a list, each cut out by its own id.
  ghost predicate SlicedPools(pools: map<int, seq<int>>, npus: seq<int>, allowed: seq<int>, total: nat) {
    && (forall npu :: npu in pools <==> npu in npus)
    && (forall npu :: npu in pools ==> 0 <= npu < total && pools[npu] == Slice(allowed, total, npu))
  }

  method SliceVisible(running: seq<int>, allowed: seq<int>, total: nat)
    returns (pools: map<int, seq<int>>, error: Option<Failure>)
    requires total > 0
    ensures error.None? <==> forall i :: 0 <= i < |running| ==> 0 <= running[i] < total
    ensures error.None? ==> SlicedPools(pools, running, allowed, total)
  {
    pools, error := map[], None;
    for i := 0 to |running|
      invariant forall j :: 0 <= j < i ==> 0 <= running[j] < total
      invariant SlicedPools(pools, running[..i], allowed, total)
    {
      var npu := running[i];
      if npu < 0 || npu >= total {
        return pools, Some(InvalidNpu(npu));
      }
      assert running[..i + 1] == running[..i] + [npu];
      pools := pools[npu := Slice(allowed, total, npu)];
    }
    assert running[..|running|] == running;
  }

  predicate Idle(info: DeviceInfo) { info.running == [] || info.allowed == [] }

  // Slicing succeeds: there is nothing to do, or there are enough CPUs and every
  // visible id is one of the NPUs sliced for.
  ghost predicate CanSlice(info: DeviceInfo, minCpus: nat) {
    || Idle(info)
    || (&& Sliceable(info, minCpus)
        && forall i :: 0 <= i < |info.running| ==> 0 <= info.running[i] < TotalNpus(info))
  }

  ghost predicate SlicedResult(pools: map<int, seq<int>>, info: DeviceInfo) {
    if Idle(info) then pools == map[]
    else SlicedPools(pools, info.running, SortedSet(info.allowed), TotalNpus(info))
  }

  // Builds the pools of the visible NPUs by slicing.
  method BuildGlobalSlicePools(info: DeviceInfo, minCpus: nat)
    returns (pools: map<int, seq<int>>, error: Option<Failure>)
    ensures error.None? <==> CanSlice(info, minCpus)
    ensures error.None? ==> SlicedResult(pools, info)
  {
    var allowed := SortedSet(info.allowed);
    assert info.allowed == [] <==> allowed == [] by {
      assert info.allowed != [] ==> info.allowed[0] in allowed;
      assert allowed != [] ==> allowed[0] in info.allowed;
    }
    if info.running == [] || |allowed| == 0 {
      return map[], None;
    }
    var total := TotalNpus(info);
    if |allowed| / total < minCpus {
      return map[], Some(InsufficientCpus);
    }
    pools, error := SliceVisible(info.running, allowed, total);
  }

  // Two processes of one machine: the same CPUs and the same number of NPUs to slice for.
  lemma {:induction false} ProcessesNeverConflict(p: DeviceInfo, q: DeviceInfo, a: nat, b: nat)
    requires SameElements(p.allowed, q.allowed) && TotalNpus(p) == TotalNpus(q)
    requires a < TotalNpus(p) && b < TotalNpus(q) && a != b
    ensures DisjointCpus(Slice(SortedSet(p.allowed), TotalNpus(p), a), Slice(SortedSet(q.allowed), TotalNpus(q), b))
  {
    IncreasingIsUnique(SortedSet(p.allowed), SortedSet(q.allowed));
    if a < b {
      SlicesDisjoint(SortedSet(p.allowed), TotalNpus(p), a, b);
    } else {
      SlicesDisjoint(SortedSet(p.allowed), TotalNpus(p), b, a);
    }
  }

  // There are enough CPUs to slice exactly when every NPU's slice has the minimum.
  lemma {:induction false} SliceableIff(info: DeviceInfo, minCpus: nat)
    requires TotalNpus(info) > 0
    ensures Sliceable(info, minCpus) <==>
            forall npu :: 0 <= npu < TotalNpus(info) ==>
              |Slice(SortedSet(info.allowed), TotalNpus(info), npu)| >= minCpus
  {
    var allowed, total := SortedSet(info.allowed), TotalNpus(info);
    assert |Slice(allowed, total, total - 1)| == |allowed| / total;
  }

  // What discovery ensures: some NPU runs, and every running NPU was resolved
  // through the NPU map.
  ghost predicate Discovered(info: DeviceInfo) {
    info.running != [] && forall npu :: npu in info.running ==> npu in info.logicNpus
  }

  // So the fallbacks of the NPU count are never taken.
  lemma {:induction false} DiscoveredCountsTheMap(info: DeviceInfo)
    requires Discovered(info)
    ensures TotalNpus(info) == |info.logicNpus| > 0
  {
    var npu := info.running[0];
    assert npu in info.running && npu in info.logicNpus;
  }
}
