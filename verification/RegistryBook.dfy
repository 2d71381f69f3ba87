// The bookkeeping invariant of the registry.  It holds in every reachable state,
// with no assumption on requests, on ACL replies or on the id spaces.
module RegistryBook {
  import opened Options
  import opened HostRange
  import opened Registry

  // The live handles that carry a mapping id.
  ghost function Holders(leases: map<int, Lease>, id: nat): set<int> {
    set h | h in leases && leases[h].mappingId == id
  }

  ghost function OwnedCount(ms: seq<Mapping>): nat {
    if ms == [] then 0 else (if ms[0].owned then 1 else 0) + OwnedCount(ms[1..])
  }

  ghost function OwnedBytes(ms: seq<Mapping>): nat {
    if ms == [] then 0 else (if ms[0].owned then ms[0].size else 0) + OwnedBytes(ms[1..])
  }

  // The lease says of its mapping exactly what the mapping is.
  ghost predicate Backs(m: Mapping, l: Lease) {
    && m.id == l.mappingId
    && m.device == l.device
    && m.owned == l.owned == !l.alreadyMapped
    && m.base == l.mappedBase && m.size == l.mappedBytes
    && l.deviceAddr == m.deviceBase + (l.addr - m.base)
    && l.bytes > 0
    && Within(Range(l.addr, l.bytes), m.Bytes())
  }

  ghost predicate Increasing(s: State) {
    && 0 < s.nextId
    && (forall i :: 0 <= i < |s.mappings| ==> 0 < s.mappings[i].id < s.nextId && s.mappings[i].size > 0)
    && (forall i, j :: 0 <= i < j < |s.mappings| ==> s.mappings[i].id < s.mappings[j].id)
  }

  ghost predicate LeasesBacked(s: State) {
    forall h :: h in s.leases ==>
      && h < s.nextHandle
      && s.leases[h].handle == h
      && s.leases[h].active
      && exists k :: 0 <= k < |s.mappings| && Backs(s.mappings[k], s.leases[h])
  }

  ghost predicate RefsCounted(s: State) {
    forall k :: 0 <= k < |s.mappings| ==> s.mappings[k].refs == |Holders(s.leases, s.mappings[k].id)|
  }

  ghost predicate Conserved(s: State) {
    && s.counters.registerCalls - s.counters.unregisterCalls == OwnedCount(s.mappings)
    && s.counters.bytesCurrent == OwnedBytes(s.mappings)
    && s.counters.bytesCurrent <= s.counters.bytesPeak <= s.counters.bytesTotal
  }

  ghost predicate Book(s: State) {
    && Increasing(s)
    && LeasesBacked(s)
    && RefsCounted(s)
    && Conserved(s)
  }

  // ------------------------------------------------------- sums over mappings

  lemma {:induction false} OwnedSumsConcat(a: seq<Mapping>, b: seq<Mapping>)
    ensures OwnedCount(a + b) == OwnedCount(a) + OwnedCount(b)
    ensures OwnedBytes(a + b) == OwnedBytes(a) + OwnedBytes(b)
  {
    if a == [] {
      assert a + b == b;
    } else {
      assert (a + b)[1..] == a[1..] + b;
      OwnedSumsConcat(a[1..], b);
    }
  }

  lemma {:induction false} OwnedSumsAt(ms: seq<Mapping>, k: nat)
    requires k < |ms|
    ensures OwnedCount(ms) == OwnedCount(ms[..k] + ms[k + 1..]) + (if ms[k].owned then 1 else 0)
    ensures OwnedBytes(ms) == OwnedBytes(ms[..k] + ms[k + 1..]) + (if ms[k].owned then ms[k].size else 0)
  {
    if k == 0 {
      assert ms[..k] + ms[k + 1..] == ms[1..];
    } else {
      OwnedSumsAt(ms[1..], k - 1);
      assert (ms[..k] + ms[k + 1..])[1..] == ms[1..][..k - 1] + ms[1..][k..];
    }
  }

  lemma {:induction false} OwnedSumsIgnoreRefs(ms: seq<Mapping>, k: nat, refs: nat)
    requires k < |ms|
    ensures OwnedCount(ms[k := ms[k].(refs := refs)]) == OwnedCount(ms)
    ensures OwnedBytes(ms[k := ms[k].(refs := refs)]) == OwnedBytes(ms)
  {
    var ms' := ms[k := ms[k].(refs := refs)];
    OwnedSumsAt(ms, k);
    OwnedSumsAt(ms', k);
    assert ms'[..k] + ms'[k + 1..] == ms[..k] + ms[k + 1..];
  }

  // With increasing ids, removing by id removes one position and keeps the order.
  lemma {:induction false} RemoveByIdIsSlice(ms: seq<Mapping>, k: nat)
    requires k < |ms|
    requires forall i, j :: 0 <= i < j < |ms| ==> ms[i].id < ms[j].id
    ensures RemoveById(ms, ms[k].id) == ms[..k] + ms[k + 1..]
  {
    if k == 0 {
      RemoveAbsent(ms[1..], ms[0].id);
    } else {
      RemoveByIdIsSlice(ms[1..], k - 1);
      assert ms[0].id != ms[k].id;
      SliceFromFirst(ms, k);
    }
  }

  lemma {:induction false} SliceFromFirst(ms: seq<Mapping>, k: nat)
    requires 0 < k < |ms|
    ensures ms[..k] + ms[k + 1..] == [ms[0]] + (ms[1..][..k - 1] + ms[1..][k..])
  {
  }

  lemma {:induction false} RemoveAbsent(ms: seq<Mapping>, id: nat)
    requires forall i :: 0 <= i < |ms| ==> ms[i].id != id
    ensures RemoveById(ms, id) == ms
  {
    if ms == [] {
    } else {
      RemoveAbsent(ms[1..], id);
    }
  }

  lemma {:induction false} FindByIdUnique(s: State, k: nat)
    requires Increasing(s) && k < |s.mappings|
    ensures FindById(s.mappings, s.mappings[k].id) == k
  {
  }

  // The mapping behind a live lease.
  lemma {:induction false} BackingIndex(s: State, h: int) returns (k: nat)
    requires Book(s) && h in s.leases
    ensures k < |s.mappings| && Backs(s.mappings[k], s.leases[h])
    ensures FindById(s.mappings, s.leases[h].mappingId) == k
    ensures s.mappings[k].refs > 0
  {
    var k0 :| 0 <= k0 < |s.mappings| && Backs(s.mappings[k0], s.leases[h]);
    k := k0;
    FindByIdUnique(s, k);
    assert h in Holders(s.leases, s.mappings[k].id);
  }

  // ------------------------------------------------------------ preservation

  lemma {:induction false} InitBook(pid: nat)
    ensures Book(Init(pid))
  {
  }

  lemma {:induction false} AddMappingBook(s: State, bytes: Range, deviceBase: int, device: int, owned: bool)
    requires Book(s) && bytes.size > 0
    ensures Book(AddMapping(s, bytes, deviceBase, device, owned))
  {
    var s' := AddMapping(s, bytes, deviceBase, device, owned);
    var n := |s.mappings|;
    OwnedSumsConcat(s.mappings, [s'.mappings[n]]);
    forall h | h in s.leases
      ensures exists k :: 0 <= k < |s'.mappings| && Backs(s'.mappings[k], s'.leases[h])
    {
      var k := BackingIndex(s, h);
      assert Backs(s'.mappings[k], s'.leases[h]);
    }
    assert Holders(s.leases, s.nextId) == {} by {
      forall h | h in s.leases ensures s.leases[h].mappingId != s.nextId {
        var k := BackingIndex(s, h);
      }
    }
  }

  lemma {:induction false} IssueLeases(s: State, k: nat, req: Request, device: int)
    requires Book(s) && k < |s.mappings|
    requires req.bytes > 0 && Within(req.AsRange(), s.mappings[k].Bytes()) && s.mappings[k].device == device
    ensures LeasesBacked(Issue(s, k, req, device))
  {
    var s' := Issue(s, k, req, device);
    forall h | h in s'.leases
      ensures h < s'.nextHandle && s'.leases[h].handle == h && s'.leases[h].active
      ensures exists j :: 0 <= j < |s'.mappings| && Backs(s'.mappings[j], s'.leases[h])
    {
      if h == s.nextHandle {
        assert Backs(s'.mappings[k], s'.leases[h]);
      } else {
        var j := BackingIndex(s, h);
        assert Backs(s'.mappings[j], s'.leases[h]);
      }
    }
  }

  lemma {:induction false} IssueRefs(s: State, k: nat, req: Request, device: int)
    requires Book(s) && k < |s.mappings|
    ensures RefsCounted(Issue(s, k, req, device))
  {
    var s' := Issue(s, k, req, device);
    assert s.nextHandle !in s.leases;
    forall j | 0 <= j < |s'.mappings|
      ensures s'.mappings[j].refs == |Holders(s'.leases, s'.mappings[j].id)|
    {
      var id := s.mappings[j].id;
      if j == k {
        assert Holders(s'.leases, id) == Holders(s.leases, id) + {s.nextHandle};
      } else {
        assert Holders(s'.leases, id) == Holders(s.leases, id);
      }
    }
  }

  lemma {:induction false} IssueBook(s: State, k: nat, req: Request, device: int)
    requires Book(s) && k < |s.mappings|
    requires req.bytes > 0 && Within(req.AsRange(), s.mappings[k].Bytes()) && s.mappings[k].device == device
    ensures Book(Issue(s, k, req, device))
  {
    IssueLeases(s, k, req, device);
    IssueRefs(s, k, req, device);
    OwnedSumsIgnoreRefs(s.mappings, k, s.mappings[k].refs + 1);
  }

  lemma {:induction false} DropReferenceLeases(s: State, h: int, k: nat, s': State)
    requires Book(s) && k < |s.mappings|
    requires s'.leases == s.leases - {h} && s'.nextHandle == s.nextHandle
    requires exists refs: nat :: s'.mappings == s.mappings[k := s.mappings[k].(refs := refs)]
    ensures LeasesBacked(s')
  {
    forall g | g in s'.leases
      ensures exists j :: 0 <= j < |s'.mappings| && Backs(s'.mappings[j], s'.leases[g])
    {
      var j := BackingIndex(s, g);
      assert Backs(s'.mappings[j], s'.leases[g]);
    }
  }

  lemma {:induction false} DropReferenceRefs(s: State, h: int, k: nat, s': State)
    requires Book(s) && h in s.leases && k < |s.mappings|
    requires s.mappings[k].id == s.leases[h].mappingId && s.mappings[k].refs > 1
    requires s'.mappings == s.mappings[k := s.mappings[k].(refs := s.mappings[k].refs - 1)]
    requires s'.leases == s.leases - {h} && s'.nextId == s.nextId
    ensures RefsCounted(s') && Increasing(s')
  {
    EraseHolders(s, h, k, s'.leases);
    forall j | 0 <= j < |s'.mappings|
      ensures s'.mappings[j].refs == |Holders(s'.leases, s'.mappings[j].id)|
      ensures s'.mappings[j].id == s.mappings[j].id && s'.mappings[j].size == s.mappings[j].size
    {
    }
  }

  lemma {:induction false} DropReferenceBook(s: State, h: int, k: nat)
    requires Book(s) && h in s.leases && k < |s.mappings|
    requires s.mappings[k].id == s.leases[h].mappingId && s.mappings[k].refs > 1
    ensures Book(EraseLease(DropReference(s, k), h))
  {
    var s' := EraseLease(DropReference(s, k), h);
    assert Conserved(s') by {
      OwnedSumsIgnoreRefs(s.mappings, k, s.mappings[k].refs - 1);
    }
    DropReferenceLeases(s, h, k, s');
    DropReferenceRefs(s, h, k, s');
  }

  lemma {:induction false} DropMappingLeases(s: State, h: int, k: nat, s': State)
    requires Book(s) && h in s.leases && k < |s.mappings|
    requires s.mappings[k].id == s.leases[h].mappingId && s.mappings[k].refs == 1
    requires s'.mappings == s.mappings[..k] + s.mappings[k + 1..]
    requires s'.leases == s.leases - {h} && s'.nextHandle == s.nextHandle
    ensures LeasesBacked(s')
  {
    SoleHolder(s, h, k);
    forall g | g in s'.leases
      ensures exists j :: 0 <= j < |s'.mappings| && Backs(s'.mappings[j], s'.leases[g])
    {
      var j := BackingIndex(s, g);
      var j' := if j < k then j else j - 1;
      assert s'.mappings[j'] == s.mappings[j];
      assert Backs(s'.mappings[j'], s'.leases[g]);
    }
  }

  lemma {:induction false} DropMappingRefs(s: State, h: int, k: nat, s': State)
    requires Book(s) && h in s.leases && k < |s.mappings|
    requires s.mappings[k].id == s.leases[h].mappingId
    requires s'.mappings == s.mappings[..k] + s.mappings[k + 1..]
    requires s'.leases == s.leases - {h}
    ensures RefsCounted(s')
  {
    EraseHolders(s, h, k, s'.leases);
    forall j | 0 <= j < |s'.mappings| ensures s'.mappings[j].refs == |Holders(s'.leases, s'.mappings[j].id)| {
      var i := if j < k then j else j + 1;
      assert s'.mappings[j] == s.mappings[i];
    }
  }

  lemma {:induction false} RemovalKeepsIncreasing(s: State, k: nat, s': State)
    requires Increasing(s) && k < |s.mappings|
    requires s'.mappings == s.mappings[..k] + s.mappings[k + 1..] && s'.nextId == s.nextId
    ensures Increasing(s')
  {
    forall j | 0 <= j < |s'.mappings| ensures s'.mappings[j] == s.mappings[if j < k then j else j + 1] {
    }
  }

  lemma {:induction false} DropMappingBook(s: State, h: int, k: nat)
    requires Book(s) && h in s.leases && k < |s.mappings|
    requires s.mappings[k].id == s.leases[h].mappingId && s.mappings[k].refs == 1
    ensures DropMapping(s, k).mappings == s.mappings[..k] + s.mappings[k + 1..]
    ensures Book(EraseLease(DropMapping(s, k), h))
  {
    var s' := EraseLease(DropMapping(s, k), h);
    RemoveByIdIsSlice(s.mappings, k);
    OwnedSumsAt(s.mappings, k);
    DropMappingLeases(s, h, k, s');
    DropMappingRefs(s, h, k, s');
    RemovalKeepsIncreasing(s, k, s');
  }

  // Erasing one lease takes one holder from its mapping and none from the others.
  lemma {:induction false} EraseHolders(s: State, h: int, k: nat, leases: map<int, Lease>)
    requires Book(s) && h in s.leases && k < |s.mappings|
    requires s.mappings[k].id == s.leases[h].mappingId
    requires leases == s.leases - {h}
    ensures forall j :: 0 <= j < |s.mappings| ==>
              |Holders(leases, s.mappings[j].id)| == s.mappings[j].refs - (if j == k then 1 else 0)
  {
    forall j | 0 <= j < |s.mappings|
      ensures |Holders(leases, s.mappings[j].id)| == s.mappings[j].refs - (if j == k then 1 else 0)
    {
      var id := s.mappings[j].id;
      if j == k {
        assert Holders(leases, id) == Holders(s.leases, id) - {h};
        assert h in Holders(s.leases, id);
      } else {
        assert Holders(leases, id) == Holders(s.leases, id);
      }
    }
  }

  lemma {:induction false} SoleHolder(s: State, h: int, k: nat)
    requires Book(s) && h in s.leases && k < |s.mappings|
    requires s.mappings[k].id == s.leases[h].mappingId && s.mappings[k].refs == 1
    ensures forall g :: g in s.leases && g != h ==> s.leases[g].mappingId != s.mappings[k].id
  {
    var holders := Holders(s.leases, s.mappings[k].id);
    forall g | g in s.leases && g != h
      ensures s.leases[g].mappingId != s.mappings[k].id
    {
      if s.leases[g].mappingId == s.mappings[k].id {
        assert {h, g} <= holders;
        assert |{h, g}| <= |holders| by { SubsetSize({h, g}, holders); }
      }
    }
  }

  lemma {:induction false} SubsetSize(a: set<int>, b: set<int>)
    requires a <= b
    ensures |a| <= |b|
  {
    assert b == a + (b - a);
  }

  // A containing mapping really holds the request's bytes, wrapped end or not.
  lemma {:induction false} ContainsIsWithin(m: Mapping, req: Request)
    requires m.Contains(req.addr, req.bytes)
    ensures Within(req.AsRange(), m.Bytes())
  {
  }

  lemma {:induction false} CountCallBook(s: State)
    requires Book(s)
    ensures Book(CountCall(s))
  {
    var s1 := CountCall(s);
    assert s1.mappings == s.mappings && s1.leases == s.leases && s1.nextHandle == s.nextHandle;
  }

  lemma {:induction false} AddAndIssueBook(s: State, bytes: Range, deviceBase: int, device: int, owned: bool,
                                           req: Request, pinned: Option<Range>)
    requires Book(s) && req.bytes > 0 && Within(req.AsRange(), bytes)
    ensures Book(IssueOrThrow(AddMapping(s, bytes, deviceBase, device, owned), |s.mappings|, req, device, pinned).state)
  {
    AddMappingBook(s, bytes, deviceBase, device, owned);
    IssueBook(AddMapping(s, bytes, deviceBase, device, owned), |s.mappings|, req, device);
  }

  lemma {:induction false} RegisterBook(s: State, req: Request, page: int, env: RegisterEnv)
    requires Book(s)
    ensures Book(Register(s, req, page, env).state)
  {
    if GetHostRange(req, page).Returned? && env.device >= 0 {
      CountCallBook(s);
      var plan := PlanFor(s, req, env);
      if plan.Reuse? {
        ContainsIsWithin(s.mappings[plan.index], req);
        IssueBook(CountCall(s), plan.index, req, env.device);
      } else if plan.Borrow? {
        AddAndIssueBook(CountCall(s), req.AsRange(), plan.alias, env.device, false, req, None);
      } else if plan.Own? {
        var pages := GetHostRange(req, page).value.Pages();
        AddAndIssueBook(CountCall(s), pages, plan.newBase, env.device, true, req, Some(pages));
      }
    }
  }

  lemma {:induction false} ReleaseBook(s: State, handle: int, env: ReleaseEnv)
    requires Book(s)
    ensures Book(Release(s, handle, env).state)
  {
    if env.device >= 0 && handle in s.leases {
      var k := BackingIndex(s, handle);
      if s.mappings[k].refs > 1 {
        DropReferenceBook(s, handle, k);
      } else {
        DropMappingBook(s, handle, k);
      }
    }
  }

  // What a successful release does, and that nothing else changes the state.
  lemma {:induction false} ReleaseEffect(s: State, handle: int, env: ReleaseEnv, k: nat)
    requires Book(s) && handle in s.leases && k < |s.mappings|
    requires FindById(s.mappings, s.leases[handle].mappingId) == k
    requires Release(s, handle, env).outcome == Returned(true)
    ensures var r := Release(s, handle, env);
            var m := s.mappings[k];
            && r.state.leases == s.leases - {handle} && m.device == env.device
            && r.fenced == (m.refs == 1)
            && if m.refs == 1 then
                 && r.state.mappings == s.mappings[..k] + s.mappings[k + 1..]
                 && r.unpinned == if m.owned then Some(m.base) else None
               else
                 m.refs > 1 && r.state.mappings == s.mappings[k := m.(refs := m.refs - 1)] && r.unpinned.None?
  {
    RemoveByIdIsSlice(s.mappings, k);
  }

  lemma {:induction false} ReleaseWithoutEffect(s: State, handle: int, env: ReleaseEnv)
    requires Release(s, handle, env).outcome != Returned(true)
    ensures Release(s, handle, env).state == s && Release(s, handle, env).unpinned.None?
  {
  }

  // A release leaves the mappings alone, or takes one reference, or removes one
  // mapping of the current device behind a completed fence.
  lemma {:induction false} ReleaseShape(s: State, handle: int, env: ReleaseEnv) returns (i: nat)
    requires Book(s)
    ensures var r := Release(s, handle, env);
            var ms, ms' := s.mappings, r.state.mappings;
            || ms' == ms
            || (i < |ms| && ms[i].refs > 1 && ms' == ms[i := ms[i].(refs := ms[i].refs - 1)])
            || (i < |ms| && r.fenced && ms[i].device == env.device && ms' == ms[..i] + ms[i + 1..])
  {
    i := 0;
    if env.device >= 0 && handle in s.leases {
      i := BackingIndex(s, handle);
      RemoveByIdIsSlice(s.mappings, i);
    }
  }

  // The two internal checks of a release are dead: no environment reaches them.
  lemma {:induction false} ReleaseChecksNeverFire(s: State, handle: int, env: ReleaseEnv)
    requires Book(s)
    ensures Release(s, handle, env).outcome != Threw(NoMapping)
    ensures Release(s, handle, env).outcome != Threw(InvalidReferenceCount)
    ensures env.device >= 0 ==> (Release(s, handle, env).outcome == Returned(false) <==> handle !in s.leases)
  {
    if handle in s.leases {
      var k := BackingIndex(s, handle);
    }
  }
}
