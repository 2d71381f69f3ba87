// Where mappings may overlap, and why a lookup still finds the right one.
// The overlap check looks at the request, but an owned mapping covers whole
// pages, so mappings are not disjoint in general.  What every run keeps is
// relative to the request that created each mapping (its origin).
module RegistryGeometry {
  import opened Options
  import opened Arithmetic
  import opened HostRange
  import opened Registry
  import opened RegistryBook

  // The request that created each mapping, by mapping id.
  type Origins = map<nat, Range>

  ghost predicate Placed(page: int, m: Mapping, origin: Range) {
    && m.base <= U64_MAX && m.size <= U64_MAX
    && (m.owned ==> PageCover(origin, m.Bytes(), page))
    && (!m.owned ==> m.Bytes() == origin && origin.size > 0)
  }

  ghost predicate AllPlaced(page: int, ms: seq<Mapping>, origins: Origins) {
    forall k :: 0 <= k < |ms| ==> ms[k].id in origins && Placed(page, ms[k], origins[ms[k].id])
  }

  // No mapping meets the origin of a later one.
  ghost predicate OriginsClear(ms: seq<Mapping>, origins: Origins)
    requires forall k :: 0 <= k < |ms| ==> ms[k].id in origins
  {
    forall i, j :: 0 <= i < j < |ms| ==> !Overlaps(ms[i].Bytes(), origins[ms[j].id])
  }

  // A mapping whose 64-bit end wraps is the newest one.
  ghost predicate OnlyLastWraps(ms: seq<Mapping>) {
    forall i :: 0 <= i < |ms| - 1 ==> !ms[i].Wrapped()
  }

  // No mapping before a lease's own mapping contains the leased range.
  ghost predicate LeasesFirst(s: State) {
    forall h, i, k :: h in s.leases && 0 <= i < k < |s.mappings| && s.mappings[k].id == s.leases[h].mappingId ==>
      !s.mappings[i].Contains(s.leases[h].addr, s.leases[h].bytes)
  }

  // Every leased range is one that the address checks accept.
  ghost predicate LeasesChecked(page: int, s: State) {
    forall h :: h in s.leases ==>
      && GetHostRange(Request(s.leases[h].addr, s.leases[h].bytes), page).Returned?
      && s.leases[h].device >= 0
  }

  ghost predicate Geometry(page: int, s: State, origins: Origins) {
    && LeasesChecked(page, s)
    && AllPlaced(page, s.mappings, origins)
    && OriginsClear(s.mappings, origins)
    && OnlyLastWraps(s.mappings)
    && LeasesFirst(s)
  }

  // The condition a caller can check: the request's page-rounded end is a 64-bit address.
  predicate Addressable(req: Request, page: int) {
    var r := GetHostRange(req, page);
    r.Returned? ==> r.value.aligned + r.value.registerSize <= U64_MAX
  }

  // The 64-bit end is the true end, unless it wraps.
  lemma {:induction false} EndOrWrap(page: int, m: Mapping, origin: Range)
    requires Placed(page, m, origin)
    ensures if m.base + m.size <= U64_MAX then !m.Wrapped() && m.End64() == m.base + m.size
            else m.Wrapped() && m.End64() == m.base + m.size - U64_SPAN
  {
    if m.base + m.size > U64_MAX {
      assert (m.base + m.size - U64_SPAN) % U64_SPAN == m.base + m.size - U64_SPAN;
    }
  }

  // A wrapped mapping contains no request that the address checks accept.
  lemma {:induction false} WrappedContainsNothing(m: Mapping, addr: nat, bytes: nat)
    requires m.Wrapped()
    ensures !m.Contains(addr, bytes)
  {
  }

  // ------------------------------------------------------------ preservation

  lemma {:induction false} ClashFree(page: int, ms: seq<Mapping>, origins: Origins, req: Request)
    requires AllPlaced(page, ms, origins)
    requires OverlapError(ms, req.addr, req.bytes).None?
    ensures forall i :: 0 <= i < |ms| ==> !ms[i].Wrapped() && !Overlaps(ms[i].Bytes(), req.AsRange())
  {
    forall i | 0 <= i < |ms| ensures !ms[i].Wrapped() && !Overlaps(ms[i].Bytes(), req.AsRange()) {
      assert !ms[i].Wrapped() && !ms[i].Meets(req.addr, req.bytes);
      EndOrWrap(page, ms[i], origins[ms[i].id]);
    }
  }

  lemma {:induction false} AddMappingPlaced(page: int, s: State, origins: Origins, m: Mapping, origin: Range)
    requires Increasing(s) && AllPlaced(page, s.mappings, origins) && OriginsClear(s.mappings, origins)
    requires m.id == s.nextId && Placed(page, m, origin)
    requires forall i :: 0 <= i < |s.mappings| ==> !Overlaps(s.mappings[i].Bytes(), origin)
    ensures AllPlaced(page, s.mappings + [m], origins[m.id := origin])
    ensures OriginsClear(s.mappings + [m], origins[m.id := origin])
  {
    var ms, origins' := s.mappings + [m], origins[m.id := origin];
    forall k | 0 <= k < |ms| ensures ms[k].id in origins' && Placed(page, ms[k], origins'[ms[k].id]) {
      if k < |s.mappings| {
        assert Placed(page, s.mappings[k], origins[s.mappings[k].id]);
      }
    }
    forall i, j | 0 <= i < j < |ms| ensures !Overlaps(ms[i].Bytes(), origins'[ms[j].id]) {
      assert j < |s.mappings| ==> !Overlaps(s.mappings[i].Bytes(), origins[s.mappings[j].id]);
    }
  }

  lemma {:induction false} AddMappingLeasesFirst(s: State, m: Mapping, s': State)
    requires Book(s) && LeasesFirst(s) && m.id == s.nextId
    requires s'.mappings == s.mappings + [m] && s'.leases == s.leases
    ensures LeasesFirst(s')
  {
    forall h, i, k | h in s'.leases && 0 <= i < k < |s'.mappings| && s'.mappings[k].id == s'.leases[h].mappingId
      ensures !s'.mappings[i].Contains(s'.leases[h].addr, s'.leases[h].bytes)
    {
      var j := BackingIndex(s, h);
      assert s.mappings[j].id == s.leases[h].mappingId;
      assert k < |s.mappings|;
      assert s'.mappings[i] == s.mappings[i] && s'.mappings[k] == s.mappings[k];
    }
  }

  // Adding the mapping that a clash-free request asks for.
  lemma {:induction false} AddMappingGeometry(page: int, s: State, origins: Origins, req: Request, bytes: Range,
                                              deviceBase: int, device: int, owned: bool)
    requires Book(s) && Geometry(page, s, origins)
    requires OverlapError(s.mappings, req.addr, req.bytes).None?
    requires bytes.base <= U64_MAX && bytes.size <= U64_MAX && req.bytes > 0
    requires if owned then PageCover(req.AsRange(), bytes, page) else bytes == req.AsRange()
    ensures Geometry(page, AddMapping(s, bytes, deviceBase, device, owned), origins[s.nextId := req.AsRange()])
  {
    var s' := AddMapping(s, bytes, deviceBase, device, owned);
    var m := s'.mappings[|s.mappings|];
    ClashFree(page, s.mappings, origins, req);
    AddMappingPlaced(page, s, origins, m, req.AsRange());
    AddMappingLeasesFirst(s, m, s');
  }

  // Counting references changes nothing that the geometry looks at.
  lemma {:induction false} RefsKeepPlaces(page: int, ms: seq<Mapping>, origins: Origins, k: nat, refs: nat)
    requires k < |ms| && AllPlaced(page, ms, origins) && OriginsClear(ms, origins) && OnlyLastWraps(ms)
    ensures var ms' := ms[k := ms[k].(refs := refs)];
            AllPlaced(page, ms', origins) && OriginsClear(ms', origins) && OnlyLastWraps(ms')
  {
    var ms' := ms[k := ms[k].(refs := refs)];
    forall j | 0 <= j < |ms'| ensures ms'[j].id in origins && Placed(page, ms'[j], origins[ms'[j].id]) {
      assert Placed(page, ms[j], origins[ms[j].id]);
    }
    forall i, j | 0 <= i < j < |ms'| ensures !Overlaps(ms'[i].Bytes(), origins[ms'[j].id]) {
      assert !Overlaps(ms[i].Bytes(), origins[ms[j].id]);
    }
    forall i | 0 <= i < |ms'| - 1 ensures !ms'[i].Wrapped() {
      assert !ms[i].Wrapped();
    }
  }

  lemma {:induction false} IssueGeometry(page: int, s: State, origins: Origins, k: nat, req: Request, device: int)
    requires Book(s) && Geometry(page, s, origins) && k < |s.mappings|
    requires GetHostRange(req, page).Returned? && device >= 0
    requires forall i :: 0 <= i < k ==> !s.mappings[i].Contains(req.addr, req.bytes)
    ensures Geometry(page, Issue(s, k, req, device), origins)
  {
    RefsKeepPlaces(page, s.mappings, origins, k, s.mappings[k].refs + 1);
    IssueLeasesFirst(s, k, req, device);
  }

  lemma {:induction false} IssueLeasesFirst(s: State, k: nat, req: Request, device: int)
    requires Increasing(s) && LeasesFirst(s) && k < |s.mappings|
    requires forall i :: 0 <= i < k ==> !s.mappings[i].Contains(req.addr, req.bytes)
    ensures LeasesFirst(Issue(s, k, req, device))
  {
    var s' := Issue(s, k, req, device);
    forall h, i, j | h in s'.leases && 0 <= i < j < |s'.mappings| && s'.mappings[j].id == s'.leases[h].mappingId
      ensures !s'.mappings[i].Contains(s'.leases[h].addr, s'.leases[h].bytes)
    {
      var l := s'.leases[h];
      assert s'.mappings[i].Contains(l.addr, l.bytes) == s.mappings[i].Contains(l.addr, l.bytes);
      assert s'.mappings[j].id == s.mappings[j].id;
      if h !in s.leases || s.leases[h] != l {
        assert j == k;
      }
    }
  }

  // The old position of what is now at position j.
  ghost function Source(k: nat, gone: bool, j: nat): nat {
    if gone && j >= k then j + 1 else j
  }

  lemma {:induction false} RemovalKeepsPlaces(page: int, ms: seq<Mapping>, origins: Origins, k: nat)
    requires k < |ms| && AllPlaced(page, ms, origins) && OriginsClear(ms, origins) && OnlyLastWraps(ms)
    ensures var ms' := ms[..k] + ms[k + 1..];
            AllPlaced(page, ms', origins) && OriginsClear(ms', origins) && OnlyLastWraps(ms')
  {
    var ms' := ms[..k] + ms[k + 1..];
    forall j | 0 <= j < |ms'| ensures ms'[j].id in origins && Placed(page, ms'[j], origins[ms'[j].id]) {
      assert ms'[j] == ms[Source(k, true, j)];
      assert Placed(page, ms[Source(k, true, j)], origins[ms[Source(k, true, j)].id]);
    }
    forall i, j | 0 <= i < j < |ms'| ensures !Overlaps(ms'[i].Bytes(), origins[ms'[j].id]) {
      assert !Overlaps(ms[Source(k, true, i)].Bytes(), origins[ms[Source(k, true, j)].id]);
    }
    forall i | 0 <= i < |ms'| - 1 ensures !ms'[i].Wrapped() {
      assert !ms[Source(k, true, i)].Wrapped();
    }
  }

  lemma {:induction false} ShrinkLeasesFirst(s: State, s': State, k: nat, gone: bool)
    requires LeasesFirst(s) && k < |s.mappings|
    requires s'.leases.Keys <= s.leases.Keys && forall h :: h in s'.leases ==> s'.leases[h] == s.leases[h]
    requires |s'.mappings| == |s.mappings| - if gone then 1 else 0
    requires forall j :: 0 <= j < |s'.mappings| ==> SamePlace(s'.mappings[j], s.mappings[Source(k, gone, j)])
    ensures LeasesFirst(s')
  {
    forall h, i, j | h in s'.leases && 0 <= i < j < |s'.mappings| && s'.mappings[j].id == s'.leases[h].mappingId
      ensures !s'.mappings[i].Contains(s'.leases[h].addr, s'.leases[h].bytes)
    {
      assert SamePlace(s'.mappings[i], s.mappings[Source(k, gone, i)]);
      assert SamePlace(s'.mappings[j], s.mappings[Source(k, gone, j)]);
      assert s.mappings[Source(k, gone, j)].id == s.leases[h].mappingId;
      assert !s.mappings[Source(k, gone, i)].Contains(s.leases[h].addr, s.leases[h].bytes);
    }
  }

  ghost predicate SamePlace(a: Mapping, b: Mapping) {
    a.id == b.id && a.base == b.base && a.size == b.size
  }

  // Removing one position, or one lease, or one reference keeps the geometry.
  lemma {:induction false} ShrinkGeometry(page: int, s: State, origins: Origins, s': State, k: nat, refs: nat)
    requires Geometry(page, s, origins)
    requires k < |s.mappings|
    requires s'.leases.Keys <= s.leases.Keys && forall h :: h in s'.leases ==> s'.leases[h] == s.leases[h]
    requires s'.mappings == s.mappings[..k] + s.mappings[k + 1..]
          || s'.mappings == s.mappings[k := s.mappings[k].(refs := refs)]
    ensures Geometry(page, s', origins)
  {
    if |s'.mappings| < |s.mappings| {
      RemovalKeepsPlaces(page, s.mappings, origins, k);
      ShrinkLeasesFirst(s, s', k, true);
    } else {
      RefsKeepPlaces(page, s.mappings, origins, k, refs);
      ShrinkLeasesFirst(s, s', k, false);
    }
  }

  ghost function OriginsAfter(s: State, s': State, origins: Origins, req: Request): Origins {
    if |s.mappings| < |s'.mappings| then origins[s.nextId := req.AsRange()] else origins
  }

  lemma {:induction false} CountCallGeometry(page: int, s: State, origins: Origins)
    requires Geometry(page, s, origins)
    ensures Geometry(page, CountCall(s), origins)
  {
  }

  lemma {:induction false} AddAndIssueGeometry(page: int, s: State, origins: Origins, req: Request, bytes: Range,
                                               deviceBase: int, device: int, owned: bool, pinned: Option<Range>)
    requires Book(s) && Geometry(page, s, origins)
    requires FirstContaining(s.mappings, req.addr, req.bytes) == |s.mappings|
    requires OverlapError(s.mappings, req.addr, req.bytes).None?
    requires bytes.base <= U64_MAX && bytes.size <= U64_MAX && GetHostRange(req, page).Returned? && device >= 0
    requires if owned then PageCover(req.AsRange(), bytes, page) else bytes == req.AsRange()
    ensures var added := AddMapping(s, bytes, deviceBase, device, owned);
            var s' := IssueOrThrow(added, |s.mappings|, req, device, pinned).state;
            Geometry(page, s', OriginsAfter(s, s', origins, req))
  {
    var s' := AddMapping(s, bytes, deviceBase, device, owned);
    AddMappingBook(s, bytes, deviceBase, device, owned);
    AddMappingGeometry(page, s, origins, req, bytes, deviceBase, device, owned);
    IssueGeometry(page, s', origins[s.nextId := req.AsRange()], |s.mappings|, req, device);
  }

  lemma {:induction false} ReuseGeometry(page: int, s: State, origins: Origins, req: Request, env: RegisterEnv)
    requires Book(s) && Geometry(page, s, origins) && GetHostRange(req, page).Returned? && env.device >= 0
    requires PlanFor(s, req, env).Reuse?
    ensures Geometry(page, IssueOrThrow(CountCall(s), PlanFor(s, req, env).index, req, env.device, None).state, origins)
  {
    CountCallBook(s);
    CountCallGeometry(page, s, origins);
    IssueGeometry(page, CountCall(s), origins, PlanFor(s, req, env).index, req, env.device);
  }

  lemma {:induction false} NewMappingGeometry(page: int, s: State, origins: Origins, req: Request, env: RegisterEnv)
    requires Book(s) && Geometry(page, s, origins)
    requires Register(s, req, page, env).outcome != Threw(MappingIdsExhausted)
    requires GetHostRange(req, page).Returned? && env.device >= 0
    requires PlanFor(s, req, env).Borrow? || PlanFor(s, req, env).Own?
    ensures var s' := Register(s, req, page, env).state;
            Geometry(page, s', OriginsAfter(s, s', origins, req))
  {
    CountCallBook(s);
    CountCallGeometry(page, s, origins);
    if PlanFor(s, req, env).Borrow? {
      AddAndIssueGeometry(page, CountCall(s), origins, req, req.AsRange(), PlanFor(s, req, env).alias, env.device,
        false, None);
    } else {
      var pages := GetHostRange(req, page).value.Pages();
      AddAndIssueGeometry(page, CountCall(s), origins, req, pages, PlanFor(s, req, env).newBase, env.device, true,
        Some(pages));
    }
  }

  lemma {:induction false} RegisterGeometry(page: int, s: State, origins: Origins, req: Request, env: RegisterEnv)
    requires Book(s) && Geometry(page, s, origins)
    ensures var s' := Register(s, req, page, env).state;
            Geometry(page, s', OriginsAfter(s, s', origins, req))
  {
    if GetHostRange(req, page).Returned? && env.device >= 0 {
      CountCallGeometry(page, s, origins);
      if PlanFor(s, req, env).Reuse? {
        ReuseGeometry(page, s, origins, req, env);
      } else if !PlanFor(s, req, env).Refuse? && IdAvailable(s) {
        NewMappingGeometry(page, s, origins, req, env);
      }
    }
  }

  lemma {:induction false} ReleaseGeometry(page: int, s: State, origins: Origins, handle: int, env: ReleaseEnv)
    requires Book(s) && Geometry(page, s, origins)
    ensures Geometry(page, Release(s, handle, env).state, origins)
  {
    if Release(s, handle, env).outcome == Returned(true) {
      var k := BackingIndex(s, handle);
      ReleaseEffect(s, handle, env, k);
      ShrinkGeometry(page, s, origins, Release(s, handle, env).state, k, s.mappings[k].refs - 1);
    } else {
      ReleaseWithoutEffect(s, handle, env);
    }
  }

  // ---------------------------------------------------------------- theorems

  // The mapping behind a live lease has a wrapped end.
  ghost predicate OnWrapped(s: State, h: int)
    requires h in s.leases
  {
    var k := FindById(s.mappings, s.leases[h].mappingId);
    k < |s.mappings| && s.mappings[k].Wrapped()
  }

  // Resolving the exact range of a live lease finds the lease's own mapping and
  // the device address the lease recorded, unless that mapping's end wraps; then
  // it finds nothing.
  lemma {:induction false} LeaseResolves(page: int, s: State, origins: Origins, h: int)
    requires Book(s) && Geometry(page, s, origins) && h in s.leases
    ensures var l := s.leases[h];
            Resolve(s, Request(l.addr, l.bytes), page, l.device)
            == if OnWrapped(s, h) then Threw(NotRegistered)
               else Returned(Resolved(FindById(s.mappings, l.mappingId), l.deviceAddr))
  {
    var l := s.leases[h];
    var k := BackingIndex(s, h);
    EndOrWrap(page, s.mappings[k], origins[s.mappings[k].id]);
    OwnMappingFirst(s, l, k);
    ResolvesToFirst(page, s, l, k);
  }

  lemma {:induction false} ResolvesToFirst(page: int, s: State, l: Lease, k: nat)
    requires k < |s.mappings| && Backs(s.mappings[k], l) && l.device >= 0
    requires GetHostRange(Request(l.addr, l.bytes), page).Returned?
    requires FirstContaining(s.mappings, l.addr, l.bytes) == if s.mappings[k].Wrapped() then |s.mappings| else k
    ensures Resolve(s, Request(l.addr, l.bytes), page, l.device)
            == if s.mappings[k].Wrapped() then Threw(NotRegistered) else Returned(Resolved(k, l.deviceAddr))
  {
  }

  lemma {:induction false} OwnMappingFirst(s: State, l: Lease, k: nat)
    requires k < |s.mappings| && Backs(s.mappings[k], l) && OnlyLastWraps(s.mappings)
    requires forall i :: 0 <= i < k ==> !s.mappings[i].Contains(l.addr, l.bytes)
    requires !s.mappings[k].Wrapped() ==> s.mappings[k].End64() == s.mappings[k].base + s.mappings[k].size
    ensures FirstContaining(s.mappings, l.addr, l.bytes) == if s.mappings[k].Wrapped() then |s.mappings| else k
  {
    if s.mappings[k].Wrapped() {
      assert k == |s.mappings| - 1;
      WrappedContainsNothing(s.mappings[k], l.addr, l.bytes);
    } else {
      assert s.mappings[k].Contains(l.addr, l.bytes);
    }
  }

  // A non-empty part of a lease resolves to the lease's mapping, at the lease's
  // device address plus the part's offset.
  ghost predicate PartResolves(page: int, s: State, h: int, addr: nat, bytes: nat)
    requires h in s.leases
  {
    var l := s.leases[h];
    Resolve(s, Request(addr, bytes), page, l.device)
    == Returned(Resolved(FindById(s.mappings, l.mappingId), l.deviceAddr + (addr - l.addr)))
  }

  ghost predicate SubrangesResolve(page: int, s: State, h: int)
    requires h in s.leases
  {
    var l := s.leases[h];
    forall addr, bytes: nat :: bytes > 0 && Within(Range(addr, bytes), Range(l.addr, l.bytes)) ==>
      PartResolves(page, s, h, addr, bytes)
  }

  ghost predicate EarlierClear(s: State, h: int)
    requires h in s.leases
  {
    var l := s.leases[h];
    forall i :: 0 <= i < FindById(s.mappings, l.mappingId) ==> !Overlaps(s.mappings[i].Bytes(), Range(l.addr, l.bytes))
  }

  // The address checks accept every part of a range they accept.
  lemma {:induction false} PartIsChecked(page: int, whole: Request, part: Request)
    requires GetHostRange(whole, page).Returned? && part.bytes > 0 && Within(part.AsRange(), whole.AsRange())
    ensures GetHostRange(part, page).Returned?
  {
    ModStep(whole.addr, part.addr - whole.addr, page);
  }

  lemma {:induction false} ModStep(a: nat, o: nat, p: int)
    requires p > 0
    ensures (a + o) % p <= a % p + o
  {
    var q, r := a / p, (a + o) / p;
    assert a == q * p + a % p && a + o == r * p + (a + o) % p;
    if r < q {
      MulMonotone(r + 1, q, p);
    } else {
      MulMonotone(q, r, p);
    }
  }

  // A part of the lease that lies in an earlier mapping resolves elsewhere.
  lemma {:induction false} EarlierMappingWins(page: int, s: State, origins: Origins, l: Lease, i: nat, k: nat)
    returns (x: nat)
    requires AllPlaced(page, s.mappings, origins) && OnlyLastWraps(s.mappings) && i < k < |s.mappings|
    requires l.bytes > 0 && Overlaps(s.mappings[i].Bytes(), Range(l.addr, l.bytes))
    ensures Within(Range(x, 1), Range(l.addr, l.bytes))
    ensures Lookup(s.mappings, x, 1, l.device) != Returned(k)
  {
    x := Max(s.mappings[i].base, l.addr);
    EndOrWrap(page, s.mappings[i], origins[s.mappings[i].id]);
    assert s.mappings[i].Contains(x, 1);
    FirstAtMost(s.mappings, x, 1, i);
  }

  lemma {:induction false} FirstAtMost(ms: seq<Mapping>, addr: nat, bytes: nat, i: nat)
    requires i < |ms| && ms[i].Contains(addr, bytes)
    ensures FirstContaining(ms, addr, bytes) <= i
  {
  }

  lemma {:induction false} WrappedPartsFail(page: int, s: State, origins: Origins, h: int)
    requires Book(s) && Geometry(page, s, origins) && h in s.leases && OnWrapped(s, h)
    ensures !SubrangesResolve(page, s, h)
  {
    var l := s.leases[h];
    var _ := BackingIndex(s, h);
    LeaseResolves(page, s, origins, h);
    assert !PartResolves(page, s, h, l.addr, l.bytes);
  }

  lemma {:induction false} CoveredPartFails(page: int, s: State, origins: Origins, h: int, k: nat)
    requires AllPlaced(page, s.mappings, origins) && OnlyLastWraps(s.mappings) && h in s.leases && k < |s.mappings|
    requires Backs(s.mappings[k], s.leases[h]) && FindById(s.mappings, s.leases[h].mappingId) == k
    requires !EarlierClear(s, h)
    ensures !SubrangesResolve(page, s, h)
  {
    var l := s.leases[h];
    var i :| 0 <= i < k && Overlaps(s.mappings[i].Bytes(), Range(l.addr, l.bytes));
    var x := EarlierMappingWins(page, s, origins, l, i, k);
    assert !PartResolves(page, s, h, x, 1);
  }

  lemma {:induction false} ClearPartsResolve(page: int, s: State, origins: Origins, h: int, k: nat)
    requires Geometry(page, s, origins) && h in s.leases && k < |s.mappings|
    requires Backs(s.mappings[k], s.leases[h]) && FindById(s.mappings, s.leases[h].mappingId) == k
    requires EarlierClear(s, h) && !s.mappings[k].Wrapped()
    ensures SubrangesResolve(page, s, h)
  {
    var l := s.leases[h];
    forall addr, bytes: nat | bytes > 0 && Within(Range(addr, bytes), Range(l.addr, l.bytes))
      ensures PartResolves(page, s, h, addr, bytes)
    {
      PartIsChecked(page, Request(l.addr, l.bytes), Request(addr, bytes));
      ClearPartResolves(page, s, origins, h, k, addr, bytes);
    }
  }

  // Every non-empty part of a lease resolves to the lease's mapping and address
  // exactly when no mapping made before that mapping meets the leased range, and
  // the mapping's end does not wrap.
  lemma {:induction false} SubrangesResolveIff(page: int, s: State, origins: Origins, h: int)
    requires Book(s) && Geometry(page, s, origins) && h in s.leases
    ensures SubrangesResolve(page, s, h) <==> EarlierClear(s, h) && !OnWrapped(s, h)
  {
    var k := BackingIndex(s, h);
    if OnWrapped(s, h) {
      WrappedPartsFail(page, s, origins, h);
    } else if EarlierClear(s, h) {
      ClearPartsResolve(page, s, origins, h, k);
    } else {
      CoveredPartFails(page, s, origins, h, k);
    }
  }

  lemma {:induction false} ClearPartResolves(page: int, s: State, origins: Origins, h: int, k: nat, addr: nat,
                                             bytes: nat)
    requires AllPlaced(page, s.mappings, origins) && OnlyLastWraps(s.mappings) && h in s.leases && k < |s.mappings|
    requires Backs(s.mappings[k], s.leases[h]) && FindById(s.mappings, s.leases[h].mappingId) == k
    requires EarlierClear(s, h) && !s.mappings[k].Wrapped()
    requires bytes > 0 && Within(Range(addr, bytes), Range(s.leases[h].addr, s.leases[h].bytes))
    ensures Lookup(s.mappings, addr, bytes, s.leases[h].device) == Returned(k)
  {
    EndOrWrap(page, s.mappings[k], origins[s.mappings[k].id]);
    assert s.mappings[k].Contains(addr, bytes);
    forall i | 0 <= i < k ensures !s.mappings[i].Contains(addr, bytes) {
      EndOrWrap(page, s.mappings[i], origins[s.mappings[i].id]);
    }
  }

  // Two owned mappings are disjoint, two borrowed ones are disjoint, and an owned
  // mapping meets a borrowed one only outside the request that created it.
  ghost predicate OverlapStructure(page: int, ms: seq<Mapping>, origins: Origins)
    requires forall k :: 0 <= k < |ms| ==> ms[k].id in origins
  {
    && (forall k :: 0 <= k < |ms| && ms[k].owned ==>
          && page > 0 && ms[k].base % page == 0 && ms[k].Bytes().End() % page == 0
          && Within(origins[ms[k].id], ms[k].Bytes()))
    && (forall i, j :: 0 <= i < j < |ms| && ms[i].owned == ms[j].owned ==> !Overlaps(ms[i].Bytes(), ms[j].Bytes()))
    && (forall i, j :: 0 <= i < |ms| && 0 <= j < |ms| && ms[i].owned && !ms[j].owned ==>
          && !Overlaps(origins[ms[i].id], ms[j].Bytes())
          && (Overlaps(ms[i].Bytes(), ms[j].Bytes()) ==> j < i))
  }

  lemma {:induction false} OverlapsAreOnlyPadding(page: int, s: State, origins: Origins)
    requires Geometry(page, s, origins)
    ensures OverlapStructure(page, s.mappings, origins)
  {
    var ms := s.mappings;
    assert forall k :: 0 <= k < |ms| ==> Placed(page, ms[k], origins[ms[k].id]);
    forall i, j | 0 <= i < j < |ms| && ms[i].owned == ms[j].owned
      ensures !Overlaps(ms[i].Bytes(), ms[j].Bytes())
    {
      if ms[i].owned {
        PageCoverStaysDisjoint(origins[ms[j].id], ms[j].Bytes(), ms[i].Bytes(), page);
      }
    }
    forall i, j | 0 <= i < |ms| && 0 <= j < |ms| && ms[i].owned && !ms[j].owned
      ensures !Overlaps(origins[ms[i].id], ms[j].Bytes())
      ensures Overlaps(ms[i].Bytes(), ms[j].Bytes()) ==> j < i
    {
      if i < j {
        assert !Overlaps(ms[i].Bytes(), origins[ms[j].id]);
      } else {
        assert i != j && !Overlaps(ms[j].Bytes(), origins[ms[i].id]);
      }
    }
  }

  // When ACL is asked for a new registration, the pages asked for meet no owned mapping.
  lemma {:induction false} NewPagesAreUnowned(page: int, s: State, origins: Origins, req: Request, env: RegisterEnv)
    requires Geometry(page, s, origins)
    requires Register(s, req, page, env).pinned.Some?
    ensures forall i :: 0 <= i < |s.mappings| && s.mappings[i].owned ==>
              !Overlaps(s.mappings[i].Bytes(), Register(s, req, page, env).pinned.value)
  {
    var pages := GetHostRange(req, page).value.Pages();
    ClashFree(page, s.mappings, origins, req);
    forall i | 0 <= i < |s.mappings| && s.mappings[i].owned
      ensures !Overlaps(s.mappings[i].Bytes(), pages)
    {
      assert Placed(page, s.mappings[i], origins[s.mappings[i].id]);
      PageCoverStaysDisjoint(req.AsRange(), pages, s.mappings[i].Bytes(), page);
    }
  }

  // ------------------------------------------------- registered bytes fit in 64 bits

  ghost function Addresses(r: Range): (xs: set<int>)
    ensures forall x :: x in xs <==> r.base <= x < r.End()
    ensures |xs| == r.size
    decreases r.size
  {
    if r.size == 0 then {} else Addresses(Range(r.base, r.size - 1)) + {r.End() - 1}
  }

  ghost function OwnedAddresses(ms: seq<Mapping>): set<int> {
    set i, x | 0 <= i < |ms| && ms[i].owned && x in Addresses(ms[i].Bytes()) :: x
  }

  lemma {:induction false} OwnedBytesCountAddresses(ms: seq<Mapping>)
    requires forall i, j :: 0 <= i < j < |ms| && ms[i].owned && ms[j].owned ==> !Overlaps(ms[i].Bytes(), ms[j].Bytes())
    ensures OwnedBytes(ms) == |OwnedAddresses(ms)|
  {
    if ms == [] {
      assert OwnedAddresses(ms) == {};
    } else {
      var rest := ms[1..];
      OwnedBytesCountAddresses(rest);
      var first := if ms[0].owned then Addresses(ms[0].Bytes()) else {};
      FirstIsFresh(ms, first);
    }
  }

  lemma {:induction false} FirstIsFresh(ms: seq<Mapping>, first: set<int>)
    requires ms != [] && first == if ms[0].owned then Addresses(ms[0].Bytes()) else {}
    requires forall i, j :: 0 <= i < j < |ms| && ms[i].owned && ms[j].owned ==> !Overlaps(ms[i].Bytes(), ms[j].Bytes())
    ensures first !! OwnedAddresses(ms[1..])
    ensures OwnedAddresses(ms) == first + OwnedAddresses(ms[1..])
  {
    var rest := ms[1..];
    forall x | x in first ensures x !in OwnedAddresses(rest) {
      forall i | 0 <= i < |rest| && rest[i].owned ensures x !in Addresses(rest[i].Bytes()) {
        assert !Overlaps(ms[0].Bytes(), ms[i + 1].Bytes());
      }
    }
    forall x | x in OwnedAddresses(ms) ensures x in first + OwnedAddresses(rest) {
      var i :| 0 <= i < |ms| && ms[i].owned && x in Addresses(ms[i].Bytes());
      if i > 0 {
        assert ms[i] == rest[i - 1];
      }
    }
    forall x | x in OwnedAddresses(rest) ensures x in OwnedAddresses(ms) {
      var i :| 0 <= i < |rest| && rest[i].owned && x in Addresses(rest[i].Bytes());
      assert rest[i] == ms[i + 1];
    }
  }

  lemma {:induction false} OwnedBytesBelow(ms: seq<Mapping>, limit: nat)
    requires forall i, j :: 0 <= i < j < |ms| && ms[i].owned && ms[j].owned ==> !Overlaps(ms[i].Bytes(), ms[j].Bytes())
    requires forall i :: 0 <= i < |ms| && ms[i].owned ==> ms[i].Bytes().End() <= limit
    ensures OwnedBytes(ms) <= limit
  {
    OwnedBytesCountAddresses(ms);
    var all := Addresses(Range(0, limit));
    forall x | x in OwnedAddresses(ms) ensures x in all {
      var i :| 0 <= i < |ms| && ms[i].owned && x in Addresses(ms[i].Bytes());
    }
    SubsetSize(OwnedAddresses(ms), all);
  }

  // While no mapping wraps, the sum of the owned sizes is a 64-bit number, so the
  // byte counter does not wrap either.
  lemma {:induction false} OwnedBytesFit(page: int, s: State, origins: Origins)
    requires Geometry(page, s, origins) && forall k :: 0 <= k < |s.mappings| ==> !s.mappings[k].Wrapped()
    ensures OwnedBytes(s.mappings) <= U64_MAX
  {
    OverlapsAreOnlyPadding(page, s, origins);
    forall i | 0 <= i < |s.mappings| ensures s.mappings[i].Bytes().End() <= U64_MAX {
      EndOrWrap(page, s.mappings[i], origins[s.mappings[i].id]);
    }
    OwnedBytesBelow(s.mappings, U64_MAX);
  }
}
