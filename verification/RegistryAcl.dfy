// The ranges ACL holds for this extension, against the owned mappings.
module RegistryAcl {
  import opened Options
  import opened HostRange
  import opened Registry
  import opened RegistryBook
  import opened RegistryGeometry
  import opened RegistryRuns
  import opened RegistryTheorems
  import opened RegistryCounts

  ghost function OwnedRanges(ms: seq<Mapping>): set<Range> {
    set k | 0 <= k < |ms| && ms[k].owned :: ms[k].Bytes()
  }

  lemma {:induction false} RegisterPinned(page: int, w: World, req: Request, env: RegisterEnv)
    requires w.pinned == OwnedRanges(w.reg.mappings) && IdAvailable(w.reg)
    ensures var w' := Step(page, w, DoRegister(req, env)); w'.pinned == OwnedRanges(w'.reg.mappings)
  {
    var w' := Step(page, w, DoRegister(req, env));
    var n := |w.reg.mappings|;
    RegisterKeepsMappings(w.reg, req, page, env);
    RegisterPins(w.reg, req, page, env);
    GrownRanges(w.reg.mappings, w'.reg.mappings);
  }

  // ACL registers a range exactly when an owned mapping with that range is added.
  lemma {:induction false} RegisterPins(s: State, req: Request, page: int, env: RegisterEnv)
    requires IdAvailable(s)
    ensures var r := Register(s, req, page, env);
            var n := |s.mappings|;
            if |r.state.mappings| > n && r.state.mappings[n].owned then r.pinned == Some(r.state.mappings[n].Bytes())
            else r.pinned.None?
  {
  }

  lemma {:induction false} GrownRanges(ms: seq<Mapping>, ms': seq<Mapping>)
    requires |ms| <= |ms'| <= |ms| + 1
    requires forall k :: 0 <= k < |ms| ==> SameMapping(ms'[k], ms[k])
    ensures OwnedRanges(ms') == OwnedRanges(ms) + if |ms'| > |ms| && ms'[|ms|].owned then {ms'[|ms|].Bytes()} else {}
  {
    forall p | p in OwnedRanges(ms) ensures p in OwnedRanges(ms') {
      var k :| 0 <= k < |ms| && ms[k].owned && ms[k].Bytes() == p;
      assert ms'[k].owned && ms'[k].Bytes() == p;
    }
    forall p | p in OwnedRanges(ms') && (|ms'| == |ms| || !ms'[|ms|].owned || p != ms'[|ms|].Bytes())
      ensures p in OwnedRanges(ms)
    {
      var k :| 0 <= k < |ms'| && ms'[k].owned && ms'[k].Bytes() == p;
      assert ms[k].owned && ms[k].Bytes() == p;
    }
  }

  lemma {:induction false} SameRanges(ms: seq<Mapping>, k: nat, refs: nat)
    requires k < |ms|
    ensures OwnedRanges(ms[k := ms[k].(refs := refs)]) == OwnedRanges(ms)
  {
    var ms' := ms[k := ms[k].(refs := refs)];
    forall p | p in OwnedRanges(ms) ensures p in OwnedRanges(ms') {
      var i :| 0 <= i < |ms| && ms[i].owned && ms[i].Bytes() == p;
      assert ms'[i].owned && ms'[i].Bytes() == p;
    }
    forall p | p in OwnedRanges(ms') ensures p in OwnedRanges(ms) {
      var i :| 0 <= i < |ms'| && ms'[i].owned && ms'[i].Bytes() == p;
      assert ms[i].owned && ms[i].Bytes() == p;
    }
  }

  lemma {:induction false} SlicedRanges(ms: seq<Mapping>, k: nat)
    requires k < |ms|
    ensures OwnedRanges(ms) == OwnedRanges(ms[..k] + ms[k + 1..]) + if ms[k].owned then {ms[k].Bytes()} else {}
  {
    var ms' := ms[..k] + ms[k + 1..];
    forall p | p in OwnedRanges(ms') ensures p in OwnedRanges(ms) {
      var i :| 0 <= i < |ms'| && ms'[i].owned && ms'[i].Bytes() == p;
      assert ms[Source(k, true, i)] == ms'[i];
    }
    forall p | p in OwnedRanges(ms) && (!ms[k].owned || p != ms[k].Bytes()) ensures p in OwnedRanges(ms') {
      var j :| 0 <= j < |ms| && ms[j].owned && ms[j].Bytes() == p;
      assert ms'[if j < k then j else j - 1] == ms[j];
    }
  }

  lemma {:induction false} OwnedBasesDiffer(page: int, s: State, origins: Origins, i: nat, j: nat)
    requires Geometry(page, s, origins) && i < |s.mappings| && j < |s.mappings| && i != j
    requires s.mappings[i].owned && s.mappings[j].owned
    ensures s.mappings[i].base != s.mappings[j].base
  {
    OverlapsAreOnlyPadding(page, s, origins);
    assert Placed(page, s.mappings[i], origins[s.mappings[i].id]);
    assert Placed(page, s.mappings[j], origins[s.mappings[j].id]);
    assert !Overlaps(s.mappings[i].Bytes(), s.mappings[j].Bytes());
  }

  lemma {:induction false} DroppedIsGone(page: int, s: State, origins: Origins, k: nat)
    requires Geometry(page, s, origins) && k < |s.mappings| && s.mappings[k].owned
    ensures s.mappings[k].Bytes() !in OwnedRanges(s.mappings[..k] + s.mappings[k + 1..])
  {
    var ms, ms' := s.mappings, s.mappings[..k] + s.mappings[k + 1..];
    forall i | 0 <= i < |ms'| && ms'[i].owned ensures ms'[i].base != ms[k].base {
      assert ms[Source(k, true, i)] == ms'[i];
      OwnedBasesDiffer(page, s, origins, Source(k, true, i), k);
    }
  }

  // A range ACL holds without an owned mapping meets none of the owned mappings.
  ghost predicate Stray(ms: seq<Mapping>, p: Range) {
    p.size > 0 && forall k :: 0 <= k < |ms| && ms[k].owned ==> !Overlaps(p, ms[k].Bytes())
  }

  // Every owned mapping is registered; while mapping ids last nothing else is, and
  // whatever else there is meets no owned mapping.
  ghost predicate Paired(w: World) {
    && OwnedRanges(w.reg.mappings) <= w.pinned
    && (IdAvailable(w.reg) ==> w.pinned == OwnedRanges(w.reg.mappings))
    && forall p :: p in w.pinned && p !in OwnedRanges(w.reg.mappings) ==> Stray(w.reg.mappings, p)
  }

  lemma {:induction false} StrayIsUnowned(ms: seq<Mapping>, p: Range)
    requires Stray(ms, p)
    ensures p !in OwnedRanges(ms)
    ensures forall k :: 0 <= k < |ms| && ms[k].owned && ms[k].size > 0 ==> p.base != ms[k].base
  {
    assert Overlaps(p, p);
  }

  // Without ids a registration adds no mapping.
  lemma {:induction false} NoIdsNoMapping(s: State, req: Request, page: int, env: RegisterEnv)
    requires !IdAvailable(s)
    ensures |Register(s, req, page, env).state.mappings| == |s.mappings|
    ensures s.nextId > 0 ==> !IdAvailable(Register(s, req, page, env).state)
  {
  }

  lemma {:induction false} NewPagesAreStray(page: int, s: State, origins: Origins, req: Request, env: RegisterEnv)
    requires Geometry(page, s, origins) && Register(s, req, page, env).pinned.Some?
    ensures Stray(s.mappings, Register(s, req, page, env).pinned.value)
  {
    NewPagesAreUnowned(page, s, origins, req, env);
  }

  lemma {:induction false} SameMappingsStray(ms: seq<Mapping>, ms': seq<Mapping>, p: Range)
    requires |ms| == |ms'| && (forall k :: 0 <= k < |ms| ==> SameMapping(ms'[k], ms[k])) && Stray(ms, p)
    ensures Stray(ms', p)
  {
    forall k | 0 <= k < |ms'| && ms'[k].owned ensures !Overlaps(p, ms'[k].Bytes()) {
      assert SameMapping(ms'[k], ms[k]);
    }
  }

  lemma {:induction false} RegisterPaired(page: int, w: World, req: Request, env: RegisterEnv, w': World)
    requires Paired(w) && Book(w.reg) && Geometry(page, w.reg, w.origins) && w' == Step(page, w, DoRegister(req, env))
    ensures Paired(w')
  {
    if IdAvailable(w.reg) {
      RegisterPinned(page, w, req, env);
    } else {
      var ms, ms' := w.reg.mappings, w'.reg.mappings;
      NoIdsNoMapping(w.reg, req, page, env);
      RegisterKeepsMappings(w.reg, req, page, env);
      GrownRanges(ms, ms');
      forall p | p in w'.pinned && p !in OwnedRanges(ms') ensures Stray(ms', p) {
        if p !in w.pinned {
          NewPagesAreStray(page, w.reg, w.origins, req, env);
        }
        SameMappingsStray(ms, ms', p);
      }
    }
  }

  lemma {:induction false} FewerMappingsStray(ms: seq<Mapping>, k: nat, p: Range)
    requires k < |ms| && Stray(ms, p)
    ensures Stray(ms[..k] + ms[k + 1..], p)
  {
    var ms' := ms[..k] + ms[k + 1..];
    forall i | 0 <= i < |ms'| && ms'[i].owned ensures !Overlaps(p, ms'[i].Bytes()) {
      assert ms'[i] == ms[Source(k, true, i)];
    }
  }

  lemma {:induction false} SameBaseSameRange(page: int, w: World, k: nat, p: Range)
    requires Paired(w) && Book(w.reg) && Geometry(page, w.reg, w.origins)
    requires k < |w.reg.mappings| && w.reg.mappings[k].owned
    requires p in w.pinned && p.base == w.reg.mappings[k].base
    ensures p == w.reg.mappings[k].Bytes()
  {
    var ms := w.reg.mappings;
    if p in OwnedRanges(ms) {
      var j :| 0 <= j < |ms| && ms[j].owned && ms[j].Bytes() == p;
      if j != k {
        OwnedBasesDiffer(page, w.reg, w.origins, j, k);
      }
    } else {
      StrayIsUnowned(ms, p);
    }
  }

  // Removing the ranges with the dropped mapping's base removes that mapping's
  // range and nothing else.
  lemma {:induction false} OnlyThatBase(page: int, w: World, k: nat)
    requires Paired(w) && Book(w.reg) && Geometry(page, w.reg, w.origins)
    requires k < |w.reg.mappings| && w.reg.mappings[k].owned
    ensures w.reg.mappings[k].Bytes() in w.pinned
    ensures (set p | p in w.pinned && p.base != w.reg.mappings[k].base) == w.pinned - {w.reg.mappings[k].Bytes()}
  {
    assert w.reg.mappings[k].Bytes() in OwnedRanges(w.reg.mappings);
    forall p | p in w.pinned && p.base == w.reg.mappings[k].base ensures p == w.reg.mappings[k].Bytes() {
      SameBaseSameRange(page, w, k, p);
    }
    WithoutBase(w.pinned, w.reg.mappings[k].Bytes());
  }

  lemma {:induction false} WithoutBase(ranges: set<Range>, m: Range)
    requires forall p :: p in ranges && p.base == m.base ==> p == m
    ensures (set p | p in ranges && p.base != m.base) == ranges - {m}
  {
  }

  lemma {:induction false} DropPaired(page: int, w: World, k: nat, w': World)
    requires Paired(w) && Book(w.reg) && Geometry(page, w.reg, w.origins) && k < |w.reg.mappings|
    requires w'.reg.mappings == w.reg.mappings[..k] + w.reg.mappings[k + 1..] && w'.reg.nextId == w.reg.nextId
    requires w'.pinned == if w.reg.mappings[k].owned then w.pinned - {w.reg.mappings[k].Bytes()} else w.pinned
    ensures Paired(w')
  {
    var ms, ms' := w.reg.mappings, w'.reg.mappings;
    SlicedRanges(ms, k);
    if ms[k].owned {
      DroppedIsGone(page, w.reg, w.origins, k);
    }
    forall p | p in w'.pinned && p !in OwnedRanges(ms') ensures Stray(ms', p) {
      FewerMappingsStray(ms, k, p);
    }
  }

  lemma {:induction false} ReleasePaired(page: int, w: World, handle: int, env: ReleaseEnv, w': World)
    requires Paired(w) && Book(w.reg) && Geometry(page, w.reg, w.origins) && w' == Step(page, w, DoRelease(handle, env))
    ensures Paired(w')
  {
    if Release(w.reg, handle, env).outcome == Returned(true) {
      var k := BackingIndex(w.reg, handle);
      ReleaseEffect(w.reg, handle, env, k);
      var m := w.reg.mappings[k];
      if m.refs == 1 {
        if m.owned {
          OnlyThatBase(page, w, k);
        }
        DropPaired(page, w, k, w');
      } else {
        SameRanges(w.reg.mappings, k, m.refs - 1);
        forall p | p in w'.pinned && p !in OwnedRanges(w'.reg.mappings) ensures Stray(w'.reg.mappings, p) {
          SameMappingsStray(w.reg.mappings, w'.reg.mappings, p);
        }
      }
    } else {
      ReleaseWithoutEffect(w.reg, handle, env);
    }
  }

  lemma {:induction false} StepPaired(page: int, w: World, e: Event, w': World)
    requires Paired(w) && Book(w.reg) && Geometry(page, w.reg, w.origins) && w' == Step(page, w, e)
    ensures Paired(w')
  {
    if e.DoRegister? {
      RegisterPaired(page, w, e.req, e.regEnv, w');
    } else if e.DoRelease? {
      ReleasePaired(page, w, e.handle, e.relEnv, w');
    }
  }

  lemma {:induction false} StartPaired(pid: nat)
    ensures Paired(Start(pid))
  {
    assert OwnedRanges([]) == {};
  }

  lemma {:induction false} RunStepPaired(r: Run, i: nat)
    requires r.Valid() && i < |r.events| && Paired(r.worlds[i])
    ensures Paired(r.worlds[i + 1])
  {
    EveryRunIsSafe(r, i);
    RunGeometry(r, i);
    assert r.Follows(i);
    StepPaired(r.page, r.worlds[i], r.events[i], r.worlds[i + 1]);
  }

  // In every reachable state ACL holds every owned mapping, and whatever else it
  // holds for this extension meets no owned mapping.
  lemma {:induction false} EveryRunIsPaired(r: Run, i: nat)
    requires r.Valid() && i < |r.worlds|
    ensures Paired(r.worlds[i])
  {
    if i == 0 {
      StartPaired(r.pid);
    } else {
      EveryRunIsPaired(r, i - 1);
      RunStepPaired(r, i - 1);
    }
  }

  // The release called host-unregister, with or without success.
  ghost predicate CallsUnregister(s: State, handle: int, env: ReleaseEnv) {
    var r := Release(s, handle, env);
    r.unpinned.Some? || r.outcome == Threw(UnregisterFailed)
  }

  // Host-unregister is called, even in vain, only behind a completed fence and for
  // the mapping of the released lease, which is owned and has no other lease.
  lemma {:induction false} UnregisterIsFencedAndOwned(s: State, handle: int, env: ReleaseEnv)
    requires Book(s) && CallsUnregister(s, handle, env)
    ensures Release(s, handle, env).fenced && handle in s.leases
    ensures var k := FindById(s.mappings, s.leases[handle].mappingId);
            && k < |s.mappings| && s.mappings[k].owned && s.mappings[k].refs == 1 && s.mappings[k].device == env.device
            && (Release(s, handle, env).unpinned.Some? ==> Release(s, handle, env).unpinned.value == s.mappings[k].base)
  {
  }

  // --------------------------------------------------------- when ids run out

  // Event j registers a range with ACL and then finds the mapping ids used up.
  ghost predicate Leaks(r: Run, j: nat)
    requires r.Valid() && j < |r.events|
  {
    Pins(r, j) && !IdAvailable(r.worlds[j].reg)
  }

  ghost predicate NoLeaks(r: Run, i: nat)
    requires r.Valid() && i <= |r.events|
  {
    forall j :: 0 <= j < i ==> !Leaks(r, j)
  }

  // The request would make ACL register new pages.
  ghost predicate WouldPin(page: int, s: State, req: Request, env: RegisterEnv) {
    && GetHostRange(req, page).Returned? && env.device >= 0
    && !(env.aliasOk && env.alias != 0) && env.newBase.Some?
    && forall k :: 0 <= k < |s.mappings| ==> Unrelated(s.mappings[k], req)
  }

  ghost predicate Unrelated(m: Mapping, req: Request) {
    !m.Contains(req.addr, req.bytes) && !m.Wrapped() && !m.Meets(req.addr, req.bytes)
  }

  lemma {:induction false} AllUnrelated(ms: seq<Mapping>, req: Request)
    requires forall k :: 0 <= k < |ms| ==> Unrelated(ms[k], req)
    ensures FirstContaining(ms, req.addr, req.bytes) == |ms| && FirstClash(ms, req.addr, req.bytes) == |ms|
  {
  }

  lemma {:induction false} OneRelated(ms: seq<Mapping>, req: Request, j: nat)
    requires j < |ms| && !Unrelated(ms[j], req)
    ensures FirstContaining(ms, req.addr, req.bytes) < |ms| || FirstClash(ms, req.addr, req.bytes) < |ms|
  {
  }

  lemma {:induction false} WouldPinIff(page: int, s: State, req: Request, env: RegisterEnv)
    ensures Register(s, req, page, env).pinned.Some? <==> WouldPin(page, s, req, env)
    ensures WouldPin(page, s, req, env) ==>
              Register(s, req, page, env).pinned == Some(GetHostRange(req, page).value.Pages())
  {
    if forall k :: 0 <= k < |s.mappings| ==> Unrelated(s.mappings[k], req) {
      AllUnrelated(s.mappings, req);
    } else {
      var j :| 0 <= j < |s.mappings| && !Unrelated(s.mappings[j], req);
      OneRelated(s.mappings, req, j);
    }
  }

  // A leaked range, and the registration that leaked it.
  ghost predicate Leaked(page: int, w: World, req: Request, env: RegisterEnv) {
    && !IdAvailable(w.reg) && WouldPin(page, w.reg, req, env)
    && GetHostRange(req, page).value.Pages() in w.pinned
  }

  lemma {:induction false} FewerMappingsWouldPin(page: int, s: State, s': State, req: Request, env: RegisterEnv)
    requires WouldPin(page, s, req, env)
    requires forall j :: 0 <= j < |s'.mappings| ==>
               exists k :: 0 <= k < |s.mappings| && SameMapping(s'.mappings[j], s.mappings[k])
    ensures WouldPin(page, s', req, env)
  {
    forall j | 0 <= j < |s'.mappings| ensures Unrelated(s'.mappings[j], req) {
      var k :| 0 <= k < |s.mappings| && SameMapping(s'.mappings[j], s.mappings[k]);
      SameMappingUnrelated(s.mappings[k], s'.mappings[j], req);
    }
  }

  lemma {:induction false} SameMappingUnrelated(m: Mapping, m': Mapping, req: Request)
    requires SameMapping(m', m) && Unrelated(m, req)
    ensures Unrelated(m', req)
  {
  }

  lemma {:induction false} RegisterKeepsLeak(page: int, w: World, e: Event, req: Request, env: RegisterEnv)
    requires Book(w.reg) && e.DoRegister? && Leaked(page, w, req, env)
    ensures Leaked(page, Step(page, w, e), req, env)
  {
    NoIdsNoMapping(w.reg, e.req, page, e.regEnv);
    RegisterKeepsMappings(w.reg, e.req, page, e.regEnv);
    var s' := Step(page, w, e).reg;
    forall j | 0 <= j < |s'.mappings|
      ensures exists k :: 0 <= k < |w.reg.mappings| && SameMapping(s'.mappings[j], w.reg.mappings[k])
    {
      assert SameMapping(s'.mappings[j], w.reg.mappings[j]);
    }
    FewerMappingsWouldPin(page, w.reg, s', req, env);
  }

  lemma {:induction false} ReleaseWouldPin(page: int, s: State, handle: int, relEnv: ReleaseEnv, req: Request,
                                           env: RegisterEnv)
    requires Book(s) && WouldPin(page, s, req, env)
    ensures WouldPin(page, Release(s, handle, relEnv).state, req, env)
  {
    var s' := Release(s, handle, relEnv).state;
    forall j | 0 <= j < |s'.mappings|
      ensures exists i :: 0 <= i < |s.mappings| && SameMapping(s'.mappings[j], s.mappings[i])
    {
      var i := ReleaseOrigin(s, handle, relEnv, j);
    }
    FewerMappingsWouldPin(page, s, s', req, env);
  }

  // What a release takes from ACL is an owned mapping's base, never a stray range's.
  lemma {:induction false} ReleaseKeepsStray(page: int, w: World, e: Event, p: Range)
    requires Book(w.reg) && e.DoRelease? && p in w.pinned && Stray(w.reg.mappings, p)
    ensures p in Step(page, w, e).pinned
  {
    if Release(w.reg, e.handle, e.relEnv).unpinned.Some? {
      UnregisterIsFencedAndOwned(w.reg, e.handle, e.relEnv);
      StrayIsUnowned(w.reg.mappings, p);
    }
  }

  lemma {:induction false} LeakIsStray(page: int, w: World, req: Request, env: RegisterEnv)
    requires Geometry(page, w.reg, w.origins) && Leaked(page, w, req, env)
    ensures Stray(w.reg.mappings, GetHostRange(req, page).value.Pages())
  {
    WouldPinIff(page, w.reg, req, env);
    NewPagesAreStray(page, w.reg, w.origins, req, env);
  }

  lemma {:induction false} ReleaseKeepsLeak(page: int, w: World, e: Event, req: Request, env: RegisterEnv)
    requires Book(w.reg) && Geometry(page, w.reg, w.origins)
    requires e.DoRelease? && Leaked(page, w, req, env)
    ensures Leaked(page, Step(page, w, e), req, env)
  {
    ReleaseWouldPin(page, w.reg, e.handle, e.relEnv, req, env);
    LeakIsStray(page, w, req, env);
    ReleaseKeepsStray(page, w, e, GetHostRange(req, page).value.Pages());
    ReleaseIssuesNothing(w.reg, e.handle, e.relEnv);
  }

  lemma {:induction false} StepKeepsLeak(page: int, w: World, e: Event, req: Request, env: RegisterEnv)
    requires Book(w.reg) && Geometry(page, w.reg, w.origins) && Leaked(page, w, req, env)
    ensures Leaked(page, Step(page, w, e), req, env)
  {
    if e.DoRegister? {
      RegisterKeepsLeak(page, w, e, req, env);
    } else if e.DoRelease? {
      ReleaseKeepsLeak(page, w, e, req, env);
    }
  }

  lemma {:induction false} LeakStarts(page: int, w: World, req: Request, env: RegisterEnv)
    requires Book(w.reg) && !IdAvailable(w.reg) && WouldPin(page, w.reg, req, env)
    ensures Leaked(page, Step(page, w, DoRegister(req, env)), req, env)
  {
    WouldPinIff(page, w.reg, req, env);
    NoIdsNoMapping(w.reg, req, page, env);
  }

  lemma {:induction false} RunStepLeak(r: Run, i: nat, req: Request, env: RegisterEnv)
    requires r.Valid() && i < |r.events| && Leaked(r.page, r.worlds[i], req, env)
    ensures Leaked(r.page, r.worlds[i + 1], req, env)
  {
    EveryRunIsSafe(r, i);
    RunGeometry(r, i);
    StepKeepsLeak(r.page, r.worlds[i], r.events[i], req, env);
    assert r.Follows(i);
  }

  lemma {:induction false} RunLeakStarts(r: Run, j: nat)
    requires r.Valid() && j < |r.events| && Leaks(r, j)
    ensures Leaked(r.page, r.worlds[j + 1], r.events[j].req, r.events[j].regEnv)
  {
    var req, env := r.events[j].req, r.events[j].regEnv;
    EveryRunIsSafe(r, j);
    WouldPinIff(r.page, r.worlds[j].reg, req, env);
    LeakStarts(r.page, r.worlds[j], req, env);
    assert r.Follows(j);
  }

  lemma {:induction false} LeakStays(r: Run, j: nat, i: nat)
    requires r.Valid() && j < i < |r.worlds| && Leaks(r, j)
    ensures Leaked(r.page, r.worlds[i], r.events[j].req, r.events[j].regEnv)
  {
    if i == j + 1 {
      RunLeakStarts(r, j);
    } else {
      LeakStays(r, j, i - 1);
      RunStepLeak(r, i - 1, r.events[j].req, r.events[j].regEnv);
    }
  }

  lemma {:induction false} NoLeaksPaired(r: Run, i: nat)
    requires r.Valid() && i < |r.worlds| && NoLeaks(r, i)
    ensures r.worlds[i].pinned == OwnedRanges(r.worlds[i].reg.mappings)
  {
    if i == 0 {
      assert OwnedRanges([]) == {};
    } else {
      NoLeaksPaired(r, i - 1);
      assert !Leaks(r, i - 1);
      EveryRunIsSafe(r, i - 1);
      RunGeometry(r, i - 1);
      EveryRunIsPaired(r, i - 1);
      assert r.worlds[i] == Step(r.page, r.worlds[i - 1], r.events[i - 1]) by { assert r.Follows(i - 1); }
      StepExact(r.page, r.worlds[i - 1], r.events[i - 1], r.worlds[i]);
    }
  }

  lemma {:induction false} StepExact(page: int, w: World, e: Event, w': World)
    requires Paired(w) && Book(w.reg) && Geometry(page, w.reg, w.origins) && w' == Step(page, w, e)
    requires w.pinned == OwnedRanges(w.reg.mappings)
    requires e.DoRegister? && !IdAvailable(w.reg) ==> Register(w.reg, e.req, page, e.regEnv).pinned.None?
    ensures w'.pinned == OwnedRanges(w'.reg.mappings)
  {
    if e.DoRegister? {
      if IdAvailable(w.reg) {
        RegisterPinned(page, w, e.req, e.regEnv);
      } else {
        NoIdsNoMapping(w.reg, e.req, page, e.regEnv);
        RegisterKeepsMappings(w.reg, e.req, page, e.regEnv);
        GrownRanges(w.reg.mappings, w'.reg.mappings);
      }
    } else if e.DoRelease? {
      ReleaseExact(page, w, e.handle, e.relEnv, w');
    }
  }

  lemma {:induction false} DropExact(page: int, w: World, k: nat)
    requires Paired(w) && Book(w.reg) && Geometry(page, w.reg, w.origins) && k < |w.reg.mappings|
    requires w.pinned == OwnedRanges(w.reg.mappings)
    ensures OwnedRanges(w.reg.mappings[..k] + w.reg.mappings[k + 1..]) ==
            if w.reg.mappings[k].owned then set p | p in w.pinned && p.base != w.reg.mappings[k].base else w.pinned
  {
    SlicedRanges(w.reg.mappings, k);
    if w.reg.mappings[k].owned {
      OnlyThatBase(page, w, k);
      DroppedIsGone(page, w.reg, w.origins, k);
    }
  }

  lemma {:induction false} ReleaseExact(page: int, w: World, handle: int, env: ReleaseEnv, w': World)
    requires Paired(w) && Book(w.reg) && Geometry(page, w.reg, w.origins) && w' == Step(page, w, DoRelease(handle, env))
    requires w.pinned == OwnedRanges(w.reg.mappings)
    ensures w'.pinned == OwnedRanges(w'.reg.mappings)
  {
    if Release(w.reg, handle, env).outcome == Returned(true) {
      var k := BackingIndex(w.reg, handle);
      ReleaseEffect(w.reg, handle, env, k);
      if w.reg.mappings[k].refs > 1 {
        SameRanges(w.reg.mappings, k, w.reg.mappings[k].refs - 1);
      } else {
        DropExact(page, w, k);
      }
    } else {
      ReleaseWithoutEffect(w.reg, handle, env);
    }
  }

  // ----------------------------------------------------------------- theorems

  // The ranges ACL holds for this extension are exactly the owned mappings, if and
  // only if no registration so far found the mapping ids used up after ACL had
  // registered its pages.
  lemma {:induction false} AclPairingIff(r: Run, i: nat)
    requires r.Valid() && i < |r.worlds|
    ensures r.worlds[i].pinned == OwnedRanges(r.worlds[i].reg.mappings) <==> NoLeaks(r, i)
  {
    if NoLeaks(r, i) {
      NoLeaksPaired(r, i);
    } else {
      var j :| 0 <= j < i && Leaks(r, j);
      LeakStays(r, j, i);
      RunGeometry(r, i);
      LeakIsStray(r.page, r.worlds[i], r.events[j].req, r.events[j].regEnv);
      StrayIsUnowned(r.worlds[i].reg.mappings, GetHostRange(r.events[j].req, r.page).value.Pages());
    }
  }

  // A registration at this point meets no range that ACL holds.
  ghost predicate AsksAnew(page: int, w: World, req: Request, env: RegisterEnv) {
    var res := Register(w.reg, req, page, env);
    res.pinned.Some? ==> forall p :: p in w.pinned ==> !Overlaps(p, res.pinned.value)
  }

  // ACL is never asked to register a range that meets one it already holds for
  // this extension, whatever the next registration, if and only if nothing leaked.
  lemma {:induction false} AclNeverSeesOverlapIff(r: Run, i: nat)
    requires r.Valid() && i < |r.worlds|
    ensures (forall req, env :: AsksAnew(r.page, r.worlds[i], req, env)) <==> NoLeaks(r, i)
  {
    var w := r.worlds[i];
    RunGeometry(r, i);
    if NoLeaks(r, i) {
      NoLeaksPaired(r, i);
      forall req, env ensures AsksAnew(r.page, w, req, env) {
        if Register(w.reg, req, r.page, env).pinned.Some? {
          NewPagesAreUnowned(r.page, w.reg, w.origins, req, env);
        }
      }
    } else {
      var j :| 0 <= j < i && Leaks(r, j);
      LeakStays(r, j, i);
      WouldPinIff(r.page, w.reg, r.events[j].req, r.events[j].regEnv);
      assert !AsksAnew(r.page, w, r.events[j].req, r.events[j].regEnv);
    }
  }

  // In every reachable state that range is one ACL holds; the call takes exactly it
  // from ACL when it succeeds, and nothing when it fails.
  lemma {:induction false} UnregisterMatchesRegister(r: Run, i: nat, handle: int, env: ReleaseEnv)
    requires r.Valid() && i < |r.worlds| && CallsUnregister(r.worlds[i].reg, handle, env)
    ensures var w := r.worlds[i];
            && handle in w.reg.leases
            && var k := FindById(w.reg.mappings, w.reg.leases[handle].mappingId);
            && k < |w.reg.mappings| && w.reg.mappings[k].owned
            && w.reg.mappings[k].Bytes() in w.pinned
            && Step(r.page, w, DoRelease(handle, env)).pinned
               == if Release(w.reg, handle, env).outcome == Returned(true) then w.pinned - {w.reg.mappings[k].Bytes()}
                  else w.pinned
  {
    var w := r.worlds[i];
    EveryRunIsSafe(r, i);
    RunGeometry(r, i);
    EveryRunIsPaired(r, i);
    UnregisterIsFencedAndOwned(w.reg, handle, env);
    var k := BackingIndex(w.reg, handle);
    OnlyThatBase(r.page, w, k);
    if Release(w.reg, handle, env).outcome == Returned(true) {
      ReleaseEffect(w.reg, handle, env, k);
    } else {
      ReleaseWithoutEffect(w.reg, handle, env);
    }
  }

  // --------------------------------------------------------- while handles last

  lemma {:induction false} HandlesLastedSince(r: Run, j: nat, i: nat)
    requires r.Valid() && j <= i < |r.worlds| && HandleAvailable(r.worlds[i].reg)
    ensures HandleAvailable(r.worlds[j].reg)
  {
    if j == i {
    } else {
      IdsOnlyGrow(r.page, r.worlds[i - 1], r.events[i - 1]);
      assert r.Follows(i - 1);
      RunHandlesLead(r, i - 1);
      HandlesLastedSince(r, j, i - 1);
    }
  }

  // Nothing leaks before the handles are used up.
  lemma {:induction false} NoLeaksWhileHandlesLast(r: Run, i: nat)
    requires r.Valid() && i < |r.worlds| && HandleAvailable(r.worlds[i].reg)
    ensures NoLeaks(r, i)
  {
    forall j | 0 <= j < i ensures !Leaks(r, j) {
      HandlesLastedSince(r, j, i);
      IdsOutlastHandles(r, j);
    }
  }

  // So while handles last, ACL holds exactly the owned mappings, is never asked for
  // a range that meets one it holds, and every registration that throws changes
  // nothing but its call counter.
  lemma {:induction false} ExactWhileHandlesLast(r: Run, i: nat, req: Request, env: RegisterEnv)
    requires r.Valid() && i < |r.worlds| && HandleAvailable(r.worlds[i].reg)
    ensures var w := r.worlds[i];
            && w.pinned == OwnedRanges(w.reg.mappings)
            && AsksAnew(r.page, w, req, env)
            && var res := Register(w.reg, req, r.page, env);
               res.outcome.Threw? ==> res.pinned.None? && (res.state == w.reg || res.state == CountCall(w.reg))
  {
    NoLeaksWhileHandlesLast(r, i);
    AclPairingIff(r, i);
    AclNeverSeesOverlapIff(r, i);
    IdsOutlastHandles(r, i);
    if Register(r.worlds[i].reg, req, r.page, env).outcome.Threw? {
      RegisterFailureIsAtomic(r.worlds[i].reg, req, r.page, env);
    }
  }
}
