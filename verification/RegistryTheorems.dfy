// What the registry promises over whole runs, and exactly where a promise stops.
module RegistryTheorems {
  import opened HostRange
  import opened Registry
  import opened RegistryBook
  import opened RegistryGeometry
  import opened RegistryRuns

  // ------------------------------------------------------- resolution of leases

  lemma {:induction false} StepGeometry(page: int, w: World, e: Event)
    requires Book(w.reg) && Geometry(page, w.reg, w.origins)
    ensures var w' := Step(page, w, e); Geometry(page, w'.reg, w'.origins)
  {
    if e.DoRegister? {
      RegisterGeometry(page, w.reg, w.origins, e.req, e.regEnv);
    } else if e.DoRelease? {
      ReleaseGeometry(page, w.reg, w.origins, e.handle, e.relEnv);
    }
  }

  lemma {:induction false} RunGeometry(r: Run, i: nat)
    requires r.Valid() && i < |r.worlds|
    ensures Geometry(r.page, r.worlds[i].reg, r.worlds[i].origins)
  {
    if i == 0 {
    } else {
      RunGeometry(r, i - 1);
      EveryRunIsSafe(r, i - 1);
      assert r.worlds[i] == Step(r.page, r.worlds[i - 1], r.events[i - 1]) by { assert r.Follows(i - 1); }
      StepGeometry(r.page, r.worlds[i - 1], r.events[i - 1]);
    }
  }

  // In every reachable state each live lease resolves to its own mapping and to
  // its recorded device address, unless the end of its mapping wraps.  Its parts
  // resolve to that address plus their offset exactly when, moreover, no earlier
  // mapping meets the leased range; in particular when no mapping is borrowed.
  lemma {:induction false} EveryLeaseResolves(r: Run, i: nat, h: int)
    requires r.Valid() && i < |r.worlds| && h in r.worlds[i].reg.leases
    ensures var s := r.worlds[i].reg;
            var l := s.leases[h];
            && Resolve(s, Request(l.addr, l.bytes), r.page, l.device)
               == (if OnWrapped(s, h) then Threw(NotRegistered)
                   else Returned(Resolved(FindById(s.mappings, l.mappingId), l.deviceAddr)))
            && (SubrangesResolve(r.page, s, h) <==> EarlierClear(s, h) && !OnWrapped(s, h))
            && (AllOwned(s.mappings) && !OnWrapped(s, h) ==> SubrangesResolve(r.page, s, h))
  {
    var w := r.worlds[i];
    EveryRunIsSafe(r, i);
    RunGeometry(r, i);
    LeaseResolves(r.page, w.reg, w.origins, h);
    SubrangesResolveIff(r.page, w.reg, w.origins, h);
    if AllOwned(w.reg.mappings) {
      OwnedOnlyIsClear(r.page, w.reg, w.origins, h);
    }
  }

  ghost predicate AllOwned(ms: seq<Mapping>) {
    forall k :: 0 <= k < |ms| ==> ms[k].owned
  }

  lemma {:induction false} OwnedOnlyIsClear(page: int, s: State, origins: Origins, h: int)
    requires Book(s) && Geometry(page, s, origins) && h in s.leases && AllOwned(s.mappings)
    ensures EarlierClear(s, h)
  {
    var k := BackingIndex(s, h);
    var l := s.leases[h];
    OverlapsAreOnlyPadding(page, s, origins);
    assert Within(Range(l.addr, l.bytes), s.mappings[k].Bytes());
    forall i | 0 <= i < k ensures !Overlaps(s.mappings[i].Bytes(), Range(l.addr, l.bytes)) {
      assert !Overlaps(s.mappings[i].Bytes(), s.mappings[k].Bytes());
    }
  }

  ghost predicate NoneWrapped(ms: seq<Mapping>) {
    forall k :: 0 <= k < |ms| ==> !ms[k].Wrapped()
  }

  // The overlap structure of every reachable state; while no mapping wraps, the
  // current byte counter is a 64-bit number.
  lemma {:induction false} EveryRunKeepsOverlapStructure(r: Run, i: nat)
    requires r.Valid() && i < |r.worlds|
    ensures var w := r.worlds[i];
            && (forall k :: 0 <= k < |w.reg.mappings| ==> w.reg.mappings[k].id in w.origins)
            && OverlapStructure(r.page, w.reg.mappings, w.origins)
            && 0 <= w.reg.counters.bytesCurrent
            && (NoneWrapped(w.reg.mappings) ==> w.reg.counters.bytesCurrent <= U64_MAX)
  {
    var w := r.worlds[i];
    EveryRunIsSafe(r, i);
    RunGeometry(r, i);
    OverlapsAreOnlyPadding(r.page, w.reg, w.origins);
    if NoneWrapped(w.reg.mappings) {
      OwnedBytesFit(r.page, w.reg, w.origins);
    }
  }

  // Event j makes ACL register a range.
  ghost predicate Pins(r: Run, j: nat)
    requires r.Valid() && j < |r.events|
  {
    var e := r.events[j];
    e.DoRegister? && Register(r.worlds[j].reg, e.req, r.page, e.regEnv).pinned.Some?
  }

  // Every range that ACL registers in the first i events ends at a 64-bit address.
  ghost predicate AddressableUpTo(r: Run, i: nat)
    requires r.Valid() && i <= |r.events|
  {
    forall j :: 0 <= j < i && Pins(r, j) ==> Addressable(r.events[j].req, r.page)
  }

  lemma {:induction false} NewMappingBytes(s: State, req: Request, page: int, env: RegisterEnv)
    requires |Register(s, req, page, env).state.mappings| > |s.mappings|
    ensures GetHostRange(req, page).Returned?
    ensures var r := Register(s, req, page, env);
            var m := r.state.mappings[|s.mappings|];
            if m.owned then r.pinned.Some? && m.Bytes() == GetHostRange(req, page).value.Pages()
            else m.Bytes() == req.AsRange()
  {
  }

  lemma {:induction false} FittingMapping(m: Mapping, req: Request, page: int)
    requires GetHostRange(req, page).Returned?
    requires m.Bytes() == req.AsRange()
          || (m.Bytes() == GetHostRange(req, page).value.Pages() && Addressable(req, page))
    ensures !m.Wrapped()
  {
    assert m.base + m.size <= U64_MAX;
  }

  lemma {:induction false} RegisterNoneWrapped(s: State, req: Request, page: int, env: RegisterEnv, s': State)
    requires NoneWrapped(s.mappings) && s' == Register(s, req, page, env).state
    requires Register(s, req, page, env).pinned.Some? ==> Addressable(req, page)
    ensures NoneWrapped(s'.mappings)
  {
    RegisterKeepsMappings(s, req, page, env);
    if |s'.mappings| > |s.mappings| {
      NewMappingBytes(s, req, page, env);
      FittingMapping(s'.mappings[|s.mappings|], req, page);
    }
    forall k | 0 <= k < |s.mappings| ensures !s'.mappings[k].Wrapped() {
      assert SameMapping(s'.mappings[k], s.mappings[k]);
    }
  }

  lemma {:induction false} ReleaseNoneWrapped(s: State, handle: int, env: ReleaseEnv)
    requires Book(s) && NoneWrapped(s.mappings)
    ensures NoneWrapped(Release(s, handle, env).state.mappings)
  {
    var s' := Release(s, handle, env).state;
    forall k | 0 <= k < |s'.mappings| ensures !s'.mappings[k].Wrapped() {
      var i := ReleaseOrigin(s, handle, env, k);
      assert !s.mappings[i].Wrapped();
    }
  }

  // Callers that keep their new pools out of the last page never meet a wrapped
  // mapping.
  lemma {:induction false} AddressableRunsNeverWrap(r: Run, i: nat)
    requires r.Valid() && i < |r.worlds| && AddressableUpTo(r, i)
    ensures NoneWrapped(r.worlds[i].reg.mappings)
  {
    if i == 0 {
    } else {
      AddressableRunsNeverWrap(r, i - 1);
      EveryRunIsSafe(r, i - 1);
      assert r.worlds[i] == Step(r.page, r.worlds[i - 1], r.events[i - 1]) by { assert r.Follows(i - 1); }
      var w, e := r.worlds[i - 1], r.events[i - 1];
      if e.DoRegister? {
        assert Pins(r, i - 1) ==> Addressable(e.req, r.page);
        RegisterNoneWrapped(w.reg, e.req, r.page, e.regEnv, r.worlds[i].reg);
      } else if e.DoRelease? {
        ReleaseNoneWrapped(w.reg, e.handle, e.relEnv);
      }
    }
  }

  // ------------------------------------------------------------------ handles

  lemma {:induction false} IdsOnlyGrow(page: int, w: World, e: Event)
    ensures w.reg.nextId <= Step(page, w, e).reg.nextId
    ensures w.reg.nextHandle <= Step(page, w, e).reg.nextHandle
  {
  }

  lemma {:induction false} StepKeepsHandleDead(page: int, w: World, e: Event, handle: int)
    requires handle < w.reg.nextHandle && handle !in w.reg.leases
    ensures handle !in Step(page, w, e).reg.leases
  {
  }

  lemma {:induction false} HandleStaysDead(r: Run, i: nat, j: nat, handle: int)
    requires r.Valid() && i <= j < |r.worlds|
    requires handle < r.worlds[i].reg.nextHandle && handle !in r.worlds[i].reg.leases
    ensures handle < r.worlds[j].reg.nextHandle && handle !in r.worlds[j].reg.leases
  {
    if i < j {
      HandleStaysDead(r, i, j - 1, handle);
      assert r.worlds[j] == Step(r.page, r.worlds[j - 1], r.events[j - 1]) by { assert r.Follows(j - 1); }
      IdsOnlyGrow(r.page, r.worlds[j - 1], r.events[j - 1]);
      StepKeepsHandleDead(r.page, r.worlds[j - 1], r.events[j - 1], handle);
    }
  }

  // A handle whose release succeeded is unknown ever after: every later release
  // returns false (unless the device query itself fails) and changes nothing.
  lemma {:induction false} HandlesAreNeverReissued(r: Run, i: nat, handle: int, env: ReleaseEnv, j: nat,
                                                   env': ReleaseEnv)
    requires r.Valid() && i < j < |r.worlds|
    requires r.events[i] == DoRelease(handle, env)
    requires Release(r.worlds[i].reg, handle, env).outcome == Returned(true)
    ensures var s := r.worlds[j].reg;
            && handle !in s.leases
            && Release(s, handle, env').state == s
            && Release(s, handle, env').outcome == if env'.device < 0 then Threw(DeviceQueryFailed) else Returned(false)
  {
    EveryRunIsSafe(r, i);
    var k := BackingIndex(r.worlds[i].reg, handle);
    assert r.Follows(i);
    HandleStaysDead(r, i + 1, j, handle);
  }

  // --------------------------------------------------------- failure atomicity

  // The only calls that throw half-way: a new mapping is needed and an id space
  // has run out.
  ghost predicate RunsOutOfIds(s: State, req: Request, page: int, env: RegisterEnv) {
    && GetHostRange(req, page).Returned? && env.device >= 0
    && (PlanFor(s, req, env).Own? || (PlanFor(s, req, env).Borrow? && IdAvailable(s)))
    && !(IdAvailable(s) && HandleAvailable(s))
  }

  // A registration that throws changes nothing but its call counter, in the
  // registry and in ACL, if and only if no id space ran out under a new mapping.
  lemma {:induction false} RegisterFailureIsAtomic(s: State, req: Request, page: int, env: RegisterEnv)
    requires Register(s, req, page, env).outcome.Threw?
    ensures var r := Register(s, req, page, env);
            (r.pinned.None? && (r.state == s || r.state == CountCall(s))) <==> !RunsOutOfIds(s, req, page, env)
  {
    if RunsOutOfIds(s, req, page, env) && IdAvailable(s) {
      assert |Register(s, req, page, env).state.mappings| == |s.mappings| + 1;
    }
  }

  lemma {:induction false} ReleaseFailureIsAtomic(s: State, handle: int, env: ReleaseEnv)
    ensures var r := Release(s, handle, env);
            && (r.outcome.Threw? ==> r.state == s && r.unpinned.None?)
            && (r.outcome == Returned(true) ==> r.state.leases == s.leases - {handle} && handle in s.leases)
  {
  }

  // ---------------------------------------------- the last page of the address space

  lemma {:induction false} OwnedShape(s: State, req: Request, page: int, env: RegisterEnv)
    requires var r := Register(s, req, page, env); r.outcome.Returned? && r.pinned.Some?
    ensures GetHostRange(req, page).Returned? && env.device >= 0
    ensures FirstContaining(s.mappings, req.addr, req.bytes) == |s.mappings|
    ensures var s' := Register(s, req, page, env).state;
            && |s'.mappings| == |s.mappings| + 1
            && s'.mappings[..|s.mappings|] == s.mappings
            && s'.mappings[|s.mappings|].Bytes() == GetHostRange(req, page).value.Pages()
            && s'.mappings[|s.mappings|].device == env.device
  {
    assert PlanFor(s, req, env).Own?;
  }

  // The end of the pages around a request in the last page wraps below their base.
  lemma {:induction false} LastPageWraps(req: Request, page: int, m: Mapping)
    requires GetHostRange(req, page).Returned? && m.Bytes() == GetHostRange(req, page).value.Pages()
    ensures if Addressable(req, page) then m.Contains(req.addr, req.bytes)
            else m.Wrapped() && !m.Contains(req.addr, req.bytes)
  {
    var end := m.base + m.size;
    if end <= U64_MAX {
      assert m.End64() == end;
    } else {
      assert end - U64_SPAN < page && m.size <= U64_MAX;
      assert m.End64() == end - U64_SPAN;
    }
  }

  lemma {:induction false} WrappedBlocks(s: State, n: nat, req: Request, env: RegisterEnv)
    requires n < |s.mappings| && s.mappings[n].Wrapped()
    ensures !PlanFor(s, req, env).Borrow? && !PlanFor(s, req, env).Own?
  {
    assert FirstClash(s.mappings, req.addr, req.bytes) <= n;
  }

  // A pool that this extension registers resolves afterwards exactly when its
  // page-rounded end is a 64-bit address.  Otherwise the recorded end wraps, and
  // until that mapping is dropped no range can be newly mapped.
  lemma {:induction false} LastPageIff(s: State, req: Request, page: int, env: RegisterEnv)
    requires var r := Register(s, req, page, env); r.outcome.Returned? && r.pinned.Some?
    ensures var s' := Register(s, req, page, env).state;
            && (Resolve(s', req, page, env.device).Returned? <==> Addressable(req, page))
            && (!Addressable(req, page) ==> forall req', env' ::
                  !PlanFor(s', req', env').Borrow? && !PlanFor(s', req', env').Own?)
  {
    var s' := Register(s, req, page, env).state;
    var n := |s.mappings|;
    OwnedShape(s, req, page, env);
    LastPageWraps(req, page, s'.mappings[n]);
    assert forall i :: 0 <= i < n ==> s'.mappings[i] == s'.mappings[..n][i];
    var k := FirstContaining(s'.mappings, req.addr, req.bytes);
    assert k >= n;
    if !Addressable(req, page) {
      forall req', env' ensures !PlanFor(s', req', env').Borrow? && !PlanFor(s', req', env').Own? {
        WrappedBlocks(s', n, req', env');
      }
    }
  }
}
