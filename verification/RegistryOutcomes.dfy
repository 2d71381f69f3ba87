// When each call on the registry succeeds, and what a caller gets from it.
module RegistryOutcomes {
  import opened Options
  import opened HostRange
  import opened Registry
  import opened RegistryBook
  import opened RegistryRuns
  import opened RegistryTheorems
  import opened RegistryLifetime

  // Mapping k is the one that serves the request: it contains it, and no earlier one does.
  ghost predicate Serves(ms: seq<Mapping>, req: Request, k: int) {
    && 0 <= k < |ms| && ms[k].Contains(req.addr, req.bytes)
    && forall i :: 0 <= i < k ==> !ms[i].Contains(req.addr, req.bytes)
  }

  ghost predicate Unserved(ms: seq<Mapping>, req: Request) {
    forall i :: 0 <= i < |ms| ==> !ms[i].Contains(req.addr, req.bytes)
  }

  lemma {:induction false} LookupServes(ms: seq<Mapping>, req: Request)
    ensures var k := FirstContaining(ms, req.addr, req.bytes);
            if k < |ms| then Serves(ms, req, k) && !Unserved(ms, req) else Unserved(ms, req)
    ensures forall k :: Serves(ms, req, k) ==> k == FirstContaining(ms, req.addr, req.bytes)
  {
  }

  // ----------------------------------------------------------------- gather

  // A gather resolves to mapping k, at an address, exactly when the range passes the
  // checks, k is of the current device and serves the range, and the address is the
  // mapping's device base plus the offset in the mapping.
  lemma {:induction false} ResolveIff(s: State, req: Request, page: int, device: int, k: nat, address: int)
    ensures Resolve(s, req, page, device) == Returned(Resolved(k, address)) <==>
            && GetHostRange(req, page).Returned? && device >= 0
            && Serves(s.mappings, req, k) && s.mappings[k].device == device
            && address - s.mappings[k].deviceBase == req.addr - s.mappings[k].base
  {
    LookupServes(s.mappings, req);
  }

  // Why a gather does not resolve.
  lemma {:induction false} ResolveErrors(s: State, req: Request, page: int, device: int)
    requires GetHostRange(req, page).Returned? && Resolve(s, req, page, device).Threw?
    ensures var error := Resolve(s, req, page, device).error;
            if device < 0 then error == DeviceQueryFailed
            else if Unserved(s.mappings, req) then error == NotRegistered
            else error == CrossDevice && exists k :: Serves(s.mappings, req, k) && s.mappings[k].device != device
  {
    LookupServes(s.mappings, req);
  }

  // ----------------------------------------------------------- registration

  // No mapping wraps or meets the request, so a new mapping can be made for it.
  ghost predicate Free(ms: seq<Mapping>, req: Request) {
    forall i :: 0 <= i < |ms| ==> !ms[i].Wrapped() && !ms[i].Meets(req.addr, req.bytes)
  }

  ghost predicate Aliased(env: RegisterEnv) { env.aliasOk && env.alias != 0 }

  // What a caller can check before a registration.
  ghost predicate Accepts(s: State, req: Request, page: int, env: RegisterEnv) {
    && GetHostRange(req, page).Returned? && env.device >= 0 && HandleAvailable(s)
    && ((exists k :: Serves(s.mappings, req, k) && s.mappings[k].device == env.device)
        || (&& Unserved(s.mappings, req) && Free(s.mappings, req)
            && IdAvailable(s) && (Aliased(env) || env.newBase.Some?)))
  }

  lemma {:induction false} NoClashIff(ms: seq<Mapping>, req: Request)
    ensures OverlapError(ms, req.addr, req.bytes).None? <==> Free(ms, req)
  {
  }

  // The request goes to an existing mapping or to a new one.
  lemma {:induction false} PlanIff(s: State, req: Request, env: RegisterEnv)
    ensures PlanFor(s, req, env).Reuse? <==>
            exists k :: Serves(s.mappings, req, k) && s.mappings[k].device == env.device
    ensures PlanFor(s, req, env).Reuse? ==> Serves(s.mappings, req, PlanFor(s, req, env).index)
    ensures PlanFor(s, req, env).Borrow? <==>
            Unserved(s.mappings, req) && Free(s.mappings, req) && Aliased(env)
    ensures PlanFor(s, req, env).Own? <==>
            Unserved(s.mappings, req) && Free(s.mappings, req) && !Aliased(env) && env.newBase.Some?
  {
    LookupServes(s.mappings, req);
    NoClashIff(s.mappings, req);
    var k := FirstContaining(s.mappings, req.addr, req.bytes);
    if k < |s.mappings| && s.mappings[k].device == env.device {
      assert Serves(s.mappings, req, k);
    }
  }

  lemma {:induction false} RegisterSucceedsIff(s: State, req: Request, page: int, env: RegisterEnv)
    ensures Register(s, req, page, env).outcome.Returned? <==> Accepts(s, req, page, env)
  {
    PlanIff(s, req, env);
  }

  // The overlap scan stops at mapping k.
  ghost predicate Clashes(ms: seq<Mapping>, req: Request, k: int) {
    && 0 <= k < |ms| && (ms[k].Wrapped() || ms[k].Meets(req.addr, req.bytes))
    && Free(ms[..k], req)
  }

  // Why a registration throws, once its range and device have passed the checks.
  lemma {:induction false} RegisterErrors(s: State, req: Request, page: int, env: RegisterEnv)
    requires GetHostRange(req, page).Returned? && env.device >= 0 && Register(s, req, page, env).outcome.Threw?
    ensures var error, ms := Register(s, req, page, env).outcome.error, s.mappings;
            match error
            case CrossDevice => exists k :: Serves(ms, req, k) && ms[k].device != env.device
            case CachedMappingOverflow => Unserved(ms, req) && exists k :: Clashes(ms, req, k) && ms[k].Wrapped()
            case PartialOverlap => Unserved(ms, req) && exists k :: Clashes(ms, req, k) && !ms[k].Wrapped()
            case RegisterFailed => Unserved(ms, req) && Free(ms, req) && !Aliased(env) && env.newBase.None?
            case MappingIdsExhausted => Unserved(ms, req) && Free(ms, req) && !IdAvailable(s)
            case HandlesExhausted => !HandleAvailable(s)
            case _ => false
  {
    var ms := s.mappings;
    LookupServes(ms, req);
    NoClashIff(ms, req);
    var k := FirstClash(ms, req.addr, req.bytes);
    if k < |ms| {
      assert Clashes(ms, req, k);
    }
  }

  // The lease that a registration makes: new, and about the registered range.
  ghost predicate NewLease(s: State, s': State, req: Request, device: int, v: int) {
    && v !in s.leases && v in s'.leases && s'.leases == s.leases[v := s'.leases[v]]
    && s'.leases[v].handle == v && s'.leases[v].active
    && s'.leases[v].addr == req.addr && s'.leases[v].bytes == req.bytes && s'.leases[v].device == device
  }

  // The returned handle names the new lease, and every other lease is as it was.
  lemma {:induction false} RegisterMakesLease(s: State, req: Request, page: int, env: RegisterEnv)
    requires Book(s) && Register(s, req, page, env).outcome.Returned?
    ensures var r := Register(s, req, page, env); NewLease(s, r.state, req, env.device, r.outcome.value)
  {
  }

  // The mapping made for a request that no mapping serves.
  ghost predicate NewMapping(s: State, m: Mapping, req: Request, page: int, env: RegisterEnv)
    requires GetHostRange(req, page).Returned?
  {
    && m.id == s.nextId && m.device == env.device && m.refs == 1
    && if Aliased(env) then !m.owned && m.Bytes() == req.AsRange() && m.deviceBase == env.alias
       else m.owned && m.Bytes() == GetHostRange(req, page).value.Pages() && env.newBase == Some(m.deviceBase)
  }

  // One more reference on the mapping with the id, which serves the request.
  ghost predicate TakesReference(ms: seq<Mapping>, ms': seq<Mapping>, req: Request, id: nat) {
    exists k :: Serves(ms, req, k) && ms[k].id == id && ms' == ms[k := ms[k].(refs := ms[k].refs + 1)]
  }

  // A successful registration takes one more reference on the mapping that serves the
  // range, or appends a mapping for it; ACL registers pages only for a new mapping
  // that no allocator had registered.
  lemma {:induction false} RegisterPlaces(s: State, req: Request, page: int, env: RegisterEnv)
    requires Book(s) && Register(s, req, page, env).outcome.Returned?
    ensures GetHostRange(req, page).Returned?
    ensures var r := Register(s, req, page, env);
            var ms, ms', v := s.mappings, r.state.mappings, r.outcome.value;
            && v in r.state.leases
            && if Unserved(ms, req) then
                 && |ms'| == |ms| + 1 && ms'[..|ms|] == ms && NewMapping(s, ms'[|ms|], req, page, env)
                 && r.state.leases[v].mappingId == s.nextId
                 && r.pinned == (if Aliased(env) then None else Some(ms'[|ms|].Bytes()))
               else r.pinned.None? && TakesReference(ms, ms', req, r.state.leases[v].mappingId)
  {
    PlanIff(s, req, env);
    if PlanFor(s, req, env).Reuse? {
      ReusePlaces(s, req, page, env);
    } else {
      NewPlaces(s, req, page, env);
    }
  }

  lemma {:induction false} ReusePlaces(s: State, req: Request, page: int, env: RegisterEnv)
    requires Book(s) && Register(s, req, page, env).outcome.Returned?
    requires PlanFor(s, req, env).Reuse? && Serves(s.mappings, req, PlanFor(s, req, env).index)
    ensures var r := Register(s, req, page, env);
            && r.outcome.value in r.state.leases && r.pinned.None? && !Unserved(s.mappings, req)
            && TakesReference(s.mappings, r.state.mappings, req, r.state.leases[r.outcome.value].mappingId)
  {
    var r, k := Register(s, req, page, env), PlanFor(s, req, env).index;
    assert r == IssueOrThrow(CountCall(s), k, req, env.device, None);
    assert s.mappings[k].Contains(req.addr, req.bytes);
  }

  lemma {:induction false} NewPlaces(s: State, req: Request, page: int, env: RegisterEnv)
    requires Book(s) && Register(s, req, page, env).outcome.Returned?
    requires if Aliased(env) then PlanFor(s, req, env) == Borrow(env.alias)
             else env.newBase.Some? && PlanFor(s, req, env) == Own(env.newBase.value)
    ensures GetHostRange(req, page).Returned?
    ensures var r := Register(s, req, page, env);
            var ms, ms', v := s.mappings, r.state.mappings, r.outcome.value;
            && v in r.state.leases && r.state.leases[v].mappingId == s.nextId
            && |ms'| == |ms| + 1 && ms'[..|ms|] == ms && NewMapping(s, ms'[|ms|], req, page, env)
            && r.pinned == (if Aliased(env) then None else Some(ms'[|ms|].Bytes()))
  {
    var n, bytes := |s.mappings|, if Aliased(env) then req.AsRange() else GetHostRange(req, page).value.Pages();
    var added := AddMapping(CountCall(s), bytes, if Aliased(env) then env.alias else env.newBase.value, env.device,
      !Aliased(env));
    assert Register(s, req, page, env).state == Issue(added, n, req, env.device);
    assert added.mappings[..n] == s.mappings;
  }

  // ---------------------------------------------------------------- release

  // Which calls a release needs: the fence, and host-unregister for an owned mapping,
  // but only with the last lease on the mapping.
  ghost predicate CallsSucceed(s: State, h: int, env: ReleaseEnv)
    requires h in s.leases
  {
    LastLease(s.leases, h) ==> env.fenceOk && (s.leases[h].owned ==> env.unregisterOk)
  }

  // The outcome of every release, from what a caller can know.
  lemma {:induction false} ReleaseOutcome(s: State, h: int, env: ReleaseEnv)
    requires Book(s)
    ensures Release(s, h, env).outcome ==
            if env.device < 0 then Threw(DeviceQueryFailed)
            else if h !in s.leases then Returned(false)
            else if s.leases[h].device != env.device then Threw(WrongDevice)
            else if LastLease(s.leases, h) && !env.fenceOk then Threw(FenceFailed)
            else if LastLease(s.leases, h) && s.leases[h].owned && !env.unregisterOk then Threw(UnregisterFailed)
            else Returned(true)
  {
    if env.device >= 0 && h in s.leases {
      var k := BackingIndex(s, h);
      RefsTellLast(s, h, k);
    }
  }

  // A live lease can be released exactly on its own device, if the calls that its
  // release needs succeed.
  lemma {:induction false} ReleaseSucceedsIff(s: State, h: int, env: ReleaseEnv)
    requires Book(s) && h in s.leases && env.device >= 0
    ensures Release(s, h, env).outcome == Returned(true)
            <==> s.leases[h].device == env.device && CallsSucceed(s, h, env)
  {
    ReleaseOutcome(s, h, env);
  }

  // ------------------------------------------------------------- whole runs

  ghost predicate ReleasedAt(r: Run, k: nat, h: int)
    requires r.Valid() && k < |r.events|
  {
    && r.events[k].DoRelease? && r.events[k].handle == h
    && Release(r.worlds[k].reg, h, r.events[k].relEnv).outcome == Returned(true)
  }

  lemma {:induction false} StepKeepsLease(page: int, w: World, e: Event, h: int)
    requires Book(w.reg) && h in w.reg.leases
    requires !(e.DoRelease? && e.handle == h && Release(w.reg, h, e.relEnv).outcome == Returned(true))
    ensures var s' := Step(page, w, e).reg; h in s'.leases && s'.leases[h] == w.reg.leases[h]
  {
    if e.DoRegister? {
      RegisterKeepsLeases(w.reg, e.req, page, e.regEnv);
    } else if e.DoRelease? {
      ReleaseFailureIsAtomic(w.reg, e.handle, e.relEnv);
      if Release(w.reg, e.handle, e.relEnv).outcome != Returned(true) {
        ReleaseWithoutEffect(w.reg, e.handle, e.relEnv);
      }
    }
  }

  lemma {:induction false} UnreleasedLeaseStays(r: Run, i: nat, j: nat, h: int)
    requires r.Valid() && i <= j < |r.worlds| && h in r.worlds[i].reg.leases
    requires forall k :: i <= k < j ==> !ReleasedAt(r, k, h)
    ensures h in r.worlds[j].reg.leases && r.worlds[j].reg.leases[h] == r.worlds[i].reg.leases[h]
  {
    if i == j {
    } else {
      UnreleasedLeaseStays(r, i, j - 1, h);
      EveryRunIsSafe(r, j - 1);
      assert !ReleasedAt(r, j - 1, h);
      StepKeepsLease(r.page, r.worlds[j - 1], r.events[j - 1], h);
      assert r.Follows(j - 1);
    }
  }

  // Every lease is independent: it stays as it was made until its own handle is
  // released, whatever else is registered and released, and not longer.
  lemma {:induction false} LeaseLastsIff(r: Run, i: nat, j: nat, h: int)
    requires r.Valid() && i <= j < |r.worlds| && h in r.worlds[i].reg.leases
    ensures h in r.worlds[j].reg.leases <==> forall k :: i <= k < j ==> !ReleasedAt(r, k, h)
    ensures h in r.worlds[j].reg.leases ==> r.worlds[j].reg.leases[h] == r.worlds[i].reg.leases[h]
  {
    if forall k :: i <= k < j ==> !ReleasedAt(r, k, h) {
      UnreleasedLeaseStays(r, i, j, h);
    } else {
      var k :| i <= k < j && ReleasedAt(r, k, h);
      HandlesAreNeverReissued(r, k, h, r.events[k].relEnv, j, r.events[k].relEnv);
    }
  }
}
