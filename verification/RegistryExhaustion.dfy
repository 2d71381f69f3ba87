// Runs that use up the handles, and then the mapping ids.
module RegistryExhaustion {
  import opened HostRange
  import opened Registry
  import opened RegistryRuns
  import opened RegistryLimits
  import opened RegistryAcl

  // What the environment answers here: device 0, and an alias for every pointer.
  ghost predicate Aliased(env: RegisterEnv) { env.device == 0 && env.aliasOk && env.alias != 0 }

  // The pages are small enough for every address that the requests below use.
  ghost predicate SmallPages(page: int) { 0 < page <= 0x1_0000_0000 }

  lemma {:induction false} OneByteAccepted(page: int, addr: nat)
    requires SmallPages(page) && 0 < addr < U64_MAX
    ensures GetHostRange(Request(addr, 1), page).Returned?
  {
    assert addr % page < page;
  }

  ghost function Last(r: Run): World
    requires r.Valid()
  {
    r.worlds[|r.events|]
  }

  lemma {:induction false} Extend(r: Run, e: Event) returns (r': Run)
    requires r.Valid()
    ensures r'.Valid() && r'.page == r.page && r'.pid == r.pid
    ensures r'.events == r.events + [e] && |r'.worlds| == |r.worlds| + 1
    ensures r'.worlds[|r.events|] == Last(r) && Last(r') == Step(r.page, Last(r), e)
  {
    r' := Run(r.page, r.pid, r.events + [e], r.worlds + [Step(r.page, Last(r), e)]);
    forall i | 0 <= i < |r'.events| ensures r'.Follows(i) {
      if i < |r.events| {
        assert r.Follows(i);
      }
    }
  }

  // ------------------------------------------------------------------- handles

  // Nothing is registered, after n registrations and releases.
  ghost predicate Idle(s: State, first: int, n: nat) {
    s.mappings == [] && s.leases == map[] && s.nextId == 1 + n && s.nextHandle == first + n
  }

  lemma {:induction false} BorrowFirst(s: State, page: int, req: Request, env: RegisterEnv)
    requires s.mappings == [] && s.leases == map[] && IdAvailable(s) && HandleAvailable(s)
    requires Aliased(env) && GetHostRange(req, page).Returned?
    ensures var s' := Register(s, req, page, env).state;
            && |s'.mappings| == 1 && s'.mappings[0].id == s.nextId && s'.mappings[0].device == 0
            && s'.mappings[0].refs == 1 && !s'.mappings[0].owned
            && s'.leases.Keys == {s.nextHandle} && s'.leases[s.nextHandle].active
            && s'.leases[s.nextHandle].mappingId == s.nextId
            && s'.nextId == s.nextId + 1 && s'.nextHandle == s.nextHandle + 1
  {
    assert PlanFor(s, req, env) == Borrow(env.alias);
  }

  lemma {:induction false} ReleaseOnly(s: State, h: int, ok: ReleaseEnv)
    requires |s.mappings| == 1 && s.mappings[0].device == 0 && s.mappings[0].refs == 1 && !s.mappings[0].owned
    requires s.leases.Keys == {h} && s.leases[h].active && s.leases[h].mappingId == s.mappings[0].id
    requires ok.device == 0 && ok.fenceOk
    ensures var s' := Release(s, h, ok).state;
            s'.mappings == [] && s'.leases == map[] && s'.nextId == s.nextId && s'.nextHandle == s.nextHandle
  {
    assert RemoveById(s.mappings, s.mappings[0].id) == [];
    assert (s.leases - {h}).Keys == {};
  }

  // One registration and its release use up one handle and one id.
  lemma {:induction false} Cycle(r: Run, n: nat, env: RegisterEnv, ok: ReleaseEnv) returns (r': Run)
    requires r.Valid() && SmallPages(r.page) && Aliased(env) && ok.device == 0 && ok.fenceOk
    requires Idle(Last(r).reg, InitialHandle(r.pid), n)
    requires 1 + n < U64_MAX && InitialHandle(r.pid) + n < I64_MAX
    ensures r'.Valid() && r'.page == r.page && r'.pid == r.pid
    ensures Idle(Last(r').reg, InitialHandle(r.pid), n + 1)
  {
    var req, h := Request(1, 1), Last(r).reg.nextHandle;
    OneByteAccepted(r.page, 1);
    BorrowFirst(Last(r).reg, r.page, req, env);
    var r1 := Extend(r, DoRegister(req, env));
    ReleaseOnly(Last(r1).reg, h, ok);
    r' := Extend(r1, DoRelease(h, ok));
  }

  lemma {:induction false} Cycles(page: int, pid: nat, n: nat, env: RegisterEnv, ok: ReleaseEnv) returns (r: Run)
    requires SmallPages(page) && Aliased(env) && ok.device == 0 && ok.fenceOk
    requires n < U64_MAX && InitialHandle(pid) + n <= I64_MAX
    ensures r.Valid() && r.page == page && r.pid == pid && Idle(Last(r).reg, InitialHandle(pid), n)
  {
    if n == 0 {
      r := Run(page, pid, [], [Start(pid)]);
    } else {
      var before := Cycles(page, pid, n - 1, env, ok);
      r := Cycle(before, n - 1, env, ok);
    }
  }

  // The handles a process starts with.
  lemma {:induction false} InitialHandleRange(pid: nat)
    ensures 0 < InitialHandle(pid) < I64_MAX - 1
  {
    assert pid % 0x8000_0000 <= 0x7FFF_FFFF;
  }

  // Every process can reach a state in which a registration that throws leaves a
  // mapping without a lease.
  lemma {:induction false} HandlesCanRunOut(page: int, pid: nat, env: RegisterEnv, ok: ReleaseEnv, req: Request)
    returns (r: Run)
    requires SmallPages(page) && Aliased(env) && ok.device == 0 && ok.fenceOk && GetHostRange(req, page).Returned?
    ensures r.Valid() && r.page == page && r.pid == pid
    ensures var res := Register(Last(r).reg, req, page, env);
            res.outcome == Threw(HandlesExhausted) && |res.state.mappings| == 1 && !NoOrphans(res.state)
  {
    InitialHandleRange(pid);
    r := Cycles(page, pid, I64_MAX - InitialHandle(pid), env, ok);
    var s := Last(r).reg;
    assert PlanFor(s, req, env) == Borrow(env.alias);
    assert Register(s, req, page, env).state.mappings[0].refs == 0;
  }

  // ----------------------------------------------------------------------- ids

  // m one-byte mappings without a lease, at the addresses 1 to m.
  ghost predicate Orphaned(s: State, n: nat, m: nat) {
    && |s.mappings| == m && s.leases == map[]
    && (forall j :: 0 <= j < m ==> s.mappings[j].base == j + 1 && s.mappings[j].size == 1)
    && s.nextId == 1 + n + m && s.nextHandle == I64_MAX
  }

  lemma {:induction false} NextByteIsFree(s: State, n: nat, m: nat, req: Request)
    requires Orphaned(s, n, m) && req == Request(m + 1, 1) && m + 2 <= U64_MAX
    ensures forall j :: 0 <= j < m ==> Unrelated(s.mappings[j], req)
  {
    forall j | 0 <= j < m ensures Unrelated(s.mappings[j], req) {
      assert s.mappings[j].End64() == j + 2;
    }
  }

  // Without handles, a registration still makes a mapping.
  lemma {:induction false} Orphan(r: Run, n: nat, m: nat, env: RegisterEnv) returns (r': Run)
    requires r.Valid() && SmallPages(r.page) && Aliased(env)
    requires Orphaned(Last(r).reg, n, m) && 1 + n + m < U64_MAX && m + 2 <= U64_MAX
    ensures r'.Valid() && r'.page == r.page && r'.pid == r.pid && Orphaned(Last(r').reg, n, m + 1)
  {
    var s, req := Last(r).reg, Request(m + 1, 1);
    OneByteAccepted(r.page, m + 1);
    NextByteIsFree(s, n, m, req);
    AllUnrelated(s.mappings, req);
    assert PlanFor(s, req, env) == Borrow(env.alias);
    r' := Extend(r, DoRegister(req, env));
  }

  lemma {:induction false} Orphans(r: Run, n: nat, m: nat, env: RegisterEnv) returns (r': Run)
    requires r.Valid() && SmallPages(r.page) && Aliased(env)
    requires Orphaned(Last(r).reg, n, 0) && 1 + n + m <= U64_MAX && m + 1 <= U64_MAX
    ensures r'.Valid() && r'.page == r.page && r'.pid == r.pid && Orphaned(Last(r').reg, n, m)
  {
    if m == 0 {
      r' := r;
    } else {
      var before := Orphans(r, n, m - 1, env);
      r' := Orphan(before, n, m - 1, env);
    }
  }

  // Every process can then reach a state in which a registration that throws leaves
  // its pages with ACL: the last event of the run leaks.
  lemma {:induction false} IdsCanRunOut(page: int, pid: nat, env: RegisterEnv, own: RegisterEnv, ok: ReleaseEnv)
    returns (r: Run)
    requires SmallPages(page) && Aliased(env) && ok.device == 0 && ok.fenceOk
    requires own.device == 0 && !own.aliasOk && own.newBase.Some?
    ensures r.Valid() && r.page == page && r.pid == pid && |r.events| > 0 && Leaks(r, |r.events| - 1)
  {
    InitialHandleRange(pid);
    var n := I64_MAX - InitialHandle(pid);
    var idle := Cycles(page, pid, n, env, ok);
    var m := U64_MAX - 1 - n;
    var full := Orphans(idle, n, m, env);
    var s, req := Last(full).reg, Request(m + 1, 1);
    OneByteAccepted(page, m + 1);
    NextByteIsFree(s, n, m, req);
    WouldPinIff(page, s, req, own);
    r := Extend(full, DoRegister(req, own));
  }
}
