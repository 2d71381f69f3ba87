// Nothing the registry issued is unaccounted for: handles are live or released,
// mapping ids belong to registered or borrowed mappings.
module RegistryCounts {
  import opened Options
  import opened HostRange
  import opened Registry
  import opened RegistryBook
  import opened RegistryRuns

  ghost predicate Accounted(s: State, firstHandle: int) {
    && s.nextHandle - firstHandle == |s.leases| + s.counters.explicitUnregisters
    && s.nextId - 1 == s.counters.registerCalls + s.counters.borrowedTotal
    && |s.leases| + s.counters.explicitUnregisters <= s.counters.explicitRegisters
  }

  lemma {:induction false} IssueAccounted(s: State, k: nat, req: Request, device: int, pinned: Option<Range>,
                                          first: int)
    requires k < |s.mappings| && s.nextHandle !in s.leases
    requires s.nextHandle - first == |s.leases| + s.counters.explicitUnregisters
    requires s.nextId - 1 == s.counters.registerCalls + s.counters.borrowedTotal
    requires |s.leases| + s.counters.explicitUnregisters < s.counters.explicitRegisters
    ensures Accounted(IssueOrThrow(s, k, req, device, pinned).state, first)
  {
    var s' := IssueOrThrow(s, k, req, device, pinned).state;
    assert HandleAvailable(s) ==> s'.leases.Keys == s.leases.Keys + {s.nextHandle};
  }

  lemma {:induction false} RegisterAccounted(s: State, req: Request, page: int, env: RegisterEnv, first: int)
    requires Book(s) && Accounted(s, first)
    ensures Accounted(Register(s, req, page, env).state, first)
  {
    if GetHostRange(req, page).Returned? && env.device >= 0 {
      var s1, span := CountCall(s), GetHostRange(req, page).value;
      match PlanFor(s, req, env)
      case Refuse(_) =>
      case Reuse(k) => IssueAccounted(s1, k, req, env.device, None, first);
      case Borrow(alias) =>
        if IdAvailable(s) {
          IssueAccounted(AddMapping(s1, req.AsRange(), alias, env.device, false), |s.mappings|, req, env.device,
            None, first);
        }
      case Own(newBase) =>
        if IdAvailable(s) {
          IssueAccounted(AddMapping(s1, span.Pages(), newBase, env.device, true), |s.mappings|, req, env.device,
                         Some(span.Pages()), first);
        }
    }
  }

  lemma {:induction false} ReleaseAccounted(s: State, handle: int, env: ReleaseEnv, first: int)
    requires Accounted(s, first)
    ensures Accounted(Release(s, handle, env).state, first)
  {
    if handle in s.leases {
      assert (s.leases - {handle}).Keys == s.leases.Keys - {handle};
    }
  }

  lemma {:induction false} StepAccounted(page: int, w: World, e: Event, first: int)
    requires Book(w.reg) && Accounted(w.reg, first)
    ensures Accounted(Step(page, w, e).reg, first)
  {
    if e.DoRegister? {
      RegisterAccounted(w.reg, e.req, page, e.regEnv, first);
    } else if e.DoRelease? {
      ReleaseAccounted(w.reg, e.handle, e.relEnv, first);
    }
  }

  lemma {:induction false} RunStepAccounted(r: Run, i: nat, first: int)
    requires r.Valid() && i < |r.events| && Accounted(r.worlds[i].reg, first)
    ensures Accounted(r.worlds[i + 1].reg, first)
  {
    EveryRunIsSafe(r, i);
    StepAccounted(r.page, r.worlds[i], r.events[i], first);
    assert r.Follows(i);
  }

  // In every state of every run: the handles issued so far are the live ones and
  // the released ones, and the mapping ids issued so far are the mappings that were
  // registered or borrowed.
  lemma {:induction false} EverythingIsAccountedFor(r: Run, i: nat)
    requires r.Valid() && i < |r.worlds|
    ensures Accounted(r.worlds[i].reg, InitialHandle(r.pid))
  {
    if i == 0 {
    } else {
      EverythingIsAccountedFor(r, i - 1);
      RunStepAccounted(r, i - 1, InitialHandle(r.pid));
    }
  }

  // ----------------------------------------------------- ids outlast handles

  // While handles last, every mapping made so far also took a handle.
  ghost predicate HandlesLead(s: State, firstHandle: int) {
    0 < s.nextId && (s.nextHandle < I64_MAX ==> s.nextId - 1 <= s.nextHandle - firstHandle)
  }

  lemma {:induction false} StepHandlesLead(page: int, w: World, e: Event, first: int)
    requires HandlesLead(w.reg, first) && 0 < first <= w.reg.nextHandle
    ensures HandlesLead(Step(page, w, e).reg, first) && first <= Step(page, w, e).reg.nextHandle
  {
    if e.DoRegister? {
      RegisterIssues(w.reg, e.req, page, e.regEnv);
    } else if e.DoRelease? {
      ReleaseIssuesNothing(w.reg, e.handle, e.relEnv);
    }
  }

  // A registration takes an id only together with a handle, unless the handles are
  // used up.
  lemma {:induction false} RegisterIssues(s: State, req: Request, page: int, env: RegisterEnv)
    ensures var s' := Register(s, req, page, env).state;
            && s.nextId <= s'.nextId <= s.nextId + 1 && s.nextHandle <= s'.nextHandle
            && (s'.nextId > s.nextId && HandleAvailable(s) ==> s'.nextHandle == s.nextHandle + 1)
  {
  }

  lemma {:induction false} ReleaseIssuesNothing(s: State, handle: int, env: ReleaseEnv)
    ensures Release(s, handle, env).state.nextId == s.nextId
    ensures Release(s, handle, env).state.nextHandle == s.nextHandle
  {
  }

  lemma {:induction false} RunHandlesLead(r: Run, i: nat)
    requires r.Valid() && i < |r.worlds|
    ensures HandlesLead(r.worlds[i].reg, InitialHandle(r.pid)) && InitialHandle(r.pid) <= r.worlds[i].reg.nextHandle
  {
    if i == 0 {
    } else {
      RunHandlesLead(r, i - 1);
      StepHandlesLead(r.page, r.worlds[i - 1], r.events[i - 1], InitialHandle(r.pid));
      assert r.Follows(i - 1);
    }
  }

  // In every reachable state, as long as there are handles there are mapping ids.
  lemma {:induction false} IdsOutlastHandles(r: Run, i: nat)
    requires r.Valid() && i < |r.worlds| && HandleAvailable(r.worlds[i].reg)
    ensures IdAvailable(r.worlds[i].reg)
  {
    RunHandlesLead(r, i);
  }

  // ------------------------------------------------------------- the statistics

  ghost predicate Checked(req: Request, page: int, env: RegisterEnv) {
    GetHostRange(req, page).Returned? && env.device >= 0
  }

  // The bytes that ACL newly registered for a mapping in one step.
  ghost function NewBytes(s: State, s': State): nat {
    if |s'.mappings| > |s.mappings| && s'.mappings[|s.mappings|].owned then s'.mappings[|s.mappings|].size else 0
  }

  // The registrations of the first i events whose range and device passed the checks.
  ghost function CallsMade(r: Run, i: nat): nat
    requires r.Valid() && i <= |r.events|
  {
    if i == 0 then 0
    else
      var e := r.events[i - 1];
      CallsMade(r, i - 1) + if e.DoRegister? && Checked(e.req, r.page, e.regEnv) then 1 else 0
  }

  // The bytes of all mappings that were owned at some time in the first i events.
  ghost function BytesMapped(r: Run, i: nat): nat
    requires r.Valid() && i <= |r.events|
  {
    if i == 0 then 0
    else BytesMapped(r, i - 1) + NewBytes(r.worlds[i - 1].reg, r.worlds[i].reg)
  }

  lemma {:induction false} RegisterCounts(s: State, req: Request, page: int, env: RegisterEnv)
    ensures var s' := Register(s, req, page, env).state;
            var c, c' := s.counters, s'.counters;
            && c'.explicitRegisters == c.explicitRegisters + (if Checked(req, page, env) then 1 else 0)
            && c'.bytesTotal == c.bytesTotal + NewBytes(s, s')
  {
  }

  lemma {:induction false} ReleaseCounts(s: State, handle: int, env: ReleaseEnv)
    requires Book(s)
    ensures var s' := Release(s, handle, env).state;
            && s'.counters.explicitRegisters == s.counters.explicitRegisters
            && s'.counters.bytesTotal == s.counters.bytesTotal && |s'.mappings| <= |s.mappings|
  {
    var _ := ReleaseShape(s, handle, env);
  }

  lemma {:induction false} RunStepCounts(r: Run, i: nat)
    requires r.Valid() && i < |r.events|
    ensures var c, c' := r.worlds[i].reg.counters, r.worlds[i + 1].reg.counters;
            && c'.explicitRegisters - c.explicitRegisters == CallsMade(r, i + 1) - CallsMade(r, i)
            && c'.bytesTotal - c.bytesTotal == BytesMapped(r, i + 1) - BytesMapped(r, i)
  {
    var s, e := r.worlds[i].reg, r.events[i];
    EveryRunIsSafe(r, i);
    assert r.Follows(i);
    if e.DoRegister? {
      RegisterCounts(s, e.req, r.page, e.regEnv);
    } else if e.DoRelease? {
      ReleaseCounts(s, e.handle, e.relEnv);
    }
  }

  // The call counter counts the registrations that passed the checks, and the byte
  // total all that ACL ever registered for a mapping.
  lemma {:induction false} StatisticsAreTrue(r: Run, i: nat)
    requires r.Valid() && i < |r.worlds|
    ensures r.worlds[i].reg.counters.explicitRegisters == CallsMade(r, i)
    ensures r.worlds[i].reg.counters.bytesTotal == BytesMapped(r, i)
  {
    if i == 0 {
    } else {
      StatisticsAreTrue(r, i - 1);
      RunStepCounts(r, i - 1);
    }
  }

  // --------------------------------------------------- handles of two processes

  lemma {:induction false} FirstHandlesApart(a: nat, b: nat)
    requires a < b < 0x8000_0000
    ensures 0 < InitialHandle(a) && InitialHandle(a) + 0x1_0000_0000 <= InitialHandle(b)
  {
    assert a % 0x8000_0000 == a && b % 0x8000_0000 == b;
  }

  ghost predicate HandlesFrom(s: State, first: int) {
    first <= s.nextHandle && forall h :: h in s.leases ==> first <= h < s.nextHandle
  }

  lemma {:induction false} StepHandlesFrom(page: int, w: World, e: Event, first: int)
    requires HandlesFrom(w.reg, first)
    ensures HandlesFrom(Step(page, w, e).reg, first)
  {
    if e.DoRegister? {
      RegisterHandlesFrom(w.reg, e.req, page, e.regEnv, first);
    }
  }

  lemma {:induction false} RegisterHandlesFrom(s: State, req: Request, page: int, env: RegisterEnv, first: int)
    requires HandlesFrom(s, first)
    ensures HandlesFrom(Register(s, req, page, env).state, first)
  {
  }

  lemma {:induction false} RunHandlesFrom(r: Run, i: nat)
    requires r.Valid() && i < |r.worlds|
    ensures HandlesFrom(r.worlds[i].reg, InitialHandle(r.pid))
  {
    if i == 0 {
    } else {
      RunHandlesFrom(r, i - 1);
      StepHandlesFrom(r.page, r.worlds[i - 1], r.events[i - 1], InitialHandle(r.pid));
      assert r.Follows(i - 1);
    }
  }

  // Two processes never hold the same handle until one has issued 2^32 of them.
  lemma {:induction false} ProcessesShareNoHandle(p: Run, i: nat, q: Run, j: nat, h: int)
    requires p.Valid() && i < |p.worlds| && q.Valid() && j < |q.worlds| && p.pid < q.pid < 0x8000_0000
    requires p.worlds[i].reg.nextHandle - InitialHandle(p.pid) <= 0x1_0000_0000
    ensures !(h in p.worlds[i].reg.leases && h in q.worlds[j].reg.leases)
  {
    RunHandlesFrom(p, i);
    RunHandlesFrom(q, j);
    FirstHandlesApart(p.pid, q.pid);
  }
}
