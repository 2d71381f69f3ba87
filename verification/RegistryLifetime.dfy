// How long the memory behind a gather stays leased.
module RegistryLifetime {
  import opened Collections
  import opened HostRange
  import opened Registry
  import opened RegistryBook
  import opened RegistryGeometry
  import opened RegistryRuns
  import opened RegistryTheorems

  ghost predicate Covers(l: Lease, bytes: Range, device: int) {
    l.device == device && Within(bytes, Range(l.addr, l.bytes))
  }

  // Some live lease on the reader's device keeps the bytes it reads allocated.
  ghost predicate Retained(leases: map<int, Lease>, r: Reader) {
    exists h :: h in leases && Covers(leases[h], r.AsRange(), r.device)
  }

  ghost predicate AllRetained(leases: map<int, Lease>, readers: map<nat, Reader>) {
    forall t :: t in readers ==> Retained(leases, readers[t])
  }

  ghost predicate CoveredByAnother(leases: map<int, Lease>, handle: int)
    requires handle in leases
  {
    var l := leases[handle];
    exists g :: g in leases && g != handle && Covers(leases[g], Range(l.addr, l.bytes), l.device)
  }

  // The handle is the only one on its mapping.
  ghost predicate LastLease(leases: map<int, Lease>, handle: int)
    requires handle in leases
  {
    forall g :: g in leases && g != handle ==> leases[g].mappingId != leases[handle].mappingId
  }

  lemma {:induction false} RefsTellLast(s: State, h: int, k: nat)
    requires Book(s) && h in s.leases && k < |s.mappings| && s.mappings[k].id == s.leases[h].mappingId
    requires s.mappings[k].refs > 0
    ensures s.mappings[k].refs == 1 <==> LastLease(s.leases, h)
  {
    if s.mappings[k].refs == 1 {
      SoleHolder(s, h, k);
    } else if LastLease(s.leases, h) {
      SameSet(Holders(s.leases, s.mappings[k].id), {h});
    }
  }

  // A successful release fences exactly when it takes the last lease on a mapping.
  lemma {:induction false} FencedIffLast(s: State, handle: int, env: ReleaseEnv)
    requires Book(s) && Release(s, handle, env).outcome == Returned(true)
    ensures handle in s.leases
    ensures Release(s, handle, env).fenced <==> LastLease(s.leases, handle)
  {
    var k := BackingIndex(s, handle);
    ReleaseEffect(s, handle, env, k);
    RefsTellLast(s, handle, k);
  }

  lemma {:induction false} StillRetained(s: State, handle: int, env: ReleaseEnv, readers: map<nat, Reader>)
    requires Book(s) && Release(s, handle, env).outcome == Returned(true) && handle in s.leases
    requires Release(s, handle, env).fenced || CoveredByAnother(s.leases, handle)
    requires AllRetained(s.leases, readers)
    ensures var r := Release(s, handle, env);
            AllRetained(r.state.leases, if r.fenced then Drain(readers, env.device) else readers)
  {
    var r := Release(s, handle, env);
    var k := BackingIndex(s, handle);
    assert r.state.leases == s.leases - {handle} && s.leases[handle].device == env.device;
    var left := if r.fenced then Drain(readers, env.device) else readers;
    forall t | t in left ensures Retained(r.state.leases, left[t]) {
      OneStillRetained(s.leases, handle, left[t]);
    }
  }

  lemma {:induction false} OneStillRetained(leases: map<int, Lease>, handle: int, r: Reader)
    requires handle in leases && Retained(leases, r)
    requires r.device != leases[handle].device || CoveredByAnother(leases, handle)
    ensures Retained(leases - {handle}, r)
  {
    var l := leases[handle];
    var h :| h in leases && Covers(leases[h], r.AsRange(), r.device);
    if h == handle {
      var g :| g in leases && g != handle && Covers(leases[g], Range(l.addr, l.bytes), l.device);
      assert g in leases - {handle};
    } else {
      assert h in leases - {handle};
    }
  }

  // ------------------------------------------------------------------ whole runs

  // Some live lease of the device covers the request.
  ghost predicate Leased(leases: map<int, Lease>, req: Request, device: int) {
    exists h :: h in leases && Covers(leases[h], req.AsRange(), device)
  }

  // What a caller has to observe: gathers read leased ranges only, and a lease is
  // released only with its mapping or under the cover of another lease.
  ghost predicate Careful(w: World, e: Event) {
    match e
    case DoGather(req, device) => Leased(w.reg.leases, req, device)
    case DoRelease(handle, env) =>
      Release(w.reg, handle, env).outcome == Returned(true) && handle in w.reg.leases ==>
        LastLease(w.reg.leases, handle) || CoveredByAnother(w.reg.leases, handle)
    case _ => true
  }

  lemma {:induction false} RegisterKeepsLeases(s: State, req: Request, page: int, env: RegisterEnv)
    requires Book(s)
    ensures var s' := Register(s, req, page, env).state;
            forall h :: h in s.leases ==> h in s'.leases && s'.leases[h] == s.leases[h]
  {
  }

  lemma {:induction false} MoreLeasesRetain(leases: map<int, Lease>, leases': map<int, Lease>,
                                            readers: map<nat, Reader>)
    requires forall h :: h in leases ==> h in leases' && leases'[h] == leases[h]
    requires AllRetained(leases, readers)
    ensures AllRetained(leases', readers)
  {
    forall t | t in readers ensures Retained(leases', readers[t]) {
      var r := readers[t];
      assert Retained(leases, r);
      var h :| h in leases && Covers(leases[h], r.AsRange(), r.device);
      assert h in leases';
    }
  }

  lemma {:induction false} GatherRetained(page: int, w: World, req: Request, device: int)
    requires AllRetained(w.reg.leases, w.readers) && Leased(w.reg.leases, req, device)
    ensures AllRetained(w.reg.leases, Step(page, w, DoGather(req, device)).readers)
  {
    var w' := Step(page, w, DoGather(req, device));
    forall t | t in w'.readers ensures Retained(w.reg.leases, w'.readers[t]) {
      if t in w.readers && w.readers[t] == w'.readers[t] {
        assert Retained(w.reg.leases, w.readers[t]);
      } else {
        assert w'.readers[t].AsRange() == req.AsRange() && w'.readers[t].device == device;
      }
    }
  }

  lemma {:induction false} StepRetained(page: int, w: World, e: Event)
    requires Book(w.reg) && AllRetained(w.reg.leases, w.readers) && Careful(w, e)
    ensures var w' := Step(page, w, e); AllRetained(w'.reg.leases, w'.readers)
  {
    match e
    case DoRegister(req, env) =>
      RegisterKeepsLeases(w.reg, req, page, env);
      MoreLeasesRetain(w.reg.leases, Step(page, w, e).reg.leases, w.readers);
    case DoRelease(handle, env) =>
      if Release(w.reg, handle, env).outcome == Returned(true) {
        FencedIffLast(w.reg, handle, env);
        StillRetained(w.reg, handle, env, w.readers);
      } else {
        ReleaseWithoutEffect(w.reg, handle, env);
      }
    case DoGather(req, device) => GatherRetained(page, w, req, device);
    case DoFinish(_) =>
  }

  // Whichever leased range was gathered just before it, the release leaves every
  // read in flight on leased memory.
  ghost predicate KeepsLeasedReads(page: int, w: World, handle: int, env: ReleaseEnv) {
    forall req, device :: Leased(w.reg.leases, req, device) ==>
      var w' := Step(page, Step(page, w, DoGather(req, device)), DoRelease(handle, env));
      AllRetained(w'.reg.leases, w'.readers)
  }

  lemma {:induction false} CarefulReleaseKeeps(page: int, w: World, handle: int, env: ReleaseEnv)
    requires Book(w.reg) && AllRetained(w.reg.leases, w.readers) && Careful(w, DoRelease(handle, env))
    ensures KeepsLeasedReads(page, w, handle, env)
  {
    forall req, device | Leased(w.reg.leases, req, device)
      ensures var w' := Step(page, Step(page, w, DoGather(req, device)), DoRelease(handle, env));
              AllRetained(w'.reg.leases, w'.readers)
    {
      GatherRetained(page, w, req, device);
      StepRetained(page, Step(page, w, DoGather(req, device)), DoRelease(handle, env));
    }
  }

  // A gather of the released range itself is left without a lease.
  lemma {:induction false} ReaderIsStranded(page: int, w: World, handle: int, env: ReleaseEnv)
    requires Book(w.reg) && Release(w.reg, handle, env).outcome == Returned(true) && handle in w.reg.leases
    requires !Release(w.reg, handle, env).fenced && !CoveredByAnother(w.reg.leases, handle)
    requires var l := w.reg.leases[handle]; Resolve(w.reg, Request(l.addr, l.bytes), page, l.device).Returned?
    ensures !KeepsLeasedReads(page, w, handle, env)
  {
    var l := w.reg.leases[handle];
    var req := Request(l.addr, l.bytes);
    assert Covers(l, req.AsRange(), l.device);
    assert Leased(w.reg.leases, req, l.device);
    var w1 := Step(page, w, DoGather(req, l.device));
    var w2 := Step(page, w1, DoRelease(handle, env));
    var k := BackingIndex(w.reg, handle);
    ReleaseEffect(w.reg, handle, env, k);
    var reader := w2.readers[|w.trace|];
    assert !Retained(w2.reg.leases, reader);
  }

  // Dropping a lease also drops its hold on the tensor, but the fence runs only
  // with the last lease of a mapping.  So a successful release keeps every read in
  // flight on leased memory exactly when it takes the last lease on its mapping, or
  // when another live lease covers the released range.  (A lease on a mapping whose
  // end wraps resolves to nothing, so no gather can be caught on it.)
  lemma {:induction false} ReleaseRetentionIff(r: Run, i: nat, handle: int, env: ReleaseEnv)
    requires r.Valid() && i < |r.worlds| && AllRetained(r.worlds[i].reg.leases, r.worlds[i].readers)
    requires Release(r.worlds[i].reg, handle, env).outcome == Returned(true)
    ensures handle in r.worlds[i].reg.leases
    ensures var w := r.worlds[i];
            var safe := LastLease(w.reg.leases, handle) || CoveredByAnother(w.reg.leases, handle);
            && (safe ==> KeepsLeasedReads(r.page, w, handle, env))
            && (!OnWrapped(w.reg, handle) && KeepsLeasedReads(r.page, w, handle, env) ==> safe)
  {
    var w := r.worlds[i];
    EveryRunIsSafe(r, i);
    FencedIffLast(w.reg, handle, env);
    if LastLease(w.reg.leases, handle) || CoveredByAnother(w.reg.leases, handle) {
      CarefulReleaseKeeps(r.page, w, handle, env);
    } else if !OnWrapped(w.reg, handle) {
      EveryLeaseResolves(r, i, handle);
      ReaderIsStranded(r.page, w, handle, env);
    }
  }

  // In every run of careful callers, every gather in flight reads memory that some
  // live lease keeps allocated.
  lemma {:induction false} EveryReadStaysLeased(r: Run, i: nat)
    requires r.Valid() && i < |r.worlds|
    requires forall k :: 0 <= k < i ==> Careful(r.worlds[k], r.events[k])
    ensures AllRetained(r.worlds[i].reg.leases, r.worlds[i].readers)
  {
    if i == 0 {
    } else {
      EveryReadStaysLeased(r, i - 1);
      EveryRunIsSafe(r, i - 1);
      assert r.worlds[i] == Step(r.page, r.worlds[i - 1], r.events[i - 1]) by { assert r.Follows(i - 1); }
      StepRetained(r.page, r.worlds[i - 1], r.events[i - 1]);
    }
  }
}
