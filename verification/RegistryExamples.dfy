// Concrete inputs at which a promise ends.
module RegistryExamples {
  import opened Options
  import opened HostRange
  import opened Registry
  import opened RegistryGeometry
  import opened RegistryRuns
  import opened RegistryTheorems
  import opened RegistryLifetime
  import opened RegistryObject

  // The setting of the examples: 4096-byte pages, device 0, process id 1.
  ghost predicate Setting(page: int, own: RegisterEnv, aliased: RegisterEnv, ok: ReleaseEnv, h: int) {
    && page == 4096
    && own == RegisterEnv(0, false, 0, Some(0x9000))
    && aliased == RegisterEnv(0, true, 0x5000, None)
    && ok == ReleaseEnv(0, true, true)
    && h == InitialHandle(1)
  }

  // A range within the page at 0x1000 expands to that page.
  lemma {:induction false} PageOf(page: int, req: Request)
    requires page == 4096 && 0x1000 <= req.addr && 0 < req.bytes && req.addr + req.bytes <= 0x2000
    ensures GetHostRange(req, page).Returned? && GetHostRange(req, page).value.Pages() == Range(0x1000, 4096)
  {
    assert req.addr % 4096 < 4096;
    var pages := GetHostRange(req, page).value.Pages();
    assert pages.base % 4096 == 0 && pages.End() % 4096 == 0;
  }

  // The first registration of a range within one page, with that page's mapping.
  lemma {:induction false} FirstOwned(page: int, own: RegisterEnv, aliased: RegisterEnv, ok: ReleaseEnv, h: int,
                                      req: Request)
    returns (w: World)
    requires Setting(page, own, aliased, ok, h)
    requires 0x1000 <= req.addr && 0 < req.bytes && req.addr + req.bytes <= 0x2000
    ensures w == Step(page, Start(1), DoRegister(req, own))
    ensures w.reg.mappings == [Mapping(1, 0x1000, 4096, 0x9000, 0, true, 1)]
    ensures w.reg.leases ==
            map[h := Lease(h, 1, req.addr, req.bytes, 0x1000, 4096, 0x9000 + req.addr - 0x1000, true, false, true, 0)]
    ensures w.reg.nextHandle == h + 1 && w.readers == map[]
  {
    PageOf(page, req);
    assert PlanFor(Init(1), req, own) == Own(0x9000);
    w := Step(page, Start(1), DoRegister(req, own));
  }

  // A release that slips between the lookup and the submission of a gather
  // leaves the gather with the address of a mapping that is gone.
  lemma {:induction false} DelayedSubmissionCanDangle(page: int, own: RegisterEnv, aliased: RegisterEnv, ok: ReleaseEnv,
                                                      h: int, req: Request)
    requires Setting(page, own, aliased, ok, h) && req == Request(0x1000, 64)
    ensures var w := Step(page, Start(1), DoRegister(req, own));
            var r := Resolve(w.reg, req, page, 0);
            && r.Returned?
            && !Live(Step(page, w, DoRelease(h, ok)).reg,
                     Reader(w.reg.mappings[r.value.index].id, 0, req.addr, req.bytes, r.value.deviceAddr))
  {
    var w := FirstOwned(page, own, aliased, ok, h, req);
    FirstResolves(page, w.reg, req);
    OnlyMappingDropped(w.reg, h, ok);
  }

  lemma {:induction false} FirstResolves(page: int, s: State, req: Request)
    requires page == 4096 && req == Request(0x1000, 64)
    requires |s.mappings| == 1 && s.mappings[0].Bytes() == Range(0x1000, 4096) && s.mappings[0].device == 0
    ensures Resolve(s, req, page, 0) == Returned(Resolved(0, s.mappings[0].deviceBase))
  {
    assert s.mappings[0].Contains(req.addr, req.bytes);
  }

  lemma {:induction false} OnlyMappingDropped(s: State, h: int, ok: ReleaseEnv)
    requires ok == ReleaseEnv(0, true, true)
    requires |s.mappings| == 1 && s.mappings[0].device == 0 && s.mappings[0].refs == 1
    requires h in s.leases && s.leases[h].active && s.leases[h].mappingId == s.mappings[0].id
    ensures Release(s, h, ok).state.mappings == []
  {
    assert RemoveById(s.mappings, s.mappings[0].id) == [];
  }

  // Two tensors in one page share a mapping.  Releasing the lease of the first
  // runs no fence, although a gather still reads it, and no lease keeps its
  // memory any more.
  lemma {:induction false} UnfencedReleaseCanStrand(page: int, own: RegisterEnv, aliased: RegisterEnv, ok: ReleaseEnv,
                                                    h: int, first: Request, second: Request)
    requires Setting(page, own, aliased, ok, h) && first == Request(0x1000, 64) && second == Request(0x1100, 64)
    ensures var w := Step(page, Step(page, Start(1), DoRegister(first, own)), DoRegister(second, own));
            var w1 := Step(page, w, DoGather(first, 0));
            var w2 := Step(page, w1, DoRelease(h, ok));
            && AllRetained(w1.reg.leases, w1.readers) && |w1.readers| == 1
            && Release(w1.reg, h, ok).outcome == Returned(true)
            && !AllRetained(w2.reg.leases, w2.readers)
  {
    var w0 := FirstOwned(page, own, aliased, ok, h, first);
    var w := Step(page, w0, DoRegister(second, own));
    SecondShares(page, own, aliased, ok, h, first, second, w0.reg);
    FirstResolves(page, w.reg, first);
    ReleaseStrands(page, own, aliased, ok, h, first, second, w);
  }

  lemma {:induction false} ReleaseStrands(page: int, own: RegisterEnv, aliased: RegisterEnv, ok: ReleaseEnv, h: int,
                                          first: Request, second: Request, w: World)
    requires Setting(page, own, aliased, ok, h) && first == Request(0x1000, 64) && second == Request(0x1100, 64)
    requires w.reg.mappings == [Mapping(1, 0x1000, 4096, 0x9000, 0, true, 2)] && w.readers == map[]
    requires w.reg.leases.Keys == {h, h + 1}
    requires w.reg.leases[h] == Lease(h, 1, 0x1000, 64, 0x1000, 4096, 0x9000, true, false, true, 0)
    requires w.reg.leases[h + 1] == Lease(h + 1, 1, 0x1100, 64, 0x1000, 4096, 0x9100, true, false, true, 0)
    requires Resolve(w.reg, first, page, 0) == Returned(Resolved(0, 0x9000))
    ensures var w1 := Step(page, w, DoGather(first, 0));
            var w2 := Step(page, w1, DoRelease(h, ok));
            && AllRetained(w1.reg.leases, w1.readers) && |w1.readers| == 1
            && Release(w1.reg, h, ok).outcome == Returned(true)
            && !AllRetained(w2.reg.leases, w2.readers)
  {
    var t := |w.trace|;
    var w1 := Step(page, w, DoGather(first, 0));
    assert w1.readers == map[t := Reader(1, 0, first.addr, first.bytes, 0x9000)];
    assert h in w1.reg.leases && Retained(w1.reg.leases, w1.readers[t]);
    SharedMappingKept(w1.reg, h, ok);
    assert !Retained(w1.reg.leases - {h}, w1.readers[t]);
  }

  lemma {:induction false} SharedMappingKept(s: State, h: int, ok: ReleaseEnv)
    requires ok == ReleaseEnv(0, true, true)
    requires |s.mappings| == 1 && s.mappings[0].device == 0 && s.mappings[0].refs == 2
    requires h in s.leases && s.leases[h].active && s.leases[h].mappingId == s.mappings[0].id
    ensures var r := Release(s, h, ok);
            r.outcome == Returned(true) && !r.fenced && r.state.leases == s.leases - {h}
  {
  }

  lemma {:induction false} SecondShares(page: int, own: RegisterEnv, aliased: RegisterEnv, ok: ReleaseEnv, h: int,
                                        first: Request, second: Request, s: State)
    requires Setting(page, own, aliased, ok, h) && first == Request(0x1000, 64) && second == Request(0x1100, 64)
    requires s.mappings == [Mapping(1, 0x1000, 4096, 0x9000, 0, true, 1)]
    requires s.leases.Keys == {h} && s.nextHandle == h + 1
    ensures var s' := Register(s, second, page, own).state;
            && s'.mappings == [Mapping(1, 0x1000, 4096, 0x9000, 0, true, 2)]
            && s'.leases.Keys == {h, h + 1} && s'.leases[h] == s.leases[h]
            && s'.leases[h + 1] == Lease(h + 1, 1, 0x1100, 64, 0x1000, 4096, 0x9100, true, false, true, 0)
  {
    assert s.mappings[0].Contains(second.addr, second.bytes);
    assert PlanFor(s, second, own) == Reuse(0);
  }

  // A borrowed mapping inside the padding of a later owned one captures part of
  // a lease on the owned one: the lease resolves to mapping 1, the part to mapping 0.
  lemma {:induction false} PaddingCanCaptureSubrange(page: int, own: RegisterEnv, aliased: RegisterEnv, ok: ReleaseEnv,
                                                     h: int, inner: Request, outer: Request, both: Request)
    requires Setting(page, own, aliased, ok, h)
    requires inner == Request(0x1100, 0x100) && outer == Request(0x1800, 0x100) && both == Request(0x1080, 0x800)
    ensures var w := Step(page, Start(1), DoRegister(inner, aliased));
            var s := Step(page, Step(page, w, DoRegister(outer, own)), DoRegister(both, own)).reg;
            && h + 2 in s.leases && s.leases[h + 2].mappingId == 2
            && Lookup(s.mappings, both.addr, both.bytes, 0) == Returned(1)
            && Lookup(s.mappings, inner.addr, inner.bytes, 0) == Returned(0)
  {
    var w := FirstBorrowed(page, own, aliased, ok, h, inner);
    var w1 := Step(page, w, DoRegister(outer, own));
    OwnedAround(page, own, aliased, ok, h, inner, outer, w.reg);
    SharedBoth(page, own, aliased, ok, h, inner, both, w1.reg);
  }

  lemma {:induction false} SharedBoth(page: int, own: RegisterEnv, aliased: RegisterEnv, ok: ReleaseEnv, h: int,
                                      inner: Request, both: Request, s: State)
    requires Setting(page, own, aliased, ok, h)
    requires inner == Request(0x1100, 0x100) && both == Request(0x1080, 0x800)
    requires s.mappings == [Mapping(1, inner.addr, inner.bytes, 0x5000, 0, false, 1),
                            Mapping(2, 0x1000, 4096, 0x9000, 0, true, 1)]
    requires s.leases.Keys == {h, h + 1} && s.nextHandle == h + 2
    ensures var s' := Register(s, both, page, own).state;
            && h + 2 in s'.leases && s'.leases[h + 2].mappingId == 2
            && Lookup(s'.mappings, both.addr, both.bytes, 0) == Returned(1)
            && Lookup(s'.mappings, inner.addr, inner.bytes, 0) == Returned(0)
  {
    assert !s.mappings[0].Contains(both.addr, both.bytes) && s.mappings[1].Contains(both.addr, both.bytes);
    assert PlanFor(s, both, own) == Reuse(1);
    var ms := Register(s, both, page, own).state.mappings;
    assert ms == [s.mappings[0], s.mappings[1].(refs := 2)];
    assert !ms[0].Contains(both.addr, both.bytes) && ms[1].Contains(both.addr, both.bytes);
    assert ms[0].Contains(inner.addr, inner.bytes);
    FirstAtMost(ms, both.addr, both.bytes, 1);
    FirstAtMost(ms, inner.addr, inner.bytes, 0);
  }

  lemma {:induction false} FirstBorrowed(page: int, own: RegisterEnv, aliased: RegisterEnv, ok: ReleaseEnv, h: int,
                                         req: Request)
    returns (w: World)
    requires Setting(page, own, aliased, ok, h)
    requires 0x1000 <= req.addr && 0 < req.bytes && req.addr + req.bytes <= 0x2000
    ensures w == Step(page, Start(1), DoRegister(req, aliased))
    ensures w.reg.mappings == [Mapping(1, req.addr, req.bytes, 0x5000, 0, false, 1)]
    ensures w.reg.leases.Keys == {h} && w.reg.nextHandle == h + 1 && w.reg.nextId == 2
    ensures w.reg.counters.bytesCurrent == w.reg.counters.bytesPeak == 0
  {
    w := Step(page, Start(1), DoRegister(req, aliased));
    assert PlanFor(Init(1), req, aliased) == Borrow(0x5000);
  }

  lemma {:induction false} OwnedAround(page: int, own: RegisterEnv, aliased: RegisterEnv, ok: ReleaseEnv, h: int,
                                       inner: Request, outer: Request, s: State)
    requires Setting(page, own, aliased, ok, h)
    requires inner == Request(0x1100, 0x100) && outer == Request(0x1800, 0x100)
    requires s.mappings == [Mapping(1, inner.addr, inner.bytes, 0x5000, 0, false, 1)]
    requires s.leases.Keys == {h} && s.nextHandle == h + 1 && s.nextId == 2
    ensures var s' := Register(s, outer, page, own).state;
            && s'.mappings == [s.mappings[0], Mapping(2, 0x1000, 4096, 0x9000, 0, true, 1)]
            && s'.leases.Keys == {h, h + 1} && s'.nextHandle == h + 2
  {
    PageOf(page, outer);
    assert PlanFor(s, outer, own) == Own(0x9000);
  }

  // A gather resolves on page padding that no lease covers.
  lemma {:induction false} UnleasedGatherResolves(page: int, own: RegisterEnv, aliased: RegisterEnv, ok: ReleaseEnv,
                                                  h: int, req: Request, other: Request)
    requires Setting(page, own, aliased, ok, h) && req == Request(0x1000, 64) && other == Request(0x1100, 64)
    ensures var w := Step(page, Start(1), DoRegister(req, own));
            Resolve(w.reg, other, page, 0).Returned? && !Leased(w.reg.leases, other, 0)
  {
    var w := FirstOwned(page, own, aliased, ok, h, req);
    PageOf(page, other);
    PaddingResolves(page, w.reg, h, req, other);
  }

  lemma {:induction false} PaddingResolves(page: int, s: State, h: int, req: Request, other: Request)
    requires GetHostRange(other, page).Returned? && req == Request(0x1000, 64) && other == Request(0x1100, 64)
    requires s.mappings == [Mapping(1, 0x1000, 4096, 0x9000, 0, true, 1)]
    requires s.leases == map[h := Lease(h, 1, req.addr, req.bytes, 0x1000, 4096, 0x9000, true, false, true, 0)]
    ensures Resolve(s, other, page, 0).Returned? && !Leased(s.leases, other, 0)
  {
    OnlyMappingResolves(page, s, other);
    assert forall g :: g in s.leases ==> !Covers(s.leases[g], other.AsRange(), 0);
  }

  lemma {:induction false} OnlyMappingResolves(page: int, s: State, req: Request)
    requires GetHostRange(req, page).Returned? && |s.mappings| == 1 && s.mappings[0].device == 0
    requires s.mappings[0].Contains(req.addr, req.bytes)
    ensures Resolve(s, req, page, 0).Returned?
  {
    FirstAtMost(s.mappings, req.addr, req.bytes, 0);
  }

  // One borrowed mapping makes the reported current bytes exceed the reported peak.
  lemma {:induction false} CurrentCanExceedPeak(page: int, own: RegisterEnv, aliased: RegisterEnv, ok: ReleaseEnv,
                                                h: int, req: Request)
    requires Setting(page, own, aliased, ok, h) && req == Request(0x1000, 64)
    ensures var s := Step(page, Start(1), DoRegister(req, aliased)).reg;
            s.counters.bytesCurrent + BorrowedBytes(s.mappings) == 64 && s.counters.bytesPeak == 0
  {
    var w := FirstBorrowed(page, own, aliased, ok, h, req);
    assert w.reg.mappings[1..] == [];
    assert BorrowedBytes(w.reg.mappings) == req.bytes + BorrowedBytes([]);
  }

  // The pages of a pool in the last page of the address space end at 2^64.
  lemma {:induction false} LastPages(page: int, req: Request)
    requires page == 4096 && req == Request(U64_SPAN - 64, 32)
    ensures GetHostRange(req, page).Returned? && !Addressable(req, page)
  {
    assert req.addr % 4096 == 4032;
    var pages := GetHostRange(req, page).value.Pages();
    assert pages.End() % 4096 == 0 && pages.End() > U64_SPAN - 64;
  }

  // Such a pool registers, does not resolve, and keeps every other pool from being
  // mapped.
  lemma {:induction false} LastPageCanBlock(page: int, own: RegisterEnv, aliased: RegisterEnv, ok: ReleaseEnv, h: int,
                                            req: Request, other: Request)
    requires Setting(page, own, aliased, ok, h) && req == Request(U64_SPAN - 64, 32) && other == Request(0x1000, 64)
    ensures var s := Register(Init(1), req, page, own).state;
            && Register(Init(1), req, page, own).outcome == Returned(h)
            && Resolve(s, req, page, 0).Threw?
            && Register(s, other, page, own).outcome.Threw?
  {
    LastPages(page, req);
    assert PlanFor(Init(1), req, own) == Own(0x9000);
    LastPageIff(Init(1), req, page, own);
    var s := Register(Init(1), req, page, own).state;
    assert !s.mappings[0].Contains(other.addr, other.bytes);
    assert !PlanFor(s, other, own).Own? && !PlanFor(s, other, own).Borrow? && !PlanFor(s, other, own).Reuse?;
  }
}
