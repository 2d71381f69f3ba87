// Where the registry's guarantees end: a gather whose submission is delayed past
// its lookup, and short runs that show each boundary is real.
module RegistryLimits {
  import opened HostRange
  import opened Registry
  import opened RegistryBook
  import opened RegistryRuns
  import opened RegistryTheorems

  // While handles last, every mapping is held by some lease.
  ghost predicate NoOrphans(s: State) {
    forall k :: 0 <= k < |s.mappings| ==> s.mappings[k].refs > 0
  }

  lemma {:induction false} EveryMappingIsHeld(r: Run, i: nat)
    requires r.Valid() && i < |r.worlds| && HandleAvailable(r.worlds[i].reg)
    ensures NoOrphans(r.worlds[i].reg)
  {
    if i == 0 {
    } else {
      HandlesLasted(r, i - 1);
      EveryMappingIsHeld(r, i - 1);
      RunStepHeld(r, i - 1);
    }
  }

  lemma {:induction false} HandlesLasted(r: Run, i: nat)
    requires r.Valid() && i < |r.events| && HandleAvailable(r.worlds[i + 1].reg)
    ensures HandleAvailable(r.worlds[i].reg)
  {
    HandlesStayPositive(r, i);
    IdsOnlyGrow(r.page, r.worlds[i], r.events[i]);
    assert r.Follows(i);
  }

  lemma {:induction false} StepKeepsHeld(page: int, w: World, e: Event)
    requires Book(w.reg) && NoOrphans(w.reg) && HandleAvailable(w.reg)
    ensures NoOrphans(Step(page, w, e).reg)
  {
    if e.DoRegister? {
      RegisterKeepsHeld(w.reg, e.req, page, e.regEnv);
    } else if e.DoRelease? {
      ReleaseKeepsHeld(w.reg, e.handle, e.relEnv);
    }
  }

  lemma {:induction false} RunStepHeld(r: Run, i: nat)
    requires r.Valid() && i < |r.events| && NoOrphans(r.worlds[i].reg) && HandleAvailable(r.worlds[i].reg)
    ensures NoOrphans(r.worlds[i + 1].reg)
  {
    EveryRunIsSafe(r, i);
    StepKeepsHeld(r.page, r.worlds[i], r.events[i]);
    assert r.Follows(i);
  }

  lemma {:induction false} HandlesStayPositive(r: Run, i: nat)
    requires r.Valid() && i < |r.worlds|
    ensures r.worlds[i].reg.nextHandle > 0
  {
    if i == 0 {
    } else {
      HandlesStayPositive(r, i - 1);
      assert r.worlds[i] == Step(r.page, r.worlds[i - 1], r.events[i - 1]) by { assert r.Follows(i - 1); }
      IdsOnlyGrow(r.page, r.worlds[i - 1], r.events[i - 1]);
    }
  }

  lemma {:induction false} RegisterKeepsHeld(s: State, req: Request, page: int, env: RegisterEnv)
    requires NoOrphans(s) && HandleAvailable(s)
    ensures NoOrphans(Register(s, req, page, env).state)
  {
  }

  lemma {:induction false} ReleaseKeepsHeld(s: State, handle: int, env: ReleaseEnv)
    requires Book(s) && NoOrphans(s)
    ensures NoOrphans(Release(s, handle, env).state)
  {
    var i := ReleaseShape(s, handle, env);
  }

  // Ids only grow, and a mapping found in `later` under an id that was already
  // given out is the mapping that has it in `s`.
  ghost predicate Inherits(s: State, later: State) {
    && s.nextId <= later.nextId
    && forall k :: 0 <= k < |later.mappings| && later.mappings[k].id < s.nextId ==>
         exists j :: 0 <= j < |s.mappings| && SameMapping(s.mappings[j], later.mappings[k])
  }

  lemma {:induction false} InheritsTransitive(s: State, t: State, u: State)
    requires Inherits(s, t) && Inherits(t, u)
    ensures Inherits(s, u)
  {
    forall k | 0 <= k < |u.mappings| && u.mappings[k].id < s.nextId
      ensures exists j :: 0 <= j < |s.mappings| && SameMapping(s.mappings[j], u.mappings[k])
    {
      var i :| 0 <= i < |t.mappings| && SameMapping(t.mappings[i], u.mappings[k]);
      var j :| 0 <= j < |s.mappings| && SameMapping(s.mappings[j], t.mappings[i]);
    }
  }

  lemma {:induction false} OneStepInherits(page: int, w: World, e: Event)
    requires Book(w.reg)
    ensures Inherits(w.reg, Step(page, w, e).reg)
  {
    var s' := Step(page, w, e).reg;
    IdsOnlyGrow(page, w, e);
    forall k | 0 <= k < |s'.mappings| && s'.mappings[k].id < w.reg.nextId
      ensures exists j :: 0 <= j < |w.reg.mappings| && SameMapping(w.reg.mappings[j], s'.mappings[k])
    {
      var j := StepKeepsIds(page, w, e, k);
    }
  }

  lemma {:induction false} StepInherits(page: int, s: State, w: World, e: Event)
    requires Book(w.reg) && Inherits(s, w.reg)
    ensures Inherits(s, Step(page, w, e).reg)
  {
    OneStepInherits(page, w, e);
    InheritsTransitive(s, w.reg, Step(page, w, e).reg);
  }

  lemma {:induction false} IdsKeepTheirMapping(r: Run, i: nat, j: nat)
    requires r.Valid() && i <= j < |r.worlds|
    ensures Inherits(r.worlds[i].reg, r.worlds[j].reg)
  {
    if i == j {
      InheritsReflexive(r.worlds[i].reg);
    } else {
      IdsKeepTheirMapping(r, i, j - 1);
      EveryRunIsSafe(r, j - 1);
      var w, w' := r.worlds[j - 1], r.worlds[j];
      assert w' == Step(r.page, w, r.events[j - 1]) by { assert r.Follows(j - 1); }
      StepInherits(r.page, r.worlds[i].reg, w, r.events[j - 1]);
    }
  }

  lemma {:induction false} InheritsReflexive(s: State)
    ensures Inherits(s, s)
  {
  }

  lemma {:induction false} StepKeepsIds(page: int, w: World, e: Event, k: nat) returns (j: nat)
    requires Book(w.reg)
    requires k < |Step(page, w, e).reg.mappings| && Step(page, w, e).reg.mappings[k].id < w.reg.nextId
    ensures j < |w.reg.mappings| && SameMapping(w.reg.mappings[j], Step(page, w, e).reg.mappings[k])
  {
    j := k;
    if e.DoRegister? {
      RegisterKeepsMappings(w.reg, e.req, page, e.regEnv);
    } else if e.DoRelease? {
      j := ReleaseOrigin(w.reg, e.handle, e.relEnv, k);
    }
  }

  // The lookup of a gather holds the registry lock, its submission does not.  A
  // gather resolved in state i and submitted in a later state j reads a mapping
  // that still exists exactly when some lease on that mapping is still live.
  lemma {:induction false} DelayedSubmissionIff(r: Run, i: nat, j: nat, req: Request, device: int)
    requires r.Valid() && i <= j < |r.worlds|
    requires Resolve(r.worlds[i].reg, req, r.page, device).Returned?
    requires HandleAvailable(r.worlds[j].reg)
    ensures var s, s' := r.worlds[i].reg, r.worlds[j].reg;
            var a := Resolve(s, req, r.page, device).value;
            var id := s.mappings[a.index].id;
            Live(s', Reader(id, device, req.addr, req.bytes, a.deviceAddr))
            <==> exists h :: h in s'.leases && s'.leases[h].mappingId == id
  {
    var s, s' := r.worlds[i].reg, r.worlds[j].reg;
    var a := Resolve(s, req, r.page, device).value;
    var reader := Reader(s.mappings[a.index].id, device, req.addr, req.bytes, a.deviceAddr);
    EveryRunIsSafe(r, i);
    EveryRunIsSafe(r, j);
    EveryMappingIsHeld(r, j);
    if Live(s', reader) {
      LiveIsHeld(s', reader);
    }
    if h :| h in s'.leases && s'.leases[h].mappingId == reader.mappingId {
      IdsKeepTheirMapping(r, i, j);
      HeldIsLive(s, s', req, r.page, device, h);
    }
  }

  lemma {:induction false} LiveIsHeld(s: State, r: Reader)
    requires Book(s) && NoOrphans(s) && Live(s, r)
    ensures exists h :: h in s.leases && s.leases[h].mappingId == r.mappingId
  {
    var k :| 0 <= k < |s.mappings| && Reads(s.mappings[k], r);
    NoHolders(s.leases, r.mappingId);
  }

  lemma {:induction false} NoHolders(leases: map<int, Lease>, id: nat)
    ensures (forall h :: h in leases ==> leases[h].mappingId != id) ==> |Holders(leases, id)| == 0
  {
    if forall h :: h in leases ==> leases[h].mappingId != id {
      assert Holders(leases, id) == {};
    }
  }

  lemma {:induction false} HeldIsLive(s: State, s': State, req: Request, page: int, device: int, h: int)
    requires Book(s) && Book(s') && Inherits(s, s')
    requires Resolve(s, req, page, device).Returned?
    requires h in s'.leases
    requires s'.leases[h].mappingId == s.mappings[Resolve(s, req, page, device).value.index].id
    ensures var a := Resolve(s, req, page, device).value;
            Live(s', Reader(s.mappings[a.index].id, device, req.addr, req.bytes, a.deviceAddr))
  {
    var a := Resolve(s, req, page, device).value;
    var m := s.mappings[a.index];
    var k := BackingIndex(s', h);
    var k0 :| 0 <= k0 < |s.mappings| && SameMapping(s.mappings[k0], s'.mappings[k]);
    FindByIdUnique(s, k0);
    FindByIdUnique(s, a.index);
    ContainsIsWithin(m, req);
    assert Reads(s'.mappings[k], Reader(m.id, device, req.addr, req.bytes, a.deviceAddr));
  }
}
