// The registry as the object the extension keeps: a vector of mappings, a table
// of leases, two id counters and the statistics, updated in place.
module RegistryObject {
  import opened Options
  import opened HostRange
  import opened Registry
  import opened RegistryBook
  import opened RegistryOutcomes

  datatype Stats = Stats(mappingCount: nat, bytesCurrent: int, bytesPeak: int, maxRegion: nat,
                         ownedCount: nat, borrowedCount: nat, activeHandles: nat, storedHandles: nat)

  ghost function BorrowedBytes(ms: seq<Mapping>): nat {
    if ms == [] then 0 else (if ms[0].owned then 0 else ms[0].size) + BorrowedBytes(ms[1..])
  }

  lemma {:induction false} OwnedBorrowNothing(ms: seq<Mapping>)
    ensures (forall k :: 0 <= k < |ms| ==> ms[k].owned) ==> BorrowedBytes(ms) == 0
  {
    if ms == [] {
    } else {
      OwnedBorrowNothing(ms[1..]);
    }
  }

  lemma {:induction false} SnocSums(ms: seq<Mapping>, m: Mapping)
    ensures OwnedCount(ms + [m]) == OwnedCount(ms) + (if m.owned then 1 else 0)
    ensures OwnedBytes(ms + [m]) == OwnedBytes(ms) + (if m.owned then m.size else 0)
    ensures BorrowedBytes(ms + [m]) == BorrowedBytes(ms) + (if m.owned then 0 else m.size)
  {
    if ms == [] {
      assert ms + [m] == [m];
    } else {
      SnocSums(ms[1..], m);
      assert (ms + [m])[1..] == ms[1..] + [m];
    }
  }

  class HostMappingRegistry {
    var mappings: seq<Mapping>
    var handles: map<int, Lease>
    var nextId: nat
    var nextHandle: int
    var counters: Counters

    ghost function View(): State
      reads this
    {
      State(mappings, handles, nextId, nextHandle, counters)
    }

    ghost predicate Valid()
      reads this
    {
      Book(View())
    }

    constructor (pid: nat)
      ensures Valid() && View() == Init(pid)
    {
      mappings, handles, nextId := [], map[], 1;
      nextHandle := InitialHandle(pid);
      counters := Counters(0, 0, 0, 0, 0, 0, 0, 0);
      new;
      InitBook(pid);
    }

    method FindMapping(addr: nat, bytes: nat, device: int) returns (r: Outcome<nat>)
      ensures r == Lookup(mappings, addr, bytes, device)
    {
      var i := 0;
      while i < |mappings|
        invariant 0 <= i <= |mappings|
        invariant FirstContaining(mappings, addr, bytes, i) == FirstContaining(mappings, addr, bytes)
      {
        if mappings[i].Contains(addr, bytes) {
          return if mappings[i].device != device then Threw(CrossDevice) else Returned(i);
        }
        i := i + 1;
      }
      return Returned(i);
    }

    method FindOverlap(addr: nat, bytes: nat) returns (r: Option<Error>)
      ensures r == OverlapError(mappings, addr, bytes)
    {
      var i := 0;
      while i < |mappings|
        invariant 0 <= i <= |mappings|
        invariant FirstClash(mappings, addr, bytes, i) == FirstClash(mappings, addr, bytes)
      {
        if mappings[i].Wrapped() {
          return Some(CachedMappingOverflow);
        }
        if mappings[i].Meets(addr, bytes) {
          return Some(PartialOverlap);
        }
        i := i + 1;
      }
      return None;
    }

    method FindMappingById(id: nat) returns (k: nat)
      ensures k == FindById(mappings, id)
    {
      k := 0;
      while k < |mappings| && mappings[k].id != id
        invariant 0 <= k <= |mappings|
        invariant FindById(mappings, id, k) == FindById(mappings, id)
      {
        k := k + 1;
      }
    }

    method EraseMapping(id: nat)
      modifies this`mappings
      ensures mappings == RemoveById(old(mappings), id)
    {
      var kept := [];
      var i := 0;
      while i < |mappings|
        invariant 0 <= i <= |mappings|
        invariant kept + RemoveById(mappings[i..], id) == RemoveById(mappings, id)
        invariant mappings == old(mappings)
      {
        assert mappings[i..][1..] == mappings[i + 1..];
        if mappings[i].id != id {
          kept := kept + [mappings[i]];
        }
        i := i + 1;
      }
      mappings := kept;
    }

    // Adds a mapping under the next id; false when the ids are used up.
    method AllocateMapping(bytes: Range, deviceBase: int, device: int, owned: bool) returns (ok: bool)
      modifies this`mappings, this`nextId, this`counters
      ensures ok == IdAvailable(old(View()))
      ensures View() == if ok then AddMapping(old(View()), bytes, deviceBase, device, owned) else old(View())
    {
      ok := 0 < nextId && nextId < U64_MAX;
      if ok {
        mappings := mappings + [Mapping(nextId, bytes.base, bytes.size, deviceBase, device, owned, 0)];
        nextId := nextId + 1;
        if owned {
          counters := counters.(registerCalls := counters.registerCalls + 1,
                                bytesTotal := counters.bytesTotal + bytes.size,
                                bytesCurrent := counters.bytesCurrent + bytes.size);
          counters := counters.(bytesPeak := Max(counters.bytesPeak, counters.bytesCurrent));
        } else {
          counters := counters.(borrowedTotal := counters.borrowedTotal + 1);
        }
      }
    }

    method IssueHandle(k: nat, req: Request, device: int) returns (outcome: Outcome<int>)
      requires k < |mappings|
      modifies this`mappings, this`handles, this`nextHandle
      ensures forall pinned ::
                RegisterResult(View(), outcome, pinned) == IssueOrThrow(old(View()), k, req, device, pinned)
      ensures outcome.Returned? ==> outcome.value == old(nextHandle)
    {
      if nextHandle <= 0 || nextHandle >= I64_MAX {
        return Threw(HandlesExhausted);
      }
      var handle := nextHandle;
      nextHandle := nextHandle + 1;
      var m := mappings[k];
      mappings := mappings[k := m.(refs := m.refs + 1)];
      if handle !in handles {
        handles := handles[handle := MakeLease(handle, m, req, device)];
      }
      return Returned(handle);
    }

    // Finds the mapping for a request, or makes one: the index of the mapping, and
    // the range ACL registered on the way.
    method PlaceMapping(req: Request, pages: Range, env: RegisterEnv)
      returns (placed: Outcome<nat>, pinned: Option<Range>)
      modifies this`mappings, this`nextId, this`counters
      ensures var s := old(View());
              match PlanFor(s, req, env)
              case Refuse(e) => placed == Threw(e) && pinned.None? && View() == s
              case Reuse(k) => placed == Returned(k) && pinned.None? && View() == s
              case Borrow(alias) =>
                && pinned.None?
                && placed == (if IdAvailable(s) then Returned(|s.mappings|) else Threw(MappingIdsExhausted))
                && View() == if IdAvailable(s) then AddMapping(s, req.AsRange(), alias, env.device, false) else s
              case Own(newBase) =>
                && pinned == Some(pages)
                && placed == (if IdAvailable(s) then Returned(|s.mappings|) else Threw(MappingIdsExhausted))
                && View() == if IdAvailable(s) then AddMapping(s, pages, newBase, env.device, true) else s
    {
      pinned := None;
      var found := FindMapping(req.addr, req.bytes, env.device);
      if found.Threw? || found.value < |mappings| {
        return found, None;
      }
      var clash := FindOverlap(req.addr, req.bytes);
      if clash.Some? {
        return Threw(clash.value), None;
      }
      var k, ok := |mappings|, false;
      if env.aliasOk && env.alias != 0 {
        ok := AllocateMapping(req.AsRange(), env.alias, env.device, false);
      } else if env.newBase.None? {
        return Threw(RegisterFailed), None;
      } else {
        pinned := Some(pages);
        ok := AllocateMapping(pages, env.newBase.value, env.device, true);
      }
      placed := if ok then Returned(k) else Threw(MappingIdsExhausted);
    }

    // Registers a host pool: a new lease on a reused, borrowed or new mapping.
    method RegisterPool(req: Request, page: int, env: RegisterEnv)
      returns (outcome: Outcome<int>, pinned: Option<Range>)
      requires Valid()
      modifies this
      ensures Valid()
      ensures RegisterResult(View(), outcome, pinned) == Register(old(View()), req, page, env)
      ensures outcome.Returned? <==> Accepts(old(View()), req, page, env)
      ensures outcome.Returned? ==> NewLease(old(View()), View(), req, env.device, outcome.value)
    {
      ghost var s := View();
      RegisterBook(s, req, page, env);
      RegisterSucceedsIff(s, req, page, env);
      if Register(s, req, page, env).outcome.Returned? {
        RegisterMakesLease(s, req, page, env);
      }
      outcome, pinned := RegisterRange(req, page, env);
    }

    method RegisterRange(req: Request, page: int, env: RegisterEnv)
      returns (outcome: Outcome<int>, pinned: Option<Range>)
      modifies this
      ensures RegisterResult(View(), outcome, pinned) == Register(old(View()), req, page, env)
    {
      ghost var s := View();
      var range := GetHostRange(req, page);
      if range.Threw? {
        return Threw(range.error), None;
      }
      if env.device < 0 {
        return Threw(DeviceQueryFailed), None;
      }
      counters := counters.(explicitRegisters := counters.explicitRegisters + 1);
      assert View() == CountCall(s) && PlanFor(View(), req, env) == PlanFor(s, req, env);
      var placed;
      placed, pinned := PlaceMapping(req, range.value.Pages(), env);
      if placed.Threw? {
        outcome := Threw(placed.error);
      } else {
        outcome := IssueHandle(placed.value, req, env.device);
      }
    }

    // Fences, and hands an owned mapping back to ACL, before a mapping is dropped.
    method Retire(m: Mapping, env: ReleaseEnv) returns (error: Option<Error>, fenced: bool, unpinned: Option<nat>)
      ensures fenced == env.fenceOk
      ensures error == if !env.fenceOk then Some(FenceFailed)
                       else if m.owned && !env.unregisterOk then Some(UnregisterFailed) else None
      ensures unpinned == if error.None? && m.owned then Some(m.base) else None
    {
      if !env.fenceOk {
        return Some(FenceFailed), false, None;
      }
      if m.owned && !env.unregisterOk {
        return Some(UnregisterFailed), true, None;
      }
      return None, true, if m.owned then Some(m.base) else None;
    }

    // Takes a lease away from mapping k, and the mapping with its last lease.
    method Forget(handle: int, k: nat)
      requires k < |mappings| && mappings[k].refs > 0
      modifies this
      ensures View() == EraseLease(if old(mappings[k].refs) > 1 then DropReference(old(View()), k)
                                   else DropMapping(old(View()), k), handle)
    {
      var m := mappings[k];
      counters := counters.(explicitUnregisters := counters.explicitUnregisters + 1);
      if m.refs == 1 {
        if m.owned {
          counters := counters.(unregisterCalls := counters.unregisterCalls + 1,
                                bytesCurrent := counters.bytesCurrent - m.size);
        }
        EraseMapping(m.id);
      } else {
        mappings := mappings[k := m.(refs := m.refs - 1)];
      }
      handles := handles - {handle};
    }

    // Releases a lease; with the last lease of a mapping, fences and drops the mapping.
    method UnregisterPool(handle: int, env: ReleaseEnv)
      returns (outcome: Outcome<bool>, fenced: bool, unpinned: Option<nat>)
      requires Valid()
      modifies this
      ensures Valid()
      ensures ReleaseResult(View(), outcome, fenced, unpinned) == Release(old(View()), handle, env)
      ensures outcome == Returned(true) <==>
                && env.device >= 0 && handle in old(handles)
                && old(handles)[handle].device == env.device && CallsSucceed(old(View()), handle, env)
    {
      ReleaseBook(View(), handle, env);
      ReleaseOutcome(View(), handle, env);
      fenced, unpinned := false, None;
      if env.device < 0 {
        return Threw(DeviceQueryFailed), fenced, unpinned;
      }
      if handle !in handles || !handles[handle].active {
        return Returned(false), fenced, unpinned;
      }
      var k := FindMappingById(handles[handle].mappingId);
      if k == |mappings| {
        return Threw(NoMapping), fenced, unpinned;
      }
      var m := mappings[k];
      if m.refs == 0 {
        return Threw(InvalidReferenceCount), fenced, unpinned;
      }
      if m.device != env.device {
        return Threw(WrongDevice), fenced, unpinned;
      }
      if m.refs == 1 {
        var error;
        error, fenced, unpinned := Retire(m, env);
        if error.Some? {
          return Threw(error.value), fenced, unpinned;
        }
      }
      Forget(handle, k);
      outcome := Returned(true);
    }

    // The device-visible address of the source of a gather.
    method ResolveSource(req: Request, page: int, device: int) returns (r: Outcome<Resolved>)
      ensures r == Resolve(View(), req, page, device)
    {
      var range := GetHostRange(req, page);
      if range.Threw? {
        return Threw(range.error);
      }
      if device < 0 {
        return Threw(DeviceQueryFailed);
      }
      var found := FindMapping(req.addr, req.bytes, device);
      if found.Threw? {
        return Threw(found.error);
      }
      if found.value == |mappings| {
        return Threw(NotRegistered);
      }
      var m := mappings[found.value];
      return Returned(Resolved(found.value, m.deviceBase + (req.addr - m.base)));
    }

    // What is known about a handle; None for an unknown one.
    method Inspect(handle: int) returns (info: Option<Lease>)
      requires Valid()
      ensures info == if handle in handles then Some(handles[handle]) else None
      ensures info.Some? ==>
                && info.value.handle == handle && info.value.active
                && exists k :: 0 <= k < |mappings| && Backs(mappings[k], info.value)
    {
      info := if handle in handles then Some(handles[handle]) else None;
    }

    // Adds up the mappings.
    method Survey() returns (current: nat, largest: nat, owned: nat, borrowed: nat)
      ensures owned == OwnedCount(mappings) && owned + borrowed == |mappings|
      ensures current == OwnedBytes(mappings) + BorrowedBytes(mappings)
      ensures forall k :: 0 <= k < |mappings| ==> mappings[k].size <= largest
      ensures if mappings == [] then largest == 0 else exists k :: 0 <= k < |mappings| && mappings[k].size == largest
    {
      current, largest, owned, borrowed := 0, 0, 0, 0;
      var i := 0;
      while i < |mappings|
        invariant 0 <= i <= |mappings|
        invariant owned == OwnedCount(mappings[..i]) && owned + borrowed == i
        invariant current == OwnedBytes(mappings[..i]) + BorrowedBytes(mappings[..i])
        invariant forall k :: 0 <= k < i ==> mappings[k].size <= largest
        invariant if i == 0 then largest == 0 else exists k :: 0 <= k < i && mappings[k].size == largest
      {
        var m := mappings[i];
        SnocSums(mappings[..i], m);
        assert mappings[..i + 1] == mappings[..i] + [m];
        current := current + m.size;
        if m.size > largest {
          largest := m.size;
        }
        if m.owned {
          owned := owned + 1;
        } else {
          borrowed := borrowed + 1;
        }
        i := i + 1;
      }
      assert mappings[..i] == mappings;
    }

    // The reported current bytes count borrowed mappings too, the reported peak
    // only owned ones, so the current value may exceed the peak.
    method GetStats() returns (st: Stats)
      requires Valid()
      ensures st.mappingCount == |mappings| == st.ownedCount + st.borrowedCount
      ensures st.ownedCount == counters.registerCalls - counters.unregisterCalls
      ensures st.bytesCurrent == counters.bytesCurrent + BorrowedBytes(mappings) && st.bytesPeak == counters.bytesPeak
      ensures (forall k :: 0 <= k < |mappings| ==> mappings[k].owned) ==> st.bytesCurrent <= st.bytesPeak
      ensures forall k :: 0 <= k < |mappings| ==> mappings[k].size <= st.maxRegion
      ensures if mappings == [] then st.maxRegion == 0
              else exists k :: 0 <= k < |mappings| && mappings[k].size == st.maxRegion
      ensures st.activeHandles == st.storedHandles == |handles|
    {
      var current, largest, owned, borrowed := Survey();
      OwnedBorrowNothing(mappings);
      var active := set h | h in handles && handles[h].active;
      assert forall h :: h in View().leases ==> View().leases[h].active;
      assert active == handles.Keys;
      st := Stats(|mappings|, current, counters.bytesPeak, largest, owned, borrowed, |active|, |handles|);
    }
  }
}
