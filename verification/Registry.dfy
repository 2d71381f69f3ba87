// The mapped-host registry as a value, and each of its operations as a
// transition on that value.  Every call into ACL is an oracle: the environment
// argument of an operation says what ACL replied.
module Registry {
  import opened Options
  import opened HostRange

  const I64_MAX: int := 0x7FFF_FFFF_FFFF_FFFF

  // One physical mapping; `owned` when this extension registered it with ACL.
  datatype Mapping = Mapping(id: nat, base: nat, size: nat, deviceBase: int, device: int, owned: bool, refs: nat) {
    function Bytes(): Range { Range(base, size) }

    // The end address as the 64-bit sum that the lookups compute.
    function End64(): nat { (base + size) % U64_SPAN }

    predicate Contains(addr: nat, bytes: nat) { addr >= base && addr + bytes <= End64() }

    predicate Wrapped() { End64() < base }

    predicate Meets(addr: nat, bytes: nat) { addr < End64() && base < addr + bytes }
  }

  // An opaque lease on a mapping, one per successful registration.
  datatype Lease = Lease(handle: int, mappingId: nat, addr: nat, bytes: nat,
                         mappedBase: nat, mappedBytes: nat, deviceAddr: int,
                         owned: bool, alreadyMapped: bool, active: bool, device: int)

  datatype Counters = Counters(registerCalls: int, bytesTotal: int, bytesCurrent: int, bytesPeak: int,
                               unregisterCalls: int, borrowedTotal: int,
                               explicitRegisters: int, explicitUnregisters: int)

  datatype State = State(mappings: seq<Mapping>, leases: map<int, Lease>,
                         nextId: nat, nextHandle: int, counters: Counters)

  function InitialHandle(pid: nat): int { pid % 0x8000_0000 * 0x1_0000_0000 + 1 }

  function Init(pid: nat): State {
    State([], map[], 1, InitialHandle(pid), Counters(0, 0, 0, 0, 0, 0, 0, 0))
  }

  predicate IdAvailable(s: State) { 0 < s.nextId < U64_MAX }

  predicate HandleAvailable(s: State) { 0 < s.nextHandle < I64_MAX }

  // ---------------------------------------------------------------- lookups

  // The index of the first mapping, at or after i, that contains the request.
  function FirstContaining(ms: seq<Mapping>, addr: nat, bytes: nat, i: nat := 0): (k: nat)
    requires i <= |ms|
    ensures i <= k <= |ms|
    ensures k < |ms| ==> ms[k].Contains(addr, bytes)
    ensures forall j :: i <= j < k ==> !ms[j].Contains(addr, bytes)
    decreases |ms| - i
  {
    if i == |ms| || ms[i].Contains(addr, bytes) then i else FirstContaining(ms, addr, bytes, i + 1)
  }

  // Finds a mapping for a device; index |ms| stands for the null result.
  function Lookup(ms: seq<Mapping>, addr: nat, bytes: nat, device: int): (r: Outcome<nat>)
    ensures r.Returned? ==> r.value <= |ms|
  {
    var k := FirstContaining(ms, addr, bytes);
    if k < |ms| && ms[k].device != device then Threw(CrossDevice) else Returned(k)
  }

  // The index of the first mapping, at or after i, at which the overlap scan stops.
  function FirstClash(ms: seq<Mapping>, addr: nat, bytes: nat, i: nat := 0): (k: nat)
    requires i <= |ms|
    ensures i <= k <= |ms|
    ensures k < |ms| ==> ms[k].Wrapped() || ms[k].Meets(addr, bytes)
    ensures forall j :: i <= j < k ==> !ms[j].Wrapped() && !ms[j].Meets(addr, bytes)
    decreases |ms| - i
  {
    if i == |ms| || ms[i].Wrapped() || ms[i].Meets(addr, bytes) then i else FirstClash(ms, addr, bytes, i + 1)
  }

  function OverlapError(ms: seq<Mapping>, addr: nat, bytes: nat): Option<Error> {
    var k := FirstClash(ms, addr, bytes);
    if k == |ms| then None
    else if ms[k].Wrapped() then Some(CachedMappingOverflow)
    else Some(PartialOverlap)
  }

  function FindById(ms: seq<Mapping>, id: nat, i: nat := 0): (k: nat)
    requires i <= |ms|
    ensures i <= k <= |ms|
    ensures k < |ms| ==> ms[k].id == id
    ensures forall j :: i <= j < k ==> ms[j].id != id
    decreases |ms| - i
  {
    if i == |ms| || ms[i].id == id then i else FindById(ms, id, i + 1)
  }

  function RemoveById(ms: seq<Mapping>, id: nat): seq<Mapping> {
    if ms == [] then []
    else (if ms[0].id == id then [] else [ms[0]]) + RemoveById(ms[1..], id)
  }

  // ----------------------------------------------------------- registration

  // What ACL answers during one registration: the current device (negative when
  // the query fails), the existing alias of the pointer, and the base address
  // of a new registration (None when it is refused).
  datatype RegisterEnv = RegisterEnv(device: int, aliasOk: bool, alias: int, newBase: Option<int>)

  datatype Plan = Refuse(error: Error) | Reuse(index: nat) | Borrow(alias: int) | Own(newBase: int)

  function PlanFor(s: State, req: Request, env: RegisterEnv): (p: Plan)
    ensures p.Reuse? ==> p.index < |s.mappings|
  {
    match Lookup(s.mappings, req.addr, req.bytes, env.device)
    case Threw(e) => Refuse(e)
    case Returned(k) =>
      if k < |s.mappings| then Reuse(k)
      else
        match OverlapError(s.mappings, req.addr, req.bytes)
        case Some(e) => Refuse(e)
        case None =>
          if env.aliasOk && env.alias != 0 then Borrow(env.alias)
          else if env.newBase.None? then Refuse(RegisterFailed)
          else Own(env.newBase.value)
  }

  // The state and outcome of a call, and the range ACL registered during it.
  datatype RegisterResult = RegisterResult(state: State, outcome: Outcome<int>, pinned: Option<Range>)

  function CountCall(s: State): State {
    s.(counters := s.counters.(explicitRegisters := s.counters.explicitRegisters + 1))
  }

  function Max(a: int, b: int): int { if a < b then b else a }

  // Appends a mapping under the next id.
  function AddMapping(s: State, bytes: Range, deviceBase: int, device: int, owned: bool): State {
    var c := s.counters;
    var c' :=
      if owned then
        c.(registerCalls := c.registerCalls + 1,
           bytesTotal := c.bytesTotal + bytes.size,
           bytesCurrent := c.bytesCurrent + bytes.size,
           bytesPeak := Max(c.bytesPeak, c.bytesCurrent + bytes.size))
      else c.(borrowedTotal := c.borrowedTotal + 1);
    s.(mappings := s.mappings + [Mapping(s.nextId, bytes.base, bytes.size, deviceBase, device, owned, 0)],
       nextId := s.nextId + 1,
       counters := c')
  }

  function MakeLease(handle: int, m: Mapping, req: Request, device: int): Lease {
    Lease(handle, m.id, req.addr, req.bytes, m.base, m.size, m.deviceBase + (req.addr - m.base),
          m.owned, !m.owned, true, device)
  }

  // Issues a lease on mapping k.
  function Issue(s: State, k: nat, req: Request, device: int): State
    requires k < |s.mappings|
  {
    var m := s.mappings[k];
    s.(mappings := s.mappings[k := m.(refs := m.refs + 1)],
       leases := if s.nextHandle in s.leases then s.leases
                 else s.leases[s.nextHandle := MakeLease(s.nextHandle, m, req, device)],
       nextHandle := s.nextHandle + 1)
  }

  function IssueOrThrow(s: State, k: nat, req: Request, device: int, pinned: Option<Range>): RegisterResult
    requires k < |s.mappings|
  {
    if HandleAvailable(s) then RegisterResult(Issue(s, k, req, device), Returned(s.nextHandle), pinned)
    else RegisterResult(s, Threw(HandlesExhausted), pinned)
  }

  function Register(s: State, req: Request, page: int, env: RegisterEnv): RegisterResult {
    match GetHostRange(req, page)
    case Threw(e) => RegisterResult(s, Threw(e), None)
    case Returned(span) =>
      if env.device < 0 then RegisterResult(s, Threw(DeviceQueryFailed), None)
      else
        var s1 := CountCall(s);
        match PlanFor(s, req, env)
        case Refuse(e) => RegisterResult(s1, Threw(e), None)
        case Reuse(k) => IssueOrThrow(s1, k, req, env.device, None)
        case Borrow(alias) =>
          if !IdAvailable(s) then RegisterResult(s1, Threw(MappingIdsExhausted), None)
          else IssueOrThrow(AddMapping(s1, req.AsRange(), alias, env.device, false), |s.mappings|,
                            req, env.device, None)
        case Own(newBase) =>
          if !IdAvailable(s) then RegisterResult(s1, Threw(MappingIdsExhausted), Some(span.Pages()))
          else IssueOrThrow(AddMapping(s1, span.Pages(), newBase, env.device, true), |s.mappings|,
                            req, env.device, Some(span.Pages()))
  }

  // ---------------------------------------------------------------- release

  datatype ReleaseEnv = ReleaseEnv(device: int, fenceOk: bool, unregisterOk: bool)

  // `fenced` when the device-wide fence completed during the call; `unpinned`
  // is the base address ACL unregistered, if any.
  datatype ReleaseResult = ReleaseResult(state: State, outcome: Outcome<bool>, fenced: bool, unpinned: Option<nat>)

  function DropReference(s: State, k: nat): State
    requires k < |s.mappings| && s.mappings[k].refs > 0
  {
    var m := s.mappings[k];
    s.(mappings := s.mappings[k := m.(refs := m.refs - 1)])
  }

  function DropMapping(s: State, k: nat): State
    requires k < |s.mappings|
  {
    var m := s.mappings[k];
    var c := s.counters;
    s.(mappings := RemoveById(s.mappings, m.id),
       counters := if m.owned then c.(unregisterCalls := c.unregisterCalls + 1, bytesCurrent := c.bytesCurrent - m.size)
                   else c)
  }

  function EraseLease(s: State, handle: int): State {
    s.(leases := s.leases - {handle},
       counters := s.counters.(explicitUnregisters := s.counters.explicitUnregisters + 1))
  }

  function Release(s: State, handle: int, env: ReleaseEnv): ReleaseResult {
    if env.device < 0 then ReleaseResult(s, Threw(DeviceQueryFailed), false, None)
    else if handle !in s.leases || !s.leases[handle].active then ReleaseResult(s, Returned(false), false, None)
    else
      var k := FindById(s.mappings, s.leases[handle].mappingId);
      if k == |s.mappings| then ReleaseResult(s, Threw(NoMapping), false, None)
      else
        var m := s.mappings[k];
        if m.refs == 0 then ReleaseResult(s, Threw(InvalidReferenceCount), false, None)
        else if m.device != env.device then ReleaseResult(s, Threw(WrongDevice), false, None)
        else if m.refs > 1 then
          ReleaseResult(EraseLease(DropReference(s, k), handle), Returned(true), false, None)
        else if !env.fenceOk then ReleaseResult(s, Threw(FenceFailed), false, None)
        else if m.owned && !env.unregisterOk then ReleaseResult(s, Threw(UnregisterFailed), true, None)
        else
          ReleaseResult(EraseLease(DropMapping(s, k), handle), Returned(true), true,
                        if m.owned then Some(m.base) else None)
  }

  // ----------------------------------------------------------------- gather

  datatype Resolved = Resolved(index: nat, deviceAddr: int)

  // Resolves the source of a gather to the device-visible alias.
  function Resolve(s: State, req: Request, page: int, device: int): (r: Outcome<Resolved>)
    ensures r.Returned? ==>
              && r.value.index < |s.mappings|
              && s.mappings[r.value.index].device == device
              && s.mappings[r.value.index].Contains(req.addr, req.bytes)
              && (forall i :: 0 <= i < r.value.index ==> !s.mappings[i].Contains(req.addr, req.bytes))
              && r.value.deviceAddr - s.mappings[r.value.index].deviceBase == req.addr - s.mappings[r.value.index].base
    ensures r == Threw(NotRegistered) ==>
              forall i :: 0 <= i < |s.mappings| ==> !s.mappings[i].Contains(req.addr, req.bytes)
  {
    match GetHostRange(req, page)
    case Threw(e) => Threw(e)
    case Returned(_) =>
      if device < 0 then Threw(DeviceQueryFailed)
      else
        match Lookup(s.mappings, req.addr, req.bytes, device)
        case Threw(e) => Threw(e)
        case Returned(k) =>
          if k == |s.mappings| then Threw(NotRegistered)
          else Returned(Resolved(k, s.mappings[k].deviceBase + (req.addr - s.mappings[k].base)))
  }
}
