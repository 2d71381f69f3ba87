// Whole runs of the registry: registrations, releases, gathers and completions
// in any order, under any ACL replies.
module RegistryRuns {
  import opened HostRange
  import opened Registry
  import opened RegistryBook
  import opened RegistryGeometry

  // A gather that was enqueued on a device and has not finished reading.
  datatype Reader = Reader(mappingId: nat, device: int, addr: nat, bytes: nat, deviceAddr: int) {
    function AsRange(): Range { Range(addr, bytes) }
  }

  // The registry with its surroundings: the ranges ACL holds for this extension,
  // the gathers in flight by ticket, the request behind each mapping, and the
  // registered byte count after every step so far.
  datatype World = World(reg: State, pinned: set<Range>, readers: map<nat, Reader>, origins: Origins, trace: seq<int>)

  datatype Event =
    | DoRegister(req: Request, regEnv: RegisterEnv)
    | DoRelease(handle: int, relEnv: ReleaseEnv)
    | DoGather(req: Request, device: int)
    | DoFinish(ticket: nat)

  ghost function Start(pid: nat): World {
    World(Init(pid), {}, map[], map[], [0])
  }

  // What a device-wide fence leaves in flight.
  ghost function Drain(readers: map<nat, Reader>, device: int): map<nat, Reader> {
    map t | t in readers && readers[t].device != device :: readers[t]
  }

  ghost function Enqueue(w: World, r: Resolved, req: Request, device: int): map<nat, Reader>
    requires r.index < |w.reg.mappings|
  {
    w.readers[|w.trace| := Reader(w.reg.mappings[r.index].id, device, req.addr, req.bytes, r.deviceAddr)]
  }

  ghost function Act(page: int, w: World, e: Event): World {
    match e
    case DoRegister(req, env) =>
      var r := Register(w.reg, req, page, env);
      w.(reg := r.state,
         pinned := if r.pinned.Some? then w.pinned + {r.pinned.value} else w.pinned,
         origins := OriginsAfter(w.reg, r.state, w.origins, req))
    case DoRelease(handle, env) =>
      var r := Release(w.reg, handle, env);
      w.(reg := r.state,
         pinned := if r.unpinned.Some? then set p | p in w.pinned && p.base != r.unpinned.value else w.pinned,
         readers := if r.fenced then Drain(w.readers, env.device) else w.readers)
    case DoGather(req, device) =>
      var r := Resolve(w.reg, req, page, device);
      if r.Returned? then w.(readers := Enqueue(w, r.value, req, device)) else w
    case DoFinish(ticket) => w.(readers := w.readers - {ticket})
  }

  ghost function Step(page: int, w: World, e: Event): World {
    var w' := Act(page, w, e);
    w'.(trace := w.trace + [w'.reg.counters.bytesCurrent])
  }

  // A run: the events of a process and the states they lead through.
  datatype Run = Run(page: int, pid: nat, events: seq<Event>, worlds: seq<World>) {
    ghost predicate Follows(i: nat)
      requires i < |events| && |worlds| == |events| + 1
    {
      worlds[i + 1] == Step(page, worlds[i], events[i])
    }

    ghost predicate Valid() {
      && |worlds| == |events| + 1
      && worlds[0] == Start(pid)
      && forall i :: 0 <= i < |events| ==> Follows(i)
    }
  }

  // ------------------------------------------------------ unconditional safety

  ghost predicate SameMapping(a: Mapping, b: Mapping) { a.(refs := 0) == b.(refs := 0) }

  ghost predicate Reads(m: Mapping, r: Reader) {
    && m.id == r.mappingId
    && m.device == r.device
    && Within(r.AsRange(), m.Bytes())
    && r.deviceAddr == m.deviceBase + (r.addr - m.base)
  }

  ghost predicate Live(s: State, r: Reader) {
    exists k :: 0 <= k < |s.mappings| && Reads(s.mappings[k], r)
  }

  // Every gather in flight reads a mapping that still exists, on its own device.
  ghost predicate ReadersLive(w: World) {
    forall t :: t in w.readers ==> Live(w.reg, w.readers[t])
  }

  ghost predicate PeakIsMaximum(w: World) {
    && |w.trace| > 0
    && w.trace[|w.trace| - 1] == w.reg.counters.bytesCurrent
    && w.reg.counters.bytesPeak in w.trace
    && forall i :: 0 <= i < |w.trace| ==> w.trace[i] <= w.reg.counters.bytesPeak
  }

  lemma {:induction false} RegisterKeepsMappings(s: State, req: Request, page: int, env: RegisterEnv)
    ensures var s' := Register(s, req, page, env).state;
            && |s.mappings| <= |s'.mappings| <= |s.mappings| + 1
            && forall k :: 0 <= k < |s.mappings| ==> SameMapping(s'.mappings[k], s.mappings[k])
    ensures var s' := Register(s, req, page, env).state;
            |s.mappings| < |s'.mappings| ==> s'.mappings[|s.mappings|].id == s.nextId
  {
  }

  // A release keeps every mapping, except one that the fence has just covered.
  lemma {:induction false} ReleaseKeepsMappings(s: State, handle: int, env: ReleaseEnv, k: nat) returns (j: nat)
    requires Book(s) && k < |s.mappings|
    ensures var r := Release(s, handle, env);
            || (j < |r.state.mappings| && SameMapping(r.state.mappings[j], s.mappings[k]))
            || (r.fenced && s.mappings[k].device == env.device)
  {
    if Release(s, handle, env).outcome == Returned(true) {
      var i := BackingIndex(s, handle);
      ReleaseEffect(s, handle, env, i);
      j := PlaceAfter(s.mappings, Release(s, handle, env).state.mappings, i, k);
    } else {
      ReleaseWithoutEffect(s, handle, env);
      j := k;
    }
  }

  // Where a mapping other than the released one, or one that is kept, ends up.
  lemma {:induction false} PlaceAfter(ms: seq<Mapping>, ms': seq<Mapping>, i: nat, k: nat) returns (j: nat)
    requires i < |ms| && k < |ms|
    requires if ms[i].refs == 1 then ms' == ms[..i] + ms[i + 1..]
             else ms[i].refs > 1 && ms' == ms[i := ms[i].(refs := ms[i].refs - 1)]
    ensures (ms[i].refs == 1 && i == k) || (j < |ms'| && SameMapping(ms'[j], ms[k]))
  {
    j := if ms[i].refs == 1 && i < k then k - 1 else k;
  }

  lemma {:induction false} OriginBeforeErase(ms: seq<Mapping>, ms': seq<Mapping>, k: nat, j: nat) returns (i: nat)
    requires k < |ms| && ms' == ms[..k] + ms[k + 1..] && j < |ms'|
    ensures i < |ms| && SameMapping(ms'[j], ms[i])
  {
    i := Source(k, true, j);
    assert ms'[j] == ms[i];
  }

  lemma {:induction false} OriginBeforeDrop(ms: seq<Mapping>, ms': seq<Mapping>, k: nat, j: nat) returns (i: nat)
    requires k < |ms| && 0 < ms[k].refs && ms' == ms[k := ms[k].(refs := ms[k].refs - 1)] && j < |ms'|
    ensures i < |ms| && SameMapping(ms'[j], ms[i])
  {
    i := j;
    assert j != k ==> ms'[j] == ms[j];
  }

  // Every mapping after a release was there before.
  lemma {:induction false} ReleaseOrigin(s: State, handle: int, env: ReleaseEnv, j: nat) returns (i: nat)
    requires Book(s) && j < |Release(s, handle, env).state.mappings|
    ensures i < |s.mappings| && SameMapping(Release(s, handle, env).state.mappings[j], s.mappings[i])
  {
    if Release(s, handle, env).outcome == Returned(true) {
      var k := BackingIndex(s, handle);
      ReleaseEffect(s, handle, env, k);
      if s.mappings[k].refs == 1 {
        i := OriginBeforeErase(s.mappings, Release(s, handle, env).state.mappings, k, j);
      } else {
        i := OriginBeforeDrop(s.mappings, Release(s, handle, env).state.mappings, k, j);
      }
    } else {
      ReleaseWithoutEffect(s, handle, env);
      i := j;
    }
  }

  lemma {:induction false} SameMappingReads(m: Mapping, m': Mapping, r: Reader)
    requires SameMapping(m', m) && Reads(m, r)
    ensures Reads(m', r)
  {
  }

  // A reader the step left in flight still reads a live mapping.
  lemma {:induction false} ReaderSurvives(page: int, w: World, e: Event, r: Reader)
    requires Book(w.reg) && Live(w.reg, r)
    requires e.DoRelease? && Release(w.reg, e.handle, e.relEnv).fenced ==> r.device != e.relEnv.device
    ensures Live(Step(page, w, e).reg, r)
  {
    var s' := Step(page, w, e).reg;
    var k :| 0 <= k < |w.reg.mappings| && Reads(w.reg.mappings[k], r);
    if e.DoRegister? {
      RegisterKeepsMappings(w.reg, e.req, page, e.regEnv);
      SameMappingReads(w.reg.mappings[k], s'.mappings[k], r);
    } else if e.DoRelease? {
      var j := ReleaseKeepsMappings(w.reg, e.handle, e.relEnv, k);
      SameMappingReads(w.reg.mappings[k], s'.mappings[j], r);
    }
  }

  lemma {:induction false} StepReaders(page: int, w: World, e: Event)
    requires Book(w.reg) && ReadersLive(w)
    ensures ReadersLive(Step(page, w, e))
  {
    var w' := Step(page, w, e);
    forall t | t in w'.readers ensures Live(w'.reg, w'.readers[t]) {
      var r := w'.readers[t];
      if t in w.readers && r == w.readers[t] {
        ReaderSurvives(page, w, e, r);
      } else {
        var a := Resolve(w.reg, e.req, page, e.device).value;
        ContainsIsWithin(w.reg.mappings[a.index], e.req);
        assert Reads(w'.reg.mappings[a.index], r);
      }
    }
  }

  lemma {:induction false} RegisterPeak(s: State, req: Request, page: int, env: RegisterEnv)
    requires Book(s)
    ensures var c, c' := s.counters, Register(s, req, page, env).state.counters;
            c'.bytesPeak == Max(c.bytesPeak, c'.bytesCurrent)
  {
  }

  lemma {:induction false} ReleasePeak(s: State, handle: int, env: ReleaseEnv)
    requires Book(s)
    ensures var c, c' := s.counters, Release(s, handle, env).state.counters;
            c'.bytesPeak == c.bytesPeak && c'.bytesCurrent <= c.bytesCurrent
  {
  }

  lemma {:induction false} StepPeak(page: int, w: World, e: Event)
    requires Book(w.reg) && PeakIsMaximum(w)
    ensures PeakIsMaximum(Step(page, w, e))
  {
    var w' := Step(page, w, e);
    if e.DoRegister? {
      RegisterPeak(w.reg, e.req, page, e.regEnv);
    } else if e.DoRelease? {
      ReleasePeak(w.reg, e.handle, e.relEnv);
    }
    ExtendMaximum(w.trace, w.reg.counters.bytesPeak, w'.reg.counters.bytesCurrent);
  }

  lemma {:induction false} ExtendMaximum(trace: seq<int>, peak: int, current: int)
    requires peak in trace && forall i :: 0 <= i < |trace| ==> trace[i] <= peak
    ensures Max(peak, current) in trace + [current]
    ensures forall i :: 0 <= i < |trace| + 1 ==> (trace + [current])[i] <= Max(peak, current)
  {
    assert (trace + [current])[|trace|] == current;
  }

  lemma {:induction false} StepBook(page: int, w: World, e: Event)
    requires Book(w.reg)
    ensures Book(Step(page, w, e).reg)
  {
    match e
    case DoRegister(req, env) => RegisterBook(w.reg, req, page, env);
    case DoRelease(handle, env) => ReleaseBook(w.reg, handle, env);
    case DoGather(_, _) =>
    case DoFinish(_) =>
  }

  lemma {:induction false} StepSafe(page: int, w: World, e: Event)
    requires Book(w.reg) && ReadersLive(w) && PeakIsMaximum(w)
    ensures var w' := Step(page, w, e);
            Book(w'.reg) && ReadersLive(w') && PeakIsMaximum(w')
  {
    StepBook(page, w, e);
    StepReaders(page, w, e);
    StepPeak(page, w, e);
  }

  // Every state of every run, under any requests and any ACL replies, keeps the
  // books, leaves no gather reading a dropped mapping, and records the true peak.
  lemma {:induction false} EveryRunIsSafe(r: Run, i: nat)
    requires r.Valid() && i < |r.worlds|
    ensures Book(r.worlds[i].reg) && ReadersLive(r.worlds[i]) && PeakIsMaximum(r.worlds[i])
  {
    if i == 0 {
      InitBook(r.pid);
    } else {
      EveryRunIsSafe(r, i - 1);
      assert r.worlds[i] == Step(r.page, r.worlds[i - 1], r.events[i - 1]) by { assert r.Follows(i - 1); }
      StepSafe(r.page, r.worlds[i - 1], r.events[i - 1]);
    }
  }
}
