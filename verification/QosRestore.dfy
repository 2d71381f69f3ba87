// Why unset puts back what the first apply found.
module QosRestore {
  import opened Options
  import opened Collections
  import opened Qos

  // ------------------------------------------------------- what apply may change

  // A tuned device differs from the original only in master levels, in the
  // bandwidth of the SDMA master's MPAM id, and in the fuse settings.
  ghost predicate Shape(first: Device, now: Device)
    requires HasSdma(first)
  {
    && now.qos.Keys == first.qos.Keys
    && (forall m :: m in first.qos ==> now.qos[m] == first.qos[m].(level := now.qos[m].level))
    && (forall m :: m in first.qos && m !in MASTERS ==> now.qos[m] == first.qos[m])
    && now.bandwidth.Keys == first.bandwidth.Keys
    && (forall id :: id in first.bandwidth && id != first.qos[SDMA].mpamid ==> now.bandwidth[id] == first.bandwidth[id])
  }

  lemma {:induction false} TuneMasterKeepsShape(first: Device, dev: Device, m: int, i: nat, levels: Levels,
                                                fails: set<Call>)
    requires HasSdma(first) && Shape(first, dev) && m in MASTERS
    ensures Shape(first, TuneMaster(dev, m, i, levels, fails))
  {
  }

  lemma {:induction false} TuneMastersKeepsShape(first: Device, dev: Device, k: nat, i: nat, levels: Levels,
                                                 fails: set<Call>)
    requires HasSdma(first) && Shape(first, dev) && k <= |MASTERS|
    ensures Shape(first, TuneMasters(dev, k, i, levels, fails))
  {
    if k == 0 {
    } else {
      TuneMastersKeepsShape(first, dev, k - 1, i, levels, fails);
      TuneMasterKeepsShape(first, TuneMasters(dev, k - 1, i, levels, fails), MASTERS[k - 1], i, levels, fails);
    }
  }

  lemma {:induction false} TunedKeepsShape(first: Device, devices: Devices, list: seq<int>, levels: Levels,
                                           fails: set<Call>, d: int)
    requires HasSdma(first) && d in devices && Shape(first, devices[d])
    ensures Shape(first, Tuned(devices, list, levels, fails)[d])
  {
    if list == [] {
    } else {
      var n := |list| - 1;
      TunedKeepsShape(first, devices, list[..n], levels, fails, d);
      var dev := Tuned(devices, list[..n], levels, fails)[d];
      TuneMastersKeepsShape(first, if TuneFuse(n) in fails then dev else dev.(fuse := FUSE_MAX), |MASTERS|, n,
        levels, fails);
    }
  }

  // A device that is not listed is not touched.
  lemma {:induction false} TunedElsewhere(devices: Devices, list: seq<int>, levels: Levels, fails: set<Call>, d: int)
    requires d in devices && d !in list
    ensures Tuned(devices, list, levels, fails)[d] == devices[d]
  {
    if list == [] {
    } else {
      TunedElsewhere(devices, list[..|list| - 1], levels, fails, d);
    }
  }

  // ------------------------------------------------------------------ captures

  // No call that captures device d fails.
  ghost predicate CapturesSucceed(list: seq<int>, fails: set<Call>, d: int) {
    forall i :: 0 <= i < |list| && list[i] == d ==>
      && CaptureSdma(i) !in fails && CaptureBandwidth(i) !in fails && CaptureFuse(i) !in fails
      && forall m :: m in MASTERS ==> CaptureQos(i, m) !in fails
  }

  function Managed(dev: Device): map<int, Config> {
    map m | m in MASTERS && m in dev.qos :: dev.qos[m]
  }

  // The entries of d are those of the given settings.
  ghost predicate Holds(b: Baseline, d: int, first: Device)
    requires HasSdma(first)
  {
    && Complete(b, d)
    && b.qos[d] == Managed(first) && b.sdma[d] == MataOf(first) && b.fuse[d] == first.fuse
  }

  ghost predicate Absent(b: Baseline, d: int) { d !in b.qos && d !in b.sdma && d !in b.fuse }

  lemma {:induction false} CaptureHolds(devices: Devices, list: seq<int>, fails: set<Call>, d: int)
    requires d in devices && HasSdma(devices[d]) && CapturesSucceed(list, fails, d)
    ensures if d in list then Holds(Captured(devices, list, fails), d, devices[d])
            else Absent(Captured(devices, list, fails), d)
  {
    if list == [] {
    } else {
      var n := |list| - 1;
      assert list == list[..n] + [list[n]];
      CaptureHolds(devices, list[..n], fails, d);
      if list[n] == d {
        assert SavedMasters(devices, d, n, fails) == Managed(devices[d]);
      }
    }
  }

  lemma {:induction false} CaptureElsewhere(devices: Devices, list: seq<int>, fails: set<Call>, d: int)
    requires d !in list
    ensures Absent(Captured(devices, list, fails), d)
  {
    if list == [] {
    } else {
      var n := |list| - 1;
      assert list == list[..n] + [list[n]];
      CaptureElsewhere(devices, list[..n], fails, d);
    }
  }

  // -------------------------------------------------------- the first snapshot

  // A device whose three entries are in the file keeps them through every apply,
  // whatever fails.
  lemma {:induction false} CompleteEntriesAreKept(devices: Devices, b: Baseline, list: seq<int>, fails: set<Call>,
                                                  d: int)
    requires Complete(b, d)
    ensures var next := NextBaseline(devices, Some(b), list, fails);
            Complete(next, d) && next.qos[d] == b.qos[d] && next.sdma[d] == b.sdma[d] && next.fuse[d] == b.fuse[d]
  {
    CaptureElsewhere(devices, Missing(b, list), fails, d);
  }

  // Both files hold all three entries of d, and the same ones.
  ghost predicate SameEntries(a: File, b: File, d: int) {
    && a.Snapshot? && b.Snapshot? && Complete(a.baseline, d) && Complete(b.baseline, d)
    && a.baseline.qos[d] == b.baseline.qos[d] && a.baseline.sdma[d] == b.baseline.sdma[d]
    && a.baseline.fuse[d] == b.baseline.fuse[d]
  }

  // The device has the settings that the file holds for it.
  ghost predicate AsSaved(w: World, d: int) {
    w.file.Snapshot? && d in w.devices && HasSdma(w.devices[d]) && Holds(w.file.baseline, d, w.devices[d])
  }

  // What an apply must do to the file to keep the entries of d in it: not lose it,
  // and not write it without having read it, unless the new capture finds the same.
  ghost predicate KeepsEntries(w: World, e: Event, d: int)
    requires e.Apply?
  {
    && !e.write.Lost?
    && (e.write.Written? && !e.read ==> SameEntries(w.file, Snapshot(Captured(w.devices, e.list, e.fails)), d))
  }

  lemma {:induction false} ApplyKeepsEntriesIff(w: World, e: Event, d: int)
    requires e.Apply? && w.file.Snapshot? && Complete(w.file.baseline, d)
    ensures SameEntries(w.file, Step(w, e).file, d) <==> KeepsEntries(w, e, d)
  {
    CompleteEntriesAreKept(w.devices, w.file.baseline, e.list, e.fails, d);
  }

  // A capture without failures finds the same entries exactly when the device is
  // listed and still has the settings that the file holds.
  lemma {:induction false} CaptureFindsSameIff(w: World, list: seq<int>, fails: set<Call>, d: int)
    requires w.file.Snapshot? && Complete(w.file.baseline, d) && d in w.devices && CapturesSucceed(list, fails, d)
    ensures SameEntries(w.file, Snapshot(Captured(w.devices, list, fails)), d) <==> d in list && AsSaved(w, d)
  {
    if d !in list {
      CaptureElsewhere(w.devices, list, fails, d);
    } else if HasSdma(w.devices[d]) {
      CaptureHolds(w.devices, list, fails, d);
    } else {
      NoSdmaEntry(w.devices, list, fails, d);
    }
  }

  lemma {:induction false} NoSdmaEntry(devices: Devices, list: seq<int>, fails: set<Call>, d: int)
    requires d in devices && !HasSdma(devices[d])
    ensures d !in SavedSdma(devices, list, fails)
  {
    if list == [] {
    } else {
      NoSdmaEntry(devices, list[..|list| - 1], fails, d);
    }
  }

  // Through any number of applies a device keeps its three entries, whatever driver
  // calls fail, if and only if each of them keeps the entries in the file.
  lemma {:induction false} SnapshotSurvivesAppliesIff(r: Run, i: nat, j: nat, d: int)
    requires r.Valid() && i <= j <= |r.events| && r.worlds[i].file.Snapshot? && Complete(r.worlds[i].file.baseline, d)
    requires forall k :: i <= k < j ==> r.events[k].Apply?
    ensures (forall k :: i <= k <= j ==> SameEntries(r.worlds[i].file, r.worlds[k].file, d))
            <==> forall k :: i <= k < j ==> KeepsEntries(r.worlds[k], r.events[k], d)
  {
    if i < j {
      SnapshotSurvivesAppliesIff(r, i, j - 1, d);
      assert r.worlds[j] == Step(r.worlds[j - 1], r.events[j - 1]) by { assert r.Follows(j - 1); }
      if SameEntries(r.worlds[i].file, r.worlds[j - 1].file, d) {
        ApplyKeepsEntriesIff(r.worlds[j - 1], r.events[j - 1], d);
      }
    }
  }

  // --------------------------------------------------------------- restoring

  ghost predicate InFile(f: File, d: int) { f.Snapshot? && !Absent(f.baseline, d) }

  // The state of one device: untouched and not in the file, or in the file with
  // its first settings and changed only where the file can put it back.
  ghost predicate Safe(w: World, d: int, first: Device)
    requires HasSdma(first)
  {
    && d in w.devices
    && if !InFile(w.file, d) then w.devices[d] == first
       else Holds(w.file.baseline, d, first) && Shape(first, w.devices[d])
  }

  // The apply does not cost device d its place in the file.  A listed device that
  // the file does not hold gets into it.  A file that holds the device is not lost,
  // nor written without having been read, unless the device is as saved.
  ghost predicate FileSpares(w: World, e: Event, d: int)
    requires e.Apply?
  {
    if InFile(w.file, d) then !e.write.Lost? && (e.write.Written? && !e.read ==> AsSaved(w, d))
    else d in e.list ==> e.write.Written?
  }

  // No call that restores device d fails.
  ghost predicate RestoresSucceed(fails: set<Call>, d: int) {
    && RestoreBandwidth(d) !in fails && RestoreFuse(d) !in fails
    && forall m :: m in MASTERS ==> RestoreQos(d, m) !in fails
  }

  // The unset finds what the file holds of device d, if it holds anything else than
  // the device has.
  ghost predicate ReadSpares(w: World, e: Event, d: int)
    requires e.Unset?
  {
    InFile(w.file, d) ==> e.read || AsSaved(w, d)
  }

  // What an event must not do to device d: write a capture of it that failed, lose
  // it in the file, fail to read it back, or fail to restore it.
  ghost predicate Spares(w: World, e: Event, d: int) {
    match e
    case Apply(list, _, fails, read, write) =>
      && (write.Written? ==> CapturesSucceed(ToCapture(Loaded(w.file, read), list), fails, d))
      && FileSpares(w, e, d)
    case Unset(fails, _, _) => RestoresSucceed(fails, d) && ReadSpares(w, e, d)
  }

  lemma {:induction false} RestoreUndoes(first: Device, now: Device, b: Baseline, d: int, fails: set<Call>)
    requires HasSdma(first) && Shape(first, now) && Holds(b, d, first)
    requires RestoresSucceed(fails, d)
    ensures RestoredDevice(now, d, b, fails) == first
  {
    var qos := RestoredQos(now, d, b, fails);
    forall m | m in first.qos ensures m in qos && qos[m] == first.qos[m] {
      assert m in MASTERS ==> m in Managed(first);
    }
    assert qos == first.qos;
    var id := first.qos[SDMA].mpamid;
    var bandwidth := RestoredBandwidth(now, d, b, fails);
    assert bandwidth.Keys == first.bandwidth.Keys;
    forall k | k in first.bandwidth ensures bandwidth[k] == first.bandwidth[k] {
      assert k == id || k != id;
    }
    assert bandwidth == first.bandwidth;
  }

  lemma {:induction false} RestoreElsewhere(now: Device, b: Baseline, d: int, fails: set<Call>)
    requires Absent(b, d)
    ensures RestoredDevice(now, d, b, fails) == now
  {
    assert RestoredQos(now, d, b, fails) == now.qos;
  }

  // In a safe world, being as saved is having the first settings.
  lemma {:induction false} AsSavedIsFirst(w: World, d: int, first: Device)
    requires HasSdma(first) && Safe(w, d, first) && InFile(w.file, d)
    ensures AsSaved(w, d) <==> w.devices[d] == first
  {
    if AsSaved(w, d) {
      SameManaged(first, w.devices[d]);
    }
  }

  lemma {:induction false} SameManaged(first: Device, now: Device)
    requires HasSdma(first) && HasSdma(now) && Shape(first, now)
    requires Managed(now) == Managed(first) && MataOf(now) == MataOf(first) && now.fuse == first.fuse
    ensures now == first
  {
    forall m | m in first.qos ensures now.qos[m] == first.qos[m] {
      assert m in MASTERS ==> m in Managed(first) && now.qos[m] == Managed(now)[m];
    }
    SameTable(now.qos, first.qos);
    SameTable(now.bandwidth, first.bandwidth);
  }

  lemma {:induction false} UnsetRestores(w: World, e: Event, d: int, first: Device)
    requires HasSdma(first) && e.Unset? && Safe(w, d, first) && Spares(w, e, d)
    ensures Safe(Step(w, e), d, first) && Step(w, e).devices[d] == first
  {
    if InFile(w.file, d) {
      AsSavedIsFirst(w, d, first);
      RestoreUndoes(first, w.devices[d], w.file.baseline, d, e.fails);
    } else if w.file.Snapshot? {
      RestoreElsewhere(w.devices[d], w.file.baseline, d, e.fails);
    }
  }

  // For an unset whose restore calls succeed, the condition on the read is exact.
  lemma {:induction false} UnsetReadIff(w: World, e: Event, d: int, first: Device)
    requires HasSdma(first) && e.Unset? && Safe(w, d, first) && RestoresSucceed(e.fails, d)
    ensures Step(w, e).devices[d] == first <==> ReadSpares(w, e, d)
  {
    if ReadSpares(w, e, d) {
      UnsetRestores(w, e, d, first);
    } else {
      AsSavedIsFirst(w, d, first);
    }
  }

  // The devices an apply captures, seen from one device in a safe world.
  lemma {:induction false} CapturedIffNew(w: World, list: seq<int>, read: bool, d: int, first: Device)
    requires HasSdma(first) && Safe(w, d, first)
    ensures d in ToCapture(Loaded(w.file, read), list) <==> d in list && !(read && InFile(w.file, d))
  {
  }

  lemma {:induction false} ReadApplyKeepsSafe(w: World, e: Event, d: int, first: Device)
    requires HasSdma(first) && e.Apply? && Safe(w, d, first) && Spares(w, e, d)
    requires InFile(w.file, d) && (e.read || e.write.Kept?)
    ensures Safe(Step(w, e), d, first)
  {
    TunedKeepsShape(first, w.devices, e.list, e.levels, e.fails, d);
    CompleteEntriesAreKept(w.devices, w.file.baseline, e.list, e.fails, d);
  }

  // An apply that finds the device with its first settings, and captures it anew.
  lemma {:induction false} FreshApplyKeepsSafe(w: World, e: Event, d: int, first: Device)
    requires HasSdma(first) && e.Apply? && Safe(w, d, first) && Spares(w, e, d)
    requires w.devices[d] == first && !(InFile(w.file, d) && (e.read || e.write.Kept?))
    ensures Safe(Step(w, e), d, first)
  {
    CapturedIffNew(w, e.list, e.read, d, first);
    TunedKeepsShape(first, w.devices, e.list, e.levels, e.fails, d);
    if d !in e.list {
      TunedElsewhere(w.devices, e.list, e.levels, e.fails, d);
    }
    if e.write.Written? {
      CaptureHolds(w.devices, ToCapture(Loaded(w.file, e.read), e.list), e.fails, d);
    }
  }

  lemma {:induction false} ApplyKeepsSafe(w: World, e: Event, d: int, first: Device)
    requires HasSdma(first) && e.Apply? && Safe(w, d, first) && Spares(w, e, d)
    ensures Safe(Step(w, e), d, first)
  {
    if InFile(w.file, d) && (e.read || e.write.Kept?) {
      ReadApplyKeepsSafe(w, e, d, first);
    } else {
      if InFile(w.file, d) {
        AsSavedIsFirst(w, d, first);
      }
      FreshApplyKeepsSafe(w, e, d, first);
    }
  }

  // For an apply whose captures of d succeed and that leaves it with other settings
  // than the first, the condition on the file is exact.
  lemma {:induction false} ApplyKeepsSafeIff(w: World, e: Event, d: int, first: Device)
    requires HasSdma(first) && e.Apply? && Safe(w, d, first)
    requires CapturesSucceed(ToCapture(Loaded(w.file, e.read), e.list), e.fails, d)
    requires Tuned(w.devices, e.list, e.levels, e.fails)[d] != first
    ensures Safe(Step(w, e), d, first) <==> FileSpares(w, e, d)
  {
    if FileSpares(w, e, d) {
      ApplyKeepsSafe(w, e, d, first);
    } else if InFile(w.file, d) && !e.write.Lost? {
      UnreadOverwriteIsUnsafe(w, e, d, first);
    }
  }

  // A written file that was not read holds the settings of the moment.
  lemma {:induction false} UnreadOverwriteIsUnsafe(w: World, e: Event, d: int, first: Device)
    requires HasSdma(first) && e.Apply? && Safe(w, d, first) && InFile(w.file, d) && w.devices[d] != first
    requires e.write.Written? && !e.read && CapturesSucceed(e.list, e.fails, d)
    ensures !Safe(Step(w, e), d, first)
  {
    if d in e.list {
      CaptureHolds(w.devices, e.list, e.fails, d);
      if Holds(Captured(w.devices, e.list, e.fails), d, first) {
        SameManaged(first, w.devices[d]);
      }
    } else {
      CaptureElsewhere(w.devices, e.list, e.fails, d);
      TunedElsewhere(w.devices, e.list, e.levels, e.fails, d);
    }
  }

  lemma {:induction false} RunIsSafe(r: Run, i: nat, d: int)
    requires r.Valid() && i <= |r.events| && d in r.worlds[0].devices && HasSdma(r.worlds[0].devices[d])
    requires forall k :: 0 <= k < i ==> Spares(r.worlds[k], r.events[k], d)
    ensures Safe(r.worlds[i], d, r.worlds[0].devices[d])
  {
    if i == 0 {
    } else {
      RunIsSafe(r, i - 1, d);
      assert r.worlds[i] == Step(r.worlds[i - 1], r.events[i - 1]) by { assert r.Follows(i - 1); }
      var first := r.worlds[0].devices[d];
      if r.events[i - 1].Apply? {
        ApplyKeepsSafe(r.worlds[i - 1], r.events[i - 1], d, first);
      } else {
        UnsetRestores(r.worlds[i - 1], r.events[i - 1], d, first);
      }
    }
  }

  // After every unset of every run, a device has its initial settings again, as
  // long as its own captures and restores succeed and no read or write of the file
  // costs it its place there; calls about other devices, and calls that tune this
  // one, may fail in any way.
  lemma {:induction false} EveryUnsetRestores(r: Run, i: nat, d: int)
    requires r.Valid() && i < |r.events| && r.events[i].Unset?
    requires d in r.worlds[0].devices && HasSdma(r.worlds[0].devices[d])
    requires forall k :: 0 <= k <= i ==> Spares(r.worlds[k], r.events[k], d)
    ensures d in r.worlds[i + 1].devices && r.worlds[i + 1].devices[d] == r.worlds[0].devices[d]
  {
    RunIsSafe(r, i, d);
    assert r.worlds[i + 1] == Step(r.worlds[i], r.events[i]) by { assert r.Follows(i); }
    UnsetRestores(r.worlds[i], r.events[i], d, r.worlds[0].devices[d]);
  }

  // ------------------------------------------------------------ without failures

  ghost predicate Clean(e: Event) { e.fails == {} && e.read && (e.Apply? ==> e.write.Written?) }

  lemma {:induction false} SameDevices(r: Run, i: nat)
    requires r.Valid() && i <= |r.events|
    ensures r.worlds[i].devices.Keys == r.worlds[0].devices.Keys
  {
    if i == 0 {
    } else {
      SameDevices(r, i - 1);
      assert r.worlds[i] == Step(r.worlds[i - 1], r.events[i - 1]) by { assert r.Follows(i - 1); }
    }
  }

  // With every driver call, every read and every write succeeding, each unset returns the
  // whole machine to its initial settings, for any interleaving of applies with any
  // levels and any device lists.
  lemma {:induction false} CleanRunsRestoreEverything(r: Run, i: nat)
    requires r.Valid() && i < |r.events| && r.events[i].Unset?
    requires forall k :: 0 <= k <= i ==> Clean(r.events[k])
    requires forall d :: d in r.worlds[0].devices ==> HasSdma(r.worlds[0].devices[d])
    ensures r.worlds[i + 1].devices == r.worlds[0].devices
  {
    SameDevices(r, i + 1);
    forall d | d in r.worlds[0].devices ensures r.worlds[i + 1].devices[d] == r.worlds[0].devices[d] {
      forall k | 0 <= k <= i ensures Spares(r.worlds[k], r.events[k], d) {
        assert Clean(r.events[k]);
      }
      EveryUnsetRestores(r, i, d);
    }
  }
}
