// What each call of the tool leaves behind when some of its driver calls fail, and
// when the state file is gone.
module QosOutcomes {
  import opened Options
  import opened Arithmetic
  import opened Collections
  import opened Qos
  import opened QosRestore
  import opened QosLimits

  // ------------------------------------------------------------------- levels

  function Rank(p: Priority): nat {
    match p case Low => 0 case Middle => 1 case High => 2
  }

  // The level of a kind of traffic follows the lower of its two priorities.
  lemma {:induction false} LevelsFollowPriorities(aivD2D: Priority, aivH2D: Priority, sdmaD2D: Priority,
                                                  sdmaH2D: Priority, pcieHigh: bool)
    ensures var l := LevelsFor(aivD2D, aivH2D, sdmaD2D, sdmaH2D, pcieHigh);
            && l.aiv == 1 + 2 * Min(Rank(aivD2D), Rank(aivH2D))
            && l.sdma == 2 + 2 * Min(Rank(sdmaD2D), Rank(sdmaH2D))
            && l.pcie == if pcieHigh then 7 else 0
  {
  }

  // -------------------------------------------------------------------- apply

  // Some pass over the device reads the master and sets its level.
  ghost predicate SetsLevel(list: seq<int>, fails: set<Call>, d: int, m: int) {
    exists i :: 0 <= i < |list| && list[i] == d && TuneGet(i, m) !in fails && TuneQos(i, m) !in fails
  }

  ghost predicate SetsBandwidth(list: seq<int>, fails: set<Call>, d: int) {
    exists i :: 0 <= i < |list| && list[i] == d && TuneGet(i, SDMA) !in fails && TuneBandwidth(i) !in fails
  }

  ghost predicate SetsFuse(list: seq<int>, fails: set<Call>, d: int) {
    exists i :: 0 <= i < |list| && list[i] == d && TuneFuse(i) !in fails
  }

  // The device as the calls that succeed make it: the managed masters, the SDMA
  // bandwidth and the fuse settings each by itself, and nothing else.
  ghost predicate Parts(was: Device, now: Device, levels: Levels, masters: set<int>, limited: bool, fused: bool) {
    && now.qos.Keys == was.qos.Keys
    && (forall m :: m in was.qos ==>
          now.qos[m] == if m in masters then was.qos[m].(level := LevelFor(levels, m)) else was.qos[m])
    && now.bandwidth == (if limited && HasSdma(was) then was.bandwidth[was.qos[SDMA].mpamid := SDMA_BANDWIDTH]
                         else was.bandwidth)
    && now.fuse == if fused then FUSE_MAX else was.fuse
  }

  // The masters whose level one pass sets.
  ghost function MastersAt(k: nat, i: nat, fails: set<Call>): set<int>
    requires k <= |MASTERS|
  {
    set m | m in MASTERS[..k] && TuneGet(i, m) !in fails && TuneQos(i, m) !in fails
  }

  ghost predicate LimitsAt(k: nat, i: nat, fails: set<Call>)
    requires k <= |MASTERS|
  {
    SDMA in MASTERS[..k] && TuneGet(i, SDMA) !in fails && TuneBandwidth(i) !in fails
  }

  lemma {:induction false} PartsAdd(a: Device, b: Device, c: Device, levels: Levels, m1: set<int>, m2: set<int>,
                                    l1: bool, l2: bool, f1: bool, f2: bool)
    requires Parts(a, b, levels, m1, l1, f1) && Parts(b, c, levels, m2, l2, f2)
    ensures Parts(a, c, levels, m1 + m2, l1 || l2, f1 || f2)
  {
    assert HasSdma(a) <==> HasSdma(b);
  }

  lemma {:induction false} OneMasterParts(dev: Device, m: int, i: nat, levels: Levels, fails: set<Call>)
    ensures Parts(dev, TuneMaster(dev, m, i, levels, fails), levels,
                  if TuneGet(i, m) in fails || TuneQos(i, m) in fails then {} else {m},
                  m == SDMA && TuneGet(i, SDMA) !in fails && TuneBandwidth(i) !in fails, false)
  {
  }

  lemma {:induction false} MastersParts(dev: Device, k: nat, i: nat, levels: Levels, fails: set<Call>)
    requires k <= |MASTERS|
    ensures Parts(dev, TuneMasters(dev, k, i, levels, fails), levels, MastersAt(k, i, fails), LimitsAt(k, i, fails),
                  false)
  {
    if k == 0 {
    } else {
      var m, before := MASTERS[k - 1], TuneMasters(dev, k - 1, i, levels, fails);
      MastersParts(dev, k - 1, i, levels, fails);
      OneMasterParts(before, m, i, levels, fails);
      var one := if TuneGet(i, m) in fails || TuneQos(i, m) in fails then {} else {m};
      var limits := m == SDMA && TuneGet(i, SDMA) !in fails && TuneBandwidth(i) !in fails;
      PartsAdd(dev, before, TuneMasters(dev, k, i, levels, fails), levels, MastersAt(k - 1, i, fails), one,
        LimitsAt(k - 1, i, fails), limits, false, false);
      assert MASTERS[..k] == MASTERS[..k - 1] + [m];
      SameSet(MastersAt(k, i, fails), MastersAt(k - 1, i, fails) + one);
    }
  }

  lemma {:induction false} DeviceParts(dev: Device, i: nat, levels: Levels, fails: set<Call>)
    ensures Parts(dev, TuneDevice(dev, i, levels, fails), levels, MastersAt(|MASTERS|, i, fails),
                  LimitsAt(|MASTERS|, i, fails), TuneFuse(i) !in fails)
  {
    var fused := if TuneFuse(i) in fails then dev else dev.(fuse := FUSE_MAX);
    MastersParts(fused, |MASTERS|, i, levels, fails);
  }

  ghost function MastersOf(list: seq<int>, fails: set<Call>, d: int): set<int> {
    set m | m in MASTERS && SetsLevel(list, fails, d, m)
  }

  // The last position adds its own calls.
  lemma {:induction false} OnePassMore(list: seq<int>, fails: set<Call>, d: int, n: nat)
    requires |list| == n + 1
    ensures MastersOf(list, fails, d)
            == MastersOf(list[..n], fails, d) + if list[n] == d then MastersAt(|MASTERS|, n, fails) else {}
    ensures SetsBandwidth(list, fails, d)
            <==> SetsBandwidth(list[..n], fails, d) || (list[n] == d && LimitsAt(|MASTERS|, n, fails))
    ensures SetsFuse(list, fails, d) <==> SetsFuse(list[..n], fails, d) || (list[n] == d && TuneFuse(n) !in fails)
  {
    assert MASTERS[..|MASTERS|] == MASTERS && MASTERS[2] == SDMA;
    var before := list[..n];
    assert forall i :: 0 <= i < n ==> before[i] == list[i];
    forall m ensures SetsLevel(list, fails, d, m) <==>
        SetsLevel(before, fails, d, m) || (list[n] == d && TuneGet(n, m) !in fails && TuneQos(n, m) !in fails)
    {
      LevelPassMore(list, fails, d, n, m);
    }
    SameSet(MastersOf(list, fails, d),
      MastersOf(before, fails, d) + if list[n] == d then MastersAt(|MASTERS|, n, fails) else {});
    BandwidthPassMore(list, fails, d, n);
    FusePassMore(list, fails, d, n);
  }

  lemma {:induction false} LevelPassMore(list: seq<int>, fails: set<Call>, d: int, n: nat, m: int)
    requires |list| == n + 1
    ensures SetsLevel(list, fails, d, m) <==>
            || SetsLevel(list[..n], fails, d, m)
            || (list[n] == d && TuneGet(n, m) !in fails && TuneQos(n, m) !in fails)
  {
    if SetsLevel(list[..n], fails, d, m) {
      var i :| 0 <= i < n && list[..n][i] == d && TuneGet(i, m) !in fails && TuneQos(i, m) !in fails;
      assert list[i] == d;
    }
    assert forall i :: 0 <= i < n ==> list[..n][i] == list[i];
  }

  lemma {:induction false} BandwidthPassMore(list: seq<int>, fails: set<Call>, d: int, n: nat)
    requires |list| == n + 1
    ensures SetsBandwidth(list, fails, d) <==>
            || SetsBandwidth(list[..n], fails, d)
            || (list[n] == d && TuneGet(n, SDMA) !in fails && TuneBandwidth(n) !in fails)
  {
    if SetsBandwidth(list[..n], fails, d) {
      var i :| 0 <= i < n && list[..n][i] == d && TuneGet(i, SDMA) !in fails && TuneBandwidth(i) !in fails;
      assert list[i] == d;
    }
    assert forall i :: 0 <= i < n ==> list[..n][i] == list[i];
  }

  lemma {:induction false} FusePassMore(list: seq<int>, fails: set<Call>, d: int, n: nat)
    requires |list| == n + 1
    ensures SetsFuse(list, fails, d) <==> SetsFuse(list[..n], fails, d) || (list[n] == d && TuneFuse(n) !in fails)
  {
    if SetsFuse(list[..n], fails, d) {
      var i :| 0 <= i < n && list[..n][i] == d && TuneFuse(i) !in fails;
      assert list[i] == d;
    }
    assert forall i :: 0 <= i < n ==> list[..n][i] == list[i];
  }

  // Whatever fails, an apply sets exactly what its successful calls set: the level of
  // a managed master that some pass reads and sets, the SDMA bandwidth that some pass
  // sets, the fuse settings that some pass sets.
  lemma {:induction false} ApplyOutcome(devices: Devices, list: seq<int>, levels: Levels, fails: set<Call>, d: int)
    requires d in devices
    ensures Parts(devices[d], Tuned(devices, list, levels, fails)[d], levels, MastersOf(list, fails, d),
                  SetsBandwidth(list, fails, d), SetsFuse(list, fails, d))
  {
    if list == [] {
    } else {
      var n := |list| - 1;
      var before, now := Tuned(devices, list[..n], levels, fails)[d], Tuned(devices, list, levels, fails)[d];
      ApplyOutcome(devices, list[..n], levels, fails, d);
      OnePassMore(list, fails, d, n);
      if list[n] == d {
        DeviceParts(before, n, levels, fails);
        PartsAdd(devices[d], before, now, levels, MastersOf(list[..n], fails, d), MastersAt(|MASTERS|, n, fails),
          SetsBandwidth(list[..n], fails, d), LimitsAt(|MASTERS|, n, fails),
          SetsFuse(list[..n], fails, d), TuneFuse(n) !in fails);
      }
    }
  }

  // ------------------------------------------------------------------- capture

  // Position i is the last one that lists d.
  ghost predicate LastListed(list: seq<int>, d: int, i: nat) {
    i < |list| && list[i] == d && forall j :: i < j < |list| ==> list[j] != d
  }

  ghost predicate CapturesSdma(list: seq<int>, fails: set<Call>, d: int) {
    exists i :: 0 <= i < |list| && list[i] == d && CaptureSdma(i) !in fails && CaptureBandwidth(i) !in fails
  }

  ghost predicate CapturesFuse(list: seq<int>, fails: set<Call>, d: int) {
    exists i :: 0 <= i < |list| && list[i] == d && CaptureFuse(i) !in fails
  }

  lemma {:induction false} QosOutcome(devices: Devices, list: seq<int>, fails: set<Call>, d: int, i: nat)
    requires d in devices && LastListed(list, d, i)
    ensures d in SavedQos(devices, list, fails)
    ensures SavedQos(devices, list, fails)[d] == SavedMasters(devices, d, i, fails)
  {
    var n := |list| - 1;
    if i == n {
    } else {
      assert LastListed(list[..n], d, i);
      QosOutcome(devices, list[..n], fails, d, i);
    }
  }

  lemma {:induction false} SdmaOutcome(devices: Devices, list: seq<int>, fails: set<Call>, d: int)
    requires d in devices
    ensures d in SavedSdma(devices, list, fails) <==> HasSdma(devices[d]) && CapturesSdma(list, fails, d)
  {
    if list == [] {
    } else {
      var n := |list| - 1;
      SdmaOutcome(devices, list[..n], fails, d);
      if CapturesSdma(list[..n], fails, d) {
        var i :| 0 <= i < n && list[..n][i] == d && CaptureSdma(i) !in fails && CaptureBandwidth(i) !in fails;
        assert list[i] == d;
      }
      assert forall i :: 0 <= i < n ==> list[..n][i] == list[i];
    }
  }

  lemma {:induction false} FuseOutcome(devices: Devices, list: seq<int>, fails: set<Call>, d: int)
    requires d in devices
    ensures d in SavedFuse(devices, list, fails) <==> CapturesFuse(list, fails, d)
  {
    if list == [] {
    } else {
      var n := |list| - 1;
      FuseOutcome(devices, list[..n], fails, d);
      if CapturesFuse(list[..n], fails, d) {
        var i :| 0 <= i < n && list[..n][i] == d && CaptureFuse(i) !in fails;
        assert list[i] == d;
      }
      assert forall i :: 0 <= i < n ==> list[..n][i] == list[i];
    }
  }

  // Whatever fails, a capture records of a listed device its present settings: of the
  // masters those that the last pass over it reads, and the SDMA bandwidth and the
  // fuse settings if some pass reads them.
  lemma {:induction false} CaptureOutcome(devices: Devices, list: seq<int>, fails: set<Call>, d: int, i: nat)
    requires d in devices && LastListed(list, d, i)
    ensures var b, dev := Captured(devices, list, fails), devices[d];
            && d in b.qos
            && (forall m :: m in b.qos[d] <==> m in MASTERS && m in dev.qos && CaptureQos(i, m) !in fails)
            && (d in b.sdma <==> HasSdma(dev) && CapturesSdma(list, fails, d))
            && (d in b.fuse <==> CapturesFuse(list, fails, d))
            && Current(b, d, dev)
  {
    QosOutcome(devices, list, fails, d, i);
    SdmaOutcome(devices, list, fails, d);
    FuseOutcome(devices, list, fails, d);
    CapturesAreCurrent(devices, list, fails, d);
  }

  // --------------------------------------------------------- apply, then unset

  lemma {:induction false} LastListing(list: seq<int>, d: int) returns (i: nat)
    requires d in list
    ensures LastListed(list, d, i)
  {
    var n := |list| - 1;
    assert list == list[..n] + [list[n]];
    if list[n] == d {
      i := n;
    } else {
      i := LastListing(list[..n], d);
    }
  }

  // All that the device has of the managed settings, recorded.
  ghost predicate Whole(b: Baseline, d: int, dev: Device) {
    && d in b.qos && b.qos[d] == Managed(dev) && d in b.fuse && b.fuse[d] == dev.fuse
    && (d in b.sdma <==> HasSdma(dev)) && (d in b.sdma && HasSdma(dev) ==> b.sdma[d] == MataOf(dev))
  }

  lemma {:induction false} CaptureIsWhole(devices: Devices, list: seq<int>, fails: set<Call>, d: int)
    requires d in devices && d in list && CapturesSucceed(list, fails, d)
    ensures Whole(Captured(devices, list, fails), d, devices[d])
  {
    var i := LastListing(list, d);
    CaptureOutcome(devices, list, fails, d, i);
    SameTable(Captured(devices, list, fails).qos[d], Managed(devices[d]));
  }

  lemma {:induction false} RestoreParts(was: Device, now: Device, levels: Levels, masters: set<int>, limited: bool,
                                        fused: bool, b: Baseline, d: int, fails: set<Call>)
    requires Parts(was, now, levels, masters, limited, fused) && (forall m :: m in masters ==> m in MASTERS)
    requires Whole(b, d, was) && RestoresSucceed(fails, d)
    ensures RestoredDevice(now, d, b, fails) == was
  {
    SameTable(RestoredQos(now, d, b, fails), was.qos);
    SameTable(RestoredBandwidth(now, d, b, fails), was.bandwidth);
  }

  // One apply from a machine without a file, and an unset: every device gets all its
  // settings back, with or without an SDMA bandwidth, whatever calls fail that tune it
  // or are about other devices.
  lemma {:induction false} OneApplyRestores(w: World, a: Event, u: Event, d: int)
    requires w.file.NoFile? && a.Apply? && a.write.Written? && u.Unset? && u.read && d in w.devices
    requires CapturesSucceed(a.list, a.fails, d) && RestoresSucceed(u.fails, d)
    ensures d in Step(Step(w, a), u).devices && Step(Step(w, a), u).devices[d] == w.devices[d]
  {
    var b, now := Captured(w.devices, a.list, a.fails), Tuned(w.devices, a.list, a.levels, a.fails)[d];
    if d in a.list {
      CaptureIsWhole(w.devices, a.list, a.fails, d);
      ApplyOutcome(w.devices, a.list, a.levels, a.fails, d);
      RestoreParts(w.devices[d], now, a.levels, MastersOf(a.list, a.fails, d), SetsBandwidth(a.list, a.fails, d),
        SetsFuse(a.list, a.fails, d), b, d, u.fails);
    } else {
      TunedElsewhere(w.devices, a.list, a.levels, a.fails, d);
      CaptureElsewhere(w.devices, a.list, a.fails, d);
      RestoreElsewhere(now, b, d, u.fails);
    }
  }

  // ------------------------------------------------------------ the state file

  // The file is absent after an unset exactly when it was before or could be removed;
  // one that could not stays as it was.
  lemma {:induction false} UnsetRemovesIff(w: World, e: Event)
    requires e.Unset?
    ensures Step(w, e).file.NoFile? <==> w.file.NoFile? || e.removed
    ensures !e.removed ==> Step(w, e).file == w.file
  {
  }

  // Every device with an SDMA bandwidth whose captures succeed is recorded with the
  // given settings if it is listed, and not at all otherwise.
  ghost predicate Records(f: File, devices: Devices, list: seq<int>, fails: set<Call>) {
    && f.Snapshot?
    && forall d :: d in devices && HasSdma(devices[d]) && CapturesSucceed(list, fails, d) ==>
         if d in list then Holds(f.baseline, d, devices[d]) else Absent(f.baseline, d)
  }

  // After an unset that leaves no file a new episode begins: another unset has nothing
  // to undo and changes nothing, and an apply that is written records the settings
  // that the devices have then.
  lemma {:induction false} UnsetEndsEpisode(r: Run, i: nat)
    requires r.Valid() && i + 1 < |r.events| && r.events[i].Unset?
    requires r.worlds[i].file.NoFile? || r.events[i].removed
    ensures r.events[i + 1].Unset? ==> r.worlds[i + 2] == r.worlds[i + 1]
    ensures var e := r.events[i + 1];
            e.Apply? && e.write.Written? ==>
              Records(r.worlds[i + 2].file, r.worlds[i + 1].devices, e.list, e.fails)
  {
    var w, e := r.worlds[i + 1], r.events[i + 1];
    UnsetRemovesIff(r.worlds[i], r.events[i]);
    assert r.Follows(i) && r.Follows(i + 1);
    if e.Apply? && e.write.Written? {
      WrittenAnew(w, e);
    }
  }

  lemma {:induction false} WrittenAnew(w: World, e: Event)
    requires w.file.NoFile? && e.Apply? && e.write.Written?
    ensures Records(Step(w, e).file, w.devices, e.list, e.fails)
  {
    forall d | d in w.devices && HasSdma(w.devices[d]) && CapturesSucceed(e.list, e.fails, d)
      ensures if d in e.list then Holds(Captured(w.devices, e.list, e.fails), d, w.devices[d])
              else Absent(Captured(w.devices, e.list, e.fails), d)
    {
      CaptureHolds(w.devices, e.list, e.fails, d);
    }
  }

  // What a written apply makes of a file that it could read: complete devices and
  // devices that are not listed keep their entries; the others get what is captured
  // of them now, and keep the rest.
  lemma {:induction false} MergeOutcome(devices: Devices, b: Baseline, list: seq<int>, fails: set<Call>, d: int)
    ensures var next, c := NextBaseline(devices, Some(b), list, fails), Captured(devices, Missing(b, list), fails);
            if d in list && !Complete(b, d) then
              && d in next.qos && d in c.qos && next.qos[d] == c.qos[d]
              && (d in next.sdma <==> d in c.sdma || d in b.sdma)
              && (d in next.sdma ==> next.sdma[d] == if d in c.sdma then c.sdma[d] else b.sdma[d])
              && (d in next.fuse <==> d in c.fuse || d in b.fuse)
              && (d in next.fuse ==> next.fuse[d] == if d in c.fuse then c.fuse[d] else b.fuse[d])
            else SameOf(next, b, d)
  {
    var missing := Missing(b, list);
    if d in missing {
      ListedIsCaptured(devices, missing, fails, d);
    } else {
      CaptureElsewhere(devices, missing, fails, d);
    }
  }

  ghost predicate SameOf(a: Baseline, b: Baseline, d: int) {
    && (d in a.qos <==> d in b.qos) && (d in a.qos && d in b.qos ==> a.qos[d] == b.qos[d])
    && (d in a.sdma <==> d in b.sdma) && (d in a.sdma && d in b.sdma ==> a.sdma[d] == b.sdma[d])
    && (d in a.fuse <==> d in b.fuse) && (d in a.fuse && d in b.fuse ==> a.fuse[d] == b.fuse[d])
  }

  lemma {:induction false} ListedIsCaptured(devices: Devices, list: seq<int>, fails: set<Call>, d: int)
    requires d in list
    ensures d in SavedQos(devices, list, fails)
  {
    var n := |list| - 1;
    assert list == list[..n] + [list[n]];
    if list[n] != d {
      ListedIsCaptured(devices, list[..n], fails, d);
    }
  }
}
