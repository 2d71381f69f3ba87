// What an apply amounts to, and where the promise of unset ends.
module QosLimits {
  import opened Collections
  import opened Qos
  import opened QosRestore

  // ------------------------------------------------------- what an apply sets

  // The settings an apply without failures gives a device.
  function Target(dev: Device, levels: Levels): Device {
    TargetOf(dev.(fuse := FUSE_MAX), |MASTERS|, levels)
  }

  predicate Among(m: int, k: nat)
    requires k <= |MASTERS|
  {
    exists j :: 0 <= j < k && MASTERS[j] == m
  }

  // The same for the first k masters only.
  function TargetOf(dev: Device, k: nat, levels: Levels): Device
    requires k <= |MASTERS|
  {
    Device(map m | m in dev.qos :: if Among(m, k) then dev.qos[m].(level := LevelFor(levels, m)) else dev.qos[m],
           if Among(SDMA, k) && HasSdma(dev) then dev.bandwidth[dev.qos[SDMA].mpamid := SDMA_BANDWIDTH]
           else dev.bandwidth,
           dev.fuse)
  }

  lemma {:induction false} OneMasterMore(dev: Device, k: nat, i: nat, levels: Levels)
    requires k < |MASTERS|
    ensures TuneMaster(TargetOf(dev, k, levels), MASTERS[k], i, levels, {}) == TargetOf(dev, k + 1, levels)
  {
    var m := MASTERS[k];
    var before, after := TargetOf(dev, k, levels), TargetOf(dev, k + 1, levels);
    assert forall x :: Among(x, k + 1) <==> Among(x, k) || x == m;
    assert !Among(m, k);
    assert TuneMaster(before, m, i, levels, {}).qos == after.qos;
  }

  lemma {:induction false} TuneMastersReach(dev: Device, k: nat, i: nat, levels: Levels)
    requires k <= |MASTERS|
    ensures TuneMasters(dev, k, i, levels, {}) == TargetOf(dev, k, levels)
  {
    if k == 0 {
      assert TargetOf(dev, 0, levels).qos == dev.qos;
    } else {
      TuneMastersReach(dev, k - 1, i, levels);
      OneMasterMore(dev, k - 1, i, levels);
    }
  }

  // Tuning master by master reaches the target.
  lemma {:induction false} TuneReachesTarget(dev: Device, i: nat, levels: Levels)
    ensures TuneDevice(dev, i, levels, {}) == Target(dev, levels)
  {
    TuneMastersReach(dev.(fuse := FUSE_MAX), |MASTERS|, i, levels);
  }

  // Of several applies to a device only the last matters.
  lemma {:induction false} LastTargetWins(dev: Device, earlier: Levels, later: Levels)
    ensures Target(Target(dev, earlier), later) == Target(dev, later)
  {
    assert Target(Target(dev, earlier), later).qos == Target(dev, later).qos;
  }

  // An apply without failures gives each listed device its target, however often
  // it is listed, and leaves the others alone.
  lemma {:induction false} ApplyReachesTarget(devices: Devices, list: seq<int>, levels: Levels, d: int)
    requires d in devices
    ensures Tuned(devices, list, levels, {})[d] == if d in list then Target(devices[d], levels) else devices[d]
  {
    if list == [] {
    } else {
      var n := |list| - 1;
      assert list == list[..n] + [list[n]];
      ApplyReachesTarget(devices, list[..n], levels, d);
      TuneReachesTarget(Tuned(devices, list[..n], levels, {})[d], n, levels);
      LastTargetWins(devices[d], levels, levels);
    }
  }

  // Spelled out: masters 11 and 12 get the AIV level, 13 the SDMA level and 7 the
  // PCIe DMA level, each keeping its other settings; the SDMA master's MPAM id gets
  // bandwidth 0-1 without a hard limit, and the fuse settings are all 1.
  lemma {:induction false} ApplySetsLevels(devices: Devices, list: seq<int>, levels: Levels, d: int)
    requires d in devices && d in list
    ensures var was, now := devices[d], Tuned(devices, list, levels, {})[d];
            && now.fuse == Fuse(1, 1, 1) && now.qos.Keys == was.qos.Keys
            && (forall m :: m in was.qos ==>
                  now.qos[m] == if m == 11 || m == 12 then was.qos[m].(level := levels.aiv)
                                else if m == 13 then was.qos[m].(level := levels.sdma)
                                else if m == 7 then was.qos[m].(level := levels.pcie)
                                else was.qos[m])
            && (HasSdma(was) ==> now.bandwidth == was.bandwidth[was.qos[13].mpamid := Bandwidth(0, 1, 0)])
            && (!HasSdma(was) ==> now.bandwidth == was.bandwidth)
  {
    ApplyReachesTarget(devices, list, levels, d);
    assert MASTERS[0] == 11 && MASTERS[1] == 12 && MASTERS[2] == 13 && MASTERS[3] == 7;
    assert forall m :: Among(m, |MASTERS|) <==> m == 11 || m == 12 || m == 13 || m == 7;
  }

  // ------------------------------------------------- when unset restores exactly

  // The calls that fail in an unset are about settings that are already back.
  ghost predicate FailuresHarmless(now: Device, first: Device, d: int, fails: set<Call>)
    requires HasSdma(first) && Shape(first, now)
  {
    && (RestoreFuse(d) in fails ==> now.fuse == first.fuse)
    && (RestoreBandwidth(d) in fails ==> MataOf(now) == MataOf(first))
    && forall m :: m in MASTERS && m in first.qos && RestoreQos(d, m) in fails ==> now.qos[m] == first.qos[m]
  }

  lemma {:induction false} UnsetRestoresIff(first: Device, now: Device, b: Baseline, d: int, fails: set<Call>)
    requires HasSdma(first) && Shape(first, now) && Holds(b, d, first)
    ensures RestoredDevice(now, d, b, fails) == first
            <==> FailuresHarmless(now, first, d, fails)
  {
    var qos, bandwidth := RestoredQos(now, d, b, fails), RestoredBandwidth(now, d, b, fails);
    QosBackIff(first, now, b, d, fails);
    BandwidthBackIff(first, now, b, d, fails);
  }

  lemma {:induction false} QosBackIff(first: Device, now: Device, b: Baseline, d: int, fails: set<Call>)
    requires HasSdma(first) && Shape(first, now) && Holds(b, d, first)
    ensures RestoredQos(now, d, b, fails) == first.qos <==>
            forall m :: m in MASTERS && m in first.qos && RestoreQos(d, m) in fails ==> now.qos[m] == first.qos[m]
  {
    var qos := RestoredQos(now, d, b, fails);
    forall m | m in first.qos
      ensures qos[m] == first.qos[m] <==> (m in MASTERS && RestoreQos(d, m) in fails ==> now.qos[m] == first.qos[m])
    {
      assert m in MASTERS <==> m in Managed(first);
    }
    SameTable(qos, first.qos);
  }

  lemma {:induction false} BandwidthBackIff(first: Device, now: Device, b: Baseline, d: int, fails: set<Call>)
    requires HasSdma(first) && Shape(first, now) && Holds(b, d, first)
    ensures RestoredBandwidth(now, d, b, fails) == first.bandwidth <==>
            (RestoreBandwidth(d) in fails ==> MataOf(now) == MataOf(first))
  {
    var bandwidth, id := RestoredBandwidth(now, d, b, fails), first.qos[SDMA].mpamid;
    assert bandwidth.Keys == first.bandwidth.Keys;
    assert now.qos[SDMA].mpamid == id;
    assert forall k :: k in first.bandwidth && k != id ==> bandwidth[k] == first.bandwidth[k];
    SameTable(bandwidth, first.bandwidth);
  }

  // ------------------------------------------- devices that cannot be captured

  ghost predicate Undone(r: Run, i: nat, d: int)
    requires r.Valid() && i < |r.events|
  {
    d in r.worlds[0].devices && d in r.worlds[i + 1].devices && r.worlds[i + 1].devices[d] == r.worlds[0].devices[d]
  }

  // The levels that some choice of priorities leads to.
  predicate Offered(l: Levels) { l.aiv in {1, 3, 5} && l.sdma in {2, 4, 6} && l.pcie in {0, 7} }

  lemma {:induction false} OfferedIff(l: Levels)
    ensures Offered(l) <==> exists a, b, c, d, high :: LevelsFor(a, b, c, d, high) == l
  {
    if Offered(l) {
      var a := if l.aiv == 1 then Low else if l.aiv == 3 then Middle else High;
      var c := if l.sdma == 2 then Low else if l.sdma == 4 then Middle else High;
      assert LevelsFor(a, a, c, c, l.pcie == 7) == l;
    }
  }

  ghost predicate CleanUnset(r: Run, i: nat)
    requires r.Valid()
  {
    && i < |r.events| && r.events[i].Unset?
    && forall k :: 0 <= k <= i ==> Clean(r.events[k]) && (r.events[k].Apply? ==> Offered(r.events[k].levels))
  }

  // Every unset of every run without failures, at levels the tool offers, returns d
  // to its initial settings.
  ghost predicate AlwaysRestored(devices: Devices, d: int) {
    forall r: Run, i: nat :: (r.Valid() && r.worlds[0].devices == devices && CleanUnset(r, i)) ==> Undone(r, i, d)
  }

  // There is nothing on the device for an apply to change.
  ghost predicate Immune(dev: Device) { dev.fuse == FUSE_MAX && Managed(dev) == map[] }

  // Two applies and an unset, on one device.  The first apply finds no file; the
  // writes and the read of the second apply end as given.
  ghost predicate Twice(r: Run, d: int, levels: Levels, first: Write, read: bool, second: Write) {
    && r.Valid() && |r.events| == 3
    && r.events[0] == Apply([d], levels, {}, true, first)
    && r.events[1] == Apply([d], levels, {}, read, second)
    && r.events[2] == Unset({}, true, true)
  }

  lemma {:induction false} MakeTwice(devices: Devices, d: int, levels: Levels, first: Write, read: bool, second: Write)
    returns (r: Run)
    ensures Twice(r, d, levels, first, read, second) && r.worlds[0].devices == devices
  {
    var a, b, u := Apply([d], levels, {}, true, first), Apply([d], levels, {}, read, second), Unset({}, true, true);
    var w0 := World(devices, NoFile);
    var w1 := Step(w0, a);
    var w2 := Step(w1, b);
    r := Run([a, b, u], [w0, w1, w2, Step(w2, u)]);
    assert r.Follows(0) && r.Follows(1) && r.Follows(2);
  }

  lemma {:induction false} CapturedOne(devices: Devices, d: int)
    requires d in devices
    ensures var b := Captured(devices, [d], {});
            && d in b.qos && b.qos[d] == Managed(devices[d])
            && d in b.fuse && b.fuse[d] == devices[d].fuse
            && (d in b.sdma <==> HasSdma(devices[d]))
  {
    assert [d][..0] == [];
    assert SavedSdma(devices, [], {}) == map[];
    assert SavedMasters(devices, d, 0, {}) == Managed(devices[d]);
  }

  lemma {:induction false} MissingOne(b: Baseline, d: int)
    requires !Complete(b, d)
    ensures Missing(b, [d]) == [d]
  {
    assert [d][..0] == [];
  }

  // An apply to one device that captures it: a written file has the settings as
  // they were, and the device has the new ones.
  lemma {:induction false} ApplyToOne(w: World, d: int, levels: Levels, read: bool, write: Write)
    requires d in w.devices && (read && w.file.Snapshot? ==> !Complete(w.file.baseline, d))
    ensures var v := Step(w, Apply([d], levels, {}, read, write));
            && d in v.devices && v.devices[d] == Target(w.devices[d], levels)
            && (write.Kept? ==> v.file == w.file) && (write.Lost? ==> v.file.Damaged?)
            && (write.Written? ==> v.file.Snapshot?
                                   && d in v.file.baseline.qos && v.file.baseline.qos[d] == Managed(w.devices[d])
                                   && d in v.file.baseline.fuse && v.file.baseline.fuse[d] == w.devices[d].fuse)
            && (write.Written? && !w.file.Snapshot? ==> (d in v.file.baseline.sdma <==> HasSdma(w.devices[d])))
  {
    CapturedOne(w.devices, d);
    if w.file.Snapshot? && read {
      MissingOne(w.file.baseline, d);
    }
    ApplyReachesTarget(w.devices, [d], levels, d);
  }

  lemma {:induction false} TargetLevels(dev: Device, levels: Levels, m: int)
    requires m in Managed(dev)
    ensures m in Managed(Target(dev, levels)) && Target(dev, levels).qos[m].level == LevelFor(levels, m)
  {
    var j :| 0 <= j < |MASTERS| && MASTERS[j] == m;
    assert Among(m, |MASTERS|);
  }

  lemma {:induction false} UnsetBringsBack(w: World, d: int)
    requires d in w.devices && w.file.Snapshot? && d in w.file.baseline.qos && d in w.file.baseline.fuse
    ensures var v := Step(w, Unset({}, true, true));
            && d in v.devices && v.devices[d].fuse == w.file.baseline.fuse[d]
            && forall m :: m in w.file.baseline.qos[d] && m in w.devices[d].qos ==>
                 m in v.devices[d].qos && v.devices[d].qos[m] == w.file.baseline.qos[d][m]
  {
  }

  // The settings of a device that an apply has already tuned.
  ghost predicate Reached(first: Device, now: Device, levels: Levels) {
    && now.fuse == FUSE_MAX
    && forall m :: m in Managed(first) ==> m in now.qos && now.qos[m].level == LevelFor(levels, m)
  }

  lemma {:induction false} ForgetsInTwo(w: World, d: int, levels: Levels, read: bool, first: Device)
    requires d in w.devices && (read && w.file.Snapshot? ==> !Complete(w.file.baseline, d))
    requires w.devices[d] == Target(first, levels)
    ensures var v := Step(Step(w, Apply([d], levels, {}, read, Written)), Unset({}, true, true));
            d in v.devices && Reached(first, v.devices[d], levels)
  {
    var w2 := Step(w, Apply([d], levels, {}, read, Written));
    ApplyToOne(w, d, levels, read, Written);
    UnsetBringsBack(w2, d);
    forall m | m in Managed(first)
      ensures m in w2.file.baseline.qos[d] && m in w2.devices[d].qos
      ensures w2.file.baseline.qos[d][m].level == LevelFor(levels, m)
    {
      TargetLevels(first, levels, m);
      TargetLevels(w.devices[d], levels, m);
    }
  }

  // Without an SDMA bandwidth to save, without the first file, or without reading
  // it, the second apply takes the settings of the first one for the original, and
  // unset brings those back.
  lemma {:induction false} SecondApplyForgets(r: Run, d: int, levels: Levels, first: Write, read: bool)
    requires Twice(r, d, levels, first, read, Written)
    requires d in r.worlds[0].devices && (!first.Written? || !read || !HasSdma(r.worlds[0].devices[d]))
    ensures d in r.worlds[3].devices && Reached(r.worlds[0].devices[d], r.worlds[3].devices[d], levels)
  {
    assert r.Follows(0) && r.Follows(1) && r.Follows(2);
    ApplyToOne(r.worlds[0], d, levels, true, first);
    ForgetsInTwo(r.worlds[1], d, levels, read, r.worlds[0].devices[d]);
  }

  // A device that the first apply captured keeps its target through a second one.
  lemma {:induction false} ApplyAgain(w: World, d: int, levels: Levels, first: Device, read: bool, write: Write)
    requires d in w.devices && w.devices[d] == Target(first, levels)
    ensures var v := Step(w, Apply([d], levels, {}, read, write));
            d in v.devices && v.devices[d] == Target(first, levels)
  {
    ApplyReachesTarget(w.devices, [d], levels, d);
    LastTargetWins(first, levels, levels);
  }

  // When the second apply truncates the file and stops there, the first snapshot is
  // gone: unset removes the file, and the device keeps the applied settings.
  lemma {:induction false} LostOverwriteForgets(r: Run, d: int, levels: Levels, read: bool)
    requires Twice(r, d, levels, Written, read, Lost) && d in r.worlds[0].devices
    ensures r.worlds[3].file.NoFile? && d in r.worlds[3].devices
    ensures r.worlds[3].devices[d] == Target(r.worlds[0].devices[d], levels)
  {
    assert r.Follows(0) && r.Follows(1) && r.Follows(2);
    ApplyToOne(r.worlds[0], d, levels, true, Written);
    ApplyAgain(r.worlds[1], d, levels, r.worlds[0].devices[d], read, Lost);
  }

  // Restoring a device to the settings it has changes nothing.
  lemma {:induction false} RestoreOfCurrent(dev: Device, b: Baseline, d: int, fails: set<Call>)
    requires Current(b, d, dev)
    ensures RestoredDevice(dev, d, b, fails) == dev
  {
    assert RestoredQos(dev, d, b, fails) == dev.qos;
    assert RestoredBandwidth(dev, d, b, fails) == dev.bandwidth;
  }

  // When the second apply writes the file without having read it, the first
  // snapshot is gone too: the file holds the applied settings, and unset restores
  // those.
  lemma {:induction false} UnreadOverwriteForgets(r: Run, d: int, levels: Levels)
    requires Twice(r, d, levels, Written, false, Written) && d in r.worlds[0].devices
    ensures d in r.worlds[3].devices && r.worlds[3].devices[d] == Target(r.worlds[0].devices[d], levels)
  {
    assert r.Follows(0) && r.Follows(1) && r.Follows(2);
    ApplyToOne(r.worlds[0], d, levels, true, Written);
    ApplyAgain(r.worlds[1], d, levels, r.worlds[0].devices[d], false, Written);
    CapturesAreCurrent(r.worlds[1].devices, [d], {}, d);
    RestoreOfCurrent(r.worlds[2].devices[d], r.worlds[2].file.baseline, d, {});
  }

  lemma {:induction false} TwiceSpares(r: Run, d: int, levels: Levels, read: bool, second: Write)
    requires Twice(r, d, levels, Written, read, second) && (second.Kept? || (second.Written? && read))
    requires d in r.worlds[0].devices && HasSdma(r.worlds[0].devices[d])
    ensures forall k :: 0 <= k <= 2 ==> Spares(r.worlds[k], r.events[k], d)
  {
    assert r.Follows(0);
    ApplyToOne(r.worlds[0], d, levels, true, Written);
    assert Spares(r.worlds[0], r.events[0], d);
    assert Complete(r.worlds[1].file.baseline, d);
    assert read ==> d !in ToCapture(Loaded(r.worlds[1].file, read), [d]);
    assert Spares(r.worlds[1], r.events[1], d);
    assert Spares(r.worlds[2], r.events[2], d);
  }

  // A device with an SDMA bandwidth and other settings than the applied ones: the
  // same run restores it exactly when the second apply cannot open the file for
  // writing, or has read it and writes it.
  lemma {:induction false} OverwriteIff(r: Run, d: int, levels: Levels, read: bool, second: Write)
    requires Twice(r, d, levels, Written, read, second) && d in r.worlds[0].devices
    requires HasSdma(r.worlds[0].devices[d]) && Target(r.worlds[0].devices[d], levels) != r.worlds[0].devices[d]
    ensures d in r.worlds[3].devices && r.worlds[3].devices[d] == r.worlds[0].devices[d]
            <==> second.Kept? || (second.Written? && read)
  {
    if second.Lost? {
      LostOverwriteForgets(r, d, levels, read);
    } else if second.Written? && !read {
      UnreadOverwriteForgets(r, d, levels);
    } else {
      TwiceSpares(r, d, levels, read, second);
      EveryUnsetRestores(r, 2, d);
    }
  }

  ghost function FirstManaged(dev: Device): (m: int)
    ensures Managed(dev) != map[] ==> m in Managed(dev)
  {
    if exists m :: m in Managed(dev) then (var m :| m in Managed(dev); m)
    else
      assert Managed(dev) == map[];
      0
  }

  // Offered levels that the device's first managed master does not have.
  ghost function OtherLevels(dev: Device): (l: Levels)
    ensures Offered(l)
    ensures Managed(dev) != map[] ==>
              FirstManaged(dev) in dev.qos && LevelFor(l, FirstManaged(dev)) != dev.qos[FirstManaged(dev)].level
  {
    var m := FirstManaged(dev);
    var now := if m in dev.qos then dev.qos[m].level else 0;
    Levels(if now == 1 then 3 else 1, if now == 2 then 4 else 2, if now == 0 then 7 else 0)
  }

  lemma {:induction false} ReachedDiffers(first: Device, now: Device)
    requires !Immune(first) && Reached(first, now, OtherLevels(first))
    ensures now != first
  {
    if now.fuse == first.fuse {
      assert FirstManaged(first) in Managed(first);
    }
  }

  lemma {:induction false} OneBrokenRun(r: Run, i: nat, d: int)
    requires r.Valid() && CleanUnset(r, i) && !Undone(r, i, d)
    ensures !AlwaysRestored(r.worlds[0].devices, d)
  {
  }

  lemma {:induction false} UncapturedIsNotRestored(devices: Devices, d: int)
    requires d in devices && !HasSdma(devices[d]) && !Immune(devices[d])
    ensures !AlwaysRestored(devices, d)
  {
    var r := MakeTwice(devices, d, OtherLevels(devices[d]), Written, true, Written);
    SecondApplyForgets(r, d, OtherLevels(devices[d]), Written, true);
    ReachedDiffers(devices[d], r.worlds[3].devices[d]);
    OneBrokenRun(r, 2, d);
  }

  // What is captured is what the device has.
  ghost predicate Current(b: Baseline, d: int, dev: Device) {
    && (d in b.qos ==> b.qos[d].Keys <= Managed(dev).Keys && forall m :: m in b.qos[d] ==> b.qos[d][m] == dev.qos[m])
    && (d in b.sdma ==> HasSdma(dev) && b.sdma[d] == MataOf(dev))
    && (d in b.fuse ==> b.fuse[d] == dev.fuse)
  }

  lemma {:induction false} CapturesAreCurrent(devices: Devices, list: seq<int>, fails: set<Call>, d: int)
    requires d in devices
    ensures Current(Captured(devices, list, fails), d, devices[d])
  {
    if list == [] {
    } else {
      CapturesAreCurrent(devices, list[..|list| - 1], fails, d);
    }
  }

  // An immune device never changes, and the file never says anything else about it.
  ghost predicate Still(w: World, d: int, dev: Device) {
    d in w.devices && w.devices[d] == dev && (w.file.Snapshot? ==> Current(w.file.baseline, d, dev))
  }

  lemma {:induction false} ImmuneStaysStill(w: World, e: Event, d: int, dev: Device)
    requires Immune(dev) && !HasSdma(dev) && Still(w, d, dev) && e.fails == {}
    ensures Still(Step(w, e), d, dev)
  {
    if e.Apply? {
      CapturesAreCurrent(w.devices, ToCapture(Loaded(w.file, e.read), e.list), e.fails, d);
      ApplyReachesTarget(w.devices, e.list, e.levels, d);
      ImmuneTarget(dev, e.levels);
    } else if w.file.Snapshot? {
      assert RestoredQos(dev, d, w.file.baseline, {}) == dev.qos;
    }
  }

  lemma {:induction false} ImmuneTarget(dev: Device, levels: Levels)
    requires Immune(dev) && !HasSdma(dev)
    ensures Target(dev, levels) == dev
  {
    forall m | m in dev.qos ensures !Among(m, |MASTERS|) {
      assert m !in Managed(dev);
    }
    assert Target(dev, levels).qos == dev.qos;
  }

  lemma {:induction false} ImmuneRunStaysStill(r: Run, i: nat, d: int, dev: Device)
    requires r.Valid() && i <= |r.events| && d in r.worlds[0].devices && dev == r.worlds[0].devices[d]
    requires Immune(dev) && !HasSdma(dev) && forall k :: 0 <= k < i ==> Clean(r.events[k])
    ensures Still(r.worlds[i], d, dev)
  {
    if i == 0 {
    } else {
      ImmuneRunStaysStill(r, i - 1, d, dev);
      assert r.worlds[i] == Step(r.worlds[i - 1], r.events[i - 1]) by { assert r.Follows(i - 1); }
      ImmuneStaysStill(r.worlds[i - 1], r.events[i - 1], d, dev);
    }
  }

  lemma {:induction false} CleanUnsetRestores(r: Run, i: nat, d: int)
    requires r.Valid() && CleanUnset(r, i) && d in r.worlds[0].devices && HasSdma(r.worlds[0].devices[d])
    ensures Undone(r, i, d)
  {
    forall k | 0 <= k <= i ensures Spares(r.worlds[k], r.events[k], d) {
      assert Clean(r.events[k]);
    }
    EveryUnsetRestores(r, i, d);
  }

  // Runs without failures, at the levels the tool offers, always give a device its
  // settings back exactly when it has an SDMA bandwidth to save, or nothing to change.
  lemma {:induction false} AlwaysRestoredIff(devices: Devices, d: int)
    requires d in devices
    ensures AlwaysRestored(devices, d) <==> HasSdma(devices[d]) || Immune(devices[d])
  {
    if HasSdma(devices[d]) || Immune(devices[d]) {
      forall r: Run, i: nat | r.Valid() && r.worlds[0].devices == devices && CleanUnset(r, i) ensures Undone(r, i, d) {
        if HasSdma(devices[d]) {
          CleanUnsetRestores(r, i, d);
        } else {
          ImmuneRunStaysStill(r, i + 1, d, devices[d]);
        }
      }
    } else {
      UncapturedIsNotRestored(devices, d);
    }
  }
}
