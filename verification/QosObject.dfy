// The tool itself: the driver's device settings and the state file, changed in
// place by the loops of apply and unset.
module QosObject {
  import opened Options
  import opened Collections
  import opened Qos

  // Copies every entry of one table into another.
  method Update<V>(into: map<int, V>, from: map<int, V>) returns (r: map<int, V>)
    ensures r == into + from
  {
    r := into;
    var todo := from.Keys;
    while todo != {}
      invariant todo <= from.Keys
      invariant r.Keys == into.Keys + (from.Keys - todo)
      invariant forall k :: k in r ==> r[k] == if k in from && k !in todo then from[k] else into[k]
      decreases todo
    {
      SomeMember(todo);
      var k :| k in todo;
      r := r[k := from[k]];
      todo := todo - {k};
    }
    SameTable(r, into + from);
  }

  datatype UnsetEnd = Undone | NothingToUndo | ParseFailed

  class AiQos {
    var devices: Devices
    var file: File

    constructor (devices: Devices)
      ensures this.devices == devices && file.NoFile?
    {
      this.devices, file := devices, NoFile;
    }

    function World(): World
      reads this
    {
      Qos.World(devices, file)
    }

    // ------------------------------------------------------- driver calls

    method GetQos(d: int, m: int, ok: bool) returns (r: Option<Config>)
      ensures r == if ok && d in devices && m in devices[d].qos then Some(devices[d].qos[m]) else None
    {
      return if ok && d in devices && m in devices[d].qos then Some(devices[d].qos[m]) else None;
    }

    method SetQos(d: int, m: int, cfg: Config, ok: bool)
      modifies this`devices
      ensures devices == if ok && d in old(devices) && m in old(devices)[d].qos
                         then old(devices)[d := old(devices)[d].(qos := old(devices)[d].qos[m := cfg])]
                         else old(devices)
    {
      if ok && d in devices && m in devices[d].qos {
        devices := devices[d := devices[d].(qos := devices[d].qos[m := cfg])];
      }
    }

    method GetBandwidth(d: int, id: int, ok: bool) returns (r: Option<Bandwidth>)
      ensures r == if ok && d in devices && id in devices[d].bandwidth then Some(devices[d].bandwidth[id]) else None
    {
      return if ok && d in devices && id in devices[d].bandwidth then Some(devices[d].bandwidth[id]) else None;
    }

    method SetBandwidth(d: int, id: int, to: Bandwidth, ok: bool)
      modifies this`devices
      ensures devices == if ok && d in old(devices) && id in old(devices)[d].bandwidth
                         then old(devices)[d := old(devices)[d].(bandwidth := old(devices)[d].bandwidth[id := to])]
                         else old(devices)
    {
      if ok && d in devices && id in devices[d].bandwidth {
        devices := devices[d := devices[d].(bandwidth := devices[d].bandwidth[id := to])];
      }
    }

    method SetFuse(d: int, to: Fuse, ok: bool)
      modifies this`devices
      ensures devices == if ok && d in old(devices) then old(devices)[d := old(devices)[d].(fuse := to)]
                         else old(devices)
    {
      if ok && d in devices {
        devices := devices[d := devices[d].(fuse := to)];
      }
    }

    // ------------------------------------------------------------- capture

    method CaptureMasters(d: int, i: nat, fails: set<Call>) returns (saved: map<int, Config>)
      ensures saved == SavedMasters(devices, d, i, fails)
    {
      saved := map[];
      for k := 0 to |MASTERS|
        invariant forall m :: m in saved <==>
                    m in MASTERS[..k] && d in devices && m in devices[d].qos && Call.CaptureQos(i, m) !in fails
        invariant forall m :: m in saved ==> saved[m] == devices[d].qos[m]
      {
        var m := MASTERS[k];
        assert MASTERS[..k + 1] == MASTERS[..k] + [m];
        var cfg := GetQos(d, m, Call.CaptureQos(i, m) !in fails);
        if cfg.Some? {
          saved := saved[m := cfg.value];
        }
      }
      assert MASTERS[..|MASTERS|] == MASTERS;
      SameTable(saved, SavedMasters(devices, d, i, fails));
    }

    method CaptureOriginalQos(list: seq<int>, fails: set<Call>) returns (original: map<int, map<int, Config>>)
      ensures original == SavedQos(devices, list, fails)
    {
      original := map[];
      for i := 0 to |list|
        invariant original == SavedQos(devices, list[..i], fails)
      {
        assert list[..i + 1][..i] == list[..i];
        var saved := CaptureMasters(list[i], i, fails);
        original := original[list[i] := saved];
      }
      assert list[..|list|] == list;
    }

    method CaptureOriginalSdma(list: seq<int>, fails: set<Call>) returns (original: map<int, Mata>)
      ensures original == SavedSdma(devices, list, fails)
    {
      original := map[];
      for i := 0 to |list|
        invariant original == SavedSdma(devices, list[..i], fails)
      {
        assert list[..i + 1][..i] == list[..i];
        var cfg := GetQos(list[i], SDMA, Call.CaptureSdma(i) !in fails);
        if cfg.Some? {
          var bandwidth := GetBandwidth(list[i], cfg.value.mpamid, Call.CaptureBandwidth(i) !in fails);
          if bandwidth.Some? {
            original := original[list[i] := Mata(cfg.value.mpamid, bandwidth.value)];
          }
        }
      }
      assert list[..|list|] == list;
    }

    method CaptureOriginalFuse(list: seq<int>, fails: set<Call>) returns (original: map<int, Fuse>)
      ensures original == SavedFuse(devices, list, fails)
    {
      original := map[];
      for i := 0 to |list|
        invariant original == SavedFuse(devices, list[..i], fails)
      {
        assert list[..i + 1][..i] == list[..i];
        if list[i] in devices && Call.CaptureFuse(i) !in fails {
          original := original[list[i] := devices[list[i]].fuse];
        }
      }
      assert list[..|list|] == list;
    }

    method Capture(list: seq<int>, fails: set<Call>) returns (b: Baseline)
      ensures b == Captured(devices, list, fails)
    {
      var qos := CaptureOriginalQos(list, fails);
      var sdma := CaptureOriginalSdma(list, fails);
      var fuse := CaptureOriginalFuse(list, fails);
      return Baseline(qos, sdma, fuse);
    }

    method FindMissing(b: Baseline, list: seq<int>) returns (missing: seq<int>)
      ensures missing == Missing(b, list)
    {
      missing := [];
      for i := 0 to |list|
        invariant missing == Missing(b, list[..i])
      {
        assert list[..i + 1][..i] == list[..i];
        if list[i] !in b.qos || list[i] !in b.sdma || list[i] !in b.fuse {
          missing := missing + [list[i]];
        }
      }
      assert list[..|list|] == list;
    }

    // The baseline of an apply: the file's, completed for new devices, or a first one.
    method TakeBaseline(list: seq<int>, fails: set<Call>, read: bool) returns (b: Baseline)
      ensures b == NextBaseline(devices, Loaded(file, read), list, fails)
    {
      if !file.Snapshot? || !read {
        b := Capture(list, fails);
      } else {
        var missing := FindMissing(file.baseline, list);
        var c := Capture(missing, fails);
        var qos := Update(file.baseline.qos, c.qos);
        var sdma := Update(file.baseline.sdma, c.sdma);
        var fuse := Update(file.baseline.fuse, c.fuse);
        b := Baseline(qos, sdma, fuse);
      }
    }

    // ---------------------------------------------------------------- apply

    method TuneOneMaster(d: int, m: int, i: nat, levels: Levels, fails: set<Call>)
      modifies this`devices
      ensures devices == if d in old(devices) then old(devices)[d := TuneMaster(old(devices)[d], m, i, levels, fails)]
                         else old(devices)
    {
      var cfg := GetQos(d, m, Call.TuneGet(i, m) !in fails);
      if cfg.Some? {
        if m == SDMA {
          SetBandwidth(d, cfg.value.mpamid, SDMA_BANDWIDTH, Call.TuneBandwidth(i) !in fails);
        }
        SetQos(d, m, cfg.value.(level := LevelFor(levels, m)), Call.TuneQos(i, m) !in fails);
      }
    }

    method TuneOne(d: int, i: nat, levels: Levels, fails: set<Call>)
      modifies this`devices
      ensures devices == if d in old(devices) then old(devices)[d := TuneDevice(old(devices)[d], i, levels, fails)]
                         else old(devices)
    {
      SetFuse(d, FUSE_MAX, Call.TuneFuse(i) !in fails);
      ghost var fused := devices;
      for k := 0 to |MASTERS|
        invariant devices == if d in fused then fused[d := TuneMasters(fused[d], k, i, levels, fails)] else fused
      {
        TuneOneMaster(d, MASTERS[k], i, levels, fails);
      }
    }

    method TuneAll(list: seq<int>, levels: Levels, fails: set<Call>)
      modifies this`devices
      ensures devices == Tuned(old(devices), list, levels, fails)
    {
      for i := 0 to |list|
        invariant devices == Tuned(old(devices), list[..i], levels, fails)
      {
        assert list[..i + 1][..i] == list[..i];
        TuneOne(list[i], i, levels, fails);
      }
      assert list[..|list|] == list;
    }

    // Captures, tunes, and writes the file: opening it for writing truncates it.
    method Apply(list: seq<int>, levels: Levels, fails: set<Call>, read: bool, write: Write)
      modifies this
      ensures World() == Step(old(World()), Event.Apply(list, levels, fails, read, write))
    {
      var b := TakeBaseline(list, fails, read);
      TuneAll(list, levels, fails);
      if write.Kept? {
        return;
      }
      file := Damaged;
      if write.Written? {
        file := Snapshot(b);
      }
    }

    // ---------------------------------------------------------------- unset

    method RestoreBandwidths(b: Baseline, fails: set<Call>)
      modifies this`devices
      ensures devices == map d | d in old(devices) ::
                old(devices)[d].(bandwidth := RestoredBandwidth(old(devices)[d], d, b, fails))
    {
      var todo := b.sdma.Keys;
      while todo != {}
        invariant todo <= b.sdma.Keys && devices.Keys == old(devices).Keys
        invariant forall d :: d in devices ==>
                    devices[d] == if d in todo then old(devices)[d]
                                  else old(devices)[d].(bandwidth := RestoredBandwidth(old(devices)[d], d, b, fails))
        decreases todo
      {
        SomeMember(todo);
        var d :| d in todo;
        SetBandwidth(d, b.sdma[d].mpamid, b.sdma[d].bandwidth, Call.RestoreBandwidth(d) !in fails);
        todo := todo - {d};
      }
    }

    method RestoreMasters(d: int, saved: map<int, Config>, b: Baseline, fails: set<Call>)
      requires d in b.qos && b.qos[d] == saved
      modifies this`devices
      ensures devices == if d in old(devices)
                         then old(devices)[d := old(devices)[d].(qos := RestoredQos(old(devices)[d], d, b, fails))]
                         else old(devices)
    {
      var todo := saved.Keys;
      while todo != {}
        invariant todo <= saved.Keys && devices.Keys == old(devices).Keys
        invariant forall c :: c in devices && c != d ==> devices[c] == old(devices)[c]
        invariant d in devices ==> Partly(devices[d], old(devices)[d], d, b, fails, todo)
        decreases todo
      {
        SomeMember(todo);
        var m :| m in todo;
        SetQos(d, m, saved[m], Call.RestoreQos(d, m) !in fails);
        todo := todo - {m};
      }
      if d in devices {
        SameTable(devices[d].qos, RestoredQos(old(devices)[d], d, b, fails));
        SameTable(devices, old(devices)[d := devices[d]]);
      } else {
        SameTable(devices, old(devices));
      }
    }

    method RestoreAllMasters(b: Baseline, fails: set<Call>)
      modifies this`devices
      ensures devices == map d | d in old(devices) :: old(devices)[d].(qos := RestoredQos(old(devices)[d], d, b, fails))
    {
      forall d | d in devices && d !in b.qos ensures RestoredQos(devices[d], d, b, fails) == devices[d].qos {
      }
      var todo := b.qos.Keys;
      while todo != {}
        invariant todo <= b.qos.Keys && devices.Keys == old(devices).Keys
        invariant forall d :: d in devices ==>
                    devices[d] == if d in todo then old(devices)[d]
                                  else old(devices)[d].(qos := RestoredQos(old(devices)[d], d, b, fails))
        decreases todo
      {
        SomeMember(todo);
        var d :| d in todo;
        RestoreMasters(d, b.qos[d], b, fails);
        todo := todo - {d};
      }
    }

    method RestoreFuses(b: Baseline, fails: set<Call>)
      modifies this`devices
      ensures devices == map d | d in old(devices) ::
                old(devices)[d].(fuse := RestoredFuse(old(devices)[d], d, b, fails))
    {
      var todo := b.fuse.Keys;
      while todo != {}
        invariant todo <= b.fuse.Keys && devices.Keys == old(devices).Keys
        invariant forall d :: d in devices ==>
                    devices[d] == if d in todo then old(devices)[d]
                                  else old(devices)[d].(fuse := RestoredFuse(old(devices)[d], d, b, fails))
        decreases todo
      {
        SomeMember(todo);
        var d :| d in todo;
        SetFuse(d, b.fuse[d], Call.RestoreFuse(d) !in fails);
        todo := todo - {d};
      }
    }

    // Puts the baseline back and removes the file.  A missing file is reported, and
    // one that cannot be read or does not parse is only removed.
    method Unset(fails: set<Call>, read: bool, removed: bool) returns (end: UnsetEnd)
      modifies this
      ensures end.NothingToUndo? <==> old(file).NoFile?
      ensures end.Undone? <==> Loaded(old(file), read).Some?
      ensures World() == Step(old(World()), Event.Unset(fails, read, removed))
      ensures file.NoFile? <==> old(file).NoFile? || removed
    {
      if file.NoFile? {
        return NothingToUndo;
      }
      end := ParseFailed;
      if file.Snapshot? && read {
        var b := file.baseline;
        RestoreBandwidths(b, fails);
        RestoreAllMasters(b, fails);
        RestoreFuses(b, fails);
        assert devices == Restored(old(devices), b, fails);
        end := Undone;
      }
      if removed {
        file := NoFile;
      }
    }
  }

  // The masters outside `todo` have been put back.
  ghost predicate Partly(now: Device, was: Device, d: int, b: Baseline, fails: set<Call>, todo: set<int>)
    requires d in b.qos
  {
    && now.bandwidth == was.bandwidth && now.fuse == was.fuse && now.qos.Keys == was.qos.Keys
    && forall m :: m in was.qos ==> now.qos[m] == if m in todo then was.qos[m] else RestoredQos(was, d, b, fails)[m]
  }
}
