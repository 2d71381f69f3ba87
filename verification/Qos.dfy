// The QoS tool: applying priorities to devices, keeping the settings found by the
// first apply in a state file, and putting them back.
module Qos {
  import opened Options
  import opened Arithmetic

  const AIV_DATA := 11
  const AIV_INS := 12
  const SDMA := 13
  const PCIEDMA := 7

  // The masters the tool manages, in the order of its table.
  const MASTERS: seq<int> := [AIV_DATA, AIV_INS, SDMA, PCIEDMA]

  datatype Config = Config(mpamid: int, level: int, pmg: int, mode: int)
  datatype Bandwidth = Bandwidth(low: int, high: int, hard: int)
  datatype Fuse = Fuse(enable: int, auto: int, mode: int)

  // The settings of one device: per master, per MPAM id, and global.  A driver
  // call about a master or an MPAM id that the device does not have fails.
  datatype Device = Device(qos: map<int, Config>, bandwidth: map<int, Bandwidth>, fuse: Fuse)

  type Devices = map<int, Device>

  datatype Mata = Mata(mpamid: int, bandwidth: Bandwidth)

  // What the state file keeps for `unset`.
  datatype Baseline = Baseline(qos: map<int, map<int, Config>>, sdma: map<int, Mata>, fuse: map<int, Fuse>)

  // The driver calls that may fail, named by what they are for and by the position
  // of their device in the list at hand, or by the device when a table is walked.
  datatype Call =
    | CaptureQos(i: nat, master: int)
    | CaptureSdma(i: nat)
    | CaptureBandwidth(i: nat)
    | CaptureFuse(i: nat)
    | TuneFuse(i: nat)
    | TuneGet(i: nat, master: int)
    | TuneBandwidth(i: nat)
    | TuneQos(i: nat, master: int)
    | RestoreBandwidth(device: int)
    | RestoreQos(device: int, master: int)
    | RestoreFuse(device: int)

  datatype Levels = Levels(aiv: int, sdma: int, pcie: int)

  datatype Priority = Low | Middle | High

  function AivLevel(p: Priority): int {
    match p case Low => 1 case Middle => 3 case High => 5
  }

  function SdmaLevel(p: Priority): int {
    match p case Low => 2 case Middle => 4 case High => 6
  }

  // The levels the tool applies for the priorities of its five traffic kinds.
  function LevelsFor(aivD2D: Priority, aivH2D: Priority, sdmaD2D: Priority, sdmaH2D: Priority, pcieHigh: bool): Levels {
    Levels(Min(AivLevel(aivD2D), AivLevel(aivH2D)), Min(SdmaLevel(sdmaD2D), SdmaLevel(sdmaH2D)),
           if pcieHigh then 7 else 0)
  }

  function LevelFor(levels: Levels, master: int): int {
    if master == AIV_DATA || master == AIV_INS then levels.aiv
    else if master == SDMA then levels.sdma
    else levels.pcie
  }

  // ---------------------------------------------------------------- capture

  // The settings of one device's masters; a failed call leaves its master out.
  function SavedMasters(devices: Devices, d: int, i: nat, fails: set<Call>): map<int, Config> {
    if d in devices then
      map m | m in MASTERS && m in devices[d].qos && CaptureQos(i, m) !in fails :: devices[d].qos[m]
    else map[]
  }

  function SavedQos(devices: Devices, list: seq<int>, fails: set<Call>): map<int, map<int, Config>> {
    if list == [] then map[]
    else
      var n := |list| - 1;
      SavedQos(devices, list[..n], fails)[list[n] := SavedMasters(devices, list[n], n, fails)]
  }

  // The device has an SDMA master whose MPAM id has a bandwidth.
  predicate HasSdma(d: Device) {
    SDMA in d.qos && d.qos[SDMA].mpamid in d.bandwidth
  }

  function MataOf(d: Device): Mata
    requires HasSdma(d)
  {
    Mata(d.qos[SDMA].mpamid, d.bandwidth[d.qos[SDMA].mpamid])
  }

  predicate SdmaCaptured(devices: Devices, d: int, i: nat, fails: set<Call>) {
    d in devices && HasSdma(devices[d]) && CaptureSdma(i) !in fails && CaptureBandwidth(i) !in fails
  }

  function SavedSdma(devices: Devices, list: seq<int>, fails: set<Call>): map<int, Mata> {
    if list == [] then map[]
    else
      var n := |list| - 1;
      var before := SavedSdma(devices, list[..n], fails);
      if SdmaCaptured(devices, list[n], n, fails) then before[list[n] := MataOf(devices[list[n]])] else before
  }

  function SavedFuse(devices: Devices, list: seq<int>, fails: set<Call>): map<int, Fuse> {
    if list == [] then map[]
    else
      var n := |list| - 1;
      var before := SavedFuse(devices, list[..n], fails);
      if list[n] in devices && CaptureFuse(n) !in fails then before[list[n] := devices[list[n]].fuse] else before
  }

  function Captured(devices: Devices, list: seq<int>, fails: set<Call>): Baseline {
    Baseline(SavedQos(devices, list, fails), SavedSdma(devices, list, fails), SavedFuse(devices, list, fails))
  }

  predicate Complete(b: Baseline, d: int) { d in b.qos && d in b.sdma && d in b.fuse }

  // The listed devices that lack one of the three entries.
  function Missing(b: Baseline, list: seq<int>): (r: seq<int>)
    ensures forall d :: d in r <==> d in list && !Complete(b, d)
  {
    if list == [] then []
    else
      var last := list[|list| - 1];
      assert list == list[..|list| - 1] + [last];
      Missing(b, list[..|list| - 1]) + if Complete(b, last) then [] else [last]
  }

  // The new captures replace what was there.
  function Merged(b: Baseline, c: Baseline): Baseline {
    Baseline(b.qos + c.qos, b.sdma + c.sdma, b.fuse + c.fuse)
  }

  // The devices that an apply captures.
  function ToCapture(file: Option<Baseline>, list: seq<int>): seq<int> {
    match file
    case None => list
    case Some(b) => Missing(b, list)
  }

  function NextBaseline(devices: Devices, file: Option<Baseline>, list: seq<int>, fails: set<Call>): Baseline {
    var c := Captured(devices, ToCapture(file, list), fails);
    match file
    case None => c
    case Some(b) => Merged(b, c)
  }

  // ------------------------------------------------------------------- tune

  const SDMA_BANDWIDTH := Bandwidth(0, 1, 0)
  const FUSE_MAX := Fuse(1, 1, 1)

  function TuneMaster(dev: Device, m: int, i: nat, levels: Levels, fails: set<Call>): Device {
    if m !in dev.qos || TuneGet(i, m) in fails then dev
    else
      var cfg := dev.qos[m];
      var bandwidth := if m == SDMA && cfg.mpamid in dev.bandwidth && TuneBandwidth(i) !in fails
                       then dev.bandwidth[cfg.mpamid := SDMA_BANDWIDTH] else dev.bandwidth;
      var qos := if TuneQos(i, m) in fails then dev.qos
                 else dev.qos[m := cfg.(level := LevelFor(levels, m))];
      Device(qos, bandwidth, dev.fuse)
  }

  // The first k masters of the table, in order.
  function TuneMasters(dev: Device, k: nat, i: nat, levels: Levels, fails: set<Call>): Device
    requires k <= |MASTERS|
  {
    if k == 0 then dev else TuneMaster(TuneMasters(dev, k - 1, i, levels, fails), MASTERS[k - 1], i, levels, fails)
  }

  function TuneDevice(dev: Device, i: nat, levels: Levels, fails: set<Call>): Device {
    var fused := if TuneFuse(i) in fails then dev else dev.(fuse := FUSE_MAX);
    TuneMasters(fused, |MASTERS|, i, levels, fails)
  }

  function Tuned(devices: Devices, list: seq<int>, levels: Levels, fails: set<Call>): (r: Devices)
    ensures r.Keys == devices.Keys
  {
    if list == [] then devices
    else
      var n := |list| - 1;
      var before := Tuned(devices, list[..n], levels, fails);
      if list[n] in before then before[list[n] := TuneDevice(before[list[n]], n, levels, fails)] else before
  }

  // ---------------------------------------------------------------- restore

  function RestoredBandwidth(dev: Device, d: int, b: Baseline, fails: set<Call>): map<int, Bandwidth> {
    if d in b.sdma && b.sdma[d].mpamid in dev.bandwidth && RestoreBandwidth(d) !in fails
    then dev.bandwidth[b.sdma[d].mpamid := b.sdma[d].bandwidth] else dev.bandwidth
  }

  function RestoredQos(dev: Device, d: int, b: Baseline, fails: set<Call>): map<int, Config> {
    map m | m in dev.qos ::
      if d in b.qos && m in b.qos[d] && RestoreQos(d, m) !in fails then b.qos[d][m] else dev.qos[m]
  }

  function RestoredFuse(dev: Device, d: int, b: Baseline, fails: set<Call>): Fuse {
    if d in b.fuse && RestoreFuse(d) !in fails then b.fuse[d] else dev.fuse
  }

  function RestoredDevice(dev: Device, d: int, b: Baseline, fails: set<Call>): Device {
    Device(RestoredQos(dev, d, b, fails), RestoredBandwidth(dev, d, b, fails), RestoredFuse(dev, d, b, fails))
  }

  function Restored(devices: Devices, b: Baseline, fails: set<Call>): Devices {
    map d | d in devices :: RestoredDevice(devices[d], d, b, fails)
  }

  // ------------------------------------------------------------------- runs

  // The state file: absent, a readable snapshot, or one that does not parse.
  datatype File = NoFile | Snapshot(baseline: Baseline) | Damaged

  // What reading the file yields; `read` says whether the text could be read at all.
  function Loaded(f: File, read: bool): Option<Baseline> {
    if f.Snapshot? && read then Some(f.baseline) else None
  }

  // How the writing of the file ends: it succeeds, or the file cannot be opened and
  // stays as it was, or it is truncated and the new text does not arrive.
  datatype Write = Written | Kept | Lost

  datatype World = World(devices: Devices, file: File)

  datatype Event =
    | Apply(list: seq<int>, levels: Levels, fails: set<Call>, read: bool, write: Write)
    | Unset(fails: set<Call>, read: bool, removed: bool)

  // One invocation of the tool.  An apply that cannot read the file, or cannot make
  // sense of it, captures as if there were none.  An apply whose file is not written
  // has already changed the devices.  An unset without a file changes nothing, and
  // one that cannot read the file or make sense of it only removes it; a file that
  // cannot be removed stays.
  function Step(w: World, e: Event): World {
    match e
    case Apply(list, levels, fails, read, write) =>
      World(Tuned(w.devices, list, levels, fails),
            match write
            case Written => Snapshot(NextBaseline(w.devices, Loaded(w.file, read), list, fails))
            case Kept => w.file
            case Lost => Damaged)
    case Unset(fails, read, removed) =>
      if w.file.NoFile? then w
      else World(if Loaded(w.file, read).Some? then Restored(w.devices, w.file.baseline, fails) else w.devices,
                 if removed then NoFile else w.file)
  }

  // A run of the tool from devices that it has not touched.
  datatype Run = Run(events: seq<Event>, worlds: seq<World>) {
    ghost predicate Follows(i: nat)
      requires i < |events| && |worlds| == |events| + 1
    {
      worlds[i + 1] == Step(worlds[i], events[i])
    }

    ghost predicate Valid() {
      && |worlds| == |events| + 1
      && worlds[0].file.NoFile?
      && forall i :: 0 <= i < |events| ==> Follows(i)
    }
  }
}
