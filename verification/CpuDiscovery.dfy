// What a process learns about the NPUs of its machine: the logical ids in the NPU
// map, and the running ones among them.
module CpuDiscovery {
  import opened Options
  import opened Text
  import opened Collections
  import opened CpuSlices

  // By board or NPU id, then by chip id, the logical id as text.
  type NpuMap = map<string, map<string, string>>

  // A row of the process table, split into its fields.
  datatype Row = Row(npu: string, chip: Option<string>)

  // s.isdigit(), for ASCII text.
  predicate AllDigits(s: string) {
    s != [] && forall i :: 0 <= i < |s| ==> Digit(s[i])
  }

  lemma {:induction false} DigitsRead(s: string)
    requires AllDigits(s)
    ensures Digits(s).Some?
  {
    var rest := s[..|s| - 1];
    if rest == [] {
    } else {
      assert rest[|rest| - 1] == s[|s| - 2];
      assert Digit(rest[|rest| - 1]);
      DigitsRead(rest);
    }
  }

  // int(s)
  function LogicId(s: string): nat
    requires AllDigits(s)
  {
    DigitsRead(s);
    Digits(s).value
  }

  // The map gives the logical id to some chip.
  ghost predicate Mapped(m: NpuMap, id: int) {
    exists npu, chip :: npu in m && ChipHas(m[npu], chip, id)
  }

  ghost predicate ChipHas(chips: map<string, string>, chip: string, id: int) {
    chip in chips && AllDigits(chips[chip]) && LogicId(chips[chip]) == id
  }

  // ------------------------------------------------------------ the NPU map

  // The ids among the chips of one board.
  method ChipIds(chips: map<string, string>) returns (ids: set<int>)
    ensures forall id :: id in ids <==> exists chip :: ChipHas(chips, chip, id)
  {
    ids := {};
    var todo := chips.Keys;
    while todo != {}
      invariant todo <= chips.Keys
      invariant forall id :: id in ids <==> exists chip :: chip !in todo && ChipHas(chips, chip, id)
      decreases |todo|
    {
      var chip :| chip in todo;
      ghost var seen := todo;
      if AllDigits(chips[chip]) {
        ids := ids + {LogicId(chips[chip])};
      }
      todo := todo - {chip};
      forall id ensures id in ids <==> exists c :: c !in todo && ChipHas(chips, c, id) {
        OneChipMore(chips, seen, chip, id);
      }
    }
  }

  lemma {:induction false} OneChipMore(chips: map<string, string>, todo: set<string>, chip: string, id: int)
    requires chip in todo
    ensures (exists c :: c !in todo - {chip} && ChipHas(chips, c, id))
            <==> ChipHas(chips, chip, id) || exists c :: c !in todo && ChipHas(chips, c, id)
  {
    if ChipHas(chips, chip, id) {
      assert chip !in todo - {chip};
    } else if exists c :: c !in todo && ChipHas(chips, c, id) {
      var c :| c !in todo && ChipHas(chips, c, id);
      assert c !in todo - {chip};
    }
  }

  // All logical ids of the machine, each once and in increasing order.
  method GetAllLogicNpus(m: NpuMap) returns (ids: seq<int>)
    ensures Increasing(ids) && forall id :: id in ids <==> Mapped(m, id)
  {
    var found := {};
    var todo := m.Keys;
    while todo != {}
      invariant todo <= m.Keys
      invariant forall id :: id in found <==> exists npu, chip :: npu in m && npu !in todo && ChipHas(m[npu], chip, id)
      decreases |todo|
    {
      var npu :| npu in todo;
      ghost var seen := todo;
      var more := ChipIds(m[npu]);
      found := found + more;
      todo := todo - {npu};
      forall id
        ensures id in found <==> exists n, chip :: n in m && n !in todo && ChipHas(m[n], chip, id)
      {
        OneBoardMore(m, seen, npu, id);
      }
    }
    var list := Listed(found);
    ids := SortedSet(list);
  }

  lemma {:induction false} OneBoardMore(m: NpuMap, todo: set<string>, npu: string, id: int)
    requires npu in todo && npu in m
    ensures (exists n, chip :: n in m && n !in todo - {npu} && ChipHas(m[n], chip, id))
            <==> || (exists chip :: ChipHas(m[npu], chip, id))
                 || exists n, chip :: n in m && n !in todo && ChipHas(m[n], chip, id)
  {
    if exists chip :: ChipHas(m[npu], chip, id) {
      var chip :| ChipHas(m[npu], chip, id);
      assert npu !in todo - {npu};
    } else if exists n, chip :: n in m && n !in todo && ChipHas(m[n], chip, id) {
      var n, chip :| n in m && n !in todo && ChipHas(m[n], chip, id);
      assert n !in todo - {npu};
    }
  }

  // The elements of a set, in some order.
  method Listed(s: set<int>) returns (list: seq<int>)
    ensures forall x :: x in list <==> x in s
  {
    list := [];
    var todo := s;
    while todo != {}
      invariant todo <= s
      invariant forall x :: x in list <==> x in s && x !in todo
      decreases |todo|
    {
      SomeMember(todo);
      var x :| x in todo;
      list := list + [x];
      todo := todo - {x};
    }
  }

  // ------------------------------------------------------------ running NPUs

  lemma {:induction false} OnlyKey(chips: map<string, string>, a: string, b: string)
    requires |chips| == 1 && a in chips && b in chips
    ensures a == b
  {
    var others := chips.Keys - {a};
    assert |others| == 0;
    assert b !in others;
  }

  // The logical id of a row of the process table; None stands for the runtime error.
  // A table without chip ids only identifies boards with one chip.
  function ResolveLogicId(m: NpuMap, npu: string, chip: Option<string>): (r: Option<int>)
    ensures r.Some? ==> npu in m && exists c :: ChipHas(m[npu], c, r.value) && (chip.Some? ==> c == chip.value)
  {
    var chips := if npu in m then m[npu] else map[];
    if chip.Some? then LogicIdOf(chips, chip.value)
    else if |chips| == 1 then
      assert forall a, b :: a in chips && b in chips ==> a == b by {
        forall a, b | a in chips && b in chips ensures a == b { OnlyKey(chips, a, b); }
      }
      assert chips.Keys != {};
      var only :| only in chips;
      LogicIdOf(chips, only)
    else None
  }

  function LogicIdOf(chips: map<string, string>, chip: string): (r: Option<int>)
    ensures r.Some? ==> ChipHas(chips, chip, r.value)
    ensures r.None? ==> forall id :: !ChipHas(chips, chip, id)
  {
    if chip in chips && AllDigits(chips[chip]) then Some(LogicId(chips[chip])) else None
  }

  // The chip a row is about: the one it names, or the only one of its board.
  ghost predicate About(chips: map<string, string>, chip: Option<string>, c: string) {
    if chip.Some? then c == chip.value else |chips| == 1
  }

  lemma {:induction false} ResolveLogicIdIff(m: NpuMap, npu: string, chip: Option<string>, id: int)
    ensures ResolveLogicId(m, npu, chip) == Some(id)
            <==> npu in m && exists c :: ChipHas(m[npu], c, id) && About(m[npu], chip, c)
  {
    if npu in m && exists c :: ChipHas(m[npu], c, id) && About(m[npu], chip, c) {
      var c :| ChipHas(m[npu], c, id) && About(m[npu], chip, c);
      if chip.None? {
        forall a | a in m[npu] ensures a == c { OnlyKey(m[npu], a, c); }
      }
    }
  }

  // The map's ids are exactly the ones that some row resolves to.
  lemma {:induction false} MappedIffResolves(m: NpuMap, id: int)
    ensures Mapped(m, id) <==> exists npu, chip :: ResolveLogicId(m, npu, chip) == Some(id)
  {
    if Mapped(m, id) {
      var npu, chip :| npu in m && ChipHas(m[npu], chip, id);
      assert ResolveLogicId(m, npu, Some(chip)) == Some(id);
    }
    if exists npu, chip :: ResolveLogicId(m, npu, chip) == Some(id) {
      var npu, chip :| ResolveLogicId(m, npu, chip) == Some(id);
      var c :| ChipHas(m[npu], c, id);
      assert npu in m;
    }
  }

  // Rows whose fields are not numbers are passed over.
  predicate Counts(row: Row) {
    AllDigits(row.npu) && (row.chip.Some? ==> AllDigits(row.chip.value))
  }

  ghost predicate RunsIn(m: NpuMap, rows: seq<Row>, id: int) {
    exists i :: 0 <= i < |rows| && Counts(rows[i]) && ResolveLogicId(m, rows[i].npu, rows[i].chip) == Some(id)
  }

  ghost predicate AllResolve(m: NpuMap, rows: seq<Row>) {
    forall i :: 0 <= i < |rows| && Counts(rows[i]) ==> ResolveLogicId(m, rows[i].npu, rows[i].chip).Some?
  }

  ghost predicate Visible(visible: Option<seq<int>>, id: int) {
    visible.Some? ==> id in visible.value
  }

  // The NPUs of the process table; None stands for the runtime error.
  method ResolveRows(m: NpuMap, rows: seq<Row>) returns (r: Option<set<int>>)
    ensures r.Some? <==> AllResolve(m, rows)
    ensures r.Some? ==> forall id :: id in r.value <==> RunsIn(m, rows, id)
  {
    var found: set<int> := {};
    for i := 0 to |rows|
      invariant AllResolve(m, rows[..i])
      invariant forall id :: id in found <==> RunsIn(m, rows[..i], id)
    {
      if Counts(rows[i]) {
        var id := ResolveLogicId(m, rows[i].npu, rows[i].chip);
        if id.None? {
          return None;
        }
        found := found + {id.value};
      }
      assert rows[..i + 1] == rows[..i] + [rows[i]];
      forall id ensures id in found <==> RunsIn(m, rows[..i + 1], id) {
        OneRowMore(m, rows[..i], rows[i], id);
      }
    }
    assert rows[..|rows|] == rows;
    return Some(found);
  }

  // The running NPUs that the process may see; None stands for the runtime error.
  method GetRunningNpus(m: NpuMap, rows: seq<Row>, visible: Option<seq<int>>) returns (r: Option<seq<int>>)
    ensures r.Some? <==> AllResolve(m, rows) && exists id :: RunsIn(m, rows, id) && Visible(visible, id)
    ensures r.Some? ==> Increasing(r.value) && r.value != []
    ensures r.Some? ==> forall id :: id in r.value <==> RunsIn(m, rows, id) && Visible(visible, id)
  {
    var resolved := ResolveRows(m, rows);
    if resolved.None? {
      return None;
    }
    var found := resolved.value;
    if visible.Some? {
      found := set id | id in found && id in visible.value;
    }
    assert forall id :: id in found <==> RunsIn(m, rows, id) && Visible(visible, id);
    if found == {} {
      return None;
    }
    SomeMember(found);
    var list := Listed(found);
    ghost var some :| some in found;
    assert some in list && some in SortedSet(list);
    return Some(SortedSet(list));
  }

  lemma {:induction false} OneRowMore(m: NpuMap, rows: seq<Row>, row: Row, id: int)
    ensures RunsIn(m, rows + [row], id)
            <==> RunsIn(m, rows, id) || (Counts(row) && ResolveLogicId(m, row.npu, row.chip) == Some(id))
  {
    var all := rows + [row];
    assert all[|rows|] == row;
    if RunsIn(m, rows, id) {
      var i :| 0 <= i < |rows| && Counts(rows[i]) && ResolveLogicId(m, rows[i].npu, rows[i].chip) == Some(id);
      assert all[i] == rows[i];
    }
  }

  // ------------------------------------------------------- the whole discovery

  lemma {:induction false} IncreasingHasNoRepeats(s: seq<int>)
    requires Increasing(s)
    ensures NoRepeats(s)
  {
  }

  // Discovery either fails or finds an NPU, all of whose running ids are in the map;
  // so the count sliced for is the map's, and planning sees each NPU once.
  method Discover(m: NpuMap, rows: seq<Row>, visible: Option<seq<int>>, allowed: seq<int>, affinity: map<int, seq<int>>)
    returns (r: Option<DeviceInfo>)
    ensures r.Some? <==> AllResolve(m, rows) && exists id :: RunsIn(m, rows, id) && Visible(visible, id)
    ensures r.Some? ==> Discovered(r.value) && Increasing(r.value.logicNpus) && NoRepeats(r.value.logicNpus)
    ensures r.Some? ==> TotalNpus(r.value) == |r.value.logicNpus| > 0
    ensures r.Some? ==> forall id :: id in r.value.logicNpus <==> Mapped(m, id)
    ensures r.Some? ==> forall id :: id in r.value.running <==> RunsIn(m, rows, id) && Visible(visible, id)
    ensures r.Some? ==> r.value.allowed == allowed && r.value.affinity == affinity
  {
    var running := GetRunningNpus(m, rows, visible);
    if running.None? {
      return None;
    }
    var all := GetAllLogicNpus(m);
    var info := DeviceInfo(allowed, running.value, affinity, all);
    forall npu | npu in info.running ensures npu in info.logicNpus {
      RunningIsMapped(m, rows, npu);
    }
    IncreasingHasNoRepeats(all);
    DiscoveredCountsTheMap(info);
    return Some(info);
  }

  lemma {:induction false} RunningIsMapped(m: NpuMap, rows: seq<Row>, id: int)
    requires RunsIn(m, rows, id)
    ensures Mapped(m, id)
  {
    var i :| 0 <= i < |rows| && Counts(rows[i]) && ResolveLogicId(m, rows[i].npu, rows[i].chip) == Some(id);
    MappedIffResolves(m, id);
  }
}
