// The generator of fragmented mappings: runs of a requested length, placed in
// shuffled slots one block wider than a run.
module Fragmentation {
  import opened Arithmetic
  import opened Spans
  import opened BlockCopy

  datatype Failure = SelectedNotPositive | LengthNotPositive | NotEnoughBlocks

  datatype Result<+T> = Ok(value: T) | Err(error: Failure)

  // The lengths of the runs: full runs, then what remains.
  function RunLengths(selected: nat, length: nat): (lens: seq<nat>)
    requires length > 0
    ensures forall i :: 0 <= i < |lens| ==> 0 < lens[i] <= length
    decreases selected
  {
    if selected == 0 then [] else [Min(length, selected)] + RunLengths(selected - Min(length, selected), length)
  }

  function CeilDiv(a: nat, b: nat): nat
    requires b > 0
  {
    (a + b - 1) / b
  }

  lemma {:induction false} RunCountIsCeiling(selected: nat, length: nat)
    requires length > 0
    ensures |RunLengths(selected, length)| == CeilDiv(selected, length)
    decreases selected
  {
    if selected == 0 {
      DivByHand(length - 1, length, 0);
    } else if selected <= length {
      assert RunLengths(selected, length) == [selected];
      DivByHand(selected + length - 1, length, 1);
    } else {
      var rest := selected - length;
      RunCountIsCeiling(rest, length);
      var q := CeilDiv(rest, length);
      OneMoreQuotient(rest + length - 1, length, q);
    }
  }

  lemma {:induction false} OneMoreQuotient(a: nat, b: nat, q: nat)
    requires b > 0 && a / b == q
    ensures (a + b) / b == q + 1
  {
    assert a == b * q + a % b;
    assert b * (q + 1) == b * q + b;
    DivByHand(a + b, b, q + 1);
  }

  lemma {:induction false} DivByHand(a: nat, b: nat, q: nat)
    requires b > 0 && b * q <= a < b * q + b
    ensures a / b == q
  {
    var k := a / b;
    assert a == b * k + a % b;
    if k < q {
      MulMonotone(k + 1, q, b);
    } else if k > q {
      MulMonotone(q + 1, k, b);
    }
  }

  // A permutation of 0, 1, ..., n - 1, standing for one shuffle.
  ghost predicate IsPermutation(p: seq<nat>, n: nat) {
    && |p| == n
    && (forall i :: 0 <= i < n ==> p[i] < n)
    && (forall i, j :: 0 <= i < j < n ==> p[i] != p[j])
  }

  // Run i sits at slot cpu[i] on the host side and at slot npu[i] on the device side.
  function PlannedSpans(lens: seq<nat>, slot: nat, cpu: seq<nat>, npu: seq<nat>): (spans: seq<Span>)
    requires |cpu| >= |lens| && |npu| >= |lens|
    ensures |spans| == |lens|
    ensures forall i :: 0 <= i < |lens| ==> spans[i] == Span(cpu[i] * slot, npu[i] * slot, lens[i])
  {
    seq(|lens|, i requires 0 <= i < |lens| => Span(cpu[i] * slot, npu[i] * slot, lens[i]))
  }

  // The start of one slot is never where the run of another slot ends.
  lemma {:induction false} RunNeverReachesASlot(slot: nat, p: int, q: int, len: nat)
    requires 0 < len < slot
    ensures q * slot != p * slot + len
  {
    if q <= p {
      MulMonotone(q, p, slot);
    } else {
      MulMonotone(p + 1, q, slot);
    }
  }

  lemma {:induction false} PlannedIsMaximal(lens: seq<nat>, slot: nat, cpu: seq<nat>, npu: seq<nat>)
    requires |cpu| >= |lens| && |npu| >= |lens|
    requires forall i :: 0 <= i < |lens| ==> 0 < lens[i] < slot
    ensures Maximal(PlannedSpans(lens, slot, cpu, npu))
  {
    var spans := PlannedSpans(lens, slot, cpu, npu);
    forall i | 0 < i < |spans| ensures !Joins(spans[i - 1], spans[i]) {
      RunNeverReachesASlot(slot, cpu[i - 1], cpu[i], lens[i - 1]);
    }
  }

  // Whatever the two shuffles, the generated pairs coalesce back to the planned runs.
  lemma {:induction false} GeneratedCoalescesToPlan(selected: nat, length: nat, cpu: seq<nat>, npu: seq<nat>)
    requires length > 0
    requires IsPermutation(cpu, CeilDiv(selected, length)) && IsPermutation(npu, CeilDiv(selected, length))
    ensures var lens := RunLengths(selected, length);
            && |lens| == CeilDiv(selected, length)
            && var spans := PlannedSpans(lens, length + 1, cpu, npu);
            && Coalesce(ExpandAll(spans)) == spans
            && |ExpandAll(spans)| == selected
  {
    var lens := RunLengths(selected, length);
    RunCountIsCeiling(selected, length);
    var spans := PlannedSpans(lens, length + 1, cpu, npu);
    PlannedIsMaximal(lens, length + 1, cpu, npu);
    MaximalIsUnique(Coalesce(ExpandAll(spans)), spans);
    ExpandedLength(spans);
    LengthsAdd(selected, length, spans);
  }

  ghost function TotalLength(spans: seq<Span>): nat {
    if spans == [] then 0 else spans[0].len + TotalLength(spans[1..])
  }

  lemma {:induction false} ExpandedLength(spans: seq<Span>)
    ensures |ExpandAll(spans)| == TotalLength(spans)
  {
    if spans == [] {
    } else {
      ExpandedLength(spans[1..]);
    }
  }

  lemma {:induction false} LengthsAdd(selected: nat, length: nat, spans: seq<Span>)
    requires length > 0 && |spans| == |RunLengths(selected, length)|
    requires forall i :: 0 <= i < |spans| ==> spans[i].len == RunLengths(selected, length)[i]
    ensures TotalLength(spans) == selected
    decreases selected
  {
    if selected == 0 {
    } else {
      var rest := selected - Min(length, selected);
      assert RunLengths(selected, length)[1..] == RunLengths(rest, length);
      LengthsAdd(rest, length, spans[1..]);
    }
  }

  // ------------------------------------------------- every block at most once

  ghost predicate EachBlockOnce(pairs: seq<Pair>) {
    && (forall i, j :: 0 <= i < j < |pairs| ==> pairs[i].cpu != pairs[j].cpu)
    && (forall i, j :: 0 <= i < j < |pairs| ==> pairs[i].npu != pairs[j].npu)
  }

  predicate Apart(a: Span, b: Span) {
    && (a.cpu + a.len <= b.cpu || b.cpu + b.len <= a.cpu)
    && (a.npu + a.len <= b.npu || b.npu + b.len <= a.npu)
  }

  predicate Inside(p: Pair, s: Span) {
    s.cpu <= p.cpu < s.cpu + s.len && s.npu <= p.npu < s.npu + s.len
  }

  lemma {:induction false} PairsLieInSpans(spans: seq<Span>, i: nat) returns (k: nat)
    requires i < |ExpandAll(spans)|
    ensures k < |spans| && Inside(ExpandAll(spans)[i], spans[k])
  {
    if i < spans[0].len {
      k := 0;
    } else {
      var j := PairsLieInSpans(spans[1..], i - spans[0].len);
      k := j + 1;
    }
  }

  lemma {:induction false} ApartSpansUseBlocksOnce(spans: seq<Span>)
    requires forall i, j :: 0 <= i < j < |spans| ==> Apart(spans[i], spans[j])
    ensures EachBlockOnce(ExpandAll(spans))
  {
    if spans == [] {
    } else {
      var s, rest := spans[0], ExpandAll(spans[1..]);
      ApartSpansUseBlocksOnce(spans[1..]);
      forall j | 0 <= j < |rest|
        ensures !(s.cpu <= rest[j].cpu < s.cpu + s.len) && !(s.npu <= rest[j].npu < s.npu + s.len)
      {
        var k := PairsLieInSpans(spans[1..], j);
        assert Apart(s, spans[k + 1]);
      }
    }
  }

  lemma {:induction false} SlotsAreApart(slot: nat, p: nat, q: nat, a: nat, b: nat)
    requires p != q && a <= slot && b <= slot
    ensures p * slot + a <= q * slot || q * slot + b <= p * slot
  {
    if p < q {
      MulMonotone(p + 1, q, slot);
    } else {
      MulMonotone(q + 1, p, slot);
    }
  }

  // Each host block and each device block is used at most once.
  lemma {:induction false} GeneratedIsInjective(lens: seq<nat>, slot: nat, cpu: seq<nat>, npu: seq<nat>)
    requires IsPermutation(cpu, |lens|) && IsPermutation(npu, |lens|)
    requires forall i :: 0 <= i < |lens| ==> lens[i] <= slot
    ensures EachBlockOnce(ExpandAll(PlannedSpans(lens, slot, cpu, npu)))
  {
    var spans := PlannedSpans(lens, slot, cpu, npu);
    forall i, j | 0 <= i < j < |spans| ensures Apart(spans[i], spans[j]) {
      SlotsAreApart(slot, cpu[i], cpu[j], lens[i], lens[j]);
      SlotsAreApart(slot, npu[i], npu[j], lens[i], lens[j]);
    }
    ApartSpansUseBlocksOnce(spans);
  }

  lemma {:induction false} SlotEndsInBounds(slot: nat, p: nat, n: nat, len: nat, blocks: int)
    requires p < n && len <= slot && n * slot <= blocks
    ensures p * slot + len <= blocks
  {
    MulMonotone(p + 1, n, slot);
  }

  lemma {:induction false} PlannedInBounds(lens: seq<nat>, slot: nat, cpu: seq<nat>, npu: seq<nat>, cpuBlocks: nat,
                                           npuBlocks: nat, k: nat)
    requires IsPermutation(cpu, |lens|) && IsPermutation(npu, |lens|)
    requires k < |lens| && lens[k] <= slot && |lens| * slot <= cpuBlocks && |lens| * slot <= npuBlocks
    ensures SpanInBounds(PlannedSpans(lens, slot, cpu, npu)[k], cpuBlocks, npuBlocks)
  {
    SlotEndsInBounds(slot, cpu[k], |lens|, lens[k], cpuBlocks);
    SlotEndsInBounds(slot, npu[k], |lens|, lens[k], npuBlocks);
  }

  lemma {:induction false} BoundsCarryToPairs(spans: seq<Span>, cpuBlocks: nat, npuBlocks: nat)
    requires SpansInBounds(spans, cpuBlocks, npuBlocks)
    ensures InBounds(ExpandAll(spans), cpuBlocks, npuBlocks)
  {
    var pairs := ExpandAll(spans);
    forall i | 0 <= i < |pairs| ensures 0 <= pairs[i].cpu < cpuBlocks && 0 <= pairs[i].npu < npuBlocks {
      var k := PairsLieInSpans(spans, i);
      assert SpanInBounds(spans[k], cpuBlocks, npuBlocks);
    }
  }

  // The generated mapping stays in bounds.
  lemma {:induction false} GeneratedIsInBounds(lens: seq<nat>, slot: nat, cpu: seq<nat>, npu: seq<nat>, cpuBlocks: nat,
                                               npuBlocks: nat)
    requires IsPermutation(cpu, |lens|) && IsPermutation(npu, |lens|)
    requires forall i :: 0 <= i < |lens| ==> lens[i] <= slot
    requires |lens| * slot <= cpuBlocks && |lens| * slot <= npuBlocks
    ensures InBounds(ExpandAll(PlannedSpans(lens, slot, cpu, npu)), cpuBlocks, npuBlocks)
  {
    var spans := PlannedSpans(lens, slot, cpu, npu);
    forall k | 0 <= k < |spans| ensures SpanInBounds(spans[k], cpuBlocks, npuBlocks) {
      PlannedInBounds(lens, slot, cpu, npu, cpuBlocks, npuBlocks, k);
    }
    BoundsCarryToPairs(spans, cpuBlocks, npuBlocks);
  }

  // ------------------------------------------------------------------ methods

  lemma {:induction false} OneRunMore(lens: seq<nat>, remaining: nat, length: nat)
    requires length > 0 && remaining > 0
    ensures var run := Min(length, remaining);
            (lens + [run]) + RunLengths(remaining - run, length) == lens + RunLengths(remaining, length)
  {
    var rest := RunLengths(remaining - Min(length, remaining), length);
    assert RunLengths(remaining, length) == [Min(length, remaining)] + rest;
  }

  method PlanRuns(selected: nat, length: nat) returns (lens: seq<nat>)
    requires length > 0
    ensures lens == RunLengths(selected, length)
  {
    lens := [];
    var remaining := selected;
    while remaining != 0
      invariant 0 <= remaining <= selected
      invariant lens + RunLengths(remaining, length) == RunLengths(selected, length)
    {
      var run := Min(length, remaining);
      OneRunMore(lens, remaining, length);
      lens := lens + [run];
      remaining := remaining - run;
    }
  }

  // Lays the runs out in their slots.
  method PlaceRuns(lens: seq<nat>, slot: nat, cpu: seq<nat>, npu: seq<nat>) returns (pairs: seq<Pair>)
    requires |cpu| >= |lens| && |npu| >= |lens|
    ensures pairs == ExpandAll(PlannedSpans(lens, slot, cpu, npu))
  {
    ghost var spans := PlannedSpans(lens, slot, cpu, npu);
    pairs := [];
    for i := 0 to |lens|
      invariant pairs == ExpandAll(spans[..i])
    {
      var run := Span(cpu[i] * slot, npu[i] * slot, lens[i]);
      ExpandConcat(spans[..i], [run]);
      assert spans[..i + 1] == spans[..i] + [run] && ExpandAll([run]) == Expand(run);
      pairs := pairs + Expand(run);
    }
    assert spans[..|lens|] == spans;
  }

  ghost predicate Shuffles(selected: int, length: int, cpu: seq<nat>, npu: seq<nat>) {
    selected > 0 && length > 0 ==>
      IsPermutation(cpu, CeilDiv(selected, length)) && IsPermutation(npu, CeilDiv(selected, length))
  }

  predicate Fits(selected: int, length: int, blocks: int) {
    selected > 0 && length > 0 && CeilDiv(selected, length) * (length + 1) <= blocks
  }

  // What a generated mapping is: in bounds, injective on both sides, and
  // coalescing to exactly the planned runs.
  ghost predicate Generated(pairs: seq<Pair>, selected: nat, length: nat, cpu: seq<nat>, npu: seq<nat>, cpuBlocks: nat,
                            npuBlocks: nat)
    requires length > 0
  {
    var lens := RunLengths(selected, length);
    && |pairs| == selected
    && InBounds(pairs, cpuBlocks, npuBlocks)
    && EachBlockOnce(pairs)
    && |lens| == CeilDiv(selected, length) <= |cpu| && |lens| <= |npu|
    && Coalesce(pairs) == PlannedSpans(lens, length + 1, cpu, npu)
  }

  lemma {:induction false} PlanGenerates(selected: nat, length: nat, cpu: seq<nat>, npu: seq<nat>, cpuBlocks: nat,
                                         npuBlocks: nat)
    requires selected > 0 && length > 0 && Shuffles(selected, length, cpu, npu)
    requires Fits(selected, length, cpuBlocks) && Fits(selected, length, npuBlocks)
    ensures |RunLengths(selected, length)| == CeilDiv(selected, length)
    ensures Generated(ExpandAll(PlannedSpans(RunLengths(selected, length), length + 1, cpu, npu)),
                      selected, length, cpu, npu, cpuBlocks, npuBlocks)
  {
    var lens := RunLengths(selected, length);
    GeneratedCoalescesToPlan(selected, length, cpu, npu);
    GeneratedIsInjective(lens, length + 1, cpu, npu);
    GeneratedIsInBounds(lens, length + 1, cpu, npu, cpuBlocks, npuBlocks);
  }

  // Builds the mapping; the two shuffles arrive as permutations of the slots.
  method BuildFragmentedMapping(selected: int, length: int, cpuBlocks: int, npuBlocks: int, cpu: seq<nat>,
                                npu: seq<nat>)
    returns (r: Result<seq<Pair>>)
    requires Shuffles(selected, length, cpu, npu)
    ensures r.Ok? <==> Fits(selected, length, cpuBlocks) && Fits(selected, length, npuBlocks)
    ensures r.Ok? ==> Generated(r.value, selected, length, cpu, npu, cpuBlocks, npuBlocks)
    ensures selected <= 0 ==> r == Err(SelectedNotPositive)
    ensures selected > 0 && length <= 0 ==> r == Err(LengthNotPositive)
  {
    if selected <= 0 {
      return Err(SelectedNotPositive);
    }
    if length <= 0 {
      return Err(LengthNotPositive);
    }
    var lens := PlanRuns(selected, length);
    RunCountIsCeiling(selected, length);
    var slot := length + 1;
    var required := |lens| * slot;
    if required > cpuBlocks || required > npuBlocks {
      return Err(NotEnoughBlocks);
    }
    MulMonotone(0, |lens|, slot);
    var pairs := PlaceRuns(lens, slot, cpu, npu);
    PlanGenerates(selected, length, cpu, npu, cpuBlocks, npuBlocks);
    return Ok(pairs);
  }

  // ------------------------------------------------------------- case summary

  datatype Case = Case(spanCount: nat, meanLength: real, maxLength: nat, singleRatio: real, pairs: seq<Pair>,
                       spans: seq<Span>)

  // The lengths of all runs but the last are the requested one.
  lemma {:induction false} RunLengthsAt(selected: nat, length: nat, i: nat)
    requires length > 0 && i < |RunLengths(selected, length)|
    ensures i + 1 < |RunLengths(selected, length)| ==> RunLengths(selected, length)[i] == length
    ensures i == 0 ==> RunLengths(selected, length)[i] == Min(length, selected)
    decreases selected
  {
    if i > 0 {
      RunLengthsAt(selected - Min(length, selected), length, i - 1);
    } else if selected < length {
      assert RunLengths(selected, length) == [selected];
    }
  }

  ghost function CountSingles(spans: seq<Span>): nat {
    if spans == [] then 0 else (if spans[|spans| - 1].len == 1 then 1 else 0) + CountSingles(spans[..|spans| - 1])
  }

  lemma {:induction false} OneSpanMore(spans: seq<Span>, i: nat)
    requires i < |spans|
    ensures TotalLength(spans[..i + 1]) == TotalLength(spans[..i]) + spans[i].len
    ensures CountSingles(spans[..i + 1]) == CountSingles(spans[..i]) + if spans[i].len == 1 then 1 else 0
  {
    assert spans[..i + 1] == spans[..i] + [spans[i]] && spans[..i + 1][..i] == spans[..i];
    TotalSnoc(spans[..i], spans[i]);
  }

  method Summarise(spans: seq<Span>) returns (total: nat, largest: nat, singles: nat)
    ensures total == TotalLength(spans) && singles == CountSingles(spans)
    ensures forall j :: 0 <= j < |spans| ==> spans[j].len <= largest
    ensures |spans| > 0 ==> exists j :: 0 <= j < |spans| && spans[j].len == largest
  {
    total, largest, singles := 0, 0, 0;
    ghost var at := 0;
    for i := 0 to |spans|
      invariant total == TotalLength(spans[..i])
      invariant singles == CountSingles(spans[..i])
      invariant forall j :: 0 <= j < i ==> spans[j].len <= largest
      invariant if i == 0 then largest == at == 0 else 0 <= at < i && spans[at].len == largest
    {
      OneSpanMore(spans, i);
      total := total + spans[i].len;
      if spans[i].len > largest {
        largest, at := spans[i].len, i;
      }
      if spans[i].len == 1 {
        singles := singles + 1;
      }
    }
    assert spans[..|spans|] == spans;
  }

  // How many of the planned runs are single blocks: all of them, or at most the last.
  function PlannedSingles(selected: nat, length: nat): nat
    requires length > 0
  {
    if length == 1 then selected else if selected % length == 1 then 1 else 0
  }

  lemma {:induction false} EqualSpansSingles(spans: seq<Span>, length: nat)
    requires forall i :: 0 <= i < |spans| ==> spans[i].len == length
    ensures CountSingles(spans) == if length == 1 then |spans| else 0
  {
    if spans == [] {
    } else {
      EqualSpansSingles(spans[..|spans| - 1], length);
    }
  }

  lemma {:induction false} LastRunLength(selected: nat, length: nat)
    requires selected > 0 && length > 0
    ensures var lens := RunLengths(selected, length);
            lens != [] && lens[|lens| - 1] == if selected % length == 0 then length else selected % length
    decreases selected
  {
    if selected <= length {
      LoneRun(selected, length);
    } else {
      LastRunLength(selected - length, length);
      SameRemainder(selected, length);
      FirstRun(selected, length, RunLengths(selected - length, length));
    }
  }

  lemma {:induction false} LoneRun(selected: nat, length: nat)
    requires 0 < selected <= length
    ensures RunLengths(selected, length) == [if selected % length == 0 then length else selected % length]
  {
    assert RunLengths(selected, length) == [selected] by { assert RunLengths(0, length) == []; }
    if selected < length {
      RemainderOf(0, length, selected);
    } else {
      RemainderOf(1, length, 0);
    }
  }

  lemma {:induction false} FirstRun(selected: nat, length: nat, rest: seq<nat>)
    requires selected > length > 0 && rest == RunLengths(selected - length, length) && rest != []
    ensures var lens := RunLengths(selected, length); |lens| == |rest| + 1 && lens[|lens| - 1] == rest[|rest| - 1]
  {
    assert RunLengths(selected, length) == [length] + rest;
  }

  lemma {:induction false} SameRemainder(a: nat, b: nat)
    requires a >= b > 0
    ensures (a - b) % b == a % b
  {
    var q, r := a / b, a % b;
    assert a - b == b * (q - 1) + r;
    RemainderOf(q - 1, b, r);
  }

  lemma {:induction false} RemainderOf(q: int, b: nat, r: nat)
    requires r < b
    ensures (b * q + r) % b == r
  {
    var x := b * q + r;
    assert x == b * (x / b) + x % b;
    QuotientIsUnique(b, x / b - q, r - x % b);
  }

  lemma {:induction false} QuotientIsUnique(b: nat, d: int, e: int)
    requires b * d == e && e < b && 0 < b + e
    ensures d == 0
  {
    if d > 0 {
      MulMonotone(1, d, b);
    } else if d < 0 {
      MulMonotone(1, -d, b);
    }
  }

  lemma {:induction false} SinglesArePlanned(selected: nat, length: nat, spans: seq<Span>)
    requires selected > 0 && length > 0
    requires |spans| == |RunLengths(selected, length)| == CeilDiv(selected, length)
    requires forall i :: 0 <= i < |spans| ==> spans[i].len == RunLengths(selected, length)[i]
    ensures CountSingles(spans) == PlannedSingles(selected, length)
  {
    LastRunLength(selected, length);
    assert |spans| > 0;
    var full := spans[..|spans| - 1];
    forall i | 0 <= i < |full| ensures full[i].len == length {
      RunLengthsAt(selected, length, i);
    }
    EqualSpansSingles(full, length);
    if length == 1 {
      assert CeilDiv(selected, length) == selected;
    }
  }

  lemma {:induction false} AfterFirstSpan(spans: seq<Span>, n: nat)
    requires spans != [] && n < |ExpandAll(spans[1..])|
    ensures spans[0].len + n < |ExpandAll(spans)| && ExpandAll(spans)[spans[0].len + n] == ExpandAll(spans[1..])[n]
  {
  }

  lemma {:induction false} OneRunLess(q: nat, length: nat, j: nat, n: nat)
    requires q > 0 && n == q * length + j
    ensures length <= n && n - length == (q - 1) * length + j
  {
    assert q * length == (q - 1) * length + length;
    MulMonotone(0, q - 1, length);
  }

  lemma {:induction false} InFirstSpan(selected: nat, length: nat, spans: seq<Span>, j: nat)
    requires j < length && j < selected && |spans| == |RunLengths(selected, length)|
    requires forall i :: 0 <= i < |spans| ==> spans[i].len == RunLengths(selected, length)[i]
    ensures 0 < |spans| && j < |ExpandAll(spans)| && ExpandAll(spans)[j] == Pair(spans[0].cpu + j, spans[0].npu + j)
  {
    assert spans[0].len == Min(length, selected);
    assert Expand(spans[0])[j] == Pair(spans[0].cpu + j, spans[0].npu + j);
  }

  lemma {:induction false} RestOfRuns(selected: nat, length: nat, spans: seq<Span>)
    requires 0 < length < selected && |spans| == |RunLengths(selected, length)|
    requires forall i :: 0 <= i < |spans| ==> spans[i].len == RunLengths(selected, length)[i]
    ensures spans != [] && spans[0].len == length && |spans[1..]| == |RunLengths(selected - length, length)|
    ensures forall i :: 0 <= i < |spans[1..]| ==> spans[1..][i].len == RunLengths(selected - length, length)[i]
  {
    assert RunLengths(selected, length) == [length] + RunLengths(selected - length, length);
  }

  // Pair n is block j of run q when n is q * length + j.
  lemma {:induction false} ExpandedAt(selected: nat, length: nat, spans: seq<Span>, n: nat, q: nat, j: nat)
    requires j < length && n == q * length + j && n < selected && |spans| == |RunLengths(selected, length)|
    requires forall i :: 0 <= i < |spans| ==> spans[i].len == RunLengths(selected, length)[i]
    ensures q < |spans| && n < |ExpandAll(spans)| && ExpandAll(spans)[n] == Pair(spans[q].cpu + j, spans[q].npu + j)
    decreases q
  {
    if q == 0 {
      InFirstSpan(selected, length, spans, j);
    } else {
      OneRunLess(q, length, j, n);
      RestOfRuns(selected, length, spans);
      ExpandedAt(selected - length, length, spans[1..], n - length, q - 1, j);
      AfterFirstSpan(spans, n - length);
    }
  }

  // Block j of the run in a slot.
  function BlockAt(slot: nat, length: nat, j: nat): nat { slot * (length + 1) + j }

  // Where every pair of a generated mapping is: the n-th one is block n % length of
  // run n / length, in that run's slot on either side.
  lemma {:induction false} GeneratedAt(pairs: seq<Pair>, selected: nat, length: nat, cpu: seq<nat>, npu: seq<nat>,
                                       cpuBlocks: nat, npuBlocks: nat, n: nat, run: nat, j: nat)
    requires length > 0 && Generated(pairs, selected, length, cpu, npu, cpuBlocks, npuBlocks)
    requires n < selected && run == n / length && j == n % length
    ensures n < |pairs| && run < |cpu| && run < |npu|
    ensures pairs[n] == Pair(BlockAt(cpu[run], length, j), BlockAt(npu[run], length, j))
  {
    var spans := PlannedSpans(RunLengths(selected, length), length + 1, cpu, npu);
    QuotientAndRemainder(n, length);
    ExpandedAt(selected, length, spans, n, run, j);
  }

  lemma {:induction false} QuotientAndRemainder(n: nat, length: nat)
    requires length > 0
    ensures n == n / length * length + n % length && n % length < length
  {
  }

  // The summary of a case: as many spans as runs were planned, of the lengths planned.
  ghost predicate Summary(c: Case, selected: nat, length: nat)
    requires length > 0
  {
    && c.spans == Coalesce(c.pairs)
    && c.spanCount == CeilDiv(selected, length) == |c.spans| > 0
    && c.meanLength == Ratio(selected, c.spanCount)
    && c.maxLength == Min(length, selected)
    && c.singleRatio == Ratio(PlannedSingles(selected, length), c.spanCount)
  }

  // Generates a case and summarises its spans.
  method MakeCase(selected: int, length: int, cpuBlocks: int, npuBlocks: int, cpu: seq<nat>, npu: seq<nat>)
    returns (r: Result<Case>)
    requires Shuffles(selected, length, cpu, npu)
    ensures r.Ok? <==> Fits(selected, length, cpuBlocks) && Fits(selected, length, npuBlocks)
    ensures r.Ok? ==> Generated(r.value.pairs, selected, length, cpu, npu, cpuBlocks, npuBlocks)
    ensures r.Ok? ==> Summary(r.value, selected, length)
  {
    var built := BuildFragmentedMapping(selected, length, cpuBlocks, npuBlocks, cpu, npu);
    if built.Err? {
      return Err(built.error);
    }
    var spans := CoalesceBlockCopySpans(built.value);
    var total, largest, singles := Summarise(spans);
    SpansFollowPlan(built.value, selected, length, cpu, npu, cpuBlocks, npuBlocks);
    SummaryHolds(built.value, spans, selected, length, total, largest, singles);
    return Ok(Case(|spans|, Ratio(total, |spans|), largest, Ratio(singles, |spans|), built.value, spans));
  }

  function Ratio(a: nat, b: nat): real
    requires b > 0
  {
    a as real / b as real
  }

  lemma {:induction false} SpansFollowPlan(pairs: seq<Pair>, selected: nat, length: nat, cpu: seq<nat>, npu: seq<nat>,
                                           cpuBlocks: nat, npuBlocks: nat)
    requires length > 0 && Generated(pairs, selected, length, cpu, npu, cpuBlocks, npuBlocks)
    ensures var spans, lens := Coalesce(pairs), RunLengths(selected, length);
            && |spans| == |lens| == CeilDiv(selected, length)
            && forall i :: 0 <= i < |lens| ==> spans[i].len == lens[i]
  {
  }

  lemma {:induction false} SummaryHolds(pairs: seq<Pair>, spans: seq<Span>, selected: nat, length: nat, total: nat,
                                        largest: nat, singles: nat)
    requires selected > 0 && length > 0 && spans == Coalesce(pairs)
    requires |spans| == |RunLengths(selected, length)| == CeilDiv(selected, length)
    requires forall i :: 0 <= i < |spans| ==> spans[i].len == RunLengths(selected, length)[i]
    requires total == TotalLength(spans) && singles == CountSingles(spans)
    requires forall j :: 0 <= j < |spans| ==> spans[j].len <= largest
    requires |spans| > 0 ==> exists j :: 0 <= j < |spans| && spans[j].len == largest
    ensures |spans| > 0
    ensures Summary(Case(|spans|, Ratio(total, |spans|), largest, Ratio(singles, |spans|), pairs, spans),
                    selected, length)
  {
    LengthsAdd(selected, length, spans);
    MaxRunIsFirst(selected, length, spans, largest);
    SinglesArePlanned(selected, length, spans);
  }

  lemma {:induction false} TotalSnoc(spans: seq<Span>, s: Span)
    ensures TotalLength(spans + [s]) == TotalLength(spans) + s.len
  {
    if spans == [] {
      assert spans + [s] == [s];
    } else {
      TotalSnoc(spans[1..], s);
      assert (spans + [s])[1..] == spans[1..] + [s];
    }
  }

  lemma {:induction false} MaxRunIsFirst(selected: nat, length: nat, spans: seq<Span>, largest: nat)
    requires selected > 0 && length > 0 && |spans| == |RunLengths(selected, length)|
    requires forall i :: 0 <= i < |spans| ==> spans[i].len == RunLengths(selected, length)[i]
    requires forall i :: 0 <= i < |spans| ==> spans[i].len <= largest
    requires |spans| > 0 ==> exists i :: 0 <= i < |spans| && spans[i].len == largest
    ensures |spans| > 0 && largest == Min(length, selected)
  {
    RunLengthsAt(selected, length, 0);
    TotalAtLeast(spans);
    LengthsAdd(selected, length, spans);
  }

  lemma {:induction false} TotalAtLeast(spans: seq<Span>)
    ensures forall i :: 0 <= i < |spans| ==> spans[i].len <= TotalLength(spans)
  {
    if spans == [] {
    } else {
      TotalAtLeast(spans[1..]);
      forall i | 0 <= i < |spans| ensures spans[i].len <= TotalLength(spans) {
        if i > 0 {
          assert spans[i] == spans[1..][i - 1];
        }
      }
    }
  }
}
