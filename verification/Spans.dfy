// Coalescing block pairs into contiguous spans, and copying by spans.
module Spans {

  // Block `cpu` of the host pool goes to block `npu` of the device pool.
  datatype Pair = Pair(cpu: int, npu: int)

  datatype Span = Span(cpu: int, npu: int, len: nat)

  function Expand(s: Span): (ps: seq<Pair>)
    ensures |ps| == s.len
    ensures forall i :: 0 <= i < s.len ==> ps[i] == Pair(s.cpu + i, s.npu + i)
  {
    seq(s.len, i => Pair(s.cpu + i, s.npu + i))
  }

  function ExpandAll(spans: seq<Span>): seq<Pair> {
    if spans == [] then [] else Expand(spans[0]) + ExpandAll(spans[1..])
  }

  // The second span continues the first on both sides.
  predicate Joins(a: Span, b: Span) {
    b.cpu == a.cpu + a.len && b.npu == a.npu + a.len
  }

  ghost predicate Maximal(spans: seq<Span>) {
    && NonEmptySpans(spans)
    && (forall i :: 0 < i < |spans| ==> !Joins(spans[i - 1], spans[i]))
  }

  // Puts one pair before a decomposition, in its first span where it joins that.
  function Prepend(first: Pair, rest: seq<Span>): (spans: seq<Span>)
    requires Maximal(rest)
    ensures ExpandAll(spans) == [first] + ExpandAll(rest)
    ensures Maximal(spans)
  {
    var one := Span(first.cpu, first.npu, 1);
    if rest != [] && Joins(one, rest[0]) then
      var longer := Span(one.cpu, one.npu, rest[0].len + 1);
      assert Expand(longer) == [first] + Expand(rest[0]);
      assert ([longer] + rest[1..])[1..] == rest[1..];
      [longer] + rest[1..]
    else
      assert Expand(one) == [first];
      assert ([one] + rest)[1..] == rest;
      [one] + rest
  }

  // The decomposition of a mapping into maximal runs.
  function Coalesce(pairs: seq<Pair>): (spans: seq<Span>)
    ensures ExpandAll(spans) == pairs
    ensures Maximal(spans)
  {
    if pairs == [] then []
    else
      assert pairs == [pairs[0]] + pairs[1..];
      Prepend(pairs[0], Coalesce(pairs[1..]))
  }

  lemma {:induction false} ExpandConcat(a: seq<Span>, b: seq<Span>)
    ensures ExpandAll(a + b) == ExpandAll(a) + ExpandAll(b)
  {
    if a == [] {
      assert a + b == b;
    } else {
      assert (a + b)[1..] == a[1..] + b;
      ExpandConcat(a[1..], b);
      assert ExpandAll(a + b) == Expand(a[0]) + (ExpandAll(a[1..]) + ExpandAll(b));
    }
  }

  ghost predicate NonEmptySpans(spans: seq<Span>) {
    forall i :: 0 <= i < |spans| ==> spans[i].len > 0
  }

  // Of two decompositions of one mapping, one with a shorter first span could
  // merge its first two.
  lemma {:induction false} ShorterFirstCanMerge(a: seq<Span>, b: seq<Span>)
    requires NonEmptySpans(a) && NonEmptySpans(b) && a != [] && b != []
    requires ExpandAll(a) == ExpandAll(b)
    ensures a[0].cpu == b[0].cpu && a[0].npu == b[0].npu
    ensures a[0].len > b[0].len ==> |b| > 1 && Joins(b[0], b[1])
  {
    var ps, n := ExpandAll(a), b[0].len;
    assert ps[0] == Expand(a[0])[0] == Expand(b[0])[0];
    if a[0].len > n {
      assert ps[n] == Expand(a[0])[n];
      var rest := ExpandAll(b[1..]);
      assert ps == Expand(b[0]) + rest;
      assert ps[n] == rest[0] == Expand(b[1])[0];
    }
  }

  // The maximal decomposition is unique.
  lemma {:induction false} MaximalIsUnique(a: seq<Span>, b: seq<Span>)
    requires Maximal(a) && Maximal(b)
    requires ExpandAll(a) == ExpandAll(b)
    ensures a == b
  {
    if a != [] && b != [] {
      ShorterFirstCanMerge(a, b);
      ShorterFirstCanMerge(b, a);
      var n := a[0].len;
      assert n == b[0].len;
      assert ExpandAll(a)[n..] == ExpandAll(a[1..]) && ExpandAll(b)[n..] == ExpandAll(b[1..]);
      MaximalIsUnique(a[1..], b[1..]);
    }
  }

  // Putting a run in front adds at most one span.
  lemma {:induction false} RunAddsOneSpan(s: Span, rest: seq<Pair>)
    ensures |Coalesce(Expand(s) + rest)| <= 1 + |Coalesce(rest)|
    decreases s.len
  {
    if s.len == 0 {
      assert Expand(s) + rest == rest;
    } else {
      var s' := Span(s.cpu + 1, s.npu + 1, s.len - 1);
      var ps := Expand(s) + rest;
      assert ps[1..] == Expand(s') + rest;
      if s.len == 1 {
        assert ps[1..] == rest;
      } else {
        RunAddsOneSpan(s', rest);
        CoalesceStart(ps[1..]);
        assert ps[1] == Pair(s.cpu + 1, s.npu + 1);
      }
    }
  }

  lemma {:induction false} CoalesceStart(pairs: seq<Pair>)
    requires pairs != []
    ensures Coalesce(pairs) != []
    ensures Coalesce(pairs)[0].cpu == pairs[0].cpu && Coalesce(pairs)[0].npu == pairs[0].npu
  {
  }

  // No span list for the same mapping is shorter.
  lemma {:induction false} CoalesceIsShortest(spans: seq<Span>)
    ensures |Coalesce(ExpandAll(spans))| <= |spans|
  {
    if spans == [] {
    } else {
      CoalesceIsShortest(spans[1..]);
      RunAddsOneSpan(spans[0], ExpandAll(spans[1..]));
    }
  }

  // The coalescing loop of the benchmark.
  method CoalesceBlockCopySpans(pairs: seq<Pair>) returns (spans: seq<Span>)
    ensures spans == Coalesce(pairs)
  {
    if pairs == [] {
      return [];
    }
    spans := [];
    var cpuStart, npuStart := pairs[0].cpu, pairs[0].npu;
    var previousCpu, previousNpu := cpuStart, npuStart;
    var spanLen: nat := 1;
    var i := 1;
    assert ExpandAll([Span(cpuStart, npuStart, 1)]) == pairs[..1];
    while i < |pairs|
      invariant 1 <= i <= |pairs| && spanLen > 0
      invariant previousCpu == cpuStart + spanLen - 1 && previousNpu == npuStart + spanLen - 1
      invariant ExpandAll(spans + [Span(cpuStart, npuStart, spanLen)]) == pairs[..i]
      invariant Maximal(spans + [Span(cpuStart, npuStart, spanLen)])
    {
      var cpu, npu := pairs[i].cpu, pairs[i].npu;
      var current := Span(cpuStart, npuStart, spanLen);
      assert pairs[..i + 1] == pairs[..i] + [pairs[i]];
      if cpu == previousCpu + 1 && npu == previousNpu + 1 {
        spanLen := spanLen + 1;
        GrowLast(spans, current);
      } else {
        ExpandConcat(spans + [current], [Span(cpu, npu, 1)]);
        assert ExpandAll([Span(cpu, npu, 1)]) == [pairs[i]];
        spans := spans + [current];
        cpuStart, npuStart := cpu, npu;
        spanLen := 1;
      }
      previousCpu, previousNpu := cpu, npu;
      i := i + 1;
    }
    spans := spans + [Span(cpuStart, npuStart, spanLen)];
    assert pairs[..i] == pairs;
    MaximalIsUnique(spans, Coalesce(pairs));
  }

  // Growing the last span by one pair.
  lemma {:induction false} GrowLast(spans: seq<Span>, s: Span)
    requires Maximal(spans + [s])
    ensures var longer := Span(s.cpu, s.npu, s.len + 1);
            && ExpandAll(spans + [longer]) == ExpandAll(spans + [s]) + [Pair(s.cpu + s.len, s.npu + s.len)]
            && Maximal(spans + [longer])
  {
    var longer := Span(s.cpu, s.npu, s.len + 1);
    ExpandConcat(spans, [s]);
    ExpandConcat(spans, [longer]);
    assert ExpandAll([s]) == Expand(s) && ExpandAll([longer]) == Expand(longer);
    assert Expand(longer) == Expand(s) + [Pair(s.cpu + s.len, s.npu + s.len)];
    forall i | 0 <= i < |spans| ensures spans[i].len > 0 {
      assert (spans + [s])[i] == spans[i];
    }
    forall i | 0 < i < |spans| + 1 ensures !Joins((spans + [longer])[i - 1], (spans + [longer])[i]) {
      assert !Joins((spans + [s])[i - 1], (spans + [s])[i]);
    }
  }
}
