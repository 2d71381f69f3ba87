// Copying span by span against copying block pairs one at a time.
module BlockCopy {
  import opened Spans

  ghost predicate InBounds(pairs: seq<Pair>, srcBlocks: nat, dstBlocks: nat) {
    forall i :: 0 <= i < |pairs| ==> 0 <= pairs[i].cpu < srcBlocks && 0 <= pairs[i].npu < dstBlocks
  }

  predicate SpanInBounds(s: Span, srcBlocks: nat, dstBlocks: nat) {
    0 <= s.cpu && s.cpu + s.len <= srcBlocks && 0 <= s.npu && s.npu + s.len <= dstBlocks
  }

  ghost predicate SpansInBounds(spans: seq<Span>, srcBlocks: nat, dstBlocks: nat) {
    forall i :: 0 <= i < |spans| ==> SpanInBounds(spans[i], srcBlocks, dstBlocks)
  }

  // The reference: copy the pairs in order, one block each.
  ghost function CopyPairs<T>(dst: seq<T>, src: seq<T>, pairs: seq<Pair>): (r: seq<T>)
    requires InBounds(pairs, |src|, |dst|)
    ensures |r| == |dst|
  {
    if pairs == [] then dst
    else
      var last := pairs[|pairs| - 1];
      CopyPairs(dst, src, pairs[..|pairs| - 1])[last.npu := src[last.cpu]]
  }

  // One bulk copy.
  ghost function CopySpan<T>(dst: seq<T>, src: seq<T>, s: Span): (r: seq<T>)
    requires SpanInBounds(s, |src|, |dst|)
    ensures |r| == |dst|
    ensures forall j :: 0 <= j < |dst| ==>
              r[j] == if s.npu <= j < s.npu + s.len then src[s.cpu + (j - s.npu)] else dst[j]
  {
    dst[..s.npu] + src[s.cpu..s.cpu + s.len] + dst[s.npu + s.len..]
  }

  ghost function CopySpans<T>(dst: seq<T>, src: seq<T>, spans: seq<Span>): (r: seq<T>)
    requires SpansInBounds(spans, |src|, |dst|)
    ensures |r| == |dst|
  {
    if spans == [] then dst
    else CopySpan(CopySpans(dst, src, spans[..|spans| - 1]), src, spans[|spans| - 1])
  }

  lemma {:induction false} CopyPairsConcat<T>(dst: seq<T>, src: seq<T>, a: seq<Pair>, b: seq<Pair>)
    requires InBounds(a, |src|, |dst|) && InBounds(b, |src|, |dst|)
    ensures InBounds(a + b, |src|, |dst|)
    ensures CopyPairs(dst, src, a + b) == CopyPairs(CopyPairs(dst, src, a), src, b)
  {
    if b == [] {
      assert a + b == a;
    } else {
      var b' := b[..|b| - 1];
      CopyPairsConcat(dst, src, a, b');
      assert (a + b)[..|a + b| - 1] == a + b';
    }
  }

  // A bulk copy does what its pairs do one by one.
  lemma {:induction false} CopySpanIsPairs<T>(dst: seq<T>, src: seq<T>, s: Span)
    requires SpanInBounds(s, |src|, |dst|)
    ensures InBounds(Expand(s), |src|, |dst|)
    ensures CopySpan(dst, src, s) == CopyPairs(dst, src, Expand(s))
    decreases s.len
  {
    if s.len == 0 {
      assert Expand(s) == [];
      assert CopySpan(dst, src, s) == dst;
    } else {
      var s' := Span(s.cpu, s.npu, s.len - 1);
      CopySpanIsPairs(dst, src, s');
      assert Expand(s)[..s.len - 1] == Expand(s');
      assert CopySpan(dst, src, s) == CopySpan(dst, src, s')[s.npu + s.len - 1 := src[s.cpu + s.len - 1]];
    }
  }

  lemma {:induction false} CopySpansIsPairs<T>(dst: seq<T>, src: seq<T>, spans: seq<Span>)
    requires SpansInBounds(spans, |src|, |dst|)
    ensures InBounds(ExpandAll(spans), |src|, |dst|)
    ensures CopySpans(dst, src, spans) == CopyPairs(dst, src, ExpandAll(spans))
  {
    if spans == [] {
    } else {
      var before, last := spans[..|spans| - 1], spans[|spans| - 1];
      CopySpansIsPairs(dst, src, before);
      var mid := CopySpans(dst, src, before);
      CopySpanIsPairs(mid, src, last);
      ExpandLast(spans);
      CopyPairsConcat(dst, src, ExpandAll(before), Expand(last));
    }
  }

  lemma {:induction false} ExpandLast(spans: seq<Span>)
    requires spans != []
    ensures ExpandAll(spans) == ExpandAll(spans[..|spans| - 1]) + Expand(spans[|spans| - 1])
  {
    var before, last := spans[..|spans| - 1], spans[|spans| - 1];
    ExpandConcat(before, [last]);
    assert spans == before + [last] && ExpandAll([last]) == Expand(last);
  }

  lemma {:induction false} BoundsCarryToSpans(spans: seq<Span>, srcBlocks: nat, dstBlocks: nat)
    requires NonEmptySpans(spans) && InBounds(ExpandAll(spans), srcBlocks, dstBlocks)
    ensures SpansInBounds(spans, srcBlocks, dstBlocks)
  {
    if spans == [] {
    } else {
      var s, all := spans[0], ExpandAll(spans);
      assert all[0] == Pair(s.cpu, s.npu) && all[s.len - 1] == Pair(s.cpu + s.len - 1, s.npu + s.len - 1);
      forall i | 0 <= i < |ExpandAll(spans[1..])|
        ensures 0 <= ExpandAll(spans[1..])[i].cpu < srcBlocks && 0 <= ExpandAll(spans[1..])[i].npu < dstBlocks
      {
        assert all[s.len + i] == ExpandAll(spans[1..])[i];
      }
      BoundsCarryToSpans(spans[1..], srcBlocks, dstBlocks);
    }
  }

  // Copying the coalesced spans leaves the destination as copying the pairs does,
  // for every mapping in bounds, with repeated sources and destinations too.
  lemma {:induction false} SpanCopyIsPairCopy<T>(dst: seq<T>, src: seq<T>, pairs: seq<Pair>)
    requires InBounds(pairs, |src|, |dst|)
    ensures SpansInBounds(Coalesce(pairs), |src|, |dst|)
    ensures CopySpans(dst, src, Coalesce(pairs)) == CopyPairs(dst, src, pairs)
  {
    BoundsCarryToSpans(Coalesce(pairs), |src|, |dst|);
    CopySpansIsPairs(dst, src, Coalesce(pairs));
  }

  // Pair i writes the block, and no later pair does.
  ghost predicate LastWriter(pairs: seq<Pair>, block: nat, i: nat)
    requires i < |pairs|
  {
    pairs[i].npu == block && forall j :: i < j < |pairs| ==> pairs[j].npu != block
  }

  // The last pair written to a block decides it; other blocks keep their content.
  lemma {:induction false} LastPairWins<T>(dst: seq<T>, src: seq<T>, pairs: seq<Pair>, block: nat)
    requires InBounds(pairs, |src|, |dst|) && block < |dst|
    ensures (forall i :: 0 <= i < |pairs| ==> pairs[i].npu != block) ==> CopyPairs(dst, src, pairs)[block] == dst[block]
    ensures forall i :: 0 <= i < |pairs| && LastWriter(pairs, block, i) ==>
              CopyPairs(dst, src, pairs)[block] == src[pairs[i].cpu]
  {
    if pairs == [] {
    } else {
      var before := pairs[..|pairs| - 1];
      LastPairWins(dst, src, before, block);
      forall i | 0 <= i < |pairs| && LastWriter(pairs, block, i)
        ensures CopyPairs(dst, src, pairs)[block] == src[pairs[i].cpu]
      {
        assert i < |before| ==> LastWriter(before, block, i);
      }
    }
  }

  ghost function Row<T>(a: array2<T>, part: nat): (r: seq<T>)
    reads a
    requires part < a.Length0
    ensures |r| == a.Length1 && forall j :: 0 <= j < a.Length1 ==> r[j] == a[part, j]
  {
    seq(a.Length1, j requires 0 <= j < a.Length1 reads a => a[part, j])
  }

  // One bulk copy of one part, block by block.
  method CopyRange<T>(source: array2<T>, out: array2<T>, part: nat, s: Span)
    requires source != out && source.Length0 == out.Length0 && part < out.Length0
    requires SpanInBounds(s, source.Length1, out.Length1)
    modifies out
    ensures Row(out, part) == CopySpan(old(Row(out, part)), Row(source, part), s)
    ensures forall p :: 0 <= p < out.Length0 && p != part ==> Row(out, p) == old(Row(out, p))
  {
    ghost var src, dst := Row(source, part), Row(out, part);
    var k := 0;
    while k < s.len
      invariant 0 <= k <= s.len
      invariant Row(source, part) == src
      invariant forall j :: 0 <= j < out.Length1 ==>
                  out[part, j] == if s.npu <= j < s.npu + k then src[s.cpu + (j - s.npu)] else dst[j]
      invariant forall p, j :: 0 <= p < out.Length0 && p != part && 0 <= j < out.Length1 ==> out[p, j] == old(out[p, j])
    {
      out[part, s.npu + k] := source[part, s.cpu + k];
      k := k + 1;
    }
  }

  // One bulk copy of every part.
  method CopyRanges<T>(source: array2<T>, out: array2<T>, s: Span)
    requires source != out && source.Length0 == out.Length0
    requires SpanInBounds(s, source.Length1, out.Length1)
    modifies out
    ensures forall p :: 0 <= p < out.Length0 ==> Row(out, p) == CopySpan(old(Row(out, p)), Row(source, p), s)
  {
    for part := 0 to out.Length0
      invariant forall p :: 0 <= p < out.Length0 ==> Row(source, p) == old(Row(source, p))
      invariant forall p :: 0 <= p < out.Length0 ==>
                  Row(out, p) == if p < part then CopySpan(old(Row(out, p)), Row(source, p), s) else old(Row(out, p))
    {
      CopyRange(source, out, part, s);
    }
  }

  // The span baseline of the benchmark: spans outside, parts inside.
  method SpanCopy<T>(source: array2<T>, out: array2<T>, spans: seq<Span>)
    requires source != out && source.Length0 == out.Length0
    requires SpansInBounds(spans, source.Length1, out.Length1)
    modifies out
    ensures forall p :: 0 <= p < out.Length0 ==> Row(out, p) == CopySpans(old(Row(out, p)), Row(source, p), spans)
  {
    for i := 0 to |spans|
      invariant forall p :: 0 <= p < out.Length0 ==> Row(source, p) == old(Row(source, p))
      invariant forall p :: 0 <= p < out.Length0 ==>
                  Row(out, p) == CopySpans(old(Row(out, p)), Row(source, p), spans[..i])
    {
      assert spans[..i + 1][..i] == spans[..i];
      CopyRanges(source, out, spans[i]);
    }
    assert spans[..|spans|] == spans;
  }

  // Coalescing and then copying by spans is copying by pairs, in every part.
  method CoalesceAndCopy<T>(source: array2<T>, out: array2<T>, pairs: seq<Pair>)
    requires source != out && source.Length0 == out.Length0
    requires InBounds(pairs, source.Length1, out.Length1)
    modifies out
    ensures forall p :: 0 <= p < out.Length0 ==> Row(out, p) == CopyPairs(old(Row(out, p)), Row(source, p), pairs)
  {
    var spans := CoalesceBlockCopySpans(pairs);
    BoundsCarryToSpans(spans, source.Length1, out.Length1);
    forall p | 0 <= p < out.Length0
      ensures CopySpans(Row(out, p), Row(source, p), spans) == CopyPairs(Row(out, p), Row(source, p), pairs)
    {
      SpanCopyIsPairCopy(Row(out, p), Row(source, p), pairs);
    }
    SpanCopy(source, out, spans);
  }

  // The reference of the smoke test: one block per pair, in order.
  method CopyReference<T>(source: array<T>, out: array<T>, pairs: seq<Pair>)
    requires source != out && InBounds(pairs, source.Length, out.Length)
    modifies out
    ensures out[..] == CopyPairs(old(out[..]), source[..], pairs)
  {
    for i := 0 to |pairs|
      invariant source[..] == old(source[..])
      invariant out[..] == CopyPairs(old(out[..]), source[..], pairs[..i])
    {
      assert pairs[..i + 1][..i] == pairs[..i];
      out[pairs[i].npu] := source[pairs[i].cpu];
    }
    assert pairs[..|pairs|] == pairs;
  }
}
