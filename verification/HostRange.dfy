// Address arithmetic behind the mapped-host registry: 64-bit limits, half-open
// byte ranges, and the expansion of a request to whole OS pages.
module HostRange {
  import opened Arithmetic

  const U64_MAX: nat := 0xFFFF_FFFF_FFFF_FFFF
  const U64_SPAN: nat := 0x1_0000_0000_0000_0000

  // One constructor per check that can throw while managing the registry.
  datatype Error =
    | NullPointer | EmptyRange | PageSizeUnavailable | AddressOverflow | SizeOverflow
    | DeviceQueryFailed | CrossDevice
    | CachedMappingOverflow | PartialOverlap | RegisterFailed
    | MappingIdsExhausted | HandlesExhausted
    | NotRegistered
    | NoMapping | InvalidReferenceCount | WrongDevice | FenceFailed | UnregisterFailed

  datatype Outcome<+T> = Returned(value: T) | Threw(error: Error)

  // The bytes base, base + 1, ..., base + size - 1.
  datatype Range = Range(base: nat, size: nat) {
    function End(): nat { base + size }
  }

  predicate Overlaps(a: Range, b: Range) {
    a.base < b.End() && b.base < a.End()
  }

  predicate Within(a: Range, b: Range) {
    b.base <= a.base && a.End() <= b.End()
  }

  // A caller's tensor: its data pointer and its length in bytes.
  datatype Request = Request(addr: nat, bytes: nat) {
    function AsRange(): Range { Range(addr, bytes) }
  }

  datatype HostSpan = HostSpan(addr: nat, aligned: nat, offset: nat, registerSize: nat) {
    function Pages(): Range { Range(aligned, registerSize) }
  }

  function RoundUp(value: nat, alignment: int): (r: Outcome<nat>)
    ensures r.Returned? <==> alignment > 0 && value + alignment - 1 <= U64_MAX
    ensures r.Returned? ==> value <= r.value < value + alignment && r.value % alignment == 0
  {
    if alignment <= 0 then Threw(PageSizeUnavailable)
    else if value > U64_MAX - (alignment - 1) then Threw(SizeOverflow)
    else
      var pages := (value + alignment - 1) / alignment;
      MultipleIsAligned(pages, alignment);
      assert pages * alignment == value + alignment - 1 - (value + alignment - 1) % alignment;
      Returned(pages * alignment)
  }

  // Expands a request to whole pages.  The result holds the request, starts and
  // ends on page boundaries, and no page of it is free of request bytes.
  function GetHostRange(req: Request, page: int): (r: Outcome<HostSpan>)
    ensures r.Returned? <==>
              && req.addr != 0 && req.bytes > 0 && page > 0
              && req.addr + req.bytes <= U64_MAX
              && req.addr % page + req.bytes + page - 1 <= U64_MAX
    ensures r.Returned? ==>
              && r.value.addr == req.addr == r.value.aligned + r.value.offset
              && PageCover(req.AsRange(), r.value.Pages(), page)
              && r.value.registerSize <= U64_MAX
    ensures r.Threw? ==> r.error in {NullPointer, EmptyRange, PageSizeUnavailable, AddressOverflow, SizeOverflow}
  {
    if req.addr == 0 then Threw(NullPointer)
    else if req.bytes == 0 then Threw(EmptyRange)
    else if page <= 0 then Threw(PageSizeUnavailable)
    else if req.bytes > U64_MAX - req.addr then Threw(AddressOverflow)
    else
      var aligned := req.addr / page * page;
      FloorIsAligned(req.addr, page);
      var offset := req.addr - aligned;
      if req.bytes > U64_MAX - offset then Threw(SizeOverflow)
      else
        match RoundUp(offset + req.bytes, page)
        case Threw(e) => Threw(e)
        case Returned(size) =>
          SumIsAligned(aligned, size, page);
          Returned(HostSpan(req.addr, aligned, offset, size))
  }

  // The first check that fails decides the error.
  lemma {:induction false} HostRangeErrors(req: Request, page: int)
    requires GetHostRange(req, page).Threw?
    ensures GetHostRange(req, page).error ==
            if req.addr == 0 then NullPointer
            else if req.bytes == 0 then EmptyRange
            else if page <= 0 then PageSizeUnavailable
            else if req.addr + req.bytes > U64_MAX then AddressOverflow
            else SizeOverflow
  {
  }

  // `pages` is the smallest page-aligned range around the non-empty `req`.
  ghost predicate PageCover(req: Range, pages: Range, page: int) {
    && page > 0 && req.size > 0
    && Within(req, pages)
    && pages.base % page == 0 && pages.End() % page == 0
    && req.base < pages.base + page
    && pages.End() < req.End() + page
  }

  // A range that ends on page boundaries and avoids a request also avoids every
  // page the request touches.
  lemma {:induction false} PageCoverStaysDisjoint(req: Range, pages: Range, other: Range, page: int)
    requires PageCover(req, pages, page)
    requires other.base % page == 0 && other.End() % page == 0
    requires !Overlaps(other, req)
    ensures !Overlaps(other, pages)
  {
    if other.End() <= req.base {
      AlignedGap(pages.base, other.End(), page);
    } else {
      AlignedGap(other.base, pages.End(), page);
    }
  }

  // Distinct page boundaries are at least a page apart.
  lemma {:induction false} AlignedGap(x: int, y: int, page: int)
    requires page > 0 && x % page == 0 && y % page == 0
    ensures x < y ==> x + page <= y
  {
    var i, j := x / page, y / page;
    assert x == page * i && y == page * j;
    if i < j {
      MulMonotone(i + 1, j, page);
    } else {
      MulMonotone(j, i, page);
    }
  }

  lemma {:induction false} MultipleIsAligned(k: int, p: int)
    requires p > 0
    ensures (k * p) % p == 0
  {
    var q, r := (k * p) / p, (k * p) % p;
    assert k * p == p * q + r;
    assert p * (k - q) == r;
    if k - q >= 1 {
      MulMonotone(1, k - q, p);
    } else if k - q <= -1 {
      MulMonotone(k - q, -1, p);
    }
  }

  lemma {:induction false} FloorIsAligned(x: nat, p: int)
    requires p > 0
    ensures 0 <= x / p * p <= x < x / p * p + p
    ensures x - x / p * p == x % p
    ensures (x / p * p) % p == 0
  {
    MultipleIsAligned(x / p, p);
    assert x == p * (x / p) + x % p;
  }

  lemma {:induction false} SumIsAligned(x: int, y: int, p: int)
    requires p > 0 && x % p == 0 && y % p == 0
    ensures (x + y) % p == 0
  {
    assert x == p * (x / p) && y == p * (y / p);
    assert x + y == (x / p + y / p) * p;
    MultipleIsAligned(x / p + y / p, p);
  }
}
