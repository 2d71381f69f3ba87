// CPU lists as text: what binding prints and what the parser makes of it.
module CpuLists {
  import opened Options
  import opened Text

  // range(first, last + 1)
  function Interval(first: int, last: int): (r: seq<int>)
    ensures |r| == (if first <= last then last - first + 1 else 0)
    ensures forall i :: 0 <= i < |r| ==> r[i] == first + i
    decreases last - first
  {
    if first > last then [] else [first] + Interval(first + 1, last)
  }

  // One piece of a list: a number, or two numbers around a dash.
  function ExpandPart(part: string): Option<seq<int>> {
    if '-' in part then
      var ends := Split(part, '-');
      if |ends| == 2 && ParseInt(ends[0]).Some? && ParseInt(ends[1]).Some?
      then Some(Interval(ParseInt(ends[0]).value, ParseInt(ends[1]).value))
      else None
    else
      match ParseInt(part)
      case Some(cpu) => Some([cpu])
      case None => None
  }

  // The pieces' ids in order, unless some piece is malformed.
  function Flatten(pieces: seq<Option<seq<int>>>): Option<seq<int>> {
    if pieces == [] then Some([])
    else
      match (Flatten(pieces[..|pieces| - 1]), pieces[|pieces| - 1])
      case (Some(before), Some(cpus)) => Some(before + cpus)
      case _ => None
  }

  function Pieces(parts: seq<string>): (r: seq<Option<seq<int>>>)
    ensures |r| == |parts|
    ensures forall i :: 0 <= i < |r| ==> r[i] == ExpandPart(parts[i])
  {
    if parts == [] then [] else Pieces(parts[..|parts| - 1]) + [ExpandPart(parts[|parts| - 1])]
  }

  // What a CPU list means; no value stands for the raised ValueError.
  function Parse(text: string): Option<seq<int>> { Flatten(Pieces(Split(text, ','))) }

  lemma {:induction false} FailureStays(pieces: seq<Option<seq<int>>>, i: nat)
    requires i <= |pieces| && Flatten(pieces[..i]).None?
    ensures Flatten(pieces).None?
    decreases |pieces| - i
  {
    if i == |pieces| {
      assert pieces[..i] == pieces;
    } else {
      assert pieces[..i + 1][..i] == pieces[..i];
      FailureStays(pieces, i + 1);
    }
  }

  // Parses a CPU list.
  method ExpandCpuList(text: string) returns (r: Option<seq<int>>)
    ensures r == Parse(text)
  {
    var parts := Split(text, ',');
    ghost var pieces := Pieces(parts);
    var cpus: seq<int> := [];
    for i := 0 to |parts|
      invariant Flatten(pieces[..i]) == Some(cpus)
    {
      assert pieces[..i + 1][..i] == pieces[..i];
      var more := ExpandPart(parts[i]);
      if more.None? {
        FailureStays(pieces, i + 1);
        return None;
      }
      cpus := cpus + more.value;
    }
    assert pieces[..|parts|] == pieces;
    return Some(cpus);
  }

  // ---------------------------------------------------------- written lists

  // A list as it may be written: numbers and intervals, with spaces before them.
  datatype Item = One(spaces: nat, cpu: nat) | Span(spaces: nat, first: nat, last: nat) {
    function Text(): string {
      Spaces(spaces) + match this
                       case One(_, cpu) => Decimal(cpu)
                       case Span(_, first, last) => Decimal(first) + ['-'] + Decimal(last)
    }

    function Cpus(): seq<int> {
      match this
      case One(_, cpu) => [cpu]
      case Span(_, first, last) => Interval(first, last)
    }
  }

  function Texts(items: seq<Item>): (r: seq<string>)
    ensures |r| == |items|
    ensures forall i :: 0 <= i < |r| ==> r[i] == items[i].Text()
  {
    if items == [] then [] else Texts(items[..|items| - 1]) + [items[|items| - 1].Text()]
  }

  function AllCpus(items: seq<Item>): seq<int> {
    if items == [] then [] else AllCpus(items[..|items| - 1]) + items[|items| - 1].Cpus()
  }

  lemma {:induction false} DashText(left: string, right: string)
    requires '-' !in left && '-' !in right
    ensures var part := left + ['-'] + right;
            ExpandPart(part) == if ParseInt(left).Some? && ParseInt(right).Some?
                                then Some(Interval(ParseInt(left).value, ParseInt(right).value)) else None
  {
    var part := left + ['-'] + right;
    SplitAt(left, '-', right);
    SplitWhole(left, '-');
    SplitWhole(right, '-');
    assert part[|left|] == '-';
  }

  lemma {:induction false} PlainText(k: nat, n: nat)
    ensures '-' !in Spaces(k) + Decimal(n) && ',' !in Spaces(k) + Decimal(n)
  {
  }

  lemma {:induction false} OneText(k: nat, cpu: nat)
    ensures ExpandPart(Spaces(k) + Decimal(cpu)) == Some([cpu])
  {
    PlainText(k, cpu);
    ParseDecimal(k, cpu);
  }

  lemma {:induction false} SpanText(k: nat, first: nat, last: nat)
    ensures ExpandPart(Spaces(k) + Decimal(first) + ['-'] + Decimal(last)) == Some(Interval(first, last))
  {
    var left, right := Spaces(k) + Decimal(first), Spaces(0) + Decimal(last);
    PlainText(k, first);
    PlainText(0, last);
    ParseDecimal(k, first);
    ParseDecimal(0, last);
    DashText(left, right);
    assert right == Decimal(last);
  }

  lemma {:induction false} ItemText(item: Item)
    ensures ',' !in item.Text()
    ensures ExpandPart(item.Text()) == Some(item.Cpus())
  {
    match item
    case One(k, cpu) =>
      PlainText(k, cpu);
      OneText(k, cpu);
    case Span(k, first, last) =>
      PlainText(k, first);
      PlainText(0, last);
      SpanText(k, first, last);
      assert item.Text() == Spaces(k) + Decimal(first) + ['-'] + Decimal(last);
  }

  lemma {:induction false} FlattenItems(items: seq<Item>, pieces: seq<Option<seq<int>>>)
    requires |pieces| == |items| && forall i :: 0 <= i < |items| ==> pieces[i] == Some(items[i].Cpus())
    ensures Flatten(pieces) == Some(AllCpus(items))
  {
    if items == [] {
    } else {
      FlattenItems(items[..|items| - 1], pieces[..|items| - 1]);
    }
  }

  // Every written list means the ids of its items, in order; `a-b` is every id
  // from a to b.
  lemma {:induction false} WrittenListParses(items: seq<Item>)
    requires items != []
    ensures Parse(Join(Texts(items), ',')) == Some(AllCpus(items))
  {
    var texts := Texts(items);
    forall i | 0 <= i < |items| ensures ',' !in texts[i] && Pieces(texts)[i] == Some(items[i].Cpus()) {
      ItemText(items[i]);
    }
    SplitJoin(texts, ',');
    FlattenItems(items, Pieces(texts));
  }

  // A piece with two dashes is malformed.
  lemma {:induction false} TwoDashesFail(a: string, b: string, c: string)
    ensures ExpandPart(a + ['-'] + (b + ['-'] + c)).None?
  {
    var part := a + ['-'] + (b + ['-'] + c);
    SplitAt(a, '-', b + ['-'] + c);
    SplitAt(b, '-', c);
    assert part[|a|] == '-';
  }

  // A list is malformed exactly when one of its pieces is.
  lemma {:induction false} ParsesIff(pieces: seq<Option<seq<int>>>)
    ensures Flatten(pieces).Some? <==> forall i :: 0 <= i < |pieces| ==> pieces[i].Some?
  {
    if pieces == [] {
    } else {
      ParsesIff(pieces[..|pieces| - 1]);
    }
  }

  // ---------------------------------------------------------- printed lists

  // str(n), for any integer.
  function Number(n: int): string {
    if n < 0 then ['-'] + Decimal(-n) else Decimal(n)
  }

  function Numbers(cpus: seq<int>): (r: seq<string>)
    ensures |r| == |cpus|
    ensures forall i :: 0 <= i < |r| ==> r[i] == Number(cpus[i])
  {
    if cpus == [] then [] else Numbers(cpus[..|cpus| - 1]) + [Number(cpus[|cpus| - 1])]
  }

  // The list argument that binding passes to taskset.
  function Printed(cpus: seq<int>): string { Join(Numbers(cpus), ',') }

  lemma {:induction false} NegativeText(n: int)
    requires n < 0
    ensures ',' !in Number(n) && ExpandPart(Number(n)).None?
  {
    PlainText(0, -n);
    var digits := Spaces(0) + Decimal(-n);
    assert digits == Decimal(-n);
    NothingBeforeDash(digits, Number(n));
  }

  lemma {:induction false} NothingBeforeDash(digits: string, text: string)
    requires '-' !in digits && ',' !in digits && text == ['-'] + digits
    ensures ',' !in text && ExpandPart(text).None?
  {
    DashText([], digits);
    assert [] + ['-'] + digits == text;
  }

  lemma {:induction false} NumberText(n: nat)
    ensures ',' !in Number(n) && ExpandPart(Number(n)) == Some([n])
  {
    PlainText(0, n);
    OneText(0, n);
    assert Spaces(0) + Decimal(n) == Number(n);
  }

  predicate NoNegative(cpus: seq<int>) {
    forall i :: 0 <= i < |cpus| ==> cpus[i] >= 0
  }

  lemma {:induction false} NumberPart(n: int)
    ensures ',' !in Number(n)
    ensures ExpandPart(Number(n)) == if n < 0 then None else Some([n])
  {
    if n < 0 {
      NegativeText(n);
    } else {
      NumberText(n);
    }
  }

  lemma {:induction false} FlattenNumbers(cpus: seq<int>, pieces: seq<Option<seq<int>>>)
    requires |pieces| == |cpus|
    requires forall i :: 0 <= i < |cpus| ==> pieces[i] == if cpus[i] < 0 then None else Some([cpus[i]])
    ensures Flatten(pieces) == if NoNegative(cpus) then Some(cpus) else None
  {
    if cpus == [] {
    } else {
      var before, last := cpus[..|cpus| - 1], cpus[|cpus| - 1];
      FlattenNumbers(before, pieces[..|cpus| - 1]);
      assert cpus == before + [last];
    }
  }

  // Parsing gives a printed list back exactly when the list is not empty and
  // holds no negative number; otherwise it fails.
  lemma {:induction false} PrintedListParsesIff(cpus: seq<int>)
    ensures Parse(Printed(cpus)) == if cpus != [] && NoNegative(cpus) then Some(cpus) else None
  {
    if cpus == [] {
      SplitWhole(Printed(cpus), ',');
      assert Pieces(Split(Printed(cpus), ','))[..0] == [];
    } else {
      var texts := Numbers(cpus);
      forall i | 0 <= i < |cpus|
        ensures ',' !in texts[i] && Pieces(texts)[i] == if cpus[i] < 0 then None else Some([cpus[i]])
      {
        NumberPart(cpus[i]);
      }
      SplitJoin(texts, ',');
      FlattenNumbers(cpus, Pieces(texts));
    }
  }
}
