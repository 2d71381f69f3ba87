// The CPU mask text written to an interrupt's affinity file.
module CpuMask {
  import opened Text

  const MASK_BIT := 32
  const WORD := 0x1_0000_0000

  function Pow2(n: nat): (r: nat)
    ensures r > 0
  {
    if n == 0 then 1 else 2 * Pow2(n - 1)
  }

  lemma {:induction false} Pow2Add(a: nat, b: nat)
    ensures Pow2(a + b) == Pow2(a) * Pow2(b)
  {
    if b == 0 {
    } else {
      Pow2Add(a, b - 1);
      assert Pow2(a + b) == 2 * Pow2(a + b - 1);
      DoubleProduct(Pow2(a), Pow2(b - 1));
    }
  }

  lemma {:induction false} DoubleProduct(x: nat, y: nat)
    ensures 2 * (x * y) == x * (2 * y)
  {
  }

  lemma {:induction false} Pow2OfWord()
    ensures Pow2(MASK_BIT) == WORD
  {
    assert Pow2(8) == 256;
    Pow2Add(8, 8);
    Pow2Add(16, 16);
  }

  lemma {:induction false} UpOneWord(n: nat)
    ensures Pow2(MASK_BIT + n) == WORD * Pow2(n)
  {
    Pow2OfWord();
    Pow2Add(MASK_BIT, n);
  }

  lemma {:induction false} Pow2Monotone(a: nat, b: nat)
    requires a <= b
    ensures Pow2(a) <= Pow2(b)
    decreases b
  {
    if a < b {
      Pow2Monotone(a, b - 1);
    }
  }

  // -------------------------------------------------------------------- hex

  predicate HexDigit(c: char) { '0' <= c <= '9' || 'a' <= c <= 'f' }

  function HexValue(c: char): nat
    requires HexDigit(c)
  {
    if c <= '9' then (c - '0') as nat else (c - 'a') as nat + 10
  }

  function HexChar(d: nat): (c: char)
    requires d < 16
    ensures HexDigit(c) && HexValue(c) == d
  {
    if d < 10 then '0' + d as char else 'a' + (d - 10) as char
  }

  // The low k hex digits of v, most significant first.
  function Hex(v: nat, k: nat): (s: string)
    ensures |s| == k && forall i :: 0 <= i < k ==> HexDigit(s[i])
  {
    if k == 0 then [] else Hex(v / 16, k - 1) + [HexChar(v % 16)]
  }

  ghost function Value(s: string): nat
    requires forall i :: 0 <= i < |s| ==> HexDigit(s[i])
  {
    if s == [] then 0 else 16 * Value(s[..|s| - 1]) + HexValue(s[|s| - 1])
  }

  lemma {:induction false} HexStep(v: nat, k: nat)
    requires k > 0 && Value(Hex(v / 16, k - 1)) == v / 16
    ensures Value(Hex(v, k)) == v
  {
    var s := Hex(v, k);
    assert s[..|s| - 1] == Hex(v / 16, k - 1);
    assert v == 16 * (v / 16) + v % 16;
  }

  lemma {:induction false} DivBelow(v: nat, x: nat)
    requires v < 16 * x
    ensures v / 16 < x
  {
  }

  lemma {:induction false} Pow2Nibble(k: nat)
    ensures Pow2(4 * (k + 1)) == 16 * Pow2(4 * k)
  {
    Pow2Add(4 * k, 4);
    assert Pow2(4) == 16;
  }

  lemma {:induction false} HexReadsBack(v: nat, k: nat)
    requires v < Pow2(4 * k)
    ensures Value(Hex(v, k)) == v
  {
    if k == 0 {
    } else {
      Pow2Nibble(k - 1);
      DivBelow(v, Pow2(4 * (k - 1)));
      HexReadsBack(v / 16, k - 1);
      HexStep(v, k);
    }
  }

  // --------------------------------------------------------------- the mask

  ghost predicate Group(s: string) {
    |s| == 8 && forall i :: 0 <= i < |s| ==> HexDigit(s[i])
  }

  // What the kernel reads: comma-separated 32-bit groups, most significant first.
  ghost function Groups(parts: seq<string>): nat
    requires forall i :: 0 <= i < |parts| ==> Group(parts[i])
  {
    if parts == [] then 0
    else
      var last := parts[|parts| - 1];
      assert Group(last);
      WORD * Groups(parts[..|parts| - 1]) + Value(last)
  }

  ghost predicate Mask(s: string, bits: nat) {
    var parts := Split(s, ',');
    (forall i :: 0 <= i < |parts| ==> Group(parts[i])) && Groups(parts) == bits
  }

  function Zeros(k: nat): (s: string)
    ensures |s| == k && forall i :: 0 <= i < k ==> s[i] == '0'
  {
    if k == 0 then [] else Zeros(k - 1) + ['0']
  }

  lemma {:induction false} ZerosAreZero(s: string)
    requires forall i :: 0 <= i < |s| ==> s[i] == '0'
    ensures (forall i :: 0 <= i < |s| ==> HexDigit(s[i])) && Value(s) == 0
  {
    if s == [] {
    } else {
      ZerosAreZero(s[..|s| - 1]);
    }
  }

  lemma {:induction false} FirstGroup(bit: nat)
    requires bit < MASK_BIT
    ensures Mask(Hex(Pow2(bit), 8), Pow2(bit))
  {
    var s := Hex(Pow2(bit), 8);
    Pow2Monotone(bit, 31);
    assert Pow2(32) == 2 * Pow2(31);
    HexReadsBack(Pow2(bit), 8);
    SplitWhole(s, ',');
    assert [s][..0] == [];
  }

  lemma {:induction false} OneGroupMore(parts: seq<string>, last: string)
    requires (forall i :: 0 <= i < |parts| ==> Group(parts[i])) && Group(last)
    ensures (forall i :: 0 <= i < |parts + [last]| ==> Group((parts + [last])[i]))
    ensures Groups(parts + [last]) == WORD * Groups(parts) + Value(last)
  {
    assert (parts + [last])[..|parts|] == parts;
  }

  // A further zero group moves the mask up by 32 bits.
  lemma {:induction false} NextGroup(s: string, bits: nat)
    requires Mask(s, bits)
    ensures Mask(s + [','] + Zeros(8), WORD * bits)
  {
    var zeros := Zeros(8);
    ZerosAreZero(zeros);
    SplitAt(s, ',', zeros);
    SplitWhole(zeros, ',');
    OneGroupMore(Split(s, ','), zeros);
  }

  // The mask of a CPU has that CPU's bit set and no other.
  method CpuToMask(cpu: nat) returns (mask: string)
    ensures Mask(mask, Pow2(cpu))
  {
    var group, bit := cpu / MASK_BIT, cpu % MASK_BIT;
    mask := Hex(Pow2(bit), 8);
    FirstGroup(bit);
    ghost var shifted := bit;
    for i := 0 to group
      invariant shifted == MASK_BIT * i + bit && Mask(mask, Pow2(shifted))
    {
      NextGroup(mask, Pow2(shifted));
      UpOneWord(shifted);
      shifted := MASK_BIT + shifted;
      mask := mask + [','] + Zeros(8);
    }
  }
}
