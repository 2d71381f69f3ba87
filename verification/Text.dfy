// Strings as the tools read and write them: splitting, joining, decimal numbers.
module Text {
  import opened Options

  // s.split(c): the pieces between the separators, always at least one.
  function Split(s: string, c: char): (r: seq<string>)
    ensures |r| > 0
    ensures forall i :: 0 <= i < |r| ==> c !in r[i]
  {
    if s == [] then [[]]
    else
      var rest := Split(s[1..], c);
      if s[0] == c then [[]] + rest else [[s[0]] + rest[0]] + rest[1..]
  }

  // c.join(parts)
  function Join(parts: seq<string>, c: char): string {
    if parts == [] then [] else if |parts| == 1 then parts[0] else parts[0] + [c] + Join(parts[1..], c)
  }

  lemma {:induction false} SplitWhole(s: string, c: char)
    requires c !in s
    ensures Split(s, c) == [s]
  {
    if s == [] {
    } else {
      SplitWhole(s[1..], c);
      assert [s[0]] + s[1..] == s;
    }
  }

  lemma {:induction false} SplitFirst(s: string, c: char, rest: string)
    requires s != [] && rest == s[1..]
    ensures Split(s, c) == if s[0] == c then [[]] + Split(rest, c)
                           else [[s[0]] + Split(rest, c)[0]] + Split(rest, c)[1..]
  {
  }

  lemma {:induction false} HeadsAgree(a: seq<string>, b: seq<string>, x: char)
    requires a != []
    ensures [[x] + (a + b)[0]] + (a + b)[1..] == ([[x] + a[0]] + a[1..]) + b
    ensures [[]] + (a + b) == ([[]] + a) + b
  {
  }

  lemma {:induction false} SplitAt(s: string, c: char, t: string)
    ensures Split(s + [c] + t, c) == Split(s, c) + Split(t, c)
  {
    var whole := s + [c] + t;
    if s == [] {
      assert whole[1..] == t;
      SplitFirst(whole, c, t);
    } else {
      var rest := s[1..] + [c] + t;
      assert whole[1..] == rest;
      SplitAt(s[1..], c, t);
      SplitFirst(whole, c, rest);
      SplitFirst(s, c, s[1..]);
      HeadsAgree(Split(s[1..], c), Split(t, c), s[0]);
    }
  }

  // Splitting undoes joining.
  lemma {:induction false} SplitJoin(parts: seq<string>, c: char)
    requires parts != [] && forall i :: 0 <= i < |parts| ==> c !in parts[i]
    ensures Split(Join(parts, c), c) == parts
  {
    SplitWhole(parts[0], c);
    if |parts| > 1 {
      SplitJoin(parts[1..], c);
      SplitAt(parts[0], c, Join(parts[1..], c));
    }
  }

  // ---------------------------------------------------------- decimal numbers

  predicate Digit(c: char) { '0' <= c <= '9' }

  function DigitChar(d: nat): (c: char)
    requires d < 10
    ensures Digit(c) && DigitValue(c) == d
  {
    '0' + d as char
  }

  function DigitValue(c: char): nat
    requires Digit(c)
  {
    (c - '0') as nat
  }

  // str(n)
  function Decimal(n: nat): (s: string)
    ensures s != [] && forall i :: 0 <= i < |s| ==> Digit(s[i])
  {
    (if n < 10 then [] else Decimal(n / 10)) + [DigitChar(n % 10)]
  }

  // The value of a run of digits, in which a single underscore may stand between
  // two digits.
  function Digits(s: string): Option<nat> {
    if s == [] || !Digit(s[|s| - 1]) then None
    else
      var rest, last := s[..|s| - 1], DigitValue(s[|s| - 1]);
      if rest == [] then Some(last)
      else
        var high := Digits(if rest[|rest| - 1] == '_' then rest[..|rest| - 1] else rest);
        if high.Some? then Some(10 * high.value + last) else None
  }

  predicate Space(c: char) { c == ' ' || '\U{9}' <= c <= '\U{d}' }

  function StripLeft(s: string): string {
    if s != [] && Space(s[0]) then StripLeft(s[1..]) else s
  }

  function StripRight(s: string): string {
    if s != [] && Space(s[|s| - 1]) then StripRight(s[..|s| - 1]) else s
  }

  // int(s), for text without a minus sign.
  function ParseInt(s: string): Option<nat> {
    var t := StripRight(StripLeft(s));
    Digits(if t != [] && t[0] == '+' then t[1..] else t)
  }

  lemma {:induction false} DigitsStep(s: string, n: nat, d: nat)
    requires s != [] && Digit(s[|s| - 1]) && Digits(s) == Some(n) && d < 10
    ensures Digits(s + [DigitChar(d)]) == Some(10 * n + d)
  {
    var t := s + [DigitChar(d)];
    assert t[..|t| - 1] == s;
  }

  lemma {:induction false} DigitsOfDecimal(n: nat)
    ensures Digits(Decimal(n)) == Some(n)
  {
    if n < 10 {
      assert Decimal(n) == [DigitChar(n)];
      assert [DigitChar(n)][..0] == [];
    } else {
      DigitsOfDecimal(n / 10);
      DigitsStep(Decimal(n / 10), n / 10, n % 10);
      assert n == 10 * (n / 10) + n % 10;
    }
  }

  function Spaces(k: nat): (s: string)
    ensures |s| == k && forall i :: 0 <= i < k ==> s[i] == ' '
  {
    if k == 0 then [] else [' '] + Spaces(k - 1)
  }

  lemma {:induction false} StripSpaces(k: nat, s: string)
    requires s != [] && !Space(s[0])
    ensures StripLeft(Spaces(k) + s) == s
  {
    var whole := Spaces(k) + s;
    if k == 0 {
      assert whole == s;
    } else {
      StripSpaces(k - 1, s);
      assert whole[1..] == Spaces(k - 1) + s;
    }
  }

  lemma {:induction false} NothingToStrip(s: string)
    requires s != [] && !Space(s[|s| - 1])
    ensures StripRight(s) == s
  {
  }

  // A printed number, with any spaces before it, reads back as itself.
  lemma {:induction false} ParseDecimal(k: nat, n: nat)
    ensures ParseInt(Spaces(k) + Decimal(n)) == Some(n)
  {
    var s := Decimal(n);
    assert Digit(s[0]) && Digit(s[|s| - 1]);
    StripSpaces(k, s);
    NothingToStrip(s);
    DigitsOfDecimal(n);
  }

  lemma {:induction false} StripTrailing(s: string, k: nat)
    requires s != [] && !Space(s[|s| - 1])
    ensures StripRight(s + Spaces(k)) == s
  {
    if k == 0 {
      assert s + Spaces(0) == s;
    } else {
      var whole := s + Spaces(k);
      SpacesEnd(k);
      assert whole[..|whole| - 1] == s + Spaces(k - 1);
      StripTrailing(s, k - 1);
    }
  }

  lemma {:induction false} SpacesEnd(k: nat)
    requires k > 0
    ensures Spaces(k)[..k - 1] == Spaces(k - 1)
  {
  }

  // A number may have a plus sign, and spaces on both sides.
  lemma {:induction false} ParseSigned(before: nat, plus: bool, n: nat, after: nat)
    ensures ParseInt(Spaces(before) + ((if plus then ['+'] else []) + Decimal(n) + Spaces(after))) == Some(n)
  {
    var digits := Decimal(n);
    var number := (if plus then ['+'] else []) + digits;
    assert Digit(digits[0]) && Digit(digits[|digits| - 1]);
    assert number[|number| - 1] == digits[|digits| - 1];
    assert (number + Spaces(after))[0] == number[0];
    StripSpaces(before, number + Spaces(after));
    StripTrailing(number, after);
    assert number[if plus then 1 else 0..] == digits;
    DigitsOfDecimal(n);
  }

  lemma {:induction false} OneDigitMore(s: string, c: char)
    requires s != [] && s[|s| - 1] != '_' && Digit(c)
    ensures Digits(s + [c]) == match Digits(s) case Some(n) => Some(10 * n + DigitValue(c)) case None => None
  {
    assert (s + [c])[..|s|] == s;
  }

  lemma {:induction false} DigitAfterUnderscore(s: string, c: char)
    requires s != [] && Digit(s[|s| - 1]) && Digit(c)
    ensures Digits(s + ['_'] + [c]) == Digits(s + [c])
  {
    var a := s + ['_'] + [c];
    assert a[..|a| - 1] == s + ['_'] && (s + ['_'])[..|s|] == s;
    OneDigitMore(s, c);
  }

  // A single underscore between digits changes nothing.
  lemma {:induction false} UnderscoreIsIgnored(s: string, t: string)
    requires s != [] && Digit(s[|s| - 1]) && t != [] && forall i :: 0 <= i < |t| ==> Digit(t[i])
    ensures Digits(s + ['_'] + t) == Digits(s + t)
  {
    var before, last := t[..|t| - 1], t[|t| - 1];
    if before == [] {
      assert t == [last];
      DigitAfterUnderscore(s, last);
    } else {
      UnderscoreIsIgnored(s, before);
      assert s + ['_'] + t == s + ['_'] + before + [last] && s + t == s + before + [last];
      OneDigitMore(s + ['_'] + before, last);
      OneDigitMore(s + before, last);
    }
  }
}
