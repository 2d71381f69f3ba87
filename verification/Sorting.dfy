// Sorting by a key, and why a sorted sequence is determined by its elements.
module Sorting {

  ghost predicate Injective<T(!new)>(key: T -> real) {
    forall x, y :: key(x) == key(y) ==> x == y
  }

  ghost predicate Sorted<T>(s: seq<T>, key: T -> real) {
    forall i, j :: 0 <= i < j < |s| ==> key(s[i]) <= key(s[j])
  }

  // How many entries of a sorted sequence lie below x.
  function Place<T>(x: T, s: seq<T>, key: T -> real): (k: nat)
    requires Sorted(s, key)
    ensures k <= |s|
    ensures forall i :: 0 <= i < k ==> key(s[i]) < key(x)
    ensures forall i :: k <= i < |s| ==> key(x) <= key(s[i])
  {
    if s == [] || key(x) <= key(s[0]) then 0 else 1 + Place(x, s[1..], key)
  }

  function Insert<T>(x: T, s: seq<T>, key: T -> real): (r: seq<T>)
    requires Sorted(s, key)
    ensures Sorted(r, key) && |r| == |s| + 1
  {
    var k := Place(x, s, key);
    s[..k] + [x] + s[k..]
  }

  lemma {:induction false} InsertKeeps<T>(x: T, s: seq<T>, key: T -> real)
    requires Sorted(s, key)
    ensures multiset(Insert(x, s, key)) == multiset(s) + multiset{x}
  {
    var k := Place(x, s, key);
    assert s == s[..k] + s[k..];
  }

  function Sort<T>(s: seq<T>, key: T -> real): (r: seq<T>)
    ensures Sorted(r, key) && |r| == |s|
  {
    if s == [] then [] else Insert(s[0], Sort(s[1..], key), key)
  }

  lemma {:induction false} SortKeeps<T>(s: seq<T>, key: T -> real)
    ensures multiset(Sort(s, key)) == multiset(s)
  {
    if s == [] {
    } else {
      SortKeeps(s[1..], key);
      InsertKeeps(s[0], Sort(s[1..], key), key);
      assert s == [s[0]] + s[1..];
    }
  }

  lemma {:induction false} LeastFirst<T>(a: seq<T>, x: T, key: T -> real)
    requires Sorted(a, key) && x in multiset(a)
    ensures a != [] && key(a[0]) <= key(x)
  {
    assert x in a;
  }

  lemma {:induction false} TailMultiset<T>(a: seq<T>)
    requires a != []
    ensures multiset(a[1..]) == multiset(a) - multiset{a[0]}
    ensures a[0] in multiset(a)
  {
    assert a == [a[0]] + a[1..];
  }

  lemma {:induction false} SameSize<T>(a: seq<T>, b: seq<T>)
    requires multiset(a) == multiset(b)
    ensures |a| == |b|
  {
    assert |a| == |multiset(a)| == |b|;
  }

  lemma {:induction false} SameHeadAndTail<T(!new)>(a: seq<T>, b: seq<T>, key: T -> real)
    requires Injective(key) && Sorted(a, key) && Sorted(b, key) && multiset(a) == multiset(b) && a != [] && b != []
    ensures a[0] == b[0] && multiset(a[1..]) == multiset(b[1..])
  {
    TailMultiset(a);
    TailMultiset(b);
    LeastFirst(a, b[0], key);
    LeastFirst(b, a[0], key);
  }

  lemma {:induction false} SortedIsUnique<T(!new)>(a: seq<T>, b: seq<T>, key: T -> real)
    requires Injective(key) && Sorted(a, key) && Sorted(b, key) && multiset(a) == multiset(b)
    ensures a == b
  {
    SameSize(a, b);
    if a != [] {
      SameHeadAndTail(a, b, key);
      SortedIsUnique(a[1..], b[1..], key);
      assert forall i :: 0 < i < |a| ==> a[i] == a[1..][i - 1] && b[i] == b[1..][i - 1];
    }
  }
}
