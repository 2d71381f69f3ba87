// Facts about finite sets and tables.
module Collections {
  lemma {:induction false} SomeMember(s: set<int>)
    ensures s == {} || exists x :: x in s
  {
    assert (forall x :: x !in s) ==> s == {};
  }

  lemma {:induction false} SameSet(a: set<int>, b: set<int>)
    requires forall x :: x in a <==> x in b
    ensures a == b
  {
    assert a - b == {} by { assert forall x :: x !in a - b; }
    assert b - a == {} by { assert forall x :: x !in b - a; }
  }

  // Two tables are equal when they agree key by key.
  lemma {:induction false} SameTable<V>(a: map<int, V>, b: map<int, V>)
    ensures a == b <==> (forall k :: k in a <==> k in b) && forall k :: k in a && k in b ==> a[k] == b[k]
  {
    if (forall k :: k in a <==> k in b) && forall k :: k in a && k in b ==> a[k] == b[k] {
      assert forall k :: k in a.Keys <==> k in b.Keys;
      SameSet(a.Keys, b.Keys);
      assert a == b;
    }
  }
}
