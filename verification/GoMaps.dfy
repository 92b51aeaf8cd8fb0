/** Loops over Go maps. Go visits the keys of a map in an unspecified order; here the order is an
    arbitrary sequence of the keys. */
module GoMaps {

  /** `order` lists each element of `keys` once. */
  ghost predicate Visits<K(!new)>(order: seq<K>, keys: set<K>) {
    && (forall k :: k in order <==> k in keys)
    && (forall i, j :: 0 <= i < j < |order| ==> order[i] != order[j])
  }

  /** Some order of the keys of a map. */
  method AnyOrder<K(==, !new)>(keys: set<K>) returns (order: seq<K>)
    ensures Visits(order, keys)
  {
    order := [];
    var pending := keys;
    while pending != {}
      invariant pending <= keys
      invariant forall k :: k in order <==> k in keys - pending
      invariant forall i, j :: 0 <= i < j < |order| ==> order[i] != order[j]
      decreases pending
    {
      var k :| k in pending;
      pending := pending - {k};
      assert k !in order;
      order := order + [k];
    }
  }

  /** The set of the first `i` keys visited. */
  ghost function Seen<K>(order: seq<K>, i: nat): set<K>
    requires i <= |order|
  {
    set j | 0 <= j < i :: order[j]
  }

  lemma SeenStep<K(!new)>(order: seq<K>, i: nat, keys: set<K>)
    requires Visits(order, keys)
    ensures Seen(order, 0) == {} && Seen(order, |order|) == keys
    ensures i < |order| ==>
      Seen(order, i + 1) == Seen(order, i) + {order[i]} && order[i] !in Seen(order, i) && order[i] in keys
  {
    forall k | k in keys ensures k in Seen(order, |order|) {
      assert k in order;
    }
  }

  /** Removing one more key. */
  lemma MinusStep<K, V>(m: map<K, V>, gone: set<K>, k: K)
    ensures m - {} == m
    ensures m - gone - {k} == m - (gone + {k})
  {
    assert (m - gone - {k}).Keys == (m - (gone + {k})).Keys;
  }

  lemma SeenAmong<K(!new)>(order: seq<K>, i: nat, keys: set<K>, some: set<K>)
    requires Visits(order, keys)
    ensures some * Seen(order, 0) == {} && some * Seen(order, |order|) == some * keys
    ensures i < |order| ==>
      some * Seen(order, i + 1) == some * Seen(order, i) + if order[i] in some then {order[i]} else {}
  {
    SeenStep(order, i, keys);
  }

  lemma SplitLast<T(!new)>(s: seq<T>)
    requires s != []
    ensures s == s[..|s| - 1] + [s[|s| - 1]]
    ensures forall x :: x in s <==> x in s[..|s| - 1] || x == s[|s| - 1]
  {
  }

  /** No element occurs twice. */
  ghost predicate Distinct<T(!new)>(s: seq<T>) {
    forall i, j :: 0 <= i < j < |s| ==> s[i] != s[j]
  }

  lemma {:induction false} OnceEach<T(!new)>(s: seq<T>, x: T)
    requires Distinct(s)
    ensures multiset(s)[x] <= 1
  {
    if s != [] {
      var n := |s| - 1;
      assert s == s[..n] + [s[n]];
      OnceEach(s[..n], x);
    }
  }

  lemma TwiceThere<T(!new)>(s: seq<T>, i: nat, j: nat)
    requires i < j < |s| && s[i] == s[j]
    ensures multiset(s)[s[i]] >= 2
  {
    assert s == s[..j] + s[j..];
    assert s[i] in s[..j] && s[j] in s[j..];
    assert multiset(s) == multiset(s[..j]) + multiset(s[j..]);
  }

  /** A rearrangement of distinct elements. */
  lemma Rearranged<T(!new)>(s: seq<T>, t: seq<T>)
    requires Distinct(s) && multiset(s) == multiset(t)
    ensures Distinct(t) && forall x :: x in t <==> x in s
  {
    forall x ensures x in t <==> x in s {
      assert x in multiset(t) <==> x in multiset(s);
    }
    forall i, j | 0 <= i < j < |t| ensures t[i] != t[j] {
      OnceEach(s, t[i]);
      if t[i] == t[j] {
        TwiceThere(t, i, j);
      }
    }
  }
}
