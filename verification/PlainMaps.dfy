/** A plain map listed in key order, as iterating over a std::map does. */
module PlainMaps {
  import opened Base
  import opened Messages

  type Map = map<Key, Value>

  type Pairs = seq<(Key, Value)>

  ghost predicate Ascending(ps: Pairs) {
    forall i, j :: 0 <= i < j < |ps| ==> ps[i].0 < ps[j].0
  }

  ghost function MinKey(s: set<Key>): (k: Key)
    requires s != {}
    ensures k in s
    ensures forall x :: x in s ==> k <= x
    decreases |s|
  {
    var x := Pick(s);
    if s == {x} then x
    else
      assert s - {x} != {};
      var y := MinKey(s - {x});
      assert forall z :: z in s ==> z == x || z in s - {x};
      if x < y then x else y
  }

  /** The entries of a map in key order. */
  ghost function InOrder(m: Map): Pairs {
    if m == map[] then []
    else
      var k := MinKey(m.Keys);
      [(k, m[k])] + InOrder(m - {k})
  }

  ghost predicate Lists(m: Map, ps: Pairs) {
    && Ascending(ps)
    && (forall i :: 0 <= i < |ps| ==> ps[i].0 in m && m[ps[i].0] == ps[i].1)
    && (forall k :: k in m ==> exists i :: 0 <= i < |ps| && ps[i].0 == k)
  }

  lemma {:induction false} FirstIsLeast(m: Map, ps: Pairs)
    requires Lists(m, ps) && ps != []
    ensures m != map[] && MinKey(m.Keys) == ps[0].0
  {
  }

  lemma {:induction false} RestLists(m: Map, ps: Pairs)
    requires Lists(m, ps) && ps != []
    ensures Lists(m - {ps[0].0}, ps[1..])
  {
  }

  lemma {:induction false} EmptyLists(m: Map)
    requires Lists(m, [])
    ensures m == map[]
  {
    assert forall k :: k !in m;
  }

  /** There is only one way to list a map in key order. */
  lemma {:induction false} ListsInOrder(m: Map, ps: Pairs)
    requires Lists(m, ps)
    ensures ps == InOrder(m)
    decreases |ps|
  {
    hide Lists, MinKey;
    if ps == [] {
      EmptyLists(m);
    } else {
      FirstIsLeast(m, ps);
      FirstValue(m, ps);
      RestLists(m, ps);
      ListsInOrder(m - {ps[0].0}, ps[1..]);
      assert ps == [(ps[0].0, m[ps[0].0])] + ps[1..];
    }
  }

  lemma FirstValue(m: Map, ps: Pairs)
    requires Lists(m, ps) && ps != []
    ensures ps[0].0 in m && m[ps[0].0] == ps[0].1
  {
  }

  lemma {:induction false} LeastFirst(m: Map, k: Key, qs: Pairs)
    requires k in m && (forall x :: x in m ==> k <= x) && Lists(m - {k}, qs)
    ensures Lists(m, [(k, m[k])] + qs)
  {
    var ps := [(k, m[k])] + qs;
    forall i | 0 <= i < |ps| ensures ps[i].0 in m && m[ps[i].0] == ps[i].1 && (i > 0 ==> k < ps[i].0) {
      if i > 0 {
        assert ps[i] == qs[i - 1] && qs[i - 1].0 in m - {k};
      }
    }
    forall i, j | 0 <= i < j < |ps| ensures ps[i].0 < ps[j].0 {
      if i > 0 {
        assert ps[i] == qs[i - 1] && ps[j] == qs[j - 1];
      }
    }
    forall x | x in m ensures exists i :: 0 <= i < |ps| && ps[i].0 == x {
      ListedBehind(m, k, qs, x);
    }
  }

  lemma {:induction false} ListedBehind(m: Map, k: Key, qs: Pairs, x: Key)
    requires k in m && Lists(m - {k}, qs) && x in m
    ensures var ps := [(k, m[k])] + qs; exists i :: 0 <= i < |ps| && ps[i].0 == x
  {
    var ps := [(k, m[k])] + qs;
    if x == k {
      assert ps[0].0 == x;
    } else {
      assert x in m - {k};
      var i :| 0 <= i < |qs| && qs[i].0 == x;
      assert ps[i + 1].0 == x;
    }
  }

  lemma {:induction false} InOrderLists(m: Map)
    ensures Lists(m, InOrder(m))
    decreases |m|
  {
    hide Lists, MinKey;
    if m == map[] {
      EmptyListed();
    } else {
      var k := MinKey(m.Keys);
      assert (m - {k}).Keys == m.Keys - {k};
      InOrderLists(m - {k});
      LeastFirst(m, k, InOrder(m - {k}));
    }
  }

  lemma {:induction false} EmptyListed()
    ensures Lists(map[], [])
  {
  }
}
