// Array.prototype.sort as the sources use it: ordered, a permutation, and stable.
module StableSort {

  ghost predicate TotalPreorder<T(!new)>(le: (T, T) -> bool) {
    && (forall x, y :: le(x, y) || le(y, x))
    && (forall x, y, z :: le(x, y) && le(y, z) ==> le(x, z))
  }

  ghost predicate Ordered<T>(le: (T, T) -> bool, s: seq<T>) {
    forall i, j :: 0 <= i < j < |s| ==> le(s[i], s[j])
  }

  // x comes before every element of s in the input, so it also goes before its equals.
  function Insert<T>(le: (T, T) -> bool, x: T, s: seq<T>): (r: seq<T>)
    ensures multiset(r) == multiset(s) + multiset{x} && |r| == |s| + 1
  {
    if s == [] || le(x, s[0]) then [x] + s
    else
      assert s == [s[0]] + s[1..];
      [s[0]] + Insert(le, x, s[1..])
  }

  function Sort<T>(le: (T, T) -> bool, xs: seq<T>): (r: seq<T>)
    ensures multiset(r) == multiset(xs) && |r| == |xs|
  {
    if xs == [] then []
    else
      assert xs == [xs[0]] + xs[1..];
      Insert(le, xs[0], Sort(le, xs[1..]))
  }

  lemma SameMembers<T>(s: seq<T>, t: seq<T>, x: T)
    requires multiset(s) == multiset(t)
    ensures x in s <==> x in t
  {
    assert x in multiset(s) <==> x in multiset(t);
  }

  lemma {:induction false} InsertIsOrdered<T(!new)>(le: (T, T) -> bool, x: T, s: seq<T>)
    requires TotalPreorder(le) && Ordered(le, s)
    ensures Ordered(le, Insert(le, x, s))
  {
    if s != [] && !le(x, s[0]) {
      InsertIsOrdered(le, x, s[1..]);
      var r := Insert(le, x, s[1..]);
      forall y | y in r
        ensures le(s[0], y)
      {
        assert y in multiset(r);
        assert y == x || y in s[1..];
      }
    }
  }

  lemma {:induction false} SortIsOrdered<T(!new)>(le: (T, T) -> bool, xs: seq<T>)
    requires TotalPreorder(le)
    ensures Ordered(le, Sort(le, xs))
  {
    if xs != [] {
      SortIsOrdered(le, xs[1..]);
      InsertIsOrdered(le, xs[0], Sort(le, xs[1..]));
    }
  }

  // The elements that tie with e, in their order in s.
  ghost function Ties<T>(le: (T, T) -> bool, e: T, s: seq<T>): seq<T> {
    if s == [] then []
    else (if le(s[0], e) && le(e, s[0]) then [s[0]] else []) + Ties(le, e, s[1..])
  }

  lemma {:induction false} InsertKeepsTies<T(!new)>(le: (T, T) -> bool, e: T, x: T, s: seq<T>)
    requires TotalPreorder(le)
    ensures Ties(le, e, Insert(le, x, s)) == Ties(le, e, [x] + s)
  {
    assert ([x] + s)[1..] == s;
    if s != [] && !le(x, s[0]) {
      InsertKeepsTies(le, e, x, s[1..]);
      assert ([x] + s[1..])[1..] == s[1..];
    }
  }

  // Equal elements keep their order.
  lemma {:induction false} SortIsStable<T(!new)>(le: (T, T) -> bool, e: T, xs: seq<T>)
    requires TotalPreorder(le)
    ensures Ties(le, e, Sort(le, xs)) == Ties(le, e, xs)
  {
    if xs != [] {
      SortIsStable(le, e, xs[1..]);
      InsertKeepsTies(le, e, xs[0], Sort(le, xs[1..]));
      assert ([xs[0]] + Sort(le, xs[1..]))[1..] == Sort(le, xs[1..]);
    }
  }
}
