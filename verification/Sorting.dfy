// The stable sort of the source's language, for any order that compares every two elements.

module Sorting {
  ghost predicate TotalPreorder<T(!new)>(leq: (T, T) -> bool) {
    && (forall a, b :: leq(a, b) || leq(b, a))
    && (forall a, b, c :: leq(a, b) && leq(b, c) ==> leq(a, c))
  }

  function Insert<T>(leq: (T, T) -> bool, x: T, s: seq<T>): (r: seq<T>)
    ensures multiset(r) == multiset(s) + multiset{x}
  {
    if s == [] || leq(x, s[0]) then
      [x] + s
    else
      assert s == [s[0]] + s[1..];
      [s[0]] + Insert(leq, x, s[1..])
  }

  function Sort<T>(leq: (T, T) -> bool, s: seq<T>): (r: seq<T>)
    ensures multiset(r) == multiset(s)
  {
    if s == [] then
      []
    else
      assert s == [s[0]] + s[1..];
      Insert(leq, s[0], Sort(leq, s[1..]))
  }

  ghost predicate Sorted<T>(leq: (T, T) -> bool, s: seq<T>) {
    forall i, j | 0 <= i < j < |s| :: leq(s[i], s[j])
  }

  // The elements tied with t, in their order.
  function TiedWith<T>(leq: (T, T) -> bool, t: T, s: seq<T>): seq<T> {
    if s == [] then [] else (if leq(t, s[0]) && leq(s[0], t) then [s[0]] else []) + TiedWith(leq, t, s[1..])
  }

  lemma {:induction false} InsertKeepsSorted<T(!new)>(leq: (T, T) -> bool, x: T, s: seq<T>)
    requires TotalPreorder(leq) && Sorted(leq, s)
    ensures Sorted(leq, Insert(leq, x, s))
  {
    if s != [] && !leq(x, s[0]) {
      var rest := Insert(leq, x, s[1..]);
      InsertKeepsSorted(leq, x, s[1..]);
      forall y | y in rest ensures leq(s[0], y) {
        assert y in multiset(rest);
        assert y == x || y in s[1..];
      }
    } else if s != [] {
      forall y | y in s ensures leq(x, y) {
        assert leq(s[0], y);
      }
    }
  }

  lemma {:induction false} InsertIsStable<T>(leq: (T, T) -> bool, x: T, s: seq<T>, t: T)
    requires forall y | y in s && leq(x, t) && leq(t, y) :: leq(x, y)
    ensures TiedWith(leq, t, Insert(leq, x, s)) == (if leq(t, x) && leq(x, t) then [x] else []) + TiedWith(leq, t, s)
  {
    if s == [] || leq(x, s[0]) {
      TiedCons(leq, t, x, s);
    } else {
      InsertIsStable(leq, x, s[1..], t);
      TiedCons(leq, t, s[0], Insert(leq, x, s[1..]));
    }
  }

  lemma TiedCons<T>(leq: (T, T) -> bool, t: T, x: T, s: seq<T>)
    ensures TiedWith(leq, t, [x] + s) == (if leq(t, x) && leq(x, t) then [x] else []) + TiedWith(leq, t, s)
  {
    assert ([x] + s)[1..] == s;
  }

  // A sorted permutation that leaves ties in their order.
  lemma {:induction false} SortSorts<T(!new)>(leq: (T, T) -> bool, s: seq<T>, t: T)
    requires TotalPreorder(leq)
    ensures multiset(Sort(leq, s)) == multiset(s) && Sorted(leq, Sort(leq, s))
    ensures TiedWith(leq, t, Sort(leq, s)) == TiedWith(leq, t, s)
  {
    if s != [] {
      SortSorts(leq, s[1..], t);
      InsertKeepsSorted(leq, s[0], Sort(leq, s[1..]));
      InsertIsStable(leq, s[0], Sort(leq, s[1..]), t);
    }
  }
}
