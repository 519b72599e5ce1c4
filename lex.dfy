/** Python's ordering of `str` values (code point by code point, a proper
    prefix first) and the list operations built on it: `sorted(...)` of a
    list of strings and `sorted(list(set(...)))`. */
module Lex {

  /** `a <= b` on Python strings. */
  predicate Le(a: string, b: string)
    decreases |a|
  {
    if a == [] then true
    else if b == [] then false
    else if a[0] != b[0] then a[0] < b[0]
    else Le(a[1..], b[1..])
  }

  lemma {:induction false} LeRefl(a: string)
    ensures Le(a, a)
    decreases |a|
  {
    if a != [] { LeRefl(a[1..]); }
  }

  lemma {:induction false} LeTotal(a: string, b: string)
    ensures Le(a, b) || Le(b, a)
    decreases |a|
  {
    if a != [] && b != [] && a[0] == b[0] { LeTotal(a[1..], b[1..]); }
  }

  lemma {:induction false} LeAntisymmetric(a: string, b: string)
    requires Le(a, b) && Le(b, a)
    ensures a == b
    decreases |a|
  {
    if a != [] && b != [] {
      LeAntisymmetric(a[1..], b[1..]);
      assert a == [a[0]] + a[1..] && b == [b[0]] + b[1..];
    }
  }

  lemma {:induction false} LeTransitive(a: string, b: string, c: string)
    requires Le(a, b) && Le(b, c)
    ensures Le(a, c)
    decreases |a|
  {
    if a != [] && b != [] && c != [] && a[0] == b[0] && b[0] == c[0] {
      LeTransitive(a[1..], b[1..], c[1..]);
    }
  }

  /** Non-decreasing, as `sorted` leaves a list. */
  ghost predicate Sorted(s: seq<string>)
  {
    forall i, j :: 0 <= i < j < |s| ==> Le(s[i], s[j])
  }

  /** No string occurs twice. */
  ghost predicate NoDuplicates(s: seq<string>)
  {
    forall x :: multiset(s)[x] <= 1
  }

  /** Inserts `x` into a sorted list before the first element above it. */
  function Insert(x: string, s: seq<string>): (r: seq<string>)
    requires Sorted(s)
    ensures Sorted(r)
    ensures multiset(r) == multiset(s) + multiset{x}
    decreases |s|
  {
    if s == [] then [x]
    else if Le(x, s[0]) then
      forall y | y in s ensures Le(x, y) {
        var i :| 0 <= i < |s| && s[i] == y;
        if i > 0 { LeTransitive(x, s[0], s[i]); }
      }
      ConsSorted(x, s);
      [x] + s
    else
      var t := Insert(x, s[1..]);
      LeTotal(x, s[0]);
      forall y | y in t ensures Le(s[0], y) {
        assert y in multiset(t);
        if y != x {
          assert y in multiset(s[1..]);
          var i :| 0 <= i < |s[1..]| && s[1..][i] == y;
          assert Le(s[0], s[i + 1]);
        }
      }
      ConsSorted(s[0], t);
      assert s == [s[0]] + s[1..];
      [s[0]] + t
  }

  lemma ConsSorted(b: string, t: seq<string>)
    requires Sorted(t)
    requires forall y :: y in t ==> Le(b, y)
    ensures Sorted([b] + t)
  {
    forall i, j | 0 <= i < j < |[b] + t| ensures Le(([b] + t)[i], ([b] + t)[j]) {
      if i == 0 { assert ([b] + t)[j] == t[j - 1]; assert t[j - 1] in t; }
      else { assert ([b] + t)[i] == t[i - 1] && ([b] + t)[j] == t[j - 1]; }
    }
  }

  /** `sorted(s)` for a list of strings: insertion sort. */
  function Sort(s: seq<string>): (r: seq<string>)
    ensures Sorted(r)
    ensures multiset(r) == multiset(s)
    decreases |s|
  {
    if s == [] then []
    else
      assert s == s[..|s| - 1] + [s[|s| - 1]];
      Insert(s[|s| - 1], Sort(s[..|s| - 1]))
  }

  /** The list with each string kept at its first occurrence only. */
  function Dedup(s: seq<string>): (r: seq<string>)
    ensures NoDuplicates(r)
    ensures forall x :: x in r <==> x in s
    decreases |s|
  {
    if s == [] then []
    else
      var r' := Dedup(s[..|s| - 1]);
      var x := s[|s| - 1];
      assert s == s[..|s| - 1] + [x];
      if x in r' then r'
      else
        assert multiset(r')[x] == 0;
        r' + [x]
  }

  /** The strings of `a` that are not in `b`. */
  function Without(a: seq<string>, b: seq<string>): (r: seq<string>)
    ensures forall x :: x in r <==> x in a && x !in b
    decreases |a|
  {
    if a == [] then []
    else
      assert a == [a[0]] + a[1..];
      (if a[0] in b then [] else [a[0]]) + Without(a[1..], b)
  }

  /** `sorted(list(set(a).difference(set(b))))`. */
  function SortedDifference(a: seq<string>, b: seq<string>): (r: seq<string>)
    ensures Sorted(r) && NoDuplicates(r)
    ensures forall x :: x in r <==> x in a && x !in b
  {
    var d := Dedup(Without(a, b));
    var r := Sort(d);
    assert forall x :: x in r <==> x in multiset(d);
    r
  }

  /** A sorted duplicate-free list is determined by its elements, so any
      way of listing a set and sorting it gives the same list. */
  lemma {:induction false} SortedSetUnique(a: seq<string>, b: seq<string>)
    requires Sorted(a) && NoDuplicates(a)
    requires Sorted(b) && NoDuplicates(b)
    requires forall x :: x in a <==> x in b
    ensures a == b
    decreases |a|
  {
    if a == [] {
      forall x ensures x !in multiset(b) { assert x !in a; }
      assert multiset(b) == multiset{};
      assert |b| == |multiset(b)| == 0;
    } else {
      assert b != [] by { assert a[0] in b; }
      assert b[0] in a && a[0] in b;
      var j :| 0 <= j < |a| && a[j] == b[0];
      var i :| 0 <= i < |b| && b[i] == a[0];
      assert Le(a[0], b[0]) by { if j > 0 { assert Le(a[0], a[j]); } else { LeRefl(a[0]); } }
      assert Le(b[0], a[0]) by { if i > 0 { assert Le(b[0], b[i]); } else { LeRefl(b[0]); } }
      LeAntisymmetric(a[0], b[0]);
      assert a == [a[0]] + a[1..] && b == [b[0]] + b[1..];
      TailNoDuplicates(a);
      TailNoDuplicates(b);
      forall x ensures x in a[1..] <==> x in b[1..] {
        if x in a[1..] { assert x != a[0]; assert x in b; }
        if x in b[1..] { assert x != b[0]; assert x in a; }
      }
      SortedSetUnique(a[1..], b[1..]);
    }
  }

  lemma TailNoDuplicates(s: seq<string>)
    requires s != [] && NoDuplicates(s)
    ensures NoDuplicates(s[1..]) && s[0] !in s[1..]
  {
    assert s == [s[0]] + s[1..];
    assert multiset(s) == multiset{s[0]} + multiset(s[1..]);
    assert multiset(s)[s[0]] <= 1;
    forall x ensures multiset(s[1..])[x] <= 1 {
      assert multiset(s)[x] <= 1;
    }
  }
}
