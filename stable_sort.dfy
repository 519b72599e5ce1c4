/** Python's `sorted(xs, key=...)` on integer keys. Python's sort is stable,
    so the result is the one ordering of the positions of `xs` in which a
    smaller key comes first and, between equal keys, the earlier position. The
    sort here works on positions, which makes that stability statable. */
module StableSort {

  /** Position `p` precedes position `q` in a stable sort by `keys`. */
  predicate Before(keys: seq<int>, p: nat, q: nat)
    requires p < |keys| && q < |keys|
  {
    keys[p] < keys[q] || (keys[p] == keys[q] && p < q)
  }

  /** `r` lists positions of `keys`, each before the next in the stable order. */
  ghost predicate StablySorted(keys: seq<int>, r: seq<nat>)
  {
    && (forall i :: 0 <= i < |r| ==> r[i] < |keys|)
    && (forall i, j :: 0 <= i < j < |r| ==> Before(keys, r[i], r[j]))
  }

  /** Inserts position `p`, larger than every position already in `s`, after
      every position whose key is at most `p`'s. */
  function InsertLast(keys: seq<int>, p: nat, s: seq<nat>): (r: seq<nat>)
    requires p < |keys| && StablySorted(keys, s)
    requires forall q :: q in s ==> q < p
    ensures StablySorted(keys, r)
    ensures |r| == |s| + 1
    ensures forall q :: q in r <==> q in s || q == p
    decreases |s|
  {
    if s == [] then [p]
    else
      var init, last := s[..|s| - 1], s[|s| - 1];
      assert s == init + [last];
      if keys[last] <= keys[p] then
        assert forall i :: 0 <= i < |s| ==> Before(keys, s[i], p) by {
          forall i | 0 <= i < |s| ensures Before(keys, s[i], p) {
            assert s[i] in s;
            if i < |s| - 1 { assert Before(keys, s[i], last); }
          }
        }
        s + [p]
      else
        assert forall q :: q in init ==> q in s;
        var t := InsertLast(keys, p, init);
        assert forall i :: 0 <= i < |t| ==> Before(keys, t[i], last) by {
          forall i | 0 <= i < |t| ensures Before(keys, t[i], last) {
            assert t[i] in t;
            if t[i] != p {
              var k :| 0 <= k < |init| && init[k] == t[i];
              assert Before(keys, s[k], s[|s| - 1]);
            }
          }
        }
        t + [last]
  }

  /** `InsertLast` puts `p` at one place and keeps the order of the rest. */
  lemma {:induction false} InsertLastShape(keys: seq<int>, p: nat, s: seq<nat>) returns (m: nat)
    requires p < |keys| && StablySorted(keys, s)
    requires forall q :: q in s ==> q < p
    ensures m <= |s| && InsertLast(keys, p, s) == s[..m] + [p] + s[m..]
    decreases |s|
  {
    if s == [] {
      m := 0;
    } else {
      var init, last := s[..|s| - 1], s[|s| - 1];
      assert s == init + [last];
      if keys[last] <= keys[p] {
        m := |s|;
      } else {
        assert forall q :: q in init ==> q in s;
        m := InsertLastShape(keys, p, init);
        assert InsertLast(keys, p, s) == InsertLast(keys, p, init) + [last];
        assert s[..m] == init[..m];
        assert s[m..] == init[m..] + [last];
      }
    }
  }

  /** The positions `0 .. n-1` of `keys` in stable order. */
  function SortPrefix(keys: seq<int>, n: nat): (r: seq<nat>)
    requires n <= |keys|
    ensures StablySorted(keys, r)
    ensures |r| == n
    ensures forall q: nat :: q in r <==> q < n
    decreases n
  {
    if n == 0 then []
    else
      var r := InsertLast(keys, n - 1, SortPrefix(keys, n - 1));
      assert forall q: nat :: q in r <==> q < n by {
        forall q: nat ensures q in r <==> q < n {
          assert q in SortPrefix(keys, n - 1) <==> q < n - 1;
        }
      }
      r
  }

  /** The permutation `sorted(range(len(keys)), key=lambda i: keys[i])`. */
  function SortedPositions(keys: seq<int>): (r: seq<nat>)
    ensures StablySorted(keys, r)
    ensures |r| == |keys|
    ensures forall q: nat :: q in r <==> q < |keys|
  {
    SortPrefix(keys, |keys|)
  }

  /** The stable order is unique: a stably sorted listing of all positions is
      the one `SortedPositions` gives, so it agrees with any stable sort. */
  lemma {:induction false} StableOrderUnique(keys: seq<int>, a: seq<nat>, b: seq<nat>)
    requires StablySorted(keys, a) && StablySorted(keys, b)
    requires forall q :: q in a <==> q in b
    ensures a == b
    decreases |a|
  {
    if a == [] {
      forall q ensures q !in multiset(b) { assert q !in a; }
      assert multiset(b) == multiset{};
      assert |b| == |multiset(b)| == 0;
    } else {
      assert a[0] in b;
      assert b != [];
      assert b[0] in a;
      var j :| 0 <= j < |a| && a[j] == b[0];
      var i :| 0 <= i < |b| && b[i] == a[0];
      assert a == [a[0]] + a[1..] && b == [b[0]] + b[1..];
      forall q ensures q in a[1..] <==> q in b[1..] {
        if q in a[1..] {
          var k :| 0 <= k < |a[1..]| && a[1..][k] == q;
          assert Before(keys, a[0], a[k + 1]);
          assert q in b;
        }
        if q in b[1..] {
          var k :| 0 <= k < |b[1..]| && b[1..][k] == q;
          assert Before(keys, b[0], b[k + 1]);
          assert q in a;
        }
      }
      StableOrderUnique(keys, a[1..], b[1..]);
    }
  }

  /** The elements of `xs` in the order `ps` lists their positions. */
  function Permute<T>(xs: seq<T>, ps: seq<nat>): (r: seq<T>)
    requires forall i :: 0 <= i < |ps| ==> ps[i] < |xs|
    ensures |r| == |ps| && forall i :: 0 <= i < |ps| ==> r[i] == xs[ps[i]]
  {
    seq(|ps|, i requires 0 <= i < |ps| => xs[ps[i]])
  }

  lemma PermuteInsert<T>(xs: seq<T>, s: seq<nat>, p: nat, m: nat)
    requires p < |xs| && m <= |s|
    requires forall i :: 0 <= i < |s| ==> s[i] < |xs|
    ensures multiset(Permute(xs, s[..m] + [p] + s[m..])) == multiset(Permute(xs, s)) + multiset{xs[p]}
  {
    var a := Permute(xs, s);
    assert Permute(xs, s[..m] + [p] + s[m..]) == a[..m] + [xs[p]] + a[m..];
    assert a == a[..m] + a[m..];
  }

  /** Stable sorting only rearranges: the sorted prefix holds exactly the
      elements of `xs[..n]`, as often as they occur there. */
  lemma {:induction false} SortPrefixPermutes<T>(xs: seq<T>, keys: seq<int>, n: nat)
    requires |keys| == |xs| && n <= |xs|
    ensures multiset(Permute(xs, SortPrefix(keys, n))) == multiset(xs[..n])
    decreases n
  {
    if n > 0 {
      var s := SortPrefix(keys, n - 1);
      SortPrefixPermutes(xs, keys, n - 1);
      var m := InsertLastShape(keys, n - 1, s);
      PermuteInsert(xs, s, n - 1, m);
      assert xs[..n] == xs[..n - 1] + [xs[n - 1]];
    }
  }
}
