/** Orders, sorting and filtering shared by every component: the language's built-in `sorted`
    is a stable sort, and strings compare character by character. */
module Ordering {

  /** Lexicographic order of strings by character code. */
  predicate StrLeq(a: string, b: string) {
    a == [] || (b != [] && (a[0] < b[0] || (a[0] == b[0] && StrLeq(a[1..], b[1..]))))
  }

  predicate StrLess(a: string, b: string) {
    StrLeq(a, b) && a != b
  }

  /** Character `k` is the first in which the strings differ. */
  ghost predicate DifferAt(a: string, b: string, k: int) {
    0 <= k < |a| && k < |b| && a[..k] == b[..k] && a[k] != b[k]
  }

  /** Strings compare by their first difference, and a prefix comes first. */
  lemma {:induction false} StrLeqMeaning(a: string, b: string)
    ensures a <= b ==> StrLeq(a, b)
    ensures b < a ==> !StrLeq(a, b)
    ensures forall k :: DifferAt(a, b, k) ==> (StrLeq(a, b) <==> a[k] < b[k])
    decreases |a|
  {
    assert forall k :: DifferAt(a, b, k) && 0 < k ==> a[..k][0] == a[0] && b[..k][0] == b[0];
    if a != [] && b != [] && a[0] == b[0] {
      var c, d := a[1..], b[1..];
      StrLeqMeaning(c, d);
      assert a == [a[0]] + c && b == [b[0]] + d;
      forall k | DifferAt(a, b, k) ensures StrLeq(a, b) <==> a[k] < b[k] {
        assert c[..k - 1] == a[..k][1..] && d[..k - 1] == b[..k][1..];
        assert DifferAt(c, d, k - 1);
      }
    }
  }

  lemma StrLeqTotal(a: string, b: string)
    ensures StrLeq(a, b) || StrLeq(b, a)
  {
    if a != [] && b != [] { StrLeqTotal(a[1..], b[1..]); }
  }

  lemma {:induction false} StrLeqAntisymmetric(a: string, b: string)
    requires StrLeq(a, b) && StrLeq(b, a)
    ensures a == b
  {
    if a != [] && b != [] {
      StrLeqAntisymmetric(a[1..], b[1..]);
      assert a == [a[0]] + a[1..] && b == [b[0]] + b[1..];
    }
  }

  lemma StrLeqTransitive(a: string, b: string, c: string)
    requires StrLeq(a, b) && StrLeq(b, c)
    ensures StrLeq(a, c)
  {
    if a != [] && b != [] && c != [] && a[0] == b[0] && b[0] == c[0] {
      StrLeqTransitive(a[1..], b[1..], c[1..]);
    }
  }

  ghost predicate TotalPreorder<T(!new)>(leq: (T, T) -> bool) {
    && (forall a, b :: leq(a, b) || leq(b, a))
    && (forall a, b, c :: leq(a, b) && leq(b, c) ==> leq(a, c))
  }

  lemma StrLeqIsTotalPreorder()
    ensures TotalPreorder(StrLeq)
  {
    forall a, b ensures StrLeq(a, b) || StrLeq(b, a) { StrLeqTotal(a, b); }
    forall a, b, c | StrLeq(a, b) && StrLeq(b, c) ensures StrLeq(a, c) { StrLeqTransitive(a, b, c); }
  }

  ghost predicate Sorted<T>(s: seq<T>, leq: (T, T) -> bool) {
    forall i, j :: 0 <= i < j < |s| ==> leq(s[i], s[j])
  }

  /** Elements that tie in `leq` are equal, as far as `s` is concerned. */
  ghost predicate NoTies<T>(s: seq<T>, leq: (T, T) -> bool) {
    forall x, y :: x in s && y in s && leq(x, y) && leq(y, x) ==> x == y
  }

  function Insert<T>(x: T, s: seq<T>, leq: (T, T) -> bool): (r: seq<T>)
    ensures multiset(r) == multiset{x} + multiset(s)
  {
    if s == [] || leq(x, s[0]) then
      assert [x] + s == [x] + s;
      [x] + s
    else
      assert s == [s[0]] + s[1..];
      [s[0]] + Insert(x, s[1..], leq)
  }

  /** The stable sort: equal elements keep the order of the input. */
  function Sort<T>(s: seq<T>, leq: (T, T) -> bool): (r: seq<T>)
    ensures multiset(r) == multiset(s)
    ensures |r| == |s|
  {
    if s == [] then [] else
    assert s == [s[0]] + s[1..];
    var r := Insert(s[0], Sort(s[1..], leq), leq);
    assert |multiset(r)| == |r| && |multiset(s)| == |s|;
    r
  }

  lemma SameElements<T>(s: seq<T>, t: seq<T>)
    requires multiset(s) == multiset(t)
    ensures |s| == |t|
    ensures forall x :: x in s <==> x in t
  {
    assert |multiset(s)| == |s| && |multiset(t)| == |t|;
    assert forall x :: x in s <==> x in multiset(s);
    assert forall x :: x in t <==> x in multiset(t);
  }

  lemma {:induction false} InsertSorted<T(!new)>(x: T, s: seq<T>, leq: (T, T) -> bool)
    requires TotalPreorder(leq) && Sorted(s, leq)
    ensures Sorted(Insert(x, s, leq), leq)
  {
    if s == [] || leq(x, s[0]) {
      assert forall i :: 0 <= i < |s| ==> leq(x, s[i]);
    } else {
      InsertSorted(x, s[1..], leq);
      var r := Insert(x, s[1..], leq);
      forall i | 0 <= i < |r| ensures leq(s[0], r[i]) {
        assert r[i] in multiset(r);
        assert r[i] == x || r[i] in s[1..];
      }
    }
  }

  lemma {:induction false} SortSorts<T(!new)>(s: seq<T>, leq: (T, T) -> bool)
    requires TotalPreorder(leq)
    ensures Sorted(Sort(s, leq), leq)
  {
    if s != [] {
      SortSorts(s[1..], leq);
      InsertSorted(s[0], Sort(s[1..], leq), leq);
    }
  }

  /** Sorting a sorted sequence changes nothing. */
  lemma {:induction false} SortOfSorted<T>(s: seq<T>, leq: (T, T) -> bool)
    requires Sorted(s, leq)
    ensures Sort(s, leq) == s
  {
    if s != [] {
      SortOfSorted(s[1..], leq);
      assert s == [s[0]] + s[1..];
    }
  }

  lemma SortedHeadUnique<T>(s: seq<T>, t: seq<T>, leq: (T, T) -> bool)
    requires s != [] && t != [] && s[0] in t && t[0] in s
    requires Sorted(s, leq) && Sorted(t, leq) && NoTies(s, leq)
    ensures s[0] == t[0]
  {
    var i :| 0 <= i < |t| && t[i] == s[0];
    var j :| 0 <= j < |s| && s[j] == t[0];
    assert i == 0 || leq(t[0], t[i]);
    assert j == 0 || leq(s[0], s[j]);
  }

  lemma TailElements<T>(s: seq<T>)
    requires s != []
    ensures multiset(s[1..]) == multiset(s) - multiset{s[0]}
    ensures forall x :: x in s[1..] ==> x in s
    ensures s == [s[0]] + s[1..]
  {
    assert s == [s[0]] + s[1..];
  }

  /** The sequence without its element at `j`. */
  function Without<T>(s: seq<T>, j: nat): seq<T>
    requires j < |s|
  {
    s[..j] + s[j + 1..]
  }

  lemma WithoutElements<T>(s: seq<T>, j: nat)
    requires j < |s|
    ensures multiset(Without(s, j)) == multiset(s) - multiset{s[j]} && |Without(s, j)| == |s| - 1
    ensures multiset(s) == multiset(Without(s, j)) + multiset{s[j]}
  {
    assert s == s[..j] + [s[j]] + s[j + 1..];
  }

  /** Under an order without ties a sequence has one sorted arrangement. */
  lemma {:induction false} SortedUnique<T>(s: seq<T>, t: seq<T>, leq: (T, T) -> bool)
    requires multiset(s) == multiset(t)
    requires Sorted(s, leq) && Sorted(t, leq) && NoTies(s, leq)
    ensures s == t
  {
    SameElements(s, t);
    if s != [] {
      SortedHeadUnique(s, t, leq);
      TailElements(s);
      TailElements(t);
      SortedUnique(s[1..], t[1..], leq);
    }
  }

  /** Without ties the sorted result does not depend on the order of the input. */
  lemma SortPermutation<T(!new)>(s: seq<T>, t: seq<T>, leq: (T, T) -> bool)
    requires TotalPreorder(leq) && multiset(s) == multiset(t) && NoTies(s, leq)
    ensures Sort(s, leq) == Sort(t, leq)
  {
    SortSorts(s, leq);
    SortSorts(t, leq);
    SameElements(s, Sort(s, leq));
    SortedUnique(Sort(s, leq), Sort(t, leq), leq);
  }

  /** Sorted by `leq`, and by `second` where `leq` ties. */
  ghost predicate SortedThen<T>(s: seq<T>, leq: (T, T) -> bool, second: (T, T) -> bool) {
    forall i, j :: 0 <= i < j < |s| ==> leq(s[i], s[j]) && (leq(s[j], s[i]) ==> second(s[i], s[j]))
  }

  lemma {:induction false} InsertSortedThen<T(!new)>(x: T, s: seq<T>, leq: (T, T) -> bool, second: (T, T) -> bool)
    requires TotalPreorder(leq) && SortedThen(s, leq, second) && forall y :: y in s ==> second(x, y)
    ensures SortedThen(Insert(x, s, leq), leq, second)
  {
    if s == [] || leq(x, s[0]) {
      assert forall i :: 0 <= i < |s| ==> leq(x, s[i]);
    } else {
      InsertSortedThen(x, s[1..], leq, second);
      var r := Insert(x, s[1..], leq);
      forall i | 0 <= i < |r| ensures leq(s[0], r[i]) && (leq(r[i], s[0]) ==> second(s[0], r[i])) {
        assert r[i] in multiset(r);
        assert r[i] == x || r[i] in s[1..];
      }
    }
  }

  /** Stability: sorting a sequence that is sorted by `second` leaves ties in that order. */
  lemma {:induction false} SortIsStable<T(!new)>(s: seq<T>, leq: (T, T) -> bool, second: (T, T) -> bool)
    requires TotalPreorder(leq) && Sorted(s, second)
    ensures SortedThen(Sort(s, leq), leq, second)
  {
    if s != [] {
      SortIsStable(s[1..], leq, second);
      SameElements(s[1..], Sort(s[1..], leq));
      InsertSortedThen(s[0], Sort(s[1..], leq), leq, second);
    }
  }

  function Filter<T(!new)>(s: seq<T>, p: T -> bool): (r: seq<T>)
    ensures |r| <= |s|
    ensures forall x :: x in r <==> x in s && p(x)
  {
    if s == [] then [] else
    assert s == [s[0]] + s[1..];
    var rest := Filter(s[1..], p);
    if p(s[0]) then [s[0]] + rest else rest
  }

  lemma {:induction false} FilterAll<T(!new)>(s: seq<T>, p: T -> bool)
    requires forall x :: x in s ==> p(x)
    ensures Filter(s, p) == s
  {
    if s != [] { FilterAll(s[1..], p); }
  }

  lemma FilterConcat<T(!new)>(s: seq<T>, t: seq<T>, p: T -> bool)
    ensures Filter(s + t, p) == Filter(s, p) + Filter(t, p)
  {
    if s == [] {
      assert s + t == t;
    } else {
      assert s + t == [s[0]] + (s[1..] + t);
      FilterConcat(s[1..], t, p);
      assert (s + t)[1..] == s[1..] + t;
      assert [s[0]] + (Filter(s[1..], p) + Filter(t, p)) == [s[0]] + Filter(s[1..], p) + Filter(t, p);
    }
  }

  lemma FilterSnoc<T(!new)>(s: seq<T>, x: T, p: T -> bool)
    ensures Filter(s + [x], p) == if p(x) then Filter(s, p) + [x] else Filter(s, p)
  {
    FilterConcat(s, [x], p);
    assert [x][1..] == [];
  }

  lemma {:induction false} FilterMultiset<T(!new)>(s: seq<T>, p: T -> bool, x: T)
    ensures multiset(Filter(s, p))[x] == if p(x) then multiset(s)[x] else 0
  {
    if s != [] {
      FilterMultiset(s[1..], p, x);
      assert s == [s[0]] + s[1..];
    }
  }

  lemma FilterPermutation<T(!new)>(a: seq<T>, b: seq<T>, p: T -> bool)
    requires multiset(a) == multiset(b)
    ensures multiset(Filter(a, p)) == multiset(Filter(b, p))
  {
    forall x ensures multiset(Filter(a, p))[x] == multiset(Filter(b, p))[x] {
      FilterMultiset(a, p, x);
      FilterMultiset(b, p, x);
    }
  }

  lemma {:induction false} FilterSorted<T(!new)>(s: seq<T>, p: T -> bool, leq: (T, T) -> bool)
    requires Sorted(s, leq)
    ensures Sorted(Filter(s, p), leq)
  {
    if s != [] {
      FilterSorted(s[1..], p, leq);
      assert forall x :: x in s[1..] ==> leq(s[0], x);
    }
  }

  lemma FilterCongruent<T(!new)>(s: seq<T>, p: T -> bool, q: T -> bool)
    requires forall x :: x in s ==> p(x) == q(x)
    ensures Filter(s, p) == Filter(s, q)
  {
    if s != [] { FilterCongruent(s[1..], p, q); }
  }

  function Map<T, U>(s: seq<T>, f: T -> U): (r: seq<U>)
    ensures |r| == |s| && forall i :: 0 <= i < |s| ==> r[i] == f(s[i])
  {
    seq(|s|, i requires 0 <= i < |s| => f(s[i]))
  }

  ghost predicate IsLeast(m: string, s: set<string>) {
    m in s && forall x :: x in s ==> StrLeq(m, x)
  }

  lemma {:induction false} LeastExists(s: set<string>)
    requires s != {}
    ensures exists m :: IsLeast(m, s)
  {
    var x :| x in s;
    StrLeqTotal(x, x);
    if s - {x} == {} {
      forall y | y in s ensures y == x { assert y !in s - {x}; }
      assert IsLeast(x, s);
    } else {
      LeastExists(s - {x});
      var m :| IsLeast(m, s - {x});
      StrLeqTotal(x, m);
      if StrLeq(x, m) {
        forall y | y in s ensures StrLeq(x, y) { if y != x { StrLeqTransitive(x, m, y); } }
        assert IsLeast(x, s);
      } else {
        assert IsLeast(m, s);
      }
    }
  }

  lemma LeastUnique(m: string, n: string, s: set<string>)
    requires IsLeast(m, s) && IsLeast(n, s)
    ensures m == n
  {
    StrLeqAntisymmetric(m, n);
  }

  method Least(s: set<string>) returns (m: string)
    requires s != {}
    ensures IsLeast(m, s)
  {
    m :| m in s;
    StrLeqTotal(m, m);
    var rest := s - {m};
    while rest != {}
      invariant rest <= s && IsLeast(m, s - rest)
      decreases rest
    {
      var x :| x in rest;
      StrLeqTotal(x, m);
      StrLeqTotal(x, x);
      if !StrLeq(m, x) {
        forall y | y in s - rest ensures StrLeq(x, y) { StrLeqTransitive(x, m, y); }
        m := x;
      }
      rest := rest - {x};
    }
    assert s - rest == s;
  }

  /** `sorted(keys)` of a dictionary: its keys in ascending order, each once. */
  ghost function SortedKeys(s: set<string>): (r: seq<string>)
    ensures forall x :: x in r <==> x in s
    ensures |r| == |s|
  {
    if s == {} then [] else
    LeastExists(s);
    var m :| IsLeast(m, s);
    [m] + SortedKeys(s - {m})
  }

  /** The ascending keys computed by repeated selection; the result is `SortedKeys`. */
  method SortKeys(s: set<string>) returns (r: seq<string>)
    ensures r == SortedKeys(s)
  {
    r := [];
    var todo := s;
    while todo != {}
      invariant r + SortedKeys(todo) == SortedKeys(s)
      decreases todo
    {
      var m := Least(todo);
      LeastUnique(m, SortedKeys(todo)[0], todo);
      assert SortedKeys(todo) == [m] + SortedKeys(todo - {m});
      r, todo := r + [m], todo - {m};
    }
  }

  lemma {:induction false} SortedKeysSorted(s: set<string>)
    ensures forall i, j :: 0 <= i < j < |SortedKeys(s)| ==> StrLess(SortedKeys(s)[i], SortedKeys(s)[j])
  {
    if s != {} {
      var r := SortedKeys(s);
      assert r[1..] == SortedKeys(s - {r[0]});
      SortedKeysSorted(s - {r[0]});
      forall j | 0 < j < |r| ensures StrLess(r[0], r[j]) {
        assert r[j] == r[1..][j - 1];
        assert r[j] in s - {r[0]};
      }
      forall i, j | 0 < i < j < |r| ensures StrLess(r[i], r[j]) {
        assert r[i] == r[1..][i - 1] && r[j] == r[1..][j - 1];
      }
    }
  }

  lemma SortedKeysDistinct(s: set<string>)
    ensures forall i, j :: 0 <= i < j < |SortedKeys(s)| ==> SortedKeys(s)[i] != SortedKeys(s)[j]
  {
    hide SortedKeys, StrLeq;
    SortedKeysSorted(s);
  }
}
