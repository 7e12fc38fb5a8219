/** Sorting as Python's `sorted`, `list.sort` and `heapq` provide it, and nothing more. */
module Sorting {

  ghost predicate TotalOrder<T(!new)>(leq: (T, T) -> bool) {
    && (forall x, y :: leq(x, y) || leq(y, x))
    && (forall x, y, z :: leq(x, y) && leq(y, z) ==> leq(x, z))
  }

  ghost predicate SortedBy<T>(s: seq<T>, leq: (T, T) -> bool) {
    forall i, j :: 0 <= i < j < |s| ==> leq(s[i], s[j])
  }

  /** Inserts `x` after every element that is not greater than it. */
  function Insert<T(!new)>(s: seq<T>, x: T, leq: (T, T) -> bool): (r: seq<T>)
    ensures multiset(r) == multiset(s) + multiset{x}
  {
    if s == [] then [x]
    else
      assert s == s[..|s| - 1] + [s[|s| - 1]];
      if leq(s[|s| - 1], x) then s + [x]
      else Insert(s[..|s| - 1], x, leq) + [s[|s| - 1]]
  }

  lemma {:induction false} InsertMembers<T(!new)>(s: seq<T>, x: T, leq: (T, T) -> bool)
    ensures |Insert(s, x, leq)| == |s| + 1
    ensures forall y :: y in Insert(s, x, leq) <==> y in s || y == x
  {
    var r := Insert(s, x, leq);
    assert |multiset(r)| == |multiset(s)| + 1;
    assert forall y :: y in r <==> y in multiset(r);
    assert forall y :: y in s <==> y in multiset(s);
  }

  lemma {:induction false} InsertSorted<T(!new)>(s: seq<T>, x: T, leq: (T, T) -> bool)
    requires TotalOrder(leq) && SortedBy(s, leq)
    ensures SortedBy(Insert(s, x, leq), leq)
  {
    if s == [] || leq(s[|s| - 1], x) {
    } else {
      var init, last := s[..|s| - 1], s[|s| - 1];
      InsertSorted(init, x, leq);
      InsertMembers(init, x, leq);
      var r := Insert(init, x, leq);
      forall i | 0 <= i < |r| ensures leq(r[i], last) {
        assert r[i] in init || r[i] == x;
      }
    }
  }

  function Sort<T(!new)>(s: seq<T>, leq: (T, T) -> bool): (r: seq<T>)
    ensures multiset(r) == multiset(s)
  {
    if s == [] then []
    else
      assert s == s[..|s| - 1] + [s[|s| - 1]];
      Insert(Sort(s[..|s| - 1], leq), s[|s| - 1], leq)
  }

  lemma {:induction false} SortSorted<T(!new)>(s: seq<T>, leq: (T, T) -> bool)
    requires TotalOrder(leq)
    ensures SortedBy(Sort(s, leq), leq)
  {
    if s == [] {
    } else {
      SortSorted(s[..|s| - 1], leq);
      InsertSorted(Sort(s[..|s| - 1], leq), s[|s| - 1], leq);
    }
  }

  lemma {:induction false} SortMembers<T(!new)>(s: seq<T>, leq: (T, T) -> bool)
    ensures |Sort(s, leq)| == |s|
    ensures forall x :: x in Sort(s, leq) <==> x in s
  {
    assert |multiset(Sort(s, leq))| == |multiset(s)|;
    assert forall x :: x in Sort(s, leq) <==> x in multiset(Sort(s, leq));
    assert forall x :: x in s <==> x in multiset(s);
  }

  ghost predicate Distinct<T>(s: seq<T>) {
    forall i, j :: 0 <= i < j < |s| ==> s[i] != s[j]
  }

  lemma {:induction false} DistinctOnce<T>(s: seq<T>, x: T)
    requires Distinct(s)
    ensures multiset(s)[x] <= 1
  {
    if s == [] {
    } else {
      assert s == s[..|s| - 1] + [s[|s| - 1]];
      DistinctOnce(s[..|s| - 1], x);
    }
  }

  lemma {:induction false} OnceDistinct<T(!new)>(s: seq<T>)
    requires forall x :: multiset(s)[x] <= 1
    ensures Distinct(s)
  {
    if s == [] {
    } else {
      var init, last := s[..|s| - 1], s[|s| - 1];
      assert s == init + [last];
      forall x ensures multiset(init)[x] <= 1 { assert multiset(s)[x] <= 1; }
      OnceDistinct(init);
      assert multiset(s)[last] == multiset(init)[last] + 1;
    }
  }

  lemma {:induction false} SortDistinct<T(!new)>(s: seq<T>, leq: (T, T) -> bool)
    requires Distinct(s)
    ensures Distinct(Sort(s, leq))
  {
    forall x ensures multiset(Sort(s, leq))[x] <= 1 { DistinctOnce(s, x); }
    OnceDistinct(Sort(s, leq));
  }

  ghost predicate Antisymmetric<T(!new)>(leq: (T, T) -> bool) {
    forall x, y :: leq(x, y) && leq(y, x) ==> x == y
  }

  /** Sorted sequences without repetition and with the same elements are equal. */
  lemma {:induction false} SortedUnique<T(!new)>(s: seq<T>, t: seq<T>, leq: (T, T) -> bool)
    requires Antisymmetric(leq) && Distinct(s) && Distinct(t) && SortedBy(s, leq) && SortedBy(t, leq)
    requires forall x :: x in s <==> x in t
    ensures s == t
  {
    if s == [] {
      if t != [] { HasMember(t); }
    } else {
      var last := s[|s| - 1];
      assert last in t;
      LastIsLargest(s, t, leq);
      LastIsLargest(t, s, leq);
      var s', t' := s[..|s| - 1], t[..|t| - 1];
      assert s == s' + [last] && t == t' + [last];
      forall x ensures x in s' <==> x in t' {
        assert x in s <==> x in s' || x == last;
        assert x in t <==> x in t' || x == last;
      }
      SortedUnique(s', t', leq);
    }
  }

  lemma {:induction false} HasMember<T>(s: seq<T>)
    requires s != []
    ensures exists x :: x in s
  {
    assert s[0] in s;
  }

  lemma {:induction false} LastIsLargest<T(!new)>(s: seq<T>, t: seq<T>, leq: (T, T) -> bool)
    requires SortedBy(t, leq) && s != [] && t != [] && s[|s| - 1] in t
    ensures s[|s| - 1] == t[|t| - 1] || leq(s[|s| - 1], t[|t| - 1])
  {
  }

  predicate IntLeq(x: int, y: int) { x <= y }

  ghost predicate Increasing(s: seq<int>) {
    forall i, j :: 0 <= i < j < |s| ==> s[i] < s[j]
  }

  /** `sorted` on a set of instants: each one once, in order. */
  method SortedInstants(instants: set<int>) returns (r: seq<int>)
    ensures Increasing(r)
    ensures forall x :: x in r <==> x in instants
  {
    r := [];
    var rest := instants;
    while rest != {}
      invariant rest <= instants
      invariant Increasing(r)
      invariant forall x :: x in r <==> x in instants && x !in rest
      decreases rest
    {
      var x := Pick(rest);
      InsertNew(r, x);
      InsertMembers(r, x, IntLeq);
      r, rest := Insert(r, x, IntLeq), rest - {x};
    }
  }

  method Pick<T>(s: set<T>) returns (x: T)
    requires s != {}
    ensures x in s
  {
    x :| x in s;
  }

  lemma {:induction false} InsertNew(s: seq<int>, x: int)
    requires Increasing(s) && x !in s
    ensures Increasing(Insert(s, x, IntLeq))
  {
    if s == [] {
    } else {
      var init, last := s[..|s| - 1], s[|s| - 1];
      assert s == init + [last];
      if last <= x {
        assert Insert(s, x, IntLeq) == s + [x];
      } else {
        InsertNew(init, x);
        InsertMembers(init, x, IntLeq);
        var r := Insert(init, x, IntLeq);
        forall i | 0 <= i < |r| ensures r[i] < last {
          assert r[i] in init || r[i] == x;
        }
      }
    }
  }

  /** The order of strings: by their first different character, a prefix first. */
  predicate StringLeq(a: string, b: string) {
    a == [] || (b != [] && (a[0] < b[0] || (a[0] == b[0] && StringLeq(a[1..], b[1..]))))
  }

  ghost predicate DiffersAt(a: string, b: string, i: nat) {
    i < |a| && i < |b| && a[i] < b[i] && forall k :: 0 <= k < i ==> a[k] == b[k]
  }

  /** The first is a prefix of the second, or has the smaller character where they first differ. */
  lemma {:induction false} StringLeqByFirstDifference(a: string, b: string)
    ensures StringLeq(a, b) <==> a <= b || exists i :: DiffersAt(a, b, i)
  {
    if a == [] || b == [] {
    } else {
      StringLeqByFirstDifference(a[1..], b[1..]);
      PrefixShifts(a, b);
      DifferenceShifts(a, b);
    }
  }

  lemma {:induction false} PrefixShifts(a: string, b: string)
    requires a != [] && b != []
    ensures a <= b <==> a[0] == b[0] && a[1..] <= b[1..]
  {
    assert a == [a[0]] + a[1..] && b == [b[0]] + b[1..];
  }

  lemma {:induction false} DifferenceShifts(a: string, b: string)
    requires a != [] && b != []
    ensures (exists i :: DiffersAt(a, b, i)) <==>
      a[0] < b[0] || (a[0] == b[0] && exists i :: DiffersAt(a[1..], b[1..], i))
  {
    if i :| DiffersAt(a, b, i) {
      if 0 < i { DifferenceDown(a, b, i); }
    }
    if a[0] < b[0] { assert DiffersAt(a, b, 0); }
    if i :| DiffersAt(a[1..], b[1..], i) && a[0] == b[0] { DifferenceUp(a, b, i); }
  }

  lemma {:induction false} DifferenceDown(a: string, b: string, i: nat)
    requires DiffersAt(a, b, i) && 0 < i
    ensures DiffersAt(a[1..], b[1..], i - 1)
  {
    forall k | 0 <= k < i - 1 ensures a[1..][k] == b[1..][k] {
      assert a[k + 1] == b[k + 1];
    }
  }

  lemma {:induction false} DifferenceUp(a: string, b: string, i: nat)
    requires a != [] && b != [] && a[0] == b[0] && DiffersAt(a[1..], b[1..], i)
    ensures DiffersAt(a, b, i + 1)
  {
    forall k | 0 <= k < i + 1 ensures a[k] == b[k] {
      if 0 < k { assert a[1..][k - 1] == b[1..][k - 1]; }
    }
  }

  lemma {:induction false} StringLeqTotal(a: string, b: string)
    ensures StringLeq(a, b) || StringLeq(b, a)
  {
    if a == [] || b == [] {
    } else {
      StringLeqTotal(a[1..], b[1..]);
    }
  }

  lemma {:induction false} StringLeqTransitive(a: string, b: string, c: string)
    requires StringLeq(a, b) && StringLeq(b, c)
    ensures StringLeq(a, c)
  {
    if a == [] || a[0] < b[0] || b[0] < c[0] {
    } else {
      StringLeqTransitive(a[1..], b[1..], c[1..]);
    }
  }

  lemma {:induction false} StringLeqOrders()
    ensures TotalOrder(StringLeq)
  {
    forall a, b ensures StringLeq(a, b) || StringLeq(b, a) { StringLeqTotal(a, b); }
    forall a, b, c | StringLeq(a, b) && StringLeq(b, c) ensures StringLeq(a, c) { StringLeqTransitive(a, b, c); }
  }

  /** `sorted` on a set of strings. */
  method SortedNames(names: set<string>) returns (r: seq<string>)
    ensures SortedBy(r, StringLeq) && Distinct(r)
    ensures forall x :: x in r <==> x in names
  {
    var found: seq<string> := [];
    var rest := names;
    while rest != {}
      invariant rest <= names && Distinct(found)
      invariant forall x :: x in found <==> x in names && x !in rest
      decreases rest
    {
      var x := Pick(rest);
      found, rest := found + [x], rest - {x};
    }
    r := Sort(found, StringLeq);
    StringLeqOrders();
    SortSorted(found, StringLeq);
    SortMembers(found, StringLeq);
    SortDistinct(found, StringLeq);
  }
}
