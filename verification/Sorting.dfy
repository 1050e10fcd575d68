/** The C library's qsort and bsearch over a comparison function. */
module Sorting {

  /** The comparison is a total preorder on a set of values. */
  ghost predicate Preorder<T(!new)>(d: set<T>, cmp: (T, T) -> int) {
    && (forall x, y :: x in d && y in d ==> (cmp(x, y) <= 0 <==> cmp(y, x) >= 0))
    && (forall x, y, z :: x in d && y in d && z in d && cmp(x, y) <= 0 && cmp(y, z) <= 0 ==> cmp(x, z) <= 0)
  }

  lemma Flip<T(!new)>(d: set<T>, cmp: (T, T) -> int, x: T, y: T)
    requires Preorder(d, cmp) && x in d && y in d
    ensures cmp(x, y) <= 0 <==> cmp(y, x) >= 0
    ensures cmp(x, y) >= 0 <==> cmp(y, x) <= 0
    ensures cmp(x, x) == 0
  {}

  lemma Chain<T(!new)>(d: set<T>, cmp: (T, T) -> int, x: T, y: T, z: T)
    requires Preorder(d, cmp) && x in d && y in d && z in d && cmp(x, y) <= 0 && cmp(y, z) <= 0
    ensures cmp(x, z) <= 0
    ensures cmp(x, y) < 0 || cmp(y, z) < 0 ==> cmp(x, z) < 0
  {
    if cmp(x, z) >= 0 {
      assert cmp(z, x) <= 0;
      assert cmp(z, y) <= 0;
      assert cmp(y, x) <= 0;
    }
  }

  predicate Ordered<T(!new)>(s: seq<T>, cmp: (T, T) -> int) {
    forall i, j :: 0 <= i < j < |s| ==> cmp(s[i], s[j]) <= 0
  }

  lemma InsertOrdered<T(!new)>(s: seq<T>, x: T, n: nat, d: set<T>, cmp: (T, T) -> int)
    requires n <= |s| && Ordered(s, cmp) && Preorder(d, cmp) && x in d && (forall y :: y in s ==> y in d)
    requires n > 0 ==> cmp(s[n - 1], x) <= 0
    requires n < |s| ==> cmp(x, s[n]) <= 0
    ensures Ordered(s[..n] + [x] + s[n..], cmp)
  {
    hide Preorder;
    forall i | 0 <= i < n ensures cmp(s[i], x) <= 0 {
      if i < n - 1 { Chain(d, cmp, s[i], s[n - 1], x); }
    }
    forall i | n <= i < |s| ensures cmp(x, s[i]) <= 0 {
      if n < i { Chain(d, cmp, x, s[n], s[i]); }
    }
  }

  method Insert<T(!new)>(s: seq<T>, x: T, ghost d: set<T>, cmp: (T, T) -> int) returns (r: seq<T>)
    requires Ordered(s, cmp) && Preorder(d, cmp) && x in d && (forall y :: y in s ==> y in d)
    ensures Ordered(r, cmp) && multiset(r) == multiset(s) + multiset{x}
  {
    hide Preorder, Ordered;
    var n := |s|;
    while n > 0 && cmp(s[n - 1], x) > 0
      invariant 0 <= n <= |s| && (n < |s| ==> cmp(x, s[n]) <= 0)
    {
      Flip(d, cmp, s[n - 1], x);
      n := n - 1;
    }
    InsertOrdered(s, x, n, d, cmp);
    InsertSame(s, x, n);
    r := s[..n] + [x] + s[n..];
  }

  lemma InsertSame<T>(s: seq<T>, x: T, n: nat)
    requires n <= |s|
    ensures multiset(s[..n] + [x] + s[n..]) == multiset(s) + multiset{x}
  {
    assert s == s[..n] + s[n..];
  }

  lemma SameElements<T>(a: seq<T>, b: seq<T>)
    requires multiset(a) == multiset(b)
    ensures |a| == |b| && forall x :: x in a <==> x in b
  {
    assert |multiset(a)| == |a| && |multiset(b)| == |b|;
    forall x ensures x in a <==> x in b { assert x in a <==> x in multiset(a); }
  }

  /** A permutation in order. */
  method Sort<T(!new)>(s: seq<T>, ghost d: set<T>, cmp: (T, T) -> int) returns (r: seq<T>)
    requires Preorder(d, cmp) && (forall y :: y in s ==> y in d)
    ensures Ordered(r, cmp) && multiset(r) == multiset(s)
  {
    hide Preorder;
    r := [];
    for i := 0 to |s|
      invariant Ordered(r, cmp) && multiset(r) == multiset(s[..i])
    {
      assert s[..i + 1] == s[..i] + [s[i]];
      SameElements(r, s[..i]);
      r := Insert(r, s[i], d, cmp);
    }
    assert s[..|s|] == s;
  }

  /** Two ordered arrangements of the same elements are equal when the order
      tells the elements of an arrangement apart. */
  lemma {:induction false} OrderedUnique<T(!new)>(a: seq<T>, b: seq<T>, d: set<T>, cmp: (T, T) -> int)
    requires multiset(a) == multiset(b) && Ordered(a, cmp) && Ordered(b, cmp)
    requires Preorder(d, cmp) && (forall y :: y in a ==> y in d)
    requires forall i, j :: 0 <= i < j < |a| ==> cmp(a[i], a[j]) != 0
    ensures a == b
  {
    hide Preorder, Ordered;
    SameElements(a, b);
    if a != [] {
      FirstSame(a, b, d, cmp);
      TailSame(a, b);
      TailOrdered(a, cmp);
      TailOrdered(b, cmp);
      var t := a[1..];
      forall y | y in t ensures y in d { assert y in a; }
      forall i, j | 0 <= i < j < |t| ensures cmp(t[i], t[j]) != 0 { assert t[i] == a[i + 1] && t[j] == a[j + 1]; }
      OrderedUnique(a[1..], b[1..], d, cmp);
    }
  }

  lemma TailSame<T>(a: seq<T>, b: seq<T>)
    requires multiset(a) == multiset(b) && a != [] && b != [] && a[0] == b[0]
    ensures multiset(a[1..]) == multiset(b[1..]) && a == [a[0]] + a[1..] && b == [b[0]] + b[1..]
  {
    assert a == [a[0]] + a[1..] && b == [b[0]] + b[1..];
    assert multiset(a[1..]) == multiset(a) - multiset{a[0]};
    assert multiset(b[1..]) == multiset(b) - multiset{b[0]};
  }

  lemma TailOrdered<T(!new)>(s: seq<T>, cmp: (T, T) -> int)
    requires s != [] && Ordered(s, cmp)
    ensures Ordered(s[1..], cmp)
  {
    var t := s[1..];
    forall i, j | 0 <= i < j < |t| ensures cmp(t[i], t[j]) <= 0 { assert t[i] == s[i + 1] && t[j] == s[j + 1]; }
  }

  lemma FirstSame<T(!new)>(a: seq<T>, b: seq<T>, d: set<T>, cmp: (T, T) -> int)
    requires multiset(a) == multiset(b) && Ordered(a, cmp) && Ordered(b, cmp)
    requires Preorder(d, cmp) && (forall y :: y in a ==> y in d)
    requires forall i, j :: 0 <= i < j < |a| ==> cmp(a[i], a[j]) != 0
    requires |a| == |b| > 0
    ensures a[0] == b[0]
  {
    hide Preorder;
    SameElements(a, b);
    assert a[0] in a && b[0] in b;
    assert a[0] in b && b[0] in a;
    var i :| 0 <= i < |b| && b[i] == a[0];
    var j :| 0 <= j < |a| && a[j] == b[0];
    if i > 0 && j > 0 {
      Flip(d, cmp, a[0], b[0]);
    }
  }

  /** The index of an element comparing equal to `x`, if there is one. */
  method BinarySearch<T(!new)>(s: seq<T>, x: T, ghost d: set<T>, cmp: (T, T) -> int) returns (r: int)
    requires Ordered(s, cmp) && Preorder(d, cmp) && x in d && (forall y :: y in s ==> y in d)
    ensures -1 <= r < |s|
    ensures r >= 0 ==> cmp(x, s[r]) == 0
    ensures r < 0 ==> forall i :: 0 <= i < |s| ==> cmp(x, s[i]) != 0
  {
    hide Preorder;
    var low, high := 0, |s|;
    while low < high
      invariant 0 <= low <= high <= |s|
      invariant forall i :: 0 <= i < low ==> cmp(x, s[i]) > 0
      invariant forall i :: high <= i < |s| ==> cmp(x, s[i]) < 0
    {
      var mid := (low + high) / 2;
      var c := cmp(x, s[mid]);
      if c == 0 { return mid; }
      Flip(d, cmp, x, s[mid]);
      if c < 0 {
        forall i | mid < i < |s| ensures cmp(x, s[i]) < 0 { Chain(d, cmp, x, s[mid], s[i]); }
        high := mid;
      } else {
        forall i | 0 <= i < mid ensures cmp(x, s[i]) > 0 {
          Chain(d, cmp, s[i], s[mid], x);
          Flip(d, cmp, s[i], x);
        }
        low := mid + 1;
      }
    }
    r := -1;
  }

  lemma OccursTwice<T>(s: seq<T>, i: nat, j: nat)
    requires i < j < |s| && s[i] == s[j]
    ensures multiset(s)[s[i]] >= 2
  {
    assert s == (s[..j] + [s[j]]) + s[j + 1..];
    assert s[..j][i] == s[i];
  }

  lemma TwiceOccurs<T>(s: seq<T>, k: nat, x: T) returns (m: nat)
    requires k < |s| && s[k] == x && multiset(s)[x] >= 2
    ensures m < |s| && m != k && s[m] == x
  {
    var rest := s[..k] + s[k + 1..];
    assert s == (s[..k] + [x]) + s[k + 1..];
    assert multiset(s) == multiset(rest) + multiset{x};
    assert x in multiset(rest) && x in rest;
    var n :| 0 <= n < |rest| && rest[n] == x;
    m := if n < k then n else n + 1;
  }
}
