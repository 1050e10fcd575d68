/** The C string comparisons the sources sort and search by. */
module Strings {

  /** `strcmp`: -1, 0 or 1. */
  function Compare(a: string, b: string): (c: int)
    ensures -1 <= c <= 1
  {
    if a == "" then if b == "" then 0 else -1
    else if b == "" then 1
    else if a[0] != b[0] then if a[0] > b[0] then 1 else -1
    else Compare(a[1..], b[1..])
  }

  function Lower(c: char): char {
    if 'A' <= c <= 'Z' then (c as int + 32) as char else c
  }

  function Fold(s: string): (r: string)
    ensures |r| == |s| && forall i :: 0 <= i < |s| ==> r[i] == Lower(s[i])
  {
    if s == "" then "" else [Lower(s[0])] + Fold(s[1..])
  }

  /** `_stricmp` */
  function CompareFolded(a: string, b: string): (c: int)
    ensures -1 <= c <= 1
  {
    Compare(Fold(a), Fold(b))
  }

  lemma {:induction false} CompareEqual(a: string, b: string)
    ensures Compare(a, b) == 0 <==> a == b
  {
    if a != "" && b != "" {
      CompareEqual(a[1..], b[1..]);
      assert a == [a[0]] + a[1..] && b == [b[0]] + b[1..];
    }
  }

  /** The first difference decides, and a proper prefix comes first. */
  lemma {:induction false} CompareDecides(p: string, a: string, b: string)
    requires a == "" || b == "" || a[0] != b[0]
    ensures Compare(p + a, p + b) < 0 <==> b != "" && (a == "" || a[0] < b[0])
    ensures Compare(p + a, p + b) == 0 <==> a == "" && b == ""
  {
    if p == "" {
      assert p + a == a && p + b == b;
    } else {
      assert (p + a)[1..] == p[1..] + a && (p + b)[1..] == p[1..] + b;
      CompareDecides(p[1..], a, b);
    }
  }

  lemma {:induction false} CompareFlip(a: string, b: string)
    ensures Compare(a, b) == -Compare(b, a)
  {
    if a != "" && b != "" { CompareFlip(a[1..], b[1..]); }
  }

  lemma {:induction false} CompareTransitive(a: string, b: string, c: string)
    requires Compare(a, b) <= 0 && Compare(b, c) <= 0
    ensures Compare(a, c) <= 0
    ensures Compare(a, b) < 0 || Compare(b, c) < 0 ==> Compare(a, c) < 0
  {
    if a != "" && b != "" && c != "" && a[0] == b[0] && b[0] == c[0] {
      CompareTransitive(a[1..], b[1..], c[1..]);
    }
  }

  /** Length of the text before the first occurrence of a byte. */
  function Until(s: string, c: char): (n: nat)
    ensures n <= |s| && (n < |s| ==> s[n] == c) && c !in s[..n]
  {
    if s == "" || s[0] == c then 0 else 1 + Until(s[1..], c)
  }

  predicate Blank(c: char) {
    c == ' ' || c == '\t'
  }

  function TrimLeft(s: string): string {
    if s != "" && Blank(s[0]) then TrimLeft(s[1..]) else s
  }

  function TrimRight(s: string): string {
    if s != "" && Blank(s[|s| - 1]) then TrimRight(s[..|s| - 1]) else s
  }

  lemma {:induction false} UntilAt(a: string, b: string, c: char)
    requires c !in a && (b == "" || b[0] == c)
    ensures Until(a + b, c) == |a|
  {
    if a == "" {
      assert a + b == b;
    } else {
      assert (a + b)[1..] == a[1..] + b;
      UntilAt(a[1..], b, c);
    }
  }

  predicate Separator(c: char) {
    c == '/' || c == '\\'
  }

  /** Length of the first segment of a path. */
  function Segment(s: string): (n: nat)
    ensures n <= |s| && (n < |s| ==> Separator(s[n]))
  {
    if s == "" || Separator(s[0]) then 0 else 1 + Segment(s[1..])
  }

  // ----- comparison results -----

  function SignOf(d: int): int {
    if d > 0 then 1 else if d < 0 then -1 else 0
  }

  /** The first comparison unless it is a tie. */
  function Then(a: int, b: int): int {
    if a != 0 then a else b
  }

  // ----- segments of a path -----

  /** s[i..j] is one of the segments between separators. */
  predicate IsSegment(s: string, i: nat, j: nat) {
    && i <= j <= |s| && (i == 0 || Separator(s[i - 1])) && (j == |s| || Separator(s[j]))
    && forall k :: i <= k < j ==> !Separator(s[k])
  }

  lemma {:induction false} FirstSegment(s: string)
    ensures IsSegment(s, 0, Segment(s))
  {
    if s != "" && !Separator(s[0]) {
      FirstSegment(s[1..]);
      var n := Segment(s[1..]);
      forall k | 0 <= k < n + 1 ensures !Separator(s[k]) {
        if k > 0 { assert s[k] == s[1..][k - 1]; }
      }
    }
  }

  /** Segments do not overlap: what starts first ends at the first separator. */
  lemma SegmentsAgree(s: string, i: nat, j: nat, k: nat)
    requires IsSegment(s, i, j) && IsSegment(s, i, k)
    ensures j == k
  {}

  lemma SegmentOfRest(s: string, n: nat, i: nat, j: nat)
    requires 0 < n <= |s| && Separator(s[n - 1]) && IsSegment(s[n..], i, j)
    ensures IsSegment(s, n + i, n + j) && s[n + i..n + j] == s[n..][i..j]
  {
    var t := s[n..];
    forall k | n + i <= k < n + j ensures !Separator(s[k]) { assert s[k] == t[k - n]; }
    if i > 0 { assert s[n + i - 1] == t[i - 1]; }
    if j < |t| { assert s[n + j] == t[j]; }
  }

  lemma SegmentInRest(s: string, n: nat, i: nat, j: nat)
    requires 0 < n <= i && n <= |s| && IsSegment(s, i, j)
    ensures IsSegment(s[n..], i - n, j - n) && s[n..][i - n..j - n] == s[i..j]
  {
    var t := s[n..];
    forall k | i - n <= k < j - n ensures !Separator(t[k]) { assert t[k] == s[k + n]; }
    if i > n { assert t[i - n - 1] == s[i - 1]; }
    if j < |s| { assert t[j - n] == s[j]; }
  }

  /** A segment is the first one or lies behind it. */
  lemma SegmentPlace(s: string, i: nat, j: nat)
    requires IsSegment(s, i, j)
    ensures (i == 0 && j == Segment(s)) || (Segment(s) < |s| && i > Segment(s))
  {
    FirstSegment(s);
    var n := Segment(s);
    if i == 0 {
      SegmentsAgree(s, 0, j, n);
    }
  }
}
