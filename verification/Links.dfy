/** Linked repositories (wpm/repository.c): a list of roots that grows while its
    indexes are read.  */
module Links {
  import opened JsonFields
  import opened Strings
  import opened Packages
  import opened Catalog

  const PATH_SIZE: nat := 4096
  const MAX_REPOSITORIES: nat := 32

  datatype Root = Root(url: string, priority: int, order: nat, insecure: bool)

  /** What a readable index lists: packages, whose priority and order are not yet
      known, and links. */
  datatype Index = Index(packages: seq<Entry>, links: seq<string>)

  // ----- locators -----

  predicate IsHttps(s: string) {
    |s| >= 8 && Fold(s[..8]) == "https://"
  }

  predicate IsHttp(s: string) {
    |s| >= 7 && Fold(s[..7]) == "http://"
  }

  predicate IsWeb(s: string) {
    IsHttps(s) || IsHttp(s)
  }

  datatype Transport = File | Http | Https

  function TransportOf(s: string): Transport {
    if IsHttps(s) then Https else if IsHttp(s) then Http else File
  }

  function SchemeLength(s: string): nat
    requires IsWeb(s)
    ensures SchemeLength(s) <= |s|
  {
    if IsHttps(s) then 8 else 7
  }

  /** Length of scheme and authority. */
  function OriginLength(s: string): (n: nat)
    requires IsWeb(s)
    ensures SchemeLength(s) <= n <= |s|
  {
    SchemeLength(s) + Until(s[SchemeLength(s)..], '/')
  }

  function Origin(s: string): string
    requires IsWeb(s)
  {
    Fold(s[..OriginLength(s)])
  }

  /** `web_locator_valid`: an authority without credentials, no query and no fragment. */
  predicate LocatorValid(s: string)
    requires IsWeb(s)
  {
    var n := OriginLength(s);
    && n > SchemeLength(s) && '?' !in s[SchemeLength(s)..] && '#' !in s[SchemeLength(s)..]
    && '\\' !in s[SchemeLength(s)..n] && '@' !in s[SchemeLength(s)..n]
  }

  function StripSlashes(s: string, least: nat): (r: string)
    ensures r <= s && (|s| >= least ==> |r| >= least)
  {
    if |s| > least && s[|s| - 1] == '/' then StripSlashes(s[..|s| - 1], least) else s
  }

  predicate HasAny(s: string, set1: string) {
    exists i :: 0 <= i < |s| && s[i] in set1
  }

  /** `repository_normalize`; `full` is the full path of a file locator. */
  function Normalized(s: string, full: string -> Option<string>): Option<string> {
    if s == "" || HasAny(s, "\t\r\n") then None
    else if IsWeb(s) then
      if HasAny(s, " \t\r\n") || |s| >= PATH_SIZE || !LocatorValid(s) then None else Some(StripSlashes(s, SchemeLength(s)))
    else full(s)
  }

  /** No segment is empty, "." or "..". */
  predicate PlainSegments(s: string) {
    var n := Segment(s);
    s[..n] != "" && s[..n] != "." && s[..n] != ".." && (n < |s| ==> PlainSegments(s[n + 1..]))
  }

  /** `safe_relative_item` */
  predicate SafeItem(item: string) {
    item != "" && !Separator(item[0]) && ':' !in item && PlainSegments(item)
  }

  /** `package_source`: where a link of a root leads. */
  function SourceOf(root: string, item: string): Option<string> {
    if IsWeb(root) then
      if IsHttps(item) then if IsHttps(root) && |item| < PATH_SIZE then Some(item) else None
      else if IsHttp(item) then if IsHttp(root) && Origin(root) == Origin(item) && |item| < PATH_SIZE then Some(item) else None
      else if SafeItem(item) && |root| + 1 + |item| < PATH_SIZE then Some(root + ("/" + item)) else None
    else if !SafeItem(item) || root == "" then None
    else
      var joined := root + ((if root[|root| - 1] == '\\' then "" else "\\") + item);
      if |joined| < PATH_SIZE then Some(joined) else None
  }

  /** The normalized root a link leads to, if it is admissible. */
  function Target(root: string, item: string, full: string -> Option<string>): Option<string> {
    var s := SourceOf(root, item);
    if s.None? then None else Normalized(s.value, full)
  }

  /** Full paths of the file system are not web locators. */
  ghost predicate FilePaths(full: string -> Option<string>) {
    forall p :: full(p).Some? ==> !IsWeb(full(p).value)
  }

  lemma {:induction false} StripKeeps(s: string, least: nat, n: nat)
    requires least <= n <= |s| && (n > 0 && n > least ==> s[n - 1] != '/')
    ensures |StripSlashes(s, least)| >= n
  {
    if |s| > n && s[|s| - 1] == '/' { StripKeeps(s[..|s| - 1], least, n); }
  }

  /** A prefix that covers the origin has the same origin. */
  lemma OriginOfPrefix(s: string, t: string)
    requires IsWeb(s) && t <= s && |t| >= OriginLength(s)
    ensures IsWeb(t) && IsHttps(t) == IsHttps(s) && TransportOf(t) == TransportOf(s) && Origin(t) == Origin(s)
  {
    var k := SchemeLength(s);
    assert t[..k] == s[..k];
    if |t| >= 8 { assert t[..8] == s[..8]; }
    if IsHttps(t) { SchemesDiffer(s); }
    var n := Until(s[k..], '/');
    UntilPrefix(s[k..], t[k..], '/');
    assert t[..OriginLength(s)] == s[..OriginLength(s)];
  }

  lemma SchemesDiffer(s: string)
    ensures !(IsHttps(s) && IsHttp(s))
  {
    if |s| >= 8 { assert Fold(s[..8])[4] == Lower(s[4]) == Fold(s[..7])[4]; }
    assert "https://"[4] == 's' && "http://"[4] == ':';
  }

  lemma {:induction false} UntilPrefix(s: string, t: string, c: char)
    requires t <= s && |t| >= Until(s, c)
    ensures Until(t, c) == Until(s, c)
  {
    if s != "" && s[0] != c {
      assert t != "" && t[1..] <= s[1..];
      UntilPrefix(s[1..], t[1..], c);
    }
  }

  /** Normalization keeps transport and origin. */
  lemma NormalizedKeeps(s: string, full: string -> Option<string>)
    requires IsWeb(s) && Normalized(s, full).Some?
    ensures var t := Normalized(s, full).value; IsWeb(t) && TransportOf(t) == TransportOf(s) && Origin(t) == Origin(s)
  {
    var n := OriginLength(s);
    assert s[n - 1] != '/' by { assert s[SchemeLength(s)..][..n - SchemeLength(s)][n - 1 - SchemeLength(s)] == s[n - 1]; }
    StripKeeps(s, SchemeLength(s), n);
    OriginOfPrefix(s, StripSlashes(s, SchemeLength(s)));
  }

  lemma SchemeStays(root: string, s: string)
    requires IsWeb(root) && root <= s
    ensures IsWeb(s) && IsHttps(s) == IsHttps(root) && IsHttp(s) == IsHttp(root)
  {
    assert s[..7] == root[..7];
    if |root| >= 8 { assert s[..8] == root[..8]; }
    SchemesDiffer(s);
    SchemesDiffer(root);
  }

  lemma OriginStays(root: string, item: string)
    requires IsWeb(root) && IsWeb(root + ("/" + item)) && IsHttps(root + ("/" + item)) == IsHttps(root)
    ensures Origin(root + ("/" + item)) == Origin(root)
  {
    hide IsHttps, IsHttp, Fold;
    var s := root + ("/" + item);
    var k := SchemeLength(root);
    UntilJoined(root[k..], item, '/');
    assert s[k..] == root[k..] + ("/" + item);
    var n := OriginLength(root);
    assert s[..n] == root[..n];
  }

  lemma RelativeKeeps(root: string, item: string)
    requires IsWeb(root)
    ensures var s := root + ("/" + item); IsWeb(s) && TransportOf(s) == TransportOf(root) && Origin(s) == Origin(root)
  {
    hide Origin, IsHttps, IsHttp;
    SchemeStays(root, root + ("/" + item));
    OriginStays(root, item);
  }

  lemma {:induction false} UntilJoined(a: string, b: string, c: char)
    ensures Until(a + ([c] + b), c) == Until(a, c)
  {
    if a == "" {
      assert a + ([c] + b) == [c] + b;
    } else {
      assert (a + ([c] + b))[1..] == a[1..] + ([c] + b);
      UntilJoined(a[1..], b, c);
    }
  }

  /** Transport, and for http the origin, is inherited along a link. */
  lemma LinkKeepsTransport(root: string, item: string, full: string -> Option<string>)
    requires Target(root, item, full).Some? && FilePaths(full)
    ensures TransportOf(Target(root, item, full).value) == TransportOf(root)
    ensures IsHttp(root) ==> IsWeb(Target(root, item, full).value) && Origin(Target(root, item, full).value) == Origin(root)
  {
    hide Normalized, SafeItem, Origin, FilePaths;
    var s := SourceOf(root, item).value;
    SchemesDiffer(root);
    SchemesDiffer(item);
    if IsWeb(root) {
      if !IsWeb(item) { RelativeKeeps(root, item); }
      NormalizedKeeps(s, full);
    } else {
      FileStays(root, item);
      FullIsFile(s, full);
    }
  }

  lemma {:induction false} PlainEnds(item: string)
    requires PlainSegments(item)
    ensures item != "" && !Separator(item[|item| - 1])
    decreases |item|
  {
    var n := Segment(item);
    if n < |item| {
      PlainEnds(item[n + 1..]);
    } else {
      InSegment(item, n - 1);
    }
  }

  lemma {:induction false} InSegment(s: string, k: nat)
    requires k < Segment(s)
    ensures !Separator(s[k])
  {
    if k > 0 { InSegment(s[1..], k - 1); }
  }

  /** A relative link leads below its root, to the path it names: no segment of it
      leads up again. */
  lemma RelativeStaysBelow(root: string, item: string, full: string -> Option<string>)
    requires IsWeb(root) && !IsWeb(item) && Target(root, item, full).Some?
    ensures Target(root, item, full) == Some(root + ("/" + item)) && PlainSegments(item)
  {
    hide PlainSegments, LocatorValid, IsHttp, IsHttps, Origin;
    var s := root + ("/" + item);
    PlainEnds(item);
    RelativeKeeps(root, item);
    assert s[|s| - 1] == item[|item| - 1];
  }

  lemma FullIsFile(s: string, full: string -> Option<string>)
    requires !IsWeb(s) && Normalized(s, full).Some? && FilePaths(full)
    ensures !IsWeb(Normalized(s, full).value)
  {}

  lemma BackslashIsFile(s: string, k: nat)
    requires k < |s| && k < 8 && s[k] == '\\'
    ensures !IsHttps(s) && (k < 7 ==> !IsHttp(s))
  {
    if |s| >= 8 { assert Fold(s[..8])[k] == Lower(s[k]) == '\\'; }
    if |s| >= 7 && k < 7 { assert Fold(s[..7])[k] == Lower(s[k]) == '\\'; }
    assert '\\' !in "https://" && '\\' !in "http://";
  }

  lemma FileStays(root: string, item: string)
    requires !IsWeb(root) && root != ""
    ensures !IsWeb(root + ((if root[|root| - 1] == '\\' then "" else "\\") + item))
  {
    var s := root + ((if root[|root| - 1] == '\\' then "" else "\\") + item);
    var k := if root[|root| - 1] == '\\' then |root| - 1 else |root|;
    assert s[k] == '\\' && |s| > k;
    if |root| >= 8 { assert s[..8] == root[..8]; }
    if |root| >= 7 { assert s[..7] == root[..7]; }
    if k < 8 { BackslashIsFile(s, k); }
  }

  // ----- the growing list -----

  /** `child` is the root a link of `parent` leads to. */
  predicate ChildOf(parent: Root, child: Root, links: seq<string>, full: string -> Option<string>) {
    && child.priority == parent.priority && child.insecure == parent.insecure
    && exists i :: 0 <= i < |links| && Target(parent.url, links[i], full) == Some(child.url)
  }

  function LinksOf(index: nat -> Option<Index>, k: nat): seq<string> {
    if index(k).Some? then index(k).value.links else []
  }

  /** Root `j` was appended for a link of an earlier root. */
  predicate Linked(roots: seq<Root>, j: nat, index: nat -> Option<Index>, full: string -> Option<string>)
    requires j < |roots|
  {
    exists p :: 0 <= p < j && ChildOf(roots[p], roots[j], LinksOf(index, p), full)
  }

  predicate Fresh(roots: seq<Root>, j: nat)
    requires j < |roots|
  {
    forall i :: 0 <= i < j ==> Fold(roots[i].url) != Fold(roots[j].url)
  }

  /** At most 32 roots, each at its place; those from `start` on are appended,
      linked from earlier ones and new up to case. */
  predicate Shaped(roots: seq<Root>, start: nat, index: nat -> Option<Index>, full: string -> Option<string>) {
    && start <= |roots| <= MAX_REPOSITORIES
    && (forall i :: 0 <= i < |roots| ==> roots[i].order == i)
    && (forall j :: start <= j < |roots| ==> Linked(roots, j, index, full) && Fresh(roots, j))
  }

  predicate Known(roots: seq<Root>, url: string) {
    exists m :: 0 <= m < |roots| && Fold(roots[m].url) == Fold(url)
  }

  /** A link has been followed: it is inadmissible, or its root is in the list,
      or the list is full. */
  predicate Followed(roots: seq<Root>, parent: string, link: string, full: string -> Option<string>) {
    var t := Target(parent, link, full);
    t.None? || Known(roots, t.value) || |roots| == MAX_REPOSITORIES
  }

  predicate AllFollowed(roots: seq<Root>, n: nat, index: nat -> Option<Index>, full: string -> Option<string>)
    requires n <= |roots|
  {
    forall k, i :: 0 <= k < n && 0 <= i < |LinksOf(index, k)| ==> Followed(roots, roots[k].url, LinksOf(index, k)[i], full)
  }

  function Stamped(packages: seq<Entry>, root: Root): (r: seq<Entry>)
    ensures |r| == |packages|
    ensures forall i :: 0 <= i < |r| ==> r[i] == packages[i].(priority := root.priority, order := root.order)
  {
    seq(|packages|, i requires 0 <= i < |packages| => packages[i].(priority := root.priority, order := root.order))
  }

  /** The packages of the first `n` roots, stamped with the root that lists them. */
  function Collected(roots: seq<Root>, n: nat, index: nat -> Option<Index>): seq<Entry>
    requires n <= |roots|
  {
    if n == 0 then []
    else Collected(roots, n - 1, index) + if index(n - 1).Some? then Stamped(index(n - 1).value.packages, roots[n - 1]) else []
  }

  function First(s: seq<Entry>, n: nat): seq<Entry> {
    if |s| <= n then s else s[..n]
  }

  lemma {:induction false} CollectedStays(a: seq<Root>, b: seq<Root>, n: nat, index: nat -> Option<Index>)
    requires n <= |a| && a <= b
    ensures Collected(a, n, index) == Collected(b, n, index)
  {
    if n > 0 { CollectedStays(a, b, n - 1, index); }
  }

  /** Following a link keeps the shape and forgets nothing. */
  lemma AppendKeeps(roots: seq<Root>, start: nat, index: nat -> Option<Index>, full: string -> Option<string>, p: nat, i: nat, url: string)
    requires Shaped(roots, start, index, full) && p < |roots| < MAX_REPOSITORIES
    requires i < |LinksOf(index, p)| && Target(roots[p].url, LinksOf(index, p)[i], full) == Some(url) && !Known(roots, url)
    ensures Shaped(roots + [roots[p].(url := url, order := |roots|)], start, index, full)
  {
    hide Target, Fold;
    var now := roots + [roots[p].(url := url, order := |roots|)];
    forall j | start <= j < |now| ensures Linked(now, j, index, full) && Fresh(now, j) {
      if j < |roots| {
        assert Linked(roots, j, index, full) && Fresh(roots, j);
        var q :| 0 <= q < j && ChildOf(roots[q], roots[j], LinksOf(index, q), full);
        assert ChildOf(now[q], now[j], LinksOf(index, q), full);
      } else {
        assert ChildOf(now[p], now[j], LinksOf(index, p), full);
      }
    }
  }

  lemma FollowedStays(a: seq<Root>, b: seq<Root>, parent: string, link: string, full: string -> Option<string>)
    requires a <= b && |b| <= MAX_REPOSITORIES && Followed(a, parent, link, full)
    ensures Followed(b, parent, link, full)
  {
    hide Target, Fold;
    var t := Target(parent, link, full);
    if t.Some? && Known(a, t.value) {
      var m :| 0 <= m < |a| && Fold(a[m].url) == Fold(t.value);
      assert b[m] == a[m];
    }
  }

  lemma AllFollowedStays(a: seq<Root>, b: seq<Root>, n: nat, index: nat -> Option<Index>, full: string -> Option<string>)
    requires n <= |a| && a <= b && |b| <= MAX_REPOSITORIES && AllFollowed(a, n, index, full)
    ensures AllFollowed(b, n, index, full)
  {
    hide Followed;
    forall k, i | 0 <= k < n && 0 <= i < |LinksOf(index, k)| ensures Followed(b, b[k].url, LinksOf(index, k)[i], full) {
      FollowedStays(a, b, a[k].url, LinksOf(index, k)[i], full);
    }
  }

  class Resolver {
    var roots: seq<Root>
    var entries: seq<Entry>

    constructor (configured: seq<Root>)
      ensures roots == configured && entries == []
    {
      roots, entries := configured, [];
    }

    /** `append_repository_link_mode` */
    method AppendLink(parent: nat, link: string, full: string -> Option<string>) returns (ok: bool)
      requires parent < |roots| <= MAX_REPOSITORIES
      modifies this`roots
      ensures var t := Target(old(roots)[parent].url, link, full);
              && ok == (t.Some? && (Known(old(roots), t.value) || |old(roots)| < MAX_REPOSITORIES))
              && roots == if ok && !Known(old(roots), t.value)
                          then old(roots) + [old(roots)[parent].(url := t.value, order := |old(roots)|)] else old(roots)
    {
      hide Target, Fold;
      var target := Target(roots[parent].url, link, full);
      if target.None? { return false; }
      for i := 0 to |roots|
        invariant forall k :: 0 <= k < i ==> Fold(roots[k].url) != Fold(target.value)
      {
        if Fold(roots[i].url) == Fold(target.value) { return true; }
      }
      if |roots| >= MAX_REPOSITORIES { return false; }
      roots := roots + [roots[parent].(url := target.value, order := |roots|)];
      ok := true;
    }

    /** The packages of one index, up to the capacity. */
    method AddPackages(packages: seq<Entry>, root: Root)
      requires |entries| <= MAX_PACKAGES
      modifies this`entries
      ensures entries == First(old(entries) + Stamped(packages, root), MAX_PACKAGES)
    {
      ghost var before := entries;
      var all := Stamped(packages, root);
      assert before + all[..0] == before;
      for i := 0 to |packages|
        invariant entries == First(before + all[..i], MAX_PACKAGES)
      {
        assert before + all[..i + 1] == (before + all[..i]) + [all[i]];
        if |entries| < MAX_PACKAGES {
          entries := entries + [packages[i].(priority := root.priority, order := root.order)];
        }
      }
      assert all[..|packages|] == all;
    }

    /** The links of one index. */
    method FollowLinks(n: nat, ghost start: nat, index: nat -> Option<Index>, full: string -> Option<string>)
      requires n < |roots| && Shaped(roots, start, index, full) && AllFollowed(roots, n, index, full)
      modifies this`roots
      ensures old(roots) <= roots && Shaped(roots, start, index, full) && AllFollowed(roots, n + 1, index, full)
    {
      hide Target, Fold, Followed, Linked, Fresh;
      var links := LinksOf(index, n);
      for i := 0 to |links|
        invariant n < |roots| && old(roots) <= roots && Shaped(roots, start, index, full) && AllFollowed(roots, n, index, full)
        invariant forall k :: 0 <= k < i ==> Followed(roots, roots[n].url, links[k], full)
      {
        ghost var before := roots;
        ghost var t := Target(before[n].url, links[i], full);
        if t.Some? && |before| < MAX_REPOSITORIES && !Known(before, t.value) { AppendKeeps(before, start, index, full, n, i, t.value); }
        var ok := AppendLink(n, links[i], full);
        AllFollowedStays(before, roots, n, index, full);
        forall k | 0 <= k < i ensures Followed(roots, roots[n].url, links[k], full) { FollowedStays(before, roots, before[n].url, links[k], full); }
        AppendFollows(before, roots, n, links[i], full);
      }
    }

    /** `load_entries`: read every root's index, including those of the roots that
        are appended on the way. */
    method LoadEntries(index: nat -> Option<Index>, full: string -> Option<string>) returns (usable: bool)
      requires |roots| <= MAX_REPOSITORIES && forall i :: 0 <= i < |roots| ==> roots[i].order == i
      modifies this
      ensures old(roots) <= roots && Shaped(roots, |old(roots)|, index, full) && AllFollowed(roots, |roots|, index, full)
      ensures entries == First(Collected(roots, |roots|, index), MAX_PACKAGES)
      ensures usable <==> exists k: nat :: k < |roots| && index(k).Some?
    {
      hide Linked, Fresh, Followed, Fold;
      entries, usable := [], false;
      ghost var start := |roots|;
      var n := 0;
      while n < |roots|
        invariant 0 <= n <= |roots| && old(roots) <= roots && Shaped(roots, start, index, full) && AllFollowed(roots, n, index, full)
        invariant entries == First(Collected(roots, n, index), MAX_PACKAGES)
        invariant usable <==> exists k: nat :: k < n && index(k).Some?
        decreases MAX_REPOSITORIES - n
      {
        ghost var before := roots;
        if index(n).Some? {
          FirstOfFirst(Collected(roots, n, index), Stamped(index(n).value.packages, roots[n]), MAX_PACKAGES);
          AddPackages(index(n).value.packages, roots[n]);
          usable := true;
        } else {
          assert Collected(roots, n, index) + [] == Collected(roots, n, index);
        }
        FollowLinks(n, start, index, full);
        CollectedStays(before, roots, n + 1, index);
        n := n + 1;
      }
    }
  }

  lemma AppendFollows(before: seq<Root>, now: seq<Root>, n: nat, link: string, full: string -> Option<string>)
    requires n < |before| <= |now| <= MAX_REPOSITORIES && before <= now
    requires var t := Target(before[n].url, link, full);
             now == if t.Some? && !Known(before, t.value) && |before| < MAX_REPOSITORIES
                    then before + [before[n].(url := t.value, order := |before|)] else before
    ensures Followed(now, now[n].url, link, full)
  {
    hide Target, Fold;
    var t := Target(before[n].url, link, full);
    if t.Some? && !Known(before, t.value) && |before| < MAX_REPOSITORIES {
      assert now[|before|].url == t.value;
    }
  }

  lemma FirstOfFirst(a: seq<Entry>, b: seq<Entry>, n: nat)
    ensures First(First(a, n) + b, n) == First(a + b, n) && |First(a, n)| <= n
  {}

  // ----- what the list is like in the end -----

  /** Every appended root has the transport of the root it is linked from, and
      over http its origin. */
  lemma TransportIsInherited(roots: seq<Root>, start: nat, index: nat -> Option<Index>, full: string -> Option<string>, j: nat) returns (p: nat)
    requires Shaped(roots, start, index, full) && FilePaths(full) && start <= j < |roots|
    ensures p < j && TransportOf(roots[j].url) == TransportOf(roots[p].url)
    ensures roots[j].insecure == roots[p].insecure && roots[j].priority == roots[p].priority
    ensures IsHttp(roots[p].url) ==> IsHttp(roots[j].url) && Origin(roots[j].url) == Origin(roots[p].url)
  {
    hide Target, FilePaths, TransportOf, Origin, IsHttp, IsHttps;
    assert Linked(roots, j, index, full);
    p :| 0 <= p < j && ChildOf(roots[p], roots[j], LinksOf(index, p), full);
    var links := LinksOf(index, p);
    var i :| 0 <= i < |links| && Target(roots[p].url, links[i], full) == Some(roots[j].url);
    LinkKeepsTransport(roots[p].url, links[i], full);
    HttpIsTransport(roots[p].url);
    HttpIsTransport(roots[j].url);
  }

  lemma HttpIsTransport(s: string)
    ensures IsHttp(s) <==> TransportOf(s) == Http
  {
    SchemesDiffer(s);
  }

  /** Whatever is reached has the transport, the priority and the opt-in of a
      configured root, and over http its origin. */
  lemma {:induction false} TransportIsConfigured(roots: seq<Root>, start: nat, index: nat -> Option<Index>, full: string -> Option<string>, j: nat) returns (c: nat)
    requires Shaped(roots, start, index, full) && FilePaths(full) && j < |roots|
    ensures c <= j && c < |roots| && (j < start || c < start)
    ensures TransportOf(roots[j].url) == TransportOf(roots[c].url)
    ensures roots[j].insecure == roots[c].insecure && roots[j].priority == roots[c].priority
    ensures IsHttp(roots[c].url) ==> IsHttp(roots[j].url) && Origin(roots[j].url) == Origin(roots[c].url)
    decreases j
  {
    hide Shaped, FilePaths, TransportOf, IsHttp, IsHttps, Origin;
    if j < start {
      c := j;
    } else {
      var p := TransportIsInherited(roots, start, index, full, j);
      c := TransportIsConfigured(roots, start, index, full, p);
    }
  }

  /** Below capacity the list is closed under the admissible links of every
      readable index. */
  lemma ListIsClosed(roots: seq<Root>, index: nat -> Option<Index>, full: string -> Option<string>, k: nat, i: nat)
    requires |roots| < MAX_REPOSITORIES && AllFollowed(roots, |roots|, index, full)
    requires k < |roots| && index(k).Some? && i < |index(k).value.links|
    requires Target(roots[k].url, index(k).value.links[i], full).Some?
    ensures Known(roots, Target(roots[k].url, index(k).value.links[i], full).value)
  {
    hide Target, Fold, Known;
    assert Followed(roots, roots[k].url, LinksOf(index, k)[i], full);
  }

  /** Every entry names the root that lists it. */
  lemma {:induction false} EntriesNameTheirRoot(roots: seq<Root>, n: nat, index: nat -> Option<Index>, e: Entry)
    requires n <= |roots| && (forall i :: 0 <= i < |roots| ==> roots[i].order == i) && e in Collected(roots, n, index)
    ensures 0 <= e.order < n && index(e.order).Some?
    ensures e in Stamped(index(e.order).value.packages, roots[e.order])
  {
    if n > 0 && e in Collected(roots, n - 1, index) {
      EntriesNameTheirRoot(roots, n - 1, index, e);
    }
  }

  /** A path is plain exactly when none of its segments is empty, "." or "..". */
  lemma {:induction false} PlainMeans(s: string)
    ensures PlainSegments(s) <==> forall i: nat, j: nat :: IsSegment(s, i, j) ==> s[i..j] != "" && s[i..j] != "." && s[i..j] != ".."
    decreases |s|
  {
    var n := Segment(s);
    FirstSegment(s);
    assert s[0..n] == s[..n];
    if n < |s| {
      var rest := s[n + 1..];
      PlainMeans(rest);
      if !PlainSegments(rest) {
        var i: nat, j: nat :| IsSegment(rest, i, j) && !(rest[i..j] != "" && rest[i..j] != "." && rest[i..j] != "..");
        SegmentOfRest(s, n + 1, i, j);
      }
    }
    if PlainSegments(s) {
      forall i: nat, j: nat | IsSegment(s, i, j) ensures s[i..j] != "" && s[i..j] != "." && s[i..j] != ".." {
        SegmentPlace(s, i, j);
        if i > 0 { SegmentInRest(s, n + 1, i, j); }
      }
    }
  }
}
