/** `wpm_repo_index`: the package array is rewritten from the sorted inventory of
    the archives found, whatever order they were found in.  */
module Rebuild {
  import opened JsonGrammar
  import opened JsonChecker
  import opened JsonFields
  import opened JsonVersion
  import opened JsonText
  import opened Packages
  import opened Semver
  import opened Catalog
  import opened Publish
  import Strings
  import Sorting

  // ----- author_index_order -----

  function IndexOrder(a: Entry, b: Entry): int {
    Strings.Then(Strings.CompareFolded(a.name, b.name),
         Strings.Then(Strings.CompareFolded(a.arch, b.arch),
              Strings.Then(-VersionOrder(a.version, b.version),
                   Strings.Then(Strings.Compare(a.version, b.version), Strings.Compare(a.url, b.url)))))
  }

  /** How three comparisons of a preorder go together. */
  predicate Chained(xy: int, yz: int, xz: int) {
    && (xy <= 0 && yz <= 0 ==> xz <= 0)
    && (xy == 0 && yz == 0 ==> xz == 0)
    && (xy <= 0 && yz <= 0 && (xy < 0 || yz < 0) ==> xz < 0)
  }

  lemma ThenChained(a: int, b: int, c: int, x: int, y: int, z: int)
    requires Chained(a, b, c) && Chained(x, y, z)
    ensures Chained(Strings.Then(a, x), Strings.Then(b, y), Strings.Then(c, z))
  {}

  lemma CompareChained(a: string, b: string, c: string)
    ensures Chained(Strings.Compare(a, b), Strings.Compare(b, c), Strings.Compare(a, c))
  {
    if Strings.Compare(a, b) <= 0 && Strings.Compare(b, c) <= 0 { Strings.CompareTransitive(a, b, c); }
    Strings.CompareEqual(a, b);
    Strings.CompareEqual(b, c);
    Strings.CompareEqual(a, c);
  }

  lemma VersionsChained(a: string, b: string, c: string)
    requires IsVersion(a) && IsVersion(b) && IsVersion(c)
    ensures Chained(-VersionOrder(a, b), -VersionOrder(b, c), -VersionOrder(a, c))
  {
    hide VersionOrder, IsVersion;
    VersionOrderIsPreorder(c, b, a);
    VersionOrderIsPreorder(a, b, c);
    VersionOrderIsPreorder(a, c, b);
  }

  lemma IndexOrderChained(a: Entry, b: Entry, c: Entry)
    requires IsVersion(a.version) && IsVersion(b.version) && IsVersion(c.version)
    ensures Chained(IndexOrder(a, b), IndexOrder(b, c), IndexOrder(a, c))
  {
    hide VersionOrder, IsVersion, Strings.Compare, Strings.Fold, Strings.Then, Chained;
    CompareChained(Strings.Fold(a.name), Strings.Fold(b.name), Strings.Fold(c.name));
    CompareChained(Strings.Fold(a.arch), Strings.Fold(b.arch), Strings.Fold(c.arch));
    VersionsChained(a.version, b.version, c.version);
    CompareChained(a.version, b.version, c.version);
    CompareChained(a.url, b.url, c.url);
    var v := (x: Entry, y: Entry) => Strings.Then(Strings.Compare(x.version, y.version), Strings.Compare(x.url, y.url));
    ThenChained(Strings.Compare(a.version, b.version), Strings.Compare(b.version, c.version), Strings.Compare(a.version, c.version),
                Strings.Compare(a.url, b.url), Strings.Compare(b.url, c.url), Strings.Compare(a.url, c.url));
    var w := (x: Entry, y: Entry) => Strings.Then(-VersionOrder(x.version, y.version), v(x, y));
    ThenChained(-VersionOrder(a.version, b.version), -VersionOrder(b.version, c.version), -VersionOrder(a.version, c.version),
                v(a, b), v(b, c), v(a, c));
    var u := (x: Entry, y: Entry) => Strings.Then(Strings.CompareFolded(x.arch, y.arch), w(x, y));
    ThenChained(Strings.CompareFolded(a.arch, b.arch), Strings.CompareFolded(b.arch, c.arch), Strings.CompareFolded(a.arch, c.arch),
                w(a, b), w(b, c), w(a, c));
    ThenChained(Strings.CompareFolded(a.name, b.name), Strings.CompareFolded(b.name, c.name), Strings.CompareFolded(a.name, c.name),
                u(a, b), u(b, c), u(a, c));
  }

  lemma IndexOrderFlip(a: Entry, b: Entry)
    requires IsVersion(a.version) && IsVersion(b.version)
    ensures IndexOrder(a, b) == -IndexOrder(b, a)
  {
    hide VersionOrder, IsVersion, Strings.Compare, Strings.Fold;
    Strings.CompareFlip(Strings.Fold(a.name), Strings.Fold(b.name));
    Strings.CompareFlip(Strings.Fold(a.arch), Strings.Fold(b.arch));
    VersionOrderIsPreorder(a.version, b.version, b.version);
    Strings.CompareFlip(a.version, b.version);
    Strings.CompareFlip(a.url, b.url);
  }

  /** The order tells two entries apart unless they have one identity. */
  lemma IndexOrderSeparates(a: Entry, b: Entry)
    requires IndexOrder(a, b) == 0
    ensures SameIdentity(a, b) && a.url == b.url
  {
    hide VersionOrder, Strings.Compare, Strings.Fold;
    Strings.CompareEqual(Strings.Fold(a.name), Strings.Fold(b.name));
    Strings.CompareEqual(Strings.Fold(a.arch), Strings.Fold(b.arch));
    Strings.CompareEqual(a.version, b.version);
    Strings.CompareEqual(a.url, b.url);
  }

  /** `author_index_order` */
  method AuthorIndexOrder(a: Entry, b: Entry) returns (result: int)
    ensures result == IndexOrder(a, b)
  {
    hide VersionOrder;
    result := Strings.CompareFolded(a.name, b.name);
    if result == 0 { result := Strings.CompareFolded(a.arch, b.arch); }
    if result == 0 {
      var c, valid := CompareVersions(a.version, b.version);
      result := -c;
    }
    if result == 0 { result := Strings.Compare(a.version, b.version); }
    if result == 0 { result := Strings.Compare(a.url, b.url); }
  }

  /** "packages/" and a file name, which is shorter than MAX_PATH. */
  const URL_LENGTH: nat := 9 + 259

  /** The archives found: valid packages, no two of one identity. */
  predicate Inventory(es: seq<Entry>) {
    |es| <= MAX_PACKAGES && DistinctEntries(es) && forall e :: e in es ==> Sound(e) && |e.url| <= URL_LENGTH
  }

  ghost predicate InOrder(es: seq<Entry>) {
    Sorting.Ordered(es, (a, b) => IndexOrder(a, b))
  }

  lemma IndexPreorder(d: set<Entry>)
    requires forall e :: e in d ==> Sound(e)
    ensures Sorting.Preorder(d, (a, b) => IndexOrder(a, b))
  {
    hide IndexOrder;
    forall x, y | x in d && y in d ensures IndexOrder(x, y) <= 0 <==> IndexOrder(y, x) >= 0 { IndexOrderFlip(x, y); }
    forall x, y, z | x in d && y in d && z in d && IndexOrder(x, y) <= 0 && IndexOrder(y, z) <= 0 ensures IndexOrder(x, z) <= 0 {
      IndexOrderChained(x, y, z);
    }
  }

  /** The sorted inventory does not depend on the order of enumeration. */
  lemma SortedIsUnique(a: seq<Entry>, b: seq<Entry>)
    requires Inventory(a) && multiset(a) == multiset(b) && InOrder(a) && InOrder(b)
    ensures a == b
  {
    hide IndexOrder, Sound, SameIdentity;
    var d := set x | x in a;
    var cmp := (a, b) => IndexOrder(a, b);
    IndexPreorder(d);
    forall i, j | 0 <= i < j < |a| ensures cmp(a[i], a[j]) != 0 {
      if cmp(a[i], a[j]) == 0 { IndexOrderSeparates(a[i], a[j]); }
    }
    Sorting.OrderedUnique(a, b, d, cmp);
  }

  // ----- the new text -----

  function Last(es: seq<Entry>): Entry
    requires es != []
  {
    es[|es| - 1]
  }

  function Init(es: seq<Entry>): seq<Entry>
    requires es != []
  {
    es[..|es| - 1]
  }

  /** The printed entries with commas between them. */
  function ListText(es: seq<Entry>): string {
    if es == [] then "" else ListText(Init(es)) + Insertion(|es| == 1, Last(es))
  }

  function ListItems(es: seq<Entry>): Items {
    if es == [] then End else Append(ListItems(Init(es)), EntryValue("", Last(es)))
  }

  lemma {:induction false} ListRead(es: seq<Entry>)
    requires forall e :: e in es ==> Sound(e)
    ensures WfItems(false, ListItems(es)) && EntriesOf(ListItems(es)) == Some(es)
  {
    hide Sound, EntryOf, EntryValue;
    if es != [] {
      ListRead(Init(es));
      EntryReadsBack("", Last(es));
      AppendRead(ListItems(Init(es)), EntryValue("", Last(es)), Last(es));
      assert Init(es) + [Last(es)] == es;
    }
  }

  lemma AppendIsItem(it: Items, v: Value)
    ensures Append(it, v).Item?
  {}

  lemma {:induction false} ListPrints(es: seq<Entry>, rest: string)
    ensures Elements(ListItems(es), rest) == ListText(es) + rest
    ensures ListItems(es).End? <==> es == []
  {
    hide EntryValue, EntryText, Print, Append;
    if es == [] {
      assert "" + rest == rest;
    } else {
      var e, t := Last(es), EntryText(Last(es)) + rest;
      var items := ListItems(Init(es));
      AppendPrints(items, EntryValue("", e), rest);
      AppendIsItem(items, EntryValue("", e));
      EntryPrints("", e, rest);
      assert "" + t == t;
      ListPrints(Init(es), if |es| == 1 then t else [','] + t);
      Assoc(",", EntryText(e), rest);
      Assoc(ListText(Init(es)), Insertion(|es| == 1, e), rest);
    }
  }

  /** The catalogue with its packages replaced. */
  function Replaced(d: Document, es: seq<Entry>): Document
    requires IsCatalog(d)
  {
    Relisted(d, "", ListItems(es))
  }

  function Closing(d: Document): string
    requires IsCatalog(d)
  {
    [']'] + AfterPackages(d)
  }

  lemma ReplacedFacts(d: Document, es: seq<Entry>)
    requires Accepted(d) && Inventory(es)
    ensures IsCatalog(Replaced(d, es)) && CatalogOf(Replaced(d, es)) == Some(es)
    ensures Closing(Replaced(d, es)) == Closing(d)
    ensures Replaced(d, es).Text() == Shell(d, ListText(es) + Closing(d))
    ensures forall hole :: Shell(Replaced(d, es), hole) == Shell(d, hole)
  {
    hide Sound, EntriesOf, Shell, AfterPackages, ListText, WithArray, Elements, DistinctEntries, DeclaresOne, ListItems, Around, WfItems;
    ListRead(es);
    ListPrints(es, Closing(d));
    RelistedFacts(d, "", ListItems(es));
    forall hole ensures Shell(Replaced(d, es), hole) == Shell(d, hole) {
      RelistedText(d, "", ListItems(es), hole);
    }
    RelistedText(d, "", ListItems(es), "");
    ReplacedText(d, es);
  }

  lemma ReplacedText(d: Document, es: seq<Entry>)
    requires IsCatalog(d) && IsCatalog(Replaced(d, es)) && Closing(Replaced(d, es)) == Closing(d)
    requires Array(Replaced(d, es)).gap == "" && Array(Replaced(d, es)).items == ListItems(es)
    requires forall hole :: Shell(Replaced(d, es), hole) == Shell(d, hole)
    ensures Replaced(d, es).Text() == Shell(d, ListText(es) + Closing(d))
  {
    hide Shell, AfterPackages, ListText, WithArray, Elements, ListItems, Around, Array, Replaced;
    var n := Replaced(d, es);
    FrameText(n);
    ListPrints(es, Closing(d));
    var t := Elements(ListItems(es), Closing(d));
    assert "" + t == t;
  }

  /** The text of a rebuilt catalogue. */
  function Rebuilt(text: string, es: seq<Entry>): string
    requires CatalogIn(text).Some?
  {
    Shell(TreeOf(text), ListText(es) + Closing(TreeOf(text)))
  }

  lemma {:induction false} ListHasNoNul(es: seq<Entry>)
    requires forall e :: e in es ==> Sound(e)
    ensures '\0' !in ListText(es)
  {
    hide Sound, EntryText;
    if es != [] {
      ListHasNoNul(Init(es));
      EntryHasNoNul(Last(es));
    }
  }

  /** Only the array changes: the text before and behind it is kept. */
  lemma RebuiltPieces(text: string, es: seq<Entry>, start: nat, end: nat)
    requires CatalogIn(text).Some? && start <= |text| && end <= |text|
    requires text[start..] == Interior(TreeOf(text)) && text[end..] == Closing(TreeOf(text))
    ensures Rebuilt(text, es) == text[..start] + ListText(es) + text[end..]
  {
    var d := TreeOf(text);
    hide *;
    ShellText(d);
    ShellPrefix(d, Interior(d));
    ShellPrefix(d, ListText(es) + Closing(d));
    SuffixOf(text, Shell(d, ""), Interior(d), start);
    Assoc(text[..start], ListText(es), text[end..]);
  }

  lemma ShellPrefix(d: Document, hole: string)
    requires IsCatalog(d)
    ensures Shell(d, hole) == Shell(d, "") + hole && |Shell(d, "")| >= 1
  {
    hide Around;
    ShellFollowed(d, "", hole);
    assert "" + hole == hole;
  }

  /** A rebuilt catalogue that fits reads back as the inventory. */
  lemma RebuiltReadsBack(text: string, es: seq<Entry>)
    requires CatalogIn(text).Some? && Inventory(es) && |Rebuilt(text, es)| <= LIMIT
    ensures CatalogIn(Rebuilt(text, es)) == Some(es)
    ensures TreeOf(Rebuilt(text, es)) == Replaced(TreeOf(text), es)
  {
    hide Shell, AfterPackages, ListText, Parse, Inventory, Relisted, ListItems, FindItem, Count, Around, TreeOf;
    var d := TreeOf(text);
    ReplacedFacts(d, es);
    var updated := Rebuilt(text, es);
    ParseIsPrintInverse(updated, Replaced(d, es));
    RebuiltHasNoNul(text, es);
  }

  lemma RebuiltHasNoNul(text: string, es: seq<Entry>)
    requires CatalogIn(text).Some? && Inventory(es)
    ensures '\0' !in Rebuilt(text, es) && |Rebuilt(text, es)| >= 2
  {
    hide Array, ListText, Parse, AfterPackages, Around, Sound, DistinctEntries, Shell, TreeOf, Interior;
    var d := TreeOf(text);
    ListHasNoNul(es);
    ShellText(d);
    ShellPrefix(d, Interior(d));
    ShellPrefix(d, ListText(es) + Closing(d));
    ClosingHasNoNul(text, d);
  }

  lemma ClosingHasNoNul(text: string, d: Document)
    requires IsCatalog(d) && text == d.Text() && '\0' !in text
    ensures '\0' !in Closing(d)
  {
    hide Frame, AfterPackages, Document.Text;
    FrameText(d);
    FrameFollowed(d, "", Closing(d));
    var k := Closing(d);
    assert "" + k == k;
    assert text == Frame(d, "") + k;
  }

  /** Rebuilding from its own output reproduces it byte for byte. */
  lemma RebuildIsIdempotent(text: string, es: seq<Entry>)
    requires CatalogIn(text).Some? && Inventory(es) && |Rebuilt(text, es)| <= LIMIT
    ensures CatalogIn(Rebuilt(text, es)).Some? && Rebuilt(Rebuilt(text, es), es) == Rebuilt(text, es)
  {
    hide Shell, AfterPackages, ListText, Parse, Inventory, Relisted, ListItems, FindItem, Count, Around, CatalogOf, Closing, Replaced;
    RebuiltReadsBack(text, es);
    ReplacedFacts(TreeOf(text), es);
  }

  /** One printed entry; its buffers always suffice. */
  method FormatListed(comma: bool, e: Entry) returns (entry: string)
    requires Sound(e) && |e.url| <= URL_LENGTH
    ensures entry == Insertion(!comma, e)
  {
    ListedRoom(e);
    hide Quote, AuthorFits, Sound;
    var name := AuthorString(e.name, 1024);
    var version := AuthorString(e.version, 512);
    var arch := AuthorString(e.arch, 256);
    var url := AuthorString(e.url, 2048);
    entry := "{\"name\":" + (name.value + (",\"version\":" + (version.value + (",\"arch\":" + (arch.value
             + (",\"url\":" + (url.value + "}")))))));
    if comma { entry := "," + entry; }
  }

  lemma ListedRoom(e: Entry)
    requires Sound(e) && |e.url| <= URL_LENGTH
    ensures AuthorFits(e.name, 1024) && AuthorFits(e.version, 512) && AuthorFits(e.arch, 256) && AuthorFits(e.url, 2048)
  {
    hide IsVersion, KnownArch;
    ShortFits(e.name, 1024);
    ShortFits(e.version, 512);
    ShortFits(e.arch, 256);
    ShortFits(e.url, 2048);
  }

  lemma ListNext(es: seq<Entry>, i: nat)
    requires i < |es|
    ensures ListText(es[..i + 1]) == ListText(es[..i]) + Insertion(i == 0, es[i])
  {
    hide Insertion;
    assert Init(es[..i + 1]) == es[..i];
  }

  lemma {:induction false} ListGrows(es: seq<Entry>, i: nat)
    requires i <= |es|
    ensures |ListText(es[..i])| <= |ListText(es)|
    decreases |es|
  {
    hide Insertion;
    if i < |es| {
      ListGrows(Init(es), i);
      assert Init(es)[..i] == es[..i];
    } else {
      assert es[..i] == es;
    }
  }

  /** The writing loop: the text, unless it would exceed the limit. */
  method WriteList(prefix: string, es: seq<Entry>, suffix: string) returns (r: Option<string>)
    requires forall e :: e in es ==> Sound(e) && |e.url| <= URL_LENGTH
    ensures var t := prefix + ListText(es) + suffix; r == if |t| <= LIMIT then Some(t) else None
  {
    hide Sound, Insertion, ListText;
    var capacity := LIMIT + 1;
    if |prefix| + |suffix| >= capacity { return None; }
    var updated := prefix;
    assert es[..0] == [] && ListText([]) == "" by { ListEmpty(); }
    for i := 0 to |es|
      invariant updated == prefix + ListText(es[..i]) && |updated| < capacity
    {
      var entry := FormatListed(i > 0, es[i]);
      ListNext(es, i);
      ListGrows(es, i + 1);
      Assoc(prefix, ListText(es[..i]), entry);
      if |entry| >= capacity - |updated| { return None; }
      updated := updated + entry;
    }
    assert es[..|es|] == es;
    if |updated| + |suffix| >= capacity { return None; }
    r := Some(updated + suffix);
  }

  lemma ListEmpty()
    ensures ListText([]) == ""
  {}

  /** The offset behind the opening bracket of the package array. */
  method ArrayStart(text: string) returns (start: nat)
    requires CatalogIn(text).Some?
    ensures start <= |text| && text[start..] == Interior(TreeOf(text))
  {
    hide Parse, ObjectAt, CatalogOf, FindItem, Bare, Tail, TreeOf;
    RootObject(text);
    ghost var d := TreeOf(text);
    ghost var it := FindItem(d.root.items, "packages", KEY_SIZE);
    ghost var t := Tail(true, it, d.trail);
    assert text[0..] == text;
    var p := Field(text, 0, "packages");
    ArrayText(it.val, t);
    AtIsHead(text, p.value);
    start := p.value + 1;
  }

  lemma SortedInventory(found: seq<Entry>, sorted: seq<Entry>)
    requires Inventory(found) && multiset(found) == multiset(sorted)
    ensures Inventory(sorted)
  {
    hide Sound, SameIdentity;
    Sorting.SameElements(found, sorted);
    DistinctPermuted(found, sorted);
  }

  lemma SameIdentityFlip(a: Entry, b: Entry)
    ensures SameIdentity(a, b) == SameIdentity(b, a) && SameIdentity(a, a)
  {}

  /** Distinctness does not depend on the order. */
  lemma DistinctPermuted(a: seq<Entry>, b: seq<Entry>)
    requires multiset(a) == multiset(b) && DistinctEntries(a)
    ensures DistinctEntries(b)
  {
    hide SameIdentity;
    forall i, j | 0 <= i < j < |b| ensures !SameIdentity(b[i], b[j]) {
      if SameIdentity(b[i], b[j]) { PairFound(a, b, i, j); }
    }
  }

  lemma PairFound(a: seq<Entry>, b: seq<Entry>, i: nat, j: nat)
    requires multiset(a) == multiset(b) && i < j < |b| && SameIdentity(b[i], b[j])
    ensures !DistinctEntries(a)
  {
    hide SameIdentity;
    Sorting.SameElements(a, b);
    assert b[i] in b && b[j] in b;
    var k :| 0 <= k < |a| && a[k] == b[i];
    if b[i] == b[j] {
      Sorting.OccursTwice(b, i, j);
      var m := Sorting.TwiceOccurs(a, k, b[i]);
      SameIdentityFlip(a[m], a[k]);
    } else {
      var m :| 0 <= m < |a| && a[m] == b[j];
      SameIdentityFlip(a[m], a[k]);
    }
  }

  /** The text part of `wpm_repo_index`. */
  method RebuildCatalog(text: string, found: seq<Entry>)
    returns (updated: Option<string>, current: bool, start: nat, end: nat, ghost sorted: seq<Entry>)
    requires Inventory(found)
    ensures multiset(sorted) == multiset(found) && InOrder(sorted)
    ensures updated.Some? == (CatalogIn(text).Some? && |Rebuilt(text, sorted)| <= LIMIT)
    ensures updated.Some? ==>
              && updated.value == Rebuilt(text, sorted) && CatalogIn(updated.value) == Some(sorted)
              && start <= |text| && end <= |text| && updated.value == text[..start] + ListText(sorted) + text[end..]
    ensures current == (updated == Some(text))
  {
    hide IndexOrder, CatalogIn, Parse, Shell, AfterPackages, ListText, Body, Array, DistinctEntries, Sorting.Ordered, Sorting.Preorder, Sound, Rebuilt, IsCatalog, Interior;
    updated, current, start := None, false, 0;
    IndexPreorder(set x | x in found);
    var entries := Sorting.Sort(found, set x | x in found, (a, b) => IndexOrder(a, b));
    sorted := entries;
    SortedInventory(found, sorted);
    var previous;
    previous, end := ReadCatalog(text);
    if previous.None? { return; }
    start := ArrayStart(text);
    RebuiltPieces(text, sorted, start, end);
    if |Rebuilt(text, sorted)| <= LIMIT { RebuiltReadsBack(text, sorted); }
    updated := WriteList(text[..start], entries, text[end..]);
    current := updated == Some(text);
  }

  /** The rebuilt text is the same for every order of enumeration. */
  lemma RebuildIgnoresEnumeration(text: string, found: seq<Entry>, again: seq<Entry>, a: seq<Entry>, b: seq<Entry>)
    requires CatalogIn(text).Some? && Inventory(found) && multiset(again) == multiset(found)
    requires multiset(a) == multiset(found) && InOrder(a) && multiset(b) == multiset(again) && InOrder(b)
    ensures Rebuilt(text, a) == Rebuilt(text, b)
  {
    SortedInventory(found, a);
    SortedIsUnique(a, b);
  }

  /** The rebuilt list goes up by name, then by architecture, and from the newest
      version down. */
  lemma NewestFirst(es: seq<Entry>, i: nat, j: nat)
    requires InOrder(es) && i < j < |es|
    ensures Strings.Compare(Strings.Fold(es[i].name), Strings.Fold(es[j].name)) <= 0
    ensures SameFolded(es[i].name, es[j].name) ==> Strings.Compare(Strings.Fold(es[i].arch), Strings.Fold(es[j].arch)) <= 0
    ensures SameFolded(es[i].name, es[j].name) && SameFolded(es[i].arch, es[j].arch) ==> VersionOrder(es[i].version, es[j].version) >= 0
  {
    hide VersionOrder, Strings.Compare, Strings.Fold;
    assert IndexOrder(es[i], es[j]) <= 0;
    Strings.CompareEqual(Strings.Fold(es[i].name), Strings.Fold(es[j].name));
    Strings.CompareEqual(Strings.Fold(es[i].arch), Strings.Fold(es[j].arch));
  }
}
