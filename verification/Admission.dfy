/** Read-only admission of a package archive (`archive_validate_handle` of
    wpm/archive.c): the rows of the signed index against the zip entries.  */
module Admission {
  import opened JsonGrammar
  import opened JsonFields
  import opened Decimal
  import opened Strings
  import Sorting

  const ROW_LIMIT: nat := 4096
  const ENTRY_LIMIT: nat := 8192
  const INDEX_NAME: string := ".wpm/index.csv"
  const SIGNATURE_NAME: string := ".wpm/signature.json"
  const HEADER: string := "filename,size,hash,algorithm"

  /** A zip entry; `data` is its content when it can be read as a whole, which
      includes that it has the stated size. */
  datatype ZipEntry = ZipEntry(name: string, isDir: bool, size: nat, data: Option<string>)

  datatype Row = Row(path: string, size: string, hash: string)

  // ----- names -----

  function Slashed(s: string): (r: string)
    ensures |r| == |s|
  {
    if s == "" then "" else [if s[0] == '\\' then '/' else s[0]] + Slashed(s[1..])
  }

  /** A name after separator and case folding. */
  function Folded(name: string): string {
    Fold(Slashed(name))
  }

  /** Some segment of the path is "..". */
  predicate Climbs(path: string) {
    var n := Segment(path);
    path[..n] == ".." || (n < |path| && Climbs(path[n + 1..]))
  }

  predicate SafePath(path: string) {
    path != "" && !Separator(path[0]) && ':' !in path && !Climbs(path)
  }

  lemma SegmentHere(path: string, current: nat)
    requires current <= |path|
    ensures current == |path| || Separator(path[current]) ==> Segment(path[current..]) == 0
    ensures current < |path| && !Separator(path[current]) ==> Segment(path[current..]) == 1 + Segment(path[current + 1..])
  {
    if current < |path| { assert path[current..][1..] == path[current + 1..]; }
  }

  lemma SegmentEnds(path: string, segment: nat, current: nat)
    requires segment <= current <= |path| && Segment(path[segment..]) == current - segment
    ensures Climbs(path[segment..]) == (path[segment..current] == ".." || (current < |path| && Climbs(path[current + 1..])))
  {
    var s := path[segment..];
    assert s[..current - segment] == path[segment..current];
    if current < |path| { assert s[current - segment + 1..] == path[current + 1..]; }
  }

  /** `is_safe_archive_path` */
  method IsSafePath(path: string) returns (safe: bool)
    ensures safe == SafePath(path)
  {
    hide Climbs, Segment;
    if path == "" || Separator(path[0]) || ':' in path { return false; }
    var segment, current := 0, 0;
    assert path[0..] == path;
    while true
      invariant 0 <= segment <= current <= |path|
      invariant Climbs(path[segment..]) == Climbs(path)
      invariant Segment(path[segment..]) == current - segment + Segment(path[current..])
      decreases |path| - current
    {
      SegmentHere(path, current);
      if current == |path| || Separator(path[current]) {
        SegmentEnds(path, segment, current);
        if current - segment == 2 && path[segment] == '.' && path[segment + 1] == '.' { return false; }
        if current == |path| { break; }
        segment := current + 1;
      }
      current := current + 1;
    }
    safe := true;
  }

  // ----- index rows -----

  function Trim(s: string): string {
    TrimLeft(TrimRight(s))
  }

  predicate Break(c: char) {
    c == '\r' || c == '\n'
  }

  function UntilBreak(s: string): (n: nat)
    ensures n <= |s| && (n == 0 && s != "" ==> Break(s[0]))
  {
    if s == "" || Break(s[0]) then 0 else 1 + UntilBreak(s[1..])
  }

  function SkipBreaks(s: string): (t: string)
    ensures |t| <= |s| && (s != "" && Break(s[0]) ==> |t| < |s|)
  {
    if s != "" && Break(s[0]) then SkipBreaks(s[1..]) else s
  }

  predicate Ignored(line: string) {
    line == "" || Fold(line) == HEADER
  }

  /** The text before and behind the first comma. */
  function Cut(s: string): Option<(string, string)> {
    var n := Until(s, ',');
    if n == |s| then None else Some((s[..n], s[n + 1..]))
  }

  predicate RowFields(path: string, size: string, hash: string, algorithm: string) {
    SafePath(path) && size != "" && IsDigit(size[0]) && |hash| == 64 && Fold(algorithm) == "blake2b"
  }

  /** The row a trimmed line holds. */
  function RowOf(line: string): Option<Row> {
    var a := Cut(line);
    if a.None? then None
    else
      var b := Cut(a.value.1);
      if b.None? then None
      else
        var c := Cut(b.value.1);
        if c.None? then None
        else
          var path, size, hash, algorithm := Trim(a.value.0), Trim(b.value.0), Trim(c.value.0), Trim(c.value.1);
          if RowFields(path, size, hash, algorithm) then Some(Row(path, size, hash)) else None
  }

  method ReadRow(line: string) returns (r: Option<Row>)
    ensures r == RowOf(line)
  {
    hide Trim, Cut, Fold, SafePath;
    var a := Cut(line);
    if a.None? { return None; }
    var b := Cut(a.value.1);
    if b.None? { return None; }
    var c := Cut(b.value.1);
    if c.None? { return None; }
    var path, size, hash, algorithm := Trim(a.value.0), Trim(b.value.0), Trim(c.value.0), Trim(c.value.1);
    var safe := IsSafePath(path);
    if !safe || size == "" || !IsDigit(size[0]) || |hash| != 64 || Fold(algorithm) != "blake2b" { return None; }
    r := Some(Row(path, size, hash));
  }

  /** The rows of an index text; nothing when a line is malformed. */
  function RowsOf(s: string): Option<seq<Row>>
    decreases |s|
  {
    if s == "" then Some([])
    else
      var n := UntilBreak(s);
      var line := Trim(s[..n]);
      var rest := SkipBreaks(s[n..]);
      if Ignored(line) then RowsOf(rest)
      else
        match (RowOf(line), RowsOf(rest))
        case (Some(row), Some(rows)) => Some([row] + rows)
        case _ => None
  }

  /** The scanner's step to the next line. */
  method NextLine(text: string, p: nat) returns (line: string, next: nat)
    requires p < |text|
    ensures p < next <= |text|
    ensures var s := text[p..]; var n := UntilBreak(s); line == s[..n] && text[next..] == SkipBreaks(s[n..])
  {
    ghost var s := text[p..];
    next := p;
    while next < |text| && !Break(text[next])
      invariant p <= next <= |text| && UntilBreak(s) == next - p + UntilBreak(text[next..])
    {
      assert text[next..][1..] == text[next + 1..];
      next := next + 1;
    }
    line := text[p..next];
    ghost var n := UntilBreak(s);
    assert s[n..] == text[next..];
    while next < |text| && Break(text[next])
      invariant p + n <= next <= |text| && SkipBreaks(text[next..]) == SkipBreaks(s[n..])
      invariant n == 0 && next == p ==> Break(text[p])
    {
      assert text[next..][1..] == text[next + 1..];
      next := next + 1;
    }
  }

  // ----- rows against entries -----

  /** The entry has the row's size and hash. */
  predicate Matched(row: Row, e: ZipEntry, hash: string -> string) {
    Digits(row.size) && NatOf(row.size) == e.size && e.data.Some? && Fold(hash(e.data.value)) == Fold(row.hash)
  }

  /** Lookup by name finds an entry of that name, up to separators and case. */
  ghost predicate Locates(locate: string -> Option<nat>, entries: seq<ZipEntry>) {
    forall p :: locate(p).Some? ==> locate(p).value < |entries| && Folded(entries[locate(p).value].name) == Folded(p)
  }

  predicate Verified(row: Row, entries: seq<ZipEntry>, locate: string -> Option<nat>, hash: string -> string) {
    locate(row.path).Some? && locate(row.path).value < |entries| && Matched(row, entries[locate(row.path).value], hash)
  }

  predicate AllVerified(rows: seq<Row>, entries: seq<ZipEntry>, locate: string -> Option<nat>, hash: string -> string) {
    forall i :: 0 <= i < |rows| ==> Verified(rows[i], entries, locate, hash)
  }

  /** The rows of an index that all check out. */
  function CheckedRows(s: string, entries: seq<ZipEntry>, locate: string -> Option<nat>, hash: string -> string): Option<seq<Row>> {
    var rows := RowsOf(s);
    if rows.Some? && |rows.value| <= ROW_LIMIT && AllVerified(rows.value, entries, locate, hash) then rows else None
  }

  method VerifyRow(row: Row, entries: seq<ZipEntry>, locate: string -> Option<nat>, hash: string -> string) returns (ok: bool)
    ensures ok == Verified(row, entries, locate, hash)
  {
    var found := locate(row.path);
    if found.None? || found.value >= |entries| { return false; }
    ok := Matched(row, entries[found.value], hash);
  }

  /** The line loop over the index: every row is verified as it is read. */
  method ReadIndex(text: string, entries: seq<ZipEntry>, locate: string -> Option<nat>, hash: string -> string) returns (r: Option<seq<Row>>)
    ensures r == CheckedRows(text, entries, locate, hash)
  {
    hide RowOf, Verified, Trim, Ignored, UntilBreak, SkipBreaks;
    var rows: seq<Row> := [];
    var p := 0;
    assert text[0..] == text;
    RowsStart(text);
    while p < |text|
      invariant 0 <= p <= |text| && |rows| <= ROW_LIMIT && AllVerified(rows, entries, locate, hash)
      invariant RowsOf(text) == Prepend(rows, RowsOf(text[p..]))
    {
      var line;
      ghost var s := text[p..];
      line, p := NextLine(text, p);
      line := Trim(line);
      RowsStep(s, rows);
      if !Ignored(line) {
        var row := ReadRow(line);
        if row.None? { return None; }
        var ok := VerifyRow(row.value, entries, locate, hash);
        if !ok || |rows| >= ROW_LIMIT { Refuses(rows, row.value, RowsOf(text[p..]), entries, locate, hash, ok); return None; }
        rows := rows + [row.value];
      }
    }
    assert text[p..] == "";
    RowsEnd(rows);
    r := Some(rows);
  }

  /** Rows read so far in front of the rest. */
  function Prepend(rows: seq<Row>, more: Option<seq<Row>>): Option<seq<Row>> {
    if more.Some? then Some(rows + more.value) else None
  }

  lemma RowsStart(text: string)
    ensures RowsOf(text) == Prepend([], RowsOf(text))
  {
    if RowsOf(text).Some? { assert [] + RowsOf(text).value == RowsOf(text).value; }
  }

  lemma RowsEnd(rows: seq<Row>)
    ensures Prepend(rows, RowsOf("")) == Some(rows)
  {
    assert rows + [] == rows;
  }

  lemma RowsStep(s: string, rows: seq<Row>)
    requires s != ""
    ensures var n := UntilBreak(s); var line, rest := Trim(s[..n]), SkipBreaks(s[n..]);
            Prepend(rows, RowsOf(s)) ==
            if Ignored(line) then Prepend(rows, RowsOf(rest))
            else if RowOf(line).None? then None
            else Prepend(rows + [RowOf(line).value], RowsOf(rest))
  {
    hide RowOf, Trim, Ignored;
    var n := UntilBreak(s);
    var line, rest := Trim(s[..n]), SkipBreaks(s[n..]);
    if !Ignored(line) && RowOf(line).Some? && RowsOf(rest).Some? {
      assert rows + ([RowOf(line).value] + RowsOf(rest).value) == (rows + [RowOf(line).value]) + RowsOf(rest).value;
    }
  }

  lemma Refuses(rows: seq<Row>, row: Row, more: Option<seq<Row>>, entries: seq<ZipEntry>, locate: string -> Option<nat>, hash: string -> string, ok: bool)
    requires ok == Verified(row, entries, locate, hash) && (!ok || |rows| >= ROW_LIMIT)
    ensures var all := Prepend(rows + [row], more);
            all.Some? ==> !(|all.value| <= ROW_LIMIT && AllVerified(all.value, entries, locate, hash))
  {
    hide Verified;
    var all := Prepend(rows + [row], more);
    if all.Some? { assert all.value[|rows|] == row; }
  }

  // ----- sorting and searching names -----

  lemma FoldedPreorder(d: set<string>)
    ensures Sorting.Preorder(d, (a, b) => CompareFolded(a, b))
  {
    hide Compare, Fold;
    forall x, y | x in d && y in d ensures CompareFolded(x, y) <= 0 <==> CompareFolded(y, x) >= 0 { CompareFlip(Fold(x), Fold(y)); }
    forall x, y, z | x in d && y in d && z in d && CompareFolded(x, y) <= 0 && CompareFolded(y, z) <= 0 ensures CompareFolded(x, z) <= 0 {
      CompareTransitive(Fold(x), Fold(y), Fold(z));
    }
  }

  predicate DistinctNames(names: seq<string>) {
    forall i, j :: 0 <= i < j < |names| ==> Fold(names[i]) != Fold(names[j])
  }

  lemma FoldedEqual(a: string, b: string)
    ensures CompareFolded(a, b) == 0 <==> Fold(a) == Fold(b)
  {
    hide Compare, Fold;
    CompareEqual(Fold(a), Fold(b));
  }

  /** In order, equal neighbours are the only way to have equal names. */
  lemma NeighboursTell(sorted: seq<string>, i: nat, j: nat)
    requires Sorting.Ordered(sorted, (a, b) => CompareFolded(a, b)) && i < j < |sorted|
    requires forall k :: 1 <= k < |sorted| ==> Fold(sorted[k - 1]) != Fold(sorted[k])
    ensures Fold(sorted[i]) != Fold(sorted[j])
  {
    hide Compare, Fold;
    var d := set x | x in sorted;
    FoldedPreorder(d);
    FoldedEqual(sorted[i], sorted[i + 1]);
    FoldedEqual(sorted[i], sorted[j]);
    assert CompareFolded(sorted[i], sorted[i + 1]) < 0;
    if i + 1 < j { Sorting.Chain(d, (a, b) => CompareFolded(a, b), sorted[i], sorted[i + 1], sorted[j]); }
  }

  /** Sort, and compare neighbours. */
  method SortDistinct(names: seq<string>) returns (sorted: seq<string>, distinct: bool)
    ensures multiset(sorted) == multiset(names) && Sorting.Ordered(sorted, (a, b) => CompareFolded(a, b))
    ensures distinct == DistinctNames(names)
  {
    hide Compare, Fold, Sorting.Ordered, Sorting.Preorder;
    FoldedPreorder(set x | x in names);
    sorted := Sorting.Sort(names, set x | x in names, (a, b) => CompareFolded(a, b));
    DistinctShared(names, sorted);
    DistinctShared(sorted, names);
    var i := 1;
    while i < |sorted|
      invariant 1 <= i
      invariant forall k :: 1 <= k < i && k < |sorted| ==> Fold(sorted[k - 1]) != Fold(sorted[k])
    {
      FoldedEqual(sorted[i - 1], sorted[i]);
      if CompareFolded(sorted[i - 1], sorted[i]) == 0 { return sorted, false; }
      i := i + 1;
    }
    forall i, j | 0 <= i < j < |sorted| ensures Fold(sorted[i]) != Fold(sorted[j]) { NeighboursTell(sorted, i, j); }
    distinct := true;
  }

  lemma DistinctShared(a: seq<string>, b: seq<string>)
    requires multiset(a) == multiset(b)
    ensures DistinctNames(a) ==> DistinctNames(b)
  {
    hide Fold;
    if DistinctNames(a) {
      forall i, j | 0 <= i < j < |b| ensures Fold(b[i]) != Fold(b[j]) {
        if Fold(b[i]) == Fold(b[j]) { PairShared(a, b, i, j); }
      }
    }
  }

  lemma PairShared(a: seq<string>, b: seq<string>, i: nat, j: nat)
    requires multiset(a) == multiset(b) && i < j < |b| && Fold(b[i]) == Fold(b[j])
    ensures !DistinctNames(a)
  {
    hide Fold;
    Sorting.SameElements(a, b);
    assert b[i] in b && b[j] in b;
    var k :| 0 <= k < |a| && a[k] == b[i];
    if b[i] == b[j] {
      Sorting.OccursTwice(b, i, j);
      var m := Sorting.TwiceOccurs(a, k, b[i]);
      assert a[m] == a[k];
    } else {
      var m :| 0 <= m < |a| && a[m] == b[j];
    }
  }

  /** `index_contains_path` */
  method Contains(sorted: seq<string>, name: string) returns (found: bool)
    requires Sorting.Ordered(sorted, (a, b) => CompareFolded(a, b))
    ensures found <==> exists i :: 0 <= i < |sorted| && Fold(sorted[i]) == Fold(name)
  {
    hide Compare, Fold, Sorting.Ordered, Sorting.Preorder;
    if |sorted| == 0 { return false; }
    ghost var d := (set x | x in sorted) + {name};
    FoldedPreorder(d);
    var r := Sorting.BinarySearch(sorted, name, d, (a, b) => CompareFolded(a, b));
    forall i | 0 <= i < |sorted| ensures CompareFolded(name, sorted[i]) == 0 <==> Fold(sorted[i]) == Fold(name) { FoldedEqual(name, sorted[i]); }
    found := r >= 0;
  }

  // ----- the archive -----

  function Paths(rows: seq<Row>): (names: seq<string>)
    ensures |names| == |rows| && forall i :: 0 <= i < |rows| ==> names[i] == rows[i].path
  {
    seq(|rows|, i requires 0 <= i < |rows| => rows[i].path)
  }

  function Names(entries: seq<ZipEntry>): (names: seq<string>)
    ensures |names| == |entries| && forall i :: 0 <= i < |entries| ==> names[i] == Slashed(entries[i].name)
  {
    seq(|entries|, i requires 0 <= i < |entries| => Slashed(entries[i].name))
  }

  /** The two files an index cannot list. */
  predicate IsMetadata(name: string) {
    Fold(name) == INDEX_NAME || Fold(name) == SIGNATURE_NAME
  }

  predicate Listed(name: string, rows: seq<Row>) {
    exists i :: 0 <= i < |rows| && Fold(rows[i].path) == Fold(name)
  }

  /** What one entry must be; `rows` are given for a signed and indexed archive. */
  predicate EntryOk(e: ZipEntry, rows: Option<seq<Row>>) {
    SafePath(e.name) && (e.isDir || (e.data.Some? && (rows.Some? && !IsMetadata(e.name) ==> Listed(e.name, rows.value))))
  }

  predicate EntriesOk(entries: seq<ZipEntry>, rows: Option<seq<Row>>) {
    forall i :: 0 <= i < |entries| ==> EntryOk(entries[i], rows)
  }

  /** The archives `archive_validate_handle` accepts. */
  predicate Accepted(entries: seq<ZipEntry>, index: Option<string>, signature: Option<string>, locate: string -> Option<nat>,
                     hash: string -> string, trusted: (Option<string>, Option<string>) -> bool) {
    var rows := if index.Some? then CheckedRows(index.value, entries, locate, hash) else None;
    && trusted(signature, index)
    && (index.Some? ==> rows.Some? && DistinctNames(Paths(rows.value)))
    && |entries| <= ENTRY_LIMIT && EntriesOk(entries, if signature.Some? then rows else None)
    && DistinctNames(Names(entries))
  }

  /** The loop over the entries. */
  method CheckEntries(entries: seq<ZipEntry>, paths: seq<string>, required: bool, ghost rows: Option<seq<Row>>) returns (ok: bool)
    requires Sorting.Ordered(paths, (a, b) => CompareFolded(a, b))
    requires required == rows.Some? && (required ==> multiset(paths) == multiset(Paths(rows.value)))
    ensures ok == (|entries| <= ENTRY_LIMIT && EntriesOk(entries, rows) && DistinctNames(Names(entries)))
  {
    hide SafePath, Sorting.Ordered, Fold, Listed, Slashed, DistinctNames, Compare;
    var files: seq<string> := [];
    var n := 0;
    while n < |entries|
      invariant 0 <= n <= |entries| && n <= ENTRY_LIMIT && EntriesOk(entries[..n], rows) && files == Names(entries[..n])
    {
      var e := entries[n];
      var safe := IsSafePath(e.name);
      if !safe || |files| >= ENTRY_LIMIT { return false; }
      NextName(entries, n);
      files := files + [Slashed(e.name)];
      if !e.isDir {
        if required && !IsMetadata(e.name) {
          var found := Contains(paths, e.name);
          ListedShared(paths, rows.value, e.name);
          if !found { return false; }
        }
        if e.data.None? { return false; }
      }
      assert entries[..n + 1] == entries[..n] + [e];
      n := n + 1;
    }
    assert entries[..n] == entries;
    var sorted;
    sorted, ok := SortDistinct(files);
  }

  lemma NextName(entries: seq<ZipEntry>, n: nat)
    requires n < |entries|
    ensures Names(entries[..n + 1]) == Names(entries[..n]) + [Slashed(entries[n].name)]
  {
    hide Slashed;
  }

  lemma ListedShared(paths: seq<string>, rows: seq<Row>, name: string)
    requires multiset(paths) == multiset(Paths(rows))
    ensures (exists i :: 0 <= i < |paths| && Fold(paths[i]) == Fold(name)) <==> Listed(name, rows)
  {
    hide Fold;
    Sorting.SameElements(paths, Paths(rows));
    if i :| 0 <= i < |paths| && Fold(paths[i]) == Fold(name) {
      assert paths[i] in paths;
      var k :| 0 <= k < |rows| && Paths(rows)[k] == paths[i];
    }
    if Listed(name, rows) {
      var i :| 0 <= i < |rows| && Fold(rows[i].path) == Fold(name);
      assert Paths(rows)[i] in paths;
    }
  }

  /** `archive_validate_handle` */
  method ValidateArchive(entries: seq<ZipEntry>, index: Option<string>, signature: Option<string>, locate: string -> Option<nat>,
                         hash: string -> string, trusted: (Option<string>, Option<string>) -> bool) returns (ok: bool)
    ensures ok == Accepted(entries, index, signature, locate, hash, trusted)
  {
    hide CheckedRows, EntriesOk, DistinctNames, Paths, Names, CompareFolded;
    if !trusted(signature, index) { return false; }
    var paths: seq<string> := [];
    ghost var rows: Option<seq<Row>> := None;
    if index.Some? {
      var read := ReadIndex(index.value, entries, locate, hash);
      if read.None? { return false; }
      rows := read;
      paths, ok := SortDistinct(Paths(read.value));
      if !ok { return; }
    }
    ok := CheckEntries(entries, paths, signature.Some? && index.Some?, if signature.Some? then rows else None);
  }

  /** In an accepted signed and indexed archive every file other than the two
      metadata files has exactly one row up to case, and has that row's size and
      hash. */
  lemma AcceptedIsIndexed(entries: seq<ZipEntry>, index: string, signature: string, locate: string -> Option<nat>,
                          hash: string -> string, trusted: (Option<string>, Option<string>) -> bool, k: nat) returns (n: nat)
    requires Accepted(entries, Some(index), Some(signature), locate, hash, trusted) && Locates(locate, entries)
    requires k < |entries| && !entries[k].isDir && !IsMetadata(entries[k].name)
    ensures RowsOf(index).Some? && n < |RowsOf(index).value|
    ensures var rows := RowsOf(index).value;
            && Fold(rows[n].path) == Fold(entries[k].name) && Matched(rows[n], entries[k], hash)
            && forall m :: 0 <= m < |rows| && Fold(rows[m].path) == Fold(entries[k].name) ==> m == n
  {
    hide RowsOf, Matched, SafePath, Fold;
    var rows := RowsOf(index).value;
    assert EntryOk(entries[k], Some(rows));
    n :| 0 <= n < |rows| && Fold(rows[n].path) == Fold(entries[k].name);
    assert Verified(rows[n], entries, locate, hash);
    var found := locate(rows[n].path).value;
    FoldedAgrees(rows[n].path, entries[k].name);
    SameEntry(entries, found, k);
    forall m | 0 <= m < |rows| && Fold(rows[m].path) == Fold(entries[k].name) ensures m == n {
      assert Fold(Paths(rows)[m]) == Fold(Paths(rows)[n]);
    }
  }

  lemma {:induction false} FoldedAgrees(a: string, b: string)
    requires Fold(a) == Fold(b)
    ensures Folded(a) == Folded(b)
  {
    if a != "" {
      assert Fold(a)[0] == Lower(a[0]) && Fold(b)[0] == Lower(b[0]);
      assert Fold(a)[1..] == Fold(a[1..]) && Fold(b)[1..] == Fold(b[1..]);
      FoldedAgrees(a[1..], b[1..]);
      assert Slashed(a)[1..] == Slashed(a[1..]) && Slashed(b)[1..] == Slashed(b[1..]);
    }
  }

  lemma SameEntry(entries: seq<ZipEntry>, i: nat, j: nat)
    requires DistinctNames(Names(entries)) && i < |entries| && j < |entries| && Folded(entries[i].name) == Folded(entries[j].name)
    ensures i == j
  {
    hide Fold, Slashed;
    assert Fold(Names(entries)[i]) == Fold(Names(entries)[j]);
  }

  /** No two entries of an accepted archive coincide after separator and case
      folding, all paths are safe and all files can be read. */
  lemma AcceptedIsUnambiguous(entries: seq<ZipEntry>, index: Option<string>, signature: Option<string>, locate: string -> Option<nat>,
                              hash: string -> string, trusted: (Option<string>, Option<string>) -> bool, i: nat, j: nat)
    requires Accepted(entries, index, signature, locate, hash, trusted) && i < j < |entries|
    ensures Folded(entries[i].name) != Folded(entries[j].name) && SafePath(entries[i].name) && (entries[i].isDir || entries[i].data.Some?)
  {
    hide CheckedRows, SafePath, Fold, Slashed, Listed;
    if Folded(entries[i].name) == Folded(entries[j].name) { SameEntry(entries, i, j); }
    assert EntryOk(entries[i], if signature.Some? && index.Some? then CheckedRows(index.value, entries, locate, hash) else None);
  }

  /** A path climbs exactly when ".." is one of its segments. */
  lemma {:induction false} ClimbsMeans(path: string)
    ensures Climbs(path) <==> exists i: nat, j: nat :: IsSegment(path, i, j) && path[i..j] == ".."
    decreases |path|
  {
    var n := Segment(path);
    FirstSegment(path);
    assert path[0..n] == path[..n];
    if n < |path| {
      var rest := path[n + 1..];
      ClimbsMeans(rest);
      if Climbs(rest) {
        var i: nat, j: nat :| IsSegment(rest, i, j) && rest[i..j] == "..";
        SegmentOfRest(path, n + 1, i, j);
      }
    }
    forall i: nat, j: nat | IsSegment(path, i, j) && path[i..j] == ".." ensures Climbs(path) {
      SegmentPlace(path, i, j);
      if i > 0 { SegmentInRest(path, n + 1, i, j); }
    }
  }
}
