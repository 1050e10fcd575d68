/** Package indexes from the printing side: an index that lists the files of an
    archive is read as that list, and the archive is admitted.  */
module Indexes {
  import opened JsonGrammar
  import opened JsonFields
  import opened Decimal
  import opened Strings
  import opened Admission

  // ----- texts -----

  /** A cell that survives cutting and trimming. */
  predicate Clean(s: string) {
    && s != "" && !Blank(s[0]) && !Blank(s[|s| - 1])
    && forall i :: 0 <= i < |s| ==> s[i] != ',' && !Break(s[i])
  }

  /** A line end: CR and LF bytes, in any number. */
  predicate LineEnd(s: string) {
    s != "" && forall i :: 0 <= i < |s| ==> Break(s[i])
  }

  predicate CleanRow(row: Row) {
    Clean(row.path) && Clean(row.size) && Clean(row.hash) && RowFields(row.path, row.size, row.hash, "blake2b")
  }

  /** A row in the order of the header: filename, size, hash, algorithm. */
  function RowText(row: Row): string {
    row.path + ("," + (row.size + ("," + (row.hash + ("," + "blake2b")))))
  }

  function RowLines(rows: seq<Row>, end: string): string {
    if rows == [] then "" else RowText(rows[0]) + (end + RowLines(rows[1..], end))
  }

  function IndexText(rows: seq<Row>, end: string): string {
    HEADER + (end + RowLines(rows, end))
  }

  // ----- reading lines -----

  lemma TrimClean(s: string)
    requires s != "" && !Blank(s[0]) && !Blank(s[|s| - 1])
    ensures Trim(s) == s
  {}

  lemma {:induction false} UntilBreakOf(a: string, b: string)
    requires (forall i :: 0 <= i < |a| ==> !Break(a[i])) && (b == "" || Break(b[0]))
    ensures UntilBreak(a + b) == |a|
  {
    if a == "" {
      assert a + b == b;
    } else {
      assert (a + b)[1..] == a[1..] + b;
      UntilBreakOf(a[1..], b);
    }
  }

  lemma {:induction false} SkipBreaksOf(end: string, rest: string)
    requires (forall i :: 0 <= i < |end| ==> Break(end[i])) && (rest == "" || !Break(rest[0]))
    ensures SkipBreaks(end + rest) == rest
  {
    if end == "" {
      assert end + rest == rest;
    } else {
      assert (end + rest)[1..] == end[1..] + rest;
      SkipBreaksOf(end[1..], rest);
    }
  }

  /** A line in front of a rest that does not begin with a line end. */
  lemma LineOf(line: string, end: string, rest: string)
    requires (forall i :: 0 <= i < |line| ==> !Break(line[i])) && LineEnd(end) && (rest == "" || !Break(rest[0]))
    ensures var s := line + (end + rest); var n := UntilBreak(s);
            s != "" && s[..n] == line && SkipBreaks(s[n..]) == rest
  {
    var s := line + (end + rest);
    UntilBreakOf(line, end + rest);
    SkipBreaksOf(end, rest);
    assert s[..|line|] == line && s[|line|..] == end + rest;
  }

  lemma CutOf(a: string, b: string)
    requires forall i :: 0 <= i < |a| ==> a[i] != ','
    ensures Cut(a + ("," + b)) == Some((a, b))
  {
    UntilAt(a, "," + b, ',');
    var s := a + ("," + b);
    assert s[..|a|] == a && s[|a| + 1..] == b;
  }

  lemma FoldKeeps(s: string)
    requires forall i :: 0 <= i < |s| ==> Lower(s[i]) == s[i]
    ensures Fold(s) == s
  {
    hide Lower;
    var f := Fold(s);
    assert f == s;
  }

  lemma AlgorithmFolds()
    ensures Fold("blake2b") == "blake2b" && Trim("blake2b") == "blake2b"
  {
    FoldKeeps("blake2b");
    TrimClean("blake2b");
  }

  /** A printed row is read as the row. */
  lemma RowSays(row: Row)
    requires CleanRow(row)
    ensures RowOf(RowText(row)) == Some(row)
  {
    hide Trim, Cut, SafePath, Fold;
    AlgorithmFolds();
    TrimClean(row.path);
    TrimClean(row.size);
    TrimClean(row.hash);
    var c := row.hash + ("," + "blake2b");
    var b := row.size + ("," + c);
    CutOf(row.path, b);
    CutOf(row.size, c);
    CutOf(row.hash, "blake2b");
  }

  /** A printed row is one line, and not the header. */
  lemma RowIsLine(row: Row)
    requires CleanRow(row)
    ensures var t := RowText(row);
            && t != "" && (forall i :: 0 <= i < |t| ==> !Break(t[i])) && Trim(t) == t && !Ignored(t)
  {
    hide SafePath, RowFields, Trim;
    var t, w := RowText(row), "blake2b";
    var k := |t| - 7;
    assert t[k..] == w;
    forall i | 0 <= i < |t| ensures !Break(t[i]) {
      if i >= k { assert t[i] == w[i - k]; }
    }
    assert t[0] == row.path[0] && t[|t| - 1] == w[6];
    TrimClean(t);
    NotHeader(t);
  }

  lemma NotHeader(t: string)
    requires t != "" && t[|t| - 1] == 'b'
    ensures Fold(t) != HEADER
  {
    assert Fold(t)[|t| - 1] == 'b';
    assert |HEADER| == 28 && HEADER[27] == 'm';
  }

  predicate HeaderByte(c: char) {
    'a' <= c <= 'z' || c == ','
  }

  lemma HeaderBytes()
    ensures |HEADER| == 28 && forall i :: 0 <= i < 28 ==> HeaderByte(HEADER[i])
  {}

  lemma HeaderByteFacts(c: char)
    requires HeaderByte(c)
    ensures !Break(c) && !Blank(c) && Lower(c) == c
  {}

  lemma WordsAreLine(h: string)
    requires h != "" && forall i :: 0 <= i < |h| ==> HeaderByte(h[i])
    ensures (forall i :: 0 <= i < |h| ==> !Break(h[i])) && Trim(h) == h && Fold(h) == h
  {
    hide *;
    forall i | 0 <= i < |h| ensures !Break(h[i]) && !Blank(h[i]) && Lower(h[i]) == h[i] { HeaderByteFacts(h[i]); }
    FoldKeeps(h);
    TrimClean(h);
  }

  lemma HeaderIsLine()
    ensures (forall i :: 0 <= i < |HEADER| ==> !Break(HEADER[i])) && Trim(HEADER) == HEADER && Ignored(HEADER) && HEADER != ""
  {
    hide HeaderByte, Break, Trim, Fold;
    HeaderBytes();
    WordsAreLine(HEADER);
  }

  predicate CleanRows(rows: seq<Row>) {
    forall i :: 0 <= i < |rows| ==> CleanRow(rows[i])
  }

  lemma {:induction false} LinesSay(rows: seq<Row>, end: string)
    requires CleanRows(rows) && LineEnd(end)
    ensures var t := RowLines(rows, end); (t == "" || !Break(t[0])) && RowsOf(t) == Some(rows)
    decreases |rows|
  {
    hide CleanRow, RowText, RowOf, Trim, Ignored, UntilBreak, SkipBreaks, LineEnd, Break;
    if rows != [] {
      var line, rest := RowText(rows[0]), RowLines(rows[1..], end);
      LinesSay(rows[1..], end);
      RowIsLine(rows[0]);
      RowSays(rows[0]);
      LineOf(line, end, rest);
      assert rows == [rows[0]] + rows[1..];
    }
  }

  /** The rows of a printed index are the rows that were printed. */
  lemma IndexSays(rows: seq<Row>, end: string)
    requires CleanRows(rows) && LineEnd(end)
    ensures RowsOf(IndexText(rows, end)) == Some(rows)
  {
    hide CleanRows, RowLines, RowOf, Trim, Ignored, UntilBreak, SkipBreaks, LineEnd, Break, Fold;
    LinesSay(rows, end);
    HeaderIsLine();
    LineOf(HEADER, end, RowLines(rows, end));
  }

  // ----- archives that are admitted -----

  /** The row that describes a file. */
  function RowFor(e: ZipEntry, hash: string -> string): Row
    requires e.data.Some?
  {
    Row(e.name, DecimalText(e.size), hash(e.data.value))
  }

  predicate IsFile(e: ZipEntry) {
    !e.isDir && e.data.Some?
  }

  /** `at` names files, each once. */
  predicate Picks(entries: seq<ZipEntry>, at: seq<nat>) {
    && (forall i :: 0 <= i < |at| ==> at[i] < |entries| && IsFile(entries[at[i]]))
    && (forall i, j :: 0 <= i < j < |at| ==> at[i] != at[j])
  }

  function RowsFor(entries: seq<ZipEntry>, at: seq<nat>, hash: string -> string): (rows: seq<Row>)
    requires Picks(entries, at)
    ensures |rows| == |at| && forall i :: 0 <= i < |at| ==> rows[i] == RowFor(entries[at[i]], hash)
  {
    seq(|at|, i requires 0 <= i < |at| => RowFor(entries[at[i]], hash))
  }

  /** Every file but the two metadata files is picked. */
  predicate Complete(entries: seq<ZipEntry>, at: seq<nat>) {
    forall k: nat :: k < |entries| && !entries[k].isDir && !IsMetadata(entries[k].name) ==> k in at
  }

  /** Paths are safe, names distinct, and files readable. */
  predicate Sound(entries: seq<ZipEntry>) {
    && |entries| <= ENTRY_LIMIT && DistinctNames(Names(entries))
    && forall k :: 0 <= k < |entries| ==> SafePath(entries[k].name) && (entries[k].isDir || entries[k].data.Some?)
  }

  /** Names that fit a row, and digests that are 64 hexadecimal digits. */
  predicate Printable(entries: seq<ZipEntry>, hash: string -> string) {
    forall k :: 0 <= k < |entries| && IsFile(entries[k]) ==> Clean(entries[k].name) && IsDigest(hash(entries[k].data.value))
  }

  predicate IsDigest(d: string) {
    |d| == 64 && forall i :: 0 <= i < 64 ==> '0' <= d[i] <= '9' || 'a' <= d[i] <= 'f'
  }

  /** Lookup finds the entries that are there. */
  predicate Finds(locate: string -> Option<nat>, entries: seq<ZipEntry>) {
    forall k :: 0 <= k < |entries| ==> locate(entries[k].name).Some?
  }

  lemma SizeIsClean(n: nat)
    ensures Clean(DecimalText(n)) && IsDigit(DecimalText(n)[0]) && Digits(DecimalText(n)) && NatOf(DecimalText(n)) == n
  {
    DecimalValue(n);
    var s := DecimalText(n);
    hide DecimalText, NatOf;
    forall i | 0 <= i < |s| ensures IsDigit(s[i]) { assert s[i] in s; }
  }

  lemma RowIsClean(e: ZipEntry, hash: string -> string)
    requires IsFile(e) && SafePath(e.name) && Clean(e.name) && IsDigest(hash(e.data.value))
    ensures CleanRow(RowFor(e, hash)) && Matched(RowFor(e, hash), e, hash)
  {
    hide DecimalText, NatOf, SafePath, Fold;
    SizeIsClean(e.size);
    AlgorithmFolds();
    DigestIsClean(hash(e.data.value));
  }

  lemma DigestIsClean(d: string)
    requires IsDigest(d)
    ensures Clean(d)
  {}

  lemma RowsAreClean(entries: seq<ZipEntry>, at: seq<nat>, hash: string -> string)
    requires Sound(entries) && Picks(entries, at) && Printable(entries, hash)
    ensures CleanRows(RowsFor(entries, at, hash))
  {
    hide CleanRow, RowFor, SafePath, Clean, IsDigest, DistinctNames, Names;
    var rows := RowsFor(entries, at, hash);
    forall i | 0 <= i < |rows| ensures CleanRow(rows[i]) { RowIsClean(entries[at[i]], hash); }
  }

  lemma RowsAreVerified(entries: seq<ZipEntry>, at: seq<nat>, locate: string -> Option<nat>, hash: string -> string)
    requires Sound(entries) && Picks(entries, at) && Printable(entries, hash) && Locates(locate, entries) && Finds(locate, entries)
    ensures AllVerified(RowsFor(entries, at, hash), entries, locate, hash)
  {
    hide CleanRow, Matched, SafePath, Clean, IsDigest, DistinctNames, Names, Folded;
    var rows := RowsFor(entries, at, hash);
    forall i | 0 <= i < |rows| ensures Verified(rows[i], entries, locate, hash) {
      var k := at[i];
      var found := locate(entries[k].name).value;
      SameEntry(entries, found, k);
      RowIsClean(entries[k], hash);
    }
  }

  lemma PathsDiffer(entries: seq<ZipEntry>, at: seq<nat>, hash: string -> string)
    requires Sound(entries) && Picks(entries, at)
    ensures DistinctNames(Paths(RowsFor(entries, at, hash)))
  {
    hide SafePath, Fold, Slashed, Names, DistinctNames;
    var names := Paths(RowsFor(entries, at, hash));
    forall i, j | 0 <= i < j < |names| ensures Fold(names[i]) != Fold(names[j]) { NamesDiffer(entries, at[i], at[j]); }
    AreDistinct(names);
  }

  lemma AreDistinct(names: seq<string>)
    requires forall i, j :: 0 <= i < j < |names| ==> Fold(names[i]) != Fold(names[j])
    ensures DistinctNames(names)
  {}

  lemma NamesDiffer(entries: seq<ZipEntry>, i: nat, j: nat)
    requires DistinctNames(Names(entries)) && i < |entries| && j < |entries| && i != j
    ensures Fold(entries[i].name) != Fold(entries[j].name)
  {
    hide Fold, Folded, Names, DistinctNames;
    if Fold(entries[i].name) == Fold(entries[j].name) {
      FoldedAgrees(entries[i].name, entries[j].name);
      SameEntry(entries, i, j);
    }
  }

  lemma EntriesAreListed(entries: seq<ZipEntry>, at: seq<nat>, hash: string -> string)
    requires Sound(entries) && Picks(entries, at) && Complete(entries, at)
    ensures EntriesOk(entries, Some(RowsFor(entries, at, hash)))
  {
    hide SafePath, Fold, DistinctNames, Names, IsMetadata;
    var rows := RowsFor(entries, at, hash);
    forall k | 0 <= k < |entries| ensures EntryOk(entries[k], Some(rows)) {
      if !entries[k].isDir && !IsMetadata(entries[k].name) {
        var i :| 0 <= i < |at| && at[i] == k;
        assert rows[i].path == entries[k].name;
      }
    }
  }

  /** An archive whose signed index prints one row with its own name, size and hash
      for every file is admitted: the converse of `AcceptedIsIndexed`. */
  lemma IndexedIsAccepted(entries: seq<ZipEntry>, at: seq<nat>, end: string, signature: string, locate: string -> Option<nat>,
                          hash: string -> string, trusted: (Option<string>, Option<string>) -> bool)
    requires Sound(entries) && Printable(entries, hash) && Locates(locate, entries) && Finds(locate, entries)
    requires Picks(entries, at) && Complete(entries, at) && |at| <= ROW_LIMIT && LineEnd(end)
    requires trusted(Some(signature), Some(IndexText(RowsFor(entries, at, hash), end)))
    ensures Accepted(entries, Some(IndexText(RowsFor(entries, at, hash), end)), Some(signature), locate, hash, trusted)
  {
    hide *;
    var rows := RowsFor(entries, at, hash);
    RowsAreClean(entries, at, hash);
    IndexSays(rows, end);
    RowsAreVerified(entries, at, locate, hash);
    PathsDiffer(entries, at, hash);
    EntriesAreListed(entries, at, hash);
    SoundParts(entries);
    AcceptedFrom(entries, rows, IndexText(rows, end), signature, locate, hash, trusted);
  }

  lemma SoundParts(entries: seq<ZipEntry>)
    requires Sound(entries)
    ensures |entries| <= ENTRY_LIMIT && DistinctNames(Names(entries))
  {
    hide DistinctNames, Names, SafePath;
  }

  lemma AcceptedFrom(entries: seq<ZipEntry>, rows: seq<Row>, index: string, signature: string, locate: string -> Option<nat>,
                     hash: string -> string, trusted: (Option<string>, Option<string>) -> bool)
    requires trusted(Some(signature), Some(index)) && RowsOf(index) == Some(rows) && |rows| <= ROW_LIMIT
    requires AllVerified(rows, entries, locate, hash) && DistinctNames(Paths(rows))
    requires |entries| <= ENTRY_LIMIT && EntriesOk(entries, Some(rows)) && DistinctNames(Names(entries))
    ensures Accepted(entries, Some(index), Some(signature), locate, hash, trusted)
  {
    hide RowsOf, AllVerified, EntriesOk, DistinctNames, Names, Paths;
  }

  /** Without an index only the entries count. */
  lemma UnindexedIsAccepted(entries: seq<ZipEntry>, signature: Option<string>, locate: string -> Option<nat>,
                            hash: string -> string, trusted: (Option<string>, Option<string>) -> bool)
    requires trusted(signature, None)
    ensures Accepted(entries, None, signature, locate, hash, trusted) <==> Sound(entries)
  {
    hide DistinctNames, Names, SafePath;
    var ok := EntriesOk(entries, None);
    assert ok <==> forall k :: 0 <= k < |entries| ==> EntryOk(entries[k], None);
    if Sound(entries) { forall k | 0 <= k < |entries| ensures EntryOk(entries[k], None) {} }
    if ok { forall k | 0 <= k < |entries| ensures SafePath(entries[k].name) && (entries[k].isDir || entries[k].data.Some?) { assert EntryOk(entries[k], None); } }
  }
}
