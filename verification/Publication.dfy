/** Publication of a package into a repository directory that may stop, or whose
    file operations may fail, at any point (`wpm_repo_add_package`).  */
module Publication {
  import opened JsonFields
  import opened Packages
  import opened Catalog
  import opened Publish
  import Strings

  /** The bytes of every file, by its path below the repository root. */
  type Files = map<string, string>

  const INDEX: string := "index.json"
  const CANDIDATE: string := ".index.json.new"

  function Separator(c: char): char {
    if c == '\\' then '/' else c
  }

  /** The file a relative item names: case and kind of separator do not matter. */
  function Place(item: string): string {
    Strings.Fold(seq(|item|, i requires 0 <= i < |item| => Separator(item[i])))
  }

  predicate SameBut(a: Files, b: Files, path: string) {
    && (forall p :: p in a && p != path ==> p in b && b[p] == a[p])
    && (forall p :: p in b && p != path ==> p in a)
  }

  /** The directory went from `f` to `g`, and every state on the way differs from
      `f` at one path only. */
  ghost predicate Grown(past: seq<Files>, f: Files, now: seq<Files>, g: Files, path: string) {
    && past <= now && SameBut(g, f, path)
    && forall k :: |past| <= k < |now| ==> SameBut(now[k], f, path)
  }

  /** A directory, and in `past` every content it has had: what a stop may leave. */
  class Disk {
    var files: Files
    ghost var past: seq<Files>

    constructor (content: Files)
      ensures files == content && past == []
    {
      files, past := content, [];
    }

    /** Create a new file, write it and flush it; a failure may leave a part. */
    method Create(path: string, bytes: string) returns (ok: bool)
      modifies this
      ensures Grown(old(past), old(files), past, files, path)
      ensures path in old(files) ==> !ok && files == old(files) && past == old(past)
      ensures ok ==> path in files && files[path] == bytes
    {
      ok := false;
      var started: bool := *;
      if path in files || !started { return; }
      files := files[path := ""];
      past := past + [files];
      var n: nat :| n <= |bytes|;
      files := files[path := bytes[..n]];
      past := past + [files];
      assert bytes[..|bytes|] == bytes;
      var flushed: bool := *;
      ok := n == |bytes| && flushed;
    }

    method Delete(path: string)
      modifies this
      ensures Grown(old(past), old(files), past, files, path)
    {
      var done: bool := *;
      if done {
        files := files - {path};
        past := past + [files];
      }
    }

    /** An atomic rename; `replace` lets it replace the target. */
    method Move(from: string, to: string, replace: bool) returns (ok: bool)
      requires from != to
      modifies this
      ensures !ok ==> files == old(files) && past == old(past)
      ensures ok ==> && from in old(files) && (to in old(files) ==> replace)
                     && files == old(files)[to := old(files)[from]] - {from} && past == old(past) + [files]
    {
      var done: bool := *;
      ok := done && from in files && (to in files ==> replace);
      if ok {
        files := files[to := files[from]] - {from};
        past := past + [files];
      }
    }
  }

  // ----- wpm_repo_add_package -----

  /** Every file of `before` is there with its bytes. */
  predicate Kept(before: Files, s: Files) {
    forall p :: p in before ==> p in s && s[p] == before[p]
  }

  /** The index is the old one with the new entry spliced in and lists it last,
      every other file is kept, and the new archive is in its place with the
      content its name tells. */
  ghost predicate Published(before: Files, s: Files, e: Entry, hash: string -> string) {
    && (forall p :: p in before && p != INDEX ==> p in s && s[p] == before[p])
    && INDEX in before && INDEX in s
    && CatalogIn(before[INDEX]).Some? && Spliced(before[INDEX], s[INDEX], e)
    && CatalogIn(s[INDEX]) == Some(CatalogIn(before[INDEX]).value + [e])
    && e.url in s && ItemOf(hash(s[e.url])) == e.url
  }

  /** Every state since `past` is the old repository, perhaps with candidates
      beside it, or the finished publication. */
  ghost predicate Safe(past: seq<Files>, now: seq<Files>, before: Files, e: Entry, hash: string -> string) {
    && past <= now
    && forall k :: |past| <= k < |now| ==> Kept(before, now[k]) || Published(before, now[k], e, hash)
  }

  /** Work on a path that held no file keeps the repository. */
  lemma BesideIsSafe(past: seq<Files>, f: Files, now: seq<Files>, g: Files, path: string,
                     start: seq<Files>, before: Files, e: Entry, hash: string -> string)
    requires Safe(start, past, before, e, hash) && Kept(before, f) && path !in before
    requires Grown(past, f, now, g, path)
    ensures Safe(start, now, before, e, hash) && Kept(before, g)
  {
    hide Published;
    forall k | |past| <= k < |now| ensures Kept(before, now[k]) {
      assert SameBut(now[k], f, path);
    }
  }

  lemma StepIsSafe(past: seq<Files>, s: Files, start: seq<Files>, before: Files, e: Entry, hash: string -> string)
    requires Safe(start, past, before, e, hash) && (Kept(before, s) || Published(before, s, e, hash))
    ensures Safe(start, past + [s], before, e, hash)
  {
    hide Kept, Published;
  }

  predicate AllValid(files: Files, entries: seq<Entry>, valid: (string, Entry) -> bool) {
    forall e :: e in entries ==> Place(e.url) in files && valid(files[Place(e.url)], e)
  }

  /** The archives the catalogue lists are there and valid. */
  method VerifyEntries(disk: Disk, entries: seq<Entry>, valid: (string, Entry) -> bool) returns (ok: bool)
    ensures ok <==> AllValid(disk.files, entries, valid)
  {
    for i := 0 to |entries|
      invariant forall k :: 0 <= k < i ==> Place(entries[k].url) in disk.files && valid(disk.files[Place(entries[k].url)], entries[k])
    {
      var p := Place(entries[i].url);
      if p !in disk.files { return false; }
      if !valid(disk.files[p], entries[i]) { return false; }
    }
    ok := true;
  }

  lemma RenameIsKept(before: Files, f: Files, from: string, to: string)
    requires Kept(before, f) && from in f && from !in before && to !in f && from != to
    ensures Kept(before, f[to := f[from]] - {from})
  {}

  /** Copy the archive to its place, unless it is there, and check its content. */
  method PublishArchive(disk: Disk, bytes: string, e: Entry, hash: string -> string,
                        ghost before: Files, ghost start: seq<Files>) returns (ok: bool)
    requires Safe(start, disk.past, before, e, hash) && Kept(before, disk.files) && e.url + ".new" !in before
    modifies disk
    ensures Safe(start, disk.past, before, e, hash) && Kept(before, disk.files)
    ensures ok ==> e.url in disk.files && ItemOf(hash(disk.files[e.url])) == e.url
  {
    hide ItemOf, Published, Kept, Safe, Grown;
    var item := e.url;
    var candidate := item + ".new";
    if item !in disk.files {
      ghost var past, files := disk.past, disk.files;
      ok := disk.Create(candidate, bytes);
      BesideIsSafe(past, files, disk.past, disk.files, candidate, start, before, e, hash);
      past, files := disk.past, disk.files;
      if ok { ok := disk.Move(candidate, item, false); }
      if !ok {
        disk.Delete(candidate);
        BesideIsSafe(past, files, disk.past, disk.files, candidate, start, before, e, hash);
        return;
      }
      RenameIsKept(before, files, candidate, item);
      StepIsSafe(past, disk.files, start, before, e, hash);
    }
    ok := item in disk.files && ItemOf(hash(disk.files[item])) == item;
  }

  /** Write the new index beside the old one and rename it over it. */
  method PublishIndex(disk: Disk, updated: string, e: Entry, hash: string -> string,
                      ghost before: Files, ghost start: seq<Files>) returns (ok: bool)
    requires Safe(start, disk.past, before, e, hash) && Kept(before, disk.files) && CANDIDATE !in before && INDEX in before
    requires e.url in disk.files && ItemOf(hash(disk.files[e.url])) == e.url && e.url != CANDIDATE && e.url != INDEX
    requires CatalogIn(before[INDEX]).Some? && Spliced(before[INDEX], updated, e)
    requires CatalogIn(updated) == Some(CatalogIn(before[INDEX]).value + [e])
    modifies disk
    ensures Safe(start, disk.past, before, e, hash)
    ensures if ok then Published(before, disk.files, e, hash) else Kept(before, disk.files)
  {
    hide ItemOf, Safe, CatalogIn, Spliced;
    ghost var past, files := disk.past, disk.files;
    ok := disk.Create(CANDIDATE, updated);
    BesideIsSafe(past, files, disk.past, disk.files, CANDIDATE, start, before, e, hash);
    past, files := disk.past, disk.files;
    if ok { ok := disk.Move(CANDIDATE, INDEX, true); }
    if !ok {
      disk.Delete(CANDIDATE);
      BesideIsSafe(past, files, disk.past, disk.files, CANDIDATE, start, before, e, hash);
      return;
    }
    StepIsSafe(past, disk.files, start, before, e, hash);
  }

  // ----- every listed archive is there -----

  lemma {:induction false} FoldOfLower(s: string)
    requires forall i :: 0 <= i < |s| ==> Strings.Lower(s[i]) == s[i]
    ensures Strings.Fold(s) == s
  {
    if s != "" {
      FoldOfLower(s[1..]);
      assert s == [s[0]] + s[1..];
    }
  }

  /** A new archive's item names its own file. */
  lemma ItemIsItsPlace(digest: string)
    requires IsDigest(digest)
    ensures Place(ItemOf(digest)) == ItemOf(digest)
  {
    var s := ItemOf(digest);
    forall i | 0 <= i < |s| ensures Strings.Lower(s[i]) == s[i] && Separator(s[i]) == s[i] {
      assert s[i] in "packages/.zip" || '0' <= s[i] <= '9' || 'a' <= s[i] <= 'f';
    }
    assert seq(|s|, i requires 0 <= i < |s| => Separator(s[i])) == s;
    FoldOfLower(s);
  }

  /** The index reads, and every archive it lists is there. */
  predicate Present(f: Files) {
    INDEX in f && CatalogIn(f[INDEX]).Some? && forall x :: x in CatalogIn(f[INDEX]).value ==> Place(x.url) in f
  }

  lemma KeptIsPresent(before: Files, s: Files)
    requires Present(before) && Kept(before, s)
    ensures Present(s)
  {
    hide CatalogIn, Place;
  }

  lemma PublishedIsPresent(before: Files, s: Files, e: Entry, hash: string -> string)
    requires Present(before) && Published(before, s, e, hash) && forall b :: IsDigest(hash(b))
    ensures Present(s)
  {
    hide CatalogIn, Place, ItemOf, Spliced, IsDigest;
    assert IsDigest(hash(s[e.url]));
    ItemIsItsPlace(hash(s[e.url]));
    forall x | x in CatalogIn(s[INDEX]).value ensures Place(x.url) in s {
      assert x in CatalogIn(before[INDEX]).value || x == e;
    }
  }

  /** Safe states list no archive that is missing. */
  lemma SafeIsPresent(past: seq<Files>, now: seq<Files>, before: Files, e: Entry, hash: string -> string)
    requires Safe(past, now, before, e, hash) && Present(before) && forall b :: IsDigest(hash(b))
    ensures forall k :: |past| <= k < |now| ==> Present(now[k])
  {
    hide Kept, Published, Present, IsDigest;
    forall k | |past| <= k < |now| ensures Present(now[k]) {
      if Kept(before, now[k]) { KeptIsPresent(before, now[k]); } else { PublishedIsPresent(before, now[k], e, hash); }
    }
  }

  /** The package to add: its bytes, and what validation and inspection report. */
  datatype Source = Source(bytes: string, info: Option<Info>)

  function EntryFor(source: Source, hash: string -> string): Entry
    requires source.info.Some?
  {
    NewEntry(source.info.value, hash(source.bytes))
  }

  /** When a package may be added to the repository as it is. */
  predicate Plannable(files: Files, source: Source, hash: string -> string, valid: (string, Entry) -> bool) {
    && INDEX in files && source.info.Some? && Addable(files[INDEX], source.info.value, hash(source.bytes))
    && CatalogIn(files[INDEX]).Some? && AllValid(files, CatalogIn(files[INDEX]).value, valid)
    && CANDIDATE !in files
    && var item := ItemOf(hash(source.bytes));
       item + ".new" !in files && (item in files ==> ItemOf(hash(files[item])) == item)
  }

  lemma AddableNeeds(text: string, info: Info, digest: string)
    requires Addable(text, info, digest)
    ensures CatalogIn(text).Some? && |CatalogIn(text).value| < MAX_PACKAGES
  {
    hide CatalogIn;
  }

  lemma SplicedSomewhere(text: string, end: nat, now: string, e: Entry)
    requires CatalogIn(text).Some? && end <= |text| && SplicedAt(text, end, now, e)
    ensures Spliced(text, now, e)
  {
    hide CatalogIn, SplicedAt;
  }

  lemma ValidIsPresent(files: Files, valid: (string, Entry) -> bool)
    requires INDEX in files && CatalogIn(files[INDEX]).Some? && AllValid(files, CatalogIn(files[INDEX]).value, valid)
    ensures Present(files)
  {
    hide CatalogIn, Place;
  }

  lemma EntryIsItem(info: Info, digest: string)
    ensures NewEntry(info, digest).url == ItemOf(digest)
  {
    hide ItemOf;
  }

  /** The checks before anything is written: the new entry and index text. */
  method PlanAddition(disk: Disk, source: Source, hash: string -> string, valid: (string, Entry) -> bool)
    returns (plan: Option<(Entry, string)>)
    requires source.info.Some? ==> source.info.value.Fits()
    requires forall b :: IsDigest(hash(b))
    ensures plan.Some? <==> Plannable(disk.files, source, hash, valid)
    ensures plan.Some? ==> source.info.Some? && plan.value.0 == EntryFor(source, hash)
    ensures plan.Some? ==>
              && INDEX in disk.files && Addable(disk.files[INDEX], source.info.value, hash(source.bytes))
              && CatalogIn(disk.files[INDEX]).Some? && Spliced(disk.files[INDEX], plan.value.1, plan.value.0)
              && CatalogIn(plan.value.1) == Some(CatalogIn(disk.files[INDEX]).value + [plan.value.0])
              && CANDIDATE !in disk.files && plan.value.0.url + ".new" !in disk.files && Present(disk.files)
  {
    hide ItemOf, CatalogIn, Place, SplicedAt, AllValid, Addable, NewEntry, Present, Spliced, IsDigest, Info.Fits;
    plan := None;
    if INDEX !in disk.files { return; }
    var text := disk.files[INDEX];
    if source.info.Some? && Addable(text, source.info.value, hash(source.bytes)) { AddableNeeds(text, source.info.value, hash(source.bytes)); }
    var entries, _ := ReadCatalog(text);
    if entries.None? || |entries.value| == MAX_PACKAGES { return; }
    var ok := VerifyEntries(disk, entries.value, valid);
    if !ok || source.info.None? { return; }
    var digest := hash(source.bytes);
    var updated, end := AddToCatalog(text, source.info.value, digest);
    if updated.None? { return; }
    SplicedSomewhere(text, end, updated.value, NewEntry(source.info.value, digest));
    ValidIsPresent(disk.files, valid);
    EntryIsItem(source.info.value, digest);
    var e := NewEntry(source.info.value, digest);
    if CANDIDATE in disk.files || e.url + ".new" in disk.files { return; }
    if e.url in disk.files && ItemOf(hash(disk.files[e.url])) != e.url { return; }
    plan := Some((e, updated.value));
  }

  lemma StartIsSafe(past: seq<Files>, before: Files, e: Entry, hash: string -> string)
    ensures Safe(past, past, before, e, hash) && Kept(before, before)
  {}

  lemma ItemIsOther(digest: string)
    ensures ItemOf(digest)[0] == 'p' && ItemOf(digest) != CANDIDATE && ItemOf(digest) != INDEX
  {}

  /** The steps that write. */
  method PublishPlanned(disk: Disk, bytes: string, e: Entry, updated: string, hash: string -> string) returns (ok: bool)
    requires e.url == ItemOf(hash(bytes)) && forall b :: IsDigest(hash(b))
    requires Present(disk.files) && CANDIDATE !in disk.files && e.url + ".new" !in disk.files
    requires Spliced(disk.files[INDEX], updated, e) && CatalogIn(updated) == Some(CatalogIn(disk.files[INDEX]).value + [e])
    modifies disk
    ensures Safe(old(disk.past), disk.past, old(disk.files), e, hash)
    ensures if ok then Published(old(disk.files), disk.files, e, hash) else Kept(old(disk.files), disk.files)
  {
    hide ItemOf, Published, Kept, Safe, CatalogIn, Place, Spliced, IsDigest;
    ghost var before, start := disk.files, disk.past;
    StartIsSafe(start, before, e, hash);
    ItemIsOther(hash(bytes));
    ok := PublishArchive(disk, bytes, e, hash, before, start);
    if ok { ok := PublishIndex(disk, updated, e, hash, before, start); }
  }

  /** `wpm_repo_add_package`: at every stopping point the repository is the old
      one or the published one, and success means published. */
  method AddPackage(disk: Disk, source: Source, dryRun: bool, hash: string -> string, valid: (string, Entry) -> bool) returns (ok: bool)
    requires source.info.Some? ==> source.info.value.Fits()
    requires forall b :: IsDigest(hash(b))
    modifies disk
    ensures source.info.Some? ==> Safe(old(disk.past), disk.past, old(disk.files), EntryFor(source, hash), hash)
    ensures dryRun || source.info.None? ==> disk.files == old(disk.files) && disk.past == old(disk.past)
    ensures source.info.Some? && !dryRun ==>
              if ok then Published(old(disk.files), disk.files, EntryFor(source, hash), hash) else Kept(old(disk.files), disk.files)
    ensures ok ==> Present(old(disk.files)) && Plannable(old(disk.files), source, hash, valid)
    ensures dryRun ==> ok == Plannable(old(disk.files), source, hash, valid)
    ensures source.info.Some? && Present(old(disk.files)) ==>
              Present(disk.files) && forall k :: |old(disk.past)| <= k < |disk.past| ==> Present(disk.past[k])
  {
    hide ItemOf, Published, Kept, Safe, CatalogIn, Addable, Place, Present, Spliced, IsDigest, Info.Fits, Plannable;
    ghost var before, start := disk.files, disk.past;
    var plan := PlanAddition(disk, source, hash, valid);
    if source.info.Some? { StartIsSafe(start, before, EntryFor(source, hash), hash); }
    if plan.None? { return false; }
    if dryRun { return true; }
    var (e, updated) := plan.value;
    ok := PublishPlanned(disk, source.bytes, e, updated, hash);
    SafeIsPresent(start, disk.past, before, e, hash);
    if ok { PublishedIsPresent(before, disk.files, e, hash); } else { KeptIsPresent(before, disk.files); }
  }
}
