/** The strict catalogue reader of wpm/repository.c: `author_entry`,
    `author_catalog_fields` and the array loop of `author_read_catalog`.  */
module Catalog {
  import opened JsonGrammar
  import opened JsonChecker
  import opened JsonFields
  import opened JsonVersion
  import opened Packages
  import opened Semver

  const MAX_PACKAGES: nat := 96
  const NAME_SIZE: nat := 128
  const VERSION_SIZE: nat := 64
  const ARCH_SIZE: nat := 16
  const URL_SIZE: nat := 4096
  const KEY_SIZE: nat := 32

  /** A string value that fits a field buffer and is not empty. */
  function StringIn(v: Value, size: nat): Option<string>
    requires WfValue(v)
  {
    if v.Str? && Decode(v.tok) != "" && |Decode(v.tok)| < size && '\0' !in Decode(v.tok) then Some(Decode(v.tok)) else None
  }

  /** A member that occurs exactly once with such a value. */
  function OnlyString(it: Items, key: string, size: nat): Option<string>
    requires WfItems(true, it)
  {
    if Count(it, key, KEY_SIZE) == 1 then StringIn(FindItem(it, key, KEY_SIZE).val, size) else None
  }

  predicate KnownArch(arch: string) {
    SameFolded(arch, "any") || SameFolded(arch, "x86") || SameFolded(arch, "x64") || SameFolded(arch, "arm64")
  }

  /** What `author_entry` makes of a value. */
  function EntryOf(v: Value): Option<Entry>
    requires WfValue(v)
  {
    if !v.Node? || !v.obj then None
    else
      match (OnlyString(v.items, "name", NAME_SIZE), OnlyString(v.items, "version", VERSION_SIZE),
             OnlyString(v.items, "arch", ARCH_SIZE), OnlyString(v.items, "url", URL_SIZE))
      case (Some(n), Some(w), Some(a), Some(u)) =>
        if IsVersion(w) && KnownArch(a) then Some(Entry(n, w, a, u, 0, 0)) else None
      case _ => None
  }

  /** The array elements, all of which must be entries. */
  function EntriesOf(it: Items): Option<seq<Entry>>
    requires WfItems(false, it)
  {
    if it.End? then Some([])
    else
      match (EntryOf(it.val), EntriesOf(it.more))
      case (Some(e), Some(es)) => Some([e] + es)
      case _ => None
  }

  predicate SameIdentity(a: Entry, b: Entry) {
    SameFolded(a.name, b.name) && SameFolded(a.arch, b.arch) && a.version == b.version
  }

  predicate DistinctEntries(es: seq<Entry>) {
    forall i, j :: 0 <= i < j < |es| ==> !SameIdentity(es[i], es[j])
  }

  function PackagesValue(root: Items): Option<Value>
    requires WfItems(true, root)
    ensures PackagesValue(root).Some? ==> WfValue(PackagesValue(root).value)
  {
    var it := FindItem(root, "packages", KEY_SIZE);
    if it.Item? then Some(it.val) else None
  }

  function Admit(o: Option<seq<Entry>>): Option<seq<Entry>> {
    if o.Some? && |o.value| <= MAX_PACKAGES && DistinctEntries(o.value) then o else None
  }

  /** What `author_read_catalog` accepts, and the entries it reads. */
  function CatalogOf(d: Document): Option<seq<Entry>>
    requires d.Wf()
  {
    if !d.root.Node? || !d.root.obj then None
    else
      var root := d.root.items;
      var v := PackagesValue(root);
      if !DeclaresOne(root) || Count(root, "version", KEY_SIZE) != 1 || Count(root, "packages", KEY_SIZE) != 1
         || v.None? || !v.value.Node? || v.value.obj
      then None
      else
        Admit(EntriesOf(v.value.items))
  }

  // ----- one member of an entry -----

  /** Scanning the members of `all`, of which `it` are left: `value` is what was
      read for `key`. */
  predicate Progress(all: Items, it: Items, key: string, size: nat, value: Option<string>)
    requires WfItems(true, all) && WfItems(true, it)
  {
    var found := FindItem(all, key, KEY_SIZE);
    if value.None? then
      Count(all, key, KEY_SIZE) == Count(it, key, KEY_SIZE) && found == FindItem(it, key, KEY_SIZE)
    else
      && Count(all, key, KEY_SIZE) == 1 + Count(it, key, KEY_SIZE)
      && found.Item? && StringIn(found.val, size) == value
  }

  lemma ProgressOther(all: Items, it: Items, key: string, size: nat, value: Option<string>)
    requires WfItems(true, all) && WfItems(true, it) && it.Item? && Progress(all, it, key, size, value)
    requires KeyIn(it.key, KEY_SIZE) != key
    ensures Progress(all, it.more, key, size, value)
  {}

  lemma ProgressHere(all: Items, it: Items, key: string, size: nat, value: Option<string>)
    requires WfItems(true, all) && WfItems(true, it) && it.Item? && Progress(all, it, key, size, value)
    requires KeyIn(it.key, KEY_SIZE) == key
    ensures value.Some? ==> OnlyString(all, key, size) == None
    ensures value.None? && StringIn(it.val, size).None? ==> OnlyString(all, key, size) == None
    ensures value.None? && StringIn(it.val, size).Some? ==> Progress(all, it.more, key, size, StringIn(it.val, size))
  {}

  lemma ProgressDone(all: Items, key: string, size: nat, value: Option<string>)
    requires WfItems(true, all) && Progress(all, End, key, size, value)
    ensures OnlyString(all, key, size) == value
  {}

  /** Reading a string from a value. */
  lemma StringAtValue(obj: bool, it: Items, rest: string, size: nat)
    requires WfItems(obj, it) && it.Item?
    ensures var r := StringAt(FromValue(obj, it, rest), size, true);
            && (StringIn(it.val, size).Some? ==> r == Ok(StringIn(it.val, size).value, Tail(obj, it, rest)))
            && (r.Ok? && r.value != "" ==> StringIn(it.val, size).Some?)
  {
    var t := Tail(obj, it, rest);
    BareHead(it.val, t);
    var s := Bare(it.val, t);
    assert SpaceRun(s) == 0 && s[0..] == s;
    if it.val.Str? { StringTokenLocal(it.val.tok, t); }
  }

  lemma TailDelimiter(obj: bool, it: Items, rest: string)
    requires WfItems(obj, it) && it.Item?
    ensures var t := Tail(obj, it, rest); t[SpaceRun(t)..] == FromDelimiter(obj, it, rest)
  {
    SpaceRunOf(it.endws, FromDelimiter(obj, it, rest));
  }

  /** Read the value of a known member into its field. */
  method ReadField(text: string, p0: nat, size: nat, old0: Option<string>, ghost it: Items, ghost rest: string, ghost known: bool)
    returns (ok: bool, value: Option<string>, p: nat)
    requires p0 <= |text| && size > 0
    requires known ==> WfItems(true, it) && it.Item? && text[p0..] == FromValue(true, it, rest)
    ensures p0 <= p <= |text| && (ok ==> value.Some?)
    ensures known ==> ok == (old0.None? && StringIn(it.val, size).Some?)
    ensures known && ok ==> value == StringIn(it.val, size) && text[p..] == FromDelimiter(true, it, rest)
  {
    hide FromValue, FromDelimiter, ScanString, SpaceRun, Tail;
    value, p := None, p0;
    if old0.Some? { return false, None, p0; }
    if known { StringAtValue(true, it, rest, size); TailDelimiter(true, it, rest); }
    var out;
    ok, p, out := ReadString(text, p0, size, true);
    if !ok || out == "" { return false, None, p; }
    p := Space(text, p);
    value := Some(out);
  }

  /** The four fields read so far. */
  datatype Partial = Partial(name: Option<string>, version: Option<string>, arch: Option<string>, url: Option<string>) {
    predicate Full() {
      name.Some? && version.Some? && arch.Some? && url.Some?
    }
  }

  predicate AllProgress(all: Items, it: Items, f: Partial)
    requires WfItems(true, all) && WfItems(true, it)
  {
    && Progress(all, it, "name", NAME_SIZE, f.name)
    && Progress(all, it, "version", VERSION_SIZE, f.version)
    && Progress(all, it, "arch", ARCH_SIZE, f.arch)
    && Progress(all, it, "url", URL_SIZE, f.url)
  }

  lemma AllOther(all: Items, it: Items, f: Partial, key: string)
    requires WfItems(true, all) && WfItems(true, it) && it.Item? && AllProgress(all, it, f)
    requires key == KeyIn(it.key, KEY_SIZE)
    ensures WfItems(true, it.more)
    ensures key != "name" ==> Progress(all, it.more, "name", NAME_SIZE, f.name)
    ensures key != "version" ==> Progress(all, it.more, "version", VERSION_SIZE, f.version)
    ensures key != "arch" ==> Progress(all, it.more, "arch", ARCH_SIZE, f.arch)
    ensures key != "url" ==> Progress(all, it.more, "url", URL_SIZE, f.url)
  {
    hide Progress;
    if key != "name" { ProgressOther(all, it, "name", NAME_SIZE, f.name); }
    if key != "version" { ProgressOther(all, it, "version", VERSION_SIZE, f.version); }
    if key != "arch" { ProgressOther(all, it, "arch", ARCH_SIZE, f.arch); }
    if key != "url" { ProgressOther(all, it, "url", URL_SIZE, f.url); }
  }

  lemma AllAtStart(all: Items)
    requires WfItems(true, all)
    ensures AllProgress(all, all, Partial(None, None, None, None))
  {}

  /** The four required fields of an object, or nothing. */
  function FieldsOf(all: Items): (r: Option<Partial>)
    requires WfItems(true, all)
    ensures r.Some? ==> r.value.Full()
  {
    var f := Partial(OnlyString(all, "name", NAME_SIZE), OnlyString(all, "version", VERSION_SIZE),
                     OnlyString(all, "arch", ARCH_SIZE), OnlyString(all, "url", URL_SIZE));
    if f.Full() then Some(f) else None
  }

  lemma AllDone(all: Items, f: Partial)
    requires WfItems(true, all) && AllProgress(all, End, f)
    ensures FieldsOf(all) == if f.Full() then Some(f) else None
  {
    hide Progress, OnlyString;
    ProgressDone(all, "name", NAME_SIZE, f.name);
    ProgressDone(all, "version", VERSION_SIZE, f.version);
    ProgressDone(all, "arch", ARCH_SIZE, f.arch);
    ProgressDone(all, "url", URL_SIZE, f.url);
  }

  /** One member of an entry: its value is read, or skipped when the key is not
      a required one. */
  method EntryMember(text: string, p0: nat, f0: Partial, key: string,
                     ghost all: Items, ghost it: Items, ghost rest: string, ghost known: bool)
    returns (ok: bool, f: Partial, p: nat)
    requires p0 <= |text|
    requires known ==> && WfItems(true, all) && WfItems(true, it) && it.Item? && AllProgress(all, it, f0)
                       && text[p0..] == FromValue(true, it, rest) && key == KeyIn(it.key, KEY_SIZE)
    ensures p0 <= p <= |text|
    ensures known && !ok ==> FieldsOf(all).None?
    ensures known && ok ==> WfItems(true, it.more) && AllProgress(all, it.more, f) && text[p..] == FromDelimiter(true, it, rest)
  {
    hide FromValue, FromDelimiter, Progress, StringIn, OnlyString, KeyIn;
    f := f0;
    var value;
    if known { AllOther(all, it, f0, key); }
    if key == "name" {
      if known { ProgressHere(all, it, "name", NAME_SIZE, f0.name); }
      ok, value, p := ReadField(text, p0, NAME_SIZE, f0.name, it, rest, known);
      f := f.(name := value);
    } else if key == "version" {
      if known { ProgressHere(all, it, "version", VERSION_SIZE, f0.version); }
      ok, value, p := ReadField(text, p0, VERSION_SIZE, f0.version, it, rest, known);
      f := f.(version := value);
    } else if key == "arch" {
      if known { ProgressHere(all, it, "arch", ARCH_SIZE, f0.arch); }
      ok, value, p := ReadField(text, p0, ARCH_SIZE, f0.arch, it, rest, known);
      f := f.(arch := value);
    } else if key == "url" {
      if known { ProgressHere(all, it, "url", URL_SIZE, f0.url); }
      ok, value, p := ReadField(text, p0, URL_SIZE, f0.url, it, rest, known);
      f := f.(url := value);
    } else {
      p, ok := SkipValue(text, p0, true, it, rest, known);
    }
  }

  function EntryFrom(f: Partial): Option<Entry>
    requires f.Full()
  {
    if IsVersion(f.version.value) && KnownArch(f.arch.value)
    then Some(Entry(f.name.value, f.version.value, f.arch.value, f.url.value, 0, 0)) else None
  }

  lemma EntryFromFields(v: Value)
    requires WfValue(v)
    ensures EntryOf(v) ==
            if !v.Node? || !v.obj || FieldsOf(v.items).None? then None else EntryFrom(FieldsOf(v.items).value)
  {
    hide OnlyString;
  }

  /** The members of one entry, up to its closing brace. */
  method EntryFields(text: string, p0: nat, ghost all: Items, ghost rest: string, ghost known: bool)
    returns (r: Option<Partial>, p: nat)
    requires p0 <= |text| < SIZE_MAX
    requires known ==> WfItems(true, all) && text[p0..] == FromKey(all, rest)
    ensures p0 <= p <= |text|
    ensures r.Some? ==> p < |text| && r.value.Full()
    ensures known ==> r == FieldsOf(all)
    ensures known && r.Some? ==> text[p..] == ['}'] + rest
  {
    hide FromKey, FromValue, FromDelimiter, AllProgress, FieldsOf;
    var f := Partial(None, None, None, None);
    ghost var it := all;
    p := p0;
    if known { AllAtStart(all); }
    var more := AtAnyKey(text, p, it, rest, known);
    while At(text, p) != '}'
      invariant p0 <= p <= |text|
      invariant known ==> && WfItems(true, it) && text[p..] == FromKey(it, rest) && AllProgress(all, it, f)
                          && (At(text, p) == '}') == it.End?
      decreases |text| - p
    {
      var ok, key, q := KeyAndColon(text, p, KEY_SIZE, it, rest, known);
      if !ok { return None, p; }
      ok, f, p := EntryMember(text, q, f, key, all, it, rest, known);
      if !ok { return None, p; }
      ok, p := NextKey(text, p, it, rest, known);
      if known { it := it.more; }
      more := AtAnyKey(text, p, it, rest, known);
      if !ok && At(text, p) != '}' { return None, p; }
    }
    if known { AllDone(all, f); FromEnd(rest); }
    r := if f.Full() then Some(f) else None;
  }

  lemma FromEnd(rest: string)
    ensures FromKey(End, rest) == ['}'] + rest
  {}

  lemma InsideObject(v: Value, t: string)
    requires WfValue(v) && v.Node? && v.obj
    ensures var s := Bare(v, t);
            && s != "" && s[0] == '{' && var u := s[1..]; u[SpaceRun(u)..] == FromKey(v.items, t)
  {
    AtBody(v.items, t);
    var b := Body(true, v.items, t);
    if v.items.End? { SpaceRunOf(v.gap, b); } else { assert v.gap + b == b; }
  }

  lemma BareCursor(v: Value, t: string)
    requires WfValue(v)
    ensures var s := Bare(v, t); SpaceRun(s) == 0 && s[0..] == s && (Head(s) == '{' <==> v.Node? && v.obj)
  {
    BareHead(v, t);
  }

  /** The checks behind the closing brace. */
  method CheckEntry(f: Partial) returns (r: Option<Entry>)
    requires f.Full()
    ensures r == EntryFrom(f)
  {
    hide ParseVersion, KnownArch;
    var version := ReadVersion(f.version.value);
    if version.None? || !KnownArch(f.arch.value) { return None; }
    r := Some(Entry(f.name.value, f.version.value, f.arch.value, f.url.value, 0, 0));
  }

  /** `author_entry` */
  method AuthorEntry(text: string, p0: nat, ghost v: Value, ghost t: string, ghost known: bool)
    returns (r: Option<Entry>, p: nat)
    requires p0 <= |text| < SIZE_MAX
    requires known ==> WfValue(v) && text[p0..] == Bare(v, t)
    ensures p0 <= p <= |text| && (r.Some? ==> p0 < p)
    ensures known ==> r == EntryOf(v)
    ensures known && r.Some? ==> text[p..] == t
  {
    hide Bare, FromKey, SpaceRun, EntryOf, EntryFrom;
    if known {
      BareCursor(v, t);
      EntryFromFields(v);
      if v.Node? && v.obj { InsideObject(v, t); }
    }
    p := Space(text, p0);
    AtIsHead(text, p);
    if At(text, p) != '{' { return None, p; }
    p := Space(text, p + 1);
    var f: Option<Partial>;
    f, p := EntryFields(text, p, if known then v.items else End, t, known);
    if f.None? { return None, p; }
    AtIsHead(text, p);
    p := p + 1;
    r := CheckEntry(f.value);
  }

  /** The text from an array element, or from the closing bracket, on. */
  function FromElement(it: Items, rest: string): string {
    if it.End? then [']'] + rest else FromValue(false, it, rest)
  }

  lemma AtElement(it: Items, rest: string)
    requires WfItems(false, it)
    ensures Head(FromElement(it, rest)) == ']' <==> it.End?
    ensures FromElement(it, rest) != ""
  {
    if it.Item? { BareHead(it.val, Tail(false, it, rest)); }
  }

  lemma ElementCursor(it: Items, rest: string)
    requires WfItems(false, it)
    ensures var s := Body(false, it, rest); s[SpaceRun(s)..] == FromElement(it, rest)
  {
    if it.Item? {
      AtValue(false, it, rest);
    } else {
      var s := Body(false, it, rest);
      assert s[0..] == s;
    }
  }

  lemma ElementDelimiter(it: Items, rest: string)
    requires WfItems(false, it) && it.Item?
    ensures var s := FromDelimiter(false, it, rest);
            if it.more.End? then Head(s) == ']' && s == FromElement(it.more, rest)
            else Head(s) == ',' && s[1..][SpaceRun(s[1..])..] == FromElement(it.more, rest)
  {
    ElementCursor(it.more, rest);
  }

  /** The entries read and those left make up all of them. */
  predicate Reading(all: Items, it: Items, es: seq<Entry>)
    requires WfItems(false, all) && WfItems(false, it)
  {
    && |es| <= MAX_PACKAGES && DistinctEntries(es)
    && EntriesOf(all) == match EntriesOf(it) case None => None case Some(more) => Some(es + more)
  }

  lemma ReadingStart(all: Items)
    requires WfItems(false, all)
    ensures Reading(all, all, [])
  {
    if EntriesOf(all).Some? { assert [] + EntriesOf(all).value == EntriesOf(all).value; }
  }

  predicate Duplicate(es: seq<Entry>, e: Entry) {
    exists i :: 0 <= i < |es| && SameIdentity(es[i], e)
  }

  lemma DistinctPrefix(es: seq<Entry>, e: Entry, more: seq<Entry>)
    ensures DistinctEntries(es) && !Duplicate(es, e) ==> DistinctEntries(es + [e])
    ensures Duplicate(es, e) ==> !DistinctEntries(es + ([e] + more))
  {
    hide SameIdentity;
    var whole := es + ([e] + more);
    assert whole[|es|] == e;
    if Duplicate(es, e) {
      var i :| 0 <= i < |es| && SameIdentity(es[i], e);
      assert whole[i] == es[i];
    }
  }

  /** The next element: the scan fails exactly when the whole array is not
      admissible because of it. */
  lemma ReadingNext(all: Items, it: Items, es: seq<Entry>)
    requires WfItems(false, all) && WfItems(false, it) && Reading(all, it, es) && it.Item?
    ensures |es| >= MAX_PACKAGES || EntryOf(it.val).None? ==> Admit(EntriesOf(all)) == None
    ensures EntryOf(it.val).Some? && Duplicate(es, EntryOf(it.val).value) ==> Admit(EntriesOf(all)) == None
    ensures EntryOf(it.val).Some? && |es| < MAX_PACKAGES && !Duplicate(es, EntryOf(it.val).value) ==>
              Reading(all, it.more, es + [EntryOf(it.val).value])
  {
    hide EntryOf, SameIdentity, DistinctEntries, Duplicate;
    if EntryOf(it.val).Some? {
      var e := EntryOf(it.val).value;
      DistinctPrefix(es, e, []);
      if EntriesOf(it.more).Some? {
        var more := EntriesOf(it.more).value;
        DistinctPrefix(es, e, more);
        assert es + ([e] + more) == (es + [e]) + more;
      }
    }
  }

  lemma ReadingDone(all: Items, es: seq<Entry>)
    requires WfItems(false, all) && Reading(all, End, es)
    ensures Admit(EntriesOf(all)) == Some(es)
  {
    assert es + [] == es;
  }

  method IsDuplicate(es: seq<Entry>, e: Entry) returns (found: bool)
    ensures found == Duplicate(es, e)
  {
    hide SameIdentity;
    found := false;
    for i := 0 to |es|
      invariant found <==> exists k :: 0 <= k < i && SameIdentity(es[k], e)
    {
      if SameIdentity(es[i], e) { found := true; }
    }
  }

  /** Past the delimiter behind an element. */
  method NextElement(text: string, p0: nat, ghost it: Items, ghost rest: string, ghost known: bool) returns (ok: bool, p: nat)
    requires p0 <= |text|
    requires known ==> WfItems(false, it) && it.Item? && text[p0..] == Tail(false, it, rest)
    ensures p0 <= p <= |text|
    ensures known ==> ok && text[p..] == FromElement(it.more, rest)
  {
    hide FromElement, FromDelimiter, Tail, SpaceRun;
    if known { TailDelimiter(false, it, rest); ElementDelimiter(it, rest); }
    p := Space(text, p0);
    AtIsHead(text, p);
    if At(text, p) == ',' {
      p := Space(text, p + 1);
      ok := true;
    } else {
      ok := At(text, p) == ']';
    }
  }

  /** The array loop of `author_read_catalog`, from behind the opening bracket. */
  method ReadEntries(text: string, p0: nat, ghost all: Items, ghost gap: string, ghost rest: string, ghost known: bool)
    returns (r: Option<seq<Entry>>, p: nat)
    requires p0 <= |text| < SIZE_MAX
    requires known ==> && WfItems(false, all) && AllSpace(gap) && (all.Item? ==> gap == "")
                       && text[p0..] == gap + Body(false, all, rest)
    ensures p0 <= p <= |text|
    ensures known ==> r == Admit(EntriesOf(all))
    ensures known && r.Some? ==> text[p..] == [']'] + rest
  {
    hide FromElement, FromDelimiter, FromValue, Reading, EntryOf, EntriesOf, SpaceRun, Admit, Body, Tail, Duplicate, Bare;
    ghost var it := all;
    if known { ElementStart(all, gap, rest); ReadingStart(all); }
    var es: seq<Entry> := [];
    p := Space(text, p0);
    while At(text, p) != ']'
      invariant p0 <= p <= |text|
      invariant known ==> WfItems(false, it) && text[p..] == FromElement(it, rest) && Reading(all, it, es)
      decreases |text| - p
    {
      AtIsHead(text, p);
      if known { AtElement(it, rest); ReadingNext(all, it, es); ElementValue(it, rest); }
      if |es| >= MAX_PACKAGES { return None, p; }
      var e: Option<Entry>;
      e, p := AuthorEntry(text, p, if known then it.val else Word("", ""), if known then Tail(false, it, rest) else "", known);
      if e.None? { return None, p; }
      var duplicate := IsDuplicate(es, e.value);
      if duplicate { return None, p; }
      es := es + [e.value];
      var more;
      more, p := NextElement(text, p, it, rest, known);
      if !more { return None, p; }
      if known { it := it.more; }
    }
    AtIsHead(text, p);
    if known { AtElement(it, rest); ReadingDone(all, es); ElementEnd(rest); }
    r := Some(es);
  }

  lemma ElementStart(all: Items, gap: string, rest: string)
    requires WfItems(false, all) && AllSpace(gap) && (all.Item? ==> gap == "")
    ensures var s := gap + Body(false, all, rest); s[SpaceRun(s)..] == FromElement(all, rest)
  {
    ElementCursor(all, rest);
    var b := Body(false, all, rest);
    if all.End? { SpaceRunOf(gap, b); } else { assert gap + b == b; }
  }

  lemma ElementValue(it: Items, rest: string)
    requires it.Item? && WfItems(false, it)
    ensures FromElement(it, rest) == Bare(it.val, Tail(false, it, rest)) && WfValue(it.val) && WfItems(false, it.more)
  {}

  lemma ElementEnd(rest: string)
    ensures FromElement(End, rest) == [']'] + rest
  {}

  // ----- the whole document -----

  /** Whether a key was seen, against how often it occurs. */
  predicate Seen(all: Items, it: Items, key: string, seen: bool)
    requires WfItems(true, all) && WfItems(true, it)
  {
    Count(all, key, KEY_SIZE) == Count(it, key, KEY_SIZE) + if seen then 1 else 0
  }

  lemma SeenNext(all: Items, it: Items, key: string, seen: bool)
    requires WfItems(true, all) && WfItems(true, it) && it.Item? && Seen(all, it, key, seen)
    ensures if KeyIn(it.key, KEY_SIZE) == key then (if seen then Count(all, key, KEY_SIZE) > 1 else Seen(all, it.more, key, true))
            else Seen(all, it.more, key, seen)
  {}

  predicate IsObject(v: Value) {
    v.Node? && v.obj
  }

  lemma RootObject(text: string)
    requires Parse(text).Ok?
    ensures var d, t := Parse(text).value, AfterBom(text);
            && d.Wf() && (Head(t[SpaceRun(t)..]) == '{' <==> IsObject(d.root))
            && (IsObject(d.root) ==> ObjectAt(text) == Some((d.root.items, d.trail)))
  {
    hide ParseValue, Bare;
    var d, t := Parse(text).value, AfterBom(text);
    ParseSound(text);
    ParseValueSound(t);
    BareHead(d.root, d.trail);
    SpaceRunOf(d.root.ws, Bare(d.root, d.trail));
  }

  /** `author_catalog_fields` */
  method CatalogFields(text: string, ghost d: Document) returns (ok: bool)
    requires |text| < SIZE_MAX && Parse(text) == Ok(d, "") && d.Wf()
    ensures ok == (IsObject(d.root) && Count(d.root.items, "version", KEY_SIZE) == 1 && Count(d.root.items, "packages", KEY_SIZE) == 1)
  {
    hide Parse, ObjectAt, SpaceRun;
    RootObject(text);
    assert text[0..] == text;
    var p := Content(text, 0);
    AtIsHead(text, p);
    if At(text, p) != '{' { return false; }
    ok := RequiredFields(text, d.root.items, d.trail);
  }

  method RequiredFields(text: string, ghost all: Items, ghost rest: string) returns (ok: bool)
    requires |text| < SIZE_MAX && ObjectAt(text[0..]) == Some((all, rest))
    ensures ok == (Count(all, "version", KEY_SIZE) == 1 && Count(all, "packages", KEY_SIZE) == 1)
  {
    hide FromKey, FromValue, FromDelimiter, ObjectAt, Count, Seen;
    var version, packages := false, false;
    ghost var it := all;
    SeenStart(all);
    var p;
    ok, p := FirstKey(text, 0);
    var more := AtAnyKey(text, p, it, rest, true);
    while At(text, p) != '}'
      invariant p <= |text| && WfItems(true, it) && text[p..] == FromKey(it, rest)
      invariant (At(text, p) == '}') == it.End?
      invariant Seen(all, it, "version", version) && Seen(all, it, "packages", packages)
      decreases |text| - p
    {
      var key, q;
      ok, key, q := KeyAndColon(text, p, KEY_SIZE, it, rest, true);
      SeenNext(all, it, "version", version);
      SeenNext(all, it, "packages", packages);
      if key == "version" {
        if version { return false; }
        version := true;
      } else if key == "packages" {
        if packages { return false; }
        packages := true;
      }
      p, ok := SkipValue(text, q, true, it, rest, true);
      ok, p := NextKey(text, p, it, rest, true);
      it := it.more;
      more := AtAnyKey(text, p, it, rest, true);
    }
    SeenEnd(all, version, packages);
    ok := version && packages;
  }

  lemma SeenStart(all: Items)
    requires WfItems(true, all)
    ensures Seen(all, all, "version", false) && Seen(all, all, "packages", false)
  {}

  lemma SeenEnd(all: Items, version: bool, packages: bool)
    requires WfItems(true, all) && Seen(all, End, "version", version) && Seen(all, End, "packages", packages)
    ensures Count(all, "version", KEY_SIZE) == (if version then 1 else 0)
    ensures Count(all, "packages", KEY_SIZE) == (if packages then 1 else 0)
  {}

  /** What follows the package array. */
  function AfterPackages(d: Document): string
    requires d.Wf() && IsObject(d.root) && PackagesValue(d.root.items).Some?
  {
    Tail(true, FindItem(d.root.items, "packages", KEY_SIZE), d.trail)
  }

  lemma ArrayText(v: Value, t: string)
    requires WfValue(v)
    ensures Head(Bare(v, t)) == '[' <==> v.Node? && !v.obj
    ensures v.Node? && !v.obj ==> Bare(v, t)[1..] == v.gap + Body(false, v.items, t)
  {
    BareHead(v, t);
  }

  /** The text of index.json that `author_read_catalog` will look at. */
  predicate Loadable(text: string) {
    2 <= |text| <= LIMIT && '\0' !in text && Parse(text).Ok?
  }

  /** The entries of a catalogue text, if the strict reader accepts it. */
  function CatalogIn(text: string): Option<seq<Entry>> {
    if Loadable(text) then
      ParseSound(text);
      CatalogOf(Parse(text).value)
    else None
  }

  /** `query_catalog_document` */
  method CheckDocument(text: string) returns (ok: bool)
    ensures ok ==> Loadable(text) && IsObject(Parse(text).value.root)
    ensures ok == (Loadable(text) &&
                   var root := Parse(text).value.root;
                   && WfValue(root) && IsObject(root) && DeclaresOne(root.items)
                   && Count(root.items, "version", KEY_SIZE) == 1 && Count(root.items, "packages", KEY_SIZE) == 1)
  {
    hide Parse, ObjectAt, DeclaresOne, Count;
    if |text| < 2 || |text| > LIMIT || '\0' in text { return false; }
    ok := DocumentValid(text);
    if !ok { return; }
    ParseDecidesGrammar(text);
    RootObject(text);
    ok := VersionOne(text);
    if !ok { return; }
    ok := CatalogFields(text, Parse(text).value);
  }

  /** `author_read_catalog` on the bytes of index.json: the entries and the
      offset of the closing bracket of the package array. */
  method ReadCatalog(text: string) returns (r: Option<seq<Entry>>, end: nat)
    ensures end <= |text|
    ensures r == CatalogIn(text)
    ensures r.Some? ==> Parse(text).value.Wf() && text[end..] == [']'] + AfterPackages(Parse(text).value)
  {
    hide Parse, ObjectAt, DeclaresOne, Count, FindItem, EntriesOf, Bare, Tail, Admit;
    r, end := None, 0;
    if Loadable(text) { ParseDecidesGrammar(text); RootObject(text); }
    var ok := CheckDocument(text);
    if !ok { return; }
    ghost var d := Parse(text).value;
    ghost var it := FindItem(d.root.items, "packages", KEY_SIZE);
    ghost var t := Tail(true, it, d.trail);
    assert text[0..] == text;
    var p := Field(text, 0, "packages");
    ArrayText(it.val, t);
    AtIsHead(text, p.value);
    if At(text, p.value) != '[' { return; }
    r, end := ReadEntries(text, p.value + 1, it.val.items, it.val.gap, t, true);
  }
}
