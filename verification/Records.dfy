/** Admission of recovery records (wpm/recovery_record.c): what `record_parse`
    reads from any text, in terms of the document's tree.  */
module Records {
  import opened JsonGrammar
  import opened JsonChecker
  import opened JsonFields
  import opened JsonText
  import opened Decimal
  import opened Semver
  import opened Catalog
  import Timestamps
  import Strings

  const UNIQUE_KEY: nat := 128
  const UINT32_MAX: nat := 0xffff_ffff
  const PATH: nat := 4096

  /** The value of the only member with a key. */
  function ValueOf(it: Items, key: string): (v: Option<Value>)
    requires WfItems(true, it)
    ensures v.Some? ==> WfValue(v.value)
  {
    if Count(it, key, UNIQUE_KEY) == 1 then Some(FindItem(it, key, UNIQUE_KEY).val) else None
  }

  predicate IsWordValue(v: Value, word: string) {
    v.Word? && v.word == word
  }

  /** `record_string` */
  function TextField(it: Items, key: string, size: nat, nullable: bool): Option<string>
    requires WfItems(true, it)
  {
    var v := ValueOf(it, key);
    if v.None? then None
    else if nullable && IsWordValue(v.value, "null") then Some("")
    else StringIn(v.value, size)
  }

  /** `record_bool` */
  function BoolField(it: Items, key: string): Option<bool>
    requires WfItems(true, it)
  {
    var v := ValueOf(it, key);
    if v.Some? && IsWordValue(v.value, "true") then Some(true)
    else if v.Some? && IsWordValue(v.value, "false") then Some(false)
    else None
  }

  /** A text before a comma or a closing brace. */
  predicate Delimited(s: string) {
    var c := Head(s[SpaceRun(s)..]);
    c == ',' || c == '}'
  }

  /** `record_delimiter` */
  method Delimiter(text: string, p: nat) returns (ok: bool)
    requires p <= |text|
    ensures ok == Delimited(text[p..])
  {
    var q := Space(text, p);
    AtIsHead(text, q);
    ok := At(text, q) == ',' || At(text, q) == '}';
  }

  predicate WordHere(s: string, word: string) {
    StartsWith(s, word) && Delimited(s[|word|..])
  }

  method Literal(text: string, p: nat, word: string) returns (ok: bool)
    requires p <= |text|
    ensures ok == WordHere(text[p..], word)
  {
    if p + |word| > |text| || text[p..p + |word|] != word {
      assert p + |word| <= |text| ==> text[p..][..|word|] == text[p..p + |word|];
      return false;
    }
    assert text[p..][..|word|] == text[p..p + |word|];
    assert text[p..][|word|..] == text[p + |word|..];
    ok := Delimiter(text, p + |word|);
  }

  lemma TailDelimited(it: Items, rest: string)
    requires WfItems(true, it) && it.Item?
    ensures Delimited(Tail(true, it, rest))
  {
    TailDelimiter(true, it, rest);
  }

  /** A literal name stands before the delimiter exactly when it is the value. */
  lemma WordIsValue(it: Items, rest: string, word: string)
    requires WfItems(true, it) && it.Item? && IsWord(word)
    ensures WordHere(FromValue(true, it, rest), word) <==> IsWordValue(it.val, word)
  {
    var t := Tail(true, it, rest);
    BareHead(it.val, t);
    TailDelimited(it, rest);
    hide Tail;
    var s := FromValue(true, it, rest);
    if |s| >= |word| { assert s[..|word|][0] == s[0]; }
    if IsWordValue(it.val, word) {
      assert s[..|word|] == word && s[|word|..] == t;
    }
  }

  /** A string value read at its own place, with the delimiter behind it. */
  method StringHere(text: string, p0: nat, size: nat, ghost it: Items, ghost rest: string, ghost known: bool) returns (r: Option<string>)
    requires p0 <= |text| && size > 0
    requires known ==> WfItems(true, it) && it.Item? && text[p0..] == FromValue(true, it, rest)
    ensures known ==> r == StringIn(it.val, size)
  {
    hide FromValue, Tail, ScanString, SpaceRun, StringAt, Delimited;
    if known { StringAtValue(true, it, rest, size); TailDelimited(it, rest); }
    var ok, p, out := ReadString(text, p0, size, true);
    if !ok || out == "" { return None; }
    ok := Delimiter(text, p);
    r := if ok then Some(out) else None;
  }

  /** `record_string` */
  method RecordString(text: string, start: nat, key: string, size: nat, nullable: bool, ghost all: Items, ghost rest: string)
    returns (r: Option<string>)
    requires start <= |text| < SIZE_MAX && size > 0 && ObjectAt(text[start..]) == Some((all, rest))
    ensures r == TextField(all, key, size, nullable)
  {
    hide FromValue, ObjectAt, Count, FindItem, StringIn, WordHere, OpensObject;
    var p := UniqueField(text, start, key);
    if p.None? { return None; }
    ghost var it := FindItem(all, key, UNIQUE_KEY);
    WordIsValue(it, rest, "null");
    if nullable {
      var absent := Literal(text, p.value, "null");
      if absent { return Some(""); }
    }
    r := StringHere(text, p.value, size, it, rest, true);
  }

  /** `record_bool` */
  method RecordBool(text: string, start: nat, key: string, ghost all: Items, ghost rest: string) returns (r: Option<bool>)
    requires start <= |text| < SIZE_MAX && ObjectAt(text[start..]) == Some((all, rest))
    ensures r == BoolField(all, key)
  {
    hide FromValue, ObjectAt, Count, FindItem, WordHere, OpensObject;
    var p := UniqueField(text, start, key);
    if p.None? { return None; }
    ghost var it := FindItem(all, key, UNIQUE_KEY);
    WordIsValue(it, rest, "true");
    WordIsValue(it, rest, "false");
    var yes := Literal(text, p.value, "true");
    if yes { return Some(true); }
    var no := Literal(text, p.value, "false");
    if no { return Some(false); }
    r := None;
  }

  // ----- the exit code, the actions and the phase list -----

  /** Nothing, `null`, or a number without fraction and exponent below 2^32. */
  function ExitOf(v: Value): Option<Option<nat>>
    requires WfValue(v)
  {
    if IsWordValue(v, "null") then Some(None)
    else if v.Num? && !v.num.minus && v.num.frac == "" && v.num.exp.NoExponent? then
      DigitsAre(v.num.whole);
      if NatOf(v.num.whole) <= UINT32_MAX then Some(Some(NatOf(v.num.whole))) else None
    else None
  }

  lemma NumberStart(n: Number, t: string)
    requires n.Wf() && Delimited(t) && !n.minus
    ensures var s := NumberText(n, t); var f := FractionText(n.frac, n.exp, t);
            && DigitRun(s) == |n.whole| && s[..|n.whole|] == n.whole && s[|n.whole|..] == f && IsDigit(Head(s))
            && (Delimited(f) <==> n.frac == "" && n.exp.NoExponent?)
  {
    var f := FractionText(n.frac, n.exp, t);
    if n.frac == "" && n.exp.NoExponent? {
      DelimitedHead(t);
    } else {
      assert f[0] == '.' || f[0] == 'e' || f[0] == 'E';
      assert SpaceRun(f) == 0 && f[0..] == f;
    }
    DigitRunOf(n.whole, f);
  }

  lemma DelimitedHead(t: string)
    requires Delimited(t)
    ensures !IsDigit(Head(t))
  {
    if t != "" && !IsSpace(t[0]) { assert SpaceRun(t) == 0 && t[0..] == t; }
  }

  lemma DigitStart(it: Items, rest: string)
    requires WfItems(true, it) && it.Item?
    ensures IsDigit(Head(FromValue(true, it, rest))) <==> it.val.Num? && !it.val.num.minus
  {
    var t := Tail(true, it, rest);
    BareHead(it.val, t);
    if it.val.Num? && !it.val.num.minus {
      assert NumberText(it.val.num, t)[0] == it.val.num.whole[0];
    }
  }

  /** The exit code at its place. */
  method ReadExit(text: string, p: nat, ghost it: Items, ghost rest: string) returns (r: Option<Option<nat>>)
    requires p <= |text| && WfItems(true, it) && it.Item? && text[p..] == FromValue(true, it, rest)
    ensures r == ExitOf(it.val)
  {
    hide Tail, NumberText, FractionText, Delimited, NatOf, DigitRun, WordHere;
    WordIsValue(it, rest, "null");
    var absent := Literal(text, p, "null");
    if absent { return Some(None); }
    AtIsHead(text, p);
    DigitStart(it, rest);
    if !IsDigit(At(text, p)) { return None; }
    TailDelimited(it, rest);
    NumberStart(it.val.num, Tail(true, it, rest));
    var ok, q, value := ReadDecimal(text, p, UINT32_MAX);
    if !ok { return None; }
    assert text[p..][|it.val.num.whole|..] == text[q..];
    ok := Delimiter(text, q);
    r := if ok then Some(Some(value)) else None;
  }

  predicate IsArray(v: Value) {
    v.Node? && !v.obj
  }

  /** Exactly one action, "inspect". */
  predicate OnlyInspect(v: Value)
    requires WfValue(v)
  {
    && IsArray(v) && v.items.Item? && v.items.more.End?
    && assert WfItems(v.obj, v.items); StringIn(v.items.val, 16) == Some("inspect")
  }

  lemma ArrayStart(it: Items, rest: string)
    requires WfItems(true, it) && it.Item? && IsArray(it.val)
    ensures var s, t := FromValue(true, it, rest), Tail(true, it, rest);
            && s != "" && s[0] == '[' && s[1..][SpaceRun(s[1..])..] == FromElement(it.val.items, t)
  {
    ArrayText(it.val, Tail(true, it, rest));
    ElementStart(it.val.items, it.val.gap, Tail(true, it, rest));
  }

  /** The safe actions at their place. */
  method ReadActions(text: string, p0: nat, ghost it: Items, ghost rest: string) returns (ok: bool)
    requires p0 <= |text| && WfItems(true, it) && it.Item? && text[p0..] == FromValue(true, it, rest)
    ensures ok == OnlyInspect(it.val)
  {
    hide Tail, FromElement, SpaceRun, StringIn, Delimited, ScanString, StringAt, FromDelimiter, FromValue;
    ghost var t := Tail(true, it, rest);
    ArrayHead(it, rest);
    AtIsHead(text, p0);
    if At(text, p0) != '[' { return false; }
    ArrayStart(it, rest);
    ghost var items := it.val.items;
    var p := Space(text, p0 + 1);
    AtElement(items, t);
    if items.Item? { ElementText(items, t); StringAtValue(false, items, t, 16); TailDelimiter(false, items, t); ElementDelimiter(items, t); }
    else { NoStringAtEnd(items, t); }
    var action;
    ok, p, action := ReadString(text, p, 16, true);
    if !ok || action != "inspect" { return false; }
    p := Space(text, p);
    AtIsHead(text, p);
    if At(text, p) != ']' { return false; }
    TailDelimited(it, rest);
    ElementEnd(t);
    ok := Delimiter(text, p + 1);
  }

  lemma ElementText(items: Items, t: string)
    requires items.Item?
    ensures FromElement(items, t) == FromValue(false, items, t)
  {}

  lemma NoStringAtEnd(items: Items, t: string)
    requires items.End?
    ensures forall size, keep :: StringAt(FromElement(items, t), size, keep) == Fail
  {
    var s := FromElement(items, t);
    assert SpaceRun(s) == 0 && s[0..] == s;
  }

  lemma ArrayHead(it: Items, rest: string)
    requires WfItems(true, it) && it.Item?
    ensures Head(FromValue(true, it, rest)) == '[' <==> IsArray(it.val)
    ensures Head(FromValue(true, it, rest)) == '{' <==> IsObject(it.val)
  {
    BareHead(it.val, Tail(true, it, rest));
  }

  // ----- the controlled artifacts -----

  /** The object at an item's value. */
  lemma ObjectHere(obj: bool, it: Items, rest: string)
    requires WfItems(obj, it) && it.Item? && IsObject(it.val)
    ensures ObjectAt(FromValue(obj, it, rest)) == Some((it.val.items, Tail(obj, it, rest)))
    ensures WfItems(true, it.val.items)
  {
    hide ParseValue, Bare;
    var v := Node("", it.val.obj, it.val.gap, it.val.items);
    var t := Tail(obj, it, rest);
    var s := FromValue(obj, it, rest);
    BareHead(it.val, t);
    assert Bare(v, t) == Bare(it.val, t) by { SameBare(it.val, t); }
    assert Print(v, t) == s by { assert "" + s == s; }
    TailStops(obj, it, rest);
    ParseValueComplete(v, t);
    if |s| >= 3 { assert s[..3][0] == s[0]; }
    assert BOM[0] == 0xef as char;
    assert !HasBom(s);
  }

  lemma SameBare(v: Value, t: string)
    requires v.Node?
    ensures Bare(Node("", v.obj, v.gap, v.items), t) == Bare(v, t)
  {}

  lemma TailStops(obj: bool, it: Items, rest: string)
    requires WfItems(obj, it) && it.Item?
    ensures Stop(Tail(obj, it, rest))
  {}

  /** The retained input an artifact names: its relative path and its state. */
  function RetainedInput(it: Items, fingerprint: string): Option<(string, string)>
    requires WfItems(true, it)
  {
    var path, relative := TextField(it, "path", PATH, false), TextField(it, "relativePath", 256, false);
    var digest, state := TextField(it, "blake2b256", 65, false), TextField(it, "state", 16, false);
    if path.Some? && relative.Some? && digest == Some(fingerprint) && state.Some? && state.value in ["planned", "incomplete", "retained"]
    then Some((relative.value, state.value)) else None
  }

  datatype Inventory = Inventory(retained: Option<(string, string)>, known: bool)

  /** The artifacts from an element on, after `n` of them. */
  function Artifacts(it: Items, so: Inventory, n: nat, fingerprint: string): Option<Inventory>
    requires WfItems(false, it)
  {
    if it.End? then Some(so)
    else if !IsObject(it.val) || n >= 16 then None
    else
      assert WfValue(it.val);
      assert WfItems(it.val.obj, it.val.items);
      var role := TextField(it.val.items, "role", 32, false);
      if role.None? then None
      else if role.value != "recovery-input" then Artifacts(it.more, so.(known := false), n + 1, fingerprint)
      else if so.retained.Some? || RetainedInput(it.val.items, fingerprint).None? then None
      else Artifacts(it.more, so.(retained := RetainedInput(it.val.items, fingerprint)), n + 1, fingerprint)
  }

  method ReadRetained(text: string, p: nat, fingerprint: string, ghost all: Items, ghost rest: string) returns (r: Option<(string, string)>)
    requires p <= |text| < SIZE_MAX && ObjectAt(text[p..]) == Some((all, rest))
    ensures r == RetainedInput(all, fingerprint)
  {
    hide ObjectAt, TextField;
    var path := RecordString(text, p, "path", PATH, false, all, rest);
    if path.None? { return None; }
    var relative := RecordString(text, p, "relativePath", 256, false, all, rest);
    if relative.None? { return None; }
    var digest := RecordString(text, p, "blake2b256", 65, false, all, rest);
    if digest != Some(fingerprint) { return None; }
    var state := RecordString(text, p, "state", 16, false, all, rest);
    if state.None? || state.value !in ["planned", "incomplete", "retained"] { return None; }
    r := Some((relative.value, state.value));
  }

  /** One artifact. */
  method ReadArtifact(text: string, p: nat, so: Inventory, fingerprint: string, ghost it: Items, ghost rest: string) returns (r: Option<Inventory>)
    requires p <= |text| < SIZE_MAX && WfItems(false, it) && it.Item? && text[p..] == FromValue(false, it, rest)
    ensures r.None? ==> forall n: nat :: Artifacts(it, so, n, fingerprint) == None
    ensures r.Some? ==> IsObject(it.val)
    ensures r.Some? ==> forall n: nat :: n < 16 ==> Artifacts(it, so, n, fingerprint) == Artifacts(it.more, r.value, n + 1, fingerprint)
  {
    hide FromValue, ObjectAt, TextField, RetainedInput, Tail;
    ElementHead(it, rest);
    AtIsHead(text, p);
    if At(text, p) != '{' { return None; }
    ObjectHere(false, it, rest);
    ghost var all, t := it.val.items, Tail(false, it, rest);
    var role := RecordString(text, p, "role", 32, false, all, t);
    if role.None? { return None; }
    if role.value != "recovery-input" { return Some(so.(known := false)); }
    if so.retained.Some? { return None; }
    var retained := ReadRetained(text, p, fingerprint, all, t);
    if retained.None? { return None; }
    r := Some(so.(retained := retained));
  }

  lemma ElementHead(it: Items, rest: string)
    requires WfItems(false, it) && it.Item?
    ensures Head(FromValue(false, it, rest)) == '{' <==> IsObject(it.val)
    ensures Head(FromValue(false, it, rest)) != ']'
  {
    BareHead(it.val, Tail(false, it, rest));
  }

  /** An artifact and the delimiter behind it. */
  method NextArtifact(text: string, p0: nat, so: Inventory, n: nat, fingerprint: string, ghost it: Items, ghost t: string)
    returns (r: Option<Inventory>, p: nat, more: bool)
    requires p0 <= |text| < SIZE_MAX && WfItems(false, it) && it.Item? && text[p0..] == FromElement(it, t)
    ensures p0 <= p <= |text| && (more ==> p0 < p)
    ensures r.None? || n >= 16 ==> Artifacts(it, so, n, fingerprint) == None
    ensures r.Some? && n < 16 ==> Artifacts(it, so, n, fingerprint) == Artifacts(it.more, r.value, n + 1, fingerprint)
    ensures r.Some? ==> text[p..] == FromElement(it.more, t) && more == it.more.Item?
  {
    hide FromElement, FromValue, FromDelimiter, Tail, Artifacts, SpaceRun;
    p, more := p0, false;
    ElementText(it, t);
    if n >= 16 { TooMany(it, so, n, fingerprint); }
    r := ReadArtifact(text, p, so, fingerprint, it, t);
    if r.None? { return; }
    ElementDelimiter(it, t);
    var ok;
    p, ok := SkipValue(text, p, false, it, t, true);
    AtIsHead(text, p);
    more := At(text, p) == ',';
    if more { p := Space(text, p + 1); }
  }

  /** `record_artifacts` */
  method ReadArtifacts(text: string, p0: nat, fingerprint: string, ghost it0: Items, ghost rest: string) returns (r: Option<Inventory>)
    requires p0 <= |text| < SIZE_MAX && WfItems(true, it0) && it0.Item? && IsArray(it0.val) && text[p0..] == FromValue(true, it0, rest)
    ensures WfItems(false, it0.val.items) && r == Artifacts(it0.val.items, Inventory(None, true), 0, fingerprint)
  {
    hide FromElement, FromValue, FromDelimiter, Tail, Artifacts, SpaceRun, Delimited;
    ArrayItems(it0);
    ghost var t := Tail(true, it0, rest);
    ghost var it := it0.val.items;
    AtIsHead(text, p0);
    ArrayStart(it0, rest);
    var p := Space(text, p0 + 1);
    var so, count: nat := Inventory(None, true), 0;
    AtIsHead(text, p);
    AtElement(it, t);
    while At(text, p) != ']'
      invariant p <= |text| && WfItems(false, it) && text[p..] == FromElement(it, t) && count <= 16
      invariant (At(text, p) == ']') == it.End?
      invariant Artifacts(it, so, count, fingerprint) == Artifacts(it0.val.items, Inventory(None, true), 0, fingerprint)
      decreases |text| - p
    {
      var next, q, more := NextArtifact(text, p, so, count, fingerprint, it, t);
      if next.None? || count >= 16 { return None; }
      so, count, p := next.value, count + 1, q;
      it := it.more;
      AtIsHead(text, p);
      AtElement(it, t);
      if !more { break; }
    }
    NoneLeft(so, count, fingerprint);
    TailDelimited(it0, rest);
    ElementEnd(t);
    AtIsHead(text, p);
    var closed := At(text, p) == ']';
    var ok := Delimiter(text, p + 1);
    r := if closed && ok then Some(so) else None;
  }

  lemma ArrayItems(it: Items)
    requires WfItems(true, it) && it.Item? && IsArray(it.val)
    ensures WfItems(false, it.val.items)
  {
    assert WfValue(it.val);
  }

  lemma TooMany(it: Items, so: Inventory, n: nat, fingerprint: string)
    requires WfItems(false, it) && it.Item? && n >= 16
    ensures Artifacts(it, so, n, fingerprint) == None
  {}

  lemma NoneLeft(so: Inventory, n: nat, fingerprint: string)
    ensures Artifacts(End, so, n, fingerprint) == Some(so)
  {}

  // ----- the whole record -----

  /** The fields of the record itself. */
  datatype Root = Root(schema: string, id: string, operation: string, created: string, updated: string, plan: string,
                       status: string, phase: string, source: string, signer: string, validation: string, failedPhase: string,
                       external: bool, retry: bool)

  datatype Package = Package(name: string, arch: string, oldVersion: string, newVersion: string)

  function RootOf(it: Items): Option<Root>
    requires WfItems(true, it)
  {
    var schema, id, operation := TextField(it, "schema", 32, false), TextField(it, "operationId", 33, false), TextField(it, "operation", 16, false);
    var created, updated, plan := TextField(it, "created", 32, false), TextField(it, "updated", 32, false), TextField(it, "planDigest", 65, false);
    var status, phase, source := TextField(it, "status", 16, false), TextField(it, "phase", 32, false), TextField(it, "source", PATH, false);
    var signer, validation := TextField(it, "signer", 65, true), TextField(it, "validation", 48, false);
    var failedPhase := TextField(it, "failedPhase", 32, true);
    var external, retry := BoolField(it, "externalStateMayHaveChanged"), BoolField(it, "retryEligible");
    if schema.Some? && id.Some? && operation.Some? && created.Some? && updated.Some? && plan.Some? && status.Some? && phase.Some?
       && source.Some? && signer.Some? && validation.Some? && failedPhase.Some? && external.Some? && retry.Some?
    then Some(Root(schema.value, id.value, operation.value, created.value, updated.value, plan.value, status.value, phase.value,
                   source.value, signer.value, validation.value, failedPhase.value, external.value, retry.value))
    else None
  }

  function PackageOf(it: Items): Option<Package>
    requires WfItems(true, it)
  {
    var name, arch := TextField(it, "name", 128, false), TextField(it, "arch", 16, false);
    var oldVersion, newVersion := TextField(it, "oldVersion", 64, true), TextField(it, "newVersion", 64, true);
    if name.Some? && arch.Some? && oldVersion.Some? && newVersion.Some?
    then Some(Package(name.value, arch.value, oldVersion.value, newVersion.value)) else None
  }

  /** Path and digest of the input. */
  function InputOf(it: Items): Option<(string, string)>
    requires WfItems(true, it)
  {
    var path, digest := TextField(it, "path", PATH, false), TextField(it, "blake2b256", 65, false);
    if path.Some? && digest.Some? then Some((path.value, digest.value)) else None
  }

  predicate IsHex(s: string, n: nat) {
    |s| == n && forall i :: 0 <= i < n ==> '0' <= s[i] <= '9' || 'a' <= s[i] <= 'f'
  }

  /** `wpm_recovery_filters_valid` */
  predicate Filterable(name: string, arch: string) {
    && name != "" && |name| < 128 && (forall i :: 0 <= i < |name| ==> name[i] >= ' ' && name[i] != 127 as char)
    && KnownArch(arch)
  }

  /** The conditions between the fields. */
  ghost predicate Coherent(root: Root, package: Package, input: (string, string), id: string) {
    && root.schema == "wpm.recovery.v1" && root.id == id && root.validation == "validated-before-approval" && !root.retry
    && IsHex(root.plan, 64) && IsHex(input.1, 64)
    && (root.signer == "" || root.signer == "unsigned" || IsHex(root.signer, 64))
    && Timestamps.IsStamp(root.created) && Timestamps.IsStamp(root.updated) && Strings.Compare(root.created, root.updated) <= 0
    && Filterable(package.name, package.arch)
    && root.operation in ["install", "remove", "upgrade", "self-upgrade"]
    && (package.oldVersion == "" || IsVersion(package.oldVersion))
    && (package.newVersion == "" || IsVersion(package.newVersion))
    && (root.operation == "remove" <==> package.newVersion == "")
    && root.failedPhase == (if root.status == "failed" then root.phase else "")
    && root.status in ["completed", "in-progress", "failed", "pending"]
  }

  datatype RecoveryRecord = RecoveryRecord(root: Root, package: Package, input: (string, string), exit: Option<nat>, inventory: Inventory)

  /** What `record_parse` makes of a document. */
  ghost function RecordOf(d: Document, id: string): Option<RecoveryRecord>
    requires d.Wf()
  {
    if !IsObject(d.root) then None
    else
      assert WfItems(d.root.obj, d.root.items);
      Assembled(d.root.items, id)
  }

  ghost function Assembled(it: Items, id: string): Option<RecoveryRecord>
    requires WfItems(true, it)
  {
    var package, input := ObjectIn(it, "package"), ObjectIn(it, "input");
    if package.None? || input.None? then None
    else
      var root, p, i := RootOf(it), PackageOf(package.value), InputOf(input.value);
      if root.None? || p.None? || i.None? || !Coherent(root.value, p.value, i.value, id) then None
      else
        var lists := Lists(it, i.value.1);
        if lists.None? then None
        else Some(RecoveryRecord(root.value, p.value, i.value, lists.value.0, lists.value.1))
  }

  /** The members of the object that is the only value of a key. */
  function ObjectIn(it: Items, key: string): (r: Option<Items>)
    requires WfItems(true, it)
    ensures r.Some? ==> WfItems(true, r.value)
  {
    var v := ValueOf(it, key);
    if v.Some? && IsObject(v.value) then
      assert WfValue(v.value);
      assert WfItems(v.value.obj, v.value.items);
      Some(v.value.items)
    else None
  }

  method ReadRoot(text: string, ghost it: Items, ghost rest: string) returns (r: Option<Root>)
    requires |text| < SIZE_MAX && ObjectAt(text[0..]) == Some((it, rest))
    ensures r == RootOf(it)
  {
    hide ObjectAt, TextField, BoolField;
    r := None;
    var schema := RecordString(text, 0, "schema", 32, false, it, rest);
    if schema.None? { return; }
    var id := RecordString(text, 0, "operationId", 33, false, it, rest);
    if id.None? { return; }
    var operation := RecordString(text, 0, "operation", 16, false, it, rest);
    if operation.None? { return; }
    var created := RecordString(text, 0, "created", 32, false, it, rest);
    if created.None? { return; }
    var updated := RecordString(text, 0, "updated", 32, false, it, rest);
    if updated.None? { return; }
    var plan := RecordString(text, 0, "planDigest", 65, false, it, rest);
    if plan.None? { return; }
    var status := RecordString(text, 0, "status", 16, false, it, rest);
    if status.None? { return; }
    var phase := RecordString(text, 0, "phase", 32, false, it, rest);
    if phase.None? { return; }
    var source := RecordString(text, 0, "source", PATH, false, it, rest);
    if source.None? { return; }
    var signer := RecordString(text, 0, "signer", 65, true, it, rest);
    if signer.None? { return; }
    var validation := RecordString(text, 0, "validation", 48, false, it, rest);
    if validation.None? { return; }
    var external := RecordBool(text, 0, "externalStateMayHaveChanged", it, rest);
    if external.None? { return; }
    var retry := RecordBool(text, 0, "retryEligible", it, rest);
    if retry.None? { return; }
    var failedPhase := RecordString(text, 0, "failedPhase", 32, true, it, rest);
    if failedPhase.None? { return; }
    r := Some(Root(schema.value, id.value, operation.value, created.value, updated.value, plan.value, status.value, phase.value,
                   source.value, signer.value, validation.value, failedPhase.value, external.value, retry.value));
  }

  method ReadPackage(text: string, p: nat, ghost it: Items, ghost rest: string) returns (r: Option<Package>)
    requires p <= |text| < SIZE_MAX && ObjectAt(text[p..]) == Some((it, rest))
    ensures r == PackageOf(it)
  {
    hide ObjectAt, TextField;
    var name := RecordString(text, p, "name", 128, false, it, rest);
    if name.None? { return None; }
    var arch := RecordString(text, p, "arch", 16, false, it, rest);
    if arch.None? { return None; }
    var oldVersion := RecordString(text, p, "oldVersion", 64, true, it, rest);
    if oldVersion.None? { return None; }
    var newVersion := RecordString(text, p, "newVersion", 64, true, it, rest);
    if newVersion.None? { return None; }
    r := Some(Package(name.value, arch.value, oldVersion.value, newVersion.value));
  }

  method ReadInput(text: string, p: nat, ghost it: Items, ghost rest: string) returns (r: Option<(string, string)>)
    requires p <= |text| < SIZE_MAX && ObjectAt(text[p..]) == Some((it, rest))
    ensures r == InputOf(it)
  {
    hide ObjectAt, TextField;
    var path := RecordString(text, p, "path", PATH, false, it, rest);
    if path.None? { return None; }
    var digest := RecordString(text, p, "blake2b256", 65, false, it, rest);
    if digest.None? { return None; }
    r := Some((path.value, digest.value));
  }

  /** `record_hex` */
  method RecordHex(text: string) returns (ok: bool)
    ensures ok == IsHex(text, 64)
  {
    if |text| != 64 { return false; }
    for i := 0 to 64
      invariant forall k :: 0 <= k < i ==> '0' <= text[k] <= '9' || 'a' <= text[k] <= 'f'
    {
      if !('0' <= text[i] <= '9') && !('a' <= text[i] <= 'f') { return false; }
    }
    ok := true;
  }

  /** The checks between the fields. */
  method CheckCoherent(root: Root, package: Package, input: (string, string), id: string) returns (ok: bool)
    ensures ok <==> Coherent(root, package, input, id)
  {
    hide ParseVersion, KnownArch, Timestamps.IsStamp, Strings.Compare, IsHex;
    if root.schema != "wpm.recovery.v1" || id != root.id || root.validation != "validated-before-approval" || root.retry { return false; }
    ok := RecordHex(root.plan);
    if !ok { return; }
    ok := RecordHex(input.1);
    if !ok { return; }
    var signed := RecordHex(root.signer);
    if root.signer != "" && root.signer != "unsigned" && !signed { return false; }
    ok := Timestamps.RecordTime(root.created);
    if !ok { return; }
    ok := Timestamps.RecordTime(root.updated);
    if !ok || Strings.Compare(root.created, root.updated) > 0 || !Filterable(package.name, package.arch) { return false; }
    if root.operation !in ["install", "remove", "upgrade", "self-upgrade"] { return false; }
    ok := CheckVersion(package.oldVersion);
    if !ok { return; }
    ok := CheckVersion(package.newVersion);
    if !ok { return; }
    if root.operation == "remove" && package.newVersion != "" { return false; }
    if root.operation != "remove" && package.newVersion == "" { return false; }
    if root.status == "failed" && root.failedPhase != root.phase { return false; }
    if root.status != "failed" && root.failedPhase != "" { return false; }
    ok := root.status in ["completed", "in-progress", "failed", "pending"];
  }

  method CheckVersion(version: string) returns (ok: bool)
    ensures ok == (version == "" || IsVersion(version))
  {
    hide ParseVersion;
    if version == "" { return true; }
    var parsed := ReadVersion(version);
    ok := parsed.Some?;
  }

  /** A value of the root and the cursor at it. */
  method Locate(text: string, key: string, ghost it: Items, ghost rest: string) returns (p: Option<nat>)
    requires |text| < SIZE_MAX && ObjectAt(text[0..]) == Some((it, rest))
    ensures p.Some? == ValueOf(it, key).Some?
    ensures p.Some? ==> var f := FindItem(it, key, UNIQUE_KEY);
                        p.value <= |text| && f.Item? && f.val == ValueOf(it, key).value && text[p.value..] == FromValue(true, f, rest)
  {
    hide ObjectAt, FromValue, FindItem, OpensObject;
    p := UniqueField(text, 0, key);
  }

  /** The cursor at the object of the root with this key. */
  method LocateObject(text: string, key: string, ghost it: Items, ghost rest: string) returns (p: Option<nat>, ghost after: string)
    requires |text| < SIZE_MAX && ObjectAt(text[0..]) == Some((it, rest))
    ensures p.Some? == ObjectIn(it, key).Some?
    ensures p.Some? ==> p.value <= |text| && ObjectAt(text[p.value..]) == Some((ObjectIn(it, key).value, after))
  {
    hide ObjectAt, FromValue, FindItem, Count, Tail;
    after := "";
    p := Locate(text, key, it, rest);
    if p.None? { return; }
    ghost var f := FindItem(it, key, UNIQUE_KEY);
    ArrayHead(f, rest);
    AtIsHead(text, p.value);
    if At(text, p.value) != '{' { p := None; return; }
    ObjectHere(true, f, rest);
    after := Tail(true, f, rest);
  }

  /** Whether the phase list is an array or absent. */
  method ReadHistory(text: string, p: nat, ghost it: Items, ghost rest: string) returns (ok: bool)
    requires p <= |text| && WfItems(true, it) && it.Item? && text[p..] == FromValue(true, it, rest)
    ensures ok == (IsArray(it.val) || IsWordValue(it.val, "null"))
  {
    hide FromValue, WordHere;
    ArrayHead(it, rest);
    WordIsValue(it, rest, "null");
    AtIsHead(text, p);
    if At(text, p) == '[' { return true; }
    ok := Literal(text, p, "null");
  }

  /** The lists and the exit code, once the rest is coherent. */
  method ReadLists(text: string, fingerprint: string, ghost it: Items, ghost rest: string)
    returns (code: Option<Option<nat>>, inventory: Option<Inventory>)
    requires |text| < SIZE_MAX && WfItems(true, it) && ObjectAt(text[0..]) == Some((it, rest))
    ensures code.Some? && inventory.Some? <==> Lists(it, fingerprint).Some?
    ensures code.Some? && inventory.Some? ==> Lists(it, fingerprint) == Some((code.value, inventory.value))
  {
    hide ObjectAt, FromValue, FindItem, Count, Artifacts, ExitOf, OnlyInspect;
    code, inventory := None, None;
    var exit := Locate(text, "scriptExitCode", it, rest);
    var actions := Locate(text, "safeActions", it, rest);
    var artifacts := Locate(text, "controlledArtifacts", it, rest);
    var history := Locate(text, "completedPhases", it, rest);
    if exit.None? || actions.None? || artifacts.None? || history.None? { return; }
    var ok := ReadHistory(text, history.value, FindItem(it, "completedPhases", UNIQUE_KEY), rest);
    if !ok { return; }
    ok := ReadActions(text, actions.value, FindItem(it, "safeActions", UNIQUE_KEY), rest);
    if !ok { return; }
    ghost var f := FindItem(it, "controlledArtifacts", UNIQUE_KEY);
    ArrayHead(f, rest);
    AtIsHead(text, artifacts.value);
    if At(text, artifacts.value) != '[' { return; }
    code := ReadExit(text, exit.value, FindItem(it, "scriptExitCode", UNIQUE_KEY), rest);
    if code.None? { return; }
    inventory := ReadArtifacts(text, artifacts.value, fingerprint, f, rest);
  }

  /** The exit code and the artifacts, if the lists are in order. */
  function Lists(it: Items, fingerprint: string): Option<(Option<nat>, Inventory)>
    requires WfItems(true, it)
  {
    var exit, actions := ValueOf(it, "scriptExitCode"), ValueOf(it, "safeActions");
    var artifacts, history := ValueOf(it, "controlledArtifacts"), ValueOf(it, "completedPhases");
    if exit.None? || actions.None? || artifacts.None? || history.None?
       || !OnlyInspect(actions.value) || !(IsArray(history.value) || IsWordValue(history.value, "null")) || !IsArray(artifacts.value)
    then None
    else
      assert WfValue(artifacts.value);
      assert WfItems(artifacts.value.obj, artifacts.value.items);
      var code, inventory := ExitOf(exit.value), Artifacts(artifacts.value.items, Inventory(None, true), 0, fingerprint);
      if code.None? || inventory.None? then None else Some((code.value, inventory.value))
  }

  /** `record_parse`: the record of a valid UTF-8 document, or nothing. */
  method RecordParse(text: string, id: string) returns (r: Option<RecoveryRecord>)
    requires '\0' !in text && |text| < SIZE_MAX
    ensures Parse(text).Ok? ==> Parse(text).value.Wf()
    ensures r == if Parse(text).Ok? && Utf8(text) then RecordOf(Parse(text).value, id) else None
  {
    hide Parse, ObjectAt, Utf8, Coherent, RootOf, PackageOf, InputOf, Lists, SpaceRun, ObjectIn, AfterBom;
    if Parse(text).Ok? { ParseDecidesGrammar(text); RootObject(text); }
    assert text[0..] == text;
    var ok := DocumentValid(text);
    if !ok { return None; }
    ok := Utf8Valid(text);
    if !ok { return None; }
    var found := UniqueField(text, 0, "package");
    ghost var d := Parse(text).value;
    if found.None? { NoPackage(d, id); return None; }
    r := ParseObject(text, id, d.root.items, d.trail);
  }

  lemma NoPackage(d: Document, id: string)
    requires d.Wf() && (IsObject(d.root) ==> WfItems(true, d.root.items) && Count(d.root.items, "package", UNIQUE_KEY) != 1)
    ensures RecordOf(d, id) == None
  {
    hide RootOf, PackageOf, InputOf, Lists;
  }

  method ParseObject(text: string, id: string, ghost it: Items, ghost rest: string) returns (r: Option<RecoveryRecord>)
    requires |text| < SIZE_MAX && WfItems(true, it) && ObjectAt(text[0..]) == Some((it, rest))
    ensures r == Assembled(it, id)
  {
    hide ObjectAt, RootOf, PackageOf, InputOf, Lists, Coherent, ObjectIn;
    r := None;
    var package, afterPackage := LocateObject(text, "package", it, rest);
    if package.None? { return; }
    var input, afterInput := LocateObject(text, "input", it, rest);
    if input.None? { return; }
    var root := ReadRoot(text, it, rest);
    if root.None? { return; }
    var p := ReadPackage(text, package.value, ObjectIn(it, "package").value, afterPackage);
    if p.None? { return; }
    var i := ReadInput(text, input.value, ObjectIn(it, "input").value, afterInput);
    if i.None? { return; }
    var ok := CheckCoherent(root.value, p.value, i.value, id);
    if !ok { return; }
    var code, inventory := ReadLists(text, i.value.1, it, rest);
    if code.None? || inventory.None? { return; }
    r := Some(RecoveryRecord(root.value, p.value, i.value, code.value, inventory.value));
  }
}
