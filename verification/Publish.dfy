/** Publication of `wpm_repo_add_package` and the catalogue text of
    `wpm_repo_index`: both replace part of the package array and keep every other
    byte.  Texts with a hole are written as functions of what follows the hole.  */
module Publish {
  import opened JsonGrammar
  import opened JsonFields
  import opened JsonVersion
  import opened JsonText
  import opened Packages
  import opened Semver
  import opened Catalog

  // ----- printing in front of a text, and then behind it -----

  lemma ExponentFollowed(e: Exponent, a: string, b: string)
    ensures ExponentText(e, a) + b == ExponentText(e, a + b)
  {
    if e.Exponent? {
      var t := e.digits + a;
      Assoc(e.digits, a, b);
      assert SignText(e.sign, t) + b == SignText(e.sign, t + b) by { Assoc(['+'], t, b); Assoc(['-'], t, b); }
      Assoc([if e.upper then 'E' else 'e'], SignText(e.sign, t), b);
    }
  }

  lemma NumberFollowed(n: Number, a: string, b: string)
    ensures NumberText(n, a) + b == NumberText(n, a + b)
  {
    hide ExponentText;
    ExponentFollowed(n.exp, a, b);
    var e := ExponentText(n.exp, a);
    Assoc(n.frac, e, b);
    Assoc(['.'], n.frac + e, b);
    var f := FractionText(n.frac, n.exp, a);
    assert f + b == FractionText(n.frac, n.exp, a + b);
    NumberJoin(n, f, b);
  }

  lemma NumberJoin(n: Number, f: string, b: string)
    ensures var t := n.whole + f; (if n.minus then ['-'] + t else t) + b == if n.minus then ['-'] + (n.whole + (f + b)) else n.whole + (f + b)
  {
    Assoc(n.whole, f, b);
    Assoc(['-'], n.whole + f, b);
  }

  lemma {:induction false} BareFollowed(v: Value, a: string, b: string)
    ensures Bare(v, a) + b == Bare(v, a + b)
    decreases v, 0
  {
    match v
    case Str(_, tok) => Assoc(tok, a, b);
    case Num(_, n) => NumberFollowed(n, a, b);
    case Word(_, w) => Assoc(w, a, b);
    case Node(_, obj, gap, items) =>
      BodyFollowed(obj, items, a, b);
      Assoc([Open(obj)], gap + Body(obj, items, a), b);
      Assoc(gap, Body(obj, items, a), b);
  }

  lemma {:induction false} PrintFollowed(v: Value, a: string, b: string)
    ensures Print(v, a) + b == Print(v, a + b)
    decreases v, 1
  {
    BareFollowed(v, a, b);
    Assoc(v.ws, Bare(v, a), b);
  }

  lemma {:induction false} BodyFollowed(obj: bool, it: Items, a: string, b: string)
    ensures Body(obj, it, a) + b == Body(obj, it, a + b)
    decreases it, 1
  {
    hide Print, Tail;
    if it.End? {
      Assoc([Close(obj)], a, b);
    } else {
      TailFollowed(obj, it, a, b);
      var t := Print(it.val, Tail(obj, it, a));
      PrintFollowed(it.val, Tail(obj, it, a), b);
      if obj { KeyFollowed(it, t, b); }
    }
  }

  lemma {:induction false} TailFollowed(obj: bool, it: Items, a: string, b: string)
    requires it.Item?
    ensures Tail(obj, it, a) + b == Tail(obj, it, a + b)
    decreases it, 0
  {
    if it.more.End? {
      Assoc([Close(obj)], a, b);
      Assoc(it.endws, [Close(obj)] + a, b);
    } else {
      BodyFollowed(obj, it.more, a, b);
      Assoc([','], Body(obj, it.more, a), b);
      Assoc(it.endws, [','] + Body(obj, it.more, a), b);
    }
  }

  /** A member's key and colon in front of its value. */
  function KeyText(it: Items, t: string): string
    requires it.Item?
  {
    it.kws + (it.key + (it.cws + ([':'] + t)))
  }

  lemma KeyFollowed(it: Items, t: string, b: string)
    requires it.Item?
    ensures KeyText(it, t) + b == KeyText(it, t + b)
  {
    Assoc([':'], t, b);
    Assoc(it.cws, [':'] + t, b);
    Assoc(it.key, it.cws + ([':'] + t), b);
    Assoc(it.kws, it.key + (it.cws + ([':'] + t)), b);
  }

  // ----- a document around its package array -----

  predicate Listed(root: Items)
    requires WfItems(true, root)
  {
    PackagesValue(root).Some? && PackagesValue(root).value.Node? && !PackagesValue(root).value.obj
  }

  /** The member list with `hole` standing for all that follows the opening
      bracket of the package array. */
  function Around(root: Items, hole: string): string
    requires WfItems(true, root) && Listed(root)
  {
    if KeyIn(root.key, KEY_SIZE) == "packages" then KeyText(root, root.val.ws + (['['] + hole))
    else KeyText(root, Print(root.val, root.endws + ([','] + Around(root.more, hole))))
  }

  /** The member list with another package array. */
  function WithArray(root: Items, gap: string, items: Items): Items
    requires WfItems(true, root) && Listed(root)
  {
    if KeyIn(root.key, KEY_SIZE) == "packages" then root.(val := root.val.(gap := gap, items := items))
    else root.(more := WithArray(root.more, gap, items))
  }

  lemma {:induction false} AroundFollowed(root: Items, a: string, b: string)
    requires WfItems(true, root) && Listed(root)
    ensures Around(root, a) + b == Around(root, a + b)
  {
    hide KeyText, Print, KeyIn;
    if KeyIn(root.key, KEY_SIZE) == "packages" {
      Assoc(['['], a, b);
      Assoc(root.val.ws, ['['] + a, b);
      KeyFollowed(root, root.val.ws + (['['] + a), b);
    } else {
      var t := Around(root.more, a);
      AroundFollowed(root.more, a, b);
      Assoc([','], t, b);
      Assoc(root.endws, [','] + t, b);
      PrintFollowed(root.val, root.endws + ([','] + t), b);
      KeyFollowed(root, Print(root.val, root.endws + ([','] + t)), b);
    }
  }

  lemma {:induction false} AroundIsBody(root: Items, rest: string)
    requires WfItems(true, root) && Listed(root)
    ensures var it := FindItem(root, "packages", KEY_SIZE);
            Body(true, root, rest) == Around(root, it.val.gap + Body(false, it.val.items, Tail(true, it, rest)))
  {
    hide KeyIn;
    var it := FindItem(root, "packages", KEY_SIZE);
    var t := Tail(true, root, rest);
    assert Body(true, root, rest) == KeyText(root, Print(root.val, t));
    if KeyIn(root.key, KEY_SIZE) != "packages" {
      AroundIsBody(root.more, rest);
      assert t == root.endws + ([','] + Body(true, root.more, rest));
    } else {
      assert it == root && Bare(it.val, t) == ['['] + (it.val.gap + Body(false, it.val.items, t));
    }
  }

  lemma {:induction false} WithArrayWf(root: Items, gap: string, items: Items)
    requires WfItems(true, root) && Listed(root)
    requires AllSpace(gap) && (items.Item? ==> gap == "") && WfItems(false, items)
    ensures WfItems(true, WithArray(root, gap, items))
  {
    hide KeyIn, AllSpace, IsStringToken;
    if KeyIn(root.key, KEY_SIZE) != "packages" {
      WithArrayWf(root.more, gap, items);
    }
  }

  lemma {:induction false} WithArrayFound(root: Items, gap: string, items: Items)
    requires WfItems(true, root) && Listed(root) && WfItems(true, WithArray(root, gap, items))
    ensures var now := WithArray(root, gap, items);
            Listed(now) && PackagesValue(now).value.gap == gap && PackagesValue(now).value.items == items
  {
    hide KeyIn, WfValue;
    var now := WithArray(root, gap, items);
    if KeyIn(root.key, KEY_SIZE) != "packages" {
      assert FindItem(root.more, "packages", KEY_SIZE) == FindItem(root, "packages", KEY_SIZE);
      WithArrayFound(root.more, gap, items);
      assert FindItem(now, "packages", KEY_SIZE) == FindItem(now.more, "packages", KEY_SIZE);
    } else {
      assert FindItem(now, "packages", KEY_SIZE) == now;
    }
  }

  lemma {:induction false} WithArrayCount(root: Items, gap: string, items: Items, key: string)
    requires WfItems(true, root) && Listed(root) && WfItems(true, WithArray(root, gap, items))
    ensures Count(WithArray(root, gap, items), key, KEY_SIZE) == Count(root, key, KEY_SIZE)
  {
    hide KeyIn, WfValue;
    if KeyIn(root.key, KEY_SIZE) != "packages" {
      WithArrayCount(root.more, gap, items, key);
    }
  }

  lemma {:induction false} WithArrayOthers(root: Items, gap: string, items: Items, key: string)
    requires WfItems(true, root) && Listed(root) && WfItems(true, WithArray(root, gap, items)) && key != "packages"
    ensures var a, b := FindItem(WithArray(root, gap, items), key, KEY_SIZE), FindItem(root, key, KEY_SIZE);
            a.Item? == b.Item? && (a.Item? ==> a.val == b.val)
  {
    hide KeyIn, WfValue;
    if KeyIn(root.key, KEY_SIZE) != "packages" {
      WithArrayOthers(root.more, gap, items, key);
    }
  }

  lemma {:induction false} WithArrayText(root: Items, gap: string, items: Items, hole: string, rest: string)
    requires WfItems(true, root) && Listed(root) && WfItems(true, WithArray(root, gap, items)) && Listed(WithArray(root, gap, items))
    ensures var now := WithArray(root, gap, items);
            && Around(now, hole) == Around(root, hole)
            && Tail(true, FindItem(now, "packages", KEY_SIZE), rest) == Tail(true, FindItem(root, "packages", KEY_SIZE), rest)
  {
    hide KeyIn;
    if KeyIn(root.key, KEY_SIZE) != "packages" {
      WithArrayText(root.more, gap, items, hole, rest);
    }
  }

  predicate IsCatalog(d: Document) {
    d.Wf() && IsObject(d.root) && Listed(d.root.items)
  }

  /** The document text with `hole` standing for all that follows the opening
      bracket of the package array. */
  function Shell(d: Document, hole: string): string
    requires IsCatalog(d)
  {
    (if d.bom then BOM else "") + (d.root.ws + (['{'] + Around(d.root.items, hole)))
  }

  function Array(d: Document): Value
    requires IsCatalog(d)
  {
    PackagesValue(d.root.items).value
  }

  function Relisted(d: Document, gap: string, items: Items): Document
    requires IsCatalog(d)
  {
    d.(root := d.root.(items := WithArray(d.root.items, gap, items)))
  }

  lemma ShellFollowed(d: Document, a: string, b: string)
    requires IsCatalog(d)
    ensures Shell(d, a) + b == Shell(d, a + b)
  {
    var t := Around(d.root.items, a);
    AroundFollowed(d.root.items, a, b);
    Assoc(['{'], t, b);
    Assoc(d.root.ws, ['{'] + t, b);
    Assoc(if d.bom then BOM else "", d.root.ws + (['{'] + t), b);
  }

  /** All that follows the opening bracket of the package array. */
  function Interior(d: Document): string
    requires IsCatalog(d)
  {
    Array(d).gap + Body(false, Array(d).items, AfterPackages(d))
  }

  lemma ShellText(d: Document)
    requires IsCatalog(d)
    ensures d.Text() == Shell(d, Interior(d))
  {
    hide Around;
    AroundIsBody(d.root.items, d.trail);
    var b := Body(true, d.root.items, d.trail);
    assert d.root.gap + b == b;
    assert Bare(d.root, d.trail) == ['{'] + b;
    var p := Print(d.root, d.trail);
    assert "" + p == p;
  }

  lemma RelistedText(d: Document, gap: string, items: Items, hole: string)
    requires IsCatalog(d) && IsCatalog(Relisted(d, gap, items))
    ensures var n := Relisted(d, gap, items); Shell(n, hole) == Shell(d, hole) && AfterPackages(n) == AfterPackages(d)
  {
    hide Around, WfItems, FindItem, Tail;
    WithArrayText(d.root.items, gap, items, hole, d.trail);
  }

  /** A catalogue with another package array is read as that array. */
  lemma RelistedFacts(d: Document, gap: string, items: Items)
    requires Accepted(d)
    requires AllSpace(gap) && (items.Item? ==> gap == "") && WfItems(false, items)
    ensures var n := Relisted(d, gap, items);
            && IsCatalog(n) && Array(n).gap == gap && Array(n).items == items
            && CatalogOf(n) == Admit(EntriesOf(items))
  {
    hide Admit, EntriesOf, KeyIn, FindItem, Count, WithArray;
    var root := d.root.items;
    WithArrayWf(root, gap, items);
    WithArrayFound(root, gap, items);
    WithArrayCount(root, gap, items, "packages");
    WithArrayCount(root, gap, items, "version");
    WithArrayOthers(root, gap, items, "version");
    RelistedWf(d, gap, items);
  }

  lemma RelistedWf(d: Document, gap: string, items: Items)
    requires IsCatalog(d) && WfItems(true, WithArray(d.root.items, gap, items))
    ensures Relisted(d, gap, items).Wf() && WithArray(d.root.items, gap, items).Item?
  {}

  predicate Accepted(d: Document) {
    d.Wf() && CatalogOf(d).Some?
  }

  // ----- entries -----

  /** The printed form of an entry in front of `rest`, less its closing brace. */
  function FieldsText(e: Entry, rest: string): string {
    "{\"name\":" + (Quote(e.name) + (",\"version\":" + (Quote(e.version)
    + (",\"arch\":" + (Quote(e.arch) + (",\"url\":" + (Quote(e.url) + rest)))))))
  }

  function EntryText(e: Entry): string {
    FieldsText(e, "}")
  }

  function Member(key: string, value: string, more: Items): Items {
    Item("", Quote(key), "", Str("", Quote(value)), "", more)
  }

  function EntryItems(e: Entry): Items {
    Member("name", e.name, Member("version", e.version, Member("arch", e.arch, Member("url", e.url, End))))
  }

  function EntryValue(ws: string, e: Entry): Value {
    Node(ws, true, "", EntryItems(e))
  }

  /** An entry the strict reader accepts. */
  predicate Sound(e: Entry) {
    && e.priority == 0 && e.order == 0 && IsVersion(e.version) && KnownArch(e.arch)
    && FieldFits(e.name, NAME_SIZE) && FieldFits(e.version, VERSION_SIZE) && FieldFits(e.arch, ARCH_SIZE) && FieldFits(e.url, URL_SIZE)
  }

  predicate FieldFits(s: string, size: nat) {
    s != "" && |s| < size && '\0' !in s
  }

  lemma QuotedToken(t: string)
    ensures IsStringToken(Quote(t)) && Decode(Quote(t)) == t && WfValue(Str("", Quote(t)))
  {
    QuoteDecodes(t);
  }

  lemma MemberRead(key: string, value: string, more: Items, wanted: string, size: nat)
    requires WfItems(true, more) && FieldFits(key, KEY_SIZE)
    ensures var it := Member(key, value, more);
            && WfItems(true, it)
            && Count(it, wanted, KEY_SIZE) == (if key == wanted then 1 else 0) + Count(more, wanted, KEY_SIZE)
            && FindItem(it, wanted, KEY_SIZE) == (if key == wanted then it else FindItem(more, wanted, KEY_SIZE))
            && StringIn(it.val, size) == if FieldFits(value, size) then Some(value) else None
  {
    QuotedToken(key);
    QuotedToken(value);
    hide Decode, IsStringToken, Quote;
  }

  lemma EntryField(e: Entry, wanted: string, size: nat)
    ensures WfItems(true, EntryItems(e))
    ensures var value := if wanted == "name" then e.name else if wanted == "version" then e.version
                         else if wanted == "arch" then e.arch else e.url;
            wanted in ["name", "version", "arch", "url"] && FieldFits(value, size) ==>
              OnlyString(EntryItems(e), wanted, size) == Some(value)
  {
    hide Member, StringIn, FieldFits;
    KeysFit();
    var u := Member("url", e.url, End);
    MemberRead("url", e.url, End, wanted, size);
    var a := Member("arch", e.arch, u);
    MemberRead("arch", e.arch, u, wanted, size);
    var v := Member("version", e.version, a);
    MemberRead("version", e.version, a, wanted, size);
    MemberRead("name", e.name, v, wanted, size);
    MemberVal("name", e.name, v);
    MemberVal("version", e.version, a);
    MemberVal("arch", e.arch, u);
    MemberVal("url", e.url, End);
  }

  lemma KeysFit()
    ensures FieldFits("name", KEY_SIZE) && FieldFits("version", KEY_SIZE) && FieldFits("arch", KEY_SIZE) && FieldFits("url", KEY_SIZE)
  {}

  lemma MemberVal(key: string, value: string, more: Items)
    ensures Member(key, value, more).Item?
  {}

  /** A sound entry, printed, is read back as itself. */
  lemma EntryReadsBack(ws: string, e: Entry)
    requires AllSpace(ws) && Sound(e)
    ensures WfValue(EntryValue(ws, e)) && EntryOf(EntryValue(ws, e)) == Some(e)
  {
    hide OnlyString, EntryItems, ParseVersion, KnownArch;
    EntryField(e, "name", NAME_SIZE);
    EntryField(e, "version", VERSION_SIZE);
    EntryField(e, "arch", ARCH_SIZE);
    EntryField(e, "url", URL_SIZE);
  }

  lemma QuotePlain(t: string, n: nat)
    requires n == |t| && forall i :: 0 <= i < n ==> t[i] >= ' ' && t[i] != '"' && t[i] != '\\'
    ensures forall rest :: EscapeText(t, rest) == t + rest
    decreases n
  {
    forall rest ensures EscapeText(t, rest) == t + rest {
      if t == "" {
        assert t + rest == rest;
      } else {
        QuotePlain(t[1..], n - 1);
        Cons(t);
        Assoc([t[0]], t[1..], rest);
      }
    }
  }

  lemma KeyToken(before: string, key: string, both: string, t: string)
    requires forall i :: 0 <= i < |key| ==> key[i] >= ' ' && key[i] != '"' && key[i] != '\\'
    requires before + ("\"" + (key + "\":")) == both
    ensures before + (Quote(key) + (":" + t)) == both + t
  {
    QuotePlain(key, |key|);
    assert Quote(key) == "\"" + (key + "\"");
    TokenJoin(before, key, t);
  }

  lemma TokenJoin(before: string, key: string, t: string)
    ensures before + (("\"" + (key + "\"")) + (":" + t)) == (before + ("\"" + (key + "\":"))) + t
  {
    var q := "\"" + (key + "\"");
    assert q + ":" == "\"" + (key + "\":");
    Assoc(q, ":", t);
    Assoc(before, q + ":", t);
  }

  lemma MemberKey(key: string, value: string, more: Items, p: string)
    ensures KeyText(Member(key, value, more), p) == Quote(key) + (":" + p)
  {
    hide Quote;
    var c := "" + ([':'] + p);
    assert c == ":" + p;
    var k := Quote(key) + c;
    assert "" + k == k;
  }

  lemma StringPrints(value: string, t: string)
    ensures Print(Str("", Quote(value)), "" + t) == Quote(value) + t
  {
    hide Quote;
    assert "" + t == t;
    var s := Quote(value) + t;
    assert "" + s == s;
  }

  lemma MemberPrints(key: string, value: string, more: Items, rest: string)
    ensures var t := if more.End? then "}" + rest else "," + Body(true, more, rest);
            Body(true, Member(key, value, more), rest) == Quote(key) + (":" + (Quote(value) + t))
  {
    hide Quote, Print;
    var it := Member(key, value, more);
    var t := if more.End? then "}" + rest else "," + Body(true, more, rest);
    StringPrints(value, t);
    MemberKey(key, value, more, Quote(value) + t);
    assert Body(true, it, rest) == KeyText(it, Print(it.val, "" + t));
  }

  /** The printed entry is the text both publishers write. */
  lemma EntryPrints(ws: string, e: Entry, rest: string)
    ensures Print(EntryValue(ws, e), rest) == ws + (EntryText(e) + rest)
  {
    hide Quote, Member, Body;
    var u := Member("url", e.url, End);
    MemberPrints("url", e.url, End, rest);
    var a := Member("arch", e.arch, u);
    MemberPrints("arch", e.arch, u, rest);
    var v := Member("version", e.version, a);
    MemberPrints("version", e.version, a, rest);
    MemberPrints("name", e.name, v, rest);
    MemberVal("version", e.version, a);
    MemberVal("arch", e.arch, u);
    MemberVal("url", e.url, End);
    EntryJoin(e, "}" + rest);
    FieldsFollowed(e, "}", rest);
    var b := Body(true, EntryItems(e), rest);
    assert "" + b == b;
  }

  lemma EntryJoin(e: Entry, t: string)
    ensures FieldsText(e, t) ==
            "{" + (Quote("name") + (":" + (Quote(e.name)
            + ("," + (Quote("version") + (":" + (Quote(e.version)
            + ("," + (Quote("arch") + (":" + (Quote(e.arch)
            + ("," + (Quote("url") + (":" + (Quote(e.url) + t)))))))))))))))
  {
    hide Quote;
    var u := Quote(e.url) + t;
    KeyToken(",", "url", ",\"url\":", u);
    var a := Quote(e.arch) + (",\"url\":" + u);
    KeyToken(",", "arch", ",\"arch\":", a);
    var v := Quote(e.version) + (",\"arch\":" + a);
    KeyToken(",", "version", ",\"version\":", v);
    var n := Quote(e.name) + (",\"version\":" + v);
    KeyToken("{", "name", "{\"name\":", n);
  }

  lemma FieldsFollowed(e: Entry, a: string, b: string)
    ensures FieldsText(e, a) + b == FieldsText(e, a + b)
  {
    hide Quote;
    var u := Quote(e.url) + a;
    Assoc(Quote(e.url), a, b);
    Assoc(",\"url\":", u, b);
    var r := Quote(e.arch) + (",\"url\":" + u);
    Assoc(Quote(e.arch), ",\"url\":" + u, b);
    Assoc(",\"arch\":", r, b);
    var v := Quote(e.version) + (",\"arch\":" + r);
    Assoc(Quote(e.version), ",\"arch\":" + r, b);
    Assoc(",\"version\":", v, b);
    Assoc(Quote(e.name), ",\"version\":" + v, b);
    Assoc("{\"name\":", Quote(e.name) + (",\"version\":" + v), b);
  }

  // ----- array elements -----

  /** The elements with `rest` in place of the closing bracket. */
  function Elements(it: Items, rest: string): string {
    if it.End? then rest
    else Print(it.val, it.endws + (if it.more.End? then rest else [','] + Elements(it.more, rest)))
  }

  function Append(it: Items, v: Value): Items {
    if it.End? then Item("", "", "", v, "", End) else it.(more := Append(it.more, v))
  }

  lemma {:induction false} BodyElements(it: Items, rest: string)
    ensures Body(false, it, rest) == Elements(it, [']'] + rest)
  {
    if it.Item? { BodyElements(it.more, rest); }
  }

  lemma {:induction false} ElementsFollowed(it: Items, a: string, b: string)
    ensures Elements(it, a) + b == Elements(it, a + b)
  {
    hide Print;
    if it.Item? {
      ElementsFollowed(it.more, a, b);
      Assoc([','], Elements(it.more, a), b);
      var t := if it.more.End? then a else [','] + Elements(it.more, a);
      Assoc(it.endws, t, b);
      PrintFollowed(it.val, it.endws + t, b);
    }
  }

  lemma {:induction false} AppendPrints(it: Items, v: Value, rest: string)
    ensures Elements(Append(it, v), rest) == Elements(it, if it.End? then Print(v, rest) else [','] + Print(v, rest))
  {
    hide Print;
    if it.Item? { AppendPrints(it.more, v, rest); } else { assert "" + rest == rest; }
  }

  lemma {:induction false} AppendRead(it: Items, v: Value, e: Entry)
    requires WfItems(false, it) && WfValue(v) && EntryOf(v) == Some(e)
    ensures WfItems(false, Append(it, v))
    ensures EntriesOf(Append(it, v)) == if EntriesOf(it).None? then None else Some(EntriesOf(it).value + [e])
  {
    hide EntryOf, WfValue;
    if it.Item? {
      AppendRead(it.more, v, e);
      if EntryOf(it.val).Some? && EntriesOf(it.more).Some? {
        var x, es := EntryOf(it.val).value, EntriesOf(it.more).value;
        assert [x] + (es + [e]) == ([x] + es) + [e];
      }
    } else {
      assert [e] + [] == [] + [e];
    }
  }

  // ----- the text of a catalogue with a hole behind its last element -----

  /** The text with `hole` standing for all from the closing bracket on. */
  function Frame(d: Document, hole: string): string
    requires IsCatalog(d)
  {
    Shell(d, Array(d).gap + Elements(Array(d).items, hole))
  }

  lemma FrameFollowed(d: Document, a: string, b: string)
    requires IsCatalog(d)
    ensures Frame(d, a) + b == Frame(d, a + b)
  {
    hide Shell, Elements;
    ElementsFollowed(Array(d).items, a, b);
    Assoc(Array(d).gap, Elements(Array(d).items, a), b);
    ShellFollowed(d, Array(d).gap + Elements(Array(d).items, a), b);
  }

  lemma FrameText(d: Document)
    requires IsCatalog(d)
    ensures d.Text() == Frame(d, [']'] + AfterPackages(d))
  {
    hide Shell, Elements;
    ShellText(d);
    BodyElements(Array(d).items, AfterPackages(d));
  }

  /** The catalogue with one more entry. */
  function Added(d: Document, e: Entry): Document
    requires IsCatalog(d)
  {
    var a := Array(d);
    Relisted(d, "", Append(a.items, EntryValue(if a.items.End? then a.gap else "", e)))
  }

  function Insertion(first: bool, e: Entry): string {
    if first then EntryText(e) else "," + EntryText(e)
  }

  lemma AddedInterior(a: Value, e: Entry, k: string)
    requires a.Node? && (a.items.Item? ==> a.gap == "")
    ensures var ws := if a.items.End? then a.gap else "";
            "" + Elements(Append(a.items, EntryValue(ws, e)), k) == a.gap + Elements(a.items, Insertion(a.items.End?, e) + k)
  {
    hide EntryValue, EntryText, Print, Append;
    var ws := if a.items.End? then a.gap else "";
    var t := EntryText(e) + k;
    AppendPrints(a.items, EntryValue(ws, e), k);
    EntryPrints(ws, e, k);
    var x := Elements(Append(a.items, EntryValue(ws, e)), k);
    assert "" + x == x && "" + t == t;
    Assoc(",", EntryText(e), k);
    var y := Elements(a.items, Insertion(false, e) + k);
    assert "" + y == y;
  }

  /** The added entry's text stands in front of the closing bracket. */
  lemma AddedText(d: Document, e: Entry)
    requires IsCatalog(d) && IsCatalog(Added(d, e)) && WfValue(Array(d))
    ensures var k := [']'] + AfterPackages(d); Added(d, e).Text() == Frame(d, Insertion(Array(d).items.End?, e) + k)
  {
    hide Shell, Elements, AfterPackages, EntryValue, EntryText, Print, Insertion;
    var a, n, k := Array(d), Added(d, e), [']'] + AfterPackages(d);
    var ws := if a.items.End? then a.gap else "";
    var items := Append(a.items, EntryValue(ws, e));
    FrameText(n);
    WithArrayFound(d.root.items, "", items);
    RelistedText(d, "", items, "" + Elements(items, k));
    AddedInterior(a, e, k);
  }

  /** The catalogue with the entry is a tree the strict reader maps to the
      entries followed by the new one. */
  lemma AddedReads(d: Document, e: Entry)
    requires Accepted(d) && Sound(e) && |CatalogOf(d).value| < MAX_PACKAGES && !Duplicate(CatalogOf(d).value, e)
    ensures IsCatalog(Added(d, e)) && CatalogOf(Added(d, e)) == Some(CatalogOf(d).value + [e])
    ensures AfterPackages(Added(d, e)) == AfterPackages(d)
  {
    hide Sound, EntryOf, EntryValue, Duplicate, Around, WithArray, DistinctEntries, FindItem, Count;
    var a := Array(d);
    var ws := if a.items.End? then a.gap else "";
    EntryReadsBack(ws, e);
    AppendRead(a.items, EntryValue(ws, e), e);
    RelistedFacts(d, "", Append(a.items, EntryValue(ws, e)));
    RelistedText(d, "", Append(a.items, EntryValue(ws, e)), "");
    DistinctPrefix(CatalogOf(d).value, e, []);
  }

  lemma SuffixOf(s: string, front: string, k: string, end: nat)
    requires s == front + k && end <= |s| && s[end..] == k
    ensures s[..end] == front
  {}

  lemma {:induction false} QuoteHasNoNul(t: string)
    requires '\0' !in t
    ensures '\0' !in Quote(t)
  {
    forall i | 0 <= i < |t| ensures '\0' !in EscapeByte(t[i]) { NoNulByte(t[i]); }
    NoNulEscaped(t);
  }

  lemma NoNulByte(c: char)
    requires c != '\0'
    ensures '\0' !in EscapeByte(c)
  {}

  lemma {:induction false} NoNulEscaped(t: string)
    requires '\0' !in t
    ensures '\0' !in EscapeText(t, "\"")
  {
    hide EscapeByte;
    if t != "" {
      NoNulByte(t[0]);
      NoNulEscaped(t[1..]);
    }
  }

  lemma EntryHasNoNul(e: Entry)
    requires Sound(e)
    ensures '\0' !in EntryText(e)
  {
    hide Quote, ParseVersion, KnownArch;
    QuoteHasNoNul(e.name);
    QuoteHasNoNul(e.version);
    QuoteHasNoNul(e.arch);
    QuoteHasNoNul(e.url);
  }

  /** Splicing a printed entry in front of the closing bracket of an accepted
      catalogue gives an accepted catalogue that lists it last. */
  lemma SpliceReadsBack(text: string, end: nat, e: Entry)
    requires CatalogIn(text).Some? && Parse(text).value.Wf()
    requires end <= |text| && text[end..] == [']'] + AfterPackages(Parse(text).value)
    requires Sound(e) && |CatalogIn(text).value| < MAX_PACKAGES && !Duplicate(CatalogIn(text).value, e)
    ensures var ins := Insertion(CatalogIn(text).value == [], e);
            |text| + |ins| <= LIMIT ==> CatalogIn(text[..end] + ins + text[end..]) == Some(CatalogIn(text).value + [e])
  {
    hide Sound, Duplicate, Frame, Array, Parse, EntryText, EntriesOf, AfterPackages;
    var d, k := Parse(text).value, text[end..];
    var first := CatalogIn(text).value == [];
    var ins := Insertion(first, e);
    ParseDecidesGrammar(text);
    CatalogIsArray(d);
    AddedReads(d, e);
    AddedText(d, e);
    FrameText(d);
    FrameFollowed(d, "", k);
    FrameFollowed(d, "", ins + k);
    assert "" + k == k && "" + (ins + k) == ins + k;
    SuffixOf(text, Frame(d, ""), k, end);
    Assoc(text[..end], ins, k);
    var updated := text[..end] + ins + k;
    assert updated == Added(d, e).Text();
    ParseIsPrintInverse(updated, Added(d, e));
    EntryHasNoNul(e);
    SpliceHasNoNul(text, end, ins);
  }

  lemma SpliceHasNoNul(text: string, end: nat, ins: string)
    requires end <= |text| && '\0' !in text && '\0' !in ins
    ensures '\0' !in text[..end] + ins + text[end..]
  {}

  lemma CatalogIsArray(d: Document)
    requires d.Wf() && CatalogOf(d).Some?
    ensures IsCatalog(d) && WfValue(Array(d)) && (Array(d).items.End? <==> CatalogOf(d).value == [])
  {
    hide EntryOf, DistinctEntries, Count, FindItem;
  }

  // ----- wpm_repo_add_package: the new text -----

  /** What archive inspection reports. */
  datatype Info = Info(name: string, version: string, arch: string) {
    /** The fields of `wpm_package_info` are C strings in fixed buffers. */
    predicate Fits() {
      && |name| < NAME_SIZE && |version| < VERSION_SIZE && |arch| < ARCH_SIZE
      && '\0' !in name && '\0' !in version && '\0' !in arch
    }
  }

  predicate IsDigest(digest: string) {
    |digest| == 64 && forall i :: 0 <= i < 64 ==> '0' <= digest[i] <= '9' || 'a' <= digest[i] <= 'f'
  }

  /** The archive's place in the repository, named by its content. */
  function ItemOf(digest: string): string {
    "packages/" + (digest + ".zip")
  }

  function NewEntry(info: Info, digest: string): Entry {
    Entry(info.name, info.version, info.arch, ItemOf(digest), 0, 0)
  }

  /** When a package can be added to a catalogue. */
  predicate Addable(text: string, info: Info, digest: string) {
    var c, e := CatalogIn(text), NewEntry(info, digest);
    && c.Some? && |c.value| < MAX_PACKAGES && info.name != "" && KnownArch(info.arch) && IsVersion(info.version)
    && !Duplicate(c.value, e) && |text| + |Insertion(c.value == [], e)| <= LIMIT
  }

  lemma ItemIsPlain(digest: string)
    requires IsDigest(digest)
    ensures Quote(ItemOf(digest)) == "\"" + (ItemOf(digest) + "\"")
    ensures FieldFits(ItemOf(digest), URL_SIZE) && |ItemOf(digest)| == 77
  {
    QuotePlain(ItemOf(digest), |ItemOf(digest)|);
  }

  lemma VersionNotEmpty(s: string)
    requires IsVersion(s)
    ensures s != ""
  {
    assert !IsDigit(Head(""));
  }

  lemma ArchNotEmpty(s: string)
    requires KnownArch(s)
    ensures s != ""
  {}

  /** The fixed buffers always have room for the printed entry. */
  lemma EntryRoom(info: Info, digest: string)
    requires info.Fits() && IsDigest(digest)
    ensures AuthorFits(info.name, 800) && AuthorFits(info.version, 400) && AuthorFits(info.arch, 120)
    ensures |Insertion(false, NewEntry(info, digest))| < 1600
  {
    ShortFits(info.name, 800);
    ShortFits(info.version, 400);
    ShortFits(info.arch, 120);
    ItemIsPlain(digest);
    hide Quote, ItemOf;
  }

  lemma NewEntrySound(info: Info, digest: string)
    requires info.Fits() && IsDigest(digest) && info.name != "" && KnownArch(info.arch) && IsVersion(info.version)
    ensures Sound(NewEntry(info, digest))
  {
    hide ParseVersion, KnownArch, ItemOf;
    ItemIsPlain(digest);
    VersionNotEmpty(info.version);
    ArchNotEmpty(info.arch);
  }

  /** The tree of an accepted catalogue. */
  function TreeOf(text: string): (d: Document)
    requires CatalogIn(text).Some?
    ensures Accepted(d) && IsCatalog(d) && CatalogOf(d) == CatalogIn(text)
    ensures Parse(text) == Ok(d, "") && d.Text() == text
  {
    ParseDecidesGrammar(text);
    CatalogIsArray(Parse(text).value);
    Parse(text).value
  }

  /** `now` is the catalogue with the entry put right before the bracket at
      `end` that closes its array, and every other byte kept. */
  predicate SplicedAt(text: string, end: nat, now: string, e: Entry)
    requires CatalogIn(text).Some? && end <= |text|
  {
    && text[end..] == [']'] + AfterPackages(TreeOf(text))
    && now == text[..end] + Insertion(CatalogIn(text).value == [], e) + text[end..]
  }

  ghost predicate Spliced(text: string, now: string, e: Entry)
    requires CatalogIn(text).Some?
  {
    exists end: nat :: end <= |text| && SplicedAt(text, end, now, e)
  }

  /** The text part of `wpm_repo_add_package`: it succeeds exactly when the
      package can be added, keeps every byte of the old catalogue, and the new
      catalogue reads back as the old entries followed by the new one. */
  method AddToCatalog(text: string, info: Info, digest: string) returns (updated: Option<string>, end: nat)
    requires info.Fits() && IsDigest(digest)
    ensures updated.Some? == Addable(text, info, digest)
    ensures updated.Some? ==>
              && end <= |text| && SplicedAt(text, end, updated.value, NewEntry(info, digest))
              && CatalogIn(updated.value) == Some(CatalogIn(text).value + [NewEntry(info, digest)])
  {
    hide CatalogIn, ParseVersion, KnownArch, AuthorFits, EntryText, Quote, AfterPackages, Parse, ItemOf, Duplicate, Info.Fits;
    updated := None;
    var entries: Option<seq<Entry>>;
    entries, end := ReadCatalog(text);
    if entries.None? || |entries.value| == MAX_PACKAGES { return; }
    if info.name == "" || !KnownArch(info.arch) { return; }
    var version := ReadVersion(info.version);
    if version.None? { return; }
    var duplicate := IsDuplicate(entries.value, NewEntry(info, digest));
    if duplicate { return; }
    var entry := FormatEntry(entries.value != [], info, digest);
    if |text| + |entry| > LIMIT { return; }
    NewEntrySound(info, digest);
    CatalogSize(text);
    SpliceReadsBack(text, end, NewEntry(info, digest));
    updated := Some(text[..end] + entry + text[end..]);
  }

  lemma CatalogSize(text: string)
    requires CatalogIn(text).Some?
    ensures |CatalogIn(text).value| <= MAX_PACKAGES && DistinctEntries(CatalogIn(text).value)
  {
    hide Parse, Count, FindItem, EntriesOf, DeclaresOne;
  }

  /** The printed entry; its buffers always suffice (EntryRoom). */
  method FormatEntry(comma: bool, info: Info, digest: string) returns (entry: string)
    requires info.Fits() && IsDigest(digest)
    ensures entry == Insertion(!comma, NewEntry(info, digest))
  {
    hide Quote, ItemOf, AuthorFits, Info.Fits;
    EntryRoom(info, digest);
    ItemIsPlain(digest);
    var name := AuthorString(info.name, 800);
    var version := AuthorString(info.version, 400);
    var arch := AuthorString(info.arch, 120);
    var item := ItemOf(digest);
    entry := "{\"name\":" + (name.value + (",\"version\":" + (version.value + (",\"arch\":" + (arch.value
             + (",\"url\":" + (("\"" + (item + "\"")) + "}")))))));
    if comma { entry := "," + entry; }
  }
}
