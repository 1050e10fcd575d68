/** Delimiter scanning and member lookup of wpm/json_input.c.  These cursors do
    not check grammar; they are correct on texts the checker accepted.  */
module JsonFields {
  import opened JsonGrammar
  import opened JsonChecker

  datatype Option<+T> = None | Some(value: T)

  // ----- wpm_json_value_end -----

  /** What `wpm_json_value_end` skips, and its result. */
  function Skim(s: string, depth: nat, quote: bool): (string, bool)
    decreases |s|
  {
    if s == "" then (s, depth == 0 && !quote)
    else if quote then
      if s[0] == '\\' && |s| > 1 then Skim(s[1..][1..], depth, true) else Skim(s[1..], depth, s[0] != '"')
    else if s[0] == '"' then Skim(s[1..], depth, true)
    else if s[0] == '{' || s[0] == '[' then Skim(s[1..], depth + 1, false)
    else if s[0] == '}' || s[0] == ']' then if depth == 0 then (s, true) else Skim(s[1..], depth - 1, false)
    else if s[0] == ',' && depth == 0 then (s, true)
    else Skim(s[1..], depth, false)
  }

  lemma SkimAt(text: string, p: nat, depth: nat, quote: bool)
    requires p < |text|
    ensures var s := text[p..]; var t := text[p + 1..];
            && (quote && text[p] == '\\' && p + 1 < |text| ==> Skim(s, depth, true) == Skim(text[p + 2..], depth, true))
            && (quote && !(text[p] == '\\' && p + 1 < |text|) ==> Skim(s, depth, true) == Skim(t, depth, text[p] != '"'))
            && (!quote && text[p] == '"' ==> Skim(s, depth, false) == Skim(t, depth, true))
            && (!quote && (text[p] == '{' || text[p] == '[') ==> Skim(s, depth, false) == Skim(t, depth + 1, false))
            && (!quote && (text[p] == '}' || text[p] == ']') ==>
                  Skim(s, depth, false) == if depth == 0 then (s, true) else Skim(t, depth - 1, false))
            && (!quote && text[p] == ',' ==> Skim(s, depth, false) == if depth == 0 then (s, true) else Skim(t, depth, false))
            && (!quote && Plain(text[p]) ==> Skim(s, depth, false) == Skim(t, depth, false))
  {
    var s := text[p..];
    assert s[1..] == text[p + 1..];
    if p + 1 < |text| { assert s[1..][1..] == text[p + 2..]; }
  }

  lemma SkimEnd(text: string, depth: nat, quote: bool)
    ensures Skim(text[|text|..], depth, quote) == (text[|text|..], depth == 0 && !quote)
  {
    assert text[|text|..] == "";
  }

  method ValueEnd(text: string, p0: nat) returns (p: nat, ok: bool)
    requires p0 <= |text|
    ensures p0 <= p <= |text|
    ensures (text[p..], ok) == Skim(text[p0..][SpaceRun(text[p0..])..], 0, false)
  {
    hide Skim, SpaceRun;
    p := Space(text, p0);
    var depth: nat, quote := 0, false;
    ghost var all := Skim(text[p..], 0, false);
    while p < |text|
      invariant p0 <= p <= |text|
      invariant all == Skim(text[p..], depth, quote)
    {
      SkimAt(text, p, depth, quote);
      if quote {
        if text[p] == '\\' && p + 1 < |text| {
          p := p + 2;
        } else {
          if text[p] == '"' { quote := false; }
          p := p + 1;
        }
        continue;
      }
      if text[p] == '"' {
        quote := true;
      } else if text[p] == '{' || text[p] == '[' {
        depth := depth + 1;
      } else if text[p] == '}' || text[p] == ']' {
        if depth == 0 { return p, true; }
        depth := depth - 1;
      } else if text[p] == ',' && depth == 0 {
        return p, true;
      }
      p := p + 1;
    }
    SkimEnd(text, depth, quote);
    ok := depth == 0 && !quote;
  }

  /** A byte that is neither a quotation mark nor structural. */
  predicate Plain(c: char) {
    c != '"' && c != '{' && c != '[' && c != '}' && c != ']' && c != ','
  }

  predicate AllPlain(s: string) {
    s == "" || (Plain(s[0]) && AllPlain(s[1..]))
  }

  lemma {:induction false} PlainRuns(s: string)
    ensures AllSpace(s) || AllDigits(s) ==> AllPlain(s)
  {
    if s != "" { PlainRuns(s[1..]); }
  }

  lemma WordPlain(w: string)
    requires IsWord(w)
    ensures AllPlain(w)
  {
    assert w[1..][1..] == w[2..] && w[2..][1..] == w[3..] && w[3..][1..] == w[4..];
    if |w| == 5 { assert w[4..][1..] == "" && AllPlain(w[4..]); }
    assert AllPlain(w[2..]);
  }

  lemma {:induction false} SkimPlain(w: string, s: string, d: nat)
    requires AllPlain(w)
    ensures Skim(w + s, d, false) == Skim(s, d, false)
  {
    if w == "" {
      assert w + s == s;
    } else {
      assert (w + s)[1..] == w[1..] + s;
      SkimPlain(w[1..], s, d);
    }
  }

  lemma SkimHex(s: string, d: nat)
    requires Hex4(s) >= 0
    ensures Skim(s, d, true) == Skim(s[4..], d, true)
  {
    assert s[1..][1..] == s[2..] && s[2..][1..] == s[3..] && s[3..][1..] == s[4..];
    assert Skim(s, d, true) == Skim(s[1..], d, true);
    assert Skim(s[1..], d, true) == Skim(s[2..], d, true);
    assert Skim(s[2..], d, true) == Skim(s[3..], d, true);
  }

  lemma SkimChar(s: string, d: nat)
    requires ScanChar(s).Ok?
    ensures Skim(s, d, true) == Skim(ScanChar(s).rest, d, true)
  {
    hide Hex4, Utf8Bytes;
    if s[0] == '\\' {
      assert s[1..][1..] == s[2..];
      if s[1] == 'u' {
        SkimHex(s[2..], d);
        assert s[2..][4..] == s[6..];
        if IsHigh(Hex4(s[2..])) {
          assert s[6..][1..][1..] == s[8..];
          SkimHex(s[8..], d);
          assert s[8..][4..] == s[12..];
        }
      }
    }
  }

  lemma {:induction false} SkimString(s: string, d: nat)
    requires ScanBody(s).Ok?
    ensures Skim(s, d, true) == Skim(ScanBody(s).rest, d, false)
  {
    hide ScanChar;
    if s[0] != '"' {
      SkimChar(s, d);
      ScanCharSuffix(s);
      SkimString(ScanChar(s).rest, d);
    }
  }

  lemma SkimToken(tok: string, rest: string, d: nat)
    requires IsStringToken(tok)
    ensures Skim(tok + rest, d, false) == Skim(rest, d, false)
  {
    StringTokenLocal(tok, rest);
    hide ScanBody;
    SkimString((tok + rest)[1..], d);
  }

  lemma SkimNumber(n: Number, rest: string, d: nat)
    requires n.Wf()
    ensures Skim(NumberText(n, rest), d, false) == Skim(rest, d, false)
  {
    var e := ExponentText(n.exp, rest);
    if n.exp.Exponent? {
      PlainRuns(n.exp.digits);
      SkimPlain(n.exp.digits, rest, d);
    }
    assert Skim(e, d, false) == Skim(rest, d, false);
    PlainRuns(n.frac);
    SkimPlain(n.frac, e, d);
    var f := FractionText(n.frac, n.exp, rest);
    PlainRuns(n.whole);
    SkimPlain(n.whole, f, d);
  }

  /** Scanning passes over a whole value at any depth. */
  lemma {:induction false} SkimValue(v: Value, rest: string, d: nat)
    requires WfValue(v)
    ensures Skim(Print(v, rest), d, false) == Skim(Bare(v, rest), d, false) == Skim(rest, d, false)
    decreases v, 0
  {
    PlainRuns(v.ws);
    SkimPlain(v.ws, Bare(v, rest), d);
    match v
    case Str(_, tok) => SkimToken(tok, rest, d);
    case Num(_, n) => SkimNumber(n, rest, d);
    case Word(_, w) => WordPlain(w); SkimPlain(w, rest, d);
    case Node(_, obj, gap, items) =>
      PlainRuns(gap);
      SkimPlain(gap, Body(obj, items, rest), d + 1);
      SkimItems(obj, items, rest, d);
  }

  lemma SkimKey(it: Items, c: string, d: nat)
    requires it.Item? && WfItems(true, it)
    ensures Skim(it.kws + (it.key + (it.cws + c)), d, false) == Skim(c, d, false)
  {
    PlainRuns(it.kws);
    PlainRuns(it.cws);
    SkimPlain(it.kws, it.key + (it.cws + c), d);
    SkimToken(it.key, it.cws + c, d);
    SkimPlain(it.cws, c, d);
  }

  lemma SkimPunctuation(obj: bool, s: string, d: nat)
    ensures Skim([Close(obj)] + s, d + 1, false) == Skim(s, d, false)
    ensures Skim([','] + s, d + 1, false) == Skim(s, d + 1, false)
    ensures Skim([':'] + s, d + 1, false) == Skim(s, d + 1, false)
  {}

  lemma {:induction false} SkimItems(obj: bool, it: Items, rest: string, d: nat)
    requires WfItems(obj, it)
    ensures Skim(Body(obj, it, rest), d + 1, false) == Skim(rest, d, false)
    decreases it, 1
  {
    hide Skim;
    if it.End? {
      SkimPunctuation(obj, rest, d);
    } else {
      SkimTail(obj, it, rest, d);
      var s := Print(it.val, Tail(obj, it, rest));
      SkimValue(it.val, Tail(obj, it, rest), d + 1);
      if obj {
        SkimPunctuation(obj, s, d);
        SkimKey(it, [':'] + s, d + 1);
      }
    }
  }

  lemma {:induction false} SkimTail(obj: bool, it: Items, rest: string, d: nat)
    requires it.Item? && WfItems(obj, it)
    ensures Skim(Tail(obj, it, rest), d + 1, false) == Skim(rest, d, false)
    decreases it, 0
  {
    hide Skim;
    PlainRuns(it.endws);
    SkimPunctuation(obj, rest, d);
    if it.more.End? {
      SkimPlain(it.endws, [Close(obj)] + rest, d + 1);
    } else {
      var s := Body(obj, it.more, rest);
      SkimPunctuation(obj, s, d);
      SkimPlain(it.endws, [','] + s, d + 1);
      SkimItems(obj, it.more, rest, d);
    }
  }

  /** A value inside an object or array, or the root: the scan stops exactly at
      its own comma or closing bracket (or at the end of the text). */
  lemma ValueEndStops(v: Value, w: string, rest: string)
    requires WfValue(v) && AllSpace(w)
    requires rest == "" || rest[0] == ',' || rest[0] == '}' || rest[0] == ']'
    ensures Skim(Bare(v, w + rest), 0, false) == (rest, true)
  {
    SkimValue(v, w + rest, 0);
    PlainRuns(w);
    SkimPlain(w, rest, 0);
  }

  // ----- member lookup -----

  /** A decoded key in a buffer of `cap` bytes; a key that does not fit, or
      holds a NUL, is treated as empty. */
  function Clip(d: string, cap: nat): string {
    if |d| < cap && '\0' !in d then d else ""
  }

  function KeyIn(tok: string, cap: nat): string
    requires IsStringToken(tok)
  {
    Clip(Decode(tok), cap)
  }

  /** The member list from the first member with this key on. */
  function FindItem(it: Items, name: string, cap: nat): (found: Items)
    requires WfItems(true, it)
    ensures WfItems(true, found) && (found.Item? ==> KeyIn(found.key, cap) == name)
  {
    if it.End? || KeyIn(it.key, cap) == name then it else FindItem(it.more, name, cap)
  }

  function Count(it: Items, name: string, cap: nat): (n: nat)
    requires WfItems(true, it)
    ensures n == 0 <==> FindItem(it, name, cap).End?
  {
    if it.End? then 0 else (if KeyIn(it.key, cap) == name then 1 else 0) + Count(it.more, name, cap)
  }

  /** The text from a member's value on. */
  function FromValue(obj: bool, it: Items, rest: string): string
    requires it.Item?
  {
    Bare(it.val, Tail(obj, it, rest))
  }

  /** The text from a member's key, or from the closing bracket, on. */
  function FromKey(it: Items, rest: string): string {
    if it.End? then ['}'] + rest
    else it.key + (it.cws + ([':'] + Print(it.val, Tail(true, it, rest))))
  }

  /** The text from the delimiter behind a member on. */
  function FromDelimiter(obj: bool, it: Items, rest: string): string
    requires it.Item?
  {
    if it.more.End? then [Close(obj)] + rest else [','] + Body(obj, it.more, rest)
  }

  lemma AtKey(it: Items, rest: string)
    requires WfItems(true, it) && it.Item?
    ensures var s := FromKey(it, rest);
            && SpaceRun(s) == 0 && s[0..] == s && Head(s) == '"'
            && ScanString(s) == Ok(Decode(it.key), it.cws + ([':'] + Print(it.val, Tail(true, it, rest))))
  {
    StringTokenLocal(it.key, it.cws + ([':'] + Print(it.val, Tail(true, it, rest))));
  }

  lemma AtColon(it: Items, rest: string)
    requires WfItems(true, it) && it.Item?
    ensures var c := [':'] + Print(it.val, Tail(true, it, rest));
            && var s := it.cws + c; s[SpaceRun(s)..] == c
    ensures var s := Print(it.val, Tail(true, it, rest)); s[SpaceRun(s)..] == FromValue(true, it, rest)
  {
    SpaceRunOf(it.cws, [':'] + Print(it.val, Tail(true, it, rest)));
    AtValue(true, it, rest);
  }

  lemma AtValue(obj: bool, it: Items, rest: string)
    requires WfItems(obj, it) && it.Item?
    ensures var s := Print(it.val, Tail(obj, it, rest)); s[SpaceRun(s)..] == FromValue(obj, it, rest)
    ensures var s := FromValue(obj, it, rest);
            && SpaceRun(s) == 0 && s[0..] == s
            && Skim(s, 0, false) == (FromDelimiter(obj, it, rest), true)
  {
    var t := Tail(obj, it, rest);
    BareHead(it.val, t);
    SpaceRunOf(it.val.ws, Bare(it.val, t));
    ValueEndStops(it.val, it.endws, FromDelimiter(obj, it, rest));
  }

  lemma AtBody(it: Items, rest: string)
    requires WfItems(true, it)
    ensures var s := Body(true, it, rest); s[SpaceRun(s)..] == FromKey(it, rest)
  {
    if it.Item? {
      AtKey(it, rest);
      SpaceRunOf(it.kws, FromKey(it, rest));
    } else {
      var s := Body(true, it, rest);
      assert s[0..] == s;
    }
  }

  /** Read a key of any length; keep it only if it fits the buffer. */
  method ReadKey(text: string, p0: nat, cap: nat) returns (ok: bool, key: string, p: nat)
    requires p0 <= |text| < SIZE_MAX && cap > 0
    ensures p0 <= p <= |text| && (ok ==> p0 < p)
    ensures var r := ScanString(text[p0..][SpaceRun(text[p0..])..]);
            ok == r.Ok? && (ok ==> text[p..] == r.rest && key == Clip(r.value, cap))
  {
    hide ScanString, SpaceRun;
    ok, p, key := ReadString(text, p0, cap, true);
    if !ok {
      ok, p, key := ReadString(text, p0, SIZE_MAX, false);
      key := "";
    }
  }

  /** A key, its colon and the white space around it, up to the value. */
  method KeyAndColon(text: string, p0: nat, cap: nat, ghost it: Items, ghost rest: string, ghost known: bool)
    returns (ok: bool, key: string, p: nat)
    requires p0 <= |text| < SIZE_MAX && cap > 0
    requires known ==> WfItems(true, it) && it.Item? && text[p0..] == FromKey(it, rest)
    ensures p0 <= p <= |text| && (ok ==> p0 < p)
    ensures known ==> ok && key == KeyIn(it.key, cap) && text[p..] == FromValue(true, it, rest)
  {
    hide ScanString, SpaceRun, Print, Tail, FromKey, FromValue, Bare;
    if known { AtKey(it, rest); AtColon(it, rest); }
    ok, key, p := ReadKey(text, p0, cap);
    if !ok { return; }
    p := Space(text, p);
    AtIsHead(text, p);
    if At(text, p) != ':' { return false, key, p; }
    p := Space(text, p + 1);
  }

  /** From a value to the delimiter behind it. */
  method SkipValue(text: string, p0: nat, ghost obj: bool, ghost it: Items, ghost rest: string, ghost known: bool)
    returns (p: nat, ok: bool)
    requires p0 <= |text|
    requires known ==> WfItems(obj, it) && it.Item? && text[p0..] == FromValue(obj, it, rest)
    ensures p0 <= p <= |text|
    ensures known ==> ok && text[p..] == FromDelimiter(obj, it, rest)
  {
    hide Skim, FromValue, FromDelimiter;
    if known { AtValue(obj, it, rest); }
    p, ok := ValueEnd(text, p0);
    if known { DelimiterHead(obj, it, rest); }
    p := Space(text, p);
  }

  lemma DelimiterHead(obj: bool, it: Items, rest: string)
    requires it.Item?
    ensures var s := FromDelimiter(obj, it, rest); SpaceRun(s) == 0 && s[0..] == s
  {}

  function AfterBom(s: string): string {
    if HasBom(s) then s[3..] else s
  }

  /** The members of the object at a cursor, and the text behind it. */
  function ObjectAt(s: string): (r: Option<(Items, string)>)
    ensures r.Some? ==> WfItems(true, r.value.0)
  {
    var p := ParseValue(AfterBom(s));
    if p.Ok? && p.value.Node? && p.value.obj then
      ParseValueSound(AfterBom(s));
      Some((p.value.items, p.rest))
    else None
  }

  lemma ObjectText(s: string)
    requires ObjectAt(s).Some?
    ensures var (items, rest) := ObjectAt(s).value;
            var t := AfterBom(s);
            && var u := t[SpaceRun(t)..];
            && u != "" && u[0] == '{' && u[1..][SpaceRun(u[1..])..] == FromKey(items, rest)
  {
    var t := AfterBom(s);
    var v := ParseValue(t).value;
    var rest := ParseValue(t).rest;
    ParseValueSound(t);
    BareHead(v, rest);
    SpaceRunOf(v.ws, Bare(v, rest));
    AtBody(v.items, rest);
    var b := Body(true, v.items, rest);
    if v.items.End? {
      SpaceRunOf(v.gap, b);
    } else {
      assert v.gap + b == b;
    }
  }

  /** `wpm_json_content` */
  method Content(text: string, p0: nat) returns (p: nat)
    requires p0 <= |text|
    ensures p0 <= p <= |text|
    ensures var t := AfterBom(text[p0..]); text[p..] == t[SpaceRun(t)..]
  {
    ghost var s := text[p0..];
    p := p0;
    if At(text, p) == BOM[0] && At(text, p + 1) == BOM[1] && At(text, p + 2) == BOM[2] {
      assert s[..3] == BOM;
      p := p + 3;
    } else {
      if |s| >= 3 { assert s[..3][0] == s[0] && s[..3][1] == s[1] && s[..3][2] == s[2]; }
      assert !HasBom(s);
    }
    p := Space(text, p);
  }

  /** The first byte of the rest of an object tells whether a member follows. */
  lemma AtFirst(it: Items, rest: string)
    requires WfItems(true, it)
    ensures Head(FromKey(it, rest)) == if it.End? then '}' else '"'
  {
    if it.Item? { AtKey(it, rest); }
  }

  lemma AtDelimiter(it: Items, rest: string)
    requires WfItems(true, it) && it.Item?
    ensures var s := FromDelimiter(true, it, rest);
            if it.more.End? then Head(s) == '}' && s == FromKey(it.more, rest)
            else Head(s) == ',' && s[1..][SpaceRun(s[1..])..] == FromKey(it.more, rest)
  {
    AtBody(it.more, rest);
  }

  /** Past a comma to the next key; false when there is none. */
  method NextKey(text: string, p0: nat, ghost it: Items, ghost rest: string, ghost known: bool) returns (more: bool, p: nat)
    requires p0 <= |text|
    requires known ==> WfItems(true, it) && it.Item? && text[p0..] == FromDelimiter(true, it, rest)
    ensures p0 <= p <= |text| && more == (At(text, p0) == ',') && (more ==> p0 < p) && (!more ==> p == p0)
    ensures known ==> WfItems(true, it.more) && text[p..] == FromKey(it.more, rest) && more == it.more.Item?
  {
    hide FromDelimiter, FromKey, SpaceRun;
    if known { AtDelimiter(it, rest); }
    AtIsHead(text, p0);
    if At(text, p0) != ',' { return false, p0; }
    p := Space(text, p0 + 1);
    more := true;
  }

  /** The first byte of the content is an opening brace. */
  predicate OpensObject(s: string) {
    var t := AfterBom(s);
    Head(t[SpaceRun(t)..]) == '{'
  }

  /** Past an opening brace to the first key. */
  method FirstKey(text: string, start: nat) returns (ok: bool, p: nat)
    requires start <= |text|
    ensures start <= p <= |text|
    ensures ok == OpensObject(text[start..])
    ensures var o := ObjectAt(text[start..]);
            o.Some? ==> ok && text[p..] == FromKey(o.value.0, o.value.1)
  {
    hide FromKey, ParseValue, SpaceRun, ObjectAt;
    if ObjectAt(text[start..]).Some? { ObjectText(text[start..]); }
    p := Content(text, start);
    AtIsHead(text, p);
    if At(text, p) != '{' { return false, p; }
    p := Space(text, p + 1);
    ok := true;
  }

  /** Whether a cursor stands at a key. */
  method AtAnyKey(text: string, p: nat, ghost it: Items, ghost rest: string, ghost known: bool) returns (more: bool)
    requires p <= |text|
    requires known ==> WfItems(true, it) && text[p..] == FromKey(it, rest)
    ensures more == (At(text, p) != '\0' && At(text, p) != '}')
    ensures known ==> more == it.Item? && (At(text, p) == '}') == it.End?
  {
    hide FromKey;
    AtIsHead(text, p);
    if known { AtFirst(it, rest); }
    more := At(text, p) != '\0' && At(text, p) != '}';
  }

  /** `wpm_json_field`: the value of the first member whose key is `wanted`. */
  method Field(text: string, start: nat, wanted: string) returns (r: Option<nat>)
    requires start <= |text| < SIZE_MAX
    ensures r.Some? ==> start <= r.value <= |text|
    ensures var o := ObjectAt(text[start..]);
            o.Some? ==> var it := FindItem(o.value.0, wanted, 32);
                        if it.End? then r == None
                        else r.Some? && text[r.value..] == FromValue(true, it, o.value.1)
  {
    hide FromKey, FromValue, FromDelimiter, ObjectAt, At, OpensObject;
    ghost var o := ObjectAt(text[start..]);
    ghost var known := o.Some?;
    ghost var it, rest := if known then o.value.0 else End, if known then o.value.1 else "";
    var more, p := FirstKey(text, start);
    if !more { return None; }
    more := AtAnyKey(text, p, it, rest, known);
    while more
      invariant start <= p <= |text|
      invariant known ==> WfItems(true, it) && text[p..] == FromKey(it, rest) && more == it.Item?
      invariant known ==> FindItem(it, wanted, 32) == FindItem(o.value.0, wanted, 32)
      decreases |text| - p
    {
      var ok, key, q := KeyAndColon(text, p, 32, it, rest, known);
      if !ok { return None; }
      if key == wanted { return Some(q); }
      p, ok := SkipValue(text, q, true, it, rest, known);
      ok, p := NextKey(text, p, it, rest, known);
      if !ok { return None; }
      if known { it := it.more; }
      more := AtAnyKey(text, p, it, rest, known);
    }
    return None;
  }

  /** `wpm_json_unique_field`: the value of the only member whose key is `name`. */
  method UniqueField(text: string, start: nat, name: string) returns (r: Option<nat>)
    requires start <= |text| < SIZE_MAX
    ensures r.Some? ==> start <= r.value <= |text| && OpensObject(text[start..])
    ensures var o := ObjectAt(text[start..]);
            o.Some? ==> if Count(o.value.0, name, 128) != 1 then r == None
                        else var it := FindItem(o.value.0, name, 128);
                             r.Some? && text[r.value..] == FromValue(true, it, o.value.1)
  {
    hide FromKey, FromValue, FromDelimiter, ObjectAt, At, OpensObject;
    ghost var o := ObjectAt(text[start..]);
    ghost var known := o.Some?;
    ghost var it, rest := if known then o.value.0 else End, if known then o.value.1 else "";
    var more, p := FirstKey(text, start);
    if !more { return None; }
    r := None;
    more := AtAnyKey(text, p, it, rest, known);
    while more
      invariant start <= p <= |text| && (r.Some? ==> start <= r.value <= |text|)
      invariant known ==> WfItems(true, it) && text[p..] == FromKey(it, rest) && more == it.Item?
      invariant known ==> (At(text, p) == '}') == it.End?
      invariant known ==> Count(o.value.0, name, 128) == Count(it, name, 128) + if r.Some? then 1 else 0
      invariant known && r.None? ==> FindItem(it, name, 128) == FindItem(o.value.0, name, 128)
      invariant known && r.Some? ==> text[r.value..] == FromValue(true, FindItem(o.value.0, name, 128), rest)
      decreases |text| - p
    {
      var ok, key, q := KeyAndColon(text, p, 128, it, rest, known);
      if !ok { return None; }
      if key == name {
        if r.Some? { return None; }
        r := Some(q);
      }
      p, ok := SkipValue(text, q, true, it, rest, known);
      if !ok { return None; }
      ok, p := NextKey(text, p, it, rest, known);
      if known { it := it.more; }
      more := AtAnyKey(text, p, it, rest, known);
      if !ok { break; }
    }
    if At(text, p) != '}' { r := None; }
  }

  /** For names that are not empty and fit the key buffer, the lookup compares
      decoded keys exactly. */
  lemma KeyInIsDecoded(tok: string, name: string, cap: nat)
    requires IsStringToken(tok) && name != "" && |name| < cap && '\0' !in name
    ensures KeyIn(tok, cap) == name <==> Decode(tok) == name
  {}
}
