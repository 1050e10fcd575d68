/** The JSON grammar of sections 2 to 7 of RFC 8259 as concrete syntax trees.
    A tree keeps every byte of the text it was read from, so a text is grammatical
    exactly when it is the printout of a well-formed tree.  Texts are C strings:
    one `char` per byte and no NUL.  */
module JsonGrammar {

  datatype Parsed<+T> = Fail | Ok(value: T, rest: string)

  /** Byte at a C string cursor; the terminating NUL at the end. */
  function Head(s: string): char {
    if s == "" then '\0' else s[0]
  }

  predicate IsSpace(c: char) {
    c == ' ' || c == '\t' || c == '\r' || c == '\n'
  }

  predicate IsDigit(c: char) {
    '0' <= c <= '9'
  }

  /** Length of the leading run of white space. */
  function SpaceRun(s: string): (n: nat)
    ensures n <= |s|
  {
    if s == "" || !IsSpace(s[0]) then 0 else 1 + SpaceRun(s[1..])
  }

  /** Length of the leading run of digits. */
  function DigitRun(s: string): (n: nat)
    ensures n <= |s|
  {
    if s == "" || !IsDigit(s[0]) then 0 else 1 + DigitRun(s[1..])
  }

  predicate AllSpace(s: string) {
    SpaceRun(s) == |s|
  }

  predicate AllDigits(s: string) {
    DigitRun(s) == |s|
  }

  lemma {:induction false} SpaceRunFacts(s: string)
    ensures var n := SpaceRun(s); AllSpace(s[..n]) && !IsSpace(Head(s[n..])) && SpaceRun(s[n..]) == 0
  {
    if s != "" && IsSpace(s[0]) {
      SpaceRunFacts(s[1..]);
      var n := SpaceRun(s);
      assert s[n..] == s[1..][n - 1..] && s[..n][1..] == s[1..][..n - 1];
    } else {
      assert s[0..] == s && s[..0] == "";
    }
  }

  lemma {:induction false} SpaceRunOf(w: string, t: string)
    requires AllSpace(w) && !IsSpace(Head(t))
    ensures SpaceRun(w + t) == |w| && (w + t)[|w|..] == t && (w + t)[..|w|] == w
  {
    if w != "" {
      SpaceRunOf(w[1..], t);
      assert (w + t)[1..] == w[1..] + t;
    } else {
      assert w + t == t;
    }
  }

  lemma {:induction false} DigitRunFacts(s: string)
    ensures var n := DigitRun(s); AllDigits(s[..n]) && !IsDigit(Head(s[n..])) && DigitRun(s[n..]) == 0
  {
    if s != "" && IsDigit(s[0]) {
      DigitRunFacts(s[1..]);
      var n := DigitRun(s);
      assert s[n..] == s[1..][n - 1..] && s[..n][1..] == s[1..][..n - 1];
    } else {
      assert s[0..] == s && s[..0] == "";
    }
  }

  lemma {:induction false} DigitRunOf(w: string, t: string)
    requires AllDigits(w) && !IsDigit(Head(t))
    ensures DigitRun(w + t) == |w| && (w + t)[|w|..] == t && (w + t)[..|w|] == w
  {
    if w != "" {
      DigitRunOf(w[1..], t);
      assert (w + t)[1..] == w[1..] + t;
    } else {
      assert w + t == t;
    }
  }

  // ----- strings (section 7) -----

  function HexDigit(c: char): (d: int)
    ensures -1 <= d < 16
  {
    if '0' <= c <= '9' then c as int - '0' as int
    else if 'a' <= c <= 'f' then c as int - 'a' as int + 10
    else if 'A' <= c <= 'F' then c as int - 'A' as int + 10
    else -1
  }

  /** Value of the first four characters as hexadecimal digits, or -1. */
  function Hex4(s: string): (v: int)
    ensures -1 <= v < 0x10000
    ensures 0 <= v ==> |s| >= 4
  {
    if |s| < 4 || HexDigit(s[0]) < 0 || HexDigit(s[1]) < 0 || HexDigit(s[2]) < 0 || HexDigit(s[3]) < 0 then -1
    else ((HexDigit(s[0]) * 16 + HexDigit(s[1])) * 16 + HexDigit(s[2])) * 16 + HexDigit(s[3])
  }

  predicate IsHigh(u: int) { 0xd800 <= u <= 0xdbff }

  predicate IsLow(u: int) { 0xdc00 <= u <= 0xdfff }

  type CodePoint = u: int | 0 <= u < 0xd800 || 0xe000 <= u < 0x110000

  /** The UTF-8 form of a scalar value (section 3 of RFC 3629). */
  function Utf8Bytes(u: CodePoint): (s: string)
    ensures 1 <= |s| <= 4
  {
    if u < 0x80 then [u as char]
    else if u < 0x800 then [(0xc0 + u / 0x40) as char, (0x80 + u % 0x40) as char]
    else if u < 0x10000 then
      [(0xe0 + u / 0x1000) as char, (0x80 + u / 0x40 % 0x40) as char, (0x80 + u % 0x40) as char]
    else
      [(0xf0 + u / 0x40000) as char, (0x80 + u / 0x1000 % 0x40) as char,
       (0x80 + u / 0x40 % 0x40) as char, (0x80 + u % 0x40) as char]
  }

  /** One character of a string body: its decoded bytes and what follows. */
  function ScanChar(s: string): (r: Parsed<string>)
    ensures r.Ok? ==> |r.rest| < |s| && 1 <= |r.value| <= |s| - |r.rest|
  {
    if s == "" || s[0] < ' ' || s[0] == '"' then Fail
    else if s[0] != '\\' then Ok([s[0]], s[1..])
    else if |s| < 2 then Fail
    else match s[1]
      case '"' => Ok("\"", s[2..])
      case '\\' => Ok("\\", s[2..])
      case '/' => Ok("/", s[2..])
      case 'b' => Ok([8 as char], s[2..])
      case 'f' => Ok([12 as char], s[2..])
      case 'n' => Ok("\n", s[2..])
      case 'r' => Ok("\r", s[2..])
      case 't' => Ok("\t", s[2..])
      case 'u' =>
        var u := Hex4(s[2..]);
        if u < 0 || IsLow(u) then Fail
        else if !IsHigh(u) then Ok(Utf8Bytes(u), s[6..])
        else if |s| < 8 || s[6] != '\\' || s[7] != 'u' then Fail
        else
          var low := Hex4(s[8..]);
          if !IsLow(low) then Fail
          else Ok(Utf8Bytes(0x10000 + (u - 0xd800) * 0x400 + low - 0xdc00), s[12..])
      case _ => Fail
  }

  /** The characters up to and including the closing quotation mark. */
  function ScanBody(s: string): (r: Parsed<string>)
    ensures r.Ok? ==> |r.rest| < |s| && |r.value| < |s| - |r.rest|
  {
    if s != "" && s[0] == '"' then Ok("", s[1..])
    else match ScanChar(s)
      case Fail => Fail
      case Ok(d, t) =>
        match ScanBody(t)
        case Fail => Fail
        case Ok(more, rest) =>
          Ok(d + more, rest)
  }

  /** A string token, decoded; an escaped NUL decodes to a NUL byte here. */
  function ScanString(s: string): (r: Parsed<string>)
    ensures r.Ok? ==> |r.rest| < |s| && |r.value| + 2 <= |s| - |r.rest|
  {
    if s == "" || s[0] != '"' then Fail else ScanBody(s[1..])
  }

  predicate IsStringToken(tok: string) {
    ScanString(tok).Ok? && ScanString(tok).rest == ""
  }

  function Decode(tok: string): string
    requires IsStringToken(tok)
  {
    ScanString(tok).value
  }

  lemma ScanCharSuffix(s: string)
    requires ScanChar(s).Ok?
    ensures var rest := ScanChar(s).rest; |rest| < |s| && rest == s[|s| - |rest|..]
  {
    hide Hex4, Utf8Bytes;
  }

  lemma {:induction false} ScanBodySuffix(s: string)
    requires ScanBody(s).Ok?
    ensures var rest := ScanBody(s).rest; rest == s[|s| - |rest|..]
  {
    if s[0] != '"' {
      hide ScanChar;
      ScanCharSuffix(s);
      ScanBodySuffix(ScanChar(s).rest);
    }
  }

  // Scanning looks only at the bytes it consumes.

  lemma Hex4Same(s: string, t: string)
    requires |s| >= 4 && |t| >= 4 && s[0] == t[0] && s[1] == t[1] && s[2] == t[2] && s[3] == t[3]
    ensures Hex4(s) == Hex4(t)
  {}

  lemma ScanCharLocal(s: string, t: string)
    requires ScanChar(s).Ok?
    ensures ScanChar(s + t) == Ok(ScanChar(s).value, ScanChar(s).rest + t)
  {
    hide Hex4, Utf8Bytes;
    var st := s + t;
    assert st[1..] == s[1..] + t;
    if s[0] == '\\' {
      assert st[2..] == s[2..] + t;
      if s[1] == 'u' {
        Hex4Same(s[2..], st[2..]);
        assert st[6..] == s[6..] + t;
        if IsHigh(Hex4(s[2..])) {
          Hex4Same(s[8..], st[8..]);
          assert st[12..] == s[12..] + t;
        }
      }
    }
  }

  lemma ScanCharTrim(s: string, k: nat)
    requires ScanChar(s).Ok? && k <= |ScanChar(s).rest|
    ensures var n := |s| - k; ScanChar(s[..n]) == Ok(ScanChar(s).value, ScanChar(s).rest[..|ScanChar(s).rest| - k])
  {
    hide Hex4, Utf8Bytes;
    var n := |s| - k;
    var c := s[..n];
    assert c[1..] == s[1..][..n - 1];
    if s[0] == '\\' {
      assert c[2..] == s[2..][..n - 2];
      if s[1] == 'u' {
        Hex4Same(s[2..], c[2..]);
        assert c[6..] == s[6..][..n - 6];
        if IsHigh(Hex4(s[2..])) {
          Hex4Same(s[8..], c[8..]);
          assert c[12..] == s[12..][..n - 12];
        }
      }
    }
  }

  lemma {:induction false} ScanBodyLocal(s: string, t: string)
    requires ScanBody(s).Ok?
    ensures ScanBody(s + t) == Ok(ScanBody(s).value, ScanBody(s).rest + t)
  {
    if s[0] == '"' {
      assert (s + t)[1..] == s[1..] + t;
    } else {
      ScanCharLocal(s, t);
      ScanBodyLocal(ScanChar(s).rest, t);
    }
  }

  lemma {:induction false} ScanBodyTrim(s: string, k: nat)
    requires ScanBody(s).Ok? && k <= |ScanBody(s).rest|
    ensures var n := |s| - k; ScanBody(s[..n]) == Ok(ScanBody(s).value, ScanBody(s).rest[..|ScanBody(s).rest| - k])
  {
    hide ScanChar;
    var c := s[..|s| - k];
    if s[0] == '"' {
      assert ScanBody(s).rest == s[1..];
      assert c[1..] == s[1..][..|s| - 1 - k];
    } else {
      ScanCharSuffix(s);
      ScanCharTrim(s, k);
      ScanBodyTrim(ScanChar(s).rest, k);
    }
  }

  lemma StringTokenLocal(tok: string, t: string)
    requires IsStringToken(tok)
    ensures ScanString(tok + t) == Ok(Decode(tok), t)
  {
    assert (tok + t)[1..] == tok[1..] + t;
    ScanBodyLocal(tok[1..], t);
  }

  lemma StringTokenOf(s: string)
    requires ScanString(s).Ok?
    ensures var tok := s[..|s| - |ScanString(s).rest|];
            IsStringToken(tok) && Decode(tok) == ScanString(s).value && s == tok + ScanString(s).rest
  {
    hide ScanBody;
    var k := |ScanString(s).rest|;
    ScanBodySuffix(s[1..]);
    ScanBodyTrim(s[1..], k);
    var tok := s[..|s| - k];
    assert tok[1..] == s[1..][..|s| - 1 - k];
  }

  // ----- numbers (section 6) -----

  datatype Sign = Unsigned | Plus | Minus

  datatype Exponent = NoExponent | Exponent(upper: bool, sign: Sign, digits: string) {
    predicate Wf() {
      Exponent? ==> digits != "" && AllDigits(digits)
    }
  }

  /** The parts of a number token; an absent fraction is empty. */
  datatype Number = Number(minus: bool, whole: string, frac: string, exp: Exponent) {
    predicate Wf() {
      && whole != "" && AllDigits(whole) && (whole[0] == '0' ==> |whole| == 1)
      && AllDigits(frac) && exp.Wf()
    }
  }

  // Printouts are written in front of the text that follows them.

  function SignText(g: Sign, rest: string): string {
    match g
    case Unsigned => rest
    case Plus => ['+'] + rest
    case Minus => ['-'] + rest
  }

  function ExponentText(e: Exponent, rest: string): string {
    if e.NoExponent? then rest else [if e.upper then 'E' else 'e'] + SignText(e.sign, e.digits + rest)
  }

  function FractionText(frac: string, e: Exponent, rest: string): string {
    if frac == "" then ExponentText(e, rest) else ['.'] + (frac + ExponentText(e, rest))
  }

  function NumberText(n: Number, rest: string): string {
    var t := n.whole + FractionText(n.frac, n.exp, rest);
    if n.minus then ['-'] + t else t
  }

  /** What may follow a number token inside a grammatical text. */
  predicate Stop(s: string) {
    s == "" || IsSpace(s[0]) || s[0] == ',' || s[0] == ']' || s[0] == '}'
  }

  function ReadSign(s: string): Sign {
    if Head(s) == '+' then Plus else if Head(s) == '-' then Minus else Unsigned
  }

  function ParseExponent(s: string): (r: Parsed<Exponent>)
    ensures r.Ok? ==> |r.rest| <= |s|
  {
    if Head(s) != 'e' && Head(s) != 'E' then Ok(NoExponent, s)
    else
      var sign := ReadSign(s[1..]);
      var t := if sign == Unsigned then s[1..] else s[1..][1..];
      var n := DigitRun(t);
      if n == 0 then Fail else Ok(Exponent(s[0] == 'E', sign, t[..n]), t[n..])
  }

  function ParseFraction(s: string): (r: Parsed<(string, Exponent)>)
    ensures r.Ok? ==> |r.rest| <= |s|
  {
    if Head(s) != '.' then
      match ParseExponent(s)
      case Fail => Fail
      case Ok(e, rest) => Ok(("", e), rest)
    else
      var n := DigitRun(s[1..]);
      if n == 0 then Fail
      else match ParseExponent(s[1..][n..])
        case Fail => Fail
        case Ok(e, rest) => Ok((s[1..][..n], e), rest)
  }

  function ParseNumber(s: string): (r: Parsed<Number>)
    ensures r.Ok? ==> |r.rest| < |s|
  {
    var minus := Head(s) == '-';
    var t := if minus then s[1..] else s;
    var n := if Head(t) == '0' then 1 else DigitRun(t);
    if n == 0 then Fail
    else match ParseFraction(t[n..])
      case Fail => Fail
      case Ok((f, e), rest) => Ok(Number(minus, t[..n], f, e), rest)
  }

  lemma Split(s: string, n: nat)
    requires n <= |s|
    ensures s[..n] + s[n..] == s
  {}

  lemma Cons(s: string)
    requires s != ""
    ensures [s[0]] + s[1..] == s
  {}

  lemma ParseExponentSound(s: string)
    requires ParseExponent(s).Ok?
    ensures var p := ParseExponent(s); p.value.Wf() && ExponentText(p.value, p.rest) == s
  {
    if Head(s) == 'e' || Head(s) == 'E' {
      var sign := ReadSign(s[1..]);
      var t := if sign == Unsigned then s[1..] else s[1..][1..];
      Split(t, DigitRun(t));
      DigitRunFacts(t);
      Cons(s);
      if sign != Unsigned { Cons(s[1..]); }
    }
  }

  lemma ParseFractionSound(s: string)
    requires ParseFraction(s).Ok?
    ensures var p := ParseFraction(s);
            && AllDigits(p.value.0) && p.value.1.Wf()
            && FractionText(p.value.0, p.value.1, p.rest) == s
  {
    if Head(s) == '.' {
      var k := DigitRun(s[1..]);
      Cons(s);
      Split(s[1..], k);
      DigitRunFacts(s[1..]);
      ParseExponentSound(s[1..][k..]);
    } else {
      ParseExponentSound(s);
    }
  }

  lemma ParseNumberSound(s: string)
    requires ParseNumber(s).Ok?
    ensures var p := ParseNumber(s); p.value.Wf() && NumberText(p.value, p.rest) == s
  {
    var p := ParseNumber(s);
    var t := if p.value.minus then s[1..] else s;
    var n := if Head(t) == '0' then 1 else DigitRun(t);
    ParseFractionSound(t[n..]);
    Split(t, n);
    DigitRunFacts(t);
    Cons(t);
    if p.value.minus { Cons(s); }
  }

  lemma ReadSignOf(g: Sign, t: string)
    requires t != "" && IsDigit(t[0])
    ensures var s := SignText(g, t); ReadSign(s) == g && (if g == Unsigned then s else s[1..]) == t
  {}

  lemma ParseExponentComplete(e: Exponent, rest: string)
    requires e.Wf() && Stop(rest)
    ensures ParseExponent(ExponentText(e, rest)) == Ok(e, rest)
  {
    if e.Exponent? {
      DigitRunOf(e.digits, rest);
      ReadSignOf(e.sign, e.digits + rest);
    }
  }

  lemma ParseFractionComplete(n: Number, rest: string)
    requires n.Wf() && Stop(rest)
    ensures ParseFraction(FractionText(n.frac, n.exp, rest)) == Ok((n.frac, n.exp), rest)
    ensures !IsDigit(Head(FractionText(n.frac, n.exp, rest)))
  {
    ParseExponentComplete(n.exp, rest);
    if n.frac != "" {
      DigitRunOf(n.frac, ExponentText(n.exp, rest));
    }
  }

  lemma ParseNumberComplete(n: Number, rest: string)
    requires n.Wf() && Stop(rest)
    ensures ParseNumber(NumberText(n, rest)) == Ok(n, rest)
  {
    ParseFractionComplete(n, rest);
    DigitRunOf(n.whole, FractionText(n.frac, n.exp, rest));
  }

  // ----- values -----

  /** A value with the white space before it.  `Node` is an object or an array;
      `gap` is the white space inside an empty one.  */
  datatype Value =
    | Str(ws: string, tok: string)
    | Num(ws: string, num: Number)
    | Word(ws: string, word: string)
    | Node(ws: string, obj: bool, gap: string, items: Items)

  /** The members of an object or the elements of an array.  In an array the key
      parts are empty.  `endws` precedes the comma or closing bracket.  */
  datatype Items =
    | End
    | Item(kws: string, key: string, cws: string, val: Value, endws: string, more: Items)

  function Open(obj: bool): char { if obj then '{' else '[' }

  function Close(obj: bool): char { if obj then '}' else ']' }

  predicate IsWord(w: string) { w == "true" || w == "false" || w == "null" }

  predicate WfValue(v: Value)
    decreases v
  {
    AllSpace(v.ws) &&
    match v
    case Str(_, tok) => IsStringToken(tok)
    case Num(_, n) => n.Wf()
    case Word(_, w) => IsWord(w)
    case Node(_, obj, gap, items) => AllSpace(gap) && (items.Item? ==> gap == "") && WfItems(obj, items)
  }

  predicate WfItems(obj: bool, it: Items)
    decreases it
  {
    it.Item? ==>
      && AllSpace(it.kws) && AllSpace(it.cws) && AllSpace(it.endws)
      && (if obj then IsStringToken(it.key) else it.kws == it.key == it.cws == "")
      && WfValue(it.val) && WfItems(obj, it.more)
  }

  /** The value without the white space before it. */
  function Bare(v: Value, rest: string): string
    decreases v, 0
  {
    match v
    case Str(_, tok) => tok + rest
    case Num(_, n) => NumberText(n, rest)
    case Word(_, w) => w + rest
    case Node(_, obj, gap, items) => [Open(obj)] + (gap + Body(obj, items, rest))
  }

  function Print(v: Value, rest: string): string
    decreases v, 1
  {
    v.ws + Bare(v, rest)
  }

  /** The items and the closing bracket. */
  function Body(obj: bool, it: Items, rest: string): string
    decreases it, 1
  {
    if it.End? then [Close(obj)] + rest
    else
      var t := Print(it.val, Tail(obj, it, rest));
      if obj then it.kws + (it.key + (it.cws + ([':'] + t))) else t
  }

  /** From the end of an item's value. */
  function Tail(obj: bool, it: Items, rest: string): string
    requires it.Item?
    decreases it, 0
  {
    it.endws + (if it.more.End? then [Close(obj)] + rest else [','] + Body(obj, it.more, rest))
  }

  /** A text: byte order mark, value and trailing white space. */
  datatype Document = Document(bom: bool, root: Value, trail: string) {
    predicate Wf() {
      WfValue(root) && AllSpace(trail)
    }

    function Text(): string {
      if bom then BOM + Print(root, trail) else Print(root, trail)
    }
  }

  const BOM: string := [0xef as char, 0xbb as char, 0xbf as char]

  /** The texts of the grammar. */
  ghost predicate Grammatical(text: string) {
    exists d: Document :: d.Wf() && d.Text() == text
  }

  // ----- the recursive reader -----

  predicate StartsWith(s: string, w: string) {
    |w| <= |s| && s[..|w|] == w
  }

  function ParseValue(s: string): (r: Parsed<Value>)
    ensures r.Ok? ==> |r.rest| < |s|
    decreases |s|, 2
  {
    var n := SpaceRun(s);
    ParseBare(s[..n], s[n..])
  }

  function ParseBare(ws: string, t: string): (r: Parsed<Value>)
    ensures r.Ok? ==> |r.rest| < |t|
    decreases |t|, 1
  {
    if t == "" then Fail
    else if t[0] == '{' || t[0] == '[' then
      match ParseBody(t[0] == '{', t[1..])
      case Fail => Fail
      case Ok((gap, items), rest) => Ok(Node(ws, t[0] == '{', gap, items), rest)
    else if t[0] == '"' then
      match ScanString(t)
      case Fail => Fail
      case Ok(_, rest) => Ok(Str(ws, t[..|t| - |rest|]), rest)
    else if t[0] == '-' || IsDigit(t[0]) then
      match ParseNumber(t)
      case Fail => Fail
      case Ok(n, rest) => Ok(Num(ws, n), rest)
    else if StartsWith(t, "true") then Ok(Word(ws, "true"), t[4..])
    else if StartsWith(t, "false") then Ok(Word(ws, "false"), t[5..])
    else if StartsWith(t, "null") then Ok(Word(ws, "null"), t[4..])
    else Fail
  }

  /** After an opening bracket. */
  function ParseBody(obj: bool, s: string): (r: Parsed<(string, Items)>)
    ensures r.Ok? ==> |r.rest| < |s|
    decreases |s|, 5
  {
    var n := SpaceRun(s);
    if Head(s[n..]) == Close(obj) then Ok((s[..n], End), s[n..][1..])
    else match ParseItems(obj, s)
      case Fail => Fail
      case Ok(items, rest) => Ok(("", items), rest)
  }

  /** After an opening bracket or a comma. */
  function ParseItems(obj: bool, s: string): (r: Parsed<Items>)
    ensures r.Ok? ==> |r.rest| < |s| && r.value.Item?
    decreases |s|, 4
  {
    if !obj then ParseMember(false, s)
    else
      var n := SpaceRun(s);
      match ScanString(s[n..])
      case Fail => Fail
      case Ok(_, t) =>
        match ParseColon(t)
        case Fail => Fail
        case Ok(it, rest) => Ok(it.(kws := s[..n], key := s[n..][..|s| - n - |t|]), rest)
  }

  /** After a key. */
  function ParseColon(s: string): (r: Parsed<Items>)
    ensures r.Ok? ==> |r.rest| < |s| && r.value.Item?
    decreases |s|, 4
  {
    var n := SpaceRun(s);
    if Head(s[n..]) != ':' then Fail
    else match ParseMember(true, s[n..][1..])
      case Fail => Fail
      case Ok(it, rest) => Ok(it.(cws := s[..n]), rest)
  }

  /** At an item's value. */
  function ParseMember(obj: bool, s: string): (r: Parsed<Items>)
    ensures r.Ok? ==> |r.rest| < |s| && r.value.Item?
    decreases |s|, 3
  {
    match ParseValue(s)
    case Fail => Fail
    case Ok(v, t) =>
      match ParseTail(obj, t)
      case Fail => Fail
      case Ok((endws, more), rest) => Ok(Item("", "", "", v, endws, more), rest)
  }

  /** After an item's value. */
  function ParseTail(obj: bool, s: string): (r: Parsed<(string, Items)>)
    ensures r.Ok? ==> |r.rest| < |s|
    decreases |s|, 0
  {
    var n := SpaceRun(s);
    var c := Head(s[n..]);
    if c == Close(obj) then Ok((s[..n], End), s[n..][1..])
    else if c != ',' then Fail
    else match ParseItems(obj, s[n..][1..])
      case Fail => Fail
      case Ok(more, rest) => Ok((s[..n], more), rest)
  }

  predicate HasBom(s: string) {
    StartsWith(s, BOM)
  }

  /** Read a whole text. */
  function Parse(text: string): Parsed<Document> {
    var bom := HasBom(text);
    match ParseValue(if bom then text[3..] else text)
    case Fail => Fail
    case Ok(v, rest) => if AllSpace(rest) then Ok(Document(bom, v, rest), "") else Fail
  }

  // ----- the reader and the printer are inverse -----

  lemma {:induction false} ParseValueSound(s: string)
    requires ParseValue(s).Ok?
    ensures var p := ParseValue(s); WfValue(p.value) && Print(p.value, p.rest) == s
    decreases |s|, 2
  {
    var n := SpaceRun(s);
    Split(s, n);
    SpaceRunFacts(s);
    ParseBareSound(s[..n], s[n..]);
  }

  lemma {:induction false} ParseBareSound(ws: string, t: string)
    requires AllSpace(ws) && ParseBare(ws, t).Ok?
    ensures var p := ParseBare(ws, t); WfValue(p.value) && p.value.ws == ws && Bare(p.value, p.rest) == t
    decreases |t|, 1
  {
    if t[0] == '{' || t[0] == '[' {
      ParseBodySound(t[0] == '{', t[1..]);
      Cons(t);
    } else if t[0] == '"' {
      StringTokenOf(t);
    } else if t[0] == '-' || IsDigit(t[0]) {
      ParseNumberSound(t);
    } else {
      Split(t, |ParseBare(ws, t).value.word|);
    }
  }

  lemma {:induction false} ParseBodySound(obj: bool, s: string)
    requires ParseBody(obj, s).Ok?
    ensures var p := ParseBody(obj, s);
            && AllSpace(p.value.0) && (p.value.1.Item? ==> p.value.0 == "") && WfItems(obj, p.value.1)
            && p.value.0 + Body(obj, p.value.1, p.rest) == s
    decreases |s|, 5
  {
    var n := SpaceRun(s);
    if Head(s[n..]) == Close(obj) {
      Split(s, n);
      SpaceRunFacts(s);
      Cons(s[n..]);
    } else {
      ParseItemsSound(obj, s);
    }
  }

  lemma {:induction false} ParseItemsSound(obj: bool, s: string)
    requires ParseItems(obj, s).Ok?
    ensures var p := ParseItems(obj, s); WfItems(obj, p.value) && Body(obj, p.value, p.rest) == s
    decreases |s|, 4
  {
    hide ScanString, ParseColon, Print;
    if obj {
      var n := SpaceRun(s);
      Split(s, n);
      SpaceRunFacts(s);
      StringTokenOf(s[n..]);
      ParseColonSound(ScanString(s[n..]).rest);
    } else {
      ParseMemberSound(false, s);
    }
  }

  lemma {:induction false} ParseColonSound(s: string)
    requires ParseColon(s).Ok?
    ensures var p := ParseColon(s);
            && AllSpace(p.value.cws) && AllSpace(p.value.endws) && WfValue(p.value.val) && WfItems(true, p.value.more)
            && p.value.cws + ([':'] + Print(p.value.val, Tail(true, p.value, p.rest))) == s
    decreases |s|, 4
  {
    var n := SpaceRun(s);
    Split(s, n);
    SpaceRunFacts(s);
    Cons(s[n..]);
    ParseMemberSound(true, s[n..][1..]);
  }

  lemma {:induction false} ParseMemberSound(obj: bool, s: string)
    requires ParseMember(obj, s).Ok?
    ensures var p := ParseMember(obj, s);
            && p.value.kws == p.value.key == p.value.cws == ""
            && AllSpace(p.value.endws) && WfValue(p.value.val) && WfItems(obj, p.value.more)
            && Print(p.value.val, Tail(obj, p.value, p.rest)) == s
    decreases |s|, 3
  {
    ParseValueSound(s);
    ParseTailSound(obj, ParseValue(s).rest, ParseValue(s).value);
  }

  lemma {:induction false} ParseTailSound(obj: bool, s: string, v: Value)
    requires ParseTail(obj, s).Ok?
    ensures var p := ParseTail(obj, s);
            && AllSpace(p.value.0) && WfItems(obj, p.value.1)
            && Tail(obj, Item("", "", "", v, p.value.0, p.value.1), p.rest) == s
    decreases |s|, 0
  {
    var n := SpaceRun(s);
    Split(s, n);
    SpaceRunFacts(s);
    Cons(s[n..]);
    if Head(s[n..]) == ',' {
      ParseItemsSound(obj, s[n..][1..]);
    }
  }

  lemma BareHead(v: Value, rest: string)
    requires WfValue(v)
    ensures var t := Bare(v, rest);
            && t != "" && !IsSpace(t[0])
            && match v
               case Str(_, _) => t[0] == '"'
               case Num(_, _) => t[0] == '-' || IsDigit(t[0])
               case Word(_, w) => t[0] == w[0]
               case Node(_, obj, _, _) => t[0] == Open(obj)
  {
    match v
    case Num(_, n) => assert NumberText(n, rest)[0] == if n.minus then '-' else n.whole[0];
    case _ =>
  }

  lemma {:induction false} ParseValueComplete(v: Value, rest: string)
    requires WfValue(v) && Stop(rest)
    ensures ParseValue(Print(v, rest)) == Ok(v, rest)
    decreases v, 1
  {
    BareHead(v, rest);
    SpaceRunOf(v.ws, Bare(v, rest));
    ParseBareComplete(v, rest);
  }

  lemma {:induction false} ParseBareComplete(v: Value, rest: string)
    requires WfValue(v) && Stop(rest)
    ensures ParseBare(v.ws, Bare(v, rest)) == Ok(v, rest)
    decreases v, 0
  {
    hide ParseBody, ParseNumber, ScanString, NumberText, Body;
    BareHead(v, rest);
    match v
    case Str(_, tok) => StringTokenLocal(tok, rest);
    case Num(_, n) => ParseNumberComplete(n, rest);
    case Word(_, _) =>
    case Node(_, obj, gap, items) => ParseBodyComplete(obj, gap, items, rest);
  }

  lemma {:induction false} ParseBodyComplete(obj: bool, gap: string, it: Items, rest: string)
    requires AllSpace(gap) && (it.Item? ==> gap == "") && WfItems(obj, it)
    ensures ParseBody(obj, gap + Body(obj, it, rest)) == Ok((gap, it), rest)
    decreases it, 3
  {
    if it.End? {
      SpaceRunOf(gap, [Close(obj)] + rest);
    } else {
      ParseItemsComplete(obj, it, rest);
      ItemsHead(obj, it, rest);
      assert "" + Body(obj, it, rest) == Body(obj, it, rest);
    }
  }

  lemma ItemsHead(obj: bool, it: Items, rest: string)
    requires it.Item? && WfItems(obj, it)
    ensures var s := Body(obj, it, rest); Head(s[SpaceRun(s)..]) != Close(obj)
  {
    if obj {
      var t := it.key + (it.cws + ([':'] + Print(it.val, Tail(obj, it, rest))));
      SpaceRunOf(it.kws, t);
    } else {
      var t := Bare(it.val, Tail(obj, it, rest));
      BareHead(it.val, Tail(obj, it, rest));
      SpaceRunOf(it.val.ws, t);
    }
  }

  lemma {:induction false} ParseItemsComplete(obj: bool, it: Items, rest: string)
    requires it.Item? && WfItems(obj, it)
    ensures ParseItems(obj, Body(obj, it, rest)) == Ok(it, rest)
    decreases it, 2
  {
    ParseMemberComplete(obj, it, rest);
    if obj {
      var m := [':'] + Print(it.val, Tail(obj, it, rest));
      var c := it.cws + m;
      SpaceRunOf(it.cws, m);
      assert ParseColon(c) == Ok(it.(kws := "", key := ""), rest);
      SpaceRunOf(it.kws, it.key + c);
      StringTokenLocal(it.key, c);
    }
  }

  lemma {:induction false} ParseMemberComplete(obj: bool, it: Items, rest: string)
    requires it.Item? && WfItems(obj, it)
    ensures ParseMember(obj, Print(it.val, Tail(obj, it, rest))) == Ok(it.(kws := "", key := "", cws := ""), rest)
    decreases it, 1
  {
    ParseValueComplete(it.val, Tail(obj, it, rest));
    ParseTailComplete(obj, it, rest);
  }

  lemma {:induction false} ParseTailComplete(obj: bool, it: Items, rest: string)
    requires it.Item? && WfItems(obj, it)
    ensures ParseTail(obj, Tail(obj, it, rest)) == Ok((it.endws, it.more), rest)
    decreases it, 0
  {
    if it.more.End? {
      SpaceRunOf(it.endws, [Close(obj)] + rest);
    } else {
      SpaceRunOf(it.endws, [','] + Body(obj, it.more, rest));
      ParseItemsComplete(obj, it.more, rest);
    }
  }

  lemma ParseSound(text: string)
    requires Parse(text).Ok?
    ensures var d := Parse(text).value; d.Wf() && d.Text() == text
  {
    if HasBom(text) {
      Split(text, 3);
      ParseValueSound(text[3..]);
    } else {
      ParseValueSound(text);
    }
  }

  lemma NoBom(v: Value, rest: string)
    requires WfValue(v)
    ensures !HasBom(Print(v, rest))
  {
    BareHead(v, rest);
    var s := Print(v, rest);
    assert s[0] == if v.ws == "" then Bare(v, rest)[0] else v.ws[0];
    assert BOM[0] == 0xef as char;
    assert s[0] != BOM[0];
    if |s| >= 3 { assert s[..3][0] == s[0]; }
  }

  lemma ParseComplete(d: Document)
    requires d.Wf()
    ensures Parse(d.Text()) == Ok(d, "")
  {
    ParseValueComplete(d.root, d.trail);
    if d.bom {
      assert HasBom(d.Text());
    } else {
      NoBom(d.root, d.trail);
    }
  }

  /** A text is the printout of at most one tree, and the recursive reader finds it. */
  lemma ParseIsPrintInverse(text: string, d: Document)
    ensures Parse(text) == Ok(d, "") <==> d.Wf() && d.Text() == text
  {
    if Parse(text) == Ok(d, "") { ParseSound(text); }
    if d.Wf() && d.Text() == text { ParseComplete(d); }
  }

  lemma ParseDecidesGrammar(text: string)
    ensures Parse(text).Ok? <==> Grammatical(text)
    ensures Parse(text).Ok? ==> Parse(text).rest == "" && Parse(text).value.Wf() && Parse(text).value.Text() == text
  {
    if Parse(text).Ok? {
      ParseIsPrintInverse(text, Parse(text).value);
    }
    if Grammatical(text) {
      var d: Document :| d.Wf() && d.Text() == text;
      ParseIsPrintInverse(text, d);
    }
  }
}
