/** UTF-8 admission and string encoding: wpm/json_output.c, and the printer of
    catalogue strings in wpm/repository.c.  */
module JsonText {
  import opened JsonGrammar
  import opened JsonFields
  import Redaction

  // ----- UTF-8 (section 4 of RFC 3629) -----

  function Utf8Text(us: seq<CodePoint>): string {
    if us == [] then "" else Utf8Bytes(us[0]) + Utf8Text(us[1..])
  }

  /** The texts that encode a sequence of scalar values other than NUL. */
  ghost predicate IsUtf8(s: string) {
    exists us: seq<CodePoint> :: 0 !in us && Utf8Text(us) == s
  }

  predicate Continues(c: char) {
    0x80 <= c as int <= 0xbf
  }

  /** `n` continuation bytes folded into `v`; -1 when one is missing. */
  function Fold(s: string, n: nat, v: nat): (r: int)
    ensures r >= 0 ==> n <= |s|
    decreases n
  {
    if n == 0 then v
    else if s == "" || !Continues(s[0]) then -1
    else Fold(s[1..], n - 1, v * 0x40 + (s[0] as int - 0x80))
  }

  datatype Lead = NoLead | Lead(value: nat, minimum: nat, remaining: nat)

  function LeadOf(c: char): Lead {
    var b := c as int;
    if b < 0x80 then Lead(b, 0, 0)
    else if 0xc2 <= b <= 0xdf then Lead(b - 0xc0, 0x80, 1)
    else if 0xe0 <= b <= 0xef then Lead(b - 0xe0, 0x800, 2)
    else if 0xf0 <= b <= 0xf4 then Lead(b - 0xf0, 0x10000, 3)
    else NoLead
  }

  predicate IsScalar(v: int) {
    0 <= v < 0xd800 || 0xe000 <= v < 0x110000
  }

  /** Number of bytes of a well-formed first character, or 0. */
  function FirstLength(s: string): (k: nat)
    requires s != ""
    ensures k <= |s|
  {
    var l := LeadOf(s[0]);
    if l.NoLead? then 0
    else
      var v := Fold(s[1..], l.remaining, l.value);
      if v >= l.minimum && IsScalar(v) then 1 + l.remaining else 0
  }

  function FirstScalar(s: string): CodePoint
    requires s != "" && FirstLength(s) > 0
  {
    Fold(s[1..], LeadOf(s[0]).remaining, LeadOf(s[0]).value)
  }

  predicate Utf8(s: string)
    decreases |s|
  {
    s == "" || (FirstLength(s) > 0 && Utf8(s[FirstLength(s)..]))
  }

  lemma FoldStep(c: char, t: string, n: nat, v: nat)
    requires Continues(c)
    ensures Fold([c] + t, n + 1, v) == Fold(t, n, v * 0x40 + (c as int - 0x80))
  {
    assert ([c] + t)[1..] == t;
  }

  // Six-bit digits.

  lemma Join(h: nat, x: nat)
    requires x < 0x40
    ensures (h * 0x40 + x) / 0x40 == h && (h * 0x40 + x) % 0x40 == x
  {}

  lemma Cut(u: nat)
    ensures u / 0x40 * 0x40 + u % 0x40 == u
    ensures u / 0x1000 == u / 0x40 / 0x40 && u / 0x40000 == u / 0x1000 / 0x40
  {}

  lemma FoldText(s: string, n: nat, v: nat, t: string)
    requires Fold(s, n, v) >= 0
    ensures Fold(s + t, n, v) == Fold(s, n, v)
    decreases n
  {
    if n > 0 {
      assert (s + t)[1..] == s[1..] + t;
      FoldText(s[1..], n - 1, v * 0x40 + (s[0] as int - 0x80), t);
    }
  }

  lemma Fold1(a: char, v: nat)
    requires Continues(a)
    ensures Fold([a], 1, v) == v * 0x40 + (a as int - 0x80)
  {
    FoldStep(a, "", 0, v);
    assert [a] + "" == [a];
  }

  lemma Fold2(a: char, b: char, v: nat)
    requires Continues(a) && Continues(b)
    ensures Fold([a, b], 2, v) == (v * 0x40 + (a as int - 0x80)) * 0x40 + (b as int - 0x80)
  {
    FoldStep(a, [b], 1, v);
    assert [a] + [b] == [a, b];
    Fold1(b, v * 0x40 + (a as int - 0x80));
  }

  lemma Fold3(a: char, b: char, c: char, v: nat)
    requires Continues(a) && Continues(b) && Continues(c)
    ensures Fold([a, b, c], 3, v) ==
            ((v * 0x40 + (a as int - 0x80)) * 0x40 + (b as int - 0x80)) * 0x40 + (c as int - 0x80)
  {
    FoldStep(a, [b, c], 2, v);
    assert [a] + [b, c] == [a, b, c];
    Fold2(b, c, v * 0x40 + (a as int - 0x80));
  }

  lemma LeadBytes(u: CodePoint)
    ensures LeadOf(Utf8Bytes(u)[0]) ==
            if u < 0x80 then Lead(u, 0, 0)
            else if u < 0x800 then Lead(u / 0x40, 0x80, 1)
            else if u < 0x10000 then Lead(u / 0x1000, 0x800, 2)
            else Lead(u / 0x40000, 0x10000, 3)
  {}

  lemma TailBytes(u: CodePoint)
    ensures var t := Utf8Bytes(u)[1..];
            && (u >= 0x10000 ==> Fold(t, 3, u / 0x40000) == u)
            && (0x800 <= u < 0x10000 ==> Fold(t, 2, u / 0x1000) == u)
            && (0x80 <= u < 0x800 ==> Fold(t, 1, u / 0x40) == u)
  {
    hide Fold;
    Cut(u);
    Cut(u / 0x40);
    Cut(u / 0x1000);
    if u < 0x80 {
    } else if u < 0x800 {
      Tail1(0xc0 + u / 0x40, 0x80 + u % 0x40);
      Fold1((0x80 + u % 0x40) as char, u / 0x40);
    } else if u < 0x10000 {
      Tail2(0xe0 + u / 0x1000, 0x80 + u / 0x40 % 0x40, 0x80 + u % 0x40);
      Fold2((0x80 + u / 0x40 % 0x40) as char, (0x80 + u % 0x40) as char, u / 0x1000);
    } else {
      Tail3(0xf0 + u / 0x40000, 0x80 + u / 0x1000 % 0x40, 0x80 + u / 0x40 % 0x40, 0x80 + u % 0x40);
      Fold3((0x80 + u / 0x1000 % 0x40) as char, (0x80 + u / 0x40 % 0x40) as char, (0x80 + u % 0x40) as char, u / 0x40000);
    }
  }

  lemma FoldBytes(u: CodePoint)
    ensures var b := Utf8Bytes(u); var l := LeadOf(b[0]);
            && l.Lead? && l.remaining == |b| - 1 && l.minimum <= u
            && Fold(b[1..], |b| - 1, l.value) == u
  {
    LeadBytes(u);
    TailBytes(u);
    FoldNone(Utf8Bytes(u)[1..], u);
    hide Fold, LeadOf;
  }

  type Byte = x: int | 0 <= x < 256

  lemma Tail1(a: Byte, b: Byte)
    ensures [a as char, b as char][1..] == [b as char]
  {}

  lemma Tail2(a: Byte, b: Byte, c: Byte)
    ensures [a as char, b as char, c as char][1..] == [b as char, c as char]
  {}

  lemma Tail3(a: Byte, b: Byte, c: Byte, d: Byte)
    ensures [a as char, b as char, c as char, d as char][1..] == [b as char, c as char, d as char]
  {}

  lemma FoldNone(s: string, v: nat)
    ensures Fold(s, 0, v) == v
  {}

  lemma FirstOfBytes(u: CodePoint, t: string)
    ensures var s := Utf8Bytes(u) + t; FirstLength(s) == |Utf8Bytes(u)| && FirstScalar(s) == u
  {
    hide Utf8Bytes, LeadOf, Fold;
    var b := Utf8Bytes(u);
    BytesCount(u);
    FoldBytes(u);
    assert (b + t)[1..] == b[1..] + t;
    FoldText(b[1..], |b| - 1, LeadOf(b[0]).value, t);
  }

  lemma BytesCount(u: CodePoint)
    ensures 1 <= |Utf8Bytes(u)|
  {}

  /** The last continuation byte is the last six-bit digit. */
  lemma {:induction false} FoldLast(s: string, n: nat, v: nat)
    requires n >= 1 && Fold(s, n, v) >= 0
    ensures n <= |s| && Continues(s[n - 1])
    ensures var u := Fold(s, n, v); Fold(s, n - 1, v) == u / 0x40 && s[n - 1] as int - 0x80 == u % 0x40
    decreases n
  {
    var d := s[0] as int - 0x80;
    if n == 1 {
      Join(v, d);
    } else {
      FoldLast(s[1..], n - 1, v * 0x40 + d);
      assert s[1..][n - 2] == s[n - 1];
    }
  }

  /** The digits of the first scalar, byte by byte. */
  lemma FirstDigits(s: string)
    requires s != "" && FirstLength(s) > 0
    ensures var k, u, l := FirstLength(s), FirstScalar(s), LeadOf(s[0]);
            && l.Lead? && k == l.remaining + 1 <= |s| && u >= l.minimum
            && (k == 1 ==> u == l.value)
            && (k >= 2 ==> s[k - 1] as int == 0x80 + u % 0x40)
            && (k == 2 ==> u / 0x40 == l.value)
            && (k >= 3 ==> s[k - 2] as int == 0x80 + u / 0x40 % 0x40)
            && (k == 3 ==> u / 0x1000 == l.value)
            && (k == 4 ==> s[1] as int == 0x80 + u / 0x1000 % 0x40 && u / 0x40000 == l.value)
  {
    var k, u, l := FirstLength(s), FirstScalar(s), LeadOf(s[0]);
    var t := s[1..];
    FoldNone(t, l.value);
    hide Fold;
    Cut(u);
    if k > 1 { FoldLast(t, k - 1, l.value); assert t[k - 2] == s[k - 1]; }
    if k > 2 { FoldLast(t, k - 2, l.value); assert t[k - 3] == s[k - 2]; }
    if k > 3 { FoldLast(t, k - 3, l.value); assert t[0] == s[1]; }
  }

  lemma BytesOfFirst(s: string)
    requires s != "" && FirstLength(s) > 0
    ensures FirstLength(s) == |Utf8Bytes(FirstScalar(s))|
    ensures s == Utf8Bytes(FirstScalar(s)) + s[FirstLength(s)..]
  {
    FirstDigits(s);
    var k, u := FirstLength(s), FirstScalar(s);
    Size(k, u);
    hide Fold, FirstLength, FirstScalar;
    Split(s, k);
    assert s[..k] == Utf8Bytes(u);
  }

  lemma Size(k: nat, u: CodePoint)
    requires 1 <= k <= 4
    requires k == 1 ==> u < 0x80
    requires k == 2 ==> 0x80 <= u && u / 0x40 < 0x20
    requires k == 3 ==> 0x800 <= u && u / 0x1000 < 0x10
    requires k == 4 ==> 0x10000 <= u
    ensures |Utf8Bytes(u)| == k
  {}

  lemma {:induction false} Utf8OfText(us: seq<CodePoint>)
    ensures Utf8(Utf8Text(us)) && (0 !in us ==> '\0' !in Utf8Text(us))
  {
    if us != [] {
      Utf8OfText(us[1..]);
      FirstOfBytes(us[0], Utf8Text(us[1..]));
      BytesNotNul(us[0]);
    }
  }

  lemma BytesNotNul(u: CodePoint)
    ensures u != 0 ==> '\0' !in Utf8Bytes(u)
  {}

  lemma {:induction false} TextOfUtf8(s: string) returns (us: seq<CodePoint>)
    requires Utf8(s)
    ensures Utf8Text(us) == s && ('\0' !in s ==> 0 !in us)
    decreases |s|
  {
    if s == "" {
      us := [];
    } else {
      BytesOfFirst(s);
      var u, t := FirstScalar(s), s[FirstLength(s)..];
      us := TextOfUtf8(t);
      assert u == 0 ==> s[0] == '\0';
      us := [u] + us;
    }
  }

  /** The byte-wise recogniser accepts exactly the UTF-8 texts without NUL. */
  lemma Utf8IsRfc3629(s: string)
    ensures '\0' !in s && Utf8(s) <==> IsUtf8(s)
  {
    if '\0' !in s && Utf8(s) {
      var us := TextOfUtf8(s);
      assert 0 !in us && Utf8Text(us) == s;
    }
    if IsUtf8(s) {
      var us: seq<CodePoint> :| 0 !in us && Utf8Text(us) == s;
      Utf8OfText(us);
    }
  }

  /** The continuation bytes of one character. */
  method ReadTail(text: string, p: nat, remaining0: nat, value0: nat) returns (value: int, q: nat)
    requires p <= |text|
    ensures value == Fold(text[p..], remaining0, value0)
    ensures value >= 0 ==> q == p + remaining0 <= |text|
  {
    var remaining: nat := remaining0;
    value, q := value0, p;
    while remaining > 0
      invariant p <= q <= |text| && value >= 0 && q + remaining == p + remaining0
      invariant Fold(text[p..], remaining0, value0) == Fold(text[q..], remaining, value)
    {
      if q >= |text| || !Continues(text[q]) { return -1, q; }
      assert text[q..][1..] == text[q + 1..];
      value := value * 0x40 + (text[q] as int - 0x80);
      q := q + 1;
      remaining := remaining - 1;
    }
  }

  /** `json_utf8` */
  method Utf8Valid(text: string) returns (ok: bool)
    ensures ok == Utf8(text)
  {
    hide Fold, LeadOf;
    var p := 0;
    assert text[0..] == text;
    while p < |text|
      invariant 0 <= p <= |text| && Utf8(text) == Utf8(text[p..])
    {
      var l := LeadOf(text[p]);
      if l.NoLead? { return false; }
      assert text[p..][1..] == text[p + 1..];
      var value, q := ReadTail(text, p + 1, l.remaining, l.value);
      if value < l.minimum || !IsScalar(value) { return false; }
      assert text[p..][q - p..] == text[q..];
      p := q;
    }
    ok := true;
  }

  // ----- decoding keeps UTF-8 -----

  lemma AsciiStep(s: string)
    requires s != "" && s[0] as int < 0x80
    ensures Utf8(s) == Utf8(s[1..])
  {
    FoldNone(s[1..], s[0] as int);
    hide Fold;
  }

  lemma {:induction false} Utf8Ascii(s: string, n: nat)
    requires n <= |s| && forall i :: 0 <= i < n ==> s[i] as int < 0x80
    ensures Utf8(s) == Utf8(s[n..])
    decreases n
  {
    hide Utf8;
    if n == 0 {
      assert s[0..] == s;
    } else {
      assert s[1..][n - 1..] == s[n..];
      AsciiStep(s);
      Utf8Ascii(s[1..], n - 1);
    }
  }

  lemma Utf8Prepend(u: CodePoint, t: string)
    ensures Utf8(Utf8Bytes(u) + t) == Utf8(t)
  {
    BytesCount(u);
    FirstOfBytes(u, t);
    hide FirstLength, FirstScalar, Utf8Bytes;
    assert (Utf8Bytes(u) + t)[|Utf8Bytes(u)|..] == t;
  }

  lemma FirstContinues(s: string, i: nat)
    requires s != "" && 1 <= i < FirstLength(s)
    ensures Continues(s[i])
  {
    var k, l := FirstLength(s), LeadOf(s[0]);
    var t := s[1..];
    hide Fold;
    FoldLast(t, k - 1, l.value);
    if k > 2 { FoldLast(t, k - 2, l.value); }
    if k > 3 { FoldLast(t, k - 3, l.value); }
    assert s[i] == t[i - 1];
  }

  /** An ASCII byte starts a character. */
  lemma {:induction false} Resync(a: string, r: string)
    requires Utf8(a + r) && r != "" && r[0] as int < 0x80
    ensures Utf8(r)
  {
    var s := a + r;
    if a == "" {
      assert s == r;
    } else {
      var k := FirstLength(s);
      assert s[|a|] == r[0];
      if k > |a| {
        FirstContinues(s, |a|);
        assert false;
      }
      assert s[k..] == a[k..] + r;
      Resync(a[k..], r);
    }
  }

  predicate PlainByte(c: char) {
    c >= ' ' && c != '"' && c != '\\'
  }

  function Prefixed(b: string, r: Parsed<string>): Parsed<string> {
    if r.Fail? then Fail else Ok(b + r.value, r.rest)
  }

  lemma PrefixedTwice(a: string, b: string, r: Parsed<string>)
    ensures Prefixed(a, Prefixed(b, r)) == Prefixed(a + b, r)
    ensures Prefixed("", r) == r
  {
    if r.Ok? {
      Assoc(a, b, r.value);
      assert "" + r.value == r.value;
    }
  }

  lemma ScanPlainByte(c: char, t: string)
    requires PlainByte(c)
    ensures ScanBody([c] + t) == Prefixed([c], ScanBody(t))
  {
    assert ([c] + t)[1..] == t;
    assert ScanChar([c] + t) == Ok([c], t);
    hide ScanChar;
  }

  lemma {:induction false} ScanPlain(b: string, t: string)
    requires forall i :: 0 <= i < |b| ==> PlainByte(b[i])
    ensures ScanBody(b + t) == Prefixed(b, ScanBody(t))
  {
    hide ScanBody, PlainByte;
    if b == "" {
      assert b + t == t;
      PrefixedTwice("", "", ScanBody(t));
    } else {
      var c, u := [b[0]], b[1..];
      Cons(b);
      Assoc(c, u, t);
      ScanPlain(u, t);
      ScanPlainByte(b[0], u + t);
      PrefixedTwice(c, u, ScanBody(t));
    }
  }

  /** The bytes of an escape are ASCII, and it stands for one character. */
  lemma EscapeIsAscii(s: string) returns (n: nat, u: CodePoint)
    requires ScanChar(s).Ok? && s[0] == '\\'
    ensures n <= |s| && ScanChar(s) == Ok(Utf8Bytes(u), s[n..])
    ensures forall i :: 0 <= i < n ==> s[i] as int < 0x80
  {
    if s[1] != 'u' {
      n, u := 2, ScanChar(s).value[0] as int;
      assert s[1..][1..] == s[2..];
    } else {
      n, u := HexEscape(s);
    }
  }

  lemma HexEscape(s: string) returns (n: nat, u: CodePoint)
    requires ScanChar(s).Ok? && s[0] == '\\' && s[1] == 'u'
    ensures n <= |s| && ScanChar(s) == Ok(Utf8Bytes(u), s[n..])
    ensures forall i :: 0 <= i < n ==> s[i] as int < 0x80
  {
    hide Utf8Bytes, Hex4;
    var h := Hex4(s[2..]);
    HexAscii(s[2..]);
    assert forall i :: 2 <= i < 6 ==> s[i] == s[2..][i - 2];
    if IsHigh(h) {
      HexAscii(s[8..]);
      assert forall i :: 8 <= i < 12 ==> s[i] == s[8..][i - 8];
      n, u := 12, 0x10000 + (h - 0xd800) * 0x400 + Hex4(s[8..]) - 0xdc00;
    } else {
      n, u := 6, h;
    }
  }

  lemma HexAscii(s: string)
    requires Hex4(s) >= 0
    ensures |s| >= 4 && forall i :: 0 <= i < 4 ==> s[i] as int < 0x80
  {}

  lemma BytesPlain(u: CodePoint)
    requires u >= 0x80
    ensures forall i :: 0 <= i < |Utf8Bytes(u)| ==> PlainByte(Utf8Bytes(u)[i])
  {}

  /** A string body inside UTF-8 text decodes to UTF-8. */
  lemma {:induction false} BodyKeepsUtf8(s: string)
    requires ScanBody(s).Ok? && Utf8(s)
    ensures Utf8(ScanBody(s).value)
    decreases |s|
  {
    if s[0] == '"' {
    } else if s[0] == '\\' {
      var n, u := EscapeIsAscii(s);
      BodyEscape(s, n, u);
    } else {
      var k, u := FirstLength(s), FirstScalar(s);
      var t := s[k..];
      BytesOfFirst(s);
      BytesCount(u);
      if u < 0x80 { assert Utf8Bytes(u) == [s[0]]; } else { BytesPlain(u); }
      hide FirstLength, FirstScalar, Utf8Bytes, ScanChar;
      ScanPlain(Utf8Bytes(u), t);
      BodyKeepsUtf8(t);
      Utf8Prepend(u, ScanBody(t).value);
    }
  }

  lemma {:induction false} BodyEscape(s: string, n: nat, u: CodePoint)
    requires s != "" && s[0] != '"' && 0 < n <= |s| && ScanBody(s).Ok? && Utf8(s)
    requires ScanChar(s) == Ok(Utf8Bytes(u), s[n..])
    requires forall i :: 0 <= i < n ==> s[i] as int < 0x80
    ensures Utf8(ScanBody(s).value)
    decreases |s|, 0
  {
    hide ScanChar, Utf8Bytes;
    Utf8Ascii(s, n);
    BodyKeepsUtf8(s[n..]);
    Utf8Prepend(u, ScanBody(s[n..]).value);
  }

  /** Every string token of a UTF-8 text decodes to UTF-8. */
  lemma DecodedIsUtf8(a: string, tok: string, b: string)
    requires Utf8(a + (tok + b)) && IsStringToken(tok)
    ensures Utf8(Decode(tok))
  {
    var s := tok + b;
    Resync(a, s);
    StringTokenLocal(tok, b);
    Utf8Ascii(s, 1);
    hide ScanBody;
    BodyKeepsUtf8(s[1..]);
  }

  // ----- encoding -----

  function LowHex(d: int): char
    requires 0 <= d < 16
  {
    if d < 10 then ('0' as int + d) as char else ('a' as int + d - 10) as char
  }

  function EscapeByte(c: char): string {
    if c == '"' || c == '\\' then ['\\', c]
    else if c < ' ' then ['\\', 'u', '0', '0', LowHex(c as int / 16), LowHex(c as int % 16)]
    else [c]
  }

  /** The escaped text in front of `rest`. */
  function EscapeText(t: string, rest: string): (r: string)
    ensures |rest| <= |r| <= |rest| + 6 * |t|
  {
    if t == "" then rest else EscapeByte(t[0]) + EscapeText(t[1..], rest)
  }

  /** A string token that stands for `t`. */
  function Quote(t: string): (tok: string)
    ensures 2 <= |tok| <= 6 * |t| + 2
  {
    ['"'] + EscapeText(t, "\"")
  }

  lemma LowHexDigit(d: int)
    requires 0 <= d < 16
    ensures HexDigit(LowHex(d)) == d
  {}

  lemma ScanEscape(c: char, t: string)
    ensures ScanChar(EscapeByte(c) + t) == Ok([c], t) && EscapeByte(c)[0] != '"'
  {
    var s := EscapeByte(c) + t;
    if c == '"' || c == '\\' {
      assert s[2..] == t;
    } else if c < ' ' {
      var h := s[2..];
      assert h == EscapeByte(c)[2..] + t;
      LowHexDigit(c as int / 16);
      LowHexDigit(c as int % 16);
      assert Hex4(h) == c as int;
      assert s[6..] == t;
      assert Utf8Bytes(c as int) == [c];
    } else {
      assert s[1..] == t;
    }
  }

  lemma {:induction false} ScanEscaped(t: string, rest: string)
    ensures ScanBody(EscapeText(t, ['"'] + rest)) == Ok(t, rest)
  {
    if t != "" {
      var u := EscapeText(t[1..], ['"'] + rest);
      ScanEscape(t[0], u);
      ScanEscaped(t[1..], rest);
      assert (EscapeByte(t[0]) + u)[0] == EscapeByte(t[0])[0];
      hide ScanChar, EscapeByte;
      Cons(t);
    }
  }

  /** The encoded string is a token that decodes to the text. */
  lemma QuoteDecodes(t: string)
    ensures IsStringToken(Quote(t)) && Decode(Quote(t)) == t
  {
    ScanEscaped(t, "");
    assert ['"'] + "" == "\"";
    assert Quote(t)[1..] == EscapeText(t, "\"");
  }

  lemma {:induction false} EscapeSnoc(t: string, c: char, rest: string)
    ensures EscapeText(t + [c], rest) == EscapeText(t, EscapeByte(c) + rest)
  {
    hide EscapeByte;
    if t == "" {
      assert t + [c] == [c] && [c][1..] == "";
    } else {
      assert (t + [c])[1..] == t[1..] + [c];
      EscapeSnoc(t[1..], c, rest);
    }
  }

  lemma {:induction false} EscapeFollowed(t: string, a: string, b: string)
    ensures EscapeText(t, a) + b == EscapeText(t, a + b)
  {
    hide EscapeByte;
    if t != "" {
      EscapeFollowed(t[1..], a, b);
      Assoc(EscapeByte(t[0]), EscapeText(t[1..], a), b);
    }
  }

  lemma Assoc(a: string, b: string, c: string)
    ensures (a + b) + c == a + (b + c)
  {}

  /** The loop of both printers: the escaped bytes written so far. */
  lemma EscapeNext(t: string, i: nat)
    requires i < |t|
    ensures EscapeText(t[..i + 1], "") == EscapeText(t[..i], "") + EscapeByte(t[i])
  {
    assert t[..i + 1] == t[..i] + [t[i]];
    EscapeSnoc(t[..i], t[i], "");
    assert EscapeByte(t[i]) + "" == EscapeByte(t[i]) && "" + EscapeByte(t[i]) == EscapeByte(t[i]);
    EscapeFollowed(t[..i], "", EscapeByte(t[i]));
  }

  lemma QuoteOf(t: string)
    ensures ['"'] + EscapeText(t, "") + "\"" == Quote(t)
  {
    EscapeFollowed(t, "", "\"");
    assert "" + "\"" == "\"";
    Assoc(['"'], EscapeText(t, ""), "\"");
  }

  const SIZE_LIMIT: nat := (0xffff_ffff - 3) / 6

  /** `wpm_json_encode_string`: the encoded text, or nothing when the filtered
      text is not UTF-8.  No text encodes as `null`. */
  method EncodeString(text: Option<string>) returns (r: Option<string>)
    ensures text.None? ==> r == Some("null")
    ensures text.Some? ==>
              var safe := Redaction.Redact(text.value);
              r == if |text.value| <= SIZE_LIMIT && Utf8(safe) then Some(Quote(safe)) else None
    ensures text.Some? && r.Some? ==> |r.value| + 1 <= 6 * |text.value| + 3
  {
    hide Utf8, Redaction.Redact, EscapeText, EscapeByte;
    if text.None? { return Some("null"); }
    if |text.value| > SIZE_LIMIT { return None; }
    var t := text.value;
    var buffer := new char[|t|](i requires 0 <= i < |t| => t[i]);
    assert buffer[..|t|] == t;
    var n := Redaction.RedactText(buffer, |t|);
    var safe := buffer[..n];
    var ok := Utf8Valid(safe);
    if !ok { return None; }
    var encoded := ['"'];
    var i := 0;
    assert safe[..0] == "" && ['"'] + EscapeText("", "") == ['"'] by { Nothing(); }
    while i < n
      invariant 0 <= i <= n && encoded == ['"'] + EscapeText(safe[..i], "")
    {
      EscapeNext(safe, i);
      Assoc(['"'], EscapeText(safe[..i], ""), EscapeByte(safe[i]));
      encoded := encoded + EscapeByte(safe[i]);
      i := i + 1;
    }
    assert safe[..n] == safe;
    QuoteOf(safe);
    r := Some(encoded + "\"");
  }

  lemma Nothing()
    ensures EscapeText("", "") == "" && ['"'] + "" == ['"']
  {}

  /** Whether `author_json_string` finds room: seven bytes are kept free before
      every character. */
  predicate AuthorFits(t: string, capacity: nat) {
    capacity >= 3 && forall i :: 0 <= i < |t| ==> 8 + |EscapeText(t[..i], "")| < capacity
  }

  /** `author_json_string` */
  method AuthorString(t: string, capacity: nat) returns (r: Option<string>)
    ensures r == if AuthorFits(t, capacity) then Some(Quote(t)) else None
    ensures r.Some? ==> |r.value| + 1 <= capacity
  {
    hide EscapeText, EscapeByte;
    if capacity < 3 { return None; }
    var output := ['"'];
    var i := 0;
    assert t[..0] == "" && ['"'] + EscapeText("", "") == ['"'] by { Nothing(); }
    while i < |t|
      invariant 0 <= i <= |t| && output == ['"'] + EscapeText(t[..i], "")
      invariant forall k :: 0 <= k < i ==> 8 + |EscapeText(t[..k], "")| < capacity
      invariant |output| + 2 <= capacity
    {
      if |output| + 7 >= capacity { return None; }
      EscapeNext(t, i);
      EscapeSize(t[i]);
      Assoc(['"'], EscapeText(t[..i], ""), EscapeByte(t[i]));
      output := output + EscapeByte(t[i]);
      i := i + 1;
    }
    assert t[..|t|] == t;
    QuoteOf(t);
    r := Some(output + "\"");
  }

  lemma EscapeSize(c: char)
    ensures |EscapeByte(c)| <= 6
  {}

  /** A short text always finds room. */
  lemma ShortFits(t: string, capacity: nat)
    requires 6 * |t| + 3 <= capacity
    ensures AuthorFits(t, capacity)
  {}

  /** Encoding and reading back gives the filtered text, and the encoded string
      is a grammatical text of its own. */
  lemma EncodingRoundTrip(t: string)
    ensures IsStringToken(Quote(t)) && Decode(Quote(t)) == t
    ensures Grammatical(Quote(t))
    ensures ScanString(Quote(t)) == Ok(t, "")
  {
    QuoteDecodes(t);
    hide IsStringToken;
    var q := Quote(t);
    var d := Document(false, Str("", q), "");
    assert Bare(d.root, "") == q + "" == q;
    assert Print(d.root, "") == "" + Bare(d.root, "");
    assert "" + q == q;
    assert d.Wf() && d.Text() == q;
  }
}
