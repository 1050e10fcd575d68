/** `wpm_redact_text` of wpm/logging.c: the text every message passes through
    before it reaches a log, a terminal or a JSON document.  */
module Redaction {

  const ESC: char := 27 as char
  const BEL: char := 7 as char

  function At(s: string, i: nat): char {
    if i < |s| then s[i] else '\0'
  }

  // ----- pass 1: control sequences -----

  predicate Visible(c: char) {
    c >= ' ' || c == '\n' || c == '\r' || c == '\t'
  }

  /** Behind the final byte of a control sequence. */
  function SkipCsi(s: string): (r: string)
    ensures |r| <= |s|
  {
    if s == "" then "" else if '@' <= s[0] <= '~' then s[1..] else SkipCsi(s[1..])
  }

  /** Behind the terminator of an operating system command. */
  function SkipOsc(s: string): (r: string)
    ensures |r| <= |s|
  {
    if s == "" then ""
    else if s[0] == BEL then s[1..]
    else if s[0] == ESC && At(s, 1) == '\\' then s[1..][1..]
    else SkipOsc(s[1..])
  }

  /** Behind an escape byte. */
  function SkipEscape(s: string): (r: string)
    ensures |r| <= |s|
  {
    if At(s, 0) == '[' then SkipCsi(s[1..])
    else if At(s, 0) == ']' then SkipOsc(s[1..])
    else s
  }

  function Strip(s: string): (r: string)
    decreases |s|
  {
    if s == "" then ""
    else if s[0] == ESC then Strip(SkipEscape(s[1..]))
    else if Visible(s[0]) then [s[0]] + Strip(s[1..])
    else Strip(s[1..])
  }

  // ----- pass 2: user information in URIs -----

  predicate StartsAt(s: string, i: nat, w: string) {
    i + |w| <= |s| && s[i..i + |w|] == w
  }

  /** First position from `i` on where "://" stands, or |s|. */
  function FindScheme(s: string, i: nat): (k: nat)
    requires i <= |s|
    ensures i <= k <= |s| && (k < |s| ==> k + 3 <= |s|)
    decreases |s| - i
  {
    if i == |s| || StartsAt(s, i, "://") then i else FindScheme(s, i + 1)
  }

  predicate EndsAuthority(c: char) {
    c == '/' || c == '?' || c == '#' || c == ' ' || c == '\t' || c == '\r' || c == '\n'
  }

  function AuthorityEnd(s: string, i: nat): (e: nat)
    requires i <= |s|
    ensures i <= e <= |s|
    decreases |s| - i
  {
    if i == |s| || EndsAuthority(s[i]) then i else AuthorityEnd(s, i + 1)
  }

  /** Behind the last '@' of s[i..e], or `i` when there is none. */
  function BehindLastAt(s: string, i: nat, e: nat): (k: nat)
    requires i <= e <= |s|
    ensures i <= k <= e && (k > i ==> s[k - 1] == '@')
    decreases e
  {
    if e == i then i else if s[e - 1] == '@' then e else BehindLastAt(s, i, e - 1)
  }

  /** The text without the user information of the authority at `a`. */
  function DropAt(s: string, a: nat): (r: string)
    requires a <= |s|
    ensures a <= |r| <= |s|
  {
    s[..a] + s[BehindLastAt(s, a, AuthorityEnd(s, a))..]
  }

  function DropUserInfo(s: string, i: nat): (r: string)
    requires i <= |s|
    decreases |s| - i
  {
    var k := FindScheme(s, i);
    if k == |s| then s else DropUserInfo(DropAt(s, k + 3), k + 3)
  }

  // ----- pass 3: protected fields -----

  function Lower(c: char): char {
    if 'A' <= c <= 'Z' then (c as int + 32) as char else c
  }

  /** Field names stand in the text in any letter case. */
  predicate Occurs(s: string, i: nat, f: string) {
    i + |f| <= |s| && forall j :: 0 <= j < |f| ==> Lower(s[i + j]) == f[j]
  }

  /** First occurrence from `i` on, or |s|. */
  function FindField(s: string, i: nat, f: string): (k: nat)
    requires i <= |s| && f != ""
    ensures i <= k <= |s| && (k < |s| ==> k + |f| <= |s|)
    decreases |s| - i
  {
    if i == |s| || Occurs(s, i, f) then i else FindField(s, i + 1, f)
  }

  predicate IsQuote(c: char) { c == '"' || c == '\'' }

  predicate EndsValue(c: char) {
    c == '&' || c == ' ' || c == '\t' || c == '\r' || c == '\n' || IsQuote(c)
  }

  /** End of a quoted value: its quotation mark, or |s|. */
  function QuoteEnd(s: string, i: nat, q: char): (e: nat)
    requires i <= |s|
    ensures i <= e <= |s| && (e < |s| ==> s[e] == q)
    decreases |s| - i
  {
    if i == |s| || s[i] == q then i
    else if s[i] == '\\' && i + 1 < |s| then QuoteEnd(s, i + 2, q)
    else QuoteEnd(s, i + 1, q)
  }

  function ValueEnd(s: string, i: nat): (e: nat)
    requires i <= |s|
    ensures i <= e <= |s| && (e < |s| ==> EndsValue(s[e]))
    decreases |s| - i
  {
    if i == |s| || EndsValue(s[i]) then i else ValueEnd(s, i + 1)
  }

  predicate Quoted(s: string, v: nat) {
    v < |s| && IsQuote(s[v])
  }

  /** First byte of the value of a field that ends at `v`. */
  function SpanStart(s: string, v: nat): (a: nat)
    requires v <= |s|
    ensures v <= a <= |s|
  {
    if Quoted(s, v) then v + 1 else v
  }

  function SpanEnd(s: string, v: nat): (e: nat)
    requires v <= |s|
    ensures SpanStart(s, v) <= e <= |s|
  {
    if Quoted(s, v) then QuoteEnd(s, v + 1, s[v]) else ValueEnd(s, v)
  }

  /** The value is empty or a single star. */
  predicate Clear(s: string, v: nat)
    requires v <= |s|
  {
    var a, e := SpanStart(s, v), SpanEnd(s, v);
    e == a || (e == a + 1 && s[a] == '*')
  }

  function Mask(s: string, a: nat, e: nat): (r: string)
    requires a < e <= |s|
    ensures |r| == |s| - (e - a) + 1 && r[a] == '*'
  {
    s[..a] + "*" + s[e..]
  }

  function MaskField(s: string, i: nat, f: string): (r: string)
    requires i <= |s| && f != ""
    decreases |s| - i
  {
    var k := FindField(s, i, f);
    if k == |s| then s
    else
      var a, e := SpanStart(s, k + |f|), SpanEnd(s, k + |f|);
      if e > a then MaskField(Mask(s, a, e), a + 1, f) else MaskField(s, a, f)
  }

  const FIELDS: seq<string> := ["secret-key=", "password=", "token=", "access_token=", "api_key="]

  /** Names end in their only equals sign. */
  predicate FieldName(f: string) {
    f != "" && f[|f| - 1] == '=' && forall j :: 0 <= j < |f| - 1 ==> NameByte(f[j])
  }

  predicate NameByte(c: char) { 'a' <= c <= 'z' || c == '-' || c == '_' }

  predicate FieldNames(fields: seq<string>) {
    forall j :: 0 <= j < |fields| ==> FieldName(fields[j])
  }

  lemma ProtectedNames()
    ensures FieldNames(FIELDS)
  {
    assert FieldName("secret-key=") && FieldName("password=") && FieldName("token=");
    assert FieldName("access_token=") && FieldName("api_key=");
  }

  /** The passes for the first `n` fields. */
  function MaskFields(s: string, fields: seq<string>, n: nat): string
    requires n <= |fields| && FieldNames(fields)
  {
    if n == 0 then s else MaskField(MaskFields(s, fields, n - 1), 0, fields[n - 1])
  }

  function Redact(s: string): string {
    ProtectedNames();
    MaskFields(DropUserInfo(Strip(s), 0), FIELDS, |FIELDS|)
  }

  // ----- what is left behind -----

  predicate AllVisible(s: string) {
    forall c :: c in s ==> Visible(c)
  }

  lemma {:induction false} StripVisible(s: string)
    ensures AllVisible(Strip(s)) && |Strip(s)| <= |s|
    decreases |s|
  {
    if s != "" {
      if s[0] == ESC {
        StripVisible(SkipEscape(s[1..]));
      } else {
        StripVisible(s[1..]);
      }
    }
  }

  lemma {:induction false} DropVisible(s: string, i: nat)
    requires i <= |s| && AllVisible(s)
    ensures AllVisible(DropUserInfo(s, i)) && |DropUserInfo(s, i)| <= |s|
    decreases |s| - i
  {
    var k := FindScheme(s, i);
    if k < |s| {
      DropVisible(DropAt(s, k + 3), k + 3);
    }
  }

  lemma MaskKeepsVisible(s: string, a: nat, e: nat)
    requires AllVisible(s) && a < e <= |s|
    ensures AllVisible(Mask(s, a, e))
  {
    forall c | c in Mask(s, a, e) ensures Visible(c) {
      assert c in s[..a] || c == '*' || c in s[e..];
    }
  }

  lemma {:induction false} MaskVisible(s: string, i: nat, f: string)
    requires i <= |s| && f != "" && AllVisible(s)
    ensures AllVisible(MaskField(s, i, f)) && |MaskField(s, i, f)| <= |s|
    decreases |s| - i
  {
    hide Mask, FindField, SpanEnd;
    var k := FindField(s, i, f);
    if k < |s| {
      var a, e := SpanStart(s, k + |f|), SpanEnd(s, k + |f|);
      if e > a {
        MaskKeepsVisible(s, a, e);
        MaskVisible(Mask(s, a, e), a + 1, f);
      } else {
        MaskVisible(s, a, f);
      }
    }
  }

  // Masking one value keeps every other masked value masked.

  lemma InsideField(s: string, i: nat, f: string, x: nat)
    requires FieldName(f) && Occurs(s, i, f) && i <= x < i + |f|
    ensures !EndsValue(s[x]) && s[x] != '*' && (s[x] == '=' <==> x == i + |f| - 1)
  {
    assert Lower(s[i + (x - i)]) == f[x - i];
  }

  lemma {:induction false} QuoteEndShift(s: string, i: nat, t: string, j: nat, q: char)
    requires i <= |s| && j <= |t| && s[i..] == t[j..]
    ensures QuoteEnd(s, i, q) - i == QuoteEnd(t, j, q) - j
    decreases |s| - i
  {
    if i < |s| && s[i] != q {
      assert s[i] == s[i..][0] == t[j..][0] == t[j];
      var n := if s[i] == '\\' && i + 1 < |s| then 2 else 1;
      assert s[i + n..] == s[i..][n..] && t[j + n..] == t[j..][n..];
      QuoteEndShift(s, i + n, t, j + n, q);
    } else if i < |s| {
      assert s[i] == s[i..][0] == t[j..][0] == t[j];
    }
  }

  lemma {:induction false} ValueEndShift(s: string, i: nat, t: string, j: nat)
    requires i <= |s| && j <= |t| && s[i..] == t[j..]
    ensures ValueEnd(s, i) - i == ValueEnd(t, j) - j
    decreases |s| - i
  {
    if i < |s| {
      assert s[i] == s[i..][0] == t[j..][0] == t[j];
      assert s[i + 1..] == s[i..][1..] && t[j + 1..] == t[j..][1..];
      ValueEndShift(s, i + 1, t, j + 1);
    }
  }

  /** Whether a value is clear depends only on the text from it on. */
  lemma ClearShift(s: string, v: nat, t: string, w: nat)
    requires v <= |s| && w <= |t| && s[v..] == t[w..]
    ensures Clear(s, v) == Clear(t, w)
  {
    if v < |s| {
      assert s[v] == s[v..][0] == t[w..][0] == t[w];
      assert s[v + 1..] == s[v..][1..] && t[w + 1..] == t[w..][1..];
      QuoteEndShift(s, v + 1, t, w + 1, s[v]);
      assert v + 1 < |s| ==> s[v + 1] == s[v..][1] == t[w..][1] == t[w + 1];
    }
    ValueEndShift(s, v, t, w);
  }

  /** A clear value that ends before `n` stays clear when only later text changes. */
  lemma ClearPrefix(s: string, t: string, v: nat, n: nat)
    requires n <= |s| && n <= |t| && v < n && Clear(s, v) && SpanEnd(s, v) < n
    requires forall x :: 0 <= x < n ==> s[x] == t[x]
    ensures Clear(t, v)
  {
    var a, e := SpanStart(s, v), SpanEnd(s, v);
    assert s[e] == t[e] && s[v] == t[v];
    if Quoted(s, v) {
      assert QuoteEnd(t, e, s[v]) == e;
      if e == a + 1 { assert t[a] == '*' && QuoteEnd(t, a, s[v]) == e; }
    } else {
      assert ValueEnd(t, e) == e;
      if e == a + 1 { assert t[a] == '*' && ValueEnd(t, a) == e; }
    }
  }

  /** A clear value ends before any later field name begins. */
  lemma ClearEnds(s: string, v: nat, k: nat, g: string)
    requires FieldName(g) && Occurs(s, k, g) && v <= k && Clear(s, v)
    ensures SpanEnd(s, v) < k + |g|
  {
    InsideField(s, k, g, k);
    if |g| > 1 { InsideField(s, k, g, k + 1); }
  }

  /** The value that was just masked is clear. */
  lemma MaskedIsClear(s: string, v: nat)
    requires v <= |s| && SpanStart(s, v) < SpanEnd(s, v)
    ensures var t := Mask(s, SpanStart(s, v), SpanEnd(s, v)); v <= |t| && Clear(t, v)
  {
    var a, e := SpanStart(s, v), SpanEnd(s, v);
    var t := Mask(s, a, e);
    assert a + 1 < |t| ==> t[a + 1] == s[e];
    if Quoted(s, v) {
      assert t[v] == s[v] && QuoteEnd(t, a + 1, s[v]) == a + 1;
    } else {
      assert ValueEnd(t, a + 1) == a + 1 && ValueEnd(t, a) == a + 1;
    }
  }

  lemma MaskBefore(s: string, a: nat, e: nat, i: nat, f: string)
    requires a < e <= |s| && FieldName(f) && Occurs(Mask(s, a, e), i, f) && i <= a
    ensures i + |f| <= a && Occurs(s, i, f)
  {
    var t := Mask(s, a, e);
    if a < i + |f| { InsideField(t, i, f, a); assert false; }
    forall j | 0 <= j < |f| ensures Lower(s[i + j]) == f[j] {
      assert s[i + j] == t[i + j];
    }
  }

  lemma MaskAfter(s: string, a: nat, e: nat, i: nat, f: string)
    requires a < e <= |s| && FieldName(f) && Occurs(Mask(s, a, e), i, f) && i > a
    ensures var j := i + (e - a) - 1;
            && Occurs(s, j, f) && s[j + |f|..] == Mask(s, a, e)[i + |f|..]
  {
    var t, j := Mask(s, a, e), i + (e - a) - 1;
    forall x | 0 <= x < |f| ensures Lower(s[j + x]) == f[x] {
      assert s[j + x] == t[i + x];
    }
  }

  /** `f` occurs before the masked value of `g`: it is the field just masked
      or ends at it, or its own value lies before `g`. */
  lemma FieldBefore(s: string, k: nat, g: string, i: nat, f: string)
    requires FieldName(f) && FieldName(g) && Occurs(s, k, g) && Occurs(s, i, f)
    requires i + |f| <= SpanStart(s, k + |g|)
    ensures i + |f| <= k || i + |f| == k + |g|
  {
    var v := i + |f|;
    InsideField(s, i, f, v - 1);
    if k < v < k + |g| { InsideField(s, k, g, v - 1); assert false; }
    if v == k + |g| + 1 { assert false; }
  }

  predicate Spans(s: string, v: nat, a: nat, e: nat) {
    v <= |s| && a == SpanStart(s, v) && e == SpanEnd(s, v) && a < e
  }

  lemma PrefixSame(s: string, a: nat, e: nat, n: nat)
    requires n <= a < e <= |s|
    ensures forall x :: 0 <= x < n ==> s[x] == Mask(s, a, e)[x]
  {}

  lemma KeepsClearBefore(s: string, k: nat, g: string, i: nat, f: string, a: nat, e: nat)
    requires FieldName(f) && FieldName(g) && Occurs(s, k, g) && Spans(s, k + |g|, a, e)
    requires Occurs(Mask(s, a, e), i, f) && i <= a && i + |f| <= |s|
    requires Clear(s, i + |f|) || i + |f| == k + |g|
    ensures Clear(Mask(s, a, e), i + |f|)
  {
    var t := Mask(s, a, e);
    MaskBefore(s, a, e, i, f);
    FieldBefore(s, k, g, i, f);
    if i + |f| == k + |g| {
      MaskedIsClear(s, k + |g|);
    } else {
      ClearEnds(s, i + |f|, k, g);
      PrefixSame(s, a, e, k + |g|);
      hide Mask, Occurs, Clear, FieldName;
      ClearPrefix(s, t, i + |f|, k + |g|);
    }
  }

  /** Every occurrence of `f` that starts before `n` has a clear value. */
  predicate ClearBelow(s: string, n: nat, f: string) {
    forall i :: 0 <= i < n && Occurs(s, i, f) ==> Clear(s, i + |f|)
  }

  lemma ClearAt(s: string, j: nat, f: string)
    requires ClearBelow(s, |s|, f) && f != "" && Occurs(s, j, f)
    ensures Clear(s, j + |f|)
  {}

  lemma KeepsClearAfter(s: string, a: nat, e: nat, i: nat, f: string)
    requires a < e <= |s| && FieldName(f) && ClearBelow(s, |s|, f)
    requires Occurs(Mask(s, a, e), i, f) && i > a
    ensures Clear(Mask(s, a, e), i + |f|)
  {
    MaskAfter(s, a, e, i, f);
    var j := i + (e - a) - 1;
    FieldNotEmpty(f);
    hide Mask, Clear, FieldName, ClearBelow;
    ClearAt(s, j, f);
    ClearShift(s, j + |f|, Mask(s, a, e), i + |f|);
  }

  /** After the value of `g` at `k` is masked, `f` is clear wherever it was. */
  lemma MaskKeepsClear(s: string, k: nat, g: string, f: string, a: nat, e: nat)
    requires FieldName(f) && FieldName(g) && Occurs(s, k, g) && Spans(s, k + |g|, a, e)
    requires ClearBelow(s, |s|, f)
    ensures ClearBelow(Mask(s, a, e), |Mask(s, a, e)|, f)
  {
    hide Mask, Clear;
    var t := Mask(s, a, e);
    forall i | 0 <= i < |t| && Occurs(t, i, f) ensures Clear(t, i + |f|) {
      if i > a {
        KeepsClearAfter(s, a, e, i, f);
      } else {
        MaskBefore(s, a, e, i, f);
        KeepsClearBefore(s, k, g, i, f, a, e);
      }
    }
  }

  /** The pass for `f` itself: everything up to the masked value is clear. */
  lemma MaskMakesClear(s: string, k: nat, f: string, a: nat, e: nat)
    requires FieldName(f) && Occurs(s, k, f) && Spans(s, k + |f|, a, e) && ClearBelow(s, k, f)
    ensures ClearBelow(Mask(s, a, e), a + 1, f)
  {
    var t := Mask(s, a, e);
    forall i | 0 <= i < a + 1 && Occurs(t, i, f) ensures Clear(t, i + |f|) {
      MaskBefore(s, a, e, i, f);
      FieldBefore(s, k, f, i, f);
      KeepsClearBefore(s, k, f, i, f, a, e);
    }
  }

  /** An empty value needs no masking. */
  lemma EmptyIsClear(s: string, k: nat, f: string)
    requires FieldName(f) && Occurs(s, k, f) && ClearBelow(s, k, f)
    requires SpanStart(s, k + |f|) == SpanEnd(s, k + |f|)
    ensures ClearBelow(s, SpanStart(s, k + |f|), f)
  {
    var a := SpanStart(s, k + |f|);
    forall i | k < i < a && Occurs(s, i, f) ensures false {
      InsideField(s, k, f, k + |f| - 1);
      if i < k + |f| { InsideField(s, i, f, k + |f| - 1); } else { InsideField(s, i, f, i); }
    }
  }

  lemma {:induction false} Found(s: string, i: nat, f: string)
    requires i <= |s| && f != ""
    ensures var k := FindField(s, i, f); (k < |s| ==> Occurs(s, k, f)) && (ClearBelow(s, i, f) ==> ClearBelow(s, k, f))
    decreases |s| - i
  {
    if i < |s| && !Occurs(s, i, f) {
      hide Occurs, Clear;
      Found(s, i + 1, f);
    }
  }

  lemma {:induction false} MaskFieldClears(s: string, i: nat, f: string)
    requires i <= |s| && FieldName(f) && ClearBelow(s, i, f)
    ensures var r := MaskField(s, i, f); ClearBelow(r, |r|, f)
    decreases |s| - i
  {
    hide Mask, Clear, FieldName, IsQuote, ClearBelow, Occurs;
    FieldNotEmpty(f);
    Found(s, i, f);
    var k := FindField(s, i, f);
    if k < |s| {
      var a, e := SpanStart(s, k + |f|), SpanEnd(s, k + |f|);
      if e > a {
        MaskMakesClear(s, k, f, a, e);
        MaskFieldClears(Mask(s, a, e), a + 1, f);
      } else {
        EmptyIsClear(s, k, f);
        MaskFieldClears(s, a, f);
      }
    }
  }

  lemma FieldNotEmpty(f: string)
    requires FieldName(f)
    ensures f != ""
  {}

  lemma {:induction false} MaskFieldKeeps(s: string, i: nat, g: string, f: string)
    requires i <= |s| && FieldName(f) && FieldName(g) && ClearBelow(s, |s|, f)
    ensures var r := MaskField(s, i, g); ClearBelow(r, |r|, f)
    decreases |s| - i
  {
    hide Mask, Clear, FieldName, IsQuote, ClearBelow, Occurs;
    FieldNotEmpty(g);
    Found(s, i, g);
    var k := FindField(s, i, g);
    if k < |s| {
      var a, e := SpanStart(s, k + |g|), SpanEnd(s, k + |g|);
      if e > a {
        MaskKeepsClear(s, k, g, f, a, e);
        MaskFieldKeeps(Mask(s, a, e), a + 1, g, f);
      } else {
        MaskFieldKeeps(s, a, g, f);
      }
    }
  }

  lemma {:induction false} MaskFieldsClear(s: string, fields: seq<string>, n: nat)
    requires n <= |fields| && FieldNames(fields)
    ensures var r := MaskFields(s, fields, n); forall j :: 0 <= j < n ==> ClearBelow(r, |r|, fields[j])
  {
    hide ClearBelow, MaskField, FieldName;
    if n > 0 {
      MaskFieldsClear(s, fields, n - 1);
      var t, g := MaskFields(s, fields, n - 1), fields[n - 1];
      FieldNotEmpty(g);
      NothingBelowZero(t, g);
      MaskFieldClears(t, 0, g);
      forall j | 0 <= j < n - 1 ensures ClearBelow(MaskField(t, 0, g), |MaskField(t, 0, g)|, fields[j]) {
        MaskFieldKeeps(t, 0, g, fields[j]);
      }
    }
  }

  lemma NothingBelowZero(s: string, f: string)
    ensures ClearBelow(s, 0, f)
  {}

  lemma {:induction false} MaskFieldsVisible(s: string, fields: seq<string>, n: nat)
    requires n <= |fields| && FieldNames(fields) && AllVisible(s)
    ensures AllVisible(MaskFields(s, fields, n)) && |MaskFields(s, fields, n)| <= |s|
  {
    hide AllVisible, MaskField, FieldName;
    if n > 0 {
      MaskFieldsVisible(s, fields, n - 1);
      FieldNotEmpty(fields[n - 1]);
      MaskVisible(MaskFields(s, fields, n - 1), 0, fields[n - 1]);
    }
  }

  /** Byte by byte: behind the field the text ends, or the value is empty or one
      star, between quotation marks or up to a byte that ends it. */
  predicate Masked(s: string, v: nat) {
    v >= |s| ||
    if IsQuote(s[v]) then v + 1 == |s| || s[v + 1] == s[v] || (s[v + 1] == '*' && (v + 2 == |s| || s[v + 2] == s[v]))
    else EndsValue(s[v]) || (s[v] == '*' && (v + 1 == |s| || EndsValue(s[v + 1])))
  }

  lemma ClearIsMasked(s: string, v: nat)
    requires v <= |s|
    ensures Clear(s, v) <==> Masked(s, v)
  {
    if v < |s| {
      if IsQuote(s[v]) {
        QuoteNear(s, v + 1, s[v]);
      } else {
        ValueNear(s, v);
      }
    }
  }

  lemma QuoteNear(s: string, i: nat, q: char)
    requires i <= |s| && IsQuote(q)
    ensures QuoteEnd(s, i, q) == i <==> i == |s| || s[i] == q
    ensures i < |s| && s[i] == '*' ==> (QuoteEnd(s, i, q) == i + 1 <==> i + 1 == |s| || s[i + 1] == q)
  {
    if i < |s| && s[i] == '*' {
      assert QuoteEnd(s, i, q) == QuoteEnd(s, i + 1, q);
      if i + 1 < |s| && s[i + 1] != q { assert QuoteEnd(s, i + 1, q) > i + 1; }
    }
  }

  lemma ValueNear(s: string, i: nat)
    requires i <= |s|
    ensures ValueEnd(s, i) == i <==> i == |s| || EndsValue(s[i])
    ensures i < |s| && s[i] == '*' ==> (ValueEnd(s, i) == i + 1 <==> i + 1 == |s| || EndsValue(s[i + 1]))
  {
    if i < |s| && s[i] == '*' { assert ValueEnd(s, i) == ValueEnd(s, i + 1); }
  }

  /** The filtered text is no longer than the message, holds no control byte but
      TAB, LF and CR, and every protected field in it is empty or starred. */
  lemma RedactionProtects(s: string)
    ensures |Redact(s)| <= |s|
    ensures AllVisible(Redact(s))
    ensures forall f, i :: f in FIELDS && 0 <= i < |Redact(s)| && Occurs(Redact(s), i, f) ==>
              Masked(Redact(s), i + |f|)
  {
    hide MaskField, AllVisible, FieldName, Clear, Masked, Strip, DropUserInfo, MaskFields;
    StripVisible(s);
    DropVisible(Strip(s), 0);
    ProtectedNames();
    var t := DropUserInfo(Strip(s), 0);
    MaskFieldsVisible(t, FIELDS, |FIELDS|);
    MaskFieldsClear(t, FIELDS, |FIELDS|);
    forall f, i | f in FIELDS && 0 <= i < |Redact(s)| && Occurs(Redact(s), i, f) ensures Masked(Redact(s), i + |f|) {
      var j :| 0 <= j < |FIELDS| && FIELDS[j] == f;
      assert ClearBelow(Redact(s), |Redact(s)|, FIELDS[j]);
      ClearIsMasked(Redact(s), i + |f|);
    }
  }

  // ----- texts it keeps -----

  /** No control byte, no field and no URI. */
  predicate Plain(s: string) {
    AllVisible(s) && '=' !in s && (':' !in s || '/' !in s)
  }

  lemma {:induction false} StripKeeps(s: string)
    requires AllVisible(s)
    ensures Strip(s) == s
  {
    if s != "" {
      assert s[0] in s && forall c :: c in s[1..] ==> c in s;
      StripKeeps(s[1..]);
      assert [s[0]] + s[1..] == s;
    }
  }

  lemma {:induction false} NoScheme(s: string, i: nat)
    requires i <= |s| && (':' !in s || '/' !in s)
    ensures FindScheme(s, i) == |s|
    decreases |s| - i
  {
    if i < |s| {
      SchemeHere(s, i);
      NoScheme(s, i + 1);
    }
  }

  lemma {:induction false} NoField(s: string, i: nat, f: string)
    requires i <= |s| && '=' !in s && FieldName(f)
    ensures FindField(s, i, f) == |s|
    decreases |s| - i
  {
    if i < |s| {
      var j := i + (|f| - 1);
      if j < |s| { assert s[j] in s && Lower(s[i + (|f| - 1)]) != f[|f| - 1]; }
      NoField(s, i + 1, f);
    }
  }

  lemma {:induction false} NoFields(s: string, fields: seq<string>, n: nat)
    requires n <= |fields| && FieldNames(fields) && '=' !in s
    ensures MaskFields(s, fields, n) == s
  {
    hide MaskField, FindField, FieldName;
    if n > 0 {
      NoFields(s, fields, n - 1);
      FieldNotEmpty(fields[n - 1]);
      NoField(s, 0, fields[n - 1]);
      MaskStep(s, 0, fields[n - 1]);
    }
  }

  lemma PlainIsKept(s: string)
    requires Plain(s)
    ensures Redact(s) == s
  {
    hide MaskFields, DropUserInfo, Strip, FieldNames;
    ProtectedNames();
    StripKeeps(s);
    NoScheme(s, 0);
    DropStep(s, 0);
    NoFields(s, FIELDS, |FIELDS|);
  }

  // ----- the passes, in place -----

  method SkipCsiIn(text: array<char>, read0: nat, n: nat) returns (read: nat)
    requires read0 <= n <= text.Length
    ensures read0 <= read <= n && text[read..n] == SkipCsi(text[read0..n])
  {
    read := read0;
    while read < n && !('@' <= text[read] <= '~')
      invariant read0 <= read <= n && SkipCsi(text[read..n]) == SkipCsi(text[read0..n])
    {
      assert text[read..n][1..] == text[read + 1..n];
      read := read + 1;
    }
    if read < n {
      assert text[read..n][1..] == text[read + 1..n];
      read := read + 1;
    }
  }

  method SkipOscIn(text: array<char>, read0: nat, n: nat) returns (read: nat)
    requires read0 <= n <= text.Length
    ensures read0 <= read <= n && text[read..n] == SkipOsc(text[read0..n])
  {
    read := read0;
    while read < n && text[read] != BEL && !(text[read] == ESC && read + 1 < n && text[read + 1] == '\\')
      invariant read0 <= read <= n && SkipOsc(text[read..n]) == SkipOsc(text[read0..n])
    {
      assert text[read..n][1..] == text[read + 1..n];
      read := read + 1;
    }
    if read < n && text[read] == BEL {
      assert text[read..n][1..] == text[read + 1..n];
      read := read + 1;
    } else if read < n {
      assert text[read..n][1..][1..] == text[read + 2..n];
      read := read + 2;
    }
  }

  /** The escape branch of the first pass. */
  method SkipEscapeIn(text: array<char>, read0: nat, n: nat) returns (read: nat)
    requires read0 <= n <= text.Length
    ensures read0 <= read <= n && text[read..n] == SkipEscape(text[read0..n])
  {
    hide SkipCsi, SkipOsc;
    read := read0;
    if read < n { assert text[read..n][1..] == text[read + 1..n]; }
    if read < n && text[read] == '[' {
      read := SkipCsiIn(text, read + 1, n);
    } else if read < n && text[read] == ']' {
      read := SkipOscIn(text, read + 1, n);
    }
  }

  lemma StripStep(s: string)
    requires s != ""
    ensures Strip(s) == if s[0] == ESC then Strip(SkipEscape(s[1..])) else if Visible(s[0]) then [s[0]] + Strip(s[1..]) else Strip(s[1..])
  {}

  lemma StripEnd()
    ensures Strip("") == ""
  {}

  method StripIn(text: array<char>, n: nat) returns (write: nat)
    requires n <= text.Length
    modifies text
    ensures write <= n && text[..write] == Strip(old(text[..n]))
  {
    hide Strip, SkipEscape, Visible;
    StripEnd();
    ghost var s := text[..n];
    var read := 0;
    write := 0;
    assert text[..0] + Strip(text[0..n]) == Strip(s);
    while read < n
      invariant write <= read <= n
      invariant text[read..n] == s[read..]
      invariant text[..write] + Strip(s[read..]) == Strip(s)
    {
      var c := text[read];
      assert s[read..][1..] == s[read + 1..] == text[read + 1..n];
      ghost var kept := text[..write];
      StripStep(s[read..]);
      read := read + 1;
      if c == ESC {
        read := SkipEscapeIn(text, read, n);
        assert s[read..] == text[read..n];
      } else if Visible(c) {
        assert kept + ([c] + Strip(s[read..])) == (kept + [c]) + Strip(s[read..]);
        text[write] := c;
        write := write + 1;
        assert text[..write] == kept + [c];
        assert text[read..n] == s[read..];
      }
    }
    assert s[n..] == "" && text[..write] + "" == text[..write];
  }

  /** The bytes that are moved stand where they belong. */
  lemma GapClosed(now: seq<char>, s: seq<char>, to: nat, from: nat)
    requires to <= from <= |s| && |now| == |s| - (from - to)
    requires forall k :: 0 <= k < to ==> now[k] == s[k]
    requires forall k :: to <= k < |now| ==> now[k] == s[k + (from - to)]
    ensures now == s[..to] + s[from..]
  {}

  /** `memmove` of the rest of the text over a gap. */
  method CloseGap(text: array<char>, to: nat, from: nat, n0: nat) returns (n: nat)
    requires to <= from <= n0 <= text.Length
    modifies text
    ensures n == n0 - (from - to) && text[..n] == old(text[..to]) + old(text[from..n0])
  {
    hide *;
    n := to;
    ghost var s := text[..n0];
    while n < n0 - (from - to)
      invariant to <= n <= n0 - (from - to)
      invariant forall k :: 0 <= k < to ==> text[k] == s[k]
      invariant forall k :: to <= k < n ==> text[k] == s[k + (from - to)]
      invariant forall k :: n + (from - to) <= k < n0 ==> text[k] == s[k]
    {
      text[n] := text[n + (from - to)];
      n := n + 1;
    }
    GapClosed(text[..n], s, to, from);
    assert s[..to] == old(text[..to]) && s[from..] == old(text[from..n0]);
  }

  lemma DropStep(s: string, i: nat)
    requires i <= |s|
    ensures var k := FindScheme(s, i);
            DropUserInfo(s, i) == if k == |s| then s else DropUserInfo(DropAt(s, k + 3), k + 3)
  {}

  lemma MaskStep(s: string, i: nat, f: string)
    requires i <= |s| && f != ""
    ensures var k := FindField(s, i, f);
            MaskField(s, i, f) ==
            if k == |s| then s
            else
              var a, e := SpanStart(s, k + |f|), SpanEnd(s, k + |f|);
              if e > a then MaskField(Mask(s, a, e), a + 1, f) else MaskField(s, a, f)
  {}

  /** `strstr` for "://". */
  method NextScheme(text: array<char>, n: nat, i: nat) returns (k: nat)
    requires i <= n <= text.Length
    ensures k == FindScheme(text[..n], i) && i <= k <= n && (k < n ==> k + 3 <= n)
  {
    k := i;
    while k < n && !(k + 3 <= n && text[k] == ':' && text[k + 1] == '/' && text[k + 2] == '/')
      invariant i <= k <= n && FindScheme(text[..n], k) == FindScheme(text[..n], i)
    {
      SchemeHere(text[..n], k);
      k := k + 1;
    }
    if k < n { SchemeHere(text[..n], k); }
  }

  lemma SchemeHere(s: string, k: nat)
    requires k < |s|
    ensures StartsAt(s, k, "://") <==> k + 3 <= |s| && s[k] == ':' && s[k + 1] == '/' && s[k + 2] == '/'
  {
    if k + 3 <= |s| { assert s[k..k + 3] == [s[k], s[k + 1], s[k + 2]]; }
  }

  method DropUserInfoIn(text: array<char>, n0: nat) returns (n: nat)
    requires n0 <= text.Length
    modifies text
    ensures n <= n0 && text[..n] == DropUserInfo(old(text[..n0]), 0)
  {
    hide DropAt, FindScheme, DropUserInfo;
    n := n0;
    var read: nat := 0;
    while true
      invariant read <= n <= n0
      invariant DropUserInfo(text[..n], read) == DropUserInfo(old(text[..n0]), 0)
      decreases n - read
    {
      DropStep(text[..n], read);
      var k := NextScheme(text, n, read);
      if k == n { break; }
      read := k + 3;
      n := DropUserInfoAt(text, n, read);
    }
  }

  /** `strcspn` for the bytes that end an authority. */
  method AuthorityEndIn(text: array<char>, n: nat, authority: nat) returns (end: nat)
    requires authority <= n <= text.Length
    ensures end == AuthorityEnd(text[..n], authority) && authority <= end <= n
  {
    end := authority;
    while end < n && !EndsAuthority(text[end])
      invariant authority <= end <= n && AuthorityEnd(text[..n], end) == AuthorityEnd(text[..n], authority)
    {
      end := end + 1;
    }
  }

  lemma AtStep(s: string, i: nat, e: nat)
    requires i <= e < |s|
    ensures BehindLastAt(s, i, e + 1) == if s[e] == '@' then e + 1 else BehindLastAt(s, i, e)
  {}

  /** The search for the last '@' before `end`. */
  method BehindLastAtIn(text: array<char>, n: nat, authority: nat, end: nat) returns (behind: nat)
    requires authority <= end <= n <= text.Length
    ensures behind == BehindLastAt(text[..n], authority, end)
  {
    hide BehindLastAt;
    behind := authority;
    var cursor := authority;
    EmptyRange(text[..n], authority);
    while cursor < end
      invariant authority <= cursor <= end && behind == BehindLastAt(text[..n], authority, cursor)
    {
      AtStep(text[..n], authority, cursor);
      if text[cursor] == '@' { behind := cursor + 1; }
      cursor := cursor + 1;
    }
  }

  lemma EmptyRange(s: string, i: nat)
    requires i <= |s|
    ensures BehindLastAt(s, i, i) == i
  {}

  /** The user information of one authority. */
  method DropUserInfoAt(text: array<char>, n0: nat, authority: nat) returns (n: nat)
    requires authority <= n0 <= text.Length
    modifies text
    ensures authority <= n <= n0
    ensures text[..n] == DropAt(old(text[..n0]), authority)
  {
    hide AuthorityEnd, BehindLastAt;
    n := n0;
    ghost var s := text[..n];
    var end := AuthorityEndIn(text, n, authority);
    var behind := BehindLastAtIn(text, n, authority, end);
    if behind > authority {
      assert s[..authority] == text[..authority] && s[behind..] == text[behind..n];
      n := CloseGap(text, authority, behind, n);
    } else {
      assert s == s[..authority] + s[behind..];
    }
  }

  lemma FieldHere(s: string, k: nat, f: string, i: nat)
    requires k < |s| && i <= |f| != 0 && k + i <= |s| && forall j :: 0 <= j < i ==> Lower(s[k + j]) == f[j]
    ensures i == |f| ==> FindField(s, k, f) == k
    ensures i < |f| && (k + i == |s| || Lower(s[k + i]) != f[i]) ==> FindField(s, k, f) == FindField(s, k + 1, f)
  {
    if i < |f| && k + i < |s| && Occurs(s, k, f) { assert Lower(s[k + i]) == f[i]; }
  }

  /** `wpm_find_protected_field` */
  method FindProtectedField(text: array<char>, n: nat, i0: nat, f: string) returns (k: nat)
    requires i0 <= n <= text.Length && f != ""
    ensures k == FindField(text[..n], i0, f)
  {
    hide FindField, Occurs, Lower;
    k := i0;
    while k < n
      invariant i0 <= k <= n && FindField(text[..n], k, f) == FindField(text[..n], i0, f)
    {
      var i := 0;
      while i < |f| && k + i < n && Lower(text[k + i]) == f[i]
        invariant 0 <= i <= |f| && k + i <= n
        invariant forall j :: 0 <= j < i ==> Lower(text[k + j]) == f[j]
      {
        i := i + 1;
      }
      FieldHere(text[..n], k, f, i);
      if i == |f| { return; }
      k := k + 1;
    }
    EndHere(text[..n], f);
  }

  lemma EndHere(s: string, f: string)
    requires f != ""
    ensures FindField(s, |s|, f) == |s|
  {}

  /** The value of a field that ends at `v`: behind its quotation mark to the
      matching one, or up to a byte that ends it. */
  method FieldValue(text: array<char>, n: nat, v: nat) returns (value: nat, end: nat)
    requires v <= n <= text.Length
    ensures value == SpanStart(text[..n], v) && end == SpanEnd(text[..n], v)
  {
    value, end := v, v;
    if v < n && IsQuote(text[v]) {
      value, end := v + 1, v + 1;
      while end < n && text[end] != text[v]
        invariant value <= end <= n && QuoteEnd(text[..n], end, text[v]) == QuoteEnd(text[..n], value, text[v])
      {
        end := end + if text[end] == '\\' && end + 1 < n then 2 else 1;
      }
    } else {
      while end < n && !EndsValue(text[end])
        invariant v <= end <= n && ValueEnd(text[..n], end) == ValueEnd(text[..n], v)
      {
        end := end + 1;
      }
    }
  }

  method MaskFieldIn(text: array<char>, n0: nat, f: string) returns (n: nat)
    requires n0 <= text.Length && f != ""
    modifies text
    ensures n <= n0 && text[..n] == MaskField(old(text[..n0]), 0, f)
  {
    hide FindField, Mask, MaskField;
    n := n0;
    var read: nat := 0;
    while true
      invariant read <= n <= n0
      invariant MaskField(text[..n], read, f) == MaskField(old(text[..n0]), 0, f)
      decreases n - read
    {
      MaskStep(text[..n], read, f);
      var k := FindProtectedField(text, n, read, f);
      if k == n { break; }
      var value, end := FieldValue(text, n, k + |f|);
      read := value;
      if end > value {
        n := MaskIn(text, value, end, n);
        read := value + 1;
      }
    }
  }

  /** Shorten a value to one star. */
  method MaskIn(text: array<char>, value: nat, end: nat, n0: nat) returns (n: nat)
    requires value < end <= n0 <= text.Length
    modifies text
    ensures n == n0 - (end - value) + 1 && text[..n] == Mask(old(text[..n0]), value, end)
  {
    ghost var s := text[..n0];
    text[value] := '*';
    assert text[..value + 1] == s[..value] + "*";
    assert text[end..n0] == s[end..];
    n := CloseGap(text, value + 1, end, n0);
  }

  method MaskFieldsIn(text: array<char>, n0: nat, fields: seq<string>) returns (n: nat)
    requires n0 <= text.Length && FieldNames(fields)
    modifies text
    ensures n <= n0 && text[..n] == MaskFields(old(text[..n0]), fields, |fields|)
  {
    hide MaskField, FieldName;
    n := n0;
    var i := 0;
    while i < |fields|
      invariant 0 <= i <= |fields| && n <= n0
      invariant text[..n] == MaskFields(old(text[..n0]), fields, i)
    {
      FieldNotEmpty(fields[i]);
      n := MaskFieldIn(text, n, fields[i]);
      i := i + 1;
    }
  }

  /** `wpm_redact_text`: filter the first `n0` bytes in place. */
  method RedactText(text: array<char>, n0: nat) returns (n: nat)
    requires n0 <= text.Length
    modifies text
    ensures n <= n0 && text[..n] == Redact(old(text[..n0]))
  {
    hide MaskFields, DropUserInfo, Strip, FieldNames;
    ProtectedNames();
    n := StripIn(text, n0);
    n := DropUserInfoIn(text, n);
    n := MaskFieldsIn(text, n, FIELDS);
  }
}
