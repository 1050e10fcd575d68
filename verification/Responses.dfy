/** HTTP responses from the sending side (sections 4 and 5 of RFC 9112): what a
    printed number, status line and header section say.  */
module Responses {
  import opened JsonFields
  import opened Strings
  import opened Https

  // ----- numbers -----

  function DigitChar(d: nat, upper: bool): char
    requires d < 16
  {
    if upper then "0123456789ABCDEF"[d] else "0123456789abcdef"[d]
  }

  /** A number in a base, the most significant digit first. */
  function NumberText(n: nat, base: nat, upper: bool): (s: string)
    requires 2 <= base <= 16
    ensures s != ""
  {
    if n < base then [DigitChar(n, upper)]
    else
      Smaller(n, base);
      NumberText(n / base, base, upper) + [DigitChar(n % base, upper)]
  }

  lemma Smaller(n: nat, base: nat)
    requires n >= base >= 2
    ensures n / base < n
  {
    Quotient(n, base);
    Doubled(n / base, base);
  }

  lemma Doubled(q: nat, base: nat)
    requires base >= 2
    ensures q * base >= 2 * q
  {}

  lemma DigitSays(d: nat, base: nat, upper: bool)
    requires d < base && (base == 10 || base == 16)
    ensures DigitIn(DigitChar(d, upper), base) == d
  {}

  lemma Rejoined(n: nat, base: nat)
    requires base >= 1
    ensures n / base * base + n % base == n && n % base < base
  {}

  lemma {:induction false} ValueSays(n: nat, base: nat, upper: bool)
    requires base == 10 || base == 16
    ensures DigitsIn(NumberText(n, base, upper), base) && ValueIn(NumberText(n, base, upper), base) == n
    decreases n
  {
    hide DigitChar, DigitIn;
    var s := NumberText(n, base, upper);
    if n < base {
      DigitSays(n, base, upper);
      assert s[..0] == "" && ValueIn("", base) == 0;
    } else {
      Smaller(n, base);
      Rejoined(n, base);
      DigitSays(n % base, base, upper);
      ValueSays(n / base, base, upper);
      assert s[..|s| - 1] == NumberText(n / base, base, upper);
    }
  }

  /** A printed number below 2^64 is read as that number. */
  lemma NumberSays(n: nat, base: nat, upper: bool)
    requires (base == 10 || base == 16) && n <= ULLONG_MAX
    ensures NumberOf(NumberText(n, base, upper), base) == Some(n)
  {
    hide NumberText, ValueIn, DigitsIn;
    ValueSays(n, base, upper);
  }

  /** A larger one is refused, not reduced modulo 2^64. */
  lemma LargeIsRefused(n: nat, base: nat, upper: bool)
    requires (base == 10 || base == 16) && n > ULLONG_MAX
    ensures NumberOf(NumberText(n, base, upper), base) == None
  {
    hide NumberText, ValueIn, DigitsIn;
    ValueSays(n, base, upper);
  }

  // ----- the status line -----

  function Digit(d: nat): char
    requires d < 10
  {
    ('0' as int + d) as char
  }

  function StatusText(status: nat, older: bool, reason: string): string
    requires 100 <= status < 600
  {
    (if older then "HTTP/1.0 " else "HTTP/1.1 ") + ([Digit(status / 100), Digit(status / 10 % 10), Digit(status % 10)] + reason)
  }

  lemma StatusSays(status: nat, older: bool, reason: string)
    requires 100 <= status < 600 && (reason == "" || reason[0] == ' ')
    ensures StatusOf(StatusText(status, older, reason)) == Some(status)
  {
    var s := StatusText(status, older, reason);
    var a, b, c := status / 100, status / 10 % 10, status % 10;
    assert a * 100 + b * 10 + c == status && 1 <= a <= 5;
    assert |s| == 12 + |reason|;
    assert s[..9] == if older then "HTTP/1.0 " else "HTTP/1.1 ";
    assert s[9] == Digit(a) && s[10] == Digit(b) && s[11] == Digit(c);
    if reason != "" { assert s[12] == reason[0]; }
  }

  // ----- header fields -----

  predicate Token(name: string) {
    name != "" && forall i :: 0 <= i < |name| ==> TokenByte(name[i])
  }

  predicate FieldValue(value: string) {
    LineText(value) && (value != "" ==> !Blank(value[0]) && !Blank(value[|value| - 1]))
  }

  datatype Field = Field(name: string, value: string) {
    predicate Wf() {
      Token(name) && FieldValue(value) && |name| + |value| + 3 < LINE_SIZE
    }
  }

  function FieldText(f: Field): string {
    f.name + (": " + f.value)
  }

  lemma TokenIsLine(name: string)
    requires Token(name)
    ensures LineText(name) && ':' !in name
  {
    forall i | 0 <= i < |name| ensures LineByte(name[i]) && name[i] != ':' { assert TokenByte(name[i]); }
  }

  lemma Untrimmed(value: string)
    requires value != "" ==> !Blank(value[0]) && !Blank(value[|value| - 1])
    ensures TrimRight(TrimLeft(" " + value)) == value
  {
    assert (" " + value)[1..] == value;
    if value == "" { assert TrimLeft("") == "" && TrimRight("") == ""; }
  }

  /** A printed field is read as its name and value. */
  lemma FieldSays(f: Field)
    requires f.Wf()
    ensures FieldOf(FieldText(f)) == Some((f.name, f.value)) && LineText(FieldText(f)) && FieldText(f) != ""
  {
    hide TokenByte, TrimLeft, TrimRight, LineByte;
    var t := FieldText(f);
    TokenIsLine(f.name);
    UntilAt(f.name, ": " + f.value, ':');
    var n := |f.name|;
    assert t[..n] == f.name && t[n + 1..] == " " + f.value;
    Untrimmed(f.value);
    BlankBytes();
    forall i | 0 <= i < |t| ensures LineByte(t[i]) {
      if i < n { assert t[i] == f.name[i]; } else if i >= n + 2 { assert t[i] == f.value[i - n - 2]; }
    }
    assert forall i :: 0 <= i < n ==> t[i] == f.name[i];
  }

  lemma BlankBytes()
    ensures LineByte(':') && LineByte(' ')
  {}

  predicate WfFields(fs: seq<Field>) {
    forall i :: 0 <= i < |fs| ==> fs[i].Wf()
  }

  function FieldLines(fs: seq<Field>, rest: string): string {
    if fs == [] then CRLF + rest else FieldText(fs[0]) + (CRLF + FieldLines(fs[1..], rest))
  }

  function LinesSize(fs: seq<Field>): nat {
    if fs == [] then 2 else |FieldText(fs[0])| + 2 + LinesSize(fs[1..])
  }

  /** What the fields do to a response, one after the other. */
  function AbsorbAll(r: Response, fs: seq<Field>): Option<Response>
    decreases |fs|
  {
    if fs == [] then Some(r)
    else
      var next := Absorbed(r, fs[0].name, fs[0].value);
      if next.None? then None else AbsorbAll(next.value, fs[1..])
  }

  lemma {:induction false} FieldsSay(fs: seq<Field>, rest: string, budget: nat, r: Response)
    requires WfFields(fs) && LinesSize(fs) <= budget && AbsorbAll(r, fs).Some?
    ensures FieldsFrom(FieldLines(fs, rest), budget, r) == Some((AbsorbAll(r, fs).value, rest, budget - LinesSize(fs)))
    decreases |fs|
  {
    hide LineFrom, FieldOf, Absorbed, FieldText, LineByte;
    if fs == [] {
      LineRead("", rest, budget, 0);
      assert "" + (CRLF + rest) == CRLF + rest;
    } else {
      assert fs[0].Wf();
      FieldSays(fs[0]);
      FieldSize(fs[0]);
      LineRead(FieldText(fs[0]), FieldLines(fs[1..], rest), budget, 0);
      FieldsSay(fs[1..], rest, budget - |FieldText(fs[0])| - 2, Absorbed(r, fs[0].name, fs[0].value).value);
    }
  }

  lemma FieldSize(f: Field)
    requires f.Wf()
    ensures |FieldText(f)| + 1 < LINE_SIZE
  {}

  // ----- heads -----

  datatype Head = Head(status: nat, older: bool, reason: string, fields: seq<Field>) {
    /** A final head of printable lines that fits the limits. */
    predicate Wf() {
      && 200 <= status < 600 && (reason == "" || reason[0] == ' ') && LineText(reason) && |reason| + 13 < LINE_SIZE
      && WfFields(fields) && |reason| + 14 + LinesSize(fields) <= HEADER_LIMIT
    }
  }

  function HeadText(h: Head, rest: string): string
    requires h.Wf()
  {
    StatusText(h.status, h.older, h.reason) + (CRLF + FieldLines(h.fields, rest))
  }

  lemma StatusIsLine(status: nat, older: bool, reason: string)
    requires 100 <= status < 600 && LineText(reason)
    ensures LineText(StatusText(status, older, reason)) && |StatusText(status, older, reason)| == |reason| + 12
  {
    var s := StatusText(status, older, reason);
    var v := if older then "HTTP/1.0 " else "HTTP/1.1 ";
    forall i | 0 <= i < |s| ensures LineByte(s[i]) {
      if i < 9 { assert s[i] == v[i]; } else if i >= 12 { assert s[i] == reason[i - 12]; }
    }
  }

  /** A printed final head is read as its status and what its fields say. */
  lemma HeadSays(h: Head, rest: string)
    requires h.Wf() && AbsorbAll(Response(h.status, BLANK, ""), h.fields).Some?
    requires var f := AbsorbAll(Response(h.status, BLANK, ""), h.fields).value.framing; !(f.chunked && f.hasLength)
    ensures HeadFrom(HeadText(h, rest), HEADER_LIMIT, 0) == Some((AbsorbAll(Response(h.status, BLANK, ""), h.fields).value, rest))
  {
    hide LineFrom, FieldsFrom, StatusOf, AbsorbAll, WfFields, LinesSize, LineByte, StatusText;
    StatusSays(h.status, h.older, h.reason);
    StatusIsLine(h.status, h.older, h.reason);
    var line := StatusText(h.status, h.older, h.reason);
    LineRead(line, FieldLines(h.fields, rest), HEADER_LIMIT, 0);
    FieldsSay(h.fields, rest, HEADER_LIMIT - |line| - 2, Response(h.status, BLANK, ""));
    KeepsStatus(Response(h.status, BLANK, ""), h.fields);
  }

  lemma {:induction false} KeepsStatus(r: Response, fs: seq<Field>)
    requires AbsorbAll(r, fs).Some?
    ensures AbsorbAll(r, fs).value.status == r.status
    decreases |fs|
  {
    hide Absorbed;
    if fs != [] {
      AbsorbKeepsStatus(r, fs[0].name, fs[0].value);
      KeepsStatus(Absorbed(r, fs[0].name, fs[0].value).value, fs[1..]);
    }
  }

  // ----- framing -----

  /** A field that concerns neither framing nor redirection. */
  predicate Neutral(f: Field) {
    var n := Fold(f.name);
    n != "content-length" && n != "transfer-encoding" && n != "content-encoding" && n != "location"
  }

  predicate AllNeutral(fs: seq<Field>) {
    forall i :: 0 <= i < |fs| ==> Neutral(fs[i])
  }

  lemma {:induction false} NeutralKeeps(r: Response, fs: seq<Field>)
    requires AllNeutral(fs)
    ensures AbsorbAll(r, fs) == Some(r)
    decreases |fs|
  {
    if fs != [] {
      assert Neutral(fs[0]);
      NeutralKeeps(r, fs[1..]);
    }
  }

  lemma {:induction false} AbsorbJoined(r: Response, a: seq<Field>, b: seq<Field>)
    requires AbsorbAll(r, a).Some?
    ensures AbsorbAll(r, a + b) == AbsorbAll(AbsorbAll(r, a).value, b)
    decreases |a|
  {
    hide Absorbed;
    if a == [] {
      assert a + b == b;
    } else {
      assert (a + b)[1..] == a[1..] + b;
      AbsorbJoined(Absorbed(r, a[0].name, a[0].value).value, a[1..], b);
    }
  }

  /** One field among neutral ones decides. */
  lemma OneDecides(r: Response, before: seq<Field>, f: Field, after: seq<Field>)
    requires AllNeutral(before) && AllNeutral(after) && Absorbed(r, f.name, f.value).Some?
    ensures AbsorbAll(r, before + ([f] + after)) == Some(Absorbed(r, f.name, f.value).value)
  {
    hide Absorbed, AllNeutral;
    NeutralKeeps(r, before);
    AbsorbJoined(r, before, [f] + after);
    assert ([f] + after)[1..] == after;
    NeutralKeeps(Absorbed(r, f.name, f.value).value, after);
  }

  /** With one length field, in decimal and in any letter case, the body is the
      following bytes of that number. */
  lemma LengthFrames(h: Head, name: string, n: nat, before: seq<Field>, after: seq<Field>, rest: string, closed: bool)
    requires h.Wf() && h.fields == before + ([Field(name, NumberText(n, 10, false))] + after)
    requires AllNeutral(before) && AllNeutral(after) && Fold(name) == "content-length" && n <= ULLONG_MAX
    ensures HeadFrom(HeadText(h, rest), HEADER_LIMIT, 0) == Some((Response(h.status, Framing(false, true, n), ""), rest))
    ensures |rest| >= n ==> BodyOf(rest, Framing(false, true, n), closed) == (true, rest[..n])
    ensures |rest| < n ==> BodyOf(rest, Framing(false, true, n), closed) == (false, rest)
  {
    hide AbsorbAll, AllNeutral, NumberOf, NumberText, HeadFrom, HeadText, Head.Wf;
    var f := Field(name, NumberText(n, 10, false));
    var r := Response(h.status, BLANK, "");
    NumberSays(n, 10, false);
    assert Absorbed(r, f.name, f.value) == Some(Response(h.status, Framing(false, true, n), ""));
    OneDecides(r, before, f, after);
    HeadSays(h, rest);
  }

  /** With one field that names the chunked coding, the body is decoded as chunks. */
  lemma ChunkedFrames(h: Head, name: string, value: string, before: seq<Field>, after: seq<Field>, rest: string, closed: bool)
    requires h.Wf() && h.fields == before + ([Field(name, value)] + after)
    requires AllNeutral(before) && AllNeutral(after) && Fold(name) == "transfer-encoding" && Fold(value) == "chunked"
    ensures HeadFrom(HeadText(h, rest), HEADER_LIMIT, 0) == Some((Response(h.status, Framing(true, false, 0), ""), rest))
    ensures BodyOf(rest, Framing(true, false, 0), closed) == ChunkedBody(rest)
  {
    hide AbsorbAll, AllNeutral, HeadFrom, HeadText, Head.Wf, ChunkedBody;
    var f := Field(name, value);
    var r := Response(h.status, BLANK, "");
    assert Absorbed(r, f.name, f.value) == Some(Response(h.status, Framing(true, false, 0), ""));
    OneDecides(r, before, f, after);
    HeadSays(h, rest);
  }

  /** Without either the body is everything up to the end of the stream, and it is
      complete only if the peer announced that end. */
  lemma CloseFrames(h: Head, rest: string, closed: bool)
    requires h.Wf() && AllNeutral(h.fields)
    ensures HeadFrom(HeadText(h, rest), HEADER_LIMIT, 0) == Some((Response(h.status, BLANK, ""), rest))
    ensures BodyOf(rest, BLANK, closed) == (closed, rest)
  {
    hide AbsorbAll, AllNeutral, HeadFrom, HeadText, Head.Wf;
    NeutralKeeps(Response(h.status, BLANK, ""), h.fields);
    HeadSays(h, rest);
  }
}
