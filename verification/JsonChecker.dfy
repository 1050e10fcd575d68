/** The lexical cursors and the iterative grammar checker of wpm/json_input.c.
    A `const char *` cursor is an index into its text.  */
module JsonChecker {
  import opened JsonGrammar

  /** Largest `size_t`: the size given when no buffer is filled. */
  const SIZE_MAX: nat := 0xffff_ffff

  /** The byte at a cursor; the terminating NUL at the end. */
  function At(text: string, p: nat): char {
    if p < |text| then text[p] else '\0'
  }

  lemma AtIsHead(text: string, p: nat)
    requires p <= |text|
    ensures At(text, p) == Head(text[p..])
    ensures p < |text| ==> text[p..][1..] == text[p + 1..]
  {}

  method Space(text: string, p0: nat) returns (p: nat)
    requires p0 <= |text|
    ensures p == p0 + SpaceRun(text[p0..]) <= |text|
    ensures text[p..] == text[p0..][SpaceRun(text[p0..])..]
  {
    p := p0;
    while IsSpace(At(text, p))
      invariant p0 <= p <= |text|
      invariant p0 + SpaceRun(text[p0..]) == p + SpaceRun(text[p..])
      decreases |text| - p
    {
      assert text[p..][1..] == text[p + 1..];
      p := p + 1;
    }
  }

  function HexPrefix(s: string, n: nat): int
    requires n <= 4 && n <= |s| && forall i :: 0 <= i < n ==> HexDigit(s[i]) >= 0
  {
    if n == 0 then 0 else HexPrefix(s, n - 1) * 16 + HexDigit(s[n - 1])
  }

  method ReadHex4(text: string, p: nat) returns (value: int)
    requires p <= |text|
    ensures value == Hex4(text[p..])
  {
    value := 0;
    var i := 0;
    ghost var s := text[p..];
    while i < 4
      invariant 0 <= i <= 4 && i <= |s|
      invariant forall k :: 0 <= k < i ==> HexDigit(s[k]) >= 0
      invariant value == HexPrefix(s, i)
    {
      var digit := HexDigit(At(text, p + i));
      if digit < 0 { return -1; }
      value := value * 16 + digit;
      i := i + 1;
    }
    assert HexPrefix(s, 1) == HexDigit(s[0]);
    assert HexPrefix(s, 2) == HexPrefix(s, 1) * 16 + HexDigit(s[1]);
  }

  /** One character of a string body. */
  method ReadChar(text: string, p0: nat) returns (ok: bool, p: nat, bytes: string)
    requires p0 < |text| && text[p0] != '"'
    ensures p0 <= p <= |text|
    ensures ScanChar(text[p0..]) == if ok then Ok(bytes, text[p..]) else Fail
  {
    ghost var s := text[p0..];
    ok, p, bytes := false, p0, "";
    if text[p0] < ' ' { return; }
    if text[p0] != '\\' {
      return true, p0 + 1, [text[p0]];
    }
    var c := At(text, p0 + 1);
    match c
    case '"' => return true, p0 + 2, "\"";
    case '\\' => return true, p0 + 2, "\\";
    case '/' => return true, p0 + 2, "/";
    case 'b' => return true, p0 + 2, [8 as char];
    case 'f' => return true, p0 + 2, [12 as char];
    case 'n' => return true, p0 + 2, "\n";
    case 'r' => return true, p0 + 2, "\r";
    case 't' => return true, p0 + 2, "\t";
    case 'u' =>
      assert s[2..] == text[p0 + 2..];
      var u := ReadHex4(text, p0 + 2);
      if u < 0 || IsLow(u) { return; }
      if !IsHigh(u) {
        assert s[6..] == text[p0 + 6..];
        return true, p0 + 6, Utf8Bytes(u);
      }
      if At(text, p0 + 6) != '\\' || At(text, p0 + 7) != 'u' { return; }
      assert s[8..] == text[p0 + 8..];
      var low := ReadHex4(text, p0 + 8);
      if !IsLow(low) { return; }
      assert s[12..] == text[p0 + 12..];
      return true, p0 + 12, Utf8Bytes(0x10000 + (u - 0xd800) * 0x400 + low - 0xdc00);
    case _ => return;
  }

  /** A scanned string that fits a buffer of `size` bytes; without a buffer
      (`keep` false) an escaped NUL is allowed. */
  function Fits(r: Parsed<string>, size: nat, keep: bool): Parsed<string> {
    if r.Ok? && |r.value| < size && (keep ==> '\0' !in r.value) then r else Fail
  }

  /** White space and a string token read into such a buffer. */
  function StringAt(s: string, size: nat, keep: bool): (r: Parsed<string>)
    ensures r.Ok? ==> |r.rest| < |s|
  {
    Fits(ScanString(s[SpaceRun(s)..]), size, keep)
  }

  function After(out: string, r: Parsed<string>): Parsed<string> {
    match r
    case Fail => Fail
    case Ok(d, rest) => Ok(out + d, rest)
  }

  lemma AfterNothing(r: Parsed<string>)
    ensures After("", r) == r
  {
    if r.Ok? { assert "" + r.value == r.value; }
  }

  lemma AfterChar(out: string, s: string)
    requires s != "" && s[0] != '"' && ScanChar(s).Ok?
    ensures After(out, ScanBody(s)) == After(out + ScanChar(s).value, ScanBody(ScanChar(s).rest))
  {
    hide ScanChar;
    var r := ScanBody(ScanChar(s).rest);
    if r.Ok? {
      assert out + (ScanChar(s).value + r.value) == (out + ScanChar(s).value) + r.value;
    }
  }

  lemma NeverFits(out: string, r: Parsed<string>, size: nat, keep: bool)
    requires (keep && '\0' in out) || |out| >= size
    ensures Fits(After(out, r), size, keep) == Fail
  {}

  method ReadBody(text: string, p0: nat, size: nat, keep: bool) returns (ok: bool, p: nat, out: string)
    requires p0 <= |text| && size > 0
    ensures p <= |text| && (ok ==> p0 < p)
    ensures Fits(ScanBody(text[p0..]), size, keep) == if ok then Ok(out, text[p..]) else Fail
  {
    p, out := p0, "";
    ghost var whole := ScanBody(text[p0..]);
    AfterNothing(whole);
    while p < |text| && text[p] != '"'
      invariant p0 <= p <= |text|
      invariant |out| < size && (keep ==> '\0' !in out)
      invariant whole == After(out, ScanBody(text[p..]))
    {
      var good, q, bytes := ReadChar(text, p);
      if !good { return false, p0, ""; }
      AfterChar(out, text[p..]);
      if (keep && '\0' in bytes) || |out| + |bytes| >= size {
        NeverFits(out + bytes, ScanBody(text[q..]), size, keep);
        return false, p0, "";
      }
      out := out + bytes;
      p := q;
    }
    if At(text, p) != '"' { return false, p0, ""; }
    assert out + "" == out;
    return true, p + 1, out;
  }

  method ReadString(text: string, p0: nat, size: nat, keep: bool) returns (ok: bool, p: nat, out: string)
    requires p0 <= |text| && size > 0
    ensures p <= |text| && (if ok then p0 < p else p == p0)
    ensures StringAt(text[p0..], size, keep) == if ok then Ok(out, text[p..]) else Fail
  {
    var q := Space(text, p0);
    ghost var t := text[q..];
    if At(text, q) != '"' { return false, p0, ""; }
    assert t[1..] == text[q + 1..];
    assert ScanString(t) == ScanBody(text[q + 1..]);
    ok, p, out := ReadBody(text, q + 1, size, keep);
    if !ok { p := p0; }
  }

  method SkipDigits(text: string, p0: nat) returns (p: nat)
    requires p0 <= |text|
    ensures p == p0 + DigitRun(text[p0..]) <= |text|
    ensures text[p..] == text[p0..][DigitRun(text[p0..])..]
  {
    p := p0;
    while IsDigit(At(text, p))
      invariant p0 <= p <= |text|
      invariant p0 + DigitRun(text[p0..]) == p + DigitRun(text[p..])
      decreases |text| - p
    {
      assert text[p..][1..] == text[p + 1..];
      p := p + 1;
    }
  }

  method SkipExponent(text: string, p0: nat) returns (ok: bool, p: nat)
    requires p0 <= |text|
    ensures p0 <= p <= |text|
    ensures ok == ParseExponent(text[p0..]).Ok?
    ensures ok ==> ParseExponent(text[p0..]).rest == text[p..]
  {
    p := p0;
    AtIsHead(text, p);
    if At(text, p) == 'e' || At(text, p) == 'E' {
      p := p + 1;
      AtIsHead(text, p);
      if At(text, p) == '+' || At(text, p) == '-' {
        p := p + 1;
      }
      AtIsHead(text, p);
      if !IsDigit(At(text, p)) { return false, p0; }
      p := SkipDigits(text, p);
    }
    return true, p;
  }

  method SkipFraction(text: string, p0: nat) returns (ok: bool, p: nat)
    requires p0 <= |text|
    ensures p0 <= p <= |text|
    ensures ok == ParseFraction(text[p0..]).Ok?
    ensures ok ==> ParseFraction(text[p0..]).rest == text[p..]
  {
    p := p0;
    AtIsHead(text, p);
    if At(text, p) == '.' {
      p := p + 1;
      AtIsHead(text, p);
      if !IsDigit(At(text, p)) { return false, p0; }
      p := SkipDigits(text, p);
    }
    ok, p := SkipExponent(text, p);
  }

  method SkipNumber(text: string, p0: nat) returns (ok: bool, p: nat)
    requires p0 <= |text|
    ensures p <= |text| && (ok ==> p0 < p)
    ensures ok == ParseNumber(text[p0..]).Ok?
    ensures ok ==> ParseNumber(text[p0..]).rest == text[p..]
  {
    hide ParseFraction;
    p := p0;
    AtIsHead(text, p);
    if At(text, p) == '-' {
      p := p + 1;
    }
    AtIsHead(text, p);
    ghost var t := text[p..];
    if At(text, p) == '0' {
      p := p + 1;
    } else {
      if !('1' <= At(text, p) <= '9') { return false, p0; }
      p := SkipDigits(text, p);
    }
    ok, p := SkipFraction(text, p);
  }

  predicate Matches(text: string, p: nat, w: string)
    requires p <= |text|
  {
    p + |w| <= |text| && text[p..p + |w|] == w
  }

  /** A scalar token, as `wpm_json_document_valid` skips it. */
  method SkipScalar(text: string, p0: nat) returns (ok: bool, p: nat)
    requires p0 <= |text| < SIZE_MAX
    requires At(text, p0) != '{' && At(text, p0) != '['
    ensures p <= |text| && (ok ==> p0 < p)
    ensures ok == ParseBare("", text[p0..]).Ok?
    ensures ok ==> ParseBare("", text[p0..]).rest == text[p..]
  {
    ghost var t := text[p0..];
    if |t| >= 4 { assert t[..4] == text[p0..p0 + 4]; }
    if |t| >= 5 { assert t[..5] == text[p0..p0 + 5]; }
    if At(text, p0) == '"' {
      var out;
      assert SpaceRun(t) == 0 && t[0..] == t;
      ok, p, out := ReadString(text, p0, SIZE_MAX, false);
    } else if At(text, p0) == '-' || IsDigit(At(text, p0)) {
      ok, p := SkipNumber(text, p0);
    } else if Matches(text, p0, "true") {
      ok, p := true, p0 + 4;
    } else if Matches(text, p0, "false") {
      ok, p := true, p0 + 5;
    } else if Matches(text, p0, "null") {
      ok, p := true, p0 + 4;
    } else {
      ok, p := false, p0;
    }
  }

  // ----- the state stack of wpm_json_document_valid -----

  datatype State =
    | RootValue | RootEnd
    | ObjectFirst | ObjectKey | ObjectColon | ObjectValue | ObjectEnd
    | ArrayFirst | ArrayValue | ArrayEnd

  predicate IsRoot(q: State) {
    q == RootValue || q == RootEnd
  }

  function RestOf<T>(r: Parsed<T>): Parsed<()> {
    match r
    case Fail => Fail
    case Ok(_, rest) => Ok((), rest)
  }

  /** What a state still has to read before it is popped, by the grammar. */
  function Finish(q: State, s: string): (r: Parsed<()>) {
    match q
    case RootValue => RestOf(ParseValue(s))
    case RootEnd => Ok((), s)
    case ObjectFirst => RestOf(ParseBody(true, s))
    case ObjectKey => RestOf(ParseItems(true, s))
    case ObjectColon => RestOf(ParseColon(s))
    case ObjectValue => RestOf(ParseMember(true, s))
    case ObjectEnd => RestOf(ParseTail(true, s))
    case ArrayFirst => RestOf(ParseBody(false, s))
    case ArrayValue => RestOf(ParseItems(false, s))
    case ArrayEnd => RestOf(ParseTail(false, s))
  }

  /** Whether the remaining text completes the top state and all below it. */
  predicate Completes(below: seq<State>, top: State, s: string)
    decreases |below|
  {
    var r := Finish(top, s);
    r.Ok? && if below == [] then AllSpace(r.rest) else Completes(below[..|below| - 1], below[|below| - 1], r.rest)
  }

  lemma NoSpaceRun(s: string)
    ensures var t := s[SpaceRun(s)..]; SpaceRun(t) == 0 && t[0..] == t
  {
    SpaceRunFacts(s);
  }

  lemma MemberSpace(obj: bool, s: string)
    ensures var t := s[SpaceRun(s)..];
            && RestOf(ParseValue(s)) == RestOf(ParseValue(t))
            && RestOf(ParseMember(obj, s)) == RestOf(ParseMember(obj, t))
            && RestOf(ParseItems(obj, s)) == RestOf(ParseItems(obj, t))
  {
    var t := s[SpaceRun(s)..];
    NoSpaceRun(s);
    assert RestOf(ParseBare(s[..SpaceRun(s)], t)) == RestOf(ParseBare(t[..0], t));
  }

  lemma AllSpaceDrop(s: string)
    ensures AllSpace(s) <==> AllSpace(s[SpaceRun(s)..])
  {
    var n := SpaceRun(s);
    assert forall i :: n <= i < |s| ==> s[i] == s[n..][i - n];
    assert forall i :: 0 <= i < n ==> s[i] == s[..n][i];
  }

  lemma DelimiterSpace(obj: bool, s: string)
    ensures var t := s[SpaceRun(s)..];
            && RestOf(ParseTail(obj, s)) == RestOf(ParseTail(obj, t))
            && RestOf(ParseColon(s)) == RestOf(ParseColon(t))
  {
    NoSpaceRun(s);
  }

  lemma BodySpace(obj: bool, s: string)
    ensures RestOf(ParseBody(obj, s)) == RestOf(ParseBody(obj, s[SpaceRun(s)..]))
  {
    NoSpaceRun(s);
    MemberSpace(obj, s);
  }

  lemma FinishSpace(q: State, s: string)
    requires q != RootEnd
    ensures Finish(q, s) == Finish(q, s[SpaceRun(s)..])
  {
    match q
    case ObjectFirst => BodySpace(true, s);
    case ArrayFirst => BodySpace(false, s);
    case ObjectColon => DelimiterSpace(true, s);
    case ObjectEnd => DelimiterSpace(true, s);
    case ArrayEnd => DelimiterSpace(false, s);
    case ArrayValue => MemberSpace(false, s);
    case _ => MemberSpace(true, s);
  }

  lemma CompletesSpace(below: seq<State>, top: State, s: string)
    requires top == RootEnd ==> below == []
    ensures Completes(below, top, s) == Completes(below, top, s[SpaceRun(s)..])
  {
    if top == RootEnd {
      AllSpaceDrop(s);
    } else {
      FinishSpace(top, s);
    }
  }

  /** The state that follows a complete value. */
  function Follow(q: State): State {
    match q
    case RootValue => RootEnd
    case ObjectValue => ObjectEnd
    case _ => ArrayEnd
  }

  predicate ExpectsValue(q: State) {
    q == RootValue || q == ObjectValue || q == ArrayValue || q == ArrayFirst
  }

  function First(obj: bool): State {
    if obj then ObjectFirst else ArrayFirst
  }

  lemma FinishKey(q: State, t: string)
    requires SpaceRun(t) == 0 && (q == ObjectKey || (q == ObjectFirst && Head(t) != '}'))
    ensures Finish(q, t) == match ScanString(t) case Fail => Fail case Ok(_, r) => Finish(ObjectColon, r)
  {
    assert t[0..] == t;
    if q == ObjectFirst { FinishEmpty(true, t); }
  }

  lemma FinishDelimiter(obj: bool, q: State, t: string)
    requires SpaceRun(t) == 0 && q == (if obj then ObjectEnd else ArrayEnd)
    ensures Finish(q, t) == if Head(t) == Close(obj) then Ok((), t[1..])
                            else if Head(t) == ',' then Finish(if obj then ObjectKey else ArrayValue, t[1..])
                            else Fail
  {
    assert t[0..] == t;
  }

  lemma FinishEmpty(obj: bool, t: string)
    requires SpaceRun(t) == 0
    ensures Head(t) == Close(obj) ==> Finish(First(obj), t) == Ok((), t[1..])
    ensures Head(t) != Close(obj) ==> Finish(First(obj), t) == Finish(if obj then ObjectKey else ArrayValue, t)
  {
    assert t[0..] == t;
  }

  lemma FinishColon(t: string)
    requires SpaceRun(t) == 0
    ensures Finish(ObjectColon, t) == if Head(t) == ':' then Finish(ObjectValue, t[1..]) else Fail
  {
    assert t[0..] == t;
  }

  lemma ValueBare(t: string)
    requires SpaceRun(t) == 0
    ensures RestOf(ParseValue(t)) == RestOf(ParseBare("", t))
  {
    assert t[0..] == t && t[..0] == "";
  }

  lemma MemberBare(obj: bool, t: string)
    requires SpaceRun(t) == 0
    ensures var b := ParseBare("", t);
            RestOf(ParseMember(obj, t)) == if b.Fail? then Fail else RestOf(ParseTail(obj, b.rest))
  {
    assert t[0..] == t && t[..0] == "";
  }

  lemma FinishValue(q: State, t: string)
    requires SpaceRun(t) == 0 && ExpectsValue(q) && (q == ArrayFirst ==> Head(t) != ']')
    ensures var b := ParseBare("", t);
            Finish(q, t) == if b.Fail? then Fail else Finish(Follow(q), b.rest)
  {
    hide ParseBare, ParseTail, ParseMember, ParseValue, ParseBody;
    match q
    case RootValue => ValueBare(t);
    case ObjectValue => MemberBare(true, t);
    case ArrayValue => MemberBare(false, t);
    case ArrayFirst => FinishEmpty(false, t); MemberBare(false, t);
    case _ =>
  }

  // What one token does to the stack.

  lemma CompletesSame(below: seq<State>, q: State, s: string, q': State, s': string)
    requires Finish(q, s) == Finish(q', s')
    ensures Completes(below, q, s) == Completes(below, q', s')
  {}

  lemma CompletesPop(below: seq<State>, q: State, s: string, rest: string)
    requires below != [] && Finish(q, s) == Ok((), rest)
    ensures Completes(below, q, s) == Completes(below[..|below| - 1], below[|below| - 1], rest)
  {}

  lemma CompletesFail(below: seq<State>, q: State, s: string)
    requires Finish(q, s) == Fail
    ensures !Completes(below, q, s)
  {}

  /** A scalar value leaves the state that follows it. */
  lemma CompletesScalar(below: seq<State>, q: State, t: string)
    requires SpaceRun(t) == 0 && ExpectsValue(q) && (q == ArrayFirst ==> Head(t) != ']')
    ensures var b := ParseBare("", t);
            Completes(below, q, t) == (b.Ok? && Completes(below, Follow(q), b.rest))
  {
    hide Finish, ParseBare;
    FinishValue(q, t);
    var b := ParseBare("", t);
    if b.Ok? { CompletesSame(below, q, t, Follow(q), b.rest); } else { CompletesFail(below, q, t); }
  }

  lemma BareOpen(t: string)
    requires Head(t) == '{' || Head(t) == '['
    ensures RestOf(ParseBare("", t)) == Finish(First(t[0] == '{'), t[1..])
  {
    hide ParseBody, ParseNumber, ScanString;
  }

  /** A value that opens a bracket is finished by finishing its inside first. */
  lemma CompletesOpen(below: seq<State>, q: State, t: string)
    requires SpaceRun(t) == 0 && ExpectsValue(q) && (Head(t) == '{' || Head(t) == '[')
    ensures Completes(below, q, t) == Completes(below + [Follow(q)], First(t[0] == '{'), t[1..])
  {
    hide Finish, ParseBare;
    CompletesScalar(below, q, t);
    BareOpen(t);
    var up := below + [Follow(q)];
    var r := Finish(First(t[0] == '{'), t[1..]);
    assert up[..|up| - 1] == below;
    if r.Ok? { CompletesPop(up, First(t[0] == '{'), t[1..], r.rest); }
    else { CompletesFail(up, First(t[0] == '{'), t[1..]); }
  }

  /** The top state is a root state exactly at the bottom of the stack. */
  predicate Stacked(states: seq<State>, depth: nat) {
    depth < |states| && forall i :: 0 <= i <= depth ==> (IsRoot(states[i]) <==> i == 0)
  }

  datatype Verdict = More | Accept | Reject

  /** The part of a round that deals with keys, colons, commas and closing
      brackets; false when a value is expected. */
  method Punctuation(text: string, p0: nat, states: array<State>, depth0: nat)
    returns (done: bool, verdict: Verdict, p: nat, depth: nat)
    requires p0 <= |text| < SIZE_MAX && SpaceRun(text[p0..]) == 0
    requires Stacked(states[..], depth0) && states[depth0] != RootEnd
    modifies states
    ensures p <= |text| && verdict != Accept
    ensures !done ==> p == p0 && depth == depth0 && ExpectsValue(states[depth]) && states[..] == old(states[..])
                      && (states[depth] == ArrayFirst ==> At(text, p) != ']')
    ensures done && verdict == Reject ==> !Completes(old(states[..depth0]), old(states[depth0]), text[p0..])
    ensures done && verdict == More ==>
              && p0 < p && depth <= depth0 && Stacked(states[..], depth)
              && Completes(states[..depth], states[depth], text[p..])
                 == Completes(old(states[..depth0]), old(states[depth0]), text[p0..])
  {
    hide Finish, Completes, ScanString;
    var state := states[depth0];
    ghost var below := states[..depth0];
    ghost var t := text[p0..];
    done, verdict, p, depth := true, Reject, p0, depth0;
    AtIsHead(text, p0);
    if state == ObjectFirst || state == ObjectKey {
      FinishEmpty(true, t);
      if state == ObjectFirst && At(text, p) == '}' {
        CompletesPop(below, state, t, t[1..]);
        assert states[..depth - 1] == below[..depth - 1];
        return true, More, p + 1, depth - 1;
      }
      FinishKey(state, t);
      assert t[0..] == t;
      var ok, q, _ := ReadString(text, p, SIZE_MAX, false);
      if !ok {
        CompletesFail(below, state, t);
        return;
      }
      states[depth] := ObjectColon;
      assert states[..depth] == below;
      CompletesSame(below, state, t, ObjectColon, text[q..]);
      return true, More, q, depth;
    }
    if state == ObjectColon {
      FinishColon(t);
      if At(text, p) != ':' {
        CompletesFail(below, state, t);
        return;
      }
      states[depth] := ObjectValue;
      assert states[..depth] == below;
      CompletesSame(below, state, t, ObjectValue, t[1..]);
      return true, More, p + 1, depth;
    }
    if state == ObjectEnd || state == ArrayEnd {
      FinishDelimiter(state == ObjectEnd, state, t);
      if At(text, p) == Close(state == ObjectEnd) {
        CompletesPop(below, state, t, t[1..]);
        assert states[..depth - 1] == below[..depth - 1];
        return true, More, p + 1, depth - 1;
      }
      if At(text, p) != ',' {
        CompletesFail(below, state, t);
        return;
      }
      states[depth] := if state == ObjectEnd then ObjectKey else ArrayValue;
      assert states[..depth] == below;
      CompletesSame(below, state, t, states[depth], t[1..]);
      return true, More, p + 1, depth;
    }
    if state == ArrayFirst && At(text, p) == ']' {
      FinishEmpty(false, t);
      CompletesPop(below, state, t, t[1..]);
      assert states[..depth - 1] == below[..depth - 1];
      return true, More, p + 1, depth - 1;
    }
    return false, More, p, depth;
  }

  /** The part of a round that reads a value or opens a bracket. */
  method ValueRound(text: string, p0: nat, states: array<State>, depth0: nat)
    returns (verdict: Verdict, p: nat, depth: nat)
    requires p0 <= |text| < SIZE_MAX && SpaceRun(text[p0..]) == 0
    requires Stacked(states[..], depth0) && depth0 + |text| - p0 < states.Length
    requires ExpectsValue(states[depth0]) && (states[depth0] == ArrayFirst ==> At(text, p0) != ']')
    modifies states
    ensures p <= |text| && verdict != Accept
    ensures verdict == Reject ==> !Completes(old(states[..depth0]), old(states[depth0]), text[p0..])
    ensures verdict == More ==>
              && p0 < p && depth <= depth0 + 1 && Stacked(states[..], depth)
              && Completes(states[..depth], states[depth], text[p..])
                 == Completes(old(states[..depth0]), old(states[depth0]), text[p0..])
  {
    hide Finish, Completes, ParseBare;
    var state := states[depth0];
    ghost var below := states[..depth0];
    ghost var t := text[p0..];
    verdict, p, depth := Reject, p0, depth0;
    AtIsHead(text, p);
    states[depth] := Follow(state);
    assert states[..depth] == below;
    if At(text, p) == '{' || At(text, p) == '[' {
      CompletesOpen(below, state, t);
      // The source's capacity test: it cannot fail here.
      if depth + 1 >= states.Length { return; }
      depth := depth + 1;
      states[depth] := First(At(text, p) == '{');
      assert states[..depth] == below + [Follow(state)];
      return More, p + 1, depth;
    }
    CompletesScalar(below, state, t);
    var ok, q := SkipScalar(text, p);
    if ok { verdict, p := More, q; }
  }

  /** `wpm_json_document_valid`: accepts exactly the texts of the grammar. */
  method DocumentValid(text: string) returns (valid: bool)
    requires '\0' !in text && |text| < SIZE_MAX
    ensures valid == Parse(text).Ok?
    ensures valid <==> Grammatical(text)
  {
    ParseDecidesGrammar(text);
    var p := SkipBom(text);
    ghost var content := text[p..];
    CompletesSpace([], RootValue, content);
    p := Space(text, p);
    valid := CheckStates(text, p);
  }

  method SkipBom(text: string) returns (p: nat)
    ensures p == (if HasBom(text) then 3 else 0) <= |text|
  {
    if |text| >= 3 { assert text[..3][0] == text[0] && text[..3][1] == text[1] && text[..3][2] == text[2]; }
    p := if At(text, 0) == BOM[0] && At(text, 1) == BOM[1] && At(text, 2) == BOM[2] then 3 else 0;
    assert p == 3 ==> text[..3] == BOM;
  }

  /** The state loop, started at the first token. */
  method CheckStates(text: string, start: nat) returns (valid: bool)
    requires '\0' !in text && start <= |text| < SIZE_MAX
    ensures valid == Completes([], RootValue, text[start..])
  {
    hide Completes;
    var capacity := |text| - start + 1;
    var states := new State[capacity](_ => RootValue);
    var depth: nat, p: nat := 0, start;
    assert states[..0] == [];
    while true
      invariant start <= p <= |text| && depth <= p - start
      invariant Stacked(states[..], depth)
      invariant Completes(states[..depth], states[depth], text[p..]) == Completes([], RootValue, text[start..])
      decreases |text| - p
    {
      ghost var below := states[..depth];
      var top := states[depth];
      CompletesSpace(below, top, text[p..]);
      NoSpaceRun(text[p..]);
      p := Space(text, p);
      ghost var t := text[p..];
      if top == RootEnd {
        assert Completes(below, top, t) == AllSpace(t) by { AtBottom(below, t); }
        return At(text, p) == '\0';
      }
      var done, verdict, q, d := Punctuation(text, p, states, depth);
      if !done {
        assert states[..depth] == below;
        verdict, q, d := ValueRound(text, p, states, depth);
      }
      if verdict != More { return false; }
      p, depth := q, d;
    }
  }

  lemma AtBottom(below: seq<State>, t: string)
    requires below == []
    ensures Completes(below, RootEnd, t) == AllSpace(t)
  {}
}
