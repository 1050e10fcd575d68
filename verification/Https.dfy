/** HTTP/1.1 response framing (wpm/https.c).  The TLS stream is a byte sequence
    cut into pieces; what is read depends on the bytes alone.  */
module Https {
  import opened JsonFields
  import opened Strings

  const ULLONG_MAX: nat := 0xffff_ffff_ffff_ffff
  const LINE_SIZE: nat := 8192
  const HEADER_LIMIT: nat := 65536
  const URL_SIZE: nat := 4096
  const BYTES: nat := 16384

  // ----- https_number -----

  function DigitIn(c: char, base: nat): int {
    var d := if '0' <= c <= '9' then c as int - '0' as int
             else if base == 16 && 'a' <= c <= 'f' then c as int - 'a' as int + 10
             else if base == 16 && 'A' <= c <= 'F' then c as int - 'A' as int + 10
             else -1;
    if d < base then d else -1
  }

  predicate DigitsIn(s: string, base: nat) {
    forall i :: 0 <= i < |s| ==> DigitIn(s[i], base) >= 0
  }

  /** The value of a digit string in a base. */
  function ValueIn(s: string, base: nat): nat
    requires DigitsIn(s, base)
  {
    if s == "" then 0 else ValueIn(s[..|s| - 1], base) * base + DigitIn(s[|s| - 1], base)
  }

  lemma {:induction false} ValueGrows(s: string, n: nat, base: nat)
    requires DigitsIn(s, base) && n <= |s| && base >= 1
    ensures ValueIn(s[..n], base) <= ValueIn(s, base)
    decreases |s|
  {
    if n == |s| {
      assert s[..n] == s;
    } else {
      var t := s[..|s| - 1];
      ValueGrows(t, n, base);
      assert t[..n] == s[..n];
      Larger(ValueIn(t, base), base);
    }
  }

  lemma Larger(v: nat, base: nat)
    requires base >= 1
    ensures v <= v * base
  {}

  /** What a text of digits in a base says, if it fits 64 bits. */
  function NumberOf(s: string, base: nat): Option<nat> {
    if s != "" && DigitsIn(s, base) && ValueIn(s, base) <= ULLONG_MAX then Some(ValueIn(s, base)) else None
  }

  lemma QuotientTest(value: nat, digit: nat, base: nat)
    requires base >= 1 && digit <= ULLONG_MAX
    ensures value > (ULLONG_MAX - digit) / base <==> value * base + digit > ULLONG_MAX
  {
    var q := (ULLONG_MAX - digit) / base;
    assert q * base <= ULLONG_MAX - digit < (q + 1) * base by { Quotient(ULLONG_MAX - digit, base); }
    if value > q { Times(q + 1, value, base); } else { Times(value, q, base); }
  }

  lemma Quotient(n: nat, base: nat)
    requires base >= 1
    ensures n / base * base <= n < (n / base + 1) * base
  {}

  lemma Times(a: nat, b: nat, base: nat)
    requires a <= b
    ensures a * base <= b * base
  {}

  /** `https_number`: exactly the nonempty digit strings of value below 2^64. */
  method Number(text: string, base: nat) returns (r: Option<nat>)
    requires base == 10 || base == 16
    ensures r == NumberOf(text, base)
  {
    if text == "" { return None; }
    var value: nat := 0;
    assert text[..0] == "";
    for i := 0 to |text|
      invariant DigitsIn(text[..i], base) && value == ValueIn(text[..i], base) <= ULLONG_MAX
    {
      var d := DigitIn(text[i], base);
      if d < 0 { return None; }
      var next := text[..i + 1];
      assert next[..i] == text[..i];
      QuotientTest(value, d, base);
      if value > (ULLONG_MAX - d) / base {
        if DigitsIn(text, base) { ValueGrows(text, i + 1, base); }
        return None;
      }
      value := value * base + d;
    }
    assert text[..|text|] == text;
    r := Some(value);
  }

  // ----- the connection -----

  function Joined(pieces: seq<string>): string {
    if pieces == [] then "" else pieces[0] + Joined(pieces[1..])
  }

  /** A decrypted stream: a buffer with what has been read of it, and the pieces
      still to come.  `closed` tells a close notification from an abrupt end. */
  class Connection {
    var buffer: string
    var used: nat
    var pieces: seq<string>
    const closed: bool

    ghost predicate Valid()
      reads this
    {
      used <= |buffer| && forall i :: 0 <= i < |pieces| ==> pieces[i] != ""
    }

    ghost function Remaining(): string
      reads this
      requires Valid()
    {
      buffer[used..] + Joined(pieces)
    }

    constructor (stream: seq<string>, closed: bool)
      requires forall i :: 0 <= i < |stream| ==> stream[i] != ""
      ensures Valid() && Remaining() == Joined(stream) && this.closed == closed
    {
      buffer, used, pieces := "", 0, stream;
      this.closed := closed;
    }

    /** `https_read` */
    method Read(size: nat) returns (n: int, bytes: string)
      requires Valid() && size > 0
      modifies this
      ensures Valid()
      ensures if old(Remaining()) == "" then bytes == "" && n == (if closed then 0 else -1) && Remaining() == ""
              else 1 <= n <= size && n == |bytes| && old(Remaining()) == bytes + Remaining()
    {
      bytes := "";
      if used == |buffer| {
        if pieces == [] { return if closed then 0 else -1, ""; }
        assert buffer[used..] == "" && "" + Joined(pieces) == Joined(pieces);
        buffer, pieces, used := pieces[0], pieces[1..], 0;
        assert buffer[0..] == buffer;
      }
      assert Remaining() == old(Remaining());
      var count := |buffer| - used;
      if count > size { count := size; }
      bytes := buffer[used..used + count];
      assert buffer[used..] == bytes + buffer[used + count..];
      used := used + count;
      n := count;
    }
  }

  // ----- lines -----

  predicate LineByte(c: char) {
    c != '\r' && (c >= ' ' || c == '\t') && c != 127 as char
  }

  /** The line at the head of a stream, the rest and the budget left; `size`
      bytes of the line are read already. */
  function LineFrom(s: string, budget: nat, size: nat): Option<(string, string, nat)>
    decreases |s|
  {
    if budget == 0 || size + 1 >= LINE_SIZE || s == "" then None
    else if s[0] == '\r' then
      if budget == 1 || |s| < 2 || s[1] != '\n' then None else Some(("", s[2..], budget - 2))
    else if !LineByte(s[0]) then None
    else
      match LineFrom(s[1..], budget - 1, size + 1)
      case None => None
      case Some((line, rest, left)) => Some(([s[0]] + line, rest, left))
  }

  function LineOf(s: string, budget: nat): Option<(string, string, nat)> {
    LineFrom(s, budget, 0)
  }

  lemma {:induction false} LineShrinks(s: string, budget: nat, size: nat)
    requires LineFrom(s, budget, size).Some?
    ensures var (line, rest, left) := LineFrom(s, budget, size).value; |rest| + |line| + 2 == |s| && left + |line| + 2 == budget
  {
    if s[0] != '\r' { LineShrinks(s[1..], budget - 1, size + 1); }
  }

  /** What a line read so far does to the rest. */
  function Before(front: string, r: Option<(string, string, nat)>): Option<(string, string, nat)> {
    match r
    case None => None
    case Some((line, rest, left)) => Some((front + line, rest, left))
  }

  lemma BeforeNext(front: string, s: string, budget: nat, size: nat)
    requires budget > 0 && size + 1 < LINE_SIZE && s != "" && LineByte(s[0])
    ensures Before(front, LineFrom(s, budget, size)) == Before(front + [s[0]], LineFrom(s[1..], budget - 1, size + 1))
  {
    var r := LineFrom(s[1..], budget - 1, size + 1);
    if r.Some? { assert front + ([s[0]] + r.value.0) == (front + [s[0]]) + r.value.0; }
  }

  lemma BeforeNothing(r: Option<(string, string, nat)>)
    ensures Before("", r) == r
  {
    if r.Some? { assert "" + r.value.0 == r.value.0; }
  }

  lemma LineAt(s: string, budget: nat, size: nat)
    requires budget > 0 && size + 1 < LINE_SIZE
    ensures s == "" ==> LineFrom(s, budget, size) == None
    ensures s != "" && s[0] == '\r' ==>
              LineFrom(s, budget, size) == if budget == 1 || |s| < 2 || s[1] != '\n' then None else Some(("", s[2..], budget - 2))
    ensures s != "" && s[0] != '\r' && !LineByte(s[0]) ==> LineFrom(s, budget, size) == None
  {}

  lemma LineStops(s: string, budget: nat, size: nat)
    requires budget == 0 || size + 1 >= LINE_SIZE
    ensures LineFrom(s, budget, size) == None
  {}

  /** `https_line` */
  method Line(c: Connection, budget0: nat) returns (r: Option<string>, budget: nat)
    requires c.Valid()
    modifies c
    ensures c.Valid()
    ensures var l := LineOf(old(c.Remaining()), budget0);
            if r.Some? then l == Some((r.value, c.Remaining(), budget)) else l == None
  {
    hide Connection.Remaining, LineFrom;
    var line := "";
    budget := budget0;
    ghost var all := LineOf(c.Remaining(), budget0);
    BeforeNothing(all);
    while budget > 0 && |line| + 1 < LINE_SIZE
      invariant c.Valid()
      invariant Before(line, LineFrom(c.Remaining(), budget, |line|)) == all
    {
      ghost var s := c.Remaining();
      LineAt(s, budget, |line|);
      var n, bytes := c.Read(1);
      if n != 1 { return None, budget; }
      budget := budget - 1;
      assert bytes == [s[0]] && c.Remaining() == s[1..];
      var b := bytes[0];
      if b == '\r' {
        if budget == 0 { return None, budget; }
        n, bytes := c.Read(1);
        if n != 1 || bytes[0] != '\n' { return None, budget; }
        budget := budget - 1;
        assert bytes == [s[1]] && c.Remaining() == s[2..] && line + "" == line;
        return Some(line), budget;
      }
      if (b < ' ' && b != '\t') || b == 127 as char { return None, budget; }
      BeforeNext(line, s, budget + 1, |line|);
      line := line + [b];
    }
    LineStops(c.Remaining(), budget, |line|);
    r := None;
  }

  // ----- fields -----

  predicate TokenByte(c: char) {
    'a' <= c <= 'z' || 'A' <= c <= 'Z' || '0' <= c <= '9' || c in "!#$%&'*+-.^_`|~"
  }

  /** Name and value of a field line (section 5 of RFC 9112). */
  function FieldOf(line: string): Option<(string, string)> {
    var n := Until(line, ':');
    if n == 0 || n == |line| || exists i :: 0 <= i < n && !TokenByte(line[i]) then None
    else Some((line[..n], TrimRight(TrimLeft(line[n + 1..]))))
  }

  lemma TrimLeftAt(line: string, p: nat)
    requires p <= |line|
    ensures p < |line| && Blank(line[p]) ==> TrimLeft(line[p..]) == TrimLeft(line[p + 1..])
    ensures !(p < |line| && Blank(line[p])) ==> TrimLeft(line[p..]) == line[p..]
  {
    if p < |line| { assert line[p..][1..] == line[p + 1..]; }
  }

  lemma TrimRightAt(line: string, p: nat, end: nat)
    requires p <= end <= |line|
    ensures p < end && Blank(line[end - 1]) ==> TrimRight(line[p..end]) == TrimRight(line[p..end - 1])
    ensures !(p < end && Blank(line[end - 1])) ==> TrimRight(line[p..end]) == line[p..end]
  {
    if p < end { assert line[p..end][..end - p - 1] == line[p..end - 1]; }
  }

  /** A field value without the blanks around it. */
  method Trimmed(line: string, start: nat) returns (value: string)
    requires start <= |line|
    ensures value == TrimRight(TrimLeft(line[start..]))
  {
    hide TrimLeft, TrimRight;
    var p := start;
    TrimLeftAt(line, p);
    while p < |line| && Blank(line[p])
      invariant start <= p <= |line| && TrimLeft(line[p..]) == TrimLeft(line[start..])
    {
      TrimLeftAt(line, p);
      p := p + 1;
    }
    TrimLeftAt(line, p);
    var end := |line|;
    assert line[p..end] == line[p..];
    while end > p && Blank(line[end - 1])
      invariant p <= end <= |line| && TrimRight(line[p..end]) == TrimRight(line[p..])
    {
      TrimRightAt(line, p, end);
      end := end - 1;
    }
    TrimRightAt(line, p, end);
    value := line[p..end];
  }

  /** `https_field` */
  method Field(line: string) returns (r: Option<(string, string)>)
    ensures r == FieldOf(line)
  {
    hide TrimLeft, TrimRight, TokenByte;
    var n := Until(line, ':');
    if n == |line| || n == 0 { return None; }
    for p := 0 to n
      invariant forall i :: 0 <= i < p ==> TokenByte(line[i])
    {
      if !TokenByte(line[p]) { return None; }
    }
    var value := Trimmed(line, n + 1);
    r := Some((line[..n], value));
  }

  // ----- bodies -----

  /** The part of a response's head that frames the body. */
  datatype Framing = Framing(chunked: bool, hasLength: bool, length: nat)

  /** A body with a length, or up to the end of the stream: success and output. */
  function PlainBody(s: string, f: Framing, closed: bool): (bool, string) {
    if f.hasLength then if |s| >= f.length then (true, s[..f.length]) else (false, s)
    else (closed, s)
  }

  /** Trailer lines up to an empty one. */
  function TrailerOk(s: string, budget: nat): bool
    decreases |s|
  {
    match LineOf(s, budget)
    case None => false
    case Some((line, rest, left)) =>
      line == "" || (TrailerField(line) && (LineShrinks(s, budget, 0); TrailerOk(rest, left)))
  }

  predicate TrailerField(line: string) {
    var f := FieldOf(line);
    f.Some? && Strings.Fold(f.value.0) != "content-length" && Strings.Fold(f.value.0) != "transfer-encoding"
  }

  /** The size a chunk line names, before any extension. */
  function ChunkSize(line: string): Option<nat> {
    NumberOf(line[..Until(line, ';')], 16)
  }

  /** A chunked body (section 7.1 of RFC 9112): success and output. */
  function ChunkedBody(s: string): (r: (bool, string))
    decreases |s|
  {
    match LineOf(s, LINE_SIZE)
    case None => (false, "")
    case Some((line, rest, _)) =>
      var size := ChunkSize(line);
      if size.None? then (false, "")
      else if size.value == 0 then (TrailerOk(rest, HEADER_LIMIT), "")
      else if |rest| < size.value then (false, rest)
      else
        var data, after := rest[..size.value], LineOf(rest[size.value..], 2);
        if after.None? || after.value.0 != "" then (false, data)
        else
          LineShrinks(s, LINE_SIZE, 0);
          LineShrinks(rest[size.value..], 2, 0);
          var more := ChunkedBody(after.value.1);
          (more.0, data + more.1)
  }

  function BodyOf(s: string, f: Framing, closed: bool): (bool, string) {
    if f.chunked then ChunkedBody(s) else PlainBody(s, f, closed)
  }

  /** The output file.  A write may fail and leave a part; the progress counter,
      which shows the size written, must not overflow. */
  class Sink {
    var written: string

    constructor ()
      ensures written == ""
    {
      written := "";
    }

    method Write(data: string) returns (ok: bool)
      modifies this
      ensures if ok then written == old(written) + data && |written| <= ULLONG_MAX
              else old(written) <= written <= old(written) + data
    {
      if |written| > ULLONG_MAX - |data| { return false; }
      var n: nat :| n <= |data|;
      var reported: bool := *;
      written := written + data[..n];
      assert data[..|data|] == data;
      ok := reported && n == |data|;
    }
  }

  /** What a copy of at most `bound` bytes would write. */
  function Bounded(s: string, bound: Option<nat>): string {
    if bound.Some? && |s| >= bound.value then s[..bound.value] else s
  }

  /** The inner loop of `https_body`: copy until `bound` bytes are written, or to the
      end of the stream when there is no bound; `stored` tells whether every
      write succeeded. */
  method Copy(c: Connection, bound: Option<nat>, sink: Sink) returns (ended: bool, failed: bool, stored: bool)
    requires c.Valid()
    modifies c, sink
    ensures c.Valid()
    ensures stored ==> sink.written == old(sink.written) + Bounded(old(c.Remaining()), bound)
    ensures stored ==> var s := old(c.Remaining());
            if bound.Some? && |s| >= bound.value then !ended && !failed && c.Remaining() == s[bound.value..]
            else ended == c.closed && failed == !c.closed
    ensures !stored ==> old(sink.written) <= sink.written <= old(sink.written) + Bounded(old(c.Remaining()), bound)
  {
    hide Connection.Remaining;
    ended, failed, stored := false, false, true;
    ghost var s, before, output := c.Remaining(), sink.written, "";
    assert "" + s == s;
    assert before + "" == before;
    var remaining := if bound.Some? then bound.value else 0;
    while bound.None? || remaining > 0
      invariant c.Valid() && s == output + c.Remaining() && sink.written == before + output
      invariant remaining >= 0 && (bound.Some? ==> |output| + remaining == bound.value)
      decreases |c.Remaining()|
    {
      var requested := if bound.Some? && remaining < BYTES then remaining else BYTES;
      var n, bytes := c.Read(requested);
      if n <= 0 {
        assert output + "" == output;
        return n == 0, n < 0, true;
      }
      assert output + (bytes + c.Remaining()) == (output + bytes) + c.Remaining();
      Associated(before, output, bytes);
      output := output + bytes;
      PrefixOfBounded(s, output, bound);
      stored := sink.Write(bytes);
      if !stored {
        PrefixShifted(before, output, Bounded(s, bound));
        return;
      }
      if bound.Some? { remaining := remaining - n; }
    }
    assert s[..|output|] == output && s[|output|..] == c.Remaining();
  }

  lemma PrefixOfBounded(s: string, t: string, bound: Option<nat>)
    requires t <= s && (bound.Some? ==> |t| <= bound.value)
    ensures t <= Bounded(s, bound)
  {}

  lemma PrefixShifted(a: string, b: string, c: string)
    requires b <= c
    ensures a + b <= a + c
  {}

  /** The trailer loop. */
  method Trailer(c: Connection) returns (ok: bool)
    requires c.Valid()
    modifies c
    ensures c.Valid() && ok == TrailerOk(old(c.Remaining()), HEADER_LIMIT)
  {
    hide Connection.Remaining, LineFrom, FieldOf;
    var budget := HEADER_LIMIT;
    while true
      invariant c.Valid() && TrailerOk(c.Remaining(), budget) == TrailerOk(old(c.Remaining()), HEADER_LIMIT)
      decreases |c.Remaining()|
    {
      ghost var s, b := c.Remaining(), budget;
      var line;
      line, budget := Line(c, budget);
      if line.None? { return false; }
      LineShrinks(s, b, 0);
      if line.value == "" { return true; }
      var field := Field(line.value);
      if field.None? || Strings.Fold(field.value.0) == "content-length" || Strings.Fold(field.value.0) == "transfer-encoding" { return false; }
    }
  }

  /** One chunk with its line end: what it writes and whether more follows. */
  method Chunk(c: Connection, sink: Sink) returns (ok: bool, more: bool, stored: bool, ghost output: string)
    requires c.Valid()
    modifies c, sink
    ensures c.Valid()
    ensures stored ==> sink.written == old(sink.written) + output
    ensures stored ==>
              var s := old(c.Remaining());
              if ok && more then
                |c.Remaining()| < |s| && ChunkedBody(s) == (ChunkedBody(c.Remaining()).0, output + ChunkedBody(c.Remaining()).1)
              else ChunkedBody(s) == (ok, output)
    ensures !stored ==> !ok && old(sink.written) <= sink.written <= old(sink.written) + ChunkedBody(old(c.Remaining())).1
  {
    hide Connection.Remaining, LineFrom, TrailerOk, NumberOf;
    ghost var s, before := c.Remaining(), sink.written;
    assert before + "" == before;
    var line, budget := Line(c, LINE_SIZE);
    ok, more, stored, output := false, false, true, "";
    if line.None? { return; }
    LineShrinks(s, LINE_SIZE, 0);
    ghost var rest := c.Remaining();
    var size := Number(line.value[..Until(line.value, ';')], 16);
    if size.None? { return; }
    if size.value == 0 {
      ok := Trailer(c);
      return;
    }
    var ended, failed;
    ended, failed, stored := Copy(c, size, sink);
    output := Bounded(rest, size);
    if !stored {
      PrefixShifted(before, output, ChunkedBody(s).1);
      return;
    }
    if ended || failed { return; }
    ghost var after := c.Remaining();
    line, budget := Line(c, 2);
    if line.None? || line.value != "" { return; }
    LineShrinks(after, 2, 0);
    ok, more := true, true;
  }

  /** `https_body`: what is written and whether it succeeds depend only on the
      bytes of the stream and on how it ends, not on how it is cut, as long as
      every write succeeds; a failing write ends it with a part of that output. */
  method Body(c: Connection, f: Framing, sink: Sink) returns (ok: bool, stored: bool)
    requires c.Valid() && sink.written == ""
    modifies c, sink
    ensures stored ==> (ok, sink.written) == BodyOf(old(c.Remaining()), f, c.closed)
    ensures !stored ==> !ok && sink.written <= BodyOf(old(c.Remaining()), f, c.closed).1
  {
    hide Connection.Remaining, ChunkedBody;
    if !f.chunked {
      var ended, failed;
      var bound := if f.hasLength then Some(f.length) else None;
      ghost var output := Bounded(c.Remaining(), bound);
      assert "" + output == output;
      ended, failed, stored := Copy(c, bound, sink);
      ok := stored && !failed && (f.hasLength ==> !ended);
      return;
    }
    ghost var all := ChunkedBody(c.Remaining());
    assert "" + all.1 == all.1;
    while true
      invariant c.Valid() && all == (ChunkedBody(c.Remaining()).0, sink.written + ChunkedBody(c.Remaining()).1)
      decreases |c.Remaining()|
    {
      ghost var before := sink.written;
      var more;
      ghost var part;
      ok, more, stored, part := Chunk(c, sink);
      Associated(before, part, ChunkedBody(c.Remaining()).1);
      if !ok || !more { return; }
    }
  }

  lemma Associated(a: string, b: string, c: string)
    ensures a + (b + c) == (a + b) + c
  {}

  // ----- encoding -----

  const CRLF: string := ['\r', '\n']

  predicate LineText(s: string) {
    forall i :: 0 <= i < |s| ==> LineByte(s[i])
  }

  lemma {:induction false} LineRead(front: string, rest: string, budget: nat, size: nat)
    requires LineText(front) && |front| + 2 <= budget && size + |front| + 1 < LINE_SIZE
    ensures LineFrom(front + (CRLF + rest), budget, size) == Some((front, rest, budget - |front| - 2))
    decreases |front|
  {
    var s := front + (CRLF + rest);
    if front == "" {
      assert s == CRLF + rest && s[0] == '\r' && s[1] == '\n' && s[2..] == rest;
    } else {
      assert s[1..] == front[1..] + (CRLF + rest);
      LineRead(front[1..], rest, budget - 1, size + 1);
      assert [front[0]] + front[1..] == front;
    }
  }

  /** A chunk as sent: hexadecimal size, extension and data. */
  datatype ChunkText = ChunkText(size: string, ext: string, data: string) {
    predicate Wf() {
      && NumberOf(size, 16) == Some(|data|)
      && (ext == "" || ext[0] == ';') && LineText(ext) && |size| + |ext| + 1 < LINE_SIZE
    }
  }

  predicate AllChunks(cs: seq<ChunkText>) {
    forall i :: 0 <= i < |cs| ==> cs[i].Wf() && cs[i].data != ""
  }

  predicate AllTrailers(lines: seq<string>) {
    forall i :: 0 <= i < |lines| ==> lines[i] != "" && LineText(lines[i]) && TrailerField(lines[i]) && |lines[i]| + 1 < LINE_SIZE
  }

  function Total(lines: seq<string>): nat {
    if lines == [] then 2 else |lines[0]| + 2 + Total(lines[1..])
  }

  function TrailerText(lines: seq<string>, rest: string): string {
    if lines == [] then CRLF + rest else lines[0] + (CRLF + TrailerText(lines[1..], rest))
  }

  /** Chunks, the last chunk and the trailer in front of `rest`. */
  function Encoded(cs: seq<ChunkText>, last: ChunkText, trailers: seq<string>, rest: string): string {
    if cs == [] then (last.size + last.ext) + (CRLF + TrailerText(trailers, rest))
    else (cs[0].size + cs[0].ext) + (CRLF + (cs[0].data + (CRLF + Encoded(cs[1..], last, trailers, rest))))
  }

  function Payload(cs: seq<ChunkText>): string {
    if cs == [] then "" else cs[0].data + Payload(cs[1..])
  }

  lemma HexLine(s: string)
    requires NumberOf(s, 16).Some?
    ensures ';' !in s && LineText(s)
  {
    forall i | 0 <= i < |s| ensures s[i] != ';' && LineByte(s[i]) { assert DigitIn(s[i], 16) >= 0; }
  }

  /** The line of a chunk names its size. */
  lemma ChunkLine(c: ChunkText)
    requires c.Wf()
    ensures LineText(c.size + c.ext) && ChunkSize(c.size + c.ext) == Some(|c.data|)
  {
    hide NumberOf, LineByte;
    HexLine(c.size);
    UntilAt(c.size, c.ext, ';');
    assert (c.size + c.ext)[..|c.size|] == c.size;
  }

  lemma {:induction false} TrailersRead(lines: seq<string>, rest: string, budget: nat)
    requires AllTrailers(lines) && Total(lines) <= budget
    ensures TrailerOk(TrailerText(lines, rest), budget)
    decreases |lines|
  {
    hide TrailerField, LineByte;
    if lines == [] {
      LineRead("", rest, budget, 0);
      assert "" + (CRLF + rest) == CRLF + rest;
    } else {
      LineRead(lines[0], TrailerText(lines[1..], rest), budget, 0);
      TrailersRead(lines[1..], rest, budget - |lines[0]| - 2);
    }
  }

  /** Decoding an encoded chunk sequence writes exactly the payload. */
  lemma {:induction false} ChunkedRoundTrip(cs: seq<ChunkText>, last: ChunkText, trailers: seq<string>, rest: string)
    requires AllChunks(cs) && last.Wf() && last.data == "" && AllTrailers(trailers) && Total(trailers) <= HEADER_LIMIT
    ensures ChunkedBody(Encoded(cs, last, trailers, rest)) == (true, Payload(cs))
    decreases |cs|
  {
    hide NumberOf, LineByte, TrailerOk, LineFrom, ChunkSize;
    if cs == [] {
      ChunkLine(last);
      LineRead(last.size + last.ext, TrailerText(trailers, rest), LINE_SIZE, 0);
      TrailersRead(trailers, rest, HEADER_LIMIT);
    } else {
      var c, more := cs[0], Encoded(cs[1..], last, trailers, rest);
      ChunkLine(c);
      var body := c.data + (CRLF + more);
      LineRead(c.size + c.ext, body, LINE_SIZE, 0);
      assert body[..|c.data|] == c.data && body[|c.data|..] == CRLF + more;
      LineRead("", more, 2, 0);
      assert "" + (CRLF + more) == CRLF + more;
      ChunkedRoundTrip(cs[1..], last, trailers, rest);
    }
  }

  /** With a length, exactly that prefix is written, or the body fails. */
  lemma LengthIsPrefix(s: string, n: nat, closed: bool)
    ensures var (ok, output) := BodyOf(s, Framing(false, true, n), closed);
            && output <= s && |output| <= n && (ok <==> |output| == n) && (ok <==> |s| >= n)
  {
    assert s[..|s|] == s;
  }

  // ----- the response head -----

  datatype Response = Response(status: nat, framing: Framing, location: string)

  const BLANK: Framing := Framing(false, false, 0)

  /** The status code of a status line of HTTP/1.0 or HTTP/1.1. */
  function StatusOf(line: string): Option<nat> {
    if |line| < 12 || (line[..9] != "HTTP/1.1 " && line[..9] != "HTTP/1.0 ")
       || !('1' <= line[9] <= '5') || !('0' <= line[10] <= '9') || !('0' <= line[11] <= '9') || (|line| > 12 && line[12] != ' ')
    then None
    else Some((line[9] as int - '0' as int) * 100 + (line[10] as int - '0' as int) * 10 + (line[11] as int - '0' as int))
  }

  /** What a header field does to the response; nothing when it is refused. */
  function Absorbed(r: Response, name: string, value: string): Option<Response> {
    var n := Strings.Fold(name);
    if n == "content-length" then
      if r.framing.hasLength || NumberOf(value, 10).None? then None
      else Some(r.(framing := r.framing.(hasLength := true, length := NumberOf(value, 10).value)))
    else if n == "transfer-encoding" then
      if r.framing.chunked || Strings.Fold(value) != "chunked" then None else Some(r.(framing := r.framing.(chunked := true)))
    else if n == "content-encoding" then
      if Strings.Fold(value) != "identity" then None else Some(r)
    else if n == "location" then
      if r.location != "" || |value| >= URL_SIZE then None else Some(r.(location := value))
    else Some(r)
  }

  /** The header fields up to the empty line. */
  function FieldsFrom(s: string, budget: nat, r: Response): Option<(Response, string, nat)>
    decreases |s|
  {
    match LineOf(s, budget)
    case None => None
    case Some((line, rest, left)) =>
      if line == "" then Some((r, rest, left))
      else
        var f := FieldOf(line);
        if f.None? then None
        else
          var next := Absorbed(r, f.value.0, f.value.1);
          if next.None? then None
          else
            LineShrinks(s, budget, 0);
            FieldsFrom(rest, left, next.value)
  }

  /** The final response head behind at most four interim ones. */
  function HeadFrom(s: string, budget: nat, interim: nat): Option<(Response, string)>
    decreases 5 - interim
  {
    if interim >= 5 then None
    else
      match LineOf(s, budget)
      case None => None
      case Some((line, rest, left)) =>
        var status := StatusOf(line);
        if status.None? then None
        else
          match FieldsFrom(rest, left, Response(status.value, BLANK, ""))
          case None => None
          case Some((r, body, remaining)) =>
            if r.framing.chunked && r.framing.hasLength then None
            else if r.status >= 200 then Some((r, body))
            else if r.status == 101 || r.framing.chunked || r.framing.hasLength then None
            else HeadFrom(body, remaining, interim + 1)
  }

  method Absorb(r: Response, name: string, value: string) returns (next: Option<Response>)
    ensures next == Absorbed(r, name, value)
  {
    hide NumberOf, Strings.Fold;
    var n := Strings.Fold(name);
    if n == "content-length" {
      var length := Number(value, 10);
      if r.framing.hasLength || length.None? { return None; }
      return Some(r.(framing := r.framing.(hasLength := true, length := length.value)));
    }
    if n == "transfer-encoding" {
      if r.framing.chunked || Strings.Fold(value) != "chunked" { return None; }
      return Some(r.(framing := r.framing.(chunked := true)));
    }
    if n == "content-encoding" {
      return if Strings.Fold(value) != "identity" then None else Some(r);
    }
    if n == "location" {
      if r.location != "" || |value| >= URL_SIZE { return None; }
      return Some(r.(location := value));
    }
    next := Some(r);
  }

  method Fields(c: Connection, budget0: nat, r0: Response) returns (r: Option<Response>, budget: nat)
    requires c.Valid()
    modifies c
    ensures c.Valid()
    ensures var f := FieldsFrom(old(c.Remaining()), budget0, r0);
            if r.Some? then f == Some((r.value, c.Remaining(), budget)) else f == None
  {
    hide Connection.Remaining, LineFrom, FieldOf, Absorbed;
    var response := r0;
    budget := budget0;
    while true
      invariant c.Valid() && FieldsFrom(c.Remaining(), budget, response) == FieldsFrom(old(c.Remaining()), budget0, r0)
      decreases |c.Remaining()|
    {
      ghost var s, b := c.Remaining(), budget;
      var line;
      line, budget := Line(c, budget);
      if line.None? { return None, budget; }
      LineShrinks(s, b, 0);
      if line.value == "" { return Some(response), budget; }
      var field := Field(line.value);
      if field.None? { return None, budget; }
      var next := Absorb(response, field.value.0, field.value.1);
      if next.None? { return None, budget; }
      response := next.value;
    }
  }

  /** `https_headers` */
  method Headers(c: Connection) returns (r: Option<Response>)
    requires c.Valid()
    modifies c
    ensures c.Valid()
    ensures var h := HeadFrom(old(c.Remaining()), HEADER_LIMIT, 0);
            if r.Some? then h == Some((r.value, c.Remaining())) else h == None
  {
    hide Connection.Remaining, LineFrom, FieldsFrom, StatusOf;
    var budget := HEADER_LIMIT;
    var interim := 0;
    while interim < 5
      invariant 0 <= interim <= 5 && c.Valid()
      invariant HeadFrom(c.Remaining(), budget, interim) == HeadFrom(old(c.Remaining()), HEADER_LIMIT, 0)
    {
      var line;
      line, budget := Line(c, budget);
      if line.None? { return None; }
      var status := StatusOf(line.value);
      if status.None? { return None; }
      r, budget := Fields(c, budget, Response(status.value, BLANK, ""));
      if r.None? || (r.value.framing.chunked && r.value.framing.hasLength) { return None; }
      if r.value.status >= 200 { return; }
      if r.value.status == 101 || r.value.framing.chunked || r.value.framing.hasLength { return None; }
      interim := interim + 1;
    }
    r := None;
  }

  /** An accepted head is final and frames its body in at most one way. */
  lemma {:induction false} HeadIsFinal(s: string, budget: nat, interim: nat)
    requires HeadFrom(s, budget, interim).Some?
    ensures var r := HeadFrom(s, budget, interim).value.0;
            200 <= r.status <= 599 && !(r.framing.chunked && r.framing.hasLength)
    decreases 5 - interim
  {
    var (line, rest, left) := LineOf(s, budget).value;
    var status := StatusOf(line).value;
    var (r, body, remaining) := FieldsFrom(rest, left, Response(status, BLANK, "")).value;
    FieldsKeepStatus(rest, left, Response(status, BLANK, ""));
    if r.status < 200 { HeadIsFinal(body, remaining, interim + 1); }
  }

  lemma {:induction false} FieldsKeepStatus(s: string, budget: nat, r: Response)
    requires FieldsFrom(s, budget, r).Some?
    ensures FieldsFrom(s, budget, r).value.0.status == r.status
    decreases |s|
  {
    hide LineFrom, FieldOf, Absorbed;
    var (line, rest, left) := LineOf(s, budget).value;
    if line != "" {
      LineShrinks(s, budget, 0);
      var f := FieldOf(line).value;
      AbsorbKeepsStatus(r, f.0, f.1);
      FieldsKeepStatus(rest, left, Absorbed(r, f.0, f.1).value);
    }
  }

  lemma AbsorbKeepsStatus(r: Response, name: string, value: string)
    requires Absorbed(r, name, value).Some?
    ensures Absorbed(r, name, value).value.status == r.status
  {}
}
