/** JSON strings from the encoding side (section 7 of RFC 8259): what an escape
    stands for, and that the scanner decodes exactly that.  */
module JsonStrings {
  import opened JsonGrammar

  /** Which digits of an escape are upper-case letters. */
  datatype Caps = Caps(a: bool, b: bool, c: bool, d: bool)

  /** One character as written; `Unit` and `Pair` escape a scalar value. */
  datatype Piece = Plain(c: char) | Short(letter: char) | Unit(u: CodePoint, caps: Caps) | Pair(u: CodePoint, high: Caps, low: Caps)

  /** The digit `d` as a character. */
  function HexChar(d: int, upper: bool): char
    requires 0 <= d < 16
  {
    if upper then "0123456789ABCDEF"[d] else "0123456789abcdef"[d]
  }

  /** Four digits, the most significant first. */
  function HexText4(v: int, caps: Caps): string
    requires 0 <= v < 0x10000
  {
    [HexChar(v / 0x1000, caps.a), HexChar(v / 0x100 % 0x10, caps.b), HexChar(v / 0x10 % 0x10, caps.c), HexChar(v % 0x10, caps.d)]
  }

  /** The surrogates of a scalar value beyond the basic plane (section 2.1 of RFC 2781). */
  function HighHalf(u: CodePoint): int
    requires u >= 0x10000
  {
    0xd800 + (u - 0x10000) / 0x400
  }

  function LowHalf(u: CodePoint): int
    requires u >= 0x10000
  {
    0xdc00 + (u - 0x10000) % 0x400
  }

  predicate WfPiece(p: Piece) {
    match p
    case Plain(c) => c >= ' ' && c != '"' && c != '\\'
    case Short(letter) => letter in "\"\\/bfnrt"
    case Unit(u, _) => u < 0x10000
    case Pair(u, _, _) => u >= 0x10000
  }

  function PieceText(p: Piece): string
    requires WfPiece(p)
  {
    match p
    case Plain(c) => [c]
    case Short(letter) => ['\\', letter]
    case Unit(u, caps) => "\\u" + HexText4(u, caps)
    case Pair(u, high, low) => "\\u" + (HexText4(HighHalf(u), high) + ("\\u" + HexText4(LowHalf(u), low)))
  }

  /** What it stands for. */
  function Meaning(p: Piece): string
    requires WfPiece(p)
  {
    match p
    case Plain(c) => [c]
    case Short(letter) =>
      [if letter == 'b' then 0x08 as char else if letter == 't' then 0x09 as char else if letter == 'n' then 0x0a as char
       else if letter == 'f' then 0x0c as char else if letter == 'r' then 0x0d as char else letter]
    case Unit(u, _) => Utf8Bytes(u)
    case Pair(u, _, _) => Utf8Bytes(u)
  }

  predicate WfPieces(ps: seq<Piece>) {
    forall i :: 0 <= i < |ps| ==> WfPiece(ps[i])
  }

  function PiecesText(ps: seq<Piece>): string
    requires WfPieces(ps)
  {
    if ps == [] then "" else PieceText(ps[0]) + PiecesText(ps[1..])
  }

  function Meanings(ps: seq<Piece>): string
    requires WfPieces(ps)
  {
    if ps == [] then "" else Meaning(ps[0]) + Meanings(ps[1..])
  }

  /** A whole token. */
  function Token(ps: seq<Piece>): string
    requires WfPieces(ps)
  {
    "\"" + (PiecesText(ps) + "\"")
  }

  // ----- hexadecimal digits -----

  lemma HexCharValue(d: int, upper: bool)
    requires 0 <= d < 16
    ensures HexDigit(HexChar(d, upper)) == d
  {}

  lemma HexDigitChar(c: char)
    requires HexDigit(c) >= 0
    ensures c == HexChar(HexDigit(c), 'A' <= c <= 'F')
  {}

  lemma Nibbles(a: int, b: int, c: int, d: int)
    requires 0 <= a < 16 && 0 <= b < 16 && 0 <= c < 16 && 0 <= d < 16
    ensures var v := ((a * 16 + b) * 16 + c) * 16 + d;
            0 <= v < 0x10000 && v / 0x1000 == a && v / 0x100 % 0x10 == b && v / 0x10 % 0x10 == c && v % 0x10 == d
  {}

  lemma SumOfNibbles(v: int)
    requires 0 <= v < 0x10000
    ensures ((v / 0x1000 * 16 + v / 0x100 % 0x10) * 16 + v / 0x10 % 0x10) * 16 + v % 0x10 == v
  {
    assert v / 0x1000 * 16 + v / 0x100 % 0x10 == v / 0x100;
    assert v / 0x100 * 16 + v / 0x10 % 0x10 == v / 0x10;
  }

  lemma Hex4OfDigits(s: string, a: int, b: int, c: int, d: int)
    requires |s| >= 4 && 0 <= a && 0 <= b && 0 <= c && 0 <= d
    requires HexDigit(s[0]) == a && HexDigit(s[1]) == b && HexDigit(s[2]) == c && HexDigit(s[3]) == d
    ensures Hex4(s) == ((a * 16 + b) * 16 + c) * 16 + d
  {
    hide HexDigit;
  }

  lemma Hex4OfText(v: int, caps: Caps, rest: string)
    requires 0 <= v < 0x10000
    ensures Hex4(HexText4(v, caps) + rest) == v
  {
    hide HexChar, HexDigit, Hex4;
    var a, b, c, d := v / 0x1000, v / 0x100 % 0x10, v / 0x10 % 0x10, v % 0x10;
    HexCharValue(a, caps.a);
    HexCharValue(b, caps.b);
    HexCharValue(c, caps.c);
    HexCharValue(d, caps.d);
    Hex4OfDigits(HexText4(v, caps) + rest, a, b, c, d);
    SumOfNibbles(v);
  }

  lemma TextOfHex4(s: string) returns (caps: Caps)
    requires Hex4(s) >= 0
    ensures s[..4] == HexText4(Hex4(s), caps)
  {
    hide HexChar, HexDigit;
    caps := Caps('A' <= s[0] <= 'F', 'A' <= s[1] <= 'F', 'A' <= s[2] <= 'F', 'A' <= s[3] <= 'F');
    HexDigitChar(s[0]);
    HexDigitChar(s[1]);
    HexDigitChar(s[2]);
    HexDigitChar(s[3]);
    Nibbles(HexDigit(s[0]), HexDigit(s[1]), HexDigit(s[2]), HexDigit(s[3]));
    assert s[..4] == [s[0], s[1], s[2], s[3]];
  }

  // ----- the bytes of a scalar value -----

  predicate Continues(c: char) {
    0x80 <= c as int < 0xc0
  }

  /** The payload of a UTF-8 sequence: the free bits of its bytes in order
      (section 3 of RFC 3629). */
  function Payload(s: string): int {
    if |s| == 1 && s[0] as int < 0x80 then s[0] as int
    else if |s| == 2 && 0xc0 <= s[0] as int < 0xe0 && Continues(s[1]) then (s[0] as int - 0xc0) * 0x40 + (s[1] as int - 0x80)
    else if |s| == 3 && 0xe0 <= s[0] as int < 0xf0 && Continues(s[1]) && Continues(s[2]) then
      ((s[0] as int - 0xe0) * 0x40 + (s[1] as int - 0x80)) * 0x40 + (s[2] as int - 0x80)
    else if |s| == 4 && 0xf0 <= s[0] as int < 0xf8 && Continues(s[1]) && Continues(s[2]) && Continues(s[3]) then
      (((s[0] as int - 0xf0) * 0x40 + (s[1] as int - 0x80)) * 0x40 + (s[2] as int - 0x80)) * 0x40 + (s[3] as int - 0x80)
    else -1
  }

  lemma Sextets(u: nat)
    ensures u / 0x1000 * 0x40 + u / 0x40 % 0x40 == u / 0x40 && u / 0x40 * 0x40 + u % 0x40 == u
    ensures u / 0x40000 * 0x40 + u / 0x1000 % 0x40 == u / 0x1000
  {}

  lemma ThreeBytes(u: CodePoint)
    requires 0x800 <= u < 0x10000
    ensures Payload(Utf8Bytes(u)) == u && |Utf8Bytes(u)| == 3
  {
    Sextets(u);
    var s := Utf8Bytes(u);
    var a, b, c := u / 0x1000, u / 0x40 % 0x40, u % 0x40;
    assert s[0] as int == 0xe0 + a && s[1] as int == 0x80 + b && s[2] as int == 0x80 + c;
    assert (a * 0x40 + b) * 0x40 + c == u;
  }

  lemma FourBytes(u: CodePoint)
    requires u >= 0x10000
    ensures Payload(Utf8Bytes(u)) == u && |Utf8Bytes(u)| == 4
  {
    Sextets(u);
    var s := Utf8Bytes(u);
    var a, b, c, d := u / 0x40000, u / 0x1000 % 0x40, u / 0x40 % 0x40, u % 0x40;
    assert s[0] as int == 0xf0 + a && s[1] as int == 0x80 + b && s[2] as int == 0x80 + c && s[3] as int == 0x80 + d;
    assert a * 0x40 + b == u / 0x1000;
    assert ((a * 0x40 + b) * 0x40 + c) * 0x40 + d == u;
  }

  /** The encoded bytes carry the scalar value, in as few bytes as it needs. */
  lemma Utf8CarriesScalar(u: CodePoint)
    ensures Payload(Utf8Bytes(u)) == u
    ensures |Utf8Bytes(u)| == if u < 0x80 then 1 else if u < 0x800 then 2 else if u < 0x10000 then 3 else 4
  {
    if u >= 0x10000 {
      FourBytes(u);
      hide *;
    } else if u >= 0x800 {
      ThreeBytes(u);
      hide *;
    }
  }

  // ----- the scanner against the printer -----

  lemma Halves(u: CodePoint)
    requires u >= 0x10000
    ensures IsHigh(HighHalf(u)) && IsLow(LowHalf(u)) && 0x10000 + (HighHalf(u) - 0xd800) * 0x400 + LowHalf(u) - 0xdc00 == u
  {}

  lemma HalvesOf(high: int, low: int)
    requires IsHigh(high) && IsLow(low)
    ensures var u := 0x10000 + (high - 0xd800) * 0x400 + low - 0xdc00;
            0x10000 <= u < 0x110000 && HighHalf(u) == high && LowHalf(u) == low
  {}

  lemma ScanPiece(p: Piece, rest: string)
    requires WfPiece(p)
    ensures PieceText(p) != "" && PieceText(p)[0] != '"'
    ensures ScanChar(PieceText(p) + rest) == Ok(Meaning(p), rest)
  {
    hide HexText4, Hex4, Utf8Bytes, HighHalf, LowHalf;
    var s := PieceText(p) + rest;
    match p
    case Plain(c) => assert s[1..] == rest;
    case Short(letter) => assert s[2..] == rest;
    case Unit(u, caps) =>
      FourDigits(u, caps);
      Hex4OfText(u, caps, rest);
      assert s[2..] == HexText4(u, caps) + rest && s[6..] == rest;
    case Pair(u, high, low) =>
      Halves(u);
      ScanPair(u, high, low, rest);
  }

  lemma FourDigits(v: int, caps: Caps)
    requires 0 <= v < 0x10000
    ensures |HexText4(v, caps)| == 4
  {}

  lemma ScanPair(u: CodePoint, high: Caps, low: Caps, rest: string)
    requires u >= 0x10000 && IsHigh(HighHalf(u)) && IsLow(LowHalf(u))
    requires 0x10000 + (HighHalf(u) - 0xd800) * 0x400 + LowHalf(u) - 0xdc00 == u
    ensures ScanChar(PieceText(Pair(u, high, low)) + rest) == Ok(Utf8Bytes(u), rest)
  {
    hide HexText4, Hex4, Utf8Bytes, HighHalf, LowHalf;
    var h, l := HexText4(HighHalf(u), high), HexText4(LowHalf(u), low);
    var s := PieceText(Pair(u, high, low)) + rest;
    FourDigits(HighHalf(u), high);
    FourDigits(LowHalf(u), low);
    var t := "\\u" + (l + rest);
    Hex4OfText(HighHalf(u), high, t);
    Hex4OfText(LowHalf(u), low, rest);
    assert s == "\\u" + (h + t);
    assert s[2..] == h + t;
    assert s[6..] == t && s[6] == t[0] && s[7] == t[1];
    assert s[8..] == t[2..] == l + rest;
    assert s[12..] == rest;
  }

  /** Scanning a printed body yields what its pieces stand for. */
  lemma {:induction false} ScanPieces(ps: seq<Piece>, rest: string)
    requires WfPieces(ps)
    ensures ScanBody(PiecesText(ps) + ("\"" + rest)) == Ok(Meanings(ps), rest)
    decreases |ps|
  {
    hide ScanChar, PieceText, Meaning, WfPiece;
    var s := PiecesText(ps) + ("\"" + rest);
    if ps == [] {
      assert s == "\"" + rest && s[1..] == rest;
    } else {
      var more := PiecesText(ps[1..]) + ("\"" + rest);
      assert s == PieceText(ps[0]) + more;
      ScanPiece(ps[0], more);
      ScanPieces(ps[1..], rest);
    }
  }

  /** Every accepted character is a printed piece. */
  lemma PieceOf(s: string) returns (p: Piece)
    requires ScanChar(s).Ok?
    ensures WfPiece(p) && s == PieceText(p) + ScanChar(s).rest && ScanChar(s).value == Meaning(p)
  {
    hide HexText4, Hex4, Utf8Bytes, HighHalf, LowHalf;
    if s[0] != '\\' {
      p := Plain(s[0]);
      assert s == [s[0]] + s[1..];
    } else if s[1] != 'u' {
      p := Short(s[1]);
      assert s == [s[0], s[1]] + s[2..];
    } else {
      var u := Hex4(s[2..]);
      var caps := TextOfHex4(s[2..]);
      assert s[2..][..4] == s[2..6] && s[..2] == "\\u";
      if IsHigh(u) {
        p := PairOf(s, caps);
      } else {
        p := Unit(u, caps);
        assert s == s[..2] + s[2..6] + s[6..];
      }
    }
  }

  lemma PairOf(s: string, caps: Caps) returns (p: Piece)
    requires ScanChar(s).Ok? && |s| >= 2 && s[0] == '\\' && s[1] == 'u' && IsHigh(Hex4(s[2..])) && s[2..6] == HexText4(Hex4(s[2..]), caps)
    ensures WfPiece(p) && s == PieceText(p) + ScanChar(s).rest && ScanChar(s).value == Meaning(p)
  {
    hide HexText4, Hex4, Utf8Bytes, HighHalf, LowHalf;
    var u, low := Hex4(s[2..]), Hex4(s[8..]);
    var caps2 := TextOfHex4(s[8..]);
    assert s[8..][..4] == s[8..12];
    HalvesOf(u, low);
    p := Pair(0x10000 + (u - 0xd800) * 0x400 + low - 0xdc00, caps, caps2);
    assert s[..2] == "\\u" && s[6..8] == "\\u";
    assert s == s[..2] + (s[2..6] + (s[6..8] + s[8..12])) + s[12..];
  }

  lemma {:induction false} PiecesOf(s: string) returns (ps: seq<Piece>)
    requires ScanBody(s).Ok?
    ensures WfPieces(ps) && s == PiecesText(ps) + ("\"" + ScanBody(s).rest) && ScanBody(s).value == Meanings(ps)
    decreases |s|
  {
    hide ScanChar, PieceText, Meaning, WfPiece;
    if s[0] == '"' {
      ps := [];
      assert s == "" + ([s[0]] + s[1..]);
    } else {
      var p := PieceOf(s);
      var t := ScanChar(s).rest;
      var more := PiecesOf(t);
      ps := [p] + more;
      assert ps[1..] == more;
      assert s == (PieceText(p) + PiecesText(more)) + ("\"" + ScanBody(t).rest);
    }
  }

  /** A printed token is accepted and decodes to what its pieces stand for. */
  lemma TokenMeans(ps: seq<Piece>, rest: string)
    requires WfPieces(ps)
    ensures ScanString(Token(ps) + rest) == Ok(Meanings(ps), rest)
    ensures IsStringToken(Token(ps)) && Decode(Token(ps)) == Meanings(ps)
  {
    hide ScanBody, PiecesText, Meanings, WfPieces;
    TokenScan(ps, rest);
    TokenScan(ps, "");
    assert Token(ps) + "" == Token(ps);
  }

  lemma TokenScan(ps: seq<Piece>, rest: string)
    requires WfPieces(ps)
    ensures ScanString(Token(ps) + rest) == Ok(Meanings(ps), rest)
  {
    hide ScanBody, PiecesText, Meanings, WfPieces;
    ScanPieces(ps, rest);
    assert (Token(ps) + rest)[1..] == PiecesText(ps) + ("\"" + rest);
  }

  /** The string tokens are exactly the printed ones. */
  lemma TokenIsPrinted(tok: string)
    ensures IsStringToken(tok) <==> exists ps :: WfPieces(ps) && tok == Token(ps)
    ensures IsStringToken(tok) ==> exists ps :: WfPieces(ps) && tok == Token(ps) && Decode(tok) == Meanings(ps)
  {
    hide ScanBody, PiecesText, Meanings, WfPieces;
    if IsStringToken(tok) {
      var ps := PiecesOf(tok[1..]);
      assert tok == [tok[0]] + tok[1..] && "\"" + ScanBody(tok[1..]).rest == "\"";
      assert WfPieces(ps) && tok == Token(ps);
    }
    forall ps | WfPieces(ps) && tok == Token(ps) ensures IsStringToken(tok) { TokenMeans(ps, ""); }
  }
}
