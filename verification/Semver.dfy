/** Version parsing and precedence of wpm/repository.c, against item 11 of
    SemVer 2.0.0.  */
module Semver {
  import opened JsonGrammar
  import opened JsonFields
  import opened JsonChecker
  import opened Decimal
  import S = Strings

  const ULLONG_MAX: nat := 0xffff_ffff_ffff_ffff

  datatype Version = Version(major: nat, minor: nat, patch: nat, pre: Option<string>)

  // ----- dot-separated identifiers -----

  /** Length up to the first dot. */
  function Upto(s: string): (n: nat)
    ensures n <= |s|
  {
    if s == "" || s[0] == '.' then 0 else 1 + Upto(s[1..])
  }

  function Behind(s: string): (t: string)
    ensures |t| <= |s| && (s != "" ==> |t| < |s|)
  {
    var n := Upto(s);
    if n < |s| then s[n..][1..] else ""
  }

  /** The identifiers; a trailing dot adds none. */
  function Identifiers(s: string): seq<string>
    decreases |s|
  {
    if s == "" then [] else [s[..Upto(s)]] + Identifiers(Behind(s))
  }

  predicate IdByte(c: char) {
    IsDigit(c) || 'a' <= c <= 'z' || 'A' <= c <= 'Z' || c == '-'
  }

  predicate AllIdBytes(s: string) {
    s == "" || (IdByte(s[0]) && AllIdBytes(s[1..]))
  }

  /** A numeric identifier of a prerelease has no leading zero. */
  predicate ValidIdentifier(id: string, pre: bool) {
    id != "" && AllIdBytes(id) && !(pre && AllDigits(id) && |id| > 1 && id[0] == '0')
  }

  predicate ValidIdentifiers(s: string, pre: bool)
    decreases |s|
  {
    s == "" || (ValidIdentifier(s[..Upto(s)], pre) && ValidIdentifiers(Behind(s), pre))
  }

  // ----- precedence (item 11 of SemVer 2.0.0) -----

  /** Numeric identifiers by value, below all others; others in ASCII order. */
  function IdOrder(a: string, b: string): int {
    if Digits(a) && Digits(b) then S.SignOf(NatOf(a) - NatOf(b))
    else if Digits(a) then -1
    else if Digits(b) then 1
    else S.Compare(a, b)
  }

  /** Field by field; a larger set of equal fields is higher. */
  function IdsOrder(a: seq<string>, b: seq<string>): int {
    if a == [] then if b == [] then 0 else -1
    else if b == [] then 1
    else if IdOrder(a[0], b[0]) != 0 then IdOrder(a[0], b[0])
    else IdsOrder(a[1..], b[1..])
  }

  function Precedence(a: Version, b: Version): int {
    if a.major != b.major then S.SignOf(a.major - b.major)
    else if a.minor != b.minor then S.SignOf(a.minor - b.minor)
    else if a.patch != b.patch then S.SignOf(a.patch - b.patch)
    else match (a.pre, b.pre)
      case (None, None) => 0
      case (None, Some(_)) => 1
      case (Some(_), None) => -1
      case (Some(p), Some(q)) => IdsOrder(Identifiers(p), Identifiers(q))
  }

  // Precedence is a total preorder.

  lemma IdOrderFlip(a: string, b: string)
    ensures IdOrder(a, b) == -IdOrder(b, a) && -1 <= IdOrder(a, b) <= 1
  {
    S.CompareFlip(a, b);
  }

  lemma IdOrderTransitive(a: string, b: string, c: string)
    requires IdOrder(a, b) <= 0 && IdOrder(b, c) <= 0
    ensures IdOrder(a, c) <= 0
    ensures IdOrder(a, b) < 0 || IdOrder(b, c) < 0 ==> IdOrder(a, c) < 0
  {
    if !Digits(a) && !Digits(b) && !Digits(c) { S.CompareTransitive(a, b, c); }
  }

  lemma {:induction false} IdsOrderFlip(a: seq<string>, b: seq<string>)
    ensures IdsOrder(a, b) == -IdsOrder(b, a) && -1 <= IdsOrder(a, b) <= 1
  {
    if a != [] && b != [] {
      IdOrderFlip(a[0], b[0]);
      IdsOrderFlip(a[1..], b[1..]);
    }
  }

  lemma {:induction false} IdsOrderTransitive(a: seq<string>, b: seq<string>, c: seq<string>)
    requires IdsOrder(a, b) <= 0 && IdsOrder(b, c) <= 0
    ensures IdsOrder(a, c) <= 0
    ensures IdsOrder(a, b) < 0 || IdsOrder(b, c) < 0 ==> IdsOrder(a, c) < 0
  {
    hide IdOrder;
    if a != [] && b != [] && c != [] {
      IdOrderTransitive(a[0], b[0], c[0]);
      if IdOrder(a[0], b[0]) == 0 && IdOrder(b[0], c[0]) == 0 {
        IdOrderFlip(a[0], b[0]);
        IdOrderFlip(b[0], c[0]);
        IdOrderTransitive(c[0], b[0], a[0]);
        IdOrderFlip(a[0], c[0]);
        IdsOrderTransitive(a[1..], b[1..], c[1..]);
      }
    }
  }

  /** Precedence is total and antisymmetric up to equal precedence. */
  lemma PrecedenceTotal(a: Version, b: Version)
    ensures Precedence(a, b) == -Precedence(b, a) && -1 <= Precedence(a, b) <= 1
    ensures Precedence(a, a) == 0
  {
    hide IdsOrder;
    if a.pre.Some? {
      IdsOrderFlip(Identifiers(a.pre.value), Identifiers(a.pre.value));
      if b.pre.Some? { IdsOrderFlip(Identifiers(a.pre.value), Identifiers(b.pre.value)); }
    }
  }

  lemma PrecedenceTransitive(a: Version, b: Version, c: Version)
    requires Precedence(a, b) <= 0 && Precedence(b, c) <= 0
    ensures Precedence(a, c) <= 0
    ensures Precedence(a, b) < 0 || Precedence(b, c) < 0 ==> Precedence(a, c) < 0
  {
    hide IdsOrder;
    if a.pre.Some? && b.pre.Some? && c.pre.Some? && a.major == b.major == c.major && a.minor == b.minor == c.minor
       && a.patch == b.patch == c.patch {
      IdsOrderTransitive(Identifiers(a.pre.value), Identifiers(b.pre.value), Identifiers(c.pre.value));
    }
  }

  // ----- parsing -----

  /** `parse_number`: no leading zero, and at most ULLONG_MAX. */
  function NumberPart(s: string): Parsed<nat> {
    var n := DigitRun(s);
    DigitRunFacts(s);
    DigitsAre(s[..n]);
    if n == 0 || (n > 1 && s[0] == '0') || NatOf(s[..n]) > ULLONG_MAX then Fail
    else Ok(NatOf(s[..n]), s[n..])
  }

  function DottedPart(s: string): Parsed<nat> {
    if Head(s) != '.' then Fail else NumberPart(s[1..])
  }

  function UptoPlus(s: string): (n: nat)
    ensures n <= |s| && (n < |s| ==> s[n] == '+')
  {
    if s == "" || s[0] == '+' then 0 else 1 + UptoPlus(s[1..])
  }

  /** The optional prerelease. */
  function PrePart(s: string): Parsed<Option<string>> {
    if Head(s) != '-' then Ok(None, s)
    else
      var t := s[1..];
      var n := UptoPlus(t);
      if n == 0 || !ValidIdentifiers(t[..n], true) then Fail else Ok(Some(t[..n]), t[n..])
  }

  /** The optional build metadata, up to the end. */
  predicate BuildPart(s: string) {
    s == "" || (s[0] == '+' && s[1..] != "" && ValidIdentifiers(s[1..], false))
  }

  function ParseVersion(s: string): Option<Version> {
    match NumberPart(s)
    case Fail => None
    case Ok(major, t) =>
      match DottedPart(t)
      case Fail => None
      case Ok(minor, u) =>
        match DottedPart(u)
        case Fail => None
        case Ok(patch, v) =>
          match PrePart(v)
          case Fail => None
          case Ok(pre, w) => if BuildPart(w) then Some(Version(major, minor, patch, pre)) else None
  }

  predicate IsVersion(s: string) {
    ParseVersion(s).Some?
  }

  method ReadNumber(text: string, p0: nat) returns (ok: bool, p: nat, value: nat)
    requires p0 <= |text|
    ensures p <= |text|
    ensures NumberPart(text[p0..]) == if ok then Ok(value, text[p..]) else Fail
  {
    hide NatOf;
    ghost var s := text[p0..];
    DigitRunFacts(s);
    p, value := p0, 0;
    if !IsDigit(At(text, p0)) { return false, p0, 0; }
    if At(text, p0) == '0' && IsDigit(At(text, p0 + 1)) {
      assert s[1..][0] == s[1];
      return false, p0, 0;
    }
    assert DigitRun(s) > 1 ==> IsDigit(s[1..][0]);
    ok, p, value := ReadDecimal(text, p0, ULLONG_MAX);
    assert ok ==> s[DigitRun(s)..] == text[p..];
    if !ok { p := p0; }
  }

  /** One identifier; `numeric` when it has only digits. */
  method ReadIdentifier(s: string, p0: nat) returns (ok: bool, p: nat, numeric: bool)
    requires p0 <= |s|
    ensures p0 <= p <= |s|
    ensures var id := s[p0..][..Upto(s[p0..])];
            && ok == AllIdBytes(id)
            && (ok ==> p == p0 + |id| && numeric == AllDigits(id))
  {
    p, numeric := p0, true;
    ghost var t := s[p0..];
    ghost var id := t[..Upto(t)];
    assert s[p0..p0 + |id|] == id;
    while p < |s| && s[p] != '.'
      invariant p0 <= p <= |s| && p + Upto(s[p..]) == p0 + |id|
      invariant AllIdBytes(id) == AllIdBytes(s[p..p0 + |id|])
      invariant AllDigits(id) == (numeric && AllDigits(s[p..p0 + |id|]))
    {
      assert s[p..][1..] == s[p + 1..];
      assert s[p..p0 + |id|][1..] == s[p + 1..p0 + |id|];
      if !IdByte(s[p]) { return false, p, numeric; }
      if !IsDigit(s[p]) { numeric := false; }
      p := p + 1;
    }
    assert s[p..p0 + |id|] == "";
    ok := true;
  }

  /** `valid_identifiers` */
  method CheckIdentifiers(s: string, pre: bool) returns (ok: bool)
    ensures ok == ValidIdentifiers(s, pre)
  {
    hide AllIdBytes, AllDigits;
    var p := 0;
    assert s[0..] == s;
    while p < |s|
      invariant 0 <= p <= |s| && ValidIdentifiers(s, pre) == ValidIdentifiers(s[p..], pre)
    {
      var good, q, numeric := ReadIdentifier(s, p);
      if !good { return false; }
      ghost var t := s[p..];
      if q == p || (pre && numeric && q - p > 1 && s[p] == '0') { return false; }
      if q < |s| {
        assert t[Upto(t)..][1..] == s[q + 1..];
        q := q + 1;
      } else {
        assert s[q..] == "";
      }
      assert Behind(t) == s[q..];
      p := q;
    }
    ok := true;
  }

  /** `semver_parse` */
  method ReadVersion(text: string) returns (r: Option<Version>)
    ensures r == ParseVersion(text)
  {
    hide NumberPart, PrePart, BuildPart, SpaceRun;
    assert text[0..] == text;
    var ok, p, major := ReadNumber(text, 0);
    if !ok { return None; }
    AtIsHead(text, p);
    if At(text, p) != '.' { return None; }
    var minor, patch;
    ok, p, minor := ReadNumber(text, p + 1);
    if !ok { return None; }
    AtIsHead(text, p);
    if At(text, p) != '.' { return None; }
    ok, p, patch := ReadNumber(text, p + 1);
    if !ok { return None; }
    var pre;
    ok, pre := ReadLabels(text, p);
    if ok { r := Some(Version(major, minor, patch, pre)); } else { r := None; }
  }

  /** The prerelease and the build metadata. */
  method ReadLabels(text: string, p0: nat) returns (ok: bool, pre: Option<string>)
    requires p0 <= |text|
    ensures var r := PrePart(text[p0..]);
            ok == (r.Ok? && BuildPart(r.rest)) && (ok ==> pre == r.value)
  {
    hide ValidIdentifiers;
    var p := p0;
    pre := None;
    ok := true;
    AtIsHead(text, p);
    if At(text, p) == '-' {
      p := p + 1;
      ghost var t := text[p..];
      var start := p;
      while p < |text| && text[p] != '+'
        invariant start <= p <= |text| && p + UptoPlus(text[p..]) == start + UptoPlus(t)
      {
        assert text[p..][1..] == text[p + 1..];
        p := p + 1;
      }
      assert t[..UptoPlus(t)] == text[start..p] && t[UptoPlus(t)..] == text[p..];
      pre := Some(text[start..p]);
      if p == start { return false, pre; }
      ok := CheckIdentifiers(text[start..p], true);
    }
    var built := ReadBuild(text, p);
    ok := ok && built;
  }

  method ReadBuild(text: string, p: nat) returns (ok: bool)
    requires p <= |text|
    ensures ok == BuildPart(text[p..])
  {
    AtIsHead(text, p);
    if p == |text| { return true; }
    if text[p] != '+' || p + 1 == |text| { return false; }
    ok := CheckIdentifiers(text[p + 1..], false);
  }

  // ----- comparison -----

  method IsNumeric(a: string) returns (numeric: bool)
    ensures numeric == Digits(a)
  {
    numeric := true;
    var i := 0;
    while i < |a|
      invariant 0 <= i <= |a| && numeric == (forall k :: 0 <= k < i ==> IsDigit(a[k]))
    {
      if !IsDigit(a[i]) { numeric := false; }
      i := i + 1;
    }
  }

  /** Skip leading zeros, but keep one digit. */
  method StripZeros(a: string) returns (n: nat)
    requires Digits(a) && a != ""
    ensures n < |a| && Digits(a[n..]) && NatOf(a[n..]) == NatOf(a)
    ensures |a| - n > 1 ==> a[n] != '0'
  {
    n := 0;
    assert a[0..] == a;
    while |a| - n > 1 && a[n] == '0'
      invariant n < |a| && Digits(a[n..]) && NatOf(a[n..]) == NatOf(a)
    {
      NatOfCons(a[n..]);
      assert a[n..][1..] == a[n + 1..];
      n := n + 1;
    }
  }

  lemma {:induction false} SameLength(a: string, b: string)
    requires Digits(a) && Digits(b) && |a| == |b|
    ensures S.Compare(a, b) == S.SignOf(NatOf(a) - NatOf(b))
  {
    hide NatOf;
    if a == "" {
      assert b == "";
    } else {
      NatOfCons(a);
      NatOfCons(b);
      NatOfBound(a[1..]);
      NatOfBound(b[1..]);
      SameLength(a[1..], b[1..]);
      LeadDecides(DigitValue(a[0]), DigitValue(b[0]), Pow10(|a| - 1), NatOf(a[1..]), NatOf(b[1..]));
    }
  }

  lemma LeadDecides(x: nat, y: nat, p: nat, m: nat, n: nat)
    requires m < p && n < p
    ensures x > y ==> x * p + m > y * p + n
    ensures x < y ==> x * p + m < y * p + n
  {
    if x > y { MoreTimes(y, x - y, p); }
    if x < y { MoreTimes(x, y - x, p); }
  }

  lemma LongerIsLarger(a: string, b: string)
    requires Digits(a) && Digits(b) && b != "" && |a| > |b| && a[0] != '0'
    ensures NatOf(a) > NatOf(b)
  {
    NatOfBound(a);
    NatOfBound(b);
    Pow10Grows(|b|, |a| - 1);
  }

  /** The byte loop of `identifier_compare`. */
  method CompareBytes(a: string, b: string) returns (c: int)
    ensures c == S.Compare(a, b)
  {
    var n := if |a| < |b| then |a| else |b|;
    var i := 0;
    assert a[0..] == a && b[0..] == b;
    while i < n
      invariant 0 <= i <= n && S.Compare(a, b) == S.Compare(a[i..], b[i..])
    {
      if a[i] != b[i] { return if a[i] > b[i] then 1 else -1; }
      assert a[i..][1..] == a[i + 1..] && b[i..][1..] == b[i + 1..];
      i := i + 1;
    }
    c := if |a| == |b| then 0 else if |a| > |b| then 1 else -1;
  }

  /** `identifier_compare`: numeric identifiers of any length by their value. */
  method IdentifierCompare(a: string, b: string) returns (c: int)
    requires a != "" && b != ""
    ensures c == IdOrder(a, b)
  {
    hide Digits, NatOf, S.Compare;
    var ad := IsNumeric(a);
    var bd := IsNumeric(b);
    if ad && bd {
      var i := StripZeros(a);
      var j := StripZeros(b);
      var x, y := a[i..], b[j..];
      if |x| != |y| {
        if |x| > |y| { LongerIsLarger(x, y); } else { LongerIsLarger(y, x); }
        return if |x| > |y| then 1 else -1;
      }
      SameLength(x, y);
      c := CompareBytes(x, y);
    } else if ad != bd {
      c := if ad then -1 else 1;
    } else {
      c := CompareBytes(a, b);
    }
  }

  /** The identifier loop of `semver_compare_parsed`. */
  method CompareIdentifiers(a: string, b: string) returns (c: int)
    requires ValidIdentifiers(a, true) && ValidIdentifiers(b, true)
    ensures c == IdsOrder(Identifiers(a), Identifiers(b))
  {
    hide IdOrder, ValidIdentifier;
    var x, y := a, b;
    while x != "" && y != ""
      invariant ValidIdentifiers(x, true) && ValidIdentifiers(y, true)
      invariant IdsOrder(Identifiers(a), Identifiers(b)) == IdsOrder(Identifiers(x), Identifiers(y))
      decreases |x|
    {
      FirstIdentifier(x);
      FirstIdentifier(y);
      c := IdentifierCompare(x[..Upto(x)], y[..Upto(y)]);
      if c != 0 { return; }
      x, y := Behind(x), Behind(y);
    }
    c := if x == "" then if y == "" then 0 else -1 else 1;
  }

  lemma FirstIdentifier(s: string)
    requires s != "" && ValidIdentifiers(s, true)
    ensures s[..Upto(s)] != "" && ValidIdentifiers(Behind(s), true)
    ensures Identifiers(s) != [] && Identifiers(s)[0] == s[..Upto(s)] && Identifiers(s)[1..] == Identifiers(Behind(s))
  {}

  predicate ValidVersion(v: Version) {
    v.pre.Some? ==> v.pre.value != "" && ValidIdentifiers(v.pre.value, true)
  }

  lemma ParsedIsValid(s: string)
    requires IsVersion(s)
    ensures ValidVersion(ParseVersion(s).value)
  {
    hide NumberPart, BuildPart, ValidIdentifiers;
  }

  /** `semver_compare_parsed` */
  method CompareParsed(a: Version, b: Version) returns (c: int)
    requires ValidVersion(a) && ValidVersion(b)
    ensures c == Precedence(a, b)
  {
    hide ValidIdentifiers, Identifiers, IdsOrder;
    if a.major != b.major { return if a.major > b.major then 1 else -1; }
    if a.minor != b.minor { return if a.minor > b.minor then 1 else -1; }
    if a.patch != b.patch { return if a.patch > b.patch then 1 else -1; }
    if a.pre.None? && b.pre.None? { return 0; }
    if a.pre.None? { return 1; }
    if b.pre.None? { return -1; }
    c := CompareIdentifiers(a.pre.value, b.pre.value);
  }

  /** What `semver_compare` returns: 0 when a text is not a version. */
  function VersionOrder(a: string, b: string): int {
    if IsVersion(a) && IsVersion(b) then Precedence(ParseVersion(a).value, ParseVersion(b).value) else 0
  }

  /** `semver_compare` */
  method CompareVersions(a: string, b: string) returns (c: int, valid: bool)
    ensures valid == (IsVersion(a) && IsVersion(b)) && c == VersionOrder(a, b)
  {
    hide ParseVersion, Precedence, ValidVersion;
    var x := ReadVersion(a);
    var y := ReadVersion(b);
    if x.None? || y.None? { return 0, false; }
    ParsedIsValid(a);
    ParsedIsValid(b);
    c := CompareParsed(x.value, y.value);
    valid := true;
  }

  /** On accepted versions the comparison is a total preorder. */
  lemma VersionOrderIsPreorder(a: string, b: string, c: string)
    requires IsVersion(a) && IsVersion(b) && IsVersion(c)
    ensures VersionOrder(a, a) == 0
    ensures VersionOrder(a, b) == -VersionOrder(b, a)
    ensures VersionOrder(a, b) <= 0 && VersionOrder(b, c) <= 0 ==> VersionOrder(a, c) <= 0
    ensures VersionOrder(a, b) == 0 ==> VersionOrder(a, c) == VersionOrder(b, c)
  {
    hide Precedence, ParseVersion;
    var x, y, z := ParseVersion(a).value, ParseVersion(b).value, ParseVersion(c).value;
    PrecedenceTotal(x, y);
    PrecedenceTotal(y, z);
    PrecedenceTotal(x, z);
    if Precedence(x, y) <= 0 && Precedence(y, z) <= 0 { PrecedenceTransitive(x, y, z); }
    if Precedence(x, y) == 0 {
      if Precedence(y, z) <= 0 { PrecedenceTransitive(x, y, z); }
      if Precedence(x, z) <= 0 { PrecedenceTransitive(y, x, z); }
      if Precedence(z, y) <= 0 { PrecedenceTransitive(z, y, x); }
      if Precedence(z, x) <= 0 { PrecedenceTransitive(z, x, y); }
    }
  }
}
