/** What the first two passes of redaction take away: terminal sequences, and the
    user information of URIs.  */
module Credentials {
  import opened Redaction

  // ----- authorities -----

  /** No user information stands in the authority behind the "://" at `k`. */
  predicate Bare(s: string, k: nat) {
    k + 3 <= |s| && '@' !in s[k + 3..AuthorityEnd(s, k + 3)]
  }

  /** Byte by byte: between "://" and a later '@' stands a byte that ends the
      authority. */
  predicate Anonymous(s: string, k: nat) {
    forall j :: k + 3 <= j < |s| && s[j] == '@' ==> exists m :: k + 3 <= m < j && EndsAuthority(s[m])
  }

  lemma {:induction false} EndsThere(s: string, i: nat)
    requires i <= |s|
    ensures var e := AuthorityEnd(s, i); e < |s| ==> EndsAuthority(s[e])
    decreases |s| - i
  {
    if i < |s| && !EndsAuthority(s[i]) { EndsThere(s, i + 1); }
  }

  lemma InRange(s: string, i: nat, e: nat, j: nat)
    requires i <= j < e <= |s|
    ensures s[j] in s[i..e]
  {
    assert s[i..e][j - i] == s[j];
  }

  lemma BareIsAnonymous(s: string, k: nat)
    requires Bare(s, k)
    ensures Anonymous(s, k)
  {
    var e := AuthorityEnd(s, k + 3);
    EndsThere(s, k + 3);
    forall j | k + 3 <= j < |s| && s[j] == '@' ensures exists m :: k + 3 <= m < j && EndsAuthority(s[m]) {
      if j < e { InRange(s, k + 3, e, j); }
      assert EndsAuthority(s[e]);
    }
  }

  predicate AllAnonymous(s: string) {
    forall k: nat :: k < |s| && StartsAt(s, k, "://") ==> Anonymous(s, k)
  }

  lemma BareIsEnough(s: string)
    requires BareBelow(s, |s|)
    ensures AllAnonymous(s)
  {
    hide Bare, Anonymous, StartsAt;
    forall k: nat | k < |s| && StartsAt(s, k, "://") ensures Anonymous(s, k) { BareIsAnonymous(s, k); }
  }

  /** Every URI that starts before `n` is bare. */
  predicate BareBelow(s: string, n: nat) {
    forall k: nat :: k < n && StartsAt(s, k, "://") ==> Bare(s, k)
  }

  lemma {:induction false} AuthorityShift(s: string, i: nat, t: string, j: nat)
    requires i <= |s| && j <= |t| && s[i..] == t[j..]
    ensures AuthorityEnd(s, i) - i == AuthorityEnd(t, j) - j
    decreases |s| - i
  {
    if i < |s| {
      assert s[i] == s[i..][0] == t[j..][0] == t[j];
      assert s[i + 1..] == s[i..][1..] && t[j + 1..] == t[j..][1..];
      AuthorityShift(s, i + 1, t, j + 1);
    }
  }

  lemma {:induction false} AuthorityInside(s: string, i: nat, j: nat)
    requires i <= |s| && i <= j <= AuthorityEnd(s, i)
    ensures AuthorityEnd(s, j) == AuthorityEnd(s, i)
    decreases j - i
  {
    if i < j { AuthorityInside(s, i + 1, j); }
  }

  /** An authority ends at the first byte that ends it. */
  lemma {:induction false} AuthorityStops(s: string, i: nat, j: nat)
    requires i <= j < |s| && EndsAuthority(s[j])
    ensures AuthorityEnd(s, i) <= j
    decreases j - i
  {
    if i < j { AuthorityStops(s, i + 1, j); }
  }

  lemma {:induction false} AuthoritySame(s: string, t: string, i: nat, n: nat)
    requires i <= |s| && AuthorityEnd(s, i) < n <= |s| && n <= |t| && s[..n] == t[..n]
    ensures AuthorityEnd(t, i) == AuthorityEnd(s, i)
    decreases |s| - i
  {
    assert s[i] == s[..n][i] == t[..n][i] == t[i];
    if !EndsAuthority(s[i]) { AuthoritySame(s, t, i + 1, n); }
  }

  lemma {:induction false} NoAtBehind(s: string, i: nat, e: nat)
    requires i <= e <= |s|
    ensures '@' !in s[BehindLastAt(s, i, e)..e]
    decreases e
  {
    var k := BehindLastAt(s, i, e);
    if i < e && s[e - 1] != '@' {
      NoAtBehind(s, i, e - 1);
      assert s[k..e] == s[k..e - 1] + [s[e - 1]];
    }
  }

  /** Dropping leaves the authority bare. */
  lemma DropIsBare(s: string, k: nat)
    requires k + 3 <= |s|
    ensures k + 3 <= |DropAt(s, k + 3)| && Bare(DropAt(s, k + 3), k)
  {
    var a := k + 3;
    var e := AuthorityEnd(s, a);
    var b := BehindLastAt(s, a, e);
    var t := DropAt(s, a);
    assert t[a..] == s[b..];
    AuthorityInside(s, a, b);
    AuthorityShift(s, b, t, a);
    NoAtBehind(s, a, e);
    assert t[a..AuthorityEnd(t, a)] == s[b..][..e - b] == s[b..e];
  }

  /** An earlier bare authority is not touched: it ends before the next "//". */
  lemma DropKeepsBare(s: string, k: nat, j: nat)
    requires StartsAt(s, j, "://") && j + 3 <= k && StartsAt(s, k, "://") && Bare(s, j)
    ensures j + 3 <= |DropAt(s, k + 3)| && Bare(DropAt(s, k + 3), j)
  {
    var t := DropAt(s, k + 3);
    SchemeHere(s, k);
    assert t[..k + 3] == s[..k + 3];
    AuthorityStops(s, j + 3, k + 1);
    AuthoritySame(s, t, j + 3, k + 3);
    var e := AuthorityEnd(s, j + 3);
    assert t[j + 3..e] == t[..k + 3][j + 3..e] == s[..k + 3][j + 3..e] == s[j + 3..e];
  }

  /** "://" does not overlap itself. */
  lemma SchemesApart(s: string, j: nat, k: nat)
    requires j < k && StartsAt(s, j, "://") && StartsAt(s, k, "://")
    ensures j + 3 <= k
  {
    SchemeHere(s, j);
    SchemeHere(s, k);
  }

  lemma SchemeKept(s: string, t: string, n: nat, j: nat)
    requires n <= |s| && n <= |t| && s[..n] == t[..n] && j + 3 <= n
    ensures StartsAt(s, j, "://") == StartsAt(t, j, "://")
  {
    assert s[j..j + 3] == s[..n][j..j + 3] && t[j..j + 3] == t[..n][j..j + 3];
  }

  lemma {:induction false} NoneBetween(s: string, i: nat, j: nat)
    requires i <= |s| && i <= j < FindScheme(s, i)
    ensures !StartsAt(s, j, "://")
    decreases j - i
  {
    if i < j { NoneBetween(s, i + 1, j); }
  }

  lemma {:induction false} FoundScheme(s: string, i: nat)
    requires i <= |s| && FindScheme(s, i) < |s|
    ensures StartsAt(s, FindScheme(s, i), "://")
    decreases |s| - i
  {
    if !StartsAt(s, i, "://") { FoundScheme(s, i + 1); }
  }

  /** One step of the pass. */
  lemma StepIsBare(s: string, i: nat, k: nat)
    requires i <= k && k + 3 <= |s| && StartsAt(s, k, "://") && BareBelow(s, i)
    requires forall j: nat :: i <= j < k ==> !StartsAt(s, j, "://")
    ensures BareBelow(DropAt(s, k + 3), k + 3)
  {
    hide Bare, DropAt, StartsAt;
    var t := DropAt(s, k + 3);
    DropPrefix(s, k + 3);
    DropIsBare(s, k);
    forall j: nat | j < k + 3 && StartsAt(t, j, "://") ensures Bare(t, j) {
      SchemeKept(s, t, k + 3, k);
      if j > k { SchemesApart(t, k, j); }
      if j < k {
        SchemesApart(t, j, k);
        SchemeKept(s, t, k + 3, j);
        DropKeepsBare(s, k, j);
      }
    }
  }

  lemma FitsScheme(s: string, k: nat)
    requires StartsAt(s, k, "://")
    ensures k + 3 <= |s|
  {}

  lemma DropPrefix(s: string, a: nat)
    requires a <= |s|
    ensures a <= |DropAt(s, a)| && DropAt(s, a)[..a] == s[..a]
  {}

  lemma {:induction false} PassIsBare(s: string, i: nat)
    requires i <= |s| && BareBelow(s, i)
    ensures var r := DropUserInfo(s, i); BareBelow(r, |r|)
    decreases |s| - i
  {
    hide BareBelow, DropAt, FindScheme, StartsAt;
    var k := FindScheme(s, i);
    forall j: nat | i <= j < k ensures !StartsAt(s, j, "://") { NoneBetween(s, i, j); }
    if k < |s| {
      FoundScheme(s, i);
      FitsScheme(s, k);
      StepIsBare(s, i, k);
      PassIsBare(DropAt(s, k + 3), k + 3);
    } else {
      AllBare(s, i);
    }
  }

  lemma AllBare(s: string, i: nat)
    requires BareBelow(s, i) && forall j: nat :: i <= j < |s| ==> !StartsAt(s, j, "://")
    ensures BareBelow(s, |s|)
  {
    hide Bare, StartsAt;
  }

  /** After the second pass no URI of any text holds user information. */
  lemma NoUserInfo(s: string)
    ensures AllAnonymous(DropUserInfo(s, 0))
  {
    hide DropUserInfo;
    PassIsBare(s, 0);
    BareIsEnough(DropUserInfo(s, 0));
  }

  // Without fields the later passes change nothing.

  lemma {:induction false} StripAdds(s: string, c: char)
    requires c in Strip(s)
    ensures c in s
    decreases |s|
  {
    if s[0] == ESC {
      EscapeIsPart(s[1..], c);
      StripAdds(SkipEscape(s[1..]), c);
    } else if c != s[0] || !Visible(s[0]) {
      StripAdds(s[1..], c);
    }
  }

  lemma EscapeIsPart(s: string, c: char)
    ensures c in SkipEscape(s) ==> c in s
  {
    if s != "" {
      CsiIsPart(s[1..], c);
      OscIsPart(s[1..], c);
    }
  }

  lemma {:induction false} CsiIsPart(s: string, c: char)
    ensures c in SkipCsi(s) ==> c in s
  {
    if s != "" { CsiIsPart(s[1..], c); }
  }

  lemma {:induction false} OscIsPart(s: string, c: char)
    ensures c in SkipOsc(s) ==> c in s
  {
    if s != "" { OscIsPart(s[1..], c); }
  }

  lemma {:induction false} DropAdds(s: string, i: nat, c: char)
    requires i <= |s| && c in DropUserInfo(s, i)
    ensures c in s
    decreases |s| - i
  {
    hide DropAt, FindScheme;
    var k := FindScheme(s, i);
    if k < |s| {
      DropAdds(DropAt(s, k + 3), k + 3, c);
      DropIsPart(s, k + 3, c);
    }
  }

  lemma DropIsPart(s: string, a: nat, c: char)
    requires a <= |s| && c in DropAt(s, a)
    ensures c in s
  {}

  /** A message without an equals sign, and so without a field, keeps no user
      information in its URIs. */
  lemma CredentialsAreRemoved(s: string)
    requires '=' !in s
    ensures AllAnonymous(Redact(s))
  {
    hide Strip, DropUserInfo, MaskFields, AllAnonymous, FieldNames;
    var t := Strip(s);
    var u := DropUserInfo(t, 0);
    if '=' in u {
      DropAdds(t, 0, '=');
      StripAdds(s, '=');
    }
    ProtectedNames();
    NoUserInfo(t);
    NoFields(u, FIELDS, |FIELDS|);
  }

  // ----- terminal sequences -----

  lemma {:induction false} StripVisibleFront(a: string, b: string)
    requires AllVisible(a)
    ensures Strip(a + b) == a + Strip(b)
  {
    hide Strip, SkipEscape;
    if a == "" {
      assert a + b == b && a + Strip(b) == Strip(b);
    } else {
      VisibleRest(a);
      assert (a + b)[1..] == a[1..] + b;
      StripStep(a + b);
      StripVisibleFront(a[1..], b);
      assert [a[0]] + (a[1..] + Strip(b)) == a + Strip(b);
    }
  }

  lemma VisibleRest(a: string)
    requires AllVisible(a) && a != ""
    ensures AllVisible(a[1..]) && Visible(a[0]) && a[0] != ESC
  {
    assert a[0] in a && forall c :: c in a[1..] ==> c in a;
  }

  lemma {:induction false} CsiEnds(p: string, f: char, b: string)
    requires '@' <= f <= '~' && forall i :: 0 <= i < |p| ==> !('@' <= p[i] <= '~')
    ensures SkipCsi(p + ([f] + b)) == b
  {
    if p == "" {
      assert p + ([f] + b) == [f] + b;
    } else {
      assert (p + ([f] + b))[1..] == p[1..] + ([f] + b);
      CsiEnds(p[1..], f, b);
    }
  }

  /** A control sequence disappears up to its final byte, and nothing else does. */
  lemma ControlSequenceIsRemoved(a: string, p: string, f: char, b: string)
    requires AllVisible(a) && '@' <= f <= '~' && forall i :: 0 <= i < |p| ==> !('@' <= p[i] <= '~')
    ensures Strip(a + ([ESC, '['] + (p + ([f] + b)))) == a + Strip(b)
  {
    hide SkipCsi, Strip, AllVisible;
    var t := p + ([f] + b);
    var s := [ESC, '['] + t;
    CsiEnds(p, f, b);
    assert s[1..] == ['['] + t && s[1..][1..] == t;
    StripStep(s);
    assert Strip(s) == Strip(b);
    hide SkipEscape;
    StripVisibleFront(a, s);
  }

  lemma {:induction false} OscEnds(p: string, b: string)
    requires BEL !in p && ESC !in p
    ensures SkipOsc(p + ([BEL] + b)) == b
  {
    if p == "" {
      assert p + ([BEL] + b) == [BEL] + b;
    } else {
      assert (p + ([BEL] + b))[1..] == p[1..] + ([BEL] + b);
      OscEnds(p[1..], b);
    }
  }

  /** An operating system command disappears up to its terminator. */
  lemma SystemCommandIsRemoved(a: string, p: string, b: string)
    requires AllVisible(a) && BEL !in p && ESC !in p
    ensures Strip(a + ([ESC, ']'] + (p + ([BEL] + b)))) == a + Strip(b)
  {
    hide SkipOsc, Strip, AllVisible;
    var t := p + ([BEL] + b);
    var s := [ESC, ']'] + t;
    OscEnds(p, b);
    assert s[1..] == [']'] + t && s[1..][1..] == t;
    StripStep(s);
    assert Strip(s) == Strip(b);
    hide SkipEscape;
    StripVisibleFront(a, s);
  }

  // ----- where fields and URIs meet -----

  // Masking a quoted value can remove the byte that ended an authority.

  const JOINING: string := "://token=\"/\"@"
  const JOINED: string := "://token=\"*\"@"

  /** The field can only stand where its equals sign is. */
  lemma {:induction false} FieldNotFound(s: string, i: nat, f: string, e: nat)
    requires i <= |s| && FieldName(f) && e < |s| && forall j :: i <= j < |s| && s[j] == '=' ==> j == e
    requires i + |f| <= e + 1 ==> Lower(s[e + 1 - |f|]) != f[0]
    ensures FindField(s, i, f) == |s|
    decreases |s| - i
  {
    if i < |s| {
      var n := |f| - 1;
      if i + n < |s| {
        if s[i + n] == '=' { assert Lower(s[i + 0]) != f[0]; } else { assert Lower(s[i + n]) != f[n]; }
      }
      FieldNotFound(s, i + 1, f, e);
    }
  }

  lemma SampleBytes()
    ensures |JOINING| == 13 == |JOINED| && AllVisible(JOINING) && JOINING[..3] == "://" && JOINING[9] == '"' == JOINING[11] && JOINING[10] == '/'
    ensures JOINING[8] == '=' && JOINING[12] == '@' && JOINING[3..9] == "token="
    ensures forall j :: 0 <= j < 13 ==> (JOINING[j] == '=' <==> j == 8) && (JOINING[j] == ':' <==> j == 0) && (JOINED[j] == '=' <==> j == 8)
    ensures forall j :: 3 <= j < 10 ==> !EndsAuthority(JOINING[j]) && JOINING[j] != '@'
    ensures JOINED == JOINING[..10] + "*" + JOINING[11..] && forall j :: 3 <= j < 12 ==> !EndsAuthority(JOINED[j])
  {
    assert JOINED == JOINING[..10] + "*" + JOINING[11..];
    assert JOINING[..3] == "://";
    assert JOINING[3..9] == "token=";
  }

  lemma {:induction false} RunsTo(s: string, i: nat, e: nat)
    requires i <= e < |s| && EndsAuthority(s[e]) && forall m :: i <= m < e ==> !EndsAuthority(s[m])
    ensures AuthorityEnd(s, i) == e
    decreases e - i
  {
    if i < e { RunsTo(s, i + 1, e); }
  }

  lemma {:induction false} NoAtSign(s: string, i: nat, e: nat)
    requires i <= e <= |s| && forall m :: i <= m < e ==> s[m] != '@'
    ensures BehindLastAt(s, i, e) == i
    decreases e
  {
    if i < e { NoAtSign(s, i, e - 1); }
  }

  lemma {:induction false} NoColon(s: string, i: nat)
    requires i <= |s| && forall j :: i <= j < |s| ==> s[j] != ':'
    ensures FindScheme(s, i) == |s|
    decreases |s| - i
  {
    if i < |s| {
      SchemeHere(s, i);
      NoColon(s, i + 1);
    }
  }

  lemma UriPassKeeps(s: string)
    requires |s| == 13 && s[..3] == "://" && s[10] == '/' && forall j :: 3 <= j < 10 ==> !EndsAuthority(s[j]) && s[j] != '@'
    requires forall j :: 3 <= j < 13 ==> s[j] != ':'
    ensures DropUserInfo(s, 0) == s
  {
    hide EndsAuthority;
    EndsAt(s[10]);
    RunsTo(s, 3, 10);
    NoAtSign(s, 3, 10);
    assert s[0..0 + 3] == s[..3];
    assert FindScheme(s, 0) == 0;
    assert s[..3] + s[3..] == s;
    NoColon(s, 3);
    hide FindScheme, AuthorityEnd, BehindLastAt;
    DropStep(s, 0);
    DropStep(s, 3);
  }

  lemma EndsAt(c: char)
    ensures c == '/' ==> EndsAuthority(c)
  {}

  lemma TokenIsMasked()
    ensures MaskField(JOINING, 0, "token=") == JOINED
  {
    var s, f := JOINING, "token=";
    SampleBytes();
    ProtectedNames();
    hide AllVisible, EndsAuthority;
    TokenAt(s);
    assert SpanStart(s, 9) == 10;
    assert QuoteEnd(s, 11, '"') == 11;
    assert SpanEnd(s, 9) == 11;
    hide FindField, SpanStart, SpanEnd, QuoteEnd, FieldName;
    MaskStep(s, 0, f);
    assert Mask(s, 10, 11) == JOINED;
    NoMoreToken();
  }

  lemma NoMoreToken()
    ensures MaskField(JOINED, 11, "token=") == JOINED
  {
    SampleBytes();
    ProtectedNames();
    hide AllVisible, EndsAuthority;
    FieldNotFound(JOINED, 11, "token=", 8);
    MaskStep(JOINED, 11, "token=");
  }

  lemma TokenAt(s: string)
    requires |s| == 13 && s[3..9] == "token=" && forall j :: 0 <= j < 13 ==> (s[j] == '=' <==> j == 8)
    ensures FindField(s, 0, "token=") == 3
  {
    var f := "token=";
    assert Occurs(s, 3, f) by {
      forall j | 0 <= j < 6 ensures Lower(s[3 + j]) == f[j] { assert s[3 + j] == s[3..9][j]; }
    }
    assert f[5] == '=';
    assert Lower(s[0 + 5]) != f[5] && Lower(s[1 + 5]) != f[5] && Lower(s[2 + 5]) != f[5];
    assert !Occurs(s, 0, f) && !Occurs(s, 1, f) && !Occurs(s, 2, f);
    assert FindField(s, 3, f) == 3;
    assert FindField(s, 2, f) == FindField(s, 3, f) && FindField(s, 1, f) == FindField(s, 2, f);
  }

  lemma OtherField(s: string, f: string)
    requires s == JOINING || s == JOINED
    requires f == "secret-key=" || f == "password=" || f == "access_token=" || f == "api_key="
    ensures FieldName(f) && MaskField(s, 0, f) == s
  {
    SampleBytes();
    ProtectedNames();
    hide AllVisible, EndsAuthority, MaskField;
    assert s[0] == ':' && s[1] == '/' by { assert JOINED[0] == JOINING[..3][0] && JOINED[1] == JOINING[..3][1]; }
    FieldNotFound(s, 0, f, 8);
    MaskStep(s, 0, f);
  }

  /** Not every filtered text is free of user information: here a masked value
      held the only byte between the "://" and the '@'. */
  lemma MaskingCanJoin()
    ensures Redact(JOINING) == JOINED && !AllAnonymous(JOINED)
  {
    SampleBytes();
    ProtectedNames();
    StripKeeps(JOINING);
    UriPassKeeps(JOINING);
    OtherField(JOINING, "secret-key=");
    OtherField(JOINING, "password=");
    TokenIsMasked();
    OtherField(JOINED, "access_token=");
    OtherField(JOINED, "api_key=");
    hide Strip, DropUserInfo, MaskField, AllVisible, FieldName, FieldNames;
    FivePasses(JOINING, JOINING, JOINING, JOINED, JOINED, JOINED);
    StillJoined();
  }

  lemma FivePasses(s: string, a: string, b: string, c: string, d: string, e: string)
    requires FieldNames(FIELDS)
    requires MaskField(s, 0, "secret-key=") == a && MaskField(a, 0, "password=") == b && MaskField(b, 0, "token=") == c
    requires MaskField(c, 0, "access_token=") == d && MaskField(d, 0, "api_key=") == e
    ensures MaskFields(s, FIELDS, |FIELDS|) == e
  {
    hide MaskField, FieldName, FieldNames;
    assert MaskFields(s, FIELDS, 0) == s;
    assert MaskFields(s, FIELDS, 1) == a;
    assert MaskFields(s, FIELDS, 2) == b;
    assert MaskFields(s, FIELDS, 3) == c;
    assert MaskFields(s, FIELDS, 4) == d;
    assert MaskFields(s, FIELDS, 5) == e;
  }

  lemma StillJoined()
    ensures !AllAnonymous(JOINED)
  {
    SampleBytes();
    hide AllVisible, EndsAuthority;
    assert JOINED[0..0 + 3] == JOINING[..3] && JOINED[12] == JOINING[12];
    assert StartsAt(JOINED, 0, "://") && !Anonymous(JOINED, 0);
  }
}
