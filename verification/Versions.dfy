/** Version texts from the printing side (section 2 of SemVer 2.0.0, and the
    trailing dot that the code allows): what a text says, and in what order. */
module Versions {
  import opened JsonGrammar
  import opened JsonFields
  import opened Decimal
  import opened Semver

  // ----- labels -----

  /** Identifiers with dots between them. */
  function Dotted(ids: seq<string>): string {
    if ids == [] then "" else if |ids| == 1 then ids[0] else ids[0] + ("." + Dotted(ids[1..]))
  }

  predicate ValidIds(ids: seq<string>, pre: bool) {
    forall i :: 0 <= i < |ids| ==> ValidIdentifier(ids[i], pre)
  }

  lemma {:induction false} IdBytesPlain(id: string)
    requires AllIdBytes(id)
    ensures Upto(id) == |id| && '.' !in id && '+' !in id
  {
    if id != "" {
      IdBytesPlain(id[1..]);
      assert id == [id[0]] + id[1..];
    }
  }

  lemma {:induction false} UptoJoined(a: string, b: string)
    requires Upto(a) == |a|
    ensures Upto(a + ("." + b)) == |a| && Behind(a + ("." + b)) == b
  {
    var s := a + ("." + b);
    if a == "" {
      assert s == "." + b && s[0..][1..] == b;
    } else {
      assert s[1..] == a[1..] + ("." + b);
      UptoJoined(a[1..], b);
      assert s[|a|..][1..] == b;
    }
  }

  lemma LabelStep(id: string, t: string, pre: bool, ids: seq<string>)
    requires ValidIdentifier(id, pre) && ValidIdentifiers(t, pre) && Identifiers(t) == ids && '+' !in t
    ensures var s := id + ("." + t); s != "" && ValidIdentifiers(s, pre) && Identifiers(s) == [id] + ids && '+' !in s
  {
    hide ValidIdentifier, Upto, Behind;
    var s := id + ("." + t);
    IdentifierPlain(id, pre);
    UptoJoined(id, t);
    assert s[..|id|] == id;
  }

  lemma LabelEnd(id: string, pre: bool)
    requires ValidIdentifier(id, pre)
    ensures id != "" && ValidIdentifiers(id, pre) && Identifiers(id) == [id] && '+' !in id
  {
    hide ValidIdentifier, Upto;
    IdentifierPlain(id, pre);
    assert id[..|id|] == id && Behind(id) == "";
    assert [id] + [] == [id];
  }

  /** A label holds the identifiers that are printed, with or without a dot at
      the end. */
  lemma {:induction false} LabelSays(ids: seq<string>, pre: bool, dot: bool)
    requires ids != [] && ValidIds(ids, pre)
    ensures var s := Dotted(ids) + if dot then "." else "";
            s != "" && ValidIdentifiers(s, pre) && Identifiers(s) == ids && '+' !in s
    decreases |ids|
  {
    hide ValidIdentifier, ValidIdentifiers, Identifiers;
    var end := if dot then "." else "";
    var s := Dotted(ids) + end;
    if |ids| == 1 {
      assert ids == [ids[0]];
      if dot {
        NoLabels(pre);
        LabelStep(ids[0], "", pre, []);
        assert s == ids[0] + ("." + "") && [ids[0]] + [] == ids;
      } else {
        LabelEnd(ids[0], pre);
        assert s == ids[0];
      }
    } else {
      var t := Dotted(ids[1..]) + end;
      LabelSays(ids[1..], pre, dot);
      LabelStep(ids[0], t, pre, ids[1..]);
      assert s == ids[0] + ("." + t) && ids == [ids[0]] + ids[1..];
    }
  }

  lemma NoLabels(pre: bool)
    ensures ValidIdentifiers("", pre) && Identifiers("") == []
  {}

  lemma IdentifierPlain(id: string, pre: bool)
    requires ValidIdentifier(id, pre)
    ensures id != "" && Upto(id) == |id| && '.' !in id && '+' !in id
  {
    IdBytesPlain(id);
  }

  // ----- texts -----

  /** What a version text says. */
  datatype Text = Text(major: nat, minor: nat, patch: nat, pre: Option<string>, build: Option<string>) {
    predicate Wf() {
      major <= ULLONG_MAX && minor <= ULLONG_MAX && patch <= ULLONG_MAX && WfLabels(pre, build)
    }
  }

  predicate WfLabels(pre: Option<string>, build: Option<string>) {
    && (pre.Some? ==> pre.value != "" && '+' !in pre.value && ValidIdentifiers(pre.value, true))
    && (build.Some? ==> build.value != "" && ValidIdentifiers(build.value, false))
  }

  function PreText(pre: Option<string>): string {
    if pre.Some? then "-" + pre.value else ""
  }

  function BuildText(build: Option<string>): string {
    if build.Some? then "+" + build.value else ""
  }

  /** MAJOR.MINOR.PATCH in decimal, and the labels. */
  function Printed(t: Text): string {
    DecimalText(t.major) + ("." + (DecimalText(t.minor) + ("." + (DecimalText(t.patch) + (PreText(t.pre) + BuildText(t.build))))))
  }

  lemma NumberOf(n: nat, rest: string)
    requires n <= ULLONG_MAX && !IsDigit(Head(rest))
    ensures NumberPart(DecimalText(n) + rest) == Ok(n, rest)
  {
    var d := DecimalText(n);
    DecimalValue(n);
    DigitsIff(d);
    DigitRunOf(d, rest);
    assert (d + rest)[..|d|] == d && (d + rest)[|d|..] == rest;
    hide NatOf, DecimalText, DigitRun;
  }

  lemma {:induction false} UptoPlusOf(p: string, rest: string)
    requires '+' !in p && (rest == "" || rest[0] == '+')
    ensures UptoPlus(p + rest) == |p|
  {
    if p == "" {
      assert p + rest == rest;
    } else {
      assert (p + rest)[1..] == p[1..] + rest;
      UptoPlusOf(p[1..], rest);
    }
  }

  lemma LabelsRead(t: Text)
    requires t.Wf()
    ensures PrePart(PreText(t.pre) + BuildText(t.build)) == Ok(t.pre, BuildText(t.build)) && BuildPart(BuildText(t.build))
  {
    hide ValidIdentifiers, UptoPlus;
    var b := BuildText(t.build);
    if t.build.Some? { assert b[1..] == t.build.value; }
    if t.pre.Some? {
      var s := PreText(t.pre) + b;
      assert s[1..] == t.pre.value + b;
      UptoPlusOf(t.pre.value, b);
      assert s[1..][..|t.pre.value|] == t.pre.value && s[1..][|t.pre.value|..] == b;
    } else {
      assert "" + b == b;
    }
  }

  /** A printed text is parsed to its numbers and prerelease. */
  lemma TextSays(t: Text)
    requires t.Wf()
    ensures ParseVersion(Printed(t)) == Some(Version(t.major, t.minor, t.patch, t.pre))
  {
    hide NumberPart, PrePart, BuildPart, DecimalText, ValidIdentifiers, PreText, BuildText;
    var labels := PreText(t.pre) + BuildText(t.build);
    LabelsStop(t.pre, t.build);
    LabelsRead(t);
    NumberOf(t.patch, labels);
    var c := "." + (DecimalText(t.patch) + labels);
    assert c[1..] == DecimalText(t.patch) + labels;
    NumberOf(t.minor, c);
    var b := "." + (DecimalText(t.minor) + c);
    assert b[1..] == DecimalText(t.minor) + c;
    NumberOf(t.major, b);
  }

  lemma LabelsStop(pre: Option<string>, build: Option<string>)
    ensures !IsDigit(Head(PreText(pre) + BuildText(build)))
  {}

  // Every accepted text is printed.

  lemma NumberPrints(s: string)
    requires NumberPart(s).Ok?
    ensures s == DecimalText(NumberPart(s).value) + NumberPart(s).rest && NumberPart(s).value <= ULLONG_MAX
  {
    var n := DigitRun(s);
    DigitRunFacts(s);
    DigitsAre(s[..n]);
    DigitsArePrinted(s[..n]);
    assert s == s[..n] + s[n..];
  }

  lemma DottedPrints(s: string)
    requires DottedPart(s).Ok?
    ensures s == "." + (DecimalText(DottedPart(s).value) + DottedPart(s).rest) && DottedPart(s).value <= ULLONG_MAX
  {
    hide NumberPart, DecimalText;
    NumberPrints(s[1..]);
    assert s == [s[0]] + s[1..];
  }

  lemma {:induction false} UptoPlusPlain(s: string)
    ensures '+' !in s[..UptoPlus(s)]
  {
    if s != "" && s[0] != '+' {
      UptoPlusPlain(s[1..]);
      assert s[..UptoPlus(s)] == [s[0]] + s[1..][..UptoPlus(s[1..])];
    }
  }

  lemma PrePrints(s: string)
    requires PrePart(s).Ok?
    ensures s == PreText(PrePart(s).value) + PrePart(s).rest && WfLabels(PrePart(s).value, None)
  {
    hide ValidIdentifiers, UptoPlus;
    if Head(s) == '-' {
      UptoPlusPlain(s[1..]);
      assert s == [s[0]] + s[1..];
    } else {
      assert s == "" + s;
    }
  }

  lemma BuildPrints(s: string) returns (build: Option<string>)
    requires BuildPart(s)
    ensures s == BuildText(build) && WfLabels(None, build)
  {
    hide ValidIdentifiers;
    if s == "" {
      build := None;
    } else {
      build := Some(s[1..]);
      assert s == [s[0]] + s[1..];
    }
  }

  lemma LabelsPrint(s: string) returns (pre: Option<string>, build: Option<string>)
    requires PrePart(s).Ok? && BuildPart(PrePart(s).rest)
    ensures pre == PrePart(s).value && s == PreText(pre) + BuildText(build) && WfLabels(pre, build)
  {
    hide PrePart, BuildPart, PreText, BuildText, ValidIdentifiers;
    pre := PrePart(s).value;
    PrePrints(s);
    build := BuildPrints(PrePart(s).rest);
  }

  /** Every accepted version is the printout of what it says. */
  lemma VersionIsPrinted(s: string) returns (t: Text)
    requires IsVersion(s)
    ensures t.Wf() && s == Printed(t) && ParseVersion(s) == Some(Version(t.major, t.minor, t.patch, t.pre))
  {
    hide NumberPart, DottedPart, PrePart, BuildPart, DecimalText, PreText, BuildText, WfLabels;
    var a := NumberPart(s);
    var b := DottedPart(a.rest);
    var c := DottedPart(b.rest);
    NumberPrints(s);
    DottedPrints(a.rest);
    DottedPrints(b.rest);
    var pre, build := LabelsPrint(c.rest);
    t := Text(a.value, b.value, c.value, pre, build);
  }

  /** The versions are exactly the printed texts. */
  lemma VersionsArePrinted(s: string)
    ensures IsVersion(s) <==> exists t: Text :: t.Wf() && s == Printed(t)
  {
    hide ParseVersion, Printed, Text.Wf;
    if IsVersion(s) { var t := VersionIsPrinted(s); }
    forall t: Text | t.Wf() && s == Printed(t) ensures IsVersion(s) { TextSays(t); }
  }

  // ----- what decides the order -----

  /** Printed versions are compared by major, then minor, then patch number; among
      equal numbers a prerelease comes before the release. */
  lemma NumbersDecide(a: Text, b: Text)
    requires a.Wf() && b.Wf()
    ensures var c := VersionOrder(Printed(a), Printed(b));
            if a.major != b.major then (c < 0 <==> a.major < b.major) && c != 0
            else if a.minor != b.minor then (c < 0 <==> a.minor < b.minor) && c != 0
            else if a.patch != b.patch then (c < 0 <==> a.patch < b.patch) && c != 0
            else if a.pre.None? || b.pre.None? then c == (if a.pre == b.pre then 0 else if a.pre.Some? then -1 else 1)
            else c == IdsOrder(Identifiers(a.pre.value), Identifiers(b.pre.value))
  {
    hide ParseVersion, Printed, Text.Wf, IdsOrder, Identifiers;
    TextSays(a);
    TextSays(b);
  }

  /** Prereleases with the same leading identifiers are decided by the first that
      differs, and when one ends there, the shorter one is lower. */
  lemma {:induction false} LabelsDecide(ids: seq<string>, a: seq<string>, b: seq<string>)
    ensures IdsOrder(ids + a, ids + b) == IdsOrder(a, b)
  {
    hide IdOrder;
    if ids == [] {
      assert ids + a == a && ids + b == b;
    } else {
      IdOrderFlip(ids[0], ids[0]);
      assert (ids + a)[1..] == ids[1..] + a && (ids + b)[1..] == ids[1..] + b;
      LabelsDecide(ids[1..], a, b);
    }
  }
}
