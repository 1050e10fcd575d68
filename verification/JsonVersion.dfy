/** `wpm_json_version_one`: recognition of a root "version" that is exactly the
    number 1, by digits and exponent only.  */
module JsonVersion {
  import opened JsonGrammar
  import opened JsonChecker
  import opened JsonFields
  import opened Decimal

  /** Largest admitted document, in bytes. */
  const LIMIT: nat := 4 * 1024 * 1024

  function ExponentOf(e: Exponent): int
    requires e.Exponent? ==> Digits(e.digits)
  {
    if e.NoExponent? then 0 else if e.sign == Minus then 0 - NatOf(e.digits) else NatOf(e.digits) + 0
  }

  function Mantissa(n: Number): string {
    n.whole + n.frac
  }

  predicate Readable(n: Number) {
    Digits(Mantissa(n)) && (n.exp.Exponent? ==> Digits(n.exp.digits))
  }

  /** The exact value: mantissa * 10^(exponent - fraction digits) == 1. */
  predicate IsOne(n: Number) {
    Readable(n) && !n.minus &&
    var shift := ExponentOf(n.exp) - |n.frac|;
    if shift >= 0 then NatOf(Mantissa(n)) * Pow10(shift) == 1 else NatOf(Mantissa(n)) == Pow10(-shift)
  }

  /** Index of the only nonzero digit if it is 1, -1 if all digits are zero,
      -2 otherwise. */
  function Track(s: string): (k: int)
    ensures -2 <= k < |s|
  {
    if s == "" then -1
    else
      var k := Track(s[..|s| - 1]);
      var c := s[|s| - 1];
      if k == -2 || c == '0' then k
      else if c == '1' && k == -1 then |s| - 1
      else -2
  }

  lemma {:induction false} TrackIsValue(s: string, e: nat)
    requires Digits(s)
    ensures Track(s) == -1 <==> NatOf(s) == 0
    ensures NatOf(s) == Pow10(e) <==> Track(s) >= 0 && Track(s) == |s| - 1 - e
  {
    if s != "" {
      var t, d := s[..|s| - 1], DigitValue(s[|s| - 1]);
      TrackIsValue(t, if e > 0 then e - 1 else 0);
      if e > 0 {
        assert Pow10(e) == 10 * Pow10(e - 1);
        assert NatOf(s) == Pow10(e) <==> d == 0 && NatOf(t) == Pow10(e - 1);
        assert d == 0 <==> s[|s| - 1] == '0';
      } else {
        assert NatOf(s) == Pow10(e) <==> d == 1 && NatOf(t) == 0;
        assert d == 1 <==> s[|s| - 1] == '1';
      }
    }
  }

  lemma {:induction false} TrackStays(s: string, t: string)
    requires Track(s) == -2
    ensures Track(s + t) == -2
  {
    if t == "" {
      assert s + t == s;
    } else {
      TrackStays(s, t[..|t| - 1]);
      assert (s + t)[..|s + t| - 1] == s + t[..|t| - 1];
    }
  }

  /** One of the two digit loops: `done` are the digits read before. */
  method TrackDigits(text: string, p0: nat, ghost done: string, position0: nat, nonzero0: int)
    returns (ok: bool, p: nat, position: nat, nonzero: int)
    requires p0 <= |text| && position0 == |done| && nonzero0 == Track(done) != -2
    ensures p0 <= p <= |text|
    ensures var all := done + text[p0..][..DigitRun(text[p0..])];
            && ok == (Track(all) != -2)
            && (ok ==> p == p0 + DigitRun(text[p0..]) && position == |all| && nonzero == Track(all))
  {
    p, position, nonzero := p0, position0, nonzero0;
    ghost var all := done + text[p0..][..DigitRun(text[p0..])];
    ghost var seen := done;
    assert done + text[p0..][..0] == done;
    while IsDigit(At(text, p))
      invariant p0 <= p <= |text| && p0 + DigitRun(text[p0..]) == p + DigitRun(text[p..])
      invariant seen == done + text[p0..][..p - p0]
      invariant position == |seen| && nonzero == Track(seen) != -2
      decreases |text| - p
    {
      assert text[p..][1..] == text[p + 1..];
      ghost var next := done + text[p0..][..p + 1 - p0];
      assert next[..|next| - 1] == seen && next[|next| - 1] == text[p];
      if text[p] != '0' {
        if text[p] != '1' || nonzero >= 0 {
          var more := text[p0..][p + 1 - p0..DigitRun(text[p0..])];
          assert all == next + more;
          TrackStays(next, more);
          return false, p, position, nonzero;
        }
        nonzero := position;
      }
      seen := next;
      position := position + 1;
      p := p + 1;
    }
    ok := true;
  }

  /** The digit test of the source decides the exact value. */
  lemma OneByDigits(n: Number)
    requires n.Wf()
    ensures Readable(n)
    ensures var k := Track(Mantissa(n));
            IsOne(n) <==> !n.minus && k >= 0 && |n.whole| - k - 1 + ExponentOf(n.exp) == 0
  {
    DigitsAre(n.whole);
    DigitsAre(n.frac);
    DigitsJoin(n.whole, n.frac);
    if n.exp.Exponent? { DigitsAre(n.exp.digits); }
    var m, shift := Mantissa(n), ExponentOf(n.exp) - |n.frac|;
    if shift >= 0 {
      TrackIsValue(m, 0);
      Product(NatOf(m), Pow10(shift));
      PowersDiffer(shift, 0);
    } else {
      TrackIsValue(m, -shift);
    }
  }

  lemma Product(x: nat, y: nat)
    requires y >= 1
    ensures x * y == 1 <==> x == 1 && y == 1
  {
    if x >= 1 { assert x * y >= y; assert x * y >= x by { assert x * (y - 1) >= 0; } }
  }

  predicate DeclaresOne(items: Items)
    requires WfItems(true, items)
  {
    var it := FindItem(items, "version", 32);
    it.Item? && it.val.Num? && IsOne(it.val.num)
  }

  /** `wpm_json_version_one`: the first root "version" is a number whose exact
      value is 1. */
  method VersionOne(text: string) returns (ok: bool)
    requires |text| <= LIMIT
    ensures var o := ObjectAt(text); o.Some? ==> ok == DeclaresOne(o.value.0)
  {
    hide ObjectAt, FindItem, FromValue, IsOne;
    assert text[0..] == text;
    ghost var o := ObjectAt(text);
    var value := Field(text, 0, "version");
    if value.None? { return false; }
    ghost var it := if o.Some? then FindItem(o.value.0, "version", 32) else End;
    ok := OneAt(text, value.value, it, if o.Some? then o.value.1 else "", o.Some?);
  }

  lemma ValueText(it: Items, rest: string)
    requires WfItems(true, it) && it.Item?
    ensures var s, t := FromValue(true, it, rest), Tail(true, it, rest);
            && Stop(t) && SpaceRun(t) == |it.endws| && Head(t[|it.endws|..]) in {',', '}'}
            && s != ""
            && if it.val.Num? && !it.val.num.minus
               then IsDigit(s[0]) && s == it.val.num.whole + FractionText(it.val.num.frac, it.val.num.exp, t)
               else !IsDigit(s[0])
  {
    var t := Tail(true, it, rest);
    BareHead(it.val, t);
    SpaceRunOf(it.endws, FromDelimiter(true, it, rest));
    assert t == it.endws + FromDelimiter(true, it, rest);
    assert t[0] == if it.endws == "" then FromDelimiter(true, it, rest)[0] else it.endws[0];
  }

  lemma WholeRun(n: Number, t: string)
    requires n.Wf() && Stop(t)
    ensures var f := FractionText(n.frac, n.exp, t);
            var s := n.whole + f;
            && DigitRun(s) == |n.whole| && s[|n.whole|..] == f && s[..|n.whole|] == n.whole
            && (Head(f) == '.' <==> n.frac != "") && (n.frac == "" ==> f == ExponentText(n.exp, t))
            && (n.frac != "" ==> f[1..] == n.frac + ExponentText(n.exp, t) && IsDigit(Head(f[1..])))
  {
    ParseFractionComplete(n, t);
    DigitRunOf(n.whole, FractionText(n.frac, n.exp, t));
  }

  lemma FractionRun(n: Number, t: string)
    requires n.Wf() && Stop(t)
    ensures var e := ExponentText(n.exp, t);
            var s := n.frac + e;
            && DigitRun(s) == |n.frac| && s[|n.frac|..] == e && s[..|n.frac|] == n.frac
  {
    DigitRunOf(n.frac, ExponentText(n.exp, t));
  }

  /** The fraction digits; `whole` are the digits before them. */
  method FractionAt(text: string, p0: nat, position: nat, nonzero0: int,
                    ghost whole: string, ghost n: Number, ghost t: string, ghost number: bool)
    returns (ok: bool, p: nat, nonzero: int)
    requires p0 <= |text| && position == |whole| && nonzero0 == Track(whole) != -2
    requires number ==> n.Wf() && Stop(t) && whole == n.whole && text[p0..] == FractionText(n.frac, n.exp, t)
    ensures p0 <= p <= |text|
    ensures number ==>
              && ok == (Track(Mantissa(n)) != -2)
              && (ok ==> nonzero == Track(Mantissa(n)) && text[p..] == ExponentText(n.exp, t) && |n.frac| <= p - p0)
  {
    hide Track, ExponentText, FractionText;
    if number { WholeRun(n, t); }
    ok, p, nonzero := true, p0, nonzero0;
    AtIsHead(text, p);
    if At(text, p) != '.' {
      assert whole + "" == whole;
      return;
    }
    p := p + 1;
    AtIsHead(text, p);
    if !IsDigit(At(text, p)) { return false, p, nonzero; }
    if number { FractionRun(n, t); }
    var count;
    ok, p, count, nonzero := TrackDigits(text, p, whole, position, nonzero);
  }

  /** The integer and fraction digits.  `n` and `t` are the number at the cursor
      and the text behind it, when there is one. */
  method MantissaAt(text: string, p0: nat, ghost n: Number, ghost t: string, ghost number: bool)
    returns (ok: bool, p: nat, integerDigits: nat, nonzero: int)
    requires p0 <= |text|
    requires number ==> n.Wf() && Stop(t) && text[p0..] == n.whole + FractionText(n.frac, n.exp, t)
    ensures p0 <= p <= |text|
    ensures number ==>
              && ok == (Track(Mantissa(n)) != -2)
              && (ok ==> && integerDigits == |n.whole| && nonzero == Track(Mantissa(n)) && |Mantissa(n)| <= |text|
                         && text[p..] == ExponentText(n.exp, t))
  {
    assert Track("") == -1;
    hide Track, ExponentText, FractionText;
    if number { WholeRun(n, t); }
    ghost var whole := text[p0..][..DigitRun(text[p0..])];
    assert "" + whole == whole;
    ok, p, integerDigits, nonzero := TrackDigits(text, p0, "", 0, -1);
    if !ok {
      TrackStays(whole, n.frac);
      return;
    }
    if integerDigits > 1 && At(text, p0) == '0' {
      assert !number;
      return false, p, integerDigits, nonzero;
    }
    ok, p, nonzero := FractionAt(text, p, integerDigits, nonzero, whole, n, t, number);
  }

  /** The optional exponent part. */
  method ExponentAt(text: string, p0: nat) returns (ok: bool, p: nat, exponent: int)
    requires p0 <= |text|
    ensures p0 <= p <= |text|
    ensures var e := ParseExponent(text[p0..]);
            e.Ok? && (e.value.Exponent? ==> Digits(e.value.digits)) ==>
              && ok == (ExponentOf(e.value) <= LIMIT && ExponentOf(e.value) + LIMIT >= 0)
              && (ok ==> exponent == ExponentOf(e.value) && text[p..] == e.rest)
  {
    hide DigitRun, NatOf;
    p, exponent := p0, 0;
    var sign := 1;
    AtIsHead(text, p);
    if At(text, p) == 'e' || At(text, p) == 'E' {
      p := p + 1;
      AtIsHead(text, p);
      if At(text, p) == '-' || At(text, p) == '+' {
        sign := if At(text, p) == '-' then -1 else 1;
        p := p + 1;
      }
      AtIsHead(text, p);
      if !IsDigit(At(text, p)) { return false, p, 0; }
      // A token inside the limit cannot balance a larger exponent.
      ok, p, exponent := ReadDecimal(text, p, LIMIT);
      exponent := sign * exponent;
      return;
    }
    ok := true;
  }

  /** The scan of one value; `it` is the member it belongs to in a grammatical text. */
  method OneAt(text: string, p0: nat, ghost it: Items, ghost rest: string, ghost known: bool) returns (ok: bool)
    requires p0 <= |text| <= LIMIT
    requires known ==> WfItems(true, it) && it.Item? && text[p0..] == FromValue(true, it, rest)
    ensures known ==> ok == (it.val.Num? && IsOne(it.val.num))
  {
    hide FromValue, IsOne, Track, NatOf, Tail, FractionText, ExponentText, Mantissa;
    ghost var number := known && it.val.Num? && !it.val.num.minus;
    ghost var n := if number then it.val.num else Number(false, "0", "", NoExponent);
    ghost var t := if number then Tail(true, it, rest) else "";
    if known {
      ValueText(it, rest);
      if it.val.Num? { OneByDigits(it.val.num); }
    }
    AtIsHead(text, p0);
    if !IsDigit(At(text, p0)) { return false; }
    var good, p, integerDigits, nonzero := MantissaAt(text, p0, n, t, number);
    if !good { return false; }
    if number { ParseExponentComplete(n.exp, t); }
    var exponent;
    good, p, exponent := ExponentAt(text, p);
    if !good { return false; }
    p := Space(text, p);
    AtIsHead(text, p);
    ok := nonzero >= 0 && integerDigits - nonzero - 1 + exponent == 0 && (At(text, p) == ',' || At(text, p) == '}');
  }
}
