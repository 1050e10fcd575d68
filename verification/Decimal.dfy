/** Decimal digit strings and their values. */
module Decimal {
  import opened JsonGrammar
  import opened JsonChecker

  function Pow10(n: nat): (r: nat)
    ensures r >= 1
  {
    if n == 0 then 1 else 10 * Pow10(n - 1)
  }

  function DigitValue(c: char): nat
    requires IsDigit(c)
  {
    c as int - '0' as int
  }

  predicate Digits(s: string) {
    forall c :: c in s ==> IsDigit(c)
  }

  /** The value of a string of decimal digits. */
  function NatOf(s: string): nat
    requires Digits(s)
  {
    if s == "" then 0 else NatOf(s[..|s| - 1]) * 10 + DigitValue(s[|s| - 1])
  }

  lemma {:induction false} DigitsAre(s: string)
    requires AllDigits(s)
    ensures Digits(s)
  {
    if s != "" { DigitsAre(s[1..]); }
  }

  lemma {:induction false} PowersDiffer(m: nat, n: nat)
    ensures Pow10(m) == Pow10(n) <==> m == n
  {
    if m > 0 && n > 0 { PowersDiffer(m - 1, n - 1); }
  }

  lemma {:induction false} NatOfGrows(s: string, t: string)
    requires Digits(s) && Digits(t)
    ensures Digits(s + t) && NatOf(s + t) >= NatOf(s)
  {
    if t == "" {
      assert s + t == s;
    } else {
      NatOfGrows(s, t[..|t| - 1]);
      assert (s + t)[..|s + t| - 1] == s + t[..|t| - 1];
    }
  }

  lemma DigitsJoin(a: string, b: string)
    requires Digits(a) && Digits(b)
    ensures Digits(a + b)
  {}

  /** The loop that accumulates digits and gives up before it exceeds `limit`. */
  method ReadDecimal(text: string, p0: nat, limit: nat) returns (ok: bool, p: nat, value: nat)
    requires p0 <= |text| && limit >= 9
    ensures p0 <= p <= |text|
    ensures var run := text[p0..][..DigitRun(text[p0..])];
            && Digits(run) && ok == (NatOf(run) <= limit)
            && (ok ==> p == p0 + |run| && value == NatOf(run))
  {
    p, value := p0, 0;
    ghost var run := text[p0..][..DigitRun(text[p0..])];
    DigitRunFacts(text[p0..]);
    DigitsAre(run);
    ghost var seen := "";
    while IsDigit(At(text, p))
      invariant p0 <= p <= |text| && p0 + |run| == p + DigitRun(text[p..])
      invariant seen == run[..p - p0] && Digits(seen) && value == NatOf(seen) <= limit
      decreases |text| - p
    {
      assert text[p..][1..] == text[p + 1..];
      var digit := DigitValue(text[p]);
      ghost var next := run[..p + 1 - p0];
      assert next[..|next| - 1] == seen && next[|next| - 1] == text[p];
      assert run == next + run[p + 1 - p0..];
      NatOfGrows(next, run[p + 1 - p0..]);
      if value > (limit - digit) / 10 {
        return false, p, value;
      }
      value := value * 10 + digit;
      seen := next;
      p := p + 1;
    }
    assert run[..|run|] == run;
    ok := true;
  }

  lemma {:induction false} DigitsIff(s: string)
    ensures AllDigits(s) <==> Digits(s)
  {
    if s != "" {
      DigitsIff(s[1..]);
      assert forall c :: c in s <==> c == s[0] || c in s[1..];
    }
  }

  /** The leading digit. */
  lemma {:induction false} NatOfCons(s: string)
    requires s != "" && Digits(s)
    ensures Digits(s[1..]) && NatOf(s) == DigitValue(s[0]) * Pow10(|s| - 1) + NatOf(s[1..])
  {
    if |s| == 1 {
      assert s[..0] == "" && s[1..] == "";
    } else {
      var t := s[..|s| - 1];
      NatOfCons(t);
      assert t[1..] == s[1..][..|s| - 2];
      assert s[1..][|s| - 2] == s[|s| - 1];
      Regroup(DigitValue(s[0]), Pow10(|s| - 2), NatOf(t[1..]), DigitValue(s[|s| - 1]));
    }
  }

  lemma Regroup(d: nat, p: nat, n: nat, l: nat)
    ensures (d * p + n) * 10 + l == d * (10 * p) + (n * 10 + l)
  {}

  lemma {:induction false} NatOfBound(s: string)
    requires Digits(s)
    ensures NatOf(s) < Pow10(|s|)
    ensures s != "" && s[0] != '0' ==> NatOf(s) >= Pow10(|s| - 1)
  {
    if s != "" {
      var t := s[..|s| - 1];
      NatOfBound(t);
      assert |t| == |s| - 1;
      var d := DigitValue(s[|s| - 1]);
      assert NatOf(s) == NatOf(t) * 10 + d && d <= 9;
      assert Pow10(|s|) == 10 * Pow10(|t|);
      if |s| == 1 {
        assert t == "" && NatOf(t) == 0 && Pow10(0) == 1;
        assert s[0] != '0' ==> DigitValue(s[0]) >= 1;
      } else {
        assert t[0] == s[0] && Pow10(|s| - 1) == 10 * Pow10(|s| - 2);
      }
    }
  }

  lemma {:induction false} Pow10Grows(m: nat, n: nat)
    requires m <= n
    ensures Pow10(m) <= Pow10(n)
  {
    if m < n { Pow10Grows(m, n - 1); }
  }

  lemma MoreTimes(y: nat, k: nat, p: nat)
    requires k >= 1
    ensures (y + k) * p >= y * p + p
  {
    var rest := k - 1;
    assert (y + k) * p == y * p + rest * p + p;
    assert rest * p >= 0;
  }

  // ----- printing -----

  /** The decimal digits of a number, without leading zeros. */
  function DecimalText(n: nat): string {
    if n < 10 then [('0' as int + n) as char] else DecimalText(n / 10) + [('0' as int + n % 10) as char]
  }

  lemma {:induction false} DecimalValue(n: nat)
    ensures var s := DecimalText(n); s != "" && Digits(s) && NatOf(s) == n && (s[0] == '0' ==> n == 0) && (n > 0 ==> s[0] != '0')
    ensures n == 0 ==> DecimalText(n) == "0"
  {
    var s := DecimalText(n);
    if n >= 10 {
      DecimalValue(n / 10);
      assert s[..|s| - 1] == DecimalText(n / 10);
    } else {
      assert s[..0] == "" && NatOf("") == 0;
    }
  }

  lemma LeadCounts(s: string)
    requires s != "" && Digits(s) && s[0] != '0'
    ensures NatOf(s) >= 1
  {
    NatOfBound(s);
  }

  lemma PrintNext(n: nat, d: nat)
    requires n >= 1 && d < 10
    ensures DecimalText(n * 10 + d) == DecimalText(n) + [('0' as int + d) as char]
  {
    Tenfold(n, d);
  }

  /** A digit string without leading zeros is the printout of its value. */
  lemma {:induction false} DigitsArePrinted(s: string)
    requires s != "" && Digits(s) && (|s| > 1 ==> s[0] != '0')
    ensures DecimalText(NatOf(s)) == s
  {
    var t, d := s[..|s| - 1], DigitValue(s[|s| - 1]);
    assert s == t + [s[|s| - 1]];
    assert NatOf(s) == NatOf(t) * 10 + d;
    if t != "" {
      hide NatOf, DecimalText;
      assert t[0] == s[0];
      DigitsArePrinted(t);
      LeadCounts(t);
      PrintNext(NatOf(t), d);
    } else {
      assert NatOf(t) == 0;
    }
  }

  lemma Tenfold(n: nat, d: nat)
    requires d < 10
    ensures (n * 10 + d) / 10 == n && (n * 10 + d) % 10 == d
  {}
}
