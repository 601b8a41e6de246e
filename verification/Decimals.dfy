/** Unsigned decimal numerals. */
module Decimals {
  import opened Wrappers

  function Digit(d: nat): char
    requires d < 10
  {
    ('0' as int + d) as char
  }

  predicate IsDigit(c: char) {
    '0' <= c <= '9'
  }

  function Render(n: nat): (s: string)
    ensures s != "" && forall i | 0 <= i < |s| :: IsDigit(s[i])
  {
    if n < 10 then [Digit(n)] else Render(n / 10) + [Digit(n % 10)]
  }

  /** The value of a non-empty run of digits; leading zeros are allowed here. */
  function Parse(s: string): Option<nat> {
    if s == "" || !IsDigit(s[|s| - 1]) then None
    else if |s| == 1 then Some(s[0] as int - '0' as int)
    else
      match Parse(s[..|s| - 1])
      case None => None
      case Some(high) => Some(high * 10 + (s[|s| - 1] as int - '0' as int))
  }

  lemma {:induction false} ParseRender(n: nat)
    ensures Parse(Render(n)) == Some(n)
  {
    if n >= 10 {
      ParseRender(n / 10);
      var s := Render(n);
      assert s[..|s| - 1] == Render(n / 10);
    }
  }

  /** Digits are the usual ones, most significant first. */
  lemma RenderIsDecimal(n: nat, d: nat)
    requires d < 10
    ensures Render(d) == ["0123456789"[d]]
    ensures n > 0 ==> Render(n * 10 + d) == Render(n) + ["0123456789"[d]]
  {
  }

  lemma RenderInjective(m: nat, n: nat)
    ensures Render(m) == Render(n) ==> m == n
  {
    ParseRender(m);
    ParseRender(n);
  }

  lemma {:induction false} NoLeadingZero(n: nat)
    ensures |Render(n)| > 1 ==> Render(n)[0] != '0'
    ensures n > 0 ==> Render(n)[0] != '0'
  {
    if n >= 10 {
      NoLeadingZero(n / 10);
    }
  }

  lemma {:induction false} ParsePositive(s: string)
    requires Parse(s).Some? && s[0] != '0'
    ensures Parse(s).value > 0
  {
    if |s| > 1 {
      ParsePositive(s[..|s| - 1]);
    }
  }

  /** A numeral without leading zeros is the rendering of its value. */
  lemma {:induction false} RenderParse(s: string)
    requires Parse(s).Some? && (|s| > 1 ==> s[0] != '0')
    ensures Render(Parse(s).value) == s
  {
    if |s| > 1 {
      var high, low := s[..|s| - 1], s[|s| - 1];
      RenderParse(high);
      ParsePositive(high);
      var n := Parse(s).value;
      assert n / 10 == Parse(high).value && n % 10 == low as int - '0' as int;
      assert s == high + [low];
    }
  }

  predicate IsNumeral(s: string) {
    s != "" && forall i | 0 <= i < |s| :: IsDigit(s[i])
  }

  lemma {:induction false} ParseIff(s: string)
    ensures Parse(s).Some? <==> IsNumeral(s)
  {
    if |s| > 1 {
      var high := s[..|s| - 1];
      ParseIff(high);
      assert s == high + [s[|s| - 1]];
    }
  }

  function Zeros(count: nat): (s: string)
    ensures |s| == count && forall i | 0 <= i < |s| :: s[i] == '0'
  {
    seq(count, _ => '0')
  }

  lemma {:induction false} ParseWithZeros(count: nat, s: string)
    requires s != ""
    ensures Parse(Zeros(count) + s) == Parse(s)
  {
    var t := Zeros(count) + s;
    if |s| > 1 {
      var high := s[..|s| - 1];
      ParseWithZeros(count, high);
      assert t[..|t| - 1] == Zeros(count) + high;
    } else {
      ZerosAreNothing(count);
      assert t[..|t| - 1] == Zeros(count);
    }
  }

  lemma {:induction false} ZerosAreNothing(count: nat)
    ensures count > 0 ==> Parse(Zeros(count)) == Some(0)
  {
    if count > 1 {
      ZerosAreNothing(count - 1);
      assert Zeros(count)[..count - 1] == Zeros(count - 1);
    }
  }

  /** A numeral is the rendering of its value behind some zeros. */
  lemma {:induction false} NumeralIsPadded(s: string) returns (zeros: nat)
    requires Parse(s).Some?
    ensures s == Zeros(zeros) + Render(Parse(s).value)
  {
    if |s| > 1 && s[0] == '0' {
      ParseWithZeros(1, s[1..]);
      assert s == Zeros(1) + s[1..];
      var rest := NumeralIsPadded(s[1..]);
      zeros := rest + 1;
      assert Zeros(zeros) == Zeros(1) + Zeros(rest);
    } else {
      zeros := 0;
      RenderParse(s);
    }
  }
}
