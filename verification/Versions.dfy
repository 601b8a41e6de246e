/** Stable versions: three dotted numerals without leading zeros, pre-release tag or build metadata,
    compared number by number (section 11 of Semantic Versioning 2.0.0). */
module Versions {
  import opened Wrappers
  import opened JsonValues
  import Decimals

  datatype Version = Version(major: nat, minor: nat, patch: nat) {
    predicate Fits() {
      major <= U64_MAX && minor <= U64_MAX && patch <= U64_MAX
    }

    predicate Newer(other: Version) {
      || major > other.major
      || (major == other.major && minor > other.minor)
      || (major == other.major && minor == other.minor && patch > other.patch)
    }

    function Show(): string {
      Decimals.Render(major) + "." + Decimals.Render(minor) + "." + Decimals.Render(patch)
    }
  }

  /** The three numbers as one, most significant first. */
  function Rank(v: Version): nat {
    (v.major * 18_446_744_073_709_551_616 + v.minor) * 18_446_744_073_709_551_616 + v.patch
  }

  /** Precedence compares the numbers from left to right. */
  lemma NewerIsPrecedence(v: Version, w: Version)
    requires v.Fits() && w.Fits()
    ensures v.Newer(w) <==> Rank(v) > Rank(w)
    ensures v == w <==> Rank(v) == Rank(w)
  {
  }

  function Numeral(s: string): Option<nat> {
    match Decimals.Parse(s)
    case None => None
    case Some(n) => if (|s| > 1 && s[0] == '0') || n > U64_MAX then None else Some(n)
  }

  /** The parts between dots. */
  function SplitDots(s: string): (parts: seq<string>)
    ensures parts != []
  {
    if s == "" then [""]
    else if s[0] == '.' then [""] + SplitDots(s[1..])
    else
      var rest := SplitDots(s[1..]);
      [[s[0]] + rest[0]] + rest[1..]
  }

  function Parse(s: string): Option<Version> {
    var parts := SplitDots(s);
    if |parts| != 3 then None
    else
      match (Numeral(parts[0]), Numeral(parts[1]), Numeral(parts[2]))
      case (Some(major), Some(minor), Some(patch)) => Some(Version(major, minor, patch))
      case _ => None
  }

  predicate NoDot(s: string) {
    forall i | 0 <= i < |s| :: s[i] != '.'
  }

  lemma {:induction false} SplitHead(head: string, tail: string)
    requires NoDot(head)
    ensures SplitDots(head) == [head]
    ensures SplitDots(head + "." + tail) == [head] + SplitDots(tail)
  {
    if head == "" {
      assert ("" + "." + tail)[1..] == tail;
    } else {
      SplitHead(head[1..], tail);
      assert (head + "." + tail)[1..] == head[1..] + "." + tail;
      assert [head[0]] + head[1..] == head;
    }
  }

  lemma RenderIsNumeral(n: nat)
    requires n <= U64_MAX
    ensures Numeral(Decimals.Render(n)) == Some(n) && NoDot(Decimals.Render(n))
  {
    Decimals.ParseRender(n);
    Decimals.NoLeadingZero(n);
  }

  lemma NumeralIsRendered(s: string)
    requires Numeral(s).Some?
    ensures s == Decimals.Render(Numeral(s).value)
  {
    Decimals.RenderParse(s);
  }

  /** Showing and parsing are inverse. */
  lemma ParseShow(v: Version)
    requires v.Fits()
    ensures Parse(v.Show()) == Some(v)
  {
    hide Numeral, SplitDots, Decimals.Render;
    var a, b, c := Decimals.Render(v.major), Decimals.Render(v.minor), Decimals.Render(v.patch);
    RenderIsNumeral(v.major);
    RenderIsNumeral(v.minor);
    RenderIsNumeral(v.patch);
    assert v.Show() == a + "." + (b + "." + c);
    SplitHead(a, b + "." + c);
    SplitHead(b, c);
    SplitHead(c, "");
  }

  /** Each version has one spelling, so tags that differ name different versions. */
  lemma ShowParse(s: string)
    requires Parse(s).Some?
    ensures Parse(s).value.Fits() && s == Parse(s).value.Show()
  {
    hide SplitDots, Decimals.Render;
    var parts := SplitDots(s);
    NumeralIsRendered(parts[0]);
    NumeralIsRendered(parts[1]);
    NumeralIsRendered(parts[2]);
    JoinSplit(s);
    JoinThree(parts);
  }

  lemma JoinThree(parts: seq<string>)
    requires |parts| == 3
    ensures Join(parts) == parts[0] + "." + parts[1] + "." + parts[2]
  {
    assert Join(parts[2..]) == parts[2];
    assert parts[1..][1..] == parts[2..];
    assert Join(parts[1..]) == parts[1] + "." + parts[2];
  }

  function Join(parts: seq<string>): string
    requires parts != []
  {
    if |parts| == 1 then parts[0] else parts[0] + "." + Join(parts[1..])
  }

  lemma {:induction false} JoinSplit(s: string)
    ensures Join(SplitDots(s)) == s
  {
    if s != "" {
      JoinSplit(s[1..]);
      var rest := SplitDots(s[1..]);
      if s[0] == '.' {
        assert ([""] + rest)[1..] == rest;
      } else {
        assert ([[s[0]] + rest[0]] + rest[1..])[1..] == rest[1..];
      }
    }
  }
}
